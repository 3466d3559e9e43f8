/** Machine integer ranges and the optional-value wrapper shared by every module. */
module Basics {

  /** An octet, as in Rust's `u8` and the elements of `Vec<u8>` / `Bytes`. */
  type byte = x: int | 0 <= x < 0x100

  /** Raw byte payloads (`Vec<u8>`, `Bytes`). */
  type Bytes = seq<byte>

  type u32 = x: int | 0 <= x < 0x1_0000_0000
  type i16 = x: int | -0x8000 <= x < 0x8000
  type i32 = x: int | -0x8000_0000 <= x < 0x8000_0000

  /** Rust's `Option<T>`. */
  datatype Option<+T> = None | Some(value: T) {

    /** `unwrap_or(default)` */
    function GetOr(default: T): T {
      match this
      case Some(v) => v
      case None => default
    }
  }
}
