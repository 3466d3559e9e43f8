/**
 * The user authentication wrapper and session token of the service API.
 * Rust `String`s are Dafny strings; their `len()` is the length of the UTF-8
 * encoding, which `Utf8Len` computes.
 */
module ApiModels {
  import opened Basics

  datatype QaulError = NotAuthorised | UnknownUser | InvalidQuery | InvalidPayload | CallbackTimeout

  /** `QaulResult<T>` */
  datatype QaulResult<+T> = Ok(value: T) | Err(error: QaulError)

  /** A user identity; its contents are opaque to this code. */
  datatype Identity = Identity(bytes: Bytes)

  /** Number of bytes UTF-8 uses for `c`. */
  function Utf8Width(c: char): nat {
    if c as int < 0x80 then 1
    else if c as int < 0x800 then 2
    else if c as int < 0x1_0000 then 3
    else 4
  }

  /** `String::len`: the byte length of the UTF-8 encoding. */
  function Utf8Len(s: string): nat {
    if s == [] then 0 else Utf8Width(s[0]) + Utf8Len(s[1..])
  }

  /** Every character takes one to four bytes. */
  lemma {:induction false} Utf8LenBounds(s: string)
    ensures |s| <= Utf8Len(s) <= 4 * |s|
  {
    if s != [] {
      Utf8LenBounds(s[1..]);
    }
  }

  /** Byte length a session token must have. */
  const TokenLength: nat := 64

  /** A session token; only `TokenFrom` builds one. */
  datatype Token = Token(secret: string)

  /** `Token::from`: the string must be 64 bytes long (the source asserts it) and is kept as is. */
  function TokenFrom(s: string): (t: Token)
    requires Utf8Len(s) == TokenLength
    ensures t.secret == s
    ensures 16 <= |t.secret| <= 64
  {
    Utf8LenBounds(s);
    Token(s)
  }

  /** Two tokens from different strings are different tokens. */
  lemma TokenFromInjective(a: string, b: string)
    requires Utf8Len(a) == TokenLength && Utf8Len(b) == TokenLength
    ensures TokenFrom(a) == TokenFrom(b) <==> a == b
  {
  }

  const TokenPlaceholder: string := "<TOKEN>"

  /** `Token`'s `Debug` output. */
  function TokenDebug(t: Token): string {
    TokenPlaceholder
  }

  /** Is `needle` a contiguous part of `hay`? */
  predicate Contains(hay: string, needle: string) {
    exists i, j :: 0 <= i <= j <= |hay| && hay[i..j] == needle
  }

  /** The debug output never shows the secret, and is the same for every token. */
  lemma TokenDebugHidesSecret(s: string, other: Token)
    requires Utf8Len(s) == TokenLength
    ensures !Contains(TokenDebug(TokenFrom(s)), s)
    ensures TokenDebug(TokenFrom(s)) == TokenDebug(other)
  {
    Utf8LenBounds(s);
  }

  /** Authentication state of a caller. */
  datatype UserAuth = Untrusted(id: Identity) | Trusted(id: Identity, token: string)

  /** `UserAuth::trusted`: the identity and token of a trusted caller, or `NotAuthorised`. */
  function Trust(auth: UserAuth): (r: QaulResult<(Identity, string)>)
    ensures r.Ok? <==> auth.Trusted?
    ensures r.Ok? ==> auth == Trusted(r.value.0, r.value.1)
    ensures r.Err? ==> r.error == NotAuthorised
  {
    match auth
    case Trusted(id, s) => Ok((id, s))
    case Untrusted(_) => Err(NotAuthorised)
  }

  /** `UserAuth::identity`: the identity, whatever the trust status. */
  function IdentityOf(auth: UserAuth): (id: Identity)
    ensures auth == Untrusted(id) || exists s :: auth == Trusted(id, s)
  {
    match auth
    case Trusted(id, _) => id
    case Untrusted(id) => id
  }

  /** `UserAuth::as_untrusted`: the same identity, without trust. */
  function AsUntrusted(auth: UserAuth): (r: UserAuth)
    ensures r.Untrusted?
    ensures IdentityOf(r) == IdentityOf(auth)
    ensures Trust(r) == Err(NotAuthorised)
  {
    Untrusted(IdentityOf(auth))
  }

  /** Dropping trust twice is dropping it once, and an untrusted caller is unchanged by it. */
  lemma AsUntrustedIdempotent(auth: UserAuth)
    ensures AsUntrusted(AsUntrusted(auth)) == AsUntrusted(auth)
    ensures auth.Untrusted? ==> AsUntrusted(auth) == auth
  {
  }

  /** A trusted caller is recovered exactly from what `Trust` gives back. */
  lemma TrustRoundTrip(id: Identity, s: string)
    ensures Trust(Trusted(id, s)) == Ok((id, s))
    ensures IdentityOf(Trusted(id, s)) == IdentityOf(Untrusted(id)) == id
  {
  }
}
