/**
 * The messages of the `qaul.sys.ble` control protocol between the host and the
 * BLE module, as decoded values. The wire encoding (protobuf) is abstracted away:
 * a message is the value of the `ble::Message` one-of, and a `Ble` envelope may
 * carry no message at all.
 */
module BleProto {
  import opened Basics

  /** The error kinds of the protocol that this code uses. */
  datatype BleError = UnknownError

  /**
   * `BleError::into()`: the number an error kind travels as in `error_reason`. The
   * protocol definition that fixes the numbering is not part of this model; proto3
   * makes the first value of an enum 0, and `UnknownError` is taken to be that value.
   */
  function ErrorCode(e: BleError): i32 {
    match e
    case UnknownError => 0
  }

  datatype BleStartResult = BleStartResult(success: bool, errorReason: i32, errorMessage: string)

  /** Capability snapshot of the local Bluetooth adapter. */
  datatype BleDeviceInfo = BleDeviceInfo(
    bleSupport: bool,
    id: string,
    name: string,
    bluetoothOn: bool,
    advExtended: bool,
    advExtendedBytes: u32,
    le2m: bool,
    leCoded: bool,
    leAudio: bool,
    lePeriodicAdvSupport: bool,
    leMultipleAdvSupport: bool,
    offloadFilterSupport: bool,
    offloadScanBatchingSupport: bool)

  /** One message of the control protocol, in either direction. */
  datatype BleMessage =
    | InfoRequest
    | InfoResponse(device: Option<BleDeviceInfo>)
    | StartRequest(qaulId: Bytes)
    | StartResult(result: BleStartResult)
    | StopRequest
    | DirectSend(to: Bytes, data: Bytes)
    | DeviceDiscovered(qaulId: Bytes, rssi: i32)
    | DirectReceived(from: Bytes, data: Bytes)

  /** The decoded envelope; its one-of may be unset. */
  datatype Ble = Ble(message: Option<BleMessage>)
}
