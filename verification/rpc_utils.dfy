/**
 * The outbound constructors of the BLE module: each builds one control-protocol
 * message and hands it to the host through `send_ble_sys_msg`. The channel to the
 * host is modelled as the sequence of messages handed to it so far.
 */
module RpcUtils {
  import opened Basics
  import opened BleProto

  /** Messages handed to the host channel, oldest first. */
  type Outbox = seq<BleMessage>

  const AlreadyRunningText: string := "Received start request, but BLE service is already running!"

  /** The result reported when a start request arrives while the service runs. */
  function ResultAlreadyRunning(): BleStartResult {
    BleStartResult(true, ErrorCode(UnknownError), AlreadyRunningText)
  }

  /** The result reported once advertising, serving and scanning are all set up. */
  function ResultStartSuccessful(): BleStartResult {
    BleStartResult(true, 0, "")
  }

  /** Is `m` the start-successful report? */
  predicate IsStartSuccessful(m: BleMessage) {
    m == StartResult(ResultStartSuccessful())
  }

  /** Number of start-successful reports in `out`. */
  function CountStartSuccessful(out: Outbox): nat {
    if out == [] then 0
    else (if IsStartSuccessful(out[0]) then 1 else 0) + CountStartSuccessful(out[1..])
  }

  /** `send_ble_sys_msg`: the encoded message is handed to the host exactly once. */
  function SendBleSysMsg(outbox: Outbox, msg: BleMessage): (r: Outbox)
    ensures |r| == |outbox| + 1
    ensures r[..|outbox|] == outbox
    ensures r[|outbox|] == msg
  {
    outbox + [msg]
  }

  /** `send_result_already_running` */
  function SendResultAlreadyRunning(outbox: Outbox): (r: Outbox)
    ensures |r| == |outbox| + 1 && r[..|outbox|] == outbox
    ensures r[|outbox|].StartResult?
    ensures r[|outbox|].result.success
    ensures r[|outbox|].result.errorReason == ErrorCode(UnknownError)
    ensures |r[|outbox|].result.errorMessage| > 0
    ensures !IsStartSuccessful(r[|outbox|])
  {
    SendBleSysMsg(outbox, StartResult(ResultAlreadyRunning()))
  }

  /** `send_start_successful` */
  function SendStartSuccessful(outbox: Outbox): (r: Outbox)
    ensures |r| == |outbox| + 1 && r[..|outbox|] == outbox
    ensures r[|outbox|].StartResult?
    ensures r[|outbox|].result.success
    ensures r[|outbox|].result.errorReason == 0
    ensures r[|outbox|].result.errorMessage == ""
    ensures IsStartSuccessful(r[|outbox|])
  {
    SendBleSysMsg(outbox, StartResult(ResultStartSuccessful()))
  }

  /** `send_device_found`: the peer's identity and signal strength go out unchanged. */
  function SendDeviceFound(outbox: Outbox, qaulId: Bytes, rssi: i32): (r: Outbox)
    ensures |r| == |outbox| + 1 && r[..|outbox|] == outbox
    ensures r[|outbox|].DeviceDiscovered?
    ensures r[|outbox|].qaulId == qaulId && r[|outbox|].rssi == rssi
  {
    SendBleSysMsg(outbox, DeviceDiscovered(qaulId, rssi))
  }

  /** `send_direct_received`: the sender address and payload go out unchanged. */
  function SendDirectReceived(outbox: Outbox, from: Bytes, data: Bytes): (r: Outbox)
    ensures |r| == |outbox| + 1 && r[..|outbox|] == outbox
    ensures r[|outbox|].DirectReceived?
    ensures r[|outbox|].from == from && r[|outbox|].data == data
  {
    SendBleSysMsg(outbox, DirectReceived(from, data))
  }

  /**
   * The host can tell the two start results apart, and only by their message: both
   * report success, and the reason of the already-running one is `UnknownError`'s
   * number, which need not differ from the 0 of the successful one.
   */
  lemma StartResultsDifferInMessage()
    ensures ResultAlreadyRunning() != ResultStartSuccessful()
    ensures ResultAlreadyRunning().success && ResultStartSuccessful().success
    ensures ResultAlreadyRunning().errorMessage != ResultStartSuccessful().errorMessage
    ensures ResultAlreadyRunning().errorReason == ErrorCode(UnknownError)
    ensures ResultStartSuccessful().errorReason == 0
  {
    assert |ResultAlreadyRunning().errorMessage| > 0;
  }

  /** Counting start-successful reports distributes over concatenation. */
  lemma {:induction false} CountStartSuccessfulAppend(a: Outbox, b: Outbox)
    ensures CountStartSuccessful(a + b) == CountStartSuccessful(a) + CountStartSuccessful(b)
  {
    if a == [] {
      assert a + b == b;
    } else {
      assert (a + b)[1..] == a[1..] + b;
      CountStartSuccessfulAppend(a[1..], b);
    }
  }
}
