# qaul BLE module core, modelled in Dafny

This project models the Bluetooth-Low-Energy transport module of qaul, and the
authentication wrapper of the libqaul service API. It covers four pieces:

- **BLE service lifecycle** (`ble_service.rs`). The service is either idle or
  started. `advertise_scan_listen` acquires three resources in a fixed order:
  the advertisement, then the GATT application, then the discovery stream.
  It then reports success and runs the main loop, which it leaves only on a stop
  event.
  Inside the loop, discovered devices pass through a filter (block list, device
  lookup, main-service UUID). The loop then walks the characteristics of the
  device's main service. It opens a message receiver on each notify/indicate
  characteristic, and reports the peer's identity read from the identity
  characteristic. The capability query maps an adapter snapshot to the
  protocol's device description.
- **Control bridge** (`msg_loop.rs`). A loop over decoded host requests that
  drives the service.
- **Outbound constructors** (`utils.rs`). Each one hands exactly one protocol
  message to the host.
- **`UserAuth` and `Token`** (`models.rs`).

The radio is replaced by explicit inputs. A `Radio` value gives the outcome of
each acquisition, the device each address resolves to, and the merged event
sequence that the main loop sees. A `Device` is a snapshot of what the adapter
answers about a peer. A `World` is what the adapter does while one host
request is handled. Sending to the host is modelled as appending to a sequence
of messages.

Modules: `Basics` (machine integer ranges, `Option`), `BleProto` (protocol
messages), `RpcUtils`, `BleGatt` (advertisement, application, GATT reads and
writes), `BleDiscovery` (filter, per-device handling, main loop),
`BleService` (service states, start, capability query), `MsgLoop`, `ApiModels`.

### Behaviour worth knowing

- There is no error state. The service is only `Idle` or `Started`.
- A failed acquisition does not roll back. The returned idle service keeps the
  handles acquired before the failure. So repeated failed starts accumulate
  advertisement handles (`AdvertiseScanListen`, `StartKeepsHandles`).
- A stop request and a direct-send request do nothing (`NoStartNoChange`).
- A peer's write to the message characteristic (write method `Io`) arrives as a `MsgCharEvent`, and that arm of the main loop is `todo!()`: the first such write panics the loop.
- The advertisement announces only the main service UUID, not the message
  service UUID (`BuildAdvertisement`).
- The "already running" result reports `success = true`. It differs from the
  success result only by its non-empty message (`StartResultsDifferInMessage`).
- `advertise_scan_listen` returns only when its main loop meets a stop signal.
  The stop sender is created inside the call and handed out only in the value
  it returns, so nothing can send a stop while the loop runs. As written, a
  start that acquires every resource therefore never returns. The model still
  takes the stop signal as part of the loop's input, so that the reaction to it
  can be stated. Without one, the start is reported as not returned
  (`AdvertiseScanListen`).
- The bridge awaits each request's handling before reading the next. A start
  that has not returned blocks the bridge for good: no later request is read,
  and the closing of the channel is never seen (`RunningStartBlocksBridge`).
  The model attaches the loop's events to the start request that triggers them.

## Model

| member | source | states |
|---|---|---|
| BleService.NewService | rust/ble_module/src/ble/ble_service.rs:58-70 | A service exists iff the session, the default adapter and powering on all succeed. It starts idle with no handles and an empty block list. |
| BleGatt.BuildAdvertisement | rust/ble_module/src/ble/ble_service.rs:83-89 | The advertisement announces exactly the main service (not the message service). Its tx power is the advert mode. It is discoverable and named "qaul.net". |
| BleGatt.ApplicationShape | rust/ble_module/src/ble/ble_service.rs:110-161 | The application has exactly two primary services, main then message. Each has exactly one characteristic: the identity characteristic and the message characteristic. |
| BleGatt.ApplicationServesIdentity | rust/ble_module/src/ble/ble_service.rs:113-156 | A GATT read of the identity characteristic answers with `qaul_id` for every request. The message characteristic cannot be read, and it accepts writes both with and without response. The identity characteristic accepts no write. |
| BleService.AdvertiseScanListen | rust/ble_module/src/ble/ble_service.rs:74-342 | Acquisitions are requested in order, each only after the previous one succeeded. A failed acquisition returns at once: idle, with the earlier handles kept, and nothing reported. With all three acquired, the call returns iff the main loop meets a stop signal. It returns started iff all three succeed and the loop stopped, with the same adapter, session and block list plus the stop sender. With all three acquired, the success result comes first and exactly once. What follows it (reports, receivers and connection attempts) is exactly the main loop over the service's own block list, the adapter's devices and the merged events. |
| BleService.StartConnectsOnlyUnblocked | rust/ble_module/src/ble/ble_service.rs:176-238 | A start connects only to addresses announced by a `DeviceAdded` event and not on the service's block list, given that the adapter resolves each address to a device with that address. |
| BleService.StartIgnoresBlockedDevices | rust/ble_module/src/ble/ble_service.rs:176-208 | If every announced device is on the service's block list, a start sends at most its start report, opens no receiver and attempts no connection. |
| BleService.StartKeepsHandles | rust/ble_module/src/ble/ble_service.rs:91-192 | A start attempt never gives a handle back. The handles held before are a prefix of those held after, and every new handle is an advertisement or application handle. The block list and adapter are unchanged. |
| BleDiscovery.NextEvent | rust/ble_module/src/ble/ble_service.rs:198-205 | In the merged stream the stop signal becomes `Stop`, and nothing else does. A discovery event becomes a discovered device iff it is `DeviceAdded` for an unblocked address that the adapter resolves, and then it carries the resolved device. |
| BleDiscovery.FilterDiscovery | rust/ble_module/src/ble/ble_service.rs:175-187 | An adapter event becomes a discovered-device event iff it is `DeviceAdded` for an address that is not blocked and that the adapter resolves. The event carries the resolved device. |
| BleDiscovery.HandleDevice | rust/ble_module/src/ble/ble_service.rs:221-261 | A device that does not advertise the main service changes nothing. Otherwise a connection is attempted iff the device is not known to be connected. Reports and receivers are only appended. Every new report is a discovery with the device's RSSI (999 when unavailable), and every new receiver is on this device. |
| BleDiscovery.HandleDiscoveredDevice | rust/ble_module/src/ble/ble_service.rs:221-261 | The source's walk (skip, connect, loop over services, loop over characteristics) has exactly the effect of the declarative `HandleDevice`. |
| BleDiscovery.WalkServices | rust/ble_module/src/ble/ble_service.rs:240-260 | The loop over services processes exactly the characteristics of services whose UUID (nil when unreadable) is the main service UUID, in order. |
| BleDiscovery.WalkCharacteristics | rust/ble_module/src/ble/ble_service.rs:245-259 | The loop over characteristics appends one receiver per notify/indicate characteristic. It appends one report per other readable identity characteristic. |
| BleDiscovery.MainServiceCharsExact | rust/ble_module/src/ble/ble_service.rs:240-245 | A characteristic is considered iff it belongs to some service whose UUID is the main service UUID. |
| BleDiscovery.DiscoveriesExact | rust/ble_module/src/ble/ble_service.rs:254-258 | A report is produced iff there is a readable, non-notifying identity characteristic. The report carries that characteristic's value and the given RSSI. |
| BleDiscovery.SubscriptionsExact | rust/ble_module/src/ble/ble_service.rs:247-253 | A receiver exists iff there is a notify or indicate characteristic with that UUID, and it is always on the same peer. |
| BleDiscovery.MainLoop | rust/ble_module/src/ble/ble_service.rs:212-263 | The loop only appends reports, receivers and connection attempts, and everything it reports is a discovery. |
| BleDiscovery.DroppedEventIgnored | rust/ble_module/src/ble/ble_service.rs:176-187 | An event the filter drops has no effect, wherever it arrives among other events. |
| BleDiscovery.BlockedDeviceIgnored | rust/ble_module/src/ble/ble_service.rs:176-180 | A `DeviceAdded` for a blocked address has no effect, wherever it arrives among other events. |
| BleDiscovery.MainLoopAppend | rust/ble_module/src/ble/ble_service.rs:212-263 | Events before any stop are processed in order, and the loop goes on from the state they leave. |
| BleDiscovery.UnblockedDeviceHandled | rust/ble_module/src/ble/ble_service.rs:176-261 | A `DeviceAdded` for an unblocked address that the adapter resolves, arriving before any stop, applies exactly the per-device handling at that point. A qaul device not known to be connected is then connected to. |
| BleDiscovery.StopEndsLoop | rust/ble_module/src/ble/ble_service.rs:212-217 | Events after the first stop signal have no effect. |
| BleDiscovery.ConnectsOnlyUnblocked | rust/ble_module/src/ble/ble_service.rs:176-238 | Every connection attempt is to an address announced by a `DeviceAdded` event and not on the block list. |
| BleDiscovery.BlockedDevicesIgnored | rust/ble_module/src/ble/ble_service.rs:176-187 | If every announced device is blocked, the loop sends no report, opens no receiver and attempts no connection. |
| BleService.QaulPeerIsDiscovered | rust/ble_module/src/ble/ble_service.rs:221-258 | Another node advertises and serves what this code builds. Seeing it, the loop connects unless already connected, opens no receiver, and reports exactly one discovery with that node's `qaul_id` and RSSI (999 when unknown). |
| BleService.DeviceInfo | rust/ble_module/src/ble/ble_service.rs:353-372 | The max advertisement length defaults to 30 when capabilities are absent. `adv_extended` holds iff that length exceeds 31, and `adv_extended_bytes` equals it. Multiple-advertisement support holds iff hardware offload is supported. BLE support is true, and the unreported LE and offload flags are false. |
| BleService.NoCapabilitiesMeansLegacy | rust/ble_module/src/ble/ble_service.rs:353-363 | An adapter that reports no advertising capabilities is described with the default length of 30 and never as supporting extended advertising. |
| BleService.DeviceInfoExtendedExact | rust/ble_module/src/ble/ble_service.rs:353-363 | The description claims extended advertising iff the adapter reports advertising capabilities with a maximum length above 31 bytes. |
| BleService.GetDeviceInfo | rust/ble_module/src/ble/ble_service.rs:345-378 | A successful query sends exactly one info response describing the adapter. A failed query sends nothing. |
| MsgLoop.HandleSysMsg | rust/ble_module/src/rpc/msg_loop.rs:28-63 | An envelope without a message is skipped. A start request on an idle service becomes `advertise_scan_listen(qaul_id, None)`, and only it can leave the handling unfinished. On a started service it sends only the already-running result and acquires nothing. An info request sends the capability answer. Stop, direct send and every other kind change nothing. |
| MsgLoop.StepStartCount | rust/ble_module/src/rpc/msg_loop.rs:34-46 | Handling one request reports a successful start iff it got all resources for an idle service: the service is then returned started, or the handling never returns. |
| MsgLoop.StepKeepsHandles | rust/ble_module/src/rpc/msg_loop.rs:34-46 | Handling one request never gives a handle back and never changes the block list or adapter. |
| MsgLoop.ListenForSysMsgs | rust/ble_module/src/rpc/msg_loop.rs:17-68 | The loop finishes iff the channel closes before any start blocks it. Only an idle service can block it. A started service stays unchanged and acquires nothing. Handles are never released. The block list and adapter never change. Success is reported once exactly when an idle service got all its resources, and never otherwise. The replies to the first request are the first messages to reach the host. |
| MsgLoop.BridgeUnfold | rust/ble_module/src/rpc/msg_loop.rs:21-65 | One delivered request is handled first. If its handling does not return, the loop blocks there. Otherwise the loop goes on from the service it left, and that request's replies and acquisitions come before those of later requests. |
| MsgLoop.BridgeAppend | rust/ble_module/src/rpc/msg_loop.rs:21-65 | Requests are handled in arrival order. A run over earlier requests that neither closes nor blocks is followed by the run over later ones, starting from the service it left. Replies and acquisitions of the earlier requests come first. |
| MsgLoop.RunningStartBlocksBridge | rust/ble_module/src/rpc/msg_loop.rs:34-40 | A start that acquires everything and meets no stop blocks the loop. Nothing after it is read, not even the channel closing. |
| MsgLoop.ClosedEndsLoop | rust/ble_module/src/rpc/msg_loop.rs:21-27 | Nothing after the channel closes is read. The result is that of the requests before it, marked finished unless a start blocked the loop first. |
| MsgLoop.NoStartNoChange | rust/ble_module/src/rpc/msg_loop.rs:49-62 | A request sequence without start requests leaves the service unchanged, acquires nothing and never blocks. |
| RpcUtils.SendBleSysMsg | rust/ble_module/src/rpc/utils.rs:6-10 | Exactly one message is handed to the host, after everything sent before. |
| RpcUtils.SendResultAlreadyRunning | rust/ble_module/src/rpc/utils.rs:12-18 | One start result with success true, reason `UnknownError`'s number and a non-empty message. It is not the success report. |
| RpcUtils.SendStartSuccessful | rust/ble_module/src/rpc/utils.rs:20-26 | One start result with success true, reason 0 and an empty message. |
| RpcUtils.SendDeviceFound | rust/ble_module/src/rpc/utils.rs:28-32 | One discovery report carrying `qaul_id` and `rssi` unchanged. |
| RpcUtils.SendDirectReceived | rust/ble_module/src/rpc/utils.rs:34-38 | One direct-received message carrying `from` and `data` unchanged. |
| RpcUtils.StartResultsDifferInMessage | rust/ble_module/src/rpc/utils.rs:12-26 | Both start results report success. The host can always tell them apart by the message, which is non-empty only for the already-running one. |
| ApiModels.Utf8LenBounds | libqaul/src/api/models.rs:38 | A string's byte length (as `len()` counts it) is between its character count and four times that. |
| ApiModels.TokenFrom | libqaul/src/api/models.rs:36-41 | Building a token requires a 64-byte string and keeps it unchanged. Such a string has 16 to 64 characters. |
| ApiModels.TokenFromInjective | libqaul/src/api/models.rs:36-41 | Two tokens are equal iff they were built from equal strings. |
| ApiModels.TokenDebugHidesSecret | libqaul/src/api/models.rs:30-34 | The debug output of a token never contains its secret, and is the same for every token. |
| ApiModels.Trust | libqaul/src/api/models.rs:53-59 | The result is `Ok` iff the caller is trusted, and then it holds exactly the trusted identity and token. Otherwise it is `Err(NotAuthorised)`. |
| ApiModels.IdentityOf | libqaul/src/api/models.rs:61-67 | Returns the identity the value was built with, for both variants. |
| ApiModels.AsUntrusted | libqaul/src/api/models.rs:69-72 | Always yields `Untrusted` with the same identity, which `Trust` then refuses. |
| ApiModels.AsUntrustedIdempotent | libqaul/src/api/models.rs:69-72 | Applying it twice equals applying it once, and an untrusted value is left as it is. |
| ApiModels.TrustRoundTrip | libqaul/src/api/models.rs:53-67 | A trusted value is recovered from what `trusted()` returns. Both variants built from one identity report that identity. |

## Left out

- The asynchronous machinery is not modelled: the `merge()` of the stop, characteristic and discovery streams, `filter_map` and `map` on streams, and task spawning. The main loop is a fold over a finite sequence of merged events, in arrival order. The merged stream never ends while the stop sender lives, so the sequence stands for the events that have arrived so far. Without a stop among them, the loop is still waiting for the next event.
- The `MessageReceived`, `MainCharEvent` and `MsgCharEvent` arms of the main loop are `todo!()`: reaching one panics. The model leaves these events out of the event type, so it does not model the panic.
- The commented-out `tokio::select!` loop is not live code.
- The `unwrap()` calls on remote services, characteristics, flags, `notify_io`, the characteristic UUID and the characteristic read are not modelled. The device snapshot always holds these values, so the panic paths are outside the model. The same goes for the unwrap of the supported advertising features in the capability query.
- The result of `device.connect()` is ignored by the code. The model records only that a connection was attempted.
- A receiver is modelled as the peer address and characteristic UUID it was opened on. Its byte stream is not modelled, because nothing in live code reads it.
- The control handles from `service_control()` and `characteristic_control()` are not modelled. The `CharaHandle` and `ServiceHandle` variants are declared, as in the code, but no code path creates them.
- The UUID values and the Bluetooth address text come from files that are not part of this model (`ble_uuids`, bluer's address formatting). UUIDs are distinct symbolic constants. The adapter address is given as already-formatted text.
- Protobuf encoding, `process_received_message` and the channel plumbing of `rpc/mod.rs` are not modelled. That includes bounded queues and dropping a message when the queue is full. Messages are decoded values, and every message handed to the host is assumed delivered.
- Logging is not modelled.
- `send_direct_received` is modelled (`SendDirectReceived`), but only the commented-out loop calls it. So no live path produces a direct-received message, and message receivers are never read.
- MsgLoop.HandleSysMsg: an info request spawns a task that answers later. The model places the answer at the point of the request, so it does not model how the answer interleaves with later messages.
- MsgLoop.ListenForSysMsgs: when no close is delivered, the real loop blocks on the next receive. The model stops at the end of its input with `finished` and `blocked` both false.
- RpcUtils.StartResultsDifferInMessage: the numbering of `BleError` comes from the protocol definition, which is not part of this model. `UnknownError` is taken to be 0, the first value of a proto3 enum. The distinction by message holds whatever the number is.
- BleDiscovery.ConnectsOnlyUnblocked: requires that the adapter resolve an address to a device with that same address. This is a property of the adapter, which is not part of this model.
- ApiModels.TokenFrom: the length assertion, which panics, is a precondition.
- The remaining declarations of `models.rs` (`SigTrust`, `Message`, `Recipient`, `File`, `FileMeta`, `FileFilter`) carry no behaviour.
- The other files of the repository are outside the modelled core. `ble_connector.rs` is all `todo!()`, `ble_connect.rs` and `ble_manager.rs` only declare traits, and `main.rs` only sets up logging. Also outside: the LAN transport, the libqaul API thread set-up, the data store and the generated Kotlin files.
