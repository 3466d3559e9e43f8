/**
 * The BLE service state machine: an idle service holding the adapter, the session,
 * the resource handles acquired so far and the device block list; `advertise_scan_listen`
 * acquiring advertisement, GATT application and discovery stream in that order and
 * then running the main loop; and the adapter capability query.
 *
 * The adapter is replaced by a `Radio`: the outcome of each of the three
 * acquisitions, the device lookup, the stop-channel sender, and the merged event
 * sequence the main loop sees.
 */
module BleService {
  import opened Basics
  import opened BleProto
  import opened BleGatt
  import opened BleDiscovery
  import RpcUtils

  /** Handle tokens the adapter returns; dropping one releases the resource. */
  datatype AdvertisementToken = AdvertisementToken(id: nat)
  datatype ApplicationToken = ApplicationToken(id: nat)

  /** The resource handles a service may hold. */
  datatype BleHandle =
    | AdvertisementHandle(advertisement: AdvertisementToken)
    | AppHandle(application: ApplicationToken)
    | CharaHandle(characteristic: nat)
    | ServiceHandle(service: nat)

  datatype Adapter = Adapter(id: nat)
  datatype Session = Session(id: nat)

  /** The sending end of the loop's stop channel. */
  datatype StopSender = StopSender(channel: nat)

  datatype IdleBleService = IdleBleService(
    bleHandles: seq<BleHandle>,
    adapter: Adapter,
    session: Session,
    deviceBlockList: seq<Address>)

  datatype StartedBleService = StartedBleService(
    bleHandles: seq<BleHandle>,
    adapter: Adapter,
    session: Session,
    deviceBlockList: seq<Address>,
    stopHandle: StopSender)

  /** The service: idle, or started with a way to stop its loop. There is no error state. */
  datatype QaulBleService = Idle(idle: IdleBleService) | Started(started: StartedBleService) {

    function Handles(): seq<BleHandle> {
      match this
      case Idle(s) => s.bleHandles
      case Started(s) => s.bleHandles
    }

    function BlockList(): seq<Address> {
      match this
      case Idle(s) => s.deviceBlockList
      case Started(s) => s.deviceBlockList
    }

    function AdapterOf(): Adapter {
      match this
      case Idle(s) => s.adapter
      case Started(s) => s.adapter
    }
  }

  /**
   * What the adapter does during one `advertise_scan_listen`: the outcome of
   * advertising, of serving the application and of starting discovery; the device
   * each address resolves to; the stop sender; and the merged events of the loop.
   */
  datatype Radio = Radio(
    advertise: Option<AdvertisementToken>,
    serve: Option<ApplicationToken>,
    discover: bool,
    devices: map<Address, Device>,
    stopSender: StopSender,
    events: seq<Incoming>)

  /** The acquisition requests made to the adapter. */
  datatype AdapterCall =
    | Advertise(advertisement: Advertisement)
    | ServeGattApplication(application: Application)
    | DiscoverDevices

  /**
   * The outcome of one `advertise_scan_listen`. `returned` tells whether the call has
   * returned; while it has not, its main loop is still running, and `service` is the
   * idle service as the call took it over, holding every handle acquired.
   */
  datatype StartRun = StartRun(
    service: QaulBleService,
    calls: seq<AdapterCall>,
    sent: seq<BleMessage>,
    receivers: seq<MessageReceiver>,
    connects: seq<Address>,
    returned: bool)

  /** Did all three acquisitions succeed? */
  predicate AllAcquired(radio: Radio) {
    radio.advertise.Some? && radio.serve.Some? && radio.discover
  }

  /**
   * `IdleBleService::new`: open a session, take its default adapter and power it on;
   * any failure is an error (`None`).
   */
  function NewService(session: Option<Session>, adapter: Option<Adapter>, powerOn: bool): (r: Option<QaulBleService>)
    ensures r.Some? <==> session.Some? && adapter.Some? && powerOn
    ensures r.Some? ==> r.value.Idle? && r.value.Handles() == [] && r.value.BlockList() == []
                        && r.value.idle.session == session.value && r.value.AdapterOf() == adapter.value
  {
    match session
    case None => None
    case Some(s) =>
      match adapter
      case None => None
      case Some(a) =>
        if !powerOn then None else Some(Idle(IdleBleService([], a, s, [])))
  }

  /**
   * `advertise_scan_listen`: advertise, serve the application, start discovery,
   * report success, run the main loop until it stops and return the started service.
   * Any failed acquisition returns the idle service at once, keeping the handles
   * acquired before it. With every resource acquired, the call returns only once the
   * loop meets a stop signal.
   */
  function AdvertiseScanListen(svc: IdleBleService, qaulId: Bytes, advertMode: Option<i16>, radio: Radio): (r: StartRun)
    // the three acquisitions are requested in order, each only if the previous one succeeded
    ensures radio.advertise.None? ==> r.calls == [Advertise(BuildAdvertisement(advertMode))]
    ensures radio.advertise.Some? && radio.serve.None? ==>
              r.calls == [Advertise(BuildAdvertisement(advertMode)), ServeGattApplication(BuildApplication(qaulId))]
    ensures radio.advertise.Some? && radio.serve.Some? ==>
              r.calls == [Advertise(BuildAdvertisement(advertMode)), ServeGattApplication(BuildApplication(qaulId)),
                          DiscoverDevices]
    // a failed acquisition returns at once; otherwise the call returns only through a stop
    ensures r.returned <==> !AllAcquired(radio) || LoopStops(radio.events)
    // the service is returned started iff all three succeed and the loop stopped
    ensures r.service.Started? <==> AllAcquired(radio) && r.returned
    // failure: idle, nothing reported, no rollback of earlier handles
    ensures radio.advertise.None? ==> r.service == Idle(svc)
    ensures radio.advertise.Some? && radio.serve.None? ==>
              r.service == Idle(svc.(bleHandles := svc.bleHandles + [AdvertisementHandle(radio.advertise.value)]))
    ensures radio.advertise.Some? && radio.serve.Some? && !radio.discover ==>
              r.service == Idle(svc.(bleHandles := svc.bleHandles + [AdvertisementHandle(radio.advertise.value),
                                                                     AppHandle(radio.serve.value)]))
    ensures !AllAcquired(radio) ==> r.sent == [] && r.receivers == [] && r.connects == []
    // success: the same resources plus the stop sender, start reported first and once
    ensures AllAcquired(radio) && r.returned ==>
              r.service == Started(StartedBleService(
                svc.bleHandles + [AdvertisementHandle(radio.advertise.value), AppHandle(radio.serve.value)],
                svc.adapter, svc.session, svc.deviceBlockList, radio.stopSender))
    ensures AllAcquired(radio) && !r.returned ==>
              r.service == Idle(svc.(bleHandles := svc.bleHandles + [AdvertisementHandle(radio.advertise.value),
                                                                     AppHandle(radio.serve.value)]))
    // with everything acquired, what follows the start report is the main loop over the
    // service's own block list, the adapter's devices and the merged events
    ensures AllAcquired(radio) ==>
              var done := MainLoop(svc.deviceBlockList, radio.devices, radio.events,
                                   LoopState(RpcUtils.SendStartSuccessful([]), [], []));
              r.sent == done.sent && r.receivers == done.receivers && r.connects == done.connects
    ensures AllAcquired(radio) ==> |r.sent| >= 1 && RpcUtils.IsStartSuccessful(r.sent[0])
    ensures forall k :: 1 <= k < |r.sent| ==> r.sent[k].DeviceDiscovered?
    ensures RpcUtils.CountStartSuccessful(r.sent) == (if AllAcquired(radio) then 1 else 0)
  {
    var advCall := Advertise(BuildAdvertisement(advertMode));
    match radio.advertise
    case None => StartRun(Idle(svc), [advCall], [], [], [], true)
    case Some(adv) =>
      var svc1 := svc.(bleHandles := svc.bleHandles + [AdvertisementHandle(adv)]);
      var serveCall := ServeGattApplication(BuildApplication(qaulId));
      match radio.serve
      case None => StartRun(Idle(svc1), [advCall, serveCall], [], [], [], true)
      case Some(app) =>
        var svc2 := svc1.(bleHandles := svc1.bleHandles + [AppHandle(app)]);
        var calls := [advCall, serveCall, DiscoverDevices];
        assert svc2.bleHandles == svc.bleHandles + [AdvertisementHandle(adv), AppHandle(app)];
        if !radio.discover then StartRun(Idle(svc2), calls, [], [], [], true)
        else
          var start := LoopState(RpcUtils.SendStartSuccessful([]), [], []);
          var done := MainLoop(svc.deviceBlockList, radio.devices, radio.events, start);
          NoStartReportAmongDiscoveries(done.sent);
          if LoopStops(radio.events) then
            StartRun(
              Started(StartedBleService(svc2.bleHandles, svc.adapter, svc.session, svc.deviceBlockList, radio.stopSender)),
              calls, done.sent, done.receivers, done.connects, true)
          else
            StartRun(Idle(svc2), calls, done.sent, done.receivers, done.connects, false)
  }

  /**
   * A started service connects only to addresses announced by a `DeviceAdded` event
   * and not on its block list.
   */
  lemma StartConnectsOnlyUnblocked(svc: IdleBleService, qaulId: Bytes, advertMode: Option<i16>, radio: Radio)
    requires ResolvesFaithfully(radio.devices)
    ensures var r := AdvertiseScanListen(svc, qaulId, advertMode, radio);
      forall a :: a in r.connects ==> a !in svc.deviceBlockList && Discovery(DeviceAdded(a)) in radio.events
  {
    var r := AdvertiseScanListen(svc, qaulId, advertMode, radio);
    if AllAcquired(radio) {
      var start := LoopState(RpcUtils.SendStartSuccessful([]), [], []);
      var done := MainLoop(svc.deviceBlockList, radio.devices, radio.events, start);
      ConnectsOnlyUnblocked(svc.deviceBlockList, radio.devices, radio.events, start);
      assert r.connects == done.connects && start.connects == [];
      forall a | a in r.connects
        ensures a !in svc.deviceBlockList && Discovery(DeviceAdded(a)) in radio.events
      {
        var k :| 0 <= k < |done.connects| && done.connects[k] == a;
        assert |start.connects| <= k < |done.connects|;
      }
    }
  }

  /**
   * A start whose announced devices are all on the service's block list reports its
   * start and nothing else, opens no receiver and attempts no connection.
   */
  lemma StartIgnoresBlockedDevices(svc: IdleBleService, qaulId: Bytes, advertMode: Option<i16>, radio: Radio)
    requires forall k :: 0 <= k < |radio.events| && radio.events[k].Discovery? && radio.events[k].event.DeviceAdded? ==>
               radio.events[k].event.addr in svc.deviceBlockList
    ensures var r := AdvertiseScanListen(svc, qaulId, advertMode, radio);
      && r.sent == (if AllAcquired(radio) then [StartResult(RpcUtils.ResultStartSuccessful())] else [])
      && r.receivers == [] && r.connects == []
  {
    if AllAcquired(radio) {
      var start := LoopState(RpcUtils.SendStartSuccessful([]), [], []);
      BlockedDevicesIgnored(svc.deviceBlockList, radio.devices, radio.events, start);
    }
  }

  /** A report sequence whose tail holds only discoveries counts the start report at its head alone. */
  lemma NoStartReportAmongDiscoveries(out: seq<BleMessage>)
    requires |out| >= 1 && RpcUtils.IsStartSuccessful(out[0])
    requires forall k :: 1 <= k < |out| ==> out[k].DeviceDiscovered?
    ensures RpcUtils.CountStartSuccessful(out) == 1
  {
    OnlyDiscoveriesCountZero(out[1..]);
  }

  /** Discovery reports are never start reports. */
  lemma {:induction false} OnlyDiscoveriesCountZero(out: seq<BleMessage>)
    requires forall k :: 0 <= k < |out| ==> out[k].DeviceDiscovered?
    ensures RpcUtils.CountStartSuccessful(out) == 0
  {
    if out != [] {
      OnlyDiscoveriesCountZero(out[1..]);
    }
  }

  /**
   * Handles are never given back by a start attempt: whatever it returns holds the
   * handles held before, followed by those it acquired.
   */
  lemma StartKeepsHandles(svc: IdleBleService, qaulId: Bytes, advertMode: Option<i16>, radio: Radio)
    ensures var r := AdvertiseScanListen(svc, qaulId, advertMode, radio);
      && svc.bleHandles <= r.service.Handles()
      && (forall k :: |svc.bleHandles| <= k < |r.service.Handles()| ==>
            r.service.Handles()[k].AdvertisementHandle? || r.service.Handles()[k].AppHandle?)
      && r.service.BlockList() == svc.deviceBlockList
      && r.service.AdapterOf() == svc.adapter
  {
  }

  // ------------------------------------------------------------------------------
  // Adapter capability query
  // ------------------------------------------------------------------------------

  datatype PlatformFeature = CanSetTxPower | HardwareOffload

  datatype AdvertisingCapabilities = AdvertisingCapabilities(maxAdvertisementLength: byte)

  /**
   * The adapter's answers to the capability query: supported platform features,
   * advertising capabilities (absent on some stacks), address text, name, power state.
   */
  datatype AdapterSnapshot = AdapterSnapshot(
    features: set<PlatformFeature>,
    capabilities: Option<AdvertisingCapabilities>,
    address: string,
    name: string,
    powered: bool)

  /** Advertisement length assumed when the adapter does not report one. */
  const DefaultMaxAdvLength: byte := 30

  /** Longest legacy advertisement; anything longer needs extended advertising. */
  const LegacyAdvLength: int := 31

  /** The capability snapshot mapped to the protocol's device description. */
  function DeviceInfo(snap: AdapterSnapshot): (info: BleDeviceInfo)
    ensures info.advExtended <==> info.advExtendedBytes > LegacyAdvLength
    ensures snap.capabilities.None? ==> info.advExtendedBytes == DefaultMaxAdvLength as int
    ensures snap.capabilities.Some? ==> info.advExtendedBytes == snap.capabilities.value.maxAdvertisementLength as int
    ensures info.leMultipleAdvSupport <==> HardwareOffload in snap.features
    ensures info.bleSupport
    ensures !info.le2m && !info.leCoded && !info.leAudio && !info.lePeriodicAdvSupport
    ensures !info.offloadFilterSupport && !info.offloadScanBatchingSupport
    ensures info.id == snap.address && info.name == snap.name && info.bluetoothOn == snap.powered
  {
    var maxAdvLength: byte := match snap.capabilities
      case Some(caps) => caps.maxAdvertisementLength
      case None => DefaultMaxAdvLength;
    BleDeviceInfo(
      bleSupport := true,
      id := snap.address,
      name := snap.name,
      bluetoothOn := snap.powered,
      advExtended := maxAdvLength > LegacyAdvLength,
      advExtendedBytes := maxAdvLength,
      le2m := false,
      leCoded := false,
      leAudio := false,
      lePeriodicAdvSupport := false,
      leMultipleAdvSupport := HardwareOffload in snap.features,
      offloadFilterSupport := false,
      offloadScanBatchingSupport := false)
  }

  /** An adapter that reports no advertising capabilities is never described as extended. */
  lemma NoCapabilitiesMeansLegacy(snap: AdapterSnapshot)
    requires snap.capabilities.None?
    ensures !DeviceInfo(snap).advExtended && DeviceInfo(snap).advExtendedBytes == DefaultMaxAdvLength as int
  {
  }

  /**
   * Seen from the adapter's side: the description claims extended advertising iff the
   * adapter reports capabilities whose advertisement length exceeds the legacy 31 bytes.
   */
  lemma DeviceInfoExtendedExact(snap: AdapterSnapshot)
    ensures DeviceInfo(snap).advExtended <==>
              snap.capabilities.Some? && snap.capabilities.value.maxAdvertisementLength > LegacyAdvLength
  {
    if snap.capabilities.None? {
      NoCapabilitiesMeansLegacy(snap);
    }
  }

  /**
   * `get_device_info`: when the adapter answers (`Some`), exactly one info response
   * describing it goes to the host; when a query fails, nothing is sent.
   */
  function GetDeviceInfo(query: Option<AdapterSnapshot>, outbox: RpcUtils.Outbox): (r: RpcUtils.Outbox)
    ensures query.None? ==> r == outbox
    ensures query.Some? ==> |r| == |outbox| + 1 && r[..|outbox|] == outbox
                            && r[|outbox|] == InfoResponse(Some(DeviceInfo(query.value)))
  {
    match query
    case None => outbox
    case Some(snap) => RpcUtils.SendBleSysMsg(outbox, InfoResponse(Some(DeviceInfo(snap))))
  }

  // ------------------------------------------------------------------------------
  // Two qaul nodes seeing each other
  // ------------------------------------------------------------------------------

  /** The flags a remote node sees on a characteristic this code declares. */
  function RemoteFlags(c: Characteristic): CharFlags {
    CharFlags(
      read := c.read.Some? && c.read.value.read,
      write := c.write.Some? && c.write.value.write,
      writeWithoutResponse := c.write.Some? && c.write.value.writeWithoutResponse,
      notify := false,
      indicate := false)
  }

  /** What a remote node reads from a characteristic this code declares. */
  function RemoteValue(c: Characteristic, req: ReadRequest): Bytes {
    match c.read
    case Some(r) => AnswerRead(r, req)
    case None => []
  }

  function RemoteServiceOf(s: Service, req: ReadRequest): RemoteService {
    RemoteService(Some(s.uuid), seq(|s.characteristics|, k requires 0 <= k < |s.characteristics| =>
      RemoteChar(s.characteristics[k].uuid, RemoteFlags(s.characteristics[k]), RemoteValue(s.characteristics[k], req))))
  }

  /** How a node that advertises `adv` and serves `app` appears to a scanning node. */
  function PeerView(adv: Advertisement, app: Application, address: Address, connected: bool,
                    rssi: Option<i16>, req: ReadRequest): Device {
    Device(address, Some(adv.serviceUuids), Some(connected),
           seq(|app.services|, k requires 0 <= k < |app.services| => RemoteServiceOf(app.services[k], req)),
           rssi)
  }

  /** The characteristic a scanner finds in the main service of a node running this code. */
  function IdentityCharOf(qaulId: Bytes): RemoteChar {
    RemoteChar(ReadChar, CharFlags(true, false, false, false, false), qaulId)
  }

  /** How a scanner sees the main service this code serves. */
  lemma MainServiceView(qaulId: Bytes, req: ReadRequest)
    ensures RemoteServiceOf(MainGattService(qaulId), req) == RemoteService(Some(MainService), [IdentityCharOf(qaulId)])
  {
    var v := RemoteServiceOf(MainGattService(qaulId), req);
    assert |v.characteristics| == 1 && v.characteristics[0] == IdentityCharOf(qaulId);
  }

  /** Of a main service followed by another service, only the main one's characteristics count. */
  lemma MainThenOtherChars(main: RemoteService, other: RemoteService)
    requires main.uuid == Some(MainService) && other.uuid.GetOr(Nil) != MainService
    ensures MainServiceChars([main, other]) == main.characteristics
  {
    assert [main, other][..1] == [main] && [main][..0] == [];
    assert MainServiceChars([main]) == main.characteristics;
    assert ConsideredChars(other) == [];
    assert MainServiceChars([main, other]) == MainServiceChars([main]) + ConsideredChars(other);
  }

  /**
   * A node running this code advertises the main service, and the only characteristic
   * a scanner considers is the readable identity characteristic holding its `qaul_id`.
   */
  lemma PeerMainChars(qaulId: Bytes, advertMode: Option<i16>, address: Address, connected: bool,
                      rssi: Option<i16>, req: ReadRequest)
    ensures var d := PeerView(BuildAdvertisement(advertMode), BuildApplication(qaulId), address, connected, rssi, req);
      AdvertisesQaul(d) && MainServiceChars(d.services) == [IdentityCharOf(qaulId)]
  {
    var d := PeerView(BuildAdvertisement(advertMode), BuildApplication(qaulId), address, connected, rssi, req);
    var main := RemoteServiceOf(MainGattService(qaulId), req);
    var other := RemoteServiceOf(MsgGattService(), req);
    assert d.services == [main, other];
    MainServiceView(qaulId, req);
    MainThenOtherChars(main, other);
  }

  /** An identity characteristic alone yields one report and no receiver. */
  lemma SingleIdentityChar(c: RemoteChar, peer: Address, rssi: i32)
    requires IsIdentityChar(c)
    ensures Discoveries([c], rssi) == [DeviceDiscovered(c.value, rssi)]
    ensures Subscriptions(peer, [c]) == []
  {
    assert [c][..0] == [];
  }

  /**
   * A node running this code is discovered by another one: the scanner connects
   * unless already connected, opens no receiver, and reports exactly one discovery
   * carrying the peer's identity and signal strength (999 when unknown).
   */
  lemma QaulPeerIsDiscovered(qaulId: Bytes, advertMode: Option<i16>, address: Address, connected: bool,
                             rssi: Option<i16>, req: ReadRequest, st: LoopState)
    ensures HandleDevice(PeerView(BuildAdvertisement(advertMode), BuildApplication(qaulId), address, connected, rssi, req), st)
         == LoopState(st.sent + [DeviceDiscovered(qaulId, rssi.GetOr(RssiUnavailable))],
                      st.receivers,
                      st.connects + (if connected then [] else [address]))
  {
    var d := PeerView(BuildAdvertisement(advertMode), BuildApplication(qaulId), address, connected, rssi, req);
    PeerMainChars(qaulId, advertMode, address, connected, rssi, req);
    SingleIdentityChar(IdentityCharOf(qaulId), address, ReportedRssi(d));
    assert st.receivers + [] == st.receivers;
  }
}
