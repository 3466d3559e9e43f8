/**
 * The discovery side of the BLE main loop: the filter from adapter events to loop
 * events, the handling of one discovered device, and the loop itself as a fold over
 * the merged event sequence.
 *
 * The adapter's answers about a device (advertised UUIDs, connection state, GATT
 * services and characteristics, characteristic values, RSSI) are a snapshot taken
 * as input. The merged stream of stop signal and discovery events is given by a
 * finite list of the events that have arrived so far: the stream itself never ends,
 * so a list without a stop signal leaves the loop still waiting for the next event.
 */
module BleDiscovery {
  import opened Basics
  import opened BleProto
  import opened BleGatt
  import RpcUtils

  /** A Bluetooth device address. */
  datatype Address = Address(octets: Bytes)

  /** Events of the adapter's discovery stream. */
  datatype AdapterEvent = DeviceAdded(addr: Address) | DeviceRemoved(addr: Address) | PropertyChanged

  datatype CharFlags = CharFlags(read: bool, write: bool, writeWithoutResponse: bool, notify: bool, indicate: bool)

  /** A characteristic of a remote device, with the bytes a read of it returns. */
  datatype RemoteChar = RemoteChar(uuid: Uuid, flags: CharFlags, value: Bytes)

  /** A remote GATT service; `uuid` is `None` when querying its identifier fails. */
  datatype RemoteService = RemoteService(uuid: Option<Uuid>, characteristics: seq<RemoteChar>)

  /**
   * What the adapter reports about a remote device. `uuids` is `None` when the query
   * fails or the device reports none, `isConnected` is `None` when the query fails.
   */
  datatype Device = Device(
    address: Address,
    uuids: Option<set<Uuid>>,
    isConnected: Option<bool>,
    services: seq<RemoteService>,
    rssi: Option<i16>)

  /** The events of the main loop that have behaviour (`Stop` and `DeviceDiscovered`). */
  datatype MainLoopEvent = Stop | Discovered(device: Device)

  /** One item of the merged stream: the stop signal or a discovery-stream event. */
  datatype Incoming = StopSignal | Discovery(event: AdapterEvent)

  /** An inbound byte stream opened on a peer's notify/indicate characteristic. */
  datatype MessageReceiver = MessageReceiver(peer: Address, characteristic: Uuid)

  /** What the loop has done so far: reports sent, receivers opened, connections attempted. */
  datatype LoopState = LoopState(sent: seq<BleMessage>, receivers: seq<MessageReceiver>, connects: seq<Address>)

  /** Signal strength reported when the device's RSSI is unavailable. */
  const RssiUnavailable: i16 := 999

  /**
   * The `filter_map` on the discovery stream: only `DeviceAdded` of an address that is
   * not blocked and that the adapter can resolve to a device becomes a loop event.
   */
  function FilterDiscovery(blockList: seq<Address>, devices: map<Address, Device>, e: AdapterEvent): (r: Option<MainLoopEvent>)
    ensures r.Some? <==> e.DeviceAdded? && e.addr !in blockList && e.addr in devices
    ensures r.Some? ==> r.value.Discovered? && r.value.device == devices[e.addr]
  {
    match e
    case DeviceAdded(addr) =>
      if addr in blockList then None
      else if addr in devices then Some(Discovered(devices[addr]))
      else None
    case _ => None
  }

  /** The adapter resolves an address to the device with that address. */
  predicate ResolvesFaithfully(devices: map<Address, Device>) {
    forall a :: a in devices ==> devices[a].address == a
  }

  /** The merge: the stop signal maps to `Stop`, discovery events go through the filter. */
  function NextEvent(blockList: seq<Address>, devices: map<Address, Device>, i: Incoming): (r: Option<MainLoopEvent>)
    ensures r == Some(Stop) <==> i == StopSignal
    // a discovery event becomes exactly what the filter makes of it
    ensures r.Some? && r.value.Discovered? <==>
              i.Discovery? && i.event.DeviceAdded? && i.event.addr !in blockList && i.event.addr in devices
    ensures r.Some? && r.value.Discovered? ==> r.value.device == devices[i.event.addr]
  {
    match i
    case StopSignal => Some(Stop)
    case Discovery(e) => FilterDiscovery(blockList, devices, e)
  }

  /** Does the device advertise the qaul main service? */
  predicate AdvertisesQaul(d: Device) {
    MainService in d.uuids.GetOr({})
  }

  /** A characteristic this node subscribes to. */
  predicate Subscribable(c: RemoteChar) {
    c.flags.notify || c.flags.indicate
  }

  /** A characteristic this node reads the peer's identity from. */
  predicate IsIdentityChar(c: RemoteChar) {
    !Subscribable(c) && c.flags.read && c.uuid == ReadChar
  }

  /** The RSSI to report for `d`. */
  function ReportedRssi(d: Device): i32 {
    d.rssi.GetOr(RssiUnavailable)
  }

  /** The characteristics of `s` that are looked at: those of a main service only. */
  function ConsideredChars(s: RemoteService): seq<RemoteChar> {
    if s.uuid.GetOr(Nil) == MainService then s.characteristics else []
  }

  /** All considered characteristics of `ss`, in walk order. */
  function MainServiceChars(ss: seq<RemoteService>): seq<RemoteChar> {
    if ss == [] then [] else MainServiceChars(ss[..|ss| - 1]) + ConsideredChars(ss[|ss| - 1])
  }

  /** One receiver for each subscribable characteristic of `chars`, in order. */
  function Subscriptions(peer: Address, chars: seq<RemoteChar>): (r: seq<MessageReceiver>)
    ensures forall k :: 0 <= k < |r| ==> r[k].peer == peer
  {
    if chars == [] then []
    else
      var last := chars[|chars| - 1];
      Subscriptions(peer, chars[..|chars| - 1]) + (if Subscribable(last) then [MessageReceiver(peer, last.uuid)] else [])
  }

  /** One discovery report for each identity characteristic of `chars`, in order. */
  function Discoveries(chars: seq<RemoteChar>, rssi: i32): (r: seq<BleMessage>)
    ensures forall k :: 0 <= k < |r| ==> r[k].DeviceDiscovered? && r[k].rssi == rssi
  {
    if chars == [] then []
    else
      var last := chars[|chars| - 1];
      Discoveries(chars[..|chars| - 1], rssi) + (if IsIdentityChar(last) then [DeviceDiscovered(last.value, rssi)] else [])
  }

  /** The effect of one `DeviceDiscovered` loop event. */
  function HandleDevice(d: Device, st: LoopState): (r: LoopState)
    ensures !AdvertisesQaul(d) ==> r == st
    ensures r.connects == st.connects + (if AdvertisesQaul(d) && !d.isConnected.GetOr(false) then [d.address] else [])
    ensures st.sent <= r.sent && st.receivers <= r.receivers
    ensures forall k :: |st.sent| <= k < |r.sent| ==> r.sent[k].DeviceDiscovered? && r.sent[k].rssi == ReportedRssi(d)
    ensures forall k :: |st.receivers| <= k < |r.receivers| ==> r.receivers[k].peer == d.address
  {
    if !AdvertisesQaul(d) then st
    else
      var chars := MainServiceChars(d.services);
      var ds := Discoveries(chars, ReportedRssi(d));
      var ss := Subscriptions(d.address, chars);
      assert forall k :: |st.sent| <= k < |st.sent + ds| ==> (st.sent + ds)[k] == ds[k - |st.sent|];
      assert forall k :: |st.receivers| <= k < |st.receivers + ss| ==> (st.receivers + ss)[k] == ss[k - |st.receivers|];
      LoopState(
        st.sent + ds,
        st.receivers + ss,
        st.connects + (if d.isConnected.GetOr(false) then [] else [d.address]))
  }

  /** Reports distribute over concatenation of characteristic lists. */
  lemma {:induction false} DiscoveriesAppend(a: seq<RemoteChar>, b: seq<RemoteChar>, rssi: i32)
    ensures Discoveries(a + b, rssi) == Discoveries(a, rssi) + Discoveries(b, rssi)
    decreases |b|
  {
    if b == [] {
      assert a + b == a;
    } else {
      var init := b[..|b| - 1];
      assert (a + b)[..|a + b| - 1] == a + init;
      assert (a + b)[|a + b| - 1] == b[|b| - 1];
      DiscoveriesAppend(a, init, rssi);
    }
  }

  /** Receivers distribute over concatenation of characteristic lists. */
  lemma {:induction false} SubscriptionsAppend(peer: Address, a: seq<RemoteChar>, b: seq<RemoteChar>)
    ensures Subscriptions(peer, a + b) == Subscriptions(peer, a) + Subscriptions(peer, b)
    decreases |b|
  {
    if b == [] {
      assert a + b == a;
    } else {
      var init := b[..|b| - 1];
      assert (a + b)[..|a + b| - 1] == a + init;
      assert (a + b)[|a + b| - 1] == b[|b| - 1];
      SubscriptionsAppend(peer, a, init);
    }
  }

  /** Walking one more service appends its considered characteristics. */
  lemma MainServiceCharsStep(ss: seq<RemoteService>, i: nat)
    requires i < |ss|
    ensures MainServiceChars(ss[..i + 1]) == MainServiceChars(ss[..i]) + ConsideredChars(ss[i])
  {
    assert ss[..i + 1][..i] == ss[..i];
  }

  /** The state after walking `chars` of peer `peer` from `st`. */
  function Walked(st: LoopState, peer: Address, rssi: i32, chars: seq<RemoteChar>): LoopState {
    LoopState(st.sent + Discoveries(chars, rssi), st.receivers + Subscriptions(peer, chars), st.connects)
  }

  /** Walking `a` and then `b` is walking `a + b`. */
  lemma WalkedAppend(st: LoopState, peer: Address, rssi: i32, a: seq<RemoteChar>, b: seq<RemoteChar>)
    ensures Walked(Walked(st, peer, rssi, a), peer, rssi, b) == Walked(st, peer, rssi, a + b)
  {
    DiscoveriesAppend(a, b, rssi);
    SubscriptionsAppend(peer, a, b);
  }

  /**
   * The inner loop of the per-device walk: over the characteristics of one main
   * service, subscribe to each notify/indicate one, else report each readable
   * identity one with the peer's RSSI.
   */
  method WalkCharacteristics(peer: Address, rssi: i32, chars: seq<RemoteChar>, st: LoopState) returns (r: LoopState)
    ensures r == Walked(st, peer, rssi, chars)
  {
    r := st;
    var j := 0;
    assert chars[..0] == [];
    while j < |chars|
      invariant 0 <= j <= |chars|
      invariant r == Walked(st, peer, rssi, chars[..j])
    {
      var c := chars[j];
      assert chars[..j + 1][..j] == chars[..j];
      if c.flags.notify || c.flags.indicate {
        r := r.(receivers := r.receivers + [MessageReceiver(peer, c.uuid)]);
      } else if c.flags.read && c.uuid == ReadChar {
        r := r.(sent := RpcUtils.SendDeviceFound(r.sent, c.value, rssi));
      }
      j := j + 1;
    }
    assert chars[..j] == chars;
  }

  /**
   * The outer loop of the per-device walk: over the services of a device, walk the
   * characteristics of each service identified as the main service.
   */
  method WalkServices(peer: Address, rssi: i32, services: seq<RemoteService>, st: LoopState) returns (r: LoopState)
    ensures r == Walked(st, peer, rssi, MainServiceChars(services))
  {
    r := st;
    var i := 0;
    assert services[..0] == [];
    while i < |services|
      invariant 0 <= i <= |services|
      invariant r == Walked(st, peer, rssi, MainServiceChars(services[..i]))
    {
      var service := services[i];
      ghost var walked := MainServiceChars(services[..i]);
      ghost var considered := ConsideredChars(service);
      MainServiceCharsStep(services, i);
      WalkedAppend(st, peer, rssi, walked, considered);
      if service.uuid.GetOr(Nil) == MainService {
        r := WalkCharacteristics(peer, rssi, service.characteristics, r);
      } else {
        assert considered == [] && walked + considered == walked;
      }
      i := i + 1;
    }
    assert services[..i] == services;
  }

  /**
   * The per-device handling as the source writes it: skip a device that does not
   * advertise the main service, connect unless connected, then walk its services.
   * It performs exactly the effect `HandleDevice` describes.
   */
  method HandleDiscoveredDevice(d: Device, st: LoopState) returns (r: LoopState)
    ensures r == HandleDevice(d, st)
  {
    var uuids := d.uuids.GetOr({});
    if MainService !in uuids {
      return st;
    }
    var connects := st.connects;
    if !d.isConnected.GetOr(false) {
      connects := connects + [d.address];
    }
    r := WalkServices(d.address, ReportedRssi(d), d.services, LoopState(st.sent, st.receivers, connects));
  }

  /**
   * The main loop over the events that have arrived: process them in order up to the
   * first `Stop`. Without a `Stop` the loop has not returned, and the result is what it
   * has done so far. Reports only ever get appended, and all of them are discoveries.
   */
  function MainLoop(blockList: seq<Address>, devices: map<Address, Device>, events: seq<Incoming>, st: LoopState): (r: LoopState)
    ensures st.sent <= r.sent && st.receivers <= r.receivers && st.connects <= r.connects
    ensures forall k :: |st.sent| <= k < |r.sent| ==> r.sent[k].DeviceDiscovered?
    decreases |events|
  {
    if events == [] then st
    else
      match NextEvent(blockList, devices, events[0])
      case None => MainLoop(blockList, devices, events[1..], st)
      case Some(Stop) => st
      case Some(Discovered(d)) => MainLoop(blockList, devices, events[1..], HandleDevice(d, st))
  }

  /** Does the loop meet a `Stop` among `events`, and so break out and return? */
  predicate LoopStops(events: seq<Incoming>) {
    StopSignal in events
  }

  /** A characteristic is considered iff it belongs to a service identified as the main service. */
  lemma {:induction false} MainServiceCharsExact(ss: seq<RemoteService>, c: RemoteChar)
    ensures c in MainServiceChars(ss) <==>
      exists k :: 0 <= k < |ss| && ss[k].uuid.GetOr(Nil) == MainService && c in ss[k].characteristics
  {
    if ss != [] {
      var init := ss[..|ss| - 1];
      MainServiceCharsExact(init, c);
      assert forall k :: 0 <= k < |init| ==> init[k] == ss[k];
      if c in MainServiceChars(ss) && c !in MainServiceChars(init) {
        assert c in ConsideredChars(ss[|ss| - 1]);
      }
    }
  }

  /** A report is produced exactly for each readable identity characteristic, carrying its value. */
  lemma {:induction false} DiscoveriesExact(chars: seq<RemoteChar>, rssi: i32, m: BleMessage)
    ensures m in Discoveries(chars, rssi) <==>
      exists c :: c in chars && IsIdentityChar(c) && m == DeviceDiscovered(c.value, rssi)
  {
    if chars != [] {
      var init := chars[..|chars| - 1];
      var last := chars[|chars| - 1];
      DiscoveriesExact(init, rssi, m);
      assert chars == init + [last];
      if exists c :: c in chars && IsIdentityChar(c) && m == DeviceDiscovered(c.value, rssi) {
        var c :| c in chars && IsIdentityChar(c) && m == DeviceDiscovered(c.value, rssi);
        if c != last {
          assert c in init;
        }
      }
    }
  }

  /** A receiver is opened exactly for each notify/indicate characteristic, on the same peer. */
  lemma {:induction false} SubscriptionsExact(peer: Address, chars: seq<RemoteChar>, m: MessageReceiver)
    ensures m in Subscriptions(peer, chars) <==>
      m.peer == peer && exists c :: c in chars && Subscribable(c) && m.characteristic == c.uuid
  {
    if chars != [] {
      var init := chars[..|chars| - 1];
      var last := chars[|chars| - 1];
      SubscriptionsExact(peer, init, m);
      assert chars == init + [last];
      if m.peer == peer && exists c :: c in chars && Subscribable(c) && m.characteristic == c.uuid {
        var c :| c in chars && Subscribable(c) && m.characteristic == c.uuid;
        if c != last {
          assert c in init;
        }
      }
    }
  }

  /** Nothing after the first stop signal is processed. */
  lemma {:induction false} StopEndsLoop(blockList: seq<Address>, devices: map<Address, Device>,
                                        pre: seq<Incoming>, post: seq<Incoming>, st: LoopState)
    requires StopSignal !in pre
    ensures MainLoop(blockList, devices, pre + [StopSignal] + post, st)
         == MainLoop(blockList, devices, pre, st)
  {
    if pre == [] {
      assert pre + [StopSignal] + post == [StopSignal] + post;
    } else {
      var rest := pre[1..];
      assert (pre + [StopSignal] + post)[1..] == rest + [StopSignal] + post;
      assert (pre + [StopSignal] + post)[0] == pre[0];
      match NextEvent(blockList, devices, pre[0])
      case None =>
        StopEndsLoop(blockList, devices, rest, post, st);
      case Some(Stop) =>
        assert false;
      case Some(Discovered(d)) =>
        StopEndsLoop(blockList, devices, rest, post, HandleDevice(d, st));
    }
  }

  /**
   * Every connection the loop attempts is to an address that was announced by a
   * `DeviceAdded` event and is not on the block list.
   */
  lemma {:induction false} ConnectsOnlyUnblocked(blockList: seq<Address>, devices: map<Address, Device>,
                                                 events: seq<Incoming>, st: LoopState)
    requires ResolvesFaithfully(devices)
    ensures forall k :: |st.connects| <= k < |MainLoop(blockList, devices, events, st).connects| ==>
      && MainLoop(blockList, devices, events, st).connects[k] !in blockList
      && Discovery(DeviceAdded(MainLoop(blockList, devices, events, st).connects[k])) in events
  {
    if events != [] {
      var rest := events[1..];
      match NextEvent(blockList, devices, events[0])
      case None =>
        var r := MainLoop(blockList, devices, events, st);
        assert r == MainLoop(blockList, devices, rest, st);
        ConnectsOnlyUnblocked(blockList, devices, rest, st);
        forall k | |st.connects| <= k < |r.connects|
          ensures r.connects[k] !in blockList && Discovery(DeviceAdded(r.connects[k])) in events
        {
          var j :| 0 <= j < |rest| && rest[j] == Discovery(DeviceAdded(r.connects[k]));
          assert events[j + 1] == rest[j];
        }
      case Some(Stop) =>
      case Some(Discovered(d)) =>
        var st' := HandleDevice(d, st);
        var r := MainLoop(blockList, devices, events, st);
        assert r == MainLoop(blockList, devices, rest, st');
        ConnectsOnlyUnblocked(blockList, devices, rest, st');
        var e := events[0].event;
        assert d == devices[e.addr] && d.address == e.addr;
        forall k | |st.connects| <= k < |r.connects|
          ensures r.connects[k] !in blockList && Discovery(DeviceAdded(r.connects[k])) in events
        {
          if k < |st'.connects| {
            assert r.connects[k] == st'.connects[k] == d.address;
            assert events[0] == Discovery(DeviceAdded(e.addr));
          } else {
            var j :| 0 <= j < |rest| && rest[j] == Discovery(DeviceAdded(r.connects[k]));
            assert events[j + 1] == rest[j];
          }
        }
    }
  }

  /**
   * A stream whose only announced devices are all blocked changes nothing: no report,
   * no receiver, no connection attempt.
   */
  lemma {:induction false} BlockedDevicesIgnored(blockList: seq<Address>, devices: map<Address, Device>,
                                                 events: seq<Incoming>, st: LoopState)
    requires forall k :: 0 <= k < |events| && events[k].Discovery? && events[k].event.DeviceAdded? ==>
               events[k].event.addr in blockList
    ensures MainLoop(blockList, devices, events, st) == st
  {
    if events != [] {
      assert NextEvent(blockList, devices, events[0]).None? || NextEvent(blockList, devices, events[0]) == Some(Stop);
      BlockedDevicesIgnored(blockList, devices, events[1..], st);
    }
  }

  /** An event the filter drops has no effect, wherever it arrives among the others. */
  lemma {:induction false} DroppedEventIgnored(blockList: seq<Address>, devices: map<Address, Device>,
                                               pre: seq<Incoming>, e: Incoming, post: seq<Incoming>, st: LoopState)
    requires NextEvent(blockList, devices, e).None?
    ensures MainLoop(blockList, devices, pre + [e] + post, st) == MainLoop(blockList, devices, pre + post, st)
    decreases |pre|
  {
    var events := pre + [e] + post;
    if pre == [] {
      assert events[0] == e && events[1..] == post && pre + post == post;
    } else {
      assert events[0] == pre[0] && events[1..] == pre[1..] + [e] + post;
      assert (pre + post)[0] == pre[0] && (pre + post)[1..] == pre[1..] + post;
      match NextEvent(blockList, devices, pre[0])
      case None => DroppedEventIgnored(blockList, devices, pre[1..], e, post, st);
      case Some(Stop) =>
      case Some(Discovered(d)) => DroppedEventIgnored(blockList, devices, pre[1..], e, post, HandleDevice(d, st));
    }
  }

  /** A blocked device announced anywhere in the stream changes nothing. */
  lemma BlockedDeviceIgnored(blockList: seq<Address>, devices: map<Address, Device>,
                             pre: seq<Incoming>, a: Address, post: seq<Incoming>, st: LoopState)
    requires a in blockList
    ensures MainLoop(blockList, devices, pre + [Discovery(DeviceAdded(a))] + post, st)
         == MainLoop(blockList, devices, pre + post, st)
  {
    DroppedEventIgnored(blockList, devices, pre, Discovery(DeviceAdded(a)), post, st);
  }

  /** Events before any stop are processed first, and the loop goes on from where they left it. */
  lemma {:induction false} MainLoopAppend(blockList: seq<Address>, devices: map<Address, Device>,
                                          pre: seq<Incoming>, post: seq<Incoming>, st: LoopState)
    requires !LoopStops(pre)
    ensures MainLoop(blockList, devices, pre + post, st)
         == MainLoop(blockList, devices, post, MainLoop(blockList, devices, pre, st))
    decreases |pre|
  {
    if pre == [] {
      assert pre + post == post;
    } else {
      assert (pre + post)[0] == pre[0] && (pre + post)[1..] == pre[1..] + post;
      assert pre == [pre[0]] + pre[1..];
      match NextEvent(blockList, devices, pre[0])
      case None => MainLoopAppend(blockList, devices, pre[1..], post, st);
      case Some(Stop) =>
      case Some(Discovered(d)) => MainLoopAppend(blockList, devices, pre[1..], post, HandleDevice(d, st));
    }
  }

  /**
   * An unblocked device the adapter resolves, announced before any stop, is handled in
   * full: the loop goes on from the state `HandleDevice` leaves, so a qaul device not
   * known to be connected is connected to.
   */
  lemma UnblockedDeviceHandled(blockList: seq<Address>, devices: map<Address, Device>,
                               pre: seq<Incoming>, a: Address, post: seq<Incoming>, st: LoopState)
    requires !LoopStops(pre)
    requires a !in blockList && a in devices
    ensures MainLoop(blockList, devices, pre + [Discovery(DeviceAdded(a))] + post, st)
         == MainLoop(blockList, devices, post, HandleDevice(devices[a], MainLoop(blockList, devices, pre, st)))
    ensures AdvertisesQaul(devices[a]) && !devices[a].isConnected.GetOr(false) ==>
              devices[a].address in MainLoop(blockList, devices, pre + [Discovery(DeviceAdded(a))] + post, st).connects
  {
    var e := Discovery(DeviceAdded(a));
    MainLoopAppend(blockList, devices, pre, [e] + post, st);
    assert pre + [e] + post == pre + ([e] + post);
    assert ([e] + post)[0] == e && ([e] + post)[1..] == post;
    var mid := HandleDevice(devices[a], MainLoop(blockList, devices, pre, st));
    var r := MainLoop(blockList, devices, post, mid);
    if AdvertisesQaul(devices[a]) && !devices[a].isConnected.GetOr(false) {
      assert mid.connects[|mid.connects| - 1] == devices[a].address;
      assert r.connects[|mid.connects| - 1] == devices[a].address;
    }
  }
}
