/**
 * The control bridge: the loop that takes decoded requests from the host one at a
 * time and drives the BLE service. Each request is handled to completion before
 * the next is read, so a start request that succeeds runs the whole BLE main loop
 * within its handling.
 */
module MsgLoop {
  import opened Basics
  import opened BleProto
  import opened BleService
  import RpcUtils

  /**
   * The adapter's behaviour while one request is handled: the radio for a start
   * attempt, and the answer to a capability query (`None` when it fails).
   */
  datatype World = World(radio: Radio, info: Option<AdapterSnapshot>)

  /** One receive on the request channel: closed, or a request with its surroundings. */
  datatype Delivery = Closed | Delivered(msg: Ble, world: World)

  /**
   * The effect of handling one request; `returned` is false when the handling never
   * completes, because a start it made is still running its main loop.
   */
  datatype Step = Step(service: QaulBleService, sent: seq<BleMessage>, calls: seq<AdapterCall>, returned: bool)

  /**
   * The effect of the whole loop: `finished` when it returned after the channel closed,
   * `blocked` when it is stuck in a start whose main loop is still running.
   */
  datatype BridgeRun = BridgeRun(service: QaulBleService, sent: seq<BleMessage>, calls: seq<AdapterCall>,
                                 finished: bool, blocked: bool)

  predicate IsStartRequest(msg: Ble) {
    msg.message.Some? && msg.message.value.StartRequest?
  }

  /** Handling of one decoded request. */
  function HandleSysMsg(svc: QaulBleService, msg: Ble, world: World): (r: Step)
    // an envelope without a message is skipped
    ensures msg.message.None? ==> r == Step(svc, [], [], true)
    // only a start request on an idle service changes the service, acquires anything or blocks
    ensures !(IsStartRequest(msg) && svc.Idle?) ==> r.service == svc && r.calls == [] && r.returned
    ensures IsStartRequest(msg) && svc.Idle? ==>
              var run := AdvertiseScanListen(svc.idle, msg.message.value.qaulId, None, world.radio);
              r == Step(run.service, run.sent, run.calls, run.returned)
    ensures IsStartRequest(msg) && svc.Started? ==> r.sent == [StartResult(RpcUtils.ResultAlreadyRunning())]
    // an info request answers with the capability description, or with nothing
    ensures msg.message == Some(InfoRequest) ==> r.sent == GetDeviceInfo(world.info, [])
    // stop, direct send and every other kind are ignored
    ensures msg.message.Some? && !msg.message.value.StartRequest? && !msg.message.value.InfoRequest? ==>
              r == Step(svc, [], [], true)
  {
    match msg.message
    case None => Step(svc, [], [], true)
    case Some(m) =>
      match m
      case StartRequest(qaulId) =>
        (match svc
         case Idle(idle) =>
           var run := AdvertiseScanListen(idle, qaulId, None, world.radio);
           Step(run.service, run.sent, run.calls, run.returned)
         case Started(_) =>
           Step(svc, RpcUtils.SendResultAlreadyRunning([]), [], true))
      case StopRequest => Step(svc, [], [], true)
      case DirectSend(_, _) => Step(svc, [], [], true)
      case InfoRequest => Step(svc, GetDeviceInfo(world.info, []), [], true)
      case _ => Step(svc, [], [], true)
  }

  /**
   * Handling one request reports a successful start iff it acquired every resource of
   * an idle service: the service is then returned started, or the handling never returns.
   */
  lemma StepStartCount(svc: QaulBleService, msg: Ble, world: World)
    ensures var r := HandleSysMsg(svc, msg, world);
      RpcUtils.CountStartSuccessful(r.sent) == (if svc.Idle? && (r.service.Started? || !r.returned) then 1 else 0)
  {
    var r := HandleSysMsg(svc, msg, world);
    if msg.message == Some(InfoRequest) && world.info.Some? {
      assert r.sent == [InfoResponse(Some(DeviceInfo(world.info.value)))];
      assert r.sent[1..] == [];
    } else if IsStartRequest(msg) && svc.Started? {
      assert r.sent[1..] == [];
    }
  }

  /** Handling one request never gives a handle back nor changes the block list or adapter. */
  lemma StepKeepsHandles(svc: QaulBleService, msg: Ble, world: World)
    ensures var r := HandleSysMsg(svc, msg, world);
      && svc.Handles() <= r.service.Handles()
      && r.service.BlockList() == svc.BlockList()
      && r.service.AdapterOf() == svc.AdapterOf()
  {
    if IsStartRequest(msg) && svc.Idle? {
      StartKeepsHandles(svc.idle, msg.message.value.qaulId, None, world.radio);
    }
  }

  /**
   * `listen_for_sys_msgs`: handle requests in order until the channel closes, or until a
   * start blocks the loop for good. A started service is never stopped or restarted,
   * a start attempt never gives handles back, and success is reported at most once,
   * exactly when an idle service got all its resources.
   */
  function ListenForSysMsgs(svc: QaulBleService, inbox: seq<Delivery>): (r: BridgeRun)
    ensures r.finished <==> Closed in inbox && !r.blocked
    ensures r.blocked ==> svc.Idle? && r.service.Idle?
    ensures svc.Started? ==> r.service == svc && r.calls == []
    ensures svc.Handles() <= r.service.Handles()
    ensures r.service.BlockList() == svc.BlockList() && r.service.AdapterOf() == svc.AdapterOf()
    ensures RpcUtils.CountStartSuccessful(r.sent) == (if svc.Idle? && (r.service.Started? || r.blocked) then 1 else 0)
    // the replies to the first request are the first messages to reach the host
    ensures inbox != [] && inbox[0].Delivered? ==> HandleSysMsg(svc, inbox[0].msg, inbox[0].world).sent <= r.sent
    decreases |inbox|
  {
    if inbox == [] then BridgeRun(svc, [], [], false, false)
    else
      match inbox[0]
      case Closed => BridgeRun(svc, [], [], true, false)
      case Delivered(msg, world) =>
        var step := HandleSysMsg(svc, msg, world);
        StepStartCount(svc, msg, world);
        StepKeepsHandles(svc, msg, world);
        if !step.returned then
          BridgeRun(step.service, step.sent, step.calls, false, true)
        else
          var rest := ListenForSysMsgs(step.service, inbox[1..]);
          RpcUtils.CountStartSuccessfulAppend(step.sent, rest.sent);
          assert inbox == [inbox[0]] + inbox[1..];
          BridgeRun(rest.service, step.sent + rest.sent, step.calls + rest.calls, rest.finished, rest.blocked)
  }

  lemma AppendAssociates<T>(a: seq<T>, b: seq<T>, c: seq<T>)
    ensures a + (b + c) == (a + b) + c
  {
  }

  /** One delivered request, then the rest: the loop either blocks on it or goes on. */
  lemma BridgeUnfold(svc: QaulBleService, msg: Ble, world: World, rest: seq<Delivery>)
    ensures var step := HandleSysMsg(svc, msg, world);
      var tail := ListenForSysMsgs(step.service, rest);
      ListenForSysMsgs(svc, [Delivered(msg, world)] + rest)
        == if step.returned
           then BridgeRun(tail.service, step.sent + tail.sent, step.calls + tail.calls, tail.finished, tail.blocked)
           else BridgeRun(step.service, step.sent, step.calls, false, true)
  {
    assert ([Delivered(msg, world)] + rest)[0] == Delivered(msg, world);
    assert ([Delivered(msg, world)] + rest)[1..] == rest;
  }

  /**
   * Requests are handled in arrival order: a run over `pre` that neither closes nor
   * blocks is followed by the run over `post` from the service `pre` left, and the
   * host receives the replies of `pre` before those of `post`.
   */
  lemma {:induction false} BridgeAppend(svc: QaulBleService, pre: seq<Delivery>, post: seq<Delivery>)
    requires Closed !in pre && !ListenForSysMsgs(svc, pre).blocked
    ensures var first := ListenForSysMsgs(svc, pre);
      var second := ListenForSysMsgs(first.service, post);
      ListenForSysMsgs(svc, pre + post)
        == BridgeRun(second.service, first.sent + second.sent, first.calls + second.calls,
                     second.finished, second.blocked)
    decreases |pre|
  {
    if pre == [] {
      assert pre + post == post;
    } else {
      var d := pre[0];
      assert d.Delivered?;
      var tl := pre[1..];
      assert pre == [Delivered(d.msg, d.world)] + tl;
      assert pre + post == [Delivered(d.msg, d.world)] + (tl + post);
      var step := HandleSysMsg(svc, d.msg, d.world);
      BridgeUnfold(svc, d.msg, d.world, tl);
      BridgeUnfold(svc, d.msg, d.world, tl + post);
      assert step.returned;
      assert Closed !in tl by {
        forall k | 0 <= k < |tl| ensures tl[k] != Closed { assert tl[k] == pre[k + 1]; }
      }
      BridgeAppend(step.service, tl, post);
      var first := ListenForSysMsgs(step.service, tl);
      var second := ListenForSysMsgs(first.service, post);
      AppendAssociates(step.sent, first.sent, second.sent);
      AppendAssociates(step.calls, first.calls, second.calls);
    }
  }

  /**
   * A start that acquires everything and meets no stop never returns, so nothing after
   * it is read: not a second start, not the channel closing.
   */
  lemma RunningStartBlocksBridge(svc: QaulBleService, msg: Ble, world: World, rest: seq<Delivery>)
    requires svc.Idle? && IsStartRequest(msg)
    requires AllAcquired(world.radio) && !BleDiscovery.LoopStops(world.radio.events)
    ensures var r := ListenForSysMsgs(svc, [Delivered(msg, world)] + rest);
      && r == ListenForSysMsgs(svc, [Delivered(msg, world)])
      && r.blocked && !r.finished
      && r.sent == HandleSysMsg(svc, msg, world).sent
  {
    assert ([Delivered(msg, world)] + rest)[0] == Delivered(msg, world);
  }

  /** Nothing after the channel closes is read; a loop blocked before it never reaches it. */
  lemma {:induction false} ClosedEndsLoop(svc: QaulBleService, pre: seq<Delivery>, post: seq<Delivery>)
    requires Closed !in pre
    ensures var r := ListenForSysMsgs(svc, pre);
      ListenForSysMsgs(svc, pre + [Closed] + post) == r.(finished := !r.blocked)
    decreases |pre|
  {
    if pre == [] {
      assert pre + [Closed] + post == [Closed] + post;
    } else {
      assert (pre + [Closed] + post)[0] == pre[0];
      assert (pre + [Closed] + post)[1..] == pre[1..] + [Closed] + post;
      var step := HandleSysMsg(svc, pre[0].msg, pre[0].world);
      if step.returned {
        ClosedEndsLoop(step.service, pre[1..], post);
      }
    }
  }

  /** Without a start request the service is never touched and no resource is acquired. */
  lemma {:induction false} NoStartNoChange(svc: QaulBleService, inbox: seq<Delivery>)
    requires forall k :: 0 <= k < |inbox| && inbox[k].Delivered? ==> !IsStartRequest(inbox[k].msg)
    ensures ListenForSysMsgs(svc, inbox).service == svc
    ensures ListenForSysMsgs(svc, inbox).calls == []
    ensures !ListenForSysMsgs(svc, inbox).blocked
    decreases |inbox|
  {
    if inbox != [] && inbox[0].Delivered? {
      NoStartNoChange(svc, inbox[1..]);
    }
  }
}
