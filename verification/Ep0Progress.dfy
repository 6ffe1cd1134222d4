/** Progress of the endpoint-0 worker of gadget/bcm63xx_udc.c: the loop of
    bcm63xx_ep0_process ends whatever else happens meanwhile, and a requested shutdown is
    what it ends in. */
module Ep0Progress {
  import opened Basics
  import opened Iudma
  import opened Ep0Machine
  import opened Ep0Safety

  function Bit(b: bool): nat { if b then 1 else 0 }

  // Work left before the worker has to wait: flags to consume, a reply to consume, and
  // the distance from the point where the worker stands to EP0_IDLE.
  function Pending(u: Udc): nat {
    6 * (Bit(u.reset) + Bit(u.setCfg) + Bit(u.setIface) + Bit(u.shutdown) + Bit(u.completed))
    + 2 * Bit(u.reply.Some?)
    + Distance(u)
  }

  function Distance(u: Udc): nat {
    match u.pc
    case InSetup => 4
    case InSpoof => 4
    case InNukeIdle => 1
    case InNukeData => 3
    case InFakeDone => 2
    case AtTop =>
      match u.state
      case Idle => 0
      case Shutdown => 0
      case Requeue => 1
      case InFakeStatus => 3
      case InDataSetup => 3
      case OutDataSetup => 3
      case _ => 2
  }

  // The step belongs to the worker and did something: a round that found work, a round
  // that went into a callback, or the end of a round after its callback.
  predicate Productive(u: Udc, e: Event) {
    match e
    case Worker =>
      u.pc == AtTop && (match Round(u)
                        case Finished(_, work) => work
                        case _ => true)
    case Return(_, _, _) => u.pc != AtTop
    case _ => false
  }

  // The worker is between rounds and one_round would return -EAGAIN.
  predicate Waiting(u: Udc) { u.pc == AtTop && !Productive(u, Worker) }

  predicate FromOutside(e: Event) { e != Worker && !e.Return? }

  lemma MapWritePending(u: Udc, isTx: bool, who: Target, r: Req)
    requires MapWrite(u, isTx, who, r).Ok? && who != NoReq && (who == ReplyReq ==> u.reply.Some?)
    ensures
      var v := MapWrite(u, isTx, who, r).udc;
      && v.state == u.state && v.pc == u.pc && v.completed == u.completed && v.reset == u.reset
      && v.setCfg == u.setCfg && v.setIface == u.setIface && v.shutdown == u.shutdown
      && v.reply.Some? == u.reply.Some?
  {
  }

  predicate LessToDo(u: Udc, r: RoundResult) {
    match r
    case Finished(v, work) => if work then Pending(v) < Pending(u) else v == u
    case Called(v) => Pending(v) < Pending(u)
    case RoundBug => true
  }

  lemma IdleProgress(u: Udc)
    requires u.pc == AtTop && u.state == Idle
    ensures LessToDo(u, DoIdle(u))
  {
    hide ResetChan;
  }

  lemma RequeueProgress(u: Udc)
    requires u.pc == AtTop && u.state == Requeue
    ensures LessToDo(u, Moved(Internal(u, false, MAX_CTRL_PKT), Idle))
  {
    hide MapWrite;
    if MapWrite(u, false, CtrlReq, u.ctrl.(length := MAX_CTRL_PKT)).Ok? {
      MapWritePending(u, false, CtrlReq, u.ctrl.(length := MAX_CTRL_PKT));
    }
  }

  lemma SetupProgress(u: Udc, isTx: bool)
    requires u.pc == AtTop && u.state == if isTx then InDataSetup else OutDataSetup
    ensures LessToDo(u, SetupRound(u, isTx))
  {
    hide MapWrite;
    if u.reply.Some? && MapWrite(u, isTx, ReplyReq, u.reply.value).Ok? {
      MapWritePending(u, isTx, ReplyReq, u.reply.value);
    }
  }

  lemma OutDataProgress(u: Udc)
    requires u.pc == AtTop && u.state == OutDataComplete
    ensures LessToDo(u, OutDataRound(u))
  {
    hide MapWrite, ResetChan;
    if u.completed && u.target != NoReq {
      var v := u.(completed := false, target := NoReq, reply := None);
      if MapWrite(v, true, CtrlReq, v.ctrl.(length := 0)).Ok? {
        MapWritePending(v, true, CtrlReq, v.ctrl.(length := 0));
      }
    }
  }

  lemma InDataProgress(u: Udc)
    requires u.pc == AtTop && u.state == InDataComplete
    ensures LessToDo(u, InDataRound(u))
  {
    hide ResetChan;
  }

  lemma StatusProgress(u: Udc)
    requires u.pc == AtTop && u.state == OutStatus
    ensures LessToDo(u, StatusRound(u))
  {
    hide ResetChan;
  }

  lemma FakeProgress(u: Udc)
    requires u.pc == AtTop && u.state == InFakeStatus
    ensures LessToDo(u, FakeRound(u))
  {
  }

  // Every productive step of the worker leaves less to do, including those that go
  // through a callback.
  lemma RoundProgress(u: Udc)
    requires u.pc == AtTop
    ensures LessToDo(u, Round(u))
  {
    hide Moved, DoIdle, SetupRound, InDataRound, OutDataRound, StatusRound, FakeRound, Pending;
    match u.state
    case Idle => IdleProgress(u);
    case Requeue => RequeueProgress(u);
    case InDataSetup => SetupProgress(u, true);
    case OutDataSetup => SetupProgress(u, false);
    case InDataComplete => InDataProgress(u);
    case OutDataComplete => OutDataProgress(u);
    case OutStatus => StatusProgress(u);
    case InFakeStatus => FakeProgress(u);
    case Shutdown =>
  }

  lemma ResumeProgress(u: Udc, rc: int, wLength: nat, dirIn: bool)
    requires u.pc != AtTop && PcFits(u)
    ensures Pending(Resume(u, rc, wLength, dirIn)) < Pending(u)
  {
  }

  // An interrupt touches nothing but the completed flag, the channels and the requests.
  lemma InterruptFrame(u: Udc, isTx: bool)
    requires Interrupted(u, isTx).Ok?
    ensures
      var v := Interrupted(u, isTx).udc;
      && v.state == u.state && v.pc == u.pc && v.reset == u.reset && v.setCfg == u.setCfg
      && v.setIface == u.setIface && v.shutdown == u.shutdown && v.reply.Some? == u.reply.Some?
  {
    hide Written, Submitted, Reaped, ReadResult, CanWrite, Ends, Ended, Continued, WithCurrent, WithChannel;
    var ch := Channel(u, isTx);
    if ReadResult(ch) >= 0 {
      var r, v := Current(u), WithChannel(u, isTx, Reaped(ch));
      var rc := ReadResult(ch);
      WithFrame(u, isTx, Reaped(ch), r);
      if Ends(r, rc) {
        WithFrame(v.(completed := true), isTx, ch, Ended(r, rc));
      } else {
        var s := Continued(r, rc);
        WithFrame(v, isTx, Written(Reaped(ch), s), r);
        WithFrame(WithChannel(v, isTx, Written(Reaped(ch), s)), isTx, ch, Submitted(Reaped(ch), s));
      }
    }
  }

  lemma WithFrame(u: Udc, isTx: bool, ch: Chan, r: Req)
    ensures
      var v := WithChannel(u, isTx, ch);
      v == u.(rx := v.rx, tx := v.tx)
    ensures
      var v := WithCurrent(u, r);
      v == u.(reply := v.reply, ctrl := v.ctrl) && v.reply.Some? == u.reply.Some?
  {
  }

  lemma InterruptPending(u: Udc, isTx: bool)
    requires Interrupted(u, isTx).Ok?
    ensures Pending(Interrupted(u, isTx).udc) <= Pending(u) + 6
  {
    hide Interrupted;
    InterruptFrame(u, isTx);
  }

  lemma WorkerPending(u: Udc)
    requires u.pc == AtTop && Step(u, Worker).Ok?
    ensures var v := Step(u, Worker).udc; if Productive(u, Worker) then Pending(v) < Pending(u) else v == u
  {
    hide Round, Pending;
    RoundProgress(u);
  }

  lemma OutsidePending(u: Udc, e: Event)
    requires FromOutside(e) && Step(u, e).Ok?
    ensures Pending(Step(u, e).udc) <= Pending(u) + 6
  {
    hide Round, Resume, Interrupted, HwCan, HwDone, Channel, WithChannel;
    match e
    case DataIsr(isTx) => InterruptPending(u, isTx);
    case Hardware(isTx, k, bytes) =>
      if HwCan(Channel(u, isTx), k, bytes) {
        HardwarePending(u, isTx, HwDone(Channel(u, isTx), k, bytes));
      }
    case PullupOn =>
      if u.state == Shutdown {
        PullupPending(u);
      }
    case _ =>
  }

  lemma HardwarePending(u: Udc, isTx: bool, ch: Chan)
    ensures Pending(WithChannel(u, isTx, ch)) == Pending(u)
  {
  }

  lemma PullupPending(u: Udc)
    requires u.state == Shutdown
    ensures Pending(u.(state := Requeue)) <= Pending(u) + 1
  {
  }

  lemma StepPending(u: Udc, e: Event)
    requires Inv(u) && Step(u, e).Ok?
    ensures
      var v := Step(u, e).udc;
      && (Productive(u, e) ==> Pending(v) < Pending(u))
      && (FromOutside(e) ==> Pending(v) <= Pending(u) + 6)
      && (!Productive(u, e) && !FromOutside(e) ==> v == u)
  {
    hide Round, Resume, Interrupted, InFlight, ChanOk, HwCan, HwDone, FlightFits, Pending;
    if FromOutside(e) {
      OutsidePending(u, e);
    } else if e == Worker {
      if u.pc == AtTop {
        WorkerPending(u);
      }
    } else if u.pc != AtTop {
      ResumeProgress(u, e.rc, e.wLength, e.dirIn);
    } else {
      ResumeAtTop(u, e.rc, e.wLength, e.dirIn);
    }
  }

  lemma ResumeAtTop(u: Udc, rc: int, wLength: nat, dirIn: bool)
    requires u.pc == AtTop
    ensures Resume(u, rc, wLength, dirIn) == u
  {
  }

  // ---- The loop ends

  function CountProductive(u: Udc, es: seq<Event>): nat
    decreases |es|
  {
    if es == [] || Step(u, es[0]).Bug? then 0
    else Bit(Productive(u, es[0])) + CountProductive(Step(u, es[0]).udc, es[1..])
  }

  function CountOutside(es: seq<Event>): nat {
    if es == [] then 0 else Bit(FromOutside(es[0])) + CountOutside(es[1..])
  }

  // Over any run the worker makes at most as many productive steps as there was work at
  // the start, plus six for every outside event: with finitely many of those, the loop of
  // bcm63xx_ep0_process ends.
  lemma {:induction false} WorkerIsBounded(u: Udc, es: seq<Event>)
    requires Inv(u)
    ensures Run(u, es).Ok?
    ensures CountProductive(u, es) + Pending(Run(u, es).udc) <= Pending(u) + 6 * CountOutside(es)
    decreases |es|
  {
    if es != [] {
      Ep0Safety.StepKeeps(u, es[0]);
      StepPending(u, es[0]);
      hide Step, Pending, Productive;
      WorkerIsBounded(Step(u, es[0]).udc, es[1..]);
    }
  }

  // ---- Shutdown

  // With a shutdown requested there is always something for the worker to do.
  lemma ShutdownNeverWaits(u: Udc)
    requires Inv(u) && u.shutdown && u.pc == AtTop
    ensures Productive(u, Worker)
  {
    hide InFlight, ChanOk, MapWrite, ResetChan;
  }

  // A requested shutdown stays requested until the machine is in EP0_SHUTDOWN, and it
  // stays there until the pullup is switched on.
  lemma ShutdownStays(u: Udc, e: Event)
    requires Inv(u) && e != PullupOn && (u.shutdown || u.state == Shutdown)
    ensures Step(u, e).Ok?
    ensures var v := Step(u, e).udc; v.shutdown || v.state == Shutdown
  {
    hide Round, Interrupted, InFlight, ChanOk, HwCan, HwDone, FlightFits;
    Ep0Safety.StepKeeps(u, e);
    match e
    case Worker =>
      if u.pc == AtTop {
        RoundShutdown(u);
      }
    case DataIsr(isTx) => InterruptFrame(u, isTx);
    case _ =>
  }

  predicate StillStopping(r: RoundResult) {
    match r
    case Finished(v, _) => v.shutdown || v.state == Shutdown
    case Called(v) => v.shutdown || v.state == Shutdown
    case RoundBug => true
  }

  lemma RoundShutdown(u: Udc)
    requires u.pc == AtTop && (u.shutdown || u.state == Shutdown)
    ensures StillStopping(Round(u))
  {
    hide DoIdle, SetupRound, InDataRound, OutDataRound, StatusRound, FakeRound, Internal;
    match u.state
    case Idle => IdleShutdown(u);
    case Requeue => RequeueShutdown(u);
    case InDataSetup => SetupShutdown(u, true);
    case OutDataSetup => SetupShutdown(u, false);
    case OutDataComplete => OutDataShutdown(u);
    case Shutdown =>
    case _ => OtherShutdown(u);
  }

  lemma IdleShutdown(u: Udc)
    requires u.shutdown
    ensures StillStopping(DoIdle(u))
  {
    hide ResetChan;
  }

  lemma RequeueShutdown(u: Udc)
    requires u.shutdown
    ensures StillStopping(Moved(Internal(u, false, MAX_CTRL_PKT), Idle))
  {
    MapWriteShutdown(u, false, CtrlReq, u.ctrl.(length := MAX_CTRL_PKT));
    hide MapWrite;
  }

  lemma SetupShutdown(u: Udc, isTx: bool)
    requires u.shutdown
    ensures StillStopping(SetupRound(u, isTx))
  {
    hide MapWrite;
    if u.reply.Some? {
      MapWriteShutdown(u, isTx, ReplyReq, u.reply.value);
    }
  }

  lemma OutDataShutdown(u: Udc)
    requires u.shutdown
    ensures StillStopping(OutDataRound(u))
  {
    hide MapWrite, ResetChan;
    var v := u.(completed := false, target := NoReq, reply := None);
    MapWriteShutdown(v, true, CtrlReq, v.ctrl.(length := 0));
  }

  lemma OtherShutdown(u: Udc)
    requires u.shutdown
    ensures StillStopping(InDataRound(u)) && StillStopping(StatusRound(u)) && StillStopping(FakeRound(u))
  {
    hide ResetChan;
  }

  lemma MapWriteShutdown(u: Udc, isTx: bool, who: Target, r: Req)
    ensures MapWrite(u, isTx, who, r).Ok? ==> MapWrite(u, isTx, who, r).udc.shutdown == u.shutdown
  {
  }

  // What the wait loop of bcm63xx_udc_pullup relies on: from the moment it requests the
  // shutdown, whatever interleaves, a worker that has nothing left to do is in
  // EP0_SHUTDOWN.  Being blocked in that loop, the caller does not switch the pullup on.
  lemma {:induction false} ShutdownIsReached(u: Udc, es: seq<Event>)
    requires Inv(u) && (u.shutdown || u.state == Shutdown) && PullupOn !in es
    ensures Run(u, es).Ok?
    ensures var v := Run(u, es).udc; Waiting(v) ==> v.state == Shutdown
    decreases |es|
  {
    if es == [] {
      if Waiting(u) && u.shutdown {
        ShutdownNeverWaits(u);
      }
    } else {
      Ep0Safety.StepKeeps(u, es[0]);
      ShutdownStays(u, es[0]);
      hide Step, Productive;
      assert PullupOn !in es[1..];
      ShutdownIsReached(Step(u, es[0]).udc, es[1..]);
    }
  }
}
