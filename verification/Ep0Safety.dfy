/** Safety of the endpoint-0 machine over every run: the invariant of module Ep0Machine
    holds in every reachable state, so no BUG_ON fires and no null request is followed. */
module Ep0Safety {
  import opened Basics
  import opened Iudma
  import opened Ep0Machine

  // Submitting on an idle ep0 leaves the request in flight on that channel.
  lemma MapWriteKeeps(u: Udc, isTx: bool, who: Target, r: Req)
    requires ChanOk(u.rx) && !u.rx.isTx && ChanOk(u.tx) && u.tx.isTx
    requires u.target == NoReq && !u.completed && u.rx.used == 0 && u.tx.used == 0
    requires who == CtrlReq || (who == ReplyReq && u.reply.Some?)
    ensures
      var o := MapWrite(u, isTx, who, r);
      && o.Ok?
      && var v := o.udc;
      && ChanOk(v.rx) && !v.rx.isTx && ChanOk(v.tx) && v.tx.isTx
      && v.target == who && (who == ReplyReq ==> v.reply.Some?) && !v.completed
      && Channel(v, !isTx).used == 0 && InFlight(Channel(v, isTx), Current(v))
      && v.state == u.state && v.pc == u.pc && v.shutdown == u.shutdown
  {
    hide Written, Submitted, InFlight, ChanOk;
    var ch, s := Channel(u, isTx), r.(actual := 0, offset := 0);
    IdleCanWrite(ch, s);
    WriteStarts(ch, s);
    WriteKeepsChan(ch, s);
    WrittenIsTx(ch, s);
  }

  lemma IdleCanWrite(ch: Chan, s: Req)
    requires ChanOk(ch) && s.offset <= s.length
    ensures CanWrite(ch, s)
  {
  }

  lemma WrittenIsTx(ch: Chan, r: Req)
    requires CanWrite(ch, r)
    ensures Written(ch, r).isTx == ch.isTx
  {
  }

  lemma ResetKeeps(ch: Chan)
    requires ChanOk(ch)
    ensures ChanOk(ResetChan(ch)) && ResetChan(ch).used == 0 && ResetChan(ch).isTx == ch.isTx
  {
    ResetIsIdle(ch);
  }

  ghost predicate Keeps(r: RoundResult) {
    match r
    case Finished(v, _) => Inv(v)
    case Called(v) => Inv(v)
    case RoundBug => false
  }

  lemma IdleKeeps(u: Udc)
    requires Inv(u) && u.pc == AtTop && u.state == Idle
    ensures Keeps(DoIdle(u))
  {
    hide ChanOk, InFlight, ResetChan;
    ResetKeeps(u.rx);
  }

  lemma SetupKeeps(u: Udc, isTx: bool)
    requires Inv(u) && u.pc == AtTop && u.state == if isTx then InDataSetup else OutDataSetup
    ensures Keeps(SetupRound(u, isTx))
  {
    hide ChanOk, InFlight, MapWrite;
    if u.reply.Some? {
      MapWriteKeeps(u, isTx, ReplyReq, u.reply.value);
    }
  }

  lemma OutDataKeeps(u: Udc)
    requires Inv(u) && u.pc == AtTop && u.state == OutDataComplete
    ensures Keeps(OutDataRound(u))
  {
    hide ChanOk, InFlight, MapWrite, ResetChan;
    ResetKeeps(u.rx);
    if u.completed {
      var v := u.(completed := false, target := NoReq, reply := None);
      MapWriteKeeps(v, true, CtrlReq, v.ctrl.(length := 0));
    }
  }

  lemma OtherKeeps(u: Udc)
    requires Inv(u) && u.pc == AtTop
    ensures u.state == InDataComplete ==> Keeps(InDataRound(u))
    ensures u.state == OutStatus ==> Keeps(StatusRound(u))
    ensures u.state == InFakeStatus ==> Keeps(FakeRound(u))
  {
    hide ChanOk, InFlight, ResetChan;
    ResetKeeps(u.tx);
  }

  // The first part of a round keeps the invariant and meets no bug.
  lemma RoundKeeps(u: Udc)
    requires Inv(u) && u.pc == AtTop
    ensures Keeps(Round(u))
  {
    hide ChanOk, InFlight, MapWrite, DoIdle, SetupRound, InDataRound, OutDataRound, StatusRound, FakeRound;
    match u.state
    case Requeue => MapWriteKeeps(u, false, CtrlReq, u.ctrl.(length := MAX_CTRL_PKT));
    case Idle => IdleKeeps(u);
    case InDataSetup => SetupKeeps(u, true);
    case OutDataSetup => SetupKeeps(u, false);
    case OutDataComplete => OutDataKeeps(u);
    case _ => OtherKeeps(u);
  }

  lemma ResumeKeeps(u: Udc, rc: int, wLength: nat, dirIn: bool)
    requires Inv(u)
    ensures Inv(Resume(u, rc, wLength, dirIn))
  {
    hide ChanOk, InFlight;
  }

  // A data interrupt never finds a finished transfer without a request, and carries the
  // request on or completes it.
  lemma InterruptedKeeps(u: Udc, isTx: bool)
    requires Inv(u)
    ensures Interrupted(u, isTx).Ok? && Inv(Interrupted(u, isTx).udc)
  {
    var ch := Channel(u, isTx);
    if ch.used > 0 && ReadResult(ch) >= 0 {
      if Ends(Current(u), ReadResult(ch)) {
        InterruptEnds(u, isTx);
      } else {
        InterruptContinues(u, isTx);
      }
    }
  }

  // The channel that is flying, its submission reaped.
  ghost predicate Reapable(u: Udc, isTx: bool) {
    && Inv(u) && Expected(u) == Flying(u.target, isTx) && !u.completed
    && ReadResult(Channel(u, isTx)) >= 0
  }

  lemma InterruptEnds(u: Udc, isTx: bool)
    requires Reapable(u, isTx) && Ends(Current(u), ReadResult(Channel(u, isTx)))
    ensures Interrupted(u, isTx).Ok? && Inv(Interrupted(u, isTx).udc)
  {
    hide InFlight, ReadResult, Reaped, Ends;
    ReapedIsIdle(Channel(u, isTx));
    ReapedSame(Channel(u, isTx));
    hide ChanOk;
  }

  // The next part of a request goes onto the reaped channel.
  lemma Resubmits(ch: Chan, r: Req, rc: nat)
    requires InFlight(ch, r) && rc == ReadResult(ch) && !Ends(r, rc)
    ensures
      var c, s := Reaped(ch), Continued(r, rc);
      && CanWrite(c, s)
      && ChanOk(Written(c, s)) && Written(c, s).isTx == ch.isTx
      && InFlight(Written(c, s), Submitted(c, s))
  {
    hide Reaped, Ends, Written, Submitted;
    ReapOutcome(ch, r);
    ReapedIsIdle(ch);
    ReapedSame(ch);
    var c, s := Reaped(ch), Continued(r, rc);
    IdleCanWrite(c, s);
    WriteStarts(c, s);
    WriteKeepsChan(c, s);
    WrittenIsTx(c, s);
  }

  // Replacing the flying channel and request by others in flight keeps the invariant.
  lemma FlyingKeeps(u: Udc, isTx: bool, ch: Chan, r: Req)
    requires Inv(u) && Expected(u) == Flying(u.target, isTx) && !u.completed
    requires ChanOk(ch) && ch.isTx == isTx && InFlight(ch, r)
    ensures Inv(WithCurrent(WithChannel(u, isTx, ch), r))
  {
    hide ChanOk, InFlight;
    if isTx { } else { }
  }

  lemma ContinuedIs(u: Udc, isTx: bool)
    requires Window(Channel(u, isTx)) && u.target != NoReq
    requires ReadResult(Channel(u, isTx)) >= 0 && !Ends(Current(u), ReadResult(Channel(u, isTx)))
    requires CanWrite(Reaped(Channel(u, isTx)), Continued(Current(u), ReadResult(Channel(u, isTx))))
    ensures
      var c, s := Reaped(Channel(u, isTx)), Continued(Current(u), ReadResult(Channel(u, isTx)));
      Interrupted(u, isTx) == Ok(WithCurrent(WithChannel(u, isTx, Written(c, s)), Submitted(c, s)))
  {
    hide ReadResult, Reaped, Ends, Written, Submitted, CanWrite, Continued;
  }

  lemma InterruptContinues(u: Udc, isTx: bool)
    requires Reapable(u, isTx) && !Ends(Current(u), ReadResult(Channel(u, isTx)))
    ensures Interrupted(u, isTx).Ok? && Inv(Interrupted(u, isTx).udc)
  {
    var ch, r := Channel(u, isTx), Current(u);
    assert Window(ch) && InFlight(ch, r) && ch.isTx == isTx;
    hide InFlight, ReadResult, Reaped, Ends, Written, Submitted, ChanOk, CanWrite, Continued, PcFits,
      FlightFits, WithChannel, WithCurrent, Interrupted;
    Resubmits(ch, r, ReadResult(ch));
    var c, s := Reaped(ch), Continued(r, ReadResult(ch));
    FlyingKeeps(u, isTx, Written(c, s), Submitted(c, s));
    assert u.target != NoReq;
    ContinuedIs(u, isTx);
  }

  lemma HardwareKeeps(u: Udc, isTx: bool, k: nat, bytes: nat)
    requires Inv(u) && HwCan(Channel(u, isTx), k, bytes)
    ensures Inv(WithChannel(u, isTx, HwDone(Channel(u, isTx), k, bytes)))
  {
    var ch := Channel(u, isTx);
    HwKeepsChan(ch, k, bytes);
    if InFlight(ch, Current(u)) {
      HwKeepsInFlight(ch, Current(u), k, bytes);
    }
    hide InFlight, ChanOk;
  }

  lemma StepKeeps(u: Udc, e: Event)
    requires Inv(u)
    ensures Step(u, e).Ok? && Inv(Step(u, e).udc)
  {
    hide Round, Resume, Interrupted, InFlight, ChanOk, HwCan, HwDone;
    match e
    case Worker =>
      if u.pc == AtTop {
        RoundKeeps(u);
      }
    case Return(rc, wLength, dirIn) => ResumeKeeps(u, rc, wLength, dirIn);
    case Hardware(isTx, k, bytes) =>
      if HwCan(Channel(u, isTx), k, bytes) {
        HardwareKeeps(u, isTx, k, bytes);
      }
    case DataIsr(isTx) => InterruptedKeeps(u, isTx);
    case _ =>
  }

  // No run from a good state, with any interleaving of host, hardware and gadget steps,
  // reaches a bug.
  lemma {:induction false} RunIsSafe(u: Udc, es: seq<Event>)
    requires Inv(u)
    ensures Run(u, es).Ok? && Inv(Run(u, es).udc)
    decreases |es|
  {
    if es != [] {
      StepKeeps(u, es[0]);
      RunIsSafe(Step(u, es[0]).udc, es[1..]);
    }
  }

  // The state after probing: EP0_SHUTDOWN, nothing pending, both channels idle.
  function Probed(ctrl: Req, rx: Chan, tx: Chan): Udc {
    Udc(Shutdown, false, false, false, false, false, None, NoReq, ctrl, rx, tx, AtTop)
  }

  // In every reachable state with the worker between rounds, ep0_request is set exactly in
  // these states; at most one channel has outstanding descriptors; they belong to that
  // request; and a completed request has none.
  lemma RequestExactly(ctrl: Req, rx: Chan, tx: Chan, es: seq<Event>)
    requires ChanOk(rx) && !rx.isTx && rx.used == 0 && ChanOk(tx) && tx.isTx && tx.used == 0
    ensures Run(Probed(ctrl, rx, tx), es).Ok?
    ensures
      var u := Run(Probed(ctrl, rx, tx), es).udc;
      && (u.pc == AtTop ==>
            (u.target != NoReq <==>
             u.state in {Idle, InDataComplete, OutDataComplete, OutStatus, InFakeStatus}))
      && (u.rx.used == 0 || u.tx.used == 0)
      && (u.target == ReplyReq ==> u.reply.Some?)
      && (u.completed ==> u.target != NoReq && u.rx.used == 0 && u.tx.used == 0)
      && (u.rx.used > 0 ==> u.target != NoReq && InFlight(u.rx, Current(u)))
      && (u.tx.used > 0 ==> u.target != NoReq && InFlight(u.tx, Current(u)))
  {
    RunIsSafe(Probed(ctrl, rx, tx), es);
    hide Run, Probed, InFlight, ChanOk;
  }

  // The reply that is queued, started afresh: what queueing it again does before it is
  // refused.
  function Requeued(u: Udc): Udc {
    if u.reply.None? then u else u.(reply := Some(u.reply.value.(actual := 0, offset := 0)))
  }

  // That does no harm exactly when the reply is not on its way, or is empty.
  lemma RequeuedExactly(u: Udc)
    requires Inv(u) && u.reply.Some?
    ensures Inv(Requeued(u)) <==> u.target != ReplyReq || u.completed || u.reply.value.length == 0
  {
    hide ChanOk, InFlight, ResetChan;
    var r, isTx := u.reply.value, u.state == InDataComplete;
    if u.target == ReplyReq && !u.completed {
      RestartedFlight(Channel(u, isTx), r);
    }
  }

  lemma RestartedFlight(ch: Chan, r: Req)
    requires InFlight(ch, r)
    ensures InFlight(ch, r.(actual := 0, offset := 0)) <==> r.length == 0
  {
    var q := r.(actual := 0, offset := 0);
    if r.length == 0 {
      assert q == r;
    } else if InFlight(ch, q) {
      CountBounds(ch, r.(offset := r.actual));
      assert q.bdBytes == 0;
      CoverPositive(ch, r.length - r.actual, ch.used);
    }
  }

  lemma CoverPositive(ch: Chan, left: nat, i: nat)
    requires ch.maxPkt > 0 && left > 0 && i > 0
    ensures Cover(ch, left, i) > 0
  {
  }
}
