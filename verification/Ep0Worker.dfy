/** The endpoint-0 code of gadget/bcm63xx_udc.c on the objects it updates: the worker with
    its callbacks, the interrupt handler's ep0 part, the queueing of replies and the
    pullup.  Every execution is shown to be a run of the machine of module Ep0Machine, so
    that what is proved there holds here. */
module Ep0Worker {
  import opened Basics
  import opened Iudma
  import C = IudmaChannel
  import M = Ep0Machine
  import S = Ep0Safety
  import P = Ep0Progress

  // Something that happens while the worker has dropped the lock, or before it runs.
  datatype Op =
    | UsbReset | SetConfiguration | SetInterface | Queue(req: C.Request) | PullupOff | PullupOn
    | Hardware(isTx: bool, k: nat, bytes: nat) | DataIsr(isTx: bool)

  // ---- Runs made of pieces

  lemma {:induction false} RunConcat(u: M.Udc, a: seq<M.Event>, b: seq<M.Event>)
    requires M.Run(u, a).Ok?
    ensures M.Run(u, a + b) == M.Run(M.Run(u, a).udc, b)
    decreases |a|
  {
    if a == [] {
      assert a + b == b;
    } else {
      assert (a + b)[0] == a[0] && (a + b)[1..] == a[1..] + b;
      hide M.Step;
      RunConcat(M.Step(u, a[0]).udc, a[1..], b);
    }
  }

  lemma RunOne(u: M.Udc, e: M.Event)
    ensures M.Run(u, [e]) == M.Step(u, e)
  {
    hide M.Step;
  }

  lemma {:induction false} OutsideConcat(a: seq<M.Event>, b: seq<M.Event>)
    ensures P.CountOutside(a + b) == P.CountOutside(a) + P.CountOutside(b)
    decreases |a|
  {
    if a == [] {
      assert a + b == b;
    } else {
      assert (a + b)[0] == a[0] && (a + b)[1..] == a[1..] + b;
      OutsideConcat(a[1..], b);
    }
  }

  // The events of one round: it begins, perhaps goes through a callback during which
  // outside events happen, and ends.
  ghost predicate IsRound(trace: seq<M.Event>, outside: nat, pullupOn: bool) {
    && trace != [] && trace[0] == M.Worker
    && P.CountOutside(trace) == outside
    && (!pullupOn ==> M.PullupOn !in trace)
  }

  ghost predicate AllOutside(trace: seq<M.Event>, n: nat, pullupOn: bool) {
    P.CountOutside(trace) == n && (!pullupOn ==> M.PullupOn !in trace)
  }

  lemma PlainRound(u: M.Udc, v: M.Udc)
    requires M.Step(u, M.Worker) == M.Ok(v)
    ensures M.Run(u, [M.Worker]) == M.Ok(v) && IsRound([M.Worker], 0, false)
  {
    RunOne(u, M.Worker);
    hide M.Step;
    assert [M.Worker][1..] == [];
  }

  lemma CallbackRound(u: M.Udc, v: M.Udc, cb: seq<M.Event>, n: nat, on: bool, w: M.Udc, ret: M.Event, x: M.Udc)
    requires M.Step(u, M.Worker) == M.Ok(v) && M.Run(v, cb) == M.Ok(w) && M.Step(w, ret) == M.Ok(x)
    requires ret.Return? && AllOutside(cb, n, on)
    ensures M.Run(u, [M.Worker] + cb + [ret]) == M.Ok(x)
    ensures IsRound([M.Worker] + cb + [ret], n, on)
  {
    hide M.Step;
    RunOne(u, M.Worker);
    RunOne(w, ret);
    RunConcat(u, [M.Worker], cb);
    RunConcat(u, [M.Worker] + cb, [ret]);
    OutsideConcat([M.Worker], cb);
    OutsideConcat([M.Worker] + cb, [ret]);
    assert [M.Worker][1..] == [] && [ret][1..] == [];
  }

  lemma RoundStep(u: M.Udc, v: M.Udc, called: bool, work: bool)
    requires u.pc == M.AtTop && M.Round(u) == Result(v, called, work)
    ensures M.Step(u, M.Worker) == M.Ok(v)
    ensures P.Productive(u, M.Worker) <==> called || work
  {
    hide M.DoIdle, M.SetupRound, M.InDataRound, M.OutDataRound, M.StatusRound, M.FakeRound, M.Internal, M.Moved;
  }

  lemma IdleRound(u: M.Udc, v: M.Udc, work: bool)
    requires u.pc == M.AtTop && M.Round(u) == Result(v, false, work)
    ensures !work ==> v == u
  {
    hide M.Round, P.Pending;
    P.RoundProgress(u);
  }

  // A productive round uses up more than the outside events during it can have added.
  lemma RoundBound(u: M.Udc, trace: seq<M.Event>, n: nat, on: bool)
    requires M.Inv(u) && IsRound(trace, n, on) && P.Productive(u, M.Worker)
    ensures M.Run(u, trace).Ok?
    ensures P.Pending(M.Run(u, trace).udc) < P.Pending(u) + 6 * n
  {
    hide M.Inv, M.Step, P.Pending, P.Productive, M.Run;
    S.StepKeeps(u, M.Worker);
    P.WorkerIsBounded(u, trace);
  }

  lemma EndNeeds(w: M.Udc)
    requires M.Inv(w)
    ensures w.pc == M.InFakeDone ==> w.target == M.CtrlReq
  {
    hide InFlight;
  }

  lemma ResumeAtTop(w: M.Udc, rc: int, wLength: nat, dirIn: bool)
    ensures M.Resume(w, rc, wLength, dirIn).pc == M.AtTop
    ensures M.Step(w, M.Return(rc, wLength, dirIn)) == M.Ok(M.Resume(w, rc, wLength, dirIn))
  {
  }

  // A plan in which nobody switches the pullup on.
  predicate HasPullupOn(ops: seq<Op>) { exists i :: 0 <= i < |ops| && ops[i] == PullupOn }

  // What it takes for a round to meet no bug, in each state.
  ghost predicate Runnable(u: M.Udc) {
    && Usable(u.rx) && Usable(u.tx)
    && ((u.state == M.Requeue || u.state == M.InDataSetup || u.state == M.OutDataSetup) ==> u.target == M.NoReq)
    && ((u.state == M.Idle || u.state == M.OutStatus) && u.completed ==> u.target != M.NoReq)
    && ((u.state == M.InDataComplete || u.state == M.OutDataComplete) ==> u.target != M.NoReq && u.reply.Some?)
  }

  ghost predicate Usable(ch: Chan) { ch.maxPkt > 0 && ch.writeBd < |ch.ring| }

  lemma RoundNeeds(u: M.Udc)
    requires M.Inv(u) && u.pc == M.AtTop
    ensures Runnable(u)
  {
    hide InFlight;
  }

  // The result of the first part of a round, from what the code reports about it.
  function Result(v: M.Udc, called: bool, work: bool): M.RoundResult {
    if called then M.Called(v) else M.Finished(v, work)
  }

  // What it takes for the interrupt to meet no bug.
  ghost predicate Interruptible(u: M.Udc, isTx: bool) {
    var ch, r := M.Channel(u, isTx), M.Current(u);
    && Window(ch)
    && (ReadResult(ch) >= 0 ==> u.target != M.NoReq)
    && (ReadResult(ch) >= 0 && !Ends(r, ReadResult(ch)) ==> CanWrite(Reaped(ch), Continued(r, ReadResult(ch))))
  }

  lemma InterruptNeeds(u: M.Udc, isTx: bool)
    requires M.Interrupted(u, isTx).Ok?
    ensures Interruptible(u, isTx)
  {
    hide Written, Submitted, CanWrite, Reaped, ReadResult, Ends, Ended, Continued;
  }

  // The effect of the interrupt on the channel and the request.
  ghost predicate Advanced(ch: Chan, r: Req, isDone: bool, ch': Chan, r': Req) {
    Window(ch) &&
    var rc := ReadResult(ch);
    var c := Reaped(ch);
    if rc < 0 then !isDone && ch' == ch && r' == r
    else if Ends(r, rc) then isDone && ch' == c && r' == Ended(r, rc)
    else
      && !isDone && CanWrite(c, Continued(r, rc))
      && ch' == Written(c, Continued(r, rc)) && r' == Submitted(c, Continued(r, rc))
  }

  // Nothing else is touched while a submission is reaped.
  ghost predicate Framed(u: M.Udc, v: M.Udc, isTx: bool) {
    && v == u.(rx := v.rx, tx := v.tx, ctrl := v.ctrl, reply := v.reply)
    && M.Channel(v, !isTx) == M.Channel(u, !isTx) && v.reply.Some? == u.reply.Some?
    && (u.target == M.ReplyReq ==> u.reply.Some? && v.ctrl == u.ctrl)
    && (u.target != M.ReplyReq ==> v.reply == u.reply)
  }

  lemma InterruptIs(u: M.Udc, v: M.Udc, isTx: bool, isDone: bool)
    requires Interruptible(u, isTx) && Framed(u, v, isTx)
    requires Advanced(M.Channel(u, isTx), M.Current(u), isDone, M.Channel(v, isTx), M.Current(v))
    ensures M.Interrupted(u, isTx) == M.Ok(v.(completed := v.completed || isDone))
  {
    hide Written, Submitted, CanWrite, Reaped, ReadResult, Ends, Ended, Continued;
  }

  // The internal request is overwritten by what is submitted of it.
  lemma InternalSame(u: M.Udc, isTx: bool, c: Req)
    ensures M.MapWrite(u.(ctrl := c), isTx, M.CtrlReq, c) == M.MapWrite(u, isTx, M.CtrlReq, c)
  {
  }

  class Udc {
    const rx: C.Channel
    const tx: C.Channel
    const ctrlReq: C.Request
    ghost const pool: set<C.Request>     // the requests of the gadget driver
    var ep0state: M.Ep0State
    var reqReset: bool
    var reqSetCfg: bool
    var reqSetIface: bool
    var reqShutdown: bool
    var reqCompleted: bool
    var reply: C.Request?
    var request: C.Request?
    var pc: M.Pc                         // where the worker stands when it has dropped the lock

    // The state that bcm63xx_init_udc_hw leaves: EP0_SHUTDOWN, both channels reset.  The
    // channel parameters are rows 0 and 1 of iudma_defaults.
    constructor (ghost pool: set<C.Request>, coalesce: bool)
      ensures Valid() && this.pool == pool && ep0state == M.Shutdown && pc == M.AtTop
      ensures fresh(rx) && fresh(rx.ring) && fresh(tx) && fresh(tx.ring) && fresh(ctrlReq)
    {
      rx := new C.Channel(false, coalesce, 64, 4);
      tx := new C.Channel(true, coalesce, 64, 4);
      ctrlReq := new C.Request(0, 0, false);
      this.pool, pc := pool, M.AtTop;
      ep0state, reply, request := M.Shutdown, null, null;
      reqReset, reqSetCfg, reqSetIface, reqShutdown, reqCompleted := false, false, false, false, false;
    }

    ghost function Footprint(): set<object> {
      {this, rx, rx.ring, tx, tx.ring, ctrlReq} + pool
    }

    ghost function Value(): M.Udc
      reads this, Footprint()
      requires reply != null ==> reply in pool
    {
      M.Udc(ep0state, reqReset, reqSetCfg, reqSetIface, reqShutdown, reqCompleted,
            if reply == null then None else Some(reply.Value()),
            if request == null then M.NoReq else if request == ctrlReq then M.CtrlReq else M.ReplyReq,
            ctrlReq.Value(), rx.Value(), tx.Value(), pc)
    }

    // The objects are distinct, and ep0_request is null, the driver's own request or the
    // reply.
    ghost predicate Shape()
      reads this, Footprint()
    {
      && rx != tx && rx.ring != tx.ring && ctrlReq !in pool
      && (reply != null ==> reply in pool)
      && (request == null || request == ctrlReq || request == reply)
    }

    ghost predicate Valid()
      reads this, Footprint()
    {
      Shape() && M.Inv(Value())
    }

    // ---- Parts of a round

    // bcm63xx_ep0_map_write.  BUG_ON(udc->ep0_request) is its precondition.
    method MapWrite(isTx: bool, req: C.Request)
      requires Shape() && request == null && (req == ctrlReq || req == reply)
      requires CanWrite(M.Channel(Value(), isTx), req.Value().(actual := 0, offset := 0))
      modifies `request, rx, rx.ring, tx, tx.ring, req
      ensures Shape()
      ensures M.MapWrite(old(Value()), isTx, if req == ctrlReq then M.CtrlReq else M.ReplyReq, old(req.Value()))
              == M.Ok(Value())
    {
      hide Written, Submitted, CanWrite;
      request := req;
      req.actual := 0;
      req.offset := 0;
      if isTx {
        tx.Write(req);
      } else {
        rx.Write(req);
      }
    }

    // bcm63xx_ep0_internal_request
    method InternalRequest(isTx: bool, length: nat)
      requires Shape() && request == null
      requires CanWrite(M.Channel(Value(), isTx), ctrlReq.Value().(length := length, actual := 0, offset := 0))
      modifies `request, rx, rx.ring, tx, tx.ring, ctrlReq
      ensures Shape() && M.Internal(old(Value()), isTx, length) == M.Ok(Value())
    {
      hide CanWrite, M.MapWrite;
      ghost var u := Value();
      ctrlReq.length := length;
      InternalSame(u, isTx, ctrlReq.Value());
      MapWrite(isTx, ctrlReq);
    }

    // bcm63xx_ep0_read_complete
    method ReadComplete() returns (actual: nat)
      requires Shape() && request != null
      modifies `request, `reqCompleted
      ensures Shape() && M.ReadComplete(old(Value())) == M.Ok(Value())
      ensures actual == M.Current(old(Value())).actual
    {
      actual := request.actual;
      reqCompleted := false;
      request := null;
    }

    // bcm63xx_ep0_nuke_reply, up to the completion callback
    method NukeReply()
      requires Shape() && reply != null
      modifies `request, `reply, `reqCompleted
      ensures Shape() && M.NukeReply(old(Value())) == M.Ok(Value())
    {
      var req := reply;
      reply := null;
      if request == req {
        reqCompleted := false;
        request := null;
      }
    }

    // ---- What happens outside the worker

    // The part of bcm63xx_udc_data_isr that follows a reaped submission.
    method Advance(ch: C.Channel, req: C.Request, rc: nat) returns (isDone: bool)
      requires !Ends(req.Value(), rc) ==> CanWrite(ch.Value(), Continued(req.Value(), rc))
      modifies ch, ch.ring, req
      ensures isDone == Ends(old(req.Value()), rc)
      ensures isDone ==> ch.Value() == old(ch.Value()) && req.Value() == Ended(old(req.Value()), rc)
      ensures !isDone ==>
                && ch.Value() == Written(old(ch.Value()), Continued(old(req.Value()), rc))
                && req.Value() == Submitted(old(ch.Value()), Continued(old(req.Value()), rc))
    {
      hide Written, Submitted, CanWrite;
      req.actual := req.actual + rc;
      if req.actual >= req.length || req.bdBytes > rc {
        isDone := true;
        req.actual := Min(req.actual, req.length);
      } else {
        isDone := false;
        ch.Write(req);
      }
    }

    // bcm63xx_udc_data_isr on the ep0 RX channel and on the TX channel
    method RxIsr()
      requires Shape() && Interruptible(Value(), false)
      modifies `reqCompleted, rx, rx.ring, request
      ensures Shape() && M.Interrupted(old(Value()), false) == M.Ok(Value())
    {
      hide Interruptible, Advanced, Framed, M.Interrupted;
      ghost var u := Value();
      var isDone := Reap(rx, false);
      InterruptIs(u, Value(), false, isDone);
      if isDone {
        reqCompleted := true;
      }
    }

    method TxIsr()
      requires Shape() && Interruptible(Value(), true)
      modifies `reqCompleted, tx, tx.ring, request
      ensures Shape() && M.Interrupted(old(Value()), true) == M.Ok(Value())
    {
      hide Interruptible, Advanced, Framed, M.Interrupted;
      ghost var u := Value();
      var isDone := Reap(tx, true);
      InterruptIs(u, Value(), true, isDone);
      if isDone {
        reqCompleted := true;
      }
    }

    // iudma_read, and what follows when it returns a length
    method Reap(ch: C.Channel, ghost isTx: bool) returns (isDone: bool)
      requires Shape() && Interruptible(Value(), isTx) && ch == if isTx then tx else rx
      modifies ch, ch.ring, request
      ensures Shape() && Framed(old(Value()), Value(), isTx)
      ensures Advanced(old(M.Channel(Value(), isTx)), old(M.Current(Value())), isDone,
                       M.Channel(Value(), isTx), M.Current(Value()))
    {
      hide Written, Submitted, CanWrite, ReadResult, Ends, Ended, Continued;
      isDone := false;
      var rc := ch.Read();
      if rc >= 0 {
        isDone := Advance(ch, request, rc);
      }
    }

    // bcm63xx_udc_queue on ep0.  It starts the request afresh before it finds that there is
    // a reply already, even when they are the same.
    method QueueReply(req: C.Request) returns (rc: int)
      requires Shape() && req in pool
      modifies `reply, req`actual, req`offset, req`status
      ensures Shape() && rc == if old(reply) != null then EINVAL else 0
      ensures if req == old(reply) then Value() == S.Requeued(old(Value()))
              else M.Step(old(Value()), M.QueueReply(old(req.Value()))) == M.Ok(Value())
    {
      req.actual := 0;
      req.status := 0;
      req.offset := 0;
      if reply != null {
        return EINVAL;
      }
      reply := req;
      return 0;
    }

    method HardwareStep(isTx: bool, k: nat, bytes: nat)
      requires Shape()
      modifies rx.ring, tx.ring
      ensures Shape() && M.Step(old(Value()), M.Hardware(isTx, k, bytes)) == M.Ok(Value())
    {
      hide HwDone, HwCan;
      if isTx {
        if HwCan(tx.Value(), k, bytes) {
          tx.Complete(k, bytes);
        }
      } else if HwCan(rx.Value(), k, bytes) {
        rx.Complete(k, bytes);
      }
    }

    // bcm63xx_udc_ctrl_isr, and bcm63xx_udc_pullup up to its wait loop
    method Signal(op: Op) returns (ghost e: M.Event)
      requires Shape() && !op.Queue? && !op.Hardware? && !op.DataIsr?
      modifies `reqReset, `reqSetCfg, `reqSetIface, `reqShutdown, `ep0state
      ensures Shape() && M.Step(old(Value()), e) == M.Ok(Value())
      ensures P.FromOutside(e) && (op != PullupOn ==> e != M.PullupOn)
    {
      match op {
      case UsbReset => reqReset := true; e := M.UsbReset;
      case SetConfiguration => reqSetCfg := true; e := M.SetConfiguration;
      case SetInterface => reqSetIface := true; e := M.SetInterface;
      case PullupOff =>
        e := M.PullupOff;
        if ep0state != M.Shutdown {
          reqShutdown := true;
        }
      case PullupOn =>
        e := M.PullupOn;
        if ep0state == M.Shutdown {
          ep0state := M.Requeue;
        }
      }
    }

    // One thing that happens outside the worker.  A reply that is queued already is not
    // queued again.
    method Outside(op: Op) returns (ghost e: M.Event)
      requires Valid() && (op.Queue? ==> op.req in pool)
      modifies Footprint()
      ensures Valid() && pc == old(pc)
      ensures M.Step(old(Value()), e) == M.Ok(Value()) && P.FromOutside(e) && (op != PullupOn ==> e != M.PullupOn)
    {
      hide M.Inv, M.Interrupted, HwCan, HwDone, Interruptible;
      ghost var u := Value();
      match op {
      case Queue(req) =>
        e := M.QueueReply(req.Value());
        if req != reply {
          var rc := QueueReply(req);
        }
      case Hardware(isTx, k, bytes) =>
        e := M.Hardware(isTx, k, bytes);
        HardwareStep(isTx, k, bytes);
      case DataIsr(isTx) =>
        e := M.DataIsr(isTx);
        S.InterruptedKeeps(u, isTx);
        InterruptNeeds(u, isTx);
        if isTx {
          TxIsr();
        } else {
          RxIsr();
        }
      case _ => e := Signal(op);
      }
      S.StepKeeps(u, e);
    }

    ghost predicate Possible(ops: seq<Op>) {
      forall i :: 0 <= i < |ops| && ops[i].Queue? ==> ops[i].req in pool
    }

    // A gadget callback, with the lock dropped: any number of the outside operations
    // happen before it returns.
    method Callback(ops: seq<Op>) returns (rest: seq<Op>, ghost trace: seq<M.Event>)
      requires Valid() && Possible(ops)
      modifies Footprint()
      ensures Valid() && pc == old(pc) && Possible(rest)
      ensures |rest| <= |ops| && (HasPullupOn(rest) ==> HasPullupOn(ops))
      ensures M.Run(old(Value()), trace) == M.Ok(Value()) && AllOutside(trace, |ops| - |rest|, HasPullupOn(ops))
    {
      ghost var u := Value();
      var n: nat :| n <= |ops|;
      trace := [];
      for i := 0 to n
        invariant Valid() && pc == old(pc)
        invariant M.Run(u, trace) == M.Ok(Value()) && AllOutside(trace, i, HasPullupOn(ops))
      {
        ghost var v := Value();
        ghost var e := Outside(ops[i]);
        RunConcat(u, trace, [e]);
        RunOne(v, e);
        OutsideConcat(trace, [e]);
        assert [e][1..] == [];
        trace := trace + [e];
      }
      rest := ops[n..];
    }

    // ---- The first part of a round: up to a callback if it makes one

    // EP0_IN_DATA_PHASE_SETUP and EP0_OUT_DATA_PHASE_SETUP
    method BeginSetup(isTx: bool) returns (work: bool)
      requires Shape() && request == null && Usable(tx.Value()) && Usable(rx.Value())
      modifies `ep0state, `request, rx, rx.ring, tx, tx.ring, reply
      ensures Shape() && M.SetupRound(old(Value()), isTx) == Result(Value(), false, work)
    {
      hide M.MapWrite;
      work := false;
      if reply != null {
        MapWrite(isTx, reply);
        ep0state := if isTx then M.InDataComplete else M.OutDataComplete;
        work := true;
      } else if reqReset || reqShutdown {
        ep0state := M.Requeue;
        work := true;
      }
    }

    // iudma_reset_channel
    method ResetChannel(ch: C.Channel, ghost isTx: bool)
      requires Shape() && ch == (if isTx then tx else rx) && ch.ring.Length > 0
      modifies ch`readBd, ch`writeBd, ch`nBdsUsed, ch.ring
      ensures Shape()
      ensures
        var u := old(Value());
        Value() == if isTx then u.(tx := ResetChan(u.tx)) else u.(rx := ResetChan(u.rx))
    {
      hide ResetChan;
      ch.Reset();
    }

    // A reset in the data phase, up to the completion callback.
    method ResetData(ch: C.Channel, ghost isTx: bool)
      requires Shape() && reply != null && ch == (if isTx then tx else rx) && ch.ring.Length > 0
      modifies `request, `reply, `reqCompleted, `pc, ch`readBd, ch`writeBd, ch`nBdsUsed, ch.ring
      ensures Shape() && pc == M.InNukeData
      ensures
        var u := old(Value());
        M.Calls(M.NukeReply(if isTx then u.(tx := ResetChan(u.tx)) else u.(rx := ResetChan(u.rx))), M.InNukeData)
        == M.Called(Value())
    {
      hide ResetChan, M.NukeReply;
      ResetChannel(ch, isTx);
      NukeReply();
      ghost var w := Value();
      pc := M.InNukeData;
      assert Value() == w.(pc := M.InNukeData);
    }

    // EP0_IN_DATA_PHASE_COMPLETE
    method BeginInData() returns (called: bool, work: bool)
      requires Shape() && request != null && reply != null && tx.ring.Length > 0
      modifies `ep0state, `request, `reply, `reqCompleted, `pc, tx, tx.ring
      ensures Shape() && M.InDataRound(old(Value())) == Result(Value(), called, work)
      ensures if called then pc != M.AtTop else pc == old(pc)
    {
      hide ResetChan, M.NukeReply;
      called, work := false, false;
      if reqCompleted {
        var actual := ReadComplete();
        reply := null;
        ep0state := M.Requeue;
        work := true;
      } else if reqReset || reqShutdown {
        ResetData(tx, true);
        called := true;
      }
    }

    // Closing the data phase and sending a zero-length packet to the host.
    method AcknowledgeData()
      requires Shape() && request != null && Usable(tx.Value())
      modifies `request, `reply, `reqCompleted, rx, rx.ring, tx, tx.ring, ctrlReq
      ensures Shape() && M.Acknowledge(M.DropReply(M.ReadComplete(old(Value())))) == M.Ok(Value())
    {
      hide M.Internal;
      var actual := ReadComplete();
      reply := null;
      InternalRequest(true, 0);
    }

    // EP0_OUT_DATA_PHASE_COMPLETE
    method BeginOutData() returns (called: bool, work: bool)
      requires Shape() && request != null && reply != null && rx.ring.Length > 0 && Usable(tx.Value())
      modifies `ep0state, `request, `reply, `reqCompleted, `pc, rx, rx.ring, tx, tx.ring, ctrlReq
      ensures Shape() && M.OutDataRound(old(Value())) == Result(Value(), called, work)
      ensures if called then pc != M.AtTop else pc == old(pc)
    {
      hide ResetChan, M.Acknowledge, M.DropReply, M.ReadComplete, M.NukeReply;
      called, work := false, false;
      if reqCompleted {
        AcknowledgeData();
        ghost var w := Value();
        ep0state := M.OutStatus;
        work := true;
        assert Value() == w.(state := M.OutStatus);
      } else if reqReset || reqShutdown {
        ResetData(rx, false);
        called := true;
      }
    }

    // EP0_OUT_STATUS_PHASE
    method BeginStatus() returns (work: bool)
      requires Shape() && (reqCompleted ==> request != null) && tx.ring.Length > 0
      modifies `ep0state, `request, `reqCompleted, tx, tx.ring
      ensures Shape() && M.StatusRound(old(Value())) == Result(Value(), false, work)
    {
      hide ResetChan;
      work := false;
      if reqCompleted {
        var actual := ReadComplete();
        ep0state := M.Requeue;
        work := true;
      } else if reqReset || reqShutdown {
        tx.Reset();
        request := null;
        ep0state := M.Requeue;
        work := true;
      }
    }

    // EP0_IN_FAKE_STATUS_PHASE
    method BeginFake() returns (called: bool, work: bool)
      requires Shape()
      modifies `ep0state, `pc
      ensures Shape() && M.FakeRound(old(Value())) == Result(Value(), called, work)
      ensures if called then pc != M.AtTop else pc == old(pc)
    {
      called, work := false, false;
      if reply != null {
        pc := M.InFakeDone;
        called := true;
      } else if reqReset || reqShutdown {
        ep0state := M.Idle;
        work := true;
      }
    }

    // bcm63xx_ep0_do_setup, up to the setup callback
    method BeginDoSetup() returns (called: bool)
      requires Shape() && request != null
      modifies `ep0state, `request, `reqCompleted, `pc
      ensures Shape() && M.DoSetup(old(Value())) == Result(Value(), called, !called)
      ensures if called then pc != M.AtTop else pc == old(pc)
    {
      var rc := ReadComplete();
      if rc == 0 {
        ep0state := M.Requeue;
        return false;
      }
      if rc != M.SETUP_SIZE {
        ep0state := M.Requeue;
        return false;
      }
      pc := M.InSetup;
      return true;
    }

    // bcm63xx_ep0_do_idle
    method BeginIdle() returns (called: bool, work: bool)
      requires Shape() && (reqCompleted ==> request != null) && rx.ring.Length > 0
      modifies `ep0state, `request, `reply, `reqReset, `reqSetCfg, `reqSetIface, `reqShutdown, `reqCompleted, `pc,
        rx, rx.ring
      ensures Shape() && M.DoIdle(old(Value())) == Result(Value(), called, work)
      ensures if called then pc != M.AtTop else pc == old(pc)
    {
      hide ResetChan, M.DoSetup;
      called, work := false, true;
      if reqReset {
        reqReset := false;
      } else if reqSetCfg {
        reqSetCfg := false;
        pc := M.InSpoof;
        called := true;
      } else if reqSetIface {
        reqSetIface := false;
        pc := M.InSpoof;
        called := true;
      } else if reqCompleted {
        called := BeginDoSetup();
        work := !called;
      } else if reqShutdown {
        reqShutdown := false;
        reqCompleted := false;
        request := null;
        rx.Reset();
        ep0state := M.Shutdown;
      } else if reply != null {
        NukeReply();
        pc := M.InNukeIdle;
        called := true;
      } else {
        work := false;
      }
    }

    // bcm63xx_ep0_one_round, up to a callback if it makes one
    method BeginRound() returns (called: bool, work: bool)
      requires Shape() && Runnable(Value())
      modifies this, rx, rx.ring, tx, tx.ring, ctrlReq, reply
      ensures Shape() && M.Round(old(Value())) == Result(Value(), called, work)
      ensures if called then pc != M.AtTop else pc == old(pc)
    {
      hide M.DoIdle, M.SetupRound, M.InDataRound, M.OutDataRound, M.StatusRound, M.FakeRound, M.Internal;
      called, work := false, false;
      match ep0state
      case Requeue =>
        InternalRequest(false, M.MAX_CTRL_PKT);
        ep0state := M.Idle;
        work := true;
      case Idle => called, work := BeginIdle();
      case InDataSetup => work := BeginSetup(true);
      case InDataComplete => called, work := BeginInData();
      case OutDataSetup => work := BeginSetup(false);
      case OutDataComplete => called, work := BeginOutData();
      case OutStatus => work := BeginStatus();
      case InFakeStatus => called, work := BeginFake();
      case Shutdown =>
    }

    // ---- The rest of a round, once the callback has returned

    method EndRound(rc: int, wLength: nat, dirIn: bool)
      requires Shape() && pc != M.AtTop && (pc == M.InFakeDone ==> request == ctrlReq)
      modifies `ep0state, `reply, `pc
      ensures Shape() && M.Resume(old(Value()), rc, wLength, dirIn) == Value()
    {
      match pc
      case InSetup =>
        if rc < 0 {
          ep0state := M.Requeue;
        } else if wLength == 0 {
          ep0state := M.Requeue;
        } else if dirIn {
          ep0state := M.InDataSetup;
        } else {
          ep0state := M.OutDataSetup;
        }
        pc := M.AtTop;
      case InSpoof =>
        if rc >= 0 {
          ep0state := M.InFakeStatus;
        }
        pc := M.AtTop;
      case InNukeIdle => pc := M.AtTop;
      case InNukeData =>
        ep0state := M.Requeue;
        pc := M.AtTop;
      case InFakeDone =>
        reply := null;
        ep0state := M.Idle;
        pc := M.AtTop;
    }

    // bcm63xx_ep0_one_round.  The first of ops happen while a callback runs; what the
    // callback returns, and the SETUP packet it was given, are arbitrary.
    method OneRound(ops: seq<Op>) returns (rc: int, rest: seq<Op>, ghost trace: seq<M.Event>)
      requires Valid() && pc == M.AtTop && Possible(ops)
      modifies Footprint()
      ensures Valid() && pc == M.AtTop && Possible(rest)
      ensures rc == 0 || rc == EAGAIN
      ensures rc == 0 <==> P.Productive(old(Value()), M.Worker)
      ensures rc != 0 ==> Value() == old(Value()) && rest == ops
      ensures M.Run(old(Value()), trace) == M.Ok(Value())
      ensures |rest| <= |ops| && (HasPullupOn(rest) ==> HasPullupOn(ops))
      ensures IsRound(trace, |ops| - |rest|, HasPullupOn(ops))
    {
      hide M.Inv, M.Round, M.Resume, Runnable;
      ghost var u := Value();
      RoundNeeds(u);
      S.RoundKeeps(u);
      var called, work := BeginRound();
      ghost var v := Value();
      RoundStep(u, v, called, work);
      if called {
        ghost var cb;
        rest, cb := Callback(ops);
        ghost var w := Value();
        EndNeeds(w);
        var status: int := *;
        var wLength: nat := *;
        var dirIn: bool := *;
        EndRound(status, wLength, dirIn);
        trace := [M.Worker] + cb + [M.Return(status, wLength, dirIn)];
        S.ResumeKeeps(w, status, wLength, dirIn);
        ResumeAtTop(w, status, wLength, dirIn);
        CallbackRound(u, v, cb, |ops| - |rest|, HasPullupOn(ops), w, M.Return(status, wLength, dirIn), Value());
        rc := 0;
      } else {
        trace, rest := [M.Worker], ops;
        PlainRound(u, v);
        IdleRound(u, v, work);
        rc := if work then 0 else EAGAIN;
      }
    }

    // bcm63xx_ep0_process
    method Process(ops: seq<Op>) returns (rest: seq<Op>)
      requires Valid() && pc == M.AtTop && Possible(ops)
      modifies Footprint()
      ensures Valid() && pc == M.AtTop && Possible(rest)
      ensures P.Waiting(Value())
      ensures old(reqShutdown || ep0state == M.Shutdown) && !HasPullupOn(ops) ==> ep0state == M.Shutdown
    {
      hide M.Inv, M.Step, P.Pending, P.Productive;
      rest := ops;
      ghost var u := Value();
      ghost var trace: seq<M.Event> := [];
      var rc := 0;
      while rc == 0
        invariant Valid() && pc == M.AtTop && Possible(rest)
        invariant HasPullupOn(rest) ==> HasPullupOn(ops)
        invariant M.Run(u, trace) == M.Ok(Value()) && (!HasPullupOn(ops) ==> M.PullupOn !in trace)
        invariant rc != 0 ==> P.Waiting(Value())
        decreases P.Pending(Value()) + 6 * |rest|, if rc == 0 then 1 else 0
      {
        ghost var v, before := Value(), rest;
        ghost var round;
        rc, rest, round := OneRound(rest);
        RunConcat(u, trace, round);
        trace := trace + round;
        if rc == 0 {
          RoundBound(v, round, |before| - |rest|, HasPullupOn(before));
        }
      }
      if (u.shutdown || u.state == M.Shutdown) && !HasPullupOn(ops) {
        P.ShutdownIsReached(u, trace);
      }
    }

    // bcm63xx_udc_pullup with is_on false, once its caller has dropped the lock: the loop
    // that schedules the worker until it sees EP0_SHUTDOWN needs only one turn.  If the
    // worker is in a callback, that returns first, with the given results.
    method PullupOffAndWait(ops: seq<Op>, status: int, wLength: nat, dirIn: bool) returns (rc: int, rest: seq<Op>)
      requires Valid() && Possible(ops) && !HasPullupOn(ops)
      modifies Footprint()
      ensures Valid() && pc == M.AtTop && ep0state == M.Shutdown
      ensures rc == if old(ep0state) == M.Shutdown then EINVAL else 0
    {
      hide M.Inv, M.Resume;
      rest := ops;
      if ep0state == M.Shutdown {
        ShutdownAtTop(Value());
        return EINVAL, rest;
      }
      S.StepKeeps(Value(), M.PullupOff);
      reqShutdown := true;
      if pc != M.AtTop {
        ghost var u := Value();
        EndNeeds(u);
        S.ResumeKeeps(u, status, wLength, dirIn);
        ResumeAtTop(u, status, wLength, dirIn);
        ResumeShutdown(u, status, wLength, dirIn);
        EndRound(status, wLength, dirIn);
      }
      rest := Process(ops);
      rc := 0;
    }
  }

  lemma ShutdownAtTop(u: M.Udc)
    requires M.Inv(u) && u.state == M.Shutdown
    ensures u.pc == M.AtTop
  {
  }

  lemma ResumeShutdown(u: M.Udc, rc: int, wLength: nat, dirIn: bool)
    ensures M.Resume(u, rc, wLength, dirIn).shutdown == u.shutdown
  {
  }
}
