/** What the endpoint-0 machine does with a control transfer, stage by stage (section 8.5.3
    of USB 2.0): a SETUP packet, a data stage in the direction that it names or none, and a
    status stage; and how a reset or a shutdown cuts each of them short. */
module Ep0Transfers {
  import opened Basics
  import opened Iudma
  import opened Ep0Machine
  import opened Ep0Safety
  import T = IudmaTransfer

  // The worker waits for a SETUP packet: 64 bytes are posted on the receive channel, none of
  // them has arrived, and nothing else is in flight.
  ghost predicate Listening(u: Udc) {
    && Inv(u) && u.pc == AtTop && u.state == Idle && u.target == CtrlReq && !u.completed
    && u.ctrl.length == 64 && u.ctrl.actual == 0 && u.tx.used == 0
    && InFlight(u.rx, u.ctrl) && Window(u.rx) && u.rx.used == 1 && Out(u.rx, 0).owner
  }

  lemma RunOne(u: Udc, e: Event)
    ensures Run(u, [e]) == Step(u, e)
  {
    hide Step;
    assert [e][1..] == [];
    assert Step(u, e).Ok? ==> Run(Step(u, e).udc, []) == Step(u, e);
  }

  lemma RunMore(u: Udc, e: Event, es: seq<Event>)
    ensures Run(u, [e] + es) == if Step(u, e).Ok? then Run(Step(u, e).udc, es) else Bug
  {
    hide Step;
    assert ([e] + es)[0] == e && ([e] + es)[1..] == es;
  }

  lemma RunTwo(u: Udc, e: Event, f: Event)
    ensures Run(u, [e, f]) == if Step(u, e).Ok? then Step(Step(u, e).udc, f) else Bug
  {
    hide Step, Run;
    assert [e, f] == [e] + [f];
    RunMore(u, e, [f]);
    if Step(u, e).Ok? {
      RunOne(Step(u, e).udc, f);
    }
  }

  lemma RunThree(u: Udc, e: Event, f: Event, g: Event)
    ensures Run(u, [e, f, g]) == if Step(u, e).Ok? then Run(Step(u, e).udc, [f, g]) else Bug
  {
    hide Step, Run;
    assert [e, f, g] == [e] + [f, g];
    RunMore(u, e, [f, g]);
  }

  // ---- Back to listening

  // From EP0_REQUEUE the worker posts the control request.
  lemma Listens(u: Udc)
    requires Inv(u) && u.pc == AtTop && u.state == Requeue
    ensures
      var o := Step(u, Worker);
      && o.Ok? && Listening(o.udc) && o.udc.reply == u.reply
      && o.udc.reset == u.reset && o.udc.setCfg == u.setCfg && o.udc.setIface == u.setIface
      && o.udc.shutdown == u.shutdown
  {
    hide ChanOk, InFlight, Written, Submitted;
    var r := u.ctrl.(length := MAX_CTRL_PKT, actual := 0, offset := 0);
    StepKeeps(u, Worker);
    MapWriteKeeps(u, false, CtrlReq, u.ctrl.(length := MAX_CTRL_PKT));
    SubmittedIs(u.rx, r);
    PostedOwned(u.rx, r);
  }

  lemma SubmittedIs(ch: Chan, r: Req)
    requires CanWrite(ch, r)
    ensures
      var q := Submitted(ch, r);
      q.dma == r.dma && q.length == r.length && q.zero == r.zero && q.actual == r.actual
  {
  }

  // ---- The SETUP packet

  // A packet of n bytes that arrives while the worker listens is counted in full, and is
  // complete unless it fills its descriptor and there is room for more.
  lemma PacketArrives(u: Udc, n: nat)
    requires Listening(u) && HwCan(u.rx, 0, n)
    ensures
      var o := Run(u, [Hardware(false, 0, n), DataIsr(false)]);
      && o.Ok? && Inv(o.udc) && (o.udc.completed <==> n >= 64 || n < Out(u.rx, 0).length)
      && o.udc.ctrl.actual == n
      && o.udc == u.(completed := o.udc.completed, ctrl := o.udc.ctrl, rx := o.udc.rx)
  {
    hide InFlight, ChanOk, Written, ReadResult;
    RunTwo(u, Hardware(false, 0, n), DataIsr(false));
    var v := u.(rx := HwDone(u.rx, 0, n));
    StepKeeps(u, Hardware(false, 0, n));
    InterruptedKeeps(v, false);
    RxLands(u.rx, u.ctrl, n);
  }

  // A complete packet of eight bytes is a SETUP packet, and the gadget driver's setup
  // callback is called with nothing in flight; any other packet is dropped, and the worker
  // listens again.
  lemma PacketExactly(u: Udc)
    requires Inv(u) && u.pc == AtTop && u.state == Idle && u.completed
    requires !u.reset && !u.setCfg && !u.setIface
    ensures Run(u, [Worker]).Ok? && Run(u, [Worker, Worker]).Ok?
    ensures
      var v := Run(u, [Worker]).udc;
      && (v.pc == InSetup <==> u.ctrl.actual == 8)
      && (v.pc == InSetup ==>
            && v.target == NoReq && !v.completed && v.rx.used == 0 && v.tx.used == 0
            && v == u.(pc := InSetup, target := NoReq, completed := false))
    ensures u.ctrl.actual != 8 ==>
              var w := Run(u, [Worker, Worker]).udc;
              Listening(w) && w.reply == u.reply && w.shutdown == u.shutdown
  {
    hide ChanOk, InFlight, Step, Run;
    RunOne(u, Worker);
    RunTwo(u, Worker, Worker);
    StepKeeps(u, Worker);
    StepKeeps(Step(u, Worker).udc, Worker);
    PacketIs(u);
    if u.ctrl.actual != 8 {
      Listens(Step(u, Worker).udc);
    }
  }

  lemma PacketIs(u: Udc)
    requires Inv(u) && u.pc == AtTop && u.state == Idle && u.completed
    requires !u.reset && !u.setCfg && !u.setIface
    ensures
      var v := u.(target := NoReq, completed := false);
      Step(u, Worker) == Ok(if u.ctrl.actual == 8 then v.(pc := InSetup) else v.(state := Requeue))
  {
    hide ChanOk, InFlight;
  }

  // So eight bytes that arrive while the worker listens, and do not fill the descriptor,
  // reach the setup callback.
  lemma SetupArrives(u: Udc)
    requires Listening(u) && HwCan(u.rx, 0, 8) && Out(u.rx, 0).length > 8
    requires !u.reset && !u.setCfg && !u.setIface
    ensures
      var o := Run(u, [Hardware(false, 0, 8), DataIsr(false), Worker]);
      && o.Ok? && o.udc.pc == InSetup && o.udc.reply == u.reply && o.udc.shutdown == u.shutdown
  {
    hide ChanOk, InFlight, Step, Run, HwCan;
    PacketArrives(u, 8);
    RunTwo(u, Hardware(false, 0, 8), DataIsr(false));
    RunThree(u, Hardware(false, 0, 8), DataIsr(false), Worker);
    RunTwo(Step(u, Hardware(false, 0, 8)).udc, DataIsr(false), Worker);
    var v := Run(u, [Hardware(false, 0, 8), DataIsr(false)]).udc;
    PacketIs(v);
  }

  // ---- The request in flight

  // The request in flight and its channel go through the steps of module IudmaTransfer, so
  // what is proved there of one request holds of every SETUP packet, reply and status
  // packet; nothing else changes.
  ghost predicate Flies(u: Udc, isTx: bool, t: T.Transfer) {
    Channel(u, isTx) == t.ch && Current(u) == t.r && u.completed == t.done
  }

  // v is u but for that channel, that request and the completion flag.
  predicate Alike(u: Udc, v: Udc, isTx: bool) {
    && v == u.(completed := v.completed, ctrl := v.ctrl, reply := v.reply, rx := v.rx, tx := v.tx)
    && Channel(v, !isTx) == Channel(u, !isTx) && v.reply.Some? == u.reply.Some?
    && (u.target == CtrlReq ==> v.reply == u.reply) && (u.target == ReplyReq ==> v.ctrl == u.ctrl)
  }

  lemma SetFlies(u: Udc, isTx: bool, ch: Chan, r: Req, done: bool)
    requires u.target != NoReq && (u.target == ReplyReq ==> u.reply.Some?)
    ensures
      var v := WithCurrent(WithChannel(u.(completed := done), isTx, ch), r);
      && Channel(v, isTx) == ch && Current(v) == r && v.completed == done && Alike(u, v, isTx)
    ensures WithChannel(u, isTx, ch).(completed := done) == WithChannel(u.(completed := done), isTx, ch)
  {
  }

  lemma HardwareFlies(u: Udc, isTx: bool, t: T.Transfer, k: nat, bytes: nat)
    requires Inv(u) && Expected(u) == Flying(u.target, isTx) && Flies(u, isTx, t)
    ensures
      var o := Step(u, Hardware(isTx, k, bytes));
      && o.Ok? && Flies(o.udc, isTx, T.Step(t, T.Hardware(k, bytes)))
      && o.udc == (if isTx then u.(tx := o.udc.tx) else u.(rx := o.udc.rx))
  {
    hide InFlight, ChanOk, HwCan, HwDone;
  }

  lemma InterruptFlies(u: Udc, isTx: bool, t: T.Transfer)
    requires Inv(u) && Expected(u) == Flying(u.target, isTx) && Flies(u, isTx, t)
    ensures
      var o := Step(u, DataIsr(isTx));
      && o.Ok? && Window(t.ch) && Flies(o.udc, isTx, T.Step(t, T.Interrupt)) && Alike(u, o.udc, isTx)
  {
    assert Window(t.ch) && u.target != NoReq;
    hide InFlight, ChanOk, ReadResult, Reaped, Ends, Ended, Continued, Written, Submitted, CanWrite, T.PostedList,
      WithCurrent, WithChannel, Current, Channel, Alike;
    InterruptedKeeps(u, isTx);
    SetFlies(u, isTx, t.ch, t.r, t.done);
    SameFlies(u, isTx);
    if u.completed {
      NothingReaped(t.ch);
    } else if ReadResult(t.ch) >= 0 {
      var rc, c := ReadResult(t.ch), Reaped(t.ch);
      if Ends(t.r, rc) {
        SetFlies(u, isTx, c, Ended(t.r, rc), true);
      } else {
        var s := Continued(t.r, rc);
        TwoChannels(u, isTx, c, Written(c, s));
        SetFlies(u, isTx, Written(c, s), Submitted(c, s), false);
      }
    }
  }

  lemma SameFlies(u: Udc, isTx: bool)
    ensures Alike(u, u, isTx) && u.(completed := u.completed) == u
  {
  }

  lemma TwoChannels(u: Udc, isTx: bool, c: Chan, d: Chan)
    ensures WithChannel(WithChannel(u, isTx, c), isTx, d) == WithChannel(u, isTx, d)
  {
  }

  lemma NothingReaped(ch: Chan)
    requires Window(ch) && ch.used == 0
    ensures ReadResult(ch) < 0
  {
  }

  // ---- The data stage

  // After a setup callback that refuses, or a request without a data stage, the worker
  // listens again.
  lemma NoDataStage(u: Udc, rc: int, wLength: nat, dirIn: bool)
    requires Inv(u) && u.pc == InSetup && (rc < 0 || wLength == 0)
    ensures
      var o := Run(u, [Return(rc, wLength, dirIn), Worker]);
      && o.Ok? && Listening(o.udc) && o.udc.reply == u.reply
  {
    RunTwo(u, Return(rc, wLength, dirIn), Worker);
    StepKeeps(u, Return(rc, wLength, dirIn));
    hide ChanOk, InFlight, Run;
    Listens(Step(u, Return(rc, wLength, dirIn)).udc);
  }

  // A data stage goes in the direction that the request names: the reply, whether queued
  // by the callback or after it, is put in flight from its first byte on the transmit
  // channel for IN and on the receive channel for OUT, and nothing else is.
  lemma DataStage(u: Udc, rc: int, wLength: nat, dirIn: bool, r: Req)
    requires Inv(u) && u.pc == InSetup && rc >= 0 && wLength > 0
    ensures
      var o := Run(u, [Return(rc, wLength, dirIn), QueueReply(r), Worker]);
      var q := if u.reply.Some? then u.reply.value else r;
      && o.Ok? && Inv(o.udc) && o.udc.pc == AtTop && o.udc.target == ReplyReq && o.udc.reply.Some?
      && var s := o.udc.reply.value;
      && s.dma == q.dma && s.length == q.length && s.zero == q.zero && s.actual == 0 && !o.udc.completed
      && (if dirIn then InFlight(o.udc.tx, s) && o.udc.rx.used == 0
          else InFlight(o.udc.rx, s) && o.udc.tx.used == 0)
  {
    hide Step, Run;
    var e, f := Return(rc, wLength, dirIn), QueueReply(r);
    RunThree(u, e, f, Worker);
    StepKeeps(u, e);
    var v := Step(u, e).udc;
    RunTwo(v, f, Worker);
    StepKeeps(v, f);
    var w := Step(v, f).udc;
    DataStageIs(u, rc, wLength, dirIn, r);
    StepKeeps(w, Worker);
    ReplyFlies(w, dirIn);
  }

  lemma DataStageIs(u: Udc, rc: int, wLength: nat, dirIn: bool, r: Req)
    requires Inv(u) && u.pc == InSetup && rc >= 0 && wLength > 0
    ensures
      var v := u.(pc := AtTop, state := if dirIn then InDataSetup else OutDataSetup);
      && Step(u, Return(rc, wLength, dirIn)) == Ok(v)
      && Step(v, QueueReply(r)) ==
         Ok(if u.reply.Some? then v else v.(reply := Some(r.(actual := 0, offset := 0))))
  {
    hide ChanOk, InFlight;
  }

  lemma ReplyFlies(w: Udc, dirIn: bool)
    requires Inv(w) && w.pc == AtTop && w.reply.Some? && w.state == if dirIn then InDataSetup else OutDataSetup
    ensures
      var o := Step(w, Worker);
      && o.Ok? && o.udc.pc == AtTop && o.udc.target == ReplyReq && o.udc.reply.Some? && !o.udc.completed
      && var s, q := o.udc.reply.value, w.reply.value;
      && s.dma == q.dma && s.length == q.length && s.zero == q.zero && s.actual == 0
      && (if dirIn then InFlight(o.udc.tx, s) && o.udc.rx.used == 0
          else InFlight(o.udc.rx, s) && o.udc.tx.used == 0)
  {
    hide ChanOk, InFlight, Written, Submitted;
    MapWriteKeeps(w, dirIn, ReplyReq, w.reply.value);
    SubmittedIs(Channel(w, dirIn), w.reply.value.(actual := 0, offset := 0));
  }

  // ---- The status stage

  // A control read ends with its data: the reply is given up and the worker listens again.
  lemma ReadEnds(u: Udc)
    requires Inv(u) && u.pc == AtTop && u.state == InDataComplete && u.completed
    ensures
      var o := Run(u, [Worker, Worker]);
      o.Ok? && Listening(o.udc) && o.udc.reply == None
  {
    hide ChanOk, InFlight, Run;
    RunTwo(u, Worker, Worker);
    StepKeeps(u, Worker);
    Listens(Step(u, Worker).udc);
  }

  // A control write is acknowledged: the reply is given up and an empty packet is posted on
  // the transmit channel.
  lemma WriteAcknowledged(u: Udc)
    requires Inv(u) && u.pc == AtTop && u.state == OutDataComplete && u.completed
    ensures
      var o := Run(u, [Worker]);
      && o.Ok? && Inv(o.udc) && o.udc.pc == AtTop && o.udc.state == OutStatus && o.udc.reply == None
      && !o.udc.completed && o.udc.ctrl.length == 0 && InFlight(o.udc.tx, o.udc.ctrl) && o.udc.rx.used == 0
  {
    hide ChanOk, InFlight, Written, Submitted, Run;
    RunOne(u, Worker);
    StepKeeps(u, Worker);
    var v := u.(completed := false, target := NoReq, reply := None);
    MapWriteKeeps(v, true, CtrlReq, v.ctrl.(length := 0));
    SubmittedIs(u.tx, u.ctrl.(length := 0, actual := 0, offset := 0));
  }

  // And ends when that has been sent.
  lemma WriteEnds(u: Udc)
    requires Inv(u) && u.pc == AtTop && u.state == OutStatus && u.completed
    ensures
      var o := Run(u, [Worker, Worker]);
      o.Ok? && Listening(o.udc) && o.udc.reply == u.reply
  {
    hide ChanOk, InFlight, Run;
    RunTwo(u, Worker, Worker);
    StepKeeps(u, Worker);
    Listens(Step(u, Worker).udc);
  }

  // ---- A transfer cut short

  // A reset or a shutdown request while the worker waits for a reply, or for the status
  // stage of a control write: it listens again.
  lemma WaitCut(u: Udc)
    requires Inv(u) && u.pc == AtTop && (u.reset || u.shutdown)
    requires (u.state == OutStatus && !u.completed) || (u.state in {InDataSetup, OutDataSetup} && u.reply.None?)
    ensures
      var o := Run(u, [Worker, Worker]);
      o.Ok? && Listening(o.udc) && o.udc.reply == u.reply
  {
    hide ChanOk, InFlight, Run, ResetChan;
    RunTwo(u, Worker, Worker);
    StepKeeps(u, Worker);
    Listens(Step(u, Worker).udc);
  }

  // While the reply is on its way: it is given up, its completion callback is called, and
  // then the worker listens again.
  lemma DataCut(u: Udc, rc: int, wLength: nat, dirIn: bool)
    requires Inv(u) && u.pc == AtTop && (u.reset || u.shutdown)
    requires u.state in {InDataComplete, OutDataComplete} && !u.completed
    ensures
      var o := Run(u, [Worker]);
      && o.Ok? && o.udc.pc == InNukeData && o.udc.reply == None && o.udc.target == NoReq
      && o.udc.rx.used == 0 && o.udc.tx.used == 0
    ensures
      var o := Run(u, [Worker, Return(rc, wLength, dirIn), Worker]);
      o.Ok? && Listening(o.udc) && o.udc.reply == None
  {
    hide ChanOk, InFlight, Run, ResetChan;
    RunOne(u, Worker);
    RunThree(u, Worker, Return(rc, wLength, dirIn), Worker);
    StepKeeps(u, Worker);
    var v := Step(u, Worker).udc;
    RunTwo(v, Return(rc, wLength, dirIn), Worker);
    StepKeeps(v, Return(rc, wLength, dirIn));
    Listens(Step(v, Return(rc, wLength, dirIn)).udc);
  }

  // ---- While the worker is idle

  // What it turns to first: a reset, a configuration and an interface that the hardware
  // has set, a packet, a shutdown request, a reply that nobody asked for.
  lemma IdleFirst(u: Udc)
    requires Inv(u) && u.pc == AtTop && u.state == Idle
    ensures
      Run(u, [Worker]).Ok? &&
      var v := Run(u, [Worker]).udc;
      if u.reset then v == u.(reset := false)
      else if u.setCfg then v == u.(setCfg := false, pc := InSpoof)
      else if u.setIface then v == u.(setIface := false, pc := InSpoof)
      else if u.completed then v == u.(completed := false, target := NoReq, pc := v.pc, state := v.state)
      else if u.shutdown then
        && v.state == Shutdown && !v.shutdown && v.target == NoReq && v.rx.used == 0 && v.tx.used == 0
        && v.reply == u.reply && v.pc == AtTop
      else if u.reply.Some? then v == u.(reply := None, pc := InNukeIdle)
      else v == u
  {
    RunOne(u, Worker);
    hide ChanOk, InFlight, ResetChan, Run;
    ResetKeeps(u.rx);
  }

  // A spoofed request that the gadget driver accepts waits for the reply, which is completed
  // without being sent, and one that it refuses does not; the packet that the worker listens
  // for is left posted all the while.
  lemma SpoofExactly(u: Udc, rc: int, wLength: nat, dirIn: bool)
    requires Inv(u) && u.pc == InSpoof
    ensures Step(u, Return(rc, wLength, dirIn)) ==
            Ok(u.(pc := AtTop, state := if rc >= 0 then InFakeStatus else Idle))
  {
    hide ChanOk, InFlight;
  }

  lemma FakeStatus(u: Udc, rc: int, wLength: nat, dirIn: bool)
    requires Inv(u) && u.pc == AtTop && u.state == InFakeStatus
    ensures u.reply.Some? ==>
              Run(u, [Worker, Return(rc, wLength, dirIn)]) == Ok(u.(reply := None, state := Idle))
    ensures u.reply.None? ==> Run(u, [Worker]) == Ok(if u.reset || u.shutdown then u.(state := Idle) else u)
  {
    hide ChanOk, InFlight, Run;
    RunOne(u, Worker);
    RunTwo(u, Worker, Return(rc, wLength, dirIn));
  }

  // Switching the pullup on again makes the worker listen.
  lemma PullupListens(u: Udc)
    requires Inv(u) && u.pc == AtTop && u.state == Shutdown
    ensures
      var o := Run(u, [PullupOn, Worker]);
      o.Ok? && Listening(o.udc) && o.udc.reply == u.reply
  {
    hide ChanOk, InFlight, Run;
    RunTwo(u, PullupOn, Worker);
    StepKeeps(u, PullupOn);
    Listens(Step(u, PullupOn).udc);
  }

  // The calls and interrupts that only leave a note for the worker, and those that a reply
  // or a shut-down device makes idle.
  lemma NotesExactly(u: Udc, r: Req)
    ensures Step(u, UsbReset) == Ok(u.(reset := true)) && Step(u, SetConfiguration) == Ok(u.(setCfg := true))
    ensures Step(u, SetInterface) == Ok(u.(setIface := true))
    ensures Step(u, PullupOff) == Ok(u.(shutdown := u.shutdown || u.state != Shutdown))
    ensures Step(u, PullupOn) == Ok(u.(state := if u.state == Shutdown then Requeue else u.state))
    ensures Step(u, QueueReply(r)) == Ok(if u.reply.Some? then u else u.(reply := Some(r.(actual := 0, offset := 0))))
  {
  }
}
