/** What a bulk or interrupt endpoint of gadget/bcm63xx_udc.c tells the gadget driver: the
    byte count and the status of every completion. */
module BulkTransfers {
  import opened Basics
  import opened Iudma
  import opened BulkMachine
  import T = IudmaTransfer

  // The request at the head of the queue and its channel, as one transfer of module
  // IudmaTransfer.
  function Head<H>(e: Ep<H>): T.Transfer
    requires e.queue != []
  {
    T.Transfer(e.ch, e.queue[0].req, [], false)
  }

  // The hardware works on the head and on nothing else.
  lemma HardwareExactly<H>(e: Ep<H>, k: nat, bytes: nat)
    requires Inv(e) && e.queue != []
    ensures Step(e, Hardware(k, bytes)) == Ok(e.(ch := T.Step(Head(e), T.Hardware(k, bytes)).ch))
  {
    hide Inv, HwCan, HwDone;
  }

  // The data interrupt takes the head one step on.  When that finishes it, it leaves the
  // queue and is completed with status 0 and the bytes that the transfer counted, and the
  // next request is put in flight; otherwise the others are left alone.
  lemma DataIsrExactly<H>(e: Ep<H>)
    requires Inv(e) && e.queue != []
    ensures
      var o, t := Step<H>(e, DataIsr), T.Step(Head(e), T.Interrupt);
      && o.Ok? && Inv(o.ep) && o.ep.enabled == e.enabled && o.ep.accepted == e.accepted
      && o.ep.spurious == e.spurious
      && if t.done then
           && o.ep.finished == e.finished + [Done(e.queue[0].id, t.r.actual, 0, false)]
           && Ids(o.ep.queue) == Ids(e.queue[1..])
         else
           && o.ep.finished == e.finished && o.ep.ch == t.ch
           && o.ep.queue == [e.queue[0].(req := t.r)] + e.queue[1..]
  {
    assert Window(e.ch);
    InterruptedKeeps(e);
    hide InFlight, ReadResult, Reaped, Ends, Ended, Continued, Written, Submitted, T.PostedList, Inv, SubmitHead;
    var rc, item := ReadResult(e.ch), e.queue[0];
    if rc < 0 {
      assert e.queue == [item] + e.queue[1..];
    } else if Ends(item.req, rc) {
      EndsIs(e, rc);
    } else {
      GoesOn(e, rc);
    }
  }

  lemma EndsIs<H>(e: Ep<H>, rc: nat)
    requires Window(e.ch) && e.queue != [] && rc == ReadResult(e.ch) && Ends(e.queue[0].req, rc)
    requires Interrupted(e).Ok?
    ensures
      var v := Interrupted(e).ep;
      && v.enabled == e.enabled && v.accepted == e.accepted && v.spurious == e.spurious
      && v.finished == e.finished + [Done(e.queue[0].id, Ended(e.queue[0].req, rc).actual, 0, false)]
      && Ids(v.queue) == Ids(e.queue[1..])
  {
    hide ReadResult, Reaped, Ends, Ended, SubmitHead;
    var w := e.(ch := Reaped(e.ch), queue := e.queue[0 := e.queue[0].(req := Ended(e.queue[0].req, rc))]);
    var x := Remove(w, 0, 0, false);
    assert x.queue == e.queue[1..];
    SubmitSame(x);
  }

  lemma GoesOn<H>(e: Ep<H>, rc: nat)
    requires Window(e.ch) && e.queue != [] && rc == ReadResult(e.ch) && !Ends(e.queue[0].req, rc)
    requires Interrupted(e).Ok?
    ensures
      var c, s := Reaped(e.ch), Continued(e.queue[0].req, rc);
      && CanWrite(c, s)
      && Interrupted(e).ep ==
         e.(ch := Written(c, s), queue := [e.queue[0].(req := Submitted(c, s))] + e.queue[1..])
  {
    hide ReadResult, Reaped, Ends, Continued, Written, Submitted, CanWrite;
    var s := Continued(e.queue[0].req, rc);
    var w := e.(ch := Reaped(e.ch), queue := e.queue[0 := e.queue[0].(req := s)]);
    var q := w.queue[0 := w.queue[0].(req := Submitted(w.ch, s))];
    assert q == [e.queue[0].(req := Submitted(w.ch, s))] + e.queue[1..];
  }

  // Submitting the head changes nothing but it and the channel.
  lemma SubmitSame<H>(e: Ep<H>)
    requires SubmitHead(e).Ok?
    ensures
      var v := SubmitHead(e).ep;
      && v.enabled == e.enabled && v.accepted == e.accepted && v.finished == e.finished && v.spurious == e.spurious
      && Ids(v.queue) == Ids(e.queue)
  {
  }

  // What the driver is told when the endpoint is disabled.
  function ShutDown<H>(q: seq<Item<H>>): seq<Done<H>> {
    seq(|q|, i requires 0 <= i < |q| => Done(q[i].id, q[i].req.actual, ESHUTDOWN, false))
  }

  lemma {:induction false} RemoveAllExactly<H>(e: Ep<H>)
    ensures RemoveAll(e).finished == e.finished + ShutDown(e.queue)
    ensures RemoveAll(e).accepted == e.accepted && RemoveAll(e).spurious == e.spurious
    decreases |e.queue|
  {
    hide ShutDown;
    ShutDownFirst(e.queue);
    if e.queue == [] {
      assert e.finished + [] == e.finished;
    } else {
      var v := Remove(e, 0, ESHUTDOWN, false);
      assert v.queue == e.queue[1..];
      RemoveAllExactly(v);
      DoneConcat(e.finished, [Done(e.queue[0].id, e.queue[0].req.actual, ESHUTDOWN, false)], ShutDown(v.queue));
    }
  }

  lemma ShutDownFirst<H>(q: seq<Item<H>>)
    ensures ShutDown<H>([]) == []
    ensures q != [] ==> ShutDown(q) == [Done(q[0].id, q[0].req.actual, ESHUTDOWN, false)] + ShutDown(q[1..])
  {
  }

  lemma DoneConcat<H>(a: seq<Done<H>>, b: seq<Done<H>>, c: seq<Done<H>>)
    ensures (a + b) + c == a + (b + c)
  {
  }

  // Disabling completes all that is queued, in order, with -ESHUTDOWN and the bytes counted
  // so far; neither it nor enabling is felt otherwise.
  lemma DisableExactly<H>(e: Ep<H>)
    requires Inv(e)
    ensures
      var o := Step<H>(e, Disable);
      && o.Ok? && Inv(o.ep) && !o.ep.enabled && o.ep.queue == []
      && o.ep.finished == (if e.enabled then e.finished + ShutDown(e.queue) else e.finished)
      && o.ep.accepted == e.accepted && o.ep.spurious == e.spurious
    ensures
      var o := Step<H>(e, Enable);
      && o.Ok? && Inv(o.ep) && o.ep.enabled && o.ep.queue == e.queue
      && o.ep.finished == e.finished && o.ep.accepted == e.accepted && o.ep.spurious == e.spurious
  {
    StepKeeps<H>(e, Disable);
    StepKeeps<H>(e, Enable);
    RemoveAllExactly(e.(enabled := false, ch := ResetChan(e.ch)));
    RemoveAllSame(e.(enabled := false, ch := ResetChan(e.ch)));
    hide ChanOk, InFlight, ResetChan, Conserved;
  }

  lemma {:induction false} RemoveAllSame<H>(e: Ep<H>)
    ensures RemoveAll(e).queue == [] && RemoveAll(e).enabled == e.enabled
    decreases |e.queue|
  {
    if e.queue != [] {
      RemoveAllSame(Remove(e, 0, ESHUTDOWN, false));
    }
  }

  // A request that is queued on an enabled endpoint starts from its first byte, behind the
  // others; alone it is put in flight.
  lemma QueueExactly<H>(e: Ep<H>, item: Item<H>)
    requires Inv(e) && e.enabled && !Holds(e.queue, item.id)
    ensures
      var o := Step(e, Event.Queue(item));
      && o.Ok? && Inv(o.ep) && o.ep.enabled && o.ep.finished == e.finished && o.ep.spurious == e.spurious
      && o.ep.accepted == e.accepted + [item.id] && |o.ep.queue| == |e.queue| + 1
      && o.ep.queue[..|e.queue|] == e.queue
      && var last := o.ep.queue[|e.queue|];
      && last.id == item.id && last.req.actual == 0 && last.req.dma == item.req.dma
      && last.req.length == item.req.length && last.req.zero == item.req.zero
  {
    StepKeeps(e, Event.Queue(item));
    hide ChanOk, InFlight, Conserved, Written;
  }
}
