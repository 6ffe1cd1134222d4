/** The IN side of gadget/at91_udc.c on a queue of requests: write_fifo, done,
    at91_ep_queue and handle_ep.  A completion callback may queue further requests. */
module PioAt91 {
  import opened TxPackets
  import opened PioWriters

  datatype At91 = At91(work: Work, txComp: bool, txPktRdy: bool)

  // again is what the callback queues, should the head be completed.
  datatype Event = Irq(again: seq<Order>) | Queue(order: Order, again: seq<Order>) | HostTakes

  predicate Bounded(s: At91) { s.work.queue != [] ==> InBounds(s.work.queue[0]) }

  // write_fifo on the head of the queue
  function Write(s: At91, mp: nat, again: seq<Order>): At91
    requires s.work.queue != [] && Bounded(s)
  {
    if s.txPktRdy then s.(txComp := false)
    else
      var w := Serve(s.work, mp);
      At91(if IsLast(s.work.queue[0], mp) then AppendAll(w, again) else w, false, true)
  }

  function Step(s: At91, mp: nat, e: Event): At91
    requires Bounded(s)
  {
    match e
    case Irq(again) => if s.work.queue == [] then s.(txComp := false) else Write(s, mp, again)
    case Queue(o, again) =>
      var q := s.(work := Append(s.work, o));
      if s.work.queue == [] then Write(q, mp, again) else q
    case HostTakes => if s.txPktRdy then s.(txPktRdy := false, txComp := true) else s
  }

  // The requests that an event adds.
  function Taken(s: At91, mp: nat, e: Event): seq<Order>
    requires Bounded(s)
  {
    match e
    case Irq(again) =>
      if s.work.queue != [] && !s.txPktRdy && IsLast(s.work.queue[0], mp) then again else []
    case Queue(o, again) =>
      if s.work.queue == [] && !s.txPktRdy && IsLast(Fresh(o), mp) then [o] + again else [o]
    case HostTakes => []
  }

  lemma WriteKeeps(s: At91, mp: nat, again: seq<Order>)
    requires mp > 0 && Clean(s.work, mp) && s.work.queue != []
    ensures
      var t := Write(s, mp, again);
      && Clean(t.work, mp)
      && Asked(t.work) == Asked(s.work) + if !s.txPktRdy && IsLast(s.work.queue[0], mp) then again else []
  {
    hide Serve, Asked, AppendAll, IsLast;
    ServeKeeps(s.work, mp);
    AppendAllKeeps(Serve(s.work, mp), again, mp);
  }

  lemma StepKeeps(s: At91, mp: nat, e: Event)
    requires mp > 0 && Clean(s.work, mp)
    ensures Clean(Step(s, mp, e).work, mp)
    ensures Asked(Step(s, mp, e).work) == Asked(s.work) + Taken(s, mp, e)
  {
    hide Clean, Write, Asked, IsLast;
    match e
    case Irq(again) =>
      if s.work.queue != [] {
        WriteKeeps(s, mp, again);
      }
    case Queue(o, again) =>
      AppendKeeps(s.work, o, mp);
      if s.work.queue == [] {
        WriteKeeps(s.(work := Append(s.work, o)), mp, again);
      }
    case HostTakes =>
  }

  // The state after some events, and the requests they added.
  function Run(s: At91, mp: nat, es: seq<Event>): (At91, seq<Order>)
    requires mp > 0 && Clean(s.work, mp)
    decreases |es|
  {
    if es == [] then (s, [])
    else
      StepKeeps(s, mp, es[0]);
      var (t, os) := Run(Step(s, mp, es[0]), mp, es[1..]);
      (t, Taken(s, mp, es[0]) + os)
  }

  lemma RunFirst(s: At91, mp: nat, es: seq<Event>)
    requires mp > 0 && Clean(s.work, mp) && es != []
    ensures
      var t := Step(s, mp, es[0]);
      && Clean(t.work, mp)
      && Run(s, mp, es) == (Run(t, mp, es[1..]).0, Taken(s, mp, es[0]) + Run(t, mp, es[1..]).1)
  {
    StepKeeps(s, mp, es[0]);
    hide Clean, Taken, Step;
  }

  lemma RunNothing(s: At91, mp: nat)
    requires mp > 0 && Clean(s.work, mp)
    ensures Run(s, mp, []) == (s, [])
  {
  }

  // Whatever the interrupts, the host and the callbacks do, the wire has the packets of the
  // requests in the order in which they were queued, as far as it has got, and all of them
  // whenever the queue is empty.
  lemma {:induction false} RunOnWire(s: At91, mp: nat, es: seq<Event>)
    requires mp > 0 && Clean(s.work, mp)
    ensures
      var (t, os) := Run(s, mp, es);
      && Clean(t.work, mp) && Asked(t.work) == Asked(s.work) + os
      && t.work.wire <= Wire(Asked(s.work) + os, mp)
      && (t.work.queue == [] ==> t.work.wire == Wire(Asked(s.work) + os, mp))
  {
    RunKeeps(s, mp, es);
    CleanIsPrefix(Run(s, mp, es).0.work, mp);
  }

  lemma {:induction false} RunKeeps(s: At91, mp: nat, es: seq<Event>)
    requires mp > 0 && Clean(s.work, mp)
    ensures Clean(Run(s, mp, es).0.work, mp)
    ensures Asked(Run(s, mp, es).0.work) == Asked(s.work) + Run(s, mp, es).1
    decreases |es|
  {
    assert Bounded(s);
    hide Clean, Asked, Taken, Step, Run;
    RunNothing(s, mp);
    if es == [] {
      assert Asked(s.work) + [] == Asked(s.work);
    } else {
      StepKeeps(s, mp, es[0]);
      var t := Step(s, mp, es[0]);
      RunKeeps(t, mp, es[1..]);
      RunFirst(s, mp, es);
      OrdersConcat(Asked(s.work), Taken(s, mp, es[0]), Run(t, mp, es[1..]).1);
    }
  }

  // ---- One packet at a time

  // A packet is loaded exactly when the FIFO is free and there is a request: by an interrupt,
  // or by queueing on an idle endpoint.  It fills the FIFO until the host takes it, which
  // raises TXCOMP; interrupts and the queueing that loads lower that.
  lemma LoadsExactly(s: At91, mp: nat, e: Event)
    requires Bounded(s)
    ensures
      var t := Step(s, mp, e);
      var tries := (e.Irq? && s.work.queue != []) || (e.Queue? && s.work.queue == []);
      && |t.work.wire| == |s.work.wire| + (if tries && !s.txPktRdy then 1 else 0)
      && t.txPktRdy == ((s.txPktRdy && !e.HostTakes?) || (tries && !s.txPktRdy))
      && t.txComp == (if e.HostTakes? then s.txComp || s.txPktRdy else s.txComp && !e.Irq? && !tries)
  {
    hide IsLast, Count;
    match e
    case Irq(again) =>
      if s.work.queue != [] {
        WriteLoads(s, mp, again);
      }
    case Queue(o, again) =>
      if s.work.queue == [] {
        WriteLoads(s.(work := Append(s.work, o)), mp, again);
      }
    case HostTakes =>
  }

  lemma WriteLoads(s: At91, mp: nat, again: seq<Order>)
    requires s.work.queue != [] && Bounded(s)
    ensures
      var t := Write(s, mp, again);
      && |t.work.wire| == |s.work.wire| + (if s.txPktRdy then 0 else 1) && t.txPktRdy && !t.txComp
  {
    hide Serve, IsLast;
    ServeIs(s.work, mp);
    AppendAllSame(Serve(s.work, mp), again);
  }

  lemma {:induction false} AppendAllSame(w: Work, os: seq<Order>)
    ensures AppendAll(w, os).wire == w.wire
    decreases |os|
  {
    if os != [] {
      AppendAllSame(w, os[..|os| - 1]);
    }
  }

  // The packets that the host takes during a run.
  function TakenBy(s: At91, mp: nat, es: seq<Event>): nat
    requires mp > 0 && Clean(s.work, mp)
    decreases |es|
  {
    if es == [] then 0
    else
      StepKeeps(s, mp, es[0]);
      (if es[0].HostTakes? && s.txPktRdy then 1 else 0) + TakenBy(Step(s, mp, es[0]), mp, es[1..])
  }

  // So no packet is ever loaded over another: what has been loaded is what the host has
  // taken and the one in the FIFO.
  lemma {:induction false} RunTakes(s: At91, mp: nat, es: seq<Event>)
    requires mp > 0 && Clean(s.work, mp)
    ensures
      var t := Run(s, mp, es).0;
      |t.work.wire| + (if s.txPktRdy then 1 else 0) ==
      |s.work.wire| + TakenBy(s, mp, es) + (if t.txPktRdy then 1 else 0)
    decreases |es|
  {
    assert Bounded(s);
    hide Clean, Step, Taken;
    if es != [] {
      StepKeeps(s, mp, es[0]);
      LoadsExactly(s, mp, es[0]);
      RunTakes(Step(s, mp, es[0]), mp, es[1..]);
    }
  }

  class Endpoint {
    const maxpacket: nat
    var queue: seq<Req>
    var stopped: bool           // set while a callback runs
    var txComp: bool            // AT91_UDP_TXCOMP
    var txPktRdy: bool          // AT91_UDP_TXPKTRDY
    var done: seq<Order>
    var wire: seq<Packet>       // packets written to the FIFO

    constructor (maxpacket: nat)
      ensures Value() == At91(NO_WORK, false, false) && !stopped && this.maxpacket == maxpacket
    {
      this.maxpacket := maxpacket;
      queue, stopped, txComp, txPktRdy, done, wire := [], false, false, false, [], [];
    }

    function Value(): At91
      reads this
    {
      At91(Work(queue, done, wire), txComp, txPktRdy)
    }

    // done
    method Done(again: seq<Order>)
      requires queue != [] && !stopped
      modifies `queue, `stopped, `done, `txComp, `txPktRdy, `wire
      ensures Value() == old(Value()).(work := AppendAll(Finish(old(Value()).work), again)) && !stopped
      decreases 1
    {
      done := done + [queue[0].order];
      queue := queue[1..];
      stopped := true;
      ghost var w := Value().work;
      for i := 0 to |again|
        invariant stopped && Value() == old(Value()).(work := AppendAll(w, again[..i]))
      {
        assert again[..i + 1][..i] == again[..i];
        EpQueue(again[i], []);
      }
      assert again[..|again|] == again;
      stopped := false;
    }

    // write_fifo on the head of the queue
    method WriteFifo(again: seq<Order>) returns (isLast: bool)
      requires queue != [] && InBounds(queue[0]) && !stopped
      modifies `queue, `stopped, `done, `txComp, `txPktRdy, `wire
      ensures Value() == Write(old(Value()), maxpacket, again) && !stopped
      ensures isLast <==> !old(txPktRdy) && IsLast(old(queue[0]), maxpacket)
      decreases 2
    {
      hide AppendAll;
      if txComp || txPktRdy {
        txComp := false;
        if txPktRdy {
          return false;
        }
      }
      var req := queue[0];
      var total := |req.order.buf| - req.actual;
      var count;
      if maxpacket < total {
        count, isLast := maxpacket, false;
      } else {
        count := total;
        isLast := count < maxpacket || !req.order.zero;
      }
      wire := wire + [req.order.buf[req.actual..req.actual + count]];
      txPktRdy := true;
      queue := [req.(actual := req.actual + count)] + queue[1..];
      if isLast {
        Done(again);
      }
    }

    // at91_ep_queue: an idle endpoint starts at once, unless a callback is running.
    method EpQueue(order: Order, again: seq<Order>)
      requires stopped || Bounded(Value())
      modifies `queue, `stopped, `done, `txComp, `txPktRdy, `wire
      ensures Value() == if old(stopped) then old(Value()).(work := Append(old(Value()).work, order))
                         else Step(old(Value()), maxpacket, Queue(order, again))
      ensures stopped == old(stopped)
      decreases if stopped then 0 else 3
    {
      hide Write;
      var idle := queue == [] && !stopped;
      queue := queue + [Fresh(order)];
      if idle {
        var isLast := WriteFifo(again);
      }
    }

    // handle_ep on the IN side
    method HandleEp(again: seq<Order>) returns (isLast: bool)
      requires Bounded(Value()) && !stopped
      modifies `queue, `stopped, `done, `txComp, `txPktRdy, `wire
      ensures Value() == Step(old(Value()), maxpacket, Irq(again)) && !stopped
    {
      isLast := false;
      if txComp {
        txComp := false;
      }
      if queue != [] {
        isLast := WriteFifo(again);
      }
    }
  }
}
