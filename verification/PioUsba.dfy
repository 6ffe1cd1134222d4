/** The IN side of gadget/atmel_usba_udc.c without DMA on a queue of requests:
    usba_ep_queue, next_fifo_transaction, submit_request, submit_next_request and a turn of
    the transmit loop of usba_ep_irq.  The wire is what is copied to the FIFO, in order; it
    is what the host gets as long as nothing is copied while no bank is free. */
module PioUsba {
  import opened TxPackets
  import opened PioWriters

  // The banks of the FIFO, how many are free, and whether a packet has been copied while
  // none was.  USBA_TX_PK_RDY in the status register is set exactly while none is free.
  datatype Fifo = Fifo(banks: nat, free: nat, overrun: bool)

  function Filled(f: Fifo): Fifo {
    if f.free == 0 then f.(overrun := true) else f.(free := f.free - 1)
  }

  function Emptied(f: Fifo): Fifo {
    if f.free < f.banks then f.(free := f.free + 1) else f
  }

  // pkRdyIrq is USBA_TX_PK_RDY in the control register.
  datatype Usba = Usba(work: Work, pkRdyIrq: bool, fifo: Fifo)

  // What usba_ep_enable leaves.
  function Enabled(banks: nat): Usba { Usba(NO_WORK, false, Fifo(banks, banks, false)) }

  // Irq is one turn of the loop.
  datatype Event = Irq | Queue(order: Order) | HostTakes

  predicate Bounded(s: Usba) { forall k :: 0 <= k < |s.work.queue| ==> InBounds(s.work.queue[k]) }

  // The head from its first byte, and marked.
  function Marked(w: Work): Work
    requires w.queue != []
  {
    w.(queue := [w.queue[0].(actual := 0, submitted := true)] + w.queue[1..])
  }

  // submit_request on the head
  function Submit(s: Usba, mp: nat): Usba
    requires s.work.queue != []
  {
    var w := Marked(s.work);
    Usba(Load(w, mp), !IsLast(w.queue[0], mp), Filled(s.fifo))
  }

  function SubmitNext(s: Usba, mp: nat): Usba {
    if s.work.queue == [] then s.(pkRdyIrq := false)
    else if s.work.queue[0].submitted then s
    else Submit(s, mp)
  }

  function Ready(w: Work): Work
    requires w.queue != []
  {
    if w.queue[0].submitted then w else Marked(w)
  }

  predicate Acts(s: Usba) { s.pkRdyIrq && s.fifo.free > 0 && s.work.queue != [] }

  function Turn(s: Usba, mp: nat): Usba
    requires Bounded(s)
  {
    if !s.pkRdyIrq || s.fifo.free == 0 then s
    else if s.work.queue == [] then s.(pkRdyIrq := false)
    else
      var t :=
        if s.work.queue[0].submitted then s.(work := Load(s.work, mp), fifo := Filled(s.fifo)) else Submit(s, mp);
      if IsLast(Ready(s.work).queue[0], mp) then SubmitNext(t.(work := Finish(t.work)), mp) else t
  }

  function Step(s: Usba, mp: nat, e: Event): Usba
    requires Bounded(s)
  {
    match e
    case Irq => Turn(s, mp)
    case Queue(o) => s.(work := Append(s.work, o), pkRdyIrq := true)
    case HostTakes => s.(fifo := Emptied(s.fifo))
  }

  lemma StepBounded(s: Usba, mp: nat, e: Event)
    requires Bounded(s)
    ensures Bounded(Step(s, mp, e))
  {
    hide Turn, InBounds;
    match e
    case Irq =>
      var t := Turn(s, mp).work.queue;
      forall k | 0 <= k < |t|
        ensures InBounds(t[k])
      {
        if k == 0 {
          TurnHead(s, mp);
        } else {
          TurnTail(s, mp, k);
        }
      }
    case Queue(o) => assert InBounds(Fresh(o)) by { FreshInBounds(o); }
    case HostTakes =>
  }

  // When the interrupt is enabled: queueing enables it, and a turn that leaves nothing queued
  // disables it.
  lemma InterruptExactly(s: Usba, mp: nat, e: Event)
    requires Bounded(s)
    ensures
      var t := Step(s, mp, e);
      && (e.Queue? ==> t.pkRdyIrq)
      && (e.HostTakes? ==> t.pkRdyIrq == s.pkRdyIrq)
      && (e.Irq? && (!s.pkRdyIrq || s.fifo.free == 0) ==> t == s)
      && (e.Irq? && s.pkRdyIrq && s.fifo.free > 0 && t.work.queue == [] ==> !t.pkRdyIrq)
    ensures forall banks: nat :: !Enabled(banks).pkRdyIrq && !Enabled(banks).fifo.overrun
  {
    hide IsLast, Load, Finish;
  }

  lemma FreshInBounds(o: Order)
    ensures InBounds(Fresh(o))
  {
  }

  lemma TurnHead(s: Usba, mp: nat)
    requires Bounded(s) && Turn(s, mp).work.queue != []
    ensures InBounds(Turn(s, mp).work.queue[0])
  {
    hide IsLast, Count;
  }

  // Behind the head a turn moves requests up and changes none.
  lemma TurnTail(s: Usba, mp: nat, k: nat)
    requires Bounded(s) && 1 <= k < |Turn(s, mp).work.queue|
    ensures Turn(s, mp).work.queue[k] in s.work.queue[1..]
  {
    hide IsLast, Count;
  }

  function Run(s: Usba, mp: nat, es: seq<Event>): Usba
    requires Bounded(s)
    decreases |es|
  {
    if es == [] then s
    else
      StepBounded(s, mp, es[0]);
      Run(Step(s, mp, es[0]), mp, es[1..])
  }

  // ---- When the wire is right

  // An endpoint with work to do has its interrupt enabled, no packet has been copied while
  // no bank was free, and the wire is right.
  ghost predicate Fine(s: Usba, mp: nat)
    requires mp > 0
  {
    && Clean(s.work, mp) && !s.fifo.overrun
    && (s.work.queue != [] ==> s.pkRdyIrq && (!s.work.queue[0].submitted ==> s.work.queue[0].actual == 0))
  }

  lemma FineIsBounded(s: Usba, mp: nat)
    requires mp > 0 && Fine(s, mp)
    ensures Bounded(s)
  {
    if s.work.queue != [] {
      forall k | 0 <= k < |s.work.queue|
        ensures InBounds(s.work.queue[k])
      {
        if k > 0 {
          assert s.work.queue[k] == s.work.queue[1..][k - 1];
        }
      }
    }
  }

  // A turn that completes the head with another request behind it, which it submits.
  predicate Submits(s: Usba, mp: nat)
    requires Bounded(s)
  {
    && Acts(s) && |s.work.queue| >= 2
    && IsLast(Ready(s.work).queue[0], mp) && !s.work.queue[1].submitted
  }

  // Such a turn overtakes when one packet is all of the request behind, and overruns when
  // the last packet of the head takes the last bank.
  predicate Overtakes(s: Usba, mp: nat)
    requires Bounded(s)
  {
    Submits(s, mp) && IsLast(Fresh(s.work.queue[1].order), mp)
  }

  predicate Overruns(s: Usba, mp: nat)
    requires Bounded(s)
  {
    Submits(s, mp) && s.fifo.free == 1
  }

  predicate GoesWrong(s: Usba, mp: nat)
    requires Bounded(s)
  {
    Overtakes(s, mp) || Overruns(s, mp)
  }

  // In any state, a step copies a packet into a FIFO without a free bank exactly when it is
  // a turn that overruns.
  lemma OverrunExactly(s: Usba, mp: nat, e: Event)
    requires Bounded(s) && !s.fifo.overrun
    ensures Step(s, mp, e).fifo.overrun <==> e == Irq && Overruns(s, mp)
  {
    hide IsLast, Count;
    if e == Irq && Acts(s) {
      ReadyRest(s.work);
    }
  }

  lemma ReadyRest(w: Work)
    requires w.queue != []
    ensures Ready(w).queue[1..] == w.queue[1..] && |Ready(w).queue| == |w.queue|
  {
  }

  lemma MarkedClean(w: Work, mp: nat)
    requires mp > 0 && w.queue != [] && Clean(w, mp) && (!w.queue[0].submitted ==> w.queue[0].actual == 0)
    ensures Clean(Ready(w), mp) && Asked(Ready(w)) == Asked(w)
    ensures Ready(w).queue[0].order == w.queue[0].order && Ready(w).queue[0].actual == w.queue[0].actual
    ensures Ready(w).queue[0].submitted && |Ready(w).queue| == |w.queue|
  {
    hide Wire, Split;
    if !w.queue[0].submitted {
      assert Marked(w).queue[1..] == w.queue[1..];
      assert w.queue == [w.queue[0]] + w.queue[1..];
      OrdersFirst(w.queue[0], w.queue[1..]);
      OrdersFirst(Marked(w).queue[0], w.queue[1..]);
    }
  }

  // A turn serves the head, and submits the next request if that was the last of it.
  lemma TurnIs(s: Usba, mp: nat)
    requires mp > 0 && Bounded(s) && Acts(s)
    ensures
      var w := Ready(s.work);
      var v := Serve(w, mp);
      Turn(s, mp) == if !IsLast(w.queue[0], mp) then Usba(v, true, Filled(s.fifo))
                     else SubmitNext(Usba(v, s.work.queue[0].submitted, Filled(s.fifo)), mp)
  {
  }

  lemma ServeRest(w: Work, mp: nat)
    requires w.queue != [] && InBounds(w.queue[0])
    ensures Serve(w, mp).queue != [] ==>
              Serve(w, mp).queue[0].submitted == w.queue[if IsLast(w.queue[0], mp) then 1 else 0].submitted
    ensures IsLast(w.queue[0], mp) ==> Serve(w, mp).queue == w.queue[1..]
    ensures !IsLast(w.queue[0], mp) ==> |Serve(w, mp).queue| == |w.queue|
  {
  }

  lemma TurnExactly(s: Usba, mp: nat)
    requires mp > 0 && Fine(s, mp) && Acts(s) && Bounded(s)
    ensures Fine(Turn(s, mp), mp) <==> !GoesWrong(s, mp)
  {
    hide Clean, Asked, IsLast, Load, Serve, Turn;
    var w := Ready(s.work);
    MarkedClean(s.work, mp);
    TurnIs(s, mp);
    ServeKeeps(w, mp);
    ServeRest(w, mp);
    SameLast(s.work.queue[0], w.queue[0], mp);
    if IsLast(w.queue[0], mp) && |w.queue| > 1 {
      NextWaits(s.work, mp);
      NextSubmitted(Serve(w, mp), s.work.queue[1].order, s.work.queue[0].submitted, Filled(s.fifo), mp);
    }
  }

  lemma SameLast(r: Req, q: Req, mp: nat)
    requires InBounds(r) && q.order == r.order && q.actual == r.actual
    ensures InBounds(q) && (IsLast(q, mp) <==> IsLast(r, mp))
  {
  }

  lemma NextWaits(w: Work, mp: nat)
    requires mp > 0 && Clean(w, mp) && |w.queue| > 1
    ensures w.queue[1] == Fresh(w.queue[1].order) && Ready(w).queue[1..] == w.queue[1..]
  {
    assert w.queue[1..][0] == w.queue[1];
  }

  // The next request is submitted as it comes to the head, whether or not a bank is free:
  // if one packet is all of it, it is left there with its interrupt disabled.
  lemma NextSubmitted(v: Work, o: Order, irq: bool, f: Fifo, mp: nat)
    requires mp > 0 && Clean(v, mp) && v.queue != [] && v.queue[0] == Fresh(o) && !f.overrun
    ensures Fine(SubmitNext(Usba(v, irq, f), mp), mp) <==> !IsLast(Fresh(o), mp) && f.free > 0
  {
    hide Clean, Asked, IsLast, Load, Serve;
    MarkedClean(v, mp);
    var w := Marked(v);
    SameLast(v.queue[0], w.queue[0], mp);
    ServeIs(w, mp);
    ServeKeeps(w, mp);
    ServeRest(w, mp);
    SubmitIs(v, irq, f, mp);
  }

  lemma SubmitIs(v: Work, irq: bool, f: Fifo, mp: nat)
    requires v.queue != [] && !v.queue[0].submitted
    ensures
      var w, t := Marked(v), SubmitNext(Usba(v, irq, f), mp);
      && t.work.queue != [] && t.fifo == Filled(f) && (t.pkRdyIrq <==> !IsLast(w.queue[0], mp))
      && (!IsLast(w.queue[0], mp) ==> t.work == Serve(w, mp))
  {
  }

  // The wire stays right, and a waiting request keeps its interrupt, exactly until a turn
  // completes a request with another behind it that has only one packet, or for which no
  // bank is left.
  lemma StepExactly(s: Usba, mp: nat, e: Event)
    requires mp > 0 && Fine(s, mp)
    ensures Bounded(s) && (Fine(Step(s, mp, e), mp) <==> !(e == Irq && GoesWrong(s, mp)))
  {
    FineIsBounded(s, mp);
    match e
    case Irq =>
      if Acts(s) {
        TurnExactly(s, mp);
      }
    case Queue(o) =>
      AppendKeeps(s.work, o, mp);
    case HostTakes =>
  }

  // Every state of the run is fine.
  ghost predicate StaysFine(s: Usba, mp: nat, es: seq<Event>)
    requires mp > 0 && Bounded(s)
    decreases |es|
  {
    Fine(s, mp) && (es != [] ==> (StepBounded(s, mp, es[0]); StaysFine(Step(s, mp, es[0]), mp, es[1..])))
  }

  // No turn of the run overtakes or overruns.
  ghost predicate NoneGoesWrong(s: Usba, mp: nat, es: seq<Event>)
    requires Bounded(s)
    decreases |es|
  {
    es != [] ==>
      && !(es[0] == Irq && GoesWrong(s, mp))
      && (StepBounded(s, mp, es[0]); NoneGoesWrong(Step(s, mp, es[0]), mp, es[1..]))
  }

  lemma {:induction false} RunExactly(s: Usba, mp: nat, es: seq<Event>)
    requires mp > 0 && Bounded(s) && Fine(s, mp)
    ensures StaysFine(s, mp, es) <==> NoneGoesWrong(s, mp, es)
    decreases |es|
  {
    hide Fine, GoesWrong, Step, Bounded;
    if es != [] {
      StepBounded(s, mp, es[0]);
      StepExactly(s, mp, es[0]);
      if Fine(Step(s, mp, es[0]), mp) {
        RunExactly(Step(s, mp, es[0]), mp, es[1..]);
      }
    }
  }

  // ---- The requests of a run

  function Queued(es: seq<Event>): seq<Order>
    decreases |es|
  {
    if es == [] then [] else (if es[0].Queue? then [es[0].order] else []) + Queued(es[1..])
  }

  lemma LoadAsked(w: Work, mp: nat)
    requires w.queue != [] && InBounds(w.queue[0])
    ensures Asked(Load(w, mp)) == Asked(w) && Asked(Finish(w)) == Asked(w)
  {
    hide Orders, Count;
    AskedFirst(w);
    AskedFirst(Load(w, mp));
    OrdersConcat(w.done, [w.queue[0].order], Orders(w.queue[1..]));
  }

  lemma SubmitAsked(s: Usba, mp: nat)
    requires s.work.queue != []
    ensures Asked(Submit(s, mp).work) == Asked(s.work)
  {
    hide Orders, Load;
    AskedFirst(s.work);
    AskedFirst(Marked(s.work));
    LoadAsked(Marked(s.work), mp);
  }

  lemma TurnAsked(s: Usba, mp: nat)
    requires Bounded(s)
    ensures Asked(Turn(s, mp).work) == Asked(s.work)
  {
    hide Asked, IsLast, Submit, Load;
    if Acts(s) {
      var t :=
        if s.work.queue[0].submitted then s.(work := Load(s.work, mp), fifo := Filled(s.fifo)) else Submit(s, mp);
      if s.work.queue[0].submitted {
        LoadAsked(s.work, mp);
      } else {
        SubmitAsked(s, mp);
        SubmitHead(s, mp);
      }
      LoadAsked(t.work, mp);
      var u := t.(work := Finish(t.work));
      if u.work.queue != [] {
        SubmitAsked(u, mp);
      }
    }
  }

  lemma SubmitHead(s: Usba, mp: nat)
    requires s.work.queue != []
    ensures Submit(s, mp).work.queue != [] && InBounds(Submit(s, mp).work.queue[0])
  {
  }

  // Requests are completed in the order in which they are queued, in every run.
  lemma {:induction false} RunOrder(s: Usba, mp: nat, es: seq<Event>)
    requires Bounded(s)
    ensures Asked(Run(s, mp, es).work) == Asked(s.work) + Queued(es)
    decreases |es|
  {
    hide Asked, Step, Bounded;
    if es == [] {
      assert Asked(s.work) + [] == Asked(s.work);
    } else {
      StepBounded(s, mp, es[0]);
      StepAsked(s, mp, es[0]);
      RunOrder(Step(s, mp, es[0]), mp, es[1..]);
      var first := if es[0].Queue? then [es[0].order] else [];
      OrdersConcat(Asked(s.work), first, Queued(es[1..]));
    }
  }

  lemma StepAsked(s: Usba, mp: nat, e: Event)
    requires Bounded(s)
    ensures Asked(Step(s, mp, e).work) == Asked(s.work) + if e.Queue? then [e.order] else []
  {
    hide Turn;
    match e
    case Irq => TurnAsked(s, mp);
    case Queue(o) => AppendAsked(s.work, o);
    case HostTakes =>
  }

  // Without a turn that goes wrong, the wire has the packets of the requests in the order in
  // which they were queued, as far as it has got, and all of them once none is waiting.
  lemma {:induction false} RunOnWire(s: Usba, mp: nat, es: seq<Event>)
    requires mp > 0 && Bounded(s) && Fine(s, mp) && NoneGoesWrong(s, mp, es)
    ensures
      var w, os := Run(s, mp, es).work, Asked(s.work) + Queued(es);
      && w.wire <= Wire(os, mp)
      && (w.queue == [] ==> w.wire == Wire(os, mp))
  {
    RunOrder(s, mp, es);
    RunFine(s, mp, es);
    CleanIsPrefix(Run(s, mp, es).work, mp);
  }

  lemma {:induction false} RunFine(s: Usba, mp: nat, es: seq<Event>)
    requires mp > 0 && Bounded(s) && Fine(s, mp) && NoneGoesWrong(s, mp, es)
    ensures Fine(Run(s, mp, es), mp)
    decreases |es|
  {
    hide Fine, GoesWrong, Step, Bounded;
    if es != [] {
      StepBounded(s, mp, es[0]);
      StepExactly(s, mp, es[0]);
      RunFine(Step(s, mp, es[0]), mp, es[1..]);
    }
  }

  // ---- A condition on the caller

  // No turn of the run overtakes.
  ghost predicate NoneOvertakes(s: Usba, mp: nat, es: seq<Event>)
    requires Bounded(s)
    decreases |es|
  {
    es != [] ==>
      && !(es[0] == Irq && Overtakes(s, mp))
      && (StepBounded(s, mp, es[0]); NoneOvertakes(Step(s, mp, es[0]), mp, es[1..]))
  }

  // A request of one packet is queued only while no other is.
  ghost predicate Paced(s: Usba, mp: nat, es: seq<Event>)
    requires Bounded(s)
    decreases |es|
  {
    es != [] ==>
      && (es[0].Queue? && IsLast(Fresh(es[0].order), mp) ==> s.work.queue == [])
      && (StepBounded(s, mp, es[0]); Paced(Step(s, mp, es[0]), mp, es[1..]))
  }

  predicate LaterLong(s: Usba, mp: nat)
    requires Bounded(s)
  {
    forall k :: 1 <= k < |s.work.queue| ==> !IsLast(Fresh(s.work.queue[k].order), mp)
  }

  lemma StepLong(s: Usba, mp: nat, e: Event)
    requires Bounded(s) && LaterLong(s, mp) && Bounded(Step(s, mp, e))
    requires e.Queue? && IsLast(Fresh(e.order), mp) ==> s.work.queue == []
    ensures LaterLong(Step(s, mp, e), mp)
  {
    hide IsLast, Turn;
    if e == Irq {
      var t := Turn(s, mp).work.queue;
      forall k | 1 <= k < |t|
        ensures !IsLast(Fresh(t[k].order), mp)
      {
        TurnTail(s, mp, k);
      }
    }
  }

  lemma {:induction false} PacedIsEnough(s: Usba, mp: nat, es: seq<Event>)
    requires Bounded(s) && LaterLong(s, mp) && Paced(s, mp, es)
    ensures NoneOvertakes(s, mp, es)
    decreases |es|
  {
    if es != [] {
      StepBounded(s, mp, es[0]);
      StepLong(s, mp, es[0]);
      PacedIsEnough(Step(s, mp, es[0]), mp, es[1..]);
    }
  }

  // Any request is queued only while no other is.
  ghost predicate Single(s: Usba, mp: nat, es: seq<Event>)
    requires Bounded(s)
    decreases |es|
  {
    es != [] ==>
      && (es[0].Queue? ==> s.work.queue == [])
      && (StepBounded(s, mp, es[0]); Single(Step(s, mp, es[0]), mp, es[1..]))
  }

  lemma TurnShortens(s: Usba, mp: nat)
    requires Bounded(s)
    ensures |Turn(s, mp).work.queue| <= |s.work.queue|
  {
    hide IsLast, Count;
  }

  lemma {:induction false} SingleIsEnough(s: Usba, mp: nat, es: seq<Event>)
    requires Bounded(s) && |s.work.queue| <= 1 && Single(s, mp, es)
    ensures NoneGoesWrong(s, mp, es)
    decreases |es|
  {
    hide Turn, IsLast;
    if es != [] {
      StepBounded(s, mp, es[0]);
      TurnShortens(s, mp);
      SingleIsEnough(Step(s, mp, es[0]), mp, es[1..]);
    }
  }

  // ---- What an overtaking turn leaves

  // All of the head has been copied, but it waits for an interrupt that is disabled.
  ghost predicate Left(s: Usba, mp: nat)
    requires mp > 0 && Bounded(s)
  {
    && s.work.queue != [] && !s.pkRdyIrq
    && s.work.queue[0].submitted && s.work.queue[0].actual == |s.work.queue[0].order.buf|
    && s.work.wire == Wire(s.work.done + [s.work.queue[0].order], mp)
  }

  lemma OvertakingLeaves(s: Usba, mp: nat)
    requires mp > 0 && Bounded(s) && Fine(s, mp) && Overtakes(s, mp)
    ensures Bounded(Turn(s, mp)) && Left(Turn(s, mp), mp)
    ensures
      var o, p := s.work.queue[0].order, s.work.queue[1].order;
      Turn(s, mp).work.done == s.work.done + [o] && Turn(s, mp).work.queue[0].order == p
  {
    StepBounded(s, mp, Irq);
    hide Clean, Asked, IsLast, Load, Serve, Turn, Wire;
    var w := Ready(s.work);
    MarkedClean(s.work, mp);
    TurnIs(s, mp);
    ServeKeeps(w, mp);
    ServeRest(w, mp);
    ServeIs(w, mp);
    SameLast(s.work.queue[0], w.queue[0], mp);
    NextWaits(s.work, mp);
    SubmitWhole(Serve(w, mp), s.work.queue[1].order, s.work.queue[0].submitted, Filled(s.fifo), mp);
  }

  lemma SubmitWhole(v: Work, o: Order, irq: bool, f: Fifo, mp: nat)
    requires mp > 0 && Clean(v, mp) && v.queue != [] && v.queue[0] == Fresh(o) && IsLast(Fresh(o), mp)
    ensures
      var t := SubmitNext(Usba(v, irq, f), mp);
      && t.work.queue != [] && !t.pkRdyIrq && t.work.done == v.done
      && t.work.queue[0] == Req(o, |o.buf|, true) && t.work.wire == Wire(v.done + [o], mp)
  {
    FreshOwes(o, mp);
    LoadKeeps(Fresh(o), mp);
    WireMore(v.done, o, mp);
    hide Wire, Packets, Split;
    assert (Wire(v.done, mp) + []) + [o.buf] == Wire(v.done, mp) + ([] + [o.buf]);
    assert o.buf[0..|o.buf|] == o.buf;
  }

  // No interrupt and nothing that the host does completes it.
  lemma {:induction false} LeftStays(s: Usba, mp: nat, es: seq<Event>)
    requires mp > 0 && Bounded(s) && !s.pkRdyIrq && (forall i :: 0 <= i < |es| ==> !es[i].Queue?)
    ensures Run(s, mp, es).work == s.work
    decreases |es|
  {
    if es != [] {
      StepBounded(s, mp, es[0]);
      LeftStays(Step(s, mp, es[0]), mp, es[1..]);
    }
  }

  // The next request to be queued completes it, behind an empty packet that nobody asked
  // for.
  lemma LeftSendsEmpty(s: Usba, mp: nat, o: Order)
    requires mp > 0 && Bounded(s) && Left(s, mp) && s.fifo.banks > 0
    ensures
      var t := Run(s, mp, [HostTakes, Queue(o), Irq]);
      && t.work.done == s.work.done + [s.work.queue[0].order]
      && Wire(t.work.done, mp) + [[]] <= t.work.wire
  {
    var a := s.(fifo := Emptied(s.fifo));
    var b := a.(work := Append(s.work, o), pkRdyIrq := true);
    RunThree(s, mp, o);
    hide Run, Wire;
    StepBounded(a, mp, Queue(o));
    var t := Turn(b, mp);
    var r := b.work.queue[0];
    assert r == s.work.queue[0];
    assert r.order.buf[r.actual..r.actual] == [];
  }

  lemma RunThree(s: Usba, mp: nat, o: Order)
    requires Bounded(s)
    ensures
      var b := Usba(Append(s.work, o), true, Emptied(s.fifo));
      Bounded(b) && Run(s, mp, [HostTakes, Queue(o), Irq]) == Turn(b, mp)
  {
    hide Turn;
    var es := [HostTakes, Queue(o), Irq];
    var a := s.(fifo := Emptied(s.fifo));
    StepBounded(a, mp, Queue(o));
    assert es[1..] == [Queue(o), Irq] && es[1..][1..] == [Irq] && [Irq][1..] == [];
    var b := Usba(Append(s.work, o), true, Emptied(s.fifo));
    assert Step(a, mp, Queue(o)) == b;
    StepBounded(b, mp, Irq);
    assert Run(b, mp, [Irq]) == Run(Turn(b, mp), mp, []) == Turn(b, mp);
    assert Run(a, mp, [Queue(o), Irq]) == Run(b, mp, [Irq]);
  }

  // ---- How many packets are copied

  // A turn with something to do and a free bank copies a packet, and another one when it
  // submits the next request; each takes a bank.  Nothing else copies, and the host frees one
  // bank at a time.
  lemma CopiesExactly(s: Usba, mp: nat, e: Event)
    requires Bounded(s)
    ensures
      var t := Step(s, mp, e);
      var copies := if e != Irq || !Acts(s) then 0 else if Submits(s, mp) then 2 else 1;
      && |t.work.wire| == |s.work.wire| + copies && t.fifo.banks == s.fifo.banks
      && t.fifo.free == (if e.HostTakes? then if s.fifo.free < s.fifo.banks then s.fifo.free + 1 else s.fifo.free
                         else if s.fifo.free > copies then s.fifo.free - copies
                         else if copies == 0 then s.fifo.free else 0)
  {
    hide IsLast, Count;
    if e == Irq && Acts(s) {
      ReadyRest(s.work);
    }
  }

  function TakenBy(s: Usba, mp: nat, es: seq<Event>): nat
    requires Bounded(s)
    decreases |es|
  {
    if es == [] then 0
    else
      StepBounded(s, mp, es[0]);
      (if es[0].HostTakes? && s.fifo.free < s.fifo.banks then 1 else 0) + TakenBy(Step(s, mp, es[0]), mp, es[1..])
  }

  // While no turn goes wrong, what has been copied is what the host has taken and what is in
  // the banks.
  lemma {:induction false} RunTakes(s: Usba, mp: nat, es: seq<Event>)
    requires mp > 0 && Bounded(s) && Fine(s, mp) && NoneGoesWrong(s, mp, es)
    ensures
      var t := Run(s, mp, es);
      |t.work.wire| + t.fifo.free == |s.work.wire| + s.fifo.free + TakenBy(s, mp, es)
    decreases |es|
  {
    hide Fine, GoesWrong, Step, Bounded;
    if es != [] {
      StepBounded(s, mp, es[0]);
      StepExactly(s, mp, es[0]);
      CopiesExactly(s, mp, es[0]);
      EnoughBanks(s, mp, es[0]);
      RunTakes(Step(s, mp, es[0]), mp, es[1..]);
    }
  }

  lemma EnoughBanks(s: Usba, mp: nat, e: Event)
    requires Bounded(s) && !(e == Irq && GoesWrong(s, mp))
    ensures e == Irq && Acts(s) ==> s.fifo.free >= if Submits(s, mp) then 2 else 1
  {
    hide IsLast;
  }

  // ---- Both happen

  lemma TwoQueued(banks: nat, o: Order, p: Order, mp: nat)
    requires mp > 0
    ensures
      var s := Usba(Append(Append(NO_WORK, o), p), true, Fifo(banks, banks, false));
      && Run(Enabled(banks), mp, [Queue(o), Queue(p)]) == s && Bounded(s) && Fine(s, mp)
      && s.work.queue == [Fresh(o), Fresh(p)]
  {
    var f := Fifo(banks, banks, false);
    var s1 := Usba(Append(NO_WORK, o), true, f);
    var s := Usba(Append(Append(NO_WORK, o), p), true, f);
    AppendKeeps(NO_WORK, o, mp);
    AppendKeeps(Append(NO_WORK, o), p, mp);
    assert [Queue(o), Queue(p)][1..] == [Queue(p)];
    assert Run(s1, mp, [Queue(p)]) == Run(s, mp, []) == s;
  }

  // Two requests of one packet each on an idle endpoint: the first turn overtakes.
  lemma TwoShort(banks: nat, o: Order, p: Order, mp: nat)
    requires mp > 0 && banks > 0 && IsLast(Fresh(o), mp) && IsLast(Fresh(p), mp)
    ensures
      var s := Run(Enabled(banks), mp, [Queue(o), Queue(p)]);
      Bounded(s) && Fine(s, mp) && Overtakes(s, mp)
  {
    TwoQueued(banks, o, p, mp);
  }

  // With the two banks that usba_ep_enable asks for, a request of two packets and another
  // behind it: the second turn overruns.
  lemma TwoLong(o: Order, p: Order, mp: nat)
    requires mp > 0 && !IsLast(Fresh(o), mp) && IsLast(Req(o, mp, true), mp)
    ensures
      var s := Run(Enabled(2), mp, [Queue(o), Queue(p)]);
      && Bounded(s) && Fine(s, mp) && !GoesWrong(s, mp)
      && Bounded(Turn(s, mp)) && Fine(Turn(s, mp), mp) && Overruns(Turn(s, mp), mp)
  {
    hide Run;
    TwoQueued(2, o, p, mp);
    var s := Run(Enabled(2), mp, [Queue(o), Queue(p)]);
    StepBounded(s, mp, Irq);
    assert Turn(s, mp).work.queue == [Req(o, mp, true), Fresh(p)];
    StepExactly(s, mp, Irq);
  }

  class Endpoint {
    const maxpacket: nat
    var queue: seq<Req>
    var pkRdyIrq: bool          // USBA_TX_PK_RDY in the control register
    var fifo: Fifo              // free > 0 is USBA_TX_PK_RDY clear in the status register
    var done: seq<Order>
    var wire: seq<Packet>       // packets copied to the FIFO

    constructor (maxpacket: nat, banks: nat)
      ensures Value() == Enabled(banks) && this.maxpacket == maxpacket
    {
      this.maxpacket := maxpacket;
      queue, pkRdyIrq, fifo, done, wire := [], false, Fifo(banks, banks, false), [], [];
    }

    function Value(): Usba
      reads this
    {
      Usba(Work(queue, done, wire), pkRdyIrq, fifo)
    }

    // next_fifo_transaction; the result is the request's last_transaction.
    method NextFifoTransaction() returns (lastTransaction: bool)
      requires queue != [] && InBounds(queue[0])
      modifies `queue, `wire, `fifo
      ensures Value() == old(Value()).(work := Load(old(Value()).work, maxpacket), fifo := Filled(old(fifo)))
      ensures lastTransaction <==> IsLast(old(queue[0]), maxpacket)
    {
      var req := queue[0];
      var transactionLen := |req.order.buf| - req.actual;
      lastTransaction := true;
      if transactionLen > maxpacket {
        transactionLen := maxpacket;
        lastTransaction := false;
      } else if transactionLen == maxpacket && req.order.zero {
        lastTransaction := false;
      }
      wire := wire + [req.order.buf[req.actual..req.actual + transactionLen]];
      fifo := Filled(fifo);
      queue := [req.(actual := req.actual + transactionLen)] + queue[1..];
    }

    // submit_request without DMA
    method SubmitRequest() returns (lastTransaction: bool)
      requires queue != []
      modifies `queue, `wire, `fifo, `pkRdyIrq
      ensures Value() == Submit(old(Value()), maxpacket)
      ensures lastTransaction <==> IsLast(old(queue[0]).(actual := 0), maxpacket)
    {
      queue := [queue[0].(actual := 0, submitted := true)] + queue[1..];
      lastTransaction := NextFifoTransaction();
      if lastTransaction {
        pkRdyIrq := false;
      } else {
        pkRdyIrq := true;
      }
    }

    // submit_next_request
    method SubmitNextRequest()
      modifies `queue, `wire, `fifo, `pkRdyIrq
      ensures Value() == SubmitNext(old(Value()), maxpacket)
    {
      if queue == [] {
        pkRdyIrq := false;
        return;
      }
      if !queue[0].submitted {
        var last := SubmitRequest();
      }
    }

    // One turn of the transmit loop of usba_ep_irq.
    method EpIrq()
      requires Bounded(Value())
      modifies `queue, `wire, `fifo, `pkRdyIrq, `done
      ensures Value() == Step(old(Value()), maxpacket, Irq)
    {
      hide Load, Submit, IsLast;
      if pkRdyIrq && fifo.free > 0 {
        if queue == [] {
          pkRdyIrq := false;
          return;
        }
        var lastTransaction;
        if queue[0].submitted {
          lastTransaction := NextFifoTransaction();
        } else {
          ghost var was := Value();
          lastTransaction := SubmitRequest();
          SubmitHead(was, maxpacket);
          SameLast(was.work.queue[0].(actual := 0), Ready(was.work).queue[0], maxpacket);
        }
        if lastTransaction {
          done := done + [queue[0].order];
          queue := queue[1..];
          SubmitNextRequest();
        }
      }
    }

    // usba_ep_queue on an IN endpoint
    method EpQueue(order: Order)
      requires Bounded(Value())
      modifies `queue, `pkRdyIrq
      ensures Value() == Step(old(Value()), maxpacket, Queue(order))
    {
      queue := queue + [Fresh(order)];
      pkRdyIrq := true;
    }
  }
}
