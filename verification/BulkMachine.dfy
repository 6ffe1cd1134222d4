/** A bulk or interrupt endpoint of gadget/bcm63xx_udc.c as a transition system: queueing,
    dequeueing, enabling, disabling and the data interrupt, in any interleaving with the
    hardware. */
module BulkMachine {
  import opened Basics
  import opened Iudma

  // A request on the queue; id tells requests apart.
  datatype Item<T> = Item(id: T, req: Req)

  // A completion; dequeued says that bcm63xx_udc_dequeue took the request off the queue.
  datatype Done<T> = Done(id: T, actual: nat, status: int, dequeued: bool)

  // accepted lists the requests taken onto the queue, finished those completed off it,
  // and spurious the completions of requests that were on no queue.
  datatype Ep<T> = Ep(ch: Chan, queue: seq<Item<T>>, enabled: bool,
                      accepted: seq<T>, finished: seq<Done<T>>, spurious: seq<T>)

  datatype Event<T> =
    | Enable | Disable | Queue(item: Item<T>) | Dequeue(id: T) | DataIsr
    | Hardware(k: nat, bytes: nat)

  // Bug stands for BUG_ON, for handing the hardware a descriptor it still owns, and for
  // damage to the queue: list_del on a request that is not linked, list_add_tail on one
  // that is.
  datatype Outcome<T> = Ok(ep: Ep<T>) | Bug

  function Ids<T>(q: seq<Item<T>>): seq<T> { seq(|q|, i requires 0 <= i < |q| => q[i].id) }

  predicate Holds<T(==)>(q: seq<Item<T>>, id: T) { exists i :: 0 <= i < |q| && q[i].id == id }

  function Position<T(==)>(q: seq<Item<T>>, id: T): (i: nat)
    requires Holds(q, id)
    ensures i < |q| && q[i].id == id
  {
    if q[0].id == id then 0 else Position(q[1..], id) + 1
  }

  // iudma_write for the request at the head, if there is one.
  function SubmitHead<T>(e: Ep<T>): Outcome<T> {
    if e.queue == [] then Ok(e)
    else
      var r := e.queue[0].req;
      if !CanWrite(e.ch, r) || (exists k :: 0 <= k < |e.ch.ring| && e.ch.ring[k].owner) then Bug
      else Ok(e.(ch := Written(e.ch, r), queue := e.queue[0 := e.queue[0].(req := Submitted(e.ch, r))]))
  }

  // list_del, and what the completion callback is told
  function Remove<T>(e: Ep<T>, i: nat, status: int, dequeued: bool): Ep<T>
    requires i < |e.queue|
  {
    e.(queue := e.queue[..i] + e.queue[i + 1..],
       finished := e.finished + [Done(e.queue[i].id, e.queue[i].req.actual, status, dequeued)])
  }

  // bcm63xx_ep_disable, after the channel is reset
  function RemoveAll<T>(e: Ep<T>): Ep<T>
    decreases |e.queue|
  {
    if e.queue == [] then e else RemoveAll(Remove(e, 0, ESHUTDOWN, false))
  }

  // bcm63xx_udc_queue
  function Queued<T(==)>(e: Ep<T>, item: Item<T>): Outcome<T> {
    if !e.enabled then Ok(e)
    else if Holds(e.queue, item.id) then Bug
    else
      var clean := item.(req := item.req.(actual := 0, offset := 0));
      var added := e.(queue := e.queue + [clean], accepted := e.accepted + [item.id]);
      if |added.queue| == 1 then SubmitHead(added) else Ok(added)
  }

  // bcm63xx_udc_dequeue.  On an empty queue it returns an error and completes the request
  // all the same; on another queue it does not ask whether the request is there.
  function Dequeued<T(==)>(e: Ep<T>, id: T): Outcome<T> {
    if e.queue == [] then Ok(e.(spurious := e.spurious + [id]))
    else if !Holds(e.queue, id) then Bug
    else
      var i := Position(e.queue, id);
      if i == 0 then SubmitHead(Remove(e.(ch := ResetChan(e.ch)), 0, ESHUTDOWN, true))
      else Ok(Remove(e, i, ESHUTDOWN, true))
  }

  // bcm63xx_udc_data_isr
  function Interrupted<T>(e: Ep<T>): Outcome<T> {
    if !Window(e.ch) then Bug
    else
      var rc := ReadResult(e.ch);
      if rc < 0 then Ok(e)
      else
        var v := e.(ch := Reaped(e.ch));
        if v.queue == [] then Ok(v)
        else
          var r := v.queue[0].req;
          if Ends(r, rc) then SubmitHead(Remove(v.(queue := v.queue[0 := v.queue[0].(req := Ended(r, rc))]), 0, 0, false))
          else SubmitHead(v.(queue := v.queue[0 := v.queue[0].(req := Continued(r, rc))]))
  }

  function Step<T(==)>(e: Ep<T>, event: Event<T>): Outcome<T> {
    match event
    case Enable =>
      if e.enabled then Ok(e)
      else if e.queue != [] then Bug
      else Ok(e.(enabled := true, ch := ResetChan(e.ch)))
    case Disable =>
      if !e.enabled then Ok(e) else Ok(RemoveAll(e.(enabled := false, ch := ResetChan(e.ch))))
    case Queue(item) => Queued(e, item)
    case Dequeue(id) => Dequeued(e, id)
    case DataIsr => Interrupted(e)
    case Hardware(k, bytes) => if HwCan(e.ch, k, bytes) then Ok(e.(ch := HwDone(e.ch, k, bytes))) else Ok(e)
  }

  function Run<T(==)>(e: Ep<T>, events: seq<Event<T>>): Outcome<T>
    decreases |events|
  {
    if events == [] then Ok(e)
    else match Step(e, events[0])
      case Ok(v) => Run(v, events[1..])
      case Bug => Bug
  }

  // ---- The invariant

  // Only the head of the queue has been submitted; it is what the channel works on.
  ghost predicate Inv<T>(e: Ep<T>) {
    && ChanOk(e.ch)
    && (!e.enabled ==> e.queue == [])
    && (if e.queue == [] then e.ch.used == 0 else InFlight(e.ch, e.queue[0].req))
    && (forall i :: 1 <= i < |e.queue| ==> Ready(e.queue[i].req) && e.queue[i].req.actual == 0)
    && (forall i, j :: 0 <= i < j < |e.queue| ==> e.queue[i].id != e.queue[j].id)
    && Conserved(e)
  }

  function DoneIds<T>(ds: seq<Done<T>>): seq<T> { seq(|ds|, i requires 0 <= i < |ds| => ds[i].id) }

  // Every accepted request is on the queue or has been completed, once.
  ghost predicate Conserved<T>(e: Ep<T>) {
    multiset(e.accepted) == multiset(DoneIds(e.finished)) + multiset(Ids(e.queue))
  }

  // An idle channel, and a queue whose head is ready to be submitted.
  ghost predicate Standing<T>(e: Ep<T>) {
    && ChanOk(e.ch) && e.ch.used == 0
    && (!e.enabled ==> e.queue == [])
    && (e.queue != [] ==> Ready(e.queue[0].req))
    && (forall i :: 1 <= i < |e.queue| ==> Ready(e.queue[i].req) && e.queue[i].req.actual == 0)
    && (forall i, j :: 0 <= i < j < |e.queue| ==> e.queue[i].id != e.queue[j].id)
    && Conserved(e)
  }

  lemma SubmitKeeps<T>(e: Ep<T>)
    requires Standing(e)
    ensures SubmitHead(e).Ok? && Inv(SubmitHead(e).ep)
  {
    hide ChanOk, InFlight, Written, Submitted;
    if e.queue != [] {
      var r := e.queue[0].req;
      IdleOwnsNothing(e.ch);
      IdleCanWrite(e.ch, r);
      WriteStarts(e.ch, r);
      WriteKeepsChan(e.ch, r);
      assert Ids(SubmitHead(e).ep.queue) == Ids(e.queue);
    }
  }

  lemma IdleCanWrite(ch: Chan, r: Req)
    requires ChanOk(ch) && r.offset <= r.length
    ensures CanWrite(ch, r)
  {
  }

  lemma RemoveConserves<T>(e: Ep<T>, i: nat, status: int, dequeued: bool)
    requires i < |e.queue| && Conserved(e)
    ensures Conserved(Remove(e, i, status, dequeued))
  {
    var v, id := Remove(e, i, status, dequeued), e.queue[i].id;
    assert DoneIds(v.finished) == DoneIds(e.finished) + [id];
    assert Ids(v.queue) == Ids(e.queue)[..i] + Ids(e.queue)[i + 1..];
    assert Ids(e.queue) == Ids(e.queue)[..i] + ([id] + Ids(e.queue)[i + 1..]);
  }

  lemma RemoveHeadStands<T>(e: Ep<T>, status: int, dequeued: bool)
    requires ChanOk(e.ch) && e.ch.used == 0 && e.enabled && e.queue != []
    requires forall i :: 1 <= i < |e.queue| ==> Ready(e.queue[i].req) && e.queue[i].req.actual == 0
    requires forall i, j :: 0 <= i < j < |e.queue| ==> e.queue[i].id != e.queue[j].id
    requires Conserved(e)
    ensures Standing(Remove(e, 0, status, dequeued))
  {
    hide ChanOk, Conserved;
    RemoveConserves(e, 0, status, dequeued);
    assert Remove(e, 0, status, dequeued).queue == e.queue[1..];
  }

  lemma {:induction false} RemoveAllConserves<T>(e: Ep<T>)
    requires Conserved(e)
    ensures Conserved(RemoveAll(e)) && RemoveAll(e).queue == []
    ensures RemoveAll(e).ch == e.ch && RemoveAll(e).enabled == e.enabled
    decreases |e.queue|
  {
    if e.queue != [] {
      RemoveConserves(e, 0, ESHUTDOWN, false);
      RemoveAllConserves(Remove(e, 0, ESHUTDOWN, false));
    }
  }

  // The gadget driver queues no request that is on the queue, and dequeues, unless the
  // queue is empty, only those that are.
  predicate Disciplined<T(==)>(e: Ep<T>, event: Event<T>) {
    match event
    case Queue(item) => e.enabled ==> !Holds(e.queue, item.id)
    case Dequeue(id) => e.queue == [] || Holds(e.queue, id)
    case _ => true
  }

  // The queue with the request at its end, started afresh.
  function Appended<T>(e: Ep<T>, item: Item<T>): Ep<T> {
    e.(queue := e.queue + [item.(req := item.req.(actual := 0, offset := 0))], accepted := e.accepted + [item.id])
  }

  lemma AppendConserves<T>(e: Ep<T>, item: Item<T>)
    requires Conserved(e)
    ensures Conserved(Appended(e, item))
  {
    assert Ids(Appended(e, item).queue) == Ids(e.queue) + [item.id];
  }

  lemma AppendStands<T>(e: Ep<T>, item: Item<T>)
    requires Inv(e) && e.enabled && !Holds(e.queue, item.id)
    ensures if e.queue == [] then Standing(Appended(e, item)) else Inv(Appended(e, item))
  {
    hide ChanOk, InFlight, Conserved;
    AppendConserves(e, item);
  }

  lemma QueuedKeeps<T>(e: Ep<T>, item: Item<T>)
    requires Inv(e) && Disciplined(e, Event.Queue(item))
    ensures Queued(e, item).Ok? && Inv(Queued(e, item).ep)
  {
    hide Inv, Standing, SubmitHead;
    if e.enabled {
      AppendStands(e, item);
      if |Appended(e, item).queue| == 1 {
        SubmitKeeps(Appended(e, item));
      }
    }
  }

  lemma DequeuedKeeps<T>(e: Ep<T>, id: T)
    requires Inv(e) && Disciplined(e, Dequeue(id))
    ensures Dequeued(e, id).Ok? && Inv(Dequeued(e, id).ep)
  {
    hide ChanOk, InFlight, SubmitHead, ResetChan, Conserved;
    if e.queue == [] {
      SpuriousConserves(e, id);
    } else {
      var i := Position(e.queue, id);
      if i == 0 {
        ResetKeeps(e.ch);
        var v := e.(ch := ResetChan(e.ch));
        ChannelConserves(e, v.ch);
        RemoveHeadStands(v, ESHUTDOWN, true);
        SubmitKeeps(Remove(v, 0, ESHUTDOWN, true));
      } else {
        RemoveConserves(e, i, ESHUTDOWN, true);
      }
    }
  }

  lemma ResetKeeps(ch: Chan)
    requires ChanOk(ch)
    ensures ChanOk(ResetChan(ch)) && ResetChan(ch).used == 0
  {
    ResetIsIdle(ch);
  }

  lemma SpuriousConserves<T>(e: Ep<T>, id: T)
    requires Conserved(e)
    ensures Conserved(e.(spurious := e.spurious + [id]))
  {
  }

  lemma ChannelConserves<T>(e: Ep<T>, ch: Chan)
    requires Conserved(e)
    ensures Conserved(e.(ch := ch))
  {
  }

  lemma HeadConserves<T>(e: Ep<T>, r: Req)
    requires Conserved(e) && e.queue != []
    ensures Conserved(e.(queue := e.queue[0 := e.queue[0].(req := r)]))
  {
    assert Ids(e.queue[0 := e.queue[0].(req := r)]) == Ids(e.queue);
  }

  lemma InterruptedKeeps<T>(e: Ep<T>)
    requires Inv(e)
    ensures Interrupted(e).Ok? && Inv(Interrupted(e).ep)
  {
    assert Window(e.ch);
    hide InFlight, SubmitHead, ReadResult, Reaped, Conserved, Ends;
    if e.queue != [] && ReadResult(e.ch) >= 0 {
      var rc, r := ReadResult(e.ch), e.queue[0].req;
      ReapOutcome(e.ch, r);
      ReapedIsIdle(e.ch);
      var v := e.(ch := Reaped(e.ch));
      ChannelConserves(e, v.ch);
      if Ends(r, rc) {
        var w := v.(queue := v.queue[0 := v.queue[0].(req := Ended(r, rc))]);
        HeadConserves(v, Ended(r, rc));
        RemoveHeadStands(w, 0, false);
        SubmitKeeps(Remove(w, 0, 0, false));
      } else {
        HeadConserves(v, Continued(r, rc));
        SubmitKeeps(v.(queue := v.queue[0 := v.queue[0].(req := Continued(r, rc))]));
      }
    } else {
      IdleReads(e.ch);
    }
  }

  lemma IdleReads(ch: Chan)
    ensures ch.used == 0 && Window(ch) ==> ReadResult(ch) < 0
  {
  }

  lemma StepKeeps<T>(e: Ep<T>, event: Event<T>)
    requires Inv(e) && Disciplined(e, event)
    ensures Step(e, event).Ok? && Inv(Step(e, event).ep)
  {
    hide ChanOk, InFlight, Queued, Dequeued, Interrupted, Conserved, ResetChan, HwCan, HwDone;
    match event
    case Enable =>
      ResetKeeps(e.ch);
      ChannelConserves(e, ResetChan(e.ch));
      EnabledConserves(e.(ch := ResetChan(e.ch)), true);
    case Disable =>
      ResetKeeps(e.ch);
      ChannelConserves(e, ResetChan(e.ch));
      EnabledConserves(e.(ch := ResetChan(e.ch)), false);
      RemoveAllConserves(e.(enabled := false, ch := ResetChan(e.ch)));
    case Queue(item) => QueuedKeeps(e, item);
    case Dequeue(id) => DequeuedKeeps(e, id);
    case DataIsr => InterruptedKeeps(e);
    case Hardware(k, bytes) =>
      if HwCan(e.ch, k, bytes) {
        HwKeepsChan(e.ch, k, bytes);
        ChannelConserves(e, HwDone(e.ch, k, bytes));
        if e.queue != [] {
          HwKeepsInFlight(e.ch, e.queue[0].req, k, bytes);
        } else {
          HwKeepsUsed(e.ch, k, bytes);
        }
      }
  }

  lemma EnabledConserves<T>(e: Ep<T>, on: bool)
    requires Conserved(e)
    ensures Conserved(e.(enabled := on))
  {
  }

  lemma HwKeepsUsed(ch: Chan, k: nat, bytes: nat)
    requires HwCan(ch, k, bytes)
    ensures HwDone(ch, k, bytes).used == ch.used
  {
  }

  // A step goes wrong exactly when the driver queues a request that is queued, or dequeues
  // one that is not from a queue that has others.
  lemma StepExactly<T>(e: Ep<T>, event: Event<T>)
    requires Inv(e)
    ensures Step(e, event).Ok? <==> Disciplined(e, event)
    ensures Step(e, event).Ok? ==> Inv(Step(e, event).ep)
  {
    hide Inv, SubmitHead, Remove;
    if Disciplined(e, event) {
      StepKeeps(e, event);
    }
  }

  // Every event of a run is disciplined where it occurs.
  predicate DisciplinedRun<T(==)>(e: Ep<T>, events: seq<Event<T>>)
    decreases |events|
  {
    events == [] ||
    (Disciplined(e, events[0]) && (Step(e, events[0]).Ok? ==> DisciplinedRun(Step(e, events[0]).ep, events[1..])))
  }

  // Whatever happens in whatever order: a run goes wrong exactly when the driver breaks
  // that discipline; otherwise no descriptor that the hardware owns is overwritten, no
  // BUG_ON fires, the write pointer is n_bds_used ahead of the read pointer, the queue is
  // non-empty exactly when descriptors are outstanding, they belong to its head, and every
  // accepted request is queued or completed, once.
  lemma {:induction false} RunIsSafe<T>(e: Ep<T>, events: seq<Event<T>>)
    requires Inv(e)
    ensures Run(e, events).Ok? <==> DisciplinedRun(e, events)
    ensures
      var o := Run(e, events);
      o.Ok? ==>
      && Inv(o.ep)
      && o.ep.ch.writeBd == Slot(|o.ep.ch.ring|, o.ep.ch.readBd, o.ep.ch.used)
      && (o.ep.queue != [] <==> o.ep.ch.used > 0)
      && (o.ep.queue != [] ==> o.ep.enabled && InFlight(o.ep.ch, o.ep.queue[0].req))
      && multiset(o.ep.accepted) == multiset(DoneIds(o.ep.finished)) + multiset(Ids(o.ep.queue))
    decreases |events|
  {
    hide Step, Ready, Posted, Progress, Disciplined;
    if events != [] {
      StepExactly(e, events[0]);
      if Step(e, events[0]).Ok? {
        RunIsSafe(Step(e, events[0]).ep, events[1..]);
      }
    }
  }

  // The request has left the queue and been completed as shut down, and no other has.
  predicate TakenOff<T(==)>(e: Ep<T>, v: Ep<T>, id: T) {
    && |v.finished| == |e.finished| + 1 && v.finished[..|e.finished|] == e.finished
    && v.finished[|e.finished|].id == id && v.finished[|e.finished|].status == ESHUTDOWN
    && |v.queue| == |e.queue| - 1 && !Holds(v.queue, id) && v.spurious == e.spurious
  }

  // What a dequeue is for: the request leaves the queue and is completed as shut down.
  // That is what happens exactly when it was queued; on an empty queue a request that was
  // nowhere is completed, and otherwise the queue is damaged.
  lemma DequeueExactly<T>(e: Ep<T>, id: T)
    requires Inv(e)
    ensures
      var o := Dequeued(e, id);
      && (o.Bug? <==> e.queue != [] && !Holds(e.queue, id))
      && (o.Ok? && o.ep.spurious != e.spurious <==> e.queue == [])
      && (Holds(e.queue, id) <==> o.Ok? && TakenOff(e, o.ep, id))
  {
    hide CanWrite, Written, Submitted, InFlight, ResetChan, ChanOk, Conserved, Ready;
    if Disciplined(e, Dequeue(id)) {
      DequeuedKeeps(e, id);
    }
  }

  // ---- Order

  // s is t with some entries left out: f says where each entry of s is in t.
  ghost predicate Picks<T>(f: seq<nat>, s: seq<T>, t: seq<T>) {
    && |f| == |s|
    && (forall i :: 0 <= i < |f| ==> f[i] < |t| && t[f[i]] == s[i])
    && (forall i, j :: 0 <= i < j < |f| ==> f[i] < f[j])
  }

  ghost predicate Subsequence<T>(s: seq<T>, t: seq<T>) { exists f :: Picks(f, s, t) }

  lemma PicksMore<T>(f: seq<nat>, s: seq<T>, t: seq<T>, x: T)
    requires Picks(f, s, t)
    ensures Picks(f + [|t|], s + [x], t + [x])
  {
  }

  lemma PicksLess<T>(f: seq<nat>, s: seq<T>, t: seq<T>, i: nat)
    requires Picks(f, s, t) && i < |s|
    ensures Picks(f[..i] + f[i + 1..], s[..i] + s[i + 1..], t)
  {
  }

  // Nothing is left out of a list of the same length.
  lemma {:induction false} PicksAll<T>(f: seq<nat>, s: seq<T>, t: seq<T>)
    requires Picks(f, s, t) && |s| == |t|
    ensures s == t
  {
    forall i | 0 <= i < |f|
      ensures f[i] == i
    {
      PicksFrom(f, s, t, i);
      PicksUpTo(f, s, t, i);
    }
  }

  lemma PicksFrom<T>(f: seq<nat>, s: seq<T>, t: seq<T>, i: nat)
    requires Picks(f, s, t) && i < |f|
    ensures f[i] >= i
  {
    if i > 0 {
      PicksFrom(f, s, t, i - 1);
    }
  }

  lemma PicksUpTo<T>(f: seq<nat>, s: seq<T>, t: seq<T>, i: nat)
    requires Picks(f, s, t) && |s| == |t| && i < |f|
    ensures f[i] <= i
    decreases |f| - i
  {
    if i < |f| - 1 {
      PicksUpTo(f, s, t, i + 1);
    }
  }

  // The requests completed other than by dequeueing, in order.
  function Kept<T>(ds: seq<Done<T>>): seq<T> {
    if ds == [] then []
    else Kept(ds[..|ds| - 1]) + if ds[|ds| - 1].dequeued then [] else [ds[|ds| - 1].id]
  }

  // They and those still queued are in the order in which requests were accepted.
  ghost predicate InOrder<T>(e: Ep<T>) { Subsequence(Kept(e.finished) + Ids(e.queue), e.accepted) }

  lemma SameOrder<T>(e: Ep<T>, v: Ep<T>)
    requires InOrder(e) && Kept(v.finished) + Ids(v.queue) == Kept(e.finished) + Ids(e.queue) && v.accepted == e.accepted
    ensures InOrder(v)
  {
  }

  lemma SubmitOrder<T>(e: Ep<T>)
    requires InOrder(e) && SubmitHead(e).Ok?
    ensures InOrder(SubmitHead(e).ep)
  {
    hide Written, Submitted, CanWrite, InOrder;
    assert Ids(SubmitHead(e).ep.queue) == Ids(e.queue);
    SameOrder(e, SubmitHead(e).ep);
  }

  lemma KeptMore<T>(ds: seq<Done<T>>, d: Done<T>)
    ensures Kept(ds + [d]) == if d.dequeued then Kept(ds) else Kept(ds) + [d.id]
  {
    assert (ds + [d])[..|ds|] == ds;
  }

  // Completing the head, other than by dequeueing it.
  lemma RemoveHeadOrder<T>(e: Ep<T>, status: int)
    requires InOrder(e) && e.queue != []
    ensures InOrder(Remove(e, 0, status, false))
  {
    hide InOrder;
    var v := Remove(e, 0, status, false);
    KeptMore(e.finished, v.finished[|e.finished|]);
    assert Ids(e.queue) == [e.queue[0].id] + Ids(v.queue);
    SameOrder(e, v);
  }

  lemma RemoveDequeuedOrder<T>(e: Ep<T>, i: nat, status: int)
    requires InOrder(e) && i < |e.queue|
    ensures InOrder(Remove(e, i, status, true))
  {
    var v, s := Remove(e, i, status, true), Kept(e.finished) + Ids(e.queue);
    KeptMore(e.finished, v.finished[|e.finished|]);
    var f :| Picks(f, s, e.accepted);
    var at := |Kept(e.finished)| + i;
    PicksLess(f, s, e.accepted, at);
    assert Ids(v.queue) == Ids(e.queue)[..i] + Ids(e.queue)[i + 1..];
    assert Kept(v.finished) + Ids(v.queue) == s[..at] + s[at + 1..];
  }

  lemma AppendOrder<T>(e: Ep<T>, item: Item<T>)
    requires InOrder(e)
    ensures InOrder(Appended(e, item))
  {
    var v, s := Appended(e, item), Kept(e.finished) + Ids(e.queue);
    var f :| Picks(f, s, e.accepted);
    PicksMore(f, s, e.accepted, item.id);
    assert Kept(v.finished) + Ids(v.queue) == s + [item.id];
  }

  lemma {:induction false} RemoveAllOrder<T>(e: Ep<T>)
    requires InOrder(e)
    ensures InOrder(RemoveAll(e))
    decreases |e.queue|
  {
    if e.queue != [] {
      RemoveHeadOrder(e, ESHUTDOWN);
      RemoveAllOrder(Remove(e, 0, ESHUTDOWN, false));
    }
  }

  lemma HeadOrder<T>(e: Ep<T>, r: Req)
    requires InOrder(e) && e.queue != []
    ensures InOrder(e.(queue := e.queue[0 := e.queue[0].(req := r)]))
  {
    hide InOrder;
    assert Ids(e.queue[0 := e.queue[0].(req := r)]) == Ids(e.queue);
    SameOrder(e, e.(queue := e.queue[0 := e.queue[0].(req := r)]));
  }

  lemma ChannelOrder<T>(e: Ep<T>, ch: Chan, on: bool, spurious: seq<T>)
    requires InOrder(e)
    ensures InOrder(e.(ch := ch, enabled := on, spurious := spurious))
  {
    hide InOrder;
    SameOrder(e, e.(ch := ch, enabled := on, spurious := spurious));
  }

  lemma InterruptedOrder<T>(e: Ep<T>)
    requires InOrder(e) && Interrupted(e).Ok?
    ensures InOrder(Interrupted(e).ep)
  {
    hide SubmitHead, ReadResult, Reaped, Ends, Remove, InOrder;
    if ReadResult(e.ch) >= 0 {
      ChannelOrder(e, Reaped(e.ch), e.enabled, e.spurious);
      if e.queue != [] {
        var v, rc, r := e.(ch := Reaped(e.ch)), ReadResult(e.ch), e.queue[0].req;
        if Ends(r, rc) {
          HeadOrder(v, Ended(r, rc));
          var w := v.(queue := v.queue[0 := v.queue[0].(req := Ended(r, rc))]);
          RemoveHeadOrder(w, 0);
          SubmitOrder(Remove(w, 0, 0, false));
        } else {
          HeadOrder(v, Continued(r, rc));
          SubmitOrder(v.(queue := v.queue[0 := v.queue[0].(req := Continued(r, rc))]));
        }
      }
    }
  }

  lemma StepOrder<T>(e: Ep<T>, event: Event<T>)
    requires InOrder(e) && Step(e, event).Ok?
    ensures InOrder(Step(e, event).ep)
  {
    hide SubmitHead, HwCan, HwDone, ResetChan, Remove, InOrder, Interrupted;
    match event
    case Enable => ChannelOrder(e, ResetChan(e.ch), true, e.spurious);
    case Disable =>
      ChannelOrder(e, ResetChan(e.ch), false, e.spurious);
      RemoveAllOrder(e.(enabled := false, ch := ResetChan(e.ch)));
    case Queue(item) =>
      AppendOrder(e, item);
      if e.enabled && |Appended(e, item).queue| == 1 {
        SubmitOrder(Appended(e, item));
      }
    case Dequeue(id) =>
      ChannelOrder(e, e.ch, e.enabled, e.spurious + [id]);
      if e.queue != [] {
        var i := Position(e.queue, id);
        RemoveDequeuedOrder(e, i, ESHUTDOWN);
        if i == 0 {
          ChannelOrder(e, ResetChan(e.ch), e.enabled, e.spurious);
          RemoveDequeuedOrder(e.(ch := ResetChan(e.ch)), 0, ESHUTDOWN);
          SubmitOrder(Remove(e.(ch := ResetChan(e.ch)), 0, ESHUTDOWN, true));
        }
      }
    case DataIsr => InterruptedOrder(e);
    case Hardware(k, bytes) =>
      if HwCan(e.ch, k, bytes) {
        ChannelOrder(e, HwDone(e.ch, k, bytes), e.enabled, e.spurious);
      }
  }

  // Over every run that does not go wrong: the requests that are not dequeued complete in
  // the order in which they were accepted.
  lemma {:induction false} RunOrder<T>(e: Ep<T>, events: seq<Event<T>>)
    requires InOrder(e) && Run(e, events).Ok?
    ensures InOrder(Run(e, events).ep)
    decreases |events|
  {
    hide Step, InOrder;
    if events != [] {
      StepOrder(e, events[0]);
      RunOrder(Step(e, events[0]).ep, events[1..]);
    }
  }

  lemma NoneDone<T>()
    ensures DoneIds<T>([]) == [] && Kept<T>([]) == []
  {
  }

  lemma DoneMore<T>(ds: seq<Done<T>>, d: Done<T>)
    ensures DoneIds(ds + [d]) == DoneIds(ds) + [d.id]
  {
  }

  lemma KeptAllOf<T>(ds: seq<Done<T>>)
    requires forall k :: 0 <= k < |ds| ==> !ds[k].dequeued
    ensures Kept(ds) == DoneIds(ds)
    decreases |ds|
  {
    hide DoneIds, Kept;
    if ds == [] {
      NoneDone<T>();
    } else {
      var n := |ds| - 1;
      KeptAllOf(ds[..n]);
      KeptMore(ds[..n], ds[n]);
      DoneMore(ds[..n], ds[n]);
      assert ds[..n] + [ds[n]] == ds;
    }
  }

  // As long as nothing has been dequeued, the requests completed and those queued are all
  // the requests accepted, in order.
  lemma PlainOrder<T>(e: Ep<T>)
    requires Inv(e) && InOrder(e) && forall k :: 0 <= k < |e.finished| ==> !e.finished[k].dequeued
    ensures e.accepted == DoneIds(e.finished) + Ids(e.queue)
  {
    hide InFlight, ChanOk;
    var s := Kept(e.finished) + Ids(e.queue);
    KeptAllOf(e.finished);
    var f :| Picks(f, s, e.accepted);
    assert |multiset(e.accepted)| == |multiset(DoneIds(e.finished))| + |multiset(Ids(e.queue))|;
    PicksAll(f, s, e.accepted);
  }
}
