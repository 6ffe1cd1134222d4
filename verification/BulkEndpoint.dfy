/** A bulk or interrupt endpoint of gadget/bcm63xx_udc.c on the objects it updates.  Every
    method is one step of the machine of module BulkMachine. */
module BulkEndpoint {
  import opened Basics
  import opened Iudma
  import C = IudmaChannel
  import M = BulkMachine

  // The queue as values, in order.
  function Items(q: seq<C.Request>): (items: seq<M.Item<C.Request>>)
    reads q
    ensures |items| == |q|
    ensures forall i :: 0 <= i < |q| ==> items[i] == M.Item(q[i], q[i].Value())
  {
    if q == [] then [] else Items(q[..|q| - 1]) + [M.Item(q[|q| - 1], q[|q| - 1].Value())]
  }

  class Endpoint {
    const chan: C.Channel
    var queue: seq<C.Request>
    var enabled: bool
    // The list of requests has been damaged: what its links say from then on is unknown.
    ghost var damaged: bool
    ghost var accepted: seq<C.Request>
    ghost var finished: seq<M.Done<C.Request>>
    ghost var spurious: seq<C.Request>

    ghost function Value(): M.Ep<C.Request>
      reads this, chan, chan.ring, queue
    {
      M.Ep(chan.Value(), Items(queue), enabled, accepted, finished, spurious)
    }

    ghost predicate Valid()
      reads this, chan, chan.ring, queue
    {
      !damaged && M.Inv(Value())
    }

    // The step went wrong and damaged the queue, or was the machine's.
    twostate predicate Did(event: M.Event<C.Request>)
      reads this, chan, chan.ring, queue
    {
      match M.Step(old(Value()), event)
      case Ok(e) => Valid() && Value() == e
      case Bug => damaged
    }

    constructor (chan: C.Channel)
      requires ChanOk(chan.Value()) && chan.nBdsUsed == 0
      ensures Valid() && this.chan == chan && queue == [] && !enabled
    {
      this.chan := chan;
      queue, enabled, damaged, accepted, finished, spurious := [], false, false, [], [], [];
    }

    // iudma_write for the request at the head, if there is one.  Its precondition is that
    // the hardware owns no descriptor of the ring.
    method SubmitHead()
      requires M.SubmitHead(Value()).Ok?
      requires forall i, j :: 0 <= i < j < |queue| ==> queue[i] != queue[j]
      modifies chan, chan.ring, queue
      ensures M.SubmitHead(old(Value())) == M.Ok(Value())
    {
      hide Written, Submitted, CanWrite;
      if |queue| > 0 {
        chan.Write(queue[0]);
      }
    }

    // bcm63xx_ep_enable.  BUG_ON(!list_empty(&bep->queue)) does not fire in a valid state.
    method Enable() returns (rc: int)
      requires Valid()
      modifies `enabled, chan, chan.ring
      ensures Valid() && M.Step(old(Value()), M.Enable) == M.Ok(Value())
      ensures rc == if old(enabled) then EINVAL else 0
    {
      hide M.Inv, ResetChan;
      RingFits(Value());
      M.StepKeeps(Value(), M.Enable);
      if enabled {
        return EINVAL;
      }
      enabled := true;
      chan.Reset();
      return 0;
    }

    // bcm63xx_ep_disable.  The callbacks run in queue order and do not re-enter the
    // endpoint.
    method Disable() returns (rc: int)
      requires Valid()
      modifies this, chan, chan.ring, queue
      ensures Valid() && M.Step(old(Value()), M.Disable) == M.Ok(Value())
      ensures rc == if old(enabled) then 0 else EINVAL
    {
      hide M.Inv, M.RemoveAll, M.Step, ResetChan;
      ghost var e := Value();
      RingFits(e);
      M.StepKeeps(e, M.Disable);
      DisableIs(e);
      if !enabled {
        return EINVAL;
      }
      enabled := false;
      chan.Reset();
      CompleteAll();
      return 0;
    }

    // Its loop over the queue.
    method CompleteAll()
      modifies `queue, `finished, queue
      ensures Value() == M.RemoveAll(old(Value()))
    {
      hide M.Remove;
      while |queue| > 0
        invariant M.RemoveAll(Value()) == M.RemoveAll(old(Value()))
        invariant forall i :: 0 <= i < |queue| ==> queue[i] in old(queue)
      {
        Complete(0, ESHUTDOWN, false);
      }
    }

    // list_del, the status, and the completion callback.
    method Complete(i: nat, status: int, ghost dequeued: bool)
      requires i < |queue|
      modifies `queue, `finished, queue
      ensures Value() == M.Remove(old(Value()), i, status, dequeued)
      ensures queue == old(queue[..i] + queue[i + 1..])
    {
      var req := queue[i];
      req.status := status;
      assert Items(queue) == old(Items(queue));
      ItemsRemoved(queue, i);
      queue := queue[..i] + queue[i + 1..];
      finished := finished + [M.Done(req, req.actual, status, dequeued)];
    }

    // bcm63xx_udc_queue.  list_add_tail damages the queue when the request is on it.
    method Queue(req: C.Request) returns (rc: int)
      requires Valid()
      modifies `queue, `accepted, `damaged, chan, chan.ring, req
      ensures Did(M.Queue(M.Item(req, old(req.Value()))))
      ensures rc == if enabled then 0 else ESHUTDOWN
    {
      hide M.Inv, M.SubmitHead, M.Step;
      ghost var e, item := Value(), M.Item(req, req.Value());
      HeldIs(queue, req);
      M.StepExactly(e, M.Queue(item));
      DistinctIds(e);
      QueuedIs(e, item);
      if req in queue {
        req.actual := 0;
        req.status := 0;
        req.offset := 0;
        damaged := true;
        return 0;
      }
      Append(req);
      if !enabled {
        return ESHUTDOWN;
      }
      if |queue| == 1 {
        SubmitHead();
      }
      return 0;
    }

    // The request starts afresh and, on an enabled endpoint, goes to the queue's end.
    method Append(req: C.Request)
      requires req !in queue
      modifies `queue, `accepted, req`actual, req`status, req`offset
      ensures enabled ==> Value() == old(Value()).(
                queue := old(Value()).queue + [M.Item(req, old(req.Value()).(actual := 0, offset := 0))],
                accepted := old(accepted) + [req])
      ensures enabled ==> queue == old(queue) + [req]
      ensures !enabled ==> Value() == old(Value()) && queue == old(queue)
    {
      req.actual := 0;
      req.status := 0;
      req.offset := 0;
      if enabled {
        queue := queue + [req];
        accepted := accepted + [req];
      }
    }

    // Where the list node of a queued request sits.
    method IndexOf(req: C.Request) returns (i: nat)
      requires M.Holds(Items(queue), req)
      requires forall i, j :: 0 <= i < j < |queue| ==> queue[i] != queue[j]
      ensures i < |queue| && queue[i] == req && i == M.Position(Items(queue), req)
    {
      i := 0;
      ghost var at := M.Position(Items(queue), req);
      assert queue[at] == req;
      while queue[i] != req
        invariant i <= at
        decreases at - i
      {
        i := i + 1;
      }
    }

    // bcm63xx_udc_dequeue.  list_del damages the queue when the request is not on it.
    method Dequeue(req: C.Request) returns (rc: int)
      requires Valid()
      modifies this, chan, chan.ring, queue, req
      ensures Did(M.Dequeue(req))
      ensures rc == if old(queue) == [] then EINVAL else 0
    {
      hide M.Inv, M.SubmitHead, M.Step, M.Dequeued, M.Remove, M.Position, ResetChan;
      ghost var e := Value();
      RingFits(e);
      DistinctIds(e);
      HeldIs(queue, req);
      M.StepExactly(e, M.Dequeue(req));
      DequeuedIs(e, req);
      if |queue| == 0 {
        req.status := ESHUTDOWN;
        spurious := spurious + [req];
        return EINVAL;
      }
      if queue[0] == req {
        DequeueHead();
      } else if req in queue {
        DequeueLater(req);
      } else {
        damaged := true;
        req.status := ESHUTDOWN;
      }
      return 0;
    }

    // A request behind the head is taken off; the hardware does not know it yet.
    method DequeueLater(req: C.Request)
      requires M.Holds(Items(queue), req)
      requires forall i, j :: 0 <= i < j < |queue| ==> queue[i] != queue[j]
      modifies `queue, `finished, queue
      ensures Value() == M.Remove(old(Value()), M.Position(old(Value()).queue, req), ESHUTDOWN, true)
    {
      hide M.Remove, M.Position;
      var i := IndexOf(req);
      Complete(i, ESHUTDOWN, true);
    }

    // The request in progress is taken off: the channel stops and the next request starts.
    method DequeueHead()
      requires |queue| > 0 && chan.ring.Length > 0
      requires M.SubmitHead(M.Remove(Value().(ch := ResetChan(chan.Value())), 0, ESHUTDOWN, true)).Ok?
      requires forall i, j :: 0 <= i < j < |queue| ==> queue[i] != queue[j]
      modifies `queue, `finished, chan, chan.ring, queue
      ensures M.SubmitHead(M.Remove(old(Value()).(ch := ResetChan(old(chan.Value()))), 0, ESHUTDOWN, true))
           == M.Ok(Value())
    {
      hide M.SubmitHead, M.Remove, ResetChan;
      chan.Reset();
      Complete(0, ESHUTDOWN, true);
      SubmitHead();
    }

    // bcm63xx_udc_data_isr
    method DataIsr()
      requires Valid()
      modifies this, chan, chan.ring, queue
      ensures Valid() && M.Step(old(Value()), M.DataIsr) == M.Ok(Value())
    {
      hide M.Inv, M.SubmitHead, M.Step, Credited, ReadResult, Reaped, Window;
      ghost var e := Value();
      ChannelFits(e);
      DistinctIds(e);
      M.StepKeeps(e, M.DataIsr);
      InterruptedIs(e);
      var rc := chan.Read();
      assert |e.queue| == |queue|;
      if |queue| > 0 {
        if rc >= 0 {
          HeadIsr(rc);
        }
      }
    }

    // A reaped submission of the request at the head.
    method HeadIsr(rc: nat)
      requires |queue| > 0 && M.SubmitHead(Credited(Value(), rc)).Ok?
      requires forall i, j :: 0 <= i < j < |queue| ==> queue[i] != queue[j]
      modifies `queue, `finished, chan, chan.ring, queue
      ensures M.SubmitHead(Credited(old(Value()), rc)) == M.Ok(Value())
    {
      hide M.SubmitHead, M.Remove, Ends, Ended, Continued;
      ghost var e := Value();
      ghost var r := e.queue[0].req;
      var isDone := Count(queue[0], rc);
      assert Value() == e.(queue := e.queue[0 := e.queue[0].(
                             req := if isDone then Ended(r, rc) else Continued(r, rc))]);
      Carry(isDone);
    }

    // The next submission: of the same request, or of the one behind it.
    method Carry(isDone: bool)
      requires |queue| > 0 && M.SubmitHead(if isDone then M.Remove(Value(), 0, 0, false) else Value()).Ok?
      requires forall i, j :: 0 <= i < j < |queue| ==> queue[i] != queue[j]
      modifies `queue, `finished, chan, chan.ring, queue
      ensures M.SubmitHead(if isDone then M.Remove(old(Value()), 0, 0, false) else old(Value())) == M.Ok(Value())
    {
      hide M.SubmitHead;
      if isDone {
        Complete(0, 0, false);
      }
      SubmitHead();
    }

    // What the interrupt does to the request at the head.
    method Count(req: C.Request, rc: nat) returns (isDone: bool)
      modifies req`actual
      ensures isDone == Ends(old(req.Value()), rc)
      ensures req.Value() == if isDone then Ended(old(req.Value()), rc) else Continued(old(req.Value()), rc)
    {
      req.actual := req.actual + rc;
      isDone := false;
      if req.actual >= req.length || req.bdBytes > rc {
        isDone := true;
        req.actual := Min(req.actual, req.length);
      }
    }
  }

  lemma ChannelFits(e: M.Ep<C.Request>)
    requires M.Inv(e)
    ensures Window(e.ch)
    ensures e.queue == [] ==> ReadResult(e.ch) < 0
  {
  }

  // The head gets rc bytes more, and leaves the queue if that ends it.
  ghost function Credited(e: M.Ep<C.Request>, rc: nat): M.Ep<C.Request>
    requires |e.queue| > 0
  {
    var r := e.queue[0].req;
    var q := if Ends(r, rc) then Ended(r, rc) else Continued(r, rc);
    var v := e.(queue := e.queue[0 := e.queue[0].(req := q)]);
    if Ends(r, rc) then M.Remove(v, 0, 0, false) else v
  }

  lemma InterruptedIs(e: M.Ep<C.Request>)
    requires Window(e.ch) && (e.queue == [] ==> ReadResult(e.ch) < 0)
    ensures
      var rc := ReadResult(e.ch);
      M.Step(e, M.DataIsr) ==
      if rc < 0 then M.Ok(e) else M.SubmitHead(Credited(e.(ch := Reaped(e.ch)), rc))
    ensures ReadResult(e.ch) < 0 ==> Reaped(e.ch) == e.ch
  {
    hide M.SubmitHead, ReadResult, Ends, Ended, Continued, M.Remove;
  }

  lemma ItemsConcat(p: seq<C.Request>, q: seq<C.Request>)
    ensures Items(p + q) == Items(p) + Items(q)
    decreases |q|
  {
    if q == [] {
      assert p + q == p;
    } else {
      var n := |q| - 1;
      assert (p + q)[..|p + q| - 1] == p + q[..n];
      ItemsConcat(p, q[..n]);
    }
  }

  lemma ItemsParts(q: seq<C.Request>, i: nat)
    requires i < |q|
    ensures Items(q) == Items(q[..i]) + (Items([q[i]]) + Items(q[i + 1..]))
    ensures |Items(q[..i])| == i && |Items([q[i]])| == 1
  {
    ItemsLength(q[..i]);
    ItemsLength([q[i]]);
    hide Items;
    var before, after := q[..i], q[i + 1..];
    assert q == before + ([q[i]] + after);
    ItemsConcat(before, [q[i]] + after);
    ItemsConcat([q[i]], after);
  }

  lemma ItemsRemoved(q: seq<C.Request>, i: nat)
    requires i < |q|
    ensures Items(q[..i] + q[i + 1..]) == Items(q)[..i] + Items(q)[i + 1..]
  {
    ItemsParts(q, i);
    ItemsConcat(q[..i], q[i + 1..]);
    CutOut(Items(q[..i]), Items([q[i]]), Items(q[i + 1..]));
  }

  lemma ItemsLength(q: seq<C.Request>)
    ensures |Items(q)| == |q|
  {
  }

  lemma CutOut<T>(a: seq<T>, x: seq<T>, b: seq<T>)
    requires |x| == 1
    ensures (a + (x + b))[..|a|] + (a + (x + b))[|a| + 1..] == a + b
  {
    assert (a + (x + b))[|a| + 1..] == b;
  }

  lemma DisableIs(e: M.Ep<C.Request>)
    ensures M.Step(e, M.Disable) == M.Ok(if !e.enabled then e else M.RemoveAll(e.(enabled := false, ch := ResetChan(e.ch))))
  {
    hide M.RemoveAll, ResetChan;
  }

  lemma QueuedIs(e: M.Ep<C.Request>, item: M.Item<C.Request>)
    ensures
      M.Step(e, M.Queue(item)) ==
      if !e.enabled then M.Ok(e)
      else if M.Holds(e.queue, item.id) then M.Bug
      else if |e.queue| == 0 then M.SubmitHead(M.Appended(e, item))
      else M.Ok(M.Appended(e, item))
  {
    hide M.SubmitHead;
  }

  lemma DequeuedIs(e: M.Ep<C.Request>, id: C.Request)
    ensures
      if e.queue == [] then M.Step(e, M.Dequeue(id)) == M.Ok(e.(spurious := e.spurious + [id]))
      else if !M.Holds(e.queue, id) then M.Step(e, M.Dequeue(id)) == M.Bug && e.queue[0].id != id
      else
        && (M.Position(e.queue, id) == 0 <==> e.queue[0].id == id)
        && M.Step(e, M.Dequeue(id)) ==
           if e.queue[0].id == id then M.SubmitHead(M.Remove(e.(ch := ResetChan(e.ch)), 0, ESHUTDOWN, true))
           else M.Ok(M.Remove(e, M.Position(e.queue, id), ESHUTDOWN, true))
  {
    hide M.SubmitHead, ResetChan;
  }

  lemma RingFits(e: M.Ep<C.Request>)
    requires M.Inv(e)
    ensures |e.ch.ring| > 0
  {
  }

  lemma DistinctIds(e: M.Ep<C.Request>)
    requires M.Inv(e)
    ensures forall i, j :: 0 <= i < j < |e.queue| ==> e.queue[i].id != e.queue[j].id
    ensures e.queue != [] ==> e.enabled
  {
  }

  lemma HeldIs(q: seq<C.Request>, req: C.Request)
    ensures M.Holds(Items(q), req) <==> req in q
  {
    if req in q {
      var i :| 0 <= i < |q| && q[i] == req;
      assert Items(q)[i].id == req;
    }
  }
}
