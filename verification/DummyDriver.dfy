/** The emulated FIFO of module DummyFifo as the gadget driver knows it, by the names it has
    for its requests: which calls tell a controller with the shortcut from one without. */
module DummyDriver {
  import opened Basics
  import opened DummyTransfer
  import opened DummyFifo

  // The request that the shared one stands in for.
  function Name(h: Handle, c: nat): Handle { if h == Fifo then Own(c) else h }

  ghost predicate Named(qa: seq<Handle>, qb: seq<Handle>, c: nat) {
    |qa| == |qb| && forall i :: 0 <= i < |qa| ==> qb[i] == Name(qa[i], c)
  }

  ghost predicate AllNamed(a: Machine<Handle>, b: Machine<Handle>, c: nat) {
    |a.queues| == |b.queues| && forall e :: 0 <= e < |a.queues| ==> Named(a.queues[e], b.queues[e], c)
  }

  // a is b but for the shared request, which stands in for c.
  ghost predicate Match(a: Machine<Handle>, b: Machine<Handle>, c: nat) {
    WF(a) && WF(b) && Sim(a, b) && AllNamed(a, b, c)
  }

  // ---- A transfer takes the same places off both queues

  lemma NamedRemoved(qa: seq<Handle>, qb: seq<Handle>, c: nat, at: nat)
    requires Named(qa, qb, c) && at < |qa|
    ensures Named(Removed(qa, at), Removed(qb, at), c)
  {
    RemovedAt(qa, at);
    RemovedAt(qb, at);
    hide Removed;
  }

  lemma NamedTurn(p: Pipe, s: State<Handle>, t: State<Handle>, c: nat)
    requires p.maxpacket > 0 && Valid(s) && Valid(t) && Similar(s, t) && s.at < |s.queue|
    requires Named(s.queue, t.queue, c)
    ensures Named(Turn(p, s, []).0.queue, Turn(p, t, []).0.queue, c)
  {
    SimilarPlan(p, s, t);
    TurnPlan(p, s, []);
    TurnPlan(p, t, []);
    hide Decide, AfterMove, Completed, Valid, Turn, SameRequests;
    match Decide(p, s.urb, s.reqs[s.queue[s.at]], s.limit)
    case Skip =>
    case Stop =>
    case Move(len, short, rescan) =>
      var m, n := AfterMove(p, s, len, short), AfterMove(p, t, len, short);
      SimilarMove(p, s, t, len, short);
      if m.reqs[s.queue[s.at]].status != EINPROGRESS {
        CompletedPlain(m);
        CompletedPlain(n);
        NamedRemoved(s.queue, t.queue, c, s.at);
      }
  }

  lemma {:induction false} NamedRun(p: Pipe, s: State<Handle>, t: State<Handle>, c: nat)
    requires p.maxpacket > 0 && Valid(s) && Valid(t) && Similar(s, t)
    requires s.urb.status == EINPROGRESS && s.at <= |s.queue| && Named(s.queue, t.queue, c)
    ensures Named(Run(p, s, []).queue, Run(p, t, []).queue, c)
    decreases |s.queue|, |s.urb.buf| - s.urb.actual, |s.queue| - s.at
  {
    if s.at < |s.queue| {
      SimilarTurn(p, s, t);
      NamedTurn(p, s, t, c);
      TurnDecreases(p, s, []);
      TurnDecreases(p, t, []);
      TurnValid(p, s, []);
      TurnValid(p, t, []);
      hide Turn, Named;
      var (s', stop) := Turn(p, s, []);
      if !stop {
        NamedRun(p, s', Turn(p, t, []).0, c);
      }
    }
  }

  lemma NamedOne(a: Machine<Handle>, b: Machine<Handle>, c: nat, e: nat, ra: map<Handle, Req>, qa: seq<Handle>,
                 rb: map<Handle, Req>, qb: seq<Handle>)
    requires AllNamed(a, b, c) && e < |a.queues| && Named(qa, qb, c)
    ensures AllNamed(Machine(ra, a.queues[e := qa]), Machine(rb, b.queues[e := qb]), c)
  {
    hide Named;
  }

  lemma NamedDeliver(a: Machine<Handle>, b: Machine<Handle>, c: nat, e: nat, p: Pipe, u: Urb, limit: nat)
    requires Match(a, b, c) && e < |a.queues| && GoodUrb(p, u)
    ensures AllNamed(Deliver(a, e, p, u, limit), Deliver(b, e, p, u, limit), c)
  {
    hide Run, Valid, SameRequests, Named;
    StateValid(a, e, u, limit);
    StateValid(b, e, u, limit);
    var s, t := StateOf(a, e, u, limit), StateOf(b, e, u, limit);
    NamedRun(p, s, t, c);
    var s', t' := Run(p, s, []), Run(p, t, []);
    NamedOne(a, b, c, e, s'.reqs, s'.queue, t'.reqs, t'.queue);
  }

  // ---- One call

  // The call names the request that the shared one stands in for, while the copy is queued
  // and the call could reach the original.
  predicate NamesCopied(a: Machine<Handle>, c: nat, op: Op)
    requires op.e < |a.queues|
  {
    match op
    case Queue(_, id, _) => id == c && Placed(a, Fifo)
    case Dequeue(e, id) => id == c && Fifo in a.queues[e]
    case _ => false
  }

  // Which request the shared one stands in for after the call.
  function Copied(a: Machine<Handle>, ins: seq<bool>, op: Op, c: nat): nat
    requires op.e < |a.queues|
  {
    if op.Queue? && !Placed(a, Own(op.id)) && ViaFifo(a, ins, op.e, op.req) then op.id else c
  }

  // What the host gets during the call.
  function Shown(m: Machine<Handle>, op: Op): seq<(Urb, nat)>
    requires WF(m) && GoodOp(op, |m.queues|)
  {
    if op.Transfer? then
      var t := After(m, op.e, op.pipe, op.urb, op.limit);
      [(t.urb, t.limit)]
    else []
  }

  // A name that is queued on one side is queued in the same place on the other, unless it is
  // that of the copied request.
  lemma NameAt(qa: seq<Handle>, qb: seq<Handle>, c: nat, id: nat)
    requires Named(qa, qb, c)
    ensures Own(id) in qa ==> Own(id) in qb
    ensures Own(id) in qb ==> Own(id) in qa || (id == c && Fifo in qa)
    ensures Fifo in qa ==> Own(c) in qb
  {
    if Own(id) in qa {
      var i :| 0 <= i < |qa| && qa[i] == Own(id);
      assert qb[i] == Own(id);
    }
    if Own(id) in qb {
      var i :| 0 <= i < |qb| && qb[i] == Own(id);
      assert Own(id) == Name(qa[i], c);
    }
    if Fifo in qa {
      var i :| 0 <= i < |qa| && qa[i] == Fifo;
      assert qb[i] == Own(c);
    }
  }

  lemma PlacedAlike(a: Machine<Handle>, b: Machine<Handle>, c: nat, id: nat)
    requires AllNamed(a, b, c)
    ensures Placed(a, Own(id)) ==> Placed(b, Own(id))
    ensures Placed(b, Own(id)) ==> Placed(a, Own(id)) || (id == c && Placed(a, Fifo))
    ensures Placed(a, Fifo) ==> Placed(b, Own(c))
  {
    hide Named;
    forall e | 0 <= e < |a.queues|
      ensures Own(id) in a.queues[e] ==> Own(id) in b.queues[e]
      ensures Own(id) in b.queues[e] ==> Own(id) in a.queues[e] || (id == c && Fifo in a.queues[e])
      ensures Fifo in a.queues[e] ==> Own(c) in b.queues[e]
    {
      NameAt(a.queues[e], b.queues[e], c, id);
    }
  }

  // The copied request is not queued itself.
  lemma CopiedOff(a: Machine<Handle>, b: Machine<Handle>, c: nat)
    requires Match(a, b, c) && Placed(a, Fifo)
    ensures !Placed(a, Own(c))
  {
    hide Sim;
    var f :| 0 <= f < |a.queues| && Fifo in a.queues[f];
    var j :| 0 <= j < |a.queues[f]| && a.queues[f][j] == Fifo;
    assert Named(a.queues[f], b.queues[f], c);
    assert b.queues[f][j] == Own(c);
    forall e, i | 0 <= e < |a.queues| && 0 <= i < |a.queues[e]|
      ensures a.queues[e][i] != Own(c)
    {
      assert Named(a.queues[e], b.queues[e], c);
      assert b.queues[e][i] == Name(a.queues[e][i], c);
    }
  }

  lemma SameIndex(qa: seq<Handle>, qb: seq<Handle>, c: nat, id: nat)
    requires Named(qa, qb, c) && Distinct(qb) && !(id == c && Fifo in qa)
    ensures IndexOf(qa, Own(id)) == IndexOf(qb, Own(id))
  {
    NameAt(qa, qb, c, id);
    var i, j := IndexOf(qa, Own(id)), IndexOf(qb, Own(id));
    if i < |qa| {
      assert qb[i] == Own(id) == qb[j];
    }
  }

  lemma QueueAlike(a: Machine<Handle>, b: Machine<Handle>, c: nat, ins: seq<bool>, e: nat, id: nat, req: Req)
    requires Match(a, b, c) && e < |a.queues| && New(req) && !Placed(a, Own(id)) && !Placed(b, Own(id))
    ensures Match(Queued(a, ins, e, id, req), Append(b, e, Own(id), req),
                  if ViaFifo(a, ins, e, req) then id else c)
  {
    SimQueued(a, b, ins, e, id, req, Own(id));
    QueueNamed(a, b, c, ins, e, id, req);
    hide WF, Sim, AllNamed, Queued, Append;
  }

  lemma QueueNamed(a: Machine<Handle>, b: Machine<Handle>, c: nat, ins: seq<bool>, e: nat, id: nat, req: Req)
    requires AllNamed(a, b, c) && e < |a.queues|
    ensures AllNamed(Queued(a, ins, e, id, req), Append(b, e, Own(id), req),
                     if ViaFifo(a, ins, e, req) then id else c)
  {
    var d := if ViaFifo(a, ins, e, req) then id else c;
    forall f | 0 <= f < |a.queues|
      ensures Named(a.queues[f], b.queues[f], d)
    {
      assert Named(a.queues[f], b.queues[f], c);
      if ViaFifo(a, ins, e, req) {
        assert Fifo !in a.queues[f];
      }
    }
    hide ViaFifo;
    var h := if ViaFifo(a, ins, e, req) then Fifo else Own(id);
    assert Named(a.queues[e] + [h], b.queues[e] + [Own(id)], d);
  }

  // The two controllers give different codes exactly when the call names the copied
  // request; otherwise the host gets the same as well, and they go on alike.
  lemma CallExactly(a: Machine<Handle>, b: Machine<Handle>, c: nat, ins: seq<bool>, op: Op)
    requires Match(a, b, c) && GoodOp(op, |a.queues|)
    ensures |a.queues| == |b.queues|
    ensures Step(a, ins, op).1 != Step(b, [], op).1 <==> NamesCopied(a, c, op)
    ensures !NamesCopied(a, c, op) ==>
              && Shown(a, op) == Shown(b, op)
              && Match(Step(a, ins, op).0, Step(b, [], op).0, Copied(a, ins, op, c))
  {
    match op
    case Queue(e, id, req) =>
      QueueCall(a, b, c, ins, e, id, req);
    case Transfer(e, pipe, urb, limit) =>
      hide WF, Sim, AllNamed, Deliver, After;
      SimDeliver(a, b, e, pipe, urb, limit);
      NamedDeliver(a, b, c, e, pipe, urb, limit);
    case Dequeue(e, id) =>
      DequeueCall(a, b, c, ins, e, id);
    case Disable(e) =>
      hide Sim;
      SimNuke(a, b, e);
      NamedOne(a, b, c, e, Nuke(a, e).reqs, [], Nuke(b, e).reqs, []);
  }

  lemma QueueCall(a: Machine<Handle>, b: Machine<Handle>, c: nat, ins: seq<bool>, e: nat, id: nat, req: Req)
    requires Match(a, b, c) && e < |a.queues| && New(req)
    ensures
      var op := Op.Queue(e, id, req);
      && |a.queues| == |b.queues|
      && (Step(a, ins, op).1 != Step(b, [], op).1 <==> NamesCopied(a, c, op))
      && (!NamesCopied(a, c, op) ==> Match(Step(a, ins, op).0, Step(b, [], op).0, Copied(a, ins, op, c)))
  {
    hide WF, Sim, Placed, Append;
    PlacedAlike(a, b, c, id);
    if Placed(a, Fifo) {
      CopiedOff(a, b, c);
    }
    if !Placed(a, Own(id)) && !Placed(b, Own(id)) {
      QueueAlike(a, b, c, ins, e, id, req);
    }
  }

  lemma DequeueCall(a: Machine<Handle>, b: Machine<Handle>, c: nat, ins: seq<bool>, e: nat, id: nat)
    requires Match(a, b, c) && e < |a.queues|
    ensures
      var op := Op.Dequeue(e, id);
      && |a.queues| == |b.queues|
      && (Step(a, ins, op).1 != Step(b, [], op).1 <==> NamesCopied(a, c, op))
      && (!NamesCopied(a, c, op) ==> Match(Step(a, ins, op).0, Step(b, [], op).0, c))
  {
    hide Sim, Named, Drop;
    QueueOf(b, e);
    NameAt(a.queues[e], b.queues[e], c, id);
    if id == c && Fifo in a.queues[e] {
      CopiedOff(a, b, c);
    } else {
      SameIndex(a.queues[e], b.queues[e], c, id);
      var i := IndexOf(a.queues[e], Own(id));
      if i < |a.queues[e]| {
        SimDrop(a, b, e, i);
        DropNamed(a, b, c, e, i);
      }
    }
  }

  lemma DropNamed(a: Machine<Handle>, b: Machine<Handle>, c: nat, e: nat, i: nat)
    requires WF(a) && WF(b) && AllNamed(a, b, c) && e < |a.queues| && i < |a.queues[e]| && i < |b.queues[e]|
    ensures AllNamed(Drop(a, e, i), Drop(b, e, i), c)
  {
    hide Removed, WF;
    NamedRemoved(a.queues[e], b.queues[e], c, i);
    NamedOne(a, b, c, e, Drop(a, e, i).reqs, Removed(a.queues[e], i), Drop(b, e, i).reqs, Removed(b.queues[e], i));
  }

  // ---- Whole runs

  // What the driver and the host are told, call by call; a controller without IN endpoints
  // never takes the shortcut.
  function Answers(m: Machine<Handle>, ins: seq<bool>, ops: seq<Op>): seq<(int, seq<(Urb, nat)>)>
    requires WF(m) && forall k :: 0 <= k < |ops| ==> GoodOp(ops[k], |m.queues|)
    decreases |ops|
  {
    if ops == [] then []
    else
      StepWF(m, ins, ops[0]);
      [(Step(m, ins, ops[0]).1, Shown(m, ops[0]))] + Answers(Step(m, ins, ops[0]).0, ins, ops[1..])
  }

  // Some call names the copied request while the copy is queued.
  predicate SomeNames(a: Machine<Handle>, c: nat, ins: seq<bool>, ops: seq<Op>)
    requires WF(a) && forall k :: 0 <= k < |ops| ==> GoodOp(ops[k], |a.queues|)
    decreases |ops|
  {
    if ops == [] then false
    else
      StepWF(a, ins, ops[0]);
      || NamesCopied(a, c, ops[0])
      || SomeNames(Step(a, ins, ops[0]).0, Copied(a, ins, ops[0], c), ins, ops[1..])
  }

  // The driver and the host are told the same with and without the shortcut, in every call
  // of a run, exactly when no call names a copied request while its copy is queued.
  lemma {:induction false} AnswersExactly(a: Machine<Handle>, b: Machine<Handle>, c: nat, ins: seq<bool>, ops: seq<Op>)
    requires Match(a, b, c) && |a.queues| == |b.queues| && forall k :: 0 <= k < |ops| ==> GoodOp(ops[k], |a.queues|)
    ensures Answers(a, ins, ops) == Answers(b, [], ops) <==> !SomeNames(a, c, ins, ops)
    decreases |ops|
  {
    hide Match, Step, Shown, NamesCopied, Copied;
    if ops != [] {
      MatchWF(a, b, c);
      StepWF(a, ins, ops[0]);
      StepWF(b, [], ops[0]);
      CallExactly(a, b, c, ins, ops[0]);
      var x := [(Step(a, ins, ops[0]).1, Shown(a, ops[0]))] + Answers(Step(a, ins, ops[0]).0, ins, ops[1..]);
      var y := [(Step(b, [], ops[0]).1, Shown(b, ops[0]))] + Answers(Step(b, [], ops[0]).0, [], ops[1..]);
      assert x[1..] == Answers(Step(a, ins, ops[0]).0, ins, ops[1..]);
      assert y[1..] == Answers(Step(b, [], ops[0]).0, [], ops[1..]);
      if !NamesCopied(a, c, ops[0]) {
        AnswersExactly(Step(a, ins, ops[0]).0, Step(b, [], ops[0]).0, Copied(a, ins, ops[0], c), ins, ops[1..]);
        assert x[0] == y[0];
      } else {
        assert x[0].0 != y[0].0;
      }
    }
  }

  lemma MatchWF(a: Machine<Handle>, b: Machine<Handle>, c: nat)
    requires Match(a, b, c)
    ensures WF(a) && WF(b)
  {
  }

  lemma AnswersFromStart(count: nat, ins: seq<bool>, ops: seq<Op>)
    requires forall k :: 0 <= k < |ops| ==> GoodOp(ops[k], count)
    ensures
      var a := Idle<Handle>(count);
      WF(a) && (Answers(a, ins, ops) == Answers(a, [], ops) <==> !SomeNames(a, 0, ins, ops))
  {
    AnswersExactly(Idle<Handle>(count), Idle<Handle>(count), 0, ins, ops);
  }

  // ---- What the driver finds in its requests

  // Nothing but queue e and some requests has changed.
  predicate OnlyQueue(m: Machine<Handle>, n: Machine<Handle>, e: nat) {
    |n.queues| == |m.queues| && forall f :: 0 <= f < |m.queues| && f != e ==> n.queues[f] == m.queues[f]
  }

  // A small request for the host, on an IN endpoint with an empty queue while the shared
  // request is free, is complete at once, all of its bytes counted, and the shared one is
  // queued with the same bytes from the first; any other waits at the end of the queue.
  lemma QueueTells(m: Machine<Handle>, ins: seq<bool>, e: nat, id: nat, req: Req)
    requires WF(m) && e < |m.queues| && New(req) && !Placed(m, Own(id))
    ensures
      var (n, code, _) := Step(m, ins, Op.Queue(e, id, req));
      && code == 0 && OnlyQueue(m, n, e)
      && if e < |ins| && ins[e] && !Placed(m, Fifo) && m.queues[e] == [] && |req.buf| <= 64 then
           && n.queues[e] == [Fifo] && n.reqs.Keys == m.reqs.Keys + {Own(id), Fifo}
           && n.reqs[Own(id)] == req.(actual := |req.buf|, status := 0)
           && n.reqs[Fifo] == req && req.actual == 0
           && forall h :: h in m.reqs && h != Own(id) && h != Fifo ==> n.reqs[h] == m.reqs[h]
         else
           && n.queues[e] == m.queues[e] + [Own(id)] && n.reqs.Keys == m.reqs.Keys + {Own(id)}
           && n.reqs[Own(id)] == req
           && forall h :: h in m.reqs && h != Own(id) ==> n.reqs[h] == m.reqs[h]
  {
    hide WF;
  }

  // A request that is dequeued, and those of an endpoint that is disabled, leave the queue
  // with -ECONNRESET and -ESHUTDOWN; the others stay as they are.
  lemma DequeueTells(m: Machine<Handle>, ins: seq<bool>, e: nat, id: nat)
    requires WF(m) && e < |m.queues|
    ensures
      var (n, code, _) := Step(m, ins, Op.Dequeue(e, id));
      if Own(id) in m.queues[e] then
        && code == 0 && OnlyQueue(m, n, e) && |n.queues[e]| == |m.queues[e]| - 1 && Own(id) !in n.queues[e]
        && (forall h :: h in m.queues[e] && h != Own(id) ==> h in n.queues[e])
        && n.reqs.Keys == m.reqs.Keys && Own(id) in m.reqs
        && n.reqs[Own(id)] == m.reqs[Own(id)].(status := ECONNRESET)
        && (forall h :: h in m.reqs && h != Own(id) ==> n.reqs[h] == m.reqs[h])
      else code == EINVAL && n == m
  {
    var i := IndexOf(m.queues[e], Own(id));
    if i < |m.queues[e]| {
      QueueOf(m, e);
      RemovedIs(m.queues[e], i);
      hide Removed;
    }
  }

  lemma DisableTells(m: Machine<Handle>, ins: seq<bool>, e: nat, h: Handle)
    requires WF(m) && e < |m.queues| && h in m.reqs
    ensures
      var n := Step(m, ins, Op.Disable(e)).0;
      && OnlyQueue(m, n, e) && n.queues[e] == [] && n.reqs.Keys == m.reqs.Keys
      && n.reqs[h] == if h in m.queues[e] then m.reqs[h].(status := ESHUTDOWN) else m.reqs[h]
  {
    hide WF;
  }
}
