/** The emulated FIFO of dummy_queue in gadget/dummy_hcd.c: one request and one 64-byte
    buffer, shared by all endpoints, stand in for a small IN request so that the gadget
    driver gets it back at once.  The host cannot tell. */
module DummyFifo {
  import opened Basics
  import opened TxPackets
  import opened DummyTransfer

  const FIFO_SIZE: nat := 64

  // Requests by handle, and the queue of each endpoint.
  datatype Machine<H> = Machine(reqs: map<H, Req>, queues: seq<seq<H>>)

  ghost predicate WF<H>(m: Machine<H>) {
    && (forall h :: h in m.reqs ==> m.reqs[h].actual <= |m.reqs[h].buf|)
    && (forall e, i :: 0 <= e < |m.queues| && 0 <= i < |m.queues[e]| ==>
          m.queues[e][i] in m.reqs && m.reqs[m.queues[e][i]].status == EINPROGRESS)
    && OncePlaced(m.queues)
  }

  // No handle is on two queues, or twice on one.
  ghost predicate OncePlaced<H>(qs: seq<seq<H>>) {
    forall e, i, f, j :: 0 <= e < |qs| && 0 <= i < |qs[e]| && 0 <= f < |qs| && 0 <= j < |qs[f]| && qs[e][i] == qs[f][j] ==>
      e == f && i == j
  }

  predicate Placed<H(==)>(m: Machine<H>, h: H) { exists e :: 0 <= e < |m.queues| && h in m.queues[e] }

  // The same queues, request for request, whatever the handles.
  ghost predicate Sim<H, K>(a: Machine<H>, b: Machine<K>)
    requires WF(a) && WF(b)
  {
    && |a.queues| == |b.queues|
    && forall e :: 0 <= e < |a.queues| ==> SameRequests(a.reqs, a.queues[e], b.reqs, b.queues[e])
  }

  ghost predicate SameRequests<H, K>(ra: map<H, Req>, qa: seq<H>, rb: map<K, Req>, qb: seq<K>)
  {
    && |qa| == |qb|
    && forall i :: 0 <= i < |qa| ==> qa[i] in ra && qb[i] in rb && ra[qa[i]] == rb[qb[i]]
  }

  // ---- One transfer on two queues with the same requests

  ghost predicate Similar<H, K>(s: State<H>, t: State<K>) {
    && s.urb == t.urb && s.limit == t.limit && s.at == t.at
    && SameRequests(s.reqs, s.queue, t.reqs, t.queue)
  }

  lemma SimilarMove<H, K>(p: Pipe, s: State<H>, t: State<K>, len: nat, short: bool)
    requires Valid(s) && Valid(t) && Similar(s, t) && s.at < |s.queue|
    requires s.urb.actual + len <= |s.urb.buf| && len <= s.limit
    requires s.reqs[s.queue[s.at]].actual + len <= |s.reqs[s.queue[s.at]].buf|
    ensures Similar(AfterMove(p, s, len, short), AfterMove(p, t, len, short))
    ensures AfterMove(p, s, len, short).reqs[s.queue[s.at]] == AfterMove(p, t, len, short).reqs[t.queue[t.at]]
  {
    hide Copy, Data, UrbStatus, ReqStatus, UrbMoved, ReqMoved;
  }

  lemma SimilarCompleted<H, K>(s: State<H>, t: State<K>)
    requires Similar(s, t) && s.at < |s.queue|
    ensures Similar(Completed(s, {}).(at := 0), Completed(t, {}).(at := 0))
  {
    hide Completed, Kept, Removed;
    CompletedPlain(s);
    CompletedPlain(t);
    RemovedAt(s.queue, s.at);
    RemovedAt(t.queue, t.at);
  }

  lemma SimilarAt<H, K>(s: State<H>, t: State<K>, at: nat)
    requires Similar(s, t)
    ensures Similar(s.(at := at), t.(at := at))
  {
    hide SameRequests;
  }

  lemma SimilarTurn<H, K>(p: Pipe, s: State<H>, t: State<K>)
    requires p.maxpacket > 0 && Valid(s) && Valid(t) && Similar(s, t) && s.at < |s.queue|
    ensures Similar(Turn(p, s, []).0, Turn(p, t, []).0) && Turn(p, s, []).1 == Turn(p, t, []).1
  {
    var r := s.reqs[s.queue[s.at]];
    SimilarPlan(p, s, t);
    TurnPlan(p, s, []);
    TurnPlan(p, t, []);
    hide Decide, AfterMove, Completed, Valid, Turn, SameRequests;
    match Decide(p, s.urb, r, s.limit)
    case Skip => SimilarAt(s, t, s.at + 1);
    case Stop =>
    case Move(len, short, rescan) =>
      var m, n := AfterMove(p, s, len, short), AfterMove(p, t, len, short);
      SimilarMove(p, s, t, len, short);
      if m.reqs[s.queue[s.at]].status != EINPROGRESS {
        SimilarCompleted(m, n);
        CompletedUrb(m);
        CompletedUrb(n);
      } else {
        SimilarAt(m, n, if rescan then 0 else s.at + 1);
      }
  }

  lemma CompletedUrb<H>(s: State<H>)
    requires s.at < |s.queue|
    ensures Completed(s, {}).urb == s.urb
  {
  }

  lemma SimilarPlan<H, K>(p: Pipe, s: State<H>, t: State<K>)
    requires p.maxpacket > 0 && Valid(s) && Valid(t) && Similar(s, t) && s.at < |s.queue|
    ensures s.urb == t.urb && t.at < |t.queue| && s.reqs[s.queue[s.at]] == t.reqs[t.queue[t.at]]
    ensures NextCancel(s, []) == {} && NextCancel(t, []) == {} && s.limit == t.limit && s.at == t.at
  {
  }

  lemma {:induction false} SimilarRun<H, K>(p: Pipe, s: State<H>, t: State<K>)
    requires p.maxpacket > 0 && Valid(s) && Valid(t) && Similar(s, t)
    requires s.urb.status == EINPROGRESS && s.at <= |s.queue|
    ensures Similar(Run(p, s, []), Run(p, t, []))
    decreases |s.queue|, |s.urb.buf| - s.urb.actual, |s.queue| - s.at
  {
    if s.at < |s.queue| {
      SimilarTurn(p, s, t);
      TurnDecreases(p, s, []);
      TurnDecreases(p, t, []);
      TurnValid(p, s, []);
      TurnValid(p, t, []);
      hide Turn;
      var (s', stop) := Turn(p, s, []);
      if !stop {
        SimilarRun(p, s', Turn(p, t, []).0);
      }
    }
  }

  // ---- Operations on either machine

  function Append<H>(m: Machine<H>, e: nat, h: H, r: Req): Machine<H>
    requires e < |m.queues|
  {
    Machine(m.reqs[h := r], m.queues[e := m.queues[e] + [h]])
  }

  function StateOf<H>(m: Machine<H>, e: nat, u: Urb, limit: nat): State<H>
    requires e < |m.queues|
  {
    State(m.reqs, m.queues[e], u, limit, 0, [], [])
  }

  lemma StateValid<H>(m: Machine<H>, e: nat, u: Urb, limit: nat)
    requires WF(m) && e < |m.queues| && u.actual <= |u.buf|
    ensures Valid(StateOf(m, e, u, limit))
  {
  }

  predicate GoodUrb(p: Pipe, u: Urb) {
    p.maxpacket > 0 && u.actual <= |u.buf| && u.status == EINPROGRESS
  }

  function After<H>(m: Machine<H>, e: nat, p: Pipe, u: Urb, limit: nat): State<H>
    requires WF(m) && e < |m.queues| && GoodUrb(p, u)
  {
    StateValid(m, e, u, limit);
    Run(p, StateOf(m, e, u, limit), [])
  }

  function Deliver<H>(m: Machine<H>, e: nat, p: Pipe, u: Urb, limit: nat): Machine<H>
    requires WF(m) && e < |m.queues| && GoodUrb(p, u)
  {
    var t := After(m, e, p, u, limit);
    Machine(t.reqs, m.queues[e := t.queue])
  }

  function Drop<H>(m: Machine<H>, e: nat, i: nat): Machine<H>
    requires WF(m) && e < |m.queues| && i < |m.queues[e]|
  {
    var h := m.queues[e][i];
    Machine(m.reqs[h := m.reqs[h].(status := ECONNRESET)], m.queues[e := Removed(m.queues[e], i)])
  }

  // nuke
  function Nuke<H>(m: Machine<H>, e: nat): Machine<H>
    requires WF(m) && e < |m.queues|
  {
    Machine(map h | h in m.reqs :: if h in m.queues[e] then m.reqs[h].(status := ESHUTDOWN) else m.reqs[h],
            m.queues[e := []])
  }

  predicate New(r: Req) { r.actual == 0 && r.status == EINPROGRESS }

  lemma AppendWF<H>(m: Machine<H>, e: nat, h: H, r: Req)
    requires WF(m) && e < |m.queues| && New(r) && !Placed(m, h)
    ensures WF(Append(m, e, h, r))
  {
    var n := Append(m, e, h, r);
    assert forall f, i :: 0 <= f < |m.queues| && 0 <= i < |m.queues[f]| ==> m.queues[f][i] in m.queues[f];
  }

  lemma QueueOf<H>(m: Machine<H>, e: nat)
    requires WF(m) && e < |m.queues|
    ensures Distinct(m.queues[e])
    ensures forall f, i :: 0 <= f < |m.queues| && 0 <= i < |m.queues[f]| && f != e ==> m.queues[f][i] !in m.queues[e]
  {
  }

  // Taking requests off a queue and changing only those on it.
  lemma ShrinkWF<H>(m: Machine<H>, e: nat, reqs: map<H, Req>, q: seq<H>)
    requires WF(m) && e < |m.queues| && reqs.Keys == m.reqs.Keys && Distinct(q)
    requires forall h :: h in q ==> h in m.queues[e] && reqs[h].status == EINPROGRESS
    requires forall h :: h in reqs ==> reqs[h].actual <= |reqs[h].buf|
    requires forall h :: h in reqs && h !in m.queues[e] ==> reqs[h] == m.reqs[h]
    ensures WF(Machine(reqs, m.queues[e := q]))
  {
    QueueOf(m, e);
    var n := m.queues[e := q];
    forall f, i | 0 <= f < |n| && 0 <= i < |n[f]|
      ensures n[f][i] in reqs && reqs[n[f][i]].status == EINPROGRESS
      ensures f == e <==> n[f][i] in m.queues[e]
    {
      if f == e {
        assert q[i] in q;
      } else {
        assert m.queues[f][i] !in m.queues[e] && m.queues[f][i] in m.reqs;
      }
    }
    forall f, i, g, j | 0 <= f < |n| && 0 <= i < |n[f]| && 0 <= g < |n| && 0 <= j < |n[g]| && n[f][i] == n[g][j]
      ensures f == g && i == j
    {
      assert f == e <==> g == e;
    }
  }

  lemma DeliverWF<H>(m: Machine<H>, e: nat, p: Pipe, u: Urb, limit: nat)
    requires WF(m) && e < |m.queues| && GoodUrb(p, u)
    ensures WF(Deliver(m, e, p, u, limit))
  {
    hide WF, Run, Valid, Carried, Told, Counted;
    StateValid(m, e, u, limit);
    var s := StateOf(m, e, u, limit);
    StartIs(s);
    TransferSafe(p, s, []);
    var t := Run(p, s, []);
    ValidIs(t);
    ShrinkWF(m, e, t.reqs, t.queue);
  }

  lemma StartIs<H>(s: State<H>)
    requires Valid(s) && s.urb.status == EINPROGRESS && s.at == 0 && s.log == [] && s.done == []
    ensures Start(s)
  {
  }

  lemma ValidIs<H>(s: State<H>)
    requires Valid(s)
    ensures Distinct(s.queue)
    ensures forall h :: h in s.queue ==> h in s.reqs && s.reqs[h].status == EINPROGRESS
    ensures forall h :: h in s.reqs ==> s.reqs[h].actual <= |s.reqs[h].buf|
  {
  }

  lemma DropWF<H>(m: Machine<H>, e: nat, i: nat)
    requires WF(m) && e < |m.queues| && i < |m.queues[e]|
    ensures WF(Drop(m, e, i))
  {
    QueueOf(m, e);
    RemovedIs(m.queues[e], i);
    ShrinkWF(m, e, Drop(m, e, i).reqs, Removed(m.queues[e], i));
  }

  lemma NukeWF<H>(m: Machine<H>, e: nat)
    requires WF(m) && e < |m.queues|
    ensures WF(Nuke(m, e))
  {
    ShrinkWF(m, e, Nuke(m, e).reqs, []);
  }

  // ---- They keep the two machines the same

  lemma SimAppend<H, K>(a: Machine<H>, b: Machine<K>, e: nat, h: H, k: K, r: Req)
    requires WF(a) && WF(b) && Sim(a, b) && e < |a.queues| && !Placed(a, h) && !Placed(b, k) && New(r)
    ensures WF(Append(a, e, h, r)) && WF(Append(b, e, k, r)) && Sim(Append(a, e, h, r), Append(b, e, k, r))
  {
    AppendWF(a, e, h, r);
    AppendWF(b, e, k, r);
    var a', b' := Append(a, e, h, r), Append(b, e, k, r);
    forall f | 0 <= f < |a'.queues|
      ensures SameRequests(a'.reqs, a'.queues[f], b'.reqs, b'.queues[f])
    {
      assert SameRequests(a.reqs, a.queues[f], b.reqs, b.queues[f]);
      assert forall i :: 0 <= i < |a.queues[f]| ==> a.queues[f][i] in a.queues[f] && b.queues[f][i] in b.queues[f];
    }
  }

  // One endpoint's queue has changed, and the requests of the others have not.
  lemma SimOne<H, K>(a: Machine<H>, b: Machine<K>, e: nat, ra: map<H, Req>, qa: seq<H>, rb: map<K, Req>, qb: seq<K>)
    requires WF(a) && WF(b) && Sim(a, b) && e < |a.queues|
    requires ra.Keys == a.reqs.Keys && rb.Keys == b.reqs.Keys
    requires forall h :: h in ra && h !in a.queues[e] ==> ra[h] == a.reqs[h]
    requires forall k :: k in rb && k !in b.queues[e] ==> rb[k] == b.reqs[k]
    requires SameRequests(ra, qa, rb, qb)
    requires WF(Machine(ra, a.queues[e := qa])) && WF(Machine(rb, b.queues[e := qb]))
    ensures Sim(Machine(ra, a.queues[e := qa]), Machine(rb, b.queues[e := qb]))
  {
    QueueOf(a, e);
    QueueOf(b, e);
    hide WF;
    forall f | 0 <= f < |a.queues| && f != e
      ensures SameRequests(ra, a.queues[f], rb, b.queues[f])
    {
      assert SameRequests(a.reqs, a.queues[f], b.reqs, b.queues[f]);
    }
  }

  // The host sees the same URB and the same budget used.
  lemma SimDeliver<H, K>(a: Machine<H>, b: Machine<K>, e: nat, p: Pipe, u: Urb, limit: nat)
    requires WF(a) && WF(b) && Sim(a, b) && e < |a.queues| && GoodUrb(p, u)
    ensures After(a, e, p, u, limit).urb == After(b, e, p, u, limit).urb
    ensures After(a, e, p, u, limit).limit == After(b, e, p, u, limit).limit
    ensures WF(Deliver(a, e, p, u, limit)) && WF(Deliver(b, e, p, u, limit))
    ensures Sim(Deliver(a, e, p, u, limit), Deliver(b, e, p, u, limit))
  {
    hide WF, Run, Valid, Carried, Told, Counted, SameRequests;
    DeliverWF(a, e, p, u, limit);
    DeliverWF(b, e, p, u, limit);
    StateValid(a, e, u, limit);
    StateValid(b, e, u, limit);
    var s, t := StateOf(a, e, u, limit), StateOf(b, e, u, limit);
    assert SameRequests(a.reqs, a.queues[e], b.reqs, b.queues[e]);
    SimilarRun(p, s, t);
    StartIs(s);
    StartIs(t);
    TransferSafe(p, s, []);
    TransferSafe(p, t, []);
    var s', t' := Run(p, s, []), Run(p, t, []);
    SimOne(a, b, e, s'.reqs, s'.queue, t'.reqs, t'.queue);
  }

  lemma SimDrop<H, K>(a: Machine<H>, b: Machine<K>, e: nat, i: nat)
    requires WF(a) && WF(b) && Sim(a, b) && e < |a.queues| && i < |a.queues[e]|
    ensures i < |b.queues[e]| && WF(Drop(a, e, i)) && WF(Drop(b, e, i)) && Sim(Drop(a, e, i), Drop(b, e, i))
  {
    assert SameRequests(a.reqs, a.queues[e], b.reqs, b.queues[e]);
    DropWF(a, e, i);
    DropWF(b, e, i);
    RemovedAt(a.queues[e], i);
    RemovedAt(b.queues[e], i);
    QueueOf(a, e);
    QueueOf(b, e);
    var a', b' := Drop(a, e, i), Drop(b, e, i);
    SimOne(a, b, e, a'.reqs, a'.queues[e], b'.reqs, b'.queues[e]);
  }

  lemma SimNuke<H, K>(a: Machine<H>, b: Machine<K>, e: nat)
    requires WF(a) && WF(b) && Sim(a, b) && e < |a.queues|
    ensures WF(Nuke(a, e)) && WF(Nuke(b, e)) && Sim(Nuke(a, e), Nuke(b, e))
  {
    NukeWF(a, e);
    NukeWF(b, e);
    SimOne(a, b, e, Nuke(a, e).reqs, [], Nuke(b, e).reqs, []);
  }

  // ---- The gadget's machine and the plain one

  // A request of the gadget driver, by the driver's name for it, or the shared one.
  datatype Handle = Own(id: nat) | Fifo

  datatype Op = Queue(e: nat, id: nat, req: Req)
              | Transfer(e: nat, pipe: Pipe, urb: Urb, limit: nat)
              | Dequeue(e: nat, id: nat)
              | Disable(e: nat)

  // The same operation for a machine without the shortcut: requests are named by position.
  datatype Act = Put(e: nat, req: Req)
               | Serve(e: nat, pipe: Pipe, urb: Urb, limit: nat)
               | Take(e: nat, i: nat)
               | Clear(e: nat)

  predicate GoodOp(op: Op, n: nat) {
    && op.e < n
    && match op
       case Queue(_, _, req) => New(req)
       case Transfer(_, pipe, urb, _) => GoodUrb(pipe, urb)
       case _ => true
  }

  // ep->desc is set and its address has the direction bit.
  predicate IsIn(ins: seq<bool>, e: nat) { e < |ins| && ins[e] }

  predicate ViaFifo(m: Machine<Handle>, ins: seq<bool>, e: nat, req: Req)
    requires e < |m.queues|
  {
    IsIn(ins, e) && !Placed(m, Fifo) && m.queues[e] == [] && |req.buf| <= FIFO_SIZE
  }

  // dummy_queue: the copy is queued and the original is complete, or the original is
  // queued.
  function Queued(m: Machine<Handle>, ins: seq<bool>, e: nat, id: nat, req: Req): Machine<Handle>
    requires e < |m.queues|
  {
    if ViaFifo(m, ins, e, req) then
      var done := req.(actual := |req.buf|, status := 0);
      Append(m.(reqs := m.reqs[Own(id) := done]), e, Fifo, req)
    else Append(m, e, Own(id), req)
  }

  function IndexOf<H(==)>(q: seq<H>, h: H): (i: nat)
    ensures i <= |q| && (i < |q| <==> h in q) && (i < |q| ==> q[i] == h)
  {
    if q == [] then 0 else if q[0] == h then 0 else 1 + IndexOf(q[1..], h)
  }

  // One operation of the gadget driver or the host: the new machine, what the gadget
  // driver is told, and what the machine without the shortcut would be asked to do.
  function Step(m: Machine<Handle>, ins: seq<bool>, op: Op): (Machine<Handle>, int, seq<Act>)
    requires WF(m) && GoodOp(op, |m.queues|)
  {
    match op
    case Queue(e, id, req) =>
      if Placed(m, Own(id)) then (m, EINVAL, []) else (Queued(m, ins, e, id, req), 0, [Put(e, req)])
    case Transfer(e, pipe, urb, limit) => (Deliver(m, e, pipe, urb, limit), 0, [Serve(e, pipe, urb, limit)])
    case Dequeue(e, id) =>
      var i := IndexOf(m.queues[e], Own(id));
      if i < |m.queues[e]| then (Drop(m, e, i), 0, [Take(e, i)]) else (m, EINVAL, [])
    case Disable(e) => (Nuke(m, e), 0, [Clear(e)])
  }

  // The machine without the shortcut; requests are named by the number of their queueing.
  predicate CanDo(m: Machine<nat>, n: nat, act: Act) {
    && act.e < |m.queues|
    && match act
       case Put(_, req) => New(req) && !Placed(m, n)
       case Serve(_, pipe, urb, _) => GoodUrb(pipe, urb)
       case Take(e, i) => i < |m.queues[e]|
       case Clear(_) => true
  }

  function Do(m: Machine<nat>, n: nat, act: Act): Machine<nat>
    requires WF(m) && CanDo(m, n, act)
  {
    match act
    case Put(e, req) => Append(m, e, n, req)
    case Serve(e, pipe, urb, limit) => Deliver(m, e, pipe, urb, limit)
    case Take(e, i) => Drop(m, e, i)
    case Clear(e) => Nuke(m, e)
  }

  // What the host gets from a transfer: the URB's bytes, count and status, and the budget
  // that is left.
  function Seen<H>(m: Machine<H>, act: Act): seq<(Urb, nat)>
    requires WF(m) && act.e < |m.queues| && (act.Serve? ==> GoodUrb(act.pipe, act.urb))
  {
    if act.Serve? then
      var t := After(m, act.e, act.pipe, act.urb, act.limit);
      [(t.urb, t.limit)]
    else []
  }

  lemma StepWF(m: Machine<Handle>, ins: seq<bool>, op: Op)
    requires WF(m) && GoodOp(op, |m.queues|)
    ensures WF(Step(m, ins, op).0) && |Step(m, ins, op).0.queues| == |m.queues|
  {
    match op
    case Queue(e, id, req) =>
      if !Placed(m, Own(id)) {
        if ViaFifo(m, ins, e, req) {
          var done := req.(actual := |req.buf|, status := 0);
          OffQueueWF(m, Own(id), done);
          AppendWF(m.(reqs := m.reqs[Own(id) := done]), e, Fifo, req);
        } else {
          AppendWF(m, e, Own(id), req);
        }
      }
    case Transfer(e, pipe, urb, limit) => DeliverWF(m, e, pipe, urb, limit);
    case Dequeue(e, id) =>
      if IndexOf(m.queues[e], Own(id)) < |m.queues[e]| {
        DropWF(m, e, IndexOf(m.queues[e], Own(id)));
      }
    case Disable(e) => NukeWF(m, e);
  }

  // A request that is on no queue may change.
  lemma OffQueueWF<H>(m: Machine<H>, h: H, r: Req)
    requires WF(m) && !Placed(m, h) && r.actual <= |r.buf|
    ensures
      var n := m.(reqs := m.reqs[h := r]);
      WF(n) && forall e, i :: 0 <= e < |m.queues| && 0 <= i < |m.queues[e]| ==>
        n.reqs[m.queues[e][i]] == m.reqs[m.queues[e][i]]
  {
    assert forall e, i :: 0 <= e < |m.queues| && 0 <= i < |m.queues[e]| ==> m.queues[e][i] in m.queues[e];
  }

  // The shared request stands in only while it is on no queue, so the queues stay the
  // same request for request.
  lemma SimQueued<K>(a: Machine<Handle>, b: Machine<K>, ins: seq<bool>, e: nat, id: nat, req: Req, n: K)
    requires WF(a) && WF(b) && Sim(a, b) && e < |a.queues| && New(req) && !Placed(a, Own(id)) && !Placed(b, n)
    ensures WF(Queued(a, ins, e, id, req)) && WF(Append(b, e, n, req))
    ensures Sim(Queued(a, ins, e, id, req), Append(b, e, n, req))
  {
    if ViaFifo(a, ins, e, req) {
      var done := req.(actual := |req.buf|, status := 0);
      var c := a.(reqs := a.reqs[Own(id) := done]);
      OffQueueWF(a, Own(id), done);
      assert forall f :: 0 <= f < |a.queues| ==> SameRequests(a.reqs, a.queues[f], b.reqs, b.queues[f]);
      assert Sim(c, b);
      SimAppend(c, b, e, Fifo, n, req);
    } else {
      SimAppend(a, b, e, Own(id), n, req);
    }
  }

  // No handle from n on is used, and the shared request fits its buffer.
  ghost predicate Ready(a: Machine<Handle>, b: Machine<nat>, n: nat) {
    && WF(a) && WF(b) && Sim(a, b)
    && (forall k :: k >= n ==> !Placed(b, k))
    && (Placed(a, Fifo) && Fifo in a.reqs ==> |a.reqs[Fifo].buf| <= FIFO_SIZE)
  }

  lemma SimSize<H, K>(a: Machine<H>, b: Machine<K>)
    requires WF(a) && WF(b) && Sim(a, b)
    ensures |a.queues| == |b.queues| && forall e :: 0 <= e < |a.queues| ==> |a.queues[e]| == |b.queues[e]|
  {
  }

  lemma SimStep(a: Machine<Handle>, b: Machine<nat>, ins: seq<bool>, op: Op, n: nat)
    requires Ready(a, b, n) && GoodOp(op, |a.queues|)
    ensures
      var (a', code, acts) := Step(a, ins, op);
      if acts == [] then a' == a && code == EINVAL
      else
        && |acts| == 1 && code == 0 && CanDo(b, n, acts[0]) && acts[0].e < |a.queues|
        && (acts[0].Serve? ==> GoodUrb(acts[0].pipe, acts[0].urb))
        && WF(a') && WF(Do(b, n, acts[0])) && Sim(a', Do(b, n, acts[0]))
        && Seen(a, acts[0]) == Seen(b, acts[0])
  {
    SimSize(a, b);
    hide WF, Sim, Placed, Queued, After, Deliver, Drop, Nuke, Append;
    match op
    case Queue(e, id, req) =>
      if !Placed(a, Own(id)) {
        SimQueued(a, b, ins, e, id, req, n);
      }
    case Transfer(e, pipe, urb, limit) => SimDeliver(a, b, e, pipe, urb, limit);
    case Dequeue(e, id) =>
      if IndexOf(a.queues[e], Own(id)) < |a.queues[e]| {
        SimDrop(a, b, e, IndexOf(a.queues[e], Own(id)));
      }
    case Disable(e) => SimNuke(a, b, e);
  }

  // ---- Whole runs

  lemma DoWF(m: Machine<nat>, n: nat, act: Act)
    requires WF(m) && CanDo(m, n, act)
    ensures WF(Do(m, n, act))
  {
    match act
    case Put(e, req) => AppendWF(m, e, n, req);
    case Serve(e, pipe, urb, limit) => DeliverWF(m, e, pipe, urb, limit);
    case Take(e, i) => DropWF(m, e, i);
    case Clear(e) => NukeWF(m, e);
  }

  // What the host has seen, and the operations a machine without the shortcut performs.
  function GadgetRun(m: Machine<Handle>, ins: seq<bool>, ops: seq<Op>): (seq<(Urb, nat)>, seq<Act>)
    requires WF(m) && forall k :: 0 <= k < |ops| ==> GoodOp(ops[k], |m.queues|)
    decreases |ops|
  {
    if ops == [] then ([], [])
    else
      StepWF(m, ins, ops[0]);
      var (m', _, acts) := Step(m, ins, ops[0]);
      var seen := if acts == [] then [] else Seen(m, acts[0]);
      var (seen', acts') := GadgetRun(m', ins, ops[1..]);
      (seen + seen', acts + acts')
  }

  function PlainRun(m: Machine<nat>, n: nat, acts: seq<Act>): seq<(Urb, nat)>
    requires WF(m)
    decreases |acts|
  {
    if acts == [] || !CanDo(m, n, acts[0]) then []
    else
      DoWF(m, n, acts[0]);
      Seen(m, acts[0]) + PlainRun(Do(m, n, acts[0]), n + 1, acts[1..])
  }

  // One queue has become shorter; no request has changed its length.
  ghost predicate Shrunk<H>(m: Machine<H>, m': Machine<H>) {
    && |m'.queues| == |m.queues|
    && (forall e, h :: 0 <= e < |m.queues| && h in m'.queues[e] ==> h in m.queues[e])
    && (forall h :: h in m'.reqs ==> h in m.reqs && |m'.reqs[h].buf| == |m.reqs[h].buf|)
  }

  lemma DeliverShrinks<H>(m: Machine<H>, e: nat, p: Pipe, u: Urb, limit: nat)
    requires WF(m) && e < |m.queues| && GoodUrb(p, u)
    ensures Shrunk(m, Deliver(m, e, p, u, limit))
  {
    hide WF, Run, Valid, Carried, Told;
    StateValid(m, e, u, limit);
    StartIs(StateOf(m, e, u, limit));
    TransferSafe(p, StateOf(m, e, u, limit), []);
  }

  lemma DropShrinks<H>(m: Machine<H>, e: nat, i: nat)
    requires WF(m) && e < |m.queues| && i < |m.queues[e]|
    ensures Shrunk(m, Drop(m, e, i))
  {
  }

  lemma NukeShrinks<H>(m: Machine<H>, e: nat)
    requires WF(m) && e < |m.queues|
    ensures Shrunk(m, Nuke(m, e))
  {
  }

  lemma NotPlaced<H>(m: Machine<H>, m': Machine<H>, h: H)
    requires Shrunk(m, m') && !Placed(m, h)
    ensures !Placed(m', h)
  {
    forall e | 0 <= e < |m'.queues|
      ensures h !in m'.queues[e]
    {
      assert h !in m.queues[e];
    }
  }

  lemma NotAppended<H>(m: Machine<H>, e: nat, h: H, r: Req, x: H)
    requires e < |m.queues| && !Placed(m, x) && x != h
    ensures !Placed(Append(m, e, h, r), x)
  {
    var m' := Append(m, e, h, r);
    forall f | 0 <= f < |m'.queues|
      ensures x !in m'.queues[f]
    {
      assert x !in m.queues[f];
    }
  }

  lemma ReadyShrinks(a: Machine<Handle>, b: Machine<nat>, n: nat, a': Machine<Handle>, b': Machine<nat>)
    requires Ready(a, b, n) && Shrunk(a, a') && Shrunk(b, b') && WF(a') && WF(b') && Sim(a', b')
    ensures Ready(a', b', n + 1)
  {
    hide WF, Sim, Placed;
    forall k | k >= n + 1
      ensures !Placed(b', k)
    {
      NotPlaced(b, b', k);
    }
    if !Placed(a, Fifo) {
      NotPlaced(a, a', Fifo);
    }
  }

  lemma ReadyQueued(a: Machine<Handle>, b: Machine<nat>, ins: seq<bool>, e: nat, id: nat, req: Req, n: nat)
    requires Ready(a, b, n) && e < |a.queues| && New(req) && !Placed(a, Own(id))
    requires e < |b.queues| && WF(Queued(a, ins, e, id, req)) && WF(Append(b, e, n, req))
    requires Sim(Queued(a, ins, e, id, req), Append(b, e, n, req))
    ensures Ready(Queued(a, ins, e, id, req), Append(b, e, n, req), n + 1)
  {
    hide WF, Sim, Placed;
    forall k | k >= n + 1
      ensures !Placed(Append(b, e, n, req), k)
    {
      NotAppended(b, e, n, req, k);
    }
    if !ViaFifo(a, ins, e, req) && !Placed(a, Fifo) {
      NotAppended(a, e, Own(id), req, Fifo);
    }
  }

  lemma ReadyStep(a: Machine<Handle>, b: Machine<nat>, ins: seq<bool>, op: Op, n: nat)
    requires Ready(a, b, n) && GoodOp(op, |a.queues|)
    requires Step(a, ins, op).2 != []
    requires CanDo(b, n, Step(a, ins, op).2[0])
    ensures Ready(Step(a, ins, op).0, Do(b, n, Step(a, ins, op).2[0]), n + 1)
  {
    SimStep(a, b, ins, op, n);
    hide WF, Sim, Ready, Placed, Queued, Deliver, Drop, Nuke, Append, Shrunk;
    ReadyParts(a, b, n);
    match op
    case Queue(e, id, req) => ReadyQueued(a, b, ins, e, id, req, n);
    case Transfer(e, pipe, urb, limit) =>
      DeliverShrinks(a, e, pipe, urb, limit);
      DeliverShrinks(b, e, pipe, urb, limit);
      ReadyShrinks(a, b, n, Deliver(a, e, pipe, urb, limit), Deliver(b, e, pipe, urb, limit));
    case Dequeue(e, id) =>
      var i := IndexOf(a.queues[e], Own(id));
      DropShrinks(a, e, i);
      DropShrinks(b, e, i);
      ReadyShrinks(a, b, n, Drop(a, e, i), Drop(b, e, i));
    case Disable(e) =>
      NukeShrinks(a, e);
      NukeShrinks(b, e);
      ReadyShrinks(a, b, n, Nuke(a, e), Nuke(b, e));
  }

  lemma ReadyParts(a: Machine<Handle>, b: Machine<nat>, n: nat)
    requires Ready(a, b, n)
    ensures WF(a) && WF(b) && Sim(a, b)
  {
  }

  // For every run of queueing, transfers, dequeueing and disabling, the host sees what it
  // would see if every request were queued itself.
  lemma {:induction false} Transparent(a: Machine<Handle>, b: Machine<nat>, n: nat, ins: seq<bool>, ops: seq<Op>)
    requires Ready(a, b, n) && forall k :: 0 <= k < |ops| ==> GoodOp(ops[k], |a.queues|)
    ensures GadgetRun(a, ins, ops).0 == PlainRun(b, n, GadgetRun(a, ins, ops).1)
    decreases |ops|
  {
    hide WF, Sim, Ready, Step, Do, Seen, CanDo;
    ReadyParts(a, b, n);
    if ops != [] {
      StepWF(a, ins, ops[0]);
      SimStep(a, b, ins, ops[0], n);
      var (a', _, acts) := Step(a, ins, ops[0]);
      if acts == [] {
        Transparent(a, b, n, ins, ops[1..]);
        assert acts + GadgetRun(a, ins, ops[1..]).1 == GadgetRun(a, ins, ops[1..]).1;
      } else {
        ReadyStep(a, b, ins, ops[0], n);
        Transparent(a', Do(b, n, acts[0]), n + 1, ins, ops[1..]);
        var rest := GadgetRun(a', ins, ops[1..]).1;
        assert acts == [acts[0]];
        assert (acts + rest)[0] == acts[0] && (acts + rest)[1..] == rest;
      }
    }
  }

  // From a controller with nothing queued.
  lemma TransparentFromStart(count: nat, ins: seq<bool>, ops: seq<Op>)
    requires forall k :: 0 <= k < |ops| ==> GoodOp(ops[k], count)
    ensures
      var a, b := Idle<Handle>(count), Idle<nat>(count);
      WF(a) && WF(b) && GadgetRun(a, ins, ops).0 == PlainRun(b, 0, GadgetRun(a, ins, ops).1)
  {
    Transparent(Idle<Handle>(count), Idle<nat>(count), 0, ins, ops);
  }

  function Idle<H>(count: nat): Machine<H> { Machine(map[], seq(count, _ => [])) }

  // ---- dummy_queue on the controller's fields

  class Controller {
    var reqs: map<Handle, Req>
    var queues: seq<seq<Handle>>
    const fifoBuf: array<Byte>
    const ins: seq<bool>

    ghost function Value(): Machine<Handle>
      reads this
    {
      Machine(reqs, queues)
    }

    // While the shared request is queued, the shared buffer has its data.
    ghost predicate Valid()
      reads this, fifoBuf
    {
      && WF(Value()) && fifoBuf.Length == FIFO_SIZE
      && (Placed(Value(), Fifo) && Fifo in reqs ==> reqs[Fifo].buf <= fifoBuf[..])
    }

    constructor (count: nat, ins: seq<bool>)
      ensures Valid() && fresh(fifoBuf) && Value() == Idle(count) && this.ins == ins
    {
      reqs, queues, this.ins, fifoBuf := map[], seq(count, _ => []), ins, new Byte[FIFO_SIZE];
    }

    method Queue(e: nat, id: nat, req: Req) returns (code: int)
      requires Valid() && e < |queues| && New(req)
      modifies this, fifoBuf
      ensures Valid()
      ensures
        var (m, code', _) := Step(old(Value()), ins, Op.Queue(e, id, req));
        Value() == m && code == code'
    {
      hide WF;
      ghost var was := Value();
      StepWF(was, ins, Op.Queue(e, id, req));
      var busy := IsPlaced(Own(id));
      if busy {
        return EINVAL;
      }
      var fifoBusy := IsPlaced(Fifo);
      if e < |ins| && ins[e] && !fifoBusy && queues[e] == [] && |req.buf| <= FIFO_SIZE {
        reqs := reqs[Own(id) := req.(actual := |req.buf|, status := 0)];
        forall i | 0 <= i < |req.buf| {
          fifoBuf[i] := req.buf[i];
        }
        reqs := reqs[Fifo := req];
        queues := queues[e := queues[e] + [Fifo]];
      } else {
        reqs := reqs[Own(id) := req];
        queues := queues[e := queues[e] + [Own(id)]];
        if !fifoBusy {
          NotAppended(was, e, Own(id), req, Fifo);
        } else {
          assert Placed(was, Fifo);
        }
      }
      code := 0;
    }

    method IsPlaced(h: Handle) returns (placed: bool)
      ensures placed <==> Placed(Value(), h)
    {
      placed := false;
      for e := 0 to |queues|
        invariant placed <==> exists f :: 0 <= f < e && h in queues[f]
      {
        if h in queues[e] {
          placed := true;
        }
      }
    }
  }
}
