/** The order in which transfer of gadget/dummy_hcd.c completes the requests of a queue: when
    it is that of the queue, as a condition on the lengths alone. */
module DummyOrder {
  import opened Basics
  import opened Arithmetic
  import opened DummyTransfer

  // ---- Passing over a request

  // One full packet is moved and ends neither side, so the walk goes on to the next request
  // instead of starting again.
  predicate PassesOver(p: Pipe, u: Urb, r: Req, limit: nat)
    requires u.actual <= |u.buf| && r.actual <= |r.buf|
  {
    var room, rest := |u.buf| - u.actual, |r.buf| - r.actual;
    && Min(Min(room, rest), limit) == p.maxpacket
    && (rest > p.maxpacket || r.zero) && (room > p.maxpacket || u.zero)
  }

  // A turn that serves a request leaves it unfinished and goes on to the next exactly when
  // it passes it over.
  lemma PassOverExactly<H>(p: Pipe, s: State<H>, cancels: seq<set<H>>)
    requires p.maxpacket > 0 && Valid(s) && s.urb.status == EINPROGRESS && s.at < |s.queue|
    requires Decide(p, s.urb, s.reqs[s.queue[s.at]], s.limit).Move?
    ensures
      var (t, stop) := Turn(p, s, cancels);
      PassesOver(p, s.urb, s.reqs[s.queue[s.at]], s.limit) <==>
      !stop && t.queue == s.queue && t.at == s.at + 1
  {
    var h := s.queue[s.at];
    TurnPlan(p, s, cancels);
    TurnIs(p, s, cancels);
    MovePlan(p, s.urb, s.reqs[h], s.limit);
    var d := Decide(p, s.urb, s.reqs[h], s.limit);
    MovedStatus(p, s, d.len, d.short);
    hide Decide, AfterMove, Turn, Completed, NextCancel, LeftQueue, Distinct;
  }

  // What the plan for a move is, by the lengths.
  lemma MovePlan(p: Pipe, u: Urb, r: Req, limit: nat)
    requires p.maxpacket > 0 && u.actual <= |u.buf| && r.actual <= |r.buf|
    requires !(p.streams && u.stream != r.stream)
    ensures
      var m := Min(|u.buf| - u.actual, |r.buf| - r.actual);
      var n := Min(m, limit);
      && Decide(p, u, r, limit) ==
         (if m > 0 && limit < p.maxpacket && limit < m then Stop
          else if n < p.maxpacket then Move(n, true, false)
          else Move(n - n % p.maxpacket, false, n > p.maxpacket))
      && (n >= p.maxpacket ==> n - n % p.maxpacket >= p.maxpacket && Aligned(n - n % p.maxpacket, p.maxpacket))
      && (n == p.maxpacket ==> n % p.maxpacket == 0)
  {
    var mp := p.maxpacket;
    var m := Min(|u.buf| - u.actual, |r.buf| - r.actual);
    var n := Min(m, limit);
    if n >= mp {
      WholeIs(n, mp);
    } else if n > 0 {
      AlignedSmall(n, mp);
    }
  }

  lemma WholeIs(n: nat, mp: nat)
    requires 0 < mp <= n
    ensures n - n % mp >= mp && Aligned(n - n % mp, mp)
    ensures n == mp ==> n % mp == 0
  {
    if n > mp {
      WholePackets(n, mp);
    } else {
      AlignedSmall(n, mp);
    }
  }

  // The statuses after a move, by the lengths.
  lemma MovedStatus<H>(p: Pipe, s: State<H>, len: nat, short: bool)
    requires Valid(s) && s.urb.status == EINPROGRESS && s.at < |s.queue|
    requires s.urb.actual + len <= |s.urb.buf| && len <= s.limit
    requires s.reqs[s.queue[s.at]].actual + len <= |s.reqs[s.queue[s.at]].buf|
    ensures
      var h, m := s.queue[s.at], AfterMove(p, s, len, short);
      var room, rest := |s.urb.buf| - s.urb.actual, |s.reqs[h].buf| - s.reqs[h].actual;
      && (m.urb.status != EINPROGRESS <==> short || (len == room && !s.urb.zero))
      && (m.reqs[h].status != EINPROGRESS <==> short || (len == rest && !s.reqs[h].zero))
      && m.urb.zero == s.urb.zero && |m.urb.buf| - m.urb.actual == room - len
      && m.reqs[h].zero == s.reqs[h].zero && |m.reqs[h].buf| - m.reqs[h].actual == rest - len
  {
    hide Copy, Data;
  }

  // ---- The lengths of a queue

  datatype Rest = Rest(left: nat, zero: bool)

  function RestOf(r: Req): Rest
    requires r.actual <= |r.buf|
  {
    Rest(|r.buf| - r.actual, r.zero)
  }

  predicate Fit<H>(reqs: map<H, Req>, q: seq<H>) {
    forall h :: h in q ==> h in reqs && reqs[h].actual <= |reqs[h].buf|
  }

  function RestsOf<H>(reqs: map<H, Req>, q: seq<H>): (ds: seq<Rest>)
    requires Fit(reqs, q)
    ensures |ds| == |q|
  {
    if q == [] then []
    else
      assert forall h :: h in q[1..] ==> h in q;
      [RestOf(reqs[q[0]])] + RestsOf(reqs, q[1..])
  }

  // The lengths from the i-th request on.
  function Rests<H>(s: State<H>, i: nat): (ds: seq<Rest>)
    requires Valid(s) && i <= |s.queue|
    ensures |ds| == |s.queue| - i
  {
    assert forall h :: h in s.queue[i..] ==> h in s.queue;
    RestsOf(s.reqs, s.queue[i..])
  }

  function Room<H>(s: State<H>): nat
    requires Valid(s)
  {
    |s.urb.buf| - s.urb.actual
  }

  // Whether requests with these lengths complete in their order, when the walk stands at
  // the first of them and nothing has been passed over.
  predicate InOrder(mp: nat, room: nat, limit: nat, urbZero: bool, ds: seq<Rest>)
    requires mp > 0
    decreases |ds|
  {
    if ds == [] then true
    else
      var d, z := ds[0].left, ds[0].zero;
      if Min(Min(room, d), limit) == mp && (d > mp || z) && (room > mp || urbZero) then
        StaysInOrder(mp, room - mp, limit - mp, urbZero, ds[1..])
      else if 0 < d <= Min(room, limit) && Aligned(d, mp) && !z && (d < room || urbZero) then
        InOrder(mp, room - d, limit - d, urbZero, ds[1..])
      else true
  }

  // The same once a request before them has been passed over: none of them may complete.
  predicate StaysInOrder(mp: nat, room: nat, limit: nat, urbZero: bool, ds: seq<Rest>)
    requires mp > 0
    decreases |ds|
  {
    if ds == [] then true
    else
      var d, z := ds[0].left, ds[0].zero;
      var m := Min(room, d);
      var n := Min(m, limit);
      if m > 0 && limit < mp && limit < m then true
      else if n < mp || (n == d && Aligned(d, mp) && !z) then false
      else if n == mp && (room > mp || urbZero) then StaysInOrder(mp, room - mp, limit - mp, urbZero, ds[1..])
      else true
  }

  lemma RestsSame<H>(reqs: map<H, Req>, reqs': map<H, Req>, q: seq<H>)
    requires Fit(reqs, q) && Fit(reqs', q) && forall h :: h in q ==> RestOf(reqs'[h]) == RestOf(reqs[h])
    ensures RestsOf(reqs', q) == RestsOf(reqs, q)
  {
    if q != [] {
      assert forall h :: h in q[1..] ==> h in q;
      RestsSame(reqs, reqs', q[1..]);
    }
  }

  lemma RestsFirst<H>(s: State<H>, i: nat)
    requires Valid(s) && i < |s.queue|
    ensures Rests(s, i) != [] && Rests(s, i)[0] == RestOf(s.reqs[s.queue[i]]) && Rests(s, i)[1..] == Rests(s, i + 1)
  {
    assert s.queue[i..][1..] == s.queue[i + 1..];
  }

  // The rest of a queue is as it was when none of its requests has changed.
  lemma RestsAt<H>(s: State<H>, t: State<H>, i: nat, j: nat)
    requires Valid(s) && Valid(t) && i <= |s.queue| && j <= |t.queue| && t.queue[j..] == s.queue[i..]
    requires forall h :: h in s.queue[i..] ==> h in s.reqs && h in t.reqs && RestOf(t.reqs[h]) == RestOf(s.reqs[h])
    ensures Rests(t, j) == Rests(s, i)
  {
    assert forall h :: h in s.queue[i..] ==> h in s.queue;
    assert forall h :: h in t.queue[j..] ==> h in t.queue;
    RestsSame(s.reqs, t.reqs, s.queue[i..]);
  }

  // One turn, by the lengths.
  ghost predicate Moves<H>(p: Pipe, s: State<H>, k: nat, rescan: bool, t: State<H>, stop: bool)
    requires Valid(s) && Valid(t) && s.at < |s.queue|
  {
    var h := s.queue[s.at];
    var d := RestOf(s.reqs[h]);
    var finished := d.left == k && !d.zero;
    && k <= Room(s) && k <= d.left && k <= s.limit
    && (stop <==> Room(s) == k && !s.urb.zero) && (!stop ==> t.urb.status == EINPROGRESS)
    && t.done == (if finished then s.done + [h] else s.done)
    && t.queue == (if finished then Removed(s.queue, s.at) else s.queue)
    && t.at == (if finished || rescan then 0 else s.at + 1)
    && Room(t) == Room(s) - k && t.limit == s.limit - k && t.urb.zero == s.urb.zero
    && t.reqs.Keys == s.reqs.Keys && RestOf(t.reqs[h]) == Rest(d.left - k, d.zero)
    && forall x :: x in s.reqs && x != h ==> t.reqs[x] == s.reqs[x]
  }

  lemma TurnByLength<H>(p: Pipe, s: State<H>)
    requires p.maxpacket > 0 && !p.streams && Valid(s) && s.urb.status == EINPROGRESS && s.at < |s.queue|
    ensures
      var h, mp := s.queue[s.at], p.maxpacket;
      var d := RestOf(s.reqs[h]);
      var m := Min(Room(s), d.left);
      var n := Min(m, s.limit);
      var k := n - n % mp;
      var (t, stop) := Turn(p, s, []);
      && Valid(t)
      && if m > 0 && s.limit < mp && s.limit < m then t == s && stop
         else if n < mp then stop && t.done == s.done + [h]
         else mp <= k && Aligned(k, mp) && (n == mp ==> k == n) && Moves(p, s, k, n > mp, t, stop)
  {
    hide Decide, AfterMove, Turn, Completed, Removed, Distinct, Moves, NextCancel;
    var h := s.queue[s.at];
    HeadFits(s);
    MovePlan(p, s.urb, s.reqs[h], s.limit);
    TurnPlan(p, s, []);
    TurnValid(p, s, []);
    var plan := Decide(p, s.urb, s.reqs[h], s.limit);
    if plan.Move? {
      MovedStatus(p, s, plan.len, plan.short);
      MovedOthers(p, s, plan.len, plan.short);
      NoCancel(AfterMove(p, s, plan.len, plan.short));
      NoCancel(s);
      if plan.short {
      } else {
        MovesIs(p, s, plan.len, plan.rescan);
      }
    }
  }

  lemma HeadFits<H>(s: State<H>)
    requires Valid(s) && s.at < |s.queue|
    ensures s.queue[s.at] in s.reqs && s.reqs[s.queue[s.at]].actual <= |s.reqs[s.queue[s.at]].buf|
  {
  }

  lemma NoCancel<H>(s: State<H>)
    ensures NextCancel(s, []) == {}
    ensures s.at < |s.queue| ==> Completed(s, {}).done == s.done + [s.queue[s.at]]
    ensures s.at < |s.queue| ==> Completed(s, {}).urb == s.urb
  {
  }

  // A turn that moves whole packets.
  lemma MovesIs<H>(p: Pipe, s: State<H>, k: nat, rescan: bool)
    requires p.maxpacket > 0 && Valid(s) && s.urb.status == EINPROGRESS && s.at < |s.queue|
    requires Decide(p, s.urb, s.reqs[s.queue[s.at]], s.limit) == Move(k, false, rescan)
    requires s.urb.actual + k <= |s.urb.buf| && k <= s.limit
    requires s.reqs[s.queue[s.at]].actual + k <= |s.reqs[s.queue[s.at]].buf|
    requires Valid(Turn(p, s, []).0)
    ensures Moves(p, s, k, rescan, Turn(p, s, []).0, Turn(p, s, []).1)
  {
    hide Decide, AfterMove, Turn, Completed, Removed, Distinct;
    var m := AfterMove(p, s, k, false);
    TurnPlan(p, s, []);
    MovedStatus(p, s, k, false);
    MovedOthers(p, s, k, false);
    NoCancel(m);
    CompletedPlain(m);
  }

  lemma MovedOthers<H>(p: Pipe, s: State<H>, len: nat, short: bool)
    requires Valid(s) && s.at < |s.queue|
    requires s.urb.actual + len <= |s.urb.buf| && len <= s.limit
    requires s.reqs[s.queue[s.at]].actual + len <= |s.reqs[s.queue[s.at]].buf|
    ensures
      var h, m := s.queue[s.at], AfterMove(p, s, len, short);
      && m.queue == s.queue && m.done == s.done && m.at == s.at && m.limit == s.limit - len
      && m.reqs.Keys == s.reqs.Keys && (forall x :: x in s.reqs && x != h ==> m.reqs[x] == s.reqs[x])
  {
  }

  // ---- The whole loop

  // The requests completed in this call are the first of the queue, in its order.
  ghost predicate Ordered<H>(s: State<H>, t: State<H>) { t.done <= s.done + s.queue }

  lemma {:induction false} DoneGrows<H>(p: Pipe, s: State<H>)
    requires p.maxpacket > 0 && !p.streams && Valid(s) && s.urb.status == EINPROGRESS && s.at <= |s.queue|
    ensures s.done <= Run(p, s, []).done
    decreases |s.queue|, |s.urb.buf| - s.urb.actual, |s.queue| - s.at
  {
    if s.at < |s.queue| {
      TurnDecreases(p, s, []);
      TurnByLength(p, s);
      hide Turn, Rests, RestOf, Removed;
      var (t, stop) := Turn(p, s, []);
      assert s.done <= t.done;
      if !stop {
        DoneGrows(p, t);
      }
    }
  }

  // Completing any request but the first puts the call out of order.
  lemma OutOfOrder<H>(s: State<H>, done: seq<H>)
    requires Distinct(s.queue) && 0 < s.at < |s.queue| && s.done + [s.queue[s.at]] <= done
    ensures !(done <= s.done + s.queue)
  {
    assert done[|s.done|] == s.queue[s.at] != s.queue[0] == (s.done + s.queue)[|s.done|];
  }

  lemma FirstDone<H>(s: State<H>, done: seq<H>)
    requires s.queue != [] && done == s.done + [s.queue[0]]
    ensures done <= s.done + s.queue
  {
  }

  // A request whose rest is smaller than a packet, or for which nothing is left, is the
  // last that a call serves in order.
  lemma LastServed(mp: nat, room: nat, limit: nat, urbZero: bool, ds: seq<Rest>)
    requires mp > 0 && ds != [] && Min(Min(room, ds[0].left), limit) < mp
    ensures InOrder(mp, room, limit, urbZero, ds)
  {
    if 0 < ds[0].left <= Min(room, limit) && Aligned(ds[0].left, mp) {
      AlignedSmall(ds[0].left, mp);
    }
  }

  // A multiple of maxpacket that fits both sides is moved whole.
  lemma WholeMove(mp: nat, d: nat, n: nat)
    requires mp > 0 && mp <= n <= d
    ensures n - n % mp == d <==> n == d && Aligned(d, mp)
    ensures n - (n - n % mp) < mp && n - n % mp <= n
  {
  }

  // The two conditions when the first request gets whole packets.
  lemma WholeInOrder(mp: nat, room: nat, limit: nat, urbZero: bool, ds: seq<Rest>)
    requires mp > 0 && ds != [] && Min(Min(room, ds[0].left), limit) >= mp
    ensures
      var n := Min(Min(room, ds[0].left), limit);
      var k := n - n % mp;
      var finished, stop := ds[0].left == k && !ds[0].zero, room == k && !urbZero;
      && InOrder(mp, room, limit, urbZero, ds) ==
         (if stop then true
          else if finished then InOrder(mp, room - k, limit - k, urbZero, ds[1..])
          else if n == mp then StaysInOrder(mp, room - k, limit - k, urbZero, ds[1..])
          else true)
      && StaysInOrder(mp, room, limit, urbZero, ds) ==
         (if finished then false
          else if stop || n > mp then true
          else StaysInOrder(mp, room - k, limit - k, urbZero, ds[1..]))
  {
    var n := Min(Min(room, ds[0].left), limit);
    WholeMove(mp, ds[0].left, n);
    AlignedSmall(mp, mp);
    if n == mp {
      assert n % mp == 0;
    }
  }

  lemma RunIs<H>(p: Pipe, s: State<H>)
    requires p.maxpacket > 0 && !p.streams && Valid(s) && s.urb.status == EINPROGRESS && s.at <= |s.queue|
    ensures s.at == |s.queue| ==> Run(p, s, []) == s
    ensures s.at < |s.queue| ==>
              var (t, stop) := Turn(p, s, []);
              && Valid(t) && t.at <= |t.queue| && |t.urb.buf| == |s.urb.buf|
              && (!stop ==> t.urb.status == EINPROGRESS)
              && (if stop then Run(p, s, []) == t else Run(p, s, []) == Run(p, t, []) && s.done <= t.done <= Run(p, t, []).done)
  {
    if s.at < |s.queue| {
      TurnDecreases(p, s, []);
      TurnValid(p, s, []);
      TurnByLength(p, s);
      hide Turn, Rests, RestOf, Removed;
      var (t, stop) := Turn(p, s, []);
      if !stop {
        DoneGrows(p, t);
      }
    }
  }

  // The walk stands at request i with lengths d; what it can move is n.
  ghost predicate Facing<H>(p: Pipe, s: State<H>, d: Rest, n: nat)
    requires Valid(s)
  {
    && p.maxpacket > 0 && !p.streams && s.urb.status == EINPROGRESS && s.at < |s.queue|
    && Rests(s, s.at) == [d] + Rests(s, s.at + 1) && RestOf(s.reqs[s.queue[s.at]]) == d
    && n == Min(Min(Room(s), d.left), s.limit)
  }

  // The lengths of later requests after whole packets have been moved.
  lemma RestsLater<H>(p: Pipe, s: State<H>, k: nat, rescan: bool, t: State<H>, stop: bool)
    requires Valid(s) && Valid(t) && s.at < |s.queue| && Moves(p, s, k, rescan, t, stop) && t.queue == s.queue
    ensures Rests(t, s.at + 1) == Rests(s, s.at + 1)
  {
    LaterIs(s);
    hide Rests, RestOf, Valid;
    RestsAt(s, t, s.at + 1, s.at + 1);
  }

  lemma LaterIs<H>(s: State<H>)
    requires Valid(s) && s.at < |s.queue|
    ensures forall x :: x in s.queue[s.at + 1..] ==> x in s.reqs && x != s.queue[s.at]
  {
  }

  // When the head has gone, the others are the queue.
  lemma RestsGone<H>(p: Pipe, s: State<H>, k: nat, rescan: bool, t: State<H>, stop: bool)
    requires Valid(s) && Valid(t) && s.at == 0 < |s.queue| && Moves(p, s, k, rescan, t, stop)
    requires t.queue == Removed(s.queue, 0)
    ensures t.queue == s.queue[1..] && Rests(t, 0) == Rests(s, 1)
  {
    LaterIs(s);
    RemovedFirst(s.queue);
    hide Rests, RestOf, Valid, Removed;
    assert t.queue[0..] == s.queue[1..];
    RestsAt(s, t, 1, 0);
  }

  // The head's own length, with the queue as it was.
  lemma RestOfHead<H>(p: Pipe, s: State<H>, k: nat, rescan: bool, t: State<H>, stop: bool)
    requires Valid(s) && Valid(t) && s.at < |s.queue| && Moves(p, s, k, rescan, t, stop) && t.queue == s.queue
    ensures Rests(t, 0) != [] && Rests(s, 0) != []
    ensures Rests(t, 0)[0].left == Rests(s, 0)[0].left - if s.at == 0 then k else 0
  {
    RestsFirst(s, 0);
    RestsFirst(t, 0);
    HeadFits(s);
    hide Rests;
  }

  // What the head's whole packets leave.
  lemma HeadMoved<H>(p: Pipe, s: State<H>, d: Rest, k: nat, rescan: bool, t: State<H>, stop: bool)
    requires Valid(s) && Valid(t) && s.at == 0 < |s.queue| && Moves(p, s, k, rescan, t, stop)
    requires RestOf(s.reqs[s.queue[0]]) == d && Rests(s, 0) != [] && Rests(s, 0)[0] == d
    ensures (stop <==> Room(s) == k && !s.urb.zero) && (!stop ==> t.urb.status == EINPROGRESS)
    ensures Room(t) == Room(s) - k && t.limit == s.limit - k && t.urb.zero == s.urb.zero
    ensures t.done + t.queue == s.done + s.queue
    ensures t.done <= s.done + s.queue
    ensures if d.left == k && !d.zero then t.at == 0 && Rests(t, 0) == Rests(s, 1)
            else
              && t.at == (if rescan then 0 else 1) && t.queue == s.queue
              && Rests(t, 1) == Rests(s, 1) && Rests(t, 0) != [] && Rests(t, 0)[0].left == d.left - k
  {
    hide Rests, RestOf, Valid, Removed;
    if d.left == k && !d.zero {
      RestsGone(p, s, k, rescan, t, stop);
      assert s.done + s.queue == (s.done + [s.queue[0]]) + s.queue[1..];
    } else {
      RestOfHead(p, s, k, rescan, t, stop);
      RestsLater(p, s, k, rescan, t, stop);
    }
  }

  // From the head of the queue.
  lemma {:induction false} RunInOrder<H>(p: Pipe, s: State<H>)
    requires p.maxpacket > 0 && !p.streams && Valid(s) && s.urb.status == EINPROGRESS && s.at == 0
    ensures Ordered(s, Run(p, s, [])) <==> InOrder(p.maxpacket, Room(s), s.limit, s.urb.zero, Rests(s, 0))
    decreases |s.queue|, |s.urb.buf| - s.urb.actual, |s.queue| - s.at, 1
  {
    hide Turn, Run, Rests, RestOf, Removed, StaysInOrder, Moves, Decide;
    RunIs(p, s);
    if s.queue == [] {
    } else {
      RestsFirst(s, 0);
      TurnByLength(p, s);
      var d := RestOf(s.reqs[s.queue[0]]);
      var m := Min(Room(s), d.left);
      var n := Min(m, s.limit);
      if n < p.maxpacket {
        LastServed(p.maxpacket, Room(s), s.limit, s.urb.zero, Rests(s, 0));
        if !(m > 0 && s.limit < p.maxpacket && s.limit < m) {
          FirstDone(s, Turn(p, s, []).0.done);
        }
      } else {
        ServedWhole(p, s, d, n);
      }
    }
  }

  // The head gets whole packets.
  lemma {:induction false} ServedWhole<H>(p: Pipe, s: State<H>, d: Rest, n: nat)
    requires Valid(s) && Facing(p, s, d, n) && s.at == 0 && n >= p.maxpacket
    requires Valid(Turn(p, s, []).0)
    requires Moves(p, s, n - n % p.maxpacket, n > p.maxpacket, Turn(p, s, []).0, Turn(p, s, []).1)
    ensures Ordered(s, Run(p, s, [])) <==> InOrder(p.maxpacket, Room(s), s.limit, s.urb.zero, Rests(s, 0))
    decreases |s.queue|, |s.urb.buf| - s.urb.actual, |s.queue| - s.at, 0
  {
    hide Turn, Run, Rests, RestOf, Removed, InOrder, StaysInOrder, Decide, Moves, Valid;
    WholeInOrder(p.maxpacket, Room(s), s.limit, s.urb.zero, Rests(s, 0));
    var mp := p.maxpacket;
    var k := n - n % mp;
    var (t, stop) := Turn(p, s, []);
    RunIs(p, s);
    TurnDecreases(p, s, []);
    WholeMove(mp, d.left, n);
    HeadMoved(p, s, d, k, n > mp, t, stop);
    if !stop {
      if (d.left == k && !d.zero) || n > mp {
        if d.left != k || d.zero {
          LastServed(mp, Room(t), t.limit, t.urb.zero, Rests(t, 0));
        }
        RunInOrder(p, t);
      } else {
        RunStays(p, t);
      }
    }
  }

  // From a later request, with something used up.
  lemma {:induction false} RunStays<H>(p: Pipe, s: State<H>)
    requires p.maxpacket > 0 && !p.streams && Valid(s) && s.urb.status == EINPROGRESS && 0 < s.at <= |s.queue|
    requires Room(s) == 0 || s.limit == 0 || Rests(s, 0)[0].left == 0
    ensures Ordered(s, Run(p, s, [])) <==> StaysInOrder(p.maxpacket, Room(s), s.limit, s.urb.zero, Rests(s, s.at))
    decreases |s.queue|, |s.urb.buf| - s.urb.actual, |s.queue| - s.at, 1
  {
    hide Turn, Run, Rests, RestOf, Removed, InOrder, Moves, Decide;
    RunIs(p, s);
    if s.at == |s.queue| {
    } else {
      RestsFirst(s, s.at);
      TurnByLength(p, s);
      var d := RestOf(s.reqs[s.queue[s.at]]);
      var m := Min(Room(s), d.left);
      var n := Min(m, s.limit);
      if n < p.maxpacket {
        if !(m > 0 && s.limit < p.maxpacket && s.limit < m) {
          QueueDistinct(s);
          OutOfOrder(s, Run(p, s, []).done);
        }
      } else {
        StaysWhole(p, s, d, n);
      }
    }
  }

  lemma {:induction false} StaysWhole<H>(p: Pipe, s: State<H>, d: Rest, n: nat)
    requires Valid(s) && Facing(p, s, d, n) && s.at > 0 && n >= p.maxpacket && Rests(s, 0)[0].left == 0
    requires Valid(Turn(p, s, []).0)
    requires Moves(p, s, n - n % p.maxpacket, n > p.maxpacket, Turn(p, s, []).0, Turn(p, s, []).1)
    ensures Ordered(s, Run(p, s, [])) <==> StaysInOrder(p.maxpacket, Room(s), s.limit, s.urb.zero, Rests(s, s.at))
    decreases |s.queue|, |s.urb.buf| - s.urb.actual, |s.queue| - s.at, 0
  {
    hide Turn, Run, Rests, RestOf, Removed, InOrder, StaysInOrder, Decide, Distinct;
    WholeInOrder(p.maxpacket, Room(s), s.limit, s.urb.zero, Rests(s, s.at));
    var mp := p.maxpacket;
    var k := n - n % mp;
    var (t, stop) := Turn(p, s, []);
    RunIs(p, s);
    TurnDecreases(p, s, []);
    WholeMove(mp, d.left, n);
    QueueDistinct(s);
    if d.left == k && !d.zero {
      OutOfOrder(s, Run(p, s, []).done);
    } else if !stop {
      RestOfHead(p, s, k, n > mp, t, stop);
      if n == mp {
        RestsLater(p, s, k, n > mp, t, stop);
        RunStays(p, t);
      } else {
        LastServed(mp, Room(t), t.limit, t.urb.zero, Rests(t, 0));
        RunInOrder(p, t);
      }
    }
  }

  lemma QueueDistinct<H>(s: State<H>)
    requires Valid(s)
    ensures Distinct(s.queue)
  {
  }

  // Without streams, and with callbacks that dequeue nothing, a call completes requests in
  // the order of the queue exactly when their lengths, the URB's room and the budget say so.
  lemma OrderExactly<H>(p: Pipe, s: State<H>)
    requires p.maxpacket > 0 && !p.streams && Start(s)
    ensures
      var t := Run(p, s, []);
      t.done <= s.queue <==> InOrder(p.maxpacket, |s.urb.buf| - s.urb.actual, s.limit, s.urb.zero, Rests(s, 0))
  {
    hide Run, Rests, InOrder;
    RunInOrder(p, s);
    assert [] + s.queue == s.queue;
  }

  // No turn of the call passes a request over.
  predicate NeverPasses<H>(p: Pipe, s: State<H>)
    requires p.maxpacket > 0 && Valid(s) && s.urb.status == EINPROGRESS && s.at <= |s.queue|
    decreases |s.queue|, |s.urb.buf| - s.urb.actual, |s.queue| - s.at
  {
    if s.at == |s.queue| then true
    else
      TurnDecreases(p, s, []);
      TurnValid(p, s, []);
      var r := s.reqs[s.queue[s.at]];
      var (t, stop) := Turn(p, s, []);
      !(Decide(p, s.urb, r, s.limit).Move? && PassesOver(p, s.urb, r, s.limit)) && (stop || NeverPasses(p, t))
  }

  // Then the walk never leaves the head of the queue.
  lemma {:induction false} NeverPassesOrder<H>(p: Pipe, s: State<H>)
    requires p.maxpacket > 0 && !p.streams && Valid(s) && s.urb.status == EINPROGRESS && s.at == 0
    requires NeverPasses(p, s)
    ensures Ordered(s, Run(p, s, []))
    decreases |s.queue|, |s.urb.buf| - s.urb.actual
  {
    hide Run, Turn, Rests, InOrder, StaysInOrder, Removed;
    RunIs(p, s);
    if s.queue != [] {
      RestsFirst(s, 0);
      TurnByLength(p, s);
      TurnDecreases(p, s, []);
      var (t, stop) := Turn(p, s, []);
      NotPassed(p, s);
      if t.done == s.done + [s.queue[0]] {
        FirstDone(s, t.done);
      }
      if !stop {
        NeverPassesOrder(p, t);
      }
    }
  }

  lemma NotPassed<H>(p: Pipe, s: State<H>)
    requires p.maxpacket > 0 && !p.streams && Valid(s) && s.urb.status == EINPROGRESS && s.at == 0 && s.queue != []
    requires NeverPasses(p, s)
    ensures
      var (t, stop) := Turn(p, s, []);
      !stop ==>
        && Valid(t) && t.urb.status == EINPROGRESS && t.at == 0 && NeverPasses(p, t)
        && s.done + s.queue == t.done + t.queue
        && (|t.queue| < |s.queue| || (|t.queue| == |s.queue| && t.urb.actual > s.urb.actual))
  {
    hide Turn, Removed;
    TurnByLength(p, s);
    TurnDecreases(p, s, []);
    TurnValid(p, s, []);
    var (t, stop) := Turn(p, s, []);
    if !stop {
      if t.queue == Removed(s.queue, 0) {
        RemovedFirst(s.queue);
        assert s.done + s.queue == (s.done + [s.queue[0]]) + s.queue[1..];
      }
    }
  }

  lemma RemovedFirst<H>(q: seq<H>)
    requires q != []
    ensures Removed(q, 0) == q[1..] && Removed(q, 0) != q
  {
  }

  // Three ways to fail, with packets of one byte: a request that asks for an empty packet;
  // a budget of one packet and an empty request behind; a URB that asks for an empty packet.
  lemma Failures()
    ensures !InOrder(1, 2, 10, false, [Rest(1, true), Rest(1, false)])
    ensures !InOrder(1, 2, 1, false, [Rest(2, false), Rest(0, false)])
    ensures !InOrder(1, 1, 10, true, [Rest(2, false), Rest(2, false)])
  {
    assert StaysInOrder(1, 1, 9, false, [Rest(1, false)]) == false;
    assert StaysInOrder(1, 1, 0, false, [Rest(0, false)]) == false;
    assert StaysInOrder(1, 0, 9, true, [Rest(2, false)]) == false;
    assert [Rest(1, true), Rest(1, false)][1..] == [Rest(1, false)];
    assert [Rest(2, false), Rest(0, false)][1..] == [Rest(0, false)];
    assert [Rest(2, false), Rest(2, false)][1..] == [Rest(2, false)];
  }
}
