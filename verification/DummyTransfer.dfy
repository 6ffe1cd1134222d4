/** The loop of transfer in gadget/dummy_hcd.c on values: one URB against the queue of one
    endpoint, within a budget of bytes. */
module DummyTransfer {
  import opened Basics
  import opened Arithmetic
  import opened TxPackets

  datatype Req = Req(buf: seq<Byte>, actual: nat, zero: bool, stream: nat, status: int)

  datatype Urb = Urb(buf: seq<Byte>, actual: nat, zero: bool, stream: nat, status: int)

  datatype Pipe = Pipe(toHost: bool, maxpacket: nat, streams: bool)

  // One copy between the URB and a request.
  datatype Piece<H> = Piece(req: H, data: seq<Byte>)

  // The requests by handle, the endpoint's queue, the URB, the budget, the place in the
  // walk along the queue, the copies made so far and the requests completed so far.
  datatype State<H> = State(reqs: map<H, Req>, queue: seq<H>, urb: Urb, limit: nat, at: nat,
                            log: seq<Piece<H>>, done: seq<H>)

  predicate Distinct<H(==)>(s: seq<H>) { forall i, j :: 0 <= i < j < |s| ==> s[i] != s[j] }

  ghost predicate Valid<H>(s: State<H>) {
    && Distinct(s.queue)
    && (forall h :: h in s.queue ==> h in s.reqs && s.reqs[h].status == EINPROGRESS)
    && (forall h :: h in s.reqs ==> s.reqs[h].actual <= |s.reqs[h].buf|)
    && s.urb.actual <= |s.urb.buf|
  }

  // ---- One turn of the loop

  datatype Plan = Skip | Stop | Move(len: nat, short: bool, rescan: bool)

  // How much to move: whole packets, and the final short one by itself.
  function Decide(p: Pipe, u: Urb, r: Req, limit: nat): Plan
    requires p.maxpacket > 0 && u.actual <= |u.buf| && r.actual <= |r.buf|
  {
    var most := Min(|u.buf| - u.actual, |r.buf| - r.actual);
    if p.streams && u.stream != r.stream then Skip
    else if most == 0 then Move(0, true, false)
    else if limit < p.maxpacket && limit < most then Stop
    else
      var len := Min(most, limit);
      if len == 0 then Stop
      else
        var rescan := len > p.maxpacket;
        var len' := if rescan then len - len % p.maxpacket else len;
        Move(len', len' % p.maxpacket != 0, rescan)
  }

  function Copy(dst: seq<Byte>, at: nat, data: seq<Byte>): (r: seq<Byte>)
    requires at + |data| <= |dst|
    ensures |r| == |dst|
  {
    dst[..at] + data + dst[at + |data|..]
  }

  // A buffer has the data from one place up to another, and is otherwise as it was.
  ghost predicate Filled(was: seq<Byte>, now: seq<Byte>, from: nat, to: nat, data: seq<Byte>) {
    && |now| == |was| && from <= to <= |was|
    && now[..from] == was[..from] && now[from..to] == data && now[to..] == was[to..]
  }

  lemma CopyFills(dst: seq<Byte>, at: nat, data: seq<Byte>)
    requires at + |data| <= |dst|
    ensures Filled(dst, Copy(dst, at, data), at, at + |data|, data)
  {
  }

  function Data(p: Pipe, u: Urb, r: Req, len: nat): (d: seq<Byte>)
    requires u.actual + len <= |u.buf| && r.actual + len <= |r.buf|
    ensures |d| == len
  {
    if p.toHost then r.buf[r.actual..r.actual + len] else u.buf[u.actual..u.actual + len]
  }

  function UrbMoved(p: Pipe, u: Urb, r: Req, len: nat): Urb
    requires u.actual + len <= |u.buf| && r.actual + len <= |r.buf|
  {
    var buf := if p.toHost then Copy(u.buf, u.actual, Data(p, u, r, len)) else u.buf;
    u.(buf := buf, actual := u.actual + len)
  }

  function ReqMoved(p: Pipe, u: Urb, r: Req, len: nat): Req
    requires u.actual + len <= |u.buf| && r.actual + len <= |r.buf|
  {
    var buf := if p.toHost then r.buf else Copy(r.buf, r.actual, Data(p, u, r, len));
    r.(buf := buf, actual := r.actual + len)
  }

  // The URB's status after the move; host and dev are what each side had left before it.
  function UrbStatus(p: Pipe, u: Urb, host: nat, dev: nat, short: bool): int {
    if short then if p.toHost && dev > host then EOVERFLOW else 0
    else if |u.buf| == u.actual && !u.zero then 0
    else u.status
  }

  function ReqStatus(p: Pipe, r: Req, host: nat, dev: nat, short: bool): int {
    if short then if !p.toHost && host > dev then EOVERFLOW else 0
    else if |r.buf| == r.actual && !r.zero then 0
    else r.status
  }

  // The requests of a list that are not cancelled, in order.
  function Kept<H(==)>(queue: seq<H>, cancel: set<H>): seq<H> {
    if queue == [] then []
    else Kept(queue[..|queue| - 1], cancel) + if queue[|queue| - 1] in cancel then [] else [queue[|queue| - 1]]
  }

  function Removed<H(==)>(queue: seq<H>, at: nat): seq<H>
    requires at < |queue|
  {
    queue[..at] + queue[at + 1..]
  }

  function Dequeued<H>(reqs: map<H, Req>, queue: seq<H>, cancel: set<H>): map<H, Req> {
    map h | h in reqs :: if h in queue && h in cancel then reqs[h].(status := ECONNRESET) else reqs[h]
  }

  // Completion of the request under the cursor; its callback dequeues the requests in
  // cancel.
  function Completed<H>(s: State<H>, cancel: set<H>): State<H>
    requires s.at < |s.queue|
  {
    var rest := Removed(s.queue, s.at);
    s.(reqs := Dequeued(s.reqs, rest, cancel), queue := Kept(rest, cancel), done := s.done + [s.queue[s.at]])
  }

  // The set that the callback of the next completion dequeues.
  function NextCancel<H>(s: State<H>, cancels: seq<set<H>>): set<H> {
    if |s.done| < |cancels| then cancels[|s.done|] else {}
  }

  function AfterMove<H>(p: Pipe, s: State<H>, len: nat, short: bool): State<H>
    requires Valid(s) && s.at < |s.queue|
    requires s.urb.actual + len <= |s.urb.buf| && len <= s.limit
    requires s.reqs[s.queue[s.at]].actual + len <= |s.reqs[s.queue[s.at]].buf|
  {
    var h := s.queue[s.at];
    var u, r := s.urb, s.reqs[h];
    var host, dev := |u.buf| - u.actual, |r.buf| - r.actual;
    var u', r' := UrbMoved(p, u, r, len), ReqMoved(p, u, r, len);
    s.(urb := u'.(status := UrbStatus(p, u', host, dev, short)),
       reqs := s.reqs[h := r'.(status := ReqStatus(p, r', host, dev, short))],
       limit := s.limit - len, log := s.log + [Piece(h, Data(p, u, r, len))])
  }

  lemma DecideFits(p: Pipe, u: Urb, r: Req, limit: nat)
    requires p.maxpacket > 0 && u.actual <= |u.buf| && r.actual <= |r.buf|
    ensures
      var starved := limit < p.maxpacket && limit < |u.buf| - u.actual && limit < |r.buf| - r.actual;
      && (Decide(p, u, r, limit).Skip? <==> p.streams && u.stream != r.stream)
      && match Decide(p, u, r, limit)
      case Skip => true
      case Stop => starved
      case Move(len, short, rescan) =>
        && !starved && u.actual + len <= |u.buf| && r.actual + len <= |r.buf| && len <= limit
        && (short ==> !rescan && len == Min(|u.buf| - u.actual, |r.buf| - r.actual))
        && (rescan ==> len > 0)
        && (!short ==> len > 0 && Aligned(len, p.maxpacket))
        && (!short && !rescan ==> len == p.maxpacket)
  {
    var most := Min(|u.buf| - u.actual, |r.buf| - r.actual);
    var len := Min(most, limit);
    if most > 0 && len > p.maxpacket {
      WholePackets(len, p.maxpacket);
    } else if most > 0 && len > 0 {
      AlignedSmall(len, p.maxpacket);
    }
  }

  lemma WholePackets(len: nat, mp: nat)
    requires 0 < mp < len
    ensures len - len % mp > 0 && Aligned(len - len % mp, mp)
  {
    assert len == mp * (len / mp) + len % mp;
    DivModUnique(len - len % mp, mp, len / mp, 0);
  }

  // One turn: the new state, and whether the loop ends.
  function Turn<H>(p: Pipe, s: State<H>, cancels: seq<set<H>>): (State<H>, bool)
    requires p.maxpacket > 0 && Valid(s) && s.at < |s.queue|
  {
    var r := s.reqs[s.queue[s.at]];
    DecideFits(p, s.urb, r, s.limit);
    match Decide(p, s.urb, r, s.limit)
    case Skip => (s.(at := s.at + 1), false)
    case Stop => (s, true)
    case Move(len, short, rescan) =>
      var t := AfterMove(p, s, len, short);
      var finished := t.reqs[s.queue[s.at]].status != EINPROGRESS;
      var u := if finished then Completed(t, NextCancel(s, cancels)) else t;
      (u.(at := if finished || rescan then 0 else s.at + 1), u.urb.status != EINPROGRESS)
  }

  // What the turn is for each plan.
  lemma TurnPlan<H>(p: Pipe, s: State<H>, cancels: seq<set<H>>)
    requires p.maxpacket > 0 && Valid(s) && s.at < |s.queue|
    ensures
      var h := s.queue[s.at];
      match Decide(p, s.urb, s.reqs[h], s.limit)
      case Skip => Turn(p, s, cancels) == (s.(at := s.at + 1), false)
      case Stop => Turn(p, s, cancels) == (s, true)
      case Move(len, short, rescan) =>
        && s.urb.actual + len <= |s.urb.buf| && s.reqs[h].actual + len <= |s.reqs[h].buf| && len <= s.limit
        && var m := AfterMove(p, s, len, short);
           var finished := m.reqs[h].status != EINPROGRESS;
           var u := if finished then Completed(m, NextCancel(s, cancels)) else m;
           && m.limit == s.limit - len && m.queue == s.queue && m.at == s.at && m.done == s.done
           && m.log == s.log + [Piece(h, Data(p, s.urb, s.reqs[h], len))]
           && NextCancel(m, cancels) == NextCancel(s, cancels)
           && Turn(p, s, cancels) ==
           (u.(at := if finished || rescan then 0 else s.at + 1), u.urb.status != EINPROGRESS)
  {
    DecideFits(p, s.urb, s.reqs[s.queue[s.at]], s.limit);
    hide Decide, Completed;
  }

  // ---- What a turn keeps, whatever the callbacks dequeue

  function All<H>(log: seq<Piece<H>>): seq<Byte> {
    if log == [] then [] else All(log[..|log| - 1]) + log[|log| - 1].data
  }

  function Of<H(==)>(log: seq<Piece<H>>, h: H): seq<Byte> {
    if log == [] then []
    else Of(log[..|log| - 1], h) + if log[|log| - 1].req == h then log[|log| - 1].data else []
  }

  lemma LogGrows<H>(log: seq<Piece<H>>, x: Piece<H>)
    ensures All(log + [x]) == All(log) + x.data
  {
    assert (log + [x])[..|log|] == log;
  }

  lemma LogGrowsFor<H>(log: seq<Piece<H>>, x: Piece<H>, h: H)
    ensures Of(log + [x], h) == if x.req == h then Of(log, h) + x.data else Of(log, h)
  {
    assert (log + [x])[..|log|] == log;
  }

  // Byte counts: what the URB gained is what the budget lost, and each request gained
  // what was copied for it.
  ghost predicate Counted<H>(s0: State<H>, s: State<H>) {
    && s.reqs.Keys == s0.reqs.Keys
    && s0.urb.actual + |All(s.log)| == s.urb.actual <= |s.urb.buf| == |s0.urb.buf|
    && s.limit + |All(s.log)| == s0.limit
    && forall h :: h in s0.reqs ==>
         s0.reqs[h].actual + |Of(s.log, h)| == s.reqs[h].actual <= |s.reqs[h].buf| == |s0.reqs[h].buf|
  }

  // Contents: the source buffers are unchanged and the destination buffers have what was
  // copied, from where they stood, and nothing else new.
  ghost predicate Carried<H>(p: Pipe, s0: State<H>, s: State<H>)
    requires Counted(s0, s)
  {
    if p.toHost then
      && s.urb.buf == Copy(s0.urb.buf, s0.urb.actual, All(s.log))
      && forall h :: h in s0.reqs ==> HandedOut(s0.reqs[h], s.reqs[h], Of(s.log, h))
    else
      && s.urb.buf == s0.urb.buf && All(s.log) == s.urb.buf[s0.urb.actual..s.urb.actual]
      && forall h :: h in s0.reqs ==> FilledIn(s0.reqs[h], s.reqs[h], Of(s.log, h))
  }

  ghost predicate HandedOut(r0: Req, r: Req, data: seq<Byte>) {
    && r.buf == r0.buf && r0.actual <= r.actual <= |r.buf| && data == r.buf[r0.actual..r.actual]
  }

  ghost predicate FilledIn(r0: Req, r: Req, data: seq<Byte>) {
    && r0.actual + |data| == r.actual <= |r0.buf| && r.buf == Copy(r0.buf, r0.actual, data)
  }

  // Ownership: a request is on the queue, completed once, or dequeued by a callback, and
  // requests that were not on the queue are untouched.
  ghost predicate Owned<H>(s0: State<H>, s: State<H>) {
    && s.reqs.Keys == s0.reqs.Keys
    && Distinct(s.done)
    && (forall h :: h in s.done ==> h in s0.queue && h !in s.queue && h in s.reqs && s.reqs[h].status != EINPROGRESS)
    && (forall h :: h in s.queue ==> h in s0.queue)
    && (forall h :: h in s0.queue && h !in s.queue && h !in s.done ==> h in s.reqs && s.reqs[h].status == ECONNRESET)
    && (forall h :: h in s0.reqs && h !in s0.queue ==> s.reqs[h] == s0.reqs[h])
    && (forall k :: 0 <= k < |s.log| ==> s.log[k].req in s0.queue)
  }

  // Reports: a completed IN request has been read to its end unless the URB reports an
  // overflow; a URB that ends an OUT transfer has been read to its end unless a completed
  // request reports one.
  ghost predicate Told<H>(p: Pipe, s: State<H>) {
    && (s.urb.status == EINPROGRESS || s.urb.status == 0 || s.urb.status == EOVERFLOW)
    && (forall h :: h in s.done ==> h in s.reqs && (s.reqs[h].status == 0 || s.reqs[h].status == EOVERFLOW))
    && if p.toHost then
         && (s.urb.status == EOVERFLOW <==> exists h :: h in s.done && s.reqs[h].actual < |s.reqs[h].buf|)
         && (forall h :: h in s.done ==> s.reqs[h].status == 0)
       else
         && (s.urb.status != EINPROGRESS && s.urb.actual < |s.urb.buf| <==>
             exists h :: h in s.done && s.reqs[h].status == EOVERFLOW)
         && s.urb.status != EOVERFLOW
  }

  // ---- Completion

  // Some requests have left the queue.
  ghost predicate LeftQueue<H>(was: seq<H>, now: seq<H>, left: set<H>) {
    && (forall x :: x in now ==> x in was && x !in left)
    && (forall x :: x in was && x !in left ==> x in now)
  }

  lemma KeptIs<H>(queue: seq<H>, cancel: set<H>)
    requires Distinct(queue)
    ensures Distinct(Kept(queue, cancel)) && |Kept(queue, cancel)| <= |queue|
    ensures LeftQueue(queue, Kept(queue, cancel), cancel)
    decreases |queue|
  {
    if queue != [] {
      var n := |queue| - 1;
      KeptIs(queue[..n], cancel);
      assert queue == queue[..n] + [queue[n]];
    }
  }

  lemma RemovedIs<H>(queue: seq<H>, at: nat)
    requires Distinct(queue) && at < |queue|
    ensures Distinct(Removed(queue, at)) && |Removed(queue, at)| == |queue| - 1
    ensures LeftQueue(queue, Removed(queue, at), {queue[at]})
  {
    var rest := Removed(queue, at);
    forall h | h in queue && h != queue[at]
      ensures h in rest
    {
      var i :| 0 <= i < |queue| && queue[i] == h;
      assert rest[if i < at then i else i - 1] == h;
    }
  }

  lemma RemovedAt<H>(queue: seq<H>, at: nat)
    requires at < |queue|
    ensures |Removed(queue, at)| == |queue| - 1
    ensures forall i :: 0 <= i < |queue| - 1 ==> Removed(queue, at)[i] == queue[if i < at then i else i + 1]
  {
  }

  lemma NothingCancelled<H>(queue: seq<H>)
    ensures Kept(queue, {}) == queue
    decreases |queue|
  {
    if queue != [] {
      NothingCancelled(queue[..|queue| - 1]);
    }
  }

  // A completion whose callback dequeues nothing takes one request off the queue.
  lemma CompletedPlain<H>(s: State<H>)
    requires s.at < |s.queue|
    ensures Completed(s, {}).queue == Removed(s.queue, s.at) && Completed(s, {}).reqs == s.reqs
    ensures Completed(s, {}).urb == s.urb && Completed(s, {}).limit == s.limit
  {
    NothingCancelled(Removed(s.queue, s.at));
  }

  lemma CompletedIs<H>(s: State<H>, cancel: set<H>)
    requires s.at < |s.queue| && Distinct(s.queue)
    ensures
      var t, h := Completed(s, cancel), s.queue[s.at];
      && Distinct(t.queue) && |t.queue| < |s.queue| && t.reqs.Keys == s.reqs.Keys
      && LeftQueue(s.queue, t.queue, {h} + cancel)
      && (forall x :: x in s.reqs ==>
            t.reqs[x] == if x in s.queue && x != h && x in cancel then s.reqs[x].(status := ECONNRESET) else s.reqs[x])
  {
    RemovedIs(s.queue, s.at);
    KeptIs(Removed(s.queue, s.at), cancel);
  }

  // ---- One copy

  lemma CopyMore(dst: seq<Byte>, at: nat, data: seq<Byte>, more: seq<Byte>)
    requires at + |data| + |more| <= |dst|
    ensures Copy(Copy(dst, at, data), at + |data|, more) == Copy(dst, at, data + more)
  {
  }

  lemma SliceMore(buf: seq<Byte>, from: nat, to: nat, end: nat)
    requires from <= to <= end <= |buf|
    ensures buf[from..to] + buf[to..end] == buf[from..end]
  {
  }

  lemma MoveCounts<H>(p: Pipe, s0: State<H>, s: State<H>, len: nat, short: bool)
    requires Valid(s) && s.at < |s.queue| && Counted(s0, s)
    requires s.urb.actual + len <= |s.urb.buf| && len <= s.limit
    requires s.reqs[s.queue[s.at]].actual + len <= |s.reqs[s.queue[s.at]].buf|
    ensures Counted(s0, AfterMove(p, s, len, short))
  {
    hide All, Of;
    var h, t := s.queue[s.at], AfterMove(p, s, len, short);
    var x := Piece(h, Data(p, s.urb, s.reqs[h], len));
    LogGrows(s.log, x);
    forall k | k in s0.reqs
      ensures s0.reqs[k].actual + |Of(t.log, k)| == t.reqs[k].actual <= |t.reqs[k].buf| == |s0.reqs[k].buf|
    {
      LogGrowsFor(s.log, x, k);
    }
  }

  lemma MoveOne(p: Pipe, u: Urb, r0: Req, r: Req, len: nat, data: seq<Byte>, status: int)
    requires u.actual + len <= |u.buf| && r.actual + len <= |r.buf|
    requires if p.toHost then HandedOut(r0, r, data) else FilledIn(r0, r, data)
    ensures
      var r', data' := ReqMoved(p, u, r, len).(status := status), data + Data(p, u, r, len);
      if p.toHost then HandedOut(r0, r', data') else FilledIn(r0, r', data')
  {
    if p.toHost {
      SliceMore(r.buf, r0.actual, r.actual, r.actual + len);
    } else {
      CopyMore(r0.buf, r0.actual, data, Data(p, u, r, len));
    }
  }

  lemma MoveCarries<H>(p: Pipe, s0: State<H>, s: State<H>, len: nat, short: bool)
    requires Valid(s) && s.at < |s.queue| && Counted(s0, s) && Carried(p, s0, s)
    requires s.urb.actual + len <= |s.urb.buf| && len <= s.limit
    requires s.reqs[s.queue[s.at]].actual + len <= |s.reqs[s.queue[s.at]].buf|
    requires Counted(s0, AfterMove(p, s, len, short))
    ensures Carried(p, s0, AfterMove(p, s, len, short))
  {
    hide All, Of, HandedOut, FilledIn;
    var h, t := s.queue[s.at], AfterMove(p, s, len, short);
    var x := Piece(h, Data(p, s.urb, s.reqs[h], len));
    LogGrows(s.log, x);
    if p.toHost {
      CopyMore(s0.urb.buf, s0.urb.actual, All(s.log), x.data);
    } else {
      SliceMore(s.urb.buf, s0.urb.actual, s.urb.actual, s.urb.actual + len);
    }
    forall k | k in s0.reqs
      ensures if p.toHost then HandedOut(s0.reqs[k], t.reqs[k], Of(t.log, k))
              else FilledIn(s0.reqs[k], t.reqs[k], Of(t.log, k))
    {
      LogGrowsFor(s.log, x, k);
      if k == h {
        MoveOne(p, s.urb, s0.reqs[h], s.reqs[h], len, Of(s.log, h), t.reqs[h].status);
      }
    }
  }

  // Changes to the queue and to the statuses of requests do not matter to counts and
  // contents.
  lemma StatusOnly<H>(p: Pipe, s0: State<H>, s: State<H>, t: State<H>)
    requires Counted(s0, s) && Carried(p, s0, s)
    requires t.urb == s.urb && t.log == s.log && t.limit == s.limit && t.reqs.Keys == s.reqs.Keys
    requires forall h :: h in s.reqs ==> t.reqs[h].buf == s.reqs[h].buf && t.reqs[h].actual == s.reqs[h].actual
    ensures Counted(s0, t) && Carried(p, s0, t)
  {
    hide All, Of;
  }

  // ---- One turn

  // The turn as a relation between the two states, with the queue as a set.
  lemma TurnIs<H>(p: Pipe, s: State<H>, cancels: seq<set<H>>)
    requires p.maxpacket > 0 && Valid(s) && s.at < |s.queue|
    ensures
      var (t, stop) := Turn(p, s, cancels);
      var h := s.queue[s.at];
      match Decide(p, s.urb, s.reqs[h], s.limit)
      case Skip => t == s.(at := s.at + 1) && !stop
      case Stop => t == s && stop
      case Move(len, short, rescan) =>
        && s.urb.actual + len <= |s.urb.buf| && s.reqs[h].actual + len <= |s.reqs[h].buf| && len <= s.limit
        && var m := AfterMove(p, s, len, short);
           var cancel := NextCancel(s, cancels);
           var finished := m.reqs[h].status != EINPROGRESS;
           && t.urb == m.urb && t.limit == m.limit && t.log == m.log
           && t.done == (if finished then s.done + [h] else s.done)
           && Distinct(t.queue) && t.reqs.Keys == s.reqs.Keys
           && (if finished then |t.queue| < |s.queue| else t.queue == s.queue)
           && LeftQueue(s.queue, t.queue, if finished then {h} + cancel else {})
           && t.reqs[h] == m.reqs[h]
           && (forall x :: x in s.reqs && x != h ==>
                 t.reqs[x] == if finished && x in s.queue && x in cancel then s.reqs[x].(status := ECONNRESET)
                              else s.reqs[x])
           && t.at == (if finished || rescan then 0 else s.at + 1)
           && (stop <==> t.urb.status != EINPROGRESS)
  {
    var h := s.queue[s.at];
    var r := s.reqs[h];
    DecideFits(p, s.urb, r, s.limit);
    hide Decide;
    match Decide(p, s.urb, r, s.limit)
    case Skip =>
    case Stop =>
    case Move(len, short, rescan) =>
      var m := AfterMove(p, s, len, short);
      hide AfterMove;
      if m.reqs[h].status != EINPROGRESS {
        CompletedIs(m, NextCancel(s, cancels));
      }
  }

  lemma TurnKeeps<H>(p: Pipe, s0: State<H>, s: State<H>, cancels: seq<set<H>>)
    requires p.maxpacket > 0 && Valid(s) && s.at < |s.queue| && Counted(s0, s) && Carried(p, s0, s)
    ensures Counted(s0, Turn(p, s, cancels).0) && Carried(p, s0, Turn(p, s, cancels).0)
  {
    hide Counted, Carried, Turn, Decide, NextCancel;
    TurnIs(p, s, cancels);
    var h, t := s.queue[s.at], Turn(p, s, cancels).0;
    match Decide(p, s.urb, s.reqs[h], s.limit)
    case Skip => StatusOnly(p, s0, s, t);
    case Stop =>
    case Move(len, short, rescan) =>
      MoveCounts(p, s0, s, len, short);
      MoveCarries(p, s0, s, len, short);
      StatusOnly(p, s0, AfterMove(p, s, len, short), t);
  }

  // What the move does to the request and the URB apart from their contents.
  lemma MovedFits<H>(p: Pipe, s: State<H>, len: nat, short: bool)
    requires Valid(s) && s.at < |s.queue|
    requires s.urb.actual + len <= |s.urb.buf| && len <= s.limit
    requires s.reqs[s.queue[s.at]].actual + len <= |s.reqs[s.queue[s.at]].buf|
    ensures
      var m, h := AfterMove(p, s, len, short), s.queue[s.at];
      && m.urb.actual <= |m.urb.buf| && h in m.reqs && m.reqs[h].actual <= |m.reqs[h].buf|
      && |m.log| == |s.log| + 1 && m.log[..|s.log|] == s.log && m.log[|s.log|].req == h
  {
  }

  lemma TurnValid<H>(p: Pipe, s: State<H>, cancels: seq<set<H>>)
    requires p.maxpacket > 0 && Valid(s) && s.at < |s.queue|
    ensures Valid(Turn(p, s, cancels).0)
  {
    hide Turn, Decide, NextCancel, AfterMove;
    TurnIs(p, s, cancels);
    var h, t := s.queue[s.at], Turn(p, s, cancels).0;
    match Decide(p, s.urb, s.reqs[h], s.limit)
    case Skip =>
    case Stop =>
    case Move(len, short, rescan) =>
      MovedFits(p, s, len, short);
  }

  lemma TurnOwned<H>(p: Pipe, s0: State<H>, s: State<H>, cancels: seq<set<H>>)
    requires p.maxpacket > 0 && Valid(s) && s.at < |s.queue| && Owned(s0, s)
    ensures Owned(s0, Turn(p, s, cancels).0)
  {
    hide Turn, Decide, NextCancel, AfterMove;
    TurnIs(p, s, cancels);
    var h, t := s.queue[s.at], Turn(p, s, cancels).0;
    match Decide(p, s.urb, s.reqs[h], s.limit)
    case Skip =>
    case Stop =>
    case Move(len, short, rescan) =>
      MovedFits(p, s, len, short);
      forall k | 0 <= k < |t.log|
        ensures t.log[k].req in s0.queue
      {
        assert k < |s.log| ==> t.log[k] == s.log[k];
      }
  }

  lemma MoveTells<H>(p: Pipe, s: State<H>, len: nat, short: bool)
    requires Valid(s) && s.at < |s.queue| && s.urb.status == EINPROGRESS
    requires s.urb.actual + len <= |s.urb.buf| && len <= s.limit
    requires s.reqs[s.queue[s.at]].actual + len <= |s.reqs[s.queue[s.at]].buf|
    requires short ==> len == Min(|s.urb.buf| - s.urb.actual, |s.reqs[s.queue[s.at]].buf| - s.reqs[s.queue[s.at]].actual)
    ensures
      var m := AfterMove(p, s, len, short);
      var u, r := m.urb, m.reqs[s.queue[s.at]];
      && (u.status == EINPROGRESS || u.status == 0 || u.status == EOVERFLOW)
      && (r.status == EINPROGRESS || r.status == 0 || r.status == EOVERFLOW)
      && (short ==> u.status != EINPROGRESS && r.status != EINPROGRESS)
      && if p.toHost then
           && (u.status == EOVERFLOW <==> r.status != EINPROGRESS && r.actual < |r.buf|)
           && r.status != EOVERFLOW
         else
           && (u.status != EINPROGRESS && u.actual < |u.buf| <==> r.status == EOVERFLOW)
           && u.status != EOVERFLOW
  {
    hide Data;
  }

  lemma DoneOff<H>(s0: State<H>, s: State<H>)
    requires Owned(s0, s)
    ensures forall x :: x in s.done ==> x !in s.queue && x in s.reqs
  {
  }

  lemma TurnTold<H>(p: Pipe, s0: State<H>, s: State<H>, cancels: seq<set<H>>)
    requires p.maxpacket > 0 && Valid(s) && s.at < |s.queue| && Owned(s0, s)
    requires Told(p, s) && s.urb.status == EINPROGRESS
    ensures Told(p, Turn(p, s, cancels).0)
  {
    var h, t := s.queue[s.at], Turn(p, s, cancels).0;
    DecideFits(p, s.urb, s.reqs[h], s.limit);
    DoneOff(s0, s);
    hide Turn, Decide, NextCancel, AfterMove, Owned, LeftQueue, Distinct, Told;
    TurnIs(p, s, cancels);
    match Decide(p, s.urb, s.reqs[h], s.limit)
    case Skip => ToldSame(p, s, t);
    case Stop =>
    case Move(len, short, rescan) =>
      MoveTells(p, s, len, short);
      ToldMore(p, s, t, h);
  }

  lemma ToldSame<H>(p: Pipe, s: State<H>, t: State<H>)
    requires Told(p, s) && t == s.(at := t.at)
    ensures Told(p, t)
  {
  }

  lemma ToldMore<H>(p: Pipe, s: State<H>, t: State<H>, h: H)
    requires Told(p, s) && s.urb.status == EINPROGRESS && h in t.reqs
    requires forall x :: x in s.done ==> x in s.reqs && x in t.reqs && t.reqs[x] == s.reqs[x]
    requires t.urb.status == EINPROGRESS || t.urb.status == 0 || t.urb.status == EOVERFLOW
    requires t.done == if t.reqs[h].status == EINPROGRESS then s.done else s.done + [h]
    requires t.reqs[h].status == EINPROGRESS || t.reqs[h].status == 0 || t.reqs[h].status == EOVERFLOW
    requires if p.toHost then
               && (t.urb.status == EOVERFLOW <==> t.reqs[h].status != EINPROGRESS && t.reqs[h].actual < |t.reqs[h].buf|)
               && t.reqs[h].status != EOVERFLOW
             else
               && (t.urb.status != EINPROGRESS && t.urb.actual < |t.urb.buf| <==> t.reqs[h].status == EOVERFLOW)
               && t.urb.status != EOVERFLOW
    ensures Told(p, t)
  {
    assert t.done == s.done + [h] ==> h in t.done;
    assert forall x :: x in t.done ==> x in s.done || (x == h && t.done != s.done);
  }

  // ---- The whole loop

  lemma TurnDecreases<H>(p: Pipe, s: State<H>, cancels: seq<set<H>>)
    requires p.maxpacket > 0 && Valid(s) && s.at < |s.queue| && s.urb.status == EINPROGRESS
    ensures
      var (t, stop) := Turn(p, s, cancels);
      && |t.urb.buf| == |s.urb.buf|
      && t.at <= |t.queue|
      && (stop ==> t == s || t.urb.status != EINPROGRESS)
      && (!stop ==>
            || |t.queue| < |s.queue|
            || (|t.queue| == |s.queue| && t.urb.actual > s.urb.actual)
            || (|t.queue| == |s.queue| && t.urb.actual == s.urb.actual && t.at == s.at + 1))
      && (!stop ==> t.urb.status == EINPROGRESS)
  {
    var h, t := s.queue[s.at], Turn(p, s, cancels).0;
    DecideFits(p, s.urb, s.reqs[h], s.limit);
    hide Turn, Decide, NextCancel;
    TurnIs(p, s, cancels);
  }

  // The loop ends: each turn shortens the queue, or moves bytes, or goes one request on.
  function Run<H>(p: Pipe, s: State<H>, cancels: seq<set<H>>): State<H>
    requires p.maxpacket > 0 && Valid(s) && s.urb.status == EINPROGRESS && s.at <= |s.queue|
    decreases |s.queue|, |s.urb.buf| - s.urb.actual, |s.queue| - s.at
  {
    if s.at == |s.queue| then s
    else
      TurnDecreases(p, s, cancels);
      TurnValid(p, s, cancels);
      var (t, stop) := Turn(p, s, cancels);
      if stop then t else Run(p, t, cancels)
  }

  ghost predicate KeptAll<H>(p: Pipe, s0: State<H>, s: State<H>) {
    Counted(s0, s) && Carried(p, s0, s) && Owned(s0, s) && Told(p, s)
  }

  lemma {:induction false} RunKeeps<H>(p: Pipe, s0: State<H>, s: State<H>, cancels: seq<set<H>>)
    requires p.maxpacket > 0 && Valid(s) && s.urb.status == EINPROGRESS && s.at <= |s.queue| && KeptAll(p, s0, s)
    ensures KeptAll(p, s0, Run(p, s, cancels)) && Valid(Run(p, s, cancels))
    decreases |s.queue|, |s.urb.buf| - s.urb.actual, |s.queue| - s.at
  {
    hide Counted, Carried, Owned, Told, Turn;
    if s.at < |s.queue| {
      TurnDecreases(p, s, cancels);
      TurnValid(p, s, cancels);
      TurnKeeps(p, s0, s, cancels);
      TurnOwned(p, s0, s, cancels);
      TurnTold(p, s0, s, cancels);
      var (t, stop) := Turn(p, s, cancels);
      if !stop {
        RunKeeps(p, s0, t, cancels);
      }
    }
  }

  ghost predicate Start<H>(s: State<H>) {
    Valid(s) && s.urb.status == EINPROGRESS && s.at == 0 && s.log == [] && s.done == []
  }

  // Whatever the callbacks dequeue: counts, contents, ownership and reports.
  lemma TransferSafe<H>(p: Pipe, s: State<H>, cancels: seq<set<H>>)
    requires p.maxpacket > 0 && Start(s)
    ensures
      var t := Run(p, s, cancels);
      Valid(t) && Counted(s, t) && Carried(p, s, t) && Owned(s, t) && Told(p, t)
  {
    assert Copy(s.urb.buf, s.urb.actual, []) == s.urb.buf;
    forall h | h in s.reqs
      ensures HandedOut(s.reqs[h], s.reqs[h], []) && FilledIn(s.reqs[h], s.reqs[h], [])
    {
      assert Copy(s.reqs[h].buf, s.reqs[h].actual, []) == s.reqs[h].buf;
    }
    RunKeeps(p, s, s, cancels);
  }

  // The contents by slices.  On IN the URB has, from where it stood, the bytes copied, and
  // those of each request are the ones that it stood at; on OUT each request has, from where
  // it stood, the bytes copied to it, and together they are the ones that the URB stood at.
  // No other byte of either side has changed.
  lemma TransferContents<H>(p: Pipe, s: State<H>, cancels: seq<set<H>>, h: H)
    requires p.maxpacket > 0 && Start(s) && h in s.reqs
    ensures
      var t := Run(p, s, cancels);
      && h in t.reqs
      && var q, r := s.reqs[h], t.reqs[h];
      && s.urb.actual <= t.urb.actual <= |s.urb.buf| && q.actual <= r.actual <= |q.buf|
      && if p.toHost then
           && Filled(s.urb.buf, t.urb.buf, s.urb.actual, t.urb.actual, All(t.log))
           && r.buf == q.buf && Of(t.log, h) == q.buf[q.actual..r.actual]
         else
           && Filled(q.buf, r.buf, q.actual, r.actual, Of(t.log, h))
           && t.urb.buf == s.urb.buf && All(t.log) == s.urb.buf[s.urb.actual..t.urb.actual]
  {
    hide Run, All, Of;
    TransferSafe(p, s, cancels);
    var t := Run(p, s, cancels);
    if p.toHost {
      CopyFills(s.urb.buf, s.urb.actual, All(t.log));
    } else {
      CopyFills(s.reqs[h].buf, s.reqs[h].actual, Of(t.log, h));
    }
  }

  // ---- What a callback dequeues

  predicate Before<H(==)>(q: seq<H>, x: H, y: H) { exists i, j :: 0 <= i < j < |q| && q[i] == x && q[j] == y }

  lemma {:induction false} KeptOrder<H>(queue: seq<H>, cancel: set<H>, i: nat, j: nat)
    requires i < j < |Kept(queue, cancel)|
    ensures Before(queue, Kept(queue, cancel)[i], Kept(queue, cancel)[j])
    decreases |queue|
  {
    var n := |queue| - 1;
    var k := Kept(queue[..n], cancel);
    if j < |k| {
      KeptOrder(queue[..n], cancel, i, j);
      var a, b :| 0 <= a < b < n && queue[..n][a] == k[i] && queue[..n][b] == k[j];
      assert queue[a] == k[i] && queue[b] == k[j];
    } else {
      KeptIn(queue[..n], cancel, i);
      var a :| 0 <= a < n && queue[..n][a] == k[i];
      assert queue[a] == k[i] && queue[n] == Kept(queue, cancel)[j];
    }
  }

  lemma {:induction false} KeptIn<H>(queue: seq<H>, cancel: set<H>, i: nat)
    requires i < |Kept(queue, cancel)|
    ensures Kept(queue, cancel)[i] in queue
    decreases |queue|
  {
    var n := |queue| - 1;
    if i < |Kept(queue[..n], cancel)| {
      KeptIn(queue[..n], cancel, i);
    }
  }

  // The callback of the k-th completion of a call, counted from 0, dequeues the requests of
  // the k-th set that are still queued, and no others; the rest stay in order.
  lemma TurnCancels<H>(p: Pipe, s: State<H>, cancels: seq<set<H>>, x: H)
    requires p.maxpacket > 0 && Valid(s) && s.at < |s.queue| && x in s.queue
    ensures
      var t, h, k := Turn(p, s, cancels).0, s.queue[s.at], |s.done|;
      && (t.done == s.done || t.done == s.done + [h])
      && (x in t.queue <==>
            |t.done| == k || (x != h && !(k < |cancels| && x in cancels[k])))
      && (forall i, j :: 0 <= i < j < |t.queue| ==> Before(s.queue, t.queue[i], t.queue[j]))
  {
    TurnPlan(p, s, cancels);
    hide Decide, AfterMove, Turn;
    var t, h := Turn(p, s, cancels).0, s.queue[s.at];
    var rest, cancel := Removed(s.queue, s.at), NextCancel(s, cancels);
    RemovedIs(s.queue, s.at);
    RemovedAt(s.queue, s.at);
    KeptIs(rest, cancel);
    forall i, j | 0 <= i < j < |t.queue|
      ensures Before(s.queue, t.queue[i], t.queue[j])
    {
      if t.done == s.done + [h] {
        KeptOrder(rest, cancel, i, j);
        var a, b :| 0 <= a < b < |rest| && rest[a] == t.queue[i] && rest[b] == t.queue[j];
        var c, d := if a < s.at then a else a + 1, if b < s.at then b else b + 1;
        assert s.queue[c] == t.queue[i] && s.queue[d] == t.queue[j];
      }
    }
  }

  // ---- Conservation as a sum

  function Gained<H>(hs: seq<H>, s0: State<H>, s: State<H>): int
    requires forall h :: h in hs ==> h in s0.reqs && h in s.reqs
  {
    if hs == [] then 0
    else Gained(hs[..|hs| - 1], s0, s) + s.reqs[hs[|hs| - 1]].actual - s0.reqs[hs[|hs| - 1]].actual
  }

  function Shares<H(==)>(hs: seq<H>, log: seq<Piece<H>>): nat {
    if hs == [] then 0 else Shares(hs[..|hs| - 1], log) + |Of(log, hs[|hs| - 1])|
  }

  lemma SharesGrow<H>(hs: seq<H>, log: seq<Piece<H>>, x: Piece<H>)
    requires Distinct(hs)
    ensures Shares(hs, log + [x]) == Shares(hs, log) + if x.req in hs then |x.data| else 0
    decreases |hs|
  {
    if hs != [] {
      var n := |hs| - 1;
      assert hs == hs[..n] + [hs[n]];
      SharesGrow(hs[..n], log, x);
      LogGrowsFor(log, x, hs[n]);
    }
  }

  lemma SharesAll<H>(hs: seq<H>, log: seq<Piece<H>>)
    requires Distinct(hs) && forall k :: 0 <= k < |log| ==> log[k].req in hs
    ensures Shares(hs, log) == |All(log)|
    decreases |log|
  {
    if log == [] {
      SharesNone(hs);
    } else {
      var n := |log| - 1;
      assert log == log[..n] + [log[n]];
      SharesAll(hs, log[..n]);
      SharesGrow(hs, log[..n], log[n]);
    }
  }

  lemma SharesNone<H>(hs: seq<H>)
    ensures Shares<H>(hs, []) == 0
    decreases |hs|
  {
    if hs != [] {
      SharesNone(hs[..|hs| - 1]);
    }
  }

  lemma GainedShares<H>(hs: seq<H>, s0: State<H>, s: State<H>)
    requires Counted(s0, s) && forall h :: h in hs ==> h in s0.reqs
    ensures Gained(hs, s0, s) == Shares(hs, s.log)
    decreases |hs|
  {
    hide Of, All;
    if hs != [] {
      GainedShares(hs[..|hs| - 1], s0, s);
      assert hs[|hs| - 1] in hs;
    }
  }

  // What the URB gained is what the queued requests gained together, and what the budget
  // lost.
  lemma TransferConserves<H>(p: Pipe, s: State<H>, cancels: seq<set<H>>)
    requires p.maxpacket > 0 && Start(s)
    ensures
      var t := Run(p, s, cancels);
      && t.reqs.Keys == s.reqs.Keys
      && t.urb.actual - s.urb.actual == Gained(s.queue, s, t) == s.limit - t.limit
      && s.urb.actual <= t.urb.actual <= |t.urb.buf| == |s.urb.buf|
  {
    hide Run, Of, All, Shares, Gained;
    TransferSafe(p, s, cancels);
    var t := Run(p, s, cancels);
    SharesAll(s.queue, t.log);
    GainedShares(s.queue, s, t);
  }

  // ---- When nothing happens

  // The first request, from i on, that is not for another stream.
  function FirstFor<H>(p: Pipe, s: State<H>, i: nat): (k: nat)
    requires Valid(s) && i <= |s.queue|
    ensures i <= k <= |s.queue|
    decreases |s.queue| - i
  {
    if i < |s.queue| && p.streams && s.urb.stream != s.reqs[s.queue[i]].stream then FirstFor(p, s, i + 1) else i
  }

  lemma {:induction false} LogOnlyGrows<H>(p: Pipe, s: State<H>, cancels: seq<set<H>>)
    requires p.maxpacket > 0 && Valid(s) && s.urb.status == EINPROGRESS && s.at <= |s.queue|
    ensures |s.log| <= |Run(p, s, cancels).log|
    decreases |s.queue|, |s.urb.buf| - s.urb.actual, |s.queue| - s.at
  {
    if s.at < |s.queue| {
      TurnDecreases(p, s, cancels);
      TurnValid(p, s, cancels);
      TurnIs(p, s, cancels);
      hide Turn, Decide;
      var (t, stop) := Turn(p, s, cancels);
      if !stop {
        LogOnlyGrows(p, t, cancels);
      }
    }
  }

  lemma MoveGrows<H>(p: Pipe, s: State<H>, cancels: seq<set<H>>)
    requires p.maxpacket > 0 && Valid(s) && s.urb.status == EINPROGRESS && s.at < |s.queue|
    requires Decide(p, s.urb, s.reqs[s.queue[s.at]], s.limit).Move?
    ensures |Run(p, s, cancels).log| > |s.log|
  {
    var d := Decide(p, s.urb, s.reqs[s.queue[s.at]], s.limit);
    TurnDecreases(p, s, cancels);
    TurnValid(p, s, cancels);
    TurnIs(p, s, cancels);
    hide Turn, NextCancel, AfterMove, Decide;
    MovedFits(p, s, d.len, d.short);
    var (t, stop) := Turn(p, s, cancels);
    if !stop {
      LogOnlyGrows(p, t, cancels);
    }
  }

  lemma FirstForAt<H>(p: Pipe, s: State<H>, at: nat, i: nat)
    requires Valid(s) && i <= |s.queue|
    ensures Valid(s.(at := at)) && FirstFor(p, s.(at := at), i) == FirstFor(p, s, i)
    decreases |s.queue| - i
  {
    if i < |s.queue| {
      FirstForAt(p, s, at, i + 1);
    }
  }

  // A call does nothing exactly when no request is queued for the URB's stream, or when
  // the first such request needs a packet that the budget no longer allows.
  lemma {:induction false} IdleExactly<H>(p: Pipe, s: State<H>, cancels: seq<set<H>>)
    requires p.maxpacket > 0 && Valid(s) && s.urb.status == EINPROGRESS && s.at <= |s.queue|
    ensures
      var k := FirstFor(p, s, s.at);
      var t := Run(p, s, cancels);
      var idle := k == |s.queue| ||
        var r := s.reqs[s.queue[k]];
        s.limit < p.maxpacket && s.limit < |s.urb.buf| - s.urb.actual && s.limit < |r.buf| - r.actual;
      if idle then t == s.(at := t.at) else |t.log| > |s.log|
    decreases |s.queue| - s.at
  {
    if s.at < |s.queue| {
      var r := s.reqs[s.queue[s.at]];
      TurnDecreases(p, s, cancels);
      TurnValid(p, s, cancels);
      TurnIs(p, s, cancels);
      DecideFits(p, s.urb, r, s.limit);
      hide Turn, Decide, NextCancel;
      var (t, stop) := Turn(p, s, cancels);
      match Decide(p, s.urb, r, s.limit)
      case Skip => FirstForAt(p, s, t.at, t.at); IdleExactly(p, t, cancels);
      case Stop =>
      case Move(len, short, rescan) => MoveGrows(p, s, cancels);
    }
  }

  // ---- A case out of order

  function TwoRequests(status0: int, status1: int, a0: nat, a1: nat): map<nat, Req> {
    map[0 := Req([1], a0, true, 0, status0), 1 := Req([2], a1, false, 0, status1)]
  }

  // A request that asks for a zero-length packet and is exactly one packet long is passed
  // over: the next one's data follows in the same URB, and is completed first.
  lemma ZeroPacketSkipped()
    ensures
      var p := Pipe(true, 1, false);
      var s := State(TwoRequests(EINPROGRESS, EINPROGRESS, 0, 0), [0, 1], Urb([0, 0], 0, false, 0, EINPROGRESS), 10, 0, [], []);
      && Start(s)
      && var t := Run(p, s, []);
         && t.urb == Urb([1, 2], 2, false, 0, 0) && t.done == [1] && t.queue == [0]
         && t.reqs[0].actual == 1 && t.reqs[0].status == EINPROGRESS
  {
    var p := Pipe(true, 1, false);
    var s := State(TwoRequests(EINPROGRESS, EINPROGRESS, 0, 0), [0, 1], Urb([0, 0], 0, false, 0, EINPROGRESS), 10, 0, [], []);
    var t1, t2 := Turn(p, s, []), Turn(p, Turn(p, s, []).0, []);
    FirstTurn(p, s);
    SecondTurn(p, t1.0);
    hide Turn;
    assert Run(p, s, []) == Run(p, t1.0, []);
    assert Run(p, t1.0, []) == t2.0;
  }

  lemma FirstTurn(p: Pipe, s: State<nat>)
    requires p == Pipe(true, 1, false)
    requires s == State(TwoRequests(EINPROGRESS, EINPROGRESS, 0, 0), [0, 1], Urb([0, 0], 0, false, 0, EINPROGRESS), 10, 0, [], [])
    ensures Valid(s)
    ensures Turn(p, s, []) ==
            (State(TwoRequests(EINPROGRESS, EINPROGRESS, 1, 0), [0, 1], Urb([1, 0], 1, false, 0, EINPROGRESS), 9, 1,
                   [Piece(0, [1])], []), false)
  {
    var m := FirstMove(p, s);
    hide Turn, AfterMove, Decide;
    TurnPlan(p, s, []);
  }

  lemma FirstMove(p: Pipe, s: State<nat>) returns (m: State<nat>)
    requires p == Pipe(true, 1, false)
    requires s == State(TwoRequests(EINPROGRESS, EINPROGRESS, 0, 0), [0, 1], Urb([0, 0], 0, false, 0, EINPROGRESS), 10, 0, [], [])
    ensures Valid(s) && Decide(p, s.urb, s.reqs[0], 10) == Move(1, false, false)
    ensures m == AfterMove(p, s, 1, false)
    ensures m == State(TwoRequests(EINPROGRESS, EINPROGRESS, 1, 0), [0, 1], Urb([1, 0], 1, false, 0, EINPROGRESS), 9, 0,
                       [Piece(0, [1])], [])
  {
    assert Copy([0, 0], 0, [1]) == [1, 0];
    assert Data(p, s.urb, s.reqs[0], 1) == [1];
    m := AfterMove(p, s, 1, false);
    assert m.reqs == TwoRequests(EINPROGRESS, EINPROGRESS, 1, 0);
    assert m.log == [Piece(0, [1])];
  }

  lemma SecondTurn(p: Pipe, s: State<nat>)
    requires p == Pipe(true, 1, false)
    requires s == State(TwoRequests(EINPROGRESS, EINPROGRESS, 1, 0), [0, 1], Urb([1, 0], 1, false, 0, EINPROGRESS), 9, 1,
                        [Piece(0, [1])], [])
    ensures Valid(s)
    ensures
      var (t, stop) := Turn(p, s, []);
      && stop && t.urb == Urb([1, 2], 2, false, 0, 0) && t.done == [1] && t.queue == [0]
      && t.reqs == TwoRequests(EINPROGRESS, 0, 1, 1)
  {
    var m := SecondMove(p, s);
    LastLeft(m);
    hide Turn, AfterMove, Decide, Completed;
    TurnPlan(p, s, []);
  }

  lemma SecondMove(p: Pipe, s: State<nat>) returns (m: State<nat>)
    requires p == Pipe(true, 1, false)
    requires s == State(TwoRequests(EINPROGRESS, EINPROGRESS, 1, 0), [0, 1], Urb([1, 0], 1, false, 0, EINPROGRESS), 9, 1,
                        [Piece(0, [1])], [])
    ensures Valid(s) && Decide(p, s.urb, s.reqs[1], 9) == Move(1, false, false)
    ensures m == AfterMove(p, s, 1, false)
    ensures m.reqs == TwoRequests(EINPROGRESS, 0, 1, 1) && m.urb == Urb([1, 2], 2, false, 0, 0)
    ensures m.queue == [0, 1] && m.at == 1 && m.done == []
  {
    assert Copy([1, 0], 1, [2]) == [1, 2];
    assert Data(p, s.urb, s.reqs[1], 1) == [2];
    m := AfterMove(p, s, 1, false);
  }

  lemma LastLeft(m: State<nat>)
    requires m.queue == [0, 1] && m.at == 1
    ensures Completed(m, {}) == m.(queue := [0], done := m.done + [1])
  {
    assert Removed([0, 1], 1) == [0];
    assert [0][..0] == [] && Kept<nat>([], {}) == [] && Kept([0], {}) == [0];
  }
}
