/** transfer and dummy_perform_transfer of gadget/dummy_hcd.c on the objects they update,
    for URBs with a linear buffer. */
module DummyEndpoint {
  import opened Basics
  import opened TxPackets
  import opened DummyTransfer

  class Request {
    const buf: array<Byte>
    const zero: bool
    const stream: nat
    var actual: nat
    var status: int

    constructor (buf: array<Byte>, zero: bool, stream: nat)
      ensures this.buf == buf && this.zero == zero && this.stream == stream && actual == 0 && status == EINPROGRESS
    {
      this.buf, this.zero, this.stream, actual, status := buf, zero, stream, 0, EINPROGRESS;
    }

    function Value(): Req
      reads this, buf
    {
      Req(buf[..], actual, zero, stream, status)
    }
  }

  class HostUrb {
    const buf: array<Byte>
    const zero: bool
    const stream: nat
    var actual: nat

    constructor (buf: array<Byte>, zero: bool, stream: nat)
      ensures this.buf == buf && this.zero == zero && this.stream == stream && actual == 0
    {
      this.buf, this.zero, this.stream, actual := buf, zero, stream, 0;
    }

    function Value(status: int): Urb
      reads this, buf
    {
      Urb(buf[..], actual, zero, stream, status)
    }
  }

  ghost predicate Apart(all: set<Request>, urb: HostUrb) {
    && (forall r :: r in all ==> r.buf != urb.buf)
    && (forall r, s :: r in all && s in all && r != s ==> r.buf != s.buf)
  }

  ghost function Buffers(all: set<Request>): set<object> { set r | r in all :: r.buf }

  ghost function Reqs(all: set<Request>): map<Request, Req>
    reads all, Buffers(all)
  {
    map r | r in all :: r.Value()
  }

  // memcpy
  method MemCpy(dst: array<Byte>, at: nat, src: array<Byte>, from: nat, len: nat)
    requires dst != src && at + len <= dst.Length && from + len <= src.Length
    modifies dst
    ensures dst[..] == Copy(old(dst[..]), at, src[from..from + len])
  {
    forall i | 0 <= i < len {
      dst[at + i] := src[from + i];
    }
  }

  // dummy_perform_transfer, and the counters that its caller advances by the result.
  method PerformTransfer(p: Pipe, urb: HostUrb, req: Request, len: nat, ghost status: int)
    requires req.buf != urb.buf && urb.actual + len <= urb.buf.Length && req.actual + len <= req.buf.Length
    modifies urb, urb.buf, req, req.buf
    ensures urb.Value(status) == UrbMoved(p, old(urb.Value(status)), old(req.Value()), len)
    ensures req.Value() == ReqMoved(p, old(urb.Value(status)), old(req.Value()), len)
  {
    hide Copy;
    if p.toHost {
      MemCpy(urb.buf, urb.actual, req.buf, req.actual, len);
    } else {
      MemCpy(req.buf, req.actual, urb.buf, urb.actual, len);
    }
    urb.actual := urb.actual + len;
    req.actual := req.actual + len;
  }

  // A turn that moves nothing, and the bounds of a move.
  lemma PlanFits(p: Pipe, s: State<Request>, cancels: seq<set<Request>>)
    requires p.maxpacket > 0 && Valid(s) && s.at < |s.queue|
    ensures
      var r := s.reqs[s.queue[s.at]];
      match Decide(p, s.urb, r, s.limit)
      case Skip => Turn(p, s, cancels) == (s.(at := s.at + 1), false)
      case Stop => Turn(p, s, cancels) == (s, true)
      case Move(len, _, _) => s.urb.actual + len <= |s.urb.buf| && r.actual + len <= |r.buf| && len <= s.limit
  {
    hide Decide, Valid, NextCancel, AfterMove, Turn, Data;
    TurnPlan(p, s, cancels);
  }

  // The end of a turn that moves.
  lemma MoveEnds(p: Pipe, s: State<Request>, cancels: seq<set<Request>>, t: State<Request>, finished: bool)
    requires p.maxpacket > 0 && Valid(s) && s.at < |s.queue|
    requires
      var h, cancel := s.queue[s.at], NextCancel(s, cancels);
      var plan := Decide(p, s.urb, s.reqs[h], s.limit);
      && plan.Move?
      && s.urb.actual + plan.len <= |s.urb.buf| && s.reqs[h].actual + plan.len <= |s.reqs[h].buf|
      && plan.len <= s.limit
      && var m := AfterMove(p, s, plan.len, plan.short);
      && (finished <==> m.reqs[h].status != EINPROGRESS)
      && t.urb == m.urb && t.limit == s.limit - plan.len
      && t.at == (if plan.rescan || finished then 0 else s.at + 1)
      && t.queue == (if finished then Kept(Removed(s.queue, s.at), cancel) else s.queue)
      && t.reqs == (if finished then Dequeued(m.reqs, Removed(s.queue, s.at), cancel) else m.reqs)
      && t.log == s.log + [Piece(h, Data(p, s.urb, s.reqs[h], plan.len))]
      && t.done == (if finished then s.done + [h] else s.done)
    ensures (t, t.urb.status != EINPROGRESS) == Turn(p, s, cancels)
  {
    TurnPlan(p, s, cancels);
    hide Decide, Valid, NextCancel, AfterMove, Turn, Kept, Removed, Dequeued, Data;
  }

  class Endpoint {
    var queue: seq<Request>

    constructor ()
      ensures queue == []
    {
      queue := [];
    }

    ghost function Snap(all: set<Request>, urb: HostUrb, status: int, limit: nat, at: nat,
                        log: seq<Piece<Request>>, done: seq<Request>): State<Request>
      reads this, all, Buffers(all), urb, urb.buf
    {
      State(Reqs(all), queue, urb.Value(status), limit, at, log, done)
    }

    // A new endpoint is ready for a transfer.
    lemma NewIsValid(urb: HostUrb, limit: nat)
      requires queue == [] && urb.actual <= urb.buf.Length
      ensures Valid(Snap({}, urb, EINPROGRESS, limit, 0, [], [])) && Apart({}, urb)
    {
      hide Snap, Reqs;
      assert Snap({}, urb, EINPROGRESS, limit, 0, [], []) ==
             State(map[], [], urb.Value(EINPROGRESS), limit, 0, [], []) by {
        EmptySnap(urb, limit);
      }
    }

    lemma EmptySnap(urb: HostUrb, limit: nat)
      requires queue == []
      ensures Snap({}, urb, EINPROGRESS, limit, 0, [], []) ==
              State(map[], [], urb.Value(EINPROGRESS), limit, 0, [], [])
    {
    }

    // The part of one turn that computes how much to move.
    method DecideMove(p: Pipe, urb: HostUrb, req: Request, limit: nat, ghost status: int) returns (plan: Plan)
      requires p.maxpacket > 0 && urb.actual <= urb.buf.Length && req.actual <= req.buf.Length
      ensures plan == Decide(p, urb.Value(status), req.Value(), limit)
    {
      if p.streams && urb.stream != req.stream {
        return Skip;
      }
      var hostLen := urb.buf.Length - urb.actual;
      var devLen := req.buf.Length - req.actual;
      var len := if hostLen < devLen then hostLen else devLen;
      if len == 0 {
        return Move(0, true, false);
      }
      if limit < p.maxpacket && limit < len {
        return Stop;
      }
      len := if len < limit then len else limit;
      if len == 0 {
        return Stop;
      }
      var rescan := false;
      if len > p.maxpacket {
        rescan := true;
        len := len - len % p.maxpacket;
      }
      var short := len % p.maxpacket != 0;
      return Move(len, short, rescan);
    }

    // The part that moves the bytes and settles the two statuses.
    method MoveBytes(p: Pipe, urb: HostUrb, req: Request, len: nat, short: bool, status: int) returns (status': int)
      requires req.buf != urb.buf && urb.actual + len <= urb.buf.Length && req.actual + len <= req.buf.Length
      modifies urb, urb.buf, req, req.buf
      ensures
        var u, r := old(urb.Value(status)), old(req.Value());
        var host, dev := |u.buf| - u.actual, |r.buf| - r.actual;
        var u', r' := UrbMoved(p, u, r, len), ReqMoved(p, u, r, len);
        && urb.Value(status') == u'.(status := UrbStatus(p, u', host, dev, short))
        && req.Value() == r'.(status := ReqStatus(p, r', host, dev, short))
    {
      var hostLen := urb.buf.Length - urb.actual;
      var devLen := req.buf.Length - req.actual;
      if len > 0 {
        PerformTransfer(p, urb, req, len, status);
      } else {
        NothingMoved(p, urb.Value(status), req.Value());
      }
      status' := status;
      if short {
        if hostLen == devLen {
          req.status, status' := 0, 0;
        } else if p.toHost {
          req.status := 0;
          status' := if devLen > hostLen then EOVERFLOW else 0;
        } else {
          status' := 0;
          req.status := if hostLen > devLen then EOVERFLOW else 0;
        }
      } else {
        if req.buf.Length == req.actual && !req.zero {
          req.status := 0;
        }
        if urb.buf.Length == urb.actual && !urb.zero {
          status' := 0;
        }
      }
    }

    // The move as a change to the table of requests.
    method MoveFor(p: Pipe, urb: HostUrb, req: Request, len: nat, short: bool, status: int, ghost all: set<Request>)
      returns (status': int)
      requires req in all && Apart(all, urb)
      requires urb.actual + len <= urb.buf.Length && req.actual + len <= req.buf.Length
      modifies urb, urb.buf, req, req.buf
      ensures
        var u, r := old(urb.Value(status)), old(req.Value());
        var host, dev := |u.buf| - u.actual, |r.buf| - r.actual;
        var u', r' := UrbMoved(p, u, r, len), ReqMoved(p, u, r, len);
        && urb.Value(status') == u'.(status := UrbStatus(p, u', host, dev, short))
        && req.status == ReqStatus(p, r', host, dev, short)
        && Reqs(all) == old(Reqs(all))[req := r'.(status := ReqStatus(p, r', host, dev, short))]
    {
      hide UrbMoved, ReqMoved, UrbStatus, ReqStatus;
      status' := MoveBytes(p, urb, req, len, short, status);
      assert forall r :: r in all && r != req ==> r.Value() == old(r.Value());
    }

    // The completion callback of the request at the cursor dequeues the requests in
    // cancel, as dummy_dequeue does.
    method Complete(at: nat, cancel: set<Request>, ghost all: set<Request>)
      requires at < |queue| && (forall r :: r in queue ==> r in all)
      modifies this, all
      ensures queue == Kept(Removed(old(queue), at), cancel)
      ensures Reqs(all) == Dequeued(old(Reqs(all)), Removed(old(queue), at), cancel)
    {
      hide Kept, Removed;
      RemovedSubset(queue, at);
      queue := Removed(queue, at);
      forall r | r in queue && r in cancel {
        r.status := ECONNRESET;
      }
      assert forall r :: r in all ==>
        r.Value() == if r in queue && r in cancel then old(r.Value()).(status := ECONNRESET) else old(r.Value());
      queue := Kept(queue, cancel);
    }

    // The part of one turn after the amount is known; s is the state before it.
    method MoveTurn(p: Pipe, urb: HostUrb, at: nat, len: nat, short: bool, status: int, cancel: set<Request>,
                    ghost all: set<Request>, ghost s: State<Request>)
      returns (status': int, finished: bool)
      requires Apart(all, urb) && Valid(s) && at == s.at < |queue|
      requires s.urb == urb.Value(status) && s.queue == queue && s.reqs == Reqs(all)
      requires s.urb.actual + len <= |s.urb.buf| && len <= s.limit
      requires queue[at] in all && s.reqs[queue[at]].actual + len <= |s.reqs[queue[at]].buf|
      requires forall r :: r in queue ==> r in all
      modifies this, all, Buffers(all), urb, urb.buf
      ensures
        var m := AfterMove(p, s, len, short);
        && urb.Value(status') == m.urb
        && (finished <==> m.reqs[s.queue[s.at]].status != EINPROGRESS)
        && queue == (if finished then Kept(Removed(s.queue, at), cancel) else s.queue)
        && Reqs(all) == if finished then Dequeued(m.reqs, Removed(s.queue, at), cancel) else m.reqs
    {
      hide Valid, Kept, Removed, Dequeued, UrbMoved, ReqMoved, UrbStatus, ReqStatus, Data;
      var req := queue[at];
      status' := MoveFor(p, urb, req, len, short, status, all);
      finished := req.status != EINPROGRESS;
      if finished {
        Complete(at, cancel, all);
      }
    }

    // One turn of the loop.
    method OneTurn(p: Pipe, urb: HostUrb, limit: nat, at: nat, status: int, cancel: set<Request>,
                   ghost all: set<Request>, ghost cancels: seq<set<Request>>,
                   ghost log: seq<Piece<Request>>, ghost done: seq<Request>)
      returns (limit': nat, at': nat, status': int, completed: bool, stop: bool,
               ghost log': seq<Piece<Request>>, ghost done': seq<Request>)
      requires p.maxpacket > 0 && at < |queue| && Apart(all, urb)
      requires Valid(Snap(all, urb, status, limit, at, log, done)) && status == EINPROGRESS
      requires cancel == NextCancel(Snap(all, urb, status, limit, at, log, done), cancels)
      modifies this, all, Buffers(all), urb, urb.buf
      ensures (Snap(all, urb, status', limit', at', log', done'), stop)
           == Turn(p, old(Snap(all, urb, status, limit, at, log, done)), cancels)
      ensures |done'| == |done| + if completed then 1 else 0
    {
      limit', at', status', completed, stop, log', done' := limit, at, status, false, false, log, done;
      var req := queue[at];
      ghost var s := Snap(all, urb, status, limit, at, log, done);
      QueueIs(s, req);
      PlanFits(p, s, cancels);
      hide Decide, Valid, NextCancel, Apart, AfterMove, Turn, Kept, Removed, Dequeued, Data;
      var plan := DecideMove(p, urb, req, limit, status);
      match plan {
        case Skip => at' := at + 1;
        case Stop => stop := true;
        case Move(len, short, rescan) =>
          log' := log + [Piece(req, Data(p, urb.Value(status), req.Value(), len))];
          status', completed := MoveTurn(p, urb, at, len, short, status, cancel, all, s);
          limit' := limit - len;
          at' := if rescan || completed then 0 else at + 1;
          if completed {
            done' := done + [req];
          }
          stop := status' != EINPROGRESS;
          MoveEnds(p, s, cancels, Snap(all, urb, status', limit', at', log', done'), completed);
      }
    }

    // transfer.  The callback of the k-th completion dequeues the requests in cancels[k].
    method Transfer(p: Pipe, urb: HostUrb, limit: nat, cancels: seq<set<Request>>, ghost all: set<Request>)
      returns (left: nat, status: int, ghost at: nat, ghost log: seq<Piece<Request>>, ghost done: seq<Request>)
      requires p.maxpacket > 0 && Apart(all, urb)
      requires Valid(Snap(all, urb, EINPROGRESS, limit, 0, [], []))
      modifies this, all, Buffers(all), urb, urb.buf
      ensures Snap(all, urb, status, left, at, log, done)
           == Run(p, old(Snap(all, urb, EINPROGRESS, limit, 0, [], [])), cancels)
    {
      hide Valid, Turn, Apart, NextCancel;
      left, status, at, log, done := limit, EINPROGRESS, 0, [], [];
      var i, completions, stop := 0, 0, false;
      ghost var s := Snap(all, urb, status, left, i, log, done);
      ghost var was := s;
      while !stop && i < |queue|
        invariant i <= |queue| && completions == |done| && at == i
        invariant s == Snap(all, urb, status, left, i, log, done)
        invariant !stop ==> status == EINPROGRESS && Valid(s) && Run(p, s, cancels) == Run(p, was, cancels)
        invariant stop ==> s == Run(p, was, cancels)
        decreases !stop, |queue|, urb.buf.Length - urb.actual, |queue| - i
      {
        RunStep(p, s, cancels);
        var cancel := if completions < |cancels| then cancels[completions] else {};
        CancelIs(s, cancels);
        var completed;
        left, i, status, completed, stop, log, done := OneTurn(p, urb, left, i, status, cancel, all, cancels, log, done);
        if completed {
          completions := completions + 1;
        }
        at := i;
        s := Snap(all, urb, status, left, i, log, done);
      }
    }
  }

  // One step of Run, and why there are finitely many.
  lemma RunStep<H>(p: Pipe, s: State<H>, cancels: seq<set<H>>)
    requires p.maxpacket > 0 && Valid(s) && s.at < |s.queue| && s.urb.status == EINPROGRESS
    ensures
      var (t, stop) := Turn(p, s, cancels);
      && Valid(t) && t.at <= |t.queue| && |t.urb.buf| == |s.urb.buf|
      && (!stop ==> t.urb.status == EINPROGRESS)
      && Run(p, s, cancels) == (if stop then t else Run(p, t, cancels))
      && (!stop ==>
            || |t.queue| < |s.queue|
            || (|t.queue| == |s.queue| && t.urb.actual > s.urb.actual)
            || (|t.queue| == |s.queue| && t.urb.actual == s.urb.actual && t.at == s.at + 1))
      && t.urb.actual <= |t.urb.buf|
  {
    hide Turn;
    TurnDecreases(p, s, cancels);
    TurnValid(p, s, cancels);
  }

  lemma CancelIs<H>(s: State<H>, cancels: seq<set<H>>)
    ensures NextCancel(s, cancels) == if |s.done| < |cancels| then cancels[|s.done|] else {}
  {
  }

  lemma RemovedSubset<H>(queue: seq<H>, at: nat)
    requires at < |queue|
    ensures forall h :: h in Removed(queue, at) ==> h in queue
  {
  }

  lemma NothingMoved(p: Pipe, u: Urb, r: Req)
    requires u.actual <= |u.buf| && r.actual <= |r.buf|
    ensures UrbMoved(p, u, r, 0) == u && ReqMoved(p, u, r, 0) == r
  {
    assert Copy(u.buf, u.actual, []) == u.buf && Copy(r.buf, r.actual, []) == r.buf;
  }

  lemma QueueIs<H>(s: State<H>, req: H)
    requires Valid(s) && req in s.queue
    ensures s.reqs[req].actual <= |s.reqs[req].buf| && s.reqs[req].status == EINPROGRESS
    ensures s.urb.actual <= |s.urb.buf|
    ensures forall r :: r in s.queue ==> r in s.reqs
  {
  }
}
