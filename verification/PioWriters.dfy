/** What gadget/at91_udc.c and gadget/atmel_usba_udc.c have in common: they copy the IN
    requests of a queue to a FIFO packet by packet, and choose the next packet of the head
    and whether it is the last by the same rule. */
module PioWriters {
  import opened Arithmetic
  import opened TxPackets

  // What a gadget driver asks for.
  datatype Order = Order(buf: seq<Byte>, zero: bool)

  // A request on the queue, and how much of it has reached the FIFO.
  datatype Req = Req(order: Order, actual: nat, submitted: bool)

  function Fresh(o: Order): Req { Req(o, 0, false) }

  // The queue, the requests completed, and the packets copied to the FIFO.
  datatype Work = Work(queue: seq<Req>, done: seq<Order>, wire: seq<Packet>)

  const NO_WORK := Work([], [], [])

  predicate InBounds(r: Req) { r.actual <= |r.order.buf| }

  function Count(r: Req, mp: nat): (k: nat)
    requires InBounds(r)
    ensures k <= mp && r.actual + k <= |r.order.buf|
  {
    var total := |r.order.buf| - r.actual;
    if mp < total then mp else total
  }

  predicate IsLast(r: Req, mp: nat)
    requires InBounds(r)
  {
    var total := |r.order.buf| - r.actual;
    total < mp || (total == mp && !r.order.zero)
  }

  // One packet of the head.
  function Load(w: Work, mp: nat): (v: Work)
    requires w.queue != [] && InBounds(w.queue[0])
    ensures |v.queue| == |w.queue| && InBounds(v.queue[0])
  {
    var r := w.queue[0];
    var k := Count(r, mp);
    w.(queue := [r.(actual := r.actual + k)] + w.queue[1..],
       wire := w.wire + [r.order.buf[r.actual..r.actual + k]])
  }

  function Finish(w: Work): Work
    requires w.queue != []
  {
    w.(queue := w.queue[1..], done := w.done + [w.queue[0].order])
  }

  // ---- The packets that the standard wants for a list of requests

  function Wire(os: seq<Order>, mp: nat): seq<Packet>
    requires mp > 0
  {
    if os == [] then []
    else Wire(os[..|os| - 1], mp) + Packets(os[|os| - 1].buf, mp, os[|os| - 1].zero)
  }

  lemma WireMore(os: seq<Order>, o: Order, mp: nat)
    requires mp > 0
    ensures Wire(os + [o], mp) == Wire(os, mp) + Packets(o.buf, mp, o.zero)
  {
    assert (os + [o])[..|os|] == os;
  }

  lemma {:induction false} WirePrefix(a: seq<Order>, b: seq<Order>, mp: nat)
    requires mp > 0
    ensures Wire(a, mp) <= Wire(a + b, mp)
    decreases |b|
  {
    if b == [] {
      assert a + b == a;
    } else {
      var c := b[..|b| - 1];
      WirePrefix(a, c, mp);
      assert a + b == (a + c) + [b[|b| - 1]];
      WireMore(a + c, b[|b| - 1], mp);
    }
  }

  function Orders(queue: seq<Req>): (os: seq<Order>)
    ensures |os| == |queue| && forall i :: 0 <= i < |os| ==> os[i] == queue[i].order
  {
    if queue == [] then [] else Orders(queue[..|queue| - 1]) + [queue[|queue| - 1].order]
  }

  lemma OrdersConcat(a: seq<Order>, b: seq<Order>, c: seq<Order>)
    ensures (a + b) + c == a + (b + c)
  {
  }

  lemma PacketsConcat(a: seq<Packet>, b: seq<Packet>, c: seq<Packet>)
    ensures (a + b) + c == a + (b + c)
  {
  }

  // Everything that has been asked for, the completed requests first.
  function Asked(w: Work): seq<Order> { w.done + Orders(w.queue) }

  // ---- The invariant of both writers

  // Everything of the request is still to come, or its end: what has been copied is what
  // the standard starts with, and with nothing left an empty packet is owed.
  ghost predicate Owes(r: Req, mp: nat)
    requires mp > 0
  {
    && InBounds(r) && Aligned(r.actual, mp)
    && (r.actual == |r.order.buf| ==> ZlpDue(|r.order.buf|, mp, r.order.zero))
  }

  function Part(r: Req, mp: nat): seq<Packet>
    requires mp > 0 && InBounds(r)
  {
    Split(r.order.buf[..r.actual], mp)
  }

  ghost predicate Waiting(rs: seq<Req>) { forall k :: 0 <= k < |rs| ==> rs[k] == Fresh(rs[k].order) }

  // What is on the wire is all of the completed requests and the start of the head.
  ghost predicate Clean(w: Work, mp: nat)
    requires mp > 0
  {
    if w.queue == [] then w.wire == Wire(w.done, mp)
    else
      && Owes(w.queue[0], mp) && w.wire == Wire(w.done, mp) + Part(w.queue[0], mp)
      && Waiting(w.queue[1..])
  }

  // Between completions nothing is on the wire but what the standard wants for the
  // requests in the order in which they were queued, and all of that once none is left.
  lemma CleanIsPrefix(w: Work, mp: nat)
    requires mp > 0 && Clean(w, mp)
    ensures w.wire <= Wire(Asked(w), mp)
    ensures w.queue == [] ==> w.wire == Wire(Asked(w), mp)
  {
    if w.queue == [] {
      assert Asked(w) == w.done;
    } else {
      var r := w.queue[0];
      var os := Orders(w.queue);
      assert w.done + os == (w.done + [r.order]) + os[1..];
      WireMore(w.done, r.order, mp);
      PartIsPrefix(r, mp);
      WirePrefix(w.done + [r.order], os[1..], mp);
    }
  }

  lemma PartIsPrefix(r: Req, mp: nat)
    requires mp > 0 && Owes(r, mp)
    ensures Part(r, mp) <= Packets(r.order.buf, mp, r.order.zero)
  {
    var a, b := r.order.buf[..r.actual], r.order.buf[r.actual..];
    assert a + b == r.order.buf;
    SplitConcat(a, b, mp);
  }

  lemma FreshOwes(o: Order, mp: nat)
    requires mp > 0
    ensures Owes(Fresh(o), mp) && Part(Fresh(o), mp) == []
  {
    AlignedZero(mp);
  }

  // The next packet of a request that owes something: with the last one the request is on
  // the wire as the standard wants it, and before that it still owes something.
  lemma LoadKeeps(r: Req, mp: nat)
    requires mp > 0 && Owes(r, mp)
    ensures
      var k := Count(r, mp);
      var sent := Part(r, mp) + [r.order.buf[r.actual..r.actual + k]];
      var next := r.(actual := r.actual + k);
      if IsLast(r, mp) then sent == Packets(r.order.buf, mp, r.order.zero)
      else Owes(next, mp) && sent == Part(next, mp)
  {
    hide Split;
    var buf, a, k := r.order.buf, r.actual, Count(r, mp);
    SplitPacket(buf[..a], buf[a..a + k], mp);
    assert buf[..a] + buf[a..a + k] == buf[..a + k];
    assert buf[..|buf|] == buf;
    AlignedSum(a, k, mp);
    AlignedZero(mp);
    AlignedSmall(mp, mp);
    if 0 < k < mp {
      AlignedSmall(k, mp);
    }
  }

  lemma SplitPacket(a: seq<Byte>, p: seq<Byte>, mp: nat)
    requires mp > 0 && Aligned(|a|, mp) && |p| <= mp
    ensures Split(a + p, mp) == if p == [] then Split(a, mp) else Split(a, mp) + [p]
  {
    SplitConcat(a, p, mp);
  }

  // One packet of the head, and the head gone with its last one.
  function Serve(w: Work, mp: nat): Work
    requires w.queue != [] && InBounds(w.queue[0])
  {
    if IsLast(w.queue[0], mp) then Finish(Load(w, mp)) else Load(w, mp)
  }

  lemma ServeIs(w: Work, mp: nat)
    requires w.queue != [] && InBounds(w.queue[0])
    ensures
      var r, rest, k := w.queue[0], w.queue[1..], Count(w.queue[0], mp);
      var wire := w.wire + [r.order.buf[r.actual..r.actual + k]];
      Serve(w, mp) == if IsLast(r, mp) then Work(rest, w.done + [r.order], wire)
                      else Work([r.(actual := r.actual + k)] + rest, w.done, wire)
  {
  }

  lemma ServeKeeps(w: Work, mp: nat)
    requires mp > 0 && w.queue != [] && Clean(w, mp)
    ensures Clean(Serve(w, mp), mp) && Asked(Serve(w, mp)) == Asked(w)
  {
    var r, rest := w.queue[0], w.queue[1..];
    hide Part, Wire, Packets, IsLast, Waiting, Serve, Asked, Aligned, ZlpDue;
    ServeIs(w, mp);
    LoadKeeps(r, mp);
    ServeAsked(w, mp);
    var k := Count(r, mp);
    var p := r.order.buf[r.actual..r.actual + k];
    PacketsConcat(Wire(w.done, mp), Part(r, mp), [p]);
    if IsLast(r, mp) {
      ServedLast(w, r, rest, p, mp);
    } else {
      ServedSome(w, r.(actual := r.actual + k), rest, p, mp);
    }
  }

  lemma AskedFirst(w: Work)
    requires w.queue != []
    ensures Asked(w) == w.done + ([w.queue[0].order] + Orders(w.queue[1..]))
  {
    assert w.queue == [w.queue[0]] + w.queue[1..];
    OrdersFirst(w.queue[0], w.queue[1..]);
  }

  lemma ServeAsked(w: Work, mp: nat)
    requires w.queue != [] && InBounds(w.queue[0])
    ensures Asked(Serve(w, mp)) == Asked(w)
  {
    hide Serve, Orders, Count, IsLast;
    ServeIs(w, mp);
    AskedFirst(w);
    if IsLast(w.queue[0], mp) {
      OrdersConcat(w.done, [w.queue[0].order], Orders(w.queue[1..]));
    } else {
      ServeQueue(w, mp);
      AskedFirst(Serve(w, mp));
    }
  }

  lemma ServeQueue(w: Work, mp: nat)
    requires w.queue != [] && InBounds(w.queue[0]) && !IsLast(w.queue[0], mp)
    ensures
      var q := Serve(w, mp).queue;
      q != [] && q[0].order == w.queue[0].order && q[1..] == w.queue[1..]
  {
  }

  lemma ServedSome(w: Work, next: Req, rest: seq<Req>, p: Packet, mp: nat)
    requires mp > 0 && Waiting(rest) && Owes(next, mp) && w.wire + [p] == Wire(w.done, mp) + Part(next, mp)
    ensures Clean(Work([next] + rest, w.done, w.wire + [p]), mp)
  {
    hide Owes, Part, Wire;
    assert ([next] + rest)[1..] == rest;
  }

  lemma OrdersFirst(r: Req, rest: seq<Req>)
    ensures Orders([r] + rest) == [r.order] + Orders(rest)
  {
  }

  lemma ServedLast(w: Work, r: Req, rest: seq<Req>, p: Packet, mp: nat)
    requires mp > 0 && Waiting(rest) && InBounds(r)
    requires w.wire + [p] == Wire(w.done, mp) + Packets(r.order.buf, mp, r.order.zero)
    ensures Clean(Work(rest, w.done + [r.order], w.wire + [p]), mp)
  {
    hide Owes, Part, Wire, Packets;
    WireMore(w.done, r.order, mp);
    if rest != [] {
      FreshOwes(rest[0].order, mp);
      assert Wire(w.done + [r.order], mp) + [] == Wire(w.done + [r.order], mp);
    }
  }

  function Append(w: Work, o: Order): Work { w.(queue := w.queue + [Fresh(o)]) }

  lemma AppendAsked(w: Work, o: Order)
    ensures Asked(Append(w, o)) == Asked(w) + [o]
  {
    assert (w.queue + [Fresh(o)])[..|w.queue|] == w.queue;
  }

  lemma AppendKeeps(w: Work, o: Order, mp: nat)
    requires mp > 0 && Clean(w, mp)
    ensures Clean(Append(w, o), mp) && Asked(Append(w, o)) == Asked(w) + [o]
  {
    FreshOwes(o, mp);
    AppendAsked(w, o);
    hide Owes, Part, Wire, Asked;
    assert Wire(w.done, mp) + [] == Wire(w.done, mp);
    if w.queue != [] {
      assert (w.queue + [Fresh(o)])[1..] == w.queue[1..] + [Fresh(o)];
    }
  }

  function AppendAll(w: Work, os: seq<Order>): Work
    decreases |os|
  {
    if os == [] then w else Append(AppendAll(w, os[..|os| - 1]), os[|os| - 1])
  }

  lemma {:induction false} AppendAllKeeps(w: Work, os: seq<Order>, mp: nat)
    requires mp > 0 && Clean(w, mp)
    ensures Clean(AppendAll(w, os), mp) && Asked(AppendAll(w, os)) == Asked(w) + os
    decreases |os|
  {
    if os != [] {
      var n := |os| - 1;
      AppendAllKeeps(w, os[..n], mp);
      AppendKeeps(AppendAll(w, os[..n]), os[n], mp);
      assert os == os[..n] + [os[n]];
    }
  }
}
