/** The packets that a TX channel of gadget/bcm63xx_udc.c puts on the bus for one request,
    over all its submissions, and when they are the packets of section 5.8.3 of USB 2.0. */
module BcmPackets {
  import opened Arithmetic
  import opened Iudma
  import opened IudmaTransfer
  import opened TxPackets

  // A descriptor is sent as its window cut into packets, or as one empty packet.
  function PacketsOf(d: Desc, dma: int, buf: seq<Byte>, mp: nat): seq<Packet>
    requires mp > 0
  {
    if d.zero then [[]]
    else if 0 <= d.address - dma && d.address - dma + d.length <= |buf|
    then Split(buf[d.address - dma..d.address - dma + d.length], mp)
    else []
  }

  function Stream(ds: seq<Desc>, dma: int, buf: seq<Byte>, mp: nat): seq<Packet>
    requires mp > 0
  {
    if ds == [] then []
    else Stream(ds[..|ds| - 1], dma, buf, mp) + PacketsOf(ds[|ds| - 1], dma, buf, mp)
  }

  lemma {:induction false} StreamConcat(a: seq<Desc>, b: seq<Desc>, dma: int, buf: seq<Byte>, mp: nat)
    requires mp > 0
    ensures Stream(a + b, dma, buf, mp) == Stream(a, dma, buf, mp) + Stream(b, dma, buf, mp)
    decreases |b|
  {
    hide PacketsOf;
    if b == [] {
      assert a + b == a;
    } else {
      StreamConcat(a, b[..|b| - 1], dma, buf, mp);
      assert (a + b)[..|a + b| - 1] == a + b[..|b| - 1];
    }
  }

  // ---- One submission

  // The empty packet if the list ends with a zero-length descriptor.
  function Tail(ds: seq<Desc>): seq<Packet> {
    if ds != [] && ds[|ds| - 1].zero then [[]] else []
  }

  // A TX submission of a request on its own channel, and a packet size that divides the
  // fragment size: 64 and 512 are the ones the driver configures.
  ghost predicate TxSetup(ch: Chan, r: Req, buf: seq<Byte>) {
    && CanWrite(ch, r) && ch.isTx && |buf| == r.length
    && Aligned(MAX_FRAGMENT, ch.maxPkt)
  }

  lemma PostedPackets(ch: Chan, r: Req, buf: seq<Byte>, i: nat)
    requires TxSetup(ch, r, buf) && i < |PostedList(ch, r)|
    ensures
      var left, d := r.length - r.offset, PostedList(ch, r)[i];
      var a, b := r.offset + Cover(ch, left, i), r.offset + Cover(ch, left, i + 1);
      && a <= b <= r.length
      && (d.zero <==> a == b)
      && PacketsOf(d, r.dma, buf, ch.maxPkt) == if d.zero then [[]] else Split(buf[a..b], ch.maxPkt)
  {
    hide Count;
  }

  lemma StreamNext(ds: seq<Desc>, i: nat, dma: int, buf: seq<Byte>, mp: nat)
    requires mp > 0 && i < |ds|
    ensures Stream(ds[..i + 1], dma, buf, mp) == Stream(ds[..i], dma, buf, mp) + PacketsOf(ds[i], dma, buf, mp)
  {
    assert ds[..i + 1][..i] == ds[..i];
  }

  lemma {:induction false} PostedStream(ch: Chan, r: Req, buf: seq<Byte>, i: nat)
    requires TxSetup(ch, r, buf) && i <= |PostedList(ch, r)|
    ensures
      var part := PostedList(ch, r)[..i];
      var b := r.offset + Cover(ch, r.length - r.offset, i);
      && b <= r.length
      && Stream(part, r.dma, buf, ch.maxPkt) == Split(buf[r.offset..b], ch.maxPkt) + Tail(part)
  {
    hide PostedList, Cover, Split, Aligned, Stream, Tail;
    if i == 0 {
      PostedNothing(ch, r, buf);
    } else {
      PostedStream(ch, r, buf, i - 1);
      PostedStreamNext(ch, r, buf, i - 1);
    }
  }

  lemma PostedNothing(ch: Chan, r: Req, buf: seq<Byte>)
    requires TxSetup(ch, r, buf)
    ensures
      var part := PostedList(ch, r)[..0];
      && Cover(ch, r.length - r.offset, 0) == 0
      && Stream(part, r.dma, buf, ch.maxPkt) == Split(buf[r.offset..r.offset], ch.maxPkt) + Tail(part)
  {
    assert buf[r.offset..r.offset] == [];
  }

  lemma PostedStreamNext(ch: Chan, r: Req, buf: seq<Byte>, i: nat)
    requires TxSetup(ch, r, buf) && i < |PostedList(ch, r)|
    requires r.offset + Cover(ch, r.length - r.offset, i) <= r.length
    requires Stream(PostedList(ch, r)[..i], r.dma, buf, ch.maxPkt)
             == Split(buf[r.offset..r.offset + Cover(ch, r.length - r.offset, i)], ch.maxPkt) + Tail(PostedList(ch, r)[..i])
    ensures
      var part := PostedList(ch, r)[..i + 1];
      var b := r.offset + Cover(ch, r.length - r.offset, i + 1);
      && b <= r.length
      && Stream(part, r.dma, buf, ch.maxPkt) == Split(buf[r.offset..b], ch.maxPkt) + Tail(part)
  {
    hide PostedList, Cover, PacketsOf, Split, Aligned, Stream;
    var ds, left := PostedList(ch, r), r.length - r.offset;
    var a, b := r.offset + Cover(ch, left, i), r.offset + Cover(ch, left, i + 1);
    PostedPackets(ch, r, buf, i);
    OnlyLastIsZero(ch, r, i);
    AlignedMultiple(MAX_FRAGMENT, i, ch.maxPkt);
    StreamNext(ds, i, r.dma, buf, ch.maxPkt);
    assert ds[i].zero ==> a == b;
    assert !ds[i].zero ==> a - r.offset == MAX_FRAGMENT * i;
    assert Tail(ds[..i]) == [];
    if !ds[i].zero {
      SplitPiece(buf, r.offset, a, b, ch.maxPkt);
    }
  }

  // Cutting at a packet boundary inside a window.
  lemma SplitPiece(buf: seq<Byte>, o: nat, a: nat, b: nat, mp: nat)
    requires mp > 0 && o <= a <= b <= |buf| && Aligned(a - o, mp)
    ensures Split(buf[o..b], mp) == Split(buf[o..a], mp) + Split(buf[a..b], mp)
  {
    SplitConcat(buf[o..a], buf[a..b], mp);
    assert buf[o..a] + buf[a..b] == buf[o..b];
  }

  // Before the i-th descriptor of a submission there is no zero-length one, and all
  // before it are full fragments.
  lemma OnlyLastIsZero(ch: Chan, r: Req, i: nat)
    requires CanWrite(ch, r) && ch.isTx && i < |PostedList(ch, r)|
    ensures i > 0 ==> !PostedList(ch, r)[i - 1].zero
    ensures !PostedList(ch, r)[i].zero ==> Cover(ch, r.length - r.offset, i) == MAX_FRAGMENT * i
  {
    CountBounds(ch, r);
  }

  // The last descriptor of a submission is an empty packet exactly when there is nothing
  // to send, or the request wants one and the data leaves a descriptor for it.
  lemma LastIsZero(ch: Chan, r: Req)
    requires CanWrite(ch, r) && ch.isTx
    ensures
      var ds, left := PostedList(ch, r), r.length - r.offset;
      && |ds| > 0
      && (ds[|ds| - 1].zero <==> left == 0 || (WantsZlp(ch, r) && DataBds(left) < |ch.ring|))
      && (ds[|ds| - 1].zero ==> Submitted(ch, r).offset == r.length)
  {
    CountBounds(ch, r);
  }

  // ---- All submissions

  // The data needs less than a full portion of n descriptors in its last submission.
  predicate RoomForZlp(length: nat, n: nat)
    requires n > 0
  {
    length == 0 || (length - 1) % Portion(n) < MAX_FRAGMENT * (n - 1)
  }

  // What is on the bus is the data up to the offset, and an empty packet if the last
  // submission ended with one.
  ghost predicate OnBus(t: Transfer, n: nat, buf: seq<Byte>)
    requires Good(t, n)
  {
    var last := t.subs[|t.subs| - 1];
    && t.ch.isTx && |buf| == t.r.length && Aligned(MAX_FRAGMENT, t.ch.maxPkt)
    && Stream(Flat(t.subs), t.r.dma, buf, t.ch.maxPkt) == Split(buf[..t.r.offset], t.ch.maxPkt) + Tail(last)
    && EndsRight(t, n, last)
  }

  ghost predicate EndsRight(t: Transfer, n: nat, last: seq<Desc>)
    requires Good(t, n)
  {
    var before := Sent(n, |t.subs| - 1);
    && |last| > 0 && before <= t.r.length
    && (last[|last| - 1].zero <==>
          t.r.length == 0 || (t.r.zero && Aligned(t.r.length, t.ch.maxPkt) && DataBds(t.r.length - before) < n))
    && (t.r.offset < t.r.length ==> !last[|last| - 1].zero)
  }

  lemma SentAligned(n: nat, k: nat, mp: nat)
    requires mp > 0 && Aligned(MAX_FRAGMENT, mp)
    ensures Aligned(Sent(n, k), mp)
  {
    assert Sent(n, k) == MAX_FRAGMENT * (n * k);
    AlignedMultiple(MAX_FRAGMENT, n * k, mp);
  }

  lemma StartOnBus(ch: Chan, r: Req, buf: seq<Byte>)
    requires ChanOk(ch) && ch.used == 0 && Ready(r) && r.actual == 0 && TxSetup(ch, r, buf)
    ensures Good(Start(ch, r), |ch.ring|) && OnBus(Start(ch, r), |ch.ring|, buf)
  {
    hide Good, ChanOk, PostedList, Stream, Split, Tail, Sent, Aligned, Count, Cover, Posted, Written;
    StartIsGood(ch, r);
    SubmissionOnBus(ch, r, buf);
    SentNext(|ch.ring|, 0);
    assert Flat([]) == [] && [] + PostedList(ch, r) == PostedList(ch, r);
    FlatAppend([], PostedList(ch, r));
    assert [] + [PostedList(ch, r)] == [PostedList(ch, r)];
    assert buf[0..Submitted(ch, r).offset] == buf[..Submitted(ch, r).offset];
    StartShape(ch, r);
    assert EndsRight(Start(ch, r), |ch.ring|, PostedList(ch, r));
  }

  lemma StartShape(ch: Chan, r: Req)
    requires CanWrite(ch, r) && |ch.ring| > 0
    ensures Start(ch, r).subs == [PostedList(ch, r)] && Start(ch, r).r == Submitted(ch, r)
    ensures Start(ch, r).ch.isTx == ch.isTx && Start(ch, r).ch.maxPkt == ch.maxPkt
    ensures |Start(ch, r).ch.ring| == |ch.ring|
  {
    CountBounds(ch, r);
  }

  // What one submission puts on the bus, in one place.
  lemma SubmissionOnBus(ch: Chan, r: Req, buf: seq<Byte>)
    requires TxSetup(ch, r, buf)
    ensures
      var ds, q := PostedList(ch, r), Submitted(ch, r);
      && |ds| > 0 && q.offset <= r.length
      && Stream(ds, r.dma, buf, ch.maxPkt) == Split(buf[r.offset..q.offset], ch.maxPkt) + Tail(ds)
      && (ds[|ds| - 1].zero <==>
            r.length == r.offset || (WantsZlp(ch, r) && DataBds(r.length - r.offset) < |ch.ring|))
      && (ds[|ds| - 1].zero ==> q.offset == r.length)
  {
    hide Split, Aligned, Stream, Tail;
    var ds := PostedList(ch, r);
    CountBounds(ch, r);
    LastIsZero(ch, r);
    PostedStream(ch, r, buf, |ds|);
    assert ds[..|ds|] == ds;
  }

  // The next submission starts on a packet boundary and sends what follows.
  lemma ResubmitOnBus(t: Transfer, n: nat, buf: seq<Byte>, rc: nat)
    requires Good(t, n) && OnBus(t, n, buf) && !t.done && rc == ReadResult(t.ch) && !Ends(t.r, rc)
    requires Good(Interrupted(t), n)
    ensures OnBus(Interrupted(t), n, buf)
  {
    hide Posted, PostedList, Stream, Split, Flat, Tiled, Total, IsChain, Sent, Aligned, Released, Reported, Cover, Count;
    ReapOutcome(t.ch, t.r);
    TxPortion(t, n, rc);
    var ch, r, q := Reaped(t.ch), Continued(t.r, rc), Interrupted(t);
    SentAligned(n, |t.subs|, ch.maxPkt);
    AlignedSum(r.offset, r.length - r.offset, ch.maxPkt);
    var ds := PostedList(ch, r);
    assert q == Transfer(Written(ch, r), Submitted(ch, r), t.subs + [ds], false);
    assert Tail(t.subs[|t.subs| - 1]) == [];
    SubmissionOnBus(ch, r, buf);
    ResubmitStream(t.subs, ch, r, buf);
    assert EndsRight(q, n, ds);
  }

  lemma ResubmitStream(subs: seq<seq<Desc>>, ch: Chan, r: Req, buf: seq<Byte>)
    requires TxSetup(ch, r, buf) && Aligned(r.offset, ch.maxPkt)
    requires Stream(Flat(subs), r.dma, buf, ch.maxPkt) == Split(buf[..r.offset], ch.maxPkt)
    ensures
      var ds, q := PostedList(ch, r), Submitted(ch, r);
      && q.offset <= r.length
      && Stream(Flat(subs + [ds]), r.dma, buf, ch.maxPkt) == Split(buf[..q.offset], ch.maxPkt) + Tail(ds)
  {
    hide PostedList, Stream, Split, Tail, Aligned, Count, Cover, Flat;
    var ds, b := PostedList(ch, r), Submitted(ch, r).offset;
    SubmissionOnBus(ch, r, buf);
    FlatAppend(subs, ds);
    StreamConcat(Flat(subs), ds, r.dma, buf, ch.maxPkt);
    SplitPiece(buf, 0, r.offset, b, ch.maxPkt);
    assert buf[0..r.offset] == buf[..r.offset] && buf[0..b] == buf[..b];
  }

  lemma StepOnBus(t: Transfer, n: nat, buf: seq<Byte>, e: Event)
    requires Good(t, n) && OnBus(t, n, buf)
    ensures Good(Step(t, e), n) && OnBus(Step(t, e), n, buf)
  {
    hide Good, OnBus, ReadResult, Ends, Interrupted;
    StepKeeps(t, n, e);
    if e == Interrupt && Resubmits(t) {
      ResubmitOnBus(t, n, buf, ReadResult(t.ch));
    } else {
      NoResubmit(t, e);
      SameOnBus(t, Step(t, e), n, buf);
    }
  }

  // What the bus has carried depends on the submissions and not on their completion.
  lemma SameOnBus(t: Transfer, q: Transfer, n: nat, buf: seq<Byte>)
    requires Good(t, n) && Good(q, n) && OnBus(t, n, buf)
    requires q.subs == t.subs && q.r == t.r.(actual := q.r.actual)
    requires q.ch.isTx == t.ch.isTx && q.ch.maxPkt == t.ch.maxPkt
    ensures OnBus(q, n, buf)
  {
    hide Good, Stream, Split, Flat, Tail, Sent, Aligned;
  }

  ghost predicate Resubmits(t: Transfer) {
    !t.done && Window(t.ch) && ReadResult(t.ch) >= 0 && !Ends(t.r, ReadResult(t.ch))
  }

  lemma NoResubmit(t: Transfer, e: Event)
    requires !(e == Interrupt && Resubmits(t))
    ensures
      var q := Step(t, e);
      && q.subs == t.subs && q.r == t.r.(actual := q.r.actual)
      && q.ch.isTx == t.ch.isTx && q.ch.maxPkt == t.ch.maxPkt
  {
  }

  lemma {:induction false} RunOnBus(t: Transfer, n: nat, buf: seq<Byte>, es: seq<Event>)
    requires Good(t, n) && OnBus(t, n, buf)
    ensures Good(Run(t, es), n) && OnBus(Run(t, es), n, buf)
    decreases |es|
  {
    if es != [] {
      StepOnBus(t, n, buf, es[0]);
      hide Good, OnBus, Step;
      RunOnBus(Step(t, es[0]), n, buf, es[1..]);
    }
  }

  // A finished TX request has put exactly the standard's packets on the bus, unless it
  // asked for an empty packet after data that fills every descriptor of its last
  // submission: then, and only then, that packet is missing.
  lemma BcmSendsPackets(ch: Chan, r: Req, buf: seq<Byte>, es: seq<Event>)
    requires ChanOk(ch) && ch.used == 0 && Ready(r) && r.actual == 0 && TxSetup(ch, r, buf)
    requires Run(Start(ch, r), es).done
    ensures
      var sent := Stream(Flat(Run(Start(ch, r), es).subs), r.dma, buf, ch.maxPkt);
      && (sent == Packets(buf, ch.maxPkt, r.zero) <==>
            !(r.zero && r.length > 0 && Aligned(r.length, ch.maxPkt) && !RoomForZlp(r.length, |ch.ring|)))
      && (sent == Packets(buf, ch.maxPkt, r.zero) || sent + [[]] == Packets(buf, ch.maxPkt, r.zero))
  {
    hide Run, Start, Stream, Split, InFlight, ChanOk, Tiled, Flat, Total, IsChain, RoomForZlp, Sent, Aligned;
    var t, n := Run(Start(ch, r), es), |ch.ring|;
    StartOnBus(ch, r, buf);
    RunOnBus(Start(ch, r), n, buf, es);
    RunSameRequest(Start(ch, r), n, es);
    StartSame(ch, r);
    assert buf[..t.r.offset] == buf;
    if r.length > 0 {
      RoomIs(r.length, n, |t.subs|);
    }
  }

  lemma RoomIs(length: nat, n: nat, k: nat)
    requires n > 0 && k > 0 && Sent(n, k - 1) < length <= Sent(n, k - 1) + Portion(n)
    ensures RoomForZlp(length, n) <==> DataBds(length - Sent(n, k - 1)) < n
  {
    CeilIs(length, n, k);
  }
}
