/** The IUDMA descriptor rings of gadget/bcm63xx_udc.c as values: what one submission
    posts, what the hardware may do to posted descriptors, what reaping them yields, and
    the invariant that ties an outstanding request to its ring. */
module Iudma {
  import opened Basics
  import opened Arithmetic

  const MAX_FRAGMENT: nat := 2048

  // One buffer descriptor; len_stat is kept as its separate fields.
  datatype Desc = Desc(address: int, length: nat, owner: bool, sop: bool, eop: bool, wrap: bool, zero: bool)

  datatype Chan = Chan(isTx: bool, coalesce: bool, maxPkt: nat, ring: seq<Desc>,
                       readBd: nat, writeBd: nat, used: nat)

  datatype Req = Req(dma: int, length: nat, zero: bool, actual: nat, offset: nat, bdBytes: nat)

  // ---- Positions on the ring

  // The slot that lies i steps after slot s on a ring of n.
  function Slot(n: nat, s: nat, i: nat): (k: nat)
    requires s < n && i <= n
    ensures k < n
  {
    if s + i < n then s + i else s + i - n
  }

  // How many steps after slot s slot k comes.
  function Steps(n: nat, s: nat, k: nat): (i: nat)
    requires s < n && k < n
    ensures i < n && Slot(n, s, i) == k
  {
    if k >= s then k - s else k + n - s
  }

  // Pointers are in range, the write pointer is n_bds_used ahead of the read pointer, and
  // the hardware owns nothing outside that window.
  ghost predicate ChanOk(ch: Chan) {
    var n := |ch.ring|;
    && ch.maxPkt > 0
    && ch.readBd < n && ch.writeBd < n && ch.used <= n
    && ch.writeBd == Slot(n, ch.readBd, ch.used)
    && forall k :: 0 <= k < n && ch.ring[k].owner ==> Steps(n, ch.readBd, k) < ch.used
  }

  // ---- What iudma_write posts, in closed form

  function Limit(ch: Chan): nat { if !ch.coalesce && !ch.isTx then ch.maxPkt else MAX_FRAGMENT }

  // Bytes that the first i descriptors of a submission of left bytes cover.
  function Cover(ch: Chan, left: nat, i: nat): nat {
    if ch.isTx then Min(MAX_FRAGMENT * i, left)
    else if i == 0 then 0 else Min(Limit(ch), left)
  }

  function DataBds(left: nat): nat { if left == 0 then 1 else (left + MAX_FRAGMENT - 1) / MAX_FRAGMENT }

  // extra_zero_pkt: the remaining bytes end on a packet boundary and the request asks for
  // a zero-length packet after them.
  predicate ExtraZeroPkt(bytesLeft: nat, maxPkt: nat, zero: bool)
    requires maxPkt > 0
  {
    Aligned(bytesLeft, maxPkt) && bytesLeft > 0 && zero
  }

  predicate WantsZlp(ch: Chan, r: Req)
    requires ch.maxPkt > 0 && r.offset <= r.length
  {
    ExtraZeroPkt(r.length - r.offset, ch.maxPkt, r.zero)
  }

  // Descriptors used by one submission.
  function Count(ch: Chan, r: Req): nat
    requires ch.maxPkt > 0 && r.offset <= r.length
  {
    if !ch.isTx then 1
    else Min(|ch.ring|, DataBds(r.length - r.offset) + if WantsZlp(ch, r) then 1 else 0)
  }

  // The i-th descriptor of a submission that starts at slot s.
  function Posted(ch: Chan, r: Req, s: nat, i: nat): Desc
    requires ch.maxPkt > 0 && r.offset <= r.length && s < |ch.ring| && i < |ch.ring|
  {
    var left := r.length - r.offset;
    var a, b := Cover(ch, left, i), Cover(ch, left, i + 1);
    Desc(r.dma + r.offset + a, if a < b then b - a else 1, true, i == 0, i + 1 == Count(ch, r),
         Slot(|ch.ring|, s, i) == |ch.ring| - 1, a >= b)
  }

  function WrittenRing(ch: Chan, r: Req, count: nat): (ring: seq<Desc>)
    requires ch.maxPkt > 0 && r.offset <= r.length && ch.writeBd < |ch.ring|
    ensures |ring| == |ch.ring|
  {
    seq(|ch.ring|, k requires 0 <= k < |ch.ring| =>
      var i := Steps(|ch.ring|, ch.writeBd, k);
      if i < count then Posted(ch, r, ch.writeBd, i) else ch.ring[k])
  }

  predicate CanWrite(ch: Chan, r: Req) {
    ch.maxPkt > 0 && ch.writeBd < |ch.ring| && r.offset <= r.length
  }

  function Written(ch: Chan, r: Req): Chan
    requires CanWrite(ch, r)
  {
    var c := Min(Count(ch, r), |ch.ring|);
    ch.(ring := WrittenRing(ch, r, c), writeBd := Slot(|ch.ring|, ch.writeBd, c), used := c)
  }

  function Submitted(ch: Chan, r: Req): Req
    requires CanWrite(ch, r)
  {
    var b := Cover(ch, r.length - r.offset, Count(ch, r));
    r.(offset := r.offset + b, bdBytes := b)
  }

  // ---- What iudma_read and iudma_reset_channel leave

  // The i-th outstanding descriptor.
  function Out(ch: Chan, i: nat): Desc
    requires ch.readBd < |ch.ring| && i < |ch.ring|
  {
    ch.ring[Slot(|ch.ring|, ch.readBd, i)]
  }

  predicate Window(ch: Chan) { ch.readBd < |ch.ring| && ch.used <= |ch.ring| }

  predicate Released(ch: Chan)
    requires Window(ch)
  {
    forall i :: 0 <= i < ch.used ==> !Out(ch, i).owner
  }

  // The lengths reported by the first i outstanding descriptors.
  function Reported(ch: Chan, i: nat): nat
    requires Window(ch) && i <= ch.used
  {
    if i == 0 then 0 else Reported(ch, i - 1) + Out(ch, i - 1).length
  }

  function ReadResult(ch: Chan): int
    requires Window(ch)
  {
    if ch.used == 0 then EINVAL else if !Released(ch) then EBUSY else Reported(ch, ch.used)
  }

  function Reaped(ch: Chan): Chan
    requires Window(ch)
  {
    if ReadResult(ch) < 0 then ch
    else ch.(readBd := Slot(|ch.ring|, ch.readBd, ch.used), used := 0)
  }

  function Cleared(d: Desc): Desc { Desc(d.address, 0, false, false, false, false, false) }

  function ResetChan(ch: Chan): Chan {
    ch.(ring := seq(|ch.ring|, k requires 0 <= k < |ch.ring| => Cleared(ch.ring[k])),
        readBd := 0, writeBd := 0, used := 0)
  }

  // Reading fails in two ways and leaves the channel alone then.
  lemma ReadExactly(ch: Chan)
    requires Window(ch)
    ensures ReadResult(ch) == EINVAL <==> ch.used == 0
    ensures ReadResult(ch) == EBUSY <==> exists i :: 0 <= i < ch.used && Out(ch, i).owner
    ensures ReadResult(ch) < 0 ==> ReadResult(ch) in {EINVAL, EBUSY} && Reaped(ch) == ch
  {
  }

  // A reset leaves no descriptor to the hardware, and the channel at its start.
  lemma ResetExactly(ch: Chan, k: nat)
    requires k < |ch.ring|
    ensures
      var c := ResetChan(ch);
      && c.readBd == c.writeBd == c.used == 0 && |c.ring| == |ch.ring|
      && c.isTx == ch.isTx && c.coalesce == ch.coalesce && c.maxPkt == ch.maxPkt
      && var d := c.ring[k];
      && d.address == ch.ring[k].address && d.length == 0
      && !d.owner && !d.sop && !d.eop && !d.wrap && !d.zero
  {
  }

  // ---- What the hardware may do: finish the k-th outstanding descriptor, in ring order.
  // TX keeps the programmed length, RX reports any length up to it.

  predicate HwCan(ch: Chan, k: nat, bytes: nat) {
    && Window(ch) && k < ch.used
    && Out(ch, k).owner
    && (forall i :: 0 <= i < k ==> !Out(ch, i).owner)
    && bytes <= Out(ch, k).length
    && (ch.isTx ==> bytes == Out(ch, k).length)
  }

  function HwDone(ch: Chan, k: nat, bytes: nat): Chan
    requires HwCan(ch, k, bytes)
  {
    var s := Slot(|ch.ring|, ch.readBd, k);
    ch.(ring := ch.ring[s := ch.ring[s].(owner := false, length := bytes)])
  }

  // ---- A request in flight

  // Nothing of the request is posted and the next submission starts where it stands.
  predicate Ready(r: Req) {
    r.offset == r.actual && (r.actual < r.length || r.length == 0 == r.actual)
  }

  // The outstanding descriptors are those of the request's last submission, except for
  // what the hardware did to them since.
  ghost predicate InFlight(ch: Chan, r: Req) {
    var s := r.(offset := r.actual);
    && ChanOk(ch) && Ready(s)
    && ch.used == Count(ch, s) > 0
    && r.bdBytes == Cover(ch, r.length - r.actual, ch.used) && r.offset == r.actual + r.bdBytes
    && forall i :: 0 <= i < ch.used ==> Progress(ch, Out(ch, i), Posted(ch, s, ch.readBd, i))
  }

  predicate Progress(ch: Chan, d: Desc, p: Desc) {
    && d == p.(owner := d.owner, length := d.length)
    && d.length <= p.length
    && (ch.isTx || d.owner ==> d.length == p.length)
  }

  // ---- Lemmas

  lemma CountBounds(ch: Chan, r: Req)
    requires ch.maxPkt > 0 && r.offset <= r.length && |ch.ring| > 0
    ensures 1 <= Count(ch, r) <= |ch.ring|
    ensures Cover(ch, r.length - r.offset, Count(ch, r)) <= r.length - r.offset
  {
  }

  // On an idle channel the hardware owns nothing, so no submission overwrites a
  // descriptor that it does.
  lemma IdleOwnsNothing(ch: Chan)
    requires ChanOk(ch) && ch.used == 0
    ensures forall k :: 0 <= k < |ch.ring| ==> !ch.ring[k].owner
  {
  }

  lemma WriteKeepsChan(ch: Chan, r: Req)
    requires ChanOk(ch) && ch.used == 0 && r.offset <= r.length
    ensures ChanOk(Written(ch, r)) && Written(ch, r).used == Count(ch, r) > 0
  {
    CountBounds(ch, r);
    hide Count, Posted;
    var w, n := Written(ch, r), |ch.ring|;
    assert ch.writeBd == ch.readBd;
    forall k | 0 <= k < n && w.ring[k].owner
      ensures Steps(n, w.readBd, k) < w.used
    {
      assert !ch.ring[k].owner;
    }
  }

  // A submission on an idle channel puts the request in flight.
  lemma WriteStarts(ch: Chan, r: Req)
    requires ChanOk(ch) && ch.used == 0 && Ready(r)
    ensures InFlight(Written(ch, r), Submitted(ch, r))
  {
    WriteKeepsChan(ch, r);
    CountBounds(ch, r);
    var w, q := Written(ch, r), Submitted(ch, r);
    var s := q.(offset := q.actual);
    assert Count(w, s) == Count(ch, r);
    forall i | 0 <= i < w.used
      ensures Progress(w, Out(w, i), Posted(w, s, w.readBd, i))
    {
      PostedAt(ch, r, i);
      PostedSame(ch, r, w, s, i);
    }
  }

  lemma PostedAt(ch: Chan, r: Req, i: nat)
    requires CanWrite(ch, r) && ch.writeBd == ch.readBd && i < Count(ch, r) <= |ch.ring|
    ensures Out(Written(ch, r), i) == Posted(ch, r, ch.writeBd, i)
  {
    hide Count, Posted;
    assert Steps(|ch.ring|, ch.writeBd, Slot(|ch.ring|, ch.writeBd, i)) == i;
  }

  // What a submission posts depends only on the channel's configuration and the request.
  lemma PostedSame(ch: Chan, r: Req, w: Chan, s: Req, i: nat)
    requires ch.maxPkt > 0 && r.offset <= r.length && ch.writeBd < |ch.ring| && i < |ch.ring|
    requires w.isTx == ch.isTx && w.coalesce == ch.coalesce && w.maxPkt == ch.maxPkt && |w.ring| == |ch.ring|
    requires s.dma == r.dma && s.length == r.length && s.zero == r.zero && s.offset == r.offset
    ensures Count(w, s) == Count(ch, r)
    ensures Posted(w, s, ch.writeBd, i) == Posted(ch, r, ch.writeBd, i)
  {
  }

  // The descriptors of a submission take consecutive slots from the write pointer on, and
  // leave the others alone; the wrap bit is on that of the last slot of the ring only.
  lemma WrittenExactly(ch: Chan, r: Req, k: nat)
    requires CanWrite(ch, r) && k < |ch.ring|
    ensures
      var n := |ch.ring|;
      var i := if k >= ch.writeBd then k - ch.writeBd else k + n - ch.writeBd;
      var d := Written(ch, r).ring[k];
      if i < Written(ch, r).used then d.owner && (d.wrap <==> k == n - 1) && (d.sop <==> i == 0)
      else d == ch.ring[k]
  {
    hide Count, Cover;
  }

  lemma HwKeepsChan(ch: Chan, k: nat, bytes: nat)
    requires ChanOk(ch) && HwCan(ch, k, bytes)
    ensures ChanOk(HwDone(ch, k, bytes))
  {
  }

  lemma HwKeepsInFlight(ch: Chan, r: Req, k: nat, bytes: nat)
    requires InFlight(ch, r) && HwCan(ch, k, bytes)
    ensures InFlight(HwDone(ch, k, bytes), r)
  {
    HwKeepsChan(ch, k, bytes);
    var h, s := HwDone(ch, k, bytes), r.(offset := r.actual);
    assert Count(h, s) == Count(ch, s);
    forall i | 0 <= i < h.used
      ensures Progress(h, Out(h, i), Posted(h, s, h.readBd, i))
    {
      assert Progress(ch, Out(ch, i), Posted(ch, s, ch.readBd, i));
      assert Posted(h, s, h.readBd, i) == Posted(ch, s, ch.readBd, i);
    }
  }

  lemma ReapedSame(ch: Chan)
    requires Window(ch)
    ensures Reaped(ch).isTx == ch.isTx && Reaped(ch).maxPkt == ch.maxPkt && |Reaped(ch).ring| == |ch.ring|
  {
  }

  lemma ReapedIsIdle(ch: Chan)
    requires ChanOk(ch) && ReadResult(ch) >= 0
    ensures ChanOk(Reaped(ch)) && Reaped(ch).used == 0
  {
    var n := |ch.ring|;
    forall k | 0 <= k < n
      ensures !ch.ring[k].owner
    {
      if Steps(n, ch.readBd, k) < ch.used {
        assert !Out(ch, Steps(n, ch.readBd, k)).owner;
      }
    }
  }

  lemma ResetIsIdle(ch: Chan)
    requires |ch.ring| > 0 && ch.maxPkt > 0
    ensures ChanOk(ResetChan(ch)) && ResetChan(ch).used == 0
  {
  }

  // ---- What reaping a finished submission tells

  // The last descriptor of the submission in flight is a zero-length packet.
  predicate EndsWithZlp(ch: Chan, r: Req)
    requires ch.used > 0 && r.actual <= r.length
  {
    var left := r.length - r.actual;
    Cover(ch, left, ch.used) == Cover(ch, left, ch.used - 1)
  }

  // TX descriptors keep their programmed lengths, so they report what was submitted, plus
  // the one byte that a zero-length packet is programmed with.
  lemma {:induction false} ReportedTx(ch: Chan, r: Req, i: nat)
    requires InFlight(ch, r) && ch.isTx && i <= ch.used
    ensures Reported(ch, i) ==
            Cover(ch, r.length - r.actual, i) + if i == ch.used && EndsWithZlp(ch, r) then 1 else 0
  {
    if i > 0 {
      ReportedTx(ch, r, i - 1);
      assert Progress(ch, Out(ch, i - 1), Posted(ch, r.(offset := r.actual), ch.readBd, i - 1));
      if i < ch.used {
        CoverGrows(ch, r, i - 1);
      }
    }
  }

  // Every descriptor but the last carries data.
  lemma CoverGrows(ch: Chan, r: Req, i: nat)
    requires InFlight(ch, r) && ch.isTx && i + 1 < ch.used
    ensures Cover(ch, r.length - r.actual, i) < Cover(ch, r.length - r.actual, i + 1)
  {
  }

  lemma ReportedRx(ch: Chan, r: Req)
    requires InFlight(ch, r) && !ch.isTx
    ensures ch.used == 1
    ensures Reported(ch, 1) <= if r.length == 0 then 1 else r.bdBytes
  {
    assert Progress(ch, Out(ch, 0), Posted(ch, r.(offset := r.actual), ch.readBd, 0));
    assert Reported(ch, 1) == Reported(ch, 0) + Out(ch, 0).length;
  }

  // What the data interrupt does with the reaped length: the request ends, or the next
  // part of it is submitted.
  predicate Ends(r: Req, rc: nat) { r.actual + rc >= r.length || r.bdBytes > rc }

  function Ended(r: Req, rc: nat): Req { r.(actual := Min(r.actual + rc, r.length)) }

  function Continued(r: Req, rc: nat): Req { r.(actual := r.actual + rc) }

  // A TX request that ends has sent exactly its length.  A request that goes on stands at
  // the end of what was submitted, with something left: no byte is skipped or repeated.
  lemma ReapOutcome(ch: Chan, r: Req)
    requires InFlight(ch, r) && ReadResult(ch) >= 0
    ensures
      var rc := ReadResult(ch);
      && Ended(r, rc).actual <= r.length
      && (ch.isTx && Ends(r, rc) ==> Ended(r, rc).actual == r.length == r.offset)
      && (!Ends(r, rc) ==> Ready(Continued(r, rc)) && r.actual + rc == r.offset < r.length)
  {
    CountBounds(ch, r.(offset := r.actual));
    if ch.isTx {
      ReportedTx(ch, r, ch.used);
      if EndsWithZlp(ch, r) {
        ZlpOnlyAtEnd(ch, r);
      }
    } else {
      ReportedRx(ch, r);
    }
  }

  // A submission that ends with a zero-length packet has covered the request.
  lemma ZlpOnlyAtEnd(ch: Chan, r: Req)
    requires InFlight(ch, r) && ch.isTx && EndsWithZlp(ch, r)
    ensures r.offset == r.length
  {
  }

  // ---- One receive descriptor

  lemma RxOne(ch: Chan, r: Req)
    requires InFlight(ch, r) && !ch.isTx
    ensures ch.used == 1 && Window(ch)
    ensures ReadResult(ch) == if Out(ch, 0).owner then EBUSY else Out(ch, 0).length
  {
    if !Out(ch, 0).owner {
      assert Reported(ch, 1) == Reported(ch, 0) + Out(ch, 0).length;
    }
  }

  lemma PostedOwned(ch: Chan, r: Req)
    requires ChanOk(ch) && ch.used == 0 && CanWrite(ch, r) && !ch.isTx
    ensures Window(Written(ch, r)) && Written(ch, r).used == 1 && Out(Written(ch, r), 0).owner
  {
    WriteKeepsChan(ch, r);
    PostedAt(ch, r, 0);
  }

  // A descriptor that has landed reports the bytes it landed with; the request ends when
  // they fill it or do not fill the descriptor.
  lemma RxLands(ch: Chan, r: Req, bytes: nat)
    requires InFlight(ch, r) && !ch.isTx && HwCan(ch, 0, bytes)
    ensures
      var c := HwDone(ch, 0, bytes);
      && InFlight(c, r) && c.used == 1 && Window(c) && !Out(c, 0).owner && Out(c, 0).length == bytes
      && ReadResult(c) == bytes
    ensures Ends(r, bytes) <==> r.actual + bytes >= r.length || bytes < Out(ch, 0).length
    ensures r.length > 0 ==> r.actual + bytes <= r.length
  {
    RxOne(ch, r);
    HwKeepsInFlight(ch, r, 0, bytes);
    RxOne(HwDone(ch, 0, bytes), r);
    assert Progress(ch, Out(ch, 0), Posted(ch, r.(offset := r.actual), ch.readBd, 0));
  }
}
