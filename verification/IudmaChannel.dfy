/** iudma_write, iudma_read and iudma_reset_channel of gadget/bcm63xx_udc.c on the ring
    they update in place, proved against the closed forms of module Iudma. */
module IudmaChannel {
  import opened Basics
  import opened Iudma

  // struct bcm63xx_req together with the struct usb_request inside it.
  class Request {
    const dma: int
    var length: nat
    var zero: bool
    var actual: nat
    var offset: nat
    var bdBytes: nat
    var status: int

    constructor (dma: int, length: nat, zero: bool)
      ensures Value() == Req(dma, length, zero, 0, 0, 0) && status == 0
    {
      this.dma, this.length, this.zero := dma, length, zero;
      actual, offset, bdBytes, status := 0, 0, 0, 0;
    }

    function Value(): Req
      reads this
    {
      Req(dma, length, zero, actual, offset, bdBytes)
    }
  }

  // struct iudma_ch.  The descriptor pointers are ring indices.
  class Channel {
    const isTx: bool
    const coalesce: bool        // the irq_coalesce module parameter
    var maxPkt: nat
    const ring: array<Desc>
    var readBd: nat
    var writeBd: nat
    var nBdsUsed: nat

    function Value(): Chan
      reads this, ring
    {
      Chan(isTx, coalesce, maxPkt, ring[..], readBd, writeBd, nBdsUsed)
    }

    // iudma_init_channel, then iudma_reset_channel
    constructor (isTx: bool, coalesce: bool, maxPkt: nat, nBds: nat)
      requires nBds > 0 && maxPkt > 0
      ensures ChanOk(Value()) && nBdsUsed == 0 && fresh(ring)
      ensures this.isTx == isTx && this.coalesce == coalesce && this.maxPkt == maxPkt && ring.Length == nBds
    {
      this.isTx, this.coalesce, this.maxPkt := isTx, coalesce, maxPkt;
      ring := new Desc[nBds](_ => Desc(0, 0, false, false, false, false, false));
      readBd, writeBd, nBdsUsed := 0, 0, 0;
    }

    // Where the loop of iudma_write stands after i descriptors.
    ghost predicate Standing(breq: Request, ch: Chan, r: Req, i: nat)
      requires CanWrite(ch, r) && i <= |ch.ring|
      reads `writeBd, ring, breq`offset, breq`bdBytes
    {
      && writeBd == Slot(|ch.ring|, ch.writeBd, i)
      && ring[..] == WrittenRing(ch, r, i)
      && breq.bdBytes == Cover(ch, r.length - r.offset, i)
      && breq.offset == r.offset + breq.bdBytes
    }

    // iudma_write
    method Write(breq: Request)
      requires CanWrite(Value(), breq.Value())
      modifies `writeBd, `nBdsUsed, ring, breq`offset, breq`bdBytes
      ensures Value() == Written(old(Value()), old(breq.Value()))
      ensures breq.Value() == Submitted(old(Value()), old(breq.Value()))
    {
      ghost var ch, r := Value(), breq.Value();
      ghost var n, left := ring.Length, r.length - r.offset;
      CountBounds(ch, r);
      assert Cover(ch, left, 0) == 0 && WrittenRing(ch, r, 0) == ring[..];
      hide Posted, Count, Cover, Limit, WrittenRing, ExtraZeroPkt;
      var firstBd, lastBd, extraZeroPkt := true, false, false;
      var bytesLeft := breq.length - breq.offset;
      var maxBdBytes := if !coalesce && !isTx then maxPkt else MAX_FRAGMENT;
      LimitIs(ch, maxBdBytes);
      nBdsUsed := 0;
      breq.bdBytes := 0;
      if ExtraZeroPkt(bytesLeft, maxPkt, breq.zero) {
        extraZeroPkt := true;
      }
      while !lastBd
        invariant nBdsUsed <= Count(ch, r) && (lastBd <==> nBdsUsed == Count(ch, r))
        invariant firstBd <==> nBdsUsed == 0
        invariant !lastBd ==> extraZeroPkt == WantsZlp(ch, r)
        invariant bytesLeft + Cover(ch, left, nBdsUsed) == left
        invariant Standing(breq, ch, r, nBdsUsed)
        decreases Count(ch, r) - nBdsUsed
      {
        var nBytes;
        nBytes, lastBd, extraZeroPkt := WriteOne(breq, bytesLeft, maxBdBytes, firstBd, extraZeroPkt, ch, r, nBdsUsed);
        firstBd := false;
        bytesLeft := bytesLeft - nBytes;
      }
    }

    // One turn of the loop of iudma_write.
    method WriteOne(breq: Request, bytesLeft: nat, maxBdBytes: nat, firstBd: bool, extraZeroPkt: bool,
                    ghost ch: Chan, ghost r: Req, ghost i: nat)
      returns (nBytes: nat, lastBd: bool, extraLeft: bool)
      requires CanWrite(ch, r) && i < Count(ch, r) <= |ch.ring| == ring.Length && breq.dma == r.dma
      requires nBdsUsed == i && isTx == ch.isTx && Standing(breq, ch, r, i)
      requires bytesLeft + Cover(ch, r.length - r.offset, i) == r.length - r.offset && maxBdBytes == Limit(ch)
      requires (firstBd <==> i == 0) && extraZeroPkt == WantsZlp(ch, r)
      modifies `writeBd, `nBdsUsed, ring, breq`offset, breq`bdBytes
      ensures nBdsUsed == i + 1 && Standing(breq, ch, r, i + 1)
      ensures nBytes <= bytesLeft && Cover(ch, r.length - r.offset, i) + nBytes == Cover(ch, r.length - r.offset, i + 1)
      ensures (lastBd <==> i + 1 == Count(ch, r)) && (!lastBd ==> extraLeft == WantsZlp(ch, r))
    {
      hide Posted, Count, Cover, Limit, WrittenRing, ExtraZeroPkt, Standing;
      nBdsUsed := nBdsUsed + 1;
      nBytes := if bytesLeft < maxBdBytes then bytesLeft else maxBdBytes;
      extraLeft := extraZeroPkt;
      if extraLeft && bytesLeft == 0 {
        extraLeft := false;
      }
      lastBd := !isTx || nBdsUsed == ring.Length || (nBytes == bytesLeft && !extraLeft);
      LastBd(ch, r, i, bytesLeft, nBytes, extraLeft);
      Publish(breq, nBytes, firstBd, lastBd, ch, r, i);
    }

    // The part of the loop of iudma_write that fills one descriptor and hands it over.
    method Publish(breq: Request, nBytes: nat, sop: bool, eop: bool, ghost ch: Chan, ghost r: Req, ghost i: nat)
      requires CanWrite(ch, r) && i < |ch.ring| == ring.Length && breq.dma == r.dma
      requires Standing(breq, ch, r, i)
      requires nBytes + Cover(ch, r.length - r.offset, i) == Cover(ch, r.length - r.offset, i + 1)
      requires (sop <==> i == 0) && (eop <==> i + 1 == Count(ch, r))
      modifies `writeBd, ring, breq`offset, breq`bdBytes
      ensures Standing(breq, ch, r, i + 1)
    {
      hide Cover, Count, Posted, WrittenRing;
      WrittenNext(ch, r, i, nBytes);
      var d := writeBd;
      var wrap := d == ring.Length - 1;
      if wrap {
        writeBd := 0;
      } else {
        writeBd := writeBd + 1;
      }
      var length, zero := 1, true;
      if nBytes > 0 {
        length, zero := nBytes, false;
      }
      ring[d] := Desc(breq.dma + breq.offset, length, true, sop, eop, wrap, zero);
      breq.offset := breq.offset + nBytes;
      breq.bdBytes := breq.bdBytes + nBytes;
    }

    // iudma_read
    method Read() returns (rc: int)
      requires Window(Value())
      modifies `readBd, `nBdsUsed
      ensures rc == ReadResult(old(Value())) && Value() == Reaped(old(Value()))
    {
      var actualLen := 0;
      var d := readBd;
      if nBdsUsed == 0 {
        return EINVAL;
      }
      for i := 0 to nBdsUsed
        invariant d == Slot(ring.Length, readBd, i)
        invariant actualLen == Reported(Value(), i)
        invariant forall k :: 0 <= k < i ==> !Out(Value(), k).owner
        invariant Value() == old(Value())
      {
        if ring[d].owner {
          assert Out(Value(), i).owner;
          return EBUSY;
        }
        actualLen := actualLen + ring[d].length;
        d := if d == ring.Length - 1 then 0 else d + 1;
      }
      readBd := d;
      nBdsUsed := 0;
      return actualLen;
    }

    // iudma_reset_channel, once the DMA engine has stopped
    method Reset()
      requires ring.Length > 0
      modifies `readBd, `writeBd, `nBdsUsed, ring
      ensures Value() == ResetChan(old(Value()))
    {
      for i := 0 to ring.Length
        invariant forall k :: 0 <= k < i ==> ring[k] == Cleared(old(ring[k]))
        invariant forall k :: i <= k < ring.Length ==> ring[k] == old(ring[k])
      {
        ring[i] := Cleared(ring[i]);
      }
      readBd, writeBd, nBdsUsed := 0, 0, 0;
      assert ring[..] == ResetChan(old(Value())).ring;
    }

    // The DMA engine finishes one descriptor.
    method Complete(k: nat, bytes: nat)
      requires HwCan(Value(), k, bytes)
      modifies ring
      ensures Value() == HwDone(old(Value()), k, bytes)
    {
      var s := Slot(ring.Length, readBd, k);
      ring[s] := ring[s].(owner := false, length := bytes);
    }
  }

  // ---- Steps of the loop of iudma_write

  lemma LimitIs(ch: Chan, maxBdBytes: nat)
    requires maxBdBytes == if !ch.coalesce && !ch.isTx then ch.maxPkt else MAX_FRAGMENT
    ensures maxBdBytes == Limit(ch)
  {
  }

  // The three tests of the loop end it exactly at the descriptor that the closed form
  // counts last.
  lemma LastBd(ch: Chan, r: Req, i: nat, bytesLeft: nat, nBytes: nat, extraZeroPkt: bool)
    requires CanWrite(ch, r) && i < Count(ch, r)
    requires bytesLeft + Cover(ch, r.length - r.offset, i) == r.length - r.offset
    requires nBytes == if bytesLeft < Limit(ch) then bytesLeft else Limit(ch)
    requires extraZeroPkt <==> WantsZlp(ch, r) && bytesLeft > 0
    ensures
      i + 1 == Count(ch, r) <==>
      !ch.isTx || i + 1 == |ch.ring| || (nBytes == bytesLeft && !extraZeroPkt)
    ensures i + 1 < Count(ch, r) && WantsZlp(ch, r) ==> bytesLeft > 0
    ensures Cover(ch, r.length - r.offset, i + 1) == Cover(ch, r.length - r.offset, i) + nBytes
  {
  }

  function BdFor(address: int, nBytes: nat, sop: bool, eop: bool, wrap: bool): Desc {
    Desc(address, if nBytes > 0 then nBytes else 1, true, sop, eop, wrap, nBytes == 0)
  }

  // Publishing the next descriptor extends the closed form by one.
  lemma WrittenNext(ch: Chan, r: Req, i: nat, nBytes: nat)
    requires CanWrite(ch, r) && i < |ch.ring|
    requires nBytes + Cover(ch, r.length - r.offset, i) == Cover(ch, r.length - r.offset, i + 1)
    ensures
      var s := Slot(|ch.ring|, ch.writeBd, i);
      && Slot(|ch.ring|, ch.writeBd, i + 1) == Slot(|ch.ring|, s, 1)
      && WrittenRing(ch, r, i + 1) ==
         WrittenRing(ch, r, i)[s := BdFor(r.dma + r.offset + Cover(ch, r.length - r.offset, i), nBytes, i == 0,
                                          i + 1 == Count(ch, r), s == |ch.ring| - 1)]
  {
    hide Cover, Count;
  }
}
