/** The DMA descriptor chain of a request in gadget/amd5536udc.c, in packet-per-buffer mode:
    built by prep_dma and udc_create_dma_chain, used again for later transfers, and walked
    to the first descriptor that has the last bit. */
module AmdChain {
  // ---- How a transfer is cut into descriptors

  // Where the k-th buffer starts.
  function Offset(k: nat, mp: nat): nat { k * mp }

  // length over mp, rounded up.
  function Units(length: nat, mp: nat): nat
    requires mp > 0
  {
    length / mp + if length % mp != 0 then 1 else 0
  }

  // Descriptors in use; an empty transfer has one.
  function Needed(length: nat, mp: nat): (n: nat)
    requires mp > 0
    ensures n >= 1
  {
    if length == 0 then 1 else UnitsPositive(length, mp); Units(length, mp)
  }

  function Window(k: nat, length: nat, mp: nat): nat {
    var rest := length - Offset(k, mp);
    if rest >= mp then mp else if rest >= 0 then rest else 0
  }

  lemma UnitsPositive(length: nat, mp: nat)
    requires mp > 0 && length > 0
    ensures Units(length, mp) >= 1
  {
    if length / mp == 0 {
      assert length == mp * (length / mp) + length % mp;
    }
  }

  lemma OffsetNext(k: nat, mp: nat)
    ensures Offset(k + 1, mp) == Offset(k, mp) + mp && Offset(0, mp) == 0 && Offset(1, mp) == mp
  {
  }

  lemma OffsetGrows(j: nat, k: nat, mp: nat)
    requires j <= k
    ensures Offset(j, mp) <= Offset(k, mp)
    decreases k - j
  {
    if j < k {
      OffsetNext(k - 1, mp);
      OffsetGrows(j, k - 1, mp);
    }
  }

  // A buffer starts inside the transfer exactly when the transfer needs it.
  lemma OffsetInside(k: nat, length: nat, mp: nat)
    requires mp > 0
    ensures Offset(k, mp) < length <==> k < Units(length, mp)
  {
    var q, r := length / mp, length % mp;
    assert length == mp * q + r;
    assert Offset(q, mp) == mp * q;
    if k <= q {
      OffsetGrows(k, q, mp);
      if k < q {
        OffsetGrows(k + 1, q, mp);
        OffsetNext(k, mp);
      }
    } else {
      OffsetGrows(q + 1, k, mp);
      OffsetNext(q, mp);
    }
  }

  // Every byte of the transfer is in the window of exactly one descriptor, none of them is
  // outside, and all but the last are full.
  lemma WindowsTile(length: nat, mp: nat, x: nat)
    requires mp > 0 && x < length
    ensures
      var k := x / mp;
      && k < Needed(length, mp) && Offset(k, mp) <= x < Offset(k, mp) + Window(k, length, mp)
      && forall j: nat :: j < Needed(length, mp) && Offset(j, mp) <= x < Offset(j, mp) + Window(j, length, mp) ==> j == k
  {
    var k := x / mp;
    assert x == mp * k + x % mp;
    assert Offset(k, mp) == mp * k;
    OffsetInside(k, length, mp);
    forall j: nat | j < Needed(length, mp) && Offset(j, mp) <= x < Offset(j, mp) + Window(j, length, mp)
      ensures j == k
    {
      OffsetNext(j, mp);
      OffsetNext(k, mp);
      if j < k {
        OffsetGrows(j + 1, k, mp);
      } else if k < j {
        OffsetGrows(k + 1, j, mp);
      }
    }
  }

  function WindowSum(n: nat, length: nat, mp: nat): nat {
    if n == 0 then 0 else WindowSum(n - 1, length, mp) + Window(n - 1, length, mp)
  }

  // The windows start where the one before ends, and end with the transfer.
  lemma {:induction false} WindowsAbut(n: nat, length: nat, mp: nat)
    requires mp > 0 && n <= Needed(length, mp)
    ensures WindowSum(n, length, mp) == if Offset(n, mp) <= length then Offset(n, mp) else length
    ensures n == Needed(length, mp) ==> WindowSum(n, length, mp) == length
  {
    if n > 0 {
      WindowsAbut(n - 1, length, mp);
      OffsetNext(n - 1, mp);
      OffsetInside(n - 1, length, mp);
    } else {
      OffsetNext(0, mp);
    }
    OffsetInside(n, length, mp);
  }

  // ---- The chain

  // The bits of a descriptor's status word that the chain is about: the last bit and the
  // 16-bit byte count.  Allocation leaves every field arbitrary.
  class Desc {
    var last: bool
    var bytes: nat
    var bufptr: nat
    var next: Desc?
  }

  const FIELD: nat := 0x10000

  ghost predicate Linked(chain: seq<Desc>)
    reads chain`next
  {
    && (forall i, j :: 0 <= i < j < |chain| ==> chain[i] != chain[j])
    && (forall i :: 0 <= i < |chain| - 1 ==> chain[i].next == chain[i + 1])
  }

  // Descriptors 1 to k have their buffers, no last bit, and for IN their byte counts.
  ghost predicate Laid(chain: seq<Desc>, k: nat, dma: nat, length: nat, mp: nat, isIn: bool)
    requires k < |chain|
    reads chain`last, chain`bytes, chain`bufptr
  {
    forall j :: 1 <= j <= k ==>
      && chain[j].bufptr == dma + Offset(j, mp) && !chain[j].last
      && (isIn ==> chain[j].bytes == Window(j, length, mp) % FIELD)
  }

  // The same with the last bit on descriptor n - 1; the first is looked at by itself.
  ghost predicate Chained(chain: seq<Desc>, n: nat, dma: nat, length: nat, mp: nat, isIn: bool)
    requires 1 <= n <= |chain|
    reads chain`last, chain`bytes, chain`bufptr
  {
    forall j :: 1 <= j < n ==>
      && chain[j].bufptr == dma + Offset(j, mp) && (chain[j].last <==> j == n - 1)
      && (isIn ==> chain[j].bytes == Window(j, length, mp) % FIELD)
  }

  // A walk from the first descriptor meets the last bit after n descriptors.
  ghost predicate EndsAt(chain: seq<Desc>, n: nat)
    requires n <= |chain|
    reads chain`last
  {
    n >= 1 && chain[n - 1].last && forall j :: 0 <= j < n - 1 ==> !chain[j].last
  }

  ghost predicate RestEndsAt(chain: seq<Desc>, n: nat)
    requires n <= |chain|
    reads chain`last
  {
    n >= 2 && chain[n - 1].last && forall j :: 1 <= j < n - 1 ==> !chain[j].last
  }

  function ByteSum(chain: seq<Desc>): nat
    reads chain`bytes
  {
    if chain == [] then 0 else ByteSum(chain[..|chain| - 1]) + chain[|chain| - 1].bytes
  }

  // What is counted over a walk: all of the transfer when every descriptor holds its window,
  // and full packets and then what the last one holds when the host ends it early.
  lemma {:induction false} SumOfWindows(chain: seq<Desc>, length: nat, mp: nat)
    requires mp > 0 && |chain| <= Needed(length, mp)
    requires forall j :: 0 <= j < |chain| ==> chain[j].bytes == Window(j, length, mp)
    ensures ByteSum(chain) == WindowSum(|chain|, length, mp)
    ensures |chain| == Needed(length, mp) ==> ByteSum(chain) == length
    decreases |chain|
  {
    hide Needed, Window;
    if chain != [] {
      SumOfWindows(chain[..|chain| - 1], length, mp);
    }
    WindowsAbut(|chain|, length, mp);
  }

  lemma {:induction false} SumOfShort(chain: seq<Desc>, mp: nat)
    requires chain != [] && forall j :: 0 <= j < |chain| - 1 ==> chain[j].bytes == mp
    ensures ByteSum(chain) == (|chain| - 1) * mp + chain[|chain| - 1].bytes
    decreases |chain|
  {
    var n := |chain| - 1;
    if n > 0 {
      SumOfShort(chain[..n], mp);
      assert chain[..n][n - 1] == chain[n - 1];
    }
  }

  // A walk has one end.
  lemma EndsOnce(chain: seq<Desc>, m: nat, n: nat)
    requires m <= |chain| && n <= |chain| && EndsAt(chain, m) && EndsAt(chain, n)
    ensures m == n
  {
  }

  lemma WalkOf(chain: seq<Desc>, n: nat, dma: nat, length: nat, mp: nat, isIn: bool)
    requires 1 <= n <= |chain| && Chained(chain, n, dma, length, mp, isIn)
    requires chain[0].last <==> isIn || n == 1
    ensures EndsAt(chain, if isIn then 1 else n)
    ensures isIn && n > 1 ==> RestEndsAt(chain, n)
    ensures forall j :: 1 <= j < n ==> chain[j].bufptr == dma + Offset(j, mp)
    ensures isIn ==> forall j :: 1 <= j < n ==> chain[j].bytes == Window(j, length, mp) % FIELD
  {
    hide Offset, Window;
  }

  // One descriptor is enough exactly for up to one packet, and holds what there is of it.
  lemma FirstWindow(length: nat, mp: nat)
    requires mp > 0
    ensures Needed(length, mp) == 1 <==> length <= mp
    ensures Window(0, length, mp) == if length < mp then length else mp
  {
    OffsetNext(0, mp);
    OffsetInside(1, length, mp);
  }

  lemma UnitsAre(length: nat, mp: nat, len: nat)
    requires mp > 0 && len == length / mp + if length % mp != 0 then 1 else 0
    ensures len == Units(length, mp) && (length == 0 ==> len == 0)
  {
  }

  lemma Apart(chain: seq<Desc>)
    requires Linked(chain)
    ensures forall j :: 1 <= j < |chain| ==> chain[j] != chain[0]
  {
  }

  lemma LinkedOne(d: Desc)
    ensures Linked([d])
  {
  }

  lemma NothingLaid(chain: seq<Desc>, dma: nat, length: nat, mp: nat, isIn: bool)
    requires |chain| > 0
    ensures Laid(chain, 0, dma, length, mp, isIn)
  {
  }

  lemma LaidPrefix(was: seq<Desc>, chain: seq<Desc>, k: nat, dma: nat, length: nat, mp: nat, isIn: bool)
    requires was <= chain && k < |was| && Laid(was, k, dma, length, mp, isIn)
    ensures Laid(chain, k, dma, length, mp, isIn)
  {
    assert forall j :: 0 <= j < |was| ==> chain[j] == was[j];
  }

  lemma NeededIs(length: nat, mp: nat)
    requires mp > 0
    ensures Needed(length, mp) == if length == 0 then 1 else Units(length, mp)
    ensures Needed(length, mp) >= 1
  {
  }

  lemma FirstOffset(k: nat, mp: nat)
    requires mp > 0
    ensures Offset(k + 1, mp) == mp <==> k == 0
  {
    OffsetNext(0, mp);
    if k > 0 {
      OffsetNext(1, mp);
      OffsetGrows(2, k + 1, mp);
    }
  }

  class DmaRequest {
    var length: nat
    var dma: nat
    var tdData: Desc
    var tdLast: Desc?
    var chainLen: nat
    ghost var chain: seq<Desc>

    ghost predicate Valid()
      reads this, chain
    {
      && |chain| == chainLen >= 1 && chain[0] == tdData && Linked(chain)
    }

    // udc_alloc_request
    constructor (length: nat, dma: nat)
      ensures Valid() && chainLen == 1 && fresh(tdData) && this.length == length && this.dma == dma
    {
      this.length, this.dma, tdLast, chainLen := length, dma, null, 1;
      var td := new Desc;
      tdData := td;
      chain := [td];
    }

    // udc_free_dma_chain: frees each descriptor but the first once.  It follows the links of
    // the descriptors in stale after freeing them: of every freed one, so of some exactly
    // when the chain has more than one.
    method FreeDmaChain() returns (freed: seq<Desc>, ghost stale: seq<Desc>)
      requires Valid()
      ensures freed == chain[1..]
      ensures stale == freed && (stale != [] <==> chainLen > 1)
    {
      freed, stale := [], [];
      var before := tdData;
      var td := before.next;
      for i := 1 to chainLen
        invariant before == chain[i - 1] && td == before.next && freed == chain[1..i]
        invariant stale == freed && |freed| == i - 1
      {
        assert chain[i - 1].next == chain[i - 1 + 1];
        freed := freed + [td];
        before := td;
        if before in freed {
          stale := stale + [before];
        }
        td := before.next;
      }
    }

    // One turn of the loop: a new descriptor, or the next one of the old chain.
    method NextDesc(createNew: bool, prev: Desc, ghost k: nat) returns (td: Desc)
      requires Linked(chain) && k < |chain| && chain[k] == prev
      requires if createNew then k == |chain| - 1 else k + 1 < |chain|
      modifies this`chain, prev`next
      ensures Linked(chain) && k + 1 < |chain| && td == chain[k + 1] && old(chain) <= chain
      ensures if createNew then |chain| == k + 2 && fresh(td) else chain == old(chain)
    {
      if createNew {
        td := new Desc;
        prev.next := td;
        chain := chain + [td];
      } else {
        assert chain[k].next == chain[k + 1];
        td := prev.next;
      }
    }

    // The rest of one turn: buffer, last bit and byte counts.
    method FillDesc(td: Desc, ghost k: nat, i: nat, isIn: bool, mp: nat)
      requires Linked(chain) && k + 1 < |chain| && td == chain[k + 1] && chain[0] == tdData
      requires mp > 0 && i == Offset(k + 1, mp) < length && (i == mp <==> k == 0)
      requires Laid(chain, k, dma, length, mp, isIn)
      modifies td`last, td`bytes, td`bufptr, tdData`bytes
      ensures Laid(chain, k + 1, dma, length, mp, isIn)
      ensures tdData.last == old(tdData.last) && tdData.bufptr == old(tdData.bufptr)
      ensures tdData.bytes == if isIn && k == 0 then mp % FIELD else old(tdData.bytes)
    {
      td.last, td.bytes := false, 0;
      td.bufptr := dma + i;
      var txbytes := if length - i >= mp then mp else length - i;
      if isIn {
        if i == mp {
          tdData.bytes := mp % FIELD;
        }
        td.bytes := txbytes % FIELD;
      }
    }

    // The loop of udc_create_dma_chain.
    method LayChain(isIn: bool, mp: nat, createNew: bool) returns (td: Desc)
      requires mp > 0 && Linked(chain) && |chain| >= 1 && chain[0] == tdData
      requires if createNew then |chain| == 1 else Needed(length, mp) <= |chain|
      modifies this`chain, chain
      ensures Linked(chain) && 1 <= Needed(length, mp) <= |chain| && chain[0] == tdData
      ensures if createNew then |chain| == Needed(length, mp) && (forall j :: 1 <= j < |chain| ==> fresh(chain[j])) else chain == old(chain)
      ensures Laid(chain, Needed(length, mp) - 1, dma, length, mp, isIn)
      ensures td == chain[Needed(length, mp) - 1]
      ensures tdData.last == old(tdData.last) && tdData.bufptr == old(tdData.bufptr)
      ensures tdData.bytes == if isIn && Needed(length, mp) > 1 then mp % FIELD else old(tdData.bytes)
    {
      hide Linked, Laid, Offset, Needed, Units, Window;
      NeededIs(length, mp);
      NothingLaid(chain, dma, length, mp, isIn);
      td := tdData;
      var i := mp;
      ghost var k := 0;
      OffsetNext(0, mp);
      OffsetInside(1, length, mp);
      while i < length
        invariant Linked(chain) && |chain| >= 1 && chain[0] == tdData && k < |chain| && td == chain[k]
        invariant k + 1 <= Needed(length, mp) && i == Offset(k + 1, mp)
        invariant if createNew then |chain| == k + 1 && (forall j :: 1 <= j < |chain| ==> fresh(chain[j])) else chain == old(chain)
        invariant Laid(chain, k, dma, length, mp, isIn)
        invariant tdData.last == old(tdData.last) && tdData.bufptr == old(tdData.bufptr)
        invariant tdData.bytes == if isIn && k > 0 then mp % FIELD else old(tdData.bytes)
        decreases length - i
      {
        OffsetInside(k + 1, length, mp);
        OffsetNext(k + 1, mp);
        FirstOffset(k, mp);
        ghost var before := chain;
        td := NextDesc(createNew, td, k);
        LaidPrefix(before, chain, k, dma, length, mp, isIn);
        assert forall j :: 0 <= j < |before| ==> chain[j] == before[j];
        FillDesc(td, k, i, isIn, mp);
        i := i + mp;
        k := k + 1;
      }
      OffsetInside(k + 1, length, mp);
    }

    // Its first part: a chain that is too short is freed down to the first descriptor.
    method MakeRoom(mp: nat) returns (createNew: bool)
      requires mp > 0 && Valid()
      modifies this`chain, this`chainLen
      ensures Linked(chain) && |chain| >= 1 && chain[0] == tdData
      ensures chainLen == if Needed(length, mp) > old(chainLen) then Needed(length, mp) else old(chainLen)
      ensures createNew <==> Needed(length, mp) > old(chainLen)
      ensures chain == if createNew then [tdData] else old(chain)
    {
      NeededIs(length, mp);
      hide Linked, Needed, Units;
      createNew := false;
      var len := length / mp;
      if length % mp != 0 {
        len := len + 1;
      }
      UnitsAre(length, mp, len);
      if len > chainLen {
        if chainLen > 1 {
          var freed, stale := FreeDmaChain();
        }
        chainLen := len;
        createNew := true;
        chain := [tdData];
        LinkedOne(tdData);
      }
    }

    // udc_create_dma_chain, with the endpoint's maxpacket as the buffer size.
    method CreateDmaChain(isIn: bool, mp: nat)
      requires mp > 0 && Valid() && tdData.bufptr == dma && tdData.last
      modifies this, chain
      ensures Valid() && length == old(length) && dma == old(dma) && tdData == old(tdData)
      ensures chainLen == if Needed(length, mp) > old(chainLen) then Needed(length, mp) else old(chainLen)
      ensures chainLen == old(chainLen) ==> chain == old(chain)
      ensures forall j :: 1 <= j < |chain| ==> chain[j] in old(chain) || fresh(chain[j])
      ensures Needed(length, mp) <= |chain| && tdLast == chain[Needed(length, mp) - 1]
      ensures Chained(chain, Needed(length, mp), dma, length, mp, isIn)
      ensures tdData.bufptr == dma && (tdData.last <==> isIn || Needed(length, mp) == 1)
      ensures tdData.bytes == if isIn && Needed(length, mp) > 1 then mp % FIELD else old(tdData.bytes)
    {
      hide Linked, Laid, Needed, Units, Chained;
      if !isIn {
        tdData.last := false;
      }
      var createNew := MakeRoom(mp);
      var td := LayChain(isIn, mp, createNew);
      MarkLast(td, Needed(length, mp), mp, isIn);
      tdLast := td;
    }

    method MarkLast(td: Desc, ghost n: nat, mp: nat, isIn: bool)
      requires Linked(chain) && 1 <= n <= |chain| && td == chain[n - 1] && chain[0] == tdData
      requires Laid(chain, n - 1, dma, length, mp, isIn)
      modifies td`last
      ensures Chained(chain, n, dma, length, mp, isIn)
      ensures tdData.last <==> old(tdData.last) || n == 1
    {
      td.last := true;
    }

    // prep_dma
    method PrepDma(isIn: bool, isEp0: bool, mp: nat)
      requires mp > 0 && Valid()
      modifies this, chain
      ensures Valid() && length == old(length) && dma == old(dma) && tdData == old(tdData)
      ensures chainLen == if Needed(length, mp) > old(chainLen) then Needed(length, mp) else old(chainLen)
      ensures chainLen == old(chainLen) ==> chain == old(chain)
      ensures forall j :: 1 <= j < |chain| ==> chain[j] in old(chain) || fresh(chain[j])
      ensures Needed(length, mp) <= |chain| && tdLast == chain[Needed(length, mp) - 1]
      ensures forall j :: 0 <= j < Needed(length, mp) ==> chain[j].bufptr == dma + Offset(j, mp)
      ensures EndsAt(chain, if isIn then 1 else Needed(length, mp))
      ensures isIn && Needed(length, mp) > 1 ==> RestEndsAt(chain, Needed(length, mp))
      ensures isIn ==> forall j :: 0 <= j < Needed(length, mp) ==>
                chain[j].bytes == (if isEp0 && j == 0 then length else Window(j, length, mp)) % FIELD
    {
      hide Linked, Needed, Units, Chained, EndsAt, RestEndsAt, Window, Offset;
      tdData.bufptr := dma;
      tdData.last := true;
      CreateDmaChain(isIn, mp);
      WalkOf(chain, Needed(length, mp), dma, length, mp, isIn);
      Apart(chain);
      if isIn {
        if length == mp {
          tdData.bytes := mp % FIELD;
        }
        if length < mp || isEp0 {
          tdData.bytes := length % FIELD;
        }
      }
      NeededIs(length, mp);
      FirstWindow(length, mp);
      OffsetNext(0, mp);
    }

    // The part of the IN interrupt handler that starts the transfer of a request.
    method StartIn(mp: nat)
      requires mp > 0 && Valid() && Needed(length, mp) <= |chain| && EndsAt(chain, 1)
      requires Needed(length, mp) > 1 ==> RestEndsAt(chain, Needed(length, mp))
      modifies tdData`last
      ensures Valid() && EndsAt(chain, Needed(length, mp))
    {
      FirstWindow(length, mp);
      if length > mp {
        tdData.last := false;
      }
    }

    // udc_get_last_dma_desc
    method LastDesc(ghost n: nat) returns (td: Desc)
      requires Valid() && 1 <= n <= |chain| && EndsAt(chain, n)
      ensures td == chain[n - 1]
    {
      td := tdData;
      ghost var k := 0;
      while !td.last
        invariant k < n && td == chain[k]
        decreases n - k
      {
        assert chain[k].next == chain[k + 1];
        td := td.next;
        k := k + 1;
      }
    }

    // udc_get_ppbdu_rxbytes
    method RxBytes(ghost n: nat) returns (count: nat)
      requires Valid() && 1 <= n <= |chain| && EndsAt(chain, n)
      ensures count == ByteSum(chain[..n])
    {
      var td := tdData;
      count := td.bytes;
      ghost var k := 0;
      assert chain[..1] == [] + [tdData];
      while !td.last
        invariant k < n && td == chain[k] && count == ByteSum(chain[..k + 1])
        decreases n - k
      {
        assert chain[k].next == chain[k + 1];
        td := td.next;
        count := count + td.bytes;
        assert chain[..k + 2][..k + 1] == chain[..k + 1];
        k := k + 1;
      }
    }
  }
}
