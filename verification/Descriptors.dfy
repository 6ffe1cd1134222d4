/** Descriptor vectors as bytes: usb_descriptor_fillbuf of gadget/config.c, and how a host
    takes the bytes apart again (section 9.5 of USB 2.0: the first byte of a descriptor is
    its length). */
module Descriptors {
  import opened Basics
  import opened TxPackets

  const USB_DT_CONFIG_SIZE: nat := 9
  const USB_DT_CONFIG: Byte := 2

  type Desc = seq<Byte>

  // A pointer to descriptor pointers that ends with a null pointer, or itself null.
  datatype Vector = Null | Vector(ds: seq<Desc>)

  // bLength is the descriptor's size.
  predicate Sized(d: Desc) { |d| >= 1 && d[0] as int == |d| }

  predicate AllSized(ds: seq<Desc>) { forall k :: 0 <= k < |ds| ==> Sized(ds[k]) }

  function Flatten(ds: seq<Desc>): seq<Byte> {
    if ds == [] then [] else Flatten(ds[..|ds| - 1]) + ds[|ds| - 1]
  }

  lemma FlattenMore(ds: seq<Desc>, d: Desc)
    ensures Flatten(ds + [d]) == Flatten(ds) + d
  {
    assert (ds + [d])[..|ds|] == ds;
  }

  lemma FlattenConcat(xs: seq<Desc>, ys: seq<Desc>)
    ensures Flatten(xs + ys) == Flatten(xs) + Flatten(ys)
    decreases |ys|
  {
    if ys == [] {
      assert xs + ys == xs;
    } else {
      var n := |ys| - 1;
      assert ys == ys[..n] + [ys[n]];
      assert xs + ys == (xs + ys[..n]) + [ys[n]];
      FlattenMore(xs + ys[..n], ys[n]);
      FlattenMore(ys[..n], ys[n]);
      FlattenConcat(xs, ys[..n]);
    }
  }

  lemma FlattenFirst(ds: seq<Desc>)
    requires ds != []
    ensures Flatten(ds) == ds[0] + Flatten(ds[1..])
  {
    assert ds == [ds[0]] + ds[1..];
    FlattenConcat([ds[0]], ds[1..]);
    FlattenMore([], ds[0]);
    assert [] + [ds[0]] == [ds[0]];
  }

  lemma FlattenPrefix(ds: seq<Desc>, k: nat)
    requires k <= |ds|
    ensures |Flatten(ds[..k])| <= |Flatten(ds)|
  {
    assert ds == ds[..k] + ds[k..];
    FlattenConcat(ds[..k], ds[k..]);
  }

  // ---- The host's side

  datatype Parsed = Malformed | Descs(ds: seq<Desc>)

  // Stepping on bLength.
  function Parse(bytes: seq<Byte>): Parsed
    decreases |bytes|
  {
    if bytes == [] then Descs([])
    else
      var n := bytes[0] as int;
      if n == 0 || n > |bytes| then Malformed
      else
        match Parse(bytes[n..])
        case Malformed => Malformed
        case Descs(ds) => Descs([bytes[..n]] + ds)
  }

  // Parsing succeeds with a list of descriptors exactly when the bytes are that list end
  // to end and every length byte is right.
  lemma {:induction false} ParseExactly(bytes: seq<Byte>, ds: seq<Desc>)
    ensures Parse(bytes) == Descs(ds) <==> AllSized(ds) && Flatten(ds) == bytes
    decreases |bytes| + |ds|
  {
    if ds == [] {
      if bytes != [] {
        ParseNonEmpty(bytes);
      }
    } else if bytes == [] {
      FlattenFirst(ds);
    } else {
      FlattenFirst(ds);
      var n := bytes[0] as int;
      if Sized(ds[0]) && ds[0] <= bytes {
        assert bytes == ds[0] + bytes[n..];
        ParseExactly(bytes[n..], ds[1..]);
        assert ds == [ds[0]] + ds[1..];
        SizedRest(ds);
      } else {
        if Flatten(ds) == bytes {
          assert ds[0] <= bytes;
        }
      }
    }
  }

  lemma SizedRest(ds: seq<Desc>)
    requires ds != []
    ensures AllSized(ds) <==> Sized(ds[0]) && AllSized(ds[1..])
  {
    assert forall k :: 0 < k < |ds| ==> ds[k] == ds[1..][k - 1];
  }

  lemma ParseNonEmpty(bytes: seq<Byte>)
    requires bytes != []
    ensures Parse(bytes) != Descs([])
  {
  }

  // ---- usb_descriptor_fillbuf

  ghost predicate Fits(ds: seq<Desc>, buflen: nat) { |Flatten(ds)| <= buflen }

  // What a buffer is after descriptors have been written from a position on.
  function Written(was: seq<Byte>, at: nat, ds: seq<Desc>): (r: seq<Byte>)
    requires at + |Flatten(ds)| <= |was|
    ensures |r| == |was|
  {
    was[..at] + Flatten(ds) + was[at + |Flatten(ds)|..]
  }

  lemma WrittenMore(was: seq<Byte>, at: nat, ds: seq<Desc>, d: Desc)
    requires at + |Flatten(ds)| + |d| <= |was|
    ensures |Flatten(ds + [d])| == |Flatten(ds)| + |d|
    ensures
      var r, e := Written(was, at, ds), at + |Flatten(ds)|;
      Written(was, at, ds + [d]) == r[..e] + d + r[e + |d|..]
  {
    FlattenMore(ds, d);
  }

  method FillBuf(buf: array<Byte>, at: nat, buflen: nat, src: Vector) returns (status: int)
    requires at + buflen <= buf.Length && (src.Vector? ==> AllSized(src.ds))
    modifies buf
    ensures status == if src.Null? || !Fits(src.ds, buflen) then EINVAL else |Flatten(src.ds)|
    ensures status >= 0 ==> buf[..] == Written(old(buf[..]), at, src.ds)
    ensures buf[..at] == old(buf[..at]) && buf[at + buflen..] == old(buf[at + buflen..])
  {
    if src.Null? {
      return EINVAL;
    }
    hide Flatten, Written;
    ghost var was := buf[..];
    var dest: nat, room: nat := at, buflen;
    NothingWritten(was, at);
    assert src.ds[..0] == [];
    for k := 0 to |src.ds|
      invariant dest + room == at + buflen && dest == at + |Flatten(src.ds[..k])|
      invariant buf[..] == Written(was, at, src.ds[..k])
    {
      var d := src.ds[k];
      assert src.ds[..k] + [d] == src.ds[..k + 1];
      var len := d[0] as int;
      if len > room {
        FlattenMore(src.ds[..k], d);
        FlattenPrefix(src.ds, k + 1);
        WrittenOutside(was, at, src.ds[..k], buflen);
        OutsideIs(buf, was, at, at + buflen);
        return EINVAL;
      }
      WrittenMore(was, at, src.ds[..k], d);
      CopyDesc(buf, dest, d);
      dest, room := dest + len, room - len;
    }
    assert src.ds[..|src.ds|] == src.ds;
    WrittenOutside(was, at, src.ds, buflen);
    OutsideIs(buf, was, at, at + buflen);
    status := dest - at;
  }

  lemma WrittenOutside(was: seq<Byte>, at: nat, ds: seq<Desc>, buflen: nat)
    requires |Flatten(ds)| <= buflen && at + buflen <= |was|
    ensures Written(was, at, ds)[..at] == was[..at] && Written(was, at, ds)[at + buflen..] == was[at + buflen..]
  {
  }

  lemma OutsideIs(buf: array<Byte>, was: seq<Byte>, lo: nat, hi: nat)
    requires |was| == buf.Length && lo <= hi <= buf.Length
    requires buf[..][..lo] == was[..lo] && buf[..][hi..] == was[hi..]
    ensures buf[..lo] == was[..lo] && buf[hi..] == was[hi..]
  {
    assert buf[..][..lo] == buf[..lo] && buf[..][hi..] == buf[hi..];
  }

  lemma NothingWritten(was: seq<Byte>, at: nat)
    requires at <= |was|
    ensures Flatten([]) == [] && Written(was, at, []) == was
  {
  }

  // memcpy of one descriptor
  method CopyDesc(buf: array<Byte>, at: nat, d: Desc)
    requires at + |d| <= buf.Length
    modifies buf
    ensures buf[..] == old(buf[..at]) + d + old(buf[at + |d|..])
  {
    forall i | 0 <= i < |d| {
      buf[at + i] := d[i];
    }
  }
}
