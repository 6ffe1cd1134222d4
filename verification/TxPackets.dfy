/** How an IN request becomes packets, as section 5.8.3 of USB 2.0 lays it down: full
    packets, then one that may be short or empty.  The three device drivers of this
    project are compared with this. */
module TxPackets {
  import opened Arithmetic

  newtype Byte = x: int | 0 <= x < 256
  type Packet = seq<Byte>

  // The bytes in packets of mp, the last one with whatever remains.
  function Split(s: seq<Byte>, mp: nat): seq<Packet>
    requires mp > 0
    decreases |s|
  {
    if |s| == 0 then [] else if |s| <= mp then [s] else [s[..mp]] + Split(s[mp..], mp)
  }

  // An empty packet ends the transfer when there is no data, or when the data ends on a
  // packet boundary and the request asks for it.
  predicate ZlpDue(length: nat, mp: nat, zero: bool)
    requires mp > 0
  {
    length == 0 || (zero && Aligned(length, mp))
  }

  function Packets(buf: seq<Byte>, mp: nat, zero: bool): seq<Packet>
    requires mp > 0
  {
    Split(buf, mp) + if ZlpDue(|buf|, mp, zero) then [[]] else []
  }

  // ---- The same said of a packet sequence without computing one

  function Payload(ps: seq<Packet>): seq<Byte> {
    if ps == [] then [] else ps[0] + Payload(ps[1..])
  }

  // The payloads concatenate to the buffer, all packets but the last are full, the last is
  // no longer than that, and it is empty exactly when an empty packet is due.
  ghost predicate IsTransfer(ps: seq<Packet>, buf: seq<Byte>, mp: nat, zero: bool)
    requires mp > 0
  {
    && |ps| > 0
    && Payload(ps) == buf
    && (forall i :: 0 <= i < |ps| - 1 ==> |ps[i]| == mp)
    && |ps[|ps| - 1]| <= mp
    && (ps[|ps| - 1] == [] <==> ZlpDue(|buf|, mp, zero))
  }

  // Those conditions leave exactly one packet sequence.
  lemma {:induction false} TransferIsPackets(ps: seq<Packet>, buf: seq<Byte>, mp: nat, zero: bool)
    requires mp > 0
    ensures IsTransfer(ps, buf, mp, zero) <==> ps == Packets(buf, mp, zero)
  {
    if IsTransfer(ps, buf, mp, zero) {
      TransferUnique(ps, buf, mp, zero);
    }
    PacketsIsTransfer(buf, mp, zero);
  }

  lemma {:induction false} TransferUnique(ps: seq<Packet>, buf: seq<Byte>, mp: nat, zero: bool)
    requires mp > 0 && IsTransfer(ps, buf, mp, zero)
    ensures ps == Packets(buf, mp, zero)
    decreases |ps|
  {
    if |ps| == 1 {
      assert Payload(ps) == ps[0] + Payload(ps[1..]) == ps[0];
      if |buf| > 0 {
        AlignedSmall(|buf|, mp);
      }
      assert ps == [buf];
    } else {
      var rest, tail := buf[mp..], ps[1..];
      assert Payload(tail) == rest && ps[0] == buf[..mp];
      assert ps == [ps[0]] + tail;
      if |rest| == 0 {
        PayloadEmpty(tail, mp);
        assert buf[..mp] == buf;
        assert ps == [buf] + [[]];
      } else {
        DueForRest(|buf|, mp, zero);
        TransferUnique(tail, rest, mp, zero);
        assert Packets(buf, mp, zero) == [buf[..mp]] + Packets(rest, mp, zero);
      }
    }
  }

  lemma PayloadEmpty(ps: seq<Packet>, mp: nat)
    requires mp > 0 && |ps| > 0 && Payload(ps) == []
    requires forall i :: 0 <= i < |ps| - 1 ==> |ps[i]| == mp
    ensures |ps| == 1 && ps[0] == []
  {
    assert |Payload(ps)| == |ps[0]| + |Payload(ps[1..])|;
  }

  // Dropping a full packet from the front does not change whether an empty one is due.
  lemma DueForRest(n: nat, mp: nat, zero: bool)
    requires mp > 0 && n > mp
    ensures ZlpDue(n - mp, mp, zero) <==> ZlpDue(n, mp, zero)
  {
    AlignedSmall(mp, mp);
    AlignedSum(mp, n - mp, mp);
  }

  lemma {:induction false} PacketsIsTransfer(buf: seq<Byte>, mp: nat, zero: bool)
    requires mp > 0
    ensures IsTransfer(Packets(buf, mp, zero), buf, mp, zero)
    decreases |buf|
  {
    var ps := Packets(buf, mp, zero);
    if |buf| == 0 {
      assert ps == [[]];
      assert Payload(ps) == ps[0] + Payload(ps[1..]);
    } else if |buf| <= mp {
      AlignedSmall(|buf|, mp);
      assert Payload([buf]) == [buf][0] + Payload([buf][1..]);
      if ZlpDue(|buf|, mp, zero) {
        assert ps == [buf, []] && ps[1..] == [[]];
        var e: Packet := [];
        assert Payload([e]) == [e][0] + Payload([e][1..]);
      } else {
        assert ps == [buf];
      }
    } else {
      DueForRest(|buf|, mp, zero);
      PacketsIsTransfer(buf[mp..], mp, zero);
      var tail := Packets(buf[mp..], mp, zero);
      assert ps == [buf[..mp]] + tail && ps[1..] == tail;
    }
  }

  // ---- Cutting the data at a packet boundary

  lemma {:induction false} SplitConcat(a: seq<Byte>, b: seq<Byte>, mp: nat)
    requires mp > 0 && Aligned(|a|, mp)
    ensures Split(a + b, mp) == Split(a, mp) + Split(b, mp)
    decreases |a|
  {
    if |a| == 0 {
      assert a + b == b;
    } else {
      if |a| < mp {
        AlignedSmall(|a|, mp);
        assert false;
      }
      AlignedSmall(mp, mp);
      AlignedSum(mp, |a| - mp, mp);
      SplitConcat(a[mp..], b, mp);
      assert (a + b)[..mp] == a[..mp] && (a + b)[mp..] == a[mp..] + b;
      if |a| == mp {
        assert a[mp..] == [] && a[..mp] == a;
      }
      if b == [] {
        assert a + b == a;
      }
    }
  }
}
