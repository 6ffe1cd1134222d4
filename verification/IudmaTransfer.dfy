/** One request over all its submissions and interrupts on an IUDMA channel: the posted
    descriptors tile the buffer, in chains that are framed as the hardware wants them. */
module IudmaTransfer {
  import opened Basics
  import opened Arithmetic
  import opened Iudma

  // subs is every submission so far, as the list of descriptors it posted.
  datatype Transfer = Transfer(ch: Chan, r: Req, subs: seq<seq<Desc>>, done: bool)

  datatype Event = Hardware(k: nat, bytes: nat) | Interrupt

  function PostedList(ch: Chan, r: Req): seq<Desc>
    requires CanWrite(ch, r)
  {
    seq(Min(Count(ch, r), |ch.ring|), i requires 0 <= i < |ch.ring| => Posted(ch, r, ch.writeBd, i))
  }

  function Start(ch: Chan, r: Req): Transfer
    requires CanWrite(ch, r)
  {
    Transfer(Written(ch, r), Submitted(ch, r), [PostedList(ch, r)], false)
  }

  // A data interrupt that finds the submission reaped: the request ends or goes on.
  function Interrupted(t: Transfer): Transfer
    requires Window(t.ch)
  {
    var rc := ReadResult(t.ch);
    if t.done || rc < 0 then t
    else if Ends(t.r, rc) then Transfer(Reaped(t.ch), Ended(t.r, rc), t.subs, true)
    else
      var ch, r := Reaped(t.ch), Continued(t.r, rc);
      if CanWrite(ch, r) then Transfer(Written(ch, r), Submitted(ch, r), t.subs + [PostedList(ch, r)], false)
      else t
  }

  function Step(t: Transfer, e: Event): Transfer {
    match e
    case Hardware(k, bytes) => if HwCan(t.ch, k, bytes) then t.(ch := HwDone(t.ch, k, bytes)) else t
    case Interrupt => if Window(t.ch) then Interrupted(t) else t
  }

  function Run(t: Transfer, es: seq<Event>): Transfer
    decreases |es|
  {
    if es == [] then t else Run(Step(t, es[0]), es[1..])
  }

  // ---- What a list of descriptors covers

  function Width(d: Desc): nat { if d.zero then 0 else d.length }

  function Total(ds: seq<Desc>): nat {
    if ds == [] then 0 else Total(ds[..|ds| - 1]) + Width(ds[|ds| - 1])
  }

  // Each descriptor starts where the previous one ended.
  predicate Tiled(ds: seq<Desc>, start: int) {
    forall i :: 0 <= i < |ds| ==> ds[i].address == start + Total(ds[..i])
  }

  function Flat(subs: seq<seq<Desc>>): seq<Desc> {
    if subs == [] then [] else Flat(subs[..|subs| - 1]) + subs[|subs| - 1]
  }

  // One chain of at most n descriptors: all handed to the hardware, SOP on the first only,
  // EOP on the last only.
  predicate IsChain(ds: seq<Desc>, n: nat) {
    && 1 <= |ds| <= n
    && forall i :: 0 <= i < |ds| ==> ds[i].owner && (ds[i].sop <==> i == 0) && (ds[i].eop <==> i == |ds| - 1)
  }

  lemma {:induction false} TotalConcat(a: seq<Desc>, b: seq<Desc>)
    ensures Total(a + b) == Total(a) + Total(b)
    decreases |b|
  {
    if b == [] {
      assert a + b == a;
    } else {
      TotalConcat(a, b[..|b| - 1]);
      assert (a + b)[..|a + b| - 1] == a + b[..|b| - 1];
    }
  }

  lemma {:induction false} TiledConcat(a: seq<Desc>, b: seq<Desc>, start: int)
    requires Tiled(a, start) && Tiled(b, start + Total(a))
    ensures Tiled(a + b, start)
  {
    forall i | 0 <= i < |a + b|
      ensures (a + b)[i].address == start + Total((a + b)[..i])
    {
      if i < |a| {
        assert (a + b)[..i] == a[..i];
      } else {
        assert (a + b)[..i] == a + b[..i - |a|];
        TotalConcat(a, b[..i - |a|]);
      }
    }
  }

  // ---- One submission is a chain that tiles what it covers

  // What the i-th descriptor adds to the bytes covered.
  lemma PostedWidth(ch: Chan, r: Req, i: nat)
    requires CanWrite(ch, r) && i < |PostedList(ch, r)|
    ensures Width(PostedList(ch, r)[i])
         == Cover(ch, r.length - r.offset, i + 1) - Cover(ch, r.length - r.offset, i)
  {
    hide Count;
  }

  lemma {:induction false} PostedTotal(ch: Chan, r: Req, i: nat)
    requires CanWrite(ch, r) && i <= |PostedList(ch, r)|
    ensures Total(PostedList(ch, r)[..i]) == Cover(ch, r.length - r.offset, i)
  {
    hide PostedList, Width, CanWrite;
    var ds := PostedList(ch, r);
    if i > 0 {
      PostedTotal(ch, r, i - 1);
      PostedWidth(ch, r, i - 1);
      assert ds[..i][..i - 1] == ds[..i - 1];
    }
  }

  lemma PostedFramed(ch: Chan, r: Req)
    requires CanWrite(ch, r)
    ensures IsChain(PostedList(ch, r), |ch.ring|)
  {
    CountBounds(ch, r);
  }

  lemma PostedIsChain(ch: Chan, r: Req)
    requires CanWrite(ch, r)
    ensures IsChain(PostedList(ch, r), |ch.ring|)
    ensures Tiled(PostedList(ch, r), r.dma + r.offset)
    ensures Total(PostedList(ch, r)) == Submitted(ch, r).bdBytes
  {
    hide IsChain, ChanOk, Cover;
    var ds := PostedList(ch, r);
    PostedFramed(ch, r);
    CountBounds(ch, r);
    forall i | 0 <= i < |ds|
      ensures ds[i].address == r.dma + r.offset + Total(ds[..i])
    {
      PostedTotal(ch, r, i);
    }
    PostedTotal(ch, r, |ds|);
    assert ds[..|ds|] == ds;
  }

  // ---- The invariant over a run

  // A full submission of a TX channel.
  function Portion(n: nat): nat { MAX_FRAGMENT * n }

  // k full submissions.
  function Sent(n: nat, k: nat): nat { Portion(n) * k }

  lemma SentNext(n: nat, k: nat)
    ensures Sent(n, k + 1) == Sent(n, k) + Portion(n) && Sent(n, 0) == 0
    ensures n > 0 && k > 0 ==> Sent(n, k) > 0
  {
    if n > 0 && k > 0 {
      Scale(Portion(n), k);
    }
  }

  ghost predicate Good(t: Transfer, n: nat) {
    && GoodChan(t, n)
    && GoodLog(t.subs, t.r, n)
    && (t.ch.isTx ==> SentSoFar(t, n))
  }

  ghost predicate GoodChan(t: Transfer, n: nat) {
    && ChanOk(t.ch) && |t.ch.ring| == n && t.r.actual <= t.r.length
    && if t.done then t.ch.used == 0 else InFlight(t.ch, t.r)
  }

  ghost predicate GoodLog(subs: seq<seq<Desc>>, r: Req, n: nat) {
    && |subs| > 0 && (forall i :: 0 <= i < |subs| ==> IsChain(subs[i], n))
    && Tiled(Flat(subs), r.dma) && Total(Flat(subs)) == r.offset <= r.length
  }

  // TX: every submission but the last covers a full portion.
  ghost predicate SentSoFar(t: Transfer, n: nat)
    requires |t.subs| > 0
  {
    var before := Sent(n, |t.subs| - 1);
    if t.done then
      && t.r.actual == t.r.length == t.r.offset
      && (if t.r.length == 0 then |t.subs| == 1 else before < t.r.length <= before + Portion(n))
    else t.r.actual == before
  }

  lemma StartIsGood(ch: Chan, r: Req)
    requires ChanOk(ch) && ch.used == 0 && Ready(r) && r.actual == 0
    ensures Good(Start(ch, r), |ch.ring|)
  {
    WriteStarts(ch, r);
    WriteKeepsChan(ch, r);
    SentNext(|ch.ring|, 0);
    LogStarts(ch, r);
    hide InFlight, GoodLog, ChanOk, Count, Posted, PostedList, Sent, WrittenRing;
  }

  lemma LogStarts(ch: Chan, r: Req)
    requires CanWrite(ch, r) && r.offset == 0
    ensures GoodLog([PostedList(ch, r)], Submitted(ch, r), |ch.ring|)
  {
    hide Flat, Posted, PostedList, Tiled, Total, IsChain, Count, Cover;
    PostedIsChain(ch, r);
    CountBounds(ch, r);
    FlatOne(PostedList(ch, r));
  }

  lemma FlatOne(ds: seq<Desc>)
    ensures Flat([ds]) == ds
  {
    assert [ds][..0] == [];
  }

  // A submission that starts where the log ends extends it.
  lemma LogGrows(subs: seq<seq<Desc>>, prev: Req, ch: Chan, r: Req)
    requires CanWrite(ch, r) && GoodLog(subs, prev, |ch.ring|)
    requires r.dma == prev.dma && r.length == prev.length && r.offset == prev.offset
    ensures GoodLog(subs + [PostedList(ch, r)], Submitted(ch, r), |ch.ring|)
  {
    hide Flat, Posted, PostedList, Tiled, Total, IsChain, Count, Cover;
    PostedIsChain(ch, r);
    CountBounds(ch, r);
    var ds := PostedList(ch, r);
    FlatAppend(subs, ds);
    TiledConcat(Flat(subs), ds, r.dma);
    TotalConcat(Flat(subs), ds);
  }

  lemma FlatAppend(subs: seq<seq<Desc>>, ds: seq<Desc>)
    ensures Flat(subs + [ds]) == Flat(subs) + ds
  {
    assert (subs + [ds])[..|subs|] == subs;
  }

  // A TX submission that does not end the request covers a full portion; one that does
  // covers at most that.
  lemma TxCovers(ch: Chan, r: Req)
    requires InFlight(ch, r) && ch.isTx
    ensures r.offset < r.length ==> r.bdBytes == Portion(|ch.ring|)
    ensures r.bdBytes <= Portion(|ch.ring|)
  {
  }

  lemma InterruptKeeps(t: Transfer, n: nat)
    requires Good(t, n) && !t.done && ReadResult(t.ch) >= 0
    ensures Good(Interrupted(t), n)
  {
    assert Window(t.ch);
    hide InFlight, ReadResult, Tiled, Flat, Total, IsChain, ChanOk, Count, Posted, PostedList, Sent, Written, WrittenRing, Submitted, Ready, SentSoFar, Reaped;
    var rc := ReadResult(t.ch);
    ReapOutcome(t.ch, t.r);
    ReapedIsIdle(t.ch);
    ReapedSame(t.ch);
    if t.ch.isTx {
      TxPortion(t, n, rc);
    }
    if !Ends(t.r, rc) {
      ResubmitKeeps(t, n, rc);
    }
  }

  // The next submission of a request that goes on.
  lemma ResubmitKeeps(t: Transfer, n: nat, rc: nat)
    requires Good(t, n) && !t.done && rc == ReadResult(t.ch) && !Ends(t.r, rc)
    requires t.ch.isTx ==> t.r.offset == Sent(n, |t.subs|)
    ensures CanWrite(Reaped(t.ch), Continued(t.r, rc))
    ensures
      var ch, r := Reaped(t.ch), Continued(t.r, rc);
      Good(Transfer(Written(ch, r), Submitted(ch, r), t.subs + [PostedList(ch, r)], false), n)
  {
    assert Window(t.ch);
    hide InFlight, GoodLog, ChanOk, Count, Posted, PostedList, Sent, WrittenRing;
    ReapOutcome(t.ch, t.r);
    ReapedIsIdle(t.ch);
    ReapedSame(t.ch);
    var ch, r := Reaped(t.ch), Continued(t.r, rc);
    WriteStarts(ch, r);
    WriteKeepsChan(ch, r);
    LogGrows(t.subs, t.r, ch, r);
  }

  lemma TxPortion(t: Transfer, n: nat, rc: nat)
    requires Good(t, n) && !t.done && t.ch.isTx && rc == ReadResult(t.ch)
    ensures Ends(t.r, rc) ==> SentSoFar(t.(done := true, r := Ended(t.r, rc)), n)
    ensures !Ends(t.r, rc) ==> t.r.offset == Sent(n, |t.subs|)
  {
    hide Sent;
    ReapOutcome(t.ch, t.r);
    TxCovers(t.ch, t.r);
    SentNext(n, |t.subs| - 1);
  }

  lemma StepKeeps(t: Transfer, n: nat, e: Event)
    requires Good(t, n)
    ensures Good(Step(t, e), n)
  {
    match e
    case Hardware(k, bytes) =>
      if HwCan(t.ch, k, bytes) && !t.done {
        HwKeepsInFlight(t.ch, t.r, k, bytes);
      }
    case Interrupt =>
      if !t.done && ReadResult(t.ch) >= 0 {
        InterruptKeeps(t, n);
      }
  }

  lemma {:induction false} RunKeeps(t: Transfer, n: nat, es: seq<Event>)
    requires Good(t, n)
    ensures Good(Run(t, es), n)
    decreases |es|
  {
    if es != [] {
      StepKeeps(t, n, es[0]);
      RunKeeps(Step(t, es[0]), n, es[1..]);
    }
  }

  lemma StepSame(t: Transfer, e: Event)
    ensures
      var q := Step(t, e);
      && q.ch.isTx == t.ch.isTx && q.ch.maxPkt == t.ch.maxPkt
      && q.r.dma == t.r.dma && q.r.length == t.r.length && q.r.zero == t.r.zero
  {
  }

  lemma {:induction false} RunSameRequest(t: Transfer, n: nat, es: seq<Event>)
    requires Good(t, n)
    ensures
      var q := Run(t, es);
      && q.ch.isTx == t.ch.isTx && q.ch.maxPkt == t.ch.maxPkt
      && q.r.dma == t.r.dma && q.r.length == t.r.length && q.r.zero == t.r.zero
    decreases |es|
  {
    if es != [] {
      StepKeeps(t, n, es[0]);
      StepSame(t, es[0]);
      hide Step, Good;
      RunSameRequest(Step(t, es[0]), n, es[1..]);
    }
  }

  // Whatever the hardware and the interrupts do with a request on an idle channel: the
  // descriptors posted so far tile its buffer from the start without gap or overlap, in
  // chains of 1 to n; it never reports more than its length; and a finished TX request
  // has reported exactly its length after ceil(length / (2048 n)) submissions, at least one.
  lemma TransferTiles(ch: Chan, r: Req, es: seq<Event>)
    requires ChanOk(ch) && ch.used == 0 && Ready(r) && r.actual == 0
    ensures
      var t, n := Run(Start(ch, r), es), |ch.ring|;
      && Tiled(Flat(t.subs), r.dma) && Total(Flat(t.subs)) == t.r.offset <= r.length
      && (forall i :: 0 <= i < |t.subs| ==> IsChain(t.subs[i], n))
      && t.r.actual <= r.length
      && (ch.isTx && t.done ==>
            t.r.actual == r.length &&
            |t.subs| == if r.length == 0 then 1 else (r.length + Portion(n) - 1) / Portion(n))
  {
    hide Step, Start, Run, InFlight, Tiled, Flat, Total, IsChain, Sent;
    var t, n := Run(Start(ch, r), es), |ch.ring|;
    StartIsGood(ch, r);
    StartSame(ch, r);
    RunKeeps(Start(ch, r), n, es);
    RunSameRequest(Start(ch, r), n, es);
    if ch.isTx && t.done && r.length > 0 {
      CeilIs(r.length, n, |t.subs|);
    }
  }

  lemma StartSame(ch: Chan, r: Req)
    requires CanWrite(ch, r)
    ensures
      var t := Start(ch, r);
      && t.ch.isTx == ch.isTx && t.ch.maxPkt == ch.maxPkt
      && t.r.dma == r.dma && t.r.length == r.length && t.r.zero == r.zero
  {
  }

  lemma CeilIs(length: nat, n: nat, k: nat)
    requires n > 0 && k > 0 && Sent(n, k - 1) < length <= Sent(n, k - 1) + Portion(n)
    ensures (length + Portion(n) - 1) / Portion(n) == k
    ensures (length - 1) % Portion(n) == length - 1 - Sent(n, k - 1)
  {
    Distribute(Portion(n), k, 1);
    DivModUnique(length + Portion(n) - 1, Portion(n), k, length - Sent(n, k - 1) - 1);
    DivModUnique(length - 1, Portion(n), k - 1, length - Sent(n, k - 1) - 1);
  }

  // ---- What a receive request counts

  // The bytes of the descriptors that the hardware finishes during a run.
  function Landed(t: Transfer, es: seq<Event>): nat
    decreases |es|
  {
    if es == [] then 0 else LandedNow(t, es[0]) + Landed(Step(t, es[0]), es[1..])
  }

  function LandedNow(t: Transfer, e: Event): nat {
    if e.Hardware? && HwCan(t.ch, e.k, e.bytes) then e.bytes else 0
  }

  // The bytes that have landed since the last interrupt that reaped.
  function Pending(t: Transfer): nat {
    if !t.done && Window(t.ch) && t.ch.used > 0 && !Out(t.ch, 0).owner then Out(t.ch, 0).length else 0
  }

  // The request accounts for x bytes.
  predicate Tally(t: Transfer, x: nat) {
    if t.done then t.r.actual == (if x < t.r.length then x else t.r.length) else t.r.actual + Pending(t) == x
  }

  lemma TallyHardware(t: Transfer, n: nat, x: nat, k: nat, bytes: nat)
    requires Good(t, n) && !t.ch.isTx && Tally(t, x) && HwCan(t.ch, k, bytes)
    ensures Tally(Step(t, Hardware(k, bytes)), x + bytes)
  {
    if !t.done {
      RxOne(t.ch, t.r);
    }
  }

  lemma TallyInterrupt(t: Transfer, n: nat, x: nat)
    requires Good(t, n) && !t.ch.isTx && Tally(t, x)
    ensures Tally(Step(t, Interrupt), x)
  {
    assert Window(t.ch);
    if !t.done {
      RxOne(t.ch, t.r);
      if ReadResult(t.ch) >= 0 && !Ends(t.r, ReadResult(t.ch)) {
        var rc := ReadResult(t.ch);
        ReapOutcome(t.ch, t.r);
        ReapedIsIdle(t.ch);
        ReapedSame(t.ch);
        PostedOwned(Reaped(t.ch), Continued(t.r, rc));
        hide InFlight, ReadResult, Written, Reaped;
      }
    }
  }

  lemma {:induction false} RunTallies(t: Transfer, n: nat, x: nat, es: seq<Event>)
    requires Good(t, n) && !t.ch.isTx && Tally(t, x)
    ensures Tally(Run(t, es), x + Landed(t, es))
    decreases |es|
  {
    hide Good, Tally, HwCan;
    if es != [] {
      match es[0] {
        case Hardware(k, bytes) =>
          if HwCan(t.ch, k, bytes) {
            TallyHardware(t, n, x, k, bytes);
          }
        case Interrupt => TallyInterrupt(t, n, x);
      }
      StepKeeps(t, n, es[0]);
      StepSame(t, es[0]);
      RunTallies(Step(t, es[0]), n, x + LandedNow(t, es[0]), es[1..]);
    }
  }

  // Over every run of a receive request: once it is finished it has counted the bytes that
  // the hardware put into its buffer, up to its length; before that it has counted all but
  // those of the descriptor that the next interrupt reaps.
  lemma ReceiveCounts(ch: Chan, r: Req, es: seq<Event>)
    requires ChanOk(ch) && ch.used == 0 && Ready(r) && r.actual == 0 && !ch.isTx
    ensures
      var t, landed := Run(Start(ch, r), es), Landed(Start(ch, r), es);
      if t.done then t.r.actual == (if landed < r.length then landed else r.length)
      else t.r.actual + Pending(t) == landed
  {
    hide Run, Landed;
    StartIsGood(ch, r);
    StartSame(ch, r);
    PostedOwned(ch, r);
    RunTallies(Start(ch, r), |ch.ring|, 0, es);
    RunSameRequest(Start(ch, r), |ch.ring|, es);
  }

  // What a receive request has posted: one descriptor, for the rest of the request up to a
  // fragment, or up to a packet without irq_coalesce, and one byte when there is no rest.
  lemma ReceivePosts(t: Transfer, n: nat)
    requires Good(t, n) && !t.ch.isTx && !t.done && Out(t.ch, 0).owner
    ensures
      var rest, most := t.r.length - t.r.actual, if t.ch.coalesce then 2048 else t.ch.maxPkt;
      && t.ch.used == 1 && Out(t.ch, 0).address == t.r.dma + t.r.actual
      && Out(t.ch, 0).length == (if rest == 0 then 1 else if rest < most then rest else most)
  {
    RxOne(t.ch, t.r);
    assert Progress(t.ch, Out(t.ch, 0), Posted(t.ch, t.r.(offset := t.r.actual), t.ch.readBd, 0));
  }

  // The descriptor that lands with so many bytes finishes the request exactly when it fills
  // it or is not filled itself; otherwise the rest is posted.
  lemma ReceiveExactly(t: Transfer, n: nat, bytes: nat)
    requires Good(t, n) && !t.ch.isTx && !t.done && HwCan(t.ch, 0, bytes)
    ensures
      var v := Run(t, [Hardware(0, bytes), Interrupt]);
      && (v.done <==> t.r.actual + bytes >= t.r.length || bytes < Out(t.ch, 0).length)
      && v.r.actual == (if t.r.actual + bytes < t.r.length then t.r.actual + bytes else t.r.length)
      && (!v.done ==> Good(v, n) && v.ch.used == 1 && Out(v.ch, 0).owner)
  {
    hide InFlight, ReadResult, Written, Reaped, Ends, GoodLog, Interrupted, HwCan;
    var u := Step(t, Hardware(0, bytes));
    StepKeeps(t, n, Hardware(0, bytes));
    RxLands(t.ch, t.r, bytes);
    RunTwo(t, Hardware(0, bytes), Interrupt);
    InterruptKeeps(u, n);
    ReapedExactly(u, n, bytes);
  }

  // The interrupt that reaps a landed descriptor.
  lemma ReapedExactly(u: Transfer, n: nat, bytes: nat)
    requires Good(u, n) && !u.ch.isTx && !u.done && ReadResult(u.ch) == bytes
    ensures
      var v := Interrupted(u);
      && v.r.actual == (if u.r.actual + bytes < u.r.length then u.r.actual + bytes else u.r.length)
      && (v.done <==> Ends(u.r, bytes))
      && (!v.done ==> Window(v.ch) && v.ch.used == 1 && Out(v.ch, 0).owner)
  {
    assert Window(u.ch);
    hide InFlight, Written, ReadResult;
    if !Ends(u.r, bytes) {
      ReapedIsIdle(u.ch);
      ReapedSame(u.ch);
      ReapOutcome(u.ch, u.r);
      PostedOwned(Reaped(u.ch), Continued(u.r, bytes));
    }
  }

  lemma RunTwo(t: Transfer, e: Event, f: Event)
    ensures Run(t, [e, f]) == Step(Step(t, e), f)
  {
    hide Step;
    assert [e, f][1..] == [f] && [f][1..] == [];
    assert Run(Step(t, e), [f]) == Run(Step(Step(t, e), f), []);
  }
}
