/** The frame-buffer queue of ezy_buf/ezy_buf.c as a state machine.  The list `empty` holds
    the buffers that the client has queued and not got back, `full` those among them that
    the producer has not taken yet. */
module EzyMachine {
  import opened Basics

  datatype BufState = NeedsInit | Prepared | Queued | Active | Done | Error | Idle

  // States, byte counts and capacities (size less headlen, which a small buffer does not
  // have) by buffer index, the two lists and the streaming flag.
  datatype Buffers = Buffers(states: seq<BufState>, used: seq<int>, room: seq<int>,
                             empty: seq<nat>, full: seq<nat>, streaming: bool)

  ghost predicate Shaped(q: Buffers) {
    && |q.states| == |q.used| == |q.room|
    && (forall i :: 0 <= i < |q.empty| ==> q.empty[i] < |q.states|)
    && (forall i :: 0 <= i < |q.full| ==> q.full[i] < |q.states|)
  }

  predicate Accepts(q: Buffers, index: nat) {
    index < |q.states| && q.states[index] != Queued && q.states[index] != Active
  }

  // The values of an unsigned long, and how an int becomes one.
  const ULONG: int := 0x1_0000_0000_0000_0000

  function AsUnsigned(x: int): int { x % ULONG }

  predicate IsInt(x: int) { -0x8000_0000 <= x < 0x8000_0000 }

  // The byte count is compared with the capacity as unsigned longs, and replaced by it when
  // it is greater.
  function Clamped(bytesused: int, room: int): int {
    if AsUnsigned(bytesused) > AsUnsigned(room) then room else bytesused
  }

  // ezybuf_qbuf_user
  function QBufUser(q: Buffers, index: nat): Buffers
    requires index < |q.states|
  {
    q.(full := q.full + [index], states := q.states[index := Queued])
  }

  // ezybuf_qbuf for a buffer number that is not negative
  function QBuf(q: Buffers, index: nat, bytesused: int): Buffers
    requires Shaped(q)
  {
    if !Accepts(q, index) then q
    else
      var r := q.(used := q.used[index := Clamped(bytesused, q.room[index])], empty := q.empty + [index]);
      if q.streaming then QBufUser(r, index) else r
  }

  predicate Busy(s: BufState) { s == Queued || s == Active }

  // The call sleeps until it is woken or gets a signal.
  const WAITING: int := 1

  // A turn of the wait of ezybuf_dqbuf, and the rest of the call if that ends it.  A
  // blocking call that has slept, and finds that it has a signal, looks no further.
  function DqBuf(q: Buffers, nonBlocking: bool, signalled: bool): (Buffers, int)
    requires Shaped(q)
  {
    if !q.streaming || q.empty == [] then (q, EBUSY)
    else if !nonBlocking && signalled then (q, EINTR)
    else
      var i := q.empty[0];
      if Busy(q.states[i]) then (q, if nonBlocking then EAGAIN else WAITING)
      else if q.states[i] == Done || q.states[i] == Error then
        (q.(empty := q.empty[1..], states := q.states[i := Idle]), 0)
      else (q, EINVAL)
  }

  // ezybuf_dqbuf_user
  function DqBufUser(q: Buffers): Buffers
    requires Shaped(q)
  {
    if q.full == [] then q else q.(full := q.full[1..], states := q.states[q.full[0] := Active])
  }

  // The loop of ezybuf_streamon over a list.
  function QueueAll(q: Buffers, list: seq<nat>): Buffers
    requires Shaped(q) && forall i :: 0 <= i < |list| ==> list[i] < |q.states|
    ensures Shaped(QueueAll(q, list)) && |QueueAll(q, list).states| == |q.states|
    decreases |list|
  {
    if list == [] then q
    else
      var r := QueueAll(q, list[..|list| - 1]);
      var i := list[|list| - 1];
      if r.states[i] == Prepared then QBufUser(r, i) else r
  }

  // Whether that loop queues anything.
  predicate AnyQueued(q: Buffers, list: seq<nat>)
    requires Shaped(q) && forall i :: 0 <= i < |list| ==> list[i] < |q.states|
    decreases |list|
  {
    if list == [] then false
    else
      var n := |list| - 1;
      AnyQueued(q, list[..n]) || QueueAll(q, list[..n]).states[list[n]] == Prepared
  }

  // ezybuf_streamon: busy unless it queues a buffer, and streaming all the same.
  function StreamOn(q: Buffers): (Buffers, int)
    requires Shaped(q)
  {
    if q.streaming then (q, EBUSY)
    else
      (QueueAll(q, q.empty).(streaming := true), if AnyQueued(q, q.empty) then 0 else EBUSY)
  }

  // ezybuf_streamoff
  function StreamOff(q: Buffers): Buffers {
    if !q.streaming then q
    else q.(empty := [], full := [], states := seq(|q.states|, _ => Prepared), streaming := false)
  }

  // ezybuf_wakeup
  function Wakeup(q: Buffers, index: nat, err: bool): Buffers
    requires index < |q.states|
  {
    q.(states := q.states[index := if err then Error else Done])
  }

  // ---- Runs

  datatype Step = DoQBuf(index: int, bytesused: int) | DoDqBuf(nonBlocking: bool, signalled: bool) | DoDqBufUser
                | DoStreamOn | DoStreamOff | DoWakeup(woken: nat, err: bool)

  // What has been queued, given to the producer and given back since streaming last ended.
  datatype Run = Run(q: Buffers, put: seq<nat>, made: seq<nat>, got: seq<nat>)

  // The buffer number is compared as a signed one, so a negative one passes the test, and
  // the driver reads in front of its array.
  predicate Wild(s: Step) { s.DoQBuf? && s.index < 0 }

  function Next(m: Run, s: Step): Option<Run>
    requires Shaped(m.q)
  {
    if Wild(s) then None else Some(After(m, s))
  }

  function After(m: Run, s: Step): Run
    requires Shaped(m.q) && !Wild(s)
  {
    var q := m.q;
    match s
    case DoQBuf(index, bytesused) =>
      m.(q := QBuf(q, index, bytesused), put := if Accepts(q, index) then m.put + [index] else m.put)
    case DoDqBuf(nonBlocking, signalled) =>
      var (q', code) := DqBuf(q, nonBlocking, signalled);
      m.(q := q', got := if code == 0 && q.empty != [] then m.got + [q.empty[0]] else m.got)
    case DoDqBufUser => m.(q := DqBufUser(q), made := if q.full == [] then m.made else m.made + [q.full[0]])
    case DoStreamOn => m.(q := StreamOn(q).0)
    case DoStreamOff => if q.streaming then Run(StreamOff(q), [], [], []) else m
    case DoWakeup(index, err) => if index < |q.states| then m.(q := Wakeup(q, index, err)) else m
  }

  // The client gives no negative number and queues no buffer that it has already queued and
  // not got back, unless the driver refuses it; the producer wakes only the buffers it has
  // taken.
  predicate Disciplined(q: Buffers, s: Step) {
    match s
    case DoQBuf(index, _) => index >= 0 && (Accepts(q, index) ==> index !in q.empty)
    case DoWakeup(index, _) => index < |q.states| && q.states[index] == Active
    case _ => true
  }

  predicate Distinct(s: seq<nat>) { forall i, j :: 0 <= i < j < |s| ==> s[i] != s[j] }

  predicate Free(s: BufState) { s == Prepared || s == Idle }

  predicate Taken(s: BufState) { s == Active || s == Done || s == Error }

  // How many of the client's buffers the producer has taken.
  function TakenCount(q: Buffers): int { |q.empty| - |q.full| }

  // No buffer is queued twice, and one that is not queued is free.
  ghost predicate Loose(q: Buffers) {
    Distinct(q.empty) && forall i :: 0 <= i < |q.states| && i !in q.empty ==> Free(q.states[i])
  }

  // While streaming, `empty` is what the producer has taken followed by `full`; otherwise
  // the producer has nothing.
  ghost predicate Split(q: Buffers)
    requires Shaped(q)
  {
    if q.streaming then
      && 0 <= TakenCount(q) && q.empty[TakenCount(q)..] == q.full
      && (forall k :: 0 <= k < TakenCount(q) ==> Taken(q.states[q.empty[k]]))
      && (forall k :: TakenCount(q) <= k < |q.empty| ==> q.states[q.empty[k]] == Queued)
    else q.full == [] && forall i :: 0 <= i < |q.states| ==> q.states[i] == Prepared
  }

  // The two lists are what is left of the buffers queued.
  ghost predicate Logged(m: Run) {
    && m.put == m.got + m.q.empty
    && if m.q.streaming then m.put == m.made + m.q.full else m.made == [] && m.got == []
  }

  ghost predicate Inv(m: Run) { Shaped(m.q) && Loose(m.q) && Split(m.q) && Logged(m) }

  lemma QBufKeeps(m: Run, index: nat, bytesused: int)
    requires Inv(m) && Disciplined(m.q, DoQBuf(index, bytesused))
    ensures Inv(After(m, DoQBuf(index, bytesused)))
  {
    if Accepts(m.q, index) {
      PutLoose(m.q, index, bytesused);
      PutSplit(m.q, index, bytesused);
      PutLogged(m, index, bytesused);
      hide Loose, Split, Logged, QBuf;
    }
  }

  lemma PutLoose(q: Buffers, index: nat, bytesused: int)
    requires Shaped(q) && Loose(q) && Accepts(q, index) && index !in q.empty
    ensures Shaped(QBuf(q, index, bytesused)) && Loose(QBuf(q, index, bytesused))
  {
    var q' := QBuf(q, index, bytesused);
    assert forall i :: 0 <= i < |q.empty| ==> q'.empty[i] == q.empty[i] && q'.empty[i] != index;
    assert q'.empty[|q.empty|] == index;
  }

  lemma PutSplit(q: Buffers, index: nat, bytesused: int)
    requires Shaped(q) && Split(q) && Accepts(q, index) && index !in q.empty
    ensures Shaped(QBuf(q, index, bytesused)) && Split(QBuf(q, index, bytesused))
  {
    hide Clamped;
    if q.streaming {
      PutStreaming(q, index, bytesused);
    }
  }

  lemma PutStreaming(q: Buffers, index: nat, bytesused: int)
    requires Shaped(q) && q.streaming && Split(q) && Accepts(q, index) && index !in q.empty
    ensures Shaped(QBuf(q, index, bytesused)) && Split(QBuf(q, index, bytesused))
  {
    hide Clamped;
    var q' := QBuf(q, index, bytesused);
    assert q'.empty == q.empty + [index] && q'.full == q.full + [index];
    assert forall i :: 0 <= i < |q.empty| ==> q'.empty[i] == q.empty[i] && q'.empty[i] != index;
    assert q'.empty[TakenCount(q)..] == q.empty[TakenCount(q)..] + [index];
  }

  lemma PutLogged(m: Run, index: nat, bytesused: int)
    requires Shaped(m.q) && Logged(m) && Accepts(m.q, index)
    ensures Logged(After(m, DoQBuf(index, bytesused)))
  {
    var m' := After(m, DoQBuf(index, bytesused));
    assert m'.put == m.got + m'.q.empty;
    assert m.q.streaming ==> m'.put == m.made + m'.q.full;
  }

  lemma DqBufKeeps(m: Run, nonBlocking: bool, signalled: bool)
    requires Inv(m)
    ensures Inv(After(m, DoDqBuf(nonBlocking, signalled)))
  {
    hide Inv;
    DqBufCases(m, nonBlocking, signalled);
    if Shaped(m.q) && DqBuf(m.q, nonBlocking, signalled).1 == 0 {
      DqBufTakes(m, nonBlocking, signalled);
    }
  }

  lemma DqBufCases(m: Run, nonBlocking: bool, signalled: bool)
    requires Inv(m)
    ensures Shaped(m.q)
    ensures DqBuf(m.q, nonBlocking, signalled).1 != 0 ==> After(m, DoDqBuf(nonBlocking, signalled)) == m
  {
  }

  lemma DqBufTakes(m: Run, nonBlocking: bool, signalled: bool)
    requires Inv(m) && DqBuf(m.q, nonBlocking, signalled).1 == 0
    ensures Inv(After(m, DoDqBuf(nonBlocking, signalled)))
  {
    var q := m.q;
    DqBufIs(m, nonBlocking, signalled);
    hide After, DqBuf, Logged, Loose, Split, Shaped, Busy, TakenCount;
    var q' := q.(empty := q.empty[1..], states := q.states[q.empty[0] := Idle]);
    LooseIs(q);
    TakesLoose(q, q');
    TakesSplit(q, q');
    TakesLogged(m, q');
  }

  lemma DqBufIs(m: Run, nonBlocking: bool, signalled: bool)
    requires Inv(m) && DqBuf(m.q, nonBlocking, signalled).1 == 0
    ensures
      var q := m.q;
      && q.streaming && q.empty != [] && q.empty[0] < |q.states| && !Busy(q.states[q.empty[0]])
      && After(m, DoDqBuf(nonBlocking, signalled)) ==
         Run(q.(empty := q.empty[1..], states := q.states[q.empty[0] := Idle]), m.put, m.made, m.got + [q.empty[0]])
  {
    hide Loose, Split, Logged;
  }

  lemma LooseIs(q: Buffers)
    requires Loose(q)
    ensures Distinct(q.empty)
  {
  }

  lemma TakesLogged(m: Run, q': Buffers)
    requires Logged(m) && m.q.empty != [] && m.q.streaming
    requires q'.empty == m.q.empty[1..] && q'.full == m.q.full && q'.streaming
    ensures Logged(Run(q', m.put, m.made, m.got + [m.q.empty[0]]))
  {
    assert m.q.empty == [m.q.empty[0]] + q'.empty;
    assert m.put == m.got + [m.q.empty[0]] + q'.empty;
  }

  lemma TakesLoose(q: Buffers, q': Buffers)
    requires Shaped(q) && Loose(q) && q.empty != []
    requires q' == q.(empty := q.empty[1..], states := q.states[q.empty[0] := Idle])
    ensures Shaped(q') && Loose(q')
  {
    assert forall k :: 0 <= k < |q'.empty| ==> q'.empty[k] == q.empty[k + 1];
    assert q.empty == [q.empty[0]] + q'.empty;
  }

  lemma TakesSplit(q: Buffers, q': Buffers)
    requires Shaped(q) && Distinct(q.empty) && Split(q) && q.streaming && q.empty != [] && !Busy(q.states[q.empty[0]])
    requires q' == q.(empty := q.empty[1..], states := q.states[q.empty[0] := Idle])
    ensures Shaped(q') && Split(q')
  {
    assert forall k :: 0 <= k < |q'.empty| ==> q'.empty[k] == q.empty[k + 1];
    assert TakenCount(q) > 0;
    assert q'.empty[TakenCount(q')..] == q.empty[TakenCount(q)..];
  }

  lemma DqBufUserKeeps(m: Run)
    requires Inv(m)
    ensures Inv(After(m, DoDqBufUser))
  {
    if m.q.full != [] {
      HandOver(m);
      hide Loose, Split, Logged;
    }
  }

  // The producer takes the first buffer that it has not taken.
  lemma HandOver(m: Run)
    requires Inv(m) && m.q.full != []
    ensures Shaped(DqBufUser(m.q)) && Loose(DqBufUser(m.q)) && Split(DqBufUser(m.q))
    ensures Logged(After(m, DoDqBufUser))
  {
    LooseIs(m.q);
    HandOverSplit(m.q);
    HandOverLoose(m.q);
    hide Split, Loose, TakenCount;
    assert m.q.full == [m.q.full[0]] + m.q.full[1..];
    assert m.put == m.made + [m.q.full[0]] + m.q.full[1..];
  }

  lemma HandOverLoose(q: Buffers)
    requires Shaped(q) && Loose(q) && Split(q) && q.full != []
    ensures Shaped(DqBufUser(q)) && Loose(DqBufUser(q))
  {
    assert q.full[0] == q.empty[TakenCount(q)];
  }

  lemma HandOverSplit(q: Buffers)
    requires Shaped(q) && Distinct(q.empty) && Split(q) && q.full != []
    ensures Shaped(DqBufUser(q)) && Split(DqBufUser(q))
  {
    var q', k := DqBufUser(q), TakenCount(q);
    assert q.full[0] == q.empty[k];
    assert q'.empty[k + 1..] == q.empty[k..][1..];
  }

  // The loop queues every buffer of the list, in order.
  lemma {:induction false} QueueAllIs(q: Buffers, list: seq<nat>)
    requires Shaped(q) && forall i :: 0 <= i < |list| ==> list[i] < |q.states|
    requires Distinct(list) && forall i :: 0 <= i < |q.states| ==> q.states[i] == Prepared
    ensures
      var r := QueueAll(q, list);
      && r == q.(full := q.full + list, states := r.states)
      && |r.states| == |q.states|
      && forall i :: 0 <= i < |q.states| ==> r.states[i] == if i in list then Queued else Prepared
    decreases |list|
  {
    if list != [] {
      var n := |list| - 1;
      QueueAllIs(q, list[..n]);
      assert list == list[..n] + [list[n]];
      assert list[n] !in list[..n];
      assert q.full + list[..n] + [list[n]] == q.full + list;
    } else {
      assert q.full + list == q.full;
    }
  }

  lemma AnyIs(q: Buffers, list: seq<nat>)
    requires Shaped(q) && forall i :: 0 <= i < |list| ==> list[i] < |q.states|
    requires Distinct(list) && forall i :: 0 <= i < |q.states| ==> q.states[i] == Prepared
    ensures AnyQueued(q, list) <==> list != []
  {
    if list != [] {
      var n := |list| - 1;
      QueueAllIs(q, list[..n]);
      assert list[n] !in list[..n];
    }
  }

  lemma StreamOnIs(m: Run)
    requires Inv(m) && !m.q.streaming
    ensures
      var (q, code) := StreamOn(m.q);
      && q == m.q.(full := m.q.empty, states := q.states, streaming := true)
      && |q.states| == |m.q.states|
      && (forall i :: 0 <= i < |q.states| ==> q.states[i] == if i in m.q.empty then Queued else Prepared)
      && code == if m.q.empty == [] then EBUSY else 0
  {
    hide QueueAll, AnyQueued, Logged;
    QueueAllIs(m.q, m.q.empty);
    AnyIs(m.q, m.q.empty);
    assert m.q.full + m.q.empty == m.q.empty;
  }

  lemma StreamOnKeeps(m: Run)
    requires Inv(m)
    ensures Inv(After(m, DoStreamOn))
  {
    if !m.q.streaming {
      StreamOnIs(m);
      hide StreamOn;
      var q := After(m, DoStreamOn).q;
      assert q.empty[0..] == q.full && m.put == m.made + q.full;
      assert forall k :: 0 <= k < |q.empty| ==> q.empty[k] in q.empty;
    }
  }

  lemma WakeupKeeps(m: Run, index: nat, err: bool)
    requires Inv(m) && Disciplined(m.q, DoWakeup(index, err))
    ensures Inv(After(m, DoWakeup(index, err)))
  {
  }

  lemma NextKeeps(m: Run, s: Step)
    requires Inv(m) && Disciplined(m.q, s)
    ensures Next(m, s).Some? && Inv(Next(m, s).value)
  {
    hide After, Inv;
    match s
    case DoQBuf(index, bytesused) => QBufKeeps(m, index, bytesused);
    case DoDqBuf(nonBlocking, signalled) => DqBufKeeps(m, nonBlocking, signalled);
    case DoDqBufUser => DqBufUserKeeps(m);
    case DoStreamOn => StreamOnKeeps(m);
    case DoStreamOff => StreamOffKeeps(m);
    case DoWakeup(index, err) => WakeupKeeps(m, index, err);
  }

  lemma StreamOffKeeps(m: Run)
    requires Inv(m)
    ensures Inv(After(m, DoStreamOff))
  {
  }

  // What ezybuf_reqbuf leaves: nothing queued, every buffer prepared.
  predicate Initial(m: Run) {
    && |m.q.states| == |m.q.used| == |m.q.room|
    && (forall i :: 0 <= i < |m.q.states| ==> m.q.states[i] == Prepared)
    && m.q.empty == [] && m.q.full == [] && !m.q.streaming
    && m.put == [] && m.made == [] && m.got == []
  }

  // A sequence of states joined by disciplined steps.
  ghost predicate IsRun(ms: seq<Run>, ss: seq<Step>) {
    && |ms| == |ss| + 1 && Initial(ms[0])
    && forall k :: 0 <= k < |ss| ==> Shaped(ms[k].q) && Disciplined(ms[k].q, ss[k]) && Next(ms[k], ss[k]) == Some(ms[k + 1])
  }

  lemma {:induction false} RunIsSafe(ms: seq<Run>, ss: seq<Step>, k: nat)
    requires IsRun(ms, ss) && k < |ms|
    ensures Inv(ms[k])
  {
    hide Inv, Next;
    if k == 0 {
      InitialInv(ms[0]);
    } else {
      RunIsSafe(ms, ss, k - 1);
      NextKeeps(ms[k - 1], ss[k - 1]);
    }
  }

  lemma InitialInv(m: Run)
    requires Initial(m)
    ensures Inv(m)
  {
  }

  // In every state of a run, what the client got back is a prefix of what the producer was
  // given, which is a prefix of what the client queued, all in the same order; and dqbuf
  // is never surprised by the state of the buffer at its head.
  lemma RunOrder(ms: seq<Run>, ss: seq<Step>, k: nat, nonBlocking: bool, signalled: bool)
    requires IsRun(ms, ss) && k < |ms|
    ensures ms[k].q.streaming ==> ms[k].got <= ms[k].made <= ms[k].put
    ensures Shaped(ms[k].q) && DqBuf(ms[k].q, nonBlocking, signalled).1 != EINVAL
  {
    RunIsSafe(ms, ss, k);
    var m := ms[k];
    if m.q.streaming {
      assert |m.got| <= |m.made|;
      assert m.put[..|m.got|] == m.got && m.put[..|m.made|] == m.made;
    }
  }

  // A buffer is given back only after the producer has taken and woken it: dqbuf succeeds
  // exactly when the first queued buffer is done or in error and no signal has ended the
  // wait of a blocking call, which a signal does also when the buffer has been woken.
  lemma DqBufExactly(m: Run, nonBlocking: bool, signalled: bool)
    requires Inv(m)
    ensures
      var (q, code) := DqBuf(m.q, nonBlocking, signalled);
      && (code == 0 <==>
            && m.q.streaming && m.q.empty != [] && TakenCount(m.q) > 0 && m.q.states[m.q.empty[0]] != Active
            && (nonBlocking || !signalled))
      && (code == EINTR <==> m.q.streaming && m.q.empty != [] && !nonBlocking && signalled)
      && (code == EBUSY <==> !m.q.streaming || m.q.empty == [])
      && (m.q.streaming && m.q.empty != [] ==>
            && (code == EAGAIN <==> nonBlocking && Busy(m.q.states[m.q.empty[0]]))
            && (code == WAITING <==> !nonBlocking && !signalled && Busy(m.q.states[m.q.empty[0]])))
      && code in {0, EBUSY, EINTR, EAGAIN, WAITING}
      && (code == 0 ==> |m.got| < |m.made| && m.made[|m.got|] == m.q.empty[0])
      && (code != 0 ==> q == m.q)
  {
    var q := m.q;
    if q.streaming && q.empty != [] && TakenCount(q) > 0 {
      assert m.put[|m.got|] == q.empty[0];
      assert m.put[..|m.made|] == m.made;
      assert m.made[|m.got|] == m.put[|m.got|];
    }
  }

  // Queueing a buffer reads outside the array exactly for a negative number.  Otherwise it
  // keeps the queue in order exactly when the driver refuses the buffer or it is not already
  // on `empty`; the driver's own test lets through the ones that are done, or that were
  // queued before streaming.
  lemma QBufExactly(m: Run, index: int, bytesused: int)
    requires Inv(m)
    ensures Next(m, DoQBuf(index, bytesused)).None? <==> index < 0
    ensures index >= 0 ==>
              (Inv(Next(m, DoQBuf(index, bytesused)).value) <==> !Accepts(m.q, index) || index !in m.q.empty)
    ensures index >= 0 ==>
              (Accepts(m.q, index) && index in m.q.empty <==>
               index in m.q.empty && (!m.q.streaming || m.q.states[index] == Done || m.q.states[index] == Error))
  {
    var q := m.q;
    if index in q.empty {
      var k :| 0 <= k < |q.empty| && q.empty[k] == index;
      if Accepts(q, index) {
        var q' := QBuf(q, index, bytesused);
        assert q'.empty[k] == q'.empty[|q.empty|];
      }
    } else if index >= 0 {
      QBufKeeps(m, index, bytesused);
    }
  }

  // The comparison on unsigned longs: a negative count is too large, unless the capacity is
  // negative as well.
  lemma ClampedIs(bytesused: int, room: int)
    requires IsInt(bytesused) && IsInt(room)
    ensures Clamped(bytesused, room) ==
            if room >= 0 then if 0 <= bytesused <= room then bytesused else room
            else if room < bytesused < 0 then room else bytesused
  {
    assert AsUnsigned(bytesused) == if bytesused >= 0 then bytesused else bytesused + ULONG;
    assert AsUnsigned(room) == if room >= 0 then room else room + ULONG;
  }

  // The byte count of an accepted buffer exceeds its capacity exactly when the buffer is
  // smaller than its header and the client's count is not negative; in a buffer with room
  // it is the client's exactly when that fits.
  lemma QBufBytes(m: Run, index: nat, bytesused: int)
    requires Inv(m) && Accepts(m.q, index) && IsInt(bytesused) && IsInt(m.q.room[index])
    ensures
      var q, room := QBuf(m.q, index, bytesused), m.q.room[index];
      && |q.used| == |m.q.used|
      && (q.used[index] > room <==> room < 0 <= bytesused)
      && (room >= 0 ==> 0 <= q.used[index] && (0 <= bytesused <= room <==> q.used[index] == bytesused))
      && forall i :: 0 <= i < |q.used| && i != index ==> q.used[i] == m.q.used[i]
  {
    hide Loose, Split, Logged, AsUnsigned;
    ClampedIs(bytesused, m.q.room[index]);
  }

  // What the producer's calls do: it gets the first buffer of `full`, active, and says of a
  // buffer that it is done or in error.  A buffer that is given back is idle, and streamon
  // leaves an idle one alone until it is queued after streaming has ended.
  lemma ProducerExactly(q: Buffers, index: nat, err: bool)
    requires Shaped(q) && index < |q.states|
    ensures q.full != [] ==>
              DqBufUser(q) == q.(full := q.full[1..], states := q.states[q.full[0] := Active])
    ensures Wakeup(q, index, err).states[index] == (if err then Error else Done)
    ensures Wakeup(q, index, err) == q.(states := q.states[index := Wakeup(q, index, err).states[index]])
    ensures DqBuf(q, true, false).1 == 0 ==>
              q.empty != [] && DqBuf(q, true, false).0 == q.(empty := q.empty[1..], states := q.states[q.empty[0] := Idle])
  {
  }

  // Ending the streaming empties both lists and makes every buffer fit to be queued by the
  // next streamon, even if the producer still has it.
  lemma StreamOffExactly(q: Buffers)
    ensures
      var p := StreamOff(q);
      && !p.streaming && p.used == q.used && p.room == q.room && |p.states| == |q.states|
      && if !q.streaming then p == q
         else p.empty == p.full == [] && forall i :: 0 <= i < |q.states| ==> p.states[i] == Prepared
  {
  }

  // The buffers woken since streaming last ended, each as often as it was.
  function WokenIn(ms: seq<Run>, ss: seq<Step>, k: nat): multiset<nat>
    requires IsRun(ms, ss) && k <= |ss|
  {
    if k == 0 then multiset{}
    else
      var woken := WokenIn(ms, ss, k - 1);
      match ss[k - 1]
      case DoWakeup(index, _) => woken + multiset{index}
      case DoStreamOff => if ms[k - 1].q.streaming then multiset{} else woken
      case _ => woken
  }

  predicate Awake(q: Buffers, i: nat) { i < |q.states| && (q.states[i] == Done || q.states[i] == Error) }

  ghost predicate Accounted(m: Run, woken: multiset<nat>) {
    forall i: nat {:trigger woken[i]} :: woken[i] == multiset(m.got)[i] + if Awake(m.q, i) then 1 else 0
  }

  lemma AccountedStep(m: Run, s: Step, woken: multiset<nat>)
    requires Inv(m) && Disciplined(m.q, s) && Accounted(m, woken)
    ensures
      Next(m, s).Some? &&
      var now := match s
        case DoWakeup(index, _) => woken + multiset{index}
        case DoStreamOff => if m.q.streaming then multiset{} else woken
        case _ => woken;
      Accounted(Next(m, s).value, now)
  {
    hide Inv, Accounted, Next, Disciplined;
    NextKeeps(m, s);
    match s
    case DoQBuf(index, bytesused) => AccountedPut(m, index, bytesused, woken);
    case DoDqBuf(nonBlocking, signalled) => AccountedTake(m, nonBlocking, signalled, woken);
    case DoDqBufUser => AccountedMake(m, woken);
    case DoStreamOn => AccountedOn(m, woken);
    case DoStreamOff => AccountedOff(m, woken);
    case DoWakeup(index, err) => AccountedWake(m, index, err, woken);
  }

  // A step that gives nothing back, and neither wakes nor takes a buffer that was woken.
  lemma SameAwake(m: Run, v: Run, woken: multiset<nat>)
    requires Accounted(m, woken) && v.got == m.got && forall i: nat :: Awake(v.q, i) <==> Awake(m.q, i)
    ensures Accounted(v, woken)
  {
    hide Awake;
  }

  lemma AccountedPut(m: Run, index: int, bytesused: int, woken: multiset<nat>)
    requires Inv(m) && Disciplined(m.q, DoQBuf(index, bytesused)) && Accounted(m, woken)
    ensures Next(m, DoQBuf(index, bytesused)).Some? && Accounted(Next(m, DoQBuf(index, bytesused)).value, woken)
  {
    hide Split, Logged, Accounted;
    SameAwake(m, Next(m, DoQBuf(index, bytesused)).value, woken);
  }

  lemma AccountedTake(m: Run, nonBlocking: bool, signalled: bool, woken: multiset<nat>)
    requires Inv(m) && Accounted(m, woken)
    ensures
      var o := Next(m, DoDqBuf(nonBlocking, signalled));
      o.Some? && Accounted(o.value, woken)
  {
    hide Loose, Split, Logged;
    DqBufCases(m, nonBlocking, signalled);
    if DqBuf(m.q, nonBlocking, signalled).1 == 0 {
      DqBufIs(m, nonBlocking, signalled);
    }
  }

  lemma AccountedMake(m: Run, woken: multiset<nat>)
    requires Inv(m) && Accounted(m, woken)
    ensures Next(m, DoDqBufUser).Some? && Accounted(Next(m, DoDqBufUser).value, woken)
  {
    hide Loose, Logged, Accounted;
    if m.q.full != [] {
      var k := TakenCount(m.q);
      assert m.q.full[0] == m.q.empty[k..][0] == m.q.empty[k];
    }
    SameAwake(m, Next(m, DoDqBufUser).value, woken);
  }

  lemma AccountedOn(m: Run, woken: multiset<nat>)
    requires Inv(m) && Accounted(m, woken)
    ensures Next(m, DoStreamOn).Some? && Accounted(Next(m, DoStreamOn).value, woken)
  {
    hide Loose, Logged, Accounted, StreamOn;
    if !m.q.streaming {
      StreamOnIs(m);
    } else {
      StreamOnBusy(m.q);
    }
    SameAwake(m, Next(m, DoStreamOn).value, woken);
  }

  lemma StreamOnBusy(q: Buffers)
    requires Shaped(q) && q.streaming
    ensures StreamOn(q).0 == q
  {
  }

  lemma AccountedOff(m: Run, woken: multiset<nat>)
    requires Inv(m) && Accounted(m, woken)
    ensures Next(m, DoStreamOff).Some?
    ensures Accounted(Next(m, DoStreamOff).value, if m.q.streaming then multiset{} else woken)
  {
    hide Loose, Split, Logged;
  }

  lemma AccountedWake(m: Run, index: nat, err: bool, woken: multiset<nat>)
    requires Inv(m) && Disciplined(m.q, DoWakeup(index, err)) && Accounted(m, woken)
    ensures Next(m, DoWakeup(index, err)).Some?
    ensures Accounted(Next(m, DoWakeup(index, err)).value, woken + multiset{index})
  {
    hide Loose, Split, Logged;
  }

  // A buffer is given back once for every time that it has been woken, except for the last
  // time while it is still listed.
  lemma {:induction false} RunWakes(ms: seq<Run>, ss: seq<Step>, k: nat)
    requires IsRun(ms, ss) && k <= |ss|
    ensures Accounted(ms[k], WokenIn(ms, ss, k))
  {
    hide Next, Inv, Disciplined, Initial;
    if k == 0 {
      InitialAccounted(ms[0]);
    } else {
      RunWakes(ms, ss, k - 1);
      RunIsSafe(ms, ss, k - 1);
      AccountedStep(ms[k - 1], ss[k - 1], WokenIn(ms, ss, k - 1));
    }
  }

  lemma InitialAccounted(m: Run)
    requires Initial(m)
    ensures Accounted(m, multiset{})
  {
  }

  // Streaming starts even when streamon reports an error, and then nothing was queued.
  lemma StreamOnExactly(m: Run)
    requires Inv(m)
    ensures
      var (q, code) := StreamOn(m.q);
      && q.streaming
      && (code == EBUSY <==> m.q.streaming || m.q.empty == [])
      && (!m.q.streaming ==> q.full == q.empty == m.q.empty)
  {
    if !m.q.streaming {
      StreamOnIs(m);
      hide StreamOn;
    }
  }
}
