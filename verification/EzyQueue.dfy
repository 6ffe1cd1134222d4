/** The operations of ezy_buf/ezy_buf.c on the buffers and lists they update, each proved to
    be the step of module EzyMachine. */
module EzyQueue {
  import opened Basics
  import opened EzyMachine

  class FrameBuffer {
    const index: nat
    const size: nat
    const headlen: nat
    var state: BufState
    var bytesused: int

    constructor (index: nat, size: nat, headlen: nat, bytesused: int)
      ensures this.index == index && this.size == size && this.headlen == headlen
      ensures state == Prepared && this.bytesused == bytesused
    {
      this.index, this.size, this.headlen, this.bytesused, state := index, size, headlen, bytesused, Prepared;
    }
  }

  function States(bs: seq<FrameBuffer>): (ss: seq<BufState>)
    reads bs
    ensures |ss| == |bs| && forall i :: 0 <= i < |bs| ==> ss[i] == bs[i].state
  {
    if bs == [] then [] else States(bs[..|bs| - 1]) + [bs[|bs| - 1].state]
  }

  function Used(bs: seq<FrameBuffer>): (us: seq<int>)
    reads bs
    ensures |us| == |bs| && forall i :: 0 <= i < |bs| ==> us[i] == bs[i].bytesused
  {
    if bs == [] then [] else Used(bs[..|bs| - 1]) + [bs[|bs| - 1].bytesused]
  }

  ghost predicate Numbered(bs: seq<FrameBuffer>) {
    forall i :: 0 <= i < |bs| ==> bs[i].index == i
  }

  function Rooms(bs: seq<FrameBuffer>): (rs: seq<int>)
    ensures |rs| == |bs| && forall i :: 0 <= i < |bs| ==> rs[i] == bs[i].size - bs[i].headlen
  {
    if bs == [] then [] else Rooms(bs[..|bs| - 1]) + [bs[|bs| - 1].size - bs[|bs| - 1].headlen]
  }

  function Indices(bs: seq<FrameBuffer>): (ks: seq<nat>)
    ensures |ks| == |bs| && forall i :: 0 <= i < |bs| ==> ks[i] == bs[i].index
  {
    if bs == [] then [] else Indices(bs[..|bs| - 1]) + [bs[|bs| - 1].index]
  }

  lemma IndicesMore(bs: seq<FrameBuffer>, b: FrameBuffer)
    ensures Indices(bs + [b]) == Indices(bs) + [b.index]
  {
  }

  lemma IndicesRest(bs: seq<FrameBuffer>)
    requires bs != []
    ensures Indices(bs) != [] && Indices(bs)[0] == bs[0].index && Indices(bs[1..]) == Indices(bs)[1..]
  {
  }

  // The buffers of a list are the queue's own.
  ghost predicate Among(list: seq<FrameBuffer>, bs: seq<FrameBuffer>) {
    forall i :: 0 <= i < |list| ==> list[i].index < |bs| && bs[list[i].index] == list[i]
  }

  class Queue {
    const buffers: seq<FrameBuffer>
    var empty: seq<FrameBuffer>
    var full: seq<FrameBuffer>
    var streaming: bool

    // The buffers that ezybuf_reqbuf has made, in the order of their indices.
    constructor (buffers: seq<FrameBuffer>)
      requires Numbered(buffers) && forall i :: 0 <= i < |buffers| ==> buffers[i].state == Prepared
      ensures this.buffers == buffers && Valid() && Initial(Run.Run(Value(), [], [], []))
    {
      this.buffers, empty, full, streaming := buffers, [], [], false;
    }

    ghost predicate Valid()
      reads this
    {
      Numbered(buffers) && Among(empty, buffers) && Among(full, buffers)
    }

    ghost function Value(): (q: Buffers)
      requires Valid()
      reads this, buffers
      ensures Shaped(q)
    {
      Buffers(States(buffers), Used(buffers), Rooms(buffers), Indices(empty), Indices(full), streaming)
    }

    method SetState(eb: FrameBuffer, state: BufState)
      requires Valid() && eb.index < |buffers| && buffers[eb.index] == eb
      modifies eb`state
      ensures Valid() && States(buffers) == old(States(buffers))[eb.index := state]
      ensures Used(buffers) == old(Used(buffers))
    {
      eb.state := state;
    }

    method SetUsed(eb: FrameBuffer, bytesused: int)
      requires Valid() && eb.index < |buffers| && buffers[eb.index] == eb
      modifies eb`bytesused
      ensures Valid() && Used(buffers) == old(Used(buffers))[eb.index := bytesused]
      ensures States(buffers) == old(States(buffers))
    {
      eb.bytesused := bytesused;
    }

    // ezybuf_qbuf_user
    method DoQBufUser(eb: FrameBuffer)
      requires Valid() && eb.index < |buffers| && buffers[eb.index] == eb
      modifies this`full, eb`state
      ensures Valid() && Value() == QBufUser(old(Value()), eb.index)
    {
      hide States, Used, Indices;
      IndicesMore(full, eb);
      full := full + [eb];
      SetState(eb, Queued);
    }

    // ezybuf_qbuf.  The buffer number is a signed one and is not tested against zero; wild
    // says that the driver reads outside its array.
    method DoQBuf(index: int, bytesused: int) returns (code: int, wild: bool)
      requires Valid()
      modifies this, buffers
      ensures Valid() && code == 0 && (wild <==> index < 0)
      ensures Value() == if wild then old(Value()) else QBuf(old(Value()), index, bytesused)
    {
      hide States, Used, Indices, QBufUser, AsUnsigned;
      code, wild := 0, false;
      if index >= |buffers| {
        NoEntry(index);
        return;
      }
      if index < 0 {
        wild := true;
        return;
      }
      Entries(index);
      var eb := buffers[index];
      if eb.state == Queued || eb.state == Active {
        return;
      }
      if AsUnsigned(bytesused) > AsUnsigned(eb.size - eb.headlen) {
        SetUsed(eb, eb.size - eb.headlen);
      } else {
        SetUsed(eb, bytesused);
      }
      IndicesMore(empty, eb);
      empty := empty + [eb];
      if streaming {
        DoQBufUser(eb);
      }
    }

    lemma NoEntry(index: nat)
      requires Valid() && index >= |buffers|
      ensures !Accepts(Value(), index)
    {
    }

    lemma Entries(index: nat)
      requires Valid()
      ensures |Value().states| == |Value().used| == |Value().room| == |buffers|
      ensures index < |buffers| ==> Value().states[index] == buffers[index].state
      ensures index < |buffers| ==> Value().room[index] == buffers[index].size - buffers[index].headlen
    {
    }

    // ezybuf_dqbuf, from a test in its wait on
    method DoDqBuf(nonBlocking: bool, signalled: bool) returns (code: int, taken: seq<FrameBuffer>)
      requires Valid()
      modifies this, buffers
      ensures Valid() && (Value(), code) == DqBuf(old(Value()), nonBlocking, signalled)
      ensures taken == if code == 0 then [old(empty)[0]] else []
    {
      hide States, Used, Indices;
      code, taken := EBUSY, [];
      NoIndices(empty);
      if !streaming || empty == [] {
        return;
      }
      var eb := empty[0];
      IndicesRest(empty);
      Entries(eb.index);
      if !nonBlocking && signalled {
        code := EINTR;
      } else if eb.state == Queued || eb.state == Active {
        code := if nonBlocking then EAGAIN else WAITING;
      } else if eb.state == Error || eb.state == Done {
        SetState(eb, Idle);
        empty := empty[1..];
        code, taken := 0, [eb];
      } else {
        code := EINVAL;
      }
    }

    // ezybuf_dqbuf_user
    method DoDqBufUser() returns (taken: seq<FrameBuffer>)
      requires Valid()
      modifies this, buffers
      ensures Valid() && Value() == DqBufUser(old(Value()))
      ensures taken == if old(full) == [] then [] else [old(full)[0]]
    {
      hide States, Used, Indices;
      taken := [];
      NoIndices(full);
      if full == [] {
        return;
      }
      var eb := full[0];
      IndicesRest(full);
      full := full[1..];
      SetState(eb, Active);
      taken := [eb];
    }

    // ezybuf_streamon
    method DoStreamOn() returns (code: int)
      requires Valid()
      modifies this, buffers
      ensures Valid() && (Value(), code) == StreamOn(old(Value()))
    {
      code := EBUSY;
      if streaming {
        return;
      }
      code := QueuePrepared();
      streaming := true;
    }

    // The loop of ezybuf_streamon.
    method QueuePrepared() returns (code: int)
      requires Valid()
      modifies this`full, buffers
      ensures Valid() && Value() == QueueAll(old(Value()), old(Value()).empty)
      ensures code == if AnyQueued(old(Value()), old(Value()).empty) then 0 else EBUSY
    {
      hide States, Used, Indices, QBufUser;
      code := EBUSY;
      ghost var q := Value();
      IndicesAre(empty);
      for i := 0 to |empty|
        invariant Valid() && Value() == QueueAll(q, q.empty[..i])
        invariant code == if AnyQueued(q, q.empty[..i]) then 0 else EBUSY
      {
        assert q.empty[..i + 1][..i] == q.empty[..i];
        Entries(empty[i].index);
        if empty[i].state == Prepared {
          DoQBufUser(empty[i]);
          code := 0;
        }
      }
      assert q.empty[..|empty|] == q.empty;
    }

    // ezybuf_streamoff
    method DoStreamOff()
      requires Valid()
      modifies this, buffers
      ensures Valid() && Value() == StreamOff(old(Value()))
    {
      hide States, Used, Indices;
      Entries(0);
      NoIndices([]);
      if !streaming {
        return;
      }
      ResetAll();
      empty, full, streaming := [], [], false;
    }

    // The loop of ezybuf_streamoff.
    method ResetAll()
      requires Valid()
      modifies buffers
      ensures Valid() && States(buffers) == seq(|buffers|, _ => Prepared) && Used(buffers) == old(Used(buffers))
    {
      for i := 0 to |buffers|
        invariant Valid() && Used(buffers) == old(Used(buffers))
        invariant forall k :: 0 <= k < i ==> buffers[k].state == Prepared
      {
        buffers[i].state := Prepared;
      }
    }

    // ezybuf_wakeup
    method DoWakeup(eb: FrameBuffer, err: bool)
      requires Valid() && eb.index < |buffers| && buffers[eb.index] == eb
      modifies eb`state
      ensures Valid() && Value() == Wakeup(old(Value()), eb.index, err)
    {
      hide States, Used, Indices;
      SetState(eb, if err then Error else Done);
    }
  }

  lemma NoIndices(bs: seq<FrameBuffer>)
    ensures Indices(bs) == [] <==> bs == []
  {
  }

  lemma IndicesAre(bs: seq<FrameBuffer>)
    ensures |Indices(bs)| == |bs| && forall i :: 0 <= i < |bs| ==> Indices(bs)[i] == bs[i].index
  {
  }
}
