/** sha256_init, sha256_update and sha256_final of ath204/sha256.c on the context they
    update in place, and the result they exist for: whatever the calls of update, the
    digest is that of the concatenated message. */
module Sha256Ctx {
  import opened Sha256Spec
  import opened Sha256

  // The bytes of a message that has been fed in so far, cut into what is hashed and what
  // still waits in the block buffer.
  ghost predicate Absorbed(h: seq<Word>, pending: seq<Byte>, m: seq<Byte>) {
    && |h| == 8
    && |pending| < 64 && |pending| <= |m|
    && (|m| - |pending|) % 64 == 0
    && h == Fold(H0, m[..|m| - |pending|])
    && pending == m[|m| - |pending|..]
  }

  // Fewer bytes than it takes to fill the block only wait.
  lemma AbsorbShort(h: seq<Word>, pending: seq<Byte>, m: seq<Byte>, msg: seq<Byte>)
    requires Absorbed(h, pending, m)
    requires |pending| + |msg| < 64
    ensures Absorbed(h, pending + msg, m + msg)
  {
    assert (m + msg)[..|m| - |pending|] == m[..|m| - |pending|];
  }

  // Otherwise the filled block and every whole block after it are hashed, and the
  // remainder waits.
  lemma AbsorbBlocks(h: seq<Word>, pending: seq<Byte>, m: seq<Byte>, msg: seq<Byte>)
    requires Absorbed(h, pending, m)
    requires |pending| + |msg| >= 64
    ensures
      var rem := 64 - |pending|;
      var nb := (|msg| - rem) / 64;
      var cut := rem + 64 * nb;
      Absorbed(Fold(Fold(h, pending + msg[..rem]), msg[rem..][..64 * nb]), msg[cut..], m + msg)
  {
    hide Fold;
    var rem := 64 - |pending|;
    var nb := (|msg| - rem) / 64;
    var cut := rem + 64 * nb;
    var done, block, rest := m[..|m| - |pending|], pending + msg[..rem], msg[rem..][..64 * nb];
    FoldConcat(H0, done, block);
    FoldConcat(H0, done + block, rest);
    assert done + pending == m;
    assert msg[..rem] + rest == msg[..cut];
    assert done + block + rest == (m + msg)[..|m| + cut];
  }

  // Padding what waits in the buffer and hashing it hashes the whole padded message.
  lemma AbsorbTail(h: seq<Word>, pending: seq<Byte>, m: seq<Byte>, tail: seq<Byte>)
    requires Absorbed(h, pending, m)
    ensures Fold(h, pending + tail) == Fold(H0, m + tail)
  {
    var done := m[..|m| - |pending|];
    FoldConcat(H0, done, pending + tail);
    assert done + (pending + tail) == m + tail;
  }

  // A byte count n of which len wait: the padding ends a block, and the 32-bit counter
  // holds the low bits of the bit length.
  lemma TailShape(len: nat, n: nat, pmLen: nat, lenB: nat, totLen: nat)
    requires len < 64 && len <= n && (n - len) % 64 == 0
    requires pmLen == if 55 < len then 128 else 64
    requires totLen == (n - len) % TWO_TO_THE_32 && lenB == (totLen + len) * 8 % TWO_TO_THE_32
    ensures pmLen - 4 - (len + 1) == ZeroBytes(n) + 4
    ensures lenB == 8 * n % TWO_TO_THE_32
  {
  }

  lemma TailConcat(pending: seq<Byte>, n: nat)
    ensures
      pending + [0x80] + Zeros(ZeroBytes(n) + 4) + Be32(8 * n % TWO_TO_THE_32) == pending + CodeTail(n)
  {
    hide Be32, ZeroBytes, Zeros;
  }

  // The 32-bit counter follows the number of bytes hashed, wrapping as it does.
  lemma CountBlocks(totLen: nat, n: nat, len: nat, count: nat)
    requires len < 64 && len <= n && totLen == (n - len) % TWO_TO_THE_32 && len + count >= 64
    ensures
      var newLen := count - (64 - len);
      (totLen + (newLen / 64 + 1) * 64) % TWO_TO_THE_32 == (n + count - newLen % 64) % TWO_TO_THE_32
  {
    var newLen := count - (64 - len);
    assert n + count - newLen % 64 == (n - len) + (newLen / 64 + 1) * 64;
  }

  lemma DigestOfPadded(m: seq<Byte>)
    requires |m| < TWO_TO_THE_29
    ensures Digest(m) == DigestBytes(Fold(H0, Pad(m)))
  {
  }

  class Context {
    const unrolled: bool      // UNROLL_LOOPS
    var totLen: nat           // bytes hashed so far, a uint32
    var len: nat              // bytes waiting in block
    const block: array<Byte>
    const h: array<Word>
    ghost var fed: seq<Byte>  // every byte given to Update since Init

    ghost predicate Valid()
      reads this, block, h
    {
      && block.Length == 2 * BLOCK_SIZE && h.Length == 8 && len < BLOCK_SIZE
      && len <= |fed| && totLen == (|fed| - len) % TWO_TO_THE_32
      && Absorbed(h[..], block[..len], fed)
    }

    // sha256_init
    constructor (unrolled: bool)
      ensures Valid() && fresh(block) && fresh(h) && this.unrolled == unrolled && fed == []
    {
      this.unrolled := unrolled;
      totLen, len, fed := 0, 0, [];
      block := new Byte[2 * BLOCK_SIZE];
      h := new Word[8];
      new;
      for i := 0 to 8
        invariant forall t :: 0 <= t < i ==> h[t] == H0[t]
        invariant totLen == len == 0 && fed == [] && fresh(h) && fresh(block)
      {
        h[i] := H0[i];
      }
      assert h[..] == H0;
    }

    // sha256_update.  Chunks of 2^31 bytes and more are outside: the block offset is a
    // signed int there.
    method Update(message: seq<Byte>)
      requires Valid() && |message| < 0x8000_0000
      modifies this, block, h
      ensures Valid() && fed == old(fed) + message
    {
      hide Absorbed;
      var tmpLen := BLOCK_SIZE - len;
      var remLen := if |message| < tmpLen then |message| else tmpLen;
      ghost var pending := block[..len];
      Fill(len, message[..remLen]);
      assert block[..len + remLen] == pending + message[..remLen];
      if len + |message| < BLOCK_SIZE {
        AbsorbShort(h[..], pending, fed, message);
        assert message[..remLen] == message;
        len := len + |message|;
      } else {
        HashBlocks(message, pending);
      }
      fed := fed + message;
    }

    // The part of sha256_update that runs when the block buffer is full.
    method HashBlocks(message: seq<Byte>, ghost pending: seq<Byte>)
      requires block.Length == 2 * BLOCK_SIZE && h.Length == 8 && len < BLOCK_SIZE
      requires len <= |fed| && totLen == (|fed| - len) % TWO_TO_THE_32
      requires |pending| == len && Absorbed(h[..], pending, fed)
      requires len + |message| >= BLOCK_SIZE
      requires block[..BLOCK_SIZE] == pending + message[..BLOCK_SIZE - len]
      modifies `len, `totLen, block, h
      ensures len < BLOCK_SIZE && len <= |message|
      ensures totLen == (|fed| + |message| - len) % TWO_TO_THE_32
      ensures Absorbed(h[..], block[..len], fed + message)
    {
      hide Absorbed, Fold;
      var remLen := BLOCK_SIZE - len;
      var newLen := |message| - remLen;
      var blockNb := newLen / BLOCK_SIZE;
      var shifted := message[remLen..];
      AbsorbBlocks(h[..], pending, fed, message);
      CountBlocks(totLen, |fed|, len, |message|);
      var first := block[..BLOCK_SIZE];
      assert first[..64 * 1] == first;
      Transf(h, first, 1, unrolled);
      Transf(h, shifted, blockNb, unrolled);
      var rest := shifted[BLOCK_SIZE * blockNb..];
      assert rest == message[remLen + 64 * blockNb..];
      assert |rest| == newLen % BLOCK_SIZE;
      Fill(0, rest);
      assert block[..|rest|] == block[0..0 + |rest|];
      len := newLen % BLOCK_SIZE;
      totLen := (totLen + (blockNb + 1) * BLOCK_SIZE) % TWO_TO_THE_32;
    }

    // memcpy into the block buffer
    method Fill(at: nat, bytes: seq<Byte>)
      requires at + |bytes| <= block.Length
      modifies block
      ensures block[..at] == old(block[..at]) && block[at..at + |bytes|] == bytes
      ensures block[at + |bytes|..] == old(block[at + |bytes|..])
    {
      for i := 0 to |bytes|
        invariant block[..at] == old(block[..at])
        invariant block[at..at + i] == bytes[..i]
        invariant block[at + |bytes|..] == old(block[at + |bytes|..])
      {
        block[at + i] := bytes[i];
      }
    }

    // sha256_final.  The caller's buffer receives the digest of the message with the
    // code's own padding.
    method Final(digest: array<Byte>)
      requires Valid() && digest.Length == 32 && digest != block
      modifies this, block, h, digest
      ensures digest[..] == DigestBytes(Fold(H0, old(fed) + CodeTail(|old(fed)|)))
      ensures |old(fed)| < TWO_TO_THE_29 ==> digest[..] == Digest(old(fed))
    {
      hide Absorbed, Be32, DigestBytes, Digest, Fold;
      ghost var pending, m := block[..len], fed;
      var blockNb := PadBlock();
      AbsorbTail(h[..], pending, m, CodeTail(|m|));
      Transf(h, block[..blockNb * BLOCK_SIZE], blockNb, unrolled);
      assert block[..blockNb * BLOCK_SIZE][..64 * blockNb] == pending + CodeTail(|m|);
      StoreDigest(digest);
      if |m| < TWO_TO_THE_29 {
        CodePaddingIsStandard(m);
        DigestOfPadded(m);
      }
    }

    // The part of sha256_final that writes the padding: one block, or two when fewer than
    // nine bytes are free.
    method PadBlock() returns (blockNb: nat)
      requires Valid()
      modifies block
      ensures 1 <= blockNb <= 2
      ensures block[..blockNb * BLOCK_SIZE] == old(block[..len]) + CodeTail(|fed|)
    {
      assert (|fed| - len) % 64 == 0;
      hide Absorbed, ByteOf, Zeros;
      blockNb := if BLOCK_SIZE - 9 < len % BLOCK_SIZE then 2 else 1;
      var lenB := (totLen + len) * 8 % TWO_TO_THE_32;
      var pmLen := blockNb * BLOCK_SIZE;
      ghost var n := |fed|;
      TailShape(len, n, pmLen, lenB, totLen);
      PadBody(pmLen);
      ghost var body := block[..pmLen - 4];
      var lenBytes := Be32(lenB);
      Fill(pmLen - 4, lenBytes);
      assert block[pmLen - 4..pmLen - 4 + |lenBytes|] == block[pmLen - 4..pmLen];
      assert block[..pmLen] == body + block[pmLen - 4..pmLen];
      TailConcat(old(block[..len]), n);
    }

    // memset, and the 0x80 that ends the message.
    method PadBody(pmLen: nat)
      requires len + 5 <= pmLen <= block.Length
      modifies block
      ensures block[..pmLen - 4] == old(block[..len]) + [0x80] + Zeros(pmLen - 4 - (len + 1))
    {
      var zeros := Zeros(pmLen - len);
      Fill(len, zeros);
      forall k | len <= k < pmLen
        ensures block[k] == 0
      {
        assert block[k] == block[len..len + |zeros|][k - len];
      }
      block[len] := 0x80;
    }

    // UNPACK32 of the eight chaining words
    method StoreDigest(digest: array<Byte>)
      requires h.Length == 8 && digest.Length == 32
      modifies digest
      ensures digest[..] == DigestBytes(h[..])
    {
      hide WordBytes;
      for i := 0 to 8
        invariant digest[..4 * i] == DigestBytes(h[..i])
      {
        StoreWord(digest, i, h[i]);
        assert h[..i + 1][..i] == h[..i];
        assert digest[..4 * (i + 1)] == digest[..4 * i] + digest[4 * i..4 * i + 4];
      }
      assert digest[..] == digest[..32] && h[..] == h[..8];
    }
  }

  // UNPACK32
  method StoreWord(digest: array<Byte>, i: nat, x: Word)
    requires digest.Length == 32 && i < 8
    modifies digest
    ensures digest[..4 * i] == old(digest[..4 * i]) && digest[4 * i..4 * i + 4] == WordBytes(x)
  {
    var b := WordBytes(x);
    digest[4 * i], digest[4 * i + 1], digest[4 * i + 2], digest[4 * i + 3] := b[0], b[1], b[2], b[3];
    assert digest[4 * i..4 * i + 4] == [b[0], b[1], b[2], b[3]];
  }

  // ---- What the code is for

  function Concat(chunks: seq<seq<Byte>>): seq<Byte> {
    if chunks == [] then [] else Concat(chunks[..|chunks| - 1]) + chunks[|chunks| - 1]
  }

  // Init, any sequence of Update calls, Final: the digest is the FIPS 180-2 digest of the
  // concatenation, in either build.
  method HashInChunks(chunks: seq<seq<Byte>>, unrolled: bool) returns (digest: seq<Byte>)
    requires |Concat(chunks)| < TWO_TO_THE_29
    ensures digest == Digest(Concat(chunks))
  {
    var ctx := new Context(unrolled);
    for i := 0 to |chunks|
      invariant ctx.Valid() && ctx.fed == Concat(chunks[..i]) && fresh(ctx.block) && fresh(ctx.h) && fresh(ctx)
    {
      ConcatLength(chunks, i);
      assert chunks[..i + 1][..i] == chunks[..i];
      ctx.Update(chunks[i]);
    }
    assert chunks[..|chunks|] == chunks;
    var out := new Byte[32];
    ctx.Final(out);
    digest := out[..];
  }

  lemma ConcatLength(chunks: seq<seq<Byte>>, i: nat)
    requires i < |chunks|
    ensures |chunks[i]| <= |Concat(chunks)|
  {
    if i < |chunks| - 1 {
      ConcatLength(chunks[..|chunks| - 1], i);
    }
  }

  // sha256
  method Hash(message: seq<Byte>, unrolled: bool) returns (digest: seq<Byte>)
    requires |message| < TWO_TO_THE_29
    ensures digest == Digest(message)
  {
    var ctx := new Context(unrolled);
    ctx.Update(message);
    assert ctx.fed == message;
    var out := new Byte[32];
    ctx.Final(out);
    digest := out[..];
  }
}
