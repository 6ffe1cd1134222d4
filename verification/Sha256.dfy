/** The compression of ath204/sha256.c and the padding of its last call.  Both forms of
    the compression function are here, the loop that shifts the working variables and the
    straight-line one that renames them. */
module Sha256 {
  import opened Sha256Spec

  const BLOCK_SIZE: nat := 64

  // ---- Phases of sha256_transf

  // The array holds the message schedule of the block.
  ghost predicate Scheduled(w: array<Word>, block: seq<Byte>)
    requires |block| == 64
    reads w
  {
    w.Length == 64 && forall t :: 0 <= t < 64 ==> w[t] == W(block, t)
  }

  // PACK32 of sixteen words, then SHA256_SCR of the other forty-eight.
  method Schedule(block: seq<Byte>) returns (w: array<Word>)
    requires |block| == 64
    ensures fresh(w) && w.Length == 64 && Scheduled(w, block)
  {
    hide BigEndian, Plus4, SmallSigma0, SmallSigma1;
    w := new Word[64];
    for j := 0 to 16
      invariant forall t :: 0 <= t < j ==> w[t] == W(block, t)
    {
      w[j] := BigEndian(block[4 * j], block[4 * j + 1], block[4 * j + 2], block[4 * j + 3]);
    }
    for j := 16 to 64
      invariant forall t :: 0 <= t < j ==> w[t] == W(block, t)
    {
      w[j] := Plus4(SmallSigma1(w[j - 2]), w[j - 7], SmallSigma0(w[j - 15]), w[j - 16]);
    }
  }

  // The working variables when the names a..h currently stand for these eight slots.
  function Named(wv: array<Word>, a: nat, b: nat, c: nat, d: nat, e: nat, f: nat, g: nat, h: nat): Regs
    requires wv.Length == 8 && a < 8 && b < 8 && c < 8 && d < 8 && e < 8 && f < 8 && g < 8 && h < 8
    reads wv
  {
    Regs(wv[a], wv[b], wv[c], wv[d], wv[e], wv[f], wv[g], wv[h])
  }

  // The working variables in the order in which the rolled loop stores them.
  function Shifted(wv: array<Word>): Regs
    requires wv.Length == 8
    reads wv
  {
    Named(wv, 0, 1, 2, 3, 4, 5, 6, 7)
  }

  // The 64 rounds when UNROLL_LOOPS is off: every round moves all eight values.
  method RoundsRolled(wv: array<Word>, w: array<Word>, ghost block: seq<Byte>)
    requires |block| == 64 && wv.Length == 8 && w.Length == 64 && wv != w
    requires Scheduled(w, block)
    modifies wv
    ensures Shifted(wv) == Rounds(old(Shifted(wv)), block, 64)
  {
    hide Plus, Plus5, BigSigma0, BigSigma1, Ch, Maj, RoundConstant, W;
    ghost var init := Shifted(wv);
    for j := 0 to 64
      invariant Shifted(wv) == Rounds(init, block, j)
      invariant Scheduled(w, block)
    {
      var t1 := Plus5(wv[7], BigSigma1(wv[4]), Ch(wv[4], wv[5], wv[6]), RoundConstant(j), w[j]);
      var t2 := Plus(BigSigma0(wv[0]), Maj(wv[0], wv[1], wv[2]));
      wv[7] := wv[6];
      wv[6] := wv[5];
      wv[5] := wv[4];
      wv[4] := Plus(wv[3], t1);
      wv[3] := wv[2];
      wv[2] := wv[1];
      wv[1] := wv[0];
      wv[0] := Plus(t1, t2);
    }
  }

  // SHA256_EXP: two slots are written and nothing moves; the next round's state is there
  // under the names rotated by one.
  method Exp(wv: array<Word>, w: array<Word>, ghost block: seq<Byte>, ghost r: Regs,
             a: nat, b: nat, c: nat, d: nat, e: nat, f: nat, g: nat, h: nat, j: nat)
    requires |block| == 64 && wv.Length == 8 && w.Length == 64 && wv != w && j < 64
    requires Scheduled(w, block)
    requires a < 8 && b < 8 && c < 8 && d < 8 && e < 8 && f < 8 && g < 8 && h < 8
    requires d != a && d != b && d != c && d != e && d != f && d != g
    requires h != a && h != b && h != c && h != d && h != e && h != f && h != g
    requires Named(wv, a, b, c, d, e, f, g, h) == r
    modifies wv
    ensures Named(wv, h, a, b, c, d, e, f, g) == Round(r, RoundConstant(j), W(block, j))
  {
    hide Plus, Plus5, BigSigma0, BigSigma1, Ch, Maj, RoundConstant, W;
    var t1 := Plus5(wv[h], BigSigma1(wv[e]), Ch(wv[e], wv[f], wv[g]), RoundConstant(j), w[j]);
    var t2 := Plus(BigSigma0(wv[a]), Maj(wv[a], wv[b], wv[c]));
    wv[d] := Plus(wv[d], t1);
    wv[h] := Plus(t1, t2);
  }

  // Eight consecutive lines of the straight-line code: after them every name is back on
  // the slot it started from.
  method EightRounds(wv: array<Word>, w: array<Word>, ghost block: seq<Byte>, ghost init: Regs, j: nat)
    requires |block| == 64 && wv.Length == 8 && w.Length == 64 && wv != w && j <= 56
    requires Scheduled(w, block)
    requires Shifted(wv) == Rounds(init, block, j)
    modifies wv
    ensures Shifted(wv) == Rounds(init, block, j + 8)
  {
    hide Named, Round, RoundConstant, Scheduled, W;
    Exp(wv, w, block, Rounds(init, block, j), 0, 1, 2, 3, 4, 5, 6, 7, j);
    Exp(wv, w, block, Rounds(init, block, j + 1), 7, 0, 1, 2, 3, 4, 5, 6, j + 1);
    Exp(wv, w, block, Rounds(init, block, j + 2), 6, 7, 0, 1, 2, 3, 4, 5, j + 2);
    Exp(wv, w, block, Rounds(init, block, j + 3), 5, 6, 7, 0, 1, 2, 3, 4, j + 3);
    Exp(wv, w, block, Rounds(init, block, j + 4), 4, 5, 6, 7, 0, 1, 2, 3, j + 4);
    Exp(wv, w, block, Rounds(init, block, j + 5), 3, 4, 5, 6, 7, 0, 1, 2, j + 5);
    Exp(wv, w, block, Rounds(init, block, j + 6), 2, 3, 4, 5, 6, 7, 0, 1, j + 6);
    Exp(wv, w, block, Rounds(init, block, j + 7), 1, 2, 3, 4, 5, 6, 7, 0, j + 7);
  }

  // The 64 rounds when UNROLL_LOOPS is on.
  method RoundsUnrolled(wv: array<Word>, w: array<Word>, ghost block: seq<Byte>)
    requires |block| == 64 && wv.Length == 8 && w.Length == 64 && wv != w
    requires Scheduled(w, block)
    modifies wv
    ensures Shifted(wv) == Rounds(old(Shifted(wv)), block, 64)
  {
    ghost var init := Shifted(wv);
    assert init == Rounds(init, block, 0);
    hide Rounds, Scheduled, Shifted;
    EightRounds(wv, w, block, init, 0);
    EightRounds(wv, w, block, init, 8);
    EightRounds(wv, w, block, init, 16);
    EightRounds(wv, w, block, init, 24);
    EightRounds(wv, w, block, init, 32);
    EightRounds(wv, w, block, init, 40);
    EightRounds(wv, w, block, init, 48);
    EightRounds(wv, w, block, init, 56);
  }

  // The copy of the chaining value into the working variables.
  method LoadVariables(h: array<Word>) returns (wv: array<Word>)
    requires h.Length == 8
    ensures fresh(wv) && wv.Length == 8 && Shifted(wv) == Load(h[..])
  {
    wv := new Word[8];
    for j := 0 to 8
      invariant forall t :: 0 <= t < j ==> wv[t] == h[t]
    {
      wv[j] := h[j];
    }
  }

  // The addition of the working variables to the chaining value.
  method AddVariables(h: array<Word>, wv: array<Word>)
    requires h.Length == 8 && wv.Length == 8 && h != wv
    modifies h
    ensures h[..] == Add(old(h[..]), Shifted(wv))
  {
    hide Plus;
    for j := 0 to 8
      invariant forall t :: 0 <= t < j ==> h[t] == Plus(old(h[t]), wv[t])
      invariant forall t :: j <= t < 8 ==> h[t] == old(h[t])
    {
      h[j] := Plus(h[j], wv[j]);
    }
  }

  // One turn of the outer loop of sha256_transf.
  method TransfBlock(h: array<Word>, block: seq<Byte>, unrolled: bool)
    requires |block| == 64 && h.Length == 8
    modifies h
    ensures h[..] == Compress(old(h[..]), block)
  {
    hide Add, Load, Rounds, Scheduled, Shifted;
    var w := Schedule(block);
    var wv := LoadVariables(h);
    if unrolled {
      RoundsUnrolled(wv, w, block);
    } else {
      RoundsRolled(wv, w, block);
    }
    AddVariables(h, wv);
  }

  // sha256_transf
  method Transf(h: array<Word>, message: seq<Byte>, blockNb: nat, unrolled: bool)
    requires h.Length == 8 && 64 * blockNb <= |message|
    modifies h
    ensures h[..] == Fold(old(h[..]), message[..64 * blockNb])
  {
    hide Compress, Fold;
    ghost var s0: State := h[..];
    FoldNone(s0);
    for i := 0 to blockNb
      invariant h[..] == Fold(s0, message[..64 * i])
    {
      TransfBlock(h, message[64 * i..64 * i + 64], unrolled);
      FoldConcat(s0, message[..64 * i], message[64 * i..64 * i + 64]);
      assert message[..64 * i] + message[64 * i..64 * i + 64] == message[..64 * (i + 1)];
      FoldOne(Fold(s0, message[..64 * i]), message[64 * i..64 * i + 64]);
    }
  }

  lemma FoldNone(s: State)
    ensures Fold(s, []) == s
  {
  }

  lemma FoldOne(s: State, b: seq<Byte>)
    requires |b| == 64
    ensures Fold(s, b) == Compress(s, b)
  {
    assert b[..64] == b;
  }

  // ---- The padding the code writes

  // What sha256_final appends after n bytes: one or two blocks end with the low 32 bits
  // of the bit length, and the high 32 bits stay zero.
  function CodeTail(n: nat): seq<Byte> {
    [0x80] + Zeros(ZeroBytes(n) + 4) + Be32(8 * n % TWO_TO_THE_32)
  }

  lemma ByteOfZero(v: nat)
    requires v < 256
    ensures ByteOf(v) == 0 <==> v == 0
  {
    assert ByteOf(v) as int == v;
  }

  lemma ByteOfMod(v: nat, b: nat)
    requires b == v % 256
    ensures ByteOf(v) == ByteOf(b)
  {
  }

  lemma Be32Zero(v: nat)
    requires v < TWO_TO_THE_32
    ensures Be32(v) == Zeros(4) <==> v == 0
  {
    hide ByteOf;
    var b0, b1, b2, b3 := v / 0x100_0000, (v / 0x1_0000) % 256, (v / 0x100) % 256, v % 256;
    assert v == b0 * 0x100_0000 + b1 * 0x1_0000 + b2 * 0x100 + b3;
    ByteOfZero(b0); ByteOfZero(b1); ByteOfZero(b2); ByteOfZero(b3);
    ByteOfMod(v / 0x100_0000, b0); ByteOfMod(v / 0x1_0000, b1); ByteOfMod(v / 0x100, b2); ByteOfMod(v, b3);
    assert Zeros(4) == [0, 0, 0, 0];
    if v == 0 {
      assert Be32(v) == [0, 0, 0, 0];
    } else {
      assert b0 != 0 || b1 != 0 || b2 != 0 || b3 != 0;
    }
  }

  // The code's padding is the padding of FIPS 180-2 exactly for messages under 2^29 bytes:
  // from there on the bit length no longer fits the 32 bits that are written.
  lemma CodePaddingIsStandard(m: seq<Byte>)
    requires |m| < TWO_TO_THE_61
    ensures m + CodeTail(|m|) == Pad(m) <==> |m| < TWO_TO_THE_29
    ensures |m + CodeTail(|m|)| % 64 == 0
  {
    hide ByteOf;
    var n := |m|;
    var hi := 8 * n / TWO_TO_THE_32;
    Be32Zero(hi);
    var prefix, lo := m + [0x80] + Zeros(ZeroBytes(n)), Be32(8 * n % TWO_TO_THE_32);
    assert Zeros(ZeroBytes(n) + 4) == Zeros(ZeroBytes(n)) + Zeros(4);
    assert m + CodeTail(n) == prefix + Zeros(4) + lo;
    assert Pad(m) == prefix + Be32(hi) + lo;
    PadFillsBlocks(m);
    assert |Be32(8 * n % TWO_TO_THE_32)| == 4 && |Be32(hi)| == 4;
    if m + CodeTail(n) == Pad(m) {
      var p := |prefix|;
      assert Zeros(4) == (prefix + Zeros(4) + lo)[p..p + 4];
      assert Be32(hi) == (prefix + Be32(hi) + lo)[p..p + 4];
    }
  }
}
