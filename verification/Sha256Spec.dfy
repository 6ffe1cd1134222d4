/** SHA-256 as FIPS 180-2 states it: the functions of section 4.1.2, the padding of
    section 5.1.1 and the hash computation of section 6.2.2.  Nothing here follows the
    C code; module Sha256 is proved against it. */
module Sha256Spec {
  type Byte = bv8
  type Word = bv32

  const TWO_TO_THE_29: nat := 0x2000_0000
  const TWO_TO_THE_32: nat := 0x1_0000_0000
  const TWO_TO_THE_61: nat := 0x2000_0000_0000_0000

  // ---- Section 3.2: addition modulo 2^32.  These, like the functions below, are named
  // so that proofs can hide their bit-level meaning.

  function Plus(x: Word, y: Word): Word { x + y }

  function Plus4(w: Word, x: Word, y: Word, z: Word): Word { w + x + y + z }

  function Plus5(v: Word, w: Word, x: Word, y: Word, z: Word): Word { v + w + x + y + z }

  // ---- Section 4.1.2: functions on words

  function Ch(x: Word, y: Word, z: Word): Word { (x & y) ^ (!x & z) }

  function Maj(x: Word, y: Word, z: Word): Word { (x & y) ^ (x & z) ^ (y & z) }

  function BigSigma0(x: Word): Word { x.RotateRight(2) ^ x.RotateRight(13) ^ x.RotateRight(22) }

  function BigSigma1(x: Word): Word { x.RotateRight(6) ^ x.RotateRight(11) ^ x.RotateRight(25) }

  function SmallSigma0(x: Word): Word { x.RotateRight(7) ^ x.RotateRight(18) ^ (x >> 3) }

  function SmallSigma1(x: Word): Word { x.RotateRight(17) ^ x.RotateRight(19) ^ (x >> 10) }

  // ---- Section 4.2.2 and 5.3.2: constants

  const H0: seq<Word> :=
    [0x6a09e667, 0xbb67ae85, 0x3c6ef372, 0xa54ff53a, 0x510e527f, 0x9b05688c, 0x1f83d9ab, 0x5be0cd19]

  const K: seq<Word> :=
    [0x428a2f98, 0x71374491, 0xb5c0fbcf, 0xe9b5dba5, 0x3956c25b, 0x59f111f1, 0x923f82a4, 0xab1c5ed5] +
    [0xd807aa98, 0x12835b01, 0x243185be, 0x550c7dc3, 0x72be5d74, 0x80deb1fe, 0x9bdc06a7, 0xc19bf174] +
    [0xe49b69c1, 0xefbe4786, 0x0fc19dc6, 0x240ca1cc, 0x2de92c6f, 0x4a7484aa, 0x5cb0a9dc, 0x76f988da] +
    [0x983e5152, 0xa831c66d, 0xb00327c8, 0xbf597fc7, 0xc6e00bf3, 0xd5a79147, 0x06ca6351, 0x14292967] +
    [0x27b70a85, 0x2e1b2138, 0x4d2c6dfc, 0x53380d13, 0x650a7354, 0x766a0abb, 0x81c2c92e, 0x92722c85] +
    [0xa2bfe8a1, 0xa81a664b, 0xc24b8b70, 0xc76c51a3, 0xd192e819, 0xd6990624, 0xf40e3585, 0x106aa070] +
    [0x19a4c116, 0x1e376c08, 0x2748774c, 0x34b0bcb5, 0x391c0cb3, 0x4ed8aa4a, 0x5b9cca4f, 0x682e6ff3] +
    [0x748f82ee, 0x78a5636f, 0x84c87814, 0x8cc70208, 0x90befffa, 0xa4506ceb, 0xbef9a3f7, 0xc67178f2]

  function RoundConstant(t: nat): Word
    requires t < 64
  {
    K[t]
  }

  // ---- Section 6.2.2: one block

  // The big-endian word at bytes 4t .. 4t+3 of a block.
  function WordAt(block: seq<Byte>, t: nat): Word
    requires |block| == 64 && t < 16
  {
    BigEndian(block[4 * t], block[4 * t + 1], block[4 * t + 2], block[4 * t + 3])
  }

  function BigEndian(b0: Byte, b1: Byte, b2: Byte, b3: Byte): Word {
    (b3 as Word) | ((b2 as Word) << 8) | ((b1 as Word) << 16) | ((b0 as Word) << 24)
  }

  // W_t, the message schedule.
  function W(block: seq<Byte>, t: nat): Word
    requires |block| == 64
  {
    if t < 16 then WordAt(block, t)
    else Plus4(SmallSigma1(W(block, t - 2)), W(block, t - 7), SmallSigma0(W(block, t - 15)), W(block, t - 16))
  }

  // The eight working variables.
  datatype Regs = Regs(a: Word, b: Word, c: Word, d: Word, e: Word, f: Word, g: Word, h: Word)

  function Round(r: Regs, k: Word, w: Word): Regs {
    var t1 := Plus5(r.h, BigSigma1(r.e), Ch(r.e, r.f, r.g), k, w);
    var t2 := Plus(BigSigma0(r.a), Maj(r.a, r.b, r.c));
    Regs(Plus(t1, t2), r.a, r.b, r.c, Plus(r.d, t1), r.e, r.f, r.g)
  }

  function Rounds(r: Regs, block: seq<Byte>, t: nat): Regs
    requires |block| == 64 && t <= 64
  {
    if t == 0 then r else Round(Rounds(r, block, t - 1), RoundConstant(t - 1), W(block, t - 1))
  }

  type State = s: seq<Word> | |s| == 8 witness [0, 0, 0, 0, 0, 0, 0, 0]

  function Load(s: State): Regs { Regs(s[0], s[1], s[2], s[3], s[4], s[5], s[6], s[7]) }

  function Add(s: State, r: Regs): State {
    [Plus(s[0], r.a), Plus(s[1], r.b), Plus(s[2], r.c), Plus(s[3], r.d),
     Plus(s[4], r.e), Plus(s[5], r.f), Plus(s[6], r.g), Plus(s[7], r.h)]
  }

  function Compress(s: State, block: seq<Byte>): State
    requires |block| == 64
  {
    Add(s, Rounds(Load(s), block, 64))
  }

  // ---- Section 6.2.2: all blocks.  A trailing partial block is not consumed.

  function Fold(s: State, m: seq<Byte>): State
    decreases |m|
  {
    if |m| < 64 then s else Fold(Compress(s, m[..64]), m[64..])
  }

  lemma {:induction false} FoldConcat(s: State, a: seq<Byte>, b: seq<Byte>)
    requires |a| % 64 == 0
    ensures Fold(s, a + b) == Fold(Fold(s, a), b)
    decreases |a|
  {
    if |a| == 0 {
      assert a + b == b;
    } else {
      assert (a + b)[..64] == a[..64] && (a + b)[64..] == a[64..] + b;
      FoldConcat(Compress(s, a[..64]), a[64..], b);
    }
  }

  // ---- Section 5.1.1: padding, in whole bytes

  function Zeros(n: nat): (z: seq<Byte>)
    ensures |z| == n
  {
    seq(n, _ => 0)
  }

  // Number of zero bytes that brings n + 1 + ZeroBytes(n) to 56 modulo 64.
  function ZeroBytes(n: nat): nat { (119 - n % 64) % 64 }

  function ByteOf(v: nat): Byte
  {
    (v % 256) as bv8
  }

  function Be32(v: nat): (b: seq<Byte>)
    ensures |b| == 4
  {
    [ByteOf(v / 0x100_0000), ByteOf(v / 0x1_0000), ByteOf(v / 0x100), ByteOf(v)]
  }

  function Be64(v: nat): (b: seq<Byte>)
    ensures |b| == 8
  { Be32(v / TWO_TO_THE_32) + Be32(v % TWO_TO_THE_32) }

  function Pad(m: seq<Byte>): seq<Byte>
    requires |m| < TWO_TO_THE_61
  {
    m + [0x80] + Zeros(ZeroBytes(|m|)) + Be64(8 * |m|)
  }

  // The padded message is a whole number of blocks.
  lemma PadFillsBlocks(m: seq<Byte>)
    requires |m| < TWO_TO_THE_61
    ensures |Pad(m)| == |m| + 9 + ZeroBytes(|m|)
    ensures |Pad(m)| % 64 == 0
  {
    hide Be64, ZeroBytes;
    ZeroBytesFill(|m|);
  }

  lemma ZeroBytesFill(n: nat)
    ensures (n + 9 + ZeroBytes(n)) % 64 == 0
  {
    assert n == 64 * (n / 64) + n % 64;
  }

  // ---- The digest

  function WordBytes(x: Word): (b: seq<Byte>)
    ensures |b| == 4
  {
    [((x >> 24) & 0xff) as bv8, ((x >> 16) & 0xff) as bv8, ((x >> 8) & 0xff) as bv8, (x & 0xff) as bv8]
  }

  function DigestBytes(s: seq<Word>): (d: seq<Byte>)
    ensures |d| == 4 * |s|
  {
    if s == [] then [] else DigestBytes(s[..|s| - 1]) + WordBytes(s[|s| - 1])
  }

  function Digest(m: seq<Byte>): seq<Byte>
    requires |m| < TWO_TO_THE_61
  {
    DigestBytes(Fold(H0, Pad(m)))
  }

  // Reading a word back from the bytes it was written to returns the word.
  lemma WordRoundTrip(x: Word)
    ensures var b := WordBytes(x); BigEndian(b[0], b[1], b[2], b[3]) == x
  {
  }
}
