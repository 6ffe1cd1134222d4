/** A known answer: the example of appendix B.1 of FIPS 180-2, the digest of the three bytes
    "abc", computed by the functions of module Sha256Spec.  It fixes every constant, rotation
    and byte order among them. */
module Sha256Known {
  import opened Sha256Spec

  const ABC: seq<Byte> := [0x61, 0x62, 0x63]

  // The message with its padding: one block.
  predicate IsBlock(b: seq<Byte>) {
    && |b| == 64 && b[0] == 0x61 && b[1] == 0x62 && b[2] == 0x63 && b[3] == 0x80
    && (forall i :: 4 <= i < 63 ==> b[i] == 0) && b[63] == 0x18
  }

  lemma Padded()
    ensures |Pad(ABC)| == 64 && IsBlock(Pad(ABC))
  {
    LengthBytes();
    assert ZeroBytes(3) == 52;
    hide Be64, ZeroBytes;
    var p := ABC + [0x80] + Zeros(52) + [0, 0, 0, 0, 0, 0, 0, 0x18];
    assert Pad(ABC) == p;
    assert p[3] == 0x80;
  }

  lemma LengthBytes()
    ensures Be64(24) == [0, 0, 0, 0, 0, 0, 0, 0x18]
  {
    assert 24 / TWO_TO_THE_32 == 0 && 24 % TWO_TO_THE_32 == 24;
  }

  // ---- The message schedule

  lemma Words0(b: seq<Byte>)
    requires IsBlock(b)
    ensures W(b, 0) == 0x61626380 && W(b, 1) == 0x00000000
    ensures W(b, 2) == 0x00000000 && W(b, 3) == 0x00000000
    ensures W(b, 4) == 0x00000000 && W(b, 5) == 0x00000000
    ensures W(b, 6) == 0x00000000 && W(b, 7) == 0x00000000
  {
  }

  lemma Words8(b: seq<Byte>)
    requires IsBlock(b)
    ensures W(b, 8) == 0x00000000 && W(b, 9) == 0x00000000
    ensures W(b, 10) == 0x00000000 && W(b, 11) == 0x00000000
    ensures W(b, 12) == 0x00000000 && W(b, 13) == 0x00000000
    ensures W(b, 14) == 0x00000000 && W(b, 15) == 0x00000018
  {
  }

  lemma Words16(b: seq<Byte>)
    requires IsBlock(b)
    ensures W(b, 16) == 0x61626380 && W(b, 17) == 0x000f0000
    ensures W(b, 18) == 0x7da86405 && W(b, 19) == 0x600003c6
    ensures W(b, 20) == 0x3e9d7b78 && W(b, 21) == 0x0183fc00
    ensures W(b, 22) == 0x12dcbfdb && W(b, 23) == 0xe2e2c38e
  {
    hide Plus4, SmallSigma0, SmallSigma1, IsBlock;
    Words0(b);
    Words8(b);
    Sums16();
  }

  lemma Sums16()
    ensures Plus4(SmallSigma1(0x00000000), 0x00000000, SmallSigma0(0x00000000), 0x61626380) == 0x61626380
    ensures Plus4(SmallSigma1(0x00000018), 0x00000000, SmallSigma0(0x00000000), 0x00000000) == 0x000f0000
    ensures Plus4(SmallSigma1(0x61626380), 0x00000000, SmallSigma0(0x00000000), 0x00000000) == 0x7da86405
    ensures Plus4(SmallSigma1(0x000f0000), 0x00000000, SmallSigma0(0x00000000), 0x00000000) == 0x600003c6
    ensures Plus4(SmallSigma1(0x7da86405), 0x00000000, SmallSigma0(0x00000000), 0x00000000) == 0x3e9d7b78
    ensures Plus4(SmallSigma1(0x600003c6), 0x00000000, SmallSigma0(0x00000000), 0x00000000) == 0x0183fc00
    ensures Plus4(SmallSigma1(0x3e9d7b78), 0x00000018, SmallSigma0(0x00000000), 0x00000000) == 0x12dcbfdb
    ensures Plus4(SmallSigma1(0x0183fc00), 0x61626380, SmallSigma0(0x00000000), 0x00000000) == 0xe2e2c38e
  {
  }

  lemma Words24(b: seq<Byte>)
    requires IsBlock(b)
    ensures W(b, 24) == 0xc8215c1a && W(b, 25) == 0xb73679a2
    ensures W(b, 26) == 0xe5bc3909 && W(b, 27) == 0x32663c5b
    ensures W(b, 28) == 0x9d209d67 && W(b, 29) == 0xec8726cb
    ensures W(b, 30) == 0x702138a4 && W(b, 31) == 0xd3b7973b
  {
    hide Plus4, SmallSigma0, SmallSigma1, IsBlock;
    Words8(b);
    Words16(b);
    Sums24();
  }

  lemma Sums24()
    ensures Plus4(SmallSigma1(0x12dcbfdb), 0x000f0000, SmallSigma0(0x00000000), 0x00000000) == 0xc8215c1a
    ensures Plus4(SmallSigma1(0xe2e2c38e), 0x7da86405, SmallSigma0(0x00000000), 0x00000000) == 0xb73679a2
    ensures Plus4(SmallSigma1(0xc8215c1a), 0x600003c6, SmallSigma0(0x00000000), 0x00000000) == 0xe5bc3909
    ensures Plus4(SmallSigma1(0xb73679a2), 0x3e9d7b78, SmallSigma0(0x00000000), 0x00000000) == 0x32663c5b
    ensures Plus4(SmallSigma1(0xe5bc3909), 0x0183fc00, SmallSigma0(0x00000000), 0x00000000) == 0x9d209d67
    ensures Plus4(SmallSigma1(0x32663c5b), 0x12dcbfdb, SmallSigma0(0x00000000), 0x00000000) == 0xec8726cb
    ensures Plus4(SmallSigma1(0x9d209d67), 0xe2e2c38e, SmallSigma0(0x00000018), 0x00000000) == 0x702138a4
    ensures Plus4(SmallSigma1(0xec8726cb), 0xc8215c1a, SmallSigma0(0x61626380), 0x00000018) == 0xd3b7973b
  {
  }

  lemma Words32(b: seq<Byte>)
    requires IsBlock(b)
    ensures W(b, 32) == 0x93f5997f && W(b, 33) == 0x3b68ba73
    ensures W(b, 34) == 0xaff4ffc1 && W(b, 35) == 0xf10a5c62
    ensures W(b, 36) == 0x0a8b3996 && W(b, 37) == 0x72af830a
    ensures W(b, 38) == 0x9409e33e && W(b, 39) == 0x24641522
  {
    hide Plus4, SmallSigma0, SmallSigma1, IsBlock;
    Words16(b);
    Words24(b);
    Sums32();
  }

  lemma Sums32()
    ensures Plus4(SmallSigma1(0x702138a4), 0xb73679a2, SmallSigma0(0x000f0000), 0x61626380) == 0x93f5997f
    ensures Plus4(SmallSigma1(0xd3b7973b), 0xe5bc3909, SmallSigma0(0x7da86405), 0x000f0000) == 0x3b68ba73
    ensures Plus4(SmallSigma1(0x93f5997f), 0x32663c5b, SmallSigma0(0x600003c6), 0x7da86405) == 0xaff4ffc1
    ensures Plus4(SmallSigma1(0x3b68ba73), 0x9d209d67, SmallSigma0(0x3e9d7b78), 0x600003c6) == 0xf10a5c62
    ensures Plus4(SmallSigma1(0xaff4ffc1), 0xec8726cb, SmallSigma0(0x0183fc00), 0x3e9d7b78) == 0x0a8b3996
    ensures Plus4(SmallSigma1(0xf10a5c62), 0x702138a4, SmallSigma0(0x12dcbfdb), 0x0183fc00) == 0x72af830a
    ensures Plus4(SmallSigma1(0x0a8b3996), 0xd3b7973b, SmallSigma0(0xe2e2c38e), 0x12dcbfdb) == 0x9409e33e
    ensures Plus4(SmallSigma1(0x72af830a), 0x93f5997f, SmallSigma0(0xc8215c1a), 0xe2e2c38e) == 0x24641522
  {
  }

  lemma Words40(b: seq<Byte>)
    requires IsBlock(b)
    ensures W(b, 40) == 0x9f47bf94 && W(b, 41) == 0xf0a64f5a
    ensures W(b, 42) == 0x3e246a79 && W(b, 43) == 0x27333ba3
    ensures W(b, 44) == 0x0c4763f2 && W(b, 45) == 0x840abf27
    ensures W(b, 46) == 0x7a290d5d && W(b, 47) == 0x065c43da
  {
    hide Plus4, SmallSigma0, SmallSigma1, IsBlock;
    Words24(b);
    Words32(b);
    Sums40();
  }

  lemma Sums40()
    ensures Plus4(SmallSigma1(0x9409e33e), 0x3b68ba73, SmallSigma0(0xb73679a2), 0xc8215c1a) == 0x9f47bf94
    ensures Plus4(SmallSigma1(0x24641522), 0xaff4ffc1, SmallSigma0(0xe5bc3909), 0xb73679a2) == 0xf0a64f5a
    ensures Plus4(SmallSigma1(0x9f47bf94), 0xf10a5c62, SmallSigma0(0x32663c5b), 0xe5bc3909) == 0x3e246a79
    ensures Plus4(SmallSigma1(0xf0a64f5a), 0x0a8b3996, SmallSigma0(0x9d209d67), 0x32663c5b) == 0x27333ba3
    ensures Plus4(SmallSigma1(0x3e246a79), 0x72af830a, SmallSigma0(0xec8726cb), 0x9d209d67) == 0x0c4763f2
    ensures Plus4(SmallSigma1(0x27333ba3), 0x9409e33e, SmallSigma0(0x702138a4), 0xec8726cb) == 0x840abf27
    ensures Plus4(SmallSigma1(0x0c4763f2), 0x24641522, SmallSigma0(0xd3b7973b), 0x702138a4) == 0x7a290d5d
    ensures Plus4(SmallSigma1(0x840abf27), 0x9f47bf94, SmallSigma0(0x93f5997f), 0xd3b7973b) == 0x065c43da
  {
  }

  lemma Words48(b: seq<Byte>)
    requires IsBlock(b)
    ensures W(b, 48) == 0xfb3e89cb && W(b, 49) == 0xcc7617db
    ensures W(b, 50) == 0xb9e66c34 && W(b, 51) == 0xa9993667
    ensures W(b, 52) == 0x84badedd && W(b, 53) == 0xc21462bc
    ensures W(b, 54) == 0x1487472c && W(b, 55) == 0xb20f7a99
  {
    hide Plus4, SmallSigma0, SmallSigma1, IsBlock;
    Words32(b);
    Words40(b);
    Sums48();
  }

  lemma Sums48()
    ensures Plus4(SmallSigma1(0x7a290d5d), 0xf0a64f5a, SmallSigma0(0x3b68ba73), 0x93f5997f) == 0xfb3e89cb
    ensures Plus4(SmallSigma1(0x065c43da), 0x3e246a79, SmallSigma0(0xaff4ffc1), 0x3b68ba73) == 0xcc7617db
    ensures Plus4(SmallSigma1(0xfb3e89cb), 0x27333ba3, SmallSigma0(0xf10a5c62), 0xaff4ffc1) == 0xb9e66c34
    ensures Plus4(SmallSigma1(0xcc7617db), 0x0c4763f2, SmallSigma0(0x0a8b3996), 0xf10a5c62) == 0xa9993667
    ensures Plus4(SmallSigma1(0xb9e66c34), 0x840abf27, SmallSigma0(0x72af830a), 0x0a8b3996) == 0x84badedd
    ensures Plus4(SmallSigma1(0xa9993667), 0x7a290d5d, SmallSigma0(0x9409e33e), 0x72af830a) == 0xc21462bc
    ensures Plus4(SmallSigma1(0x84badedd), 0x065c43da, SmallSigma0(0x24641522), 0x9409e33e) == 0x1487472c
    ensures Plus4(SmallSigma1(0xc21462bc), 0xfb3e89cb, SmallSigma0(0x9f47bf94), 0x24641522) == 0xb20f7a99
  {
  }

  lemma Words56(b: seq<Byte>)
    requires IsBlock(b)
    ensures W(b, 56) == 0xef57b9cd && W(b, 57) == 0xebe6b238
    ensures W(b, 58) == 0x9fe3095e && W(b, 59) == 0x78bc8d4b
    ensures W(b, 60) == 0xa43fcf15 && W(b, 61) == 0x668b2ff8
    ensures W(b, 62) == 0xeeaba2cc && W(b, 63) == 0x12b1edeb
  {
    hide Plus4, SmallSigma0, SmallSigma1, IsBlock;
    Words40(b);
    Words48(b);
    Sums56();
  }

  lemma Sums56()
    ensures Plus4(SmallSigma1(0x1487472c), 0xcc7617db, SmallSigma0(0xf0a64f5a), 0x9f47bf94) == 0xef57b9cd
    ensures Plus4(SmallSigma1(0xb20f7a99), 0xb9e66c34, SmallSigma0(0x3e246a79), 0xf0a64f5a) == 0xebe6b238
    ensures Plus4(SmallSigma1(0xef57b9cd), 0xa9993667, SmallSigma0(0x27333ba3), 0x3e246a79) == 0x9fe3095e
    ensures Plus4(SmallSigma1(0xebe6b238), 0x84badedd, SmallSigma0(0x0c4763f2), 0x27333ba3) == 0x78bc8d4b
    ensures Plus4(SmallSigma1(0x9fe3095e), 0xc21462bc, SmallSigma0(0x840abf27), 0x0c4763f2) == 0xa43fcf15
    ensures Plus4(SmallSigma1(0x78bc8d4b), 0x1487472c, SmallSigma0(0x7a290d5d), 0x840abf27) == 0x668b2ff8
    ensures Plus4(SmallSigma1(0xa43fcf15), 0xb20f7a99, SmallSigma0(0x065c43da), 0x7a290d5d) == 0xeeaba2cc
    ensures Plus4(SmallSigma1(0x668b2ff8), 0xef57b9cd, SmallSigma0(0xfb3e89cb), 0x065c43da) == 0x12b1edeb
  {
  }

  // ---- The rounds

  // Four rounds from the t-th on, with the constants of the table.
  function Four(r: Regs, t: nat, w0: Word, w1: Word, w2: Word, w3: Word): Regs
    requires t <= 60
  {
    Round(Round(Round(Round(r, K[t], w0), K[t + 1], w1), K[t + 2], w2), K[t + 3], w3)
  }

  lemma FourRounds(b: seq<Byte>, t: nat)
    requires |b| == 64 && t <= 60
    ensures Rounds(Load(H0), b, t + 4) == Four(Rounds(Load(H0), b, t), t, W(b, t), W(b, t + 1), W(b, t + 2), W(b, t + 3))
  {
    hide Round, Rounds, W, Load, RoundConstant;
    var r := Load(H0);
    OneRound(r, b, t);
    OneRound(r, b, t + 1);
    OneRound(r, b, t + 2);
    OneRound(r, b, t + 3);
  }

  lemma OneRound(r: Regs, b: seq<Byte>, t: nat)
    requires |b| == 64 && t < 64
    ensures Rounds(r, b, t + 1) == Round(Rounds(r, b, t), K[t], W(b, t))
  {
    hide Round, W;
  }

  lemma Four0()
    ensures Four(Regs(0x6a09e667, 0xbb67ae85, 0x3c6ef372, 0xa54ff53a, 0x510e527f, 0x9b05688c, 0x1f83d9ab, 0x5be0cd19),
                 0, 0x61626380, 0x00000000, 0x00000000, 0x00000000) ==
            Regs(0xd550f666, 0xc8c347a7, 0x5a6ad9ad, 0x5d6aebcd, 0x24e00850, 0xf92939eb, 0x78ce7989, 0xfa2a4622)
  {
  }

  lemma Four4()
    ensures Four(Regs(0xd550f666, 0xc8c347a7, 0x5a6ad9ad, 0x5d6aebcd, 0x24e00850, 0xf92939eb, 0x78ce7989, 0xfa2a4622),
                 4, 0x00000000, 0x00000000, 0x00000000, 0x00000000) ==
            Regs(0x85a07b5f, 0xe5030380, 0x2b4209f5, 0x04409a6a, 0x0c657a79, 0x9b27a401, 0x714260ad, 0x43ada245)
  {
  }

  lemma Four8()
    ensures Four(Regs(0x85a07b5f, 0xe5030380, 0x2b4209f5, 0x04409a6a, 0x0c657a79, 0x9b27a401, 0x714260ad, 0x43ada245),
                 8, 0x00000000, 0x00000000, 0x00000000, 0x00000000) ==
            Regs(0xf71fc5a9, 0x4798a3f4, 0x8c87346b, 0x8e04ecb9, 0x816fd6e9, 0x436b23e8, 0x1cc92596, 0x32ca2d8c)
  {
  }

  lemma Four12()
    ensures Four(Regs(0xf71fc5a9, 0x4798a3f4, 0x8c87346b, 0x8e04ecb9, 0x816fd6e9, 0x436b23e8, 0x1cc92596, 0x32ca2d8c),
                 12, 0x00000000, 0x00000000, 0x00000000, 0x00000018) ==
            Regs(0xb0fa238e, 0xc0645fde, 0xd932eb16, 0x87912990, 0x07590dcd, 0x0b92f20c, 0x745a48de, 0x1e578218)
  {
  }

  lemma Four16()
    ensures Four(Regs(0xb0fa238e, 0xc0645fde, 0xd932eb16, 0x87912990, 0x07590dcd, 0x0b92f20c, 0x745a48de, 0x1e578218),
                 16, 0x61626380, 0x000f0000, 0x7da86405, 0x600003c6) ==
            Regs(0xe1f20c33, 0xfe777bbf, 0xc2fbd9d1, 0x21da9a9b, 0xb0638179, 0xcc899961, 0x846ee454, 0x8034229c)
  {
  }

  lemma Four20()
    ensures Four(Regs(0xe1f20c33, 0xfe777bbf, 0xc2fbd9d1, 0x21da9a9b, 0xb0638179, 0xcc899961, 0x846ee454, 0x8034229c),
                 20, 0x3e9d7b78, 0x0183fc00, 0x12dcbfdb, 0xe2e2c38e) ==
            Regs(0xc5d53d8d, 0xa7a3623f, 0xc2606d6d, 0x9dc68b63, 0xaa47c347, 0x49f5114a, 0xe1257970, 0x8ada8930)
  {
  }

  lemma Four24()
    ensures Four(Regs(0xc5d53d8d, 0xa7a3623f, 0xc2606d6d, 0x9dc68b63, 0xaa47c347, 0x49f5114a, 0xe1257970, 0x8ada8930),
                 24, 0xc8215c1a, 0xb73679a2, 0xe5bc3909, 0x32663c5b) ==
            Regs(0x77d37528, 0xb62ec4bc, 0xcde8037d, 0x1c2c2838, 0xedffbff8, 0xc74c6516, 0x14383d8e, 0x2823ef91)
  {
  }

  lemma Four28()
    ensures Four(Regs(0x77d37528, 0xb62ec4bc, 0xcde8037d, 0x1c2c2838, 0xedffbff8, 0xc74c6516, 0x14383d8e, 0x2823ef91),
                 28, 0x9d209d67, 0xec8726cb, 0x702138a4, 0xd3b7973b) ==
            Regs(0x73b33bf5, 0xea992a22, 0xa0060b30, 0x363482c9, 0xba591112, 0x0109ab3a, 0xade79437, 0x6112a3b7)
  {
  }

  lemma Four32()
    ensures Four(Regs(0x73b33bf5, 0xea992a22, 0xa0060b30, 0x363482c9, 0xba591112, 0x0109ab3a, 0xade79437, 0x6112a3b7),
                 32, 0x93f5997f, 0x3b68ba73, 0xaff4ffc1, 0xf10a5c62) ==
            Regs(0x65a0cfe4, 0xa9a7738c, 0xfe604df5, 0x98e12507, 0xf4b002d6, 0x085f3833, 0x59249dd3, 0x9cd9f5f6)
  {
  }

  lemma Four36()
    ensures Four(Regs(0x65a0cfe4, 0xa9a7738c, 0xfe604df5, 0x98e12507, 0xf4b002d6, 0x085f3833, 0x59249dd3, 0x9cd9f5f6),
                 36, 0x0a8b3996, 0x72af830a, 0x9409e33e, 0x24641522) ==
            Regs(0x79ea687a, 0x6dc57a8a, 0x34df1604, 0x41a65cb1, 0x1efbc0a0, 0xf0781bc8, 0xa507a53d, 0x0772a26b)
  {
  }

  lemma Four40()
    ensures Four(Regs(0x79ea687a, 0x6dc57a8a, 0x34df1604, 0x41a65cb1, 0x1efbc0a0, 0xf0781bc8, 0xa507a53d, 0x0772a26b),
                 40, 0x9f47bf94, 0xf0a64f5a, 0x3e246a79, 0x27333ba3) ==
            Regs(0x9d4baf93, 0x17aa0dfe, 0xdf46652f, 0xd6670766, 0xfda24c2e, 0xdecd4715, 0x838b2711, 0x26352d63)
  {
  }

  lemma Four44()
    ensures Four(Regs(0x9d4baf93, 0x17aa0dfe, 0xdf46652f, 0xd6670766, 0xfda24c2e, 0xdecd4715, 0x838b2711, 0x26352d63),
                 44, 0x0c4763f2, 0x840abf27, 0x7a290d5d, 0x065c43da) ==
            Regs(0x4172328d, 0xa14c14b0, 0x72ab4b91, 0x26628815, 0xfecf0bc6, 0xd57b94a9, 0xb7755da1, 0xa80f11f0)
  {
  }

  lemma Four48()
    ensures Four(Regs(0x4172328d, 0xa14c14b0, 0x72ab4b91, 0x26628815, 0xfecf0bc6, 0xd57b94a9, 0xb7755da1, 0xa80f11f0),
                 48, 0xfb3e89cb, 0xcc7617db, 0xb9e66c34, 0xa9993667) ==
            Regs(0x886e7a22, 0x7a0508a1, 0xf11bfaa8, 0x05757ceb, 0x49231c1e, 0x52f1ccf7, 0x6e5c390c, 0xbd714038)
  {
  }

  lemma Four52()
    ensures Four(Regs(0x886e7a22, 0x7a0508a1, 0xf11bfaa8, 0x05757ceb, 0x49231c1e, 0x52f1ccf7, 0x6e5c390c, 0xbd714038),
                 52, 0x84badedd, 0xc21462bc, 0x1487472c, 0xb20f7a99) ==
            Regs(0x38cc9913, 0x3ec45cdb, 0xf5702fdb, 0x101fd28f, 0x54cb266b, 0xe50e1b4f, 0x9f4787c3, 0x529e7d00)
  {
  }

  lemma Four56()
    ensures Four(Regs(0x38cc9913, 0x3ec45cdb, 0xf5702fdb, 0x101fd28f, 0x54cb266b, 0xe50e1b4f, 0x9f4787c3, 0x529e7d00),
                 56, 0xef57b9cd, 0xebe6b238, 0x9fe3095e, 0x78bc8d4b) ==
            Regs(0xb6ae8fff, 0xffb70472, 0xc062d46f, 0xfcd1887b, 0xb21bad3d, 0x6d83bfc6, 0x7e44008e, 0x9b5e906c)
  {
  }

  lemma Four60()
    ensures Four(Regs(0xb6ae8fff, 0xffb70472, 0xc062d46f, 0xfcd1887b, 0xb21bad3d, 0x6d83bfc6, 0x7e44008e, 0x9b5e906c),
                 60, 0xa43fcf15, 0x668b2ff8, 0xeeaba2cc, 0x12b1edeb) ==
            Regs(0x506e3058, 0xd39a2165, 0x04d24d6c, 0xb85e2ce9, 0x5ef50f24, 0xfb121210, 0x948d25b6, 0x961f4894)
  {
  }

  lemma After0(b: seq<Byte>)
    requires |b| == 64
    ensures Rounds(Load(H0), b, 0) == Regs(0x6a09e667, 0xbb67ae85, 0x3c6ef372, 0xa54ff53a, 0x510e527f, 0x9b05688c, 0x1f83d9ab, 0x5be0cd19)
  {
  }

  lemma After8(b: seq<Byte>)
    requires |b| == 64 && IsBlock(b)
    ensures Rounds(Load(H0), b, 8) ==
            Regs(0x85a07b5f, 0xe5030380, 0x2b4209f5, 0x04409a6a, 0x0c657a79, 0x9b27a401, 0x714260ad, 0x43ada245)
  {
    hide Four, Rounds, W, Load, IsBlock;
    After0(b);
    Words0(b);
    Four0();
    FourRounds(b, 0);
    Four4();
    FourRounds(b, 4);
  }

  lemma After16(b: seq<Byte>)
    requires |b| == 64 && IsBlock(b)
    ensures Rounds(Load(H0), b, 16) ==
            Regs(0xb0fa238e, 0xc0645fde, 0xd932eb16, 0x87912990, 0x07590dcd, 0x0b92f20c, 0x745a48de, 0x1e578218)
  {
    hide Four, Rounds, W, Load, IsBlock;
    After8(b);
    Words8(b);
    Four8();
    FourRounds(b, 8);
    Four12();
    FourRounds(b, 12);
  }

  lemma After24(b: seq<Byte>)
    requires |b| == 64 && IsBlock(b)
    ensures Rounds(Load(H0), b, 24) ==
            Regs(0xc5d53d8d, 0xa7a3623f, 0xc2606d6d, 0x9dc68b63, 0xaa47c347, 0x49f5114a, 0xe1257970, 0x8ada8930)
  {
    hide Four, Rounds, W, Load, IsBlock;
    After16(b);
    Words16(b);
    Four16();
    FourRounds(b, 16);
    Four20();
    FourRounds(b, 20);
  }

  lemma After32(b: seq<Byte>)
    requires |b| == 64 && IsBlock(b)
    ensures Rounds(Load(H0), b, 32) ==
            Regs(0x73b33bf5, 0xea992a22, 0xa0060b30, 0x363482c9, 0xba591112, 0x0109ab3a, 0xade79437, 0x6112a3b7)
  {
    hide Four, Rounds, W, Load, IsBlock;
    After24(b);
    Words24(b);
    Four24();
    FourRounds(b, 24);
    Four28();
    FourRounds(b, 28);
  }

  lemma After40(b: seq<Byte>)
    requires |b| == 64 && IsBlock(b)
    ensures Rounds(Load(H0), b, 40) ==
            Regs(0x79ea687a, 0x6dc57a8a, 0x34df1604, 0x41a65cb1, 0x1efbc0a0, 0xf0781bc8, 0xa507a53d, 0x0772a26b)
  {
    hide Four, Rounds, W, Load, IsBlock;
    After32(b);
    Words32(b);
    Four32();
    FourRounds(b, 32);
    Four36();
    FourRounds(b, 36);
  }

  lemma After48(b: seq<Byte>)
    requires |b| == 64 && IsBlock(b)
    ensures Rounds(Load(H0), b, 48) ==
            Regs(0x4172328d, 0xa14c14b0, 0x72ab4b91, 0x26628815, 0xfecf0bc6, 0xd57b94a9, 0xb7755da1, 0xa80f11f0)
  {
    hide Four, Rounds, W, Load, IsBlock;
    After40(b);
    Words40(b);
    Four40();
    FourRounds(b, 40);
    Four44();
    FourRounds(b, 44);
  }

  lemma After56(b: seq<Byte>)
    requires |b| == 64 && IsBlock(b)
    ensures Rounds(Load(H0), b, 56) ==
            Regs(0x38cc9913, 0x3ec45cdb, 0xf5702fdb, 0x101fd28f, 0x54cb266b, 0xe50e1b4f, 0x9f4787c3, 0x529e7d00)
  {
    hide Four, Rounds, W, Load, IsBlock;
    After48(b);
    Words48(b);
    Four48();
    FourRounds(b, 48);
    Four52();
    FourRounds(b, 52);
  }

  lemma After64(b: seq<Byte>)
    requires |b| == 64 && IsBlock(b)
    ensures Rounds(Load(H0), b, 64) ==
            Regs(0x506e3058, 0xd39a2165, 0x04d24d6c, 0xb85e2ce9, 0x5ef50f24, 0xfb121210, 0x948d25b6, 0x961f4894)
  {
    hide Four, Rounds, W, Load, IsBlock;
    After56(b);
    Words56(b);
    Four56();
    FourRounds(b, 56);
    Four60();
    FourRounds(b, 60);
  }

  // ---- The digest

  lemma Added()
    ensures Add(H0, Regs(0x506e3058, 0xd39a2165, 0x04d24d6c, 0xb85e2ce9, 0x5ef50f24, 0xfb121210, 0x948d25b6, 0x961f4894)) ==
            [0xba7816bf, 0x8f01cfea, 0x414140de, 0x5dae2223, 0xb00361a3, 0x96177a9c, 0xb410ff61, 0xf20015ad]
  {
  }

  lemma Written()
    ensures
      DigestBytes([0xba7816bf, 0x8f01cfea, 0x414140de, 0x5dae2223, 0xb00361a3, 0x96177a9c, 0xb410ff61, 0xf20015ad]) ==
      [0xba, 0x78, 0x16, 0xbf, 0x8f, 0x01, 0xcf, 0xea, 0x41, 0x41, 0x40, 0xde, 0x5d, 0xae, 0x22, 0x23,
       0xb0, 0x03, 0x61, 0xa3, 0x96, 0x17, 0x7a, 0x9c, 0xb4, 0x10, 0xff, 0x61, 0xf2, 0x00, 0x15, 0xad]
  {
    hide WordBytes, DigestBytes;
    WordsWritten();
    var s: seq<Word> := [0xba7816bf, 0x8f01cfea, 0x414140de, 0x5dae2223, 0xb00361a3, 0x96177a9c, 0xb410ff61, 0xf20015ad];
    assert DigestBytes(s[..0]) == [];
    FourWords(s, 0);
    FourWords(s, 4);
    assert s[..8] == s;
  }

  lemma FourWords(s: seq<Word>, n: nat)
    requires n + 4 <= |s|
    ensures
      DigestBytes(s[..n + 4]) ==
      DigestBytes(s[..n]) + WordBytes(s[n]) + WordBytes(s[n + 1]) + WordBytes(s[n + 2]) + WordBytes(s[n + 3])
  {
    hide DigestBytes, WordBytes;
    LastWord(s, n);
    LastWord(s, n + 1);
    LastWord(s, n + 2);
    LastWord(s, n + 3);
  }

  lemma LastWord(s: seq<Word>, n: nat)
    requires n < |s|
    ensures DigestBytes(s[..n + 1]) == DigestBytes(s[..n]) + WordBytes(s[n])
  {
    hide WordBytes;
    assert s[..n + 1][..n] == s[..n];
  }

  lemma WordsWritten()
    ensures WordBytes(0xba7816bf) == [0xba, 0x78, 0x16, 0xbf]
    ensures WordBytes(0x8f01cfea) == [0x8f, 0x01, 0xcf, 0xea]
    ensures WordBytes(0x414140de) == [0x41, 0x41, 0x40, 0xde]
    ensures WordBytes(0x5dae2223) == [0x5d, 0xae, 0x22, 0x23]
    ensures WordBytes(0xb00361a3) == [0xb0, 0x03, 0x61, 0xa3]
    ensures WordBytes(0x96177a9c) == [0x96, 0x17, 0x7a, 0x9c]
    ensures WordBytes(0xb410ff61) == [0xb4, 0x10, 0xff, 0x61]
    ensures WordBytes(0xf20015ad) == [0xf2, 0x00, 0x15, 0xad]
  {
  }

  lemma KnownAnswer()
    ensures
      Digest(ABC) ==
      [0xba, 0x78, 0x16, 0xbf, 0x8f, 0x01, 0xcf, 0xea, 0x41, 0x41, 0x40, 0xde, 0x5d, 0xae, 0x22, 0x23,
       0xb0, 0x03, 0x61, 0xa3, 0x96, 0x17, 0x7a, 0x9c, 0xb4, 0x10, 0xff, 0x61, 0xf2, 0x00, 0x15, 0xad]
  {
    hide Rounds, Load, Add, DigestBytes, Pad;
    var b := Pad(ABC);
    Padded();
    After64(b);
    Added();
    Written();
    assert b[..64] == b && b[64..] == [];
    assert Fold(H0, b) == Fold(Compress(H0, b), []) == Compress(H0, b);
  }
}
