/** The first test vector of the standard, "abc", computed step by step from the definitions, so that
    constants, functions, rotations, schedule, padding and byte order are the ones that everybody
    else uses. */
module Vectors {
  import opened S = Sha1

  const ABC: seq<Byte> := [0x61, 0x62, 0x63]
  const BLOCK_WORDS: seq<Word> := [0x61626380, 0, 0, 0, 0, 0, 0, 0, 0, 0, 0, 0, 0, 0, 0, 24]

  lemma WordStep(m: seq<Word>, t: nat)
    requires |m| == 16 && 16 <= t
    ensures W(m, t) == Rol(W(m, t - 3) ^ W(m, t - 8) ^ W(m, t - 14) ^ W(m, t - 16), 1)
  {
    hide Rol;
  }

  lemma FirstWords()
    ensures |BLOCK_WORDS| == 16 && W(BLOCK_WORDS, 0) == 0x61626380 && W(BLOCK_WORDS, 15) == 24
    ensures forall t :: 0 < t < 15 ==> W(BLOCK_WORDS, t) == 0
  {
  }


  lemma Words16()
    ensures W(BLOCK_WORDS, 16) == 0xc2c4c700
    ensures W(BLOCK_WORDS, 17) == 0x00000000
    ensures W(BLOCK_WORDS, 18) == 0x00000030
    ensures W(BLOCK_WORDS, 19) == 0x85898e01
    ensures W(BLOCK_WORDS, 20) == 0x00000000
    ensures W(BLOCK_WORDS, 21) == 0x00000060
    ensures W(BLOCK_WORDS, 22) == 0x0b131c03
    ensures W(BLOCK_WORDS, 23) == 0x00000030
    ensures W(BLOCK_WORDS, 24) == 0x85898ec1
    ensures W(BLOCK_WORDS, 25) == 0x16263806
    ensures W(BLOCK_WORDS, 26) == 0x00000000
    ensures W(BLOCK_WORDS, 27) == 0x00000180
    ensures W(BLOCK_WORDS, 28) == 0x2c4c700c
    ensures W(BLOCK_WORDS, 29) == 0x000000f0
    ensures W(BLOCK_WORDS, 30) == 0x93afb507
    ensures W(BLOCK_WORDS, 31) == 0x5898e048
  {
    FirstWords();
    WordStep(BLOCK_WORDS, 16);
    WordStep(BLOCK_WORDS, 17);
    WordStep(BLOCK_WORDS, 18);
    WordStep(BLOCK_WORDS, 19);
    WordStep(BLOCK_WORDS, 20);
    WordStep(BLOCK_WORDS, 21);
    WordStep(BLOCK_WORDS, 22);
    WordStep(BLOCK_WORDS, 23);
    WordStep(BLOCK_WORDS, 24);
    WordStep(BLOCK_WORDS, 25);
    WordStep(BLOCK_WORDS, 26);
    WordStep(BLOCK_WORDS, 27);
    WordStep(BLOCK_WORDS, 28);
    WordStep(BLOCK_WORDS, 29);
    WordStep(BLOCK_WORDS, 30);
    WordStep(BLOCK_WORDS, 31);
    hide W;
  }

  lemma Words32()
    ensures W(BLOCK_WORDS, 32) == 0x8e9a9202
    ensures W(BLOCK_WORDS, 33) == 0x00000600
    ensures W(BLOCK_WORDS, 34) == 0xb131c0f0
    ensures W(BLOCK_WORDS, 35) == 0x16263bc6
    ensures W(BLOCK_WORDS, 36) == 0x4ebed41e
    ensures W(BLOCK_WORDS, 37) == 0x626380a1
    ensures W(BLOCK_WORDS, 38) == 0x16263806
    ensures W(BLOCK_WORDS, 39) == 0x000018c0
    ensures W(BLOCK_WORDS, 40) == 0xd2e138c4
    ensures W(BLOCK_WORDS, 41) == 0x00000f00
    ensures W(BLOCK_WORDS, 42) == 0x3afb5079
    ensures W(BLOCK_WORDS, 43) == 0x898e04e5
    ensures W(BLOCK_WORDS, 44) == 0xe2ba3c2b
    ensures W(BLOCK_WORDS, 45) == 0x000060c0
    ensures W(BLOCK_WORDS, 46) == 0x053a37cd
    ensures W(BLOCK_WORDS, 47) == 0x74458547
  {
    FirstWords();
    Words16();
    WordStep(BLOCK_WORDS, 32);
    WordStep(BLOCK_WORDS, 33);
    WordStep(BLOCK_WORDS, 34);
    WordStep(BLOCK_WORDS, 35);
    WordStep(BLOCK_WORDS, 36);
    WordStep(BLOCK_WORDS, 37);
    WordStep(BLOCK_WORDS, 38);
    WordStep(BLOCK_WORDS, 39);
    WordStep(BLOCK_WORDS, 40);
    WordStep(BLOCK_WORDS, 41);
    WordStep(BLOCK_WORDS, 42);
    WordStep(BLOCK_WORDS, 43);
    WordStep(BLOCK_WORDS, 44);
    WordStep(BLOCK_WORDS, 45);
    WordStep(BLOCK_WORDS, 46);
    WordStep(BLOCK_WORDS, 47);
    hide W;
  }

  lemma Words48()
    ensures W(BLOCK_WORDS, 48) == 0xda9415ed
    ensures W(BLOCK_WORDS, 49) == 0x26380a16
    ensures W(BLOCK_WORDS, 50) == 0x626383a1
    ensures W(BLOCK_WORDS, 51) == 0x4ebf54de
    ensures W(BLOCK_WORDS, 52) == 0x3835b44b
    ensures W(BLOCK_WORDS, 53) == 0x0000f600
    ensures W(BLOCK_WORDS, 54) == 0x1e84c7a3
    ensures W(BLOCK_WORDS, 55) == 0x98e04d98
    ensures W(BLOCK_WORDS, 56) == 0x651d16a0
    ensures W(BLOCK_WORDS, 57) == 0x62658ca1
    ensures W(BLOCK_WORDS, 58) == 0x458544d6
    ensures W(BLOCK_WORDS, 59) == 0x44584cb7
    ensures W(BLOCK_WORDS, 60) == 0x7ba06619
    ensures W(BLOCK_WORDS, 61) == 0x6380aea2
    ensures W(BLOCK_WORDS, 62) == 0x0ae55269
    ensures W(BLOCK_WORDS, 63) == 0x627b49a1
  {
    FirstWords();
    Words32();
    WordStep(BLOCK_WORDS, 48);
    WordStep(BLOCK_WORDS, 49);
    WordStep(BLOCK_WORDS, 50);
    WordStep(BLOCK_WORDS, 51);
    WordStep(BLOCK_WORDS, 52);
    WordStep(BLOCK_WORDS, 53);
    WordStep(BLOCK_WORDS, 54);
    WordStep(BLOCK_WORDS, 55);
    WordStep(BLOCK_WORDS, 56);
    WordStep(BLOCK_WORDS, 57);
    WordStep(BLOCK_WORDS, 58);
    WordStep(BLOCK_WORDS, 59);
    WordStep(BLOCK_WORDS, 60);
    WordStep(BLOCK_WORDS, 61);
    WordStep(BLOCK_WORDS, 62);
    WordStep(BLOCK_WORDS, 63);
    hide W;
  }

  lemma Words64()
    ensures W(BLOCK_WORDS, 64) == 0x7cd45c9d
    ensures W(BLOCK_WORDS, 65) == 0x000f0000
    ensures W(BLOCK_WORDS, 66) == 0xfb50753a
    ensures W(BLOCK_WORDS, 67) == 0xec6765e8
    ensures W(BLOCK_WORDS, 68) == 0xba3c2be2
    ensures W(BLOCK_WORDS, 69) == 0x0060c000
    ensures W(BLOCK_WORDS, 70) == 0x3a37cd05
    ensures W(BLOCK_WORDS, 71) == 0x458546f4
    ensures W(BLOCK_WORDS, 72) == 0xb8599dd6
    ensures W(BLOCK_WORDS, 73) == 0x380a1a26
    ensures W(BLOCK_WORDS, 74) == 0x01e02203
    ensures W(BLOCK_WORDS, 75) == 0xe7cc3456
    ensures W(BLOCK_WORDS, 76) == 0xe6e60b69
    ensures W(BLOCK_WORDS, 77) == 0x00f60a00
    ensures W(BLOCK_WORDS, 78) == 0x5795ef4f
    ensures W(BLOCK_WORDS, 79) == 0x822e0879
  {
    FirstWords();
    Words48();
    WordStep(BLOCK_WORDS, 64);
    WordStep(BLOCK_WORDS, 65);
    WordStep(BLOCK_WORDS, 66);
    WordStep(BLOCK_WORDS, 67);
    WordStep(BLOCK_WORDS, 68);
    WordStep(BLOCK_WORDS, 69);
    WordStep(BLOCK_WORDS, 70);
    WordStep(BLOCK_WORDS, 71);
    WordStep(BLOCK_WORDS, 72);
    WordStep(BLOCK_WORDS, 73);
    WordStep(BLOCK_WORDS, 74);
    WordStep(BLOCK_WORDS, 75);
    WordStep(BLOCK_WORDS, 76);
    WordStep(BLOCK_WORDS, 77);
    WordStep(BLOCK_WORDS, 78);
    WordStep(BLOCK_WORDS, 79);
    hide W;
  }

  lemma NoRound()
    ensures Rounds(H0, BLOCK_WORDS, 0) == H0
  {
  }

  /** One round more, of which only the first register is new. */
  lemma Next(t: nat, s: Regs, w: Word, a: Word) returns (r: Regs)
    requires Rounds(H0, BLOCK_WORDS, t) == s && W(BLOCK_WORDS, t) == w
    requires Sum5(Rol(s.a, 5), F(t, s.b, s.c, s.d), s.e, K(t), w) == a
    ensures r == Regs(a, s.a, Rol(s.b, 30), s.c, s.d) && Rounds(H0, BLOCK_WORDS, t + 1) == r
  {
    hide Rol, F, K, W, Sum5;
    r := Round(s, t, w);
  }


  lemma Rounds10() returns (s: Regs)
    ensures s == Regs(0x8351f929, 0x4b6ae328, 0x27a301f5, 0x664f8c30, 0x0ff1f290)
    ensures Rounds(H0, BLOCK_WORDS, 10) == s
  {
    NoRound();
    s := H0;
    FirstWords();
    hide Rounds, W;
    s := Next(0, s, 0x61626380, 0x0116fc33);
    s := Next(1, s, 0x00000000, 0x8990536d);
    s := Next(2, s, 0x00000000, 0xa1390f08);
    s := Next(3, s, 0x00000000, 0xcdd8e11b);
    s := Next(4, s, 0x00000000, 0xcfd499de);
    s := Next(5, s, 0x00000000, 0x3fc7ca40);
    s := Next(6, s, 0x00000000, 0x993e30c1);
    s := Next(7, s, 0x00000000, 0x9e8c07d4);
    s := Next(8, s, 0x00000000, 0x4b6ae328);
    s := Next(9, s, 0x00000000, 0x8351f929);
  }

  lemma Rounds20() returns (s: Regs)
    ensures s == Regs(0xfd9e1d7d, 0xdc64901d, 0x20aa99ca, 0xd3a49608, 0xc82f758b)
    ensures Rounds(H0, BLOCK_WORDS, 20) == s
  {
    s := Rounds10();
    FirstWords();
    Words16();
    hide Rounds, W;
    s := Next(10, s, 0x00000000, 0xfbda9e89);
    s := Next(11, s, 0x00000000, 0x63188fe4);
    s := Next(12, s, 0x00000000, 0x4607b664);
    s := Next(13, s, 0x00000000, 0x9128f695);
    s := Next(14, s, 0x00000000, 0x196bee77);
    s := Next(15, s, 0x00000018, 0x20bdd62f);
    s := Next(16, s, 0xc2c4c700, 0x4e925823);
    s := Next(17, s, 0x00000000, 0x82aa6728);
    s := Next(18, s, 0x00000030, 0xdc64901d);
    s := Next(19, s, 0x85898e01, 0xfd9e1d7d);
  }

  lemma Rounds30() returns (s: Regs)
    ensures s == Regs(0xc5fbaf5d, 0x8370b52e, 0xd2aa1365, 0x6f8d7ef5, 0x12104ee9)
    ensures Rounds(H0, BLOCK_WORDS, 30) == s
  {
    s := Rounds20();
    Words16();
    hide Rounds, W;
    s := Next(20, s, 0x00000000, 0x1a37b0ca);
    s := Next(21, s, 0x00000060, 0x33a23bfc);
    s := Next(22, s, 0x0b131c03, 0x21283486);
    s := Next(23, s, 0x00000030, 0xd541f12d);
    s := Next(24, s, 0x85898ec1, 0xc7567dc6);
    s := Next(25, s, 0x16263806, 0x48413ba4);
    s := Next(26, s, 0x00000000, 0xbe35fbd5);
    s := Next(27, s, 0x00000180, 0x4aa84d97);
    s := Next(28, s, 0x2c4c700c, 0x8370b52e);
    s := Next(29, s, 0x000000f0, 0xc5fbaf5d);
  }

  lemma Rounds40() returns (s: Regs)
    ensures s == Regs(0x32de1cba, 0x4c986405, 0xf718e5cf, 0x03d447f6, 0xf72eec32)
    ensures Rounds(H0, BLOCK_WORDS, 40) == s
  {
    s := Rounds30();
    Words16();
    Words32();
    hide Rounds, W;
    s := Next(30, s, 0x93afb507, 0x1267b407);
    s := Next(31, s, 0x5898e048, 0x3b845d33);
    s := Next(32, s, 0x8e9a9202, 0x046faa0a);
    s := Next(33, s, 0x00000600, 0x2c0ebc11);
    s := Next(34, s, 0xb131c0f0, 0x21796ad4);
    s := Next(35, s, 0x16263bc6, 0xdcbbb0cb);
    s := Next(36, s, 0x4ebed41e, 0x0f511fd8);
    s := Next(37, s, 0x626380a1, 0xdc63973f);
    s := Next(38, s, 0x16263806, 0x4c986405);
    s := Next(39, s, 0x000018c0, 0x32de1cba);
  }

  lemma Rounds50() returns (s: Regs)
    ensures s == Regs(0x120731c5, 0xbaf39337, 0xafab40b2, 0x2806e11b, 0x8714787c)
    ensures Rounds(H0, BLOCK_WORDS, 50) == s
  {
    s := Rounds40();
    Words32();
    Words48();
    hide Rounds, W;
    s := Next(40, s, 0xd2e138c4, 0xfc87dedf);
    s := Next(41, s, 0x00000f00, 0x970a0d5c);
    s := Next(42, s, 0x3afb5079, 0x7f193dc5);
    s := Next(43, s, 0x898e04e5, 0xee1b1aaf);
    s := Next(44, s, 0xe2ba3c2b, 0x40f28e09);
    s := Next(45, s, 0x000060c0, 0x1c51e1f2);
    s := Next(46, s, 0x053a37cd, 0xa01b846c);
    s := Next(47, s, 0x74458547, 0xbead02ca);
    s := Next(48, s, 0xda9415ed, 0xbaf39337);
    s := Next(49, s, 0x26380a16, 0x120731c5);
  }

  lemma Rounds60() returns (s: Regs)
    ensures s == Regs(0x3f52de5a, 0x09d785fd, 0x3498bfd4, 0xf211824f, 0xd79915ab)
    ensures Rounds(H0, BLOCK_WORDS, 60) == s
  {
    s := Rounds50();
    Words48();
    hide Rounds, W;
    s := Next(50, s, 0x626383a1, 0x641db2ce);
    s := Next(51, s, 0x4ebf54de, 0x3847ad66);
    s := Next(52, s, 0x3835b44b, 0xe490436d);
    s := Next(53, s, 0x0000f600, 0x27e9f1d8);
    s := Next(54, s, 0x1e84c7a3, 0x7b71f76d);
    s := Next(55, s, 0x98e04d98, 0x5e6456af);
    s := Next(56, s, 0x651d16a0, 0xc846093f);
    s := Next(57, s, 0x62658ca1, 0xd262ff50);
    s := Next(58, s, 0x458544d6, 0x09d785fd);
    s := Next(59, s, 0x44584cb7, 0x3f52de5a);
  }

  lemma Rounds70() returns (s: Regs)
    ensures s == Regs(0x3f2588c2, 0x497093c0, 0xde37534a, 0x030f7cad, 0x4405957e)
    ensures Rounds(H0, BLOCK_WORDS, 70) == s
  {
    s := Rounds60();
    Words48();
    Words64();
    hide Rounds, W;
    s := Next(60, s, 0x7ba06619, 0xd756c147);
    s := Next(61, s, 0x6380aea2, 0x548c9cb2);
    s := Next(62, s, 0x0ae55269, 0xb66c020b);
    s := Next(63, s, 0x627b49a1, 0x6b61c9e1);
    s := Next(64, s, 0x7cd45c9d, 0x19dfa7ac);
    s := Next(65, s, 0x000f0000, 0x101655f9);
    s := Next(66, s, 0xfb50753a, 0x0c3df2b4);
    s := Next(67, s, 0xec6765e8, 0x78dd4d2b);
    s := Next(68, s, 0xba3c2be2, 0x497093c0);
    s := Next(69, s, 0x0060c000, 0x3f2588c2);
  }

  lemma Rounds80() returns (s: Regs)
    ensures s == Regs(0x42541b35, 0x5738d5e1, 0x21834873, 0x681e6df6, 0xd8fdf6ad)
    ensures Rounds(H0, BLOCK_WORDS, 80) == s
  {
    s := Rounds70();
    Words64();
    hide Rounds, W;
    s := Next(70, s, 0x3a37cd05, 0xc199f8c7);
    s := Next(71, s, 0x458546f4, 0x39859de7);
    s := Next(72, s, 0xb8599dd6, 0xedb42de4);
    s := Next(73, s, 0x380a1a26, 0x11793f6f);
    s := Next(74, s, 0x01e02203, 0x5ee76897);
    s := Next(75, s, 0xe7cc3456, 0x63f7dab7);
    s := Next(76, s, 0xe6e60b69, 0xa079b7d9);
    s := Next(77, s, 0x00f60a00, 0x860d21cc);
    s := Next(78, s, 0x5795ef4f, 0x5738d5e1);
    s := Next(79, s, 0x822e0879, 0x42541b35);
  }

  lemma PaddedAbc(block: seq<Byte>)
    requires block == Padded(ABC)
    ensures |block| == BLOCK && block[..4] == [0x61, 0x62, 0x63, 0x80]
    ensures (forall i :: 4 <= i < 63 ==> block[i] == 0) && block[63] == 24
  {
    Lengths();
    assert ZeroCount(3) == 52;
    assert block == ABC + [0x80] + Zeros(52) + Length64(24);
  }

  lemma Lengths()
    ensures Length64(24) == [0, 0, 0, 0, 0, 0, 0, 24]
  {
    assert Shr(24, 0) == 24 && Shr(24, 1) == 0;
    ShrNothing(1);
    ShrNothing(2);
    ShrNothing(3);
    ShrNothing(4);
    ShrNothing(5);
    ShrNothing(6);
    assert forall k :: 1 <= k <= 7 ==> Shr(24, k) == Shr(0, k - 1);
  }

  lemma {:induction false} ShrNothing(k: nat)
    ensures Shr(0, k) == 0
  {
    if k > 0 {
      ShrNothing(k - 1);
    }
  }

  lemma WordsOfAbc(block: seq<Byte>)
    requires block == Padded(ABC)
    ensures |block| == BLOCK && Words(block) == BLOCK_WORDS
  {
    PaddedAbc(block);
    hide Padded;
    var m := Words(block);
    assert m[0] == BigEndian(block[..4][0], block[..4][1], block[..4][2], block[..4][3]) == 0x61626380;
    assert m[15] == BigEndian(block[60], block[61], block[62], block[63]) == 24;
    forall i | 1 <= i < 15
      ensures m[i] == 0
    {
      assert m[i] == BigEndian(block[4 * i], block[4 * i + 1], block[4 * i + 2], block[4 * i + 3]);
    }
    assert m == BLOCK_WORDS;
  }

  lemma OneBlockOnly(block: seq<Byte>)
    requires |block| == BLOCK
    ensures Process(H0, block) == Compress(H0, block)
  {
    assert block[..BLOCK] == block && block[BLOCK..] == [];
  }

  lemma DigestWords()
    ensures Process(H0, Padded(ABC)) == Regs(0xa9993e36, 0x4706816a, 0xba3e2571, 0x7850c26c, 0x9cd0d89d)
  {
    var block := Padded(ABC);
    WordsOfAbc(block);
    var r := Rounds80();
    OneBlockOnly(block);
    hide Rounds, Padded, Words, W, Process;
    assert AddRegs(H0, r) == Regs(0xa9993e36, 0x4706816a, 0xba3e2571, 0x7850c26c, 0x9cd0d89d);
  }

  lemma DigestBytes()
    ensures BytesOf(0xa9993e36) == [0xa9, 0x99, 0x3e, 0x36]
    ensures BytesOf(0x4706816a) == [0x47, 0x06, 0x81, 0x6a]
    ensures BytesOf(0xba3e2571) == [0xba, 0x3e, 0x25, 0x71]
    ensures BytesOf(0x7850c26c) == [0x78, 0x50, 0xc2, 0x6c]
    ensures BytesOf(0x9cd0d89d) == [0x9c, 0xd0, 0xd8, 0x9d]
  {
  }

  /** The digest that the standard and the repository's test give for "abc". */
  lemma Digest()
    ensures S.Sha1(ABC) ==
            [0xa9, 0x99, 0x3e, 0x36, 0x47, 0x06, 0x81, 0x6a, 0xba, 0x3e,
             0x25, 0x71, 0x78, 0x50, 0xc2, 0x6c, 0x9c, 0xd0, 0xd8, 0x9d]
  {
    DigestWords();
    DigestBytes();
    hide Padded, Process, BytesOf;
  }

  /** And the program computes it, whatever the pieces. */
  method HashAbc(pieces: seq<seq<Byte>>) returns (digest: seq<Byte>)
    requires Joined(pieces) == ABC && forall i :: 0 <= i < |pieces| ==> |pieces[i]| < 0x2000_0000
    ensures digest ==
            [0xa9, 0x99, 0x3e, 0x36, 0x47, 0x06, 0x81, 0x6a, 0xba, 0x3e,
             0x25, 0x71, 0x78, 0x50, 0xc2, 0x6c, 0x9c, 0xd0, 0xd8, 0x9d]
  {
    Digest();
    hide S.Sha1;
    digest := Hash(pieces);
  }
}
