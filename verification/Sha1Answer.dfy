// The known answer of SHA-1: the digest of "abc", round by round.
module Sha1Answer {
  import opened Sha1

  const ABC: seq<byte> := [0x61, 0x62, 0x63]

  // The one block that "abc" is padded to.
  const BLOCK: seq<word> := [0x61626380, 0, 0, 0, 0, 0, 0, 0, 0, 0, 0, 0, 0, 0, 0, 0x18]

  // Eight words of the schedule.
  predicate Row(t: nat, a: word, b: word, c: word, d: word, e: word, f: word, g: word, h: word) {
    && Schedule(BLOCK, t) == a && Schedule(BLOCK, t + 1) == b && Schedule(BLOCK, t + 2) == c
    && Schedule(BLOCK, t + 3) == d && Schedule(BLOCK, t + 4) == e && Schedule(BLOCK, t + 5) == f
    && Schedule(BLOCK, t + 6) == g && Schedule(BLOCK, t + 7) == h
  }

  lemma NextWord(t: nat)
    requires 16 <= t
    ensures Schedule(BLOCK, t) == Rotl1(Xor4(Schedule(BLOCK, t - 3), Schedule(BLOCK, t - 8),
                                             Schedule(BLOCK, t - 14), Schedule(BLOCK, t - 16)))
  {
  }

  lemma FirstWords()
    ensures Row(0, 0x61626380, 0, 0, 0, 0, 0, 0, 0) && Row(8, 0, 0, 0, 0, 0, 0, 0, 0x18)
  {
  }

  lemma Words16()
    ensures Row(16, 0xc2c4c700, 0x00000000, 0x00000030, 0x85898e01,
                0x00000000, 0x00000060, 0x0b131c03, 0x00000030)
  {
    hide Schedule;
    FirstWords();
    NextWord(16); NextWord(17); NextWord(18); NextWord(19);
    NextWord(20); NextWord(21); NextWord(22); NextWord(23);
  }

  lemma Words24()
    ensures Row(24, 0x85898ec1, 0x16263806, 0x00000000, 0x00000180,
                0x2c4c700c, 0x000000f0, 0x93afb507, 0x5898e048)
  {
    hide Schedule;
    Words16();
    FirstWords();
    NextWord(24); NextWord(25); NextWord(26); NextWord(27);
    NextWord(28); NextWord(29); NextWord(30); NextWord(31);
  }

  lemma Words32()
    ensures Row(32, 0x8e9a9202, 0x00000600, 0xb131c0f0, 0x16263bc6,
                0x4ebed41e, 0x626380a1, 0x16263806, 0x000018c0)
  {
    hide Schedule;
    Words24();
    Words16();
    NextWord(32); NextWord(33); NextWord(34); NextWord(35);
    NextWord(36); NextWord(37); NextWord(38); NextWord(39);
  }

  lemma Words40()
    ensures Row(40, 0xd2e138c4, 0x00000f00, 0x3afb5079, 0x898e04e5,
                0xe2ba3c2b, 0x000060c0, 0x053a37cd, 0x74458547)
  {
    hide Schedule;
    Words32();
    Words24();
    NextWord(40); NextWord(41); NextWord(42); NextWord(43);
    NextWord(44); NextWord(45); NextWord(46); NextWord(47);
  }

  lemma Words48()
    ensures Row(48, 0xda9415ed, 0x26380a16, 0x626383a1, 0x4ebf54de,
                0x3835b44b, 0x0000f600, 0x1e84c7a3, 0x98e04d98)
  {
    hide Schedule;
    Words40();
    Words32();
    NextWord(48); NextWord(49); NextWord(50); NextWord(51);
    NextWord(52); NextWord(53); NextWord(54); NextWord(55);
  }

  lemma Words56()
    ensures Row(56, 0x651d16a0, 0x62658ca1, 0x458544d6, 0x44584cb7,
                0x7ba06619, 0x6380aea2, 0x0ae55269, 0x627b49a1)
  {
    hide Schedule;
    Words48();
    Words40();
    NextWord(56); NextWord(57); NextWord(58); NextWord(59);
    NextWord(60); NextWord(61); NextWord(62); NextWord(63);
  }

  lemma Words64()
    ensures Row(64, 0x7cd45c9d, 0x000f0000, 0xfb50753a, 0xec6765e8,
                0xba3c2be2, 0x0060c000, 0x3a37cd05, 0x458546f4)
  {
    hide Schedule;
    Words56();
    Words48();
    NextWord(64); NextWord(65); NextWord(66); NextWord(67);
    NextWord(68); NextWord(69); NextWord(70); NextWord(71);
  }

  lemma Words72()
    ensures Row(72, 0xb8599dd6, 0x380a1a26, 0x01e02203, 0xe7cc3456,
                0xe6e60b69, 0x00f60a00, 0x5795ef4f, 0x822e0879)
  {
    hide Schedule;
    Words64();
    Words56();
    NextWord(72); NextWord(73); NextWord(74); NextWord(75);
    NextWord(76); NextWord(77); NextWord(78); NextWord(79);
  }

  // The state after some rounds.
  predicate State(t: nat, a: word, b: word, c: word, d: word, e: word) {
    Rounds(INITIAL, BLOCK, t) == Hash(a, b, c, d, e)
  }

  // One more round, checked on numbers.
  lemma Next(t: nat, h: Hash, w: word, a: word, c: word)
    requires Rounds(INITIAL, BLOCK, t) == h && Schedule(BLOCK, t) == w
    requires Sum(Rotl5(h.a), F(t, h.b, h.c, h.d), h.e, K(t), w) == a && Rotl30(h.b) == c
    ensures State(t + 1, a, h.a, c, h.c, h.d)
  {
  }

  lemma Start()
    ensures State(0, 0x67452301, 0xefcdab89, 0x98badcfe, 0x10325476, 0xc3d2e1f0)
  {
  }

  lemma Rounds8()
    ensures State(8, 0x9e8c07d4, 0x993e30c1, 0x0ff1f290, 0xb3f52677, 0xf3763846)
  {
    hide Schedule, Rounds;
    FirstWords();
    Start();
    Next(0, Hash(0x67452301, 0xefcdab89, 0x98badcfe, 0x10325476, 0xc3d2e1f0), 0x61626380, 0x0116fc33, 0x7bf36ae2);
    Next(1, Hash(0x0116fc33, 0x67452301, 0x7bf36ae2, 0x98badcfe, 0x10325476), 0x00000000, 0x8990536d, 0x59d148c0);
    Next(2, Hash(0x8990536d, 0x0116fc33, 0x59d148c0, 0x7bf36ae2, 0x98badcfe), 0x00000000, 0xa1390f08, 0xc045bf0c);
    Next(3, Hash(0xa1390f08, 0x8990536d, 0xc045bf0c, 0x59d148c0, 0x7bf36ae2), 0x00000000, 0xcdd8e11b, 0x626414db);
    Next(4, Hash(0xcdd8e11b, 0xa1390f08, 0x626414db, 0xc045bf0c, 0x59d148c0), 0x00000000, 0xcfd499de, 0x284e43c2);
    Next(5, Hash(0xcfd499de, 0xcdd8e11b, 0x284e43c2, 0x626414db, 0xc045bf0c), 0x00000000, 0x3fc7ca40, 0xf3763846);
    Next(6, Hash(0x3fc7ca40, 0xcfd499de, 0xf3763846, 0x284e43c2, 0x626414db), 0x00000000, 0x993e30c1, 0xb3f52677);
    Next(7, Hash(0x993e30c1, 0x3fc7ca40, 0xb3f52677, 0xf3763846, 0x284e43c2), 0x00000000, 0x9e8c07d4, 0x0ff1f290);
  }

  lemma Rounds16()
    ensures State(16, 0x20bdd62f, 0x196bee77, 0x644a3da5, 0x1181ed99, 0x18c623f9)
  {
    hide Schedule, Rounds;
    Rounds8();
    FirstWords();
    Next(8, Hash(0x9e8c07d4, 0x993e30c1, 0x0ff1f290, 0xb3f52677, 0xf3763846), 0x00000000, 0x4b6ae328, 0x664f8c30);
    Next(9, Hash(0x4b6ae328, 0x9e8c07d4, 0x664f8c30, 0x0ff1f290, 0xb3f52677), 0x00000000, 0x8351f929, 0x27a301f5);
    Next(10, Hash(0x8351f929, 0x4b6ae328, 0x27a301f5, 0x664f8c30, 0x0ff1f290), 0x00000000, 0xfbda9e89, 0x12dab8ca);
    Next(11, Hash(0xfbda9e89, 0x8351f929, 0x12dab8ca, 0x27a301f5, 0x664f8c30), 0x00000000, 0x63188fe4, 0x60d47e4a);
    Next(12, Hash(0x63188fe4, 0xfbda9e89, 0x60d47e4a, 0x12dab8ca, 0x27a301f5), 0x00000000, 0x4607b664, 0x7ef6a7a2);
    Next(13, Hash(0x4607b664, 0x63188fe4, 0x7ef6a7a2, 0x60d47e4a, 0x12dab8ca), 0x00000000, 0x9128f695, 0x18c623f9);
    Next(14, Hash(0x9128f695, 0x4607b664, 0x18c623f9, 0x7ef6a7a2, 0x60d47e4a), 0x00000000, 0x196bee77, 0x1181ed99);
    Next(15, Hash(0x196bee77, 0x9128f695, 0x1181ed99, 0x18c623f9, 0x7ef6a7a2), 0x00000018, 0x20bdd62f, 0x644a3da5);
  }

  lemma Rounds24()
    ensures State(24, 0xd541f12d, 0x21283486, 0x0ce88eff, 0x868dec32, 0x7f67875f)
  {
    hide Schedule, Rounds;
    Rounds16();
    Words16();
    Next(16, Hash(0x20bdd62f, 0x196bee77, 0x644a3da5, 0x1181ed99, 0x18c623f9), 0xc2c4c700, 0x4e925823, 0xc65afb9d);
    Next(17, Hash(0x4e925823, 0x20bdd62f, 0xc65afb9d, 0x644a3da5, 0x1181ed99), 0x00000000, 0x82aa6728, 0xc82f758b);
    Next(18, Hash(0x82aa6728, 0x4e925823, 0xc82f758b, 0xc65afb9d, 0x644a3da5), 0x00000030, 0xdc64901d, 0xd3a49608);
    Next(19, Hash(0xdc64901d, 0x82aa6728, 0xd3a49608, 0xc82f758b, 0xc65afb9d), 0x85898e01, 0xfd9e1d7d, 0x20aa99ca);
    Next(20, Hash(0xfd9e1d7d, 0xdc64901d, 0x20aa99ca, 0xd3a49608, 0xc82f758b), 0x00000000, 0x1a37b0ca, 0x77192407);
    Next(21, Hash(0x1a37b0ca, 0xfd9e1d7d, 0x77192407, 0x20aa99ca, 0xd3a49608), 0x00000060, 0x33a23bfc, 0x7f67875f);
    Next(22, Hash(0x33a23bfc, 0x1a37b0ca, 0x7f67875f, 0x77192407, 0x20aa99ca), 0x0b131c03, 0x21283486, 0x868dec32);
    Next(23, Hash(0x21283486, 0x33a23bfc, 0x868dec32, 0x7f67875f, 0x77192407), 0x00000030, 0xd541f12d, 0x0ce88eff);
  }

  lemma Rounds32()
    ensures State(32, 0x3b845d33, 0x1267b407, 0x717eebd7, 0xa0dc2d4b, 0xd2aa1365)
  {
    hide Schedule, Rounds;
    Rounds24();
    Words24();
    Next(24, Hash(0xd541f12d, 0x21283486, 0x0ce88eff, 0x868dec32, 0x7f67875f), 0x85898ec1, 0xc7567dc6, 0x884a0d21);
    Next(25, Hash(0xc7567dc6, 0xd541f12d, 0x884a0d21, 0x0ce88eff, 0x868dec32), 0x16263806, 0x48413ba4, 0x75507c4b);
    Next(26, Hash(0x48413ba4, 0xc7567dc6, 0x75507c4b, 0x884a0d21, 0x0ce88eff), 0x00000000, 0xbe35fbd5, 0xb1d59f71);
    Next(27, Hash(0xbe35fbd5, 0x48413ba4, 0xb1d59f71, 0x75507c4b, 0x884a0d21), 0x00000180, 0x4aa84d97, 0x12104ee9);
    Next(28, Hash(0x4aa84d97, 0xbe35fbd5, 0x12104ee9, 0xb1d59f71, 0x75507c4b), 0x2c4c700c, 0x8370b52e, 0x6f8d7ef5);
    Next(29, Hash(0x8370b52e, 0x4aa84d97, 0x6f8d7ef5, 0x12104ee9, 0xb1d59f71), 0x000000f0, 0xc5fbaf5d, 0xd2aa1365);
    Next(30, Hash(0xc5fbaf5d, 0x8370b52e, 0xd2aa1365, 0x6f8d7ef5, 0x12104ee9), 0x93afb507, 0x1267b407, 0xa0dc2d4b);
    Next(31, Hash(0x1267b407, 0xc5fbaf5d, 0xa0dc2d4b, 0xd2aa1365, 0x6f8d7ef5), 0x5898e048, 0x3b845d33, 0x717eebd7);
  }

  lemma Rounds40()
    ensures State(40, 0x32de1cba, 0x4c986405, 0xf718e5cf, 0x03d447f6, 0xf72eec32)
  {
    hide Schedule, Rounds;
    Rounds32();
    Words32();
    Next(32, Hash(0x3b845d33, 0x1267b407, 0x717eebd7, 0xa0dc2d4b, 0xd2aa1365), 0x8e9a9202, 0x046faa0a, 0xc499ed01);
    Next(33, Hash(0x046faa0a, 0x3b845d33, 0xc499ed01, 0x717eebd7, 0xa0dc2d4b), 0x00000600, 0x2c0ebc11, 0xcee1174c);
    Next(34, Hash(0x2c0ebc11, 0x046faa0a, 0xcee1174c, 0xc499ed01, 0x717eebd7), 0xb131c0f0, 0x21796ad4, 0x811bea82);
    Next(35, Hash(0x21796ad4, 0x2c0ebc11, 0x811bea82, 0xcee1174c, 0xc499ed01), 0x16263bc6, 0xdcbbb0cb, 0x4b03af04);
    Next(36, Hash(0xdcbbb0cb, 0x21796ad4, 0x4b03af04, 0x811bea82, 0xcee1174c), 0x4ebed41e, 0x0f511fd8, 0x085e5ab5);
    Next(37, Hash(0x0f511fd8, 0xdcbbb0cb, 0x085e5ab5, 0x4b03af04, 0x811bea82), 0x626380a1, 0xdc63973f, 0xf72eec32);
    Next(38, Hash(0xdc63973f, 0x0f511fd8, 0xf72eec32, 0x085e5ab5, 0x4b03af04), 0x16263806, 0x4c986405, 0x03d447f6);
    Next(39, Hash(0x4c986405, 0xdc63973f, 0x03d447f6, 0xf72eec32, 0x085e5ab5), 0x000018c0, 0x32de1cba, 0xf718e5cf);
  }

  lemma Rounds48()
    ensures State(48, 0xbead02ca, 0xa01b846c, 0x8714787c, 0x503ca382, 0xfb86c6ab)
  {
    hide Schedule, Rounds;
    Rounds40();
    Words40();
    Next(40, Hash(0x32de1cba, 0x4c986405, 0xf718e5cf, 0x03d447f6, 0xf72eec32), 0xd2e138c4, 0xfc87dedf, 0x53261901);
    Next(41, Hash(0xfc87dedf, 0x32de1cba, 0x53261901, 0xf718e5cf, 0x03d447f6), 0x00000f00, 0x970a0d5c, 0x8cb7872e);
    Next(42, Hash(0x970a0d5c, 0xfc87dedf, 0x8cb7872e, 0x53261901, 0xf718e5cf), 0x3afb5079, 0x7f193dc5, 0xff21f7b7);
    Next(43, Hash(0x7f193dc5, 0x970a0d5c, 0xff21f7b7, 0x8cb7872e, 0x53261901), 0x898e04e5, 0xee1b1aaf, 0x25c28357);
    Next(44, Hash(0xee1b1aaf, 0x7f193dc5, 0x25c28357, 0xff21f7b7, 0x8cb7872e), 0xe2ba3c2b, 0x40f28e09, 0x5fc64f71);
    Next(45, Hash(0x40f28e09, 0xee1b1aaf, 0x5fc64f71, 0x25c28357, 0xff21f7b7), 0x000060c0, 0x1c51e1f2, 0xfb86c6ab);
    Next(46, Hash(0x1c51e1f2, 0x40f28e09, 0xfb86c6ab, 0x5fc64f71, 0x25c28357), 0x053a37cd, 0xa01b846c, 0x503ca382);
    Next(47, Hash(0xa01b846c, 0x1c51e1f2, 0x503ca382, 0xfb86c6ab, 0x5fc64f71), 0x74458547, 0xbead02ca, 0x8714787c);
  }

  lemma Rounds56()
    ensures State(56, 0x5e6456af, 0x7b71f76d, 0x09fa7c76, 0x792410db, 0x8e11eb59)
  {
    hide Schedule, Rounds;
    Rounds48();
    Words48();
    Next(48, Hash(0xbead02ca, 0xa01b846c, 0x8714787c, 0x503ca382, 0xfb86c6ab), 0xda9415ed, 0xbaf39337, 0x2806e11b);
    Next(49, Hash(0xbaf39337, 0xbead02ca, 0x2806e11b, 0x8714787c, 0x503ca382), 0x26380a16, 0x120731c5, 0xafab40b2);
    Next(50, Hash(0x120731c5, 0xbaf39337, 0xafab40b2, 0x2806e11b, 0x8714787c), 0x626383a1, 0x641db2ce, 0xeebce4cd);
    Next(51, Hash(0x641db2ce, 0x120731c5, 0xeebce4cd, 0xafab40b2, 0x2806e11b), 0x4ebf54de, 0x3847ad66, 0x4481cc71);
    Next(52, Hash(0x3847ad66, 0x641db2ce, 0x4481cc71, 0xeebce4cd, 0xafab40b2), 0x3835b44b, 0xe490436d, 0x99076cb3);
    Next(53, Hash(0xe490436d, 0x3847ad66, 0x99076cb3, 0x4481cc71, 0xeebce4cd), 0x0000f600, 0x27e9f1d8, 0x8e11eb59);
    Next(54, Hash(0x27e9f1d8, 0xe490436d, 0x8e11eb59, 0x99076cb3, 0x4481cc71), 0x1e84c7a3, 0x7b71f76d, 0x792410db);
    Next(55, Hash(0x7b71f76d, 0x27e9f1d8, 0x792410db, 0x8e11eb59, 0x99076cb3), 0x98e04d98, 0x5e6456af, 0x09fa7c76);
  }

  lemma Rounds64()
    ensures State(64, 0x6b61c9e1, 0xb66c020b, 0x9523272c, 0xf5d5b051, 0x8fd4b796)
  {
    hide Schedule, Rounds;
    Rounds56();
    Words56();
    Next(56, Hash(0x5e6456af, 0x7b71f76d, 0x09fa7c76, 0x792410db, 0x8e11eb59), 0x651d16a0, 0xc846093f, 0x5edc7ddb);
    Next(57, Hash(0xc846093f, 0x5e6456af, 0x5edc7ddb, 0x09fa7c76, 0x792410db), 0x62658ca1, 0xd262ff50, 0xd79915ab);
    Next(58, Hash(0xd262ff50, 0xc846093f, 0xd79915ab, 0x5edc7ddb, 0x09fa7c76), 0x458544d6, 0x09d785fd, 0xf211824f);
    Next(59, Hash(0x09d785fd, 0xd262ff50, 0xf211824f, 0xd79915ab, 0x5edc7ddb), 0x44584cb7, 0x3f52de5a, 0x3498bfd4);
    Next(60, Hash(0x3f52de5a, 0x09d785fd, 0x3498bfd4, 0xf211824f, 0xd79915ab), 0x7ba06619, 0xd756c147, 0x4275e17f);
    Next(61, Hash(0xd756c147, 0x3f52de5a, 0x4275e17f, 0x3498bfd4, 0xf211824f), 0x6380aea2, 0x548c9cb2, 0x8fd4b796);
    Next(62, Hash(0x548c9cb2, 0xd756c147, 0x8fd4b796, 0x4275e17f, 0x3498bfd4), 0x0ae55269, 0xb66c020b, 0xf5d5b051);
    Next(63, Hash(0xb66c020b, 0x548c9cb2, 0xf5d5b051, 0x8fd4b796, 0x4275e17f), 0x627b49a1, 0x6b61c9e1, 0x9523272c);
  }

  lemma Rounds72()
    ensures State(72, 0x39859de7, 0xc199f8c7, 0x8fc96230, 0x125c24f0, 0xde37534a)
  {
    hide Schedule, Rounds;
    Rounds64();
    Words64();
    Next(64, Hash(0x6b61c9e1, 0xb66c020b, 0x9523272c, 0xf5d5b051, 0x8fd4b796), 0x7cd45c9d, 0x19dfa7ac, 0xed9b0082);
    Next(65, Hash(0x19dfa7ac, 0x6b61c9e1, 0xed9b0082, 0x9523272c, 0xf5d5b051), 0x000f0000, 0x101655f9, 0x5ad87278);
    Next(66, Hash(0x101655f9, 0x19dfa7ac, 0x5ad87278, 0xed9b0082, 0x9523272c), 0xfb50753a, 0x0c3df2b4, 0x0677e9eb);
    Next(67, Hash(0x0c3df2b4, 0x101655f9, 0x0677e9eb, 0x5ad87278, 0xed9b0082), 0xec6765e8, 0x78dd4d2b, 0x4405957e);
    Next(68, Hash(0x78dd4d2b, 0x0c3df2b4, 0x4405957e, 0x0677e9eb, 0x5ad87278), 0xba3c2be2, 0x497093c0, 0x030f7cad);
    Next(69, Hash(0x497093c0, 0x78dd4d2b, 0x030f7cad, 0x4405957e, 0x0677e9eb), 0x0060c000, 0x3f2588c2, 0xde37534a);
    Next(70, Hash(0x3f2588c2, 0x497093c0, 0xde37534a, 0x030f7cad, 0x4405957e), 0x3a37cd05, 0xc199f8c7, 0x125c24f0);
    Next(71, Hash(0xc199f8c7, 0x3f2588c2, 0x125c24f0, 0xde37534a, 0x030f7cad), 0x458546f4, 0x39859de7, 0x8fc96230);
  }

  lemma Rounds80()
    ensures State(80, 0x42541b35, 0x5738d5e1, 0x21834873, 0x681e6df6, 0xd8fdf6ad)
  {
    hide Schedule, Rounds;
    Rounds72();
    Words72();
    Next(72, Hash(0x39859de7, 0xc199f8c7, 0x8fc96230, 0x125c24f0, 0xde37534a), 0xb8599dd6, 0xedb42de4, 0xf0667e31);
    Next(73, Hash(0xedb42de4, 0x39859de7, 0xf0667e31, 0x8fc96230, 0x125c24f0), 0x380a1a26, 0x11793f6f, 0xce616779);
    Next(74, Hash(0x11793f6f, 0xedb42de4, 0xce616779, 0xf0667e31, 0x8fc96230), 0x01e02203, 0x5ee76897, 0x3b6d0b79);
    Next(75, Hash(0x5ee76897, 0x11793f6f, 0x3b6d0b79, 0xce616779, 0xf0667e31), 0xe7cc3456, 0x63f7dab7, 0xc45e4fdb);
    Next(76, Hash(0x63f7dab7, 0x5ee76897, 0xc45e4fdb, 0x3b6d0b79, 0xce616779), 0xe6e60b69, 0xa079b7d9, 0xd7b9da25);
    Next(77, Hash(0xa079b7d9, 0x63f7dab7, 0xd7b9da25, 0xc45e4fdb, 0x3b6d0b79), 0x00f60a00, 0x860d21cc, 0xd8fdf6ad);
    Next(78, Hash(0x860d21cc, 0xa079b7d9, 0xd8fdf6ad, 0xd7b9da25, 0xc45e4fdb), 0x5795ef4f, 0x5738d5e1, 0x681e6df6);
    Next(79, Hash(0x5738d5e1, 0x860d21cc, 0x681e6df6, 0xd8fdf6ad, 0xd7b9da25), 0x822e0879, 0x42541b35, 0x21834873);
  }

  lemma {:induction false} AllZero(n: nat)
    ensures forall i :: 0 <= i < n ==> Zeros(n)[i] == 0
  {
    if n > 0 {
      AllZero(n - 1);
    }
  }

  lemma Padded()
    ensures |Pad(ABC)| == 64 && Block(Pad(ABC)) == BLOCK
  {
    hide Pad, Block;
    PaddedBytes();
    BlockWords(Pad(ABC));
  }

  lemma PaddedBytes()
    ensures var p := Pad(ABC);
            && |p| == 64 && p[0] == 0x61 && p[1] == 0x62 && p[2] == 0x63 && p[3] == 0x80 && p[63] == 0x18
            && forall i :: 4 <= i < 63 ==> p[i] == 0
  {
    hide Zeros, LengthBytes;
    AllZero(52);
    LengthOfAbc();
    assert Pad(ABC) == ABC + [0x80] + Zeros(52) + [0, 0, 0, 0, 0, 0, 0, 0x18];
  }

  lemma LengthOfAbc()
    ensures LengthBytes(3) == [0, 0, 0, 0, 0, 0, 0, 0x18]
  {
    hide ByteOf;
    assert 8 * 3 % 0x1_0000_0000_0000_0000 == 24;
    assert LengthBytes(3) == [ByteOf(0), ByteOf(0), ByteOf(0), ByteOf(0), ByteOf(0), ByteOf(0), ByteOf(0), ByteOf(24)];
    TwoBytes();
  }

  lemma TwoBytes()
    ensures ByteOf(0) == 0 && ByteOf(24) == 0x18
  {
  }

  lemma BlockWords(p: seq<byte>)
    requires |p| == 64 && p[0] == 0x61 && p[1] == 0x62 && p[2] == 0x63 && p[3] == 0x80 && p[63] == 0x18
    requires forall i :: 4 <= i < 63 ==> p[i] == 0
    ensures Block(p) == BLOCK
  {
    hide Word;
    WordsOfBlock();
    forall j | 0 <= j < 16 ensures Block(p)[j] == BLOCK[j] {
      if 0 < j < 15 {
        assert Block(p)[j] == Word(0, 0, 0, 0);
        assert BLOCK[j] == 0;
      }
    }
  }

  lemma WordsOfBlock()
    ensures Word(0x61, 0x62, 0x63, 0x80) == 0x61626380 && Word(0, 0, 0, 0x18) == 0x18
    ensures Word(0, 0, 0, 0) == 0
  {
  }

  lemma Compressed()
    ensures Compress(INITIAL, BLOCK) == Hash(0xa9993e36, 0x4706816a, 0xba3e2571, 0x7850c26c, 0x9cd0d89d)
  {
    hide Rounds;
    Rounds80();
  }

  // The example of FIPS 180-4: the digest of "abc" is a9993e36 4706816a ba3e2571 7850c26c 9cd0d89d.
  lemma KnownAnswer()
    ensures Digest(ABC) == [
              0xa9, 0x99, 0x3e, 0x36, 0x47, 0x06, 0x81, 0x6a, 0xba, 0x3e,
              0x25, 0x71, 0x78, 0x50, 0xc2, 0x6c, 0x9c, 0xd0, 0xd8, 0x9d]
  {
    hide Compress, Block, Pad;
    Padded();
    Compressed();
    var p := Pad(ABC);
    assert p[..0] == [] && p[0..] == p;
    assert HashBlocks(p) == Compress(HashBlocks(p[..0]), Block(p[0..]));
  }
}
