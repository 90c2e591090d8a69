/** The digest of the empty message in section A.5 of RFC 1321, computed from the specification. */
module Md5Values {
  import opened Basics
  import opened Codec
  import opened Md5Spec
  import opened Md5Code
  import opened Md5Text

  // The words of the one padded block.
  function EmptyWords(): (x: seq<bv32>)
    ensures |x| == 16 && x[0] == 0x80 && forall k :: 0 < k < 16 ==> x[k] == 0
  {
    [0x80, 0, 0, 0, 0, 0, 0, 0, 0, 0, 0, 0, 0, 0, 0, 0]
  }

  // The words that round 1 makes, one by one.
  lemma EmptyMixes1()
    ensures Mix(F(0xefcdab89, 0x98badcfe, 0x10325476), 0x67452301, 0xefcdab89, 0x80, 7, 0xd76aa478) == 0xa5202774
    ensures Mix(F(0xa5202774, 0xefcdab89, 0x98badcfe), 0x10325476, 0xa5202774, 0, 12, 0xe8c7b756) == 0xf59592dd
    ensures Mix(F(0xf59592dd, 0xa5202774, 0xefcdab89), 0x98badcfe, 0xf59592dd, 0, 17, 0x242070db) == 0xe7f06b23
    ensures Mix(F(0xe7f06b23, 0xf59592dd, 0xa5202774), 0xefcdab89, 0xe7f06b23, 0, 22, 0xc1bdceee) == 0x1b163203
    ensures Mix(F(0x1b163203, 0xe7f06b23, 0xf59592dd), 0xa5202774, 0x1b163203, 0, 7, 0xf57c0faf) == 0x32033344
    ensures Mix(F(0x32033344, 0x1b163203, 0xe7f06b23), 0xf59592dd, 0x32033344, 0, 12, 0x4787c62a) == 0x2f35d494
    ensures Mix(F(0x2f35d494, 0x32033344, 0x1b163203), 0xe7f06b23, 0x2f35d494, 0, 17, 0xa8304613) == 0xf5b158db
    ensures Mix(F(0xf5b158db, 0x2f35d494, 0x32033344), 0x1b163203, 0xf5b158db, 0, 22, 0xfd469501) == 0x9bc13ce9
    ensures Mix(F(0x9bc13ce9, 0xf5b158db, 0x2f35d494), 0x32033344, 0x9bc13ce9, 0, 7, 0x698098d8) == 0x3893b991
    ensures Mix(F(0x3893b991, 0x9bc13ce9, 0xf5b158db), 0x2f35d494, 0x3893b991, 0, 12, 0x8b44f7af) == 0xfce4a312
    ensures Mix(F(0xfce4a312, 0x3893b991, 0x9bc13ce9), 0xf5b158db, 0xfce4a312, 0, 17, 0xffff5bb1) == 0xe1ef0576
    ensures Mix(F(0xe1ef0576, 0xfce4a312, 0x3893b991), 0x9bc13ce9, 0xe1ef0576, 0, 22, 0x895cd7be) == 0x70768a29
    ensures Mix(F(0x70768a29, 0xe1ef0576, 0xfce4a312), 0x3893b991, 0x70768a29, 0, 7, 0x6b901122) == 0xf56c7cf1
    ensures Mix(F(0xf56c7cf1, 0x70768a29, 0xe1ef0576), 0xfce4a312, 0xf56c7cf1, 0, 12, 0xfd987193) == 0x374943a7
    ensures Mix(F(0x374943a7, 0xf56c7cf1, 0x70768a29), 0xe1ef0576, 0x374943a7, 0, 17, 0xa679438e) == 0x5aa53f75
    ensures Mix(F(0x5aa53f75, 0x374943a7, 0xf56c7cf1), 0x70768a29, 0x5aa53f75, 0, 22, 0x49b40821) == 0xd6819c6a
  {}

  lemma EmptyRound1()
    ensures Steps(Regs(0x67452301, 0xefcdab89, 0x98badcfe, 0x10325476), EmptyWords(), 0, 16)
         == Regs(0xf56c7cf1, 0xd6819c6a, 0x5aa53f75, 0x374943a7)
  {
    hide Mix, F, G, H, I, WordIndex, Shift, Sine, EmptyWords;
    Table1First();
    Table1Second();
    EmptyMixes1();
    SixteenIsSteps(Regs(0x67452301, 0xefcdab89, 0x98badcfe, 0x10325476), EmptyWords(), 0);
  }

  // The words that round 2 makes, one by one.
  lemma EmptyMixes2()
    ensures Mix(G(0xd6819c6a, 0x5aa53f75, 0x374943a7), 0xf56c7cf1, 0xd6819c6a, 0, 5, 0xf61e2562) == 0x1c7d7513
    ensures Mix(G(0x1c7d7513, 0xd6819c6a, 0x5aa53f75), 0x374943a7, 0x1c7d7513, 0, 9, 0xc040b340) == 0x7bd57a3a
    ensures Mix(G(0x7bd57a3a, 0x1c7d7513, 0xd6819c6a), 0x5aa53f75, 0x7bd57a3a, 0, 14, 0x265e5a51) == 0xc095f13a
    ensures Mix(G(0xc095f13a, 0x7bd57a3a, 0x1c7d7513), 0xd6819c6a, 0xc095f13a, 0x80, 20, 0xe9b6c7aa) == 0xbd782e17
    ensures Mix(G(0xbd782e17, 0xc095f13a, 0x7bd57a3a), 0x1c7d7513, 0xbd782e17, 0, 5, 0xd62f105d) == 0x3d1e3e6c
    ensures Mix(G(0x3d1e3e6c, 0xbd782e17, 0xc095f13a), 0x7bd57a3a, 0x3d1e3e6c, 0, 9, 0x02441453) == 0x68b7b3e3
    ensures Mix(G(0x68b7b3e3, 0x3d1e3e6c, 0xbd782e17), 0xc095f13a, 0x68b7b3e3, 0, 14, 0xd8a1e681) == 0xeb41643e
    ensures Mix(G(0xeb41643e, 0x68b7b3e3, 0x3d1e3e6c), 0xbd782e17, 0xeb41643e, 0, 20, 0xe7d3fbc8) == 0xe422531a
    ensures Mix(G(0xe422531a, 0xeb41643e, 0x68b7b3e3), 0x3d1e3e6c, 0xe422531a, 0, 5, 0x21e1cde6) == 0x306ec122
    ensures Mix(G(0x306ec122, 0xe422531a, 0xeb41643e), 0x68b7b3e3, 0x306ec122, 0, 9, 0xc33707d6) == 0xd28c77c2
    ensures Mix(G(0xd28c77c2, 0x306ec122, 0xe422531a), 0xeb41643e, 0xd28c77c2, 0, 14, 0xf4d50d87) == 0xa3c663da
    ensures Mix(G(0xa3c663da, 0xd28c77c2, 0x306ec122), 0xe422531a, 0xa3c663da, 0, 20, 0x455a14ed) == 0xa0572807
    ensures Mix(G(0xa0572807, 0xa3c663da, 0xd28c77c2), 0x306ec122, 0xa0572807, 0, 5, 0xa9e3e905) == 0x13707036
    ensures Mix(G(0x13707036, 0xa0572807, 0xa3c663da), 0xd28c77c2, 0x13707036, 0, 9, 0xfcefa3f8) == 0xae7813db
    ensures Mix(G(0xae7813db, 0x13707036, 0xa0572807), 0xa3c663da, 0xae7813db, 0, 14, 0x676f02d9) == 0x1c31c384
    ensures Mix(G(0x1c31c384, 0xae7813db, 0x13707036), 0xa0572807, 0x1c31c384, 0, 20, 0x8d2a4c8a) == 0xa2205f1f
  {}

  lemma EmptyRound2()
    ensures Steps(Regs(0xf56c7cf1, 0xd6819c6a, 0x5aa53f75, 0x374943a7), EmptyWords(), 16, 32)
         == Regs(0x13707036, 0xa2205f1f, 0x1c31c384, 0xae7813db)
  {
    hide Mix, F, G, H, I, WordIndex, Shift, Sine, EmptyWords;
    Table2First();
    Table2Second();
    EmptyMixes2();
    SixteenIsSteps(Regs(0xf56c7cf1, 0xd6819c6a, 0x5aa53f75, 0x374943a7), EmptyWords(), 16);
  }

  // The words that round 3 makes, one by one.
  lemma EmptyMixes3()
    ensures Mix(H(0xa2205f1f, 0x1c31c384, 0xae7813db), 0x13707036, 0xa2205f1f, 0, 4, 0xfffa3942) == 0xdf63eaa1
    ensures Mix(H(0xdf63eaa1, 0xa2205f1f, 0x1c31c384), 0xae7813db, 0xdf63eaa1, 0, 11, 0x8771f681) == 0xc3689f5b
    ensures Mix(H(0xc3689f5b, 0xdf63eaa1, 0xa2205f1f), 0x1c31c384, 0xc3689f5b, 0, 16, 0x6d9d6122) == 0x12f3e755
    ensures Mix(H(0x12f3e755, 0xc3689f5b, 0xdf63eaa1), 0xa2205f1f, 0x12f3e755, 0, 23, 0xfde5380c) == 0x004b6669
    ensures Mix(H(0x004b6669, 0x12f3e755, 0xc3689f5b), 0xdf63eaa1, 0x004b6669, 0, 4, 0xa4beea44) == 0x5f7a9b2e
    ensures Mix(H(0x5f7a9b2e, 0x004b6669, 0x12f3e755), 0xc3689f5b, 0x5f7a9b2e, 0, 11, 0x4bdecfa9) == 0xabc34e16
    ensures Mix(H(0xabc34e16, 0x5f7a9b2e, 0x004b6669), 0x12f3e755, 0xabc34e16, 0, 16, 0xf6bb4b60) == 0x91ca4cb7
    ensures Mix(H(0x91ca4cb7, 0xabc34e16, 0x5f7a9b2e), 0x004b6669, 0x91ca4cb7, 0, 23, 0xbebfbc70) == 0xc5dc8c15
    ensures Mix(H(0xc5dc8c15, 0x91ca4cb7, 0xabc34e16), 0x5f7a9b2e, 0xc5dc8c15, 0, 4, 0x289b7ec6) == 0x4497169d
    ensures Mix(H(0x4497169d, 0xc5dc8c15, 0x91ca4cb7), 0xabc34e16, 0x4497169d, 0x80, 11, 0xeaa127fa) == 0x76fd93d4
    ensures Mix(H(0x76fd93d4, 0x4497169d, 0xc5dc8c15), 0x91ca4cb7, 0x76fd93d4, 0, 16, 0xd4ef3085) == 0xfd95f243
    ensures Mix(H(0xfd95f243, 0x76fd93d4, 0x4497169d), 0xc5dc8c15, 0xfd95f243, 0, 23, 0x04881d05) == 0x0fe32453
    ensures Mix(H(0x0fe32453, 0xfd95f243, 0x76fd93d4), 0x4497169d, 0x0fe32453, 0, 4, 0xd9d4d039) == 0x3f55edfd
    ensures Mix(H(0x3f55edfd, 0x0fe32453, 0xfd95f243), 0x76fd93d4, 0x3f55edfd, 0, 11, 0xe6db99e5) == 0x22a31f54
    ensures Mix(H(0x22a31f54, 0x3f55edfd, 0x0fe32453), 0xfd95f243, 0x22a31f54, 0, 16, 0x1fa27cf8) == 0x68d84ea2
    ensures Mix(H(0x68d84ea2, 0x22a31f54, 0x3f55edfd), 0x0fe32453, 0x68d84ea2, 0, 23, 0xc4ac5665) == 0xca7d2dbd
  {}

  lemma EmptyRound3()
    ensures Steps(Regs(0x13707036, 0xa2205f1f, 0x1c31c384, 0xae7813db), EmptyWords(), 32, 48)
         == Regs(0x3f55edfd, 0xca7d2dbd, 0x68d84ea2, 0x22a31f54)
  {
    hide Mix, F, G, H, I, WordIndex, Shift, Sine, EmptyWords;
    Table3First();
    Table3Second();
    EmptyMixes3();
    SixteenIsSteps(Regs(0x13707036, 0xa2205f1f, 0x1c31c384, 0xae7813db), EmptyWords(), 32);
  }

  // The words that round 4 makes, one by one.
  lemma EmptyMixes4()
    ensures Mix(I(0xca7d2dbd, 0x68d84ea2, 0x22a31f54), 0x3f55edfd, 0xca7d2dbd, 0x80, 6, 0xf4292244) == 0x93aa2577
    ensures Mix(I(0x93aa2577, 0xca7d2dbd, 0x68d84ea2), 0x22a31f54, 0x93aa2577, 0, 10, 0x432aff97) == 0x1688dc85
    ensures Mix(I(0x1688dc85, 0x93aa2577, 0xca7d2dbd), 0x68d84ea2, 0x1688dc85, 0, 15, 0xab9423a7) == 0xcd85b8cb
    ensures Mix(I(0xcd85b8cb, 0x1688dc85, 0x93aa2577), 0xca7d2dbd, 0xcd85b8cb, 0, 21, 0xfc93a039) == 0x561e0689
    ensures Mix(I(0x561e0689, 0xcd85b8cb, 0x1688dc85), 0x93aa2577, 0x561e0689, 0, 6, 0x655b59c3) == 0x5625a114
    ensures Mix(I(0x5625a114, 0x561e0689, 0xcd85b8cb), 0x1688dc85, 0x5625a114, 0, 10, 0x8f0ccc92) == 0x3450f42b
    ensures Mix(I(0x3450f42b, 0x5625a114, 0x561e0689), 0xcd85b8cb, 0x3450f42b, 0, 15, 0xffeff47d) == 0x392ad0d0
    ensures Mix(I(0x392ad0d0, 0x3450f42b, 0x5625a114), 0x561e0689, 0x392ad0d0, 0, 21, 0x85845dd1) == 0x1e77fa61
    ensures Mix(I(0x1e77fa61, 0x392ad0d0, 0x3450f42b), 0x5625a114, 0x1e77fa61, 0, 6, 0x6fa87e4f) == 0x474a9c8c
    ensures Mix(I(0x474a9c8c, 0x1e77fa61, 0x392ad0d0), 0x3450f42b, 0x474a9c8c, 0, 10, 0xfe2ce6e0) == 0xdfce00bc
    ensures Mix(I(0xdfce00bc, 0x474a9c8c, 0x1e77fa61), 0x392ad0d0, 0xdfce00bc, 0, 15, 0xa3014314) == 0x36594b14
    ensures Mix(I(0x36594b14, 0xdfce00bc, 0x474a9c8c), 0x1e77fa61, 0x36594b14, 0, 21, 0x4e0811a1) == 0x30130182
    ensures Mix(I(0x30130182, 0x36594b14, 0xdfce00bc), 0x474a9c8c, 0x30130182, 0, 6, 0xf7537e82) == 0x7246fad3
    ensures Mix(I(0x7246fad3, 0x30130182, 0x36594b14), 0xdfce00bc, 0x7246fad3, 0, 10, 0xbd3af235) == 0x6e10a476
    ensures Mix(I(0x6e10a476, 0x7246fad3, 0x30130182), 0x36594b14, 0x6e10a476, 0, 15, 0x2ad7d2bb) == 0xff4ea3eb
    ensures Mix(I(0xff4ea3eb, 0x6e10a476, 0x7246fad3), 0x30130182, 0xff4ea3eb, 0, 21, 0xeb86d391) == 0x14e45506
  {}

  lemma EmptyRound4()
    ensures Steps(Regs(0x3f55edfd, 0xca7d2dbd, 0x68d84ea2, 0x22a31f54), EmptyWords(), 48, 64)
         == Regs(0x7246fad3, 0x14e45506, 0xff4ea3eb, 0x6e10a476)
  {
    hide Mix, F, G, H, I, WordIndex, Shift, Sine, EmptyWords;
    Table4First();
    Table4Second();
    EmptyMixes4();
    SixteenIsSteps(Regs(0x3f55edfd, 0xca7d2dbd, 0x68d84ea2, 0x22a31f54), EmptyWords(), 48);
  }

  lemma EmptySteps()
    ensures Steps(INITIAL, EmptyWords(), 0, 64) == Regs(0x7246fad3, 0x14e45506, 0xff4ea3eb, 0x6e10a476)
  {
    hide Steps, EmptyWords;
    EmptyRound1();
    EmptyRound2();
    EmptyRound3();
    EmptyRound4();
    RoundsJoin(INITIAL, EmptyWords());
  }

  lemma EmptyBlock()
    ensures |Pad([])| == 64 && Words(Pad([])[..64]) == EmptyWords()
  {
    var block := [0x80] + Zeros(63);
    EmptyPadding();
    assert block[..64] == block;
    WordOfPadding();
    assert Words(block) == EmptyWords();
  }

  lemma EmptyPadding()
    ensures Pad([]) == [0x80] + Zeros(63)
  {
    EightBytesAre(0);
    assert LittleEndian(0, 8) == Zeros(8);
    assert Zeros(55) + Zeros(8) == Zeros(63);
  }

  lemma WordOfPadding()
    ensures Word(0x80, 0, 0, 0) == 0x80 && Word(0, 0, 0, 0) == 0
  {
    assert Widen(0x80) == 0x80 && Widen(0) == 0;
  }

  lemma EmptyFeed()
    ensures Feed(INITIAL, Regs(0x7246fad3, 0x14e45506, 0xff4ea3eb, 0x6e10a476))
         == Regs(0xd98c1dd4, 0x04b2008f, 0x980980e9, 0x7e42f8ec)
  {}

  // MD5("") of RFC 1321, in registers and as the text d41d8cd98f00b204e9800998ecf8427e.
  lemma DigestOfEmpty()
    ensures Md5([]) == Regs(0xd98c1dd4, 0x04b2008f, 0x980980e9, 0x7e42f8ec)
  {
    hide Steps, Words, Pad, Feed, EmptyWords;
    EmptyBlock();
    EmptySteps();
    EmptyFeed();
    assert Pad([])[64..] == [];
    BlocksOfNothing(Regs(0xd98c1dd4, 0x04b2008f, 0x980980e9, 0x7e42f8ec));
  }

  lemma TextOfEmpty()
    ensures DigestToString(Md5([])) == "d41d8cd98f00b204e9800998ecf8427e"
  {
    hide WordText, Md5;
    DigestOfEmpty();
    TextsOfWords();
    assert "d41d8cd9" + "8f00b204" + "e9800998" + "ecf8427e" == "d41d8cd98f00b204e9800998ecf8427e";
  }

  lemma TextsOfWords()
    ensures WordText(0xd98c1dd4) == "d41d8cd9" && WordText(0x04b2008f) == "8f00b204"
    ensures WordText(0x980980e9) == "e9800998" && WordText(0x7e42f8ec) == "ecf8427e"
  {}
}
