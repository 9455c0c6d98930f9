/** The digests of section A.5 of RFC 1321, worked out step by step: nothing but the
    message and the sixteen bytes is taken from the RFC's text, and what the steps
    use of its tables is written out here once more. */
module Md5Vectors {
  import opened Bytes
  import opened Md5

  // ---------- The tables ----------

  lemma Constants1()
    ensures Constant(0) == 0xd76aa478 && Constant(1) == 0xe8c7b756 && Constant(2) == 0x242070db && Constant(3) == 0xc1bdceee
    ensures Constant(4) == 0xf57c0faf && Constant(5) == 0x4787c62a && Constant(6) == 0xa8304613 && Constant(7) == 0xfd469501
  {
  }

  lemma Constants2()
    ensures Constant(8) == 0x698098d8 && Constant(9) == 0x8b44f7af && Constant(10) == 0xffff5bb1 && Constant(11) == 0x895cd7be
    ensures Constant(12) == 0x6b901122 && Constant(13) == 0xfd987193 && Constant(14) == 0xa679438e && Constant(15) == 0x49b40821
  {
  }

  lemma Positions1()
    ensures WordIndex(0) == 0 && WordIndex(1) == 1 && WordIndex(2) == 2 && WordIndex(3) == 3
    ensures WordIndex(4) == 4 && WordIndex(5) == 5 && WordIndex(6) == 6 && WordIndex(7) == 7
    ensures WordIndex(8) == 8 && WordIndex(9) == 9 && WordIndex(10) == 10 && WordIndex(11) == 11
    ensures WordIndex(12) == 12 && WordIndex(13) == 13 && WordIndex(14) == 14 && WordIndex(15) == 15
    ensures Shift(0) == 7 && Shift(1) == 12 && Shift(2) == 17 && Shift(3) == 22
    ensures Shift(4) == 7 && Shift(5) == 12 && Shift(6) == 17 && Shift(7) == 22
    ensures Shift(8) == 7 && Shift(9) == 12 && Shift(10) == 17 && Shift(11) == 22
    ensures Shift(12) == 7 && Shift(13) == 12 && Shift(14) == 17 && Shift(15) == 22
  {
  }

  lemma Constants3()
    ensures Constant(16) == 0xf61e2562 && Constant(17) == 0xc040b340 && Constant(18) == 0x265e5a51 && Constant(19) == 0xe9b6c7aa
    ensures Constant(20) == 0xd62f105d && Constant(21) == 0x02441453 && Constant(22) == 0xd8a1e681 && Constant(23) == 0xe7d3fbc8
  {
  }

  lemma Constants4()
    ensures Constant(24) == 0x21e1cde6 && Constant(25) == 0xc33707d6 && Constant(26) == 0xf4d50d87 && Constant(27) == 0x455a14ed
    ensures Constant(28) == 0xa9e3e905 && Constant(29) == 0xfcefa3f8 && Constant(30) == 0x676f02d9 && Constant(31) == 0x8d2a4c8a
  {
  }

  lemma Positions2()
    ensures WordIndex(16) == 1 && WordIndex(17) == 6 && WordIndex(18) == 11 && WordIndex(19) == 0
    ensures WordIndex(20) == 5 && WordIndex(21) == 10 && WordIndex(22) == 15 && WordIndex(23) == 4
    ensures WordIndex(24) == 9 && WordIndex(25) == 14 && WordIndex(26) == 3 && WordIndex(27) == 8
    ensures WordIndex(28) == 13 && WordIndex(29) == 2 && WordIndex(30) == 7 && WordIndex(31) == 12
    ensures Shift(16) == 5 && Shift(17) == 9 && Shift(18) == 14 && Shift(19) == 20
    ensures Shift(20) == 5 && Shift(21) == 9 && Shift(22) == 14 && Shift(23) == 20
    ensures Shift(24) == 5 && Shift(25) == 9 && Shift(26) == 14 && Shift(27) == 20
    ensures Shift(28) == 5 && Shift(29) == 9 && Shift(30) == 14 && Shift(31) == 20
  {
  }

  lemma Constants5()
    ensures Constant(32) == 0xfffa3942 && Constant(33) == 0x8771f681 && Constant(34) == 0x6d9d6122 && Constant(35) == 0xfde5380c
    ensures Constant(36) == 0xa4beea44 && Constant(37) == 0x4bdecfa9 && Constant(38) == 0xf6bb4b60 && Constant(39) == 0xbebfbc70
  {
  }

  lemma Constants6()
    ensures Constant(40) == 0x289b7ec6 && Constant(41) == 0xeaa127fa && Constant(42) == 0xd4ef3085 && Constant(43) == 0x04881d05
    ensures Constant(44) == 0xd9d4d039 && Constant(45) == 0xe6db99e5 && Constant(46) == 0x1fa27cf8 && Constant(47) == 0xc4ac5665
  {
  }

  lemma Positions3()
    ensures WordIndex(32) == 5 && WordIndex(33) == 8 && WordIndex(34) == 11 && WordIndex(35) == 14
    ensures WordIndex(36) == 1 && WordIndex(37) == 4 && WordIndex(38) == 7 && WordIndex(39) == 10
    ensures WordIndex(40) == 13 && WordIndex(41) == 0 && WordIndex(42) == 3 && WordIndex(43) == 6
    ensures WordIndex(44) == 9 && WordIndex(45) == 12 && WordIndex(46) == 15 && WordIndex(47) == 2
    ensures Shift(32) == 4 && Shift(33) == 11 && Shift(34) == 16 && Shift(35) == 23
    ensures Shift(36) == 4 && Shift(37) == 11 && Shift(38) == 16 && Shift(39) == 23
    ensures Shift(40) == 4 && Shift(41) == 11 && Shift(42) == 16 && Shift(43) == 23
    ensures Shift(44) == 4 && Shift(45) == 11 && Shift(46) == 16 && Shift(47) == 23
  {
  }

  lemma Constants7()
    ensures Constant(48) == 0xf4292244 && Constant(49) == 0x432aff97 && Constant(50) == 0xab9423a7 && Constant(51) == 0xfc93a039
    ensures Constant(52) == 0x655b59c3 && Constant(53) == 0x8f0ccc92 && Constant(54) == 0xffeff47d && Constant(55) == 0x85845dd1
  {
  }

  lemma Constants8()
    ensures Constant(56) == 0x6fa87e4f && Constant(57) == 0xfe2ce6e0 && Constant(58) == 0xa3014314 && Constant(59) == 0x4e0811a1
    ensures Constant(60) == 0xf7537e82 && Constant(61) == 0xbd3af235 && Constant(62) == 0x2ad7d2bb && Constant(63) == 0xeb86d391
  {
  }

  lemma Positions4()
    ensures WordIndex(48) == 0 && WordIndex(49) == 7 && WordIndex(50) == 14 && WordIndex(51) == 5
    ensures WordIndex(52) == 12 && WordIndex(53) == 3 && WordIndex(54) == 10 && WordIndex(55) == 1
    ensures WordIndex(56) == 8 && WordIndex(57) == 15 && WordIndex(58) == 6 && WordIndex(59) == 13
    ensures WordIndex(60) == 4 && WordIndex(61) == 11 && WordIndex(62) == 2 && WordIndex(63) == 9
    ensures Shift(48) == 6 && Shift(49) == 10 && Shift(50) == 15 && Shift(51) == 21
    ensures Shift(52) == 6 && Shift(53) == 10 && Shift(54) == 15 && Shift(55) == 21
    ensures Shift(56) == 6 && Shift(57) == 10 && Shift(58) == 15 && Shift(59) == 21
    ensures Shift(60) == 6 && Shift(61) == 10 && Shift(62) == 15 && Shift(63) == 21
  {
  }

  // ---------- Four steps at a time ----------

  function Mixed(t: State, m: seq<bv32>, i: nat): bv32
    requires |m| == 16 && i < 64
  {
    Add(t.b, Rotl(Add(Add(Add(t.a, Aux(i, t.b, t.c, t.d)), Constant(i)), m[WordIndex(i)]), Shift(i)))
  }

  lemma Next(s: State, m: seq<bv32>, i: nat, v: bv32)
    requires |m| == 16 && i < 64 && Mixed(Steps(s, m, i), m, i) == v
    ensures var t := Steps(s, m, i); Steps(s, m, i + 1) == State(t.d, v, t.b, t.c)
  {
    hide Add, Rotl, Aux, Constant, WordIndex, Shift, Steps;
    var t := Steps(s, m, i);
    StepIs(t.a, t.b, t.c, t.d, m, i);
    StepsNext(s, m, i);
  }

  lemma Four(s: State, m: seq<bv32>, i: nat, a: bv32, d: bv32, c: bv32, b: bv32)
    requires |m| == 16 && i <= 60
    requires var t := Steps(s, m, i);
      && Mixed(t, m, i) == a && Mixed(State(t.d, a, t.b, t.c), m, i + 1) == d
      && Mixed(State(t.c, d, a, t.b), m, i + 2) == c && Mixed(State(t.b, c, d, a), m, i + 3) == b
    ensures Steps(s, m, i + 4) == State(a, b, c, d)
  {
    hide *;
    Next(s, m, i, a);
    Next(s, m, i + 1, d);
    Next(s, m, i + 2, c);
    Next(s, m, i + 3, b);
  }

  // ---------- The empty message ----------

  ghost predicate EmptyWords(m: seq<bv32>) {
    |m| == 16
    && m[0] == 0x00000080 && m[1] == 0x00000000 && m[2] == 0x00000000 && m[3] == 0x00000000
    && m[4] == 0x00000000 && m[5] == 0x00000000 && m[6] == 0x00000000 && m[7] == 0x00000000
    && m[8] == 0x00000000 && m[9] == 0x00000000 && m[10] == 0x00000000 && m[11] == 0x00000000
    && m[12] == 0x00000000 && m[13] == 0x00000000 && m[14] == 0x00000000 && m[15] == 0x00000000
  }

  lemma Empty1(m: seq<bv32>)
    requires EmptyWords(m)
    ensures Steps(INIT, m, 16) == State(0xf56c7cf1, 0xd6819c6a, 0x5aa53f75, 0x374943a7)
  {
    Constants1();
    Constants2();
    Positions1();
    StepsStart(INIT, m);
    hide Steps, Constant, WordIndex, Shift;
    Four(INIT, m, 0, 0xa5202774, 0xf59592dd, 0xe7f06b23, 0x1b163203);
    Four(INIT, m, 4, 0x32033344, 0x2f35d494, 0xf5b158db, 0x9bc13ce9);
    Four(INIT, m, 8, 0x3893b991, 0xfce4a312, 0xe1ef0576, 0x70768a29);
    Four(INIT, m, 12, 0xf56c7cf1, 0x374943a7, 0x5aa53f75, 0xd6819c6a);
  }

  lemma Empty2(m: seq<bv32>)
    requires EmptyWords(m)
    ensures Steps(INIT, m, 32) == State(0x13707036, 0xa2205f1f, 0x1c31c384, 0xae7813db)
  {
    Constants3();
    Constants4();
    Positions2();
    Empty1(m);
    hide Steps, Constant, WordIndex, Shift;
    Four(INIT, m, 16, 0x1c7d7513, 0x7bd57a3a, 0xc095f13a, 0xbd782e17);
    Four(INIT, m, 20, 0x3d1e3e6c, 0x68b7b3e3, 0xeb41643e, 0xe422531a);
    Four(INIT, m, 24, 0x306ec122, 0xd28c77c2, 0xa3c663da, 0xa0572807);
    Four(INIT, m, 28, 0x13707036, 0xae7813db, 0x1c31c384, 0xa2205f1f);
  }

  lemma Empty3(m: seq<bv32>)
    requires EmptyWords(m)
    ensures Steps(INIT, m, 48) == State(0x3f55edfd, 0xca7d2dbd, 0x68d84ea2, 0x22a31f54)
  {
    Constants5();
    Constants6();
    Positions3();
    Empty2(m);
    hide Steps, Constant, WordIndex, Shift;
    Four(INIT, m, 32, 0xdf63eaa1, 0xc3689f5b, 0x12f3e755, 0x004b6669);
    Four(INIT, m, 36, 0x5f7a9b2e, 0xabc34e16, 0x91ca4cb7, 0xc5dc8c15);
    Four(INIT, m, 40, 0x4497169d, 0x76fd93d4, 0xfd95f243, 0x0fe32453);
    Four(INIT, m, 44, 0x3f55edfd, 0x22a31f54, 0x68d84ea2, 0xca7d2dbd);
  }

  lemma Empty4(m: seq<bv32>)
    requires EmptyWords(m)
    ensures Steps(INIT, m, 64) == State(0x7246fad3, 0x14e45506, 0xff4ea3eb, 0x6e10a476)
  {
    Constants7();
    Constants8();
    Positions4();
    Empty3(m);
    hide Steps, Constant, WordIndex, Shift;
    Four(INIT, m, 48, 0x93aa2577, 0x1688dc85, 0xcd85b8cb, 0x561e0689);
    Four(INIT, m, 52, 0x5625a114, 0x3450f42b, 0x392ad0d0, 0x1e77fa61);
    Four(INIT, m, 56, 0x474a9c8c, 0xdfce00bc, 0x36594b14, 0x30130182);
    Four(INIT, m, 60, 0x7246fad3, 0x6e10a476, 0xff4ea3eb, 0x14e45506);
  }

  lemma EmptyCompressed(block: Text)
    requires |block| == 64 && EmptyWords(Words(block))
    ensures Compress(INIT, block) == State(0xd98c1dd4, 0x04b2008f, 0x980980e9, 0x7e42f8ec)
  {
    Empty4(Words(block));
    CompressIs(INIT, block);
    hide Compress, Steps, Words;
  }

  // ---------- "abc" ----------

  ghost predicate AbcWords(m: seq<bv32>) {
    |m| == 16
    && m[0] == 0x80636261 && m[1] == 0x00000000 && m[2] == 0x00000000 && m[3] == 0x00000000
    && m[4] == 0x00000000 && m[5] == 0x00000000 && m[6] == 0x00000000 && m[7] == 0x00000000
    && m[8] == 0x00000000 && m[9] == 0x00000000 && m[10] == 0x00000000 && m[11] == 0x00000000
    && m[12] == 0x00000000 && m[13] == 0x00000000 && m[14] == 0x00000018 && m[15] == 0x00000000
  }

  lemma Abc1(m: seq<bv32>)
    requires AbcWords(m)
    ensures Steps(INIT, m, 16) == State(0xdda9b9a6, 0x72aff2e0, 0xe396856b, 0xa1051895)
  {
    Constants1();
    Constants2();
    Positions1();
    StepsStart(INIT, m);
    hide Steps, Constant, WordIndex, Shift;
    Four(INIT, m, 0, 0xd6d117b4, 0x344a8432, 0x2f6fbd72, 0x7ad956f2);
    Four(INIT, m, 4, 0xc73741ef, 0x8bac3051, 0x207dc67b, 0x928d99f6);
    Four(INIT, m, 8, 0x854b3712, 0x74e2f284, 0x3020401c, 0x5ed49596);
    Four(INIT, m, 12, 0xdda9b9a6, 0xa1051895, 0xe396856b, 0x72aff2e0);
  }

  lemma Abc2(m: seq<bv32>)
    requires AbcWords(m)
    ensures Steps(INIT, m, 32) == State(0x790a77fb, 0x726342d3, 0xa62884aa, 0x9f47e4f8)
  {
    Constants3();
    Constants4();
    Positions2();
    Abc1(m);
    hide Steps, Constant, WordIndex, Shift;
    Four(INIT, m, 16, 0x3e9e9126, 0x4a1d804e, 0xe25e1652, 0xb5b204e4);
    Four(INIT, m, 20, 0x59a8ffda, 0x6d002f1e, 0xabfc7920, 0x47092c07);
    Four(INIT, m, 24, 0xb7f268cf, 0x09388eff, 0xfe1623b1, 0x786acb8f);
    Four(INIT, m, 28, 0x790a77fb, 0x9f47e4f8, 0xa62884aa, 0x726342d3);
  }

  lemma Abc3(m: seq<bv32>)
    requires AbcWords(m)
    ensures Steps(INIT, m, 48) == State(0x7f2e507b, 0x7beb9700, 0x8fae6399, 0x99d9679d)
  {
    Constants5();
    Constants6();
    Positions3();
    Abc2(m);
    hide Steps, Constant, WordIndex, Shift;
    Four(INIT, m, 32, 0xb3707ebf, 0x60127b2e, 0x8d212ff5, 0x3b0875c7);
    Four(INIT, m, 36, 0x21b117b9, 0x6e7429d5, 0x3575227e, 0x5a2f5ea5);
    Four(INIT, m, 40, 0x11de1779, 0xfadcaa38, 0x31c465ca, 0x4c6124f4);
    Four(INIT, m, 44, 0x7f2e507b, 0x99d9679d, 0x8fae6399, 0x7beb9700);
  }

  lemma Abc4(m: seq<bv32>)
    requires AbcWords(m)
    ensures Steps(INIT, m, 64) == State(0x310ade8f, 0xc08226b3, 0xe484b9d8, 0x624d8cb2)
  {
    Constants7();
    Constants8();
    Positions4();
    Abc3(m);
    hide Steps, Constant, WordIndex, Shift;
    Four(INIT, m, 48, 0x7b201df8, 0xf4e8e96e, 0xb298cefd, 0x8bf025c4);
    Four(INIT, m, 52, 0x06cc5e8a, 0x5b0d97aa, 0x7d632dd0, 0x3bfa2c27);
    Four(INIT, m, 56, 0x7f81cc35, 0x094454ab, 0x4f9dbe3f, 0x7327d604);
    Four(INIT, m, 60, 0x310ade8f, 0x624d8cb2, 0xe484b9d8, 0xc08226b3);
  }

  lemma AbcCompressed(block: Text)
    requires |block| == 64 && AbcWords(Words(block))
    ensures Compress(INIT, block) == State(0x98500190, 0xb04fd23c, 0x7d3f96d6, 0x727fe128)
  {
    Abc4(Words(block));
    CompressIs(INIT, block);
    hide Compress, Steps, Words;
  }

  const MIDDLE := State(0x83fd320b, 0xdefbe5cf, 0xa9b1642f, 0xfa6f932a)

  // ---------- The letters and digits, first block ----------

  ghost predicate FirstWords(m: seq<bv32>) {
    |m| == 16
    && m[0] == 0x44434241 && m[1] == 0x48474645 && m[2] == 0x4c4b4a49 && m[3] == 0x504f4e4d
    && m[4] == 0x54535251 && m[5] == 0x58575655 && m[6] == 0x62615a59 && m[7] == 0x66656463
    && m[8] == 0x6a696867 && m[9] == 0x6e6d6c6b && m[10] == 0x7271706f && m[11] == 0x76757473
    && m[12] == 0x7a797877 && m[13] == 0x33323130 && m[14] == 0x37363534 && m[15] == 0x00803938
  }

  lemma First1(m: seq<bv32>)
    requires FirstWords(m)
    ensures Steps(INIT, m, 16) == State(0x3cbdcd45, 0x5d38e690, 0xfa148c8a, 0xb8dec763)
  {
    Constants1();
    Constants2();
    Positions1();
    StepsStart(INIT, m);
    hide Steps, Constant, WordIndex, Shift;
    Four(INIT, m, 0, 0xc6c10796, 0x99a09999, 0x11067980, 0x27bce07a);
    Four(INIT, m, 4, 0xf22e6c4e, 0xb4ac9218, 0xa95a2fc0, 0xa4799506);
    Four(INIT, m, 8, 0x1eb3e7c1, 0xa6e70cfe, 0xca27520b, 0x8a7612ec);
    Four(INIT, m, 12, 0x3cbdcd45, 0xb8dec763, 0xfa148c8a, 0x5d38e690);
  }

  lemma First2(m: seq<bv32>)
    requires FirstWords(m)
    ensures Steps(INIT, m, 32) == State(0x9b085fa9, 0xdd789ecc, 0x5993248f, 0x4400a9bd)
  {
    Constants3();
    Constants4();
    Positions2();
    First1(m);
    hide Steps, Constant, WordIndex, Shift;
    Four(INIT, m, 16, 0x04b9d52a, 0x783002eb, 0xd3ee3ed1, 0x47ae7c81);
    Four(INIT, m, 20, 0x2d7d8a3f, 0xd1210823, 0x4b534dc3, 0x75292030);
    Four(INIT, m, 24, 0x9d2a6e33, 0x0e8d2e44, 0xd473b564, 0xf2ff6ea0);
    Four(INIT, m, 28, 0x9b085fa9, 0x4400a9bd, 0x5993248f, 0xdd789ecc);
  }

  lemma First3(m: seq<bv32>)
    requires FirstWords(m)
    ensures Steps(INIT, m, 48) == State(0x2dbee21d, 0xf166f514, 0xee46e961, 0xe95c3a43)
  {
    Constants5();
    Constants6();
    Positions3();
    First2(m);
    hide Steps, Constant, WordIndex, Shift;
    Four(INIT, m, 32, 0x21c8d2b7, 0x1d55a18e, 0x056ec119, 0x1b9504f8);
    Four(INIT, m, 36, 0x436b7fe9, 0x075800c1, 0xf404c2f6, 0xcf0341ed);
    Four(INIT, m, 40, 0x888e7d8a, 0xbbdaecd8, 0xce620273, 0x047b9419);
    Four(INIT, m, 44, 0x2dbee21d, 0xe95c3a43, 0xee46e961, 0xf166f514);
  }

  lemma First4(m: seq<bv32>)
    requires FirstWords(m)
    ensures Steps(INIT, m, 64) == State(0x1cb80f0a, 0xef2e3a46, 0x10f68731, 0xea3d3eb4)
  {
    Constants7();
    Constants8();
    Positions4();
    First3(m);
    hide Steps, Constant, WordIndex, Shift;
    Four(INIT, m, 48, 0xe47fd4f3, 0xfb887751, 0xf22aedcc, 0x7a13bc5c);
    Four(INIT, m, 52, 0xa691d430, 0x528452f2, 0x3fc23df6, 0xefb0e72f);
    Four(INIT, m, 56, 0x27145703, 0x21a11069, 0x374fbe79, 0x49d9a5b4);
    Four(INIT, m, 60, 0x1cb80f0a, 0xea3d3eb4, 0x10f68731, 0xef2e3a46);
  }

  lemma FirstCompressed(block: Text)
    requires |block| == 64 && FirstWords(Words(block))
    ensures Compress(INIT, block) == MIDDLE
  {
    First4(Words(block));
    CompressIs(INIT, block);
    hide Compress, Steps, Words;
  }

  // ---------- The letters and digits, second block ----------

  ghost predicate SecondWords(m: seq<bv32>) {
    |m| == 16
    && m[0] == 0x00000000 && m[1] == 0x00000000 && m[2] == 0x00000000 && m[3] == 0x00000000
    && m[4] == 0x00000000 && m[5] == 0x00000000 && m[6] == 0x00000000 && m[7] == 0x00000000
    && m[8] == 0x00000000 && m[9] == 0x00000000 && m[10] == 0x00000000 && m[11] == 0x00000000
    && m[12] == 0x00000000 && m[13] == 0x00000000 && m[14] == 0x000001f0 && m[15] == 0x00000000
  }

  lemma Second1(m: seq<bv32>)
    requires SecondWords(m)
    ensures Steps(MIDDLE, m, 16) == State(0xa70737da, 0xa36f556f, 0x96f6586e, 0x5473f8a7)
  {
    Constants1();
    Constants2();
    Positions1();
    StepsStart(MIDDLE, m);
    hide Steps, Constant, WordIndex, Shift;
    Four(MIDDLE, m, 0, 0xeda23ed1, 0x989939cf, 0x3c307338, 0xddcf0634);
    Four(MIDDLE, m, 4, 0x75144433, 0xc8875807, 0xc783cb60, 0x99b6b699);
    Four(MIDDLE, m, 8, 0xa60a3f69, 0xaa6630be, 0x64db26e9, 0x64cc7c5a);
    Four(MIDDLE, m, 12, 0xa70737da, 0x5473f8a7, 0x96f6586e, 0xa36f556f);
  }

  lemma Second2(m: seq<bv32>)
    requires SecondWords(m)
    ensures Steps(MIDDLE, m, 32) == State(0x24eba695, 0x9c03e2e8, 0x10c42a2f, 0x4bd0378b)
  {
    Constants3();
    Constants4();
    Positions2();
    Second1(m);
    hide Steps, Constant, WordIndex, Shift;
    Four(MIDDLE, m, 16, 0xa5050ad3, 0x28776046, 0x27dcd8b4, 0x82b8827c);
    Four(MIDDLE, m, 20, 0xe04f070c, 0x2f3cd2a2, 0xc0d22b61, 0xdf35cb56);
    Four(MIDDLE, m, 24, 0x242dd210, 0x576ace33, 0x5c295967, 0x2291191a);
    Four(MIDDLE, m, 28, 0x24eba695, 0x4bd0378b, 0x10c42a2f, 0x9c03e2e8);
  }

  lemma Second3(m: seq<bv32>)
    requires SecondWords(m)
    ensures Steps(MIDDLE, m, 48) == State(0x54c9eb3a, 0x79c0710a, 0x2ec86f72, 0xd4d9c6ac)
  {
    Constants5();
    Constants6();
    Positions3();
    Second2(m);
    hide Steps, Constant, WordIndex, Shift;
    Four(MIDDLE, m, 32, 0x5be1d526, 0x9e414279, 0x9f4a1a7e, 0xa2448453);
    Four(MIDDLE, m, 36, 0xe14e403d, 0xe8cfd670, 0x60cc183a, 0xfe314121);
    Four(MIDDLE, m, 40, 0xfff62809, 0xe37209ac, 0x8cb5221c, 0x7c7e974c);
    Four(MIDDLE, m, 44, 0x54c9eb3a, 0xd4d9c6ac, 0x2ec86f72, 0x79c0710a);
  }

  lemma Second4(m: seq<bv32>)
    requires SecondWords(m)
    ensures Steps(MIDDLE, m, 64) == State(0x14ae42c6, 0x16dd9203, 0x826afd76, 0xa52dae75)
  {
    Constants7();
    Constants8();
    Positions4();
    Second3(m);
    hide Steps, Constant, WordIndex, Shift;
    Four(MIDDLE, m, 48, 0x02095af1, 0x13d245fd, 0xa8dcfe26, 0x2ba98e3f);
    Four(MIDDLE, m, 52, 0xe126c1aa, 0x96b00fa7, 0x6f287ff5, 0xfb7bcee0);
    Four(MIDDLE, m, 56, 0x452c1099, 0xca801ba6, 0xc197ea8e, 0x5ac74608);
    Four(MIDDLE, m, 60, 0x14ae42c6, 0xa52dae75, 0x826afd76, 0x16dd9203);
  }

  lemma SecondCompressed(block: Text)
    requires |block| == 64 && SecondWords(Words(block))
    ensures Compress(MIDDLE, block) == State(0x98ab74d1, 0xf5d977d2, 0x2c1c61a5, 0x9f9d419f)
  {
    Second4(Words(block));
    CompressIs(MIDDLE, block);
    hide Compress, Steps, Words;
  }

  // ---------- From messages to blocks ----------

  lemma {:induction false} ZeroBytes(k: nat)
    ensures LittleEndian(0, k) == seq(k, _ => 0)
  {
    if k > 0 {
      ZeroBytes(k - 1);
      assert [0] + seq(k - 1, _ => 0) == seq(k, _ => 0);
    }
  }

  lemma TwoBytes(n: nat)
    requires n < 0x10000
    ensures LittleEndian(n, 8) == [n % 256, n / 256] + seq(6, _ => 0)
  {
    ZeroBytes(6);
    assert LittleEndian(n, 8) == [n % 256] + ([n / 256 % 256] + LittleEndian(n / 256 / 256, 6));
  }

  /** Lengths that take two bytes in bits. */
  lemma ShortLength(len: nat)
    requires len < 8192
    ensures LengthField(len) == [len * 8 % 256, len * 8 / 256] + seq(6, _ => 0)
  {
    hide LittleEndian;
    TwoBytes(len * 8);
  }

  lemma PaddedByte(t: Text, j: nat)
    requires |t| < 8192 && j < |Padded(t)|
    ensures |Padded(t)| == if |t| % 64 < 56 then |t| - |t| % 64 + 64 else |t| - |t| % 64 + 128
    ensures Padded(t)[j] ==
            if j < |t| then t[j] else if j == |t| then 0x80
            else if j == |Padded(t)| - 8 then |t| * 8 % 256
            else if j == |Padded(t)| - 7 then |t| * 8 / 256 else 0
  {
    ShortLength(|t|);
    hide LengthField;
    assert |Padded(t)| == |t| + |Padding(|t|)| + 8;
  }

  lemma OneBlock(t: Text)
    requires |Padded(t)| == 64
    ensures Digest(t) == Output(Compress(INIT, Padded(t)))
  {
    hide Padded, Compress, Output;
    var p := Padded(t);
    assert Chain(INIT, []) == INIT;
    ChainBlock(INIT, [], p);
    assert [] + p == p;
  }

  lemma TwoBlocks(t: Text)
    requires |Padded(t)| == 128
    ensures Digest(t) == Output(Compress(Compress(INIT, Padded(t)[..64]), Padded(t)[64..]))
  {
    hide Padded, Compress, Output;
    var p := Padded(t);
    assert Chain(INIT, []) == INIT;
    ChainBlock(INIT, [], p[..64]);
    assert [] + p[..64] == p[..64] && p[..64] + p[64..] == p;
    ChainBlock(INIT, p[..64], p[64..]);
  }

  lemma WordIs(block: Text, i: nat)
    requires |block| == 64 && i < 16
    ensures Words(block)[i] == Four8(block[4 * i], block[4 * i + 1], block[4 * i + 2], block[4 * i + 3])
  {
  }

  lemma WordFrom(block: Text, i: nat, a: Byte, b: Byte, c: Byte, d: Byte)
    requires |block| == 64 && i < 16
    requires block[4 * i] == a && block[4 * i + 1] == b && block[4 * i + 2] == c && block[4 * i + 3] == d
    ensures Words(block)[i] == Four8(a, b, c, d)
  {
    WordIs(block, i);
  }

  function Four8(a: Byte, b: Byte, c: Byte, d: Byte): bv32 {
    (a as bv32) | ((b as bv32) << 8) | ((c as bv32) << 16) | ((d as bv32) << 24)
  }

  lemma EmptyBlock(block: Text)
    requires |block| == 64 && block[0] == 0x80 && forall j :: 0 < j < 64 ==> block[j] == 0
    ensures EmptyWords(Words(block))
  {
    assert Four8(0x80, 0, 0, 0) == 0x80 && Four8(0, 0, 0, 0) == 0;
    hide Four8, Words;
    forall i: nat | i < 16 ensures Words(block)[i] == if i == 0 then 0x80 else 0 {
      WordIs(block, i);
    }
  }

  lemma EmptyDigest()
    ensures Digest([]) == [0xd4, 0x1d, 0x8c, 0xd9, 0x8f, 0x00, 0xb2, 0x04, 0xe9, 0x80, 0x09, 0x98, 0xec, 0xf8, 0x42, 0x7e]
  {
    var p := Padded([]);
    PaddedByte([], 0);
    forall j: nat | j < 64 ensures p[j] == if j == 0 then 0x80 else 0 { PaddedByte([], j); }
    hide *;
    OneBlock([]);
    EmptyBlock(p);
    EmptyCompressed(p);
    EmptyOutput();
  }

  lemma EmptyOutput()
    ensures Output(State(0xd98c1dd4, 0x04b2008f, 0x980980e9, 0x7e42f8ec)) ==
            [0xd4, 0x1d, 0x8c, 0xd9, 0x8f, 0x00, 0xb2, 0x04, 0xe9, 0x80, 0x09, 0x98, 0xec, 0xf8, 0x42, 0x7e]
  {
  }

  lemma AbcBlock(block: Text)
    requires |block| == 64 && block[0] == 97 && block[1] == 98 && block[2] == 99 && block[3] == 0x80 && block[56] == 24
    requires forall j :: 3 < j < 64 && j != 56 ==> block[j] == 0
    ensures AbcWords(Words(block))
  {
    assert Four8(97, 98, 99, 0x80) == 0x80636261 && Four8(24, 0, 0, 0) == 24 && Four8(0, 0, 0, 0) == 0;
    hide Four8, Words;
    forall i: nat | i < 16 ensures Words(block)[i] == if i == 0 then 0x80636261 else if i == 14 then 24 else 0 {
      WordIs(block, i);
    }
  }

  lemma AbcPadded(t: Text)
    requires |t| == 3 && t[0] == 97 && t[1] == 98 && t[2] == 99
    ensures var p := Padded(t); |p| == 64 && AbcWords(Words(p))
  {
    PaddedByte(t, 0);
    var p := Padded(t);
    forall j: nat | j < 64 ensures p[j] == if j < 3 then t[j] else if j == 3 then 0x80 else if j == 56 then 24 else 0 {
      PaddedByte(t, j);
    }
    hide *;
    AbcBlock(p);
  }

  lemma AbcDigest()
    ensures Digest([97, 98, 99]) ==
            [0x90, 0x01, 0x50, 0x98, 0x3c, 0xd2, 0x4f, 0xb0, 0xd6, 0x96, 0x3f, 0x7d, 0x28, 0xe1, 0x7f, 0x72]
  {
    hide *;
    AbcPadded([97, 98, 99]);
    OneBlock([97, 98, 99]);
    AbcCompressed(Padded([97, 98, 99]));
    AbcOutput();
  }

  lemma AbcOutput()
    ensures Output(State(0x98500190, 0xb04fd23c, 0x7d3f96d6, 0x727fe128)) ==
            [0x90, 0x01, 0x50, 0x98, 0x3c, 0xd2, 0x4f, 0xb0, 0xd6, 0x96, 0x3f, 0x7d, 0x28, 0xe1, 0x7f, 0x72]
  {
  }

  /** The capital letters, the small ones, and the digits. */
  function LettersAndDigits(): (t: Text)
    ensures |t| == 62
  {
    seq(26, i => 65 + i) + seq(26, i => 97 + i) + seq(10, i => 48 + i)
  }

  lemma Written1()
    ensures Four8(65, 66, 67, 68) == 0x44434241
    ensures Four8(69, 70, 71, 72) == 0x48474645
    ensures Four8(73, 74, 75, 76) == 0x4c4b4a49
    ensures Four8(77, 78, 79, 80) == 0x504f4e4d
  {
  }

  lemma Written2()
    ensures Four8(81, 82, 83, 84) == 0x54535251
    ensures Four8(85, 86, 87, 88) == 0x58575655
    ensures Four8(89, 90, 97, 98) == 0x62615a59
    ensures Four8(99, 100, 101, 102) == 0x66656463
  {
  }

  lemma Written3()
    ensures Four8(103, 104, 105, 106) == 0x6a696867
    ensures Four8(107, 108, 109, 110) == 0x6e6d6c6b
    ensures Four8(111, 112, 113, 114) == 0x7271706f
    ensures Four8(115, 116, 117, 118) == 0x76757473
  {
  }

  lemma Written4()
    ensures Four8(119, 120, 121, 122) == 0x7a797877
    ensures Four8(48, 49, 50, 51) == 0x33323130
    ensures Four8(52, 53, 54, 55) == 0x37363534
    ensures Four8(56, 57, 128, 0) == 0x00803938
  {
  }

  lemma FirstBlock(block: Text)
    requires |block| == 64 && block[62] == 0x80 && block[63] == 0
    requires forall j :: 0 <= j < 26 ==> block[j] == 65 + j
    requires forall j :: 26 <= j < 52 ==> block[j] == 71 + j
    requires forall j :: 52 <= j < 62 ==> block[j] == j - 4
    ensures FirstWords(Words(block))
  {
    hide Words, Four8;
    Written1();
    Written2();
    Written3();
    Written4();
    WordFrom(block, 0, 65, 66, 67, 68);
    WordFrom(block, 1, 69, 70, 71, 72);
    WordFrom(block, 2, 73, 74, 75, 76);
    WordFrom(block, 3, 77, 78, 79, 80);
    WordFrom(block, 4, 81, 82, 83, 84);
    WordFrom(block, 5, 85, 86, 87, 88);
    WordFrom(block, 6, 89, 90, 97, 98);
    WordFrom(block, 7, 99, 100, 101, 102);
    WordFrom(block, 8, 103, 104, 105, 106);
    WordFrom(block, 9, 107, 108, 109, 110);
    WordFrom(block, 10, 111, 112, 113, 114);
    WordFrom(block, 11, 115, 116, 117, 118);
    WordFrom(block, 12, 119, 120, 121, 122);
    WordFrom(block, 13, 48, 49, 50, 51);
    WordFrom(block, 14, 52, 53, 54, 55);
    WordFrom(block, 15, 56, 57, 128, 0);
  }

  lemma SecondBlock(block: Text)
    requires |block| == 64 && block[56] == 0xf0 && block[57] == 0x01
    requires forall j :: 0 <= j < 64 && j != 56 && j != 57 ==> block[j] == 0
    ensures SecondWords(Words(block))
  {
    assert Four8(0xf0, 0x01, 0, 0) == 0x1f0 && Four8(0, 0, 0, 0) == 0;
    hide Four8, Words;
    forall i: nat | i < 16 ensures Words(block)[i] == if i == 14 then 0x1f0 else 0 {
      WordIs(block, i);
    }
  }

  lemma LettersAt(block: Text)
    requires |block| == 64 && forall j :: 0 <= j < 62 ==> block[j] == LettersAndDigits()[j]
    ensures forall j :: 0 <= j < 26 ==> block[j] == 65 + j
    ensures forall j :: 26 <= j < 52 ==> block[j] == 71 + j
    ensures forall j :: 52 <= j < 62 ==> block[j] == j - 4
  {
  }

  lemma LettersPadded(t: Text)
    requires |t| == 62
    ensures var p := Padded(t);
      |p| == 128 && forall j :: 0 <= j < 128 ==>
        p[j] == if j < 62 then t[j] else if j == 62 then 0x80 else if j == 120 then 0xf0 else if j == 121 then 1 else 0
  {
    PaddedByte(t, 0);
    forall j: nat | j < 128
      ensures Padded(t)[j] == if j < 62 then t[j] else if j == 62 then 0x80 else if j == 120 then 0xf0 else if j == 121 then 1 else 0
    {
      PaddedByte(t, j);
    }
  }

  lemma LettersAndDigitsDigest()
    ensures Digest(LettersAndDigits()) ==
            [0xd1, 0x74, 0xab, 0x98, 0xd2, 0x77, 0xd9, 0xf5, 0xa5, 0x61, 0x1c, 0x2c, 0x9f, 0x41, 0x9d, 0x9f]
  {
    hide *;
    var t := LettersAndDigits();
    var p := Padded(t);
    LettersPadded(t);
    TwoBlocks(t);
    LettersAt(p[..64]);
    FirstBlock(p[..64]);
    FirstCompressed(p[..64]);
    SecondBlock(p[64..]);
    SecondCompressed(p[64..]);
    LastOutput();
  }

  lemma LastOutput()
    ensures Output(State(0x98ab74d1, 0xf5d977d2, 0x2c1c61a5, 0x9f9d419f)) ==
            [0xd1, 0x74, 0xab, 0x98, 0xd2, 0x77, 0xd9, 0xf5, 0xa5, 0x61, 0x1c, 0x2c, 0x9f, 0x41, 0x9d, 0x9f]
  {
  }

  // ---------- The auxiliary functions, on any set of bits ----------

  /** The first chooses by `x`. */
  lemma FirstAux(x: bv32, y: bv32, z: bv32, mask: bv32)
    ensures x & mask == mask ==> Aux(0, x, y, z) & mask == y & mask
    ensures x & mask == 0 ==> Aux(0, x, y, z) & mask == z & mask
  {
  }

  /** The second chooses by `z`. */
  lemma SecondAux(x: bv32, y: bv32, z: bv32, mask: bv32)
    ensures z & mask == mask ==> Aux(16, x, y, z) & mask == x & mask
    ensures z & mask == 0 ==> Aux(16, x, y, z) & mask == y & mask
  {
  }

  /** The third is `z` where the others agree, and its complement elsewhere. */
  lemma ThirdAux(x: bv32, y: bv32, z: bv32, mask: bv32)
    ensures x & mask == y & mask ==> Aux(32, x, y, z) & mask == z & mask
    ensures x & mask == !y & mask ==> Aux(32, x, y, z) & mask == !z & mask
  {
  }

  /** The fourth is the complement of `y` where `z` is clear; elsewhere it says
      whether the others differ. */
  lemma FourthAux(x: bv32, y: bv32, z: bv32, mask: bv32)
    ensures z & mask == 0 ==> Aux(48, x, y, z) & mask == !y & mask
    ensures z & mask == mask ==> Aux(48, x, y, z) & mask == (x ^ y) & mask
  {
  }

  lemma AuxRounds(i: nat, x: bv32, y: bv32, z: bv32)
    requires i < 64
    ensures Aux(i, x, y, z) == Aux(i / 16 * 16, x, y, z)
  {
  }

  // ---------- The length ----------

  function Number(t: Text): nat {
    if t == [] then 0 else t[0] + 256 * Number(t[1..])
  }

  function Power(k: nat): (r: nat)
    ensures r >= 1
  {
    if k == 0 then 1 else 256 * Power(k - 1)
  }

  lemma {:induction false} LittleEndianIs(n: nat, k: nat)
    requires n < Power(k)
    ensures Number(LittleEndian(n, k)) == n
  {
    if k > 0 {
      LittleEndianIs(n / 256, k - 1);
      assert LittleEndian(n, k)[1..] == LittleEndian(n / 256, k - 1);
    }
  }

  /** The length in bits, whatever goes beyond 64 bits dropped. */
  lemma LengthFieldIs(len: nat)
    ensures Number(LengthField(len)) == len * 8 % 0x1_0000_0000_0000_0000
  {
    assert Power(8) == 0x1_0000_0000_0000_0000;
    LittleEndianIs(len * 8 % 0x1_0000_0000_0000_0000, 8);
  }
}
