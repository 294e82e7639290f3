/**
  The first two digests of the test suite in section A.5 of RFC 1321, as literal bytes:
  the whole computation, step by step, from the padding to the output.
*/
module Md5Vectors {
  import opened Bytes
  import opened Md5

  // ----------------------------------------------------- the output

  lemma SameWord(o: seq<Octet>, n: nat, w: seq<Octet>)
    requires 4 * n + 4 <= |o| && |w| == 4 && o[4 * n..4 * n + 4] == w
    ensures WordAt(o, n) == WordAt(w, 0)
  {
    assert o[4 * n] == w[0] && o[4 * n + 1] == w[1] && o[4 * n + 2] == w[2] && o[4 * n + 3] == w[3];
  }

  lemma WordAgain(v: Word)
    ensures |WordOctets(v)| == 4 && WordAt(WordOctets(v), 0) == v
  {
  }

  /** Section 3.5: the words come out in order, each with its low-order byte first. */
  lemma OutputWords(st: State)
    ensures var o := Output(st);
            && |o| == 16
            && WordAt(o, 0) == st.a && WordAt(o, 1) == st.b && WordAt(o, 2) == st.c && WordAt(o, 3) == st.d
  {
    WordAgain(st.a);
    WordAgain(st.b);
    WordAgain(st.c);
    WordAgain(st.d);
    hide WordOctets;
    var a, b, c, d := WordOctets(st.a), WordOctets(st.b), WordOctets(st.c), WordOctets(st.d);
    var o := a + b + c + d;
    assert o[0..4] == a && o[4..8] == b && o[8..12] == c && o[12..16] == d;
    SameWord(o, 0, a);
    SameWord(o, 1, b);
    SameWord(o, 2, c);
    SameWord(o, 3, d);
  }

  // ------------------------------------------------------ the length

  /** The number with these digits in base 256, low-order first. */
  ghost function NumberOf(ds: seq<nat>): nat {
    if ds == [] then 0 else ds[0] + 256 * NumberOf(ds[1..])
  }

  lemma NothingAbove(v: nat)
    requires v < 0x1_0000_0000_0000_0000
    ensures Drop8(v, 8) == 0
  {
    assert Drop8(v, 1) < 0x100_0000_0000_0000;
    assert Drop8(v, 2) < 0x1_0000_0000_0000;
    assert Drop8(v, 3) < 0x100_0000_0000;
    assert Drop8(v, 4) < 0x1_0000_0000;
    assert Drop8(v, 5) < 0x100_0000;
    assert Drop8(v, 6) < 0x1_0000;
    assert Drop8(v, 7) < 0x100;
  }

  lemma {:induction false} DigitsFrom(v: nat, ds: seq<nat>, k: nat)
    requires k <= 8 && |ds| == 8 && (forall j :: 0 <= j < 8 ==> ds[j] == Drop8(v, j) % 256) && Drop8(v, 8) == 0
    ensures NumberOf(ds[k..]) == Drop8(v, k)
    decreases 8 - k
  {
    if k < 8 {
      DigitsFrom(v, ds, k + 1);
      assert ds[k..][1..] == ds[k + 1..] && Drop8(v, k + 1) == Drop8(v, k) / 256;
    }
  }

  /** Section 3.2: the octets are the eight digits in base 256 of the length in bits, modulo 2^64. */
  lemma LengthIsWritten(n: nat) returns (ds: seq<nat>)
    ensures |LengthOctets(n)| == |ds| == 8
    ensures forall k :: 0 <= k < 8 ==> ds[k] < 256 && LengthOctets(n)[k] == ds[k] as bv8
    ensures NumberOf(ds) == (n * 8) % 0x1_0000_0000_0000_0000
  {
    var v := (n * 8) % 0x1_0000_0000_0000_0000;
    ds := seq(8, k requires 0 <= k < 8 => Drop8(v, k) % 256);
    NothingAbove(v);
    DigitsFrom(v, ds, 0);
    assert ds[0..] == ds;
  }

  // ---------------------------------------------------- the padded blocks

  /** The empty message with its padding, as words. */
  ghost predicate EmptyBlock(x: seq<Word>) {
    |x| == 16 && x[0] == 0x80 && forall k :: 1 <= k < 16 ==> x[k] == 0
  }

  /** The message "a" with its padding, as words. */
  ghost predicate LetterABlock(x: seq<Word>) {
    |x| == 16 && x[0] == 0x8061 && x[14] == 8 && forall k :: 1 <= k < 16 && k != 14 ==> x[k] == 0
  }

  lemma EmptySteps1()
    ensures Operation(0, 0x67452301, 0xefcdab89, 0x98badcfe, 0x10325476, 0x80, 0xd76aa478, 7) == 0xa5202774
    ensures Operation(0, 0x10325476, 0xa5202774, 0xefcdab89, 0x98badcfe, 0x0, 0xe8c7b756, 12) == 0xf59592dd
    ensures Operation(0, 0x98badcfe, 0xf59592dd, 0xa5202774, 0xefcdab89, 0x0, 0x242070db, 17) == 0xe7f06b23
    ensures Operation(0, 0xefcdab89, 0xe7f06b23, 0xf59592dd, 0xa5202774, 0x0, 0xc1bdceee, 22) == 0x1b163203
    ensures Operation(0, 0xa5202774, 0x1b163203, 0xe7f06b23, 0xf59592dd, 0x0, 0xf57c0faf, 7) == 0x32033344
    ensures Operation(0, 0xf59592dd, 0x32033344, 0x1b163203, 0xe7f06b23, 0x0, 0x4787c62a, 12) == 0x2f35d494
    ensures Operation(0, 0xe7f06b23, 0x2f35d494, 0x32033344, 0x1b163203, 0x0, 0xa8304613, 17) == 0xf5b158db
    ensures Operation(0, 0x1b163203, 0xf5b158db, 0x2f35d494, 0x32033344, 0x0, 0xfd469501, 22) == 0x9bc13ce9
    ensures Operation(0, 0x32033344, 0x9bc13ce9, 0xf5b158db, 0x2f35d494, 0x0, 0x698098d8, 7) == 0x3893b991
    ensures Operation(0, 0x2f35d494, 0x3893b991, 0x9bc13ce9, 0xf5b158db, 0x0, 0x8b44f7af, 12) == 0xfce4a312
    ensures Operation(0, 0xf5b158db, 0xfce4a312, 0x3893b991, 0x9bc13ce9, 0x0, 0xffff5bb1, 17) == 0xe1ef0576
    ensures Operation(0, 0x9bc13ce9, 0xe1ef0576, 0xfce4a312, 0x3893b991, 0x0, 0x895cd7be, 22) == 0x70768a29
    ensures Operation(0, 0x3893b991, 0x70768a29, 0xe1ef0576, 0xfce4a312, 0x0, 0x6b901122, 7) == 0xf56c7cf1
    ensures Operation(0, 0xfce4a312, 0xf56c7cf1, 0x70768a29, 0xe1ef0576, 0x0, 0xfd987193, 12) == 0x374943a7
    ensures Operation(0, 0xe1ef0576, 0x374943a7, 0xf56c7cf1, 0x70768a29, 0x0, 0xa679438e, 17) == 0x5aa53f75
    ensures Operation(0, 0x70768a29, 0x5aa53f75, 0x374943a7, 0xf56c7cf1, 0x0, 0x49b40821, 22) == 0xd6819c6a
  {
  }

  lemma EmptyRound1(x: seq<Word>)
    requires EmptyBlock(x)
    ensures StepsFrom(State(0x67452301, 0xefcdab89, 0x98badcfe, 0x10325476), x, 0) == StepsFrom(State(0xf56c7cf1, 0xd6819c6a, 0x5aa53f75, 0x374943a7), x, 16)
  {
    hide Operation, T, WordIndex, Amount, StepsFrom;
    Constants1();
    EmptySteps1();
    FourSteps(State(0x67452301, 0xefcdab89, 0x98badcfe, 0x10325476), x, 0, 0xa5202774, 0xf59592dd, 0xe7f06b23, 0x1b163203);
    FourSteps(State(0xa5202774, 0x1b163203, 0xe7f06b23, 0xf59592dd), x, 4, 0x32033344, 0x2f35d494, 0xf5b158db, 0x9bc13ce9);
    FourSteps(State(0x32033344, 0x9bc13ce9, 0xf5b158db, 0x2f35d494), x, 8, 0x3893b991, 0xfce4a312, 0xe1ef0576, 0x70768a29);
    FourSteps(State(0x3893b991, 0x70768a29, 0xe1ef0576, 0xfce4a312), x, 12, 0xf56c7cf1, 0x374943a7, 0x5aa53f75, 0xd6819c6a);
  }

  lemma EmptySteps2()
    ensures Operation(1, 0xf56c7cf1, 0xd6819c6a, 0x5aa53f75, 0x374943a7, 0x0, 0xf61e2562, 5) == 0x1c7d7513
    ensures Operation(1, 0x374943a7, 0x1c7d7513, 0xd6819c6a, 0x5aa53f75, 0x0, 0xc040b340, 9) == 0x7bd57a3a
    ensures Operation(1, 0x5aa53f75, 0x7bd57a3a, 0x1c7d7513, 0xd6819c6a, 0x0, 0x265e5a51, 14) == 0xc095f13a
    ensures Operation(1, 0xd6819c6a, 0xc095f13a, 0x7bd57a3a, 0x1c7d7513, 0x80, 0xe9b6c7aa, 20) == 0xbd782e17
    ensures Operation(1, 0x1c7d7513, 0xbd782e17, 0xc095f13a, 0x7bd57a3a, 0x0, 0xd62f105d, 5) == 0x3d1e3e6c
    ensures Operation(1, 0x7bd57a3a, 0x3d1e3e6c, 0xbd782e17, 0xc095f13a, 0x0, 0x02441453, 9) == 0x68b7b3e3
    ensures Operation(1, 0xc095f13a, 0x68b7b3e3, 0x3d1e3e6c, 0xbd782e17, 0x0, 0xd8a1e681, 14) == 0xeb41643e
    ensures Operation(1, 0xbd782e17, 0xeb41643e, 0x68b7b3e3, 0x3d1e3e6c, 0x0, 0xe7d3fbc8, 20) == 0xe422531a
    ensures Operation(1, 0x3d1e3e6c, 0xe422531a, 0xeb41643e, 0x68b7b3e3, 0x0, 0x21e1cde6, 5) == 0x306ec122
    ensures Operation(1, 0x68b7b3e3, 0x306ec122, 0xe422531a, 0xeb41643e, 0x0, 0xc33707d6, 9) == 0xd28c77c2
    ensures Operation(1, 0xeb41643e, 0xd28c77c2, 0x306ec122, 0xe422531a, 0x0, 0xf4d50d87, 14) == 0xa3c663da
    ensures Operation(1, 0xe422531a, 0xa3c663da, 0xd28c77c2, 0x306ec122, 0x0, 0x455a14ed, 20) == 0xa0572807
    ensures Operation(1, 0x306ec122, 0xa0572807, 0xa3c663da, 0xd28c77c2, 0x0, 0xa9e3e905, 5) == 0x13707036
    ensures Operation(1, 0xd28c77c2, 0x13707036, 0xa0572807, 0xa3c663da, 0x0, 0xfcefa3f8, 9) == 0xae7813db
    ensures Operation(1, 0xa3c663da, 0xae7813db, 0x13707036, 0xa0572807, 0x0, 0x676f02d9, 14) == 0x1c31c384
    ensures Operation(1, 0xa0572807, 0x1c31c384, 0xae7813db, 0x13707036, 0x0, 0x8d2a4c8a, 20) == 0xa2205f1f
  {
  }

  lemma EmptyRound2(x: seq<Word>)
    requires EmptyBlock(x)
    ensures StepsFrom(State(0xf56c7cf1, 0xd6819c6a, 0x5aa53f75, 0x374943a7), x, 16) == StepsFrom(State(0x13707036, 0xa2205f1f, 0x1c31c384, 0xae7813db), x, 32)
  {
    hide Operation, T, WordIndex, Amount, StepsFrom;
    Constants2();
    EmptySteps2();
    FourSteps(State(0xf56c7cf1, 0xd6819c6a, 0x5aa53f75, 0x374943a7), x, 16, 0x1c7d7513, 0x7bd57a3a, 0xc095f13a, 0xbd782e17);
    FourSteps(State(0x1c7d7513, 0xbd782e17, 0xc095f13a, 0x7bd57a3a), x, 20, 0x3d1e3e6c, 0x68b7b3e3, 0xeb41643e, 0xe422531a);
    FourSteps(State(0x3d1e3e6c, 0xe422531a, 0xeb41643e, 0x68b7b3e3), x, 24, 0x306ec122, 0xd28c77c2, 0xa3c663da, 0xa0572807);
    FourSteps(State(0x306ec122, 0xa0572807, 0xa3c663da, 0xd28c77c2), x, 28, 0x13707036, 0xae7813db, 0x1c31c384, 0xa2205f1f);
  }

  lemma EmptySteps3()
    ensures Operation(2, 0x13707036, 0xa2205f1f, 0x1c31c384, 0xae7813db, 0x0, 0xfffa3942, 4) == 0xdf63eaa1
    ensures Operation(2, 0xae7813db, 0xdf63eaa1, 0xa2205f1f, 0x1c31c384, 0x0, 0x8771f681, 11) == 0xc3689f5b
    ensures Operation(2, 0x1c31c384, 0xc3689f5b, 0xdf63eaa1, 0xa2205f1f, 0x0, 0x6d9d6122, 16) == 0x12f3e755
    ensures Operation(2, 0xa2205f1f, 0x12f3e755, 0xc3689f5b, 0xdf63eaa1, 0x0, 0xfde5380c, 23) == 0x004b6669
    ensures Operation(2, 0xdf63eaa1, 0x004b6669, 0x12f3e755, 0xc3689f5b, 0x0, 0xa4beea44, 4) == 0x5f7a9b2e
    ensures Operation(2, 0xc3689f5b, 0x5f7a9b2e, 0x004b6669, 0x12f3e755, 0x0, 0x4bdecfa9, 11) == 0xabc34e16
    ensures Operation(2, 0x12f3e755, 0xabc34e16, 0x5f7a9b2e, 0x004b6669, 0x0, 0xf6bb4b60, 16) == 0x91ca4cb7
    ensures Operation(2, 0x004b6669, 0x91ca4cb7, 0xabc34e16, 0x5f7a9b2e, 0x0, 0xbebfbc70, 23) == 0xc5dc8c15
    ensures Operation(2, 0x5f7a9b2e, 0xc5dc8c15, 0x91ca4cb7, 0xabc34e16, 0x0, 0x289b7ec6, 4) == 0x4497169d
    ensures Operation(2, 0xabc34e16, 0x4497169d, 0xc5dc8c15, 0x91ca4cb7, 0x80, 0xeaa127fa, 11) == 0x76fd93d4
    ensures Operation(2, 0x91ca4cb7, 0x76fd93d4, 0x4497169d, 0xc5dc8c15, 0x0, 0xd4ef3085, 16) == 0xfd95f243
    ensures Operation(2, 0xc5dc8c15, 0xfd95f243, 0x76fd93d4, 0x4497169d, 0x0, 0x04881d05, 23) == 0x0fe32453
    ensures Operation(2, 0x4497169d, 0x0fe32453, 0xfd95f243, 0x76fd93d4, 0x0, 0xd9d4d039, 4) == 0x3f55edfd
    ensures Operation(2, 0x76fd93d4, 0x3f55edfd, 0x0fe32453, 0xfd95f243, 0x0, 0xe6db99e5, 11) == 0x22a31f54
    ensures Operation(2, 0xfd95f243, 0x22a31f54, 0x3f55edfd, 0x0fe32453, 0x0, 0x1fa27cf8, 16) == 0x68d84ea2
    ensures Operation(2, 0x0fe32453, 0x68d84ea2, 0x22a31f54, 0x3f55edfd, 0x0, 0xc4ac5665, 23) == 0xca7d2dbd
  {
  }

  lemma EmptyRound3(x: seq<Word>)
    requires EmptyBlock(x)
    ensures StepsFrom(State(0x13707036, 0xa2205f1f, 0x1c31c384, 0xae7813db), x, 32) == StepsFrom(State(0x3f55edfd, 0xca7d2dbd, 0x68d84ea2, 0x22a31f54), x, 48)
  {
    hide Operation, T, WordIndex, Amount, StepsFrom;
    Constants3();
    EmptySteps3();
    FourSteps(State(0x13707036, 0xa2205f1f, 0x1c31c384, 0xae7813db), x, 32, 0xdf63eaa1, 0xc3689f5b, 0x12f3e755, 0x004b6669);
    FourSteps(State(0xdf63eaa1, 0x004b6669, 0x12f3e755, 0xc3689f5b), x, 36, 0x5f7a9b2e, 0xabc34e16, 0x91ca4cb7, 0xc5dc8c15);
    FourSteps(State(0x5f7a9b2e, 0xc5dc8c15, 0x91ca4cb7, 0xabc34e16), x, 40, 0x4497169d, 0x76fd93d4, 0xfd95f243, 0x0fe32453);
    FourSteps(State(0x4497169d, 0x0fe32453, 0xfd95f243, 0x76fd93d4), x, 44, 0x3f55edfd, 0x22a31f54, 0x68d84ea2, 0xca7d2dbd);
  }

  lemma EmptySteps4()
    ensures Operation(3, 0x3f55edfd, 0xca7d2dbd, 0x68d84ea2, 0x22a31f54, 0x80, 0xf4292244, 6) == 0x93aa2577
    ensures Operation(3, 0x22a31f54, 0x93aa2577, 0xca7d2dbd, 0x68d84ea2, 0x0, 0x432aff97, 10) == 0x1688dc85
    ensures Operation(3, 0x68d84ea2, 0x1688dc85, 0x93aa2577, 0xca7d2dbd, 0x0, 0xab9423a7, 15) == 0xcd85b8cb
    ensures Operation(3, 0xca7d2dbd, 0xcd85b8cb, 0x1688dc85, 0x93aa2577, 0x0, 0xfc93a039, 21) == 0x561e0689
    ensures Operation(3, 0x93aa2577, 0x561e0689, 0xcd85b8cb, 0x1688dc85, 0x0, 0x655b59c3, 6) == 0x5625a114
    ensures Operation(3, 0x1688dc85, 0x5625a114, 0x561e0689, 0xcd85b8cb, 0x0, 0x8f0ccc92, 10) == 0x3450f42b
    ensures Operation(3, 0xcd85b8cb, 0x3450f42b, 0x5625a114, 0x561e0689, 0x0, 0xffeff47d, 15) == 0x392ad0d0
    ensures Operation(3, 0x561e0689, 0x392ad0d0, 0x3450f42b, 0x5625a114, 0x0, 0x85845dd1, 21) == 0x1e77fa61
    ensures Operation(3, 0x5625a114, 0x1e77fa61, 0x392ad0d0, 0x3450f42b, 0x0, 0x6fa87e4f, 6) == 0x474a9c8c
    ensures Operation(3, 0x3450f42b, 0x474a9c8c, 0x1e77fa61, 0x392ad0d0, 0x0, 0xfe2ce6e0, 10) == 0xdfce00bc
    ensures Operation(3, 0x392ad0d0, 0xdfce00bc, 0x474a9c8c, 0x1e77fa61, 0x0, 0xa3014314, 15) == 0x36594b14
    ensures Operation(3, 0x1e77fa61, 0x36594b14, 0xdfce00bc, 0x474a9c8c, 0x0, 0x4e0811a1, 21) == 0x30130182
    ensures Operation(3, 0x474a9c8c, 0x30130182, 0x36594b14, 0xdfce00bc, 0x0, 0xf7537e82, 6) == 0x7246fad3
    ensures Operation(3, 0xdfce00bc, 0x7246fad3, 0x30130182, 0x36594b14, 0x0, 0xbd3af235, 10) == 0x6e10a476
    ensures Operation(3, 0x36594b14, 0x6e10a476, 0x7246fad3, 0x30130182, 0x0, 0x2ad7d2bb, 15) == 0xff4ea3eb
    ensures Operation(3, 0x30130182, 0xff4ea3eb, 0x6e10a476, 0x7246fad3, 0x0, 0xeb86d391, 21) == 0x14e45506
  {
  }

  lemma EmptyRound4(x: seq<Word>)
    requires EmptyBlock(x)
    ensures StepsFrom(State(0x3f55edfd, 0xca7d2dbd, 0x68d84ea2, 0x22a31f54), x, 48) == StepsFrom(State(0x7246fad3, 0x14e45506, 0xff4ea3eb, 0x6e10a476), x, 64)
  {
    hide Operation, T, WordIndex, Amount, StepsFrom;
    Constants4();
    EmptySteps4();
    FourSteps(State(0x3f55edfd, 0xca7d2dbd, 0x68d84ea2, 0x22a31f54), x, 48, 0x93aa2577, 0x1688dc85, 0xcd85b8cb, 0x561e0689);
    FourSteps(State(0x93aa2577, 0x561e0689, 0xcd85b8cb, 0x1688dc85), x, 52, 0x5625a114, 0x3450f42b, 0x392ad0d0, 0x1e77fa61);
    FourSteps(State(0x5625a114, 0x1e77fa61, 0x392ad0d0, 0x3450f42b), x, 56, 0x474a9c8c, 0xdfce00bc, 0x36594b14, 0x30130182);
    FourSteps(State(0x474a9c8c, 0x30130182, 0x36594b14, 0xdfce00bc), x, 60, 0x7246fad3, 0x6e10a476, 0xff4ea3eb, 0x14e45506);
  }

  lemma LetterASteps1()
    ensures Operation(0, 0x67452301, 0xefcdab89, 0x98badcfe, 0x10325476, 0x8061, 0xd76aa478, 7) == 0xa56017f4
    ensures Operation(0, 0x10325476, 0xa56017f4, 0xefcdab89, 0x98badcfe, 0x0, 0xe8c7b756, 12) == 0xf2d58361
    ensures Operation(0, 0x98badcfe, 0xf2d58361, 0xa56017f4, 0xefcdab89, 0x0, 0x242070db, 17) == 0xe65857a7
    ensures Operation(0, 0xefcdab89, 0xe65857a7, 0xf2d58361, 0xa56017f4, 0x0, 0xc1bdceee, 22) == 0x607d9686
    ensures Operation(0, 0xa56017f4, 0x607d9686, 0xe65857a7, 0xf2d58361, 0x0, 0xf57c0faf, 7) == 0x3a9d5bcc
    ensures Operation(0, 0xf2d58361, 0x3a9d5bcc, 0x607d9686, 0xe65857a7, 0x0, 0x4787c62a, 12) == 0xe0a07db7
    ensures Operation(0, 0xe65857a7, 0xe0a07db7, 0x3a9d5bcc, 0x607d9686, 0x0, 0xa8304613, 17) == 0xd31ddc83
    ensures Operation(0, 0x607d9686, 0xd31ddc83, 0xe0a07db7, 0x3a9d5bcc, 0x0, 0xfd469501, 22) == 0xa8af6da5
    ensures Operation(0, 0x3a9d5bcc, 0xa8af6da5, 0xd31ddc83, 0xe0a07db7, 0x0, 0x698098d8, 7) == 0xbe580957
    ensures Operation(0, 0xe0a07db7, 0xbe580957, 0xa8af6da5, 0xd31ddc83, 0x0, 0x8b44f7af, 12) == 0xf386bea6
    ensures Operation(0, 0xd31ddc83, 0xf386bea6, 0xbe580957, 0xa8af6da5, 0x0, 0xffff5bb1, 17) == 0xf5fdd933
    ensures Operation(0, 0xa8af6da5, 0xf5fdd933, 0xf386bea6, 0xbe580957, 0x0, 0x895cd7be, 22) == 0x68493d6a
    ensures Operation(0, 0xbe580957, 0x68493d6a, 0xf5fdd933, 0xf386bea6, 0x0, 0x6b901122, 7) == 0x44244cf8
    ensures Operation(0, 0xf386bea6, 0x44244cf8, 0x68493d6a, 0xf5fdd933, 0x0, 0xfd987193, 12) == 0xd0fe9b27
    ensures Operation(0, 0xf5fdd933, 0xd0fe9b27, 0x44244cf8, 0x68493d6a, 0x8, 0xa679438e, 17) == 0x6360a45f
    ensures Operation(0, 0x68493d6a, 0x6360a45f, 0xd0fe9b27, 0x44244cf8, 0x0, 0x49b40821, 22) == 0xf01e3ce2
  {
  }

  lemma LetterARound1(x: seq<Word>)
    requires LetterABlock(x)
    ensures StepsFrom(State(0x67452301, 0xefcdab89, 0x98badcfe, 0x10325476), x, 0) == StepsFrom(State(0x44244cf8, 0xf01e3ce2, 0x6360a45f, 0xd0fe9b27), x, 16)
  {
    hide Operation, T, WordIndex, Amount, StepsFrom;
    Constants1();
    LetterASteps1();
    FourSteps(State(0x67452301, 0xefcdab89, 0x98badcfe, 0x10325476), x, 0, 0xa56017f4, 0xf2d58361, 0xe65857a7, 0x607d9686);
    FourSteps(State(0xa56017f4, 0x607d9686, 0xe65857a7, 0xf2d58361), x, 4, 0x3a9d5bcc, 0xe0a07db7, 0xd31ddc83, 0xa8af6da5);
    FourSteps(State(0x3a9d5bcc, 0xa8af6da5, 0xd31ddc83, 0xe0a07db7), x, 8, 0xbe580957, 0xf386bea6, 0xf5fdd933, 0x68493d6a);
    FourSteps(State(0xbe580957, 0x68493d6a, 0xf5fdd933, 0xf386bea6), x, 12, 0x44244cf8, 0xd0fe9b27, 0x6360a45f, 0xf01e3ce2);
  }

  lemma LetterASteps2()
    ensures Operation(1, 0x44244cf8, 0xf01e3ce2, 0x6360a45f, 0xd0fe9b27, 0x0, 0xf61e2562, 5) == 0x9c341767
    ensures Operation(1, 0xd0fe9b27, 0x9c341767, 0xf01e3ce2, 0x6360a45f, 0x0, 0xc040b340, 9) == 0x970ab3a9
    ensures Operation(1, 0x6360a45f, 0x970ab3a9, 0x9c341767, 0xf01e3ce2, 0x0, 0x265e5a51, 14) == 0xe39ffd23
    ensures Operation(1, 0xf01e3ce2, 0xe39ffd23, 0x970ab3a9, 0x9c341767, 0x8061, 0xe9b6c7aa, 20) == 0x8d25cc66
    ensures Operation(1, 0x9c341767, 0x8d25cc66, 0xe39ffd23, 0x970ab3a9, 0x0, 0xd62f105d, 5) == 0x8c444930
    ensures Operation(1, 0x970ab3a9, 0x8c444930, 0x8d25cc66, 0xe39ffd23, 0x0, 0x02441453, 9) == 0x7267097a
    ensures Operation(1, 0xe39ffd23, 0x7267097a, 0x8c444930, 0x8d25cc66, 0x0, 0xd8a1e681, 14) == 0x2dacb8a3
    ensures Operation(1, 0x8d25cc66, 0x2dacb8a3, 0x7267097a, 0x8c444930, 0x0, 0xe7d3fbc8, 20) == 0x373beab0
    ensures Operation(1, 0x8c444930, 0x373beab0, 0x2dacb8a3, 0x7267097a, 0x0, 0x21e1cde6, 5) == 0xf175e3ad
    ensures Operation(1, 0x7267097a, 0xf175e3ad, 0x373beab0, 0x2dacb8a3, 0x8, 0xc33707d6, 9) == 0x9d5df67e
    ensures Operation(1, 0x2dacb8a3, 0x9d5df67e, 0xf175e3ad, 0x373beab0, 0x0, 0xf4d50d87, 14) == 0x87b7f475
    ensures Operation(1, 0x373beab0, 0x87b7f475, 0x9d5df67e, 0xf175e3ad, 0x0, 0x455a14ed, 20) == 0xc8f891b4
    ensures Operation(1, 0xf175e3ad, 0xc8f891b4, 0x87b7f475, 0x9d5df67e, 0x0, 0xa9e3e905, 5) == 0x93842e98
    ensures Operation(1, 0x9d5df67e, 0x93842e98, 0xc8f891b4, 0x87b7f475, 0x0, 0xfcefa3f8, 9) == 0xc7043b64
    ensures Operation(1, 0x87b7f475, 0xc7043b64, 0x93842e98, 0xc8f891b4, 0x0, 0x676f02d9, 14) == 0x94a2ebee
    ensures Operation(1, 0xc8f891b4, 0x94a2ebee, 0xc7043b64, 0x93842e98, 0x0, 0x8d2a4c8a, 20) == 0x3745961f
  {
  }

  lemma LetterARound2(x: seq<Word>)
    requires LetterABlock(x)
    ensures StepsFrom(State(0x44244cf8, 0xf01e3ce2, 0x6360a45f, 0xd0fe9b27), x, 16) == StepsFrom(State(0x93842e98, 0x3745961f, 0x94a2ebee, 0xc7043b64), x, 32)
  {
    hide Operation, T, WordIndex, Amount, StepsFrom;
    Constants2();
    LetterASteps2();
    FourSteps(State(0x44244cf8, 0xf01e3ce2, 0x6360a45f, 0xd0fe9b27), x, 16, 0x9c341767, 0x970ab3a9, 0xe39ffd23, 0x8d25cc66);
    FourSteps(State(0x9c341767, 0x8d25cc66, 0xe39ffd23, 0x970ab3a9), x, 20, 0x8c444930, 0x7267097a, 0x2dacb8a3, 0x373beab0);
    FourSteps(State(0x8c444930, 0x373beab0, 0x2dacb8a3, 0x7267097a), x, 24, 0xf175e3ad, 0x9d5df67e, 0x87b7f475, 0xc8f891b4);
    FourSteps(State(0xf175e3ad, 0xc8f891b4, 0x87b7f475, 0x9d5df67e), x, 28, 0x93842e98, 0xc7043b64, 0x94a2ebee, 0x3745961f);
  }

  lemma LetterASteps3()
    ensures Operation(2, 0x93842e98, 0x3745961f, 0x94a2ebee, 0xc7043b64, 0x0, 0xfffa3942, 4) == 0xbd607d1e
    ensures Operation(2, 0xc7043b64, 0xbd607d1e, 0x3745961f, 0x94a2ebee, 0x0, 0x8771f681, 11) == 0xa6f72085
    ensures Operation(2, 0x94a2ebee, 0xa6f72085, 0xbd607d1e, 0x3745961f, 0x0, 0x6d9d6122, 16) == 0xbf8b4f98
    ensures Operation(2, 0x3745961f, 0xbf8b4f98, 0xa6f72085, 0xbd607d1e, 0x8, 0xfde5380c, 23) == 0xdaf7f308
    ensures Operation(2, 0xbd607d1e, 0xdaf7f308, 0xbf8b4f98, 0xa6f72085, 0x0, 0xa4beea44, 4) == 0x35a82a7a
    ensures Operation(2, 0xa6f72085, 0x35a82a7a, 0xdaf7f308, 0xbf8b4f98, 0x0, 0x4bdecfa9, 11) == 0x89e0ec97
    ensures Operation(2, 0xbf8b4f98, 0x89e0ec97, 0x35a82a7a, 0xdaf7f308, 0x0, 0xf6bb4b60, 16) == 0x5abe099c
    ensures Operation(2, 0xdaf7f308, 0x5abe099c, 0x89e0ec97, 0x35a82a7a, 0x0, 0xbebfbc70, 23) == 0xcf7e60db
    ensures Operation(2, 0x35a82a7a, 0xcf7e60db, 0x5abe099c, 0x89e0ec97, 0x0, 0x289b7ec6, 4) == 0x75c151e2
    ensures Operation(2, 0x89e0ec97, 0x75c151e2, 0xcf7e60db, 0x5abe099c, 0x8061, 0xeaa127fa, 11) == 0x942e0c86
    ensures Operation(2, 0x5abe099c, 0x942e0c86, 0x75c151e2, 0xcf7e60db, 0x0, 0xd4ef3085, 16) == 0x0c0e6ac4
    ensures Operation(2, 0xcf7e60db, 0x0c0e6ac4, 0x942e0c86, 0x75c151e2, 0x0, 0x04881d05, 23) == 0xcc6f5e9e
    ensures Operation(2, 0x75c151e2, 0xcc6f5e9e, 0x0c0e6ac4, 0x942e0c86, 0x0, 0xd9d4d039, 4) == 0x0ac50e18
    ensures Operation(2, 0x942e0c86, 0x0ac50e18, 0xcc6f5e9e, 0x0c0e6ac4, 0x0, 0xe6db99e5, 11) == 0x79ca7845
    ensures Operation(2, 0x0c0e6ac4, 0x79ca7845, 0x0ac50e18, 0xcc6f5e9e, 0x0, 0x1fa27cf8, 16) == 0x8a4a6356
    ensures Operation(2, 0xcc6f5e9e, 0x8a4a6356, 0x79ca7845, 0x0ac50e18, 0x0, 0xc4ac5665, 23) == 0x918f93bb
  {
  }

  lemma LetterARound3(x: seq<Word>)
    requires LetterABlock(x)
    ensures StepsFrom(State(0x93842e98, 0x3745961f, 0x94a2ebee, 0xc7043b64), x, 32) == StepsFrom(State(0x0ac50e18, 0x918f93bb, 0x8a4a6356, 0x79ca7845), x, 48)
  {
    hide Operation, T, WordIndex, Amount, StepsFrom;
    Constants3();
    LetterASteps3();
    FourSteps(State(0x93842e98, 0x3745961f, 0x94a2ebee, 0xc7043b64), x, 32, 0xbd607d1e, 0xa6f72085, 0xbf8b4f98, 0xdaf7f308);
    FourSteps(State(0xbd607d1e, 0xdaf7f308, 0xbf8b4f98, 0xa6f72085), x, 36, 0x35a82a7a, 0x89e0ec97, 0x5abe099c, 0xcf7e60db);
    FourSteps(State(0x35a82a7a, 0xcf7e60db, 0x5abe099c, 0x89e0ec97), x, 40, 0x75c151e2, 0x942e0c86, 0x0c0e6ac4, 0xcc6f5e9e);
    FourSteps(State(0x75c151e2, 0xcc6f5e9e, 0x0c0e6ac4, 0x942e0c86), x, 44, 0x0ac50e18, 0x79ca7845, 0x8a4a6356, 0x918f93bb);
  }

  lemma LetterASteps4()
    ensures Operation(3, 0x0ac50e18, 0x918f93bb, 0x8a4a6356, 0x79ca7845, 0x8061, 0xf4292244, 6) == 0xcab8fe42
    ensures Operation(3, 0x79ca7845, 0xcab8fe42, 0x918f93bb, 0x8a4a6356, 0x0, 0x432aff97, 10) == 0x6a4daeee
    ensures Operation(3, 0x8a4a6356, 0x6a4daeee, 0xcab8fe42, 0x918f93bb, 0x8, 0xab9423a7, 15) == 0x36269c3f
    ensures Operation(3, 0x918f93bb, 0x36269c3f, 0x6a4daeee, 0xcab8fe42, 0x0, 0xfc93a039, 21) == 0x1ee405eb
    ensures Operation(3, 0xcab8fe42, 0x1ee405eb, 0x36269c3f, 0x6a4daeee, 0x0, 0x655b59c3, 6) == 0x982c7861
    ensures Operation(3, 0x6a4daeee, 0x982c7861, 0x1ee405eb, 0x36269c3f, 0x0, 0x8f0ccc92, 10) == 0x6812a362
    ensures Operation(3, 0x36269c3f, 0x6812a362, 0x982c7861, 0x1ee405eb, 0x0, 0xffeff47d, 15) == 0x71fc7709
    ensures Operation(3, 0x1ee405eb, 0x71fc7709, 0x6812a362, 0x982c7861, 0x0, 0x85845dd1, 21) == 0x893501c0
    ensures Operation(3, 0x982c7861, 0x893501c0, 0x71fc7709, 0x6812a362, 0x0, 0x6fa87e4f, 6) == 0xfebd62fd
    ensures Operation(3, 0x6812a362, 0xfebd62fd, 0x893501c0, 0x71fc7709, 0x0, 0xfe2ce6e0, 10) == 0x28936a74
    ensures Operation(3, 0x71fc7709, 0x28936a74, 0xfebd62fd, 0x893501c0, 0x0, 0xa3014314, 15) == 0x53e33526
    ensures Operation(3, 0x893501c0, 0x53e33526, 0x28936a74, 0xfebd62fd, 0x0, 0x4e0811a1, 21) == 0xaa4d8ae3
    ensures Operation(3, 0xfebd62fd, 0xaa4d8ae3, 0x53e33526, 0x28936a74, 0x0, 0xf7537e82, 6) == 0x52309e0b
    ensures Operation(3, 0x28936a74, 0x52309e0b, 0xaa4d8ae3, 0x53e33526, 0x0, 0xbd3af235, 10) == 0x50f422f3
    ensures Operation(3, 0x53e33526, 0x50f422f3, 0x52309e0b, 0xaa4d8ae3, 0x0, 0x2ad7d2bb, 15) == 0x49dee633
    ensures Operation(3, 0xaa4d8ae3, 0x49dee633, 0x50f422f3, 0x52309e0b, 0x0, 0xeb86d391, 21) == 0xb8e94637
  {
  }

  lemma LetterARound4(x: seq<Word>)
    requires LetterABlock(x)
    ensures StepsFrom(State(0x0ac50e18, 0x918f93bb, 0x8a4a6356, 0x79ca7845), x, 48) == StepsFrom(State(0x52309e0b, 0xb8e94637, 0x49dee633, 0x50f422f3), x, 64)
  {
    hide Operation, T, WordIndex, Amount, StepsFrom;
    Constants4();
    LetterASteps4();
    FourSteps(State(0x0ac50e18, 0x918f93bb, 0x8a4a6356, 0x79ca7845), x, 48, 0xcab8fe42, 0x6a4daeee, 0x36269c3f, 0x1ee405eb);
    FourSteps(State(0xcab8fe42, 0x1ee405eb, 0x36269c3f, 0x6a4daeee), x, 52, 0x982c7861, 0x6812a362, 0x71fc7709, 0x893501c0);
    FourSteps(State(0x982c7861, 0x893501c0, 0x71fc7709, 0x6812a362), x, 56, 0xfebd62fd, 0x28936a74, 0x53e33526, 0xaa4d8ae3);
    FourSteps(State(0xfebd62fd, 0xaa4d8ae3, 0x53e33526, 0x28936a74), x, 60, 0x52309e0b, 0x50f422f3, 0x49dee633, 0xb8e94637);
  }

  // ------------------------------------------------------- the digests

  lemma OneBlockDigest(message: seq<Octet>, block: seq<Octet>, x: seq<Word>, last: State, sum: State)
    requires |block| == 64 && block == message + Padding(|message|) && x == WordsOf(block)
    requires StepsFrom(IV, x, 0) == last && sum == AddStates(last, IV)
    ensures Digest(message) == Output(sum)
  {
    hide StepsFrom, AddStates, Padding, Output;
    assert block[..64] == block && block[64..] == [];
    assert Compress(IV, block) == sum;
    assert Blocks(IV, block) == Blocks(sum, []) == sum;
  }

  lemma {:induction false} NothingLeft(v: nat, k: nat)
    requires v < 256 && k >= 1
    ensures Drop8(v, k) == 0
  {
    if k > 1 {
      NothingLeft(v, k - 1);
    }
  }

  lemma HighOctet(v: nat, k: nat)
    requires v < 256 && 1 <= k < 8
    ensures LengthOctet(v, k) == 0
  {
    NothingLeft(v, k);
  }

  lemma LowOctet()
    ensures LengthOctet(0, 0) == 0 && LengthOctet(8, 0) == 8
  {
    assert Drop8(0, 0) == 0 && Drop8(8, 0) == 8;
  }

  /** The length of a message of none or one byte. */
  lemma LengthOf(n: nat)
    requires n < 2
    ensures LengthOctets(n)[0] == (if n == 0 then 0 else 8) && forall k :: 1 <= k < 8 ==> LengthOctets(n)[k] == 0
  {
    hide LengthOctet;
    forall k | 1 <= k < 8 ensures LengthOctets(n)[k] == 0 {
      HighOctet(n * 8, k);
    }
    LowOctet();
  }

  lemma PaddedEmpty(block: seq<Octet>)
    requires block == Padding(0)
    ensures |block| == 64 && EmptyBlock(WordsOf(block))
  {
    assert PadLen(0) == 55;
    LengthOf(0);
    forall k | 1 <= k < 64 ensures block[k] == 0 {
    }
    forall n | 1 <= n < 16 ensures WordAt(block, n) == 0 {
    }
  }

  lemma EmptyOutput()
    ensures Output(State(0xd98c1dd4, 0x04b2008f, 0x980980e9, 0x7e42f8ec)) == [0xd4, 0x1d, 0x8c, 0xd9, 0x8f, 0x00, 0xb2, 0x04, 0xe9, 0x80, 0x09, 0x98, 0xec, 0xf8, 0x42, 0x7e]
  {
  }

  lemma LetterAOutput()
    ensures Output(State(0xb975c10c, 0xa8b6f1c0, 0xe299c331, 0x61267769)) == [0x0c, 0xc1, 0x75, 0xb9, 0xc0, 0xf1, 0xb6, 0xa8, 0x31, 0xc3, 0x99, 0xe2, 0x69, 0x77, 0x26, 0x61]
  {
  }

  /** MD5 ("") = d41d8cd98f00b204e9800998ecf8427e */
  lemma DigestOfNothing()
    ensures Digest([]) == [0xd4, 0x1d, 0x8c, 0xd9, 0x8f, 0x00, 0xb2, 0x04, 0xe9, 0x80, 0x09, 0x98, 0xec, 0xf8, 0x42, 0x7e]
  {
    var block := Padding(0);
    assert [] + block == block;
    PaddedEmpty(block);
    var x := WordsOf(block);
    EmptyRound1(x);
    EmptyRound2(x);
    EmptyRound3(x);
    EmptyRound4(x);
    hide StepsFrom, WordsOf, Padding, Output, Digest, EmptyBlock;
    OneBlockDigest([], block, x, State(0x7246fad3, 0x14e45506, 0xff4ea3eb, 0x6e10a476), State(0xd98c1dd4, 0x04b2008f, 0x980980e9, 0x7e42f8ec));
    EmptyOutput();
  }

  lemma PaddedLetterA(block: seq<Octet>)
    requires block == [0x61] + Padding(1)
    ensures |block| == 64 && LetterABlock(WordsOf(block))
  {
    assert PadLen(1) == 54;
    LengthOf(1);
    assert block[0] == 0x61 && block[1] == 0x80 && block[56] == 8;
    forall k | 2 <= k < 64 && k != 56 ensures block[k] == 0 {
    }
    forall n | 1 <= n < 16 && n != 14 ensures WordAt(block, n) == 0 {
    }
  }

  /** MD5 ("a") = 0cc175b9c0f1b6a831c399e269772661 */
  lemma DigestOfLetterA()
    ensures Digest([0x61]) == [0x0c, 0xc1, 0x75, 0xb9, 0xc0, 0xf1, 0xb6, 0xa8, 0x31, 0xc3, 0x99, 0xe2, 0x69, 0x77, 0x26, 0x61]
  {
    var block := [0x61] + Padding(1);
    PaddedLetterA(block);
    var x := WordsOf(block);
    LetterARound1(x);
    LetterARound2(x);
    LetterARound3(x);
    LetterARound4(x);
    hide StepsFrom, WordsOf, Padding, Output, Digest, LetterABlock;
    OneBlockDigest([0x61], block, x, State(0x52309e0b, 0xb8e94637, 0x49dee633, 0x50f422f3), State(0xb975c10c, 0xa8b6f1c0, 0xe299c331, 0x61267769));
    LetterAOutput();
  }
}
