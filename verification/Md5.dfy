/**
  MD5 (ngx_md5.c) against sections 3.1 to 3.5 of RFC 1321.  Bytes and words are bit
  vectors here; the byte counter is a 64-bit number kept as an integer.
*/
module Md5 {
  import opened Bytes

  type Octet = bv8
  type Word = bv32

  const TWO64 := 0x1_0000_0000_0000_0000

  /** The four words of the digest so far. */
  datatype State = State(a: Word, b: Word, c: Word, d: Word)

  /** Section 3.3. */
  const IV := State(0x67452301, 0xefcdab89, 0x98badcfe, 0x10325476)

  // ---------------------------------------- section 3.4: one step

  /** Addition modulo 2^32. */
  function Plus(a: Word, b: Word): Word {
    a + b
  }

  /** The auxiliary functions as the standard writes them. */
  function F(x: Word, y: Word, z: Word): Word {
    (x & y) | (!x & z)
  }

  function G(x: Word, y: Word, z: Word): Word {
    (x & z) | (y & !z)
  }

  function H(x: Word, y: Word, z: Word): Word {
    x ^ y ^ z
  }

  function I(x: Word, y: Word, z: Word): Word {
    y ^ (x | !z)
  }

  /** The macros of ngx_md5.c that compute the first two differently. */
  function MacroF(x: Word, y: Word, z: Word): Word {
    z ^ (x & (y ^ z))
  }

  function MacroG(x: Word, y: Word, z: Word): Word {
    y ^ (z & (x ^ y))
  }

  lemma Select(x: Word, y: Word, z: Word)
    ensures z ^ (x & (y ^ z)) == (x & y) | (!x & z)
  {
  }

  lemma SelectThird(x: Word, y: Word, z: Word)
    ensures y ^ (z & (x ^ y)) == (x & z) | (y & !z)
  {
  }

  /** The optimised F is the function of the standard. */
  lemma MacroIsF(x: Word, y: Word, z: Word, m: Word, r: Word)
    requires m == MacroF(x, y, z) && r == F(x, y, z)
    ensures m == r
  {
    Select(x, y, z);
  }

  /** The optimised G is the function of the standard. */
  lemma MacroIsG(x: Word, y: Word, z: Word, m: Word, r: Word)
    requires m == MacroG(x, y, z) && r == G(x, y, z)
    ensures m == r
  {
    SelectThird(x, y, z);
  }

  function Auxiliary(round: nat, x: Word, y: Word, z: Word): Word {
    if round == 0 then F(x, y, z)
    else if round == 1 then G(x, y, z)
    else if round == 2 then H(x, y, z)
    else I(x, y, z)
  }

  function Macro(round: nat, x: Word, y: Word, z: Word): Word {
    if round == 0 then MacroF(x, y, z)
    else if round == 1 then MacroG(x, y, z)
    else if round == 2 then H(x, y, z)
    else I(x, y, z)
  }

  /** The optimised F and G are the functions of the standard. */
  lemma MacroIsAuxiliary(round: nat, x: Word, y: Word, z: Word)
    ensures Macro(round, x, y, z) == Auxiliary(round, x, y, z)
  {
    hide MacroF, MacroG, F, G, H, I;
    MacroIsF(x, y, z, MacroF(x, y, z), F(x, y, z));
    MacroIsG(x, y, z, MacroG(x, y, z), G(x, y, z));
  }

  /** A circular shift. */
  function RotateBy(v: Word, s: nat): Word
    requires 0 < s < 32
  {
    (v << s) | (v >> (32 - s))
  }

  /** The shifts of the macro STEP, which mask for wider types. */
  function MacroShift(v: Word, s: nat): Word
    requires 0 < s < 32
  {
    (v << s) | ((v & 0xffffffff) >> (32 - s))
  }

  lemma AllBits(a: Word)
    ensures a & 0xffffffff == a
  {
  }

  lemma MacroRotates(v: Word, s: nat)
    requires 0 < s < 32
    ensures MacroShift(v, s) == RotateBy(v, s)
  {
    AllBits(v);
  }

  /** a = b + ((a + F(b, c, d) + X[k] + T[i]) <<< s). */
  function Operation(round: nat, a: Word, b: Word, c: Word, d: Word, x: Word, t: Word, s: nat): Word
    requires 0 < s < 32
  {
    Plus(RotateBy(Plus(a, Plus(Plus(Auxiliary(round, b, c, d), x), t)), s), b)
  }

  /** The macro STEP. */
  method Step(round: nat, a: Word, b: Word, c: Word, d: Word, x: Word, t: Word, s: nat) returns (r: Word)
    requires 0 < s < 32
    ensures r == Operation(round, a, b, c, d, x, t, s)
  {
    hide Plus, Macro, Auxiliary, MacroShift, RotateBy;
    MacroIsAuxiliary(round, b, c, d);
    r := Plus(a, Plus(Plus(Macro(round, b, c, d), x), t));
    MacroRotates(r, s);
    r := MacroShift(r, s);
    r := Plus(r, b);
  }

  // ------------------------------------- section 3.4: the four rounds

  function Of4(t0: Word, t1: Word, t2: Word, t3: Word, j: nat): Word {
    if j == 0 then t0 else if j == 1 then t1 else if j == 2 then t2 else t3
  }

  /** The table T of section 3.4, from zero. */
  function T(i: nat): Word
    requires i < 64
  {
    if i < 4 then Of4(0xd76aa478, 0xe8c7b756, 0x242070db, 0xc1bdceee, i)
    else if i < 8 then Of4(0xf57c0faf, 0x4787c62a, 0xa8304613, 0xfd469501, i - 4)
    else if i < 12 then Of4(0x698098d8, 0x8b44f7af, 0xffff5bb1, 0x895cd7be, i - 8)
    else if i < 16 then Of4(0x6b901122, 0xfd987193, 0xa679438e, 0x49b40821, i - 12)
    else if i < 20 then Of4(0xf61e2562, 0xc040b340, 0x265e5a51, 0xe9b6c7aa, i - 16)
    else if i < 24 then Of4(0xd62f105d, 0x02441453, 0xd8a1e681, 0xe7d3fbc8, i - 20)
    else if i < 28 then Of4(0x21e1cde6, 0xc33707d6, 0xf4d50d87, 0x455a14ed, i - 24)
    else if i < 32 then Of4(0xa9e3e905, 0xfcefa3f8, 0x676f02d9, 0x8d2a4c8a, i - 28)
    else if i < 36 then Of4(0xfffa3942, 0x8771f681, 0x6d9d6122, 0xfde5380c, i - 32)
    else if i < 40 then Of4(0xa4beea44, 0x4bdecfa9, 0xf6bb4b60, 0xbebfbc70, i - 36)
    else if i < 44 then Of4(0x289b7ec6, 0xeaa127fa, 0xd4ef3085, 0x04881d05, i - 40)
    else if i < 48 then Of4(0xd9d4d039, 0xe6db99e5, 0x1fa27cf8, 0xc4ac5665, i - 44)
    else if i < 52 then Of4(0xf4292244, 0x432aff97, 0xab9423a7, 0xfc93a039, i - 48)
    else if i < 56 then Of4(0x655b59c3, 0x8f0ccc92, 0xffeff47d, 0x85845dd1, i - 52)
    else if i < 60 then Of4(0x6fa87e4f, 0xfe2ce6e0, 0xa3014314, 0x4e0811a1, i - 56)
    else Of4(0xf7537e82, 0xbd3af235, 0x2ad7d2bb, 0xeb86d391, i - 60)
  }

  /** Which word of the block step `i` uses: the order of section 3.4 in closed form. */
  function WordIndex(i: nat): nat
    requires i < 64
    ensures WordIndex(i) < 16
  {
    if i < 16 then i
    else if i < 32 then (5 * i + 1) % 16
    else if i < 48 then (3 * i + 5) % 16
    else (7 * i) % 16
  }

  /** How far step `i` rotates. */
  function Amount(i: nat): nat
    requires i < 64
    ensures 0 < Amount(i) < 32
  {
    var j := i % 4;
    if i < 16 then (if j == 0 then 7 else if j == 1 then 12 else if j == 2 then 17 else 22)
    else if i < 32 then (if j == 0 then 5 else if j == 1 then 9 else if j == 2 then 14 else 20)
    else if i < 48 then (if j == 0 then 4 else if j == 1 then 11 else if j == 2 then 16 else 23)
    else (if j == 0 then 6 else if j == 1 then 10 else if j == 2 then 15 else 21)
  }

  /** Step `i` changes the first word, and the next step takes the words one place on. */
  function StepAt(st: State, x: seq<Word>, i: nat): State
    requires |x| == 16 && i < 64
  {
    State(st.d, Operation(i / 16, st.a, st.b, st.c, st.d, x[WordIndex(i)], T(i), Amount(i)), st.b, st.c)
  }

  function StepsFrom(st: State, x: seq<Word>, i: nat): State
    requires |x| == 16 && i <= 64
    decreases 64 - i
  {
    if i == 64 then st else StepsFrom(StepAt(st, x, i), x, i + 1)
  }

  /** Four steps, in the order the words take turns. */
  lemma {:induction false} FourSteps(st: State, x: seq<Word>, i: nat, a: Word, d: Word, c: Word, b: Word)
    requires |x| == 16 && i + 4 <= 64
    requires a == Operation(i / 16, st.a, st.b, st.c, st.d, x[WordIndex(i)], T(i), Amount(i))
    requires d == Operation((i + 1) / 16, st.d, a, st.b, st.c, x[WordIndex(i + 1)], T(i + 1), Amount(i + 1))
    requires c == Operation((i + 2) / 16, st.c, d, a, st.b, x[WordIndex(i + 2)], T(i + 2), Amount(i + 2))
    requires b == Operation((i + 3) / 16, st.b, c, d, a, x[WordIndex(i + 3)], T(i + 3), Amount(i + 3))
    ensures StepsFrom(st, x, i) == StepsFrom(State(a, b, c, d), x, i + 4)
  {
    hide Operation, T, WordIndex, Amount;
    var s1 := StepAt(st, x, i);
    var s2 := StepAt(s1, x, i + 1);
    var s3 := StepAt(s2, x, i + 2);
    assert StepsFrom(st, x, i) == StepsFrom(s1, x, i + 1);
    assert StepsFrom(s1, x, i + 1) == StepsFrom(s2, x, i + 2);
    assert StepsFrom(s2, x, i + 2) == StepsFrom(s3, x, i + 3);
  }

  lemma Constants1()
    ensures WordIndex(0) == 0 && WordIndex(1) == 1 && WordIndex(2) == 2 && WordIndex(3) == 3
    ensures WordIndex(4) == 4 && WordIndex(5) == 5 && WordIndex(6) == 6 && WordIndex(7) == 7
    ensures WordIndex(8) == 8 && WordIndex(9) == 9 && WordIndex(10) == 10 && WordIndex(11) == 11
    ensures WordIndex(12) == 12 && WordIndex(13) == 13 && WordIndex(14) == 14 && WordIndex(15) == 15
    ensures T(0) == 0xd76aa478 && T(1) == 0xe8c7b756 && T(2) == 0x242070db && T(3) == 0xc1bdceee
    ensures T(4) == 0xf57c0faf && T(5) == 0x4787c62a && T(6) == 0xa8304613 && T(7) == 0xfd469501
    ensures T(8) == 0x698098d8 && T(9) == 0x8b44f7af && T(10) == 0xffff5bb1 && T(11) == 0x895cd7be
    ensures T(12) == 0x6b901122 && T(13) == 0xfd987193 && T(14) == 0xa679438e && T(15) == 0x49b40821
    ensures Amount(0) == 7 && Amount(1) == 12 && Amount(2) == 17 && Amount(3) == 22
    ensures Amount(4) == 7 && Amount(5) == 12 && Amount(6) == 17 && Amount(7) == 22
    ensures Amount(8) == 7 && Amount(9) == 12 && Amount(10) == 17 && Amount(11) == 22
    ensures Amount(12) == 7 && Amount(13) == 12 && Amount(14) == 17 && Amount(15) == 22
  {
  }

  /** Round 1 of ngx_md5_body. */
  method Round1(st: State, x: seq<Word>) returns (st': State)
    requires |x| == 16
    ensures StepsFrom(st, x, 0) == StepsFrom(st', x, 16)
  {
    hide Operation, StepsFrom, StepAt, T, WordIndex, Amount;
    Constants1();
    var a, b, c, d := st.a, st.b, st.c, st.d;
    ghost var s := st;
    a := Step(0, a, b, c, d, x[0], 0xd76aa478, 7);
    d := Step(0, d, a, b, c, x[1], 0xe8c7b756, 12);
    c := Step(0, c, d, a, b, x[2], 0x242070db, 17);
    b := Step(0, b, c, d, a, x[3], 0xc1bdceee, 22);
    FourSteps(s, x, 0, a, d, c, b);
    s := State(a, b, c, d);
    a := Step(0, a, b, c, d, x[4], 0xf57c0faf, 7);
    d := Step(0, d, a, b, c, x[5], 0x4787c62a, 12);
    c := Step(0, c, d, a, b, x[6], 0xa8304613, 17);
    b := Step(0, b, c, d, a, x[7], 0xfd469501, 22);
    FourSteps(s, x, 4, a, d, c, b);
    s := State(a, b, c, d);
    a := Step(0, a, b, c, d, x[8], 0x698098d8, 7);
    d := Step(0, d, a, b, c, x[9], 0x8b44f7af, 12);
    c := Step(0, c, d, a, b, x[10], 0xffff5bb1, 17);
    b := Step(0, b, c, d, a, x[11], 0x895cd7be, 22);
    FourSteps(s, x, 8, a, d, c, b);
    s := State(a, b, c, d);
    a := Step(0, a, b, c, d, x[12], 0x6b901122, 7);
    d := Step(0, d, a, b, c, x[13], 0xfd987193, 12);
    c := Step(0, c, d, a, b, x[14], 0xa679438e, 17);
    b := Step(0, b, c, d, a, x[15], 0x49b40821, 22);
    FourSteps(s, x, 12, a, d, c, b);
    s := State(a, b, c, d);
    st' := State(a, b, c, d);
  }

  lemma Constants2()
    ensures WordIndex(16) == 1 && WordIndex(17) == 6 && WordIndex(18) == 11 && WordIndex(19) == 0
    ensures WordIndex(20) == 5 && WordIndex(21) == 10 && WordIndex(22) == 15 && WordIndex(23) == 4
    ensures WordIndex(24) == 9 && WordIndex(25) == 14 && WordIndex(26) == 3 && WordIndex(27) == 8
    ensures WordIndex(28) == 13 && WordIndex(29) == 2 && WordIndex(30) == 7 && WordIndex(31) == 12
    ensures T(16) == 0xf61e2562 && T(17) == 0xc040b340 && T(18) == 0x265e5a51 && T(19) == 0xe9b6c7aa
    ensures T(20) == 0xd62f105d && T(21) == 0x02441453 && T(22) == 0xd8a1e681 && T(23) == 0xe7d3fbc8
    ensures T(24) == 0x21e1cde6 && T(25) == 0xc33707d6 && T(26) == 0xf4d50d87 && T(27) == 0x455a14ed
    ensures T(28) == 0xa9e3e905 && T(29) == 0xfcefa3f8 && T(30) == 0x676f02d9 && T(31) == 0x8d2a4c8a
    ensures Amount(16) == 5 && Amount(17) == 9 && Amount(18) == 14 && Amount(19) == 20
    ensures Amount(20) == 5 && Amount(21) == 9 && Amount(22) == 14 && Amount(23) == 20
    ensures Amount(24) == 5 && Amount(25) == 9 && Amount(26) == 14 && Amount(27) == 20
    ensures Amount(28) == 5 && Amount(29) == 9 && Amount(30) == 14 && Amount(31) == 20
  {
  }

  /** Round 2 of ngx_md5_body. */
  method Round2(st: State, x: seq<Word>) returns (st': State)
    requires |x| == 16
    ensures StepsFrom(st, x, 16) == StepsFrom(st', x, 32)
  {
    hide Operation, StepsFrom, StepAt, T, WordIndex, Amount;
    Constants2();
    var a, b, c, d := st.a, st.b, st.c, st.d;
    ghost var s := st;
    a := Step(1, a, b, c, d, x[1], 0xf61e2562, 5);
    d := Step(1, d, a, b, c, x[6], 0xc040b340, 9);
    c := Step(1, c, d, a, b, x[11], 0x265e5a51, 14);
    b := Step(1, b, c, d, a, x[0], 0xe9b6c7aa, 20);
    FourSteps(s, x, 16, a, d, c, b);
    s := State(a, b, c, d);
    a := Step(1, a, b, c, d, x[5], 0xd62f105d, 5);
    d := Step(1, d, a, b, c, x[10], 0x02441453, 9);
    c := Step(1, c, d, a, b, x[15], 0xd8a1e681, 14);
    b := Step(1, b, c, d, a, x[4], 0xe7d3fbc8, 20);
    FourSteps(s, x, 20, a, d, c, b);
    s := State(a, b, c, d);
    a := Step(1, a, b, c, d, x[9], 0x21e1cde6, 5);
    d := Step(1, d, a, b, c, x[14], 0xc33707d6, 9);
    c := Step(1, c, d, a, b, x[3], 0xf4d50d87, 14);
    b := Step(1, b, c, d, a, x[8], 0x455a14ed, 20);
    FourSteps(s, x, 24, a, d, c, b);
    s := State(a, b, c, d);
    a := Step(1, a, b, c, d, x[13], 0xa9e3e905, 5);
    d := Step(1, d, a, b, c, x[2], 0xfcefa3f8, 9);
    c := Step(1, c, d, a, b, x[7], 0x676f02d9, 14);
    b := Step(1, b, c, d, a, x[12], 0x8d2a4c8a, 20);
    FourSteps(s, x, 28, a, d, c, b);
    s := State(a, b, c, d);
    st' := State(a, b, c, d);
  }

  lemma Constants3()
    ensures WordIndex(32) == 5 && WordIndex(33) == 8 && WordIndex(34) == 11 && WordIndex(35) == 14
    ensures WordIndex(36) == 1 && WordIndex(37) == 4 && WordIndex(38) == 7 && WordIndex(39) == 10
    ensures WordIndex(40) == 13 && WordIndex(41) == 0 && WordIndex(42) == 3 && WordIndex(43) == 6
    ensures WordIndex(44) == 9 && WordIndex(45) == 12 && WordIndex(46) == 15 && WordIndex(47) == 2
    ensures T(32) == 0xfffa3942 && T(33) == 0x8771f681 && T(34) == 0x6d9d6122 && T(35) == 0xfde5380c
    ensures T(36) == 0xa4beea44 && T(37) == 0x4bdecfa9 && T(38) == 0xf6bb4b60 && T(39) == 0xbebfbc70
    ensures T(40) == 0x289b7ec6 && T(41) == 0xeaa127fa && T(42) == 0xd4ef3085 && T(43) == 0x04881d05
    ensures T(44) == 0xd9d4d039 && T(45) == 0xe6db99e5 && T(46) == 0x1fa27cf8 && T(47) == 0xc4ac5665
    ensures Amount(32) == 4 && Amount(33) == 11 && Amount(34) == 16 && Amount(35) == 23
    ensures Amount(36) == 4 && Amount(37) == 11 && Amount(38) == 16 && Amount(39) == 23
    ensures Amount(40) == 4 && Amount(41) == 11 && Amount(42) == 16 && Amount(43) == 23
    ensures Amount(44) == 4 && Amount(45) == 11 && Amount(46) == 16 && Amount(47) == 23
  {
  }

  /** Round 3 of ngx_md5_body. */
  method Round3(st: State, x: seq<Word>) returns (st': State)
    requires |x| == 16
    ensures StepsFrom(st, x, 32) == StepsFrom(st', x, 48)
  {
    hide Operation, StepsFrom, StepAt, T, WordIndex, Amount;
    Constants3();
    var a, b, c, d := st.a, st.b, st.c, st.d;
    ghost var s := st;
    a := Step(2, a, b, c, d, x[5], 0xfffa3942, 4);
    d := Step(2, d, a, b, c, x[8], 0x8771f681, 11);
    c := Step(2, c, d, a, b, x[11], 0x6d9d6122, 16);
    b := Step(2, b, c, d, a, x[14], 0xfde5380c, 23);
    FourSteps(s, x, 32, a, d, c, b);
    s := State(a, b, c, d);
    a := Step(2, a, b, c, d, x[1], 0xa4beea44, 4);
    d := Step(2, d, a, b, c, x[4], 0x4bdecfa9, 11);
    c := Step(2, c, d, a, b, x[7], 0xf6bb4b60, 16);
    b := Step(2, b, c, d, a, x[10], 0xbebfbc70, 23);
    FourSteps(s, x, 36, a, d, c, b);
    s := State(a, b, c, d);
    a := Step(2, a, b, c, d, x[13], 0x289b7ec6, 4);
    d := Step(2, d, a, b, c, x[0], 0xeaa127fa, 11);
    c := Step(2, c, d, a, b, x[3], 0xd4ef3085, 16);
    b := Step(2, b, c, d, a, x[6], 0x04881d05, 23);
    FourSteps(s, x, 40, a, d, c, b);
    s := State(a, b, c, d);
    a := Step(2, a, b, c, d, x[9], 0xd9d4d039, 4);
    d := Step(2, d, a, b, c, x[12], 0xe6db99e5, 11);
    c := Step(2, c, d, a, b, x[15], 0x1fa27cf8, 16);
    b := Step(2, b, c, d, a, x[2], 0xc4ac5665, 23);
    FourSteps(s, x, 44, a, d, c, b);
    s := State(a, b, c, d);
    st' := State(a, b, c, d);
  }

  lemma Constants4()
    ensures WordIndex(48) == 0 && WordIndex(49) == 7 && WordIndex(50) == 14 && WordIndex(51) == 5
    ensures WordIndex(52) == 12 && WordIndex(53) == 3 && WordIndex(54) == 10 && WordIndex(55) == 1
    ensures WordIndex(56) == 8 && WordIndex(57) == 15 && WordIndex(58) == 6 && WordIndex(59) == 13
    ensures WordIndex(60) == 4 && WordIndex(61) == 11 && WordIndex(62) == 2 && WordIndex(63) == 9
    ensures T(48) == 0xf4292244 && T(49) == 0x432aff97 && T(50) == 0xab9423a7 && T(51) == 0xfc93a039
    ensures T(52) == 0x655b59c3 && T(53) == 0x8f0ccc92 && T(54) == 0xffeff47d && T(55) == 0x85845dd1
    ensures T(56) == 0x6fa87e4f && T(57) == 0xfe2ce6e0 && T(58) == 0xa3014314 && T(59) == 0x4e0811a1
    ensures T(60) == 0xf7537e82 && T(61) == 0xbd3af235 && T(62) == 0x2ad7d2bb && T(63) == 0xeb86d391
    ensures Amount(48) == 6 && Amount(49) == 10 && Amount(50) == 15 && Amount(51) == 21
    ensures Amount(52) == 6 && Amount(53) == 10 && Amount(54) == 15 && Amount(55) == 21
    ensures Amount(56) == 6 && Amount(57) == 10 && Amount(58) == 15 && Amount(59) == 21
    ensures Amount(60) == 6 && Amount(61) == 10 && Amount(62) == 15 && Amount(63) == 21
  {
  }

  /** Round 4 of ngx_md5_body. */
  method Round4(st: State, x: seq<Word>) returns (st': State)
    requires |x| == 16
    ensures StepsFrom(st, x, 48) == StepsFrom(st', x, 64)
  {
    hide Operation, StepsFrom, StepAt, T, WordIndex, Amount;
    Constants4();
    var a, b, c, d := st.a, st.b, st.c, st.d;
    ghost var s := st;
    a := Step(3, a, b, c, d, x[0], 0xf4292244, 6);
    d := Step(3, d, a, b, c, x[7], 0x432aff97, 10);
    c := Step(3, c, d, a, b, x[14], 0xab9423a7, 15);
    b := Step(3, b, c, d, a, x[5], 0xfc93a039, 21);
    FourSteps(s, x, 48, a, d, c, b);
    s := State(a, b, c, d);
    a := Step(3, a, b, c, d, x[12], 0x655b59c3, 6);
    d := Step(3, d, a, b, c, x[3], 0x8f0ccc92, 10);
    c := Step(3, c, d, a, b, x[10], 0xffeff47d, 15);
    b := Step(3, b, c, d, a, x[1], 0x85845dd1, 21);
    FourSteps(s, x, 52, a, d, c, b);
    s := State(a, b, c, d);
    a := Step(3, a, b, c, d, x[8], 0x6fa87e4f, 6);
    d := Step(3, d, a, b, c, x[15], 0xfe2ce6e0, 10);
    c := Step(3, c, d, a, b, x[6], 0xa3014314, 15);
    b := Step(3, b, c, d, a, x[13], 0x4e0811a1, 21);
    FourSteps(s, x, 56, a, d, c, b);
    s := State(a, b, c, d);
    a := Step(3, a, b, c, d, x[4], 0xf7537e82, 6);
    d := Step(3, d, a, b, c, x[11], 0xbd3af235, 10);
    c := Step(3, c, d, a, b, x[2], 0x2ad7d2bb, 15);
    b := Step(3, b, c, d, a, x[9], 0xeb86d391, 21);
    FourSteps(s, x, 60, a, d, c, b);
    s := State(a, b, c, d);
    st' := State(a, b, c, d);
  }

  // -------------------------------------------- sections 3.1, 3.2 and 3.4

  /** Word `n` of a block, low-order byte first. */
  function WordAt(block: seq<Octet>, n: nat): Word
    requires 4 * n + 4 <= |block|
  {
    block[4 * n] as bv32 | (block[4 * n + 1] as bv32 << 8) |
    (block[4 * n + 2] as bv32 << 16) | (block[4 * n + 3] as bv32 << 24)
  }

  function WordsOf(block: seq<Octet>): (x: seq<Word>)
    requires |block| == 64
    ensures |x| == 16
  {
    seq(16, i requires 0 <= i < 16 => WordAt(block, i))
  }

  function AddStates(s: State, t: State): State {
    State(Plus(s.a, t.a), Plus(s.b, t.b), Plus(s.c, t.c), Plus(s.d, t.d))
  }

  /** One 64-byte block. */
  function Compress(st: State, block: seq<Octet>): State
    requires |block| == 64
  {
    AddStates(StepsFrom(st, WordsOf(block), 0), st)
  }

  /** All whole blocks of `data`, one after the other. */
  function Blocks(st: State, data: seq<Octet>): State
    decreases |data|
  {
    if |data| < 64 then st else Blocks(Compress(st, data[..64]), data[64..])
  }

  lemma {:induction false} BlocksConcat(st: State, x: seq<Octet>, y: seq<Octet>)
    requires |x| % 64 == 0
    ensures Blocks(st, x + y) == Blocks(Blocks(st, x), y)
    decreases |x|
  {
    hide Compress;
    if x == [] {
      assert x + y == y;
    } else {
      assert (x + y)[..64] == x[..64] && (x + y)[64..] == x[64..] + y;
      BlocksConcat(Compress(st, x[..64]), x[64..], y);
    }
  }

  function ZeroOctets(n: nat): (r: seq<Octet>)
    ensures |r| == n
  {
    seq(n, _ => 0)
  }

  /** How many zero bytes of padding follow the byte 0x80. */
  function PadLen(n: nat): nat {
    (119 - n % 64) % 64
  }

  lemma Remainder(q: nat, x: nat)
    requires x < 128
    ensures (64 * q + x) % 64 == if x < 64 then x else x - 64
  {
  }

  /** It is the least number that makes the length congruent to 56 modulo 64. */
  lemma PadLenIsLeast(n: nat, k: nat)
    ensures (n + 1 + PadLen(n)) % 64 == 56
    ensures (n + 1 + k) % 64 == 56 ==> PadLen(n) <= k
  {
    var r, q := n % 64, n / 64;
    assert n == 64 * q + r;
    assert PadLen(n) == if r <= 55 then 55 - r else 119 - r;
    Remainder(q, r + 1 + PadLen(n));
    if k < PadLen(n) {
      Remainder(q, r + 1 + k);
    }
  }

  /** v >> 8 * k. */
  function Drop8(v: nat, k: nat): nat {
    if k == 0 then v else Drop8(v, k - 1) / 256
  }

  /** Byte `k` of a 64-bit number, low-order first. */
  function LengthOctet(v: nat, k: nat): Octet
    requires k < 8
  {
    (Drop8(v, k) % 256) as bv8
  }

  /** The length in bits, modulo 2^64, low-order byte first. */
  function LengthOctets(n: nat): (r: seq<Octet>)
    ensures |r| == 8
  {
    seq(8, k requires 0 <= k < 8 => LengthOctet((n * 8) % TWO64, k))
  }

  /** What follows a message of length `n`. */
  function Padding(n: nat): seq<Octet> {
    [0x80] + (ZeroOctets(PadLen(n)) + LengthOctets(n))
  }

  function WordOctets(w: Word): seq<Octet> {
    [(w & 0xff) as bv8, ((w >> 8) & 0xff) as bv8, ((w >> 16) & 0xff) as bv8, ((w >> 24) & 0xff) as bv8]
  }

  /** Section 3.5. */
  function Output(st: State): seq<Octet> {
    WordOctets(st.a) + WordOctets(st.b) + WordOctets(st.c) + WordOctets(st.d)
  }

  /** The digest of a whole message. */
  function Digest(message: seq<Octet>): seq<Octet> {
    Output(Blocks(IV, message + Padding(|message|)))
  }

  // ------------------------------------------------------- the context

  method CopyInto(buffer: array<Octet>, at: nat, data: seq<Octet>)
    requires at + |data| <= buffer.Length
    modifies buffer
    ensures buffer[..at + |data|] == old(buffer[..at]) + data
  {
    for k := 0 to |data|
      invariant forall j :: 0 <= j < at ==> buffer[j] == old(buffer[j])
      invariant forall j :: at <= j < at + k ==> buffer[j] == data[j - at]
    {
      buffer[at + k] := data[k];
    }
  }

  lemma WholeRest(n: nat, tail: nat)
    requires n % 64 == 0 && tail < 64
    ensures (n + tail) % 64 == tail
  {
  }

  lemma ModMod(n: nat)
    ensures (n % TWO64) % 64 == n % 64
  {
    var q := n / TWO64;
    assert n == TWO64 * q + n % TWO64;
    assert n == 64 * (0x400_0000_0000_0000 * q) + n % TWO64;
  }

  /** Whole blocks. */
  ghost predicate Whole(data: seq<Octet>) {
    |data| % 64 == 0
  }

  /** The bytes of a message not yet in a whole block: how many they are. */
  lemma Used(bytes: nat, done: seq<Octet>, tail: nat)
    requires Whole(done) && tail < 64 && bytes == (|done| + tail) % TWO64
    ensures bytes % 64 == tail
  {
    ModMod(|done| + tail);
    WholeRest(|done|, tail);
  }

  lemma WholeStart(data: seq<Octet>)
    requires |data| >= 64
    ensures var n := |data| - |data| % 64; 0 < n <= |data| && |data| - n < 64 && Whole(data[..n])
  {
  }

  lemma WholeBlock(data: seq<Octet>)
    requires |data| == 64
    ensures Whole(data)
  {
  }

  /** The padding, from the number of bytes in the buffer and the byte counter. */
  ghost function PaddingFor(used: nat, bytes: nat): seq<Octet> {
    [0x80] + (ZeroOctets(PadLen(used)) + LengthOctets(bytes))
  }

  lemma TimesEight(n: nat)
    ensures (n % TWO64 * 8) % TWO64 == (n * 8) % TWO64
  {
    var q := n / TWO64;
    assert n * 8 == TWO64 * (8 * q) + n % TWO64 * 8;
  }

  lemma Assoc(x: seq<Octet>, y: seq<Octet>, z: seq<Octet>)
    ensures x + y + z == x + (y + z)
  {
  }

  lemma PaddingOf(message: seq<Octet>, done: seq<Octet>, tail: seq<Octet>, bytes: nat)
    requires Whole(done) && |tail| < 64 && message == done + tail && bytes == |message| % TWO64
    ensures message + Padding(|message|) == done + (tail + PaddingFor(|tail|, bytes))
  {
    assert |message| % 64 == |tail|;
    assert PadLen(|message|) == PadLen(|tail|);
    TimesEight(|message|);
    Assoc(done, tail, Padding(|message|));
  }

  /** Room for the length: everything is one block. */
  lemma OneBlock(tail: seq<Octet>, used: nat, bytes: nat)
    requires |tail| == used <= 55
    ensures tail + PaddingFor(used, bytes) == (tail + [0x80] + ZeroOctets(55 - used)) + LengthOctets(bytes)
  {
    assert PadLen(used) == 55 - used;
  }

  /** No room for the length: the zeros go on in a second block. */
  lemma TwoBlocks(done: seq<Octet>, tail: seq<Octet>, used: nat, bytes: nat, first: seq<Octet>, zeros: seq<Octet>)
    requires |tail| == used && 56 <= used < 64
    requires first == tail + [0x80] + ZeroOctets(63 - used) && zeros == ZeroOctets(56)
    ensures done + (tail + PaddingFor(used, bytes)) == (done + first) + (zeros + LengthOctets(bytes))
  {
    assert PadLen(used) == 63 - used + 56;
    assert ZeroOctets(PadLen(used)) == ZeroOctets(63 - used) + zeros;
  }

  lemma NoStepsLeft(st: State, x: seq<Word>)
    requires |x| == 16
    ensures StepsFrom(st, x, 64) == st
  {
  }

  method CompressBlock(st: State, block: seq<Octet>) returns (r: State)
    requires |block| == 64
    ensures r == Compress(st, block)
  {
    hide WordsOf, StepsFrom, Plus;
    var x := WordsOf(block);
    r := Round1(st, x);
    r := Round2(r, x);
    r := Round3(r, x);
    r := Round4(r, x);
    NoStepsLeft(r, x);
    r := AddStates(r, st);
  }

  lemma Refold(done: seq<Octet>, tail: seq<Octet>, data: seq<Octet>, free: nat)
    requires free <= |data|
    ensures done + tail + data == done + (tail + data[..free]) + data[free..]
  {
    assert data == data[..free] + data[free..];
  }

  lemma AddLength(n: nat, k: nat)
    ensures (n % TWO64 + k) % TWO64 == (n + k) % TWO64
  {
  }

  lemma NoBlocks()
    ensures Blocks(IV, []) == IV
  {
  }

  /** ngx_md5_t. */
  class Context {
    var bytes: nat
    var a: Word
    var b: Word
    var c: Word
    var d: Word
    const buffer: array<Octet>
    ghost var message: seq<Octet>
    ghost var done: seq<Octet>

    ghost function Words(): State
      reads this
    {
      State(a, b, c, d)
    }

    /** The words are those of the whole blocks so far, and the rest of the message is in the buffer. */
    ghost predicate Valid()
      reads this, buffer
    {
      && buffer.Length == 64 && Whole(done) && |done| <= |message| < |done| + 64
      && message == done + buffer[..|message| - |done|]
      && bytes == |message| % TWO64
      && Words() == Blocks(IV, done)
    }

    constructor ()
      ensures Valid() && message == [] && fresh(buffer)
    {
      hide Blocks;
      buffer := new Octet[64](_ => 0);
      a, b, c, d := 0x67452301, 0xefcdab89, 0x98badcfe, 0x10325476;
      bytes, message, done := 0, [], [];
      new;
      NoBlocks();
    }

    /** ngx_md5_body: one or more whole blocks. */
    method Body(data: seq<Octet>)
      requires |data| > 0 && |data| % 64 == 0
      modifies this`a, this`b, this`c, this`d
      ensures Words() == Blocks(old(Words()), data)
    {
      hide Compress;
      var p, st := 0, State(a, b, c, d);
      while p < |data|
        invariant p <= |data| && p % 64 == 0 && Blocks(old(Words()), data) == Blocks(st, data[p..])
        modifies {}
      {
        assert data[p..][..64] == data[p..p + 64] && data[p..][64..] == data[p + 64..];
        st := CompressBlock(st, data[p..p + 64]);
        p := p + 64;
      }
      a, b, c, d := st.a, st.b, st.c, st.d;
    }

    /** A block is taken into the words. */
    method Absorb(data: seq<Octet>)
      requires data != [] && Whole(data) && Whole(done) && Words() == Blocks(IV, done)
      modifies this`a, this`b, this`c, this`d, this`done
      ensures done == old(done) + data && Whole(done) && Words() == Blocks(IV, done)
    {
      hide Blocks;
      Body(data);
      BlocksConcat(IV, done, data);
      done := done + data;
    }

    /** The bytes given now and what is in the buffer fill a block, or are kept in the buffer. */
    method Top(used: nat, data: seq<Octet>) returns (rest: seq<Octet>, kept: bool)
      requires buffer.Length == 64 && 0 < used < 64 && Whole(done) && Words() == Blocks(IV, done)
      modifies this`a, this`b, this`c, this`d, this`done, buffer
      ensures Whole(done) && Words() == Blocks(IV, done)
      ensures kept ==> used + |data| < 64 && done == old(done) && buffer[..used + |data|] == old(buffer[..used]) + data
      ensures !kept ==> done + rest == old(done) + old(buffer[..used]) + data
    {
      hide Blocks, Whole;
      var free := 64 - used;
      if |data| < free {
        CopyInto(buffer, used, data);
        return data, true;
      }
      CopyInto(buffer, used, data[..free]);
      rest, kept := data[free..], false;
      assert buffer[..] == buffer[..64];
      Refold(done, old(buffer[..used]), data, free);
      WholeBlock(buffer[..]);
      Absorb(buffer[..]);
    }

    /** The whole blocks of the rest are taken in, and what remains is kept in the buffer. */
    method Bottom(rest: seq<Octet>)
      requires buffer.Length == 64 && Whole(done) && Words() == Blocks(IV, done)
      modifies this`a, this`b, this`c, this`d, this`done, buffer
      ensures Whole(done) && Words() == Blocks(IV, done)
      ensures |done| <= |old(done) + rest| < |done| + 64
      ensures old(done) + rest == done + buffer[..|old(done) + rest| - |done|]
    {
      hide Blocks, Whole;
      var left := rest;
      if |rest| >= 64 {
        WholeStart(rest);
        var n := |rest| - |rest| % 64;
        Assoc(done, rest[..n], rest[n..]);
        assert rest == rest[..n] + rest[n..];
        Absorb(rest[..n]);
        left := rest[n..];
      }
      CopyInto(buffer, 0, left);
      assert buffer[..|left|] == left;
    }

    /** ngx_md5_update. */
    method Update(data: seq<Octet>)
      requires Valid()
      modifies this, buffer
      ensures Valid() && message == old(message) + data
    {
      hide Blocks, Whole;
      Used(bytes, done, |message| - |done|);
      AddLength(|message|, |data|);
      var used, rest, kept := bytes % 64, data, false;
      bytes := (bytes + |data|) % TWO64;
      message := message + data;
      if used > 0 {
        rest, kept := Top(used, data);
      }
      if kept {
        Assoc(done, old(buffer[..used]), data);
      } else {
        assert done + rest == message;
        Bottom(rest);
      }
    }

    /** The length goes to the end of the last block. */
    method PadLength(ghost all: seq<Octet>)
      requires buffer.Length == 64 && Whole(done) && Words() == Blocks(IV, done)
      requires all == done + (buffer[..56] + LengthOctets(bytes))
      modifies this, buffer
      ensures Words() == Blocks(IV, all)
    {
      hide Blocks, Whole, LengthOctet;
      ghost var start := buffer[..56];
      bytes := (bytes * 8) % TWO64;
      var length := [LengthOctet(bytes, 0), LengthOctet(bytes, 1), LengthOctet(bytes, 2), LengthOctet(bytes, 3),
                     LengthOctet(bytes, 4), LengthOctet(bytes, 5), LengthOctet(bytes, 6), LengthOctet(bytes, 7)];
      assert length == LengthOctets(old(bytes));
      CopyInto(buffer, 56, length);
      assert buffer[..] == buffer[..64];
      WholeBlock(buffer[..]);
      Absorb(buffer[..]);
    }

    /** The last block or two: what is in the buffer and the padding. */
    method Pad(used0: nat)
      requires buffer.Length == 64 && used0 < 64 && Whole(done) && Words() == Blocks(IV, done)
      modifies this, buffer
      ensures Words() == Blocks(IV, old(done) + (old(buffer[..used0]) + PaddingFor(used0, old(bytes))))
    {
      hide Blocks, Whole, LengthOctets, PaddingFor, PadLen, ZeroOctets;
      ghost var tail := buffer[..used0];
      ghost var all := done + (tail + PaddingFor(used0, bytes));
      CopyInto(buffer, used0, [0x80]);
      var used := used0 + 1;
      var free := 64 - used;
      if free < 8 {
        CopyInto(buffer, used, ZeroOctets(free));
        assert buffer[..] == buffer[..64];
        WholeBlock(buffer[..]);
        TwoBlocks(done, tail, used0, bytes, buffer[..], ZeroOctets(56));
        Absorb(buffer[..]);
        CopyInto(buffer, 0, ZeroOctets(56));
        assert buffer[..56] == ZeroOctets(56);
      } else {
        CopyInto(buffer, used, ZeroOctets(free - 8));
        OneBlock(tail, used0, bytes);
      }
      PadLength(all);
    }

    /** ngx_md5_final: the digest of everything passed to Update; the context is cleared. */
    method Final() returns (result: seq<Octet>)
      requires Valid()
      modifies this, buffer
      ensures result == Digest(old(message))
      ensures bytes == 0 && Words() == State(0, 0, 0, 0) && buffer[..] == ZeroOctets(buffer.Length)
    {
      hide Blocks, Whole, Output;
      ghost var tail := buffer[..|message| - |done|];
      Used(bytes, done, |tail|);
      PaddingOf(message, done, tail, bytes);
      Pad(bytes % 64);
      result := Output(State(a, b, c, d));
      a, b, c, d, bytes := 0, 0, 0, 0, 0;
      CopyInto(buffer, 0, ZeroOctets(buffer.Length));
      assert buffer[..] == buffer[..buffer.Length];
    }
  }

  /** Init, any sequence of updates, then final: the digest of all the bytes, however they were split. */
  method Hash(chunks: seq<seq<Octet>>) returns (result: seq<Octet>)
    ensures result == Digest(Concat(chunks))
  {
    hide Digest;
    var context := new Context();
    for i := 0 to |chunks|
      invariant context.Valid() && context.message == Concat(chunks[..i])
    {
      assert chunks[..i + 1][..i] == chunks[..i];
      context.Update(chunks[i]);
    }
    assert chunks[..|chunks|] == chunks;
    result := context.Final();
  }
}
