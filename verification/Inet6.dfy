/**
  The text form of IPv6 addresses: ngx_inet_addr, ngx_inet6_addr and ngx_inet6_ntop
  (ngx_inet.c), against a grammar that has the forms of section 2.2 of RFC 4291.
*/
module Inet6 {
  import opened Bytes
  import opened Numbers

  type Word = x: int | 0 <= x < 0x1_0000
  type Word32 = x: int | 0 <= x < 0x1_0000_0000

  const COLON: Byte := 58
  const INADDR_NONE: Word32 := 0xffff_ffff

  /** The room ngx_inet6_ntop asks for: NGX_INET6_ADDRSTRLEN. */
  const ADDRSTRLEN := 45

  // ----------------------------------------------------- IPv4 in dots

  function ShiftIn(addr: Word32, octet: Byte): Word32 {
    (addr * 256 + octet) % 0x1_0000_0000
  }

  function Join32(a: Byte, b: Byte, c: Byte, d: Byte): Word32 {
    ((a * 256 + b) * 256 + c) * 256 + d
  }

  /** The parts of a text between its dots. */
  function SplitDots(text: seq<Byte>): (parts: seq<seq<Byte>>)
    ensures |parts| > 0
  {
    if text == [] then [[]]
    else
      var rest := SplitDots(text[1..]);
      if text[0] == DOT then [[]] + rest else [[text[0]] + rest[0]] + rest[1..]
  }

  predicate FitsByte(v: nat, part: seq<Byte>) {
    AllDecimal(part) && DecimalAfter(v, part) <= 255
  }

  /** An address in dots: four numbers of at most 255 with any number of digits, even none. */
  predicate IsDotted(text: seq<Byte>) {
    var parts := SplitDots(text);
    |parts| == 4 && FitsByte(0, parts[0]) && FitsByte(0, parts[1]) && FitsByte(0, parts[2]) && FitsByte(0, parts[3])
  }

  /** Its value in host order; 255.255.255.255 cannot be told from an error. */
  function InetValue(text: seq<Byte>): Word32 {
    var parts := SplitDots(text);
    if IsDotted(text)
    then Join32(DecimalAfter(0, parts[0]), DecimalAfter(0, parts[1]), DecimalAfter(0, parts[2]), DecimalAfter(0, parts[3]))
    else INADDR_NONE
  }

  /** What is left to do of ngx_inet_addr, in host order. */
  function InetLoop(rest: seq<Byte>, addr: Word32, octet: Byte, n: nat): Word32
    decreases |rest|
  {
    if rest == [] then
      if n == 3 then ShiftIn(addr, octet) else INADDR_NONE
    else if IsDecimal(rest[0]) then
      if octet * 10 + (rest[0] - 48) > 255 then INADDR_NONE
      else InetLoop(rest[1..], addr, octet * 10 + (rest[0] - 48), n)
    else if rest[0] == DOT then InetLoop(rest[1..], ShiftIn(addr, octet), 0, n + 1)
    else INADDR_NONE
  }

  /** The loop on the parts between the dots. */
  ghost function PartsValue(parts: seq<seq<Byte>>, addr: Word32, octet: Byte, n: nat): Word32
    requires parts != []
  {
    if !FitsByte(octet, parts[0]) then INADDR_NONE
    else
      var addr' := ShiftIn(addr, DecimalAfter(octet, parts[0]));
      if |parts| > 1 then PartsValue(parts[1..], addr', 0, n + 1) else if n == 3 then addr' else INADDR_NONE
  }

  lemma DigitThenPart(c: Byte, part: seq<Byte>, octet: Byte)
    requires IsDecimal(c)
    ensures FitsByte(octet, [c] + part) <==> octet * 10 + (c - 48) <= 255 && FitsByte(octet * 10 + (c - 48), part)
    ensures AllDecimal(part) ==> AllDecimal([c] + part) && DecimalAfter(octet, [c] + part) == DecimalAfter(octet * 10 + (c - 48), part)
  {
    assert ([c] + part)[1..] == part;
  }

  lemma {:induction false} LoopIsParts(rest: seq<Byte>, addr: Word32, octet: Byte, n: nat)
    ensures InetLoop(rest, addr, octet, n) == PartsValue(SplitDots(rest), addr, octet, n)
    decreases |rest|
  {
    hide ShiftIn;
    if rest != [] {
      var c, parts := rest[0], SplitDots(rest[1..]);
      if IsDecimal(c) {
        DigitThenPart(c, parts[0], octet);
        assert ([[c] + parts[0]] + parts[1..])[1..] == parts[1..];
        if octet * 10 + (c - 48) <= 255 {
          LoopIsParts(rest[1..], addr, octet * 10 + (c - 48), n);
        }
      } else if c == DOT {
        LoopIsParts(rest[1..], ShiftIn(addr, octet), 0, n + 1);
        assert ([[]] + parts)[1..] == parts;
      }
    }
  }

  lemma {:induction false} PartsNumber(parts: seq<seq<Byte>>, addr: Word32, octet: Byte, n: nat)
    requires parts != [] && n + |parts| != 4
    ensures PartsValue(parts, addr, octet, n) == INADDR_NONE
    decreases |parts|
  {
    if |parts| > 1 && FitsByte(octet, parts[0]) {
      PartsNumber(parts[1..], ShiftIn(addr, DecimalAfter(octet, parts[0])), 0, n + 1);
    }
  }

  lemma ShiftSmall(addr: Word32, octet: Byte)
    requires addr < 0x100_0000
    ensures ShiftIn(addr, octet) == addr * 256 + octet
  {
  }

  lemma PartsStep(parts: seq<seq<Byte>>, addr: Word32, n: nat)
    requires |parts| > 1 && addr < 0x1_0000
    ensures PartsValue(parts, addr, 0, n) ==
            if FitsByte(0, parts[0]) then PartsValue(parts[1..], addr * 256 + DecimalAfter(0, parts[0]), 0, n + 1) else INADDR_NONE
  {
    if FitsByte(0, parts[0]) {
      ShiftSmall(addr, DecimalAfter(0, parts[0]));
    }
  }

  lemma LastParts(q: seq<seq<Byte>>, addr: Word32)
    requires |q| == 2 && addr < 0x1_0000 && FitsByte(0, q[0])
    ensures PartsValue(q, addr, 0, 2) ==
            if FitsByte(0, q[1]) then ShiftIn(addr * 256 + DecimalAfter(0, q[0]), DecimalAfter(0, q[1])) else INADDR_NONE
  {
    PartsStep(q, addr, 2);
    hide DecimalAfter, AllDecimal, ShiftIn;
    assert q[1..] == [q[1]];
  }

  lemma ThreeParts(p: seq<seq<Byte>>, a: Byte, b: Byte, c: Byte)
    requires |p| == 4 && FitsByte(0, p[0]) && FitsByte(0, p[1]) && FitsByte(0, p[2])
    requires a == DecimalAfter(0, p[0]) && b == DecimalAfter(0, p[1]) && c == DecimalAfter(0, p[2])
    ensures PartsValue(p, 0, 0, 0) ==
            if FitsByte(0, p[3]) then ShiftIn((a * 256 + b) * 256 + c, DecimalAfter(0, p[3])) else INADDR_NONE
  {
    hide DecimalAfter, AllDecimal, FitsByte, ShiftIn, PartsValue;
    PartsStep(p, 0, 0);
    PartsStep(p[1..], a, 1);
    assert p[1..][1..] == p[2..];
    LastParts(p[2..], a * 256 + b);
  }

  lemma ByteValue(part: seq<Byte>)
    requires FitsByte(0, part)
    ensures AllDecimal(part) && DecimalAfter(0, part) <= 255
  {
  }

  lemma BadPart(p: seq<seq<Byte>>)
    requires |p| == 4 && !(FitsByte(0, p[0]) && FitsByte(0, p[1]) && FitsByte(0, p[2]))
    ensures PartsValue(p, 0, 0, 0) == INADDR_NONE
  {
    hide DecimalAfter, AllDecimal, FitsByte;
    assert p[1..][1..] == [p[2], p[3]];
    if FitsByte(0, p[0]) {
      assert DecimalAfter(0, p[0]) <= 255 by {
        ByteValue(p[0]);
      }
      PartsStep(p, 0, 0);
      PartsStep(p[1..], DecimalAfter(0, p[0]), 1);
    }
  }

  lemma FourParts(text: seq<Byte>)
    requires |SplitDots(text)| == 4
    ensures PartsValue(SplitDots(text), 0, 0, 0) == InetValue(text)
  {
    hide SplitDots, DecimalAfter, AllDecimal;
    var p := SplitDots(text);
    if FitsByte(0, p[0]) && FitsByte(0, p[1]) && FitsByte(0, p[2]) {
      var a, b, c := DecimalAfter(0, p[0]), DecimalAfter(0, p[1]), DecimalAfter(0, p[2]);
      ThreeParts(p, a, b, c);
      if FitsByte(0, p[3]) {
        ShiftSmall((a * 256 + b) * 256 + c, DecimalAfter(0, p[3]));
      }
    } else {
      BadPart(p);
    }
  }

  /** The loop computes the value of the text. */
  lemma LoopIsInet(text: seq<Byte>)
    ensures InetLoop(text, 0, 0, 0) == InetValue(text)
  {
    hide InetLoop, PartsValue;
    LoopIsParts(text, 0, 0, 0);
    if |SplitDots(text)| == 4 {
      FourParts(text);
    } else {
      PartsNumber(SplitDots(text), 0, 0, 0);
    }
  }

  method InetAddr(text: seq<Byte>) returns (addr: Word32)
    ensures addr == InetValue(text)
  {
    LoopIsInet(text);
    var octet: Byte, n: nat, p := 0, 0, 0;
    addr := 0;
    while p < |text|
      invariant p <= |text| && InetLoop(text, 0, 0, 0) == InetLoop(text[p..], addr, octet, n)
    {
      var c := text[p];
      assert text[p..][1..] == text[p + 1..];
      if IsDecimal(c) {
        if octet * 10 + (c - 48) > 255 {
          return INADDR_NONE;
        }
        octet := octet * 10 + (c - 48);
      } else if c == DOT {
        addr := ShiftIn(addr, octet);
        octet := 0;
        n := n + 1;
      } else {
        return INADDR_NONE;
      }
      p := p + 1;
    }
    return if n == 3 then ShiftIn(addr, octet) else INADDR_NONE;
  }

  /** Four bytes in dots, as ngx_sprintf prints them. */
  function Dotted(a: Byte, b: Byte, c: Byte, d: Byte): seq<Byte> {
    Digits(a, 10) + ([DOT] + (Digits(b, 10) + ([DOT] + (Digits(c, 10) + ([DOT] + Digits(d, 10))))))
  }

  // ------------------------------------------------------ the parser

  function SetBit5(c: Byte): Byte {
    if (c / 32) % 2 == 0 then c + 32 else c
  }

  function HexDigit(c: Byte): Option<nat> {
    if IsDecimal(c) then Some(c - 48)
    else if 97 <= SetBit5(c) <= 102 then Some(SetBit5(c) - 87)
    else None
  }

  function Pair(high: Byte, low: Byte): Word {
    high * 256 + low
  }

  function Low16(v: nat): Word {
    v % 0x1_0000
  }

  function High16(v: Word32): Word {
    v / 0x1_0000
  }

  /**
    The variables of ngx_inet6_addr: the groups written so far, at which of them "::"
    stood, the text after the last colon, and the group being read.
  */
  datatype State = State(words: seq<Word>, zero: Option<nat>, digit: Option<seq<Byte>>, nibbles: nat, word: nat)

  /** All groups in the text, and at which of them "::" stood. */
  datatype Final = Final(words: seq<Word>, zero: Option<nat>)

  datatype Turn = Go(s: State) | Fail | Last(f: Final)

  /** One turn of the loop, at the character `c` followed by `rest`. */
  function NextTurn(c: Byte, rest: seq<Byte>, s: State): Turn {
    if c == COLON then
      if s.nibbles > 0 then
        if |s.words| + 1 < 8 then Go(State(s.words + [Low16(s.word)], s.zero, Some(rest), 0, 0)) else Fail
      else if s.zero.None? then Go(s.(digit := Some(rest), zero := Some(|s.words|)))
      else Fail
    else if c == DOT && s.nibbles > 0 then
      if |s.words| + 2 > 8 || s.digit.None? then Fail
      else
        var v := InetValue(s.digit.value);
        if v == INADDR_NONE then Fail else Last(Final(s.words + [High16(v), Low16(v)], s.zero))
    else if s.nibbles + 1 > 4 || HexDigit(c).None? then Fail
    else Go(s.(nibbles := s.nibbles + 1, word := s.word * 16 + HexDigit(c).value))
  }

  function Loop(rest: seq<Byte>, s: State): Option<Final>
    decreases |rest|
  {
    if rest == [] then
      if s.nibbles == 0 && s.zero.None? then None else Some(Final(s.words + [Low16(s.word)], s.zero))
    else
      match NextTurn(rest[0], rest[1..], s)
      case Go(s') => Loop(rest[1..], s')
      case Fail => None
      case Last(f) => Some(f)
  }

  function Zeros(n: nat): (r: seq<Word>)
    ensures |r| == n
  {
    seq(n, _ => 0)
  }

  /** The groups "::" stands for are put in. */
  function Expand(f: Final): Option<seq<Word>> {
    if |f.words| >= 8 then
      if |f.words| == 8 && f.zero.None? then Some(f.words) else None
    else if f.zero.None? || f.zero.value > |f.words| then None
    else Some(f.words[..f.zero.value] + Zeros(8 - |f.words|) + f.words[f.zero.value..])
  }

  const START := State([], None, None, 0, 0)

  /** What ngx_inet6_addr makes of a text. */
  function Parse(text: seq<Byte>): Option<seq<Word>> {
    if text == [] then None
    else
      var r := Loop(if text[0] == COLON then text[1..] else text, START);
      if r.None? then None else Expand(r.value)
  }

  // ------------------------------------------- the text forms are read

  predicate AllHex(g: seq<Byte>) {
    g == [] || (AllHex(g[..|g| - 1]) && HexDigit(g[|g| - 1]).Some?)
  }

  predicate IsGroup(g: seq<Byte>) {
    1 <= |g| <= 4 && AllHex(g)
  }

  function HexValue(g: seq<Byte>): nat
    requires AllHex(g)
  {
    if g == [] then 0 else HexValue(g[..|g| - 1]) * 16 + HexDigit(g[|g| - 1]).value
  }

  lemma {:induction false} HexValueBound(g: seq<Byte>)
    requires AllHex(g)
    ensures HexValue(g) < Pow(16, |g|)
  {
    if g != [] {
      HexValueBound(g[..|g| - 1]);
    }
  }

  lemma GroupBound(g: seq<Byte>)
    requires IsGroup(g)
    ensures HexValue(g) < 0x1_0000
  {
    HexValueBound(g);
    assert Pow(16, 0) == 1 && Pow(16, 1) == 16 && Pow(16, 2) == 256 && Pow(16, 3) == 4096 && Pow(16, 4) == 0x1_0000;
  }

  /** The value of a group of one to four digits. */
  function GroupValue(g: seq<Byte>): Word
    requires IsGroup(g)
  {
    GroupBound(g);
    HexValue(g)
  }

  lemma {:induction false} HexIsRead(g: seq<Byte>, rest: seq<Byte>, s: State)
    requires AllHex(g) && |g| <= 4 && s.nibbles == 0 && s.word == 0
    ensures Loop(g + rest, s) == Loop(rest, s.(nibbles := |g|, word := HexValue(g)))
    decreases |g|
  {
    if g == [] {
      assert g + rest == rest;
      assert s == s.(nibbles := 0, word := 0);
    } else {
      var h, d := g[..|g| - 1], g[|g| - 1];
      assert g + rest == h + ([d] + rest);
      HexIsRead(h, [d] + rest, s);
      assert ([d] + rest)[1..] == rest;
    }
  }

  lemma ColonIsRead(rest: seq<Byte>, s: State)
    requires s.nibbles > 0 && s.word < 0x1_0000
    ensures Loop([COLON] + rest, s) ==
            (if |s.words| + 1 < 8 then Loop(rest, State(s.words + [s.word], s.zero, Some(rest), 0, 0)) else None)
  {
    assert ([COLON] + rest)[1..] == rest;
    assert Low16(s.word) == s.word;
  }

  /** A group and the colon after it. */
  lemma GroupIsRead(g: seq<Byte>, rest: seq<Byte>, s: State)
    requires IsGroup(g) && s.nibbles == 0 && s.word == 0
    ensures Loop(g + ([COLON] + rest), s) ==
            (if |s.words| + 1 < 8 then Loop(rest, State(s.words + [GroupValue(g)], s.zero, Some(rest), 0, 0)) else None)
  {
    hide Loop, AllHex, HexValue;
    HexIsRead(g, [COLON] + rest, s);
    ColonIsRead(rest, s.(nibbles := |g|, word := GroupValue(g)));
  }

  /** How a text ends: with a group, right after a colon, or in dots. */
  datatype End = Group(g: seq<Byte>) | Nothing | Dots(d: seq<Byte>)

  /** A tail in dots is an address whose first number has as many digits as a group may have. */
  ghost predicate GoodEnd(e: End) {
    match e
    case Group(g) => IsGroup(g)
    case Nothing => true
    case Dots(d) => IsDotted(d) && 1 <= |SplitDots(d)[0]| <= 4
  }

  /** A tail of 255.255.255.255 is taken for an error. */
  predicate Readable(e: End) {
    e.Dots? ==> InetValue(e.d) != INADDR_NONE
  }

  function EndText(e: End): seq<Byte> {
    match e
    case Group(g) => g
    case Nothing => []
    case Dots(d) => d
  }

  /** The groups an end stands for: right after a colon one group of zero. */
  ghost function EndWords(e: End): seq<Word>
    requires GoodEnd(e)
  {
    match e
    case Group(g) => [GroupValue(g)]
    case Nothing => [0]
    case Dots(d) => [High16(InetValue(d)), Low16(InetValue(d))]
  }

  lemma {:induction false} PartAndDot(part: seq<Byte>, rest: seq<Byte>)
    requires DOT !in part
    ensures SplitDots(part + ([DOT] + rest)) == [part] + SplitDots(rest)
    decreases |part|
  {
    var t := part + ([DOT] + rest);
    if part == [] {
      assert t[1..] == rest;
    } else {
      assert t[1..] == part[1..] + ([DOT] + rest);
      PartAndDot(part[1..], rest);
      assert [part[0]] + part[1..] == part;
    }
  }

  lemma {:induction false} FirstPart(text: seq<Byte>) returns (rest: seq<Byte>)
    requires |SplitDots(text)| > 1
    ensures text == SplitDots(text)[0] + ([DOT] + rest)
    decreases |text|
  {
    if text[0] == DOT {
      rest := text[1..];
    } else {
      rest := FirstPart(text[1..]);
      assert text == [text[0]] + text[1..];
    }
  }

  lemma DecimalIsHexDigit(c: Byte)
    requires IsDecimal(c)
    ensures HexDigit(c).Some?
  {
  }

  lemma {:induction false} AllHexCons(c: Byte, part: seq<Byte>)
    requires HexDigit(c).Some? && AllHex(part)
    ensures AllHex([c] + part)
    decreases |part|
  {
    var g := [c] + part;
    if part == [] {
      assert g[..0] == [];
    } else {
      assert g[..|g| - 1] == [c] + part[..|part| - 1];
      AllHexCons(c, part[..|part| - 1]);
    }
  }

  lemma {:induction false} DecimalPartIsHex(part: seq<Byte>)
    requires AllDecimal(part)
    ensures AllHex(part)
    decreases |part|
  {
    if part != [] {
      DecimalIsHexDigit(part[0]);
      DecimalPartIsHex(part[1..]);
      AllHexCons(part[0], part[1..]);
      assert [part[0]] + part[1..] == part;
    }
  }

  /** A tail in dots ends the text, and needs room for two groups. */
  lemma DotsAreRead(d: seq<Byte>, s: State)
    requires GoodEnd(Dots(d)) && s.nibbles == 0 && s.word == 0 && s.digit == Some(d)
    ensures Loop(d, s) ==
            if |s.words| + 2 <= 8 && Readable(Dots(d)) then Some(Final(s.words + EndWords(Dots(d)), s.zero)) else None
  {
    hide AllHex, HexValue;
    var first := SplitDots(d)[0];
    var rest := FirstPart(d);
    DecimalPartIsHex(first);
    HexIsRead(first, [DOT] + rest, s);
    assert ([DOT] + rest)[0] == DOT;
  }

  ghost predicate AllGroups(gs: seq<seq<Byte>>) {
    forall i :: 0 <= i < |gs| ==> IsGroup(gs[i])
  }

  ghost function Values(gs: seq<seq<Byte>>): (r: seq<Word>)
    requires AllGroups(gs)
    ensures |r| == |gs|
  {
    if gs == [] then [] else [GroupValue(gs[0])] + Values(gs[1..])
  }

  lemma NothingIsRead(s: State)
    requires s.nibbles == 0 && s.word == 0 && s.zero.Some?
    ensures Loop([], s) == Some(Final(s.words + [0], s.zero))
  {
  }

  lemma OneGroupIsRead(g: seq<Byte>, s: State)
    requires IsGroup(g) && s.nibbles == 0 && s.word == 0
    ensures Loop(g, s) == Some(Final(s.words + [GroupValue(g)], s.zero))
  {
    HexIsRead(g, [], s);
    assert g + [] == g;
    assert Low16(HexValue(g)) == GroupValue(g);
  }

  lemma EndIsRead(e: End, s: State)
    requires GoodEnd(e) && s.nibbles == 0 && s.word == 0 && |s.words| < 8
    requires e.Nothing? ==> s.zero.Some?
    requires e.Dots? ==> s.digit == Some(e.d)
    ensures Loop(EndText(e), s) ==
            if |s.words| + |EndWords(e)| <= 8 && Readable(e) then Some(Final(s.words + EndWords(e), s.zero)) else None
  {
    match e {
      case Group(g) => OneGroupIsRead(g, s);
      case Nothing => NothingIsRead(s);
      case Dots(d) => DotsAreRead(d, s);
    }
  }

  lemma Regroup(a: seq<Word>, w: Word, b: seq<Word>)
    ensures a + [w] + b == a + ([w] + b)
  {
  }

  /** Groups each followed by a colon. */
  function LeadText(gs: seq<seq<Byte>>, rest: seq<Byte>): seq<Byte> {
    if gs == [] then rest else gs[0] + ([COLON] + LeadText(gs[1..], rest))
  }

  lemma {:induction false} LeadIsRead(gs: seq<seq<Byte>>, rest: seq<Byte>, s: State)
    requires AllGroups(gs) && s.nibbles == 0 && s.word == 0 && |s.words| < 8
    ensures Loop(LeadText(gs, rest), s) ==
            (if |s.words| + |gs| < 8
             then Loop(rest, State(s.words + Values(gs), s.zero, if gs == [] then s.digit else Some(rest), 0, 0)) else None)
    decreases |gs|
  {
    if gs == [] {
      assert s.words + [] == s.words;
    } else {
      hide Loop;
      var text := LeadText(gs[1..], rest);
      GroupIsRead(gs[0], text, s);
      if |s.words| + 1 < 8 {
        LeadIsRead(gs[1..], rest, State(s.words + [GroupValue(gs[0])], s.zero, Some(text), 0, 0));
        Regroup(s.words, GroupValue(gs[0]), Values(gs[1..]));
      }
    }
  }

  /**
    The texts the parser may take: perhaps a colon that is skipped, groups with a colon
    after each, perhaps one more colon (the second of "::") and groups again, and the end.
    The forms of section 2.2 of RFC 4291 are those that start with a colon just for a
    leading "::" and end with one just for a final "::".
  */
  datatype Form = Form(colon: bool, left: seq<seq<Byte>>, gap: bool, right: seq<seq<Byte>>, end: End)

  ghost predicate GoodForm(f: Form) {
    && AllGroups(f.left) && AllGroups(f.right) && GoodEnd(f.end)
    && (!f.gap ==> f.right == [] && !f.end.Nothing?)
    && (f.left == [] && f.gap ==> f.colon)
    && (f.left == [] && !f.gap ==> !f.end.Dots?)
  }

  function Rest(f: Form): seq<Byte> {
    if f.gap then [COLON] + LeadText(f.right, EndText(f.end)) else EndText(f.end)
  }

  function FormText(f: Form): seq<Byte> {
    (if f.colon then [COLON] else []) + LeadText(f.left, Rest(f))
  }

  /** The groups written after "::", or instead of it. */
  ghost function RightWords(f: Form): seq<Word>
    requires GoodForm(f)
  {
    Values(f.right) + EndWords(f.end)
  }

  /** The groups fill the address, or "::" stands for one more at least, and a tail in dots is readable. */
  ghost predicate Accepted(f: Form)
    requires GoodForm(f)
  {
    var n := |f.left| + |RightWords(f)|;
    Readable(f.end) && if f.gap then n < 8 else n == 8
  }

  ghost function FormWords(f: Form): seq<Word>
    requires GoodForm(f)
  {
    var n := |f.left| + |RightWords(f)|;
    Values(f.left) + (Zeros(if n < 8 then 8 - n else 0) + RightWords(f))
  }

  lemma {:induction false} FirstCharacter(g: seq<Byte>)
    requires AllHex(g) && g != []
    ensures HexDigit(g[0]).Some? && g[0] != COLON
  {
    if |g| > 1 {
      FirstCharacter(g[..|g| - 1]);
    }
  }

  /** The first colon is skipped, and there is none to skip without it. */
  lemma FormStart(f: Form)
    requires GoodForm(f)
    ensures var t := FormText(f); t != [] && (if t[0] == COLON then t[1..] else t) == LeadText(f.left, Rest(f))
  {
    var t := FormText(f);
    if f.colon {
      assert t[1..] == LeadText(f.left, Rest(f));
    } else {
      assert t == LeadText(f.left, Rest(f));
      var g := if f.left != [] then f.left[0] else f.end.g;
      FirstCharacter(g);
      assert t[0] == g[0];
    }
  }

  lemma EndLength(e: End)
    requires GoodEnd(e)
    ensures 1 <= |EndWords(e)| <= 2
  {
  }

  lemma NoValues(f: Form)
    requires GoodForm(f) && !f.gap
    ensures RightWords(f) == EndWords(f.end)
  {
    assert Values([]) + EndWords(f.end) == EndWords(f.end);
  }

  /** The second colon of "::". */
  lemma GapIsRead(text: seq<Byte>, s: State)
    requires s.nibbles == 0 && s.zero.None?
    ensures Loop([COLON] + text, s) == Loop(text, s.(digit := Some(text), zero := Some(|s.words|)))
  {
    assert ([COLON] + text)[1..] == text;
  }

  lemma GappedRestIsRead(f: Form, m: State)
    requires GoodForm(f) && f.gap && |f.left| < 8
    requires m == State(Values(f.left), Some(|f.left|), Some(LeadText(f.right, EndText(f.end))), 0, 0)
    ensures Loop(LeadText(f.right, EndText(f.end)), m) ==
            if |f.left| + |RightWords(f)| <= 8 && Readable(f.end)
            then Some(Final(Values(f.left) + RightWords(f), Some(|f.left|))) else None
  {
    assert f.right == [] ==> LeadText(f.right, EndText(f.end)) == EndText(f.end);
    hide Loop, Values, EndWords, GoodEnd, IsGroup, LeadText, Readable;
    LeadIsRead(f.right, EndText(f.end), m);
    EndLength(f.end);
    if |f.left| + |f.right| < 8 {
      EndIsRead(f.end, State(m.words + Values(f.right), m.zero, Some(EndText(f.end)), 0, 0));
      assert m.words + Values(f.right) + EndWords(f.end) == m.words + (Values(f.right) + EndWords(f.end));
    }
  }

  /** Reading after the groups on the left. */
  lemma RestIsRead(f: Form, s: State)
    requires GoodForm(f) && |f.left| < 8
    requires s == State(Values(f.left), None, if f.left == [] then None else Some(Rest(f)), 0, 0)
    ensures Loop(Rest(f), s) ==
            if |f.left| + |RightWords(f)| <= 8 && Readable(f.end)
            then Some(Final(Values(f.left) + RightWords(f), if f.gap then Some(|f.left|) else None)) else None
  {
    hide Loop, Values, EndWords, RightWords, Readable;
    if f.gap {
      var text := LeadText(f.right, EndText(f.end));
      GapIsRead(text, s);
      GappedRestIsRead(f, s.(digit := Some(text), zero := Some(|f.left|)));
    } else {
      NoValues(f);
      EndIsRead(f.end, s);
    }
  }

  lemma ExpandGap(left: seq<Word>, right: seq<Word>)
    ensures Expand(Final(left + right, Some(|left|))) ==
            if |left| + |right| < 8 then Some(left + (Zeros(8 - |left| - |right|) + right)) else None
  {
    var words := left + right;
    assert words[..|left|] == left && words[|left|..] == right;
    if |words| < 8 {
      assert left + Zeros(8 - |words|) + right == left + (Zeros(8 - |words|) + right);
    }
  }

  lemma ExpandNone(left: seq<Word>, right: seq<Word>)
    ensures Expand(Final(left + right, None)) ==
            if |left| + |right| == 8 then Some(left + (Zeros(0) + right)) else None
  {
    assert Zeros(0) + right == right;
  }

  /** Every such text is read as the groups it stands for, or refused: exactly the accepted forms are read. */
  lemma FormIsRead(f: Form)
    requires GoodForm(f)
    ensures Parse(FormText(f)) == if Accepted(f) then Some(FormWords(f)) else None
  {
    hide Loop, Expand, Values, EndWords, FormText, LeadText, Rest, Zeros;
    FormStart(f);
    LeadIsRead(f.left, Rest(f), START);
    assert [] + Values(f.left) == Values(f.left);
    EndLength(f.end);
    assert |RightWords(f)| == |f.right| + |EndWords(f.end)|;
    if |f.left| < 8 {
      RestIsRead(f, State(Values(f.left), None, if f.left == [] then None else Some(Rest(f)), 0, 0));
      if f.gap {
        ExpandGap(Values(f.left), RightWords(f));
      } else {
        ExpandNone(Values(f.left), RightWords(f));
      }
    }
  }

  // -------------------------------------------- and no other text is read

  /** One more digit of a group. */
  lemma HexStep(h: seq<Byte>, rest: seq<Byte>, s: State)
    requires AllHex(h) && s.nibbles == |h| && s.word == HexValue(h) && Loop(rest, s).Some?
    requires rest != [] && rest[0] != COLON && (rest[0] == DOT ==> h == [])
    ensures |h| < 4 && AllHex(h + [rest[0]])
    ensures Loop(rest, s) == Loop(rest[1..], s.(nibbles := |h| + 1, word := HexValue(h + [rest[0]])))
  {
    var h' := h + [rest[0]];
    assert h'[..|h|] == h;
    hide InetValue;
  }

  /** The digits at the front of a text that is read, and what may follow them; `h` has been read. */
  lemma {:induction false} HexFound(h: seq<Byte>, rest: seq<Byte>, s: State) returns (g: seq<Byte>, after: seq<Byte>)
    requires AllHex(h) && |h| <= 4 && s.nibbles == |h| && s.word == HexValue(h) && Loop(rest, s).Some?
    ensures AllHex(g) && |h| <= |g| <= 4 && h + rest == g + after
    ensures Loop(rest, s) == Loop(after, s.(nibbles := |g|, word := HexValue(g)))
    ensures after == [] || after[0] == COLON || (after[0] == DOT && g != [])
    decreases |rest|
  {
    hide Loop, AllHex, HexValue;
    if rest == [] || rest[0] == COLON || (rest[0] == DOT && h != []) {
      g, after := h, rest;
    } else {
      var h' := h + [rest[0]];
      HexStep(h, rest, s);
      g, after := HexFound(h', rest[1..], s.(nibbles := |h| + 1, word := HexValue(h')));
      assert h + rest == h' + rest[1..];
    }
  }

  lemma NoDots(g: seq<Byte>)
    requires AllHex(g)
    ensures DOT !in g
    decreases |g|
  {
    if g != [] {
      NoDots(g[..|g| - 1]);
      assert g == g[..|g| - 1] + [g[|g| - 1]];
    }
  }

  /** What a text that is read starts with: its end, a group with a colon, or a colon. */
  lemma PieceFound(rest: seq<Byte>, s: State) returns (g: seq<Byte>, after: seq<Byte>, e: Option<End>)
    requires s.nibbles == 0 && s.word == 0 && (s.digit.Some? ==> s.digit.value == rest) && Loop(rest, s).Some?
    ensures e.Some? ==> GoodEnd(e.value) && EndText(e.value) == rest
    ensures e.Some? ==> (e.value.Nothing? ==> s.zero.Some?) && (e.value.Dots? ==> s.digit.Some?)
    ensures e.None? && g != [] ==> IsGroup(g) && rest == g + ([COLON] + after) && |s.words| + 1 < 8
    ensures e.None? && g != [] ==>
              Loop(rest, s) == Loop(after, State(s.words + [GroupValue(g)], s.zero, Some(after), 0, 0))
    ensures e.None? && g == [] ==> rest == [COLON] + after && s.zero.None?
    ensures e.None? && g == [] ==> Loop(rest, s) == Loop(after, s.(digit := Some(after), zero := Some(|s.words|)))
  {
    assert s == s.(nibbles := 0, word := 0);
    g, after := HexFound([], rest, s);
    assert [] + rest == rest;
    if after == [] {
      e := Some(if g == [] then Nothing else Group(g));
      assert g + [] == g;
    } else {
      var tail := after[1..];
      assert after == [after[0]] + tail;
      if after[0] == DOT {
        e := Some(Dots(rest));
        NoDots(g);
        PartAndDot(g, tail);
      } else {
        e, after := None, tail;
        if g == [] {
          assert rest == [COLON] + tail;
        } else {
          GroupIsRead(g, tail, s);
        }
      }
    }
  }

  /** After "::". */
  lemma {:induction false} RightFound(rest: seq<Byte>, s: State) returns (gs: seq<seq<Byte>>, end: End)
    requires s.nibbles == 0 && s.word == 0 && s.zero.Some? && s.digit == Some(rest) && Loop(rest, s).Some?
    ensures AllGroups(gs) && GoodEnd(end) && rest == LeadText(gs, EndText(end))
    decreases |rest|
  {
    hide Loop, IsGroup, GoodEnd;
    var g, after, e := PieceFound(rest, s);
    if e.Some? {
      gs, end := [], e.value;
    } else {
      gs, end := RightFound(after, State(s.words + [GroupValue(g)], s.zero, Some(after), 0, 0));
      gs := [g] + gs;
    }
  }

  lemma {:induction false} LeftFound(rest: seq<Byte>, s: State) returns (f: Form)
    requires s.nibbles == 0 && s.word == 0 && s.zero.None? && Loop(rest, s).Some?
    requires s.digit.Some? ==> s.digit.value == rest
    ensures AllGroups(f.left) && AllGroups(f.right) && GoodEnd(f.end)
    ensures (!f.gap ==> f.right == [] && !f.end.Nothing?) && (f.left == [] && !f.gap && f.end.Dots? ==> s.digit.Some?)
    ensures rest == LeadText(f.left, Rest(f))
    decreases |rest|
  {
    hide Loop, IsGroup, GoodEnd;
    var g, after, e := PieceFound(rest, s);
    if e.Some? {
      f := Form(false, [], false, [], e.value);
    } else if g == [] {
      var right, end := RightFound(after, s.(digit := Some(after), zero := Some(|s.words|)));
      f := Form(false, [], true, right, end);
    } else {
      f := LeftFound(after, State(s.words + [GroupValue(g)], s.zero, Some(after), 0, 0));
      var left := f.left;
      f := f.(left := [g] + left);
      assert f.left[1..] == left;
    }
  }

  lemma ReadIsForm(text: seq<Byte>) returns (f: Form)
    requires Parse(text).Some?
    ensures GoodForm(f) && FormText(f) == text
  {
    hide Loop, GoodEnd, IsGroup;
    var colon := text[0] == COLON;
    var rest := if colon then text[1..] else text;
    f := LeftFound(rest, START);
    f := f.(colon := colon);
    assert text == (if colon then [COLON] else []) + rest;
  }

  /** ngx_inet6_addr accepts exactly the texts of accepted forms, and reads the groups they stand for. */
  lemma ReadIffForm(text: seq<Byte>)
    ensures Parse(text).Some? <==> exists f :: GoodForm(f) && Accepted(f) && FormText(f) == text
    ensures forall f :: GoodForm(f) && Accepted(f) && FormText(f) == text ==> Parse(text) == Some(FormWords(f))
  {
    hide Parse, GoodForm, FormText, Accepted, FormWords;
    forall f | GoodForm(f) && Accepted(f) && FormText(f) == text ensures Parse(text) == Some(FormWords(f)) {
      FormIsRead(f);
    }
    if Parse(text).Some? {
      var f := ReadIsForm(text);
      FormIsRead(f);
    }
  }

  // ------------------------------------------- writing the address

  function BytesOf(ws: seq<Word>): (r: seq<Byte>)
    ensures |r| == 2 * |ws|
  {
    if ws == [] then [] else BytesOf(ws[..|ws| - 1]) + [ws[|ws| - 1] / 256, ws[|ws| - 1] % 256]
  }

  lemma {:induction false} BytesOfConcat(a: seq<Word>, b: seq<Word>)
    ensures BytesOf(a + b) == BytesOf(a) + BytesOf(b)
    decreases |b|
  {
    if b == [] {
      assert a + b == a;
    } else {
      var c := a + b;
      assert c[..|c| - 1] == a + b[..|b| - 1];
      BytesOfConcat(a, b[..|b| - 1]);
    }
  }

  lemma {:induction false} BytesOfZeros(n: nat)
    ensures BytesOf(Zeros(n)) == seq(2 * n, _ => 0)
  {
    if n > 0 {
      assert Zeros(n)[..n - 1] == Zeros(n - 1);
      BytesOfZeros(n - 1);
    }
  }

  lemma SplitWord(word: nat)
    ensures Low16(word) / 256 == (word / 256) % 256 && Low16(word) % 256 == word % 256
  {
  }

  method WriteAt(addr: array<Byte>, k: nat, high: Byte, low: Byte)
    requires k + 2 <= addr.Length
    modifies addr
    ensures addr[..k + 2] == old(addr[..k]) + [high, low]
  {
    addr[k] := high;
    addr[k + 1] := low;
  }

  method WriteWord(addr: array<Byte>, k: nat, word: nat, ghost words: seq<Word>)
    requires k == 2 * |words| && k + 2 <= addr.Length && addr[..k] == BytesOf(words)
    modifies addr
    ensures addr[..k + 2] == BytesOf(words + [Low16(word)])
  {
    SplitWord(word);
    WriteAt(addr, k, (word / 256) % 256, word % 256);
    assert (words + [Low16(word)])[..|words|] == words;
  }

  /** The first loop: what comes after "::" moves to the end, from its last byte on. */
  method ShiftUp(addr: array<Byte>, zero: nat, k: nat)
    requires zero <= k <= addr.Length
    modifies addr
    ensures forall j :: 0 <= j < zero ==> addr[j] == old(addr[j])
    ensures forall j :: zero <= j < k ==> addr[j + (addr.Length - k)] == old(addr[j])
  {
    var n, s := addr.Length - k, k;
    while s > zero
      invariant zero <= s <= k
      invariant forall j :: 0 <= j < s ==> addr[j] == old(addr[j])
      invariant forall j :: s <= j < k ==> addr[j + n] == old(addr[j])
    {
      s := s - 1;
      addr[s + n] := addr[s];
    }
  }

  method Clear(addr: array<Byte>, lo: nat, hi: nat)
    requires lo <= hi <= addr.Length
    modifies addr
    ensures addr[..] == old(addr[..lo]) + seq(hi - lo, _ => 0) + old(addr[hi..])
  {
    for j := lo to hi
      invariant forall i :: 0 <= i < lo || hi <= i < addr.Length ==> addr[i] == old(addr[i])
      invariant forall i :: lo <= i < j ==> addr[i] == 0
    {
      addr[j] := 0;
    }
  }

  /** Moves the bytes from `zero` on to the end, last one first, and clears the gap. */
  method OpenGap(addr: array<Byte>, zero: nat, k: nat)
    requires zero <= k <= addr.Length
    modifies addr
    ensures addr[..] == old(addr[..zero]) + seq(addr.Length - k, _ => 0) + old(addr[zero..k])
  {
    ShiftUp(addr, zero, k);
    assert addr[..zero] == old(addr[..zero]);
    assert addr[zero + addr.Length - k..] == old(addr[zero..k]);
    Clear(addr, zero, zero + addr.Length - k);
  }

  lemma SplitBytes(words: seq<Word>, z: nat)
    requires z <= |words|
    ensures BytesOf(words)[..2 * z] == BytesOf(words[..z]) && BytesOf(words)[2 * z..] == BytesOf(words[z..])
  {
    assert words == words[..z] + words[z..];
    BytesOfConcat(words[..z], words[z..]);
  }

  lemma ExpandedBytes(words: seq<Word>, z: nat)
    requires z <= |words| < 8
    ensures Expand(Final(words, Some(z))).Some?
    ensures BytesOf(Expand(Final(words, Some(z))).value) ==
            BytesOf(words)[..2 * z] + seq(16 - 2 * |words|, _ => 0) + BytesOf(words)[2 * z..]
  {
    var n := 8 - |words|;
    BytesOfConcat(words[..z] + Zeros(n), words[z..]);
    BytesOfConcat(words[..z], Zeros(n));
    BytesOfZeros(n);
    SplitBytes(words, z);
  }

  /** The end of ngx_inet6_addr, when the text is used up. */
  method Conclude(addr: array<Byte>, k: nat, zero: Option<nat>, ghost words: seq<Word>) returns (ok: bool)
    requires addr.Length == 16 && k == 2 * |words| <= 16 && addr[..k] == BytesOf(words)
    requires zero.Some? ==> zero.value <= |words|
    modifies addr
    ensures ok <==> Expand(Final(words, zero)).Some?
    ensures ok ==> addr[..] == BytesOf(Expand(Final(words, zero)).value)
  {
    hide BytesOf;
    var n := 8 - k / 2;
    if n != 0 {
      if zero.Some? {
        ExpandedBytes(words, zero.value);
        assert addr[..2 * zero.value] == addr[..k][..2 * zero.value];
        assert addr[2 * zero.value..k] == addr[..k][2 * zero.value..];
        OpenGap(addr, 2 * zero.value, k);
        return true;
      }
    } else if zero.None? {
      assert addr[..] == addr[..k];
      return true;
    }
    return false;
  }

  /** The text after the last colon, which C keeps as a pointer and a length. */
  ghost function DigitText(text: seq<Byte>, digit: Option<nat>): Option<seq<Byte>>
    requires digit.Some? ==> digit.value <= |text|
  {
    if digit.Some? then Some(text[digit.value..]) else None
  }

  /** What is left to find out at a point of the loop. */
  ghost predicate Pending(goal: Option<Final>, text: seq<Byte>, p: nat, words: seq<Word>, zero: Option<nat>,
                          digit: Option<nat>, nibbles: nat, word: nat)
  {
    && p <= |text| && (digit.Some? ==> digit.value <= p)
    && (zero.Some? ==> zero.value <= |words|)
    && |words| < 8
    && goal == Loop(text[p..], State(words, zero, DigitText(text, digit), nibbles, word))
  }

  /** How one turn changes what is left to find out. */
  lemma TakeTurn(goal: Option<Final>, text: seq<Byte>, p: nat, words: seq<Word>, zero: Option<nat>,
                 digit: Option<nat>, nibbles: nat, word: nat)
    requires p < |text| && Pending(goal, text, p, words, zero, digit, nibbles, word)
    ensures match NextTurn(text[p], text[p + 1..], State(words, zero, DigitText(text, digit), nibbles, word))
            case Go(s) => goal == Loop(text[p + 1..], s)
            case Fail => goal == None
            case Last(f) => goal == Some(f)
  {
    assert text[p..][1..] == text[p + 1..];
  }

  lemma NoBytes(s: seq<Byte>)
    requires s == []
    ensures s == BytesOf([])
  {
  }

  lemma EndOfText(goal: Option<Final>, text: seq<Byte>, p: nat, words: seq<Word>, zero: Option<nat>,
                  digit: Option<nat>, nibbles: nat, word: nat)
    requires p == |text| && Pending(goal, text, p, words, zero, digit, nibbles, word)
    ensures goal == if nibbles == 0 && zero.None? then None else Some(Final(words + [Low16(word)], zero))
  {
  }

  lemma AppendTwo(words: seq<Word>, a: Word, b: Word)
    ensures words + [a] + [b] == words + [a, b]
  {
  }

  method WriteHigh(addr: array<Byte>, k: nat, v: Word32, ghost words: seq<Word>)
    requires k == 2 * |words| && k + 2 <= addr.Length && addr[..k] == BytesOf(words)
    modifies addr
    ensures addr[..k + 2] == BytesOf(words + [High16(v)])
  {
    WriteWord(addr, k, v / 0x1_0000, words);
  }

  method Inet6Addr(text: seq<Byte>, addr: array<Byte>) returns (ok: bool)
    requires addr.Length == 16
    modifies addr
    ensures ok <==> Parse(text).Some?
    ensures ok ==> addr[..] == BytesOf(Parse(text).value)
  {
    hide InetLoop, Expand, BytesOf, Loop, HexDigit, Low16, High16;
    if |text| == 0 {
      return false;
    }
    var p, k, nibbles: nat, word: nat, zero: Option<nat>, digit: Option<nat> := 0, 0, 0, 0, None, None;
    if text[0] == COLON {
      p := 1;
    }
    ghost var words: seq<Word> := [];
    ghost var goal := Loop(text[p..], START);
    assert text[0..] == text;
    NoBytes(addr[..k]);
    var ended := false;
    while p < |text| && !ended
      invariant k == 2 * |words| && |words| < 8 && addr[..k] == BytesOf(words)
      invariant zero.Some? ==> zero.value <= |words|
      invariant !ended ==> Pending(goal, text, p, words, zero, digit, nibbles, word)
      invariant ended ==> nibbles > 0 && goal == Some(Final(words + [Low16(word)], zero))
    {
      var c := text[p];
      TakeTurn(goal, text, p, words, zero, digit, nibbles, word);
      p := p + 1;
      if c == COLON {
        if nibbles > 0 {
          digit := Some(p);
          WriteWord(addr, k, word, words);
          words, k := words + [Low16(word)], k + 2;
          if k == 16 {
            return false;
          }
          nibbles, word := 0, 0;
        } else {
          if zero.Some? {
            return false;
          }
          digit, zero := Some(p), Some(k / 2);
        }
      } else if c == DOT && nibbles > 0 {
        if k > 12 || digit.None? {
          return false;
        }
        var v := InetAddr(text[digit.value..]);
        if v == INADDR_NONE {
          return false;
        }
        word := v;
        WriteHigh(addr, k, v, words);
        AppendTwo(words, High16(v), Low16(v));
        words, k, ended := words + [High16(v)], k + 2, true;
      } else {
        nibbles := nibbles + 1;
        if nibbles > 4 || HexDigit(c).None? {
          return false;
        }
        word := word * 16 + HexDigit(c).value;
      }
    }
    if !ended {
      EndOfText(goal, text, p, words, zero, digit, nibbles, word);
    }
    if nibbles == 0 && zero.None? {
      return false;
    }
    WriteWord(addr, k, word, words);
    ok := Conclude(addr, k + 2, zero, words + [Low16(word)]);
  }

  // ------------------------------------------------ the longest zero run

  function WordsOf(p: seq<Byte>): (w: seq<Word>)
    requires |p| == 16
    ensures |w| == 8
    ensures forall i :: 0 <= i < 8 ==> w[i] == Pair(p[2 * i], p[2 * i + 1])
  {
    seq(8, i requires 0 <= i < 8 => Pair(p[2 * i], p[2 * i + 1]))
  }

  ghost predicate ZeroRun(w: seq<Word>, a: nat, b: nat) {
    a <= b <= |w| && forall k :: a <= k < b ==> w[k] == 0
  }

  datatype Run = NoRun | Run(start: nat, len: nat)

  /** The C variable `max`. */
  function MaxLen(r: Run): nat {
    if r.Run? then r.len else 1
  }

  /** `r` is the first of the longest runs of zero groups before `end`; runs of one group do not count. */
  ghost predicate BestRun(w: seq<Word>, end: nat, r: Run) {
    && (r.Run? ==> r.len >= 2 && r.start + r.len <= end && ZeroRun(w, r.start, r.start + r.len))
    && forall a: nat, b: nat :: b <= end && ZeroRun(w, a, b) ==> b - a <= MaxLen(r) && (r.Run? && b - a == r.len ==> r.start <= a)
  }

  lemma BestRunUnique(w: seq<Word>, r: Run, r': Run)
    requires BestRun(w, |w|, r) && BestRun(w, |w|, r')
    ensures r == r'
  {
    if r.Run? {
      assert ZeroRun(w, r.start, r.start + r.len);
    }
    if r'.Run? {
      assert ZeroRun(w, r'.start, r'.start + r'.len);
    }
  }

  function ZerosFrom(w: seq<Word>, i: nat): (n: nat)
    requires i <= |w|
    ensures i + n <= |w|
    decreases |w| - i
  {
    if i == |w| || w[i] != 0 then 0 else 1 + ZerosFrom(w, i + 1)
  }

  /** The first of the longest runs that start at `i` or later. */
  function LongestRun(w: seq<Word>, i: nat): Run
    requires i <= |w|
    decreases |w| - i
  {
    if i == |w| then NoRun
    else
      var rest, here := LongestRun(w, i + 1), ZerosFrom(w, i);
      if here >= 2 && here >= MaxLen(rest) then Run(i, here) else rest
  }

  lemma {:induction false} ZerosFromIsRun(w: seq<Word>, i: nat, b: nat)
    requires i <= |w|
    ensures ZeroRun(w, i, b) <==> i <= b <= i + ZerosFrom(w, i)
    decreases |w| - i
  {
    if i < |w| && w[i] == 0 && b > i {
      ZerosFromIsRun(w, i + 1, b);
      assert ZeroRun(w, i, b) <==> ZeroRun(w, i + 1, b);
    }
  }

  ghost predicate BestFrom(w: seq<Word>, i: nat, r: Run) {
    && (r.Run? ==> r.len >= 2 && i <= r.start && ZeroRun(w, r.start, r.start + r.len))
    && forall a: nat, b: nat :: i <= a && ZeroRun(w, a, b) ==> b - a <= MaxLen(r) && (r.Run? && b - a == r.len ==> r.start <= a)
  }

  lemma {:induction false} LongestFrom(w: seq<Word>, i: nat)
    requires i <= |w|
    ensures BestFrom(w, i, LongestRun(w, i))
    decreases |w| - i
  {
    if i < |w| {
      LongestFrom(w, i + 1);
      ZerosFromIsRun(w, i, i + ZerosFrom(w, i));
      forall b: nat | ZeroRun(w, i, b) ensures b - i <= ZerosFrom(w, i) {
        ZerosFromIsRun(w, i, b);
      }
    }
  }

  lemma LongestIsBest(w: seq<Word>)
    ensures BestRun(w, |w|, LongestRun(w, 0))
  {
    LongestFrom(w, 0);
  }

  /** Zero groups up to `i` make the run ending there a candidate. */
  lemma RunEnds(w: seq<Word>, i: nat, n: nat, r: Run)
    requires n <= i <= |w| && ZeroRun(w, i - n, i) && (n < i ==> w[i - n - 1] != 0)
    requires BestRun(w, i - n, r)
    ensures BestRun(w, i, if MaxLen(r) < n then Run(i - n, n) else r)
  {
    forall a: nat, b: nat | b <= i && ZeroRun(w, a, b) ensures b <= i - n || (b - a <= n && (b - a == n ==> i - n <= a)) {
    }
  }

  lemma PassWord(w: seq<Word>, i: nat, r: Run)
    requires i < |w| && w[i] != 0 && BestRun(w, i, r)
    ensures BestRun(w, i + 1, r)
  {
    forall a: nat, b: nat | b <= i + 1 && ZeroRun(w, a, b) ensures b <= i || b == a {
    }
  }

  lemma NoRunYet(w: seq<Word>)
    ensures BestRun(w, 0, NoRun)
  {
  }

  /** The first loop of ngx_inet6_ntop. */
  method FindRun(p: seq<Byte>) returns (run: Run)
    requires |p| == 16
    ensures run == LongestRun(WordsOf(p), 0)
  {
    hide BestRun, LongestRun;
    ghost var w := WordsOf(p);
    var last, n := 0, 0;
    run := NoRun;
    NoRunYet(w);
    for i := 0 to 8
      invariant n <= i && (n > 0 ==> last == i - n)
      invariant ZeroRun(w, i - n, i) && (n < i ==> w[i - n - 1] != 0)
      invariant BestRun(w, i - n, run)
    {
      if p[2 * i] != 0 || p[2 * i + 1] != 0 {
        assert w[i] != 0;
        RunEnds(w, i, n, run);
        if MaxLen(run) < n {
          run := Run(last, n);
        }
        PassWord(w, i, run);
        n := 0;
      } else {
        assert w[i] == 0;
        if n == 0 {
          last := i;
        }
        n := n + 1;
      }
    }
    RunEnds(w, 8, n, run);
    if MaxLen(run) < n {
      run := Run(last, n);
    }
    LongestIsBest(w);
    BestRunUnique(w, run, LongestRun(w, 0));
  }

  // --------------------------------------------------------- the printer

  /** Four bytes, for a tail in dots. */
  datatype Quad = Quad(a: Byte, b: Byte, c: Byte, d: Byte)

  function QuadText(q: Quad): seq<Byte> {
    Dotted(q.a, q.b, q.c, q.d)
  }

  const ALL_ONES := Quad(255, 255, 255, 255)

  function TailText(tail: Option<Quad>): seq<Byte> {
    if tail.None? then [] else QuadText(tail.value)
  }

  /** Whether the last four bytes are printed in dots. */
  predicate InDots(p: seq<Byte>, run: Run)
    requires |p| == 16
  {
    run.Run? && run.start == 0 &&
    ((run.len == 5 && p[10] == 0xff && p[11] == 0xff) || run.len == 6 || (run.len == 7 && p[14] != 0 && p[15] != 1))
  }

  function TailOf(p: seq<Byte>, run: Run): Option<Quad>
    requires |p| == 16
  {
    if InDots(p, run) then Some(Quad(p[12], p[13], p[14], p[15])) else None
  }

  /** What the second loop of ngx_inet6_ntop prints from group `i` on, and the tail after it. */
  function PrintFrom(w: seq<Word>, i: nat, n: nat, run: Run, tail: seq<Byte>): seq<Byte>
    requires n <= |w| == 8 && (run.Run? ==> run.len > 0)
    decreases n - i
  {
    if i >= n then tail
    else if run.Run? && i == run.start then [COLON] + PrintFrom(w, i + run.len, n, run, tail)
    else Digits(w[i], 16) + ((if i < 7 then [COLON] else []) + PrintFrom(w, i + 1, n, run, tail))
  }

  predicate GoodRun(run: Run) {
    run.Run? ==> run.len >= 2 && run.start + run.len <= 8
  }

  lemma LongestIsGood(p: seq<Byte>)
    requires |p| == 16
    ensures GoodRun(LongestRun(WordsOf(p), 0))
  {
    LongestIsBest(WordsOf(p));
  }

  /** The text of the groups `w`, with their run of zeros and their tail in dots, if any. */
  function PrintWith(w: seq<Word>, run: Run, tail: Option<Quad>): seq<Byte>
    requires |w| == 8 && GoodRun(run)
  {
    (if run.Run? && run.start == 0 then [COLON] else []) +
    PrintFrom(w, 0, if tail.Some? then 6 else 8, run, TailText(tail))
  }

  /** The text ngx_inet6_ntop prints. */
  function Print(p: seq<Byte>): seq<Byte>
    requires |p| == 16
  {
    LongestIsGood(p);
    var run := LongestRun(WordsOf(p), 0);
    PrintWith(WordsOf(p), run, TailOf(p, run))
  }

  lemma WordLen(v: Word)
    ensures |Digits(v, 16)| <= 4
  {
    assert Pow(16, 0) == 1 && Pow(16, 1) == 16 && Pow(16, 2) == 256 && Pow(16, 3) == 4096 && Pow(16, 4) == 0x1_0000;
    DigitsLen(v, 16, 4);
  }

  lemma {:induction false} PrintFromLen(w: seq<Word>, i: nat, n: nat, run: Run, tail: seq<Byte>)
    requires i <= n <= |w| == 8 && (run.Run? ==> run.len > 0)
    ensures |PrintFrom(w, i, n, run, tail)| <= 5 * (n - i) + |tail|
    decreases n - i
  {
    if i < n {
      if run.Run? && i == run.start {
        if i + run.len <= n {
          PrintFromLen(w, i + run.len, n, run, tail);
        }
      } else {
        WordLen(w[i]);
        PrintFromLen(w, i + 1, n, run, tail);
      }
    }
  }

  lemma CharIsHex(d: nat)
    requires d < 16
    ensures HexDigit(DigitChar(d)) == Some(d)
  {
  }

  lemma {:induction false} DigitsAreHex(v: nat, base: nat)
    requires base == 10 || base == 16
    ensures AllHex(Digits(v, base)) && (base == 16 ==> HexValue(Digits(v, base)) == v)
    decreases v
  {
    var r := Digits(v, base);
    if v < base {
      CharIsHex(v);
      assert r[..|r| - 1] == [];
    } else {
      CharIsHex(v % base);
      DigitsAreHex(v / base, base);
      assert r[..|r| - 1] == Digits(v / base, base);
    }
  }

  lemma ByteDigits(v: Byte)
    ensures 1 <= |Digits(v, 10)| <= 3 && DOT !in Digits(v, 10)
  {
    DigitsAreHex(v, 10);
    NoDots(Digits(v, 10));
    if v >= 100 {
      assert |Digits(v / 10, 10)| == 1 + |Digits(v / 10 / 10, 10)|;
    }
  }

  lemma TailLen(tail: Option<Quad>)
    ensures |TailText(tail)| <= if tail.Some? then 15 else 0
  {
    if tail.Some? {
      var q := tail.value;
      ByteDigits(q.a);
      ByteDigits(q.b);
      ByteDigits(q.c);
      ByteDigits(q.d);
    }
  }

  lemma PrintInDots(p: seq<Byte>, run: Run)
    requires |p| == 16 && GoodRun(run) && InDots(p, run)
    ensures |PrintFrom(WordsOf(p), 0, 6, run, TailText(TailOf(p, run)))| <= 6 + |TailText(TailOf(p, run))|
  {
    if run.len < 6 {
      PrintFromLen(WordsOf(p), run.len, 6, run, TailText(TailOf(p, run)));
    }
  }

  /** The text fits the room that is asked for. */
  lemma PrintFits(p: seq<Byte>, run: Run)
    requires |p| == 16 && GoodRun(run)
    ensures |PrintWith(WordsOf(p), run, TailOf(p, run))| <= ADDRSTRLEN
  {
    hide PrintFrom, TailText;
    var tail := TailOf(p, run);
    var n := if tail.Some? then 6 else 8;
    TailLen(tail);
    if tail.Some? {
      PrintInDots(p, run);
    } else {
      PrintFromLen(WordsOf(p), 0, 8, run, TailText(tail));
    }
  }

  /** One turn of the printing loop. */
  method PrintGroup(text: array<Byte>, dst: nat, v: Word, colon: bool) returns (end: nat)
    requires dst + |Digits(v, 16)| + (if colon then 1 else 0) <= text.Length
    modifies text
    ensures end <= text.Length
    ensures text[..end] == old(text[..dst]) + (Digits(v, 16) + if colon then [COLON] else [])
  {
    end := PutNumber(text, dst, v, 16);
    if colon {
      text[end] := COLON;
      end := end + 1;
      Shift(old(text[..dst]), 0, []);
      assert old(text[..dst]) + Digits(v, 16) + [COLON] == old(text[..dst]) + (Digits(v, 16) + [COLON]);
    }
  }

  lemma SevenParts(s: seq<Byte>, a: seq<Byte>, t: seq<Byte>, b: seq<Byte>, c: seq<Byte>, d: seq<Byte>)
    ensures s + a + t + b + t + c + t + d == s + (a + (t + (b + (t + (c + (t + d))))))
  {
    assert c + (t + d) == c + t + d;
    assert b + (t + (c + (t + d))) == b + t + c + t + d;
    assert a + (t + (b + t + c + t + d)) == a + t + b + t + c + t + d;
  }

  method PrintDotted(text: array<Byte>, dst: nat, q: Quad) returns (end: nat)
    requires dst + |QuadText(q)| <= text.Length
    modifies text
    ensures end <= text.Length && text[..end] == old(text[..dst]) + QuadText(q)
  {
    ghost var before := text[..dst];
    var a, b, c, d := Digits(q.a, 10), Digits(q.b, 10), Digits(q.c, 10), Digits(q.d, 10);
    end := PutNumber(text, dst, q.a, 10);
    end := Put(text, end, [DOT]);
    end := PutNumber(text, end, q.b, 10);
    end := Put(text, end, [DOT]);
    end := PutNumber(text, end, q.c, 10);
    end := Put(text, end, [DOT]);
    end := PutNumber(text, end, q.d, 10);
    SevenParts(before, a, [DOT], b, c, d);
  }

  lemma Assoc(a: seq<Byte>, b: seq<Byte>, c: seq<Byte>)
    ensures (a + b) + c == a + (b + c)
  {
  }

  lemma PrintStep(w: seq<Word>, i: nat, n: nat, run: Run, tail: seq<Byte>)
    requires n <= |w| == 8 && (run.Run? ==> run.len > 0)
    ensures i >= n ==> PrintFrom(w, i, n, run, tail) == tail
    ensures i < n && run.Run? && i == run.start ==>
              PrintFrom(w, i, n, run, tail) == [COLON] + PrintFrom(w, i + run.len, n, run, tail)
    ensures i < n && !(run.Run? && i == run.start) ==>
              PrintFrom(w, i, n, run, tail) ==
              (Digits(w[i], 16) + (if i < 7 then [COLON] else [])) + PrintFrom(w, i + 1, n, run, tail)
  {
    if i < n && !(run.Run? && i == run.start) {
      Assoc(Digits(w[i], 16), if i < 7 then [COLON] else [], PrintFrom(w, i + 1, n, run, tail));
    }
  }

  lemma StepFits(done: seq<Byte>, piece: seq<Byte>, rest: seq<Byte>)
    ensures done + (piece + rest) == done + piece + rest
    ensures |done| + |piece| <= |done + (piece + rest)|
  {
  }

  /** The printing loop: what comes out, with the tail still to come, is all of the text. */
  method PrintGroups(p: seq<Byte>, run: Run, n: nat, text: array<Byte>, dst0: nat, ghost tail: seq<Byte>) returns (dst: nat)
    requires |p| == 16 && n <= 8 && GoodRun(run) && dst0 <= text.Length
    requires |text[..dst0] + PrintFrom(WordsOf(p), 0, n, run, tail)| <= text.Length
    modifies text
    ensures dst + |tail| <= text.Length
    ensures text[..dst] + tail == old(text[..dst0]) + PrintFrom(WordsOf(p), 0, n, run, tail)
  {
    hide Digits, PrintFrom;
    ghost var w := WordsOf(p);
    ghost var all := text[..dst0] + PrintFrom(w, 0, n, run, tail);
    dst := dst0;
    var i := 0;
    while i < n
      invariant dst <= text.Length && text[..dst] + PrintFrom(w, i, n, run, tail) == all
      decreases n - i
    {
      PrintStep(w, i, n, run, tail);
      ghost var before := text[..dst];
      if run.Run? && i == run.start {
        StepFits(before, [COLON], PrintFrom(w, i + run.len, n, run, tail));
        text[dst] := COLON;
        assert text[..dst + 1] == before + [COLON];
        dst, i := dst + 1, i + run.len;
      } else {
        var v := Pair(p[2 * i], p[2 * i + 1]);
        StepFits(before, Digits(v, 16) + (if i < 7 then [COLON] else []), PrintFrom(w, i + 1, n, run, tail));
        dst := PrintGroup(text, dst, v, i < 7);
        i := i + 1;
      }
    }
    PrintStep(w, i, n, run, tail);
  }

  /** The rest of ngx_inet6_ntop, once the run of zeros is known. */
  method PrintAll(p: seq<Byte>, run: Run, text: array<Byte>) returns (dst: nat)
    requires |p| == 16 && GoodRun(run) && ADDRSTRLEN <= text.Length
    modifies text
    ensures dst <= ADDRSTRLEN && text[..dst] == PrintWith(WordsOf(p), run, TailOf(p, run))
  {
    hide PrintFrom, Dotted, WordsOf;
    PrintFits(p, run);
    ghost var tail := TailText(TailOf(p, run));
    dst := 0;
    var n := 8;
    if run.Run? && run.start == 0 {
      if InDots(p, run) {
        n := 6;
      }
      text[0] := COLON;
      dst := 1;
    }
    dst := PrintGroups(p, run, n, text, dst, tail);
    if n == 6 {
      dst := PrintDotted(text, dst, Quad(p[12], p[13], p[14], p[15]));
    } else {
      assert text[..dst] + [] == text[..dst];
    }
  }

  method Inet6Ntop(p: seq<Byte>, text: array<Byte>, len: nat) returns (n: nat)
    requires |p| == 16 && len <= text.Length
    modifies text
    ensures len < ADDRSTRLEN ==> n == 0 && text[..] == old(text[..])
    ensures len >= ADDRSTRLEN ==> n <= ADDRSTRLEN && text[..n] == Print(p)
  {
    if len < ADDRSTRLEN {
      return 0;
    }
    var run := FindRun(p);
    LongestIsGood(p);
    n := PrintAll(p, run, text);
  }

  // ------------------------------------------------------ the round trip

  function Hexes(w: seq<Word>, i: nat, j: nat): (r: seq<seq<Byte>>)
    requires j <= |w|
    ensures |r| == if i < j then j - i else 0
    decreases j - i
  {
    if i >= j then [] else [Digits(w[i], 16)] + Hexes(w, i + 1, j)
  }

  lemma WordIsGroup(v: Word)
    ensures IsGroup(Digits(v, 16)) && GroupValue(Digits(v, 16)) == v
  {
    WordLen(v);
    DigitsAreHex(v, 16);
  }

  lemma {:induction false} HexesAreWords(w: seq<Word>, i: nat, j: nat)
    requires i <= j <= |w|
    ensures AllGroups(Hexes(w, i, j)) && Values(Hexes(w, i, j)) == w[i..j]
    decreases j - i
  {
    if i < j {
      hide IsGroup, GroupValue, Digits;
      WordIsGroup(w[i]);
      HexesAreWords(w, i + 1, j);
      var h := Hexes(w, i, j);
      assert h[1..] == Hexes(w, i + 1, j);
      assert w[i..j] == [w[i]] + w[i + 1..j];
    }
  }

  lemma Split32(h: Word, l: Word)
    ensures High16(h * 0x1_0000 + l) == h && Low16(h * 0x1_0000 + l) == l
  {
  }

  lemma DigitsFit(v: Byte)
    ensures FitsByte(0, Digits(v, 10)) && DecimalAfter(0, Digits(v, 10)) == v
  {
    DigitsValue(v);
  }

  lemma {:induction false} OnePart(part: seq<Byte>)
    requires DOT !in part
    ensures SplitDots(part) == [part]
    decreases |part|
  {
    if part != [] {
      OnePart(part[1..]);
      assert [part[0]] + part[1..] == part;
    }
  }

  /** The four numbers of a printed address are found again. */
  lemma QuadParts(q: Quad)
    ensures SplitDots(QuadText(q)) == [Digits(q.a, 10), Digits(q.b, 10), Digits(q.c, 10), Digits(q.d, 10)]
  {
    hide SplitDots, Digits;
    var t3 := Digits(q.d, 10);
    var t2 := Digits(q.c, 10) + ([DOT] + t3);
    var t1 := Digits(q.b, 10) + ([DOT] + t2);
    ByteDigits(q.a);
    ByteDigits(q.b);
    ByteDigits(q.c);
    ByteDigits(q.d);
    PartAndDot(Digits(q.a, 10), t1);
    PartAndDot(Digits(q.b, 10), t2);
    PartAndDot(Digits(q.c, 10), t3);
    OnePart(t3);
  }

  /** Every address in dots, as it is printed, is read back. */
  lemma DottedIsRead(q: Quad)
    ensures IsDotted(QuadText(q)) && InetValue(QuadText(q)) == Join32(q.a, q.b, q.c, q.d)
  {
    hide SplitDots, Digits, FitsByte, DecimalAfter;
    QuadParts(q);
    DigitsFit(q.a);
    DigitsFit(q.b);
    DigitsFit(q.c);
    DigitsFit(q.d);
  }

  lemma QuadIsEnd(q: Quad)
    ensures var e := Dots(QuadText(q));
            GoodEnd(e) && EndWords(e) == [Pair(q.a, q.b), Pair(q.c, q.d)] && (Readable(e) <==> q != ALL_ONES)
  {
    hide SplitDots, Digits, IsDotted, InetValue;
    DottedIsRead(q);
    QuadParts(q);
    ByteDigits(q.a);
    Split32(q.a * 256 + q.b, q.c * 256 + q.d);
  }

  /** How a text that is printed ends, when its last groups are those from `i` on. */
  function EndOf(w: seq<Word>, i: nat, tail: Option<Quad>): End
    requires |w| == 8
  {
    if tail.Some? then Dots(QuadText(tail.value)) else if i < 8 then Group(Digits(w[7], 16)) else Nothing
  }

  /** The form a text is printed in. */
  function FormOf(w: seq<Word>, run: Run, tail: Option<Quad>): Form
    requires |w| == 8 && GoodRun(run)
  {
    if run.NoRun? then Form(false, Hexes(w, 0, 7), false, [], EndOf(w, 0, None))
    else
      var i := run.start + run.len;
      Form(run.start == 0, Hexes(w, 0, run.start), true, Hexes(w, i, if tail.Some? then 6 else 7), EndOf(w, i, tail))
  }

  lemma {:induction false} PrintsGroups(w: seq<Word>, i: nat, n: nat, run: Run, tail: Option<Quad>)
    requires |w| == 8 && n == (if tail.Some? then 6 else 8) && (run.Run? ==> run.len > 0 && run.start < i)
    ensures PrintFrom(w, i, n, run, TailText(tail)) ==
            LeadText(Hexes(w, i, if tail.Some? then 6 else 7), EndText(EndOf(w, i, tail)))
    decreases n - i
  {
    hide Digits;
    if i < n {
      PrintsGroups(w, i + 1, n, run, tail);
      if i < 7 {
        var m := if tail.Some? then 6 else 7;
        assert Hexes(w, i, m)[1..] == Hexes(w, i + 1, m);
      } else {
        assert Digits(w[7], 16) + ([] + []) == Digits(w[7], 16);
      }
    }
  }

  lemma {:induction false} PrintsLead(w: seq<Word>, i: nat, n: nat, run: Run, tail: seq<Byte>)
    requires |w| == 8 && n <= 8 && run.Run? && run.len > 0 && i <= run.start < n && run.start < 7
    ensures PrintFrom(w, i, n, run, tail) ==
            LeadText(Hexes(w, i, run.start), [COLON] + PrintFrom(w, run.start + run.len, n, run, tail))
    decreases run.start - i
  {
    hide Digits;
    if i < run.start {
      PrintsLead(w, i + 1, n, run, tail);
      assert Hexes(w, i, run.start)[1..] == Hexes(w, i + 1, run.start);
    }
  }

  lemma EndOfIsGood(w: seq<Word>, i: nat, tail: Option<Quad>)
    requires |w| == 8
    ensures var e := EndOf(w, i, tail);
            && GoodEnd(e) && (Readable(e) <==> tail != Some(ALL_ONES)) && (e.Nothing? ==> i >= 8)
            && EndWords(e) == (if tail.None? then [if i < 8 then w[7] else 0]
                               else [Pair(tail.value.a, tail.value.b), Pair(tail.value.c, tail.value.d)])
  {
    WordIsGroup(w[7]);
    if tail.Some? {
      QuadIsEnd(tail.value);
    }
  }

  lemma PrintIsForm(w: seq<Word>, run: Run, tail: Option<Quad>)
    requires |w| == 8 && GoodRun(run) && (tail.Some? ==> run.Run? && run.start == 0)
    ensures GoodForm(FormOf(w, run, tail)) && PrintWith(w, run, tail) == FormText(FormOf(w, run, tail))
  {
    hide PrintFrom, LeadText, TailText, GoodEnd, EndText, EndOf, IsGroup, Digits, Values;
    var n := if tail.Some? then 6 else 8;
    if run.NoRun? {
      EndOfIsGood(w, 0, None);
      HexesAreWords(w, 0, 7);
      PrintsGroups(w, 0, 8, run, None);
      assert [] + PrintFrom(w, 0, 8, run, TailText(None)) == PrintFrom(w, 0, 8, run, TailText(None));
    } else {
      var i, m := run.start + run.len, if tail.Some? then 6 else 7;
      EndOfIsGood(w, i, tail);
      HexesAreWords(w, 0, run.start);
      if i <= m {
        HexesAreWords(w, i, m);
      }
      PrintsLead(w, 0, n, run, TailText(tail));
      PrintsGroups(w, i, n, run, tail);
    }
  }

  /** The groups printed after a run of zeros that ends before group `j`: after a final one, a group of zero. */
  ghost function AfterRun(w: seq<Word>, j: nat): seq<Word>
    requires |w| == 8 && j <= 8
  {
    if j < 8 then w[j..7] + [w[7]] else [] + [0]
  }

  lemma GapWords(w: seq<Word>, i: nat, j: nat)
    requires |w| == 8 && i + 2 <= j <= 8 && ZeroRun(w, i, j)
    ensures var r := AfterRun(w, j); i + |r| < 8 && w == w[0..i] + (Zeros(8 - i - |r|) + r)
  {
  }

  lemma GappedWords(f: Form, w: seq<Word>, i: nat, r: seq<Word>)
    requires GoodForm(f) && f.gap && Readable(f.end) && i <= |w| && Values(f.left) == w[0..i] && RightWords(f) == r
    requires i + |r| < 8 && w == w[0..i] + (Zeros(8 - i - |r|) + r)
    ensures Accepted(f) && FormWords(f) == w
  {
    assert |f.left| == |Values(f.left)| == i;
    hide GoodForm, Values, RightWords, Zeros, Readable;
  }

  lemma PlainWords(w: seq<Word>, run: Run)
    requires |w| == 8 && GoodRun(run) && run.Run? && ZeroRun(w, run.start, run.start + run.len)
    requires GoodForm(FormOf(w, run, None))
    ensures Accepted(FormOf(w, run, None)) && FormWords(FormOf(w, run, None)) == w
  {
    hide Digits, IsGroup, GroupValue, GoodEnd, EndWords, EndOf, Readable, Zeros, FormWords, Accepted, ZeroRun;
    var i := run.start + run.len;
    EndOfIsGood(w, i, None);
    HexesAreWords(w, 0, run.start);
    GapWords(w, run.start, i);
    if i < 8 {
      HexesAreWords(w, i, 7);
    }
    var f := FormOf(w, run, None);
    assert Readable(f.end) && f.gap && Values(f.left) == w[0..run.start];
    GappedWords(f, w, run.start, AfterRun(w, i));
  }

  lemma DotsOfWords(w: seq<Word>, run: Run, q: Quad)
    requires |w| == 8 && GoodRun(run) && run.Run? && run.start == 0 && ZeroRun(w, 0, run.len)
    requires w[6] == Pair(q.a, q.b) && w[7] == Pair(q.c, q.d) && (5 <= run.len <= 6 || (run.len == 7 && w[6] == 0))
    requires GoodForm(FormOf(w, run, Some(q)))
    ensures Accepted(FormOf(w, run, Some(q))) <==> q != ALL_ONES
    ensures FormWords(FormOf(w, run, Some(q))) == w
  {
    hide Digits, IsGroup, GroupValue, GoodEnd, EndWords, EndOf, Readable;
    EndOfIsGood(w, run.len, Some(q));
    var words := [w[6], w[7]];
    if run.len == 5 {
      HexesAreWords(w, 5, 6);
      assert w == [] + (Zeros(5) + (w[5..6] + words));
    } else {
      assert w == [] + (Zeros(6) + ([] + words));
    }
  }

  /** The printed form stands for the address. */
  lemma FormOfWords(w: seq<Word>, run: Run, tail: Option<Quad>)
    requires |w| == 8 && GoodRun(run) && BestRun(w, 8, run) && GoodForm(FormOf(w, run, tail))
    requires tail.Some? ==>
               && run.Run? && run.start == 0 && 5 <= run.len <= 7
               && w[6] == Pair(tail.value.a, tail.value.b) && w[7] == Pair(tail.value.c, tail.value.d)
    ensures Accepted(FormOf(w, run, tail)) <==> tail != Some(ALL_ONES)
    ensures FormWords(FormOf(w, run, tail)) == w
  {
    hide Digits, IsGroup, GroupValue, GoodEnd, EndWords, EndOf, Readable;
    if run.NoRun? {
      EndOfIsGood(w, 0, None);
      HexesAreWords(w, 0, 7);
      assert w[0..7] + ([] + ([] + [w[7]])) == w;
    } else {
      assert ZeroRun(w, run.start, run.start + run.len);
      if tail.None? {
        PlainWords(w, run);
      } else {
        DotsOfWords(w, run, tail.value);
      }
    }
  }

  /** ::255.255.255.255 and ::ffff:255.255.255.255. */
  const COMPATIBLE_ONES: seq<Byte> := [0, 0, 0, 0, 0, 0, 0, 0, 0, 0, 0, 0, 255, 255, 255, 255]
  const MAPPED_ONES: seq<Byte> := [0, 0, 0, 0, 0, 0, 0, 0, 0, 0, 255, 255, 255, 255, 255, 255]

  lemma LeadingZeros(w: seq<Word>, n: nat)
    requires 2 <= n <= |w| && (forall k :: 0 <= k < n ==> w[k] == 0) && (forall k :: n <= k < |w| ==> w[k] != 0)
    ensures BestRun(w, |w|, Run(0, n))
  {
    assert ZeroRun(w, 0, n);
    forall a: nat, b: nat | b <= |w| && ZeroRun(w, a, b) ensures b <= n || a == b {
      assert a < b ==> w[b - 1] == 0;
    }
  }

  /** `2 * n` bytes of zero, and ones. */
  ghost predicate ZerosThenOnes(p: seq<Byte>, n: nat) {
    n <= 8 && |p| == 16 && (forall k :: 0 <= k < 2 * n ==> p[k] == 0) && (forall k :: 2 * n <= k < 16 ==> p[k] == 255)
  }

  lemma OnesHaveRun(p: seq<Byte>, n: nat)
    requires 2 <= n <= 8 && ZerosThenOnes(p, n)
    ensures BestRun(WordsOf(p), 8, Run(0, n))
  {
    hide BestRun;
    var w := WordsOf(p);
    forall k | 0 <= k < 8 ensures if k < n then w[k] == 0 else w[k] != 0 {
      assert w[k] == Pair(p[2 * k], p[2 * k + 1]);
    }
    LeadingZeros(w, n);
  }

  lemma OnesOnly(p: seq<Byte>, run: Run)
    requires |p| == 16 && GoodRun(run) && BestRun(WordsOf(p), 8, run) && TailOf(p, run) == Some(ALL_ONES)
    ensures p == COMPATIBLE_ONES || p == MAPPED_ONES
  {
    var w := WordsOf(p);
    assert ZeroRun(w, 0, run.len);
    assert w[6] == 65535;
    assert run.len == 5 || run.len == 6;
    assert w[0] == 0 && w[1] == 0 && w[2] == 0 && w[3] == 0 && w[4] == 0;
    assert p[10] == p[11] && (p[10] == 0 || p[10] == 255) by {
      assert run.len == 6 ==> w[5] == 0;
    }
  }

  /** A tail of 255.255.255.255 is printed for these two addresses only. */
  lemma OnesInDots(p: seq<Byte>, run: Run)
    requires |p| == 16 && GoodRun(run) && BestRun(WordsOf(p), 8, run)
    ensures TailOf(p, run) == Some(ALL_ONES) <==> p == COMPATIBLE_ONES || p == MAPPED_ONES
  {
    var w := WordsOf(p);
    if p == COMPATIBLE_ONES {
      OnesHaveRun(p, 6);
      BestRunUnique(w, run, Run(0, 6));
    } else if p == MAPPED_ONES {
      OnesHaveRun(p, 5);
      BestRunUnique(w, run, Run(0, 5));
    } else if TailOf(p, run) == Some(ALL_ONES) {
      OnesOnly(p, run);
    }
  }

  lemma TailWords(p: seq<Byte>, run: Run)
    requires |p| == 16 && InDots(p, run)
    ensures var w := WordsOf(p); w[6] == Pair(p[12], p[13]) && w[7] == Pair(p[14], p[15])
  {
  }

  /**
    The text printed for an address is read back as that address, except for the two
    addresses whose tail in dots is 255.255.255.255.
  */
  lemma RoundTrip(p: seq<Byte>)
    requires |p| == 16
    ensures Parse(Print(p)) ==
            if p == COMPATIBLE_ONES || p == MAPPED_ONES then None else Some(WordsOf(p))
  {
    hide Parse, FormText, FormWords, PrintWith, LongestRun, BestRun, WordsOf;
    LongestIsBest(WordsOf(p));
    LongestIsGood(p);
    var run := LongestRun(WordsOf(p), 0);
    var tail := TailOf(p, run);
    PrintIsForm(WordsOf(p), run, tail);
    FormIsRead(FormOf(WordsOf(p), run, tail));
    if tail.Some? {
      TailWords(p, run);
    }
    FormOfWords(WordsOf(p), run, tail);
    OnesInDots(p, run);
  }

  lemma {:induction false} BytesAt(ws: seq<Word>, i: nat)
    requires i < |ws|
    ensures BytesOf(ws)[2 * i] == ws[i] / 256 && BytesOf(ws)[2 * i + 1] == ws[i] % 256
  {
    if i < |ws| - 1 {
      BytesAt(ws[..|ws| - 1], i);
    }
  }

  lemma SplitPair(high: Byte, low: Byte)
    ensures Pair(high, low) / 256 == high && Pair(high, low) % 256 == low
  {
  }

  /** The bytes the parser writes for an address are its bytes. */
  lemma BytesOfWords(p: seq<Byte>)
    requires |p| == 16
    ensures BytesOf(WordsOf(p)) == p
  {
    var w := WordsOf(p);
    forall i | 0 <= i < 8 ensures BytesOf(w)[2 * i] == p[2 * i] && BytesOf(w)[2 * i + 1] == p[2 * i + 1] {
      BytesAt(w, i);
      SplitPair(p[2 * i], p[2 * i + 1]);
    }
    forall k | 0 <= k < 16 ensures BytesOf(w)[k] == p[k] {
      assert k == 2 * (k / 2) || k == 2 * (k / 2) + 1;
    }
  }

  // -------------------------------------------- which addresses have dots

  lemma HexHasNoDot(v: nat)
    ensures 46 !in Digits(v, 16)
  {
    DigitsAreHex(v, 16);
    NoDots(Digits(v, 16));
  }

  lemma {:induction false} PrintFromDots(w: seq<Word>, i: nat, n: nat, run: Run, tail: seq<Byte>)
    requires n <= |w| == 8 && (run.Run? ==> run.len > 0)
    ensures 46 in PrintFrom(w, i, n, run, tail) <==> 46 in tail
    decreases n - i
  {
    hide Digits;
    if i < n {
      if run.Run? && i == run.start {
        PrintFromDots(w, i + run.len, n, run, tail);
      } else {
        HexHasNoDot(w[i]);
        PrintFromDots(w, i + 1, n, run, tail);
      }
    }
  }

  /** The bytes from `i` to `j` are zero. */
  ghost predicate ZeroBytes(p: seq<Byte>, i: nat, j: nat) {
    j <= |p| && forall k :: i <= k < j ==> p[k] == 0
  }

  lemma ZeroWords(p: seq<Byte>, n: nat)
    requires |p| == 16 && n <= 8
    ensures ZeroRun(WordsOf(p), 0, n) <==> ZeroBytes(p, 0, 2 * n)
  {
    var w := WordsOf(p);
    if ZeroRun(w, 0, n) {
      forall k | 0 <= k < 2 * n ensures p[k] == 0 {
        assert w[k / 2] == Pair(p[2 * (k / 2)], p[2 * (k / 2) + 1]);
        assert k == 2 * (k / 2) || k == 2 * (k / 2) + 1;
      }
    }
  }

  lemma LongerRun(w: seq<Word>, n: nat)
    requires n < |w|
    ensures ZeroRun(w, 0, n) && w[n] == 0 ==> ZeroRun(w, 0, n + 1)
  {
  }

  /** A run of five zero groups or more at the start, and no longer, is the one chosen. */
  lemma LeadingIsBest(w: seq<Word>, run: Run, n: nat)
    requires |w| == 8 && 5 <= n < 8 && BestRun(w, 8, run)
    ensures ZeroRun(w, 0, n) && w[n] != 0 <==> run == Run(0, n)
  {
    if ZeroRun(w, 0, n) && w[n] != 0 {
      assert run.Run? && run.len >= n;
      assert ZeroRun(w, run.start, run.start + run.len);
      assert !(run.start <= n < run.start + run.len);
    }
    LongerRun(w, n);
  }

  /** The mapped, the compatible, and some of the addresses with 14 leading zero bytes. */
  ghost predicate HasDots(p: seq<Byte>)
    requires |p| == 16
  {
    ZeroBytes(p, 0, 10) &&
    (|| (p[10] == 0xff && p[11] == 0xff)
     || (ZeroBytes(p, 10, 12) && !ZeroBytes(p, 12, 14))
     || (ZeroBytes(p, 10, 14) && p[14] != 0 && p[15] != 1))
  }

  lemma InDotsMeans(p: seq<Byte>, run: Run)
    requires |p| == 16 && BestRun(WordsOf(p), 8, run)
    ensures InDots(p, run) <==> HasDots(p)
  {
    var w := WordsOf(p);
    ZeroWords(p, 5);
    ZeroWords(p, 6);
    ZeroWords(p, 7);
    LeadingIsBest(w, run, 5);
    LeadingIsBest(w, run, 6);
    LeadingIsBest(w, run, 7);
    assert w[5] == Pair(p[10], p[11]) && w[6] == Pair(p[12], p[13]) && w[7] == Pair(p[14], p[15]);
    hide BestRun, WordsOf;
  }

  /** A text has a dot in it exactly for those addresses. */
  lemma DotsArePrinted(p: seq<Byte>)
    requires |p| == 16
    ensures 46 in Print(p) <==> HasDots(p)
  {
    hide LongestRun, HasDots, Digits, WordsOf, PrintFrom;
    LongestIsBest(WordsOf(p));
    LongestIsGood(p);
    var run := LongestRun(WordsOf(p), 0);
    var tail := TailOf(p, run);
    InDotsMeans(p, run);
    PrintFromDots(WordsOf(p), 0, if tail.Some? then 6 else 8, run, TailText(tail));
    assert tail.Some? ==> Dotted(p[12], p[13], p[14], p[15])[|Digits(p[12], 10)|] == 46;
  }

  lemma HexDigitIs(c: Byte)
    ensures var lower, upper := "0123456789abcdef", "0123456789ABCDEF";
            && |lower| == |upper| == 16
            && (forall d :: 0 <= d < 16 && (lower[d] as int == c || upper[d] as int == c) ==> HexDigit(c) == Some(d))
            && ((forall d :: 0 <= d < 16 ==> lower[d] as int != c && upper[d] as int != c) ==> HexDigit(c) == None)
  {
    var lower, upper := "0123456789abcdef", "0123456789ABCDEF";
    assert forall d :: 0 <= d < 10 ==> lower[d] as int == 48 + d && upper[d] as int == 48 + d;
    assert forall d :: 10 <= d < 16 ==> lower[d] as int == 87 + d && upper[d] as int == 55 + d;
    if HexDigit(c).Some? {
      var d := HexDigit(c).value;
      assert lower[d] as int == c || upper[d] as int == c;
    }
  }
}
