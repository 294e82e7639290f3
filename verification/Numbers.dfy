/** Numbers as ngx_sprintf prints them. */
module Numbers {
  import opened Bytes

  predicate IsDecimal(c: Byte) {
    48 <= c <= 57
  }

  function DigitChar(d: nat): Byte
    requires d < 16
  {
    if d < 10 then 48 + d else 87 + d
  }

  /** The digits ngx_sprintf writes for "%ud" and "%xd": no leading zeros, lower case. */
  function Digits(v: nat, base: nat): (r: seq<Byte>)
    requires base == 10 || base == 16
    ensures r != []
  {
    if v < base then [DigitChar(v)] else Digits(v / base, base) + [DigitChar(v % base)]
  }

  /** The digits are the lower-case ones, and only zero starts with a zero. */
  lemma {:induction false} DigitsAre(v: nat, base: nat)
    requires base == 10 || base == 16
    ensures forall d: nat :: d < 16 ==> DigitChar(d) == "0123456789abcdef"[d] as int
    ensures if v == 0 then Digits(v, base) == [48] else Digits(v, base)[0] != 48
    decreases v
  {
    var text := "0123456789abcdef";
    assert forall d :: 0 <= d < 10 ==> text[d] as int == 48 + d;
    assert forall d :: 10 <= d < 16 ==> text[d] as int == 87 + d;
    if v >= base {
      DigitsAre(v / base, base);
    }
  }

  predicate AllDecimal(s: seq<Byte>) {
    s == [] || (IsDecimal(s[0]) && AllDecimal(s[1..]))
  }

  /** The number that the digits `s` make after those of `v`. */
  function DecimalAfter(v: nat, s: seq<Byte>): (r: nat)
    requires AllDecimal(s)
    ensures v <= r
    decreases |s|
  {
    if s == [] then v else DecimalAfter(v * 10 + (s[0] - 48), s[1..])
  }

  lemma {:induction false} DecimalConcat(a: seq<Byte>, b: seq<Byte>, v: nat)
    requires AllDecimal(a) && AllDecimal(b)
    ensures AllDecimal(a + b) && DecimalAfter(v, a + b) == DecimalAfter(DecimalAfter(v, a), b)
    decreases |a|
  {
    if a == [] {
      assert a + b == b;
    } else {
      assert (a + b)[1..] == a[1..] + b;
      DecimalConcat(a[1..], b, v * 10 + (a[0] - 48));
    }
  }

  /** A numeral has the value it was made from. */
  lemma {:induction false} DigitsValue(v: nat)
    ensures AllDecimal(Digits(v, 10)) && DecimalAfter(0, Digits(v, 10)) == v
  {
    if v < 10 {
      assert Digits(v, 10)[1..] == [];
    } else {
      DigitsValue(v / 10);
      var d := [DigitChar(v % 10)];
      assert d[1..] == [];
      DecimalConcat(Digits(v / 10, 10), d, 0);
    }
  }

  lemma Shift(a: seq<Byte>, c: Byte, b: seq<Byte>)
    ensures a + [c] + b == a + ([c] + b)
  {
  }

  lemma PrependDigit(left: nat, base: nat, temp: seq<Byte>)
    requires (base == 10 || base == 16) && left > 0
    ensures left / base < left
    ensures Digits(left, base) + temp ==
            (if left / base == 0 then [] else Digits(left / base, base)) + ([DigitChar(left % base)] + temp)
  {
    if left >= base {
      Shift(Digits(left / base, base), DigitChar(left % base), temp);
    }
  }

  const INT64_LEN := 20   // NGX_INT64_LEN

  function Pow(base: nat, k: nat): nat {
    if k == 0 then 1 else base * Pow(base, k - 1)
  }

  lemma {:induction false} DigitsLen(v: nat, base: nat, k: nat)
    requires (base == 10 || base == 16) && k > 0 && v < Pow(base, k)
    ensures |Digits(v, base)| <= k
    decreases k
  {
    if v >= base {
      DigitsLen(v / base, base, k - 1);
    }
  }

  /** The 64-bit numbers have at most 20 digits, so they fit the temporary array. */
  lemma DigitsFitTemp(v: nat, base: nat)
    requires (base == 10 || base == 16) && v < 0x1_0000_0000_0000_0000
    ensures |Digits(v, base)| <= INT64_LEN
  {
    assert Pow(10, 4) == 10000 && Pow(10, 8) == 10000_0000 && Pow(10, 12) == 10000_0000_0000;
    assert Pow(10, 16) == 10000_0000_0000_0000 && Pow(10, 20) == 10000_0000_0000_0000_0000;
    assert Pow(16, 4) == 0x1_0000 && Pow(16, 8) == 0x1_0000_0000 && Pow(16, 12) == 0x1_0000_0000_0000;
    assert Pow(16, 16) == 0x1_0000_0000_0000_0000;
    DigitsLen(v, base, if base == 10 then 20 else 16);
  }

  /** Digits from the table of lower-case or of upper-case ones. */
  function CaseChar(c: Byte, upper: bool): Byte {
    if upper && 97 <= c <= 102 then c - 32 else c
  }

  function InCase(s: seq<Byte>, upper: bool): seq<Byte> {
    seq(|s|, i requires 0 <= i < |s| => CaseChar(s[i], upper))
  }

  lemma InCaseCons(c: Byte, s: seq<Byte>, upper: bool)
    ensures InCase([c] + s, upper) == [CaseChar(c, upper)] + InCase(s, upper)
  {
  }

  method PushFront(temp: array<Byte>, p: nat, c: Byte) returns (p': nat)
    requires 0 < p <= temp.Length
    modifies temp
    ensures p' == p - 1 && temp[p'..] == [c] + old(temp[p..])
  {
    temp[p - 1] := c;
    return p - 1;
  }

  /** The do-while loops: the digits are made from the last to the first, at the end of the temporary array. */
  method MakeDigits(v: nat, base: nat, upper: bool) returns (temp: array<Byte>, p: nat)
    requires (base == 10 || base == 16) && v < 0x1_0000_0000_0000_0000
    ensures fresh(temp) && temp.Length == INT64_LEN && p <= INT64_LEN
    ensures temp[p..] == InCase(Digits(v, base), upper)
  {
    DigitsFitTemp(v, base);
    temp := new Byte[INT64_LEN];
    p := PushFront(temp, INT64_LEN, CaseChar(DigitChar(v % base), upper));
    ghost var done := [DigitChar(v % base)];
    assert temp[p..] == InCase(done, upper);
    var left: nat := v / base;
    assert Digits(v, base) == (if left == 0 then [] else Digits(left, base)) + done;
    hide Digits, CaseChar, InCase, DigitChar;
    while left != 0
      invariant p + |done| == INT64_LEN && temp[p..] == InCase(done, upper)
      invariant Digits(v, base) == (if left == 0 then [] else Digits(left, base)) + done
      decreases left
    {
      PrependDigit(left, base, done);
      InCaseCons(DigitChar(left % base), done, upper);
      p := PushFront(temp, p, CaseChar(DigitChar(left % base), upper));
      done, left := [DigitChar(left % base)] + done, left / base;
    }
    assert [] + done == done;
  }

  function Repeat(c: Byte, k: nat): seq<Byte> {
    seq(k, _ => c)
  }

  /** The number with its padding, were there room for all of it. */
  function Padded(v: nat, base: nat, upper: bool, zero: Byte, width: nat): seq<Byte>
    requires base == 10 || base == 16
  {
    var digits := InCase(Digits(v, base), upper);
    Repeat(zero, if width > |digits| then width - |digits| else 0) + digits
  }

  function Fitting(s: seq<Byte>, room: nat): seq<Byte> {
    if |s| <= room then s else s[..room]
  }

  /** After `k` bytes of padding, `n` digits fit. */
  lemma PaddedFits(zero: Byte, k: nat, digits: seq<Byte>, n: nat, width: nat, room: nat)
    requires k <= room && (k < room ==> |digits| + k >= width) && (k > 0 ==> |digits| + k <= width)
    requires n == if k + |digits| > room then room - k else |digits|
    ensures Repeat(zero, k) + digits[..n] ==
            Fitting(Repeat(zero, if width > |digits| then width - |digits| else 0) + digits, room)
  {
    var pad := if width > |digits| then width - |digits| else 0;
    if k + |digits| <= room {
      assert digits[..n] == digits;
    }
  }

  method Put(text: array<Byte>, at: nat, s: seq<Byte>) returns (end: nat)
    requires at + |s| <= text.Length
    modifies text
    ensures end == at + |s| && text[..end] == old(text[..at]) + s
  {
    for k := 0 to |s|
      invariant forall j :: 0 <= j < at ==> text[j] == old(text[j])
      invariant forall j :: at <= j < at + k ==> text[j] == s[j - at]
    {
      text[at + k] := s[k];
    }
    return at + |s|;
  }

  /** The padding loop, for a number of `len` digits. */
  method PutPadding(text: array<Byte>, at: nat, last: nat, len: nat, zero: Byte, width: nat) returns (buf: nat)
    requires at <= last <= text.Length
    modifies text
    ensures at <= buf <= last && (buf < last ==> len + (buf - at) >= width) && (buf > at ==> len + (buf - at) <= width)
    ensures text[..buf] == old(text[..at]) + Repeat(zero, buf - at)
  {
    buf := at;
    var n := len;
    while n < width && buf < last
      invariant at <= buf <= last && n == len + (buf - at) && (buf > at ==> n <= width)
      invariant forall k :: 0 <= k < at ==> text[k] == old(text[k])
      invariant forall k :: at <= k < buf ==> text[k] == zero
      decreases last - buf
    {
      text[buf] := zero;
      buf, n := buf + 1, n + 1;
    }
  }

  lemma ConcatThree(a: seq<Byte>, b: seq<Byte>, c: seq<Byte>)
    ensures a + b + c == a + (b + c) && |a + b + c| == |a| + |b + c|
  {
  }

  /** ngx_sprintf_num: as much of the padded number as there is room for before `last`. */
  method PrintNumber(text: array<Byte>, at: nat, last: nat, v: nat, zero: Byte, base: nat, upper: bool, width: nat)
    returns (end: nat)
    requires (base == 10 || base == 16) && v < 0x1_0000_0000_0000_0000 && at <= last <= text.Length
    modifies text
    ensures end == at + |Fitting(Padded(v, base, upper, zero, width), last - at)|
    ensures text[..end] == old(text[..at]) + Fitting(Padded(v, base, upper, zero, width), last - at)
  {
    hide Fitting, Repeat, InCase, Digits;
    var temp, p := MakeDigits(v, base, upper);
    ghost var digits := temp[p..];
    var len := INT64_LEN - p;
    var buf := PutPadding(text, at, last, len, zero, width);
    var n := if buf + len > last then last - buf else len;
    PaddedFits(zero, buf - at, digits, n, width, last - at);
    assert temp[p..p + n] == digits[..n];
    end := Put(text, buf, temp[p..p + n]);
    ConcatThree(old(text[..at]), Repeat(zero, buf - at), digits[..n]);
  }

  /** The calls without padding and with room. */
  method PutNumber(text: array<Byte>, at: nat, v: nat, base: nat) returns (end: nat)
    requires (base == 10 || base == 16) && v < 0x1_0000_0000_0000_0000
    requires at + |Digits(v, base)| <= text.Length
    modifies text
    ensures end == at + |Digits(v, base)| && text[..end] == old(text[..at]) + Digits(v, base)
  {
    assert Padded(v, base, false, 32, 0) == Digits(v, base);
    end := PrintNumber(text, at, text.Length, v, 32, base, false, 0);
  }
}
