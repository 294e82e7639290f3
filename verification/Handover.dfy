/**
  Handing the listening sockets over to a new binary (nginx.c): the old process writes
  their descriptors into an environment variable, and the new one reads them back with
  ngx_atoi.
*/
module Handover {
  import opened Bytes
  import opened Numbers

  const SEMICOLON: Byte := 59
  const COLON: Byte := 58

  const MAX_INT := 9223372036854775807
  const CUTOFF := 922337203685477580
  const CUTLIM := 7

  /** sizeof(NGINX_VAR), which is also the length of "NGINX=". */
  const VAR_LEN := 6

  /** NGX_INT32_LEN. */
  const INT32_LEN := 11

  // ----------------------------------------------------------------- ngx_atoi

  function AtoiFrom(line: seq<Byte>, value: nat): Option<nat> {
    if line == [] then Some(value)
    else if !IsDecimal(line[0]) then None
    else if value >= CUTOFF && (value > CUTOFF || line[0] - 48 > CUTLIM) then None
    else AtoiFrom(line[1..], value * 10 + (line[0] - 48))
  }

  method Atoi(line: seq<Byte>) returns (r: Option<nat>)
    ensures r == if line == [] then None else AtoiFrom(line, 0)
  {
    if |line| == 0 {
      return None;
    }
    var value: nat := 0;
    for i := 0 to |line|
      invariant AtoiFrom(line, 0) == AtoiFrom(line[i..], value)
    {
      assert line[i..][1..] == line[i + 1..];
      if !IsDecimal(line[i]) {
        return None;
      }
      if value >= CUTOFF && (value > CUTOFF || line[i] - 48 > CUTLIM) {
        return None;
      }
      value := value * 10 + (line[i] - 48);
    }
    return Some(value);
  }

  /** Every number that fits is read, and no other text is accepted. */
  lemma {:induction false} AtoiIsExact(line: seq<Byte>, value: nat)
    requires value <= MAX_INT
    ensures AtoiFrom(line, value) ==
            if AllDecimal(line) && DecimalAfter(value, line) <= MAX_INT then Some(DecimalAfter(value, line)) else None
    decreases |line|
  {
    if line != [] && IsDecimal(line[0]) && value * 10 + (line[0] - 48) <= MAX_INT {
      AtoiIsExact(line[1..], value * 10 + (line[0] - 48));
    }
  }

  /** A number printed is read back. */
  lemma AtoiOfDigits(v: nat)
    requires v <= MAX_INT
    ensures AtoiFrom(Digits(v, 10), 0) == Some(v)
  {
    DigitsValue(v);
    AtoiIsExact(Digits(v, 10), 0);
  }

  // ------------------------------------------------------- 32-bit descriptors

  type Int32 = x: int | -0x8000_0000 <= x < 0x8000_0000

  /** How "%ud" sees a descriptor. */
  function Unsigned(fd: Int32): nat {
    if fd < 0 then fd + 0x1_0000_0000 else fd
  }

  /** The cast of a number to a descriptor. */
  function Descriptor(v: nat): Int32 {
    var low := v % 0x1_0000_0000;
    if low < 0x8000_0000 then low else low - 0x1_0000_0000
  }

  lemma SignedAgain(fd: Int32)
    ensures Descriptor(Unsigned(fd)) == fd && Unsigned(fd) < 0x1_0000_0000
  {
  }

  lemma TenDigits(v: nat)
    requires v < 0x1_0000_0000
    ensures |Digits(v, 10)| <= 10
  {
    assert Pow(10, 5) == 100000 by {
      assert Pow(10, 2) == 100;
    }
    assert Pow(10, 8) == 100000000;
    assert Pow(10, 10) == 10000000000;
    DigitsLen(v, 10, 10);
  }

  // ---------------------------------------------------------------- writing

  /** What the hand-over needs of a listening entry. */
  datatype Entry = Entry(fd: Int32, ignore: bool)

  function FdText(fd: Int32): seq<Byte> {
    Digits(Unsigned(fd), 10) + [SEMICOLON]
  }

  /** The descriptors of the entries that are not ignored, each with a semicolon after it. */
  function Written(ls: seq<Entry>): seq<Byte> {
    if ls == [] then []
    else if ls[0].ignore then Written(ls[1..])
    else FdText(ls[0].fd) + Written(ls[1..])
  }

  function Fds(ls: seq<Entry>): seq<Int32> {
    if ls == [] then []
    else if ls[0].ignore then Fds(ls[1..])
    else [ls[0].fd] + Fds(ls[1..])
  }

  lemma {:induction false} WrittenFits(ls: seq<Entry>)
    ensures |Written(ls)| <= |ls| * 12
  {
    if ls != [] {
      WrittenFits(ls[1..]);
      SignedAgain(ls[0].fd);
      TenDigits(Unsigned(ls[0].fd));
    }
  }

  lemma Pieces(a: seq<Byte>, b: seq<Byte>, c: seq<Byte>, d: seq<Byte>)
    ensures a + ((b + c) + d) == a + b + c + d
    ensures |a| + |b| + |c| <= |a + ((b + c) + d)|
  {
  }

  method WriteFds(ls: seq<Entry>, block: array<Byte>, at: nat) returns (p: nat)
    requires at + |Written(ls)| <= block.Length
    modifies block
    ensures p == at + |Written(ls)| && block[..p] == old(block[..at]) + Written(ls)
  {
    hide Digits;
    p := at;
    assert ls[0..] == ls;
    for i := 0 to |ls|
      invariant p <= block.Length && block[..p] + Written(ls[i..]) == old(block[..at]) + Written(ls)
    {
      assert ls[i..][1..] == ls[i + 1..];
      if !ls[i].ignore {
        ghost var before, rest := block[..p], Written(ls[i + 1..]);
        Pieces(before, Digits(Unsigned(ls[i].fd), 10), [SEMICOLON], rest);
        p := PutNumber(block, p, Unsigned(ls[i].fd), 10);
        p := Put(block, p, [SEMICOLON]);
      }
    }
    assert block[..p] + [] == block[..p];
  }

  /** The variable: its name, the descriptors and a NUL, in a block as large as ngx_exec_new_binary allocates. */
  method WriteVar(ls: seq<Entry>, name: seq<Byte>) returns (block: array<Byte>, p: nat)
    requires |name| == 6
    ensures block.Length == 6 + |ls| * 12 + 2
    ensures p < block.Length && block[..p] == name + Written(ls) && block[p] == 0
  {
    WrittenFits(ls);
    block := new Byte[VAR_LEN + |ls| * (INT32_LEN + 1) + 2](_ => 0);
    p := Put(block, 0, name);
    assert block[..p] == name;
    p := WriteFds(ls, block, p);
    block[p] := 0;
  }

  // ---------------------------------------------------------------- reading

  /** What reading makes of the rest of the variable, with `number` read since the last separator. */
  datatype Read = Read(fds: seq<Int32>, leftOver: bool)

  function ReadFrom(rest: seq<Byte>, number: seq<Byte>, fds: seq<Int32>): Read
    decreases |rest|
  {
    if rest == [] then Read(fds, number != [])
    else if rest[0] == COLON || rest[0] == SEMICOLON then
      var s := if number == [] then None else AtoiFrom(number, 0);
      if s.None? then Read(fds, number != [])
      else ReadFrom(rest[1..], [], fds + [Descriptor(s.value)])
    else ReadFrom(rest[1..], number + [rest[0]], fds)
  }

  /** ngx_add_inherited_sockets, up to the sockets' own checks. */
  method ReadVar(text: seq<Byte>) returns (fds: seq<Int32>, leftOver: bool)
    ensures Read(fds, leftOver) == ReadFrom(text, [], [])
  {
    hide AtoiFrom, Descriptor;
    var p, v := 0, 0;
    fds := [];
    assert text[0..] == text && text[0..0] == [];
    while p < |text|
      invariant v <= p <= |text| && ReadFrom(text, [], []) == ReadFrom(text[p..], text[v..p], fds)
    {
      assert text[p..][1..] == text[p + 1..];
      if text[p] == COLON || text[p] == SEMICOLON {
        var s := Atoi(text[v..p]);
        if s.None? {
          break;
        }
        fds := fds + [Descriptor(s.value)];
        v := p + 1;
        assert text[v..p + 1] == [];
      } else {
        assert text[v..p + 1] == text[v..p] + [text[p]];
      }
      p := p + 1;
    }
    leftOver := v != p;
  }

  // ----------------------------------------------- any text of the variable

  /** The bytes up to a separator, and the separator. */
  datatype Field = Field(text: seq<Byte>, end: Byte)

  lemma {:induction false} AllDecimalMeans(text: seq<Byte>)
    ensures AllDecimal(text) <==> forall k :: 0 <= k < |text| ==> 48 <= text[k] <= 57
  {
    if text != [] {
      AllDecimalMeans(text[1..]);
      assert forall k :: 1 <= k < |text| ==> text[k] == text[1..][k - 1];
      assert forall k :: 0 <= k < |text| - 1 ==> text[1..][k] == text[k + 1];
    }
  }

  ghost predicate NoSeparator(text: seq<Byte>) {
    58 !in text && 59 !in text
  }

  /** A number that ngx_atoi takes: not empty, digits only, and within 63 bits. */
  ghost predicate Readable(text: seq<Byte>) {
    text != [] && AllDecimal(text) && DecimalAfter(0, text) <= 9223372036854775807
  }

  lemma {:induction false} CollectField(text: seq<Byte>, rest: seq<Byte>, number: seq<Byte>, fds: seq<Int32>)
    requires NoSeparator(text)
    ensures ReadFrom(text + rest, number, fds) == ReadFrom(rest, number + text, fds)
    decreases |text|
  {
    if text == [] {
      assert text + rest == rest && number + text == number;
    } else {
      assert (text + rest)[1..] == text[1..] + rest;
      CollectField(text[1..], rest, number + [text[0]], fds);
      assert number + [text[0]] + text[1..] == number + text;
    }
  }

  lemma ReadField(f: Field, rest: seq<Byte>, fds: seq<Int32>)
    requires NoSeparator(f.text) && (f.end == 58 || f.end == 59)
    ensures ReadFrom(f.text + ([f.end] + rest), [], fds) ==
            if Readable(f.text) then ReadFrom(rest, [], fds + [Descriptor(DecimalAfter(0, f.text))])
            else Read(fds, f.text != [])
  {
    AtoiIsExact(f.text, 0);
    hide AtoiFrom, Descriptor, AllDecimal, DecimalAfter;
    CollectField(f.text, [f.end] + rest, [], fds);
    assert [] + f.text == f.text && ([f.end] + rest)[1..] == rest;
  }

  lemma ReadOne(fd: Int32, rest: seq<Byte>, fds: seq<Int32>)
    ensures ReadFrom(FdText(fd) + rest, [], fds) == ReadFrom(rest, [], fds + [fd])
  {
    var d := Digits(Unsigned(fd), 10);
    SignedAgain(fd);
    DigitsValue(Unsigned(fd));
    AllDecimalMeans(d);
    hide Descriptor, Unsigned, AllDecimal, DecimalAfter;
    assert FdText(fd) + rest == d + ([59] + rest);
    ReadField(Field(d, 59), rest, fds);
  }

  lemma {:induction false} ReadWritten(ls: seq<Entry>, fds: seq<Int32>)
    ensures ReadFrom(Written(ls), [], fds) == Read(fds + Fds(ls), false)
    decreases |ls|
  {
    hide FdText;
    if ls == [] {
      assert fds + [] == fds;
    } else if ls[0].ignore {
      ReadWritten(ls[1..], fds);
    } else {
      ReadOne(ls[0].fd, Written(ls[1..]), fds);
      ReadWritten(ls[1..], fds + [ls[0].fd]);
      assert fds + [ls[0].fd] + Fds(ls[1..]) == fds + ([ls[0].fd] + Fds(ls[1..]));
    }
  }

  /** The new process gets the descriptors of exactly the entries not ignored, in order, with nothing left over. */
  lemma RoundTrip(ls: seq<Entry>)
    ensures ReadFrom(Written(ls), [], []) == Read(Fds(ls), false)
  {
    ReadWritten(ls, []);
    assert [] + Fds(ls) == Fds(ls);
  }

  ghost predicate Separated(fs: seq<Field>) {
    forall k :: 0 <= k < |fs| ==> NoSeparator(fs[k].text) && (fs[k].end == 58 || fs[k].end == 59)
  }

  ghost function FieldsText(fs: seq<Field>, tail: seq<Byte>): seq<Byte> {
    if fs == [] then tail else fs[0].text + ([fs[0].end] + FieldsText(fs[1..], tail))
  }

  /** Every text of the variable is made of such fields. */
  lemma {:induction false} FieldsExist(text: seq<Byte>) returns (fs: seq<Field>, tail: seq<Byte>)
    ensures Separated(fs) && NoSeparator(tail) && FieldsText(fs, tail) == text
    decreases |text|
  {
    if text == [] {
      fs, tail := [], [];
    } else {
      fs, tail := FieldsExist(text[1..]);
      if text[0] == 58 || text[0] == 59 {
        fs := [Field([], text[0])] + fs;
      } else if fs == [] {
        tail := [text[0]] + tail;
      } else {
        var first := Field([text[0]] + fs[0].text, fs[0].end);
        assert ([first] + fs[1..])[1..] == fs[1..];
        fs := [first] + fs[1..];
      }
    }
  }

  /** The descriptors of the first `n` fields. */
  ghost function Numbered(fs: seq<Field>, n: nat): seq<Int32>
    requires n <= |fs| && forall i :: 0 <= i < n ==> Readable(fs[i].text)
  {
    seq(n, i requires 0 <= i < n && Readable(fs[i].text) => Descriptor(DecimalAfter(0, fs[i].text)))
  }

  /** The numbers before the first bad field are taken; a bad field or a tail is reported unless it is empty. */
  lemma {:induction false} FieldsAreRead(fs: seq<Field>, tail: seq<Byte>, n: nat, fds: seq<Int32>)
    requires Separated(fs) && NoSeparator(tail) && n <= |fs|
    requires forall i :: 0 <= i < n ==> Readable(fs[i].text)
    requires n < |fs| ==> !Readable(fs[n].text)
    ensures ReadFrom(FieldsText(fs, tail), [], fds) ==
            Read(fds + Numbered(fs, n), (if n < |fs| then fs[n].text else tail) != [])
    decreases |fs|
  {
    hide Descriptor, DecimalAfter, AllDecimal;
    assert n == 0 ==> fds + Numbered(fs, n) == fds;
    if fs == [] {
      CollectField(tail, [], [], fds);
      assert tail + [] == tail && [] + tail == tail;
    } else {
      ReadField(fs[0], FieldsText(fs[1..], tail), fds);
      if n > 0 {
        var more := fds + [Descriptor(DecimalAfter(0, fs[0].text))];
        FieldsAreRead(fs[1..], tail, n - 1, more);
        assert more + Numbered(fs[1..], n - 1) == fds + Numbered(fs, n);
      }
    }
  }

  /** The cast keeps the low 32 bits. */
  lemma DescriptorIs(v: nat)
    ensures (v - Descriptor(v)) % 0x1_0000_0000 == 0
  {
    var low := v % 0x1_0000_0000;
    assert v - low == v / 0x1_0000_0000 * 0x1_0000_0000;
  }

  lemma {:induction false} DecimalHasNoNul(d: seq<Byte>)
    requires AllDecimal(d)
    ensures NoNul(d)
  {
    if d != [] {
      DecimalHasNoNul(d[1..]);
    }
  }

  /** The text has no NUL, so the reader sees all of it. */
  lemma {:induction false} WrittenHasNoNul(ls: seq<Entry>)
    ensures NoNul(Written(ls))
  {
    if ls != [] {
      WrittenHasNoNul(ls[1..]);
      if !ls[0].ignore {
        DigitsValue(Unsigned(ls[0].fd));
        DecimalHasNoNul(Digits(Unsigned(ls[0].fd), 10));
      }
    }
  }
}
