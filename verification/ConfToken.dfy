/**
  The configuration tokenizer (ngx_conf_read_token in ngx_conf_file.c): a machine of
  seven flags that reads a file through a sliding buffer of 4096 bytes.
*/
module ConfToken {
  import opened Bytes

  const TAB: Byte := 9
  const LF: Byte := 10
  const CR: Byte := 13
  const BLANK: Byte := 32
  const DQUOTE: Byte := 34
  const SHARP: Byte := 35
  const DOLLAR: Byte := 36
  const SQUOTE: Byte := 39
  const RPAREN: Byte := 41
  const SEMICOLON: Byte := 59
  const BACKSLASH: Byte := 92
  const LBRACE: Byte := 123
  const RBRACE: Byte := 125

  datatype Reason = UnexpectedEnd | Unexpected(ch: Byte) | TooLong

  /** NGX_OK, NGX_CONF_BLOCK_START, _BLOCK_DONE and _FILE_DONE, and NGX_ERROR with its reason. */
  datatype Code = Ok | BlockStart | BlockDone | FileDone | Error(reason: Reason)

  datatype Flags = Flags(needSpace: bool, lastSpace: bool, comment: bool, variable: bool, quoted: bool,
                         squoted: bool, dquoted: bool)

  const INITIAL := Flags(false, true, false, false, false, false, false)

  predicate IsSpace(ch: Byte) {
    ch == BLANK || ch == TAB || ch == CR || ch == LF
  }

  /** Where the word in progress starts, after a character: here, after it, or where it was. */
  datatype Mark = Keep | Here | After

  /** What one character does: go on, end a word (and perhaps the call), or end the call. */
  datatype Move =
    | Go(flags: Flags, mark: Mark)
    | Word(flags: Flags, end: Option<Code>)
    | Stop(code: Code, mark: Mark)

  /** The branch taken when the previous character was a space. */
  function AfterSpace(f: Flags, ch: Byte, nargs: nat): Move {
    if IsSpace(ch) then Go(f, Here)
    else if ch == SEMICOLON || ch == LBRACE then
      if nargs == 0 then Stop(Error(Unexpected(ch)), Here)
      else if ch == LBRACE then Stop(BlockStart, Here)
      else Stop(Ok, Here)
    else if ch == RBRACE then
      if nargs != 0 then Stop(Error(Unexpected(ch)), Here) else Stop(BlockDone, Here)
    else if ch == SHARP then Go(f.(comment := true), Here)
    else if ch == BACKSLASH then Go(f.(quoted := true, lastSpace := false), Here)
    else if ch == DQUOTE then Go(f.(dquoted := true, lastSpace := false), After)
    else if ch == SQUOTE then Go(f.(squoted := true, lastSpace := false), After)
    else if ch == DOLLAR then Go(f.(variable := true, lastSpace := false), Here)
    else Go(f.(lastSpace := false), Here)
  }

  /** The branch taken inside a word. */
  function InWord(f: Flags, ch: Byte): Move {
    if ch == LBRACE && f.variable then Go(f, Keep)
    else
      var f := f.(variable := false);
      if ch == BACKSLASH then Go(f.(quoted := true), Keep)
      else if ch == DOLLAR then Go(f.(variable := true), Keep)
      else if f.dquoted then
        if ch == DQUOTE then Word(f.(dquoted := false, needSpace := true), None) else Go(f, Keep)
      else if f.squoted then
        if ch == SQUOTE then Word(f.(squoted := false, needSpace := true), None) else Go(f, Keep)
      else if IsSpace(ch) then Word(f.(lastSpace := true), None)
      else if ch == SEMICOLON then Word(f.(lastSpace := true), Some(Ok))
      else if ch == LBRACE then Word(f.(lastSpace := true), Some(BlockStart))
      else Go(f, Keep)
  }

  /** The body of the reading loop after the line count, on character `ch`, with `nargs` words read so far. */
  function Next(f: Flags, ch: Byte, nargs: nat): Move {
    var f := if ch == LF then f.(comment := false) else f;
    if f.comment then Go(f, Keep)
    else if f.quoted then Go(f.(quoted := false), Keep)
    else if f.needSpace then
      if IsSpace(ch) then Go(f.(lastSpace := true, needSpace := false), Keep)
      else if ch == SEMICOLON then Stop(Ok, Keep)
      else if ch == LBRACE then Stop(BlockStart, Keep)
      else if ch == RPAREN then AfterSpace(f.(lastSpace := true, needSpace := false), ch, nargs)
      else Stop(Error(Unexpected(ch)), Keep)
    else if f.lastSpace then AfterSpace(f, ch, nargs)
    else InWord(f, ch)
  }

  // ---------------------------------------------------------- unescaping

  /** The copying of a word with its backslash sequences resolved. */
  function Unescape(s: seq<Byte>): seq<Byte> {
    if s == [] then []
    else if s[0] == BACKSLASH && |s| > 1 then
      if s[1] == DQUOTE || s[1] == SQUOTE || s[1] == BACKSLASH then [s[1]] + Unescape(s[2..])
      else if s[1] == 116 then [TAB] + Unescape(s[2..])
      else if s[1] == 114 then [CR] + Unescape(s[2..])
      else if s[1] == 110 then [LF] + Unescape(s[2..])
      else [s[0]] + Unescape(s[1..])
    else [s[0]] + Unescape(s[1..])
  }

  /** The text ends inside an escape sequence, as the reading loop pairs characters. */
  function Dangling(s: seq<Byte>): bool {
    if s == [] then false
    else if s[0] == BACKSLASH then |s| == 1 || Dangling(s[2..])
    else Dangling(s[1..])
  }

  // ------------------------------------------- a scanner of the whole file

  /** Everything the reading loop carries from character to character. */
  datatype Scan = Scan(flags: Flags, start: nat, startLine: nat, line: nat, args: seq<seq<Byte>>)

  /** What a call gives back: the code, the words, and where and on which line reading stopped. */
  datatype Token = Token(code: Code, args: seq<seq<Byte>>, pos: nat, line: nat)

  function Begin(pos: nat, line: nat): Scan {
    Scan(INITIAL, pos, line, line, [])
  }

  function LineAfter(line: nat, ch: Byte): nat {
    if ch == LF then line + 1 else line
  }

  /** The loop's variables after the character at `pos`, which did not end the call. */
  function Step(text: seq<Byte>, pos: nat, s: Scan): (r: Scan)
    requires pos < |text| && s.start <= pos
    requires !Next(s.flags, text[pos], |s.args|).Stop?
    ensures s.start <= r.start <= pos + 1
  {
    var line := LineAfter(s.line, text[pos]);
    match Next(s.flags, text[pos], |s.args|)
    case Go(f, Keep) => Scan(f, s.start, s.startLine, line, s.args)
    case Go(f, Here) => Scan(f, pos, line, line, s.args)
    case Go(f, After) => Scan(f, pos + 1, line, line, s.args)
    case Word(f, _) => Scan(f, s.start, s.startLine, line, s.args + [Unescape(text[s.start..pos])])
  }

  /** The code with which the character at `pos` ends the call, if it does. */
  function Ends(text: seq<Byte>, pos: nat, s: Scan): Option<Code>
    requires pos < |text|
  {
    match Next(s.flags, text[pos], |s.args|)
    case Go(_, _) => None
    case Word(_, c) => c
    case Stop(c, _) => Some(c)
  }

  function AtEnd(s: Scan, pos: nat): Token {
    Token(if |s.args| > 0 || !s.flags.lastSpace then Error(UnexpectedEnd) else FileDone, s.args, pos, s.line)
  }

  function Finish(text: seq<Byte>, pos: nat, s: Scan, code: Code): Token
    requires pos < |text| && s.start <= pos
  {
    var args := if Next(s.flags, text[pos], |s.args|).Word? then s.args + [Unescape(text[s.start..pos])] else s.args;
    Token(code, args, pos + 1, LineAfter(s.line, text[pos]))
  }

  /** Reading with the whole file at hand. */
  function Whole(text: seq<Byte>, pos: nat, s: Scan): (t: Token)
    requires s.start <= pos <= |text|
    ensures pos <= t.pos <= |text|
    decreases |text| - pos
  {
    if pos == |text| then AtEnd(s, pos)
    else match Ends(text, pos, s)
      case Some(code) => Finish(text, pos, s, code)
      case None => Whole(text, pos + 1, Step(text, pos, s))
  }

  /** One call of ngx_conf_read_token, with the whole file at hand. */
  function WholeToken(text: seq<Byte>, pos: nat, line: nat): Token
    requires pos <= |text|
  {
    Whole(text, pos, Begin(pos, line))
  }

  // ------------------------------------------------- the sliding buffer

  const BUFFER: nat := 4096   // NGX_CONF_BUFFER

  /** A token together with the file offset up to which the buffer has been filled. */
  datatype Read = Read(token: Token, filled: nat)

  /** The offset a refill reads up to: the span from `start` on moves to the front of the buffer. */
  function Refilled(text: seq<Byte>, start: nat): nat {
    if start + BUFFER <= |text| then start + BUFFER else |text|
  }

  /** Reading through the buffer, filled up to offset `filled`; the call fails where a pending span fills it. */
  function Buffered(text: seq<Byte>, pos: nat, s: Scan, filled: nat): (r: Read)
    requires s.start <= pos <= filled <= |text| && filled <= s.start + BUFFER
    ensures pos <= r.token.pos <= r.filled <= |text| && r.filled <= r.token.pos + BUFFER
    decreases |text| - pos, if pos == filled then 1 else 0
  {
    if pos == filled then
      if filled == |text| then Read(AtEnd(s, pos), filled)
      else if pos - s.start == BUFFER then Read(Token(Error(TooLong), s.args, pos, s.startLine), filled)
      else Buffered(text, pos, s, Refilled(text, s.start))
    else match Ends(text, pos, s)
      case Some(code) => Read(Finish(text, pos, s, code), filled)
      case None => Buffered(text, pos + 1, Step(text, pos, s), filled)
  }

  lemma BufferedStep(text: seq<Byte>, pos: nat, s: Scan, filled: nat)
    requires s.start <= pos < filled <= |text| && filled <= s.start + BUFFER
    ensures match Ends(text, pos, s)
            case Some(code) => Buffered(text, pos, s, filled) == Read(Finish(text, pos, s, code), filled)
            case None => Buffered(text, pos, s, filled) == Buffered(text, pos + 1, Step(text, pos, s), filled)
  {
  }

  /** Reading on from here, no span of 4096 bytes is pending before any character that is read. */
  predicate NeverFull(text: seq<Byte>, pos: nat, s: Scan)
    requires s.start <= pos <= |text|
    decreases |text| - pos
  {
    pos == |text| ||
    (pos - s.start < BUFFER && (Ends(text, pos, s).Some? || NeverFull(text, pos + 1, Step(text, pos, s))))
  }

  /** The code for a buffer that is too small has no other cause. */
  lemma {:induction false} WholeNeverTooLong(text: seq<Byte>, pos: nat, s: Scan)
    requires s.start <= pos <= |text|
    ensures Whole(text, pos, s).code != Error(TooLong)
    decreases |text| - pos
  {
    if pos < |text| && Ends(text, pos, s).None? {
      WholeNeverTooLong(text, pos + 1, Step(text, pos, s));
    }
  }

  lemma {:induction false} FullIsTooLong(text: seq<Byte>, pos: nat, s: Scan, filled: nat)
    requires s.start <= pos <= filled <= |text| && filled <= s.start + BUFFER
    ensures var t := Buffered(text, pos, s, filled).token;
            if NeverFull(text, pos, s) then t == Whole(text, pos, s) else t.code == Error(TooLong)
    decreases |text| - pos, if pos == filled then 1 else 0
  {
    if pos == filled {
      if filled < |text| && pos - s.start < BUFFER {
        FullIsTooLong(text, pos, s, Refilled(text, s.start));
      }
    } else if Ends(text, pos, s).None? {
      FullIsTooLong(text, pos + 1, Step(text, pos, s), filled);
    }
  }

  /**
    The buffer changes nothing exactly when no pending span fills it, however far it
    was filled before; otherwise the call fails for that reason.
  */
  lemma BufferedIsWhole(text: seq<Byte>, pos: nat, s: Scan, filled: nat)
    requires s.start <= pos <= filled <= |text| && filled <= s.start + BUFFER
    ensures Buffered(text, pos, s, filled).token == Whole(text, pos, s) <==> NeverFull(text, pos, s)
    ensures Buffered(text, pos, s, filled).token.code == Error(TooLong) <==> !NeverFull(text, pos, s)
  {
    FullIsTooLong(text, pos, s, filled);
    WholeNeverTooLong(text, pos, s);
  }

  // ----------------------------------------------- escapes stay inside words

  lemma {:induction false} DanglingAppend(s: seq<Byte>, c: Byte)
    ensures Dangling(s + [c]) == (!Dangling(s) && c == BACKSLASH)
    decreases |s|
  {
    if s == [] {
      assert s + [c] == [c];
    } else if s[0] == BACKSLASH {
      if |s| == 1 {
        assert (s + [c])[2..] == [];
      } else {
        assert (s + [c])[2..] == s[2..] + [c];
        DanglingAppend(s[2..], c);
      }
    } else {
      assert (s + [c])[1..] == s[1..] + [c];
      DanglingAppend(s[1..], c);
    }
  }

  /** In a word, the quoted flag says whether the span ends inside an escape sequence (`dangling`). */
  ghost predicate SaneFlags(f: Flags, dangling: bool) {
    && (f.quoted ==> !f.lastSpace && !f.needSpace)
    && (f.comment ==> f.lastSpace && !f.needSpace && !f.quoted)
    && (!f.lastSpace && !f.needSpace ==> dangling == f.quoted)
  }

  ghost predicate Sane(text: seq<Byte>, pos: nat, s: Scan) {
    s.start <= pos <= |text| && SaneFlags(s.flags, Dangling(text[s.start..pos]))
  }

  lemma SaneNext(f: Flags, ch: Byte, nargs: nat, dangling: bool)
    requires SaneFlags(f, dangling)
    ensures match Next(f, ch, nargs)
            case Go(f', Keep) => SaneFlags(f', !dangling && ch == BACKSLASH)
            case Go(f', Here) => SaneFlags(f', ch == BACKSLASH)
            case Go(f', After) => SaneFlags(f', false)
            case Word(f', _) => !dangling && SaneFlags(f', true) && SaneFlags(f', false)
            case Stop(_, _) => true
  {
  }

  lemma SaneStep(text: seq<Byte>, pos: nat, s: Scan)
    requires Sane(text, pos, s) && pos < |text|
    ensures Next(s.flags, text[pos], |s.args|).Word? ==> !Dangling(text[s.start..pos])
    ensures Ends(text, pos, s).None? ==> Sane(text, pos + 1, Step(text, pos, s))
  {
    SaneNext(s.flags, text[pos], |s.args|, Dangling(text[s.start..pos]));
    assert text[s.start..pos + 1] == text[s.start..pos] + [text[pos]];
    DanglingAppend(text[s.start..pos], text[pos]);
    assert text[pos..pos + 1] == [text[pos]];
    assert Dangling([text[pos]]) == (text[pos] == BACKSLASH);
  }

  lemma SaneBegin(text: seq<Byte>, pos: nat, line: nat)
    requires pos <= |text|
    ensures Sane(text, pos, Begin(pos, line))
  {
  }

  // ------------------------------------------------- ngx_conf_read_token

  /** One turn of the copying loop: what it writes and how far it moves on. */
  lemma UnescapeTurn(s: seq<Byte>)
    requires s != [] && !Dangling(s)
    ensures s[0] == BACKSLASH ==> |s| > 1
    ensures var two := s[0] == BACKSLASH && s[1] in {DQUOTE, SQUOTE, BACKSLASH, 116, 114, 110};
            && Unescape(s) == [if !two then s[0] else if s[1] == 116 then TAB else if s[1] == 114 then CR
                               else if s[1] == 110 then LF else s[1]] + Unescape(if two then s[2..] else s[1..])
            && !Dangling(if two then s[2..] else s[1..])
  {
    if s[0] == BACKSLASH && s[1] != BACKSLASH {
      assert s[1..][1..] == s[2..];
    }
  }

  lemma Shift(done: seq<Byte>, c: Byte, rest: seq<Byte>)
    ensures done + ([c] + rest) == (done + [c]) + rest
  {
  }

  lemma DropSlice(a: seq<Byte>, p: nat, n: nat, end: nat)
    requires p + n <= end <= |a|
    ensures a[p..end][n..] == a[p + n..end]
  {
  }

  /** The byte the copying loop writes at the front of `s` and the number of bytes it takes. */
  method OneChar(s: seq<Byte>, p: nat, end: nat) returns (c: Byte, n: nat)
    requires p < end <= |s| && !Dangling(s[p..end])
    ensures 1 <= n && p + n <= end
    ensures Unescape(s[p..end]) == [c] + Unescape(s[p + n..end]) && !Dangling(s[p + n..end])
  {
    UnescapeTurn(s[p..end]);
    c, n := s[p], 1;
    if c == BACKSLASH {
      match s[p + 1] {
        case 34 => c, n := DQUOTE, 2;
        case 39 => c, n := SQUOTE, 2;
        case 92 => c, n := BACKSLASH, 2;
        case 116 => c, n := TAB, 2;
        case 114 => c, n := CR, 2;
        case 110 => c, n := LF, 2;
        case _ =>
      }
    }
    DropSlice(s, p, n, end);
  }

  /** The copying loop for a found word: `data` has room for the span and a final NUL. */
  method CopyWord(src: seq<Byte>, start: nat, end: nat) returns (data: array<Byte>, dst: nat)
    requires start <= end <= |src| && !Dangling(src[start..end])
    ensures dst < data.Length == end - start + 1
    ensures data[..dst] == Unescape(src[start..end]) && data[dst] == 0
  {
    data := new Byte[end - start + 1];
    var p := start;
    dst := 0;
    while p < end
      invariant start <= p <= end && dst <= p - start
      invariant !Dangling(src[p..end])
      invariant data[..dst] + Unescape(src[p..end]) == Unescape(src[start..end])
    {
      var c, n := OneChar(src, p, end);
      Shift(data[..dst], c, Unescape(src[p + n..end]));
      ghost var before := data[..dst];
      data[dst] := c;
      assert data[..dst + 1] == before + [c];
      dst, p := dst + 1, p + n;
    }
    data[dst] := 0;
    assert data[..dst] == Unescape(src[start..end]);
  }

  /** ngx_memmove to the front of the buffer. */
  method MoveDown(buffer: array<Byte>, start: nat, len: nat)
    requires start + len <= buffer.Length
    modifies buffer
    ensures buffer[..len] == old(buffer[start..start + len])
  {
    ghost var span := buffer[start..start + len];
    for k := 0 to len
      invariant forall j :: 0 <= j < k ==> buffer[j] == span[j]
      invariant forall j :: start + k <= j < start + len ==> buffer[j] == span[j - start]
    {
      buffer[k] := buffer[start + k];
    }
  }

  lemma TailSpan(view: seq<Byte>, file: seq<Byte>, start: nat, offset: nat)
    requires start <= |view| <= offset <= |file| && view == file[offset - |view|..offset]
    ensures view[start..] == file[offset - (|view| - start)..offset]
  {
  }

  lemma Splice(file: seq<Byte>, i: nat, j: nat, k: nat)
    requires i <= j <= k <= |file|
    ensures file[i..k] == file[i..j] + file[j..k]
  {
  }

  lemma SplitFront(file: seq<Byte>, j: nat, k: nat)
    requires j <= k <= |file|
    ensures file[..j] + file[j..k] == file[..k]
  {
  }

  /** A full read of the file into the buffer from cell `len` on. */
  method ReadInto(buffer: array<Byte>, len: nat, data: seq<Byte>)
    requires len + |data| <= buffer.Length
    modifies buffer
    ensures buffer[..len + |data|] == old(buffer[..len]) + data
  {
    for k := 0 to |data|
      invariant forall j :: 0 <= j < len ==> buffer[j] == old(buffer[j])
      invariant forall j :: len <= j < len + k ==> buffer[j] == data[j - len]
    {
      buffer[len + k] := data[k];
    }
  }

  /** Moves the pending span to the front of the buffer and fills the rest from the file. */
  method FillBuffer(buffer: array<Byte>, file: seq<Byte>, start: nat, pos: nat, offset: nat) returns (len: nat, size: nat)
    requires buffer.Length == BUFFER && start <= pos <= BUFFER && pos - start < BUFFER
    requires pos - start <= offset < |file| && buffer[start..pos] == file[offset - (pos - start)..offset]
    modifies buffer
    ensures len == pos - start && size > 0 && len + size <= BUFFER && offset + size <= |file|
    ensures offset + size == Refilled(file, offset - len)
    ensures buffer[..len + size] == file[offset - len..offset + size]
  {
    len := pos - start;
    MoveDown(buffer, start, len);
    size := if |file| - offset > BUFFER - len then BUFFER - len else |file| - offset;
    ReadInto(buffer, len, file[offset..offset + size]);
    Splice(file, offset - len, offset, offset + size);
  }

  /** The loop's variables with the start of the word as an offset in the file instead of the buffer. */
  ghost function Lift(s: Scan, base: nat): Scan {
    s.(start := base + s.start)
  }

  lemma SameSpan(view: seq<Byte>, file: seq<Byte>, base: nat, i: nat, j: nat)
    requires i <= j <= |view| && base + |view| <= |file| && view == file[base..base + |view|]
    ensures view[i..j] == file[base + i..base + j]
  {
    forall k | 0 <= k < j - i ensures view[i..j][k] == file[base + i..base + j][k] {
      assert view[i + k] == file[base + i + k];
    }
  }

  /** One turn of the reading loop after the refill, on the filled part of the buffer. */
  method Consume(view: seq<Byte>, pos: nat, s: Scan, ghost file: seq<Byte>, ghost base: nat)
    returns (s': Scan, code: Option<Code>)
    requires base + |view| <= |file| && view == file[base..base + |view|] && s.start <= pos < |view|
    requires Sane(file, base + pos, Lift(s, base))
    ensures code == Ends(file, base + pos, Lift(s, base))
    ensures code.None? ==> s'.start <= pos + 1 && Lift(s', base) == Step(file, base + pos, Lift(s, base))
    ensures code.None? ==> Sane(file, base + pos + 1, Lift(s', base))
    ensures s'.start <= pos + 1
    ensures code.Some? ==>
              Token(code.value, s'.args, base + pos + 1, s'.line) ==
              Finish(file, base + pos, Lift(s, base), code.value)
  {
    SaneStep(file, base + pos, Lift(s, base));
    hide Sane, Dangling, Unescape;
    var ch := view[pos];
    s' := s.(line := if ch == LF then s.line + 1 else s.line);
    code := None;
    match Next(s.flags, ch, |s.args|) {
      case Go(f, mark) =>
        s' := s'.(flags := f);
        if mark != Keep {
          s' := s'.(start := if mark == Here then pos else pos + 1, startLine := s'.line);
        }
      case Word(f, end) =>
        SameSpan(view, file, base, s.start, pos);
        var data, len := CopyWord(view, s.start, pos);
        var word := data[..len];
        s', code := s'.(flags := f, args := s.args + [word]), end;
      case Stop(c, _) =>
        code := Some(c);
    }
  }

  method ConsumeFor(view: seq<Byte>, pos: nat, s: Scan, ghost file: seq<Byte>, ghost base: nat, ghost goal: Read)
    returns (s': Scan, code: Option<Code>)
    requires base + |view| <= |file| && view == file[base..base + |view|] && s.start <= pos < |view| <= BUFFER
    requires Sane(file, base + pos, Lift(s, base)) && goal == Buffered(file, base + pos, Lift(s, base), base + |view|)
    ensures s'.start <= pos + 1
    ensures code.None? ==> Sane(file, base + pos + 1, Lift(s', base))
    ensures code.None? ==> goal == Buffered(file, base + pos + 1, Lift(s', base), base + |view|)
    ensures code.Some? ==> goal == Read(Token(code.value, s'.args, base + pos + 1, s'.line), base + |view|)
  {
    BufferedStep(file, base + pos, Lift(s, base), base + |view|);
    s', code := Consume(view, pos, s, file, base);
  }

  /** ngx_conf_file_t and its buffer, with the file's contents and the dump of what has been read. */
  class ConfFile {
    const file: seq<Byte>
    const buffer: array<Byte>
    var pos: nat
    var last: nat
    var offset: nat
    var line: nat
    var args: seq<seq<Byte>>
    var dump: seq<Byte>

    ghost predicate Valid()
      reads this, buffer
    {
      && buffer.Length == BUFFER
      && pos <= last <= BUFFER && last <= offset <= |file|
      && buffer[..last] == file[offset - last..offset]
      && dump == file[..offset]
    }

    /** Where in the file the next character is. */
    ghost function Position(): nat
      requires Valid()
      reads this, buffer
    {
      offset - (last - pos)
    }

    constructor (contents: seq<Byte>)
      ensures Valid() && file == contents && Position() == 0 && offset == 0 && line == 1 && fresh(buffer)
    {
      file := contents;
      buffer := new Byte[BUFFER](_ => 0);
      pos, last, offset, line, args, dump := 0, 0, 0, 1, [], [];
    }

    /** The pending span, from cell `start` of the buffer on. */
    lemma Pending(start: nat)
      requires Valid() && start <= last
      ensures buffer[start..last] == file[offset - (last - start)..offset]
    {
      TailSpan(buffer[..last], file, start, offset);
      assert buffer[start..last] == buffer[..last][start..];
    }

    /** The refill when the buffer is used up: the span from `start` on stays, and what is read is dumped. */
    method Refill(start: nat)
      requires Valid() && start <= pos == last && last - start < BUFFER && offset < |file|
      modifies this`pos, this`last, this`offset, this`dump, buffer
      ensures Valid() && pos < last && pos == old(pos) - start
      ensures Position() == old(Position()) && offset == Refilled(file, old(offset) - (old(last) - start))
    {
      hide Refilled;
      Pending(start);
      var len, size := FillBuffer(buffer, file, start, pos, offset);
      SplitFront(file, offset, offset + size);
      dump := dump + file[offset..offset + size];
      pos, last, offset := len, len + size, offset + size;
    }

    /**
      ngx_conf_read_token: the same words, code, line and place in the file as reading
      through a buffer of 4096 bytes must give.
    */
    method ReadToken() returns (code: Code)
      requires Valid()
      modifies this, buffer
      ensures Valid()
      ensures Read(Token(code, args, Position(), line), offset) ==
              old(Buffered(file, Position(), Begin(Position(), line), offset))
    {
      var s := Scan(INITIAL, pos, line, line, []);
      ghost var goal := Buffered(file, Position(), Begin(Position(), line), offset);
      SaneBegin(file, Position(), line);
      var end: Option<Code> := None;
      while end.None?
        invariant Valid() && s.start <= pos
        invariant end.None? ==> Reading(s, goal)
        invariant end.Some? ==> goal == Read(Token(end.value, s.args, Position(), s.line), offset)
        decreases end.None?, |file| - Position()
      {
        s, end := Provide(s, goal);
        if end.None? {
          s, end := Advance(s, goal);
        }
      }
      args, line := s.args, s.line;
      return end.value;
    }

    /** The call has not ended and will end with `goal`. */
    ghost predicate Reading(s: Scan, goal: Read)
      requires Valid() && s.start <= pos
      reads this, buffer
    {
      && Sane(file, Position(), Lift(s, offset - last))
      && goal == Buffered(file, Position(), Lift(s, offset - last), offset)
    }

    /** The first part of a turn of the reading loop: makes sure there is a character to read, or ends the call. */
    method Provide(s: Scan, ghost goal: Read) returns (s': Scan, end: Option<Code>)
      requires Valid() && s.start <= pos && Reading(s, goal)
      modifies this`pos, this`last, this`offset, this`dump, buffer
      ensures Valid() && s'.start <= pos && Position() == old(Position())
      ensures end.None? ==> pos < last && Reading(s', goal)
      ensures end.Some? ==> goal == Read(Token(end.value, s'.args, Position(), s'.line), offset)
    {
      s', end := s, None;
      if pos >= last {
        if offset >= |file| {
          return s, Some(AtEnd(s, pos).code);
        }
        if pos - s.start == BUFFER {
          return s.(line := s.startLine), Some(Error(TooLong));
        }
        Refill(s.start);
        s' := s.(start := 0);
        assert Lift(s', offset - last) == old(Lift(s, offset - last));
      }
    }

    /** The second part of a turn: reads one character. */
    method Advance(s: Scan, ghost goal: Read) returns (s': Scan, end: Option<Code>)
      requires Valid() && s.start <= pos < last && Reading(s, goal)
      modifies this`pos
      ensures Valid() && s'.start <= pos && Position() == old(Position()) + 1
      ensures end.None? ==> Reading(s', goal)
      ensures end.Some? ==> goal == Read(Token(end.value, s'.args, Position(), s'.line), offset)
    {
      hide Sane, Buffered, Lift;
      s', end := ConsumeFor(buffer[..last], pos, s, file, offset - last, goal);
      pos := pos + 1;
    }
  }

  // ---------------------------------------------------- successive calls

  /** The tokens of `n` successive calls, with the whole file at hand. */
  function WholeRun(text: seq<Byte>, pos: nat, line: nat, n: nat): seq<Token>
    requires pos <= |text|
    decreases n
  {
    if n == 0 then []
    else var t := WholeToken(text, pos, line); [t] + WholeRun(text, t.pos, t.line, n - 1)
  }

  /** The tokens of `n` successive calls through the buffer. */
  function BufferedRun(text: seq<Byte>, pos: nat, line: nat, filled: nat, n: nat): seq<Token>
    requires pos <= filled <= |text| && filled <= pos + BUFFER
    decreases n
  {
    if n == 0 then []
    else
      var r := Buffered(text, pos, Begin(pos, line), filled);
      [r.token] + BufferedRun(text, r.token.pos, r.token.line, r.filled, n - 1)
  }

  /** No call of the whole-file run has a span of 4096 bytes pending: a condition on the file alone. */
  predicate NeverFullRun(text: seq<Byte>, pos: nat, line: nat, n: nat)
    requires pos <= |text|
    decreases n
  {
    n == 0 ||
    (&& NeverFull(text, pos, Begin(pos, line))
     && var t := WholeToken(text, pos, line); NeverFullRun(text, t.pos, t.line, n - 1))
  }

  lemma SameTail(t: Token, a: seq<Token>, b: seq<Token>)
    ensures [t] + a == [t] + b <==> a == b
  {
    assert ([t] + a)[1..] == a && ([t] + b)[1..] == b;
  }

  /** Any number of calls through the buffer give the tokens of the whole file exactly when no span ever fills it. */
  lemma {:induction false} RunsAgree(text: seq<Byte>, pos: nat, line: nat, filled: nat, n: nat)
    requires pos <= filled <= |text| && filled <= pos + BUFFER
    ensures BufferedRun(text, pos, line, filled, n) == WholeRun(text, pos, line, n) <==> NeverFullRun(text, pos, line, n)
    decreases n
  {
    hide Buffered, Whole, NeverFull;
    if n > 0 {
      var r, w := Buffered(text, pos, Begin(pos, line), filled), WholeToken(text, pos, line);
      BufferedIsWhole(text, pos, Begin(pos, line), filled);
      if r.token == w {
        RunsAgree(text, w.pos, w.line, r.filled, n - 1);
        SameTail(w, BufferedRun(text, w.pos, w.line, r.filled, n - 1), WholeRun(text, w.pos, w.line, n - 1));
      } else {
        assert BufferedRun(text, pos, line, filled, n)[0] == r.token && WholeRun(text, pos, line, n)[0] == w;
      }
    }
  }

  // ------------------------------------------------- reading a directive

  /** Reading `n` characters from `pos` on does not end the call and turns `s` into `s'`. */
  ghost predicate Leads(text: seq<Byte>, pos: nat, s: Scan, n: nat, s': Scan)
    decreases n
  {
    s.start <= pos && pos + n <= |text| &&
    if n == 0 then s == s'
    else Ends(text, pos, s).None? && Leads(text, pos + 1, Step(text, pos, s), n - 1, s')
  }

  lemma {:induction false} LeadsWhole(text: seq<Byte>, pos: nat, s: Scan, n: nat, s': Scan)
    requires Leads(text, pos, s, n, s')
    ensures s'.start <= pos + n && Whole(text, pos, s) == Whole(text, pos + n, s')
    decreases n
  {
    if n > 0 {
      LeadsWhole(text, pos + 1, Step(text, pos, s), n - 1, s');
    }
  }

  lemma {:induction false} LeadsTrans(text: seq<Byte>, pos: nat, s: Scan, n: nat, s': Scan, m: nat, s'': Scan)
    requires Leads(text, pos, s, n, s') && Leads(text, pos + n, s', m, s'')
    ensures Leads(text, pos, s, n + m, s'')
    decreases n
  {
    if n > 0 {
      LeadsTrans(text, pos + 1, Step(text, pos, s), n - 1, s', m, s'');
    }
  }

  /** A span that fills the buffer later on does so for the whole stretch; the converse if the stretch itself is short. */
  lemma {:induction false} LeadsNeverFull(text: seq<Byte>, pos: nat, s: Scan, n: nat, s': Scan)
    requires Leads(text, pos, s, n, s')
    ensures s'.start <= pos + n
    ensures NeverFull(text, pos, s) ==> NeverFull(text, pos + n, s')
    ensures NeverFull(text, pos + n, s') && pos + n <= s.start + BUFFER ==> NeverFull(text, pos, s)
    decreases n
  {
    if n > 0 {
      LeadsNeverFull(text, pos + 1, Step(text, pos, s), n - 1, s');
    }
  }

  /** The number of line feeds. */
  function Lines(s: seq<Byte>): nat {
    if s == [] then 0 else (if s[0] == 10 then 1 else 0) + Lines(s[1..])
  }

  /**
    The grammar is given in bytes: blank, tab, carriage return and line feed are 32, 9, 13
    and 10, "#" is 35, the quotes are 34 and 39, and ";", "{" and "}" are 59, 123 and 125.
  */
  predicate IsBlank(c: Byte) {
    c == 32 || c == 9 || c == 13 || c == 10
  }

  /** Blank space and comments; a comment runs to the end of its line. */
  predicate Gap(g: seq<Byte>, inComment: bool) {
    if g == [] then !inComment
    else if inComment then Gap(g[1..], g[0] != 10)
    else if IsBlank(g[0]) then Gap(g[1..], false)
    else g[0] == 35 && Gap(g[1..], true)
  }

  /** The inside of a string in quotes `q`: after a backslash anything may follow, else no quote. */
  predicate QuotedBody(raw: seq<Byte>, q: Byte) {
    if raw == [] then true
    else if raw[0] == 92 then |raw| > 1 && QuotedBody(raw[2..], q)
    else raw[0] != q && QuotedBody(raw[1..], q)
  }

  /** The rest of a bare word; a brace is part of it only right after a dollar sign and further braces. */
  predicate BareRest(raw: seq<Byte>, variable: bool) {
    if raw == [] then true
    else if raw[0] == 92 then |raw| > 1 && BareRest(raw[2..], false)
    else if raw[0] == 36 then BareRest(raw[1..], true)
    else if raw[0] == 123 then variable && BareRest(raw[1..], true)
    else !IsBlank(raw[0]) && raw[0] != 59 && BareRest(raw[1..], false)
  }

  /** Characters that a bare word cannot start with. */
  predicate Special(c: Byte) {
    IsBlank(c) || c == 59 || c == 123 || c == 125 || c == 35 || c == 34 || c == 39
  }

  datatype Form = Bare(raw: seq<Byte>) | Quoted(raw: seq<Byte>, q: Byte)

  predicate GoodForm(w: Form) {
    match w
    case Bare(raw) => raw != [] && !Special(raw[0]) && BareRest(raw, false)
    case Quoted(raw, q) => (q == 34 || q == 39) && QuotedBody(raw, q)
  }

  function FormText(w: Form): seq<Byte> {
    match w
    case Bare(raw) => raw
    case Quoted(raw, q) => [q] + raw + [q]
  }

  /** `part` stands in the text at `pos`. */
  predicate At(text: seq<Byte>, pos: nat, part: seq<Byte>)
    decreases |part|
  {
    pos <= |text| && (part == [] || (pos < |text| && text[pos] == part[0] && At(text, pos + 1, part[1..])))
  }

  lemma {:induction false} AtSplit(text: seq<Byte>, pos: nat, a: seq<Byte>, b: seq<Byte>)
    requires At(text, pos, a + b)
    ensures At(text, pos, a) && At(text, pos + |a|, b)
    decreases |a|
  {
    if a == [] {
      assert a + b == b;
    } else {
      assert (a + b)[1..] == a[1..] + b;
      AtSplit(text, pos + 1, a[1..], b);
    }
  }

  lemma {:induction false} AtSlice(text: seq<Byte>, pos: nat, part: seq<Byte>)
    requires At(text, pos, part)
    ensures pos + |part| <= |text| && text[pos..pos + |part|] == part
    decreases |part|
  {
    if part != [] {
      AtSlice(text, pos + 1, part[1..]);
      assert text[pos..pos + |part|] == [text[pos]] + text[pos + 1..pos + |part|];
    }
  }

  lemma AtHead(text: seq<Byte>, pos: nat, part: seq<Byte>)
    requires At(text, pos, part) && part != []
    ensures pos < |text| && text[pos] == part[0] && At(text, pos + 1, part[1..])
  {
  }

  /** Blank space and comments are skipped, whatever was there before. */
  lemma {:induction false} GapLeads(text: seq<Byte>, pos: nat, s: Scan, g: seq<Byte>, inComment: bool) returns (s': Scan)
    requires s.start <= pos && At(text, pos, g) && Gap(g, inComment) && s.flags == INITIAL.(comment := inComment)
    ensures Leads(text, pos, s, |g|, s') && s'.flags == INITIAL
    ensures s'.args == s.args && s'.line == s.line + Lines(g)
    decreases |g|
  {
    if g == [] {
      s' := s;
    } else {
      AtHead(text, pos, g);
      var c := if inComment then g[0] != LF else g[0] == SHARP;
      s' := GapLeads(text, pos + 1, Step(text, pos, s), g[1..], c);
    }
  }

  lemma {:induction false} LinesConcat(a: seq<Byte>, b: seq<Byte>)
    ensures Lines(a + b) == Lines(a) + Lines(b)
  {
    if a == [] {
      assert a + b == b;
    } else {
      assert (a + b)[1..] == a[1..] + b;
      LinesConcat(a[1..], b);
    }
  }

  /** Inside a word: in quotes `q` (0 for none), after a dollar sign or not. */
  function InsideFlags(q: Byte, variable: bool): Flags {
    Flags(false, false, false, variable, false, q == SQUOTE, q == DQUOTE)
  }

  /** The escape sequence at `pos` is passed over, whatever its second character is. */
  lemma EscapeLeads(text: seq<Byte>, pos: nat, s: Scan, q: Byte, variable: bool) returns (s': Scan)
    requires s.start <= pos && pos + 2 <= |text| && text[pos] == BACKSLASH && s.flags == InsideFlags(q, variable)
    ensures Leads(text, pos, s, 2, s')
    ensures s' == s.(flags := InsideFlags(q, false), line := LineAfter(s.line, text[pos + 1]))
  {
    var m := Step(text, pos, s);
    assert m == s.(flags := InsideFlags(q, false).(quoted := true));
    s' := Step(text, pos + 1, m);
    assert Leads(text, pos + 1, m, 1, s') by {
      assert Leads(text, pos + 2, s', 0, s');
    }
  }

  /** What may come right after a bare word. */
  predicate EndsBare(c: Byte, variable: bool) {
    IsBlank(c) || c == 59 || (c == 123 && !variable)
  }

  /** The next character belongs to the word in quotes `q` (0 for none) and escapes nothing. */
  predicate StaysInside(c: Byte, q: Byte, variable: bool) {
    c != 92 && if q == 0 then !EndsBare(c, variable) else c != q
  }

  lemma LeadsOne(text: seq<Byte>, pos: nat, s: Scan)
    requires s.start <= pos < |text| && Ends(text, pos, s).None?
    ensures Leads(text, pos, s, 1, Step(text, pos, s))
  {
    assert Leads(text, pos + 1, Step(text, pos, s), 0, Step(text, pos, s));
  }

  lemma InsideLeads(text: seq<Byte>, pos: nat, s: Scan, q: Byte, variable: bool) returns (s': Scan, v: bool)
    requires q in {0, DQUOTE, SQUOTE} && s.start <= pos < |text| && s.flags == InsideFlags(q, variable)
    requires StaysInside(text[pos], q, variable)
    ensures Leads(text, pos, s, 1, s') && v == (text[pos] == DOLLAR || (text[pos] == LBRACE && variable))
    ensures s' == s.(flags := InsideFlags(q, v), line := LineAfter(s.line, text[pos]))
  {
    v := text[pos] == DOLLAR || (text[pos] == LBRACE && variable);
    s' := Step(text, pos, s);
    LeadsOne(text, pos, s);
  }

  lemma {:induction false} QuotedLeads(text: seq<Byte>, pos: nat, s: Scan, raw: seq<Byte>, q: Byte, variable: bool)
    returns (s': Scan, v: bool)
    requires q == DQUOTE || q == SQUOTE
    requires s.start <= pos && At(text, pos, raw) && QuotedBody(raw, q) && s.flags == InsideFlags(q, variable)
    ensures Leads(text, pos, s, |raw|, s') && s' == s.(flags := InsideFlags(q, v), line := s.line + Lines(raw))
    decreases |raw|
  {
    hide Next;
    if raw == [] {
      s', v := s, variable;
    } else {
      AtHead(text, pos, raw);
      hide Leads;
      if raw[0] == BACKSLASH {
        AtHead(text, pos + 1, raw[1..]);
        var m := EscapeLeads(text, pos, s, q, variable);
        s', v := QuotedLeads(text, pos + 2, m, raw[2..], q, false);
        LeadsTrans(text, pos, s, 2, m, |raw| - 2, s');
        assert raw[1..][1..] == raw[2..];
      } else {
        var m, v0 := InsideLeads(text, pos, s, q, variable);
        s', v := QuotedLeads(text, pos + 1, m, raw[1..], q, v0);
        LeadsTrans(text, pos, s, 1, m, |raw| - 1, s');
      }
    }
  }

  /** Whether a bare word ends where a brace would still belong to it. */
  function EndsInVariable(raw: seq<Byte>, variable: bool): bool {
    if raw == [] then variable
    else if raw[0] == 92 && |raw| > 1 then EndsInVariable(raw[2..], false)
    else EndsInVariable(raw[1..], raw[0] == 36 || (raw[0] == 123 && variable))
  }

  lemma {:induction false} BareLeads(text: seq<Byte>, pos: nat, s: Scan, raw: seq<Byte>, variable: bool) returns (s': Scan)
    requires s.start <= pos && At(text, pos, raw) && BareRest(raw, variable) && s.flags == InsideFlags(0, variable)
    ensures Leads(text, pos, s, |raw|, s')
    ensures s' == s.(flags := InsideFlags(0, EndsInVariable(raw, variable)), line := s.line + Lines(raw))
    decreases |raw|
  {
    hide Next;
    if raw == [] {
      s' := s;
    } else {
      AtHead(text, pos, raw);
      hide Leads;
      if raw[0] == BACKSLASH {
        AtHead(text, pos + 1, raw[1..]);
        var m := EscapeLeads(text, pos, s, 0, variable);
        s' := BareLeads(text, pos + 2, m, raw[2..], false);
        LeadsTrans(text, pos, s, 2, m, |raw| - 2, s');
        assert raw[1..][1..] == raw[2..];
      } else {
        var m, v0 := InsideLeads(text, pos, s, 0, variable);
        s' := BareLeads(text, pos + 1, m, raw[1..], v0);
        LeadsTrans(text, pos, s, 1, m, |raw| - 1, s');
      }
    }
  }

  /** After the closing quote of a word. */
  const CLOSED := Flags(true, false, false, false, false, false, false)

  lemma QuotedParts(text: seq<Byte>, pos: nat, raw: seq<Byte>, q: Byte)
    requires At(text, pos, [q] + raw + [q])
    ensures pos < |text| && text[pos] == q && At(text, pos + 1, raw)
    ensures pos + 1 + |raw| < |text| && text[pos + 1 + |raw|] == q
  {
    assert [q] + raw + [q] == [q] + (raw + [q]);
    AtSplit(text, pos, [q], raw + [q]);
    AtSplit(text, pos + 1, raw, [q]);
    AtHead(text, pos, [q]);
    AtHead(text, pos + 1 + |raw|, [q]);
  }

  lemma OpenLeads(text: seq<Byte>, pos: nat, s: Scan, q: Byte) returns (open: Scan)
    requires s.start <= pos < |text| && s.flags == INITIAL && text[pos] == q && (q == DQUOTE || q == SQUOTE)
    ensures Leads(text, pos, s, 1, open) && open == Scan(InsideFlags(q, false), pos + 1, s.line, s.line, s.args)
  {
    open := Step(text, pos, s);
    LeadsOne(text, pos, s);
  }

  lemma CloseLeads(text: seq<Byte>, pos: nat, s: Scan, q: Byte, v: bool) returns (s': Scan)
    requires s.start <= pos < |text| && s.flags == InsideFlags(q, v) && text[pos] == q && (q == DQUOTE || q == SQUOTE)
    ensures Leads(text, pos, s, 1, s')
    ensures s' == s.(flags := CLOSED, args := s.args + [Unescape(text[s.start..pos])])
  {
    s' := Step(text, pos, s);
    LeadsOne(text, pos, s);
  }

  /** A word in quotes is read up to and including its closing quote. */
  lemma QuotedWordLeads(text: seq<Byte>, pos: nat, s: Scan, raw: seq<Byte>, q: Byte) returns (open: Scan, s': Scan)
    requires s.start <= pos && s.flags == INITIAL && GoodForm(Quoted(raw, q))
    requires At(text, pos, [q] + raw + [q])
    ensures Leads(text, pos, s, 1, open) && open.start == pos + 1
    ensures Leads(text, pos + 1, open, |raw| + 1, s')
    ensures s' == Scan(CLOSED, pos + 1, s.line, s.line + Lines(raw), s.args + [Unescape(raw)])
  {
    QuotedParts(text, pos, raw, q);
    open := OpenLeads(text, pos, s, q);
    var m, v := QuotedLeads(text, pos + 1, open, raw, q, false);
    AtSlice(text, pos + 1, raw);
    s' := CloseLeads(text, pos + 1 + |raw|, m, q, v);
    LeadsTrans(text, pos + 1, open, |raw|, m, 1, s');
  }

  /** A bare word is read up to its last character. */
  lemma BareWordLeads(text: seq<Byte>, pos: nat, s: Scan, raw: seq<Byte>) returns (s': Scan)
    requires s.start <= pos && s.flags == INITIAL && GoodForm(Bare(raw)) && At(text, pos, raw)
    ensures Leads(text, pos, s, |raw|, s')
    ensures s' == Scan(InsideFlags(0, EndsInVariable(raw, false)), pos, s.line, s.line + Lines(raw), s.args)
  {
    AtHead(text, pos, raw);
    var m := Step(text, pos, s);
    LeadsOne(text, pos, s);
    if raw[0] == BACKSLASH {
      AtHead(text, pos + 1, raw[1..]);
      assert raw[1..][1..] == raw[2..];
      var m' := Step(text, pos + 1, m);
      LeadsOne(text, pos + 1, m);
      LeadsTrans(text, pos, s, 1, m, 1, m');
      assert m' == Scan(InsideFlags(0, false), pos, s.line, LineAfter(s.line, raw[1]), s.args);
      s' := BareLeads(text, pos + 2, m', raw[2..], false);
      LeadsTrans(text, pos, s, 2, m', |raw| - 2, s');
    } else {
      s' := BareLeads(text, pos + 1, m, raw[1..], raw[0] == DOLLAR);
      LeadsTrans(text, pos, s, 1, m, |raw| - 1, s');
    }
  }

  /** A word of a directive and what stands between it and the next one. */
  datatype Piece = Piece(word: Form, gap: seq<Byte>)

  function TermCode(term: Byte): Code {
    if term == 123 then BlockStart else Ok
  }

  function DirectiveText(ps: seq<Piece>, term: Byte): seq<Byte> {
    if ps == [] then [term]
    else FormText(ps[0].word) + (ps[0].gap + DirectiveText(ps[1..], term))
  }

  function Values(ps: seq<Piece>): seq<seq<Byte>> {
    if ps == [] then [] else [Unescape(ps[0].word.raw)] + Values(ps[1..])
  }

  predicate StartsWithParen(w: Form) {
    w.Bare? && w.raw != [] && w.raw[0] == 41
  }

  /** An opening brace right after "$" belongs to the word. */
  predicate BeforeTerm(w: Form, term: Byte) {
    w.Bare? && term == 123 ==> !EndsInVariable(w.raw, false)
  }

  /**
    A directive: words, each followed by blank space that starts with a blank, except
    that the last may be followed by the terminator at once, and that a word which
    starts with a parenthesis may follow a closing quote at once.
  */
  predicate GoodDirective(ps: seq<Piece>, term: Byte) {
    && (term == 59 || term == 123)
    && (ps == [] ||
        (&& GoodForm(ps[0].word) && Gap(ps[0].gap, false)
         && (if ps[0].gap != [] then IsBlank(ps[0].gap[0])
             else if |ps| == 1 then BeforeTerm(ps[0].word, term)
             else ps[0].word.Quoted? && StartsWithParen(ps[1].word))
         && GoodDirective(ps[1..], term)))
  }

  /** A word of either form, read as far as it goes before what follows it. */
  lemma FormLeads(text: seq<Byte>, pos: nat, s: Scan, w: Form) returns (s': Scan)
    requires s.start <= pos && s.flags == INITIAL && GoodForm(w) && At(text, pos, FormText(w))
    ensures Leads(text, pos, s, |FormText(w)|, s') && s'.line == s.line + Lines(FormText(w))
    ensures w.Quoted? ==> s'.flags == CLOSED && s'.args == s.args + [Unescape(w.raw)]
    ensures w.Bare? ==> s'.flags == InsideFlags(0, EndsInVariable(w.raw, false)) && s'.args == s.args && s'.start == pos
  {
    hide Next, Leads, At, Unescape;
    match w {
      case Bare(raw) =>
        s' := BareWordLeads(text, pos, s, raw);
      case Quoted(raw, q) =>
        var open;
        open, s' := QuotedWordLeads(text, pos, s, raw, q);
        LeadsTrans(text, pos, s, 1, open, |raw| + 1, s');
        LinesConcat([q] + raw, [q]);
        LinesConcat([q], raw);
    }
  }

  /** The state at the end of a word, before what follows it: `args` will be the words read. */
  ghost predicate AtWordEnd(text: seq<Byte>, at: nat, s: Scan, w: Form, args: seq<seq<Byte>>) {
    && s.start <= at < |text|
    && (w.Quoted? ==> s.flags == CLOSED && args == s.args)
    && (w.Bare? ==> s.flags == InsideFlags(0, EndsInVariable(w.raw, false)) && args == s.args + [Unescape(text[s.start..at])])
  }

  /** A blank after a word ends the word. */
  lemma BlankAfterForm(text: seq<Byte>, at: nat, s: Scan, w: Form, args: seq<seq<Byte>>) returns (s': Scan)
    requires AtWordEnd(text, at, s, w, args) && IsSpace(text[at])
    ensures Leads(text, at, s, 1, s') && s'.start <= at + 1
    ensures s'.flags == INITIAL && s'.args == args && s'.line == LineAfter(s.line, text[at])
  {
    s' := Step(text, at, s);
    LeadsOne(text, at, s);
  }

  /** The character at `at` ends the call with `t`. */
  ghost predicate EndsWith(text: seq<Byte>, at: nat, s: Scan, t: Token) {
    s.start <= at < |text| && Ends(text, at, s) == Some(t.code) && Finish(text, at, s, t.code) == t
  }

  /** A terminator after a word ends the word and the call. */
  lemma TermAfterForm(text: seq<Byte>, at: nat, s: Scan, w: Form, args: seq<seq<Byte>>)
    requires AtWordEnd(text, at, s, w, args) && (text[at] == SEMICOLON || text[at] == LBRACE) && BeforeTerm(w, text[at])
    ensures EndsWith(text, at, s, Token(TermCode(text[at]), args, at + 1, s.line))
  {
  }

  lemma {:induction false} LeadsStart(text: seq<Byte>, pos: nat, s: Scan, n: nat, s': Scan)
    requires Leads(text, pos, s, n, s')
    ensures s'.start <= pos + n <= |text|
    decreases n
  {
    if n > 0 {
      LeadsStart(text, pos + 1, Step(text, pos, s), n - 1, s');
    }
  }

  lemma FormEnds(text: seq<Byte>, pos: nat, s: Scan, w: Form) returns (s': Scan)
    requires s.start <= pos && s.flags == INITIAL && GoodForm(w) && At(text, pos, FormText(w))
    requires pos + |FormText(w)| < |text|
    ensures Leads(text, pos, s, |FormText(w)|, s') && s'.line == s.line + Lines(FormText(w))
    ensures AtWordEnd(text, pos + |FormText(w)|, s', w, s.args + [Unescape(w.raw)])
  {
    s' := FormLeads(text, pos, s, w);
    AtSlice(text, pos, FormText(w));
    LeadsStart(text, pos, s, |FormText(w)|, s');
  }

  /** A word and the blank space after it. */
  lemma PieceLeads(text: seq<Byte>, pos: nat, s: Scan, p: Piece) returns (s': Scan)
    requires s.start <= pos && s.flags == INITIAL && GoodForm(p.word)
    requires p.gap != [] && IsSpace(p.gap[0]) && Gap(p.gap, false)
    requires At(text, pos, FormText(p.word)) && At(text, pos + |FormText(p.word)|, p.gap)
    ensures Leads(text, pos, s, |FormText(p.word)| + |p.gap|, s') && s'.flags == INITIAL
    ensures s'.args == s.args + [Unescape(p.word.raw)]
    ensures s'.line == s.line + Lines(FormText(p.word)) + Lines(p.gap)
  {
    var n, g := |FormText(p.word)|, p.gap;
    AtHead(text, pos + n, g);
    var m := FormEnds(text, pos, s, p.word);
    var m' := BlankAfterForm(text, pos + n, m, p.word, s.args + [Unescape(p.word.raw)]);
    s' := GapLeads(text, pos + n + 1, m', g[1..], false);
    LeadsTrans(text, pos + n, m, 1, m', |g| - 1, s');
    LeadsTrans(text, pos, s, n, m, |g|, s');
  }

  lemma AppendValue(args: seq<seq<Byte>>, v: seq<Byte>, rest: seq<seq<Byte>>)
    ensures args + [v] + rest == args + ([v] + rest)
  {
  }

  /** A terminator after blank space ends the call, once there is a word. */
  lemma TermIsRead(text: seq<Byte>, pos: nat, s: Scan, term: Byte)
    requires s.start <= pos && s.flags == INITIAL && |s.args| > 0 && (term == SEMICOLON || term == LBRACE)
    requires At(text, pos, [term])
    ensures EndsWith(text, pos, s, Token(TermCode(term), s.args, pos + 1, s.line))
  {
    AtHead(text, pos, [term]);
  }

  /** What reading a directive must give: the words, the code of the terminator, and where it ends. */
  ghost function DirectiveToken(pos: nat, s: Scan, ps: seq<Piece>, term: Byte): Token {
    Token(TermCode(term), s.args + Values(ps), pos + |DirectiveText(ps, term)|, s.line + Lines(DirectiveText(ps, term)))
  }

  lemma TokenOfNone(pos: nat, s: Scan, term: Byte)
    requires term == SEMICOLON || term == LBRACE
    ensures DirectiveToken(pos, s, [], term) == Token(TermCode(term), s.args, pos + 1, s.line)
  {
    assert Lines([term]) == 0;
    assert s.args + [] == s.args;
  }

  lemma TokenOfLast(pos: nat, s: Scan, ps: seq<Piece>, term: Byte)
    requires |ps| == 1 && ps[0].gap == [] && (term == SEMICOLON || term == LBRACE)
    ensures var a := FormText(ps[0].word);
            DirectiveToken(pos, s, ps, term) ==
            Token(TermCode(term), s.args + [Unescape(ps[0].word.raw)], pos + |a| + 1, s.line + Lines(a))
  {
    var a := FormText(ps[0].word);
    assert [] + [term] == [term] && Lines([term]) == 0;
    assert DirectiveText(ps, term) == a + [term];
    LinesConcat(a, [term]);
    assert Values(ps) == [Unescape(ps[0].word.raw)];
  }

  lemma TokenOfMore(pos: nat, s: Scan, ps: seq<Piece>, term: Byte, at: nat, m: Scan)
    requires ps != [] && at == pos + |FormText(ps[0].word)| + |ps[0].gap| && m.args == s.args + [Unescape(ps[0].word.raw)]
    requires m.line == s.line + Lines(FormText(ps[0].word)) + Lines(ps[0].gap)
    ensures DirectiveToken(pos, s, ps, term) ==
            DirectiveToken(at, m, ps[1..], term)
  {
    var a, g, rest := FormText(ps[0].word), ps[0].gap, DirectiveText(ps[1..], term);
    LinesConcat(a, g + rest);
    LinesConcat(g, rest);
    AppendValue(s.args, Unescape(ps[0].word.raw), Values(ps[1..]));
  }

  /** Reading from `pos` leads to the character at `end`, which ends the call with `t`. */
  ghost predicate ReadsTo(text: seq<Byte>, pos: nat, s: Scan, end: nat, s': Scan, t: Token) {
    pos <= end && Leads(text, pos, s, end - pos, s') && EndsWith(text, end, s', t)
  }

  lemma LastReads(text: seq<Byte>, pos: nat, s: Scan, ps: seq<Piece>, term: Byte) returns (end: nat, s': Scan)
    requires s.start <= pos && s.flags == INITIAL && |ps| == 1 && ps[0].gap == []
    requires GoodDirective(ps, term) && At(text, pos, FormText(ps[0].word))
    requires At(text, pos + |FormText(ps[0].word)|, [term])
    ensures ReadsTo(text, pos, s, end, s', DirectiveToken(pos, s, ps, term))
  {
    var p := ps[0];
    end := pos + |FormText(p.word)|;
    AtHead(text, end, [term]);
    s' := FormEnds(text, pos, s, p.word);
    TermAfterForm(text, end, s', p.word, s.args + [Unescape(p.word.raw)]);
    TokenOfLast(pos, s, ps, term);
  }

  /** After a closing quote a parenthesis is read as it is after a blank. */
  lemma {:induction false} ParenReads(text: seq<Byte>, at: nat, s: Scan, end: nat, s': Scan, t: Token)
    requires s.start <= at < |text| && text[at] == RPAREN && s.flags == CLOSED
    requires ReadsTo(text, at, s.(flags := INITIAL), end, s', t)
    ensures ReadsTo(text, at, s, end, s', t)
  {
    assert Next(CLOSED, RPAREN, |s.args|) == Next(INITIAL, RPAREN, |s.args|);
    assert end > at;
    assert Step(text, at, s) == Step(text, at, s.(flags := INITIAL));
  }

  /** A word in quotes with a parenthesis right after it. */
  lemma ParenPieceLeads(text: seq<Byte>, pos: nat, s: Scan, ps: seq<Piece>, term: Byte) returns (at: nat, m: Scan)
    requires s.start <= pos && s.flags == INITIAL && |ps| > 1 && ps[0].gap == [] && GoodDirective(ps, term)
    requires At(text, pos, FormText(ps[0].word)) && At(text, pos + |FormText(ps[0].word)|, DirectiveText(ps[1..], term))
    ensures at == pos + |FormText(ps[0].word)| && m.start <= at < |text| && text[at] == RPAREN
    ensures m.flags == CLOSED && |m.args| > 0 && Leads(text, pos, s, at - pos, m)
    ensures DirectiveToken(pos, s, ps, term) == DirectiveToken(at, m.(flags := INITIAL), ps[1..], term)
  {
    at := pos + |FormText(ps[0].word)|;
    assert DirectiveText(ps[1..], term)[0] == RPAREN;
    AtHead(text, at, DirectiveText(ps[1..], term));
    hide Leads, At, Lines, Values, FormText, DirectiveToken, DirectiveText;
    m := FormEnds(text, pos, s, ps[0].word);
    assert Lines(ps[0].gap) == 0 by {
      assert Lines([]) == 0;
    }
    TokenOfMore(pos, s, ps, term, at, m.(flags := INITIAL));
  }

  lemma NoneReads(text: seq<Byte>, pos: nat, s: Scan, term: Byte)
    requires s.start <= pos && s.flags == INITIAL && |s.args| > 0 && (term == SEMICOLON || term == LBRACE)
    requires At(text, pos, [term])
    ensures ReadsTo(text, pos, s, pos, s, DirectiveToken(pos, s, [], term))
  {
    TermIsRead(text, pos, s, term);
    TokenOfNone(pos, s, term);
  }

  lemma ReadsOn(text: seq<Byte>, pos: nat, s: Scan, n: nat, at: nat, m: Scan, end: nat, s': Scan, t: Token)
    requires at == pos + n && Leads(text, pos, s, n, m) && ReadsTo(text, at, m, end, s', t)
    ensures ReadsTo(text, pos, s, end, s', t)
  {
    LeadsTrans(text, pos, s, n, m, end - at, s');
  }

  /** A word with blank space after it, and where the rest of the directive starts. */
  lemma FirstPieceLeads(text: seq<Byte>, pos: nat, s: Scan, ps: seq<Piece>, term: Byte) returns (at: nat, m: Scan)
    requires s.start <= pos && s.flags == INITIAL && ps != [] && ps[0].gap != [] && GoodDirective(ps, term)
    requires At(text, pos, FormText(ps[0].word)) && At(text, pos + |FormText(ps[0].word)|, ps[0].gap)
    ensures at == pos + |FormText(ps[0].word)| + |ps[0].gap| && m.start <= at && m.flags == INITIAL && |m.args| > 0
    ensures Leads(text, pos, s, at - pos, m)
    ensures DirectiveToken(pos, s, ps, term) == DirectiveToken(at, m, ps[1..], term)
  {
    hide Leads, At, Lines, Values, FormText, DirectiveToken, DirectiveText;
    var n := |FormText(ps[0].word)| + |ps[0].gap|;
    at := pos + n;
    m := PieceLeads(text, pos, s, ps[0]);
    assert Leads(text, pos, s, n, m);
    LeadsStart(text, pos, s, n, m);
    TokenOfMore(pos, s, ps, term, at, m);
  }

  lemma AtThree(text: seq<Byte>, pos: nat, a: seq<Byte>, g: seq<Byte>, rest: seq<Byte>)
    requires At(text, pos, a + (g + rest))
    ensures At(text, pos, a) && At(text, pos + |a|, g) && At(text, pos + |a| + |g|, rest)
  {
    AtSplit(text, pos, a, g + rest);
    AtSplit(text, pos + |a|, g, rest);
  }

  lemma PartsOfDirective(text: seq<Byte>, pos: nat, ps: seq<Piece>, term: Byte)
    requires ps != [] && At(text, pos, DirectiveText(ps, term))
    ensures At(text, pos, FormText(ps[0].word)) && At(text, pos + |FormText(ps[0].word)|, ps[0].gap)
    ensures At(text, pos + |FormText(ps[0].word)| + |ps[0].gap|, DirectiveText(ps[1..], term))
  {
    hide At, FormText;
    AtThree(text, pos, FormText(ps[0].word), ps[0].gap, DirectiveText(ps[1..], term));
  }

  /** Reading a directive leads to its terminator, which ends the call as it should. */
  lemma {:induction false} DirectiveReads(text: seq<Byte>, pos: nat, s: Scan, ps: seq<Piece>, term: Byte)
    returns (end: nat, s': Scan)
    requires s.start <= pos && s.flags == INITIAL && |s.args| + |ps| > 0
    requires GoodDirective(ps, term) && At(text, pos, DirectiveText(ps, term))
    ensures ReadsTo(text, pos, s, end, s', DirectiveToken(pos, s, ps, term))
    decreases |ps|
  {
    hide Leads, At, Gap, ReadsTo, Lines, Values, FormText, DirectiveToken;
    if ps == [] {
      end, s' := pos, s;
      NoneReads(text, pos, s, term);
    } else {
      PartsOfDirective(text, pos, ps, term);
      if ps[0].gap == [] && |ps| == 1 {
        end, s' := LastReads(text, pos, s, ps, term);
      } else if ps[0].gap == [] {
        var at, m := ParenPieceLeads(text, pos, s, ps, term);
        end, s' := DirectiveReads(text, at, m.(flags := INITIAL), ps[1..], term);
        ParenReads(text, at, m, end, s', DirectiveToken(pos, s, ps, term));
        ReadsOn(text, pos, s, at - pos, at, m, end, s', DirectiveToken(pos, s, ps, term));
      } else {
        var at, m := FirstPieceLeads(text, pos, s, ps, term);
        end, s' := DirectiveReads(text, at, m, ps[1..], term);
        ReadsOn(text, pos, s, at - pos, at, m, end, s', DirectiveToken(at, m, ps[1..], term));
      }
    }
  }

  lemma ReadsWhole(text: seq<Byte>, pos: nat, s: Scan, end: nat, s': Scan, t: Token)
    requires ReadsTo(text, pos, s, end, s', t)
    ensures s.start <= pos <= |text| && Whole(text, pos, s) == t
  {
    LeadsWhole(text, pos, s, end - pos, s');
  }

  /**
    Every directive of the grammar, after any blank space and comments, is read back:
    its words, unescaped, the code of its terminator, and the line reached; reading
    stops right after the terminator.
  */
  lemma DirectiveIsRead(text: seq<Byte>, pos: nat, line: nat, lead: seq<Byte>, ps: seq<Piece>, term: Byte)
    requires Gap(lead, false) && ps != [] && GoodDirective(ps, term)
    requires At(text, pos, lead + DirectiveText(ps, term))
    ensures pos <= |text|
    ensures WholeToken(text, pos, line) ==
            Token(TermCode(term), Values(ps), pos + |lead| + |DirectiveText(ps, term)|,
                  line + Lines(lead) + Lines(DirectiveText(ps, term)))
  {
    hide Leads, At, Gap, GoodDirective, Whole, ReadsTo, Lines, Values, DirectiveText;
    AtSplit(text, pos, lead, DirectiveText(ps, term));
    var s := Begin(pos, line);
    var m := GapLeads(text, pos, s, lead, false);
    LeadsStart(text, pos, s, |lead|, m);
    var at := pos + |lead|;
    var end, m' := DirectiveReads(text, at, m, ps, term);
    var t := DirectiveToken(at, m, ps, term);
    ReadsOn(text, pos, s, |lead|, at, m, end, m', t);
    ReadsWhole(text, pos, s, end, m', t);
    assert [] + Values(ps) == Values(ps);
  }

  // --------------------------------------- nothing else is a directive

  predicate IsDirectiveCode(c: Code) {
    c == Ok || c == BlockStart
  }

  lemma {:induction false} AtJoin(text: seq<Byte>, pos: nat, a: seq<Byte>, b: seq<Byte>)
    requires At(text, pos, a) && At(text, pos + |a|, b)
    ensures At(text, pos, a + b)
    decreases |a|
  {
    if a == [] {
      assert a + b == b;
    } else {
      assert (a + b)[1..] == a[1..] + b;
      AtJoin(text, pos + 1, a[1..], b);
    }
  }

  lemma AtOne(text: seq<Byte>, pos: nat)
    requires pos < |text|
    ensures At(text, pos, [text[pos]])
  {
    assert At(text, pos + 1, [text[pos]][1..]);
  }

  lemma AtCons(text: seq<Byte>, pos: nat, rest: seq<Byte>) returns (part: seq<Byte>)
    requires pos < |text| && At(text, pos + 1, rest)
    ensures part == [text[pos]] + rest && part[1..] == rest && At(text, pos, part)
  {
    part := [text[pos]] + rest;
    assert part[1..] == rest;
  }

  /** Blank space and comments, the last of which may have no end of line. */
  predicate OpenGap(g: seq<Byte>, inComment: bool) {
    if g == [] then true
    else if inComment then OpenGap(g[1..], g[0] != 10)
    else if IsBlank(g[0]) then OpenGap(g[1..], false)
    else g[0] == 35 && OpenGap(g[1..], true)
  }

  /** Blank space and comments go on to the end of the file or to a character of another kind. */
  lemma {:induction false} GapFound(text: seq<Byte>, pos: nat, s: Scan, inComment: bool) returns (g: seq<Byte>, m: Scan)
    requires s.start <= pos <= |text| && s.flags == INITIAL.(comment := inComment)
    ensures At(text, pos, g) && Leads(text, pos, s, |g|, m) && m.args == s.args && m.flags.lastSpace
    ensures m.start <= pos + |g| <= |text|
    ensures pos + |g| == |text| ==> OpenGap(g, inComment)
    ensures pos + |g| < |text| ==> Gap(g, inComment) && m.flags == INITIAL
    ensures pos + |g| < |text| ==> !IsSpace(text[pos + |g|]) && text[pos + |g|] != SHARP
    decreases |text| - pos
  {
    if pos == |text| || (!inComment && !IsSpace(text[pos]) && text[pos] != SHARP) {
      g, m := [], s;
    } else {
      var c := if inComment then text[pos] != LF else text[pos] == SHARP;
      g, m := GapFound(text, pos + 1, Step(text, pos, s), c);
      g := AtCons(text, pos, g);
    }
  }

  /** A step that does not end the call keeps what it gives; inside a word the file has not ended. */
  lemma StepInWord(text: seq<Byte>, pos: nat, s: Scan)
    requires s.start <= pos < |text| && Ends(text, pos, s).None? && IsDirectiveCode(Whole(text, pos, s).code)
    ensures Whole(text, pos, s) == Whole(text, pos + 1, Step(text, pos, s))
    ensures !Step(text, pos, s).flags.lastSpace ==> pos + 1 < |text|
  {
  }

  lemma GoesOn(text: seq<Byte>, pos: nat, s: Scan)
    requires s.start <= pos <= |text| && !s.flags.lastSpace && IsDirectiveCode(Whole(text, pos, s).code)
    ensures pos < |text| && At(text, pos, [])
  {
  }

  lemma EscapeFound(text: seq<Byte>, pos: nat, s: Scan, q: Byte, v: bool) returns (m: Scan)
    requires s.start <= pos < |text| && s.flags == InsideFlags(q, v) && text[pos] == BACKSLASH
    requires IsDirectiveCode(Whole(text, pos, s).code)
    ensures pos + 2 <= |text| && m.start <= pos + 2 && m.flags == InsideFlags(q, false)
    ensures Whole(text, pos, s) == Whole(text, pos + 2, m)
  {
    StepInWord(text, pos, s);
    m := EscapeLeads(text, pos, s, q, v);
    LeadsWhole(text, pos, s, 2, m);
  }

  lemma AtTwo(text: seq<Byte>, pos: nat, rest: seq<Byte>) returns (part: seq<Byte>)
    requires pos + 1 < |text| && At(text, pos + 2, rest)
    ensures |part| == |rest| + 2 && part[0] == text[pos] && part[1] == text[pos + 1] && part[2..] == rest
    ensures At(text, pos, part)
  {
    var one := AtCons(text, pos + 1, rest);
    part := AtCons(text, pos, one);
    assert part[2..] == part[1..][1..];
  }

  /** A call that gives a directive goes on to the closing quote. */
  lemma {:induction false} QuotedFound(text: seq<Byte>, pos: nat, s: Scan, q: Byte, v: bool) returns (raw: seq<Byte>)
    requires s.start <= pos <= |text| && s.flags == InsideFlags(q, v) && (q == DQUOTE || q == SQUOTE)
    requires IsDirectiveCode(Whole(text, pos, s).code)
    ensures At(text, pos, raw) && QuotedBody(raw, q) && pos + |raw| < |text| && text[pos + |raw|] == q
    decreases |text| - pos
  {
    hide Whole, Next, At, Leads;
    GoesOn(text, pos, s);
    if text[pos] == q {
      raw := [];
    } else if text[pos] == BACKSLASH {
      var m := EscapeFound(text, pos, s, q, v);
      raw := QuotedFound(text, pos + 2, m, q, false);
      raw := AtTwo(text, pos, raw);
    } else {
      var m, v0 := InsideLeads(text, pos, s, q, v);
      LeadsWhole(text, pos, s, 1, m);
      raw := QuotedFound(text, pos + 1, m, q, v0);
      raw := AtCons(text, pos, raw);
    }
  }

  /** A call that gives a directive goes on to the end of the word. */
  lemma {:induction false} BareFound(text: seq<Byte>, pos: nat, s: Scan, v: bool) returns (raw: seq<Byte>)
    requires s.start <= pos <= |text| && s.flags == InsideFlags(0, v)
    requires IsDirectiveCode(Whole(text, pos, s).code)
    ensures At(text, pos, raw) && BareRest(raw, v) && pos + |raw| < |text|
    ensures EndsBare(text[pos + |raw|], EndsInVariable(raw, v))
    decreases |text| - pos
  {
    hide Whole, Next, At, Leads;
    GoesOn(text, pos, s);
    if EndsBare(text[pos], v) {
      raw := [];
    } else if text[pos] == BACKSLASH {
      var m := EscapeFound(text, pos, s, 0, v);
      raw := BareFound(text, pos + 2, m, false);
      raw := AtTwo(text, pos, raw);
    } else {
      var m, v0 := InsideLeads(text, pos, s, 0, v);
      LeadsWhole(text, pos, s, 1, m);
      raw := BareFound(text, pos + 1, m, v0);
      raw := AtCons(text, pos, raw);
    }
  }

  /** The word that starts at a character of no special meaning. */
  lemma BareWordFound(text: seq<Byte>, pos: nat, s: Scan) returns (w: Form)
    requires s.start <= pos < |text| && s.flags == INITIAL && !Special(text[pos])
    requires IsDirectiveCode(Whole(text, pos, s).code)
    ensures GoodForm(w) && w.Bare? && At(text, pos, FormText(w)) && pos + |FormText(w)| < |text|
    ensures EndsBare(text[pos + |FormText(w)|], EndsInVariable(w.raw, false))
  {
    var m := Step(text, pos, s);
    var raw;
    StepInWord(text, pos, s);
    hide At;
    if text[pos] == BACKSLASH {
      var m' := Step(text, pos + 1, m);
      StepInWord(text, pos + 1, m);
      assert m' == Scan(InsideFlags(0, false), pos, m.startLine, LineAfter(m.line, text[pos + 1]), s.args);
      raw := BareFound(text, pos + 2, m', false);
      raw := AtTwo(text, pos, raw);
    } else {
      assert m.flags == InsideFlags(0, text[pos] == DOLLAR);
      raw := BareFound(text, pos + 1, m, text[pos] == DOLLAR);
      raw := AtCons(text, pos, raw);
    }
    w := Bare(raw);
  }

  /** What may come right after a word. */
  predicate EndsForm(w: Form, c: Byte) {
    match w
    case Bare(raw) => EndsBare(c, EndsInVariable(raw, false))
    case Quoted(_, _) => IsBlank(c) || c == 59 || c == 123 || c == 41
  }

  lemma ClosedFound(text: seq<Byte>, at: nat, s: Scan)
    requires s.start <= at <= |text| && s.flags == CLOSED && |s.args| > 0 && IsDirectiveCode(Whole(text, at, s).code)
    ensures at < |text| && (IsSpace(text[at]) || text[at] in {SEMICOLON, LBRACE, RPAREN})
  {
  }

  lemma AtQuoted(text: seq<Byte>, pos: nat, raw: seq<Byte>, q: Byte)
    requires pos < |text| && text[pos] == q && At(text, pos + 1, raw)
    requires pos + 1 + |raw| < |text| && text[pos + 1 + |raw|] == q
    ensures At(text, pos, [q] + raw + [q])
  {
    AtOne(text, pos + 1 + |raw|);
    AtJoin(text, pos + 1, raw, [q]);
    var full := AtCons(text, pos, raw + [q]);
    assert full == [q] + raw + [q];
  }

  lemma QuotedWordFound(text: seq<Byte>, pos: nat, s: Scan) returns (w: Form)
    requires s.start <= pos < |text| && s.flags == INITIAL && (text[pos] == DQUOTE || text[pos] == SQUOTE)
    requires IsDirectiveCode(Whole(text, pos, s).code)
    ensures GoodForm(w) && w.Quoted? && At(text, pos, FormText(w)) && pos + |FormText(w)| < |text|
    ensures EndsForm(w, text[pos + |FormText(w)|])
  {
    hide Whole, Next, At, Leads, Unescape;
    var q := text[pos];
    var open := OpenLeads(text, pos, s, q);
    LeadsWhole(text, pos, s, 1, open);
    var raw := QuotedFound(text, pos + 1, open, q, false);
    w := Quoted(raw, q);
    AtQuoted(text, pos, raw, q);
    var m := FormLeads(text, pos, s, w);
    LeadsWhole(text, pos, s, |FormText(w)|, m);
    ClosedFound(text, pos + |FormText(w)|, m);
  }

  /** The pieces from a word on, given what follows the word. */
  lemma JoinPiece(text: seq<Byte>, pos: nat, p: Piece, ps: seq<Piece>, term: Byte) returns (r: seq<Piece>)
    requires At(text, pos, FormText(p.word)) && At(text, pos + |FormText(p.word)|, p.gap + DirectiveText(ps, term))
    ensures r == [p] + ps && r[1..] == ps && At(text, pos, DirectiveText(r, term))
  {
    r := [p] + ps;
    assert r[1..] == ps;
    AtJoin(text, pos, FormText(p.word), p.gap + DirectiveText(ps, term));
  }

  lemma FirstOf(a: seq<Byte>, b: seq<Byte>)
    ensures if a == [] then a + b == b else (a + b)[0] == a[0]
  {
  }

  lemma ParenIsBare(text: seq<Byte>, pos: nat, lead: seq<Byte>, ps: seq<Piece>, term: Byte)
    requires pos < |text| && text[pos] == RPAREN && Gap(lead, false) && GoodDirective(ps, term)
    requires At(text, pos, lead + DirectiveText(ps, term))
    ensures lead == [] && ps != [] && StartsWithParen(ps[0].word)
  {
    var all := lead + DirectiveText(ps, term);
    AtHead(text, pos, all);
    FirstOf(lead, DirectiveText(ps, term));
  }

  lemma ParenWhole(text: seq<Byte>, at: nat, s: Scan)
    requires s.start <= at < |text| && text[at] == RPAREN && s.flags == CLOSED
    ensures Whole(text, at, s) == Whole(text, at, s.(flags := INITIAL))
  {
    assert Step(text, at, s) == Step(text, at, s.(flags := INITIAL));
  }

  /** `lead` and a directive stand in the text at `pos`. */
  ghost predicate DirectiveAt(text: seq<Byte>, pos: nat, lead: seq<Byte>, ps: seq<Piece>, term: Byte) {
    Gap(lead, false) && GoodDirective(ps, term) && At(text, pos, lead + DirectiveText(ps, term))
  }

  lemma BraceCode(text: seq<Byte>, pos: nat, s: Scan)
    requires s.start <= pos < |text| && s.flags == INITIAL && IsDirectiveCode(Whole(text, pos, s).code)
    ensures text[pos] != RBRACE
  {
  }

  /** Blank space goes on with what follows it. */
  lemma SpacedGap(text: seq<Byte>, at: nat, lead: seq<Byte>, rest: seq<Byte>) returns (gap: seq<Byte>)
    requires at < |text| && IsSpace(text[at]) && Gap(lead, false) && At(text, at + 1, lead + rest)
    ensures gap != [] && IsSpace(gap[0]) && Gap(gap, false) && At(text, at, gap + rest)
  {
    gap := [text[at]] + lead;
    assert gap[1..] == lead;
    hide At, Gap;
    var all := AtCons(text, at, lead + rest);
    assert all == gap + rest;
  }

  lemma SpacedPiece(text: seq<Byte>, pos: nat, w: Form, at: nat, lead: seq<Byte>, rest: seq<Piece>, term: Byte)
    returns (ps: seq<Piece>)
    requires GoodForm(w) && At(text, pos, FormText(w)) && at == pos + |FormText(w)| < |text| && IsSpace(text[at])
    requires DirectiveAt(text, at + 1, lead, rest, term)
    ensures ps != [] && GoodDirective(ps, term) && At(text, pos, DirectiveText(ps, term))
  {
    hide At, FormText, DirectiveText, GoodForm, Gap;
    var gap := SpacedGap(text, at, lead, DirectiveText(rest, term));
    ps := JoinPiece(text, pos, Piece(w, gap), rest, term);
  }

  lemma ParenPiece(text: seq<Byte>, pos: nat, w: Form, at: nat, rest: seq<Piece>, term: Byte) returns (ps: seq<Piece>)
    requires GoodForm(w) && w.Quoted? && At(text, pos, FormText(w)) && at == pos + |FormText(w)|
    requires DirectiveAt(text, at, [], rest, term) && rest != [] && StartsWithParen(rest[0].word)
    ensures ps != [] && GoodDirective(ps, term) && At(text, pos, DirectiveText(ps, term))
  {
    ps := JoinPiece(text, pos, Piece(w, []), rest, term);
  }

  lemma LastPiece(text: seq<Byte>, pos: nat, w: Form, at: nat) returns (ps: seq<Piece>)
    requires GoodForm(w) && At(text, pos, FormText(w)) && at == pos + |FormText(w)| < |text|
    requires (text[at] == SEMICOLON || text[at] == LBRACE) && BeforeTerm(w, text[at])
    ensures ps != [] && GoodDirective(ps, text[at]) && At(text, pos, DirectiveText(ps, text[at]))
  {
    AtOne(text, at);
    assert [] + [text[at]] == [text[at]];
    ps := JoinPiece(text, pos, Piece(w, []), [], text[at]);
  }

  lemma {:induction false} WordsFound(text: seq<Byte>, pos: nat, s: Scan) returns (ps: seq<Piece>, term: Byte)
    requires s.start <= pos < |text| && s.flags == INITIAL && IsDirectiveCode(Whole(text, pos, s).code)
    requires !IsSpace(text[pos]) && text[pos] != SHARP && text[pos] != SEMICOLON && text[pos] != LBRACE
    ensures ps != [] && GoodDirective(ps, term) && At(text, pos, DirectiveText(ps, term))
    decreases |text| - pos, 0
  {
    hide Whole, Next, At, Leads, GoodDirective, DirectiveText, Unescape;
    BraceCode(text, pos, s);
    var w;
    if text[pos] == DQUOTE || text[pos] == SQUOTE {
      w := QuotedWordFound(text, pos, s);
    } else {
      w := BareWordFound(text, pos, s);
    }
    var at := pos + |FormText(w)|;
    assert at > pos;
    var m := FormEnds(text, pos, s, w);
    LeadsWhole(text, pos, s, |FormText(w)|, m);
    ps, term := PieceFound(text, pos, w, at, m, s.args + [Unescape(w.raw)]);
  }

  /** A call that gives a directive has read blank space, comments and a directive of the grammar. */
  lemma {:induction false} DirectiveFound(text: seq<Byte>, pos: nat, s: Scan)
    returns (lead: seq<Byte>, ps: seq<Piece>, term: Byte)
    requires s.start <= pos <= |text| && s.flags == INITIAL && IsDirectiveCode(Whole(text, pos, s).code)
    ensures DirectiveAt(text, pos, lead, ps, term) && |s.args| + |ps| > 0
    decreases |text| - pos, 1
  {
    var m;
    lead, m := GapFound(text, pos, s, false);
    LeadsWhole(text, pos, s, |lead|, m);
    var at := pos + |lead|;
    assert at < |text| && (text[at] == SEMICOLON || text[at] == LBRACE ==> |m.args| > 0);
    hide Whole, At, Gap;
    if text[at] == SEMICOLON || text[at] == LBRACE {
      ps, term := [], text[at];
      AtOne(text, at);
    } else {
      ps, term := WordsFound(text, at, m);
    }
    AtJoin(text, pos, lead, DirectiveText(ps, term));
  }

  lemma {:induction false} PieceFound(text: seq<Byte>, pos: nat, w: Form, at: nat, m: Scan, args: seq<seq<Byte>>)
    returns (ps: seq<Piece>, term: Byte)
    requires GoodForm(w) && At(text, pos, FormText(w)) && pos < at == pos + |FormText(w)| < |text|
    requires EndsForm(w, text[at]) && AtWordEnd(text, at, m, w, args) && IsDirectiveCode(Whole(text, at, m).code)
    ensures ps != [] && GoodDirective(ps, term) && At(text, pos, DirectiveText(ps, term))
    decreases |text| - at, 2
  {
    hide Whole, At, DirectiveText, FormText, Gap, GoodForm;
    var c := text[at];
    if IsSpace(c) {
      var m' := BlankAfterForm(text, at, m, w, args);
      LeadsWhole(text, at, m, 1, m');
      var lead, rest;
      lead, rest, term := DirectiveFound(text, at + 1, m');
      ps := SpacedPiece(text, pos, w, at, lead, rest, term);
    } else if c == RPAREN {
      ParenWhole(text, at, m);
      var lead, rest;
      lead, rest, term := DirectiveFound(text, at, m.(flags := INITIAL));
      ParenIsBare(text, at, lead, rest, term);
      ps := ParenPiece(text, pos, w, at, rest, term);
    } else {
      term := c;
      ps := LastPiece(text, pos, w, at);
    }
  }

  /** A call gives a directive exactly where one of the grammar stands, after blank space and comments. */
  lemma DirectiveIffRead(text: seq<Byte>, pos: nat, line: nat)
    requires pos <= |text|
    ensures IsDirectiveCode(WholeToken(text, pos, line).code) <==>
            exists lead, ps, term :: DirectiveAt(text, pos, lead, ps, term) && ps != []
  {
    if IsDirectiveCode(WholeToken(text, pos, line).code) {
      var lead, ps, term := DirectiveFound(text, pos, Begin(pos, line));
      assert DirectiveAt(text, pos, lead, ps, term) && ps != [];
    }
    if lead, ps, term :| DirectiveAt(text, pos, lead, ps, term) && ps != [] {
      DirectiveIsRead(text, pos, line, lead, ps, term);
    }
  }

  /** A word has been read or is being read. */
  ghost predicate Started(s: Scan) {
    |s.args| > 0 || (!s.flags.lastSpace && !s.flags.needSpace)
  }

  lemma {:induction false} StartedCode(text: seq<Byte>, pos: nat, s: Scan)
    requires s.start <= pos <= |text| && Started(s)
    ensures Whole(text, pos, s).code != FileDone && Whole(text, pos, s).code != BlockDone
    decreases |text| - pos
  {
    if pos < |text| && Ends(text, pos, s).None? {
      StartedCode(text, pos + 1, Step(text, pos, s));
    }
  }

  lemma {:induction false} GapToEnd(text: seq<Byte>, pos: nat, s: Scan, inComment: bool)
    requires s.start <= pos <= |text| && s.flags == INITIAL.(comment := inComment) && s.args == []
    requires OpenGap(text[pos..], inComment)
    ensures Whole(text, pos, s) == Token(FileDone, [], |text|, s.line + Lines(text[pos..]))
    decreases |text| - pos
  {
    if pos < |text| {
      assert text[pos..][1..] == text[pos + 1..];
      GapToEnd(text, pos + 1, Step(text, pos, s), if inComment then text[pos] != LF else text[pos] == SHARP);
    }
  }

  lemma BraceIsRead(text: seq<Byte>, pos: nat, line: nat, lead: seq<Byte>)
    requires Gap(lead, false) && At(text, pos, lead + [RBRACE])
    ensures pos <= |text|
    ensures WholeToken(text, pos, line) == Token(BlockDone, [], pos + |lead| + 1, line + Lines(lead))
  {
    AtSplit(text, pos, lead, [RBRACE]);
    AtHead(text, pos + |lead|, [RBRACE]);
    var m := GapLeads(text, pos, Begin(pos, line), lead, false);
    LeadsWhole(text, pos, Begin(pos, line), |lead|, m);
  }

  /** A character that is not blank and starts no comment ends no file, and only a closing brace ends a block. */
  lemma OtherCode(text: seq<Byte>, at: nat, s: Scan)
    requires s.start <= at < |text| && s.flags == INITIAL && !IsSpace(text[at]) && text[at] != SHARP
    ensures Whole(text, at, s).code != FileDone && (Whole(text, at, s).code == BlockDone ==> text[at] == RBRACE)
  {
    if Ends(text, at, s).None? {
      StartedCode(text, at + 1, Step(text, at, s));
    }
  }

  lemma EndCode(text: seq<Byte>, s: Scan)
    requires s.start <= |text| && s.flags.lastSpace && s.args == []
    ensures Whole(text, |text|, s).code == FileDone
  {
  }

  /** Where only blank space and comments are left, or a closing brace comes after them. */
  lemma DoneFound(text: seq<Byte>, pos: nat, line: nat) returns (lead: seq<Byte>)
    requires pos <= |text|
    ensures WholeToken(text, pos, line).code == FileDone ==> OpenGap(text[pos..], false)
    ensures WholeToken(text, pos, line).code == BlockDone ==> Gap(lead, false) && At(text, pos, lead + [RBRACE])
  {
    hide Whole, Next, At, Gap, OpenGap, Leads;
    var s := Begin(pos, line);
    var m;
    lead, m := GapFound(text, pos, s, false);
    LeadsWhole(text, pos, s, |lead|, m);
    var at := pos + |lead|;
    if at == |text| {
      EndCode(text, m);
      AtSlice(text, pos, lead);
      assert text[pos..] == lead;
    } else {
      OtherCode(text, at, m);
      if text[at] == RBRACE {
        AtOne(text, at);
        AtJoin(text, pos, lead, [RBRACE]);
      }
    }
  }

  /**
    The other two outcomes: the end of the file, when only blank space and comments are
    left, and the end of a block, when a closing brace comes after them.
  */
  lemma DoneIffRead(text: seq<Byte>, pos: nat, line: nat)
    requires pos <= |text|
    ensures WholeToken(text, pos, line).code == FileDone <==> OpenGap(text[pos..], false)
    ensures WholeToken(text, pos, line).code == FileDone ==>
              WholeToken(text, pos, line) == Token(FileDone, [], |text|, line + Lines(text[pos..]))
    ensures WholeToken(text, pos, line).code == BlockDone <==> exists lead :: Gap(lead, false) && At(text, pos, lead + [125])
    ensures forall lead :: Gap(lead, false) && At(text, pos, lead + [125]) ==>
              WholeToken(text, pos, line) == Token(BlockDone, [], pos + |lead| + 1, line + Lines(lead))
  {
    hide Gap, At, OpenGap, Whole, Lines;
    var found := DoneFound(text, pos, line);
    if OpenGap(text[pos..], false) {
      GapToEnd(text, pos, Begin(pos, line), false);
    }
    forall lead | Gap(lead, false) && At(text, pos, lead + [125])
      ensures WholeToken(text, pos, line) == Token(BlockDone, [], pos + |lead| + 1, line + Lines(lead))
    {
      BraceIsRead(text, pos, line, lead);
    }
  }

  /**
    What an error names: the character right before the place where reading stopped, or
    the end of the file.
  */
  lemma {:induction false} ErrorPlace(text: seq<Byte>, pos: nat, s: Scan)
    requires s.start <= pos <= |text|
    ensures var t := Whole(text, pos, s);
            && (t.code == Error(UnexpectedEnd) ==> t.pos == |text|)
            && (t.code.Error? && t.code.reason.Unexpected? ==> pos < t.pos && text[t.pos - 1] == t.code.reason.ch)
    decreases |text| - pos
  {
    if pos < |text| && Ends(text, pos, s).None? {
      ErrorPlace(text, pos + 1, Step(text, pos, s));
    }
  }

  // --------------------------------------------- quoting and reading back

  /** A string with its double quotes and backslashes escaped. */
  function Escape(w: seq<Byte>): seq<Byte> {
    if w == [] then []
    else (if w[0] == 34 || w[0] == 92 then [92, w[0]] else [w[0]]) + Escape(w[1..])
  }

  lemma {:induction false} EscapeIsBody(w: seq<Byte>)
    ensures QuotedBody(Escape(w), DQUOTE) && Unescape(Escape(w)) == w
  {
    if w != [] {
      EscapeIsBody(w[1..]);
      var e := Escape(w);
      if w[0] == DQUOTE || w[0] == BACKSLASH {
        assert e[2..] == Escape(w[1..]) && e[0] == BACKSLASH && e[1] == w[0];
      } else {
        assert e[1..] == Escape(w[1..]) && e[0] == w[0];
      }
    }
  }

  /** Strings in double quotes, one blank between them. */
  function QuotePieces(ws: seq<seq<Byte>>): seq<Piece> {
    if ws == [] then []
    else [Piece(Quoted(Escape(ws[0]), 34), if |ws| == 1 then [] else [32])] + QuotePieces(ws[1..])
  }

  /** A list of strings written as a directive. */
  function Quote(ws: seq<seq<Byte>>): seq<Byte> {
    DirectiveText(QuotePieces(ws), 59)
  }

  lemma {:induction false} QuoteIsDirective(ws: seq<seq<Byte>>)
    ensures |QuotePieces(ws)| == |ws| && GoodDirective(QuotePieces(ws), SEMICOLON) && Values(QuotePieces(ws)) == ws
  {
    if ws != [] {
      EscapeIsBody(ws[0]);
      QuoteIsDirective(ws[1..]);
      var ps := QuotePieces(ws);
      assert ps[1..] == QuotePieces(ws[1..]);
      assert Gap([BLANK], false) by {
        assert [BLANK][1..] == [];
      }
    }
  }

  /** Any non-empty list of strings, written in quotes anywhere in a file, is read back as that list. */
  lemma QuoteRoundTrip(text: seq<Byte>, pos: nat, line: nat, ws: seq<seq<Byte>>)
    requires ws != [] && At(text, pos, Quote(ws))
    ensures pos <= |text|
    ensures WholeToken(text, pos, line) == Token(Ok, ws, pos + |Quote(ws)|, line + Lines(Quote(ws)))
  {
    QuoteIsDirective(ws);
    assert [] + Quote(ws) == Quote(ws);
    DirectiveIsRead(text, pos, line, [], QuotePieces(ws), SEMICOLON);
  }

  /**
    The strings are short enough for the buffer, each with its escapes: with the
    closing quote and the blank a string leaves room for the next opening quote, or
    with the closing quote for the terminator.
  */
  predicate FitBuffer(ws: seq<seq<Byte>>) {
    ws == [] || (|Escape(ws[0])| + (if |ws| == 1 then 2 else 3) <= 4096 && FitBuffer(ws[1..]))
  }

  /** A span that has filled the buffer before a character. */
  lemma Full(text: seq<Byte>, at: nat, s: Scan)
    requires s.start + BUFFER <= at < |text|
    ensures !NeverFull(text, at, s)
  {
  }

  lemma CloseFits(text: seq<Byte>, at: nat, s: Scan)
    requires s.start <= at && s.flags == CLOSED && At(text, at, [SEMICOLON])
    ensures at <= |text| && (NeverFull(text, at, s) <==> at - s.start < BUFFER)
  {
    AtHead(text, at, [SEMICOLON]);
  }

  lemma BlankFits(text: seq<Byte>, at: nat, s: Scan) returns (s': Scan)
    requires s.start <= at && s.flags == CLOSED && At(text, at, [BLANK])
    ensures s'.flags == INITIAL && s'.start == s.start && at < |text|
    ensures NeverFull(text, at, s) <==> NeverFull(text, at + 1, s') && at - s.start < BUFFER
  {
    AtHead(text, at, [BLANK]);
    s' := Step(text, at, s);
  }

  /** A word in quotes, up to and including its closing quote. */
  lemma WordFits(text: seq<Byte>, pos: nat, s: Scan, raw: seq<Byte>) returns (s': Scan)
    requires s.start <= pos && s.flags == INITIAL && QuotedBody(raw, DQUOTE) && At(text, pos, [DQUOTE] + raw + [DQUOTE])
    requires pos + 1 <= s.start + BUFFER && pos + |raw| + 2 < |text|
    ensures s'.flags == CLOSED && s'.start == pos + 1
    ensures NeverFull(text, pos, s) <==> NeverFull(text, pos + |raw| + 2, s')
  {
    var open;
    open, s' := QuotedWordLeads(text, pos, s, raw, DQUOTE);
    LeadsNeverFull(text, pos, s, 1, open);
    LeadsNeverFull(text, pos + 1, open, |raw| + 1, s');
    if |raw| + 1 >= BUFFER {
      Full(text, pos + |raw| + 2, s');
    }
  }

  lemma QuoteParts(text: seq<Byte>, pos: nat, ws: seq<seq<Byte>>, raw: seq<Byte>, at: nat)
    requires ws != [] && raw == Escape(ws[0]) && at == pos + |raw| + 2 && At(text, pos, Quote(ws))
    ensures At(text, pos, [DQUOTE] + raw + [DQUOTE])
    ensures |ws| == 1 ==> At(text, at, [SEMICOLON])
    ensures |ws| > 1 ==> At(text, at, [BLANK]) && At(text, at + 1, Quote(ws[1..]))
  {
    hide At, Escape;
    var ps := QuotePieces(ws);
    assert ps[1..] == QuotePieces(ws[1..]);
    PartsOfDirective(text, pos, ps, SEMICOLON);
  }

  lemma QuoteStarts(text: seq<Byte>, pos: nat, ws: seq<seq<Byte>>)
    requires ws != [] && At(text, pos, Quote(ws))
    ensures pos < |text|
  {
  }

  lemma {:induction false} QuoteFits(text: seq<Byte>, pos: nat, s: Scan, ws: seq<seq<Byte>>)
    requires ws != [] && At(text, pos, Quote(ws))
    requires s.start <= pos && s.flags == INITIAL && pos + 1 <= s.start + BUFFER
    ensures pos <= |text| && (NeverFull(text, pos, s) <==> FitBuffer(ws))
    decreases |ws|
  {
    hide NeverFull, Quote, QuotedBody, Unescape, Escape;
    var raw := Escape(ws[0]);
    var at := pos + |raw| + 2;
    EscapeIsBody(ws[0]);
    QuoteParts(text, pos, ws, raw, at);
    assert at < |text|;
    hide At;
    var s' := WordFits(text, pos, s, raw);
    if |ws| == 1 {
      CloseFits(text, at, s');
    } else {
      var m := BlankFits(text, at, s');
      QuoteStarts(text, at + 1, ws[1..]);
      if |raw| + 3 <= BUFFER {
        QuoteFits(text, at + 1, m, ws[1..]);
      } else {
        Full(text, at + 1, m);
      }
    }
  }

  /** The same through the buffer, wherever it was last filled up to, exactly when the strings fit. */
  lemma QuoteRoundTripBuffered(text: seq<Byte>, pos: nat, line: nat, filled: nat, ws: seq<seq<Byte>>)
    requires ws != [] && At(text, pos, Quote(ws))
    requires pos <= filled <= |text| && filled <= pos + BUFFER
    ensures var t := Buffered(text, pos, Begin(pos, line), filled).token;
            if FitBuffer(ws) then t == Token(Ok, ws, pos + |Quote(ws)|, line + Lines(Quote(ws)))
            else t.code == Error(TooLong)
  {
    QuoteRoundTrip(text, pos, line, ws);
    QuoteFits(text, pos, Begin(pos, line), ws);
    BufferedIsWhole(text, pos, Begin(pos, line), filled);
  }

  /** The state inside a comment that starts at offset 0. */
  const IN_COMMENT := Scan(INITIAL.(comment := true), 0, 1, 1, [])

  lemma {:induction false} CommentLeads(text: seq<Byte>, pos: nat, n: nat)
    requires pos + n <= |text| && forall k :: pos <= k < pos + n ==> text[k] != LF
    ensures Leads(text, pos, IN_COMMENT, n, IN_COMMENT)
    decreases n
  {
    if n > 0 {
      CommentLeads(text, pos + 1, n - 1);
    }
  }

  /**
    A file that is one comment line: the whole file has no directive, but through the
    buffer it is refused as soon as the line is longer than the buffer.
  */
  lemma LongCommentRefused(body: seq<Byte>)
    requires 10 !in body
    ensures var text := [35] + body + [10];
            && WholeToken(text, 0, 1) == Token(FileDone, [], |text|, 2)
            && (Buffered(text, 0, Begin(0, 1), 0).token == WholeToken(text, 0, 1) <==> |text| <= 4096)
            && (Buffered(text, 0, Begin(0, 1), 0).token.code == Error(TooLong) <==> |text| > 4096)
  {
    var text := [SHARP] + body + [LF];
    var at := 1 + |body|;
    LeadsOne(text, 0, Begin(0, 1));
    CommentLeads(text, 1, |body|);
    LeadsTrans(text, 0, Begin(0, 1), 1, IN_COMMENT, |body|, IN_COMMENT);
    LeadsWhole(text, 0, Begin(0, 1), at, IN_COMMENT);
    LeadsNeverFull(text, 0, Begin(0, 1), at, IN_COMMENT);
    assert NeverFull(text, at, IN_COMMENT) <==> at < BUFFER;
    BufferedIsWhole(text, 0, Begin(0, 1), 0);
  }
}
