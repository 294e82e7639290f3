/**
  Lines of a configuration file, written out: words, bare or in quotes, with blank space
  between them, and the byte that ends the line.  Every such line is read back.
*/
module ConfWords {
  import opened Bytes
  import opened ConfToken

  /** A word, how it is written, and the blank space after it. */
  datatype Item = Item(word: seq<Byte>, quoted: bool, gap: seq<Byte>)

  /** A word that can be written as it is. */
  predicate PlainWord(w: seq<Byte>) {
    && w != [] && w[0] !in {34, 35, 39, 125}
    && forall i :: 0 <= i < |w| ==> w[i] !in {9, 10, 13, 32, 36, 59, 92, 123}
  }

  predicate BlankRun(g: seq<Byte>) {
    forall i :: 0 <= i < |g| ==> g[i] in {9, 10, 13, 32}
  }

  /** Words have blank space between them; the last may be followed by the end at once. */
  predicate GoodLine(items: seq<Item>) {
    forall i :: 0 <= i < |items| ==>
      && (items[i].quoted || PlainWord(items[i].word))
      && BlankRun(items[i].gap) && (items[i].gap != [] || i == |items| - 1)
  }

  function WordText(x: Item): seq<Byte> {
    if x.quoted then [34] + Escape(x.word) + [34] else x.word
  }

  function LineText(items: seq<Item>, term: Byte): seq<Byte> {
    if items == [] then [term] else WordText(items[0]) + (items[0].gap + LineText(items[1..], term))
  }

  function Words(items: seq<Item>): (r: seq<seq<Byte>>)
    ensures |r| == |items| && forall i :: 0 <= i < |items| ==> r[i] == items[i].word
  {
    seq(|items|, i requires 0 <= i < |items| => items[i].word)
  }

  // ------------------------------------------------ the line as a directive

  function FormOf(x: Item): Form {
    if x.quoted then Quoted(Escape(x.word), 34) else Bare(x.word)
  }

  function PiecesOf(items: seq<Item>): (r: seq<Piece>)
    ensures |r| == |items|
  {
    if items == [] then [] else [Piece(FormOf(items[0]), items[0].gap)] + PiecesOf(items[1..])
  }

  lemma {:induction false} PlainIsBare(w: seq<Byte>)
    requires forall i :: 0 <= i < |w| ==> w[i] !in {9, 10, 13, 32, 36, 59, 92, 123}
    ensures BareRest(w, false) && !EndsInVariable(w, false) && Unescape(w) == w
    decreases |w|
  {
    if w != [] {
      assert forall i :: 0 <= i < |w[1..]| ==> w[1..][i] == w[i + 1];
      PlainIsBare(w[1..]);
      assert w == [w[0]] + w[1..];
    }
  }

  lemma {:induction false} BlankIsGap(g: seq<Byte>)
    requires BlankRun(g)
    ensures Gap(g, false)
  {
    if g != [] {
      assert forall i :: 0 <= i < |g[1..]| ==> g[1..][i] == g[i + 1];
      assert g[0] in {9, 10, 13, 32};
      BlankIsGap(g[1..]);
    }
  }

  lemma FormIsGood(x: Item)
    requires x.quoted || PlainWord(x.word)
    ensures GoodForm(FormOf(x)) && Unescape(FormOf(x).raw) == x.word && FormText(FormOf(x)) == WordText(x)
    ensures FormOf(x).Bare? ==> !EndsInVariable(x.word, false)
  {
    if x.quoted {
      EscapeIsBody(x.word);
    } else {
      PlainIsBare(x.word);
      assert x.word[0] !in {9, 10, 13, 32, 36, 59, 92, 123};
    }
  }

  lemma GoodRest(items: seq<Item>)
    requires items != [] && GoodLine(items)
    ensures GoodLine(items[1..]) && (items[0].quoted || PlainWord(items[0].word))
    ensures BlankRun(items[0].gap) && (items[0].gap != [] || |items| == 1)
    ensures Words(items) == [items[0].word] + Words(items[1..])
  {
    assert forall i :: 0 <= i < |items[1..]| ==> items[1..][i] == items[i + 1];
  }

  lemma {:induction false} LineIsDirective(items: seq<Item>, term: Byte)
    requires GoodLine(items) && (term == 59 || term == 123)
    ensures GoodDirective(PiecesOf(items), term) && DirectiveText(PiecesOf(items), term) == LineText(items, term)
    ensures Values(PiecesOf(items)) == Words(items)
    decreases |items|
  {
    if items != [] {
      GoodRest(items);
      LineIsDirective(items[1..], term);
      FormIsGood(items[0]);
      BlankIsGap(items[0].gap);
      var ps := PiecesOf(items);
      assert ps[1..] == PiecesOf(items[1..]) && ps[0] == Piece(FormOf(items[0]), items[0].gap);
      assert items[0].gap != [] ==> items[0].gap[0] in {9, 10, 13, 32};
    }
  }

  lemma {:induction false} LinesAreCounted(s: seq<Byte>)
    ensures Lines(s) == multiset(s)[10]
  {
    if s != [] {
      assert s == [s[0]] + s[1..];
      LinesAreCounted(s[1..]);
    }
  }

  lemma {:induction false} SliceIsAt(text: seq<Byte>, pos: nat, part: seq<Byte>)
    requires pos + |part| <= |text| && text[pos..pos + |part|] == part
    ensures At(text, pos, part)
    decreases |part|
  {
    if part != [] {
      assert text[pos] == part[0];
      assert text[pos + 1..pos + 1 + |part[1..]|] == part[1..];
      SliceIsAt(text, pos + 1, part[1..]);
    }
  }

  /**
    The words of the line, its end, the place right after it, and the line feeds in it:
    59 is ";" and ends a directive, 123 is "{" and starts a block.
  */
  lemma LineIsRead(text: seq<Byte>, pos: nat, line: nat, lead: seq<Byte>, items: seq<Item>, term: Byte)
    requires BlankRun(lead) && items != [] && GoodLine(items) && (term == 59 || term == 123)
    requires var t := lead + LineText(items, term); pos + |t| <= |text| && text[pos..pos + |t|] == t
    ensures var t := lead + LineText(items, term);
            WholeToken(text, pos, line) ==
            Token(if term == 123 then BlockStart else Ok, Words(items), pos + |t|, line + multiset(t)[10])
  {
    hide GoodLine, At, Gap, GoodDirective, Whole, Lines, Values;
    BlankIsGap(lead);
    LineIsDirective(items, term);
    SliceIsAt(text, pos, lead + LineText(items, term));
    DirectiveIsRead(text, pos, line, lead, PiecesOf(items), term);
    LinesAreCounted(lead);
    LinesAreCounted(LineText(items, term));
  }

  /** The escape sequences, one by one; a backslash before any other byte stands for itself. */
  lemma EscapesAre(c: Byte, rest: seq<Byte>)
    ensures Unescape([92, c] + rest) ==
            (if c == 34 || c == 39 || c == 92 then [c] + Unescape(rest)
             else if c == 116 then [9] + Unescape(rest)
             else if c == 114 then [13] + Unescape(rest)
             else if c == 110 then [10] + Unescape(rest)
             else [92, c] + Unescape(rest))
    ensures Unescape([]) == [] && Unescape([92]) == [92] && (c != 92 ==> Unescape([c] + rest) == [c] + Unescape(rest))
  {
    var s := [92, c] + rest;
    assert s[2..] == rest && s[1..] == [c] + rest && ([c] + rest)[1..] == rest;
    assert [92, c] + Unescape(rest) == [92] + ([c] + Unescape(rest));
  }
}
