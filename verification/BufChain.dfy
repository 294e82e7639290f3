/**
  Chains of buffers (ngx_buf.c): accounting for what has been sent, recycling the
  buffers, and joining file ranges.

  A link of a chain is a number, NULL is -1, and every link has a buffer of its own.
*/
module BufChain {
  import opened Bytes
  import opened LinkedList

  /** ngx_buf_t; `fd` is the descriptor of its file. */
  datatype Buf = Buf(
    pos: int, last: int, filePos: int, fileLast: int, start: int, end: int, tag: int, fd: int,
    temporary: bool, memory: bool, mmap: bool, inFile: bool, flush: bool, sync: bool, lastBuf: bool)

  predicate InMemory(b: Buf) {
    b.temporary || b.memory || b.mmap
  }

  predicate Special(b: Buf) {
    (b.flush || b.lastBuf || b.sync) && !InMemory(b) && !b.inFile
  }

  function Size(b: Buf): int {
    if InMemory(b) then b.last - b.pos else b.fileLast - b.filePos
  }

  /** A buffer's size is not negative, and one that is neither in memory nor in a file is empty. */
  predicate WellFormed(b: Buf) {
    Size(b) >= 0 && (InMemory(b) || b.inFile || Size(b) == 0)
  }

  ghost predicate AllWellFormed(bs: seq<Buf>) {
    forall i :: 0 <= i < |bs| ==> WellFormed(bs[i])
  }

  // ---------------------------------------------------------------- sending

  /** All of a buffer has been sent. */
  function Emptied(b: Buf): Buf {
    b.(pos := if InMemory(b) then b.last else b.pos, filePos := if b.inFile then b.fileLast else b.filePos)
  }

  /** `n` bytes of a buffer have been sent. */
  function Advanced(b: Buf, n: int): Buf {
    b.(pos := if InMemory(b) then b.pos + n else b.pos, filePos := if b.inFile then b.filePos + n else b.filePos)
  }

  /** The buffers of a chain after `sent` bytes of them have been sent. */
  function AfterSent(bs: seq<Buf>, sent: int): (r: seq<Buf>)
    ensures |r| == |bs|
    decreases |bs|
  {
    if bs == [] then []
    else if Special(bs[0]) then [bs[0]] + AfterSent(bs[1..], sent)
    else if sent == 0 then bs
    else if sent >= Size(bs[0]) then [Emptied(bs[0])] + AfterSent(bs[1..], sent - Size(bs[0]))
    else [Advanced(bs[0], sent)] + bs[1..]
  }

  /** At which buffer of the chain sending goes on. */
  function SentUpTo(bs: seq<Buf>, sent: int): (k: nat)
    ensures k <= |bs|
    decreases |bs|
  {
    if bs == [] then 0
    else if Special(bs[0]) then 1 + SentUpTo(bs[1..], sent)
    else if sent == 0 then 0
    else if sent >= Size(bs[0]) then 1 + SentUpTo(bs[1..], sent - Size(bs[0]))
    else 0
  }

  /** The bytes of a chain. */
  function Total(bs: seq<Buf>): int {
    if bs == [] then 0 else (if Special(bs[0]) then 0 else Size(bs[0])) + Total(bs[1..])
  }

  lemma {:induction false} TotalNonNegative(bs: seq<Buf>)
    requires AllWellFormed(bs)
    ensures Total(bs) >= 0
  {
    if bs != [] {
      TotalNonNegative(bs[1..]);
    }
  }

  /** What is sent is what the chain gets shorter by. */
  lemma {:induction false} SentIsConserved(bs: seq<Buf>, sent: nat)
    requires AllWellFormed(bs)
    ensures AllWellFormed(AfterSent(bs, sent))
    ensures Total(AfterSent(bs, sent)) == Total(bs) - Least(sent, Total(bs))
    decreases |bs|
  {
    if bs != [] {
      TotalNonNegative(bs[1..]);
      var r := AfterSent(bs, sent);
      if Special(bs[0]) {
        SentIsConserved(bs[1..], sent);
        assert r[1..] == AfterSent(bs[1..], sent);
      } else if sent == 0 {
      } else if sent >= Size(bs[0]) {
        SentIsConserved(bs[1..], sent - Size(bs[0]));
        assert r[1..] == AfterSent(bs[1..], sent - Size(bs[0]));
      } else {
        assert r[1..] == bs[1..];
      }
    }
  }

  /** Before the place where sending goes on all is sent, and after it nothing has changed. */
  lemma {:induction false} SentPlace(bs: seq<Buf>, sent: nat, i: nat)
    requires AllWellFormed(bs) && i < |bs|
    ensures var k, r := SentUpTo(bs, sent), AfterSent(bs, sent);
            && (i < k && !Special(bs[i]) ==> r[i] == Emptied(bs[i]) && Size(r[i]) == 0)
            && (i < k && Special(bs[i]) ==> r[i] == bs[i])
            && (i == k ==> !Special(bs[i]) && exists n :: 0 <= n && n + Size(r[i]) == Size(bs[i]) && r[i] == Advanced(bs[i], n))
            && (i > k ==> r[i] == bs[i])
    decreases |bs|
  {
    var r := AfterSent(bs, sent);
    if Special(bs[0]) {
      assert r[1..] == AfterSent(bs[1..], sent);
      if i > 0 {
        SentPlace(bs[1..], sent, i - 1);
      }
    } else if sent == 0 {
      assert bs[0] == Advanced(bs[0], 0);
    } else if sent >= Size(bs[0]) {
      assert r[1..] == AfterSent(bs[1..], sent - Size(bs[0]));
      if i > 0 {
        SentPlace(bs[1..], sent - Size(bs[0]), i - 1);
      }
    } else {
      assert r[0] == Advanced(bs[0], sent) && Size(r[0]) == Size(bs[0]) - sent;
    }
  }

  // ------------------------------------------------- what is left to send

  /** One byte to send: where it is in memory, in the file, or in both. */
  datatype Unit = Unit(mem: Option<int>, file: Option<int>)

  /** The bytes of a buffer, in order. */
  ghost function Units(b: Buf): seq<Unit> {
    var inMem := b.temporary || b.memory || b.mmap;
    var n := if inMem then b.last - b.pos else if b.inFile then b.fileLast - b.filePos else 0;
    if n <= 0 then []
    else seq(n, i => Unit(if inMem then Some(b.pos + i) else None, if b.inFile then Some(b.filePos + i) else None))
  }

  ghost function Stream(bs: seq<Buf>): seq<Unit> {
    if bs == [] then [] else Units(bs[0]) + Stream(bs[1..])
  }

  /** A buffer without data that only marks a place. */
  ghost predicate Marker(b: Buf) {
    (b.flush || b.lastBuf || b.sync) && !b.temporary && !b.memory && !b.mmap && !b.inFile
  }

  lemma UnitsAre(b: Buf)
    requires WellFormed(b)
    ensures Special(b) <==> Marker(b)
    ensures |Units(b)| == Size(b) && Units(Emptied(b)) == []
  {
  }

  lemma UnitsMove(b: Buf, n: nat)
    requires WellFormed(b) && n <= Size(b)
    ensures Units(Advanced(b, n)) == Units(b)[n..]
  {
    var b' := Advanced(b, n);
    assert WellFormed(b') && Size(b') == Size(b) - n;
    UnitsAre(b);
    UnitsAre(b');
  }

  lemma DropIn(a: seq<Unit>, b: seq<Unit>, n: nat)
    requires n <= |a|
    ensures a[n..] + b == (a + b)[n..]
  {
  }

  lemma DropPast(a: seq<Unit>, b: seq<Unit>, n: nat)
    requires n <= |b|
    ensures b[n..] == (a + b)[|a| + n..]
  {
  }

  /** Sending takes away exactly the first bytes. */
  lemma {:induction false} SentIsDropped(bs: seq<Buf>, sent: nat)
    requires AllWellFormed(bs)
    ensures Stream(AfterSent(bs, sent)) == Stream(bs)[Least(sent, |Stream(bs)|)..]
    decreases |bs|
  {
    if bs != [] {
      var b, size := bs[0], Size(bs[0]);
      UnitsAre(b);
      UnitsMove(b, if sent <= size then sent else 0);
      hide Units, Special, Emptied, Advanced, Size, Marker, WellFormed;
      var r := AfterSent(bs, sent);
      if Special(b) {
        assert r[1..] == AfterSent(bs[1..], sent);
        SentIsDropped(bs[1..], sent);
        DropPast(Units(b), Stream(bs[1..]), Least(sent, |Stream(bs[1..])|));
      } else if sent == 0 {
      } else if sent >= size {
        assert r[1..] == AfterSent(bs[1..], sent - size);
        SentIsDropped(bs[1..], sent - size);
        DropPast(Units(b), Stream(bs[1..]), Least(sent - size, |Stream(bs[1..])|));
      } else {
        assert r[1..] == bs[1..];
        DropIn(Units(b), Stream(bs[1..]), sent);
      }
    }
  }

  /** How many bytes the buffers before number `i` have. */
  ghost function Before(bs: seq<Buf>, i: nat): nat
    requires i <= |bs|
  {
    if i == 0 then 0 else |Units(bs[0])| + Before(bs[1..], i - 1)
  }

  lemma BeforeStep(bs: seq<Buf>, i: nat)
    requires i < |bs| && AllWellFormed(bs)
    ensures AllWellFormed(bs[1..])
    ensures Before(bs, i) == if i == 0 then 0 else |Units(bs[0])| + Before(bs[1..], i - 1)
  {
  }

  /** Past buffer `i`, or at it, when the buffers before it have `before` bytes. */
  ghost predicate StopsAt(b: Buf, i: nat, k: nat, before: nat, sent: nat) {
    && (i < k ==> Marker(b) || (before < sent && before + |Units(b)| <= sent))
    && (i == k ==> !Marker(b) && (sent <= before || sent < before + |Units(b)|))
  }

  lemma StopsLater(b: Buf, i: nat, k: nat, before: nat, sent: nat, more: nat)
    requires StopsAt(b, i, k, before, sent)
    ensures StopsAt(b, i + 1, k + 1, before + more, sent + more)
  {
  }

  lemma StopsEarlier(b: Buf, i: nat, before: nat, sent: nat)
    requires i > 0
    ensures StopsAt(b, i, 0, before, sent)
  {
  }

  lemma StopsFirst(bs: seq<Buf>, sent: nat)
    requires bs != [] && AllWellFormed(bs)
    ensures StopsAt(bs[0], 0, SentUpTo(bs, sent), 0, sent)
  {
    UnitsAre(bs[0]);
  }

  lemma UpToStep(bs: seq<Buf>, sent: nat)
    requires bs != [] && AllWellFormed(bs)
    ensures var more := |Units(bs[0])|;
            || (more <= sent && SentUpTo(bs, sent) == 1 + SentUpTo(bs[1..], sent - more))
            || SentUpTo(bs, sent) == 0
  {
    UnitsAre(bs[0]);
  }

  /** Sending goes on after all markers, and after all buffers with nothing left while bytes remain to be counted. */
  lemma {:induction false} SentStops(bs: seq<Buf>, sent: nat, i: nat)
    requires AllWellFormed(bs) && i < |bs|
    ensures StopsAt(bs[i], i, SentUpTo(bs, sent), Before(bs, i), sent)
    decreases |bs|
  {
    hide *;
    StopsFirst(bs, sent);
    UpToStep(bs, sent);
    BeforeStep(bs, i);
    if i > 0 {
      var rest, more := bs[1..], |Units(bs[0])|;
      if SentUpTo(bs, sent) == 0 {
        StopsEarlier(bs[i], i, Before(bs, i), sent);
      } else {
        SentStops(rest, sent - more, i - 1);
        StopsLater(rest[i - 1], i - 1, SentUpTo(rest, sent - more), Before(rest, i - 1), sent - more, more);
      }
    }
  }

  /** Sending `a` bytes goes past a buffer. */
  predicate Passes(b: Buf, a: int) {
    Special(b) || (a > 0 && a >= Size(b))
  }

  /** The first buffer has been sent in part. */
  lemma PartlySent(bs: seq<Buf>, a: nat, b: nat)
    requires AllWellFormed(bs) && bs != [] && !Special(bs[0]) && 0 < a < Size(bs[0])
    ensures AfterSent(bs, a + b) == AfterSent(AfterSent(bs, a), b)
    ensures SentUpTo(bs, a + b) == SentUpTo(AfterSent(bs, a), b)
  {
    var r := AfterSent(bs, a);
    assert r[0] == Advanced(bs[0], a) && r[1..] == bs[1..];
    assert Size(r[0]) == Size(bs[0]) - a && !Special(r[0]);
    assert Emptied(r[0]) == Emptied(bs[0]) && Advanced(r[0], b) == Advanced(bs[0], a + b);
  }

  lemma StaysAtFirst(bs: seq<Buf>, a: nat, b: nat)
    requires AllWellFormed(bs) && (bs == [] || !Passes(bs[0], a))
    ensures SentUpTo(bs, a) == 0
    ensures AfterSent(bs, a + b) == AfterSent(AfterSent(bs, a), b)
    ensures SentUpTo(bs, a + b) == SentUpTo(AfterSent(bs, a), b)
  {
    if bs != [] && a > 0 {
      PartlySent(bs, a, b);
    }
  }

  lemma Split(x: Buf, r: seq<Buf>, k: nat)
    requires k <= |r|
    ensures ([x] + r)[..1 + k] == [x] + r[..k] && ([x] + r)[1 + k..] == r[k..]
  {
  }

  function LeftAfter(b: Buf, a: int): int {
    if Special(b) then a else a - Size(b)
  }

  lemma PassesOne(bs: seq<Buf>, a: int)
    requires bs != [] && Passes(bs[0], a)
    ensures AfterSent(bs, a) ==
            [if Special(bs[0]) then bs[0] else Emptied(bs[0])] + AfterSent(bs[1..], LeftAfter(bs[0], a))
    ensures SentUpTo(bs, a) == 1 + SentUpTo(bs[1..], LeftAfter(bs[0], a))
  {
  }

  lemma Prepend(x: Buf, a: seq<Buf>, b: seq<Buf>)
    ensures [x] + (a + b) == ([x] + a) + b
  {
  }

  /** Sending `a` bytes and then, from where that stopped, `b` bytes is sending `a + b` bytes. */
  lemma {:induction false} SendingComposes(bs: seq<Buf>, a: nat, b: nat)
    requires AllWellFormed(bs)
    ensures var k, r := SentUpTo(bs, a), AfterSent(bs, a);
            && AfterSent(bs, a + b) == r[..k] + AfterSent(r[k..], b)
            && SentUpTo(bs, a + b) == k + SentUpTo(r[k..], b)
    decreases |bs|
  {
    hide AfterSent, SentUpTo;
    var k, r := SentUpTo(bs, a), AfterSent(bs, a);
    if bs != [] && Passes(bs[0], a) {
      var left := LeftAfter(bs[0], a);
      SendingComposes(bs[1..], left, b);
      PassesOne(bs, a);
      PassesOne(bs, a + b);
      var k', r' := SentUpTo(bs[1..], left), AfterSent(bs[1..], left);
      var x := if Special(bs[0]) then bs[0] else Emptied(bs[0]);
      Split(x, r', k');
      Prepend(x, r'[..k'], AfterSent(r'[k'..], b));
    } else {
      StaysAtFirst(bs, a, b);
      assert r[..0] == [] && r[0..] == r && [] + AfterSent(r, b) == AfterSent(r, b);
    }
  }

  // ------------------------------------------------------ joining file ranges

  function Times(q: nat, page: nat): nat {
    q * page
  }

  /** Clearing the low bits of a position, for a page size that is a power of two. */
  function PageStart(x: nat, page: nat): nat
    requires page > 0
  {
    Times(x / page, page)
  }

  ghost predicate OnPage(x: int, page: nat) {
    exists q: nat :: x == Times(q, page)
  }

  /** The first page boundary at or after a position. */
  lemma NextPage(x: nat, page: nat)
    requires page > 0
    ensures var r := PageStart(x + page - 1, page); x <= r < x + page && OnPage(r, page)
  {
    var y := x + page - 1;
    assert y == page * (y / page) + y % page;
  }

  /** The first `k` buffers are one range of the file `fd`. */
  ghost predicate OneRange(bs: seq<Buf>, k: nat, fd: int) {
    k == 0 ||
    (&& k <= |bs| && OneRange(bs, k - 1, fd) && bs[k - 1].fd == fd
     && (k > 1 ==> bs[k - 1].inFile && bs[k - 1].filePos == bs[k - 2].fileLast))
  }

  lemma RangeOfOne(bs: seq<Buf>)
    requires bs != []
    ensures OneRange(bs, 1, bs[0].fd)
  {
  }

  lemma RangeLess(bs: seq<Buf>, k: nat, fd: int)
    requires OneRange(bs, k + 1, fd)
    ensures OneRange(bs, k, fd)
  {
  }

  lemma RangeMore(bs: seq<Buf>, k: nat, fd: int)
    requires OneRange(bs, k, fd) && 0 < k < |bs|
    ensures bs[k].inFile && bs[k].fd == fd && bs[k].filePos == bs[k - 1].fileLast ==> OneRange(bs, k + 1, fd)
  {
  }

  /** Where the first `k` buffers end. */
  ghost function EndAfter(bs: seq<Buf>, k: nat): int
    requires bs != [] && k <= |bs|
  {
    if k == 0 then bs[0].filePos else bs[k - 1].fileLast
  }

  /** The first multiple of the page size at or after a position. */
  ghost predicate IsNextPage(x: int, r: int, page: nat) {
    x <= r < x + page && exists q: nat :: r == Times(q, page)
  }

  lemma TimesNext(q: nat, page: nat)
    ensures Times(q + 1, page) == Times(q, page) + page
  {
  }

  lemma {:induction false} TimesApart(q: nat, q': nat, page: nat)
    ensures q < q' ==> Times(q, page) + page <= Times(q', page)
    decreases q'
  {
    hide Times;
    if q < q' {
      TimesNext(q' - 1, page);
      TimesApart(q, q' - 1, page);
    }
  }

  lemma NextPageUnique(x: int, r: int, r': int, page: nat)
    requires IsNextPage(x, r, page) && IsNextPage(x, r', page)
    ensures r == r'
  {
    var q: nat :| r == Times(q, page);
    var q': nat :| r' == Times(q', page);
    TimesApart(q, q', page);
    TimesApart(q', q, page);
  }

  /** The ranges of the first 1, 2, … buffers, up to `k - 1`, are below the limit. */
  ghost predicate BelowLimit(bs: seq<Buf>, limit: int, k: nat)
    requires bs != [] && k <= |bs|
  {
    forall j :: 0 < j < k ==> EndAfter(bs, j) - bs[0].filePos < limit
  }

  /** A range is cut at the page boundary `r` after the limit, if the file is long enough for that. */
  ghost predicate CutAt(limit: int, last: int, page: nat, end: int, r: int) {
    IsNextPage(limit, r, page) && end == if r <= last then r else limit
  }

  /**
    The range of `total` bytes from the start of the chain ends with buffer `k - 1`, and
    for a reason; or it is cut within buffer `k`, which reaches past the limit: at the next
    page boundary if the buffer reaches that far, else at the limit.
  */
  ghost predicate Coalesced(bs: seq<Buf>, limit: int, page: nat, k: nat, total: int, cut: bool)
    requires bs != [] && k <= |bs|
  {
    var first := bs[0].filePos;
    var end, most := first + total, first + limit;
    && OneRange(bs, k, bs[0].fd) && BelowLimit(bs, limit, k)
    && (!cut ==> k > 0 && end == EndAfter(bs, k) && total <= limit)
    && (!cut && k < |bs| ==> !bs[k].inFile || total >= limit || bs[k].fd != bs[0].fd || bs[k].filePos != end)
    && (cut ==>
          && k < |bs| && OneRange(bs, k + 1, bs[0].fd) && BelowLimit(bs, limit, k + 1) && bs[k].fileLast > most
          && exists r :: CutAt(most, bs[k].fileLast, page, end, r))
  }

  /** The loop has come to buffer `k`, with `total` bytes before it. */
  ghost predicate Joining(bs: seq<Buf>, limit: int, k: nat, total: int) {
    && k < |bs| && OneRange(bs, k + 1, bs[0].fd) && BelowLimit(bs, limit, k + 1)
    && 0 <= total <= limit && bs[k].filePos == bs[0].filePos + total && (k > 0 ==> EndAfter(bs, k) == bs[k].filePos)
  }

  lemma JoinStart(bs: seq<Buf>, limit: nat)
    requires bs != []
    ensures Joining(bs, limit, 0, 0)
  {
    RangeOfOne(bs);
  }

  lemma JoiningMeans(bs: seq<Buf>, limit: int, k: nat, total: int)
    requires Joining(bs, limit, k, total)
    ensures k < |bs| && 0 <= total <= limit && bs[k].filePos == bs[0].filePos + total
  {
  }

  lemma PageAfter(x: nat, r: nat, page: nat)
    requires page > 0 && r == PageStart(x + page - 1, page)
    ensures IsNextPage(x, r, page) && OnPage(r, page) && x <= r < x + page
  {
    NextPage(x, page);
  }

  lemma JoinCut(bs: seq<Buf>, limit: int, page: nat, k: nat, total: int, end: int, r: int)
    requires Joining(bs, limit, k, total) && bs[k].fileLast - bs[k].filePos > limit - total
    requires CutAt(bs[0].filePos + limit, bs[k].fileLast, page, bs[0].filePos + end, r)
    ensures Coalesced(bs, limit, page, k, end, true)
  {
    RangeLess(bs, k, bs[0].fd);
  }

  lemma JoinNext(bs: seq<Buf>, limit: int, page: nat, k: nat, total: int)
    requires Joining(bs, limit, k, total) && 0 <= bs[k].fileLast - bs[k].filePos <= limit - total
    ensures var more := total + (bs[k].fileLast - bs[k].filePos);
            if k + 1 < |bs| && bs[k + 1].inFile && more < limit && bs[k + 1].fd == bs[0].fd && bs[k + 1].filePos == bs[k].fileLast
            then Joining(bs, limit, k + 1, more) else Coalesced(bs, limit, page, k + 1, more, false)
  {
    if k + 1 < |bs| {
      RangeMore(bs, k + 1, bs[0].fd);
    }
    var more := total + (bs[k].fileLast - bs[k].filePos);
    assert EndAfter(bs, k + 1) == bs[0].filePos + more;
  }

  ghost predicate InOrder(bs: seq<Buf>) {
    forall i :: 0 <= i < |bs| ==> bs[i].filePos <= bs[i].fileLast
  }

  /** Every position of a range is in one of its buffers. */
  lemma {:induction false} RangeIsCovered(bs: seq<Buf>, k: nat, fd: int, x: int) returns (i: nat)
    requires InOrder(bs) && 0 < k <= |bs| && OneRange(bs, k, fd) && bs[0].filePos <= x < EndAfter(bs, k)
    ensures i < k && bs[i].fd == fd && bs[i].filePos <= x < bs[i].fileLast
    decreases k
  {
    if bs[k - 1].filePos <= x {
      i := k - 1;
    } else {
      i := RangeIsCovered(bs, k - 1, fd, x);
    }
  }

  /** Every buffer of a range is within it. */
  lemma {:induction false} RangeCovers(bs: seq<Buf>, k: nat, fd: int, i: nat)
    requires InOrder(bs) && i < k <= |bs| && OneRange(bs, k, fd)
    ensures bs[0].filePos <= bs[i].filePos && bs[i].fileLast <= EndAfter(bs, k)
    decreases k
  {
    if k > 1 {
      if i < k - 1 {
        RangeCovers(bs, k - 1, fd, i);
      } else {
        RangeCovers(bs, k - 1, fd, k - 2);
      }
    }
  }

  /** Each position of the range handed out is in a buffer of the chain, and of the same file. */
  lemma CoalescedIsRange(bs: seq<Buf>, limit: int, page: nat, k: nat, total: int, cut: bool, x: int) returns (i: nat)
    requires bs != [] && k <= |bs| && InOrder(bs) && Coalesced(bs, limit, page, k, total, cut)
    requires bs[0].filePos <= x < bs[0].filePos + total
    ensures i < |bs| && i <= k && bs[i].fd == bs[0].fd && bs[i].filePos <= x < bs[i].fileLast
  {
    i := RangeIsCovered(bs, if cut then k + 1 else k, bs[0].fd, x);
  }

  lemma {:induction false} SameFile(bs: seq<Buf>, k: nat, fd: int, j: nat)
    requires j < k <= |bs| && OneRange(bs, k, fd)
    ensures bs[j].fd == fd
    decreases k
  {
    if j < k - 1 {
      SameFile(bs, k - 1, fd, j);
    }
  }

  /** Each link before the new start of the chain is wholly in the range. */
  lemma CoalescedCovers(bs: seq<Buf>, limit: int, page: nat, k: nat, total: int, cut: bool, j: nat)
    requires bs != [] && k <= |bs| && InOrder(bs) && Coalesced(bs, limit, page, k, total, cut) && j < k
    ensures bs[j].fd == bs[0].fd && bs[0].filePos <= bs[j].filePos && bs[j].fileLast <= bs[0].filePos + total
  {
    RangeCovers(bs, k, bs[0].fd, j);
    SameFile(bs, k, bs[0].fd, j);
  }

  // -------------------------------------------------------------- recycling

  /** The four lists after links have been recycled, and the buffers. */
  datatype Lists = Lists(free: seq<int>, busy: seq<int>, pool: seq<int>, bufs: seq<Buf>)

  function Reset(b: Buf): Buf {
    b.(pos := b.start, last := b.start)
  }

  ghost predicate InRange(bufs: seq<Buf>, links: seq<int>) {
    forall i :: 0 <= i < |links| ==> 0 <= links[i] < |bufs|
  }

  /** What becomes of the lists: links of other owners go to the pool, empty ones become free. */
  function Recycled(l: Lists, tag: int): Lists
    requires InRange(l.bufs, l.busy)
    decreases |l.busy|
  {
    if l.busy == [] then l
    else
      var c := l.busy[0];
      if l.bufs[c].tag != tag then Recycled(l.(busy := l.busy[1..], pool := [c] + l.pool), tag)
      else if Size(l.bufs[c]) != 0 then l
      else Recycled(l.(busy := l.busy[1..], free := [c] + l.free, bufs := l.bufs[c := Reset(l.bufs[c])]), tag)
  }

  function LinksOf(l: Lists): multiset<int> {
    multiset(l.free) + multiset(l.busy) + multiset(l.pool)
  }

  lemma TakeFirst(s: seq<int>)
    requires s != []
    ensures multiset(s) == multiset{s[0]} + multiset(s[1..])
  {
    assert s == [s[0]] + s[1..];
  }

  lemma SuffixOfTail(s: seq<int>, t: seq<int>)
    requires s != [] && exists k :: 0 <= k <= |s[1..]| && t == s[1..][k..]
    ensures exists k :: 0 <= k <= |s| && t == s[k..]
  {
    var k :| 0 <= k <= |s[1..]| && t == s[1..][k..];
    assert t == s[k + 1..];
  }

  /** No link is lost or made; busy ends as a suffix that starts with a non-empty buffer of the owner. */
  lemma {:induction false} RecyclingConserves(l: Lists, tag: int)
    requires InRange(l.bufs, l.busy)
    ensures var r := Recycled(l, tag);
            && LinksOf(r) == LinksOf(l) && |r.bufs| == |l.bufs|
            && (exists k :: 0 <= k <= |l.busy| && r.busy == l.busy[k..])
            && (r.busy != [] ==> 0 <= r.busy[0] < |r.bufs| && r.bufs[r.busy[0]].tag == tag && Size(r.bufs[r.busy[0]]) != 0)
    decreases |l.busy|
  {
    if l.busy == [] {
      assert l.busy == l.busy[0..];
    } else {
      var c := l.busy[0];
      TakeFirst(l.busy);
      if l.bufs[c].tag != tag {
        var m := l.(busy := l.busy[1..], pool := [c] + l.pool);
        RecyclingConserves(m, tag);
        TakeFirst(m.pool);
        SuffixOfTail(l.busy, Recycled(m, tag).busy);
      } else if Size(l.bufs[c]) != 0 {
        assert l.busy == l.busy[0..];
      } else {
        var m := l.(busy := l.busy[1..], free := [c] + l.free, bufs := l.bufs[c := Reset(l.bufs[c])]);
        RecyclingConserves(m, tag);
        TakeFirst(m.free);
        SuffixOfTail(l.busy, Recycled(m, tag).busy);
      }
    }
  }

  /** The links that became free are reset, and no other buffer has changed. */
  lemma {:induction false} RecyclingResets(l: Lists, tag: int, c: int)
    requires InRange(l.bufs, l.busy) && 0 <= c < |l.bufs| && Distinct(l.busy) && (c in l.free ==> c !in l.busy)
    ensures var r := Recycled(l, tag);
            && |r.bufs| == |l.bufs|
            && r.bufs[c] == (if c in r.free && c !in l.free
                             then l.bufs[c].(pos := l.bufs[c].start, last := l.bufs[c].start) else l.bufs[c])
            && (c in r.free && c !in l.free ==> c in l.busy && l.bufs[c].tag == tag && Size(l.bufs[c]) == 0)
            && (c in l.free ==> c in r.free)
    decreases |l.busy|
  {
    if l.busy != [] {
      var d := l.busy[0];
      assert l.busy == [d] + l.busy[1..];
      assert d !in l.busy[1..];
      if l.bufs[d].tag != tag {
        RecyclingResets(l.(busy := l.busy[1..], pool := [d] + l.pool), tag, c);
      } else if Size(l.bufs[d]) == 0 {
        RecyclingResets(l.(busy := l.busy[1..], free := [d] + l.free, bufs := l.bufs[d := Reset(l.bufs[d])]), tag, c);
      }
    }
  }

  // --------------------------------------------------------------- the links

  ghost function BufsOf(bufs: seq<Buf>, links: seq<int>): (r: seq<Buf>)
    requires InRange(bufs, links)
    ensures |r| == |links|
    ensures forall i :: 0 <= i < |links| ==> r[i] == bufs[links[i]]
  {
    seq(|links|, i requires 0 <= i < |links| => bufs[links[i]])
  }

  /** The heads and the links make the lists. */
  ghost predicate Holds(next: seq<int>, bufs: seq<Buf>, l: Lists, free: int, busy: int, pool: int) {
    && |next| == |bufs| && l.bufs == bufs && InRange(bufs, l.busy)
    && List(next, free, l.free) && List(next, busy, l.busy) && List(next, pool, l.pool)
    && Distinct(l.free + l.busy + l.pool)
  }

  ghost predicate Disjoint(a: seq<int>, b: seq<int>) {
    forall c :: c in a ==> c !in b
  }

  lemma Parts(a: seq<int>, b: seq<int>, c: seq<int>)
    requires Distinct(a + b + c)
    ensures Distinct(a) && Distinct(b) && Distinct(c) && Disjoint(a, b) && Disjoint(b, a) && Disjoint(c, b) && Disjoint(a, c)
  {
    var s := a + b + c;
    assert forall i :: 0 <= i < |a| ==> s[i] == a[i];
    assert forall i :: 0 <= i < |b| ==> s[|a| + i] == b[i];
    assert forall i :: 0 <= i < |c| ==> s[|a| + |b| + i] == c[i];
  }

  lemma PartsOfTwo(b: seq<int>, o: seq<int>)
    requires Distinct(b + o)
    ensures Disjoint(b, o) && forall c :: c in b ==> c in b + o
  {
    assert forall i :: 0 <= i < |b| ==> (b + o)[i] == b[i];
    assert forall i :: 0 <= i < |o| ==> (b + o)[|b| + i] == o[i];
  }

  lemma DistinctJoin(a: seq<int>, b: seq<int>)
    requires Distinct(a) && Distinct(b) && Disjoint(a, b)
    ensures Distinct(a + b)
  {
    forall i, j | 0 <= i < j < |a + b| ensures (a + b)[i] != (a + b)[j] {
      if i < |a| <= j {
        assert a[i] in a && b[j - |a|] in b;
      }
    }
  }

  /** Moving the first of `b` to the front of `c` keeps the links distinct. */
  lemma MoveDistinct(a: seq<int>, b: seq<int>, c: seq<int>)
    requires b != [] && Distinct(a + b + c)
    ensures Distinct(a + b[1..] + ([b[0]] + c)) && Distinct([b[0]] + a + b[1..] + c)
  {
    Parts(a, b, c);
    assert b == [b[0]] + b[1..];
    DistinctJoin([b[0]], c);
    DistinctJoin(a, b[1..]);
    DistinctJoin(a + b[1..], [b[0]] + c);
    DistinctJoin([b[0]], a);
    DistinctJoin([b[0]] + a, b[1..]);
    DistinctJoin([b[0]] + a + b[1..], c);
  }

  /** Hanging the list `o` on the last link of `b`. */
  lemma {:induction false} JoinLists(next: seq<int>, head: int, b: seq<int>, out: int, o: seq<int>)
    requires List(next, head, b) && List(next, out, o) && Disjoint(b, o) && b != []
    ensures 0 <= b[|b| - 1] < |next| && List(next[b[|b| - 1] := out], head, b + o)
    decreases |b|
  {
    var x := b[|b| - 1];
    ListRange(next, head, b);
    var next' := next[x := out];
    if |b| == 1 {
      FrameList(next, next', out, o);
      assert (b + o)[1..] == o;
    } else {
      JoinLists(next, next[head], b[1..], out, o);
      assert (b + o)[1..] == b[1..] + o;
      ListDistinct(next, head, b, 0, |b| - 1);
    }
  }

  lemma MoveToPool(next: seq<int>, bufs: seq<Buf>, l: Lists, free: int, busy: int, pool: int)
    requires Holds(next, bufs, l, free, busy, pool) && busy != NULL && l.busy != [] && l.busy[0] == busy && 0 <= busy < |next|
    requires List(next, next[busy], l.busy[1..])
    ensures Holds(next[busy := pool], bufs, l.(busy := l.busy[1..], pool := [busy] + l.pool), free, next[busy], busy)
  {
    hide List;
    Parts(l.free, l.busy, l.pool);
    MoveDistinct(l.free, l.busy, l.pool);
    assert l.busy == [busy] + l.busy[1..];
    PushList(next, pool, l.pool, busy);
    FrameList(next, next[busy := pool], free, l.free);
    FrameList(next, next[busy := pool], next[busy], l.busy[1..]);
  }

  lemma MoveToFree(next: seq<int>, bufs: seq<Buf>, l: Lists, free: int, busy: int, pool: int, x: Buf)
    requires Holds(next, bufs, l, free, busy, pool) && busy != NULL && l.busy != [] && l.busy[0] == busy && 0 <= busy < |next|
    requires List(next, next[busy], l.busy[1..])
    ensures var bufs' := bufs[busy := x];
            Holds(next[busy := free], bufs', l.(busy := l.busy[1..], free := [busy] + l.free, bufs := bufs'),
                  busy, next[busy], pool)
  {
    hide List;
    Parts(l.free, l.busy, l.pool);
    MoveDistinct(l.free, l.busy, l.pool);
    assert l.busy == [busy] + l.busy[1..];
    PushList(next, free, l.free, busy);
    FrameList(next, next[busy := free], pool, l.pool);
    FrameList(next, next[busy := free], next[busy], l.busy[1..]);
  }

  /** One turn of the loop. */
  lemma RecycleOne(l: Lists, tag: int)
    requires InRange(l.bufs, l.busy)
    ensures l.busy == [] ==> Recycled(l, tag) == l
    ensures l.busy != [] ==>
              var c := l.busy[0];
              && 0 <= c < |l.bufs|
              && Recycled(l, tag) ==
                 if l.bufs[c].tag != tag then Recycled(l.(busy := l.busy[1..], pool := [c] + l.pool), tag)
                 else if Size(l.bufs[c]) != 0 then l
                 else Recycled(l.(busy := l.busy[1..], free := [c] + l.free, bufs := l.bufs[c := Reset(l.bufs[c])]), tag)
  {
  }

  /** With `left` bytes still to account for from buffer `k` on, the outcome will be `goal`. */
  ghost predicate Pending(goal: seq<Buf>, at: nat, now: seq<Buf>, k: nat, left: int) {
    k <= |now| && goal == now[..k] + AfterSent(now[k..], left) && at == k + SentUpTo(now[k..], left)
  }

  lemma PendingStart(was: seq<Buf>, sent: int)
    ensures Pending(AfterSent(was, sent), SentUpTo(was, sent), was, 0, sent)
  {
    assert was[0..] == was && was[..0] == [];
    assert [] + AfterSent(was, sent) == AfterSent(was, sent);
  }

  lemma PendingPass(goal: seq<Buf>, at: nat, now: seq<Buf>, k: nat, left: int)
    requires Pending(goal, at, now, k, left) && k < |now| && Passes(now[k], left)
    ensures Pending(goal, at, now[k := if Special(now[k]) then now[k] else Emptied(now[k])], k + 1, LeftAfter(now[k], left))
  {
    hide AfterSent, SentUpTo;
    var x := if Special(now[k]) then now[k] else Emptied(now[k]);
    var now' := now[k := x];
    PassesOne(now[k..], left);
    assert now[k..][1..] == now'[k + 1..];
    assert now'[..k + 1] == now[..k] + [x];
    var rest := AfterSent(now'[k + 1..], LeftAfter(now[k], left));
    assert now[..k] + ([x] + rest) == (now[..k] + [x]) + rest;
  }

  lemma PendingStop(goal: seq<Buf>, at: nat, now: seq<Buf>, k: nat, left: int)
    requires Pending(goal, at, now, k, left) && k < |now| && !Special(now[k]) && 0 <= left && (left == 0 || left < Size(now[k]))
    ensures at == k && goal == if left == 0 then now else now[k := Advanced(now[k], left)]
  {
    if left > 0 {
      assert now[k..][1..] == now[k + 1..];
    }
  }

  lemma PendingEnd(goal: seq<Buf>, at: nat, now: seq<Buf>, k: nat, left: int)
    requires Pending(goal, at, now, k, left) && k == |now|
    ensures at == k && goal == now
  {
  }

  lemma EndOf(next: seq<int>, links: seq<int>, k: nat)
    requires k <= |links| && List(next, NULL, links[k..])
    ensures k == |links|
  {
  }

  /** Changing the buffer of one link of a list changes that one only. */
  /** The buffers of other links are the same. */
  ghost predicate SameElsewhere(was: seq<Buf>, bufs: seq<Buf>, links: seq<int>) {
    |bufs| == |was| && forall l :: 0 <= l < |bufs| && l !in links ==> bufs[l] == was[l]
  }

  lemma SameAtFirst(bufs: seq<Buf>, links: seq<int>)
    ensures SameElsewhere(bufs, bufs, links)
  {
  }

  lemma BufOf(bufs: seq<Buf>, links: seq<int>, k: nat)
    requires InRange(bufs, links) && k < |links|
    ensures 0 <= links[k] < |bufs| && BufsOf(bufs, links)[k] == bufs[links[k]]
  {
  }

  lemma SetBuf(next: seq<int>, head: int, was: seq<Buf>, bufs: seq<Buf>, links: seq<int>, k: nat, b: Buf)
    requires List(next, head, links) && InRange(bufs, links) && k < |links| && SameElsewhere(was, bufs, links)
    ensures SameElsewhere(was, bufs[links[k] := b], links)
    ensures InRange(bufs[links[k] := b], links)
    ensures BufsOf(bufs[links[k] := b], links) == BufsOf(bufs, links)[k := b]
  {
    hide List;
    forall i | 0 <= i < |links| && i != k ensures links[i] != links[k] {
      if i < k {
        ListDistinct(next, head, links, i, k);
      } else {
        ListDistinct(next, head, links, k, i);
      }
    }
  }

  lemma HeadOf(next: seq<int>, r: int, links: seq<int>, k: nat)
    requires k <= |links| && List(next, r, links[k..]) && r != NULL
    ensures k < |links| && r == links[k] && 0 <= r < |next| && List(next, next[r], links[k + 1..])
  {
    assert links[k..][1..] == links[k + 1..];
  }

  /** Links and their buffers. */
  class Links {
    var next: seq<int>
    var bufs: seq<Buf>

    constructor (n: seq<int>, b: seq<Buf>)
      requires |n| == |b|
      ensures next == n && bufs == b
    {
      next, bufs := n, b;
    }

    /** ngx_chain_update_sent on the chain `links`; the link returned is the one sending goes on with. */
    method UpdateSent(first: int, sent: nat, ghost links: seq<int>) returns (r: int)
      requires |next| == |bufs| && List(next, first, links)
      requires InRange(bufs, links) && AllWellFormed(BufsOf(bufs, links))
      modifies this`bufs
      ensures |bufs| == |old(bufs)| && InRange(bufs, links)
      ensures BufsOf(bufs, links) == AfterSent(old(BufsOf(bufs, links)), sent)
      ensures SameElsewhere(old(bufs), bufs, links)
      ensures List(next, r, links[SentUpTo(old(BufsOf(bufs, links)), sent)..])
    {
      hide List, AfterSent, SentUpTo, Emptied, Advanced, Special, Size, BufsOf, Pending, SameElsewhere, InRange;
      ghost var was := BufsOf(bufs, links);
      ghost var goal, at, k := AfterSent(was, sent), SentUpTo(was, sent), 0;
      var left := sent;
      r := first;
      assert links[0..] == links;
      PendingStart(was, sent);
      SameAtFirst(bufs, links);
      while r != NULL
        invariant |bufs| == |old(bufs)| && InRange(bufs, links)
        invariant 0 <= k <= |links| && List(next, r, links[k..]) && left >= 0
        invariant Pending(goal, at, BufsOf(bufs, links), k, left)
        invariant SameElsewhere(old(bufs), bufs, links)
        decreases |links| - k
      {
        HeadOf(next, r, links, k);
        ghost var now := BufsOf(bufs, links);
        BufOf(bufs, links, k);
        if Special(bufs[r]) {
          PendingPass(goal, at, now, k, left);
          assert now[k := bufs[r]] == now;
          r, k := next[r], k + 1;
        } else if left == 0 {
          PendingStop(goal, at, now, k, left);
          return;
        } else if left >= Size(bufs[r]) {
          PendingPass(goal, at, now, k, left);
          var size := Size(bufs[r]);
          SetBuf(next, first, old(bufs), bufs, links, k, Emptied(bufs[r]));
          bufs := bufs[r := Emptied(bufs[r])];
          left := left - size;
          r, k := next[r], k + 1;
        } else {
          PendingStop(goal, at, now, k, left);
          SetBuf(next, first, old(bufs), bufs, links, k, Advanced(bufs[r], left));
          bufs := bufs[r := Advanced(bufs[r], left)];
          return;
        }
      }
      EndOf(next, links, k);
      PendingEnd(goal, at, BufsOf(bufs, links), k, left);
    }

    /** ngx_chain_coalesce_file. */
    method CoalesceFile(first: int, limit: nat, page: nat, ghost links: seq<int>)
      returns (total: int, r: int, ghost k: nat, ghost cut: bool)
      requires |next| == |bufs| && List(next, first, links) && first != NULL && page > 0 && InRange(bufs, links)
      requires forall i :: 0 <= i < |links| ==> 0 <= bufs[links[i]].filePos <= bufs[links[i]].fileLast
      ensures k <= |links| != 0 && List(next, r, links[k..])
      ensures Coalesced(BufsOf(bufs, links), limit, page, k, total, cut)
      ensures limit < total ==> OnPage(bufs[links[0]].filePos + total, page)
      ensures 0 <= total < limit + page
    {
      ghost var bs := BufsOf(bufs, links);
      ListHead(next, first, links);
      hide List, PageStart, OnPage, OneRange, Joining, Coalesced, IsNextPage;
      assert links[0..] == links;
      JoinStart(bs, limit);
      r, total, k, cut := first, 0, 0, false;
      var fd := bufs[first].fd;
      while true
        invariant 0 <= k < |links| && List(next, r, links[k..]) && Joining(bs, limit, k, total)
        invariant fd == bs[0].fd
        decreases |links| - k
      {
        HeadOf(next, r, links, k);
        var b := bufs[r];
        assert b == bs[k];
        JoiningMeans(bs, limit, k, total);
        var size := b.fileLast - b.filePos;
        if size > limit - total {
          size := limit - total;
          var aligned := PageStart(b.filePos + size + page - 1, page);
          PageAfter(b.filePos + size, aligned, page);
          if aligned <= b.fileLast {
            size := aligned - b.filePos;
          }
          JoinCut(bs, limit, page, k, total, total + size, aligned);
          return total + size, r, k, true;
        }
        JoinNext(bs, limit, page, k, total);
        total := total + size;
        var end := b.filePos + size;
        r, k := next[r], k + 1;
        if r == NULL {
          EndOf(next, links, k);
          return;
        }
        HeadOf(next, r, links, k);
        assert bufs[r] == bs[k];
        if !(bufs[r].inFile && total < limit && fd == bufs[r].fd && end == bufs[r].filePos) {
          return;
        }
      }
    }

    /** `out` is put at the end of `busy`. */
    method Append(busy: int, out: int, ghost b: seq<int>, ghost o: seq<int>) returns (head: int)
      requires List(next, busy, b) && List(next, out, o) && Disjoint(b, o)
      modifies this`next
      ensures |next| == |old(next)| && List(next, head, b + o)
      ensures forall c :: 0 <= c < |next| && c !in b ==> next[c] == old(next)[c]
    {
      if out == NULL {
        assert b + o == b;
        return busy;
      }
      if busy == NULL {
        assert b + o == o;
        return out;
      }
      var cl := busy;
      ghost var k := 0;
      while next[cl] != NULL
        invariant 0 <= k < |b| && 0 <= cl < |next| && cl == b[k] && List(next, next[cl], b[k + 1..])
        decreases |b| - k
      {
        assert b[k + 1..][1..] == b[k + 2..];
        cl, k := next[cl], k + 1;
      }
      assert k == |b| - 1;
      JoinLists(next, busy, b, out, o);
      next := next[cl := out];
      return busy;
    }

    /** ngx_chain_update_chains, with the pool's own list of links. */
    method UpdateChains(free: int, busy: int, out: int, pool: int, tag: int,
                        ghost f: seq<int>, ghost b: seq<int>, ghost o: seq<int>, ghost p: seq<int>)
      returns (free': int, busy': int, pool': int)
      requires |next| == |bufs| && List(next, free, f) && List(next, busy, b) && List(next, out, o) && List(next, pool, p)
      requires Distinct(f + (b + o) + p)
      modifies this
      ensures |next| == |bufs| == |old(bufs)| && InRange(old(bufs), b + o)
      ensures var r := Recycled(Lists(f, b + o, p, old(bufs)), tag);
              List(next, free', r.free) && List(next, busy', r.busy) && List(next, pool', r.pool) && bufs == r.bufs
    {
      hide List, Recycled, Size, Reset;
      Parts(f, b + o, p);
      PartsOfTwo(b, o);
      busy' := Append(busy, out, b, o);
      FrameList(old(next), next, free, f);
      FrameList(old(next), next, pool, p);
      ListRange(next, busy', b + o);
      free', pool' := free, pool;
      ghost var l := Lists(f, b + o, p, bufs);
      ghost var goal := Recycled(l, tag);
      while busy' != NULL
        invariant Holds(next, bufs, l, free', busy', pool') && Recycled(l, tag) == goal && |bufs| == |old(bufs)|
        decreases |l.busy|
      {
        var cl := busy';
        ListHead(next, busy', l.busy);
        ListRange(next, busy', l.busy);
        RecycleOne(l, tag);
        if bufs[cl].tag != tag {
          MoveToPool(next, bufs, l, free', busy', pool');
          busy' := next[cl];
          next, pool' := next[cl := pool'], cl;
          l := l.(busy := l.busy[1..], pool := [cl] + l.pool);
        } else if Size(bufs[cl]) != 0 {
          break;
        } else {
          MoveToFree(next, bufs, l, free', busy', pool', Reset(bufs[cl]));
          bufs := bufs[cl := Reset(bufs[cl])];
          busy' := next[cl];
          next, free' := next[cl := free'], cl;
          l := l.(busy := l.busy[1..], free := [cl] + l.free, bufs := bufs);
        }
      }
      ListHead(next, busy', l.busy);
      ListRange(next, busy', l.busy);
      RecycleOne(l, tag);
    }
  }
}
