/**
  Listening sockets across a reload (ngx_init_cycle in ngx_cycle.c, with
  ngx_open_listening_sockets and ngx_cmp_sockaddr): the new cycle takes over the sockets
  of the old one, opens the others, and either the sockets left over are closed or, when
  something fails, those it opened itself.
*/
module Reload {
  import opened Bytes

  const NONE := -1
  const SOCK_STREAM := 1

  datatype SockAddr =
    | Inet(addr: seq<Byte>, port: nat)
    | Inet6(addr6: seq<Byte>, port6: nat)
    | Unix(path: seq<Byte>)

  /** The size of sun_path. */
  const SUN_PATH := 108

  /** ngx_cmp_sockaddr with the ports compared: paths are compared up to the shorter one. */
  predicate SameAddr(a: SockAddr, b: SockAddr) {
    match (a, b)
    case (Inet(x, p), Inet(y, q)) => p == q && x == y
    case (Inet6(x, p), Inet6(y, q)) => p == q && x == y
    case (Unix(x), Unix(y)) =>
      var n := Least(Least(|x|, |y|), SUN_PATH);
      x[..n] == y[..n]
    case _ => false
  }

  /**
    Internet addresses are the same if they are equal; unix sockets if their paths do not
    differ in any place that both have, within the 108 bytes of sun_path.
  */
  lemma SameAddrMeans(a: SockAddr, b: SockAddr)
    ensures SameAddr(a, b) <==>
            if a.Unix? && b.Unix? then forall k :: 0 <= k < |a.path| && k < |b.path| && k < 108 ==> a.path[k] == b.path[k]
            else a == b
  {
    if a.Unix? && b.Unix? {
      var x, y := a.path, b.path;
      var n := if |x| < |y| then (if |x| < 108 then |x| else 108) else (if |y| < 108 then |y| else 108);
      assert SameAddr(a, b) <==> x[..n] == y[..n];
      if x[..n] == y[..n] {
        assert forall k :: 0 <= k < n ==> x[k] == x[..n][k] == y[..n][k] == y[k];
      }
    }
  }

  /** The fields of ngx_listening_t that a reload reads or sets; `previous` is an index, or -1. */
  datatype Listening = Listening(
    fd: int, addr: SockAddr, kind: int, backlog: int,
    opening: bool, remain: bool, ignore: bool, inherited: bool, listen: bool,
    reuseport: bool, addReuseport: bool, previous: int)

  // ------------------------------------------------------------- matching

  /** The old entry `o` can be taken over by the new entry `e`. */
  predicate Suits(o: Listening, e: Listening) {
    !o.ignore && !o.remain && o.kind == e.kind && SameAddr(e.addr, o.addr)
  }

  /** The first old entry from `i` on that suits, or the number of old entries. */
  function FirstSuited(olds: seq<Listening>, e: Listening, i: nat): (r: nat)
    requires i <= |olds|
    ensures i <= r <= |olds|
    ensures r < |olds| ==> Suits(olds[r], e)
    ensures forall j :: i <= j < r ==> !Suits(olds[j], e)
    decreases |olds| - i
  {
    if i == |olds| || Suits(olds[i], e) then i else FirstSuited(olds, e, i + 1)
  }

  function Adopt(e: Listening, o: Listening, i: nat): Listening {
    e.(fd := o.fd, inherited := o.inherited, previous := i, listen := e.listen || o.backlog != e.backlog,
       addReuseport := e.addReuseport || (e.reuseport && !o.reuseport))
  }

  function Marked(e: Listening): Listening {
    if e.fd == NONE then e.(opening := true) else e
  }

  /** What matching makes of one new entry. */
  function Matched(olds: seq<Listening>, e: Listening): Listening {
    var i := FirstSuited(olds, e, 0);
    Marked(if i < |olds| then Adopt(e, olds[i], i) else e)
  }

  function Kept(olds: seq<Listening>, e: Listening): (r: seq<Listening>)
    ensures |r| == |olds|
  {
    var i := FirstSuited(olds, e, 0);
    if i < |olds| then olds[i := olds[i].(remain := true)] else olds
  }

  /** The old entries after the new ones have been matched in order. */
  function KeptBy(olds: seq<Listening>, news: seq<Listening>): (r: seq<Listening>)
    ensures |r| == |olds|
    decreases |news|
  {
    if news == [] then olds else KeptBy(Kept(olds, news[0]), news[1..])
  }

  /** The new entries after they have been matched in order. */
  function MatchedAll(olds: seq<Listening>, news: seq<Listening>): (r: seq<Listening>)
    ensures |r| == |news|
    decreases |news|
  {
    if news == [] then [] else [Matched(olds, news[0])] + MatchedAll(Kept(olds, news[0]), news[1..])
  }

  /** New entries as the configuration leaves them. */
  ghost predicate FreshEntry(e: Listening) {
    e.fd == NONE && e.previous == NONE && !e.opening
  }

  ghost predicate FreshEntries(news: seq<Listening>) {
    forall k :: 0 <= k < |news| ==> FreshEntry(news[k])
  }

  lemma KeptChanges(olds: seq<Listening>, e: Listening, i: nat)
    requires i < |olds|
    ensures Kept(olds, e)[i] == olds[i].(remain := Kept(olds, e)[i].remain)
    ensures olds[i].remain ==> Kept(olds, e)[i].remain
  {
  }

  /** Old entries change in `remain` only, and only from false to true. */
  lemma {:induction false} KeptByChanges(olds: seq<Listening>, news: seq<Listening>, i: nat)
    requires i < |olds|
    ensures KeptBy(olds, news)[i] == olds[i].(remain := KeptBy(olds, news)[i].remain)
    ensures olds[i].remain ==> KeptBy(olds, news)[i].remain
    decreases |news|
  {
    hide FirstSuited, Kept;
    if news != [] {
      KeptChanges(olds, news[0], i);
      KeptByChanges(Kept(olds, news[0]), news[1..], i);
    }
  }

  /** The entry taken over is marked. */
  lemma MatchedRemains(olds: seq<Listening>, e: Listening)
    requires FreshEntry(e)
    ensures var p := Matched(olds, e).previous; p != NONE ==> 0 <= p < |olds| && Kept(olds, e)[p].remain
  {
  }

  /** `e` has taken over `olds[p]`. */
  ghost predicate TookOver(olds: seq<Listening>, e: Listening, p: int) {
    && 0 <= p < |olds| && e.previous == p && e.fd == olds[p].fd
    && !olds[p].ignore && olds[p].kind == e.kind && SameAddr(e.addr, olds[p].addr)
  }

  /** What a new entry has from the old entry it takes over; the rest is as configured. */
  ghost predicate AsConfigured(e: Listening, news: Listening, olds: seq<Listening>) {
    if e.previous == NONE then e == news.(opening := true)
    else
      && 0 <= e.previous < |olds|
      && var o := olds[e.previous];
         e == news.(fd := o.fd, inherited := o.inherited, previous := e.previous, opening := o.fd == NONE,
                    listen := news.listen || o.backlog != news.backlog,
                    addReuseport := news.addReuseport || (news.reuseport && !o.reuseport))
  }

  /** A new entry is opened when it has no socket; otherwise it has the one it took over. */
  lemma {:induction false} MatchedEntry(olds: seq<Listening>, news: seq<Listening>, k: nat)
    requires FreshEntries(news) && k < |news|
    ensures var e := MatchedAll(olds, news)[k];
            && e.kind == news[k].kind && e.addr == news[k].addr && e.ignore == news[k].ignore
            && (e.opening <==> e.fd == NONE)
            && (e.previous != NONE ==> TookOver(olds, e, e.previous))
            && (e.previous != NONE ==> !olds[e.previous].remain && KeptBy(olds, news)[e.previous].remain)
            && (e.previous == NONE ==> e.fd == NONE) && AsConfigured(e, news[k], olds)
    decreases |news|
  {
    var rest, after := news[1..], Kept(olds, news[0]);
    if k == 0 {
      var p := MatchedAll(olds, news)[0].previous;
      if p != NONE {
        KeptByChanges(after, rest, p);
      }
    } else {
      MatchedEntry(after, rest, k - 1);
      var e := MatchedAll(olds, news)[k];
      assert e == MatchedAll(after, rest)[k - 1];
      if e.previous != NONE {
        KeptChanges(olds, news[0], e.previous);
      }
    }
  }

  /** No old entry is taken over twice. */
  lemma {:induction false} MatchingInjective(olds: seq<Listening>, news: seq<Listening>, j: nat, k: nat)
    requires FreshEntries(news) && j < k < |news|
    ensures var r := MatchedAll(olds, news); r[j].previous == r[k].previous ==> r[j].previous == NONE
    decreases |news|
  {
    hide FirstSuited, Kept, Matched, KeptBy, TookOver;
    var rest, after := news[1..], Kept(olds, news[0]);
    var r := MatchedAll(olds, news);
    MatchedRemains(olds, news[0]);
    assert r[k] == MatchedAll(after, rest)[k - 1];
    if j == 0 {
      MatchedEntry(after, rest, k - 1);
    } else {
      assert r[j] == MatchedAll(after, rest)[j - 1];
      MatchingInjective(after, rest, j - 1, k - 1);
    }
  }

  /** An old entry that remains has been taken over by some new one. */
  lemma {:induction false} RemainsForOne(olds: seq<Listening>, news: seq<Listening>, i: nat) returns (k: nat)
    requires FreshEntries(news) && i < |olds| && !olds[i].remain && KeptBy(olds, news)[i].remain
    ensures k < |news| && MatchedAll(olds, news)[k].previous == i
    decreases |news|
  {
    var rest, after := news[1..], Kept(olds, news[0]);
    if after[i].remain {
      k := 0;
    } else {
      var j := RemainsForOne(after, rest, i);
      k := j + 1;
    }
  }

  // --------------------------------------------- how many are taken over

  /** A class of entries for one IPv4 or IPv6 address and port and one type of socket. */
  datatype Class = Class(kind: int, addr: SockAddr)

  predicate InClass(x: Listening, c: Class) {
    x.kind == c.kind && x.addr == c.addr
  }

  function CountFree(olds: seq<Listening>, c: Class): nat {
    if olds == [] then 0
    else (if InClass(olds[0], c) && !olds[0].ignore && !olds[0].remain then 1 else 0) + CountFree(olds[1..], c)
  }

  function CountNew(news: seq<Listening>, c: Class): nat {
    if news == [] then 0 else (if InClass(news[0], c) then 1 else 0) + CountNew(news[1..], c)
  }

  function CountTaken(matched: seq<Listening>, c: Class): nat {
    if matched == [] then 0
    else (if InClass(matched[0], c) && matched[0].previous != NONE then 1 else 0) + CountTaken(matched[1..], c)
  }

  lemma {:induction false} CountFreeUpdate(olds: seq<Listening>, c: Class, i: nat)
    requires i < |olds| && !olds[i].ignore && !olds[i].remain
    ensures CountFree(olds, c) ==
            CountFree(olds[i := olds[i].(remain := true)], c) + if InClass(olds[i], c) then 1 else 0
    decreases |olds|
  {
    var olds' := olds[i := olds[i].(remain := true)];
    if i == 0 {
      assert olds'[1..] == olds[1..];
    } else {
      assert olds'[1..] == olds[1..][i - 1 := olds[i].(remain := true)];
      CountFreeUpdate(olds[1..], c, i - 1);
    }
  }

  lemma {:induction false} CountFreePositive(olds: seq<Listening>, c: Class, e: Listening, i: nat)
    requires i <= |olds| && InClass(e, c) && !c.addr.Unix?
    requires CountFree(olds[i..], c) > 0
    ensures FirstSuited(olds, e, i) < |olds|
    decreases |olds| - i
  {
    if !Suits(olds[i], e) {
      assert olds[i..][1..] == olds[i + 1..];
      CountFreePositive(olds, c, e, i + 1);
    }
  }

  lemma {:induction false} CountFreeZero(olds: seq<Listening>, c: Class, i: nat)
    requires i < |olds| && InClass(olds[i], c) && !olds[i].ignore && !olds[i].remain
    ensures CountFree(olds, c) > 0
    decreases |olds|
  {
    if i > 0 {
      CountFreeZero(olds[1..], c, i - 1);
    }
  }

  /** Of each class as many sockets are taken over as there are both old and new entries for them. */
  lemma {:induction false} ClassCount(olds: seq<Listening>, news: seq<Listening>, c: Class)
    requires FreshEntries(news) && !c.addr.Unix?
    ensures CountTaken(MatchedAll(olds, news), c) == Least(CountFree(olds, c), CountNew(news, c))
    decreases |news|
  {
    if news != [] {
      var e, r := news[0], MatchedAll(olds, news);
      var i := FirstSuited(olds, e, 0);
      ClassCount(Kept(olds, e), news[1..], c);
      assert r[1..] == MatchedAll(Kept(olds, e), news[1..]);
      if i < |olds| {
        CountFreeUpdate(olds, c, i);
        if InClass(e, c) {
          CountFreeZero(olds, c, i);
        }
      } else if InClass(e, c) && CountFree(olds, c) > 0 {
        assert olds[0..] == olds;
        CountFreePositive(olds, c, e, 0);
      }
    }
  }

  // ------------------------------------------------- matching, in place

  /** One turn of the outer loop of the matching. */
  method MatchOne(ls: array<Listening>, nls: array<Listening>, n: nat)
    requires ls != nls && n < nls.Length
    modifies ls, nls
    ensures ls[..] == Kept(old(ls[..]), old(nls[n])) && nls[..] == old(nls[..])[n := Matched(old(ls[..]), old(nls[n]))]
  {
    hide Adopt;
    var i := 0;
    while i < ls.Length && !Suits(ls[i], nls[n])
      invariant i <= ls.Length && FirstSuited(ls[..], nls[n], 0) == FirstSuited(ls[..], nls[n], i)
    {
      i := i + 1;
    }
    if i < ls.Length {
      nls[n] := Adopt(nls[n], ls[i], i);
      ls[i] := ls[i].(remain := true);
    }
    if nls[n].fd == NONE {
      nls[n] := nls[n].(opening := true);
    }
  }

  /** The marks of the reload before are cleared. */
  function Unmarked(olds: seq<Listening>): (r: seq<Listening>)
    ensures |r| == |olds|
    ensures forall i :: 0 <= i < |olds| ==> r[i] == olds[i].(remain := false)
  {
    seq(|olds|, i requires 0 <= i < |olds| => olds[i].(remain := false))
  }

  lemma UnmarkNext(olds: seq<Listening>, i: nat)
    requires i < |olds|
    ensures (Unmarked(olds[..i]) + olds[i..])[i := olds[i].(remain := false)] == Unmarked(olds[..i + 1]) + olds[i + 1..]
  {
  }

  /** The matching: every new entry in order takes over the first old one that suits. */
  method MatchSockets(ls: array<Listening>, nls: array<Listening>)
    requires ls != nls
    modifies ls, nls
    ensures ls[..] == KeptBy(Unmarked(old(ls[..])), old(nls[..]))
    ensures nls[..] == MatchedAll(Unmarked(old(ls[..])), old(nls[..]))
  {
    hide Kept, Matched, FirstSuited;
    ghost var news := nls[..];
    for i := 0 to ls.Length
      invariant ls[..] == Unmarked(old(ls[..])[..i]) + old(ls[..])[i..]
      invariant nls[..] == news
    {
      UnmarkNext(old(ls[..]), i);
      ls[i] := ls[i].(remain := false);
    }
    ghost var olds := Unmarked(old(ls[..]));
    assert old(ls[..])[..ls.Length] == old(ls[..]);
    assert ls[..] == olds && news[0..] == news && nls[..0] == [];
    for n := 0 to nls.Length
      invariant KeptBy(olds, news) == KeptBy(ls[..], news[n..])
      invariant MatchedAll(olds, news) == nls[..n] + MatchedAll(ls[..], news[n..])
      invariant nls[n..] == news[n..]
    {
      assert news[n..][1..] == news[n + 1..];
      MatchOne(ls, nls, n);
    }
  }

  // ------------------------------------------------------- the kernel

  /** How opening a socket may go; the socket is given in every case but the first. */
  datatype Outcome = SocketFails | SetupFails(s: int) | InUse(s: int) | Refused(s: int) | Opens(s: int)

  /**
    The system calls.  What the next attempt to open a socket does is not known: `sys`
    says it, from the number of the attempt and the descriptors open then.
  */
  class Kernel {
    const sys: (nat, set<int>) -> Outcome
    var attempts: nat
    var open: set<int>
    var closes: seq<int>
    var outcomes: seq<Outcome>

    constructor (calls: (nat, set<int>) -> Outcome, held: set<int>)
      ensures sys == calls && open == held && attempts == 0 && closes == [] && outcomes == []
    {
      sys, open, attempts, closes, outcomes := calls, held, 0, [], [];
    }

    /** A descriptor that is given out was not open before. */
    ghost predicate Sound()
      reads this
    {
      forall k, held :: sys(k, held) != SocketFails ==> sys(k, held).s >= 0 && sys(k, held).s !in held
    }

    /** Every attempt to open a socket succeeds. */
    ghost predicate AlwaysOpens() {
      forall k, held :: sys(k, held).Opens?
    }

    method Open() returns (r: Outcome)
      requires Sound()
      modifies this`attempts, this`open, this`outcomes
      ensures r == sys(old(attempts), old(open)) && attempts == old(attempts) + 1 && outcomes == old(outcomes) + [r]
      ensures r == SocketFails ==> open == old(open)
      ensures r != SocketFails ==> r.s >= 0 && r.s !in old(open) && open == old(open) + {r.s}
    {
      r := sys(attempts, open);
      attempts, outcomes := attempts + 1, outcomes + [r];
      if r != SocketFails {
        open := open + {r.s};
      }
    }

    method Close(fd: int)
      modifies this`open, this`closes
      ensures open == old(open) - {fd} && closes == old(closes) + [fd]
    {
      open := open - {fd};
      closes := closes + [fd];
    }
  }

  // ---------------------------------------------------- opening the rest

  /** Entry `i` has got a socket. */
  predicate Gained(was: seq<Listening>, now: seq<Listening>, i: int)
    requires |was| == |now| && 0 <= i < |was|
  {
    now[i].fd != was[i].fd
  }

  /** The sockets got by the entries from `i` on. */
  ghost function GainedFds(was: seq<Listening>, now: seq<Listening>, i: nat): set<int>
    requires |was| == |now|
  {
    set j | i <= j < |was| && Gained(was, now, j) :: now[j].fd
  }

  /** `now` is `was` with sockets for some of the entries that had none, all different and not held before. */
  ghost predicate Opening(was: seq<Listening>, now: seq<Listening>, held: set<int>) {
    && |was| == |now|
    && (forall i :: 0 <= i < |was| ==>
          now[i] == was[i].(fd := now[i].fd, listen := now[i].listen, addReuseport := now[i].addReuseport))
    && (forall i :: 0 <= i < |was| && Gained(was, now, i) ==> was[i].fd == NONE && now[i].fd >= 0 && now[i].fd !in held)
    && forall i, j :: 0 <= i < j < |was| && Gained(was, now, i) && Gained(was, now, j) ==> now[i].fd != now[j].fd
  }

  /** Only descriptors that were not held have been closed since. */
  ghost predicate ClosedOwn(before: seq<int>, after: seq<int>, held: set<int>) {
    before <= after && forall j :: |before| <= j < |after| ==> after[j] !in held
  }

  lemma GainOne(was: seq<Listening>, now: seq<Listening>, held: set<int>, i: nat, e: Listening)
    requires Opening(was, now, held) && i < |was| && now[i].fd == NONE && was[i].fd == NONE
    requires e == now[i].(fd := e.fd, listen := e.listen, addReuseport := e.addReuseport)
    requires e.fd >= 0 && e.fd !in held + GainedFds(was, now, 0)
    ensures Opening(was, now[i := e], held)
    ensures GainedFds(was, now[i := e], 0) == GainedFds(was, now, 0) + {e.fd}
  {
    var now' := now[i := e];
    forall j | 0 <= j < |was| && j != i ensures Gained(was, now', j) <==> Gained(was, now, j) {
    }
    forall j | 0 <= j < |was| && Gained(was, now, j) ensures now[j].fd in GainedFds(was, now, 0) {
    }
    forall f ensures f in GainedFds(was, now', 0) <==> f in GainedFds(was, now, 0) || f == e.fd {
      if f in GainedFds(was, now, 0) {
        var j :| 0 <= j < |was| && Gained(was, now, j) && now[j].fd == f;
        assert Gained(was, now', j) && now'[j].fd == f;
      }
      if f == e.fd {
        assert Gained(was, now', i);
      }
    }
  }

  lemma SameFds(was: seq<Listening>, now: seq<Listening>, held: set<int>, i: nat, e: Listening)
    requires Opening(was, now, held) && i < |was|
    requires e == now[i].(listen := e.listen, addReuseport := e.addReuseport)
    ensures Opening(was, now[i := e], held)
    ensures GainedFds(was, now[i := e], 0) == GainedFds(was, now, 0)
  {
    var now' := now[i := e];
    forall j | 0 <= j < |was| ensures Gained(was, now', j) <==> Gained(was, now, j) {
    }
  }

  datatype Step = Fine | Again | Fatal

  lemma NotGained(was: seq<Listening>, now: seq<Listening>, held: set<int>, i: nat)
    requires Opening(was, now, held) && i < |was| && now[i].fd == NONE
    ensures |was| == |now| && was[i].fd == NONE
  {
  }

  /** An entry that is to get a socket. */
  predicate Needs(e: Listening) {
    !e.ignore && !e.inherited && e.fd == NONE
  }

  /** The option for more sockets on one port is set on the old socket, once. */
  function Prepared(e: Listening): Listening {
    if e.ignore then e else e.(addReuseport := false)
  }

  /** An entry with its new socket; a stream socket is listening. */
  function Opened(e: Listening, s: int): Listening {
    e.(fd := s, listen := e.listen || e.kind == 1)
  }

  /** What becomes of the loop: an address in use is tried again later, any other failure is fatal. */
  function StepOf(o: Outcome): (r: Step)
    ensures r == Fine <==> o.Opens?
    ensures r == Again <==> o.InUse?
  {
    match o
    case Opens(_) => Fine
    case InUse(_) => Again
    case _ => Fatal
  }

  /** One turn of the loop of ngx_open_listening_sockets. */
  method OpenOne(nls: array<Listening>, i: nat, kernel: Kernel, ghost was: seq<Listening>, ghost held: set<int>)
    returns (r: Step)
    requires i < nls.Length == |was| && kernel.Sound() && Opening(was, nls[..], held)
    requires kernel.open == held + GainedFds(was, nls[..], 0)
    modifies nls, kernel`attempts, kernel`open, kernel`closes, kernel`outcomes
    ensures Opening(was, nls[..], held) && kernel.open == held + GainedFds(was, nls[..], 0)
    ensures ClosedOwn(old(kernel.closes), kernel.closes, held)
    ensures !Needs(old(nls[i])) ==> r == Fine && kernel.outcomes == old(kernel.outcomes) && nls[i] == Prepared(old(nls[i]))
    ensures Needs(old(nls[i])) ==>
              var o := kernel.sys(old(kernel.attempts), old(kernel.open));
              && kernel.outcomes == old(kernel.outcomes) + [o] && r == StepOf(o)
              && nls[i] == if r == Fine then Opened(Prepared(old(nls[i])), o.s) else Prepared(old(nls[i]))
    ensures forall j :: 0 <= j < nls.Length && j != i ==> nls[j] == old(nls[j])
  {
    hide Opening, GainedFds;
    if nls[i].ignore {
      return Fine;
    }
    if nls[i].addReuseport {
      SameFds(was, nls[..], held, i, nls[i].(addReuseport := false));
      nls[i] := nls[i].(addReuseport := false);
    }
    if nls[i].fd != NONE || nls[i].inherited {
      return Fine;
    }
    NotGained(was, nls[..], held, i);
    var outcome := kernel.Open();
    match outcome {
      case SocketFails =>
        return Fatal;
      case SetupFails(s) =>
        kernel.Close(s);
        return Fatal;
      case Refused(s) =>
        kernel.Close(s);
        return Fatal;
      case InUse(s) =>
        kernel.Close(s);
        return Again;
      case Opens(s) =>
        var e := nls[i].(fd := s, listen := nls[i].listen || nls[i].kind == SOCK_STREAM);
        assert e == Opened(nls[i], s);
        GainOne(was, nls[..], held, i, e);
        nls[i] := e;
        return Fine;
    }
  }

  lemma ClosedOwnOn(a: seq<int>, b: seq<int>, c: seq<int>, held: set<int>)
    requires ClosedOwn(a, b, held) && ClosedOwn(b, c, held)
    ensures ClosedOwn(a, c, held)
  {
  }

  /** Every entry that is to have a socket has one. */
  ghost predicate AllOpen(nls: seq<Listening>) {
    forall i :: 0 <= i < |nls| ==> nls[i].ignore || nls[i].inherited || nls[i].fd != NONE
  }

  lemma NothingGained(was: seq<Listening>, held: set<int>)
    ensures Opening(was, was, held) && held + GainedFds(was, was, 0) == held
  {
  }

  /** How many entries are to get a socket. */
  function Missing(nls: seq<Listening>): nat {
    if nls == [] then 0 else Missing(nls[..|nls| - 1]) + if Needs(nls[|nls| - 1]) then 1 else 0
  }

  function InUseCount(pass: seq<Outcome>): nat {
    if pass == [] then 0 else InUseCount(pass[..|pass| - 1]) + if pass[|pass| - 1].InUse? then 1 else 0
  }

  ghost predicate NoneFatal(pass: seq<Outcome>) {
    forall k :: 0 <= k < |pass| ==> pass[k].Opens? || pass[k].InUse?
  }

  /** Try `k` was for the entries that were still missing, and none of them was fatal. */
  ghost predicate WholeTry(tries: seq<seq<Outcome>>, missing: nat, k: nat)
    requires k < |tries|
  {
    NoneFatal(tries[k]) && |tries[k]| == if k == 0 then missing else InUseCount(tries[k - 1])
  }

  /** Every try left some address in use. */
  ghost predicate AllInUse(tries: seq<seq<Outcome>>, missing: nat) {
    forall k :: 0 <= k < |tries| ==> WholeTry(tries, missing, k) && InUseCount(tries[k]) > 0
  }

  /** Up to five tries, all but the last with some address in use, and the last with none. */
  ghost predicate Succeeded(tries: seq<seq<Outcome>>, missing: nat) {
    && 1 <= |tries| <= 5 && AllInUse(tries[..|tries| - 1], missing)
    && WholeTry(tries, missing, |tries| - 1) && InUseCount(tries[|tries| - 1]) == 0
  }

  /** Five tries with some address in use, or a fatal failure in one of them. */
  ghost predicate Failed(tries: seq<seq<Outcome>>, missing: nat) {
    || (|tries| == 5 && AllInUse(tries, missing))
    || (&& 1 <= |tries| <= 5 && AllInUse(tries[..|tries| - 1], missing)
        && var last := tries[|tries| - 1];
           && 1 <= |last| <= (if |tries| == 1 then missing else InUseCount(tries[|tries| - 2]))
           && NoneFatal(last[..|last| - 1]) && !last[|last| - 1].Opens? && !last[|last| - 1].InUse?)
  }

  lemma {:induction false} NoneInUse(pass: seq<Outcome>)
    requires forall k :: 0 <= k < |pass| ==> !pass[k].InUse?
    ensures InUseCount(pass) == 0
  {
    if pass != [] {
      NoneInUse(pass[..|pass| - 1]);
    }
  }

  lemma {:induction false} FirstTry(tries: seq<seq<Outcome>>)
    requires tries != []
    ensures |tries[0]| <= |Concat(tries)| && Concat(tries)[..|tries[0]|] == tries[0]
    decreases |tries|
  {
    var n := |tries| - 1;
    if n == 0 {
      assert Concat(tries[..0]) == [];
      assert [] + tries[0] == tries[0];
    } else {
      FirstTry(tries[..n]);
      assert tries[..n][0] == tries[0];
    }
  }

  lemma OneInUse(tries: seq<seq<Outcome>>, missing: nat, k: nat)
    requires k < |tries|
    ensures AllInUse(tries, missing) ==> WholeTry(tries, missing, k) && InUseCount(tries[k]) > 0
  {
  }

  /** The two exclude each other, so opening succeeds exactly in the first case. */
  lemma SucceedOrFail(tries: seq<seq<Outcome>>, missing: nat)
    ensures !(Succeeded(tries, missing) && Failed(tries, missing))
  {
    if tries != [] {
      OneInUse(tries, missing, |tries| - 1);
    }
  }

  /** Whenever every attempt opens a socket, or there is nothing to open, opening succeeds. */
  lemma CannotFail(tries: seq<seq<Outcome>>, missing: nat)
    requires missing == 0 || forall k :: 0 <= k < |Concat(tries)| ==> Concat(tries)[k].Opens?
    ensures !Failed(tries, missing)
  {
    if tries != [] {
      var n := |tries| - 1;
      FirstTry(tries);
      if missing != 0 {
        assert forall k :: 0 <= k < |tries[0]| ==> tries[0][k] == Concat(tries)[k];
        NoneInUse(tries[0]);
      }
      OneInUse(tries, missing, 0);
      if n > 0 {
        OneInUse(tries[..n], missing, 0);
      }
    }
  }

  lemma MissingStep(nls: seq<Listening>, i: nat)
    requires i < |nls|
    ensures Missing(nls[..i + 1]) == Missing(nls[..i]) + if Needs(nls[i]) then 1 else 0
  {
    assert nls[..i + 1][..i] == nls[..i];
  }

  lemma InUseStep(pass: seq<Outcome>, o: Outcome)
    ensures InUseCount(pass + [o]) == InUseCount(pass) + if o.InUse? then 1 else 0
  {
    assert (pass + [o])[..|pass|] == pass;
  }

  lemma MoreTries(tries: seq<seq<Outcome>>, pass: seq<Outcome>)
    ensures Concat(tries + [pass]) == Concat(tries) + pass
  {
    assert (tries + [pass])[..|tries|] == tries;
  }

  /** What stands for the state between two tries: the tries so far and the entries still missing. */
  ghost predicate Between(tries: seq<seq<Outcome>>, missing: nat, now: nat) {
    AllInUse(tries, missing) && now == if tries == [] then missing else InUseCount(tries[|tries| - 1])
  }

  lemma NextTry(tries: seq<seq<Outcome>>, missing: nat, now: nat, pass: seq<Outcome>)
    requires Between(tries, missing, now) && |tries| < 5 && NoneFatal(pass) && |pass| == now
    ensures InUseCount(pass) > 0 ==> Between(tries + [pass], missing, InUseCount(pass))
    ensures InUseCount(pass) == 0 ==> Succeeded(tries + [pass], missing)
  {
    var all := tries + [pass];
    assert all[..|tries|] == tries;
    forall k | 0 <= k < |tries| ensures all[k] == tries[k] && WholeTry(all, missing, k) && InUseCount(all[k]) > 0 {
      assert WholeTry(tries, missing, k);
    }
    assert WholeTry(all, missing, |tries|);
  }

  lemma FatalTry(tries: seq<seq<Outcome>>, missing: nat, now: nat, pass: seq<Outcome>, o: Outcome)
    requires Between(tries, missing, now) && |tries| < 5 && NoneFatal(pass) && |pass| < now && StepOf(o) == Fatal
    ensures Failed(tries + [pass + [o]], missing)
  {
    var all, last := tries + [pass + [o]], pass + [o];
    assert all[..|tries|] == tries && all[|tries|] == last && last[..|pass|] == pass;
    assert |tries| > 0 ==> all[|tries| - 1] == tries[|tries| - 1];
  }

  lemma LastTry(tries: seq<seq<Outcome>>, missing: nat, now: nat)
    requires Between(tries, missing, now) && |tries| == 5
    ensures Failed(tries, missing)
  {
  }

  lemma {:induction false} NoneMissing(nls: seq<Listening>)
    requires Missing(nls) == 0
    ensures AllOpen(nls)
  {
    if nls != [] {
      NoneMissing(nls[..|nls| - 1]);
      assert forall i :: 0 <= i < |nls| - 1 ==> nls[i] == nls[..|nls| - 1][i];
    }
  }

  ghost predicate Gives(kernel: Kernel, o: Outcome) {
    exists n, held :: kernel.sys(n, held) == o
  }

  /** What the attempts gave is what the kernel gives. */
  ghost predicate FromKernel(kernel: Kernel, pass: seq<Outcome>) {
    forall k :: 0 <= k < |pass| ==> Gives(kernel, pass[k])
  }

  lemma FromKernelMore(kernel: Kernel, a: seq<Outcome>, b: seq<Outcome>)
    requires FromKernel(kernel, a) && FromKernel(kernel, b)
    ensures FromKernel(kernel, a + b)
  {
  }

  lemma NothingYet(nls: seq<Listening>)
    ensures Missing(nls[..0]) == 0 && InUseCount([]) == 0
  {
  }

  lemma {:induction false} MissingPrefix(nls: seq<Listening>, i: nat)
    requires i <= |nls|
    ensures Missing(nls[..i]) <= Missing(nls)
    decreases |nls|
  {
    if i == |nls| {
      assert nls[..i] == nls;
    } else {
      MissingPrefix(nls[..|nls| - 1], i);
      assert nls[..|nls| - 1][..i] == nls[..i];
    }
  }

  lemma NoTries(kernel: Kernel, missing: nat)
    ensures Between([], missing, missing) && Concat<Outcome>([]) == [] && FromKernel(kernel, [])
  {
  }

  /** One try: the loop over the entries. */
  method OpenAll(nls: array<Listening>, kernel: Kernel, ghost was: seq<Listening>, ghost held: set<int>)
    returns (r: Step, ghost pass: seq<Outcome>)
    requires nls.Length == |was| && kernel.Sound() && Opening(was, nls[..], held)
    requires kernel.open == held + GainedFds(was, nls[..], 0)
    modifies nls, kernel`attempts, kernel`open, kernel`closes, kernel`outcomes
    ensures Opening(was, nls[..], held) && kernel.open == held + GainedFds(was, nls[..], 0)
    ensures ClosedOwn(old(kernel.closes), kernel.closes, held)
    ensures kernel.outcomes == old(kernel.outcomes) + pass && FromKernel(kernel, pass)
    ensures r != Fatal ==> NoneFatal(pass) && |pass| == Missing(old(nls[..])) && InUseCount(pass) == Missing(nls[..])
    ensures r != Fatal ==> (r == Again <==> InUseCount(pass) > 0)
    ensures r == Fatal ==>
              && 1 <= |pass| <= Missing(old(nls[..])) && NoneFatal(pass[..|pass| - 1])
              && StepOf(pass[|pass| - 1]) == Fatal
  {
    hide Opening, GainedFds, Missing, InUseCount;
    ghost var start := nls[..];
    r, pass := Fine, [];
    NothingYet(nls[..]);
    for i := 0 to nls.Length
      invariant Opening(was, nls[..], held) && kernel.open == held + GainedFds(was, nls[..], 0)
      invariant ClosedOwn(old(kernel.closes), kernel.closes, held)
      invariant kernel.outcomes == old(kernel.outcomes) + pass && FromKernel(kernel, pass)
      invariant nls[i..] == start[i..] && NoneFatal(pass)
      invariant |pass| == Missing(start[..i]) && InUseCount(pass) == Missing(nls[..i])
      invariant r != Fatal && (r == Again <==> InUseCount(pass) > 0)
    {
      ghost var closes, before := kernel.closes, nls[..];
      assert nls[i] == start[i];
      var step := OpenOne(nls, i, kernel, was, held);
      ClosedOwnOn(old(kernel.closes), closes, kernel.closes, held);
      assert start[i..][1..] == start[i + 1..] && before[i..][1..] == before[i + 1..] == nls[i + 1..];
      MissingStep(start, i);
      MissingStep(nls[..], i);
      assert nls[..i] == before[..i];
      if Needs(start[i]) {
        ghost var o := kernel.outcomes[|kernel.outcomes| - 1];
        assert Gives(kernel, o);
        InUseStep(pass, o);
        pass := pass + [o];
        assert pass[..|pass| - 1] + [o] == pass;
      }
      if step == Fatal {
        MissingPrefix(start, i + 1);
        return Fatal, pass;
      }
      if step == Again {
        r := Again;
      }
    }
    assert nls[..nls.Length] == nls[..] && start[..nls.Length] == start;
  }

  /** ngx_open_listening_sockets: five tries. */
  method OpenSockets(nls: array<Listening>, kernel: Kernel) returns (ok: bool, ghost tries: seq<seq<Outcome>>)
    requires kernel.Sound()
    modifies nls, kernel`attempts, kernel`open, kernel`closes, kernel`outcomes
    ensures Opening(old(nls[..]), nls[..], old(kernel.open))
    ensures kernel.open == old(kernel.open) + GainedFds(old(nls[..]), nls[..], 0)
    ensures ClosedOwn(old(kernel.closes), kernel.closes, old(kernel.open))
    ensures ok ==> AllOpen(nls[..])
    ensures kernel.outcomes == old(kernel.outcomes) + Concat(tries) && FromKernel(kernel, Concat(tries))
    ensures if ok then Succeeded(tries, Missing(old(nls[..]))) else Failed(tries, Missing(old(nls[..])))
  {
    hide Opening, GainedFds, Missing, InUseCount, Between, Concat, Succeeded, Failed, AllOpen, NoneFatal, FromKernel;
    ghost var was, held := nls[..], kernel.open;
    NothingGained(was, held);
    NoTries(kernel, Missing(was));
    tries := [];
    for left := 5 downto 0
      invariant |tries| == 5 - left && Between(tries, Missing(was), Missing(nls[..]))
      invariant Opening(was, nls[..], held) && kernel.open == held + GainedFds(was, nls[..], 0)
      invariant ClosedOwn(old(kernel.closes), kernel.closes, held)
      invariant kernel.outcomes == old(kernel.outcomes) + Concat(tries) && FromKernel(kernel, Concat(tries))
    {
      ghost var closes, now := kernel.closes, Missing(nls[..]);
      ghost var pass;
      var r;
      r, pass := OpenAll(nls, kernel, was, held);
      ClosedOwnOn(old(kernel.closes), closes, kernel.closes, held);
      MoreTries(tries, pass);
      FromKernelMore(kernel, Concat(tries), pass);
      if r == Fatal {
        ghost var n := |pass| - 1;
        assert pass[..n] + [pass[n]] == pass;
        FatalTry(tries, Missing(was), now, pass[..n], pass[n]);
        return false, tries + [pass];
      }
      NextTry(tries, Missing(was), now, pass);
      tries := tries + [pass];
      if r == Fine {
        NoneMissing(nls[..]);
        return true, tries;
      }
    }
    LastTry(tries, Missing(was), Missing(nls[..]));
    return false, tries;
  }

  // ------------------------------------------------ rollback and commit

  lemma GainedFrom(was: seq<Listening>, now: seq<Listening>, held: set<int>, i: nat)
    requires Opening(was, now, held) && i < |was|
    ensures Gained(was, now, i) ==>
              now[i].fd !in held && held + GainedFds(was, now, i) - {now[i].fd} == held + GainedFds(was, now, i + 1)
    ensures !Gained(was, now, i) ==> GainedFds(was, now, i) == GainedFds(was, now, i + 1)
  {
    if Gained(was, now, i) {
      forall f ensures f in held + GainedFds(was, now, i) - {now[i].fd} <==> f in held + GainedFds(was, now, i + 1) {
      }
    } else {
      forall f ensures f in GainedFds(was, now, i) <==> f in GainedFds(was, now, i + 1) {
        if f in GainedFds(was, now, i) {
          var j :| i <= j < |was| && Gained(was, now, j) && now[j].fd == f;
          assert j != i;
        }
      }
    }
  }

  lemma NoneGained(was: seq<Listening>, now: seq<Listening>, held: set<int>)
    requires |was| == |now|
    ensures held + GainedFds(was, now, |was|) == held
  {
  }

  /** The end of a failed reload: the sockets it opened are closed. */
  method Rollback(nls: array<Listening>, kernel: Kernel, ghost was: seq<Listening>, ghost held: set<int>)
    requires Opening(was, nls[..], held) && kernel.open == held + GainedFds(was, nls[..], 0)
    requires forall i :: 0 <= i < |was| ==> (was[i].opening ==> was[i].fd == NONE) && (!was[i].opening ==> !Gained(was, nls[..], i))
    modifies kernel`open, kernel`closes
    ensures kernel.open == held && ClosedOwn(old(kernel.closes), kernel.closes, held)
  {
    hide GainedFds;
    ghost var now := nls[..];
    for i := 0 to nls.Length
      invariant kernel.open == held + GainedFds(was, now, i)
      invariant ClosedOwn(old(kernel.closes), kernel.closes, held)
    {
      GainedFrom(was, now, held, i);
      if nls[i].fd != NONE && nls[i].opening {
        assert Gained(was, now, i);
        kernel.Close(nls[i].fd);
      } else {
        assert !Gained(was, now, i);
      }
    }
    NoneGained(was, now, held);
  }

  /** The sockets of the old entries from `i` on that nobody took over. */
  function LeftOver(olds: seq<Listening>, i: nat): seq<int>
    requires i <= |olds|
    decreases |olds| - i
  {
    if i == |olds| then []
    else (if olds[i].remain || olds[i].fd == NONE then [] else [olds[i].fd]) + LeftOver(olds, i + 1)
  }

  function FdsOf(s: seq<int>): set<int> {
    set f | f in s
  }

  lemma FdsOfMore(f: int, s: seq<int>)
    ensures FdsOf([f] + s) == {f} + FdsOf(s)
  {
  }

  /** The end of a reload: the sockets left over are closed. */
  method CloseLeftOver(ls: array<Listening>, kernel: Kernel)
    modifies kernel`open, kernel`closes
    ensures kernel.closes == old(kernel.closes) + LeftOver(ls[..], 0)
    ensures kernel.open == old(kernel.open) - FdsOf(LeftOver(ls[..], 0))
  {
    for i := 0 to ls.Length
      invariant kernel.closes + LeftOver(ls[..], i) == old(kernel.closes) + LeftOver(ls[..], 0)
      invariant kernel.open - FdsOf(LeftOver(ls[..], i)) == old(kernel.open) - FdsOf(LeftOver(ls[..], 0))
    {
      if !ls[i].remain && ls[i].fd != NONE {
        FdsOfMore(ls[i].fd, LeftOver(ls[..], i + 1));
        kernel.Close(ls[i].fd);
      } else {
        assert [] + LeftOver(ls[..], i + 1) == LeftOver(ls[..], i + 1);
      }
    }
  }

  // ------------------------------------------------------ the whole reload

  /** Valid descriptors of different entries are different. */
  ghost predicate DistinctFds(olds: seq<Listening>) {
    forall i, j :: 0 <= i < j < |olds| && olds[i].fd != NONE ==> olds[i].fd != olds[j].fd
  }

  ghost predicate HeldBy(olds: seq<Listening>, held: set<int>) {
    forall i :: 0 <= i < |olds| && olds[i].fd != NONE ==> olds[i].fd in held
  }

  /** Exactly one entry has the socket `f`. */
  ghost predicate HeldOnce(news: seq<Listening>, f: int) {
    exists k :: 0 <= k < |news| && news[k].fd == f && forall j :: 0 <= j < |news| && news[j].fd == f ==> j == k
  }

  ghost predicate NotHeld(news: seq<Listening>, f: int) {
    forall k :: 0 <= k < |news| ==> news[k].fd != f
  }

  /** An entry that has an old socket took it over from the entry that had it. */
  lemma HolderTookOver(olds: seq<Listening>, news: seq<Listening>, now: seq<Listening>, held: set<int>, i: nat, k: nat)
    requires FreshEntries(news) && DistinctFds(olds) && HeldBy(olds, held)
    requires Opening(MatchedAll(olds, news), now, held)
    requires i < |olds| && olds[i].fd != NONE && k < |news| && now[k].fd == olds[i].fd
    ensures MatchedAll(olds, news)[k].previous == i && KeptBy(olds, news)[i].remain
  {
    hide KeptBy, Kept, Matched;
    MatchedEntry(olds, news, k);
    var p := MatchedAll(olds, news)[k].previous;
    assert !Gained(MatchedAll(olds, news), now, k);
    assert olds[p].fd == olds[i].fd;
  }

  lemma OpeningSizes(was: seq<Listening>, now: seq<Listening>, held: set<int>)
    requires Opening(was, now, held)
    ensures |was| == |now|
  {
  }

  lemma KeptFd(was: seq<Listening>, now: seq<Listening>, held: set<int>, k: nat)
    requires Opening(was, now, held) && k < |was| && was[k].fd != NONE
    ensures |was| == |now| && now[k].fd == was[k].fd
  {
    assert !Gained(was, now, k);
  }

  /** A socket is held by exactly one new entry if its old entry remains, and by none otherwise. */
  lemma OldSocketHeld(olds: seq<Listening>, news: seq<Listening>, now: seq<Listening>, held: set<int>, i: nat)
    requires FreshEntries(news) && DistinctFds(olds) && HeldBy(olds, held)
    requires Opening(MatchedAll(olds, news), now, held)
    requires i < |olds| && !olds[i].remain && olds[i].fd != NONE
    ensures KeptBy(olds, news)[i].remain ==> HeldOnce(now, olds[i].fd)
    ensures !KeptBy(olds, news)[i].remain ==> NotHeld(now, olds[i].fd)
  {
    hide KeptBy, MatchedAll, Opening;
    var was, f := MatchedAll(olds, news), olds[i].fd;
    OpeningSizes(was, now, held);
    forall j | 0 <= j < |news| && now[j].fd == f ensures was[j].previous == i && KeptBy(olds, news)[i].remain {
      HolderTookOver(olds, news, now, held, i, j);
    }
    if KeptBy(olds, news)[i].remain {
      var k := RemainsForOne(olds, news, i);
      MatchedEntry(olds, news, k);
      KeptFd(was, now, held, k);
      forall j | 0 <= j < |news| && now[j].fd == f ensures j == k {
        if j < k {
          MatchingInjective(olds, news, j, k);
        } else if k < j {
          MatchingInjective(olds, news, k, j);
        }
      }
    }
  }

  lemma {:induction false} LeftOverOthers(olds: seq<Listening>, i: nat, f: int)
    requires i <= |olds| && forall j :: i <= j < |olds| ==> olds[j].fd != f
    ensures f !in LeftOver(olds, i)
    decreases |olds| - i
  {
    if i < |olds| {
      var here := if olds[i].remain || olds[i].fd == NONE then [] else [olds[i].fd];
      assert f !in here && LeftOver(olds, i) == here + LeftOver(olds, i + 1);
      LeftOverOthers(olds, i + 1, f);
    }
  }

  /** With distinct descriptors, each one left over is in the list once and no other is in it. */
  lemma {:induction false} LeftOverOnce(olds: seq<Listening>, i: nat, k: nat)
    requires i <= k < |olds| && DistinctFds(olds) && olds[k].fd != NONE
    ensures multiset(LeftOver(olds, i))[olds[k].fd] == if olds[k].remain then 0 else 1
    decreases |olds| - i
  {
    var here := if olds[i].remain || olds[i].fd == NONE then [] else [olds[i].fd];
    assert LeftOver(olds, i) == here + LeftOver(olds, i + 1);
    if i < k {
      LeftOverOnce(olds, i + 1, k);
    } else {
      LeftOverOthers(olds, i + 1, olds[k].fd);
    }
  }

  /** What became of an old socket `f` in a reload that succeeded. */
  ghost predicate Settled(f: int, remain: bool, news: seq<Listening>, closed: seq<int>, open: set<int>) {
    if remain then HeldOnce(news, f) && f in open && multiset(closed)[f] == 0
    else NotHeld(news, f) && f !in open && multiset(closed)[f] == 1
  }

  ghost predicate AllSettled(olds: seq<Listening>, news: seq<Listening>, closed: seq<int>, open: set<int>) {
    forall i :: 0 <= i < |olds| && olds[i].fd != NONE ==> Settled(olds[i].fd, olds[i].remain, news, closed, open)
  }

  /** The old entries as the matching left them are closed or held. */
  lemma SettleOne(olds: seq<Listening>, news: seq<Listening>, now: seq<Listening>, held: set<int>,
                  own: seq<int>, i: nat)
    requires FreshEntries(news) && DistinctFds(olds) && HeldBy(olds, held)
    requires forall j :: 0 <= j < |olds| ==> !olds[j].remain
    requires Opening(MatchedAll(olds, news), now, held) && (forall j :: 0 <= j < |own| ==> own[j] !in held)
    requires i < |olds| && olds[i].fd != NONE
    ensures var kept := KeptBy(olds, news);
            Settled(olds[i].fd, kept[i].remain, now, own + LeftOver(kept, 0),
                    held + GainedFds(MatchedAll(olds, news), now, 0) - FdsOf(LeftOver(kept, 0)))
  {
    hide Opening, MatchedAll, KeptBy, LeftOver;
    var kept, f := KeptBy(olds, news), olds[i].fd;
    OldSocketHeld(olds, news, now, held, i);
    forall j | 0 <= j < |olds| ensures kept[j].fd == olds[j].fd {
      KeptByChanges(olds, news, j);
    }
    assert DistinctFds(kept);
    LeftOverOnce(kept, 0, i);
    assert f !in own;
    assert multiset(own + LeftOver(kept, 0)) == multiset(own) + multiset(LeftOver(kept, 0));
    assert f in LeftOver(kept, 0) <==> multiset(LeftOver(kept, 0))[f] > 0;
  }

  lemma {:induction false} SameTaken(was: seq<Listening>, now: seq<Listening>, c: Class)
    requires |was| == |now|
    requires forall i :: 0 <= i < |was| ==>
               now[i].kind == was[i].kind && now[i].addr == was[i].addr && now[i].previous == was[i].previous
    ensures CountTaken(now, c) == CountTaken(was, c)
    decreases |was|
  {
    if was != [] {
      SameTaken(was[1..], now[1..], c);
    }
  }

  lemma MarkedEntries(olds: seq<Listening>, news: seq<Listening>)
    requires FreshEntries(news)
    ensures forall i :: 0 <= i < |news| ==>
              (MatchedAll(olds, news)[i].opening <==> MatchedAll(olds, news)[i].fd == NONE)
  {
    forall i | 0 <= i < |news|
      ensures MatchedAll(olds, news)[i].opening <==> MatchedAll(olds, news)[i].fd == NONE
    {
      MatchedEntry(olds, news, i);
    }
  }

  lemma OpeningOnly(was: seq<Listening>, now: seq<Listening>, held: set<int>)
    requires Opening(was, now, held) && forall i :: 0 <= i < |was| ==> (was[i].opening <==> was[i].fd == NONE)
    ensures |was| == |now|
    ensures forall i :: 0 <= i < |was| ==> (was[i].opening ==> was[i].fd == NONE) && (!was[i].opening ==> !Gained(was, now, i))
  {
  }

  lemma SameEntries(was: seq<Listening>, now: seq<Listening>, held: set<int>)
    requires Opening(was, now, held)
    ensures |was| == |now|
    ensures forall i :: 0 <= i < |was| ==>
              now[i].kind == was[i].kind && now[i].addr == was[i].addr && now[i].previous == was[i].previous
  {
  }

  lemma SettleAll(olds: seq<Listening>, news: seq<Listening>, now: seq<Listening>, held: set<int>, own: seq<int>)
    requires FreshEntries(news) && DistinctFds(olds) && HeldBy(olds, held)
    requires forall j :: 0 <= j < |olds| ==> !olds[j].remain
    requires Opening(MatchedAll(olds, news), now, held) && (forall j :: 0 <= j < |own| ==> own[j] !in held)
    ensures |news| == |now|
    ensures var kept := KeptBy(olds, news);
            AllSettled(kept, now, own + LeftOver(kept, 0),
                       held + GainedFds(MatchedAll(olds, news), now, 0) - FdsOf(LeftOver(kept, 0)))
  {
    hide Opening, MatchedAll, KeptBy, LeftOver, GainedFds, Settled;
    var kept := KeptBy(olds, news);
    OpeningSizes(MatchedAll(olds, news), now, held);
    forall i | 0 <= i < |kept| && kept[i].fd != NONE
      ensures Settled(kept[i].fd, kept[i].remain, now, own + LeftOver(kept, 0),
                      held + GainedFds(MatchedAll(olds, news), now, 0) - FdsOf(LeftOver(kept, 0)))
    {
      KeptByChanges(olds, news, i);
      SettleOne(olds, news, now, held, own, i);
    }
  }

  /** The descriptors of the entries. */
  ghost function Descriptors(ls: seq<Listening>): set<int> {
    set i | 0 <= i < |ls| && ls[i].fd != NONE :: ls[i].fd
  }

  /** The entries of a running cycle: their descriptors are different and open. */
  ghost predicate Running(ls: seq<Listening>, open: set<int>) {
    DistinctFds(ls) && HeldBy(ls, open)
  }

  lemma SameDescriptors(ls: seq<Listening>, ls': seq<Listening>, open: set<int>)
    requires |ls| == |ls'| && forall i :: 0 <= i < |ls| ==> ls[i].fd == ls'[i].fd
    ensures Descriptors(ls) == Descriptors(ls') && (Running(ls, open) ==> Running(ls', open))
  {
    forall f ensures f in Descriptors(ls) <==> f in Descriptors(ls') {
      if f in Descriptors(ls) {
        var i :| 0 <= i < |ls| && ls[i].fd == f && f != NONE;
        assert ls'[i].fd == f;
      }
      if f in Descriptors(ls') {
        var i :| 0 <= i < |ls| && ls'[i].fd == f && f != NONE;
        assert ls[i].fd == f;
      }
    }
  }

  lemma {:induction false} LeftOverMembers(olds: seq<Listening>, i: nat, f: int)
    requires i <= |olds|
    ensures f in LeftOver(olds, i) <==> exists j :: i <= j < |olds| && olds[j].fd == f != NONE && !olds[j].remain
    decreases |olds| - i
  {
    if i < |olds| {
      var here := if olds[i].remain || olds[i].fd == NONE then [] else [olds[i].fd];
      assert LeftOver(olds, i) == here + LeftOver(olds, i + 1);
      LeftOverMembers(olds, i + 1, f);
    }
  }

  /** An entry has the socket of the old entry that it took over, which remains, or a new one, or none. */
  lemma WhereFrom(olds: seq<Listening>, news: seq<Listening>, now: seq<Listening>, held: set<int>, k: nat)
    requires FreshEntries(news) && HeldBy(olds, held) && Opening(MatchedAll(olds, news), now, held) && k < |news|
    ensures |now| == |news|
    ensures var was := MatchedAll(olds, news);
            if Gained(was, now, k) then now[k].fd >= 0 && now[k].fd !in held && now[k].fd in GainedFds(was, now, 0)
            else if now[k].fd == NONE then true
            else
              var p := was[k].previous;
              0 <= p < |olds| && now[k].fd == olds[p].fd && now[k].fd in held && KeptBy(olds, news)[p].remain
  {
    hide KeptBy, MatchedAll;
    MatchedEntry(olds, news, k);
  }

  lemma NewDistinct(olds: seq<Listening>, news: seq<Listening>, now: seq<Listening>, held: set<int>)
    requires FreshEntries(news) && Running(olds, held) && Opening(MatchedAll(olds, news), now, held)
    ensures DistinctFds(now)
  {
    hide KeptBy, MatchedAll, GainedFds;
    var was := MatchedAll(olds, news);
    forall j, k | 0 <= j < k < |now| && now[j].fd != NONE ensures now[j].fd != now[k].fd {
      WhereFrom(olds, news, now, held, j);
      WhereFrom(olds, news, now, held, k);
      MatchingInjective(olds, news, j, k);
    }
  }

  /** A descriptor of an old entry stays open exactly when a new entry has it. */
  lemma OldStaysOpen(olds: seq<Listening>, news: seq<Listening>, now: seq<Listening>, held: set<int>, i: nat)
    requires FreshEntries(news) && Running(olds, held) && Opening(MatchedAll(olds, news), now, held)
    requires i < |olds| && !olds[i].remain && olds[i].fd != NONE
    ensures olds[i].fd in LeftOver(KeptBy(olds, news), 0) <==> olds[i].fd !in Descriptors(now)
  {
    hide KeptBy, MatchedAll, LeftOver, Opening;
    var kept, f := KeptBy(olds, news), olds[i].fd;
    forall j | 0 <= j < |olds| ensures kept[j].fd == olds[j].fd {
      KeptByChanges(olds, news, j);
    }
    LeftOverMembers(kept, 0, f);
    OldSocketHeld(olds, news, now, held, i);
    if kept[i].remain {
      var k :| 0 <= k < |now| && now[k].fd == f;
      assert f in Descriptors(now);
    } else {
      assert kept[i].fd == f;
    }
  }

  /** Any other descriptor is not closed, and a new entry has it only if it was opened for it. */
  lemma OtherStaysOpen(olds: seq<Listening>, news: seq<Listening>, now: seq<Listening>, held: set<int>, f: int)
    requires FreshEntries(news) && Running(olds, held) && Opening(MatchedAll(olds, news), now, held)
    requires f !in Descriptors(olds)
    ensures f !in LeftOver(KeptBy(olds, news), 0)
    ensures f in GainedFds(MatchedAll(olds, news), now, 0) <==> f in Descriptors(now)
  {
    hide KeptBy, MatchedAll, LeftOver;
    var kept, was := KeptBy(olds, news), MatchedAll(olds, news);
    LeftOverMembers(kept, 0, f);
    forall j | 0 <= j < |kept| && kept[j].fd == f ensures f == NONE {
      KeptByChanges(olds, news, j);
    }
    if f in GainedFds(was, now, 0) {
      var k :| 0 <= k < |was| && Gained(was, now, k) && now[k].fd == f;
      assert f in Descriptors(now);
    }
    if f in Descriptors(now) {
      var k :| 0 <= k < |now| && now[k].fd == f != NONE;
      WhereFrom(olds, news, now, held, k);
    }
  }

  /** What stays open: everything else that was open, and the sockets of the new entries. */
  lemma NewOpen(olds: seq<Listening>, news: seq<Listening>, now: seq<Listening>, held: set<int>, open: set<int>)
    requires FreshEntries(news) && Running(olds, held) && Opening(MatchedAll(olds, news), now, held)
    requires forall j :: 0 <= j < |olds| ==> !olds[j].remain
    requires open == held + GainedFds(MatchedAll(olds, news), now, 0) - FdsOf(LeftOver(KeptBy(olds, news), 0))
    ensures open == held - Descriptors(olds) + Descriptors(now)
  {
    hide KeptBy, MatchedAll, LeftOver, Opening, GainedFds;
    forall f ensures f in open <==> f in held - Descriptors(olds) + Descriptors(now) {
      if f in Descriptors(olds) {
        var i :| 0 <= i < |olds| && olds[i].fd == f != NONE;
        OldStaysOpen(olds, news, now, held, i);
      } else {
        OtherStaysOpen(olds, news, now, held, f);
      }
    }
  }

  lemma GainedIsNew(was: seq<Listening>, now: seq<Listening>, held: set<int>, f: int)
    requires Opening(was, now, held) && f in GainedFds(was, now, 0)
    ensures f !in held
  {
  }

  /** A reload that succeeds leaves a running cycle, and everything else open. */
  lemma NewCycle(ls: seq<Listening>, news: seq<Listening>, now: seq<Listening>, held: set<int>, open: set<int>, own: seq<int>)
    requires FreshEntries(news) && Running(ls, held) && Opening(MatchedAll(Unmarked(ls), news), now, held)
    requires open == held + GainedFds(MatchedAll(Unmarked(ls), news), now, 0) - FdsOf(LeftOver(KeptBy(Unmarked(ls), news), 0))
    requires forall j :: 0 <= j < |own| ==> own[j] !in held
    ensures Running(now, open) && open == held - Descriptors(ls) + Descriptors(now)
    ensures Descriptors(now) !! held - Descriptors(ls)
    ensures forall f :: f in own + LeftOver(KeptBy(Unmarked(ls), news), 0) ==> f !in held - Descriptors(ls)
  {
    hide KeptBy, MatchedAll, LeftOver, Opening, GainedFds;
    var olds := Unmarked(ls);
    SameDescriptors(ls, olds, held);
    NewDistinct(olds, news, now, held);
    NewOpen(olds, news, now, held, open);
    forall f | f in LeftOver(KeptBy(olds, news), 0) ensures f in Descriptors(olds) {
      if f !in Descriptors(olds) {
        OtherStaysOpen(olds, news, now, held, f);
      }
    }
    forall f | f in Descriptors(now) && f !in Descriptors(olds) ensures f !in held {
      OtherStaysOpen(olds, news, now, held, f);
      GainedIsNew(MatchedAll(olds, news), now, held, f);
    }
    assert HeldBy(now, open);
  }

  /**
    The listening sockets in ngx_init_cycle, outside test mode.  `early` is a failure
    before the sockets are looked at.  The old sockets are open and different, and the
    new entries have none.
  */
  method ReloadSockets(ls: array<Listening>, nls: array<Listening>, kernel: Kernel, early: bool)
    returns (ok: bool, ghost tries: seq<seq<Outcome>>)
    requires ls != nls && kernel.Sound() && FreshEntries(nls[..])
    requires Running(ls[..], kernel.open)
    modifies ls, nls, kernel`attempts, kernel`open, kernel`closes, kernel`outcomes
    ensures early ==> !ok && kernel.outcomes == old(kernel.outcomes)
    ensures !early ==>
              var was := old(MatchedAll(Unmarked(ls[..]), nls[..]));
              && kernel.outcomes == old(kernel.outcomes) + Concat(tries)
              && (if ok then Succeeded(tries, Missing(was)) else Failed(tries, Missing(was)))
              && Opening(was, nls[..], old(kernel.open))
    ensures !early && kernel.AlwaysOpens() ==> ok
    ensures !early && old(Missing(MatchedAll(Unmarked(ls[..]), nls[..]))) == 0 ==> ok
    ensures !ok ==> kernel.open == old(kernel.open) && ClosedOwn(old(kernel.closes), kernel.closes, old(kernel.open))
    ensures ClosedOwn(old(kernel.closes), kernel.closes, old(kernel.open - Descriptors(ls[..])))
    ensures forall i :: 0 <= i < ls.Length ==> ls[i] == old(ls[i]).(remain := ls[i].remain)
    ensures ok ==> Running(nls[..], kernel.open)
    ensures ok ==> kernel.open == old(kernel.open - Descriptors(ls[..])) + Descriptors(nls[..])
    ensures ok ==> old(kernel.open - Descriptors(ls[..])) !! Descriptors(nls[..])
    ensures ok ==> AllSettled(ls[..], nls[..], kernel.closes[|old(kernel.closes)|..], kernel.open)
    ensures ok ==> AllOpen(nls[..])
    ensures ok ==> forall c: Class :: !c.addr.Unix? ==>
              CountTaken(nls[..], c) == Least(CountFree(Unmarked(old(ls[..])), c), CountNew(old(nls[..]), c))
  {
    hide Opening, MatchedAll, KeptBy, LeftOver, GainedFds, Settled, CountTaken, CountFree, CountNew, Succeeded, Failed, Missing,
         Concat;
    ghost var olds, news, held := Unmarked(ls[..]), nls[..], kernel.open;
    tries := [];
    if early {
      NothingGained(news, held);
      Rollback(nls, kernel, news, held);
      return false, tries;
    }
    MatchSockets(ls, nls);
    forall i | 0 <= i < ls.Length ensures ls[i] == old(ls[i]).(remain := ls[i].remain) {
      KeptByChanges(olds, news, i);
    }
    ghost var was := nls[..];
    MarkedEntries(olds, news);
    ok, tries := OpenSockets(nls, kernel);
    if kernel.AlwaysOpens() || Missing(was) == 0 {
      CannotFail(tries, Missing(was));
    }
    OpeningSizes(was, nls[..], held);
    if !ok {
      OpeningOnly(was, nls[..], held);
      ghost var closes := kernel.closes;
      Rollback(nls, kernel, was, held);
      ClosedOwnOn(old(kernel.closes), closes, kernel.closes, held);
      return;
    }
    ghost var own := kernel.closes[|old(kernel.closes)|..];
    CloseLeftOver(ls, kernel);
    assert kernel.closes[|old(kernel.closes)|..] == own + LeftOver(ls[..], 0);
    SettleAll(olds, news, nls[..], held, own);
    NewCycle(old(ls[..]), news, nls[..], held, kernel.open, own);
    forall c: Class | !c.addr.Unix? ensures CountTaken(nls[..], c) == Least(CountFree(olds, c), CountNew(news, c)) {
      ClassCount(olds, news, c);
      SameEntries(was, nls[..], held);
      SameTaken(was, nls[..], c);
    }
  }

  // ------------------------------------------------------ many reloads

  /** The listening sockets are open and different, and `others` are the other descriptors open. */
  ghost predicate Serving(ls: seq<Listening>, others: set<int>, open: set<int>) {
    Running(ls, open) && open == others + Descriptors(ls) && others !! Descriptors(ls)
  }

  lemma ServingSame(ls: seq<Listening>, ls': seq<Listening>, others: set<int>, open: set<int>)
    requires Serving(ls, others, open) && |ls| == |ls'| && forall i :: 0 <= i < |ls| ==> ls'[i].fd == ls[i].fd
    ensures Serving(ls', others, open)
  {
    SameDescriptors(ls, ls', open);
  }

  lemma ServingStart(ls: seq<Listening>, open: set<int>)
    requires Running(ls, open)
    ensures Serving(ls, open - Descriptors(ls), open)
  {
    assert open == open - Descriptors(ls) + Descriptors(ls);
  }

  /**
    Any number of reloads, each of which may succeed or fail anywhere: `early` says which
    fail before the sockets are looked at.  In the end the descriptors open are those of
    the cycle that is left and those that were open besides the first cycle's, none of
    which was ever closed: no socket is leaked and none is lost.
  */
  method Reloads(first: array<Listening>, configs: seq<seq<Listening>>, early: nat -> bool, kernel: Kernel)
    returns (ls: array<Listening>)
    requires kernel.Sound() && Running(first[..], kernel.open)
    requires forall n :: 0 <= n < |configs| ==> FreshEntries(configs[n])
    modifies first, kernel`attempts, kernel`open, kernel`closes, kernel`outcomes
    ensures Serving(ls[..], old(kernel.open - Descriptors(first[..])), kernel.open)
    ensures ClosedOwn(old(kernel.closes), kernel.closes, old(kernel.open - Descriptors(first[..])))
  {
    hide Descriptors, FreshEntries;
    ghost var others := kernel.open - Descriptors(first[..]);
    ServingStart(first[..], kernel.open);
    ls := first;
    for n := 0 to |configs|
      invariant ls == first || fresh(ls)
      invariant kernel.Sound() && Serving(ls[..], others, kernel.open)
      invariant ClosedOwn(old(kernel.closes), kernel.closes, others)
    {
      var config := configs[n];
      var nls := new Listening[|config|](i requires 0 <= i < |config| => config[i]);
      assert nls[..] == config;
      ghost var was, closes := ls[..], kernel.closes;
      assert kernel.open - Descriptors(was) == others;
      ghost var tries;
      var ok;
      ok, tries := ReloadSockets(ls, nls, kernel, early(n));
      ClosedOwnOn(old(kernel.closes), closes, kernel.closes, others);
      if ok {
        ls := nls;
      } else {
        ServingSame(was, ls[..], others, kernel.open);
      }
    }
  }
}
