/**
  The list of error logs (ngx_log.c): logs are kept with the most talkative first, at a
  head whose address never changes, and a message stops at the first log that does not
  want it.
*/
module LogList {
  import opened LinkedList

  /** What a log is: its level, and where it writes. */
  datatype Log = Log(level: nat, target: int)

  /** NGX_LOG_DEBUG_CONNECTION in a level. */
  predicate DebugConnection(level: nat) {
    (level / 0x8000_0000) % 2 == 1
  }

  // ------------------------------------------------------------- the lists

  /** A log goes after all those of its level or above. */
  function Inserted(l: seq<Log>, x: Log): seq<Log> {
    if l == [] then [x]
    else if x.level > l[0].level then [x] + l
    else [l[0]] + Inserted(l[1..], x)
  }

  /** A log is added: the first one takes the place of a head without a level. */
  function Added(l: seq<Log>, x: Log): seq<Log> {
    if l != [] && l[0].level == 0 then [x] + l[1..] else Inserted(l, x)
  }

  function AddedAll(l: seq<Log>, xs: seq<Log>): seq<Log>
    decreases |xs|
  {
    if xs == [] then l else AddedAll(Added(l, xs[0]), xs[1..])
  }

  ghost predicate Sorted(l: seq<Log>) {
    forall i, j :: 0 <= i < j < |l| ==> l[i].level >= l[j].level
  }

  ghost predicate Configured(xs: seq<Log>) {
    forall i :: 0 <= i < |xs| ==> xs[i].level > 0
  }

  lemma {:induction false} InsertedHolds(l: seq<Log>, x: Log)
    ensures multiset(Inserted(l, x)) == multiset(l) + multiset{x}
  {
    if l != [] {
      assert l == [l[0]] + l[1..];
      if x.level <= l[0].level {
        InsertedHolds(l[1..], x);
      }
    }
  }

  lemma InsertedMembers(l: seq<Log>, x: Log, y: Log)
    ensures y in Inserted(l, x) <==> y in l || y == x
  {
    InsertedHolds(l, x);
    assert y in multiset(Inserted(l, x)) <==> y in multiset(l) || y == x;
  }

  lemma SortedTail(first: Log, rest: seq<Log>)
    requires Sorted(rest) && forall y :: y in rest ==> y.level <= first.level
    ensures Sorted([first] + rest)
  {
    forall i, j | 0 <= i < j < |[first] + rest| ensures ([first] + rest)[i].level >= ([first] + rest)[j].level {
      assert rest[j - 1] in rest;
    }
  }

  lemma {:induction false} InsertedSorted(l: seq<Log>, x: Log)
    requires Sorted(l)
    ensures Sorted(Inserted(l, x))
  {
    if l != [] {
      forall y | y in l ensures y.level <= l[0].level {
      }
      if x.level > l[0].level {
        SortedTail(x, l);
      } else {
        InsertedSorted(l[1..], x);
        forall y | y in Inserted(l[1..], x) ensures y.level <= l[0].level {
          InsertedMembers(l[1..], x, y);
        }
        SortedTail(l[0], Inserted(l[1..], x));
      }
    }
  }

  /** A configured list: sorted, and every log has a level. */
  ghost predicate Good(l: seq<Log>) {
    Sorted(l) && Configured(l)
  }

  lemma AddedGood(l: seq<Log>, x: Log)
    requires Good(l) && x.level > 0
    ensures Good(Added(l, x)) && multiset(Added(l, x)) == multiset(l) + multiset{x}
  {
    InsertedHolds(l, x);
    InsertedSorted(l, x);
    var r := Inserted(l, x);
    forall i | 0 <= i < |r| ensures r[i].level > 0 {
      InsertedMembers(l, x, r[i]);
    }
  }

  lemma {:induction false} AddedAllGood(l: seq<Log>, xs: seq<Log>)
    requires Good(l) && Configured(xs)
    ensures Good(AddedAll(l, xs)) && multiset(AddedAll(l, xs)) == multiset(l) + multiset(xs)
    decreases |xs|
  {
    if xs != [] {
      AddedGood(l, xs[0]);
      AddedAllGood(Added(l, xs[0]), xs[1..]);
      assert xs == [xs[0]] + xs[1..];
    }
  }

  /**
    After any run of additions, from no list or from a head without a level, the list is
    sorted and holds every log added, once for each time.
  */
  lemma RunIsSorted(blank: seq<Log>, xs: seq<Log>)
    requires Configured(xs) && (blank == [] || (|blank| == 1 && blank[0].level == 0 && xs != []))
    ensures Good(AddedAll(blank, xs)) && multiset(AddedAll(blank, xs)) == multiset(xs)
  {
    if blank == [] {
      AddedAllGood([], xs);
    } else {
      assert Added(blank, xs[0]) == [xs[0]];
      AddedAllGood([xs[0]], xs[1..]);
      assert xs == [xs[0]] + xs[1..];
    }
  }

  // -------------------------------------------------------------- delivery

  /** The logs a message reaches. */
  function Reached(l: seq<Log>, level: nat, debug: bool): seq<Log> {
    if l == [] || (l[0].level < level && !debug) then [] else [l[0]] + Reached(l[1..], level, debug)
  }

  /** The logs that want a message of that level. */
  function Wanting(l: seq<Log>, level: nat): seq<Log> {
    if l == [] then [] else (if l[0].level >= level then [l[0]] else []) + Wanting(l[1..], level)
  }

  lemma {:induction false} NoneWants(l: seq<Log>, level: nat)
    requires forall i :: 0 <= i < |l| ==> l[i].level < level
    ensures Wanting(l, level) == []
  {
    if l != [] {
      NoneWants(l[1..], level);
    }
  }

  /** In a sorted list stopping early loses nobody. */
  lemma {:induction false} ReachedAreWanting(l: seq<Log>, level: nat)
    requires Sorted(l)
    ensures Reached(l, level, false) == Wanting(l, level)
  {
    if l != [] {
      if l[0].level < level {
        NoneWants(l, level);
      } else {
        ReachedAreWanting(l[1..], level);
      }
    }
  }

  /** With the debug bit of a connection every log is reached. */
  lemma {:induction false} DebugReachesAll(l: seq<Log>, level: nat)
    ensures Reached(l, level, true) == l
  {
    if l != [] {
      DebugReachesAll(l[1..], level);
    }
  }

  /** A message reaches exactly the logs whose level is at least its own, in their order. */
  lemma DeliveryIsExact(blank: seq<Log>, xs: seq<Log>, level: nat)
    requires Configured(xs) && (blank == [] || (|blank| == 1 && blank[0].level == 0 && xs != []))
    ensures Reached(AddedAll(blank, xs), level, false) == Wanting(AddedAll(blank, xs), level)
  {
    RunIsSorted(blank, xs);
    ReachedAreWanting(AddedAll(blank, xs), level);
  }

  // --------------------------------------------------------------- in place

  ghost function ContentsOf(content: seq<Log>, nodes: seq<int>): (r: seq<Log>)
    requires forall i :: 0 <= i < |nodes| ==> 0 <= nodes[i] < |content|
    ensures |r| == |nodes|
    ensures forall i :: 0 <= i < |nodes| ==> r[i] == content[nodes[i]]
  {
    seq(|nodes|, i requires 0 <= i < |nodes| => content[nodes[i]])
  }

  lemma ReachNext(a: seq<Log>, x: Log, b: seq<Log>)
    ensures a + ([x] + b) == a + [x] + b
  {
  }

  lemma {:induction false} ListGrow(next: seq<int>, head: int, nodes: seq<int>)
    requires List(next, head, nodes)
    ensures List(next + [NULL], head, nodes)
    decreases |nodes|
  {
    if nodes != [] {
      ListGrow(next, next[head], nodes[1..]);
    }
  }

  /** One more record, not yet in the list. */
  lemma Grow(next: seq<int>, content: seq<Log>, head: int, nodes: seq<int>, x: Log)
    requires List(next, head, nodes) && |content| == |next|
    ensures List(next + [NULL], head, nodes) && |content| !in nodes
    ensures forall i :: 0 <= i < |nodes| ==> 0 <= nodes[i] < |content|
    ensures ContentsOf(content + [x], nodes) == ContentsOf(content, nodes)
  {
    ListGrow(next, head, nodes);
    ListRange(next, head, nodes);
  }

  lemma OneNode(next: seq<int>, content: seq<Log>, entry: nat, x: Log)
    requires |content| == |next| && entry < |next| && next[entry] == NULL && content[entry] == x
    ensures List(next, entry, [entry]) && ContentsOf(content, [entry]) == Inserted([], x)
  {
  }

  lemma FirstOnly(next: seq<int>, content: seq<Log>, head: int, nodes: seq<int>, x: Log)
    requires List(next, head, nodes) && nodes != [] && |content| == |next|
    ensures forall i :: 0 <= i < |nodes| ==> 0 <= nodes[i] < |content|
    ensures 0 <= head < |content| && ContentsOf(content[head := x], nodes) == [x] + ContentsOf(content, nodes)[1..]
  {
    ListRange(next, head, nodes);
    forall i | 0 < i < |nodes| ensures nodes[i] != head {
      ListDistinct(next, head, nodes, 0, i);
    }
  }

  lemma PlaceStart(l: seq<Log>, x: Log)
    requires l != [] && x.level <= l[0].level
    ensures Inserted(l, x) == l[..1] + Inserted(l[1..], x)
  {
  }

  lemma PlaceOn(l: seq<Log>, x: Log, k: nat)
    requires k < |l| && x.level <= l[k].level && Inserted(l, x) == l[..k] + Inserted(l[k..], x)
    ensures Inserted(l, x) == l[..k + 1] + Inserted(l[k + 1..], x)
  {
    assert l[k..][1..] == l[k + 1..];
    assert l[..k + 1] == l[..k] + [l[k]];
    assert l[..k] + ([l[k]] + Inserted(l[k + 1..], x)) == l[..k + 1] + Inserted(l[k + 1..], x);
  }

  lemma PlaceEnd(content: seq<Log>, nodes: seq<int>, l: seq<Log>, x: Log, k: nat, entry: int)
    requires forall i :: 0 <= i < |nodes| ==> 0 <= nodes[i] < |content|
    requires l == ContentsOf(content, nodes) && k < |nodes| && 0 <= entry < |content| && content[entry] == x
    requires Inserted(l, x) == l[..k + 1] + Inserted(l[k + 1..], x)
    requires k + 1 == |nodes| || x.level > content[nodes[k + 1]].level
    ensures var nodes' := nodes[..k + 1] + [entry] + nodes[k + 1..];
            && (forall i :: 0 <= i < |nodes'| ==> 0 <= nodes'[i] < |content|)
            && ContentsOf(content, nodes') == Inserted(l, x)
  {
    assert Inserted(l[k + 1..], x) == [x] + l[k + 1..];
  }

  /** A record hung in after node `k`. */
  lemma {:induction false} InsertAfter(next: seq<int>, head: int, nodes: seq<int>, k: nat, entry: int)
    requires List(next, head, nodes) && k < |nodes| && 0 <= entry < |next| && entry !in nodes
    ensures 0 <= nodes[k] < |next|
    ensures List(next[entry := next[nodes[k]]][nodes[k] := entry], head, nodes[..k + 1] + [entry] + nodes[k + 1..])
    decreases k
  {
    ListFrom(next, head, nodes, k);
    var next' := next[entry := next[nodes[k]]][nodes[k] := entry];
    var nodes' := nodes[..k + 1] + [entry] + nodes[k + 1..];
    if k == 0 {
      forall c | c in nodes[1..] ensures c != nodes[0] && c != entry {
        var j :| 0 <= j < |nodes[1..]| && nodes[1..][j] == c;
        ListDistinct(next, head, nodes, 0, j + 1);
      }
      FrameList(next, next', next[head], nodes[1..]);
      assert nodes'[1..] == [entry] + nodes[1..];
      assert ([entry] + nodes[1..])[1..] == nodes[1..];
    } else {
      var tail := nodes[1..];
      InsertAfter(next, next[head], tail, k - 1, entry);
      ListDistinct(next, head, nodes, 0, k);
      assert nodes'[1..] == tail[..k] + [entry] + tail[k..];
    }
  }

  /** The new record put after the head, and the two exchanged. */
  lemma SwapHead(next: seq<int>, content: seq<Log>, nodes: seq<int>, entry: int)
    requires |content| == |next| && nodes != [] && List(next, nodes[0], nodes) && 0 <= entry < |next| && entry !in nodes
    requires forall i :: 0 <= i < |nodes| ==> 0 <= nodes[i] < |content|
    ensures var head := nodes[0];
            var content' := content[head := content[entry]][entry := content[head]];
            var nodes' := [head, entry] + nodes[1..];
            && List(next[entry := next[head]][head := entry], head, nodes')
            && (forall i :: 0 <= i < |nodes'| ==> 0 <= nodes'[i] < |content'|)
            && ContentsOf(content', nodes') == [content[entry]] + ContentsOf(content, nodes)
  {
    hide List;
    var head := nodes[0];
    var content' := content[head := content[entry]][entry := content[head]];
    var nodes' := [head, entry] + nodes[1..];
    InsertAfter(next, head, nodes, 0, entry);
    assert nodes[..1] + [entry] + nodes[1..] == nodes';
    forall i | 2 <= i < |nodes'| ensures content'[nodes'[i]] == content[nodes[i - 1]] {
      ListDistinct(next, head, nodes, 0, i - 1);
      assert nodes[i - 1] in nodes;
    }
  }

  /** The records ngx_log_t: what each says and the next one. */
  class Logs {
    var content: seq<Log>
    var next: seq<int>

    constructor ()
      ensures content == [] && next == []
    {
      content, next := [], [];
    }

    /** The list of records from `head`, and what they say. */
    ghost predicate Holds(head: int, nodes: seq<int>, l: seq<Log>)
      reads this
    {
      && |content| == |next| && List(next, head, nodes)
      && (forall i :: 0 <= i < |nodes| ==> 0 <= nodes[i] < |content|)
      && l == ContentsOf(content, nodes)
    }

    /** ngx_log_insert: the head keeps its address. */
    method Insert(head: int, entry: int, ghost nodes: seq<int>, ghost l: seq<Log>) returns (ghost nodes': seq<int>)
      requires Holds(head, nodes, l) && nodes != [] && 0 <= entry < |next| && entry !in nodes && next[entry] == NULL
      modifies this
      ensures nodes' != [] && nodes'[0] == head && Holds(head, nodes', Inserted(l, old(content)[entry]))
    {
      ghost var x := content[entry];
      ListHead(next, head, nodes);
      hide List;
      if content[entry].level > content[head].level {
        SwapHead(next, content, nodes, entry);
        var rest := next[head];
        content := content[head := content[entry]][entry := content[head]];
        next := next[entry := rest][head := entry];
        nodes' := [head, entry] + nodes[1..];
        return;
      }
      var log := head;
      ghost var k := 0;
      PlaceStart(l, x);
      while next[log] != NULL
        invariant 0 <= k < |nodes| && log == nodes[k] && List(next, next[log], nodes[k + 1..])
        invariant Inserted(l, x) == l[..k + 1] + Inserted(l[k + 1..], x)
        modifies {}
        decreases |nodes| - k
      {
        ListHead(next, next[log], nodes[k + 1..]);
        assert nodes[k + 1..][1..] == nodes[k + 2..];
        if content[entry].level > content[next[log]].level {
          break;
        }
        PlaceOn(l, x, k + 1);
        log, k := next[log], k + 1;
      }
      ListHead(next, next[log], nodes[k + 1..]);
      InsertAfter(next, head, nodes, k, entry);
      nodes' := nodes[..k + 1] + [entry] + nodes[k + 1..];
      PlaceEnd(content, nodes, l, x, k, entry);
      next := next[entry := next[log]][log := entry];
    }

    /** ngx_log_set_log, when it succeeds: the head is set up, or made, or gets one more log in its list. */
    method SetLog(head: int, x: Log, ghost nodes: seq<int>, ghost l: seq<Log>)
      returns (head': int, ghost nodes': seq<int>)
      requires Holds(head, nodes, l)
      modifies this
      ensures Holds(head', nodes', Added(l, x)) && (head != NULL ==> head' == head) && head' != NULL
    {
      ListHead(next, head, nodes);
      hide List, Inserted;
      if head != NULL && content[head].level == 0 {
        FirstOnly(next, content, head, nodes, x);
        content := content[head := x];
        return head, nodes;
      }
      var entry := |content|;
      Grow(next, content, head, nodes, x);
      content, next := content + [x], next + [NULL];
      if head == NULL {
        OneNode(next, content, entry, x);
        return entry, [entry];
      }
      nodes' := Insert(head, entry, nodes, l);
      head' := head;
    }

    /** The loop of ngx_log_error_core: the logs that get the message. */
    method Deliver(head: int, level: nat, ghost nodes: seq<int>, ghost l: seq<Log>) returns (reached: seq<Log>)
      requires Holds(head, nodes, l) && head != NULL
      ensures l != [] && reached == Reached(l, level, DebugConnection(l[0].level))
    {
      ListHead(next, head, nodes);
      hide List;
      var debug := DebugConnection(content[head].level);
      var log := head;
      ghost var k := 0;
      reached := [];
      assert nodes[0..] == nodes && l[0..] == l && [] + Reached(l, level, debug) == Reached(l, level, debug);
      while log != NULL
        invariant 0 <= k <= |nodes| && List(next, log, nodes[k..])
        invariant Reached(l, level, debug) == reached + Reached(l[k..], level, debug)
        decreases |nodes| - k
      {
        ListHead(next, log, nodes[k..]);
        assert nodes[k..][1..] == nodes[k + 1..] && l[k..][1..] == l[k + 1..];
        assert l[k..][0] == content[log];
        if content[log].level < level && !debug {
          return;
        }
        ReachNext(reached, content[log], Reached(l[k + 1..], level, debug));
        reached := reached + [content[log]];
        log, k := next[log], k + 1;
      }
      ListHead(next, log, nodes[k..]);
    }
  }
}
