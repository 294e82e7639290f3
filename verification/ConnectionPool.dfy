/**
  The connections of a worker (ngx_connection.c): the free list, the queue of reusable
  connections and the table of files, over any run of the operations on them.

  Connections are slots numbered from 0.  A pointer to one is its number, NULL is -1,
  and `n` stands for the head of the queue.
*/
module ConnectionPool {
  import opened LinkedList

  // --------------------------------------------------------- the free list

  ghost predicate FreeOk(data: seq<int>, free: int, freeN: int, fd: seq<int>, list: seq<int>) {
    && |fd| == |data|
    && List(data, free, list)
    && Distinct(list)
    && freeN == |list|
    && forall c :: 0 <= c < |fd| ==> (fd[c] == NULL <==> c in list)
  }

  /** The first free connection is taken off and gets the file `s`. */
  lemma PopFree(data: seq<int>, free: int, freeN: int, fd: seq<int>, list: seq<int>, x: int, s: int)
    requires FreeOk(data, free, freeN, fd, list) && free != NULL && s != NULL
    ensures list != [] && 0 <= free < |data| && fd[free] == NULL
    ensures FreeOk(data[free := x], data[free], freeN - 1, fd[free := s], list[1..])
  {
    assert list == [list[0]] + list[1..];
    FrameList(data, data[free := x], data[free], list[1..]);
    forall c | 0 <= c < |fd| ensures fd[free := s][c] == NULL <==> c in list[1..] {
      assert c in list <==> c == free || c in list[1..];
    }
  }

  /** A connection is put on the free list, and its file forgotten. */
  lemma PushFree(data: seq<int>, free: int, freeN: int, fd: seq<int>, list: seq<int>, c: int)
    requires FreeOk(data, free, freeN, fd, list) && 0 <= c < |fd| && fd[c] != NULL
    ensures FreeOk(data[c := free], c, freeN + 1, fd[c := NULL], [c] + list)
  {
    FrameList(data, data[c := free], free, list);
    assert ([c] + list)[1..] == list;
  }

  lemma EmptyFree(data: seq<int>, free: int, freeN: int, fd: seq<int>, list: seq<int>)
    requires FreeOk(data, free, freeN, fd, list)
    ensures free == NULL <==> list == []
    ensures forall c :: c in list ==> 0 <= c < |fd|
  {
    ListRange(data, free, list);
  }

  lemma SetLiveData(data: seq<int>, free: int, freeN: int, fd: seq<int>, list: seq<int>, c: int, x: int)
    requires FreeOk(data, free, freeN, fd, list) && 0 <= c < |fd| && fd[c] != NULL
    ensures FreeOk(data[c := x], free, freeN, fd, list)
  {
    FrameList(data, data[c := x], free, list);
  }

  // -------------------------------------------------------------- the queue

  /** Element `i` of the ring that starts and ends with the head `n`. */
  ghost function RingAt(queue: seq<int>, n: int, i: int): int {
    if 1 <= i <= |queue| then queue[i - 1] else n
  }

  ghost predicate Linked(prev: seq<int>, next: seq<int>, a: int, b: int)
    requires 0 <= a < |next| && 0 <= b < |prev|
  {
    next[a] == b && prev[b] == a
  }

  /** The links make a ring of the head and the connections of `queue`, in that order. */
  ghost predicate QueueOk(n: nat, prev: seq<int>, next: seq<int>, queue: seq<int>) {
    && |prev| == |next| == n + 1
    && Distinct(queue)
    && (forall i :: 0 <= i < |queue| ==> 0 <= queue[i] < n)
    && forall i :: 0 <= i <= |queue| ==> Linked(prev, next, RingAt(queue, n, i), RingAt(queue, n, i + 1))
  }

  /** `queue` without the element at `k`. */
  function Without(queue: seq<int>, k: nat): seq<int>
    requires k < |queue|
  {
    queue[..k] + queue[k + 1..]
  }

  lemma QueueEnds(n: nat, prev: seq<int>, next: seq<int>, queue: seq<int>)
    requires QueueOk(n, prev, next, queue)
    ensures prev[n] == (if queue == [] then n else queue[|queue| - 1])
    ensures next[n] == (if queue == [] then n else queue[0])
  {
    assert Linked(prev, next, RingAt(queue, n, 0), RingAt(queue, n, 1));
    assert Linked(prev, next, RingAt(queue, n, |queue|), RingAt(queue, n, |queue| + 1));
  }

  /** ngx_queue_remove of the element at `k`. */
  lemma RemoveLinks(n: nat, prev: seq<int>, next: seq<int>, queue: seq<int>, k: nat)
    requires QueueOk(n, prev, next, queue) && k < |queue|
    ensures |prev| == |next| == n + 1
    ensures var x := queue[k];
            && 0 <= x < n && 0 <= next[x] <= n && 0 <= prev[x] <= n
            && QueueOk(n, prev[next[x] := prev[x]], next[prev[x] := next[x]], Without(queue, k))
  {
    var x, q := queue[k], Without(queue, k);
    var a, b := RingAt(queue, n, k), RingAt(queue, n, k + 2);
    assert x == RingAt(queue, n, k + 1);
    assert Linked(prev, next, a, x) && Linked(prev, next, x, b);
    var prev', next' := prev[b := a], next[a := b];
    assert RingAt(q, n, k) == a && RingAt(q, n, k + 1) == b;
    forall i | 0 <= i <= |q| ensures Linked(prev', next', RingAt(q, n, i), RingAt(q, n, i + 1)) {
      if i < k {
        assert RingAt(q, n, i) == RingAt(queue, n, i) && RingAt(q, n, i + 1) == RingAt(queue, n, i + 1);
        assert Linked(prev, next, RingAt(queue, n, i), RingAt(queue, n, i + 1));
      } else if i > k {
        assert RingAt(q, n, i) == RingAt(queue, n, i + 1) && RingAt(q, n, i + 1) == RingAt(queue, n, i + 2);
        assert Linked(prev, next, RingAt(queue, n, i + 1), RingAt(queue, n, i + 2));
      }
    }
  }

  /** ngx_queue_insert_head, link by link in the order of the macro. */
  lemma InsertLinks(n: nat, prev: seq<int>, next: seq<int>, queue: seq<int>, x: int)
    requires QueueOk(n, prev, next, queue) && 0 <= x < n && x !in queue
    ensures |prev| == |next| == n + 1 && 0 <= next[n] <= n
    ensures QueueOk(n, prev[next[n] := x][x := n], next[x := next[n]][n := x], [x] + queue)
  {
    var q, first := [x] + queue, next[n];
    QueueEnds(n, prev, next, queue);
    assert first != x;
    var prev', next' := prev[first := x][x := n], next[x := first][n := x];
    forall i | 0 <= i <= |q| ensures Linked(prev', next', RingAt(q, n, i), RingAt(q, n, i + 1)) {
      if i > 1 {
        assert RingAt(q, n, i) == RingAt(queue, n, i - 1) && RingAt(q, n, i + 1) == RingAt(queue, n, i);
        assert Linked(prev, next, RingAt(queue, n, i - 1), RingAt(queue, n, i));
      } else if i == 1 {
        assert RingAt(q, n, 2) == first;
      }
    }
  }

  /** The queue holds exactly the live connections flagged reusable, and no other. */
  ghost predicate FlagsOk(reusable: seq<bool>, fd: seq<int>, queue: seq<int>) {
    && |reusable| == |fd|
    && (forall c :: c in queue ==> 0 <= c < |fd| && fd[c] != NULL && reusable[c])
    && forall c :: 0 <= c < |fd| && fd[c] != NULL && reusable[c] ==> c in queue
  }

  lemma TakeFlags(reusable: seq<bool>, fd: seq<int>, queue: seq<int>, c: int, s: int)
    requires FlagsOk(reusable, fd, queue) && 0 <= c < |fd| && fd[c] == NULL && s != NULL
    ensures |reusable| == |fd| && FlagsOk(reusable[c := false], fd[c := s], queue)
  {
  }

  lemma ForgetFlags(reusable: seq<bool>, fd: seq<int>, queue: seq<int>, c: int)
    requires FlagsOk(reusable, fd, queue) && 0 <= c < |fd| && c !in queue
    ensures FlagsOk(reusable, fd[c := NULL], queue)
  {
  }

  /** `queue` without the connection `c`, the others in their order. */
  function Removed(queue: seq<int>, c: int): seq<int> {
    if queue == [] then []
    else if queue[0] == c then Removed(queue[1..], c)
    else [queue[0]] + Removed(queue[1..], c)
  }

  lemma {:induction false} RemovedHolds(queue: seq<int>, c: int)
    ensures forall d :: d in Removed(queue, c) <==> d in queue && d != c
    ensures c !in queue ==> Removed(queue, c) == queue
  {
    if queue != [] {
      RemovedHolds(queue[1..], c);
      assert queue == [queue[0]] + queue[1..];
    }
  }

  lemma {:induction false} WithoutIsRemoved(queue: seq<int>, k: nat)
    requires k < |queue| && Distinct(queue)
    ensures Without(queue, k) == Removed(queue, queue[k])
    decreases |queue|
  {
    if k == 0 {
      RemovedHolds(queue[1..], queue[0]);
    } else {
      WithoutIsRemoved(queue[1..], k - 1);
      assert Without(queue, k) == [queue[0]] + Without(queue[1..], k - 1);
    }
  }

  lemma {:induction false} FindIn(queue: seq<int>, c: int) returns (k: nat)
    requires c in queue
    ensures k < |queue| && queue[k] == c
  {
    k :| k < |queue| && queue[k] == c;
  }

  // --------------------------------------------------- the table of files

  /** An entry names a live connection that has that file; a live connection's file has an entry's place. */
  ghost predicate FilesOk(hasFiles: bool, files: seq<int>, fd: seq<int>) {
    && (!hasFiles ==> files == [])
    && (forall s :: 0 <= s < |files| && files[s] != NULL ==> 0 <= files[s] < |fd| && fd[files[s]] == s)
    && forall c :: 0 <= c < |fd| ==> fd[c] == NULL || (0 <= fd[c] && (hasFiles ==> fd[c] < |files|))
  }

  lemma ForgetFile(hasFiles: bool, files: seq<int>, fd: seq<int>, c: nat)
    requires FilesOk(hasFiles, files, fd) && c < |fd| && fd[c] != NULL
    ensures hasFiles ==> 0 <= fd[c] < |files|
    ensures FilesOk(hasFiles, if hasFiles && files[fd[c]] == c then files[fd[c] := NULL] else files, fd[c := NULL])
  {
  }

  lemma EnterFile(hasFiles: bool, files: seq<int>, fd: seq<int>, c: nat, s: int)
    requires FilesOk(hasFiles, files, fd) && c < |fd| && fd[c] == NULL
    requires 0 <= s && (hasFiles ==> s < |files|)
    ensures FilesOk(hasFiles, if hasFiles && files[s] == NULL then files[s := c] else files, fd[c := s])
  {
  }

  // ------------------------------------------------------- instance bits

  ghost predicate Alternates(h: seq<bool>) {
    forall i :: 0 < i < |h| ==> h[i] != h[i - 1]
  }

  /** `history[c]` is the instance bit of every use of slot `c` so far, the last being the present one. */
  ghost predicate HistoryOk(instance: seq<bool>, history: seq<seq<bool>>) {
    && |history| == |instance|
    && forall c :: 0 <= c < |history| ==>
         Alternates(history[c]) && (history[c] != [] ==> history[c][|history[c]| - 1] == instance[c])
  }

  lemma NextUse(instance: seq<bool>, history: seq<seq<bool>>, c: nat)
    requires HistoryOk(instance, history) && c < |instance|
    ensures HistoryOk(instance[c := !instance[c]], history[c := history[c] + [!instance[c]]])
  {
  }

  // ------------------------------------------------------------ the scripts

  datatype Scripts = NoMore | More(head: Script, tail: Scripts)

  /**
    What an event handler, or the worker itself, does with connections.  A new
    connection may be asked for, and then the handlers of the connections that are
    drained run, each doing the next of `handlers`.
  */
  datatype Action =
    | Get(s: int, handlers: Scripts)
    | Close(c: nat)
    | SetReusable(c: nat, on: bool)
    | SetData(c: nat, x: int)

  datatype Script = Done | Then(first: Action, rest: Script)

  /** A handler called to drain connection `c` when `last` was the last of the queue; `again` for the second try. */
  datatype Woken = Woken(c: int, last: int, again: bool)

  /** Connections are drained from the end of the queue. */
  ghost predicate WokenOk(woken: seq<Woken>) {
    forall i :: 0 <= i < |woken| && !woken[i].again ==> woken[i].c == woken[i].last
  }

  ghost predicate Grows(h: seq<seq<bool>>, h': seq<seq<bool>>) {
    |h| == |h'| && forall c :: 0 <= c < |h| ==> h[c] <= h'[c]
  }

  lemma GrowsOn(h: seq<seq<bool>>, h': seq<seq<bool>>, h'': seq<seq<bool>>)
    requires Grows(h, h') && Grows(h', h'')
    ensures Grows(h, h'')
  {
  }

  function Max(a: int, b: int): int {
    if a > b then a else b
  }

  function Min(a: int, b: int): int {
    if a < b then a else b
  }

  function DrainCount(reusableN: int): int {
    Max(Min(32, reusableN / 8), 1)
  }

  // --------------------------------------------------------------- the cycle

  /** The numbers from `i` to `n`, in order. */
  ghost predicate Counted(list: seq<int>, i: nat, n: nat) {
    i <= n && |list| == n - i && forall k :: 0 <= k < |list| ==> list[k] == i + k
  }

  lemma AllFree(data: seq<int>, free: int, list: seq<int>, n: nat)
    requires |data| == n && List(data, free, list) && Counted(list, 0, n)
    ensures FreeOk(data, free, n, seq(n, _ => NULL), list)
  {
    forall c | 0 <= c < n ensures c in list {
      assert list[c] == c;
    }
  }

  lemma EmptyRing(n: nat)
    ensures QueueOk(n, seq(n + 1, _ => n), seq(n + 1, _ => n), [])
  {
  }

  lemma InQueue(reusable: seq<bool>, fd: seq<int>, queue: seq<int>)
    requires FlagsOk(reusable, fd, queue) && queue != []
    ensures 0 <= queue[|queue| - 1] < |fd| && fd[queue[|queue| - 1]] != NULL
  {
    assert queue[|queue| - 1] in queue;
  }

  lemma HistorySizes(instance: seq<bool>, history: seq<seq<bool>>)
    requires HistoryOk(instance, history)
    ensures |history| == |instance|
  {
  }

  lemma FreeSizes(data: seq<int>, free: int, freeN: int, fd: seq<int>, list: seq<int>)
    requires FreeOk(data, free, freeN, fd, list)
    ensures |data| == |fd|
  {
  }

  class Cycle {
    const n: nat
    const hasFiles: bool
    var data: seq<int>
    var fd: seq<int>
    var reusable: seq<bool>
    var closing: seq<bool>
    var instance: seq<bool>
    var prev: seq<int>
    var next: seq<int>
    var files: seq<int>
    var free: int
    var freeN: int
    var reusableN: int
    ghost var freeList: seq<int>
    ghost var queue: seq<int>
    ghost var history: seq<seq<bool>>
    ghost var woken: seq<Woken>

    ghost predicate Valid()
      reads this
    {
      && |fd| == |closing| == |instance| == n
      && FreeOk(data, free, freeN, fd, freeList)
      && QueueOk(n, prev, next, queue) && reusableN == |queue|
      && FlagsOk(reusable, fd, queue)
      && FilesOk(hasFiles, files, fd)
      && HistoryOk(instance, history)
      && WokenOk(woken)
    }

    /**
      ngx_event_process_init: all connections are free, the first one first.  The memory
      of the connections is not cleared, so their flags are whatever `flags` says.
    */
    constructor (connections: nat, withFiles: bool, filesN: nat, flags: seq<bool>)
      requires connections > 0 && |flags| == connections
      ensures Valid() && n == connections && hasFiles == withFiles && (withFiles ==> |files| == filesN)
      ensures |freeList| == n && queue == [] && woken == []
      ensures forall c :: 0 <= c < n ==> !Live(c)
    {
      hide QueueOk, FreeOk;
      n, hasFiles := connections, withFiles;
      var d := seq(connections, _ => 0);
      var i, first := connections, NULL;
      ghost var list: seq<int> := [];
      while i > 0
        invariant 0 <= i <= connections == |d|
        invariant List(d, first, list) && Counted(list, i, connections)
      {
        i := i - 1;
        FrameList(d, d[i := first], first, list);
        d := d[i := first];
        first := i;
        assert ([first] + list)[1..] == list;
        list := [first] + list;
      }
      AllFree(d, first, list, connections);
      data, free, freeN, freeList := d, first, connections, list;
      fd := seq(connections, _ => NULL);
      reusable, closing, instance := flags, seq(connections, _ => false), seq(connections, _ => true);
      prev, next := seq(connections + 1, _ => connections), seq(connections + 1, _ => connections);
      EmptyRing(connections);
      files := if withFiles then seq(filesN, _ => NULL) else [];
      reusableN, queue, history, woken := 0, [], seq(connections, _ => []), [];
    }

    /** A connection in use. */
    predicate Live(c: nat)
      reads this
    {
      c < |fd| && fd[c] != NULL
    }

    /** ngx_queue_remove. */
    method Dequeue(c: nat)
      requires QueueOk(n, prev, next, queue) && reusableN == |queue| && c in queue
      modifies this`prev, this`next, this`reusableN, this`queue
      ensures QueueOk(n, prev, next, queue) && reusableN == |queue|
      ensures queue == Removed(old(queue), c)
    {
      ghost var k := FindIn(queue, c);
      RemoveLinks(n, prev, next, queue, k);
      WithoutIsRemoved(queue, k);
      hide QueueOk;
      var before, after := prev[c], next[c];
      prev, next := prev[after := before], next[before := after];
      reusableN := reusableN - 1;
      queue := Without(queue, k);
    }

    /** ngx_queue_insert_head. */
    method Enqueue(c: nat)
      requires QueueOk(n, prev, next, queue) && reusableN == |queue| && c < n && c !in queue
      modifies this`prev, this`next, this`reusableN, this`queue
      ensures QueueOk(n, prev, next, queue) && reusableN == |queue|
      ensures queue == [c] + old(queue)
    {
      hide QueueOk;
      InsertLinks(n, prev, next, queue, c);
      prev := prev[next[n] := c][c := n];
      next := next[c := next[n]][n := c];
      reusableN := reusableN + 1;
      queue := [c] + queue;
    }

    /** ngx_reusable_connection: moves a connection to the front of the queue, or takes it out. */
    method Reusable(c: nat, on: bool)
      requires Valid() && Live(c)
      modifies this`reusable, this`prev, this`next, this`reusableN, this`queue
      ensures Valid() && reusable == old(reusable)[c := on]
      ensures queue == (if on then [c] else []) + Removed(old(queue), c)
    {
      hide FreeOk, FilesOk, HistoryOk, QueueOk, WokenOk;
      RemovedHolds(queue, c);
      if reusable[c] {
        Dequeue(c);
      }
      reusable := reusable[c := on];
      if on {
        Enqueue(c);
      }
    }

    /** ngx_free_connection, and the file descriptor forgotten by its caller. */
    method Free(c: nat)
      requires Valid() && Live(c) && c !in queue
      modifies this`data, this`free, this`freeN, this`files, this`fd, this`freeList
      ensures Valid() && freeList == [c] + old(freeList) && fd == old(fd)[c := NULL] && free == c
      ensures files == if hasFiles && old(files[fd[c]]) == c then old(files[fd[c] := NULL]) else old(files)
    {
      hide QueueOk, HistoryOk, FreeOk, FilesOk, FlagsOk, WokenOk;
      ForgetFlags(reusable, fd, queue, c);
      ForgetFile(hasFiles, files, fd, c);
      PushFree(data, free, freeN, fd, freeList, c);
      FreeSizes(data, free, freeN, fd, freeList);
      data := data[c := free];
      free := c;
      freeN := freeN + 1;
      freeList := [c] + freeList;
      if hasFiles && files[fd[c]] == c {
        files := files[fd[c] := NULL];
      }
      fd := fd[c := NULL];
    }

    /** ngx_close_connection: closing a closed connection changes nothing. */
    method CloseConnection(c: nat)
      requires Valid() && c < n
      modifies this`reusable, this`prev, this`next, this`reusableN, this`queue,
               this`data, this`free, this`freeN, this`files, this`fd, this`freeList
      ensures Valid() && !Live(c) && |files| == old(|files|)
      ensures old(Live(c)) ==> freeList == [c] + old(freeList) && fd == old(fd)[c := NULL]
      ensures old(Live(c)) ==> queue == Removed(old(queue), c)
      ensures !old(Live(c)) ==> freeList == old(freeList) && fd == old(fd) && queue == old(queue) && files == old(files)
      ensures !old(Live(c)) ==> data == old(data) && free == old(free) && freeN == old(freeN)
      ensures !old(Live(c)) ==> reusable == old(reusable) && reusableN == old(reusableN) && prev == old(prev) && next == old(next)
    {
      if fd[c] == NULL {
        return;
      }
      hide QueueOk, HistoryOk, FreeOk, FilesOk;
      RemovedHolds(queue, c);
      Reusable(c, false);
      Free(c);
    }

    /** A connection's fields and events are cleared, all but the instance bit, which flips. */
    method Clear(c: nat, s: int)
      requires c < |data| == |fd| == |reusable| == |closing| == |instance| == |history|
      modifies this`data, this`fd, this`reusable, this`closing, this`instance, this`history
      ensures data == old(data)[c := NULL] && fd == old(fd)[c := s]
      ensures reusable == old(reusable)[c := false] && closing == old(closing)[c := false]
      ensures instance == old(instance)[c := !old(instance)[c]]
      ensures history == old(history)[c := old(history)[c] + [instance[c]]]
    {
      data := data[c := NULL];
      fd := fd[c := s];
      reusable := reusable[c := false];
      closing := closing[c := false];
      instance := instance[c := !instance[c]];
      history := history[c := history[c] + [instance[c]]];
    }

    /** The head of the free list is taken off, and entered for its file if that has no connection. */
    method Unlink(s: int) returns (c: int)
      requires 0 <= free < |data| && freeList != [] && (hasFiles ==> 0 <= s < |files|)
      modifies this`free, this`freeN, this`freeList, this`files
      ensures c == old(free) && free == data[c] && freeN == old(freeN) - 1 && freeList == old(freeList)[1..]
      ensures files == if hasFiles && old(files)[s] == NULL then old(files)[s := c] else old(files)
    {
      c := free;
      free := data[c];
      freeN := freeN - 1;
      freeList := freeList[1..];
      if hasFiles && files[s] == NULL {
        files := files[s := c];
      }
    }

    /** The part of ngx_get_connection that takes a connection off the free list and clears it. */
    method Take(s: int) returns (c: int)
      requires Valid() && free != NULL && 0 <= s && (hasFiles ==> s < |files|)
      modifies this`data, this`fd, this`reusable, this`closing, this`instance, this`files,
               this`free, this`freeN, this`freeList, this`history
      ensures Valid() && c == old(free) && freeList == old(freeList)[1..]
      ensures files == if hasFiles && old(files)[s] == NULL then old(files)[s := c] else old(files)
      ensures 0 <= c < |old(fd)| && old(fd)[c] == NULL && fd == old(fd)[c := s]
      ensures instance == old(instance)[c := !old(instance)[c]]
      ensures history == old(history)[c := old(history)[c] + [instance[c]]]
    {
      hide QueueOk, HistoryOk, FreeOk, FilesOk, FlagsOk, WokenOk;
      FreeSizes(data, free, freeN, fd, freeList);
      PopFree(data, free, freeN, fd, freeList, NULL, s);
      TakeFlags(reusable, fd, queue, free, s);
      NextUse(instance, history, free);
      EnterFile(hasFiles, files, fd, free, s);
      HistorySizes(instance, history);
      c := Unlink(s);
      Clear(c, s);
    }

    /** ngx_get_connection, with the handlers of the connections it drains. */
    method GetConnection(s: int, handlers: Scripts) returns (c: int)
      requires Valid() && (hasFiles || 0 <= s)
      modifies this
      ensures Valid() && |files| == old(|files|) && Grows(old(history), history)
      ensures c != NULL ==> 0 <= c < n && Live(c) && fd[c] == s && !reusable[c]
      ensures c != NULL ==> |old(history)[c]| < |history[c]|
      ensures c == NULL ==> (hasFiles && !(0 <= s < |files|)) || freeList == []
      decreases handlers, 2
    {
      hide QueueOk, HistoryOk, FreeOk, FilesOk;
      if hasFiles && !(0 <= s < |files|) {
        return NULL;
      }
      DrainConnections(handlers);
      EmptyFree(data, free, freeN, fd, freeList);
      if free == NULL {
        return NULL;
      }
      HistorySizes(instance, history);
      ghost var h := history;
      c := Take(s);
      GrowsOn(old(history), h, history);
    }

    /** Whether ngx_drain_connections leaves everything as it is. */
    predicate Enough()
      reads this
    {
      freeN > n / 16 || reusableN == 0
    }

    /** The connection least recently made reusable. */
    ghost function Oldest(): int
      reads this
      requires queue != []
    {
      queue[|queue| - 1]
    }

    /** One drained connection. */
    method Wake(c: nat, again: bool, hs: Scripts) returns (hs': Scripts)
      requires Valid() && c < n && (!again ==> queue != [] && c == Oldest())
      modifies this
      ensures Valid() && |files| == old(|files|) && Grows(old(history), history)
      ensures hs == NoMore ==>
                && hs' == NoMore && queue == old(queue) && freeList == old(freeList) && fd == old(fd)
                && free == old(free) && reusable == old(reusable) && closing == old(closing)[c := true]
                && |woken| == |old(woken)| + 1 && woken[..|old(woken)|] == old(woken) && woken[|old(woken)|].c == c
      ensures hs' == if hs.More? then hs.tail else hs
      decreases hs, 0
    {
      hide QueueOk, HistoryOk, FreeOk, FilesOk, FlagsOk;
      woken := woken + [Woken(c, if queue == [] then NULL else Oldest(), again)];
      closing := closing[c := true];
      hs' := hs;
      if hs.More? {
        Handle(hs.head);
        hs' := hs.tail;
      }
    }

    /** ngx_drain_connections: the handlers of the connections least recently made reusable run. */
    method DrainConnections(handlers: Scripts)
      requires Valid()
      modifies this
      ensures Valid() && |files| == old(|files|) && Grows(old(history), history)
      ensures old(freeN > n / 16 || reusableN == 0) ==>
                && woken == old(woken) && closing == old(closing)
                && queue == old(queue) && freeList == old(freeList) && fd == old(fd) && history == old(history)
      ensures old(freeN <= n / 16 && reusableN != 0) && handlers == NoMore ==>
                && queue == old(queue) && freeList == old(freeList) && fd == old(fd)
                && closing == old(closing[Oldest() := true])
                && |woken| == |old(woken)| + old(if reusableN / 8 > 32 then 32 else if reusableN < 8 then 1 else reusableN / 8) + (if old(freeN) == 0 then 1 else 0)
                && forall i :: |old(woken)| <= i < |woken| ==> woken[i].c == old(Oldest())
      decreases handlers, 1
    {
      if Enough() {
        return;
      }
      var c, hs := NULL, handlers;
      var left := DrainCount(reusableN);
      var i := 0;
      while i < left
        invariant Valid() && |files| == old(|files|) && Grows(old(history), history)
        invariant i <= left && -1 <= c < n && (hs == handlers || hs < handlers)
        invariant handlers == NoMore ==> hs == NoMore
        invariant handlers == NoMore ==> queue == old(queue) && freeList == old(freeList) && fd == old(fd) && free == old(free)
        invariant handlers == NoMore ==> |woken| == |old(woken)| + i && reusable == old(reusable)
        invariant handlers == NoMore ==> if i == 0 then c == NULL && closing == old(closing)
                                         else c == old(Oldest()) && closing == old(closing[Oldest() := true])
        invariant handlers == NoMore ==> forall j :: |old(woken)| <= j < |woken| ==> woken[j].c == old(Oldest())
      {
        hide QueueOk, HistoryOk, FreeOk, FilesOk, FlagsOk;
        QueueEnds(n, prev, next, queue);
        if prev[n] == n {
          break;
        }
        c := prev[n];
        InQueue(reusable, fd, queue);
        ghost var h := history;
        hs := Wake(c, false, hs);
        GrowsOn(old(history), h, history);
        i := i + 1;
      }
      if freeN == 0 && c != NULL && reusable[c] {
        ghost var h := history;
        hs := Wake(c, true, hs);
        GrowsOn(old(history), h, history);
      }
    }

    /** An event handler, or any other run of the worker. */
    method Handle(script: Script)
      requires Valid()
      modifies this
      ensures Valid() && |files| == old(|files|) && Grows(old(history), history)
      decreases script
    {
      hide QueueOk, HistoryOk, FreeOk, FilesOk, FlagsOk;
      var rest := script;
      while rest.Then?
        invariant Valid() && |files| == old(|files|) && Grows(old(history), history)
        invariant rest == script || rest < script
        decreases rest
      {
        ghost var h := history;
        Do(rest.first);
        GrowsOn(old(history), h, history);
        rest := rest.rest;
      }
    }

    /** One step.  Only a live connection is made reusable or given data; anything may be closed. */
    method Do(action: Action)
      requires Valid()
      modifies this
      ensures Valid() && |files| == old(|files|) && Grows(old(history), history)
      ensures action.Close? && action.c < n ==> !Live(action.c)
      ensures action.SetReusable? && old(Live(action.c)) ==>
                && reusable == old(reusable)[action.c := action.on]
                && queue == (if action.on then [action.c] else []) + Removed(old(queue), action.c)
      ensures action.SetData? ==> data == if old(Live(action.c)) then old(data)[action.c := action.x] else old(data)
      decreases action
    {
      hide QueueOk, HistoryOk, FreeOk, FilesOk, FlagsOk;
      match action {
        case Get(s, handlers) =>
          if hasFiles || 0 <= s {
            var _ := GetConnection(s, handlers);
          }
        case Close(c) =>
          if c < n {
            CloseConnection(c);
          }
        case SetReusable(c, on) =>
          if Live(c) {
            Reusable(c, on);
          }
        case SetData(c, x) =>
          if Live(c) {
            SetLiveData(data, free, freeN, fd, freeList, c, x);
            FreeSizes(data, free, freeN, fd, freeList);
            data := data[c := x];
          }
      }
    }
  }

  /** Any run of a worker from its start keeps everything that Valid says. */
  method Worker(connections: nat, withFiles: bool, filesN: nat, flags: seq<bool>, script: Script) returns (cycle: Cycle)
    requires connections > 0 && |flags| == connections
    ensures cycle.Valid() && cycle.n == connections && fresh(cycle)
  {
    cycle := new Cycle(connections, withFiles, filesN, flags);
    cycle.Handle(script);
  }
}
