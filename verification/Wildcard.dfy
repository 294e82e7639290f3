/**
  The wildcard tries of ngx_hash.c: `ngx_hash_wildcard_init` builds a tree of hash
  tables, one level per label, and `ngx_hash_find_wc_head` and
  `ngx_hash_find_wc_tail` search it.  A name is a list of labels separated by dots.
*/
module Wildcard {
  import opened Bytes
  import opened HashTable

  type Label = seq<Byte>

  /** An element of the dns_wc_head or dns_wc_tail array. */
  datatype WcKey<V> = WcKey(key: seq<Byte>, value: V)

  /** ngx_hash_wildcard_t. */
  datatype Node<V> = Node(table: Table<Tagged<V>>, value: Option<V>)

  /**
    The value of a table element.  The two low tag bits of the pointer become
    constructors: Data is 00, SubData 01, Hash 10 and SubHash 11.
  */
  datatype Tagged<V> = Data(data: V) | SubData(data: V) | Hash(node: Node<V>) | SubHash(node: Node<V>)

  // ----------------------------------------------------------------- labels

  /** The position of the first dot, or the length if there is none. */
  function DotAt(s: seq<Byte>): (k: nat)
    ensures k <= |s|
    ensures forall i :: 0 <= i < k ==> s[i] != DOT
    ensures k < |s| ==> s[k] == DOT
  {
    if s == [] || s[0] == DOT then 0 else 1 + DotAt(s[1..])
  }

  /** The labels of a name, split at its dots. */
  function Labels(s: seq<Byte>): (r: seq<Label>)
    ensures |r| > 0
  {
    var k := DotAt(s);
    if k == |s| then [s] else [s[..k]] + Labels(s[k + 1..])
  }

  /** The labels of a wildcard key; a final dot is not followed by a label. */
  function Path(s: seq<Byte>): (r: seq<Label>)
    ensures |r| > 0
    decreases |s|
  {
    var k := DotAt(s);
    if k + 1 >= |s| then [s[..k]] else [s[..k]] + Path(s[k + 1..])
  }

  /** The key ends in a dot: it stands for names below its path only. */
  predicate Below(s: seq<Byte>)
    decreases |s|
  {
    var k := DotAt(s);
    k < |s| && (k + 1 == |s| || Below(s[k + 1..]))
  }

  // ------------------------------------------------------- longest match

  /** A key matches the labels `q`; in a tail trie something must follow the path. */
  ghost predicate Matches(tail: bool, s: seq<Byte>, q: seq<Label>) {
    Path(s) <= q && (|Path(s)| < |q| || (!tail && !Below(s)))
  }

  datatype Hit<V> = Miss | Hit(len: nat, value: V)

  /** The matching key with the longest path. */
  ghost function Best<V>(tail: bool, names: seq<WcKey<V>>, q: seq<Label>): Hit<V> {
    if names == [] then Miss
    else
      var r := Best(tail, names[1..], q);
      if Matches(tail, names[0].key, q) && (r.Miss? || |Path(names[0].key)| >= r.len)
      then Hit(|Path(names[0].key)|, names[0].value)
      else r
  }

  /** Best is what its name says. */
  lemma {:induction false} BestIsLongestMatch<V>(tail: bool, names: seq<WcKey<V>>, q: seq<Label>)
    ensures Best(tail, names, q).Miss? <==> forall i :: 0 <= i < |names| ==> !Matches(tail, names[i].key, q)
    ensures Best(tail, names, q).Hit? ==>
              exists i :: 0 <= i < |names| && Matches(tail, names[i].key, q)
                && Best(tail, names, q) == Hit(|Path(names[i].key)|, names[i].value)
                && forall j :: 0 <= j < |names| && Matches(tail, names[j].key, q)
                     ==> |Path(names[j].key)| <= |Path(names[i].key)|
  {
    if names != [] {
      BestIsLongestMatch(tail, names[1..], q);
      var r := Best(tail, names[1..], q);
      if Matches(tail, names[0].key, q) && (r.Miss? || |Path(names[0].key)| >= r.len) {
        assert Matches(tail, names[0].key, q);
      } else if r.Hit? {
        var i :| 0 <= i < |names[1..]| && Matches(tail, names[1..][i].key, q)
                && r == Hit(|Path(names[1..][i].key)|, names[1..][i].value)
                && forall j :: 0 <= j < |names[1..]| && Matches(tail, names[1..][j].key, q)
                     ==> |Path(names[1..][j].key)| <= |Path(names[1..][i].key)|;
        assert names[i + 1] == names[1..][i];
        forall j | 0 <= j < |names| && Matches(tail, names[j].key, q)
          ensures |Path(names[j].key)| <= |Path(names[i + 1].key)|
        {
          if j > 0 {
            assert names[j] == names[1..][j - 1];
          }
        }
      }
      forall i | 0 < i < |names| ensures names[i] == names[1..][i - 1] {}
    }
  }

  // ------------------------------------------------------------- searching

  function ToLookup<V>(o: Option<V>): Lookup<V> {
    if o.None? then Null else Found(o.value)
  }

  /** `r`, or the node's own value if `r` is NULL. */
  function OrValue<V>(r: Lookup<V>, o: Option<V>): Lookup<V> {
    if r.Null? then ToLookup(o) else r
  }

  /** ngx_hash_key, with ngx_uint_t arithmetic modulo 2^64. */
  function HashKey(s: seq<Byte>): nat {
    if s == [] then 0 else (HashKey(s[..|s| - 1]) * 31 + s[|s| - 1]) % 0x1_0000_0000_0000_0000
  }

  ghost function FindLabel<V>(t: Table<V>, a: Label): Lookup<V> {
    if |t.buckets| == 0 then Fault else Find(t, HashKey(a), a)
  }

  /** What a search makes of the labels `q` when the first of them led to `v`. */
  ghost function Resolve<V>(tail: bool, v: Tagged<V>, q: seq<Label>): Lookup<V>
    requires |q| > 0
    decreases |q|, 0
  {
    if |q| == 1 then
      match v
      case Data(d) => Found(d)
      case SubData(_) => Null
      case Hash(node) => ToLookup(node.value)
      case SubHash(_) => Null
    else
      match v
      case Data(d) => Found(d)
      case SubData(d) => if tail then Fault else Found(d)
      case Hash(node) => OrValue(Search(tail, node, q[1..]), node.value)
      case SubHash(node) => OrValue(Search(tail, node, q[1..]), node.value)
  }

  /**
    What a search makes of the labels `q`, the first of which is looked up in the
    node's own table.  A tail search never meets SubData in a trie of tail keys.
  */
  ghost function Search<V>(tail: bool, node: Node<V>, q: seq<Label>): Lookup<V>
    requires |q| > 0
    decreases |q|
  {
    if tail && |q| == 1 then Null
    else match FindLabel(node.table, q[0])
      case Fault => Fault
      case Null => ToLookup(node.value)
      case Found(v) => Resolve(tail, v, q)
  }

  /** Where the last label starts. */
  function LastStart(s: seq<Byte>): (n: nat)
    ensures n <= |s|
    ensures forall i :: n <= i < |s| ==> s[i] != DOT
    ensures n > 0 ==> s[n - 1] == DOT
  {
    if s == [] || s[|s| - 1] == DOT then |s| else LastStart(s[..|s| - 1])
  }

  /** The labels from the last to the first. */
  function BackLabels(s: seq<Byte>): (r: seq<Label>)
    ensures |r| > 0
    decreases |s|
  {
    var n := LastStart(s);
    if n == 0 then [s] else [s[n..]] + BackLabels(s[..n - 1])
  }

  /** The hash loop shared by the searches and by the key function. */
  method ComputeKey(s: seq<Byte>) returns (key: nat)
    ensures key == HashKey(s)
  {
    key := 0;
    for i := 0 to |s|
      invariant key == HashKey(s[..i])
    {
      assert s[..i + 1][..i] == s[..i];
      key := (key * 31 + s[i]) % 0x1_0000_0000_0000_0000;
    }
    assert s[..|s|] == s;
  }

  /** The table lookup both searches make for one label. */
  method LookUp<V>(t: Table<V>, a: Label) returns (r: Option<V>)
    requires FindLabel(t, a) != Fault
    ensures ToLookup(r) == FindLabel(t, a)
  {
    var key := ComputeKey(a);
    r := HashFind(t, key, a);
  }

  lemma LastStartUnique(s: seq<Byte>, n: nat)
    requires n <= |s| && (n > 0 ==> s[n - 1] == DOT) && forall i :: n <= i < |s| ==> s[i] != DOT
    ensures n == LastStart(s)
  {
  }

  lemma DotAtUnique(s: seq<Byte>, k: nat)
    requires k <= |s| && (k < |s| ==> s[k] == DOT) && forall i :: 0 <= i < k ==> s[i] != DOT
    ensures k == DotAt(s)
  {
  }

  /** ngx_hash_find_wc_head. */
  method FindWcHead<V>(node: Node<V>, name: seq<Byte>) returns (r: Option<V>)
    requires Search(false, node, BackLabels(name)) != Fault
    ensures ToLookup(r) == Search(false, node, BackLabels(name))
    decreases |name|
  {
    hide HashKey;
    var n := |name|;
    while n > 0 && name[n - 1] != DOT
      invariant 0 <= n <= |name| && forall i :: n <= i < |name| ==> name[i] != DOT
    {
      n := n - 1;
    }
    LastStartUnique(name, n);
    assert BackLabels(name)[0] == name[n..];
    var value := LookUp(node.table, name[n..]);
    match value {
      case None => return node.value;
      case Some(Hash(sub)) =>
        if n == 0 {
          return sub.value;
        }
        assert BackLabels(name)[1..] == BackLabels(name[..n - 1]);
        r := FindWcHead(sub, name[..n - 1]);
        return if r.Some? then r else sub.value;
      case Some(SubHash(sub)) =>
        if n == 0 {
          return None;
        }
        assert BackLabels(name)[1..] == BackLabels(name[..n - 1]);
        r := FindWcHead(sub, name[..n - 1]);
        return if r.Some? then r else sub.value;
      case Some(SubData(d)) =>
        return if n == 0 then None else Some(d);
      case Some(Data(d)) =>
        return Some(d);
    }
  }

  /** ngx_hash_find_wc_tail. */
  method FindWcTail<V>(node: Node<V>, name: seq<Byte>) returns (r: Option<V>)
    requires Search(true, node, Labels(name)) != Fault
    ensures ToLookup(r) == Search(true, node, Labels(name))
    decreases |name|
  {
    var i := 0;
    while i < |name| && name[i] != DOT
      invariant 0 <= i <= |name| && forall j :: 0 <= j < i ==> name[j] != DOT
    {
      i := i + 1;
    }
    DotAtUnique(name, i);
    if i == |name| {
      return None;
    }
    assert Labels(name)[0] == name[..i] && Labels(name)[1..] == Labels(name[i + 1..]);
    var value := LookUp(node.table, name[..i]);
    match value {
      case None => return node.value;
      case Some(Hash(sub)) =>
        r := FindWcTail(sub, name[i + 1..]);
        return if r.Some? then r else sub.value;
      case Some(SubHash(sub)) =>
        r := FindWcTail(sub, name[i + 1..]);
        return if r.Some? then r else sub.value;
      case Some(Data(d)) =>
        return Some(d);
    }
  }

  ghost function Reversed<T>(s: seq<T>): seq<T> {
    if s == [] then [] else Reversed(s[1..]) + [s[0]]
  }

  lemma {:induction false} ReversedAppend<T>(s: seq<T>, x: T)
    ensures Reversed(s + [x]) == [x] + Reversed(s)
  {
    if s != [] {
      assert (s + [x])[1..] == s[1..] + [x];
      ReversedAppend(s[1..], x);
    }
  }

  lemma SliceOfSlice(s: seq<Byte>, k: nat, n: nat)
    requires k + 1 < n <= |s|
    ensures s[k + 1..][..n - k - 2] == s[..n - 1][k + 1..] && s[k + 1..][n - k - 1..] == s[n..]
    ensures s[..n - 1][..k] == s[..k]
  {
  }

  lemma JoinLabels(a: Label, b: seq<Label>, c: Label)
    ensures [a] + (b + [c]) == ([a] + b) + [c]
  {
  }

  lemma {:induction false} LabelsSplitLast(s: seq<Byte>, n: nat)
    requires 0 < n <= |s| && s[n - 1] == DOT && forall i :: n <= i < |s| ==> s[i] != DOT
    ensures Labels(s) == Labels(s[..n - 1]) + [s[n..]]
    decreases |s|
  {
    var k := DotAt(s);
    var p := s[..n - 1];
    DotAtUnique(p, k);
    if k == n - 1 {
      DotAtUnique(s[n..], |s| - n);
    } else {
      var t, m := s[k + 1..], n - k - 1;
      LabelsSplitLast(t, m);
      SliceOfSlice(s, k, n);
      assert Labels(p) == [s[..k]] + Labels(t[..m - 1]);
      JoinLabels(s[..k], Labels(t[..m - 1]), s[n..]);
    }
  }

  /** The head search sees the labels of a name in reverse. */
  lemma {:induction false} BackLabelsReverse(s: seq<Byte>)
    ensures BackLabels(s) == Reversed(Labels(s))
    decreases |s|
  {
    var n := LastStart(s);
    if n == 0 {
      DotAtUnique(s, |s|);
    } else {
      LabelsSplitLast(s, n);
      BackLabelsReverse(s[..n - 1]);
      ReversedAppend(Labels(s[..n - 1]), s[n..]);
    }
  }

  // ----------------------------------------------- longest match by groups

  function First(s: seq<Byte>): Label {
    s[..DotAt(s)]
  }

  /** The key has a single label. */
  predicate Bare(s: seq<Byte>) {
    DotAt(s) + 1 >= |s|
  }

  function Rest<V>(x: WcKey<V>): WcKey<V>
    requires !Bare(x.key)
  {
    WcKey(x.key[DotAt(x.key) + 1..], x.value)
  }

  ghost function Rests<V>(g: seq<WcKey<V>>): (r: seq<WcKey<V>>)
    requires forall i :: 0 <= i < |g| ==> !Bare(g[i].key)
    ensures |r| == |g| && forall i :: 0 <= i < |g| ==> r[i] == Rest(g[i])
  {
    seq(|g|, i requires 0 <= i < |g| => Rest(g[i]))
  }

  /** Every key of the group starts with label `a`. */
  ghost predicate AllFirst<V>(g: seq<WcKey<V>>, a: Label) {
    forall i :: 0 <= i < |g| ==> First(g[i].key) == a
  }

  ghost predicate NoneFirst<V>(g: seq<WcKey<V>>, a: Label) {
    forall i :: 0 <= i < |g| ==> First(g[i].key) != a
  }

  lemma FirstMismatch(tail: bool, s: seq<Byte>, q: seq<Label>)
    requires |q| > 0 && First(s) != q[0]
    ensures !Matches(tail, s, q)
  {
    assert Path(s)[0] == First(s);
  }

  lemma {:induction false} BestOfOthers<V>(tail: bool, es: seq<WcKey<V>>, q: seq<Label>)
    requires |q| > 0 && NoneFirst(es, q[0])
    ensures Best(tail, es, q) == Miss
  {
    if es != [] {
      FirstMismatch(tail, es[0].key, q);
      BestOfOthers(tail, es[1..], q);
    }
  }

  lemma {:induction false} BestSkipsLeft<V>(tail: bool, es: seq<WcKey<V>>, es': seq<WcKey<V>>, q: seq<Label>)
    requires |q| > 0 && NoneFirst(es, q[0])
    ensures Best(tail, es + es', q) == Best(tail, es', q)
  {
    if es == [] {
      assert es + es' == es';
    } else {
      assert (es + es')[1..] == es[1..] + es';
      FirstMismatch(tail, es[0].key, q);
      BestSkipsLeft(tail, es[1..], es', q);
    }
  }

  lemma {:induction false} BestSkipsRight<V>(tail: bool, es: seq<WcKey<V>>, es': seq<WcKey<V>>, q: seq<Label>)
    requires |q| > 0 && NoneFirst(es', q[0])
    ensures Best(tail, es + es', q) == Best(tail, es, q)
  {
    if es == [] {
      assert es + es' == es';
      BestOfOthers(tail, es', q);
    } else {
      assert (es + es')[1..] == es[1..] + es';
      BestSkipsRight(tail, es[1..], es', q);
    }
  }

  lemma MatchesRest<V>(tail: bool, x: WcKey<V>, q: seq<Label>)
    requires |q| > 0 && !Bare(x.key) && First(x.key) == q[0]
    ensures Path(x.key) == [q[0]] + Path(Rest(x).key)
    ensures Matches(tail, x.key, q) <==> |q| > 1 && Matches(tail, Rest(x).key, q[1..])
  {
    assert Path(x.key) == [q[0]] + Path(Rest(x).key);
    if |q| > 1 {
      assert q == [q[0]] + q[1..];
      assert Path(x.key)[1..] == Path(Rest(x).key);
    }
  }

  function Deeper<V>(h: Hit<V>): Hit<V> {
    if h.Miss? then Miss else Hit(h.len + 1, h.value)
  }

  /** Below one label, the longest match is the longest match of the rests. */
  lemma {:induction false} BestOfRests<V>(tail: bool, g: seq<WcKey<V>>, q: seq<Label>)
    requires |q| > 0 && AllFirst(g, q[0]) && forall i :: 0 <= i < |g| ==> !Bare(g[i].key)
    ensures Best(tail, g, q) == if |q| == 1 then Miss else Deeper(Best(tail, Rests(g), q[1..]))
  {
    if g != [] {
      MatchesRest(tail, g[0], q);
      BestOfRests(tail, g[1..], q);
      assert Rests(g)[1..] == Rests(g[1..]);
    }
  }

  lemma {:induction false} BestLenPositive<V>(tail: bool, es: seq<WcKey<V>>, q: seq<Label>)
    ensures Best(tail, es, q).Hit? ==> Best(tail, es, q).len > 0
  {
    if es != [] {
      BestLenPositive(tail, es[1..], q);
    }
  }

  /** A key that is only a label loses to every longer match. */
  lemma BestWithBare<V>(tail: bool, x: WcKey<V>, g: seq<WcKey<V>>, q: seq<Label>)
    requires |q| > 0 && Bare(x.key) && First(x.key) == q[0] && AllFirst(g, q[0])
    requires forall i :: 0 <= i < |g| ==> !Bare(g[i].key)
    ensures Best(tail, [x] + g, q) ==
            if |q| == 1 then (if tail || Below(x.key) then Miss else Hit(1, x.value))
            else if Best(tail, Rests(g), q[1..]).Hit? then Deeper(Best(tail, Rests(g), q[1..]))
            else Hit(1, x.value)
  {
    BestOfRests(tail, g, q);
    assert ([x] + g)[1..] == g;
    assert Path(x.key) == [q[0]] <= q;
    if |q| > 1 && Best(tail, Rests(g), q[1..]).Hit? {
      BestLenPositive(tail, Rests(g), q[1..]);
    }
  }

  // ----------------------------------------------------------- the builder

  /** What the builder needs of the order of its keys: no path comes right after itself or one of its extensions. */
  ghost predicate Ascending<V>(names: seq<WcKey<V>>) {
    forall j :: 0 < j < |names| ==> !(Path(names[j].key) <= Path(names[j - 1].key))
  }

  ghost predicate Under(p: seq<Label>, s: seq<Byte>) {
    p <= Path(s)
  }

  /**
    The builder makes one element of each run of keys that share a label, and a search
    sees the first element of a label only.  So key `k` is found if nothing stands between
    it and an earlier key that it shares labels with but keys that share those labels.
  */
  ghost predicate Reachable<V>(names: seq<WcKey<V>>, k: nat)
    requires k < |names|
  {
    forall i, j, p :: 0 <= i < j < k && Under(p, names[i].key) && Under(p, names[k].key) ==> Under(p, names[j].key)
  }

  /** The keys that searches can find. */
  ghost function Kept<V>(names: seq<WcKey<V>>): seq<WcKey<V>> {
    if names == [] then []
    else Kept(names[..|names| - 1]) + if Reachable(names, |names| - 1) then [names[|names| - 1]] else []
  }

  /** Keys that share a path prefix are adjacent. */
  ghost predicate Contiguous<V>(names: seq<WcKey<V>>) {
    forall k :: 0 <= k < |names| ==> Reachable(names, k)
  }

  /** Keys are lower-cased C strings. */
  ghost predicate CleanKeys<V>(names: seq<WcKey<V>>) {
    forall i :: 0 <= i < |names| ==> NoNul(names[i].key) && Lower(names[i].key) == names[i].key
  }

  /** A tail trie holds no key that ends in a dot. */
  ghost predicate ModeOk<V>(tail: bool, names: seq<WcKey<V>>) {
    tail ==> forall i :: 0 <= i < |names| ==> !Below(names[i].key)
  }

  function HitLookup<V>(h: Hit<V>): Lookup<V> {
    if h.Miss? then Null else Found(h.value)
  }

  /** The search of `node` is the longest match among `names`, for all labels. */
  ghost predicate Solves<V>(node: Node<V>, names: seq<WcKey<V>>) {
    && node.value == None
    && forall tail, q: seq<Label> :: |q| > 0 && ModeOk(tail, names) ==>
         Search(tail, node, q) == HitLookup(Best(tail, names, q))
  }

  /** The element value `v` answers for the group `g`, whose keys all start with `a`. */
  ghost predicate SolvesGroup<V>(v: Tagged<V>, a: Label, g: seq<WcKey<V>>) {
    forall tail, q: seq<Label> :: |q| > 0 && q[0] == a && ModeOk(tail, g) && !(tail && |q| == 1) ==>
      Resolve(tail, v, q) == HitLookup(Best(tail, g, q))
  }

  /** Does the key `t` belong to the group that key `s` opens?  The test of the inner loop. */
  predicate InGroup(s: seq<Byte>, t: seq<Byte>, len: nat, dot: bool) {
    StrnEqual(s, t, len) && !(!dot && |t| > len && t[len] != DOT)
  }

  lemma SameFirstHasRest(s: seq<Byte>, t: seq<Byte>)
    requires !Bare(t) && First(t) == First(s)
    ensures DotAt(t) == DotAt(s) < |t| && t[DotAt(t)] == DOT
  {
    assert DotAt(t) == |First(t)| == DotAt(s);
  }

  lemma PrefixDotAt(s: seq<Byte>, t: seq<Byte>, k: nat)
    requires k == DotAt(s) && k <= |t| && t[..k] == s[..k] && (k < |t| ==> t[k] == DOT)
    ensures DotAt(t) == k
  {
    forall i | 0 <= i < k ensures t[i] != DOT {
      assert t[i] == t[..k][i] == s[..k][i] == s[i];
    }
    DotAtUnique(t, k);
  }

  lemma SplitAt(s: seq<Byte>, k: nat)
    requires k < |s|
    ensures s[..k + 1] == s[..k] + [s[k]]
  {
  }

  lemma InGroupIsSameFirst(s: seq<Byte>, t: seq<Byte>, k: nat, dot: bool)
    requires NoNul(s) && (First(t) == First(s) ==> !Bare(t))
    requires k == DotAt(s) && dot == (k < |s|)
    ensures InGroup(s, t, if dot then k + 1 else k, dot) <==> First(t) == First(s)
  {
    var len := if dot then k + 1 else k;
    StrnEqualIsPrefix(s, t, len);
    if First(t) == First(s) {
      SameFirstHasRest(s, t);
      if dot {
        SplitAt(s, k);
        SplitAt(t, k);
      }
    } else if InGroup(s, t, len, dot) {
      if dot {
        SplitAt(s, k);
        SplitAt(t, k);
      }
      PrefixDotAt(s, t, k);
    }
  }

  /** A value set on the node shows only where the search finds nothing. */
  lemma SearchWithValue<V>(tail: bool, node: Node<V>, w: Option<V>, q: seq<Label>)
    requires |q| > 0 && node.value == None
    ensures OrValue(Search(tail, node.(value := w), q), w) == OrValue(Search(tail, node, q), w)
  {
  }

  lemma LeafSolves<V>(x: WcKey<V>)
    requires Bare(x.key)
    ensures SolvesGroup(if Below(x.key) then SubData(x.value) else Data(x.value), First(x.key), [x])
  {
    var v := if Below(x.key) then SubData(x.value) else Data(x.value);
    forall tail, q: seq<Label> | |q| > 0 && q[0] == First(x.key) && ModeOk(tail, [x]) && !(tail && |q| == 1)
      ensures Resolve(tail, v, q) == HitLookup(Best(tail, [x], q))
    {
      BestWithBare(tail, x, [], q);
      assert [x] + [] == [x];
    }
  }

  lemma ModeOkRests<V>(tail: bool, g: seq<WcKey<V>>)
    requires ModeOk(tail, g) && forall i :: 0 <= i < |g| ==> !Bare(g[i].key)
    ensures ModeOk(tail, Rests(g))
  {
  }

  lemma InnerSolvesAt<V>(tail: bool, node: Node<V>, g: seq<WcKey<V>>, q: seq<Label>)
    requires |q| > 0 && AllFirst(g, q[0]) && forall i :: 0 <= i < |g| ==> !Bare(g[i].key)
    requires node.value == None
    requires |q| > 1 ==> Search(tail, node, q[1..]) == HitLookup(Best(tail, Rests(g), q[1..]))
    ensures Resolve(tail, SubHash(node), q) == HitLookup(Best(tail, g, q))
  {
    BestOfRests(tail, g, q);
  }

  lemma InnerSolves<V>(node: Node<V>, g: seq<WcKey<V>>, a: Label)
    requires AllFirst(g, a) && forall i :: 0 <= i < |g| ==> !Bare(g[i].key)
    requires Solves(node, Rests(g))
    ensures SolvesGroup(SubHash(node), a, g)
  {
    forall tail, q: seq<Label> | |q| > 0 && q[0] == a && ModeOk(tail, g) && !(tail && |q| == 1)
      ensures Resolve(tail, SubHash(node), q) == HitLookup(Best(tail, g, q))
    {
      ModeOkRests(tail, g);
      InnerSolvesAt(tail, node, g, q);
    }
  }

  lemma InnerWithBareSolvesAt<V>(tail: bool, node: Node<V>, x: WcKey<V>, g: seq<WcKey<V>>, q: seq<Label>)
    requires |q| > 0 && !(tail && |q| == 1) && Bare(x.key) && First(x.key) == q[0] && AllFirst(g, q[0])
    requires node.value == None && forall i :: 0 <= i < |g| ==> !Bare(g[i].key)
    requires |q| > 1 ==> Search(tail, node, q[1..]) == HitLookup(Best(tail, Rests(g), q[1..]))
    ensures var sub := node.(value := Some(x.value));
            Resolve(tail, if Below(x.key) then SubHash(sub) else Hash(sub), q) == HitLookup(Best(tail, [x] + g, q))
  {
    BestWithBare(tail, x, g, q);
    if |q| > 1 {
      SearchWithValue(tail, node, Some(x.value), q[1..]);
    }
  }

  lemma InnerWithBareSolves<V>(node: Node<V>, x: WcKey<V>, g: seq<WcKey<V>>)
    requires Bare(x.key) && AllFirst(g, First(x.key)) && forall i :: 0 <= i < |g| ==> !Bare(g[i].key)
    requires Solves(node, Rests(g))
    ensures var sub := node.(value := Some(x.value));
            SolvesGroup(if Below(x.key) then SubHash(sub) else Hash(sub), First(x.key), [x] + g)
  {
    var sub := node.(value := Some(x.value));
    var v := if Below(x.key) then SubHash(sub) else Hash(sub);
    forall tail, q: seq<Label> | |q| > 0 && q[0] == First(x.key) && ModeOk(tail, [x] + g) && !(tail && |q| == 1)
      ensures Resolve(tail, v, q) == HitLookup(Best(tail, [x] + g, q))
    {
      assert g == ([x] + g)[1..];
      ModeOkRests(tail, g);
      InnerWithBareSolvesAt(tail, node, x, g, q);
    }
  }

  // ------------------------------------------------------ the keys kept

  lemma KeptAppend<V>(done: seq<WcKey<V>>, x: WcKey<V>)
    ensures Kept(done + [x]) == Kept(done) + if Reachable(done + [x], |done|) then [x] else []
  {
    assert (done + [x])[..|done|] == done;
  }

  lemma {:induction false} KeptOfPrefix<V>(names: seq<WcKey<V>>, n: nat, k: nat)
    requires k < n <= |names|
    ensures Reachable(names[..n], k) <==> Reachable(names, k)
  {
    forall i | 0 <= i < n ensures names[..n][i] == names[i] {}
  }

  /** Every kept key is one of the keys, and every reachable one is kept. */
  lemma {:induction false} KeptMembers<V>(names: seq<WcKey<V>>, x: WcKey<V>)
    ensures x in Kept(names) <==> exists k :: 0 <= k < |names| && names[k] == x && Reachable(names, k)
  {
    hide Reachable;
    if names != [] {
      var n := |names| - 1;
      var front := names[..n];
      KeptMembers(front, x);
      forall k | 0 <= k < n ensures front[k] == names[k] && (Reachable(front, k) <==> Reachable(names, k)) {
        KeptOfPrefix(names, n, k);
      }
      if k :| 0 <= k < |front| && front[k] == x && Reachable(front, k) {
        assert names[k] == x && Reachable(names, k);
      }
      if k :| 0 <= k < |names| && names[k] == x && Reachable(names, k) {
        assert k < n ==> front[k] == x && Reachable(front, k);
      }
    }
  }

  /** Contiguous keys are all kept. */
  lemma {:induction false} AllKept<V>(names: seq<WcKey<V>>)
    requires Contiguous(names)
    ensures Kept(names) == names
  {
    if names != [] {
      var n := |names| - 1;
      forall k | 0 <= k < n ensures Reachable(names[..n], k) {
        KeptOfPrefix(names, n, k);
      }
      AllKept(names[..n]);
    }
  }

  lemma UnderOne(a: Label, s: seq<Byte>)
    ensures Under([a], s) <==> First(s) == a
  {
    assert Path(s)[0] == First(s);
  }

  lemma UnderFirst(p: seq<Label>, s: seq<Byte>)
    requires p != [] && Under(p, s)
    ensures First(s) == p[0]
  {
    assert Path(s)[0] == First(s);
  }

  /** The first run of a label keeps what its keys alone would keep. */
  lemma NewRunReachable<V>(done: seq<WcKey<V>>, g: seq<WcKey<V>>, a: Label, k: nat)
    requires AllFirst(g, a) && NoneFirst(done, a) && k < |g|
    ensures Reachable(done + g, |done| + k) <==> Reachable(g, k)
  {
    var names := done + g;
    forall i | 0 <= i < |g| ensures names[|done| + i] == g[i] {}
    if Reachable(names, |done| + k) {
      forall i, j, p | 0 <= i < j < k && Under(p, g[i].key) && Under(p, g[k].key) ensures Under(p, g[j].key) {
        assert names[|done| + i] == g[i] && names[|done| + j] == g[j];
      }
    }
    if Reachable(g, k) {
      forall i, j, p | 0 <= i < j < |done| + k && Under(p, names[i].key) && Under(p, g[k].key)
        ensures Under(p, names[j].key)
      {
        if p != [] {
          UnderFirst(p, g[k].key);
          UnderFirst(p, names[i].key);
          assert names[i] == g[i - |done|] && names[j] == g[j - |done|];
        }
      }
    }
  }

  /** A later run of a label is lost. */
  lemma LostRun<V>(done: seq<WcKey<V>>, g: seq<WcKey<V>>, a: Label, k: nat)
    requires AllFirst(g, a) && !NoneFirst(done, a) && First(done[|done| - 1].key) != a && k < |g|
    ensures !Reachable(done + g, |done| + k)
  {
    var names, m := done + g, |done| - 1;
    var i :| 0 <= i < |done| && First(done[i].key) == a;
    assert names[i] == done[i] && names[m] == done[m] && names[|done| + k] == g[k];
    UnderOne(a, names[i].key);
    UnderOne(a, names[m].key);
    UnderOne(a, names[|done| + k].key);
  }

  lemma NoneKept<V>()
    ensures Kept<V>([]) == []
  {
  }

  lemma AssocKeys<V>(a: seq<WcKey<V>>, b: seq<WcKey<V>>, c: seq<WcKey<V>>)
    ensures a + b + c == a + (b + c)
  {
  }

  /** A run of one label: of the first all keys are kept that its own level keeps, of a later one none. */
  lemma {:induction false} KeptRun<V>(done: seq<WcKey<V>>, g: seq<WcKey<V>>, a: Label)
    requires AllFirst(g, a) && (NoneFirst(done, a) || First(done[|done| - 1].key) != a)
    ensures Kept(done + g) == Kept(done) + if NoneFirst(done, a) then Kept(g) else []
    decreases |g|
  {
    hide Reachable, Kept;
    if g == [] {
      assert done + g == done;
      NoneKept<V>();
    } else {
      var n := |g| - 1;
      var front, x := g[..n], g[n];
      assert AllFirst(front, a);
      KeptRun(done, front, a);
      assert done + g == (done + front) + [x] && g == front + [x];
      KeptAppend(done + front, x);
      KeptAppend(front, x);
      if NoneFirst(done, a) {
        NewRunReachable(done, g, a, n);
        AssocKeys(Kept(done), Kept(front), [x]);
      } else {
        LostRun(done, g, a, n);
      }
    }
  }

  lemma UnderBare(p: seq<Label>, s: seq<Byte>, t: seq<Byte>)
    requires Bare(s) && Under(p, s) && First(s) == First(t)
    ensures Under(p, t)
  {
    assert Path(s) == [First(s)];
    UnderOne(First(s), t);
    assert p == [] || p == [First(s)];
  }

  /** A key that is only the label is kept, and does not matter for the others. */
  lemma BareReachable<V>(x: WcKey<V>, g: seq<WcKey<V>>, k: nat)
    requires Bare(x.key) && AllFirst(g, First(x.key)) && k < |g|
    ensures Reachable([x] + g, k + 1) <==> Reachable(g, k)
  {
    var names := [x] + g;
    if Reachable(names, k + 1) {
      forall i, j, p | 0 <= i < j < k && Under(p, g[i].key) && Under(p, g[k].key) ensures Under(p, g[j].key) {
        assert names[i + 1] == g[i] && names[j + 1] == g[j] && names[k + 1] == g[k];
      }
    }
    if Reachable(g, k) {
      forall i, j, p | 0 <= i < j < k + 1 && Under(p, names[i].key) && Under(p, g[k].key)
        ensures Under(p, names[j].key)
      {
        assert names[j] == g[j - 1];
        if i == 0 {
          UnderBare(p, x.key, g[j - 1].key);
        } else {
          assert names[i] == g[i - 1];
        }
      }
    }
  }

  lemma FirstReachable<V>(names: seq<WcKey<V>>)
    requires names != []
    ensures Reachable(names, 0)
  {
  }

  lemma {:induction false} KeptBare<V>(x: WcKey<V>, g: seq<WcKey<V>>)
    requires Bare(x.key) && AllFirst(g, First(x.key))
    ensures Kept([x] + g) == [x] + Kept(g)
    decreases |g|
  {
    hide Reachable, Kept;
    if g == [] {
      NoneKept<V>();
      KeptAppend([], x);
      FirstReachable([x]);
      assert [] + [x] == [x] && [x] + g == [x];
    } else {
      var n := |g| - 1;
      var front, y := g[..n], g[n];
      assert AllFirst(front, First(x.key));
      KeptBare(x, front);
      assert [x] + g == ([x] + front) + [y] && g == front + [y];
      KeptAppend([x] + front, y);
      KeptAppend(front, y);
      BareReachable(x, g, n);
      AssocKeys([x], Kept(front), [y]);
    }
  }

  lemma UnderRest<V>(x: WcKey<V>, a: Label, p: seq<Label>)
    requires !Bare(x.key) && First(x.key) == a
    ensures Path(x.key) == [a] + Path(Rest(x).key)
    ensures Under(p, Rest(x).key) <==> Under([a] + p, x.key)
  {
    assert Path(x.key) == [a] + Path(Rest(x).key);
    if Under([a] + p, x.key) {
      assert p == ([a] + p)[1..] <= Path(x.key)[1..] == Path(Rest(x).key);
    }
  }

  lemma RestReachable<V>(g: seq<WcKey<V>>, a: Label, k: nat)
    requires AllFirst(g, a) && k < |g| && forall i :: 0 <= i < |g| ==> !Bare(g[i].key)
    ensures Reachable(Rests(g), k) <==> Reachable(g, k)
  {
    var r := Rests(g);
    if Reachable(g, k) {
      forall i, j, p | 0 <= i < j < k && Under(p, r[i].key) && Under(p, r[k].key) ensures Under(p, r[j].key) {
        UnderRest(g[i], a, p);
        UnderRest(g[j], a, p);
        UnderRest(g[k], a, p);
      }
    }
    if Reachable(r, k) {
      forall i, j, p | 0 <= i < j < k && Under(p, g[i].key) && Under(p, g[k].key) ensures Under(p, g[j].key) {
        if p != [] {
          UnderFirst(p, g[k].key);
          assert p == [a] + p[1..];
          UnderRest(g[i], a, p[1..]);
          UnderRest(g[j], a, p[1..]);
          UnderRest(g[k], a, p[1..]);
        }
      }
    }
  }

  /** Dropping the common label changes nothing about what is kept. */
  lemma {:induction false} KeptRests<V>(g: seq<WcKey<V>>, a: Label)
    requires AllFirst(g, a) && forall i :: 0 <= i < |g| ==> !Bare(g[i].key)
    ensures AllFirst(Kept(g), a) && (forall i :: 0 <= i < |Kept(g)| ==> !Bare(Kept(g)[i].key))
    ensures Kept(Rests(g)) == Rests(Kept(g))
    decreases |g|
  {
    hide Reachable;
    if g != [] {
      var n := |g| - 1;
      var front, x := g[..n], g[n];
      KeptRests(front, a);
      RestReachable(g, a, n);
      assert Rests(g) == Rests(front) + [Rest(x)];
      KeptAppend(Rests(front), Rest(x));
    }
  }

  lemma {:induction false} KeptFirst<V>(g: seq<WcKey<V>>, a: Label)
    ensures AllFirst(g, a) ==> AllFirst(Kept(g), a)
    ensures NoneFirst(g, a) ==> NoneFirst(Kept(g), a)
  {
    if g != [] {
      KeptFirst(g[..|g| - 1], a);
    }
  }

  // ------------------------------------------------------ one level

  // The invariant of the outer loop: the elements of `curr` answer for `done`.

  ghost predicate HasLabel<V>(curr: seq<Key<V>>, c: nat, a: Label) {
    c < |curr| && curr[c].data == Some(a)
  }

  /** Element `c` is the first with label `a`. */
  ghost predicate FirstHas<V>(curr: seq<Key<V>>, c: nat, a: Label) {
    HasLabel(curr, c, a) && forall d: nat :: d < c ==> !HasLabel(curr, d, a)
  }

  ghost predicate HasSome<V>(curr: seq<Key<V>>, a: Label) {
    exists c: nat :: HasLabel(curr, c, a)
  }

  ghost predicate GoodElement<V>(x: Key<Tagged<V>>, done: seq<WcKey<V>>) {
    x.data.Some? && Lower(x.data.value) == x.data.value && x.hash == HashKey(x.data.value)
    && !NoneFirst(done, x.data.value)
  }

  /** The elements have lower-cased labels with their hashes: the first labels of `done`. */
  ghost predicate GoodCurr<V>(curr: seq<Key<Tagged<V>>>, done: seq<WcKey<V>>) {
    && (forall c :: 0 <= c < |curr| ==> GoodElement(curr[c], done))
    && (forall i :: 0 <= i < |done| ==> HasSome(curr, First(done[i].key)))
  }

  ghost predicate Answers<V>(tail: bool, curr: seq<Key<Tagged<V>>>, kept: seq<WcKey<V>>, q: seq<Label>)
    requires |q| > 0
  {
    && (forall c: nat :: FirstHas(curr, c, q[0]) ==> Resolve(tail, curr[c].value, q) == HitLookup(Best(tail, kept, q)))
    && ((forall c: nat :: !HasLabel(curr, c, q[0])) ==> Best(tail, kept, q).Miss?)
  }

  ghost predicate AllAnswer<V>(curr: seq<Key<Tagged<V>>>, kept: seq<WcKey<V>>) {
    forall tail, q :: |q| > 0 && ModeOk(tail, kept) && !(tail && |q| == 1) ==> Answers(tail, curr, kept, q)
  }

  lemma SameElsewhere<V>(curr: seq<Key<V>>, x: Key<V>, b: Label)
    requires x.data != Some(b)
    ensures forall c: nat :: HasLabel(curr + [x], c, b) <==> HasLabel(curr, c, b)
    ensures forall c: nat :: FirstHas(curr + [x], c, b) <==> FirstHas(curr, c, b)
  {
    forall c: nat ensures HasLabel(curr + [x], c, b) <==> HasLabel(curr, c, b) {}
  }

  lemma AddGroupAnswers<V>(tail: bool, curr: seq<Key<Tagged<V>>>, kept: seq<WcKey<V>>, g: seq<WcKey<V>>,
                           a: Label, x: Key<Tagged<V>>, q: seq<Label>)
    requires |q| > 0 && !(tail && |q| == 1) && ModeOk(tail, g)
    requires (forall c: nat :: !HasLabel(curr, c, a)) && Answers(tail, curr, kept, q)
    requires AllFirst(g, a) && NoneFirst(kept, a) && x.data == Some(a) && SolvesGroup(x.value, a, g)
    ensures Answers(tail, curr + [x], kept + g, q)
  {
    var curr' := curr + [x];
    if q[0] == a {
      BestSkipsLeft(tail, kept, g, q);
      assert HasLabel(curr', |curr|, a);
      forall c: nat | HasLabel(curr', c, a) ensures c == |curr| {
        assert c < |curr| ==> HasLabel(curr, c, a);
      }
    } else {
      BestSkipsRight(tail, kept, g, q);
      SameElsewhere(curr, x, q[0]);
    }
  }

  /** The first run of a label: its element answers for it. */
  lemma AddGroup<V>(curr: seq<Key<Tagged<V>>>, done: seq<WcKey<V>>, kept: seq<WcKey<V>>, g: seq<WcKey<V>>, x: Key<Tagged<V>>, a: Label)
    requires GoodCurr(curr, done) && AllAnswer(curr, kept) && NoneFirst(done, a) && NoneFirst(kept, a)
    requires AllFirst(g, a) && x.data == Some(a) && SolvesGroup(x.value, a, g)
    ensures AllAnswer(curr + [x], kept + g)
  {
    forall c: nat ensures !HasLabel(curr, c, a) {
      assert c < |curr| ==> GoodElement(curr[c], done);
    }
    forall tail, q | |q| > 0 && ModeOk(tail, kept + g) && !(tail && |q| == 1)
      ensures Answers(tail, curr + [x], kept + g, q)
    {
      assert ModeOk(tail, kept) && ModeOk(tail, g) by {
        assert kept == (kept + g)[..|kept|] && g == (kept + g)[|kept|..];
      }
      AddGroupAnswers(tail, curr, kept, g, a, x, q);
    }
  }

  /** A later run of a label: its element is never found. */
  lemma AddShadowed<V>(curr: seq<Key<Tagged<V>>>, kept: seq<WcKey<V>>, x: Key<Tagged<V>>, a: Label)
    requires AllAnswer(curr, kept) && x.data == Some(a) && HasSome(curr, a)
    ensures AllAnswer(curr + [x], kept)
  {
    var curr' := curr + [x];
    var c0: nat :| HasLabel(curr, c0, a);
    assert HasLabel(curr', c0, a);
    forall tail, q | |q| > 0 && ModeOk(tail, kept) && !(tail && |q| == 1) ensures Answers(tail, curr', kept, q) {
      assert Answers(tail, curr, kept, q);
      if q[0] == a {
        forall c: nat | FirstHas(curr', c, a) ensures FirstHas(curr, c, a) && curr'[c] == curr[c] {
          assert c <= c0;
          forall d: nat | d < c ensures !HasLabel(curr, d, a) {
            assert !HasLabel(curr', d, a);
          }
        }
      } else {
        SameElsewhere(curr, x, q[0]);
      }
    }
  }

  lemma StillHas<V>(curr: seq<Key<V>>, x: Key<V>, b: Label)
    requires HasSome(curr, b)
    ensures HasSome(curr + [x], b)
  {
    var c: nat :| HasLabel(curr, c, b);
    assert HasLabel(curr + [x], c, b);
  }

  lemma AddGroupGood<V>(curr: seq<Key<Tagged<V>>>, done: seq<WcKey<V>>, g: seq<WcKey<V>>, a: Label, x: Key<Tagged<V>>)
    requires GoodCurr(curr, done) && x.data == Some(a) && x.hash == HashKey(a) && Lower(a) == a
    requires |g| > 0 && AllFirst(g, a)
    ensures GoodCurr(curr + [x], done + g)
  {
    var curr', done' := curr + [x], done + g;
    assert done'[|done|] == g[0];
    forall c | 0 <= c < |curr'| ensures GoodElement(curr'[c], done') {
      if c < |curr| {
        assert GoodElement(curr[c], done);
        var i :| 0 <= i < |done| && First(done[i].key) == curr[c].data.value;
        assert done'[i] == done[i];
      }
    }
    forall i | 0 <= i < |done'| ensures HasSome(curr', First(done'[i].key)) {
      if i < |done| {
        assert done'[i] == done[i];
        StillHas(curr, x, First(done[i].key));
      } else {
        assert done'[i] == g[i - |done|];
        assert HasLabel(curr', |curr|, a);
      }
    }
  }

  lemma LabelFound<V>(t: Table<Tagged<V>>, curr: seq<Key<Tagged<V>>>, done: seq<WcKey<V>>, a: Label)
    requires Represents(t, curr) && GoodCurr(curr, done)
    ensures forall c: nat :: FirstHas(curr, c, a) ==> FindLabel(t, a) == Found(curr[c].value)
    ensures (forall c: nat :: !HasLabel(curr, c, a)) ==> FindLabel(t, a) == Null
  {
    forall c | 0 <= c < |curr|
      ensures curr[c].data.Some? && Lower(curr[c].data.value) == curr[c].data.value
      ensures curr[c].hash == HashKey(curr[c].data.value)
      ensures IsKey(curr[c], a) <==> HasLabel(curr, c, a)
    {
      assert GoodElement(curr[c], done);
    }
    HashFindsFirst(t, curr, HashKey, a);
    forall c: nat | FirstHas(curr, c, a) ensures IsFirstKey(curr, c, a) {
      forall m | 0 <= m < c ensures !IsKey(curr[m], a) {
        assert !HasLabel(curr, m, a);
      }
    }
  }

  lemma {:induction false} FirstOrNone<V>(curr: seq<Key<V>>, a: Label)
    ensures (exists c: nat :: FirstHas(curr, c, a)) || forall c: nat :: !HasLabel(curr, c, a)
  {
    if curr != [] {
      var n := |curr| - 1;
      var front := curr[..n];
      FirstOrNone(front, a);
      if c: nat :| FirstHas(front, c, a) {
        assert FirstHas(curr, c, a) by {
          forall d: nat | d < c ensures !HasLabel(curr, d, a) {
            assert !HasLabel(front, d, a);
          }
        }
      } else {
        forall c: nat | c < n ensures !HasLabel(curr, c, a) {
          assert !HasLabel(front, c, a);
        }
        assert HasLabel(curr, n, a) ==> FirstHas(curr, n, a);
      }
    }
  }

  lemma TableSolvesAt<V>(tail: bool, t: Table<Tagged<V>>, curr: seq<Key<Tagged<V>>>, kept: seq<WcKey<V>>, q: seq<Label>)
    requires |q| > 0 && !(tail && |q| == 1) && Answers(tail, curr, kept, q)
    requires (exists c: nat :: FirstHas(curr, c, q[0])) || forall c: nat :: !HasLabel(curr, c, q[0])
    requires forall c: nat :: FirstHas(curr, c, q[0]) ==> FindLabel(t, q[0]) == Found(curr[c].value)
    requires (forall c: nat :: !HasLabel(curr, c, q[0])) ==> FindLabel(t, q[0]) == Null
    ensures Search(tail, Node(t, None), q) == HitLookup(Best(tail, kept, q))
  {
    if c: nat :| FirstHas(curr, c, q[0]) {
      assert FindLabel(t, q[0]) == Found(curr[c].value);
    } else {
      assert FindLabel(t, q[0]) == Null;
    }
  }

  lemma {:induction false} NothingFollows<V>(names: seq<WcKey<V>>, q: seq<Label>)
    requires |q| == 1
    ensures Best(true, names, q) == Miss
  {
    if names != [] {
      NothingFollows(names[1..], q);
    }
  }

  lemma TableSolves<V>(t: Table<Tagged<V>>, curr: seq<Key<Tagged<V>>>, done: seq<WcKey<V>>, kept: seq<WcKey<V>>)
    requires Represents(t, curr) && GoodCurr(curr, done) && AllAnswer(curr, kept)
    ensures Solves(Node(t, None), kept)
  {
    forall tail, q: seq<Label> | |q| > 0 && ModeOk(tail, kept)
      ensures Search(tail, Node(t, None), q) == HitLookup(Best(tail, kept, q))
    {
      if tail && |q| == 1 {
        NothingFollows(kept, q);
      } else {
        LabelFound(t, curr, done, q[0]);
        assert Answers(tail, curr, kept, q);
        FirstOrNone(curr, q[0]);
        TableSolvesAt(tail, t, curr, kept, q);
      }
    }
  }

  // ------------------------------------------------- order of the sub-lists

  lemma AscendingSlice<V>(names: seq<WcKey<V>>, lo: nat, hi: nat)
    requires Ascending(names) && lo <= hi <= |names|
    ensures Ascending(names[lo..hi])
  {
    var g := names[lo..hi];
    forall j | 0 < j < |g| ensures !(Path(g[j].key) <= Path(g[j - 1].key)) {
      assert g[j - 1] == names[lo + j - 1] && g[j] == names[lo + j];
    }
  }

  lemma AscendingRests<V>(g: seq<WcKey<V>>, a: Label)
    requires Ascending(g) && AllFirst(g, a) && forall i :: 0 <= i < |g| ==> !Bare(g[i].key)
    ensures Ascending(Rests(g))
  {
    var r := Rests(g);
    forall j | 0 < j < |r| ensures !(Path(r[j].key) <= Path(r[j - 1].key)) {
      UnderRest(g[j - 1], a, Path(r[j].key));
      UnderRest(g[j], a, []);
    }
  }

  lemma CleanRests<V>(g: seq<WcKey<V>>)
    requires CleanKeys(g) && forall i :: 0 <= i < |g| ==> !Bare(g[i].key)
    ensures CleanKeys(Rests(g))
  {
    forall i | 0 <= i < |g| ensures Lower(Rests(g)[i].key) == Rests(g)[i].key && NoNul(Rests(g)[i].key) {
      var s, k := g[i].key, DotAt(g[i].key) + 1;
      assert Rests(g)[i].key == s[k..];
      forall j | 0 <= j < |s| - k ensures Lower(s[k..])[j] == s[k..][j] {
        assert Lower(s)[k + j] == s[k + j];
      }
    }
  }

  // -------------------------------------------------------- termination

  ghost function MaxLen<V>(names: seq<WcKey<V>>): (m: nat)
    ensures forall i :: 0 <= i < |names| ==> |names[i].key| <= m
    ensures names == [] ==> m == 0
    ensures names != [] ==> exists i :: 0 <= i < |names| && |names[i].key| == m
  {
    if names == [] then 0
    else
      var m := MaxLen(names[1..]);
      assert forall i :: 1 <= i < |names| ==> names[i] == names[1..][i - 1];
      if |names[0].key| >= m then |names[0].key| else m
  }

  lemma RestsAreShorter<V>(names: seq<WcKey<V>>, lo: nat, hi: nat)
    requires lo < hi <= |names| && forall i :: lo <= i < hi ==> !Bare(names[i].key)
    ensures MaxLen(Rests(names[lo..hi])) < MaxLen(names)
  {
    var r := Rests(names[lo..hi]);
    var i :| 0 <= i < |r| && |r[i].key| == MaxLen(r);
    assert r[i] == Rest(names[lo + i]);
  }

  // ------------------------------------------------- ngx_hash_wildcard_init

  /** The keys of group `names[n..i]` that go to the next level. */
  ghost function Inner<V>(names: seq<WcKey<V>>, n: nat, i: nat): (r: seq<WcKey<V>>)
    requires n < i <= |names| && forall j :: n < j < i ==> !Bare(names[j].key)
    ensures forall j :: 0 <= j < |r| ==> !Bare(r[j].key)
  {
    if Bare(names[n].key) then names[n + 1..i] else names[n..i]
  }

  /** What CollectGroup establishes about the group `names[n..i]`. */
  ghost predicate IsGroup<V>(names: seq<WcKey<V>>, n: nat, i: nat) {
    && n < i <= |names|
    && AllFirst(names[n..i], First(names[n].key))
    && forall j :: n < j < i ==> !Bare(names[j].key)
  }

  /** Where the run of keys that share the first label of key `n` ends. */
  ghost function RunEnd<V>(names: seq<WcKey<V>>, n: nat): (i: nat)
    requires n < |names|
    ensures n < i <= |names|
    ensures forall j :: n <= j < i ==> First(names[j].key) == First(names[n].key)
    ensures i < |names| ==> First(names[i].key) != First(names[n].key)
    decreases |names| - n
  {
    if n + 1 < |names| && First(names[n + 1].key) == First(names[n].key) then RunEnd(names, n + 1) else n + 1
  }

  lemma BareIsPrefix(s: seq<Byte>, t: seq<Byte>)
    requires First(s) == First(t)
    ensures Bare(s) ==> Path(s) <= Path(t)
  {
    assert Bare(s) ==> Path(s) == [First(s)];
    assert Path(t)[0] == First(t);
  }

  /** Within a run a key that is only the label comes first. */
  lemma RunIsGroup<V>(names: seq<WcKey<V>>, n: nat)
    requires n < |names| && Ascending(names)
    ensures IsGroup(names, n, RunEnd(names, n))
  {
    var i := RunEnd(names, n);
    forall j | n < j < i ensures !Bare(names[j].key) {
      BareIsPrefix(names[j].key, names[j - 1].key);
    }
  }

  /** The loop's test decides for key `j` whether it starts with the first label of key `n`. */
  ghost predicate TestDecides<V>(names: seq<WcKey<V>>, n: nat, j: nat)
    requires n < |names| && j < |names|
  {
    var k := DotAt(names[n].key);
    var dot := k < |names[n].key|;
    var same := First(names[j].key) == First(names[n].key);
    && (InGroup(names[n].key, names[j].key, if dot then k + 1 else k, dot) <==> same)
    && (same ==> !Bare(names[j].key) && DotAt(names[j].key) == k)
  }

  lemma TestsDecide<V>(names: seq<WcKey<V>>, n: nat)
    requires n < |names| && Ascending(names) && CleanKeys(names)
    ensures forall j :: n < j <= RunEnd(names, n) && j < |names| ==> TestDecides(names, n, j)
  {
    RunIsGroup(names, n);
    forall j | n < j <= RunEnd(names, n) && j < |names| ensures TestDecides(names, n, j) {
      var k := DotAt(names[n].key);
      InGroupIsSameFirst(names[n].key, names[j].key, k, k < |names[n].key|);
      if First(names[j].key) == First(names[n].key) {
        SameFirstHasRest(names[n].key, names[j].key);
      }
    }
  }

  lemma RestsAt<V>(next: seq<WcKey<V>>, g: seq<WcKey<V>>)
    requires |next| == |g| && forall j :: 0 <= j < |g| ==> !Bare(g[j].key) && next[j] == Rest(g[j])
    ensures next == Rests(g)
  {
  }

  /** The inner loop: takes the keys after `n` that share its first label, without it. */
  method TakeGroup<V>(names: seq<WcKey<V>>, n: nat, k: nat, dot: bool) returns (next: seq<WcKey<V>>, i: nat)
    requires n < |names| && k == DotAt(names[n].key) && dot == (k < |names[n].key|)
    requires forall j :: n < j <= RunEnd(names, n) && j < |names| ==> TestDecides(names, n, j)
    ensures n < i <= |names|
    ensures forall j :: n < j < i ==> First(names[j].key) == First(names[n].key) && !Bare(names[j].key)
    ensures i < |names| ==> First(names[i].key) != First(names[n].key)
    ensures next == Rests(names[n + 1..i])
  {
    hide RunEnd, InGroup, First;
    next, i := [], n + 1;
    while i < |names| && InGroup(names[n].key, names[i].key, if dot then k + 1 else k, dot)
      invariant n < i <= RunEnd(names, n) && |next| == i - n - 1
      invariant forall j :: n < j < i ==> First(names[j].key) == First(names[n].key) && !Bare(names[j].key)
      invariant forall j :: n < j < i ==> next[j - n - 1] == Rest(names[j])
    {
      assert TestDecides(names, n, i);
      next := next + [WcKey(names[i].key[k + 1..], names[i].value)];
      i := i + 1;
    }
    assert i < |names| ==> TestDecides(names, n, i);
    RestsAt(next, names[n + 1..i]);
  }

  /**
    One turn of the outer loop up to the recursive call: finds the first label of
    key `n` and takes the keys that share it to the next level, without it.
  */
  method CollectGroup<V>(names: seq<WcKey<V>>, n: nat)
    returns (a: Label, dot: bool, next: seq<WcKey<V>>, i: nat)
    requires n < |names| && forall j :: n < j <= RunEnd(names, n) && j < |names| ==> TestDecides(names, n, j)
    ensures n < i <= |names|
    ensures a == First(names[n].key) && dot == (|a| < |names[n].key|)
    ensures AllFirst(names[n..i], a)
    ensures i < |names| ==> First(names[i].key) != a
    ensures forall j :: n < j < i ==> !Bare(names[j].key)
    ensures next == Rests(Inner(names, n, i))
  {
    var s := names[n].key;
    var k := 0;
    while k < |s| && s[k] != DOT
      invariant 0 <= k <= |s| && forall j :: 0 <= j < k ==> s[j] != DOT
    {
      k := k + 1;
    }
    DotAtUnique(s, k);
    a, dot := s[..k], k < |s|;
    var len := if dot then k + 1 else k;
    next, i := TakeGroup(names, n, k, dot);
    if |s| != len {
      next := [WcKey(s[len..], names[n].value)] + next;
      RestsAt(next, names[n..i]);
    }
  }

  /** Where the keys of the group that go on after the first label start. */
  ghost function InnerFrom<V>(names: seq<WcKey<V>>, n: nat): nat
    requires n < |names|
  {
    if Bare(names[n].key) then n + 1 else n
  }

  lemma InnerIsInner<V>(names: seq<WcKey<V>>, n: nat, i: nat)
    requires IsGroup(names, n, i)
    ensures InnerFrom(names, n) <= i && Inner(names, n, i) == names[InnerFrom(names, n)..i]
    ensures AllFirst(Inner(names, n, i), First(names[n].key))
    ensures forall j :: 0 <= j < |Inner(names, n, i)| ==> !Bare(Inner(names, n, i)[j].key)
  {
    var lo := InnerFrom(names, n);
    var g := names[lo..i];
    forall j | 0 <= j < |g| ensures First(g[j].key) == First(names[n].key) && !Bare(g[j].key) {
      assert g[j] == names[lo + j];
      assert names[lo + j] == names[n..i][lo - n + j];
    }
  }

  lemma AscendingNext<V>(names: seq<WcKey<V>>, n: nat, i: nat)
    requires IsGroup(names, n, i) && Ascending(names)
    ensures Ascending(Rests(Inner(names, n, i)))
  {
    InnerIsInner(names, n, i);
    AscendingSlice(names, InnerFrom(names, n), i);
    AscendingRests(Inner(names, n, i), First(names[n].key));
  }

  lemma CleanNext<V>(names: seq<WcKey<V>>, n: nat, i: nat)
    requires IsGroup(names, n, i) && CleanKeys(names)
    ensures CleanKeys(Rests(Inner(names, n, i)))
  {
    InnerIsInner(names, n, i);
    var g := Inner(names, n, i);
    forall j | 0 <= j < |g| ensures NoNul(g[j].key) && Lower(g[j].key) == g[j].key {
      assert g[j] == names[InnerFrom(names, n) + j];
    }
    CleanRests(g);
  }

  lemma ShorterNext<V>(names: seq<WcKey<V>>, n: nat, i: nat)
    requires IsGroup(names, n, i)
    ensures Rests(Inner(names, n, i)) != [] ==> MaxLen(Rests(Inner(names, n, i))) < MaxLen(names)
  {
    InnerIsInner(names, n, i);
    var lo := InnerFrom(names, n);
    if lo < i {
      forall j | lo <= j < i ensures !Bare(names[j].key) {
        assert Inner(names, n, i)[j - lo] == names[j];
      }
      RestsAreShorter(names, lo, i);
    }
  }

  // ------------------------------------------------- when building fails

  lemma RunEndUnique<V>(names: seq<WcKey<V>>, n: nat, i: nat)
    requires IsGroup(names, n, i) && (i < |names| ==> First(names[i].key) != First(names[n].key))
    ensures i == RunEnd(names, n)
  {
    var e := RunEnd(names, n);
    forall j | n <= j < i ensures First(names[j].key) == First(names[n].key) {
      assert names[n..i][j - n] == names[j];
    }
  }

  /** The table keys of a level: the labels of its runs. */
  ghost function Entries<V>(names: seq<WcKey<V>>, n: nat): seq<Key<()>>
    decreases |names| - n
  {
    if n >= |names| then []
    else [Key(Some(First(names[n].key)), HashKey(First(names[n].key)), ())] + Entries(names, RunEnd(names, n))
  }

  /** Some level below a run from key `n` on cannot be built. */
  ghost predicate RunsFail<V>(cfg: Config, names: seq<WcKey<V>>, n: nat)
    requires cfg.cacheline <= 65536 && Ascending(names)
    decreases MaxLen(names), if n < |names| then |names| - n else 0
  {
    n < |names| &&
    var i := RunEnd(names, n);
    RunIsGroup(names, n);
    AscendingNext(names, n, i);
    ShorterNext(names, n, i);
    var next := Rests(Inner(names, n, i));
    (next != [] && TrieFails(cfg, next)) || RunsFail(cfg, names, i)
  }

  /** Some level of the trie cannot be built. */
  ghost predicate TrieFails<V>(cfg: Config, names: seq<WcKey<V>>)
    requires cfg.cacheline <= 65536 && Ascending(names)
    decreases MaxLen(names), |names| + 1
  {
    CannotBuild(cfg, Entries(names, 0)) || RunsFail(cfg, names, 0)
  }

  /** The tag bits and the node value the builder chooses for a group that goes on. */
  function InnerValue<V>(x: WcKey<V>, node: Node<V>): Tagged<V> {
    var sub := if Bare(x.key) then node.(value := Some(x.value)) else node;
    if DotAt(x.key) < |x.key| then SubHash(sub) else Hash(sub)
  }

  lemma InnerValueSolves<V>(names: seq<WcKey<V>>, n: nat, i: nat, node: Node<V>)
    requires IsGroup(names, n, i) && Solves(node, Kept(Rests(Inner(names, n, i))))
    ensures SolvesGroup(InnerValue(names[n], node), First(names[n].key), Kept(names[n..i]))
  {
    hide Solves, SolvesGroup, Kept;
    var x, h, a := names[n], Inner(names, n, i), First(names[n].key);
    InnerIsInner(names, n, i);
    KeptRests(h, a);
    if Bare(x.key) {
      assert names[n..i] == [x] + h;
      KeptBare(x, h);
      InnerWithBareSolves(node, x, Kept(h));
    } else {
      InnerSolves(node, Kept(h), a);
    }
  }

  lemma LeafValueSolves<V>(names: seq<WcKey<V>>, n: nat, i: nat)
    requires IsGroup(names, n, i) && |Inner(names, n, i)| == 0
    ensures Bare(names[n].key)
    ensures SolvesGroup(if Below(names[n].key) then SubData(names[n].value) else Data(names[n].value),
                        First(names[n].key), Kept(names[n..i]))
  {
    assert names[n..i] == [names[n]] && [names[n]] + [] == [names[n]];
    KeptBare(names[n], []);
    LeafSolves(names[n]);
  }

  /** The elements made so far are the first entries of the level, and `rest` are the others. */
  ghost predicate EntriesLeft<V>(all: seq<Key<()>>, curr: seq<Key<V>>, rest: seq<Key<()>>) {
    |curr| <= |all| && SameKeys(curr, all[..|curr|]) && all[|curr|..] == rest
  }

  ghost predicate Boundary<V>(names: seq<WcKey<V>>, n: nat) {
    n <= |names| && (0 < n < |names| ==> First(names[n - 1].key) != First(names[n].key))
  }

  /** What the outer loop has done before key `n`. */
  ghost predicate LevelUpTo<V>(names: seq<WcKey<V>>, n: nat, curr: seq<Key<Tagged<V>>>) {
    && Boundary(names, n)
    && GoodCurr(curr, names[..n]) && AllAnswer(curr, Kept(names[..n]))
    && EntriesLeft(Entries(names, 0), curr, Entries(names, n))
  }

  lemma LevelStart<V>(names: seq<WcKey<V>>)
    ensures LevelUpTo(names, 0, [])
  {
    assert names[..0] == [];
  }

  lemma NextEntry<V>(all: seq<Key<()>>, curr: seq<Key<V>>, rest: seq<Key<()>>, x: Key<V>)
    requires EntriesLeft(all, curr, rest) && rest != [] && x.data == rest[0].data && x.hash == rest[0].hash
    ensures EntriesLeft(all, curr + [x], rest[1..])
  {
    assert all[|curr|] == rest[0];
    assert all[|curr| + 1..] == rest[1..];
    assert all[..|curr| + 1] == all[..|curr|] + [all[|curr|]];
  }

  /** The searches after one more element. */
  lemma LevelAnswers<V>(done: seq<WcKey<V>>, g: seq<WcKey<V>>, curr: seq<Key<Tagged<V>>>, x: Key<Tagged<V>>, a: Label)
    requires GoodCurr(curr, done) && AllAnswer(curr, Kept(done)) && x.data == Some(a) && SolvesGroup(x.value, a, Kept(g))
    requires AllFirst(g, a) && (done != [] ==> First(done[|done| - 1].key) != a)
    ensures AllAnswer(curr + [x], Kept(done + g))
  {
    hide AllAnswer, SolvesGroup, Kept, Reachable;
    KeptRun(done, g, a);
    if NoneFirst(done, a) {
      KeptFirst(done, a);
      KeptFirst(g, a);
      AddGroup(curr, done, Kept(done), Kept(g), x, a);
    } else {
      var m :| 0 <= m < |done| && First(done[m].key) == a;
      AddShadowed(curr, Kept(done), x, a);
      assert Kept(done) + [] == Kept(done);
    }
  }

  lemma GroupFacts<V>(names: seq<WcKey<V>>, n: nat, i: nat)
    requires IsGroup(names, n, i)
    ensures n < i <= |names| && AllFirst(names[n..i], First(names[n].key)) && |names[n..i]| > 0
    ensures First(names[i - 1].key) == First(names[n].key)
  {
    assert names[n..i][i - 1 - n] == names[i - 1];
  }

  lemma StepBoundary<V>(names: seq<WcKey<V>>, n: nat, i: nat)
    requires Boundary(names, n) && IsGroup(names, n, i) && i == RunEnd(names, n)
    ensures n < i <= |names| && Boundary(names, i) && names[..i] == names[..n] + names[n..i] && |names[n..i]| > 0
    ensures AllFirst(names[n..i], First(names[n].key))
    ensures names[..n] != [] ==> First(names[..n][n - 1].key) != First(names[n].key)
  {
    GroupFacts(names, n, i);
  }

  lemma FirstEntry<V>(names: seq<WcKey<V>>, n: nat)
    requires n < |names|
    ensures var e := Entries(names, n);
            && e != [] && e[0].data == Some(First(names[n].key)) && e[0].hash == HashKey(First(names[n].key))
            && e[1..] == Entries(names, RunEnd(names, n))
  {
  }

  lemma LowerFirst<V>(names: seq<WcKey<V>>, n: nat)
    requires CleanKeys(names) && n < |names|
    ensures Lower(First(names[n].key)) == First(names[n].key)
  {
    var s := names[n].key;
    forall j | 0 <= j < DotAt(s) ensures Lower(First(s))[j] == First(s)[j] {
      assert Lower(s)[j] == s[j];
    }
  }

  lemma LevelStep<V>(names: seq<WcKey<V>>, n: nat, i: nat, curr: seq<Key<Tagged<V>>>, x: Key<Tagged<V>>)
    requires LevelUpTo(names, n, curr) && IsGroup(names, n, i) && i == RunEnd(names, n) && CleanKeys(names)
    requires x.data == Some(First(names[n].key)) && x.hash == HashKey(First(names[n].key))
    requires SolvesGroup(x.value, First(names[n].key), Kept(names[n..i]))
    ensures LevelUpTo(names, i, curr + [x])
  {
    hide AllAnswer, SolvesGroup, Kept, IsGroup, EntriesLeft, GoodCurr, CleanKeys, Entries, First, Boundary, RunEnd, HashKey;
    var done, g, a := names[..n], names[n..i], First(names[n].key);
    StepBoundary(names, n, i);
    LowerFirst(names, n);
    FirstEntry(names, n);
    NextEntry(Entries(names, 0), curr, Entries(names, n), x);
    AddGroupGood(curr, done, g, a, x);
    LevelAnswers(done, g, curr, x, a);
  }

  lemma LevelDone<V>(names: seq<WcKey<V>>, curr: seq<Key<Tagged<V>>>)
    requires LevelUpTo(names, |names|, curr)
    ensures GoodCurr(curr, names) && AllAnswer(curr, Kept(names)) && SameKeys(curr, Entries(names, 0))
    ensures names != [] ==> exists x :: x in curr && x.data.Some?
  {
    hide AllAnswer, Kept;
    var all := Entries(names, 0);
    assert names[..|names|] == names;
    assert |all| == |curr| && all[..|curr|] == all;
    if names != [] {
      assert GoodElement(curr[0], names) && curr[0] in curr;
    }
  }

  /** The call of ngx_hash_init that ends a level. */
  method CloseLevel<V>(cfg: Config, ghost names: seq<WcKey<V>>, curr: seq<Key<Tagged<V>>>) returns (r: Result<Node<V>>)
    requires GoodCacheline(cfg.cacheline) && (names == [] ==> CanDivide(cfg)) && LevelUpTo(names, |names|, curr)
    ensures r.Ok? ==> Solves(r.value, Kept(names))
    ensures r.Error? <==> CannotBuild(cfg, Entries(names, 0))
  {
    hide CannotBuild, Solves, AllAnswer, Kept, Represents;
    LevelDone(names, curr);
    SameCannotBuild(curr, Entries(names, 0), cfg);
    var t := HashInit(cfg, curr);
    if t.Error? {
      return Error;
    }
    TableSolves(t.value, curr, names, Kept(names));
    return Ok(Node(t.value, None));
  }

  /**
    ngx_hash_wildcard_init.  For keys in which no path comes right after its extensions, the
    trie answers every search with the longest match among the keys kept; it cannot be
    built exactly when the table of some level cannot.
  */
  method WildcardInit<V>(cfg: Config, names: seq<WcKey<V>>) returns (r: Result<Node<V>>)
    requires GoodCacheline(cfg.cacheline) && (names == [] ==> CanDivide(cfg))
    requires Ascending(names) && CleanKeys(names)
    ensures r.Ok? ==> Solves(r.value, Kept(names))
    ensures r.Error? <==> TrieFails(cfg, names)
    decreases MaxLen(names), 2
  {
    hide LevelUpTo, Ascending, CleanKeys, Solves, Kept, CannotBuild;
    var curr: seq<Key<Tagged<V>>> := [];
    var n := 0;
    LevelStart(names);
    while n < |names|
      invariant 0 <= n <= |names| && LevelUpTo(names, n, curr)
      invariant RunsFail(cfg, names, 0) <==> RunsFail(cfg, names, n)
    {
      var x, i := AddLabel(cfg, names, n, curr);
      if x.Error? {
        return Error;
      }
      curr := curr + [x.value];
      n := i;
    }
    r := CloseLevel(cfg, names, curr);
  }

  /** The recursive call for one group and the tag bits of its value. */
  method BuildGroup<V>(cfg: Config, names: seq<WcKey<V>>, n: nat, i: nat, a: Label, dot: bool, next: seq<WcKey<V>>)
    returns (r: Result<Tagged<V>>)
    requires GoodCacheline(cfg.cacheline) && IsGroup(names, n, i)
    requires a == First(names[n].key) && dot == (|a| < |names[n].key|) && next == Rests(Inner(names, n, i))
    requires Ascending(next) && CleanKeys(next)
    ensures r.Ok? ==> SolvesGroup(r.value, a, Kept(names[n..i]))
    ensures r.Error? <==> next != [] && TrieFails(cfg, next)
    decreases MaxLen(names), 0
  {
    hide Solves, SolvesGroup, Kept, TrieFails, Ascending;
    var x, len := names[n], if dot then |a| + 1 else |a|;
    if |next| > 0 {
      ShorterNext(names, n, i);
      var sub := WildcardInit(cfg, next);
      if sub.Error? {
        return Error;
      }
      InnerValueSolves(names, n, i, sub.value);
      var node := sub.value;
      if |x.key| == len {
        node := node.(value := Some(x.value));
      }
      return Ok(if dot then SubHash(node) else Hash(node));
    }
    LeafValueSolves(names, n, i);
    return Ok(if dot then SubData(x.value) else Data(x.value));
  }

  /** One turn of the outer loop. */
  method AddLabel<V>(cfg: Config, names: seq<WcKey<V>>, n: nat, curr: seq<Key<Tagged<V>>>)
    returns (r: Result<Key<Tagged<V>>>, i: nat)
    requires GoodCacheline(cfg.cacheline) && Ascending(names) && CleanKeys(names) && n < |names|
    requires LevelUpTo(names, n, curr)
    ensures n < i <= |names|
    ensures r.Ok? ==> LevelUpTo(names, i, curr + [r.value]) && (RunsFail(cfg, names, n) <==> RunsFail(cfg, names, i))
    ensures r.Error? ==> RunsFail(cfg, names, n)
    decreases MaxLen(names), 1
  {
    hide LevelUpTo, CleanKeys, SolvesGroup, Kept, TrieFails;
    TestsDecide(names, n);
    var a, dot, next;
    a, dot, next, i := CollectGroup(names, n);
    RunEndUnique(names, n, i);
    AscendingNext(names, n, i);
    CleanNext(names, n, i);
    var value := BuildGroup(cfg, names, n, i, a, dot, next);
    if value.Error? {
      return Error, i;
    }
    var key := ComputeKey(a);
    r := Ok(Key(Some(a), key, value.value));
    LevelStep(names, n, i, curr, r.value);
  }
}
