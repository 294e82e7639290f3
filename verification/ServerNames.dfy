/**
  Virtual server names, end to end: keys collected by ngx_hash_add_key, hashes built as
  ngx_http_server_names builds them, and lookups by ngx_hash_find_combined give the
  exact name, else the longest matching head wildcard, else the longest tail wildcard,
  among the names whose keys the sorted order leaves findable.
*/
module ServerNames {
  import opened Bytes
  import opened HashTable
  import opened Wildcard
  import opened DnsOrder
  import opened HashKeys

  // ------------------------------------------------- matching, on strings

  ghost predicate EndsBelow(name: seq<Byte>, s: seq<Byte>) {
    |s| < |name| && name[|name| - |s| - 1..] == [DOT] + s
  }

  /** "*.s" matches a name that ends in ".s"; ".s" matches also s itself. */
  ghost predicate HeadMatches(s: seq<Byte>, below: bool, name: seq<Byte>) {
    (name == s && !below) || EndsBelow(name, s)
  }

  /** "p.*" matches a name that starts with "p.". */
  ghost predicate TailMatches(p: seq<Byte>, name: seq<Byte>) {
    p + [DOT] <= name
  }

  // --------------------------------------- head wildcards, in terms of labels

  lemma BackLeaf(a: Label)
    requires DotFree(a)
    ensures BackLabels(a) == [a]
  {
    LastStartUnique(a, 0);
  }

  lemma BackCons(t: seq<Byte>, a: Label)
    requires DotFree(a)
    ensures BackLabels(t + [DOT] + a) == [a] + BackLabels(t)
  {
    var s := t + [DOT] + a;
    LastStartUnique(s, |t| + 1);
    assert s[|t| + 1..] == a && s[..|t|] == t;
  }

  /** The last label of a name that has dots, and what is before it. */
  lemma LastLabel(s: seq<Byte>) returns (t: seq<Byte>, a: Label)
    requires LastStart(s) > 0
    ensures DotFree(a) && s == t + [DOT] + a && |t| < |s|
    ensures BackLabels(s) == [a] + BackLabels(t)
  {
    var n := LastStart(s);
    t, a := s[..n - 1], s[n..];
    Cut(s, n - 1);
    BackCons(t, a);
  }

  lemma EndsBelowExtend(x: seq<Byte>, y: seq<Byte>, c: seq<Byte>)
    requires EndsBelow(x, y)
    ensures EndsBelow(x + c, y + c)
  {
    var k := |x| - |y| - 1;
    assert (x + c)[k..] == x[k..] + c;
    assert [DOT] + (y + c) == ([DOT] + y) + c;
  }

  lemma EndsBelowLast(t: seq<Byte>, s: seq<Byte>)
    ensures EndsBelow(t + [DOT] + s, s)
  {
    assert (t + [DOT] + s)[|t|..] == [DOT] + s;
  }

  lemma Regroup(x: seq<Byte>, a: Label)
    ensures x + [DOT] + a == x + ([DOT] + a)
  {
  }

  /** If the labels of `s` are the last labels of a name, the name is `s` or ends in it. */
  lemma {:induction false} BackPrefixMeansSuffix(s: seq<Byte>, name: seq<Byte>)
    requires BackLabels(s) <= BackLabels(name)
    ensures name == s || EndsBelow(name, s)
    decreases |s|
  {
    if LastStart(s) == 0 {
      BackLeaf(s);
      if LastStart(name) == 0 {
        BackLeaf(name);
      } else {
        var t, a := LastLabel(name);
        assert s == BackLabels(s)[0] == BackLabels(name)[0] == a;
        EndsBelowLast(t, a);
      }
    } else {
      var s', a := LastLabel(s);
      if LastStart(name) == 0 {
        BackLeaf(name);
      } else {
        var t, b := LastLabel(name);
        assert a == BackLabels(s)[0] == BackLabels(name)[0] == b;
        assert BackLabels(s') == BackLabels(s)[1..] <= BackLabels(name)[1..] == BackLabels(t);
        BackPrefixMeansSuffix(s', t);
        if EndsBelow(t, s') {
          EndsBelowExtend(t, s', [DOT] + a);
          Regroup(t, a);
          Regroup(s', a);
        }
      }
    }
  }

  lemma AssocString(t: seq<Byte>, s: seq<Byte>, a: Label)
    ensures t + [DOT] + (s + [DOT] + a) == (t + [DOT] + s) + [DOT] + a
  {
  }

  lemma AssocLabels(a: Label, p: seq<Label>, q: seq<Label>)
    ensures [a] + (p + q) == ([a] + p) + q
  {
  }

  /** The labels of "t.s" from the last are those of s and then those of t. */
  lemma {:induction false} BackLabelsConcat(t: seq<Byte>, s: seq<Byte>)
    ensures BackLabels(t + [DOT] + s) == BackLabels(s) + BackLabels(t)
    decreases |s|
  {
    if LastStart(s) == 0 {
      BackLeaf(s);
      BackCons(t, s);
    } else {
      var s', a := LastLabel(s);
      BackLabelsConcat(t, s');
      BackCons(t + [DOT] + s', a);
      AssocString(t, s', a);
      AssocLabels(a, BackLabels(s'), BackLabels(t));
    }
  }

  lemma SuffixMeansBackPrefix(s: seq<Byte>, name: seq<Byte>)
    requires EndsBelow(name, s)
    ensures BackLabels(s) < BackLabels(name)
  {
    var t := name[..|name| - |s| - 1];
    assert name == t + [DOT] + s;
    BackLabelsConcat(t, s);
  }

  /** Only the label after a final dot can be empty. */
  lemma {:induction false} BackLabelsGood(s: seq<Byte>)
    requires s != [] && s[0] != DOT && NoDoubleDot(s)
    ensures GoodPath(BackLabels(s))
    ensures s[|s| - 1] != DOT ==> BackLabels(s)[0] != []
    ensures |BackLabels(s)| == 1 ==> BackLabels(s)[0] != []
    decreases |s|
  {
    if LastStart(s) == 0 {
      BackLeaf(s);
    } else {
      var t, a := LastLabel(s);
      assert s[|t|] == DOT;
      assert t != [] && t[0] == s[0];
      assert s[|t| - 1 + 1] == DOT && s[|t| - 1] != DOT;
      assert forall i :: 0 <= i < |t| ==> t[i] == s[i];
      BackLabelsGood(t);
    }
  }

  lemma {:induction false} JoinLength(p: seq<Label>)
    requires |p| > 0 && (|p| == 1 ==> p[0] != [])
    ensures Join(p) != []
  {
  }

  lemma HeadKeyPath(s: seq<Byte>, below: bool)
    requires GoodStem(s)
    ensures GoodPath(BackLabels(s)) && HeadKey(s, below) != []
    ensures Path(HeadKey(s, below)) == BackLabels(s) && Below(HeadKey(s, below)) == below
  {
    BackLabelsGood(s);
    JoinLength(BackLabels(s));
    PathOfJoin(BackLabels(s));
    assert Join(BackLabels(s)) + [] == Join(BackLabels(s));
  }

  /** A head key matches the labels of a name exactly when its pattern matches the name. */
  lemma HeadKeyMatches(s: seq<Byte>, below: bool, name: seq<Byte>)
    requires GoodStem(s)
    ensures Path(HeadKey(s, below)) == BackLabels(s) && GoodPath(BackLabels(s))
    ensures HeadKey(s, below) != []
    ensures Matches(false, HeadKey(s, below), BackLabels(name)) <==> HeadMatches(s, below, name)
  {
    HeadKeyPath(s, below);
    if BackLabels(s) <= BackLabels(name) {
      BackPrefixMeansSuffix(s, name);
    }
    if EndsBelow(name, s) {
      SuffixMeansBackPrefix(s, name);
    }
  }

  lemma PrefixesNest(p: seq<Label>, q: seq<Label>, r: seq<Label>)
    requires p <= r && q <= r && |p| <= |q|
    ensures p <= q
  {
  }

  /** Among matches of one name, a longer suffix has more labels. */
  lemma LongerSuffix(s: seq<Byte>, t: seq<Byte>, name: seq<Byte>)
    requires BackLabels(s) <= BackLabels(name) && BackLabels(t) <= BackLabels(name)
    requires |BackLabels(s)| <= |BackLabels(t)|
    ensures |s| <= |t|
  {
    PrefixesNest(BackLabels(s), BackLabels(t), BackLabels(name));
    BackPrefixMeansSuffix(s, t);
  }

  // --------------------------------------- tail wildcards, in terms of labels

  lemma LabelsLeaf(a: Label)
    requires DotFree(a)
    ensures Labels(a) == [a]
  {
    DotAtUnique(a, |a|);
  }

  lemma LabelsCons(a: Label, t: seq<Byte>)
    requires DotFree(a)
    ensures Labels(a + [DOT] + t) == [a] + Labels(t)
  {
    var s := a + [DOT] + t;
    DotAtUnique(s, |a|);
    assert s[..|a|] == a && s[|a| + 1..] == t;
  }

  /** Without a final dot the path of a key is its labels. */
  lemma {:induction false} PathIsLabels(s: seq<Byte>)
    requires s != [] && s[|s| - 1] != DOT
    ensures Path(s) == Labels(s) && !Below(s)
    decreases |s|
  {
    var k := DotAt(s);
    if k < |s| {
      PathIsLabels(s[k + 1..]);
    } else {
      assert s[..k] == s;
    }
  }

  lemma AssocFront(a: Label, p: seq<Byte>, t: seq<Byte>)
    ensures (a + [DOT] + p) + [DOT] + t == a + [DOT] + (p + [DOT] + t)
  {
  }

  lemma {:induction false} LabelsConcat(p: seq<Byte>, t: seq<Byte>)
    ensures Labels(p + [DOT] + t) == Labels(p) + Labels(t)
    decreases |p|
  {
    if DotAt(p) == |p| {
      LabelsLeaf(p);
      LabelsCons(p, t);
    } else {
      var a, p' := First(p), p[DotAt(p) + 1..];
      SplitKey(p);
      LabelsCons(a, p');
      LabelsConcat(p', t);
      LabelsCons(a, p' + [DOT] + t);
      AssocFront(a, p', t);
      AssocLabels(a, Labels(p'), Labels(t));
    }
  }

  lemma TailPrefix(a: Label, x: seq<Label>, b: Label, y: seq<Label>)
    requires [a] + x < [b] + y
    ensures a == b && x < y
  {
    assert ([a] + x)[0] == a && ([b] + y)[0] == b;
    assert ([a] + x)[1..] == x && ([b] + y)[1..] == y;
  }

  lemma PrefixOnce(a: Label, p: seq<Byte>, t: seq<Byte>)
    requires p + [DOT] <= t
    ensures (a + [DOT] + p) + [DOT] <= a + [DOT] + t
  {
    AssocFront(a, p, []);
    assert (a + [DOT] + p) + [DOT] == a + [DOT] + (p + [DOT]);
    PrefixOfConcat(a + [DOT], p + [DOT], t);
  }

  /** If the labels of `p` come first in a name and are not all of it, the name starts with "p.". */
  lemma {:induction false} LabelsPrefixMeansPrefix(p: seq<Byte>, name: seq<Byte>)
    requires Labels(p) < Labels(name)
    ensures TailMatches(p, name)
    decreases |p|
  {
    assert DotAt(name) == |name| ==> |Labels(name)| == 1;
    hide Labels, DotAt;
    SplitKey(name);
    var b, t := First(name), name[DotAt(name) + 1..];
    LabelsCons(b, t);
    if DotAt(p) == |p| {
      LabelsLeaf(p);
      assert p == Labels(p)[0] == Labels(name)[0] == b;
    } else {
      var a, p' := First(p), p[DotAt(p) + 1..];
      SplitKey(p);
      LabelsCons(a, p');
      TailPrefix(a, Labels(p'), b, Labels(t));
      LabelsPrefixMeansPrefix(p', t);
      PrefixOnce(a, p', t);
    }
  }

  lemma TailKeyMatches(p: seq<Byte>, name: seq<Byte>)
    requires GoodStem(p) && p[|p| - 1] != DOT
    ensures Path(p) == Labels(p) && !Below(p)
    ensures Matches(true, p, Labels(name)) <==> TailMatches(p, name)
  {
    hide Labels, Path, Below;
    PathIsLabels(p);
    if Labels(p) < Labels(name) {
      LabelsPrefixMeansPrefix(p, name);
    }
    if TailMatches(p, name) {
      var t := name[|p| + 1..];
      assert name == p + [DOT] + t;
      LabelsConcat(p, t);
    }
  }

  lemma SameLabels(p: seq<Byte>, q: seq<Byte>)
    requires Labels(p) == Labels(q)
    ensures p == q
  {
    BackLabelsReverse(p);
    BackLabelsReverse(q);
    BackPrefixMeansSuffix(p, q);
    BackPrefixMeansSuffix(q, p);
  }

  lemma LongerPrefix(p: seq<Byte>, q: seq<Byte>, name: seq<Byte>)
    requires Labels(p) <= Labels(name) && Labels(q) <= Labels(name) && |Labels(p)| <= |Labels(q)|
    ensures |p| <= |q|
  {
    PrefixesNest(Labels(p), Labels(q), Labels(name));
    if Labels(p) == Labels(q) {
      SameLabels(p, q);
    } else {
      LabelsPrefixMeansPrefix(p, q);
    }
  }

  // ------------------------------------------------------- what is promised

  ghost predicate HeadHit<V>(acc: seq<Pattern<V>>, i: int, name: seq<Byte>) {
    0 <= i < |acc| && acc[i].Head? && HeadMatches(acc[i].suffix, acc[i].below, name)
  }

  ghost predicate TailHit<V>(acc: seq<Pattern<V>>, i: int, name: seq<Byte>) {
    0 <= i < |acc| && acc[i].Tail? && TailMatches(acc[i].prefix, name)
  }

  ghost predicate ExactHit<V>(acc: seq<Pattern<V>>, i: int, name: seq<Byte>) {
    0 <= i < |acc| && acc[i].Exact? && acc[i].name == name
  }

  /** The value stored with the name itself. */
  ghost predicate ExactAnswer<V>(acc: seq<Pattern<V>>, name: seq<Byte>, r: Lookup<V>) {
    match r
    case Fault => false
    case Null => forall i :: !ExactHit(acc, i, name)
    case Found(v) => exists i :: ExactHit(acc, i, name) && acc[i].value == v
  }

  /** The value of the matching head wildcard with the longest suffix. */
  ghost predicate HeadAnswer<V>(acc: seq<Pattern<V>>, name: seq<Byte>, r: Lookup<V>) {
    match r
    case Fault => false
    case Null => forall i :: !HeadHit(acc, i, name)
    case Found(v) => exists i :: HeadHit(acc, i, name) && acc[i].value == v &&
                       forall j :: HeadHit(acc, j, name) ==> |acc[j].suffix| <= |acc[i].suffix|
  }

  /** The value of the matching tail wildcard with the longest prefix. */
  ghost predicate TailAnswer<V>(acc: seq<Pattern<V>>, name: seq<Byte>, r: Lookup<V>) {
    match r
    case Fault => false
    case Null => forall i :: !TailHit(acc, i, name)
    case Found(v) => exists i :: TailHit(acc, i, name) && acc[i].value == v &&
                       forall j :: TailHit(acc, j, name) ==> |acc[j].prefix| <= |acc[i].prefix|
  }

  // ----------------------------------------- from the arrays to the patterns

  lemma {:induction false} HeadKeyOf<V>(acc: seq<Pattern<V>>, x: WcKey<V>) returns (i: nat)
    requires x in HeadKeys(acc)
    ensures i < |acc| && acc[i].Head? && x == WcKey(HeadKey(acc[i].suffix, acc[i].below), acc[i].value)
  {
    var n := |acc| - 1;
    if x in HeadKeys(acc[..n]) {
      i := HeadKeyOf(acc[..n], x);
    } else {
      i := n;
    }
  }

  lemma {:induction false} HeadKeyIn<V>(acc: seq<Pattern<V>>, i: nat)
    requires i < |acc| && acc[i].Head?
    ensures WcKey(HeadKey(acc[i].suffix, acc[i].below), acc[i].value) in HeadKeys(acc)
  {
    if i < |acc| - 1 {
      HeadKeyIn(acc[..|acc| - 1], i);
    }
  }

  lemma {:induction false} TailKeyOf<V>(acc: seq<Pattern<V>>, x: WcKey<V>) returns (i: nat)
    requires x in TailKeys(acc)
    ensures i < |acc| && acc[i].Tail? && x == WcKey(acc[i].prefix, acc[i].value)
  {
    var n := |acc| - 1;
    if x in TailKeys(acc[..n]) {
      i := TailKeyOf(acc[..n], x);
    } else {
      i := n;
    }
  }

  lemma {:induction false} TailKeyIn<V>(acc: seq<Pattern<V>>, i: nat)
    requires i < |acc| && acc[i].Tail?
    ensures WcKey(acc[i].prefix, acc[i].value) in TailKeys(acc)
  {
    if i < |acc| - 1 {
      TailKeyIn(acc[..|acc| - 1], i);
    }
  }

  lemma {:induction false} ExactKeyOf<V>(acc: seq<Pattern<V>>, x: Key<V>) returns (i: nat)
    requires x in ExactKeys(acc)
    ensures i < |acc| && acc[i].Exact? && x == Key(Some(acc[i].name), HashKey(acc[i].name), acc[i].value)
  {
    var n := |acc| - 1;
    if x in ExactKeys(acc[..n]) {
      i := ExactKeyOf(acc[..n], x);
    } else {
      i := n;
    }
  }

  lemma {:induction false} ExactKeyIn<V>(acc: seq<Pattern<V>>, i: nat)
    requires i < |acc| && acc[i].Exact?
    ensures Key(Some(acc[i].name), HashKey(acc[i].name), acc[i].value) in ExactKeys(acc)
  {
    if i < |acc| - 1 {
      ExactKeyIn(acc[..|acc| - 1], i);
    }
  }

  ghost predicate Permutes<T>(xs: seq<T>, ys: seq<T>) {
    multiset(xs) == multiset(ys)
  }

  lemma SameMembers<T>(xs: seq<T>, ys: seq<T>, x: T)
    requires Permutes(xs, ys)
    ensures x in xs <==> x in ys
  {
    assert x in xs <==> x in multiset(xs);
    assert x in ys <==> x in multiset(ys);
  }

  ghost predicate SameElements<T(!new)>(xs: seq<T>, ys: seq<T>) {
    forall x :: x in xs <==> x in ys
  }

  ghost predicate AllGood<V>(acc: seq<Pattern<V>>) {
    forall i :: 0 <= i < |acc| ==> GoodPattern(acc[i])
  }

  /** The best key of the trie is the best pattern. */
  lemma HeadBestIsAnswer<V(!new)>(acc: seq<Pattern<V>>, keys: seq<WcKey<V>>, name: seq<Byte>)
    requires AllGood(acc) && SameElements(keys, HeadKeys(acc))
    ensures HeadAnswer(acc, name, HitLookup(Best(false, keys, BackLabels(name))))
  {
    var q := BackLabels(name);
    BestIsLongestMatch(false, keys, q);
    forall i | HeadHit(acc, i, name)
      ensures exists k :: 0 <= k < |keys| && Matches(false, keys[k].key, q)
                && keys[k].key == HeadKey(acc[i].suffix, acc[i].below)
    {
      HeadKeyIn(acc, i);
      var x := WcKey(HeadKey(acc[i].suffix, acc[i].below), acc[i].value);
      assert x in keys;
      assert GoodPattern(acc[i]);
      HeadKeyMatches(acc[i].suffix, acc[i].below, name);
      var k :| 0 <= k < |keys| && keys[k] == x;
      assert Matches(false, keys[k].key, q);
    }
    if Best(false, keys, q).Hit? {
      var k :| 0 <= k < |keys| && Matches(false, keys[k].key, q)
                && Best(false, keys, q) == Hit(|Path(keys[k].key)|, keys[k].value)
                && forall j :: 0 <= j < |keys| && Matches(false, keys[j].key, q)
                     ==> |Path(keys[j].key)| <= |Path(keys[k].key)|;
      assert keys[k] in HeadKeys(acc);
      var i := HeadKeyOf(acc, keys[k]);
      assert GoodPattern(acc[i]);
      HeadKeyMatches(acc[i].suffix, acc[i].below, name);
      assert HeadHit(acc, i, name);
      forall j | HeadHit(acc, j, name) ensures |acc[j].suffix| <= |acc[i].suffix| {
        var m :| 0 <= m < |keys| && Matches(false, keys[m].key, q)
                && keys[m].key == HeadKey(acc[j].suffix, acc[j].below);
        assert GoodPattern(acc[j]);
        HeadKeyMatches(acc[j].suffix, acc[j].below, name);
        LongerSuffix(acc[j].suffix, acc[i].suffix, name);
      }
    }
  }

  lemma TailHitHasKey<V(!new)>(acc: seq<Pattern<V>>, keys: seq<WcKey<V>>, name: seq<Byte>, i: nat) returns (k: nat)
    requires AllGood(acc) && SameElements(keys, TailKeys(acc)) && TailHit(acc, i, name)
    ensures k < |keys| && keys[k].key == acc[i].prefix
    ensures Matches(true, keys[k].key, Labels(name)) && Path(keys[k].key) == Labels(acc[i].prefix)
  {
    TailKeyIn(acc, i);
    var x := WcKey(acc[i].prefix, acc[i].value);
    assert x in keys;
    k :| 0 <= k < |keys| && keys[k] == x;
    assert GoodPattern(acc[i]);
    TailKeyMatches(acc[i].prefix, name);
  }

  lemma TailKeyHasHit<V(!new)>(acc: seq<Pattern<V>>, keys: seq<WcKey<V>>, name: seq<Byte>, k: nat) returns (i: nat)
    requires AllGood(acc) && SameElements(keys, TailKeys(acc))
    requires k < |keys| && Matches(true, keys[k].key, Labels(name))
    ensures TailHit(acc, i, name) && keys[k] == WcKey(acc[i].prefix, acc[i].value)
    ensures Path(keys[k].key) == Labels(acc[i].prefix)
  {
    assert keys[k] in TailKeys(acc);
    i := TailKeyOf(acc, keys[k]);
    assert GoodPattern(acc[i]);
    TailKeyMatches(acc[i].prefix, name);
  }

  lemma TailBestIsAnswer<V(!new)>(acc: seq<Pattern<V>>, keys: seq<WcKey<V>>, name: seq<Byte>)
    requires AllGood(acc) && SameElements(keys, TailKeys(acc))
    ensures TailAnswer(acc, name, HitLookup(Best(true, keys, Labels(name))))
  {
    var q := Labels(name);
    BestIsLongestMatch(true, keys, q);
    if Best(true, keys, q).Hit? {
      var k :| 0 <= k < |keys| && Matches(true, keys[k].key, q)
                && Best(true, keys, q) == Hit(|Path(keys[k].key)|, keys[k].value)
                && forall j :: 0 <= j < |keys| && Matches(true, keys[j].key, q)
                     ==> |Path(keys[j].key)| <= |Path(keys[k].key)|;
      var i := TailKeyHasHit(acc, keys, name, k);
      forall j | TailHit(acc, j, name) ensures |acc[j].prefix| <= |acc[i].prefix| {
        var m := TailHitHasKey(acc, keys, name, j);
        LongerPrefix(acc[j].prefix, acc[i].prefix, name);
      }
    } else {
      forall i | TailHit(acc, i, name) ensures exists k :: 0 <= k < |keys| && Matches(true, keys[k].key, q) {
        var k := TailHitHasKey(acc, keys, name, i);
      }
    }
  }

  // ---------------------------------------------------------- exact names

  /** Exact keys were lower-cased when they were added, as they are unless NGX_HASH_READONLY_KEY is set. */
  ghost predicate LowerNames<V>(acc: seq<Pattern<V>>) {
    forall i :: 0 <= i < |acc| && acc[i].Exact? ==> Lower(acc[i].name) == acc[i].name
  }

  lemma {:induction false} ExactKeysDistinct<V>(acc: seq<Pattern<V>>)
    requires NoConflicts(acc) && LowerNames(acc)
    ensures DistinctKeys(ExactKeys(acc)) && HashedBy(ExactKeys(acc), HashKey)
  {
    if acc != [] {
      var front, last := acc[..|acc| - 1], acc[|acc| - 1];
      ExactKeysDistinct(front);
      var ks := ExactKeys(front);
      if last.Exact? {
        forall k | 0 <= k < |ks| ensures ks[k].data.Some? && Lower(ks[k].data.value) != last.name {
          var i := ExactKeyOf(front, ks[k]);
          assert acc[i] == front[i] && !Conflict(acc[i], last);
        }
      }
    }
  }

  lemma ExactFindIsAnswer<V>(acc: seq<Pattern<V>>, t: Table<V>, name: seq<Byte>)
    requires NoConflicts(acc) && LowerNames(acc) && Represents(t, ExactKeys(acc))
    ensures ExactAnswer(acc, name, Find(t, HashKey(name), name))
  {
    var ks := ExactKeys(acc);
    ExactKeysDistinct(acc);
    HashAgreesWithMap(t, ks, HashKey, name);
    forall i | ExactHit(acc, i, name) ensures exists k :: 0 <= k < |ks| && IsKey(ks[k], name) {
      ExactKeyIn(acc, i);
      var k :| 0 <= k < |ks| && ks[k] == Key(Some(acc[i].name), HashKey(acc[i].name), acc[i].value);
      assert IsKey(ks[k], name);
    }
    if k :| 0 <= k < |ks| && IsKey(ks[k], name) {
      var i := ExactKeyOf(acc, ks[k]);
      assert ExactHit(acc, i, name);
    }
  }

  // ------------------------------------------------- the sorted wildcard keys

  ghost predicate DistinctPaths<V>(keys: seq<WcKey<V>>) {
    forall i, j :: 0 <= i < j < |keys| ==> Path(keys[i].key) != Path(keys[j].key)
  }

  lemma {:induction false} CountAtLeastTwo<T>(ys: seq<T>, i: nat, j: nat)
    requires i < j < |ys| && ys[i] == ys[j]
    ensures multiset(ys)[ys[i]] >= 2
  {
    assert ys == ys[..j] + [ys[j]] + ys[j + 1..];
    assert ys[..j][i] == ys[i];
  }

  lemma {:induction false} CountAtMostOne<V>(xs: seq<WcKey<V>>, x: WcKey<V>)
    requires DistinctPaths(xs)
    ensures multiset(xs)[x] <= 1
  {
    if xs != [] {
      var front, last := xs[..|xs| - 1], xs[|xs| - 1];
      CountAtMostOne(front, x);
      assert xs == front + [last];
      forall i | 0 <= i < |front| ensures front[i] != last {
        assert xs[i] == front[i];
      }
    }
  }

  lemma PermutedDistinct<V>(ys: seq<WcKey<V>>, xs: seq<WcKey<V>>)
    requires Permutes(ys, xs) && DistinctPaths(xs)
    ensures DistinctPaths(ys)
  {
    forall i, j | 0 <= i < j < |ys| ensures Path(ys[i].key) != Path(ys[j].key) {
      SameMembers(ys, xs, ys[i]);
      SameMembers(ys, xs, ys[j]);
      var a :| 0 <= a < |xs| && xs[a] == ys[i];
      var b :| 0 <= b < |xs| && xs[b] == ys[j];
      if ys[i] == ys[j] {
        CountAtLeastTwo(ys, i, j);
        CountAtMostOne(xs, ys[i]);
      }
      assert a != b;
    }
  }

  lemma SameBackLabels(p: seq<Byte>, q: seq<Byte>)
    ensures BackLabels(p) == BackLabels(q) ==> p == q
  {
    if BackLabels(p) == BackLabels(q) {
      BackPrefixMeansSuffix(p, q);
      BackPrefixMeansSuffix(q, p);
    }
  }

  lemma {:induction false} HeadPathsDistinct<V>(acc: seq<Pattern<V>>)
    requires GoodPatterns(acc)
    ensures DistinctPaths(HeadKeys(acc))
  {
    if acc != [] {
      var front, last := acc[..|acc| - 1], acc[|acc| - 1];
      HeadPathsDistinct(front);
      var ks := HeadKeys(front);
      if last.Head? {
        forall k | 0 <= k < |ks| ensures Path(ks[k].key) != Path(HeadKey(last.suffix, last.below)) {
          var i := HeadKeyOf(front, ks[k]);
          assert acc[i] == front[i] && GoodPattern(acc[i]) && GoodPattern(last) && !Conflict(acc[i], last);
          HeadKeyPath(acc[i].suffix, acc[i].below);
          HeadKeyPath(last.suffix, last.below);
          SameBackLabels(acc[i].suffix, last.suffix);
        }
      }
    }
  }

  lemma {:induction false} TailPathsDistinct<V>(acc: seq<Pattern<V>>)
    requires GoodPatterns(acc)
    ensures DistinctPaths(TailKeys(acc))
  {
    if acc != [] {
      var front, last := acc[..|acc| - 1], acc[|acc| - 1];
      TailPathsDistinct(front);
      var ks := TailKeys(front);
      if last.Tail? {
        forall k | 0 <= k < |ks| ensures Path(ks[k].key) != Path(last.prefix) {
          var i := TailKeyOf(front, ks[k]);
          assert acc[i] == front[i] && GoodPattern(acc[i]) && GoodPattern(last) && !Conflict(acc[i], last);
          PathIsLabels(acc[i].prefix);
          PathIsLabels(last.prefix);
          if Labels(acc[i].prefix) == Labels(last.prefix) {
            SameLabels(acc[i].prefix, last.prefix);
          }
        }
      }
    }
  }

  /** No wildcard has a byte up to the space character. */
  ghost predicate PrintableStems<V>(acc: seq<Pattern<V>>) {
    forall i :: 0 <= i < |acc| ==>
      (acc[i].Head? ==> Printable(acc[i].suffix)) && (acc[i].Tail? ==> Printable(acc[i].prefix))
  }

  lemma PrintableConcat(x: seq<Byte>, y: seq<Byte>)
    ensures Printable(x + [DOT] + y) <==> Printable(x) && Printable(y)
  {
    var s := x + [DOT] + y;
    assert forall i :: 0 <= i < |x| ==> x[i] == s[i];
    assert forall i :: 0 <= i < |y| ==> y[i] == s[|x| + 1 + i];
  }

  lemma {:induction false} JoinPrintable(s: seq<Byte>)
    requires Printable(s)
    ensures Printable(Join(BackLabels(s)))
    decreases |s|
  {
    if LastStart(s) == 0 {
      BackLeaf(s);
    } else {
      var t, a := LastLabel(s);
      PrintableConcat(t, a);
      JoinPrintable(t);
      assert ([a] + BackLabels(t))[1..] == BackLabels(t);
      PrintableConcat(a, Join(BackLabels(t)));
    }
  }

  lemma CleanConcat(x: seq<Byte>, y: seq<Byte>)
    ensures Clean(x + [DOT] + y) <==> Clean(x) && Clean(y)
  {
    var s := x + [DOT] + y;
    assert forall i :: 0 <= i < |x| ==> x[i] == s[i];
    assert forall i :: 0 <= i < |y| ==> y[i] == s[|x| + 1 + i];
  }

  lemma {:induction false} JoinClean(s: seq<Byte>)
    requires Clean(s)
    ensures Clean(Join(BackLabels(s)))
    decreases |s|
  {
    if LastStart(s) == 0 {
      BackLeaf(s);
    } else {
      var t, a := LastLabel(s);
      CleanConcat(t, a);
      JoinClean(t);
      assert ([a] + BackLabels(t))[1..] == BackLabels(t);
      CleanConcat(a, Join(BackLabels(t)));
    }
  }

  lemma CleanMeans(s: seq<Byte>)
    ensures Clean(s) <==> NoNul(s) && Lower(s) == s
  {
    if Lower(s) == s {
      forall i | 0 <= i < |s| ensures ToLower(s[i]) == s[i] {
        assert Lower(s)[i] == s[i];
      }
    }
  }

  lemma HeadKeysSortable<V>(acc: seq<Pattern<V>>, keys: seq<WcKey<V>>)
    requires GoodPatterns(acc) && Permutes(keys, HeadKeys(acc))
    ensures SortableKeys(keys) && CleanKeys(keys)
    ensures PrintableStems(acc) ==> PrintableKeys(keys)
  {
    HeadPathsDistinct(acc);
    PermutedDistinct(keys, HeadKeys(acc));
    forall k | 0 <= k < |keys|
      ensures keys[k].key != [] && Clean(keys[k].key) && GoodPath(Path(keys[k].key))
      ensures NoNul(keys[k].key) && Lower(keys[k].key) == keys[k].key
      ensures PrintableStems(acc) ==> Printable(keys[k].key)
    {
      SameMembers(keys, HeadKeys(acc), keys[k]);
      var i := HeadKeyOf(acc, keys[k]);
      assert GoodPattern(acc[i]);
      HeadKeyPath(acc[i].suffix, acc[i].below);
      CleanMeans(acc[i].suffix);
      JoinClean(acc[i].suffix);
      CleanMeans(keys[k].key);
      if PrintableStems(acc) {
        JoinPrintable(acc[i].suffix);
      }
    }
  }

  lemma {:induction false} ReversedSize<T>(p: seq<T>)
    ensures |Reversed(p)| == |p|
  {
    if p != [] {
      ReversedSize(p[1..]);
    }
  }

  lemma {:induction false} ReversedAt<T>(p: seq<T>, m: nat)
    requires m < |p|
    ensures |Reversed(p)| == |p| && Reversed(p)[|p| - 1 - m] == p[m]
  {
    ReversedSize(p[1..]);
    if m > 0 {
      ReversedAt(p[1..], m - 1);
    }
  }

  /** Reversing keeps labels as they are; here none of them is empty. */
  lemma ReversedGood(p: seq<Label>)
    requires GoodPath(Reversed(p)) && Reversed(p)[0] != []
    ensures GoodPath(p)
  {
    forall m | 0 <= m < |p| ensures DotFree(p[m]) && p[m] != [] {
      ReversedAt(p, m);
    }
  }

  lemma TailPathGood(p: seq<Byte>)
    requires GoodStem(p) && p[|p| - 1] != DOT
    ensures GoodPath(Path(p)) && !Below(p)
  {
    PathIsLabels(p);
    BackLabelsGood(p);
    BackLabelsReverse(p);
    ReversedGood(Labels(p));
  }

  lemma TailKeysSortable<V>(acc: seq<Pattern<V>>, keys: seq<WcKey<V>>)
    requires GoodPatterns(acc) && Permutes(keys, TailKeys(acc))
    ensures SortableKeys(keys) && CleanKeys(keys) && ModeOk(true, keys)
    ensures PrintableStems(acc) ==> PrintableKeys(keys)
  {
    TailPathsDistinct(acc);
    PermutedDistinct(keys, TailKeys(acc));
    forall k | 0 <= k < |keys|
      ensures keys[k].key != [] && Clean(keys[k].key) && GoodPath(Path(keys[k].key))
      ensures NoNul(keys[k].key) && Lower(keys[k].key) == keys[k].key && !Below(keys[k].key)
      ensures PrintableStems(acc) ==> Printable(keys[k].key)
    {
      SameMembers(keys, TailKeys(acc), keys[k]);
      var i := TailKeyOf(acc, keys[k]);
      assert GoodPattern(acc[i]);
      TailPathGood(acc[i].prefix);
      CleanMeans(keys[k].key);
    }
  }

  // ------------------------------------------------ the patterns served

  /** The pattern's key is one that searches find, for sorted keys `head` and `tail`. */
  ghost predicate IsServed<V>(p: Pattern<V>, head: seq<WcKey<V>>, tail: seq<WcKey<V>>) {
    match p
    case Exact(_, _) => true
    case Head(s, below, v) => WcKey(HeadKey(s, below), v) in Kept(head)
    case Tail(s, v) => WcKey(s, v) in Kept(tail)
  }

  /** The accepted patterns without those whose keys are lost. */
  ghost function Served<V>(acc: seq<Pattern<V>>, head: seq<WcKey<V>>, tail: seq<WcKey<V>>): seq<Pattern<V>> {
    if acc == [] then []
    else
      var p := acc[|acc| - 1];
      Served(acc[..|acc| - 1], head, tail) + if IsServed(p, head, tail) then [p] else []
  }

  lemma {:induction false} ServedMembers<V>(acc: seq<Pattern<V>>, head: seq<WcKey<V>>, tail: seq<WcKey<V>>, p: Pattern<V>)
    ensures p in Served(acc, head, tail) <==> p in acc && IsServed(p, head, tail)
  {
    if acc != [] {
      ServedMembers(acc[..|acc| - 1], head, tail, p);
      assert acc == acc[..|acc| - 1] + [acc[|acc| - 1]];
    }
  }

  lemma ServedExact<V>(p: Pattern<V>, head: seq<WcKey<V>>, tail: seq<WcKey<V>>)
    requires !IsServed(p, head, tail)
    ensures !p.Exact?
  {
  }

  lemma {:induction false} ServedExactKeys<V>(acc: seq<Pattern<V>>, head: seq<WcKey<V>>, tail: seq<WcKey<V>>)
    ensures ExactKeys(Served(acc, head, tail)) == ExactKeys(acc)
  {
    hide IsServed, HashKey;
    if acc != [] {
      var n := |acc| - 1;
      var r, p := Served(acc[..n], head, tail), acc[n];
      ServedExactKeys(acc[..n], head, tail);
      if IsServed(p, head, tail) {
        ArraysAdd(r, p);
      } else {
        assert r + [] == r;
        ServedExact(p, head, tail);
      }
    }
  }

  lemma {:induction false} ServedNoConflicts<V>(acc: seq<Pattern<V>>, head: seq<WcKey<V>>, tail: seq<WcKey<V>>)
    requires NoConflicts(acc)
    ensures NoConflicts(Served(acc, head, tail))
  {
    hide IsServed, Conflict;
    if acc != [] {
      var n := |acc| - 1;
      var front, p := acc[..n], acc[n];
      ServedNoConflicts(front, head, tail);
      var r := Served(front, head, tail);
      forall i | 0 <= i < |r| ensures !Conflict(r[i], p) {
        ServedMembers(front, head, tail, r[i]);
        var j :| 0 <= j < |front| && front[j] == r[i];
        assert acc[j] == r[i];
      }
    }
  }

  lemma ServedGood<V>(acc: seq<Pattern<V>>, head: seq<WcKey<V>>, tail: seq<WcKey<V>>)
    requires GoodPatterns(acc) && LowerNames(acc)
    ensures GoodPatterns(Served(acc, head, tail)) && LowerNames(Served(acc, head, tail))
    ensures ExactKeys(Served(acc, head, tail)) == ExactKeys(acc)
  {
    hide IsServed, Conflict, GoodPattern, Served, ExactKeys;
    ServedNoConflicts(acc, head, tail);
    ServedExactKeys(acc, head, tail);
    var r := Served(acc, head, tail);
    forall i | 0 <= i < |r| ensures GoodPattern(r[i]) && (r[i].Exact? ==> Lower(r[i].name) == r[i].name) {
      ServedMembers(acc, head, tail, r[i]);
    }
  }

  lemma {:induction false} ServedHeadKeys<V>(acc: seq<Pattern<V>>, head: seq<WcKey<V>>, tail: seq<WcKey<V>>, x: WcKey<V>)
    ensures x in HeadKeys(Served(acc, head, tail)) <==> x in HeadKeys(acc) && x in Kept(head)
    ensures x in TailKeys(Served(acc, head, tail)) <==> x in TailKeys(acc) && x in Kept(tail)
  {
    hide Kept, HeadKey;
    if acc != [] {
      var n := |acc| - 1;
      var r, p := Served(acc[..n], head, tail), acc[n];
      ServedHeadKeys(acc[..n], head, tail, x);
      if IsServed(p, head, tail) {
        ArraysAdd(r, p);
      } else {
        assert r + [] == r;
      }
    }
  }

  /** The keys of the patterns served are the keys kept. */
  lemma ServedKeys<V(!new)>(acc: seq<Pattern<V>>, head: seq<WcKey<V>>, tail: seq<WcKey<V>>)
    requires Permutes(head, HeadKeys(acc)) && Permutes(tail, TailKeys(acc))
    ensures SameElements(Kept(head), HeadKeys(Served(acc, head, tail)))
    ensures SameElements(Kept(tail), TailKeys(Served(acc, head, tail)))
  {
    hide Kept, Reachable, Served, HeadKeys, TailKeys;
    forall x ensures x in Kept(head) <==> x in HeadKeys(Served(acc, head, tail)) {
      ServedHeadKeys(acc, head, tail, x);
      KeptMembers(head, x);
      SameMembers(head, HeadKeys(acc), x);
    }
    forall x ensures x in Kept(tail) <==> x in TailKeys(Served(acc, head, tail)) {
      ServedHeadKeys(acc, head, tail, x);
      KeptMembers(tail, x);
      SameMembers(tail, TailKeys(acc), x);
    }
  }

  lemma KeyKept<V>(p: Pattern<V>, head: seq<WcKey<V>>, tail: seq<WcKey<V>>)
    requires Contiguous(head) && Contiguous(tail)
    requires p.Head? ==> WcKey(HeadKey(p.suffix, p.below), p.value) in head
    requires p.Tail? ==> WcKey(p.prefix, p.value) in tail
    ensures IsServed(p, head, tail)
  {
    AllKept(head);
    AllKept(tail);
  }

  /** Where all sorted keys are reachable, every accepted pattern is served. */
  lemma {:induction false} AllServed<V>(acc: seq<Pattern<V>>, head: seq<WcKey<V>>, tail: seq<WcKey<V>>)
    requires Contiguous(head) && Contiguous(tail)
    requires forall i :: 0 <= i < |acc| ==>
               && (acc[i].Head? ==> WcKey(HeadKey(acc[i].suffix, acc[i].below), acc[i].value) in head)
               && (acc[i].Tail? ==> WcKey(acc[i].prefix, acc[i].value) in tail)
    ensures Served(acc, head, tail) == acc
  {
    hide Kept, Reachable, HeadKey, Contiguous, IsServed;
    if acc != [] {
      var n := |acc| - 1;
      assert acc == acc[..n] + [acc[n]];
      AllServed(acc[..n], head, tail);
      KeyKept(acc[n], head, tail);
    }
  }

  lemma AcceptedKeysIn<V>(acc: seq<Pattern<V>>, head: seq<WcKey<V>>, tail: seq<WcKey<V>>, i: nat)
    requires Permutes(head, HeadKeys(acc)) && Permutes(tail, TailKeys(acc)) && i < |acc|
    ensures acc[i].Head? ==> WcKey(HeadKey(acc[i].suffix, acc[i].below), acc[i].value) in head
    ensures acc[i].Tail? ==> WcKey(acc[i].prefix, acc[i].value) in tail
  {
    if acc[i].Head? {
      HeadKeyIn(acc, i);
      SameMembers(head, HeadKeys(acc), WcKey(HeadKey(acc[i].suffix, acc[i].below), acc[i].value));
    } else if acc[i].Tail? {
      TailKeyIn(acc, i);
      SameMembers(tail, TailKeys(acc), WcKey(acc[i].prefix, acc[i].value));
    }
  }

  /** Where keys that share labels are adjacent, every accepted pattern is served. */
  lemma AdjacentAllServed<V>(acc: seq<Pattern<V>>, head: seq<WcKey<V>>, tail: seq<WcKey<V>>)
    requires Permutes(head, HeadKeys(acc)) && Permutes(tail, TailKeys(acc)) && Contiguous(head) && Contiguous(tail)
    ensures Served(acc, head, tail) == acc
  {
    hide Contiguous, HeadKey, HeadKeys, TailKeys, Served;
    forall i | 0 <= i < |acc|
      ensures acc[i].Head? ==> WcKey(HeadKey(acc[i].suffix, acc[i].below), acc[i].value) in head
      ensures acc[i].Tail? ==> WcKey(acc[i].prefix, acc[i].value) in tail
    {
      AcceptedKeysIn(acc, head, tail, i);
    }
    AllServed(acc, head, tail);
  }

  /** Without bytes up to the space character in a stem nothing is lost. */
  lemma PrintableAllServed<V>(acc: seq<Pattern<V>>, head: seq<WcKey<V>>, tail: seq<WcKey<V>>)
    requires GoodPatterns(acc) && PrintableStems(acc) && Permutes(head, HeadKeys(acc)) && Permutes(tail, TailKeys(acc))
    requires DnsSorted(head) && DnsSorted(tail)
    ensures Served(acc, head, tail) == acc
  {
    hide Kept, Reachable, HeadKey, HeadKeys, TailKeys, SortableKeys, DnsSorted;
    HeadKeysSortable(acc, head);
    TailKeysSortable(acc, tail);
    PrintableIsContiguous(head);
    PrintableIsContiguous(tail);
    AdjacentAllServed(acc, head, tail);
  }

  // ------------------------------------------------ building and looking up

  /** ngx_hash_combined_t: each part is there only if it has keys. */
  datatype Combined<V> = Combined(exact: Option<Table<V>>, head: Option<Node<V>>, tail: Option<Node<V>>)

  ghost function FindExact<V>(c: Combined<V>, name: seq<Byte>): Lookup<V> {
    if c.exact.None? then Null else FindLabel(c.exact.value, name)
  }

  ghost function FindHead<V>(c: Combined<V>, name: seq<Byte>): Lookup<V> {
    if c.head.None? then Null else Search(false, c.head.value, BackLabels(name))
  }

  ghost function FindTail<V>(c: Combined<V>, name: seq<Byte>): Lookup<V> {
    if c.tail.None? then Null else Search(true, c.tail.value, Labels(name))
  }

  /** Every lookup in the three parts is the one the accepted patterns promise. */
  ghost predicate Serves<V>(c: Combined<V>, acc: seq<Pattern<V>>) {
    && (forall name :: ExactAnswer(acc, name, FindExact(c, name)))
    && (forall name :: HeadAnswer(acc, name, FindHead(c, name)))
    && (forall name :: TailAnswer(acc, name, FindTail(c, name)))
  }

  /** ngx_hash_find_combined; the caller passes the hash of the name. */
  method FindCombined<V>(c: Combined<V>, key: nat, name: seq<Byte>) returns (r: Option<V>)
    requires key == HashKey(name)
    requires FindExact(c, name) != Fault && FindHead(c, name) != Fault && FindTail(c, name) != Fault
    ensures ToLookup(r) == if FindExact(c, name).Found? then FindExact(c, name)
                           else if name == [] then Null
                           else if FindHead(c, name).Found? then FindHead(c, name)
                           else FindTail(c, name)
  {
    if c.exact.Some? {
      r := HashFind(c.exact.value, key, name);
      if r.Some? {
        return;
      }
    }
    if |name| == 0 {
      return None;
    }
    if c.head.Some? {
      r := FindWcHead(c.head.value, name);
      if r.Some? {
        return;
      }
    }
    if c.tail.Some? {
      r := FindWcTail(c.tail.value, name);
      if r.Some? {
        return;
      }
    }
    return None;
  }

  lemma FirstExact<V>(acc: seq<Pattern<V>>)
    requires ExactKeys(acc) != []
    ensures ExactKeys(acc)[0].data.Some?
  {
    var _ := ExactKeyOf(acc, ExactKeys(acc)[0]);
  }

  lemma ExactPart<V>(acc: seq<Pattern<V>>, c: Combined<V>)
    requires NoConflicts(acc) && LowerNames(acc)
    requires if ExactKeys(acc) == [] then c.exact.None? else c.exact.Some? && Represents(c.exact.value, ExactKeys(acc))
    ensures forall name :: ExactAnswer(acc, name, FindExact(c, name))
  {
    forall name ensures ExactAnswer(acc, name, FindExact(c, name)) {
      if c.exact.Some? {
        ExactFindIsAnswer(acc, c.exact.value, name);
      } else {
        forall i | ExactHit(acc, i, name) ensures ExactKeys(acc) != [] {
          ExactKeyIn(acc, i);
        }
      }
    }
  }

  /** The exact part. */
  method BuildExact<V>(cfg: Config, keys: seq<Key<V>>, ghost acc: seq<Pattern<V>>) returns (r: Result<Option<Table<V>>>)
    requires GoodCacheline(cfg.cacheline) && keys == ExactKeys(acc) && NoConflicts(acc) && LowerNames(acc)
    ensures r.Ok? ==> forall name :: ExactAnswer(acc, name, FindExact(Combined(r.value, None, None), name))
    ensures r.Error? <==> keys != [] && CannotBuild(cfg, keys)
  {
    if keys == [] {
      ExactPart(acc, Combined(None, None, None));
      return Ok(None);
    }
    assert keys[0] in keys;
    FirstExact(acc);
    var t := HashInit(cfg, keys);
    if t.Error? {
      return Error;
    }
    ExactPart(acc, Combined(Some(t.value), None, None));
    return Ok(Some(t.value));
  }

  lemma HeadPart<V(!new)>(served: seq<Pattern<V>>, keys: seq<WcKey<V>>, c: Combined<V>)
    requires AllGood(served) && SameElements(Kept(keys), HeadKeys(served))
    requires if keys == [] then c.head.None? else c.head.Some? && Solves(c.head.value, Kept(keys))
    ensures forall name :: HeadAnswer(served, name, FindHead(c, name))
  {
    forall name ensures HeadAnswer(served, name, FindHead(c, name)) {
      HeadBestIsAnswer(served, Kept(keys), name);
    }
  }

  /**
    The head part: `served` are patterns whose keys are those kept of the sorted keys.
    It cannot be built exactly when some level of the trie cannot.
  */
  method BuildHead<V(!new)>(cfg: Config, keys: seq<WcKey<V>>, ghost acc: seq<Pattern<V>>, ghost served: seq<Pattern<V>>)
    returns (r: Result<Option<Node<V>>>)
    requires GoodCacheline(cfg.cacheline) && GoodPatterns(acc) && AllGood(served)
    requires Permutes(keys, HeadKeys(acc)) && DnsSorted(keys) && SameElements(Kept(keys), HeadKeys(served))
    ensures r.Ok? ==> forall name :: HeadAnswer(served, name, FindHead(Combined(None, r.value, None), name))
    ensures Ascending(keys) && (r.Error? <==> keys != [] && TrieFails(cfg, keys))
  {
    hide Solves, TrieFails, Kept, HeadAnswer;
    HeadKeysSortable(acc, keys);
    DnsSortedIsAscending(keys);
    if keys == [] {
      HeadPart(served, keys, Combined(None, None, None));
      return Ok(None);
    }
    var n := WildcardInit(cfg, keys);
    if n.Error? {
      return Error;
    }
    HeadPart(served, keys, Combined(None, Some(n.value), None));
    return Ok(Some(n.value));
  }

  lemma KeptMode<V>(keys: seq<WcKey<V>>)
    requires ModeOk(true, keys)
    ensures ModeOk(true, Kept(keys))
  {
    forall k | 0 <= k < |Kept(keys)| ensures !Below(Kept(keys)[k].key) {
      KeptMembers(keys, Kept(keys)[k]);
    }
  }

  lemma TailPart<V(!new)>(served: seq<Pattern<V>>, keys: seq<WcKey<V>>, c: Combined<V>)
    requires AllGood(served) && SameElements(Kept(keys), TailKeys(served)) && ModeOk(true, Kept(keys))
    requires if keys == [] then c.tail.None? else c.tail.Some? && Solves(c.tail.value, Kept(keys))
    ensures forall name :: TailAnswer(served, name, FindTail(c, name))
  {
    forall name ensures TailAnswer(served, name, FindTail(c, name)) {
      TailBestIsAnswer(served, Kept(keys), name);
    }
  }

  /** The tail part, in the same way. */
  method BuildTail<V(!new)>(cfg: Config, keys: seq<WcKey<V>>, ghost acc: seq<Pattern<V>>, ghost served: seq<Pattern<V>>)
    returns (r: Result<Option<Node<V>>>)
    requires GoodCacheline(cfg.cacheline) && GoodPatterns(acc) && AllGood(served)
    requires Permutes(keys, TailKeys(acc)) && DnsSorted(keys) && SameElements(Kept(keys), TailKeys(served))
    ensures r.Ok? ==> forall name :: TailAnswer(served, name, FindTail(Combined(None, None, r.value), name))
    ensures Ascending(keys) && (r.Error? <==> keys != [] && TrieFails(cfg, keys))
  {
    hide Solves, TrieFails, Kept, TailAnswer;
    TailKeysSortable(acc, keys);
    KeptMode(keys);
    DnsSortedIsAscending(keys);
    if keys == [] {
      TailPart(served, keys, Combined(None, None, None));
      return Ok(None);
    }
    var n := WildcardInit(cfg, keys);
    if n.Error? {
      return Error;
    }
    TailPart(served, keys, Combined(None, None, Some(n.value)));
    return Ok(Some(n.value));
  }

  lemma PartsServe<V>(e: Option<Table<V>>, h: Option<Node<V>>, t: Option<Node<V>>, acc: seq<Pattern<V>>)
    requires forall name :: ExactAnswer(acc, name, FindExact(Combined(e, None, None), name))
    requires forall name :: HeadAnswer(acc, name, FindHead(Combined(None, h, None), name))
    requires forall name :: TailAnswer(acc, name, FindTail(Combined(None, None, t), name))
    ensures Serves(Combined(e, h, t), acc)
  {
    var c := Combined(e, h, t);
    forall name ensures ExactAnswer(acc, name, FindExact(c, name)) {
      assert ExactAnswer(acc, name, FindExact(Combined(e, None, None), name));
    }
    forall name ensures HeadAnswer(acc, name, FindHead(c, name)) {
      assert HeadAnswer(acc, name, FindHead(Combined(None, h, None), name));
    }
    forall name ensures TailAnswer(acc, name, FindTail(c, name)) {
      assert TailAnswer(acc, name, FindTail(Combined(None, None, t), name));
    }
  }

  /** Some part cannot be built within the limits. */
  ghost predicate LimitTooSmall<V>(cfg: Config, exact: seq<Key<V>>, head: seq<WcKey<V>>, tail: seq<WcKey<V>>)
    requires GoodCacheline(cfg.cacheline) && Ascending(head) && Ascending(tail)
  {
    || (exact != [] && CannotBuild(cfg, exact))
    || (head != [] && TrieFails(cfg, head))
    || (tail != [] && TrieFails(cfg, tail))
  }

  /**
    The second half of ngx_http_server_names: builds the parts that have keys, from
    the wildcard keys in any order in which none compares greater than the next one.
  */
  method BuildCombined<V(!new)>(cfg: Config, a: KeySets<V>, head: seq<WcKey<V>>, tail: seq<WcKey<V>>,
                                ghost acc: seq<Pattern<V>>, ghost stray: set<seq<Byte>>)
    returns (r: Result<Combined<V>>)
    requires GoodCacheline(cfg.cacheline) && Consistent(a, acc, stray) && LowerNames(acc)
    requires Permutes(head, a.head) && DnsSorted(head) && Permutes(tail, a.tail) && DnsSorted(tail)
    ensures r.Ok? ==> Serves(r.value, Served(acc, head, tail))
    ensures Ascending(head) && Ascending(tail)
    ensures r.Error? <==> LimitTooSmall(cfg, a.keys, head, tail)
  {
    hide TrieFails, CannotBuild, Kept, HeadAnswer, TailAnswer, ExactAnswer;
    ghost var served := Served(acc, head, tail);
    ServedKeys(acc, head, tail);
    ServedGood(acc, head, tail);
    HeadKeysSortable(acc, head);
    TailKeysSortable(acc, tail);
    DnsSortedIsAscending(head);
    DnsSortedIsAscending(tail);
    var exact := BuildExact(cfg, a.keys, served);
    if exact.Error? {
      return Error;
    }
    var h := BuildHead(cfg, head, acc, served);
    if h.Error? {
      return Error;
    }
    var t := BuildTail(cfg, tail, acc, served);
    if t.Error? {
      return Error;
    }
    PartsServe(exact.value, h.value, t.value, served);
    return Ok(Combined(exact.value, h.value, t.value));
  }

  /** Exact name, else longest head wildcard, else longest tail wildcard, for every name. */
  ghost predicate Answer<V>(acc: seq<Pattern<V>>, name: seq<Byte>, r: Option<V>) {
    if exists i :: ExactHit(acc, i, name) then ExactAnswer(acc, name, ToLookup(r))
    else if exists i :: HeadHit(acc, i, name) then HeadAnswer(acc, name, ToLookup(r))
    else TailAnswer(acc, name, ToLookup(r))
  }

  lemma EmptyNameHasNoWildcard<V>(acc: seq<Pattern<V>>)
    requires AllGood(acc)
    ensures forall i :: !HeadHit(acc, i, []) && !TailHit(acc, i, [])
  {
    forall i ensures !HeadHit(acc, i, []) && !TailHit(acc, i, []) {
      if 0 <= i < |acc| {
        assert GoodPattern(acc[i]);
      }
    }
  }

  /** Looking a name up in a combined hash built from accepted patterns. */
  method FindServer<V>(c: Combined<V>, ghost acc: seq<Pattern<V>>, name: seq<Byte>) returns (r: Option<V>)
    requires Serves(c, acc) && AllGood(acc)
    ensures Answer(acc, name, r)
  {
    assert ExactAnswer(acc, name, FindExact(c, name)) && HeadAnswer(acc, name, FindHead(c, name));
    assert TailAnswer(acc, name, FindTail(c, name));
    EmptyNameHasNoWildcard(acc);
    var key := ComputeKey(name);
    r := FindCombined(c, key, name);
  }

  // ------------------------------------------ which lookups are as promised

  ghost predicate DistinctValues<V>(acc: seq<Pattern<V>>) {
    forall i, j :: 0 <= i < j < |acc| ==> acc[i].value != acc[j].value
  }

  lemma SameStemSame<V>(acc: seq<Pattern<V>>, i: nat, j: nat)
    requires NoConflicts(acc) && i < |acc| && j < |acc|
    requires (acc[i].Head? && acc[j].Head? && acc[i].suffix == acc[j].suffix)
             || (acc[i].Tail? && acc[j].Tail? && acc[i].prefix == acc[j].prefix)
    ensures i == j
  {
  }

  lemma DotStemHit<V>(acc: seq<Pattern<V>>, i: nat, j: nat)
    requires GoodPatterns(acc) && i < |acc| && acc[i].Head? && HeadHit(acc, j, [DOT] + acc[i].suffix)
    ensures |acc[j].suffix| <= |acc[i].suffix| && (|acc[j].suffix| == |acc[i].suffix| ==> j == i)
  {
    var s, name := acc[i].suffix, [DOT] + acc[i].suffix;
    assert GoodPattern(acc[i]) && GoodPattern(acc[j]);
    if |acc[j].suffix| == |s| {
      assert name[|name| - |s| - 1..] == name;
      assert acc[j].suffix == ([DOT] + acc[j].suffix)[1..] == name[1..] == s;
      SameStemSame(acc, i, j);
    }
  }

  /** The name made of a dot and the stem is answered with the pattern's value, if every lookup is as promised. */
  lemma PromisedHead<V>(acc: seq<Pattern<V>>, i: nat, r: Lookup<V>)
    requires GoodPatterns(acc) && i < |acc| && acc[i].Head? && HeadAnswer(acc, [DOT] + acc[i].suffix, r)
    ensures r == Found(acc[i].value)
  {
    var s, name := acc[i].suffix, [DOT] + acc[i].suffix;
    assert name[|name| - |s| - 1..] == name;
    assert HeadHit(acc, i, name);
    forall j | HeadHit(acc, j, name)
      ensures |acc[j].suffix| <= |s| && (|acc[j].suffix| == |s| ==> j == i)
    {
      DotStemHit(acc, i, j);
    }
  }

  lemma PromisedTail<V>(acc: seq<Pattern<V>>, i: nat, r: Lookup<V>)
    requires GoodPatterns(acc) && i < |acc| && acc[i].Tail? && TailAnswer(acc, acc[i].prefix + [DOT], r)
    ensures r == Found(acc[i].value)
  {
    var s, name := acc[i].prefix, acc[i].prefix + [DOT];
    assert TailHit(acc, i, name);
    forall j | TailHit(acc, j, name)
      ensures |acc[j].prefix| <= |s| && (|acc[j].prefix| == |s| ==> j == i)
    {
      if |acc[j].prefix| == |s| {
        assert acc[j].prefix == (acc[j].prefix + [DOT])[..|s|] == name[..|s|] == s;
        SameStemSame(acc, i, j);
      }
    }
  }

  lemma SameValueSamePattern<V>(acc: seq<Pattern<V>>, p: Pattern<V>, i: nat)
    requires DistinctValues(acc) && p in acc && i < |acc| && p.value == acc[i].value
    ensures p == acc[i]
  {
    var j :| 0 <= j < |acc| && acc[j] == p;
  }

  /** If every head lookup is as promised to the accepted patterns, no head pattern is lost. */
  lemma NoneLost<V>(c: Combined<V>, acc: seq<Pattern<V>>, head: seq<WcKey<V>>, tail: seq<WcKey<V>>, i: nat)
    requires GoodPatterns(acc) && DistinctValues(acc) && i < |acc|
    requires Serves(c, Served(acc, head, tail)) && Serves(c, acc)
    ensures acc[i].Head? || acc[i].Tail? ==> IsServed(acc[i], head, tail)
  {
    hide Served, IsServed;
    var served := Served(acc, head, tail);
    if acc[i].Head? {
      var name := [DOT] + acc[i].suffix;
      PromisedHead(acc, i, FindHead(c, name));
      assert HeadAnswer(served, name, FindHead(c, name));
      var m :| HeadHit(served, m, name) && served[m].value == acc[i].value;
      ServedMembers(acc, head, tail, served[m]);
      SameValueSamePattern(acc, served[m], i);
    } else if acc[i].Tail? {
      var name := acc[i].prefix + [DOT];
      PromisedTail(acc, i, FindTail(c, name));
      assert TailAnswer(served, name, FindTail(c, name));
      var m :| TailHit(served, m, name) && served[m].value == acc[i].value;
      ServedMembers(acc, head, tail, served[m]);
      SameValueSamePattern(acc, served[m], i);
    }
  }

  lemma KeptMeansReachable<V>(keys: seq<WcKey<V>>, k: nat)
    requires DistinctPaths(keys) && k < |keys| && keys[k] in Kept(keys)
    ensures Reachable(keys, k)
  {
    hide Reachable;
    KeptMembers(keys, keys[k]);
    var m :| 0 <= m < |keys| && keys[m] == keys[k] && Reachable(keys, m);
    assert m == k;
  }

  lemma AllReachable<V>(acc: seq<Pattern<V>>, head: seq<WcKey<V>>, tail: seq<WcKey<V>>)
    requires GoodPatterns(acc) && Permutes(head, HeadKeys(acc)) && Permutes(tail, TailKeys(acc))
    requires forall i :: 0 <= i < |acc| ==> (acc[i].Head? || acc[i].Tail? ==> IsServed(acc[i], head, tail))
    ensures Contiguous(head) && Contiguous(tail)
  {
    hide Kept, Reachable, HeadKeys, TailKeys, HeadKey;
    HeadPathsDistinct(acc);
    PermutedDistinct(head, HeadKeys(acc));
    TailPathsDistinct(acc);
    PermutedDistinct(tail, TailKeys(acc));
    forall k | 0 <= k < |head| ensures Reachable(head, k) {
      SameMembers(head, HeadKeys(acc), head[k]);
      var i := HeadKeyOf(acc, head[k]);
      assert IsServed(acc[i], head, tail);
      KeptMeansReachable(head, k);
    }
    forall k | 0 <= k < |tail| ensures Reachable(tail, k) {
      SameMembers(tail, TailKeys(acc), tail[k]);
      var i := TailKeyOf(acc, tail[k]);
      assert IsServed(acc[i], head, tail);
      KeptMeansReachable(tail, k);
    }
  }

  /**
    Every lookup is the one promised to the accepted patterns exactly when no sorted key
    is lost, for patterns with different values.
  */
  lemma ServesIffContiguous<V>(c: Combined<V>, acc: seq<Pattern<V>>, head: seq<WcKey<V>>, tail: seq<WcKey<V>>)
    requires GoodPatterns(acc) && DistinctValues(acc) && Serves(c, Served(acc, head, tail))
    requires Permutes(head, HeadKeys(acc)) && Permutes(tail, TailKeys(acc))
    ensures Serves(c, acc) <==> Contiguous(head) && Contiguous(tail)
  {
    hide Kept, Reachable, Served, Serves, IsServed, HeadKeys, TailKeys, HeadKey;
    if Contiguous(head) && Contiguous(tail) {
      forall i | 0 <= i < |acc|
        ensures acc[i].Head? ==> WcKey(HeadKey(acc[i].suffix, acc[i].below), acc[i].value) in head
        ensures acc[i].Tail? ==> WcKey(acc[i].prefix, acc[i].value) in tail
      {
        AcceptedKeysIn(acc, head, tail, i);
      }
      AllServed(acc, head, tail);
    }
    if Serves(c, acc) {
      forall i | 0 <= i < |acc| ensures acc[i].Head? || acc[i].Tail? ==> IsServed(acc[i], head, tail) {
        NoneLost(c, acc, head, tail, i);
      }
      AllReachable(acc, head, tail);
    }
  }

  // ------------------------------------------------ collecting server names

  datatype Named<V> = Named(key: seq<Byte>, value: V)

  datatype Accepted<V> = Accepted(acc: seq<Pattern<V>>, stray: set<seq<Byte>>)

  ghost predicate Readable<V>(x: Named<V>) {
    Reading(x.key, x.value, true, false).Some?
  }

  ghost predicate AllReadable<V>(names: seq<Named<V>>) {
    forall i :: 0 <= i < |names| ==> Readable(names[i])
  }

  ghost function AcceptOne<V>(a: Accepted<V>, x: Named<V>): Accepted<V>
    requires Readable(x)
  {
    var p := Reading(x.key, x.value, true, false).value;
    if Conflicts(a.acc, a.stray, p) then Accepted(a.acc, StrayAfterBusy(a.acc, a.stray, p))
    else Accepted(a.acc + [p], a.stray)
  }

  /** What is accepted of a list of server names: each one that conflicts with nothing before it. */
  ghost function AcceptAll<V>(names: seq<Named<V>>): Accepted<V>
    requires AllReadable(names)
  {
    if names == [] then Accepted([], {})
    else AcceptOne(AcceptAll(names[..|names| - 1]), names[|names| - 1])
  }

  lemma AcceptAllStep<V>(names: seq<Named<V>>, n: nat)
    requires n < |names| && AllReadable(names[..n]) && Readable(names[n])
    ensures AllReadable(names[..n + 1])
    ensures AcceptAll(names[..n + 1]) == AcceptOne(AcceptAll(names[..n]), names[n])
  {
    assert names[..n + 1][..n] == names[..n];
  }

  ghost predicate Holding<V>(sets: KeySets<V>, a: Accepted<V>) {
    Consistent(sets, a.acc, a.stray) && LowerNames(a.acc)
  }

  lemma ReadingIsLower<V>(key: seq<Byte>, value: V)
    requires Reading(key, value, true, false).Some?
    ensures var p := Reading(key, value, true, false).value;
            p.Exact? ==> Lower(p.name) == p.name && NoNul(p.name)
  {
    LowerKeepsDots(key);
  }

  lemma AddedMeans<V>(a: Accepted<V>, x: Named<V>, rc: Code, sets: KeySets<V>)
    requires Readable(x) && Added(a.acc, a.stray, Reading(x.key, x.value, true, false).value, rc, sets)
    ensures rc == OK || rc == BUSY
    ensures rc == BUSY <==> Conflicts(a.acc, a.stray, Reading(x.key, x.value, true, false).value)
  {
    ReadingIsLower(x.key, x.value);
    ReportedIsConflict(a.acc, a.stray, Reading(x.key, x.value, true, false).value, |sets.keysHash|);
  }

  /** One name: declined, or accepted as the list of names says. */
  method AddName<V>(ha: KeysArrays<V>, x: Named<V>) returns (ok: bool)
    requires ha.Valid() && LowerNames(ha.accepted)
    modifies ha
    ensures ha.Valid() && LowerNames(ha.accepted)
    ensures ok <==> Readable(x)
    ensures ok ==> Accepted(ha.accepted, ha.stray) == old(AcceptOne(Accepted(ha.accepted, ha.stray), x))
  {
    hide Reading, Added, Consistent, Conflicts, StrayAfterBusy;
    ghost var a := Accepted(ha.accepted, ha.stray);
    var rc, _ := ha.Add(x.key, x.value, true, false);
    ok := rc != DECLINED;
    if ok {
      ReadingIsLower(x.key, x.value);
      AddedMeans(a, x, rc, ha.sets);
    }
  }

  lemma NoNames<V>()
    ensures LowerNames<V>([])
  {
  }

  /** The first half of ngx_http_server_names: a declined name is an error, a conflicting one is ignored. */
  method CollectNames<V>(hsize: nat, names: seq<Named<V>>) returns (r: Result<KeySets<V>>)
    requires hsize > 0
    ensures r.Ok? <==> AllReadable(names)
    ensures r.Ok? ==> Holding(r.value, AcceptAll(names))
  {
    hide Readable, Consistent, AcceptOne, LowerNames;
    var ha := new KeysArrays<V>(hsize);
    NoNames<V>();
    for n := 0 to |names|
      invariant ha.Valid() && LowerNames(ha.accepted)
      invariant AllReadable(names[..n]) && Accepted(ha.accepted, ha.stray) == AcceptAll(names[..n])
    {
      var ok := AddName(ha, names[n]);
      if !ok {
        return Error;
      }
      AcceptAllStep(names, n);
    }
    assert names[..|names|] == names;
    return Ok(ha.sets);
  }

  // ----------------------------------------------------------- end to end

  /** The stems of the names, as far as they are wildcards, have no byte up to the space character. */
  ghost predicate PrintableNames<V>(names: seq<Named<V>>)
    requires AllReadable(names)
  {
    PrintableStems(AcceptAll(names).acc)
  }

  /** ngx_qsort: an order in which no key compares greater than the next one; callers rely on no more. */
  method SortKeys<V>(keys: seq<WcKey<V>>) returns (r: seq<WcKey<V>>)
    ensures Permutes(r, keys) && DnsSorted(r)
  {
    r := [];
    assert keys[..0] == [];
    for n := 0 to |keys|
      invariant Permutes(r, keys[..n]) && DnsSorted(r)
    {
      PutInHolds(keys[n], r);
      PutInSorted(keys[n], r);
      assert keys[..n + 1] == keys[..n] + [keys[n]];
      r := PutIn(keys[n], r);
    }
    assert keys[..|keys|] == keys;
  }

  /** The wildcard keys of the accepted patterns, each list in some sorted order. */
  ghost predicate SortedKeys<V>(acc: seq<Pattern<V>>, head: seq<WcKey<V>>, tail: seq<WcKey<V>>) {
    && Permutes(head, HeadKeys(acc)) && DnsSorted(head) && Ascending(head)
    && Permutes(tail, TailKeys(acc)) && DnsSorted(tail) && Ascending(tail)
  }

  /** A hash that serves what the sorted lists leave findable, or an error just when a part cannot be built. */
  ghost predicate BuiltFrom<V>(cfg: Config, acc: seq<Pattern<V>>, head: seq<WcKey<V>>, tail: seq<WcKey<V>>,
                               r: Result<Combined<V>>)
    requires GoodCacheline(cfg.cacheline)
  {
    && SortedKeys(acc, head, tail)
    && (r.Error? <==> LimitTooSmall(cfg, ExactKeys(acc), head, tail))
    && (r.Ok? ==> Serves(r.value, Served(acc, head, tail)))
  }

  /** ngx_http_server_names: from the list of names to the combined hash, in whatever order the sort leaves the keys. */
  method BuildServerNames<V(!new)>(hsize: nat, cfg: Config, names: seq<Named<V>>) returns (r: Result<Combined<V>>)
    requires hsize > 0 && GoodCacheline(cfg.cacheline)
    ensures !AllReadable(names) ==> r.Error?
    ensures AllReadable(names) ==> GoodPatterns(AcceptAll(names).acc)
    ensures AllReadable(names) ==> exists head, tail :: BuiltFrom(cfg, AcceptAll(names).acc, head, tail, r)
  {
    hide AcceptAll, Serves, DnsSorted, Permutes, LimitTooSmall, RegistersAll, Ascending;
    var sets := CollectNames(hsize, names);
    if sets.Error? {
      return Error;
    }
    var head := SortKeys(sets.value.head);
    var tail := SortKeys(sets.value.tail);
    ghost var a := AcceptAll(names);
    r := BuildCombined(cfg, sets.value, head, tail, a.acc, a.stray);
    assert BuiltFrom(cfg, a.acc, head, tail, r);
  }

  lemma ServedAllGood<V>(acc: seq<Pattern<V>>, head: seq<WcKey<V>>, tail: seq<WcKey<V>>)
    requires GoodPatterns(acc)
    ensures AllGood(Served(acc, head, tail))
  {
    forall i | 0 <= i < |Served(acc, head, tail)| ensures GoodPattern(Served(acc, head, tail)[i]) {
      ServedMembers(acc, head, tail, Served(acc, head, tail)[i]);
    }
  }

  /** The answer for `query` among the names served, and among all if nothing is lost. */
  ghost predicate AnsweredFrom<V>(cfg: Config, acc: seq<Pattern<V>>, head: seq<WcKey<V>>, tail: seq<WcKey<V>>,
                                  query: seq<Byte>, r: Result<Option<V>>)
    requires GoodCacheline(cfg.cacheline)
  {
    && SortedKeys(acc, head, tail)
    && (r.Error? <==> LimitTooSmall(cfg, ExactKeys(acc), head, tail))
    && (r.Ok? ==> Answer(Served(acc, head, tail), query, r.value))
    && (r.Ok? && Contiguous(head) && Contiguous(tail) ==> Answer(acc, query, r.value))
  }

  /**
    From a list of server names to the answer for any name.  It is an error exactly when a
    name cannot be read or a part cannot be built.  Otherwise it is the exact name, else the
    longest head wildcard, else the longest tail wildcard among the names served; all
    accepted names are served when keys that share labels are adjacent in the sorted lists,
    as they are if no stem has a byte up to the space character.
  */
  method ServerFor<V(!new)>(hsize: nat, cfg: Config, names: seq<Named<V>>, query: seq<Byte>) returns (r: Result<Option<V>>)
    requires hsize > 0 && GoodCacheline(cfg.cacheline)
    ensures !AllReadable(names) ==> r.Error?
    ensures AllReadable(names) ==> exists head, tail :: AnsweredFrom(cfg, AcceptAll(names).acc, head, tail, query, r)
    ensures r.Ok? && PrintableNames(names) ==> Answer(AcceptAll(names).acc, query, r.value)
  {
    hide AcceptAll, Serves, DnsSorted, Permutes, Answer, Served, PrintableStems, Contiguous, LimitTooSmall, Ascending;
    var c := BuildServerNames(hsize, cfg, names);
    if c.Error? {
      r := Error;
      if AllReadable(names) {
        ghost var head, tail :| BuiltFrom(cfg, AcceptAll(names).acc, head, tail, c);
        assert AnsweredFrom(cfg, AcceptAll(names).acc, head, tail, query, r);
      }
    } else {
      ghost var acc := AcceptAll(names).acc;
      ghost var head, tail :| BuiltFrom(cfg, acc, head, tail, c);
      ServedAllGood(acc, head, tail);
      var v := FindServer(c.value, Served(acc, head, tail), query);
      r := Ok(v);
      if PrintableNames(names) {
        PrintableAllServed(acc, head, tail);
      }
      if Contiguous(head) && Contiguous(tail) {
        AdjacentAllServed(acc, head, tail);
      }
      assert AnsweredFrom(cfg, acc, head, tail, query, r);
    }
  }

  // --------------------------------------------- a name that is not found

  /** ".a", ".a" with one more byte, and ".b.a". */
  ghost function LowByteNames<V>(c: Byte, v0: V, v1: V, v2: V): seq<Named<V>> {
    [Named([DOT, 97], v0), Named([DOT, 97, c], v1), Named([DOT, 98, DOT, 97], v2)]
  }

  ghost function LowBytePatterns<V>(c: Byte, v0: V, v1: V, v2: V): seq<Pattern<V>> {
    [Head([97], false, v0), Head([97, c], false, v1), Head([98, DOT, 97], false, v2)]
  }

  lemma {:induction false} NoStars(s: seq<Byte>, key: seq<Byte>)
    requires STAR !in s && (key == s || key == [DOT] + s)
    ensures Stars(key) == 0
    decreases |key|
  {
    if key != [] && s != [] {
      var n := |key| - 1;
      assert key[n] == s[|s| - 1];
      NoStars(s[..|s| - 1], key[..n]);
    }
  }

  lemma DotNameReads<V>(key: seq<Byte>, s: seq<Byte>, v: V)
    requires key == [DOT] + s && GoodStem(s) && STAR !in s
    ensures Reading(key, v, true, false) == Some(Head(s, false, v))
  {
    NoStars(s, key);
    assert forall i :: 0 < i < |key| ==> key[i] == s[i - 1];
    assert key[1..] == s;
  }

  /** A head wildcard with a new stem is accepted. */
  lemma AcceptNew<V>(a: Accepted<V>, x: Named<V>, p: Pattern<V>)
    requires Reading(x.key, x.value, true, false) == Some(p) && p.Head? && a.stray == {}
    requires Exacts(a.acc) == {} && Dots(a.acc) == Heads(a.acc) && p.suffix !in Heads(a.acc)
    ensures Readable(x) && AcceptOne(a, x) == Accepted(a.acc + [p], {})
    ensures !p.below ==> Exacts(a.acc + [p]) == {} && Dots(a.acc + [p]) == Heads(a.acc + [p]) == Heads(a.acc) + {p.suffix}
  {
    hide Reading;
    SetsAfterAdd(a.acc, p);
  }

  lemma LowByteStems(c: Byte)
    requires 0 < c <= 32
    ensures var x, y, z: seq<Byte> := [97], [97, c], [98, DOT, 97];
            && GoodStem(x) && GoodStem(y) && GoodStem(z) && STAR !in x && STAR !in y && STAR !in z
  {
  }

  lemma LowByteReadings<V>(c: Byte, v0: V, v1: V, v2: V, i: nat)
    requires 0 < c <= 32 && i < 3
    ensures var n := LowByteNames(c, v0, v1, v2)[i];
            Reading(n.key, n.value, true, false) == Some(LowBytePatterns(c, v0, v1, v2)[i])
  {
    LowByteStems(c);
    hide GoodStem, Reading;
    var n, p := LowByteNames(c, v0, v1, v2)[i], LowBytePatterns(c, v0, v1, v2)[i];
    assert n.key == [DOT] + p.suffix;
    DotNameReads(n.key, p.suffix, n.value);
  }

  lemma NoPatterns<V>()
    ensures Exacts<V>([]) == {} && Dots<V>([]) == {} && Heads<V>([]) == {}
  {
  }

  /** All three are accepted. */
  lemma LowByteAccepted<V>(c: Byte, v0: V, v1: V, v2: V)
    requires 0 < c <= 32
    ensures AllReadable(LowByteNames(c, v0, v1, v2))
    ensures AcceptAll(LowByteNames(c, v0, v1, v2)).acc == LowBytePatterns(c, v0, v1, v2)
    ensures GoodPatterns(LowBytePatterns(c, v0, v1, v2))
  {
    var names, ps := LowByteNames(c, v0, v1, v2), LowBytePatterns(c, v0, v1, v2);
    LowByteStems(c);
    hide Reading, GoodStem, AcceptOne, Heads, Dots, Exacts;
    LowByteReadings(c, v0, v1, v2, 0);
    LowByteReadings(c, v0, v1, v2, 1);
    LowByteReadings(c, v0, v1, v2, 2);
    assert |ps[0].suffix| == 1 && |ps[1].suffix| == 2 && |ps[2].suffix| == 3;
    NoPatterns<V>();
    assert [] + [ps[0]] == ps[..1] && ps[..1] + [ps[1]] == ps[..2] && ps[..2] + [ps[2]] == ps;
    AcceptNew(Accepted([], {}), names[0], ps[0]);
    AcceptNew(Accepted(ps[..1], {}), names[1], ps[1]);
    AcceptNew(Accepted(ps[..2], {}), names[2], ps[2]);
    assert names[..0] == [] && names[..3] == names;
    AcceptAllStep(names, 0);
    AcceptAllStep(names, 1);
    AcceptAllStep(names, 2);
  }

  lemma LowByteHeadKeys(c: Byte)
    requires 0 < c <= 32
    ensures HeadKey([97], false) == [97] && HeadKey([97, c], false) == [97, c]
    ensures HeadKey([98, DOT, 97], false) == [97, DOT, 98]
  {
    var x, b: seq<Byte> := [97], [98];
    BackLeaf(x);
    BackLeaf([97, c]);
    BackLeaf(b);
    BackCons(b, x);
    assert b + [DOT] + x == [98, DOT, 97];
    assert [x] + [b] == [x, b] && [x, b][1..] == [b];
    assert Join([x, b]) == x + [DOT] + Join([b]);
    assert x + [DOT] + b == [97, DOT, 98];
  }

  lemma FirstTwoServed<V>(ps: seq<Pattern<V>>, keys: seq<WcKey<V>>)
    requires |ps| == 3 == |keys| && ps[0].Head? && ps[1].Head? && ps[2].Head? && Kept(keys) == keys[..2]
    requires forall i :: 0 <= i < 3 ==> keys[i] == WcKey(HeadKey(ps[i].suffix, ps[i].below), ps[i].value)
    requires keys[2].key != keys[0].key && keys[2].key != keys[1].key
    ensures Served(ps, keys, []) == ps[..2]
  {
    hide Kept, HeadKey;
    assert keys[..2] == [keys[0], keys[1]];
    assert IsServed(ps[0], keys, []) && IsServed(ps[1], keys, []) && !IsServed(ps[2], keys, []);
    assert ps[..1][..0] == [] && ps[..2][..1] == ps[..1];
    assert Served(ps[..1], keys, []) == [] + [ps[0]];
    assert Served(ps[..2], keys, []) == [ps[0]] + [ps[1]];
  }

  lemma LowByteKeys<V>(ps: seq<Pattern<V>>, keys: seq<WcKey<V>>)
    requires |ps| == 3 == |keys| && ps[0].Head? && ps[1].Head? && ps[2].Head?
    requires forall i :: 0 <= i < 3 ==> keys[i] == WcKey(HeadKey(ps[i].suffix, ps[i].below), ps[i].value)
    ensures HeadKeys(ps) == keys && TailKeys(ps) == []
  {
    hide HeadKey;
    assert ps[..2][..1] == ps[..1] && ps[..1][..0] == [];
    assert HeadKeys(ps[..1]) == [] + [keys[0]];
    assert HeadKeys(ps[..2]) == [keys[0]] + [keys[1]];
    assert TailKeys(ps[..1]) == [] && TailKeys(ps[..2]) == [];
  }

  /** Their keys, as accepted, are already sorted, and the last one is lost. */
  lemma LowByteServed<V>(c: Byte, v0: V, v1: V, v2: V)
    requires 0 < c <= 32
    ensures var ps := LowBytePatterns(c, v0, v1, v2);
            DnsSorted(HeadKeys(ps)) && TailKeys(ps) == [] && Served(ps, HeadKeys(ps), []) == ps[..2]
  {
    var ps := LowBytePatterns(c, v0, v1, v2);
    var keys := [WcKey([97], v0), WcKey([97, c], v1), WcKey([97, DOT, 98], v2)];
    LowByteHeadKeys(c);
    LowByteLosesKey(c, keys);
    hide Kept, DnsSorted, Reachable, HeadKey;
    LowByteKeys(ps, keys);
    FirstTwoServed(ps, keys);
  }

  lemma LowByteMatches(c: Byte, name: seq<Byte>)
    requires 0 < c <= 32 && name == [120, DOT, 98, DOT, 97]
    ensures HeadMatches([97], false, name) && !HeadMatches([97, c], false, name) && HeadMatches([98, DOT, 97], false, name)
  {
    assert name[3..] == [DOT] + [97] && name[1..] == [DOT] + [98, DOT, 97];
    assert name[2..][0] == 98 && ([DOT] + [97, c])[0] == DOT;
  }

  lemma LowByteHits<V>(c: Byte, v0: V, v1: V, v2: V, name: seq<Byte>)
    requires HeadMatches([97], false, name) && !HeadMatches([97, c], false, name) && HeadMatches([98, DOT, 97], false, name)
    ensures var ps := LowBytePatterns(c, v0, v1, v2);
            && HeadHit(ps[..2], 0, name) && (forall i :: HeadHit(ps[..2], i, name) ==> i == 0)
            && HeadHit(ps, 2, name) && (forall i :: HeadHit(ps, i, name) && |ps[i].suffix| >= 3 ==> i == 2)
  {
    hide HeadMatches;
    var ps := LowBytePatterns(c, v0, v1, v2);
    assert ps[..2][0] == ps[0] && ps[..2][1] == ps[1] && |ps[..2]| == 2;
  }

  /**
    Looking up "x.b.a" then gives the value of ".a", though ".b.a" was accepted and is the
    longest match: for every byte up to the space character, and for any hash built.
  */
  lemma LowByteLookup<V>(c: Byte, v0: V, v1: V, v2: V, hash: Combined<V>)
    requires 0 < c <= 32
    requires var ps := LowBytePatterns(c, v0, v1, v2); Serves(hash, Served(ps, HeadKeys(ps), []))
    ensures var name: seq<Byte> := [120, DOT, 98, DOT, 97];
            && FindHead(hash, name) == Found(v0)
            && (HeadAnswer(LowBytePatterns(c, v0, v1, v2), name, Found(v0)) ==> v0 == v2)
  {
    var ps, name: seq<Byte> := LowBytePatterns(c, v0, v1, v2), [120, DOT, 98, DOT, 97];
    LowByteServed(c, v0, v1, v2);
    LowByteMatches(c, name);
    LowByteHits(c, v0, v1, v2, name);
    hide Served, HeadKeys, HeadHit;
    assert HeadAnswer(ps[..2], name, FindHead(hash, name));
  }
}
