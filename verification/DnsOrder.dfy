/**
  The order in which callers sort wildcard keys (ngx_dns_strcmp in ngx_string.c), when it
  is the order the builder of the wildcard tries needs, and what is lost when it is not.
*/
module DnsOrder {
  import opened Bytes
  import opened Wildcard

  const SPACE: Byte := 32

  /** In the comparison a dot counts as a space, below every printable character. */
  function Weight(c: Byte): Byte {
    if c == DOT then SPACE else c
  }

  /** ngx_dns_strcmp. */
  function DnsCmp(a: seq<Byte>, b: seq<Byte>): int
    decreases |a|
  {
    var c1, c2 := ToLower(CharAt(a, 0)), ToLower(CharAt(b, 0));
    if c1 == c2 then
      if a == [] || b == [] || c1 == 0 then 0 else DnsCmp(a[1..], b[1..])
    else Weight(c1) - Weight(c2)
  }

  /**
    Keys as a sort leaves them: none compares greater than the next one.  A dot and a
    space tie, so that an earlier key can still compare greater than a later one.
  */
  ghost predicate DnsSorted<V>(names: seq<WcKey<V>>) {
    forall j :: 0 < j < |names| ==> DnsCmp(names[j - 1].key, names[j].key) <= 0
  }

  /** A lower-cased C string. */
  ghost predicate Clean(s: seq<Byte>) {
    forall i :: 0 <= i < |s| ==> s[i] != 0 && ToLower(s[i]) == s[i]
  }

  /** Lower-cased, and no byte up to the space character. */
  ghost predicate Printable(s: seq<Byte>) {
    forall i :: 0 <= i < |s| ==> s[i] > 32 && ToLower(s[i]) == s[i]
  }

  ghost predicate DotFree(a: Label) {
    forall i :: 0 <= i < |a| ==> a[i] != DOT
  }

  /** Only the first label may be empty. */
  ghost predicate GoodPath(p: seq<Label>) {
    |p| > 0 && (forall m :: 0 <= m < |p| ==> DotFree(p[m])) && (forall m :: 1 <= m < |p| ==> p[m] != [])
  }

  function Join(p: seq<Label>): seq<Byte>
    requires |p| > 0
  {
    if |p| == 1 then p[0] else p[0] + [DOT] + Join(p[1..])
  }

  // ------------------------------------- a path prefix, seen in the string

  lemma LeafKey(a: Label)
    requires DotFree(a)
    ensures DotAt(a) == |a| && Path(a) == [a] && !Below(a)
  {
    DotAtUnique(a, |a|);
    assert a[..|a|] == a;
  }

  /** A label, a dot and the rest. */
  lemma ConsKey(a: Label, t: seq<Byte>)
    requires DotFree(a)
    ensures Path(a + [DOT] + t) == if t == [] then [a] else [a] + Path(t)
    ensures Below(a + [DOT] + t) == (t == [] || Below(t))
  {
    var s := a + [DOT] + t;
    DotAtUnique(s, |a|);
    assert s[..|a|] == a && s[|a| + 1..] == t;
  }

  lemma Cut(s: seq<Byte>, k: nat)
    requires k < |s|
    ensures s == s[..k] + [s[k]] + s[k + 1..]
  {
  }

  lemma SplitKey(s: seq<Byte>)
    requires DotAt(s) < |s|
    ensures s == First(s) + [DOT] + s[DotAt(s) + 1..]
  {
    Cut(s, DotAt(s));
  }

  lemma PrefixOfConcat(a: seq<Byte>, b: seq<Byte>, c: seq<Byte>)
    ensures a + b <= a + c <==> b <= c
  {
    if a + b <= a + c {
      assert b == (a + b)[|a|..] <= (a + c)[|a|..] == c;
    }
  }

  lemma {:induction false} UnderMeansPrefix(p: seq<Label>, s: seq<Byte>)
    requires |p| > 0 && Under(p, s)
    ensures s == Join(p) || Join(p) + [DOT] <= s
    decreases |p|
  {
    assert Path(s)[0] == First(s) == p[0];
    if DotAt(s) == |s| {
      assert s == First(s);
    } else {
      SplitKey(s);
      var t := s[DotAt(s) + 1..];
      if |p| > 1 {
        assert p[1..] <= Path(s)[1..] == Path(t);
        UnderMeansPrefix(p[1..], t);
        PrefixOfConcat(p[0] + [DOT], Join(p[1..]) + [DOT], t);
      }
    }
  }

  lemma {:induction false} PrefixMeansUnder(p: seq<Label>, s: seq<Byte>)
    requires |p| > 0 && (forall m :: 0 <= m < |p| ==> DotFree(p[m])) && Join(p) + [DOT] <= s
    ensures Under(p, s)
    decreases |p|
  {
    var a := p[0];
    var t := s[|a| + 1..];
    assert s == a + [DOT] + t;
    ConsKey(a, t);
    if |p| > 1 {
      assert Join(p) + [DOT] == a + [DOT] + (Join(p[1..]) + [DOT]);
      PrefixOfConcat(a + [DOT], Join(p[1..]) + [DOT], t);
      PrefixMeansUnder(p[1..], t);
    }
  }

  lemma PathOfLonger(a: Label, t: seq<Byte>, rest: seq<Label>)
    requires DotFree(a) && t != [] && Path(t) == rest && !Below(t) && Path(t + [DOT]) == rest && Below(t + [DOT])
    ensures var s := a + [DOT] + t;
            Path(s) == [a] + rest && !Below(s) && Path(s + [DOT]) == [a] + rest && Below(s + [DOT])
  {
    hide Path, Below, DotFree;
    ConsKey(a, t);
    ConsKey(a, t + [DOT]);
    assert a + [DOT] + t + [DOT] == a + [DOT] + (t + [DOT]);
  }

  lemma {:induction false} PathOfJoin(p: seq<Label>)
    requires GoodPath(p) && Join(p) != []
    ensures Path(Join(p)) == p && !Below(Join(p))
    ensures Path(Join(p) + [DOT]) == p && Below(Join(p) + [DOT])
    decreases |p|
  {
    hide Path, Below, DotFree;
    var a := p[0];
    if |p| == 1 {
      LeafKey(a);
      ConsKey(a, []);
      assert a + [DOT] + [] == a + [DOT];
    } else {
      var t := Join(p[1..]);
      assert |t| >= |p[1]| > 0;
      PathOfJoin(p[1..]);
      PathOfLonger(a, t, p[1..]);
      assert p == [a] + p[1..];
    }
  }

  // ------------------------------------------------- sorted keys are ordered

  /** Between two strings that share a prefix there are only strings with that prefix. */
  lemma {:induction false} PrefixConvex(x: seq<Byte>, y: seq<Byte>, z: seq<Byte>, j: seq<Byte>)
    requires Printable(x) && Printable(y) && Printable(z)
    requires DnsCmp(x, y) <= 0 && DnsCmp(y, z) <= 0 && j <= x && j <= z
    ensures j <= y
    ensures Weight(CharAt(y, |j|)) <= Weight(CharAt(z, |j|))
    decreases |j|
  {
    if j != [] {
      assert y != [] && y[0] == j[0];
      PrefixConvex(x[1..], y[1..], z[1..], j[1..]);
      assert j == [j[0]] + j[1..] && y == [y[0]] + y[1..];
    }
  }

  /** A string comes after each of its proper prefixes. */
  lemma {:induction false} PrefixIsLess(x: seq<Byte>, y: seq<Byte>)
    requires Clean(x) && Clean(y) && x < y
    ensures DnsCmp(y, x) > 0
  {
    if x != [] {
      PrefixIsLess(x[1..], y[1..]);
    }
  }

  lemma JoinUnder(p: seq<Label>, q: seq<Label>)
    requires GoodPath(q) && 0 < |p| && p <= q && Join(p) != []
    ensures Under(p, Join(p))
  {
    PathOfJoin(p);
  }

  lemma OnlyDotFollows(y: seq<Byte>, z: seq<Byte>, j: seq<Byte>)
    requires Printable(y) && j <= y && (z == j || j + [DOT] <= z)
    requires Weight(CharAt(y, |j|)) <= Weight(CharAt(z, |j|))
    ensures y == j || j + [DOT] <= y
  {
    if |y| > |j| {
      assert y[|j|] == DOT;
      assert y[..|j| + 1] == j + [DOT];
    }
  }

  lemma StringConvex(x: seq<Byte>, y: seq<Byte>, z: seq<Byte>, j: seq<Byte>)
    requires Printable(x) && Printable(y) && Printable(z)
    requires DnsCmp(x, y) <= 0 && DnsCmp(y, z) <= 0
    requires (x == j || j + [DOT] <= x) && (z == j || j + [DOT] <= z)
    ensures y == j || j + [DOT] <= y
  {
    assert j <= j + [DOT];
    PrefixConvex(x, y, z, j);
    OnlyDotFollows(y, z, j);
  }

  /** A path prefix is shared by everything the order puts between. */
  lemma UnderConvex(x: seq<Byte>, y: seq<Byte>, z: seq<Byte>, p: seq<Label>)
    requires Printable(x) && Printable(y) && Printable(z)
    requires DnsCmp(x, y) <= 0 && DnsCmp(y, z) <= 0
    requires GoodPath(Path(x)) && y != [] && Under(p, x) && Under(p, z)
    ensures Under(p, y)
  {
    if |p| > 0 {
      UnderMeansPrefix(p, x);
      UnderMeansPrefix(p, z);
      StringConvex(x, y, z, Join(p));
      if y == Join(p) {
        JoinUnder(p, Path(x));
      } else {
        PrefixMeansUnder(p, y);
      }
    }
  }

  /** What the callers' keys satisfy besides being sorted. */
  ghost predicate SortableKeys<V>(names: seq<WcKey<V>>) {
    && (forall i :: 0 <= i < |names| ==> names[i].key != [] && Clean(names[i].key) && GoodPath(Path(names[i].key)))
    && (forall i, j :: 0 <= i < j < |names| ==> Path(names[i].key) != Path(names[j].key))
  }

  ghost predicate PrintableKeys<V>(names: seq<WcKey<V>>) {
    forall i :: 0 <= i < |names| ==> Printable(names[i].key)
  }

  lemma ShorterIsBefore(x: seq<Byte>, y: seq<Byte>, j: seq<Byte>)
    requires Clean(x) && Clean(y) && x != y && j + [DOT] <= x && (y == j || y == j + [DOT])
    ensures DnsCmp(x, y) > 0
  {
    assert j <= j + [DOT];
    PrefixIsLess(y, x);
  }

  lemma PathOfOwnJoin(p: seq<Label>)
    requires GoodPath(p)
    ensures Path(Join(p)) == p
  {
    if Join(p) == [] {
      LeafKey([]);
      assert |p| == 1 && p[0] == [];
    } else {
      PathOfJoin(p);
    }
  }

  lemma PathStep(s: seq<Byte>)
    ensures DotAt(s) == |s| ==> Path(s) == [s] && !Below(s)
    ensures DotAt(s) + 1 == |s| ==> Path(s) == [First(s)] && Below(s)
    ensures DotAt(s) + 1 < |s| ==>
              var t := s[DotAt(s) + 1..]; Path(s) == [First(s)] + Path(t) && Below(s) == Below(t)
  {
    assert s[..|s|] == s;
  }

  lemma JoinCons(a: Label, p: seq<Label>)
    ensures Join([a]) == a && (p != [] ==> Join([a] + p) == a + [DOT] + Join(p))
  {
    assert ([a] + p)[1..] == p;
  }

  lemma Regroup(a: seq<Byte>, b: seq<Byte>, c: seq<Byte>)
    ensures a + [DOT] + (b + c) == a + [DOT] + b + c
  {
  }

  /** A key is its joined path, followed by a dot if it stands for names below. */
  lemma {:induction false} StringOfPath(s: seq<Byte>)
    ensures s == Join(Path(s)) + if Below(s) then [DOT] else []
    decreases |s|
  {
    hide Path, Below, Join, First;
    PathStep(s);
    if DotAt(s) == |s| {
      JoinCons(s, []);
    } else {
      SplitKey(s);
      var t := s[DotAt(s) + 1..];
      if t == [] {
        JoinCons(First(s), []);
        assert s == First(s) + [DOT];
      } else {
        StringOfPath(t);
        JoinCons(First(s), Path(t));
        Regroup(First(s), Join(Path(t)), if Below(t) then [DOT] else []);
      }
    }
  }

  lemma PathBeforeExtension(x: seq<Byte>, y: seq<Byte>)
    requires Clean(x) && Clean(y) && GoodPath(Path(y)) && DnsCmp(x, y) <= 0 && Path(x) != Path(y)
    ensures !Under(Path(y), x)
  {
    if Under(Path(y), x) {
      UnderMeansPrefix(Path(y), x);
      StringOfPath(y);
      PathOfOwnJoin(Path(y));
      ShorterIsBefore(x, y, Join(Path(y)));
    }
  }

  /** Sorted keys are what the builder needs. */
  lemma DnsSortedIsAscending<V>(names: seq<WcKey<V>>)
    requires SortableKeys(names) && DnsSorted(names)
    ensures Ascending(names)
  {
    forall j | 0 < j < |names| ensures !(Path(names[j].key) <= Path(names[j - 1].key)) {
      PathBeforeExtension(names[j - 1].key, names[j].key);
    }
  }

  /** The comparison is antisymmetric. */
  lemma {:induction false} CmpOpposite(x: seq<Byte>, y: seq<Byte>)
    ensures DnsCmp(x, y) == -DnsCmp(y, x)
    decreases |x|
  {
    if x != [] && y != [] && ToLower(x[0]) == ToLower(y[0]) && ToLower(x[0]) != 0 {
      CmpOpposite(x[1..], y[1..]);
    }
  }

  /** Ties are not transitive, since a dot and a space tie, but "less" is. */
  lemma {:induction false} LessTransitive(x: seq<Byte>, y: seq<Byte>, z: seq<Byte>)
    requires DnsCmp(x, y) < 0 && DnsCmp(y, z) < 0
    ensures DnsCmp(x, z) < 0
    decreases |x|
  {
    if x != [] && y != [] && z != [] && ToLower(x[0]) == ToLower(y[0]) == ToLower(z[0]) && ToLower(x[0]) != 0 {
      LessTransitive(x[1..], y[1..], z[1..]);
    }
  }

  lemma {:induction false} PrintableTie(x: seq<Byte>, y: seq<Byte>)
    requires Printable(x) && Printable(y) && DnsCmp(x, y) == 0
    ensures x == y
    decreases |x|
  {
    if x != [] && y != [] {
      assert x[0] > 32 && y[0] > 32;
      PrintableTie(x[1..], y[1..]);
      assert x == [x[0]] + x[1..] && y == [y[0]] + y[1..];
    }
  }

  /** Without bytes up to the space character no key compares greater than any later one. */
  lemma {:induction false} PrintableIsPairwise<V>(names: seq<WcKey<V>>, i: nat, j: nat)
    requires DnsSorted(names) && PrintableKeys(names) && i < j < |names|
    ensures DnsCmp(names[i].key, names[j].key) <= 0
    decreases j
  {
    if i < j - 1 {
      var x, y, z := names[i].key, names[j - 1].key, names[j].key;
      PrintableIsPairwise(names, i, j - 1);
      if DnsCmp(x, y) == 0 {
        PrintableTie(x, y);
      } else if DnsCmp(y, z) == 0 {
        PrintableTie(y, z);
      } else {
        LessTransitive(x, y, z);
      }
    }
  }

  /** With a space one may: "a.b.c" before "a b" before "a.b". */
  lemma TiesAreNotTransitive<V>(names: seq<WcKey<V>>)
    requires |names| == 3 && names[0].key == [97, DOT, 98, DOT, 99] && names[1].key == [97, 32, 98]
    requires names[2].key == [97, DOT, 98]
    ensures DnsSorted(names) && DnsCmp(names[0].key, names[2].key) > 0
  {
    var x, y, z: seq<Byte> := [97, DOT, 98, DOT, 99], [97, 32, 98], [97, DOT, 98];
    assert x[1..] == [DOT, 98, DOT, 99] && y[1..] == [32, 98] && z[1..] == [DOT, 98];
    assert DnsCmp(x, y) == DnsCmp(x[1..], y[1..]) == 0 && DnsCmp(y, z) == DnsCmp(y[1..], z[1..]) == 0;
    assert x[1..][1..] == [98, DOT, 99] && z[1..][1..] == [98];
    assert x[1..][1..][1..] == [DOT, 99] && z[1..][1..][1..] == [];
    assert DnsCmp(x[1..], z[1..]) == DnsCmp([98, DOT, 99], [98]) == DnsCmp([DOT, 99], []);
  }

  /** Without bytes up to the space character every sorted key is reachable. */
  lemma PrintableIsContiguous<V>(names: seq<WcKey<V>>)
    requires SortableKeys(names) && DnsSorted(names) && PrintableKeys(names)
    ensures Contiguous(names)
  {
    forall k | 0 <= k < |names| ensures Reachable(names, k) {
      forall i, j, p | 0 <= i < j < k && Under(p, names[i].key) && Under(p, names[k].key)
        ensures Under(p, names[j].key)
      {
        PrintableIsPairwise(names, i, j);
        PrintableIsPairwise(names, j, k);
        UnderConvex(names[i].key, names[j].key, names[k].key, p);
      }
    }
  }

  lemma KeptTwo<V>(names: seq<WcKey<V>>)
    requires |names| == 3 && !Reachable(names, 2)
    ensures Kept(names) == names[..2]
  {
    forall k | 0 <= k < 2 ensures Reachable(names[..2], k) {
    }
    AllKept(names[..2]);
  }

  /**
    With any byte up to the space character in a label a sorted key can be lost: in "a",
    "a" with the byte, and "a.b" the last one is not reachable.
  */
  lemma LowByteLosesKey<V>(c: Byte, names: seq<WcKey<V>>)
    requires 0 < c <= 32 && |names| == 3
    requires names[0].key == [97] && names[1].key == [97, c] && names[2].key == [97, DOT, 98]
    ensures DnsSorted(names) && !Reachable(names, 2) && Kept(names) == names[..2]
  {
    var x, y, z: seq<Byte> := [97], [97, c], [97, DOT, 98];
    assert x[1..] == [] && y[1..] == [c] && z[1..] == [DOT, 98];
    assert DnsCmp(x, y) == DnsCmp([], [c]) && DnsCmp(x, z) == DnsCmp([], [DOT, 98]);
    assert DnsCmp(y, z) == DnsCmp([c], [DOT, 98]);
    LeafKey(x);
    LeafKey(y);
    LeafKey([98]);
    assert z == x + [DOT] + [98];
    ConsKey(x, [98]);
    assert Path(names[1].key)[0] == y && |x| != |y|;
    assert Under([x], names[0].key) && Under([x], names[2].key) && !Under([x], names[1].key);
    KeptTwo(names);
  }

  // ------------------------------------------------------ there is an order

  /** A key put before the first one it is less than. */
  function PutIn<V>(x: WcKey<V>, s: seq<WcKey<V>>): seq<WcKey<V>> {
    if s == [] || DnsCmp(x.key, s[0].key) < 0 then [x] + s else [s[0]] + PutIn(x, s[1..])
  }

  lemma {:induction false} PutInHolds<V>(x: WcKey<V>, s: seq<WcKey<V>>)
    ensures multiset(PutIn(x, s)) == multiset(s) + multiset{x}
  {
    if s != [] {
      assert s == [s[0]] + s[1..];
      if DnsCmp(x.key, s[0].key) >= 0 {
        PutInHolds(x, s[1..]);
      }
    }
  }

  lemma {:induction false} PutInSorted<V>(x: WcKey<V>, s: seq<WcKey<V>>)
    requires DnsSorted(s)
    ensures DnsSorted(PutIn(x, s))
  {
    if s != [] && DnsCmp(x.key, s[0].key) >= 0 {
      PutInSorted(x, s[1..]);
      CmpOpposite(x.key, s[0].key);
      var r := PutIn(x, s[1..]);
      assert r[0] == x || r[0] == s[1];
      forall j | 0 < j < |[s[0]] + r| ensures DnsCmp(([s[0]] + r)[j - 1].key, ([s[0]] + r)[j].key) <= 0 {
        if j > 1 {
          assert r[j - 2] == ([s[0]] + r)[j - 1];
        }
      }
    } else {
      forall j | 0 < j < |[x] + s| ensures DnsCmp(([x] + s)[j - 1].key, ([x] + s)[j].key) <= 0 {
        if j > 1 {
          assert s[j - 2] == ([x] + s)[j - 1];
        }
      }
    }
  }
}
