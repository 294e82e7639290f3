/**
  Collecting the keys of a combined hash (ngx_hash_add_key in ngx_hash.c): which
  patterns are accepted, which are refused or in conflict, and the form in which
  wildcard patterns are handed to the builder of the tries.
*/
module HashKeys {
  import opened Bytes
  import opened HashTable
  import opened Wildcard
  import opened DnsOrder

  const STAR: Byte := 42

  // ---------------------------------------------------- reading a pattern

  datatype Kind = Refused | ExactName | HeadWild(skip: nat) | TailWild

  function Stars(s: seq<Byte>): nat {
    if s == [] then 0 else Stars(s[..|s| - 1]) + if s[|s| - 1] == STAR then 1 else 0
  }

  predicate NoDoubleDot(s: seq<Byte>) {
    forall i :: 0 <= i < |s| - 1 ==> !(s[i] == DOT && s[i + 1] == DOT)
  }

  /** What a pattern is: ".S" and "*.S" are head wildcards, "P.*" is a tail wildcard. */
  ghost function KindOf(key: seq<Byte>): Kind {
    var n := |key|;
    if Stars(key) > 1 || !NoDoubleDot(key) || !NoNul(key) then Refused
    else if n > 1 && key[0] == DOT then HeadWild(1)
    else if n > 2 && key[0] == STAR && key[1] == DOT then HeadWild(2)
    else if n > 2 && key[n - 2] == DOT && key[n - 1] == STAR then TailWild
    else if Stars(key) > 0 then Refused
    else ExactName
  }

  lemma {:induction false} StarsPrefix(s: seq<Byte>, i: nat)
    requires i <= |s|
    ensures Stars(s[..i]) <= Stars(s)
  {
    if i == |s| {
      assert s[..i] == s;
    } else {
      StarsPrefix(s[..|s| - 1], i);
      assert s[..|s| - 1][..i] == s[..i];
    }
  }

  /** The first part of ngx_hash_add_key. */
  method Classify(key: seq<Byte>) returns (kind: Kind)
    ensures kind == KindOf(key)
  {
    var n := 0;
    for i := 0 to |key|
      invariant n == Stars(key[..i]) <= 1
      invariant forall j :: 0 <= j < i ==> key[j] != 0 && !(key[j] == DOT && CharAt(key, j + 1) == DOT)
    {
      assert key[..i + 1][..i] == key[..i];
      StarsPrefix(key, i + 1);
      if key[i] == STAR {
        n := n + 1;
        if n > 1 {
          return Refused;
        }
      }
      if key[i] == DOT && CharAt(key, i + 1) == DOT {
        return Refused;
      }
      if key[i] == 0 {
        return Refused;
      }
    }
    assert key[..|key|] == key;
    assert NoDoubleDot(key) by {
      forall i | 0 <= i < |key| - 1 ensures !(key[i] == DOT && key[i + 1] == DOT) {
        assert CharAt(key, i + 1) == key[i + 1];
      }
    }
    if |key| > 1 && key[0] == DOT {
      return HeadWild(1);
    }
    if |key| > 2 {
      if key[0] == STAR && key[1] == DOT {
        return HeadWild(2);
      }
      if key[|key| - 2] == DOT && key[|key| - 1] == STAR {
        return TailWild;
      }
    }
    if n > 0 {
      return Refused;
    }
    return ExactName;
  }

  // ------------------------------------------------ the form of head keys

  /** The key of the head trie for the suffix `s`: its labels in reverse, and a dot if only names below match. */
  function HeadKey(s: seq<Byte>, below: bool): seq<Byte> {
    Join(BackLabels(s)) + if below then [DOT] else []
  }

  lemma {:induction false} JoinSnoc(p: seq<Label>, a: Label)
    requires |p| > 0
    ensures Join(p + [a]) == Join(p) + [DOT] + a
  {
    if |p| == 1 {
      assert (p + [a])[1..] == [a];
    } else {
      assert (p + [a])[1..] == p[1..] + [a];
      JoinSnoc(p[1..], a);
    }
  }

  lemma BackLabelsOne(s: seq<Byte>)
    requires DotAt(s) == |s|
    ensures BackLabels(s) == [s]
  {
    LastStartUnique(s, 0);
  }

  /** A label put in front of a name comes last among its labels in reverse. */
  lemma BackLabelsCons(s: seq<Byte>, t: seq<Byte>)
    requires DotAt(s) < |s| && t == s[DotAt(s) + 1..]
    ensures BackLabels(s) == BackLabels(t) + [First(s)]
  {
    BackLabelsReverse(s);
    BackLabelsReverse(t);
    assert Labels(s)[1..] == Labels(t);
  }

  /** What the copying loop has written when it has read the string `t` backwards. */
  ghost function Written(t: seq<Byte>): seq<Byte> {
    if DotAt(t) == |t| then [] else Join(BackLabels(t[DotAt(t) + 1..])) + [DOT]
  }

  lemma WrittenAndPending(t: seq<Byte>)
    ensures Join(BackLabels(t)) == Written(t) + t[..DotAt(t)]
  {
    if DotAt(t) == |t| {
      BackLabelsOne(t);
      assert t[..DotAt(t)] == t;
    } else {
      var rest := t[DotAt(t) + 1..];
      BackLabelsCons(t, rest);
      JoinSnoc(BackLabels(rest), First(t));
    }
  }

  lemma WrittenDot(t: seq<Byte>)
    ensures DotAt([DOT] + t) == 0 && Written([DOT] + t) == Written(t) + t[..DotAt(t)] + [DOT]
  {
    assert ([DOT] + t)[1..] == t;
    WrittenAndPending(t);
  }

  lemma WrittenOther(c: Byte, t: seq<Byte>)
    requires c != DOT
    ensures DotAt([c] + t) == DotAt(t) + 1 && Written([c] + t) == Written(t)
  {
    assert ([c] + t)[1..] == t;
    if DotAt(t) < |t| {
      assert ([c] + t)[DotAt(t) + 2..] == t[DotAt(t) + 1..];
    }
  }

  lemma HeadKeyIsReversal(key: seq<Byte>, skip: nat)
    requires skip == 1 || skip == 2
    requires skip < |key| && key[skip - 1] == DOT
    ensures HeadKey(key[skip..], skip == 2) == Written(key[1..]) + key[1..][..DotAt(key[1..])]
  {
    WrittenAndPending(key[1..]);
    if skip == 2 {
      assert key[1..] == [DOT] + key[2..];
      WrittenDot(key[2..]);
      WrittenAndPending(key[2..]);
    }
  }

  lemma Slices(key: seq<Byte>, i: nat, len: nat)
    requires i + 1 + len <= |key|
    ensures key[i + 1..i + 1 + len] == key[i + 1..][..len]
    ensures key[i..] == [key[i]] + key[i + 1..]
  {
  }

  lemma ReverseStep(key: seq<Byte>, i: nat, len: nat)
    requires i < |key| && len == DotAt(key[i + 1..])
    ensures i + 1 + len <= |key|
    ensures key[i] == DOT ==>
              DotAt(key[i..]) == 0 && Written(key[i..]) == Written(key[i + 1..]) + key[i + 1..i + 1 + len] + [DOT]
    ensures key[i] != DOT ==> DotAt(key[i..]) == len + 1 && Written(key[i..]) == Written(key[i + 1..])
  {
    hide Written, DotAt;
    Slices(key, i, len);
    if key[i] == DOT {
      WrittenDot(key[i + 1..]);
    } else {
      WrittenOther(key[i], key[i + 1..]);
    }
  }

  lemma ReverseEnds(key: seq<Byte>, skip: nat)
    requires skip == 1 || skip == 2
    requires skip < |key| && key[skip - 1] == DOT
    ensures DotAt(key[|key|..]) == 0 && Written(key[|key|..]) == []
    ensures var len := DotAt(key[1..]);
            && 1 + len <= |key|
            && HeadKey(key[skip..], skip == 2) == if len > 0 then Written(key[1..]) + key[1..1 + len] else Written(key[1..])
  {
    HeadKeyIsReversal(key, skip);
    var len := DotAt(key[1..]);
    assert key[1..][..len] == key[1..1 + len];
    assert Written(key[1..]) + [] == Written(key[1..]);
  }

  /** The loop that turns "*.example.com" into "com.example." and ".example.com" into "com.example". */
  method ReverseKey(key: seq<Byte>, skip: nat) returns (p: seq<Byte>)
    requires skip == 1 || skip == 2
    requires skip < |key| && key[skip - 1] == DOT
    ensures p == HeadKey(key[skip..], skip == 2)
  {
    ReverseEnds(key, skip);
    hide HeadKey, Written, DotAt;
    p := [];
    var len, i := 0, |key| - 1;
    while i > 0
      invariant 0 <= i < |key| && len == DotAt(key[i + 1..]) && p == Written(key[i + 1..])
    {
      ReverseStep(key, i, len);
      if key[i] == DOT {
        p := p + key[i + 1..i + 1 + len] + [DOT];
        len := 0;
      } else {
        len := len + 1;
      }
      i := i - 1;
    }
    if len > 0 {
      p := p + key[1..1 + len];
    }
  }

  // ---------------------------------------------------- conflict registers

  /** An array of buckets of names, as keys_hash, dns_wc_head_hash and dns_wc_tail_hash. */
  type Register = seq<seq<seq<Byte>>>

  /** The remainder of `x` by `n`, by repeated subtraction. */
  ghost function Mod(x: nat, n: nat): (r: nat)
    requires n > 0
    ensures r < n
  {
    if x < n then x else Mod(x - n, n)
  }

  lemma RemainderUnique(x: nat, n: nat, q: nat, r: nat)
    requires n > 0 && x == q * n + r && r < n
    ensures x % n == r
  {
    MulMonotone(q, x / n, n);
    MulMonotone(x / n, q, n);
  }

  lemma {:induction false} ModIsRemainder(x: nat, n: nat)
    requires n > 0
    ensures Mod(x, n) == x % n
  {
    if x >= n {
      ModIsRemainder(x - n, n);
      assert x == (x - n) / n * n + n + (x - n) % n;
      RemainderUnique(x, n, (x - n) / n + 1, (x - n) % n);
    }
  }

  ghost function Slot(name: seq<Byte>, hsize: nat): (k: nat)
    requires hsize > 0
    ensures k < hsize
  {
    Mod(HashKey(name), hsize)
  }

  /** The register holds exactly `names`, each followed by `end`, in the bucket of its hash. */
  ghost predicate Registers(reg: Register, names: set<seq<Byte>>, end: seq<Byte>) {
    && |reg| > 0
    && (forall name :: name in names ==> name + end in reg[Slot(name, |reg|)])
    && (forall name, k :: 0 <= k < |reg| && name + end in reg[k] ==> name in names && k == Slot(name, |reg|))
  }

  /** What the conflict loops look for: an entry that C's strncmp cannot tell from `w`. */
  ghost predicate Clash(bucket: seq<seq<Byte>>, w: seq<Byte>) {
    exists i :: 0 <= i < |bucket| && |bucket[i]| == |w| && StrnEqual(w, bucket[i], |w|)
  }

  method FindClash(bucket: seq<seq<Byte>>, w: seq<Byte>) returns (found: bool)
    ensures found <==> Clash(bucket, w)
  {
    for i := 0 to |bucket|
      invariant forall j :: 0 <= j < i ==> !(|bucket[j]| == |w| && StrnEqual(w, bucket[j], |w|))
    {
      if |w| == |bucket[i]| && StrnEqual(w, bucket[i], |w|) {
        return true;
      }
    }
    return false;
  }

  lemma {:induction false} StrnEqualSelf(w: seq<Byte>, n: nat)
    ensures StrnEqual(w, w, n)
  {
    if n > 0 && w != [] {
      StrnEqualSelf(w[1..], n - 1);
    }
  }

  /** Equal names always clash, and without NUL bytes nothing else does. */
  lemma ClashIsMembership(bucket: seq<seq<Byte>>, w: seq<Byte>)
    ensures w in bucket ==> Clash(bucket, w)
    ensures NoNul(w) && Clash(bucket, w) ==> w in bucket
  {
    if w in bucket {
      var i :| 0 <= i < |bucket| && bucket[i] == w;
      StrnEqualSelf(w, |w|);
      assert StrnEqual(w, bucket[i], |w|);
    }
    if NoNul(w) && Clash(bucket, w) {
      var i :| 0 <= i < |bucket| && |bucket[i]| == |w| && StrnEqual(w, bucket[i], |w|);
      StrnEqualIsPrefix(w, bucket[i], |w|);
      assert w == w[..|w|] == bucket[i][..|w|] == bucket[i];
    }
  }

  /** A name of the set that the conflict loop cannot tell from `name`: same slot, same length, same C string. */
  ghost predicate LooksTaken(names: set<seq<Byte>>, name: seq<Byte>, hsize: nat)
    requires hsize > 0
  {
    exists n :: n in names && Slot(n, hsize) == Slot(name, hsize) && |n| == |name| && CString(n) == CString(name)
  }

  /** Without NUL bytes that is the name itself. */
  lemma LooksTakenIsTaken(names: set<seq<Byte>>, name: seq<Byte>, hsize: nat)
    requires hsize > 0
    ensures name in names ==> LooksTaken(names, name, hsize)
    ensures NoNul(name) ==> (LooksTaken(names, name, hsize) <==> name in names)
  {
    if NoNul(name) && LooksTaken(names, name, hsize) {
      var n :| n in names && Slot(n, hsize) == Slot(name, hsize) && |n| == |name| && CString(n) == CString(name);
      CStringWhole(name, n);
    }
  }

  /** The conflict loop for exact names, with or without NUL bytes. */
  lemma ClashIsLooksTaken(reg: Register, names: set<seq<Byte>>, name: seq<Byte>)
    requires Registers(reg, names, [])
    ensures Clash(reg[Slot(name, |reg|)], name) <==> LooksTaken(names, name, |reg|)
  {
    var k := Slot(name, |reg|);
    if Clash(reg[k], name) {
      var i :| 0 <= i < |reg[k]| && |reg[k][i]| == |name| && StrnEqual(name, reg[k][i], |name|);
      var n := reg[k][i];
      StrnEqualIsCString(name, n);
      assert n + [] == n && n + [] in reg[k];
    }
    if LooksTaken(names, name, |reg|) {
      var n :| n in names && Slot(n, |reg|) == k && |n| == |name| && CString(n) == CString(name);
      assert n + [] == n && n + [] in reg[k];
      StrnEqualIsCString(name, n);
    }
  }

  lemma RegisterDecides(reg: Register, names: set<seq<Byte>>, end: seq<Byte>, name: seq<Byte>)
    requires Registers(reg, names, end)
    ensures name + end in reg[Slot(name, |reg|)] <==> name in names
  {
  }

  lemma SameStem(a: seq<Byte>, b: seq<Byte>, end: seq<Byte>)
    ensures a + end == b + end <==> a == b
  {
    if a + end == b + end {
      assert |a| == |b|;
      assert a == (a + end)[..|a|] == (b + end)[..|b|] == b;
    }
  }

  lemma RegisterAdd(reg: Register, names: set<seq<Byte>>, end: seq<Byte>, name: seq<Byte>, k: nat)
    requires Registers(reg, names, end) && k == Slot(name, |reg|)
    ensures Registers(reg[k := reg[k] + [name + end]], names + {name}, end)
  {
    var reg' := reg[k := reg[k] + [name + end]];
    forall n | n in names + {name} ensures n + end in reg'[Slot(n, |reg'|)] {}
    forall n, k' | 0 <= k' < |reg'| && n + end in reg'[k']
      ensures n in names + {name} && k' == Slot(n, |reg'|)
    {
      SameStem(n, name, end);
    }
  }

  // ---------------------------------------------------- accepted patterns

  datatype Pattern<V> =
    | Exact(name: seq<Byte>, value: V)
    | Head(suffix: seq<Byte>, below: bool, value: V)
    | Tail(prefix: seq<Byte>, value: V)

  ghost function Exacts<V>(acc: seq<Pattern<V>>): set<seq<Byte>> {
    if acc == [] then {}
    else Exacts(acc[..|acc| - 1]) + var p := acc[|acc| - 1]; if p.Exact? then {p.name} else {}
  }

  ghost function Dots<V>(acc: seq<Pattern<V>>): set<seq<Byte>> {
    if acc == [] then {}
    else Dots(acc[..|acc| - 1]) + var p := acc[|acc| - 1]; if p.Head? && !p.below then {p.suffix} else {}
  }

  ghost function Heads<V>(acc: seq<Pattern<V>>): set<seq<Byte>> {
    if acc == [] then {}
    else Heads(acc[..|acc| - 1]) + var p := acc[|acc| - 1]; if p.Head? then {p.suffix} else {}
  }

  ghost function Tails<V>(acc: seq<Pattern<V>>): set<seq<Byte>> {
    if acc == [] then {}
    else Tails(acc[..|acc| - 1]) + var p := acc[|acc| - 1]; if p.Tail? then {p.prefix} else {}
  }

  lemma SetsAfterAdd<V>(acc: seq<Pattern<V>>, p: Pattern<V>)
    ensures Exacts(acc + [p]) == Exacts(acc) + if p.Exact? then {p.name} else {}
    ensures Dots(acc + [p]) == Dots(acc) + if p.Head? && !p.below then {p.suffix} else {}
    ensures Heads(acc + [p]) == Heads(acc) + if p.Head? then {p.suffix} else {}
    ensures Tails(acc + [p]) == Tails(acc) + if p.Tail? then {p.prefix} else {}
  {
    assert (acc + [p])[..|acc|] == acc;
  }

  lemma {:induction false} InSets<V>(acc: seq<Pattern<V>>, i: nat)
    requires i < |acc|
    ensures acc[i].Exact? ==> acc[i].name in Exacts(acc)
    ensures acc[i].Head? ==> acc[i].suffix in Heads(acc)
    ensures acc[i].Head? && !acc[i].below ==> acc[i].suffix in Dots(acc)
    ensures acc[i].Tail? ==> acc[i].prefix in Tails(acc)
  {
    if i < |acc| - 1 {
      InSets(acc[..|acc| - 1], i);
    }
  }

  /** The array of exact keys that a run of accepted patterns leaves, in order. */
  ghost function ExactKeys<V>(acc: seq<Pattern<V>>): seq<Key<V>> {
    if acc == [] then []
    else
      var p := acc[|acc| - 1];
      ExactKeys(acc[..|acc| - 1]) + if p.Exact? then [Key(Some(p.name), HashKey(p.name), p.value)] else []
  }

  ghost function HeadKeys<V>(acc: seq<Pattern<V>>): seq<WcKey<V>> {
    if acc == [] then []
    else
      var p := acc[|acc| - 1];
      HeadKeys(acc[..|acc| - 1]) + if p.Head? then [WcKey(HeadKey(p.suffix, p.below), p.value)] else []
  }

  ghost function TailKeys<V>(acc: seq<Pattern<V>>): seq<WcKey<V>> {
    if acc == [] then []
    else
      var p := acc[|acc| - 1];
      TailKeys(acc[..|acc| - 1]) + if p.Tail? then [WcKey(p.prefix, p.value)] else []
  }

  /** Two patterns that must not both be accepted; ".S" also stands for the name S. */
  ghost predicate Conflict<V>(p: Pattern<V>, q: Pattern<V>) {
    match (p, q)
    case (Exact(n, _), Exact(m, _)) => n == m
    case (Exact(n, _), Head(s, below, _)) => !below && n == s
    case (Head(s, below, _), Exact(n, _)) => !below && n == s
    case (Head(s, _, _), Head(t, _, _)) => s == t
    case (Tail(s, _), Tail(t, _)) => s == t
    case _ => false
  }

  ghost predicate NoConflicts<V>(acc: seq<Pattern<V>>) {
    forall i, j :: 0 <= i < j < |acc| ==> !Conflict(acc[i], acc[j])
  }

  /** The stem of an accepted wildcard: a lower-cased C string whose labels are not empty. */
  ghost predicate GoodStem(s: seq<Byte>) {
    s != [] && s[0] != DOT && NoDoubleDot(s) && NoNul(s) && Lower(s) == s
  }

  ghost predicate GoodPattern<V>(p: Pattern<V>) {
    match p
    case Exact(_, _) => true
    case Head(s, _, _) => GoodStem(s)
    case Tail(s, _) => GoodStem(s) && s[|s| - 1] != DOT
  }

  lemma NoConflictsAdd<V>(acc: seq<Pattern<V>>, p: Pattern<V>)
    requires NoConflicts(acc)
    requires p.Exact? ==> p.name !in Exacts(acc) + Dots(acc)
    requires p.Head? ==> p.suffix !in Heads(acc) && (p.below || p.suffix !in Exacts(acc))
    requires p.Tail? ==> p.prefix !in Tails(acc)
    ensures NoConflicts(acc + [p])
  {
    forall i | 0 <= i < |acc| ensures !Conflict(acc[i], p) {
      InSets(acc, i);
    }
  }

  /** The contents of ngx_hash_keys_arrays_t. */
  datatype KeySets<V> = KeySets(keys: seq<Key<V>>, head: seq<WcKey<V>>, tail: seq<WcKey<V>>,
                                keysHash: Register, headHash: Register, tailHash: Register)

  /** The three arrays hold the accepted patterns, in the order of acceptance. */
  ghost predicate Arrays<V>(a: KeySets<V>, acc: seq<Pattern<V>>) {
    a.keys == ExactKeys(acc) && a.head == HeadKeys(acc) && a.tail == TailKeys(acc)
  }

  ghost predicate GoodPatterns<V>(acc: seq<Pattern<V>>) {
    NoConflicts(acc) && forall i :: 0 <= i < |acc| ==> GoodPattern(acc[i])
  }

  /** The names that keys_hash must hold; `stray` are those that a refused ".S" has left there. */
  ghost function Taken<V>(acc: seq<Pattern<V>>, stray: set<seq<Byte>>): set<seq<Byte>> {
    Exacts(acc) + Dots(acc) + stray
  }

  ghost predicate RegistersAll<V>(a: KeySets<V>, acc: seq<Pattern<V>>, stray: set<seq<Byte>>) {
    && Registers(a.keysHash, Taken(acc, stray), [])
    && Registers(a.headHash, Heads(acc), [])
    && Registers(a.tailHash, Tails(acc), [DOT])
    && stray <= Heads(acc)
  }

  ghost predicate Consistent<V>(a: KeySets<V>, acc: seq<Pattern<V>>, stray: set<seq<Byte>>) {
    Arrays(a, acc) && GoodPatterns(acc) && RegistersAll(a, acc, stray)
  }

  lemma ArraysAdd<V>(acc: seq<Pattern<V>>, p: Pattern<V>)
    ensures ExactKeys(acc + [p]) == ExactKeys(acc) + if p.Exact? then [Key(Some(p.name), HashKey(p.name), p.value)] else []
    ensures HeadKeys(acc + [p]) == HeadKeys(acc) + if p.Head? then [WcKey(HeadKey(p.suffix, p.below), p.value)] else []
    ensures TailKeys(acc + [p]) == TailKeys(acc) + if p.Tail? then [WcKey(p.prefix, p.value)] else []
  {
    assert (acc + [p])[..|acc|] == acc;
  }

  lemma GoodPatternsAdd<V>(acc: seq<Pattern<V>>, stray: set<seq<Byte>>, p: Pattern<V>)
    requires GoodPatterns(acc) && GoodPattern(p)
    requires p.Exact? ==> p.name !in Taken(acc, stray)
    requires p.Head? ==> p.suffix !in Heads(acc) && (p.below || p.suffix !in Taken(acc, stray))
    requires p.Tail? ==> p.prefix !in Tails(acc)
    ensures GoodPatterns(acc + [p])
  {
    NoConflictsAdd(acc, p);
  }

  lemma SetsStep<V>(acc: seq<Pattern<V>>, stray: set<seq<Byte>>, p: Pattern<V>)
    ensures Heads(acc + [p]) == Heads(acc) + if p.Head? then {p.suffix} else {}
    ensures Tails(acc + [p]) == Tails(acc) + if p.Tail? then {p.prefix} else {}
    ensures Taken(acc + [p], stray) == Taken(acc, stray) +
            if p.Exact? then {p.name} else if p.Head? && !p.below then {p.suffix} else {}
  {
    SetsAfterAdd(acc, p);
  }

  lemma RegistersStep<V>(a: KeySets<V>, acc: seq<Pattern<V>>, stray: set<seq<Byte>>,
                         taken: set<seq<Byte>>, heads: set<seq<Byte>>, tails: set<seq<Byte>>)
    requires taken == Taken(acc, stray) && heads == Heads(acc) && tails == Tails(acc) && stray <= heads
    requires Registers(a.keysHash, taken, []) && Registers(a.headHash, heads, []) && Registers(a.tailHash, tails, [DOT])
    ensures RegistersAll(a, acc, stray)
  {
  }

  /** The test both conflict loops make decides membership, for names without NUL bytes. */
  lemma TestDecidesTaken(reg: Register, names: set<seq<Byte>>, end: seq<Byte>, name: seq<Byte>)
    requires Registers(reg, names, end) && NoNul(end)
    ensures name in names ==> Clash(reg[Slot(name, |reg|)], name + end)
    ensures NoNul(name) ==> (Clash(reg[Slot(name, |reg|)], name + end) <==> name in names)
  {
    RegisterDecides(reg, names, end, name);
    ClashIsMembership(reg[Slot(name, |reg|)], name + end);
  }

  // ------------------------------------------------------ ngx_hash_add_key

  datatype Code = OK | DECLINED | BUSY

  /** One conflict check: looks `name` up in the register and, unless it is there, enters it. */
  method Enter(reg: Register, ghost names: set<seq<Byte>>, name: seq<Byte>, end: seq<Byte>)
    returns (busy: bool, reg': Register)
    requires Registers(reg, names, end) && NoNul(end)
    ensures NoNul(name) ==> (busy <==> name in names)
    ensures end == [] ==> (busy <==> LooksTaken(names, name, |reg|))
    ensures |reg'| == |reg| && Registers(reg', if busy then names else names + {name}, end)
  {
    hide Clash, LooksTaken;
    var key := ComputeKey(name);
    var k := key % |reg|;
    ModIsRemainder(key, |reg|);
    TestDecidesTaken(reg, names, end, name);
    if end == [] {
      ClashIsLooksTaken(reg, names, name);
      assert name + end == name;
    }
    busy := FindClash(reg[k], name + end);
    reg' := reg;
    if !busy {
      RegisterAdd(reg, names, end, name, k);
      reg' := reg[k := reg[k] + [name + end]];
    }
  }

  /** The names left in keys_hash for no accepted pattern, after a head wildcard was in conflict. */
  ghost function StrayAfter<V>(acc: seq<Pattern<V>>, stray: set<seq<Byte>>, s: seq<Byte>, skip: nat): set<seq<Byte>> {
    if skip == 1 && s !in Taken(acc, stray) then stray + {s} else stray
  }

  /** The pattern is in conflict with what the registers hold. */
  ghost predicate Conflicts<V>(acc: seq<Pattern<V>>, stray: set<seq<Byte>>, p: Pattern<V>) {
    match p
    case Exact(n, _) => n in Taken(acc, stray)
    case Head(s, below, _) => (!below && s in Taken(acc, stray)) || s in Heads(acc)
    case Tail(s, _) => s in Tails(acc)
  }

  /** The names left behind by a call that reported a conflict. */
  ghost function StrayAfterBusy<V>(acc: seq<Pattern<V>>, stray: set<seq<Byte>>, p: Pattern<V>): set<seq<Byte>> {
    if p.Head? && !p.below then StrayAfter(acc, stray, p.suffix, 1) else stray
  }

  /** The pattern is reported as a conflict: an exact name also when a registered one only looks the same. */
  ghost predicate Reported<V>(acc: seq<Pattern<V>>, stray: set<seq<Byte>>, p: Pattern<V>, hsize: nat)
    requires hsize > 0
  {
    Conflicts(acc, stray, p) || (p.Exact? && LooksTaken(Taken(acc, stray), p.name, hsize))
  }

  /** Without NUL bytes every conflict reported is one. */
  lemma ReportedIsConflict<V>(acc: seq<Pattern<V>>, stray: set<seq<Byte>>, p: Pattern<V>, hsize: nat)
    requires hsize > 0 && (p.Exact? ==> NoNul(p.name))
    ensures Reported(acc, stray, p, hsize) <==> Conflicts(acc, stray, p)
  {
    if p.Exact? {
      LooksTakenIsTaken(Taken(acc, stray), p.name, hsize);
    }
  }

  /** What adding the pattern `p` must do: report a conflict or take it in. */
  ghost predicate Added<V>(acc: seq<Pattern<V>>, stray: set<seq<Byte>>, p: Pattern<V>, rc: Code, a: KeySets<V>) {
    && rc != DECLINED && |a.keysHash| > 0
    && (rc == BUSY <==> Reported(acc, stray, p, |a.keysHash|))
    && (rc == OK ==> Consistent(a, acc + [p], stray))
    && (rc == BUSY ==> Consistent(a, acc, StrayAfterBusy(acc, stray, p)))
  }

  /** Appending one pattern to the right array and to the right registers. */
  lemma StepConsistent<V>(a: KeySets<V>, a': KeySets<V>, acc: seq<Pattern<V>>, stray: set<seq<Byte>>, p: Pattern<V>,
                          taken: set<seq<Byte>>, heads: set<seq<Byte>>, tails: set<seq<Byte>>)
    requires Arrays(a, acc) && GoodPatterns(acc) && GoodPattern(p) && stray <= Heads(acc)
    requires p.Exact? ==> p.name !in Taken(acc, stray)
    requires p.Head? ==> p.suffix !in Heads(acc) && (p.below || p.suffix !in Taken(acc, stray))
    requires p.Tail? ==> p.prefix !in Tails(acc)
    requires a'.keys == a.keys + if p.Exact? then [Key(Some(p.name), HashKey(p.name), p.value)] else []
    requires a'.head == a.head + if p.Head? then [WcKey(HeadKey(p.suffix, p.below), p.value)] else []
    requires a'.tail == a.tail + if p.Tail? then [WcKey(p.prefix, p.value)] else []
    requires taken == Taken(acc, stray) +
             if p.Exact? then {p.name} else if p.Head? && !p.below then {p.suffix} else {}
    requires heads == Heads(acc) + if p.Head? then {p.suffix} else {}
    requires tails == Tails(acc) + if p.Tail? then {p.prefix} else {}
    requires Registers(a'.keysHash, taken, []) && Registers(a'.headHash, heads, []) && Registers(a'.tailHash, tails, [DOT])
    ensures Consistent(a', acc + [p], stray)
  {
    ArraysAdd(acc, p);
    GoodPatternsAdd(acc, stray, p);
    SetsStep(acc, stray, p);
    RegistersStep(a', acc + [p], stray, taken, heads, tails);
  }

  lemma ExactBusy<V>(a: KeySets<V>, acc: seq<Pattern<V>>, stray: set<seq<Byte>>, name: seq<Byte>, value: V)
    requires Consistent(a, acc, stray) && |a.keysHash| > 0 && LooksTaken(Taken(acc, stray), name, |a.keysHash|)
    ensures Added(acc, stray, Exact(name, value), BUSY, a)
  {
    hide LooksTaken, Consistent, Taken;
  }

  lemma ExactTaken<V>(a: KeySets<V>, reg: Register, acc: seq<Pattern<V>>, stray: set<seq<Byte>>, name: seq<Byte>, value: V)
    requires Consistent(a, acc, stray) && 0 < |reg| == |a.keysHash| && !LooksTaken(Taken(acc, stray), name, |reg|)
    requires Registers(reg, Taken(acc, stray) + {name}, [])
    ensures var a' := a.(keysHash := reg, keys := a.keys + [Key(Some(name), HashKey(name), value)]);
            Added(acc, stray, Exact(name, value), OK, a')
  {
    LooksTakenIsTaken(Taken(acc, stray), name, |reg|);
    var p := Exact(name, value);
    var a' := a.(keysHash := reg, keys := a.keys + [Key(Some(name), HashKey(name), value)]);
    assert GoodPattern(p) && !Reported(acc, stray, p, |reg|);
    assert Consistent(a', acc + [p], stray) by {
      assert Arrays(a, acc) && GoodPatterns(acc) && RegistersAll(a, acc, stray);
      hide LooksTaken, Registers, HashKey, Taken, GoodPatterns, Arrays, Heads, Tails, Consistent;
      StepConsistent(a, a', acc, stray, p, Taken(acc, stray) + {name}, Heads(acc), Tails(acc));
    }
    hide Reported, Consistent;
  }

  /** The exact branch. */
  method AddExact<V>(a: KeySets<V>, ghost acc: seq<Pattern<V>>, ghost stray: set<seq<Byte>>, name: seq<Byte>, value: V)
    returns (rc: Code, a': KeySets<V>)
    requires Consistent(a, acc, stray)
    ensures Added(acc, stray, Exact(name, value), rc, a') && |a'.keysHash| == |a.keysHash|
  {
    hide LooksTaken, Added, HashKey, Taken;
    var busy, reg := Enter(a.keysHash, Taken(acc, stray), name, []);
    if busy {
      ExactBusy(a, acc, stray, name, value);
      return BUSY, a;
    }
    var key := ComputeKey(name);
    ExactTaken(a, reg, acc, stray, name, value);
    return OK, a.(keysHash := reg, keys := a.keys + [Key(Some(name), key, value)]);
  }

  /** Lower-casing leaves dots, and the absence of NUL bytes, as they are. */
  lemma LowerKeepsDots(s: seq<Byte>)
    ensures Lower(Lower(s)) == Lower(s)
    ensures forall i :: 0 <= i < |s| ==> (Lower(s)[i] == DOT <==> s[i] == DOT)
    ensures NoNul(s) ==> NoNul(Lower(s))
    ensures NoDoubleDot(s) ==> NoDoubleDot(Lower(s))
  {
  }

  lemma HeadStemGood(key: seq<Byte>, skip: nat)
    requires KindOf(key) == HeadWild(skip)
    ensures (skip == 1 || skip == 2) && skip < |key| && key[skip - 1] == DOT
    ensures GoodStem(Lower(key[skip..]))
  {
    var s := key[skip..];
    forall i | 0 <= i < |s| - 1 ensures !(s[i] == DOT && s[i + 1] == DOT) {
      assert s[i] == key[skip + i] && s[i + 1] == key[skip + i + 1];
    }
    assert !(key[skip - 1] == DOT && key[skip - 1 + 1] == DOT);
    LowerKeepsDots(s);
  }

  lemma TailStemGood(key: seq<Byte>)
    requires KindOf(key) == TailWild
    ensures |key| > 2
    ensures var s := Lower(key[..|key| - 2]); GoodStem(s) && s[|s| - 1] != DOT
  {
    var n := |key| - 2;
    var s := key[..n];
    assert key[n - 1 + 1] == DOT && key[n - 1] != DOT;
    forall i | 0 <= i < |s| - 1 ensures !(s[i] == DOT && s[i + 1] == DOT) {
      assert s[i] == key[i] && s[i + 1] == key[i + 1];
    }
    LowerKeepsDots(s);
  }

  lemma StemHasNoNul(s: seq<Byte>)
    requires GoodStem(s)
    ensures NoNul(s)
  {
  }

  ghost function TakenAfter(taken: set<seq<Byte>>, s: seq<Byte>, skip: nat): set<seq<Byte>> {
    taken + if skip == 1 then {s} else {}
  }

  /** The two conflict checks for a head wildcard; the first is for ".S" only and enters S before the second is made. */
  method EnterHead(keysHash: Register, ghost taken: set<seq<Byte>>, headHash: Register, ghost heads: set<seq<Byte>>,
                   s: seq<Byte>, skip: nat)
    returns (rc: Code, kh: Register, hh: Register)
    requires Registers(keysHash, taken, []) && Registers(headHash, heads, []) && NoNul(s)
    ensures rc == if (skip == 1 && s in taken) || s in heads then BUSY else OK
    ensures |kh| == |keysHash| > 0 && Registers(kh, TakenAfter(taken, s, skip), [])
    ensures rc == OK ==> Registers(hh, heads + {s}, [])
  {
    hide LooksTaken;
    kh, hh := keysHash, headHash;
    assert skip != 1 || s in taken ==> TakenAfter(taken, s, skip) == taken;
    var busy := false;
    if skip == 1 {
      busy, kh := Enter(keysHash, taken, s, []);
    }
    if !busy {
      busy, hh := Enter(headHash, heads, s, []);
    }
    rc := if busy then BUSY else OK;
  }

  lemma BusyConsistent<V>(a: KeySets<V>, a': KeySets<V>, acc: seq<Pattern<V>>, stray: set<seq<Byte>>,
                          s: seq<Byte>, skip: nat)
    requires Consistent(a, acc, stray) && a' == a.(keysHash := a'.keysHash)
    requires (skip == 1 && s in Taken(acc, stray)) || s in Heads(acc)
    requires Registers(a'.keysHash, TakenAfter(Taken(acc, stray), s, skip), [])
    ensures Consistent(a', acc, StrayAfter(acc, stray, s, skip))
  {
    var stray' := StrayAfter(acc, stray, s, skip);
    assert TakenAfter(Taken(acc, stray), s, skip) == Taken(acc, stray');
    RegistersStep(a', acc, stray', TakenAfter(Taken(acc, stray), s, skip), Heads(acc), Tails(acc));
  }

  /** The branch for ".S" (skip 1) and "*.S" (skip 2); `key` has S in lower case. */
  method AddHead<V>(a: KeySets<V>, ghost acc: seq<Pattern<V>>, ghost stray: set<seq<Byte>>,
                    key: seq<Byte>, skip: nat, value: V)
    returns (rc: Code, a': KeySets<V>)
    requires Consistent(a, acc, stray)
    requires (skip == 1 || skip == 2) && skip < |key| && key[skip - 1] == DOT && GoodStem(key[skip..])
    ensures Added(acc, stray, Head(key[skip..], skip == 2, value), rc, a') && |a'.keysHash| == |a.keysHash|
  {
    hide LooksTaken, Registers, GoodStem;
    var s := key[skip..];
    StemHasNoNul(s);
    var kh, hh;
    rc, kh, hh := EnterHead(a.keysHash, Taken(acc, stray), a.headHash, Heads(acc), s, skip);
    if rc == BUSY {
      a' := a.(keysHash := kh);
      BusyConsistent(a, a', acc, stray, s, skip);
      return;
    }
    var p := ReverseKey(key, skip);
    a' := a.(keysHash := kh, headHash := hh, head := a.head + [WcKey(p, value)]);
    StepConsistent(a, a', acc, stray, Head(s, skip == 2, value), TakenAfter(Taken(acc, stray), s, skip),
                   Heads(acc) + {s}, Tails(acc));
  }

  /** The branch for "P.*", with P in lower case. */
  method AddTail<V>(a: KeySets<V>, ghost acc: seq<Pattern<V>>, ghost stray: set<seq<Byte>>, s: seq<Byte>, value: V)
    returns (rc: Code, a': KeySets<V>)
    requires Consistent(a, acc, stray) && GoodStem(s) && s[|s| - 1] != DOT
    ensures Added(acc, stray, Tail(s, value), rc, a') && |a'.keysHash| == |a.keysHash|
  {
    var busy, reg := Enter(a.tailHash, Tails(acc), s, [DOT]);
    if busy {
      return BUSY, a;
    }
    rc, a' := OK, a.(tailHash := reg, tail := a.tail + [WcKey(s, value)]);
    StepConsistent(a, a', acc, stray, Tail(s, value), Taken(acc, stray), Heads(acc), Tails(acc) + {s});
  }

  /** How ngx_hash_add_key reads a key, if it does not decline it; flags are NGX_HASH_WILDCARD_KEY and _READONLY_KEY. */
  ghost function Reading<V>(key: seq<Byte>, value: V, wildcard: bool, readonly: bool): Option<Pattern<V>> {
    match if wildcard then KindOf(key) else ExactName
    case Refused => None
    case HeadWild(skip) =>
      if skip > |key| then None else Some(Head(Lower(key[skip..]), skip == 2, value))
    case TailWild =>
      if |key| < 2 then None else Some(Tail(Lower(key[..|key| - 2]), value))
    case ExactName => Some(Exact(if readonly then key else Lower(key), value))
  }

  // ------------------------------------------- what a key reads as, as a string

  /** Two stars somewhere in the string. */
  ghost predicate TwoStars(s: seq<Byte>) {
    exists i, j :: 0 <= i < j < |s| && s[i] == 42 && s[j] == 42
  }

  lemma StarsAt(s: seq<Byte>, i: nat, j: nat)
    requires i < j < |s|
    ensures s[i] == 42 && s[j] == 42 ==> TwoStars(s)
  {
  }

  lemma TwoStarsStep(s: seq<Byte>, n: nat)
    requires n + 1 == |s|
    ensures TwoStars(s) <==> TwoStars(s[..n]) || (s[n] == 42 && 42 in s[..n])
  {
    if TwoStars(s[..n]) {
      var i, j :| 0 <= i < j < n && s[..n][i] == 42 && s[..n][j] == 42;
      StarsAt(s, i, j);
    }
    if s[n] == 42 && 42 in s[..n] {
      var i :| 0 <= i < n && s[..n][i] == 42;
      StarsAt(s, i, n);
    }
    if TwoStars(s) {
      var i, j :| 0 <= i < j < |s| && s[i] == 42 && s[j] == 42;
      assert s[..n][i] == 42;
      if j < n {
        StarsAt(s[..n], i, j);
      }
    }
  }

  lemma {:induction false} StarsMeans(s: seq<Byte>)
    ensures Stars(s) == 0 <==> 42 !in s
    ensures Stars(s) > 1 <==> TwoStars(s)
  {
    if s != [] {
      var n := |s| - 1;
      StarsMeans(s[..n]);
      TwoStarsStep(s, n);
      assert s == s[..n] + [s[n]];
    }
  }

  /** No NUL byte, no two dots in a row and no two stars. */
  ghost predicate Sound(key: seq<Byte>) {
    && 0 !in key && !TwoStars(key)
    && forall i :: 0 <= i < |key| - 1 ==> !(key[i] == 46 && key[i + 1] == 46)
  }

  lemma SoundMeans(key: seq<Byte>)
    ensures Sound(key) <==> Stars(key) <= 1 && NoDoubleDot(key) && NoNul(key)
  {
    StarsMeans(key);
  }

  /** ".S" */
  lemma DotReads<V>(s: seq<Byte>, v: V, readonly: bool)
    requires s != [] && Sound([46] + s)
    ensures Reading([46] + s, v, true, readonly) == Some(Head(Lower(s), false, v))
  {
    SoundMeans([46] + s);
    assert ([46] + s)[1..] == s;
  }

  /** "*.S" */
  lemma StarDotReads<V>(s: seq<Byte>, v: V, readonly: bool)
    requires s != [] && Sound([42, 46] + s)
    ensures Reading([42, 46] + s, v, true, readonly) == Some(Head(Lower(s), true, v))
  {
    SoundMeans([42, 46] + s);
    assert ([42, 46] + s)[2..] == s;
  }

  /** "P.*" */
  lemma TailReads<V>(p: seq<Byte>, v: V, readonly: bool)
    requires p != [] && p[0] != 46 && Sound(p + [46, 42])
    ensures Reading(p + [46, 42], v, true, readonly) == Some(Tail(Lower(p), v))
  {
    var key := p + [46, 42];
    SoundMeans(key);
    assert key[..|key| - 2] == p && key[|key| - 2] == 46 && key[|key| - 1] == 42;
    StarsAt(key, 0, |key| - 1);
  }

  /** The string is `a`, something, and `b`. */
  ghost predicate Around(key: seq<Byte>, a: seq<Byte>, b: seq<Byte>) {
    exists s :: s != [] && key == a + s + b
  }

  lemma AroundMeans(key: seq<Byte>, a: seq<Byte>, b: seq<Byte>)
    ensures Around(key, a, b) <==> |key| > |a| + |b| && a <= key && key[|key| - |b|..] == b
  {
    if |key| > |a| + |b| && a <= key && key[|key| - |b|..] == b {
      var s := key[|a|..|key| - |b|];
      assert key == a + s + b;
    }
  }

  lemma WildForms(key: seq<Byte>)
    ensures Around(key, [46], []) <==> |key| > 1 && key[0] == 46
    ensures Around(key, [42, 46], []) <==> |key| > 2 && key[0] == 42 && key[1] == 46
    ensures Around(key, [], [46, 42]) <==> |key| > 2 && key[|key| - 2] == 46 && key[|key| - 1] == 42
  {
    AroundMeans(key, [46], []);
    AroundMeans(key, [42, 46], []);
    AroundMeans(key, [], [46, 42]);
    assert key[|key|..] == [];
    assert |key| > 1 ==> ([46] <= key <==> key[0] == 46);
    assert |key| > 2 ==> ([42, 46] <= key <==> key[0] == 42 && key[1] == 46);
    assert |key| > 2 ==> key[|key| - 2..] == [key[|key| - 2], key[|key| - 1]];
  }

  /**
    Which other keys are accepted: without wildcards every key is an exact name; with
    them a sound one is, if it has no star and is not ".S".  Every key with a star that
    is of none of the three forms is declined, and so is every key that is not sound.
  */
  lemma OtherReads<V>(key: seq<Byte>, v: V, readonly: bool)
    ensures Reading(key, v, false, readonly) == Some(Exact(if readonly then key else Lower(key), v))
    ensures Sound(key) && 42 !in key && !Around(key, [46], []) ==>
              Reading(key, v, true, readonly) == Some(Exact(if readonly then key else Lower(key), v))
    ensures Reading(key, v, true, readonly).None? <==>
            || !Sound(key)
            || (42 in key && !Around(key, [46], []) && !Around(key, [42, 46], []) && !Around(key, [], [46, 42]))
  {
    SoundMeans(key);
    StarsMeans(key);
    WildForms(key);
    hide Sound, Around, Stars, NoDoubleDot;
  }

  /** What the call leaves in the caller's string: it is put in lower case there, as far as it is read. */
  ghost function Lowered<V>(key: seq<Byte>, r: Option<Pattern<V>>, readonly: bool): seq<Byte> {
    if r.None? || (r.value.Exact? && readonly) then key else Lower(key)
  }

  lemma LowerHead(key: seq<Byte>, skip: nat)
    requires KindOf(key) == HeadWild(skip)
    ensures skip <= |key| && key[..skip] + Lower(key[skip..]) == Lower(key)
  {
  }

  lemma LowerTail(key: seq<Byte>)
    requires KindOf(key) == TailWild
    ensures |key| > 2 && Lower(key[..|key| - 2]) + key[|key| - 2..] == Lower(key)
  {
  }

  /** ngx_hash_add_key. */
  method AddKey<V>(a: KeySets<V>, ghost acc: seq<Pattern<V>>, ghost stray: set<seq<Byte>>,
                   key: seq<Byte>, value: V, wildcard: bool, readonly: bool)
    returns (rc: Code, a': KeySets<V>, key': seq<Byte>)
    requires Consistent(a, acc, stray)
    ensures var r := Reading(key, value, wildcard, readonly);
            if r.None? then rc == DECLINED && a' == a else Added(acc, stray, r.value, rc, a')
    ensures |a'.keysHash| == |a.keysHash| && key' == Lowered(key, Reading(key, value, wildcard, readonly), readonly)
  {
    hide Added, Consistent, GoodStem, KindOf, Lower;
    var kind := ExactName;
    if wildcard {
      kind := Classify(key);
    }
    match kind {
      case Refused =>
        return DECLINED, a, key;
      case HeadWild(skip) =>
        HeadStemGood(key, skip);
        LowerHead(key, skip);
        key' := key[..skip] + Lower(key[skip..]);
        assert key'[skip..] == Lower(key[skip..]);
        rc, a' := AddHead(a, acc, stray, key', skip, value);
      case TailWild =>
        TailStemGood(key);
        var s := Lower(key[..|key| - 2]);
        key' := s + key[|key| - 2..];
        LowerTail(key);
        rc, a' := AddTail(a, acc, stray, s, value);
      case ExactName =>
        key' := if readonly then key else Lower(key);
        rc, a' := AddExact(a, acc, stray, key', value);
    }
  }

  /** What a call does for the pattern that its key reads as, if any. */
  ghost predicate Entered<V>(acc: seq<Pattern<V>>, stray: set<seq<Byte>>, r: Option<Pattern<V>>, rc: Code,
                             acc': seq<Pattern<V>>, stray': set<seq<Byte>>, a: KeySets<V>) {
    if r.None? then rc == DECLINED && acc' == acc && stray' == stray
    else
      && Added(acc, stray, r.value, rc, a)
      && acc' == acc + (if rc == OK then [r.value] else [])
      && stray' == if rc == OK then stray else StrayAfterBusy(acc, stray, r.value)
  }

  /** ngx_hash_keys_arrays_t, as callers use it. */
  class KeysArrays<V> {
    var sets: KeySets<V>
    ghost var accepted: seq<Pattern<V>>
    ghost var stray: set<seq<Byte>>

    ghost predicate Valid()
      reads this
    {
      Consistent(sets, accepted, stray)
    }

    /** ngx_hash_keys_array_init. */
    constructor (hsize: nat)
      requires hsize > 0
      ensures Valid() && accepted == [] && stray == {} && |sets.keysHash| == hsize
    {
      var none: Register := seq(hsize, _ => []);
      sets := KeySets([], [], [], none, none, none);
      accepted, stray := [], {};
    }

    method Add(key: seq<Byte>, value: V, wildcard: bool, readonly: bool) returns (rc: Code, key': seq<Byte>)
      requires Valid()
      modifies this
      ensures Valid() && |sets.keysHash| == old(|sets.keysHash|)
      ensures key' == Lowered(key, Reading(key, value, wildcard, readonly), readonly)
      ensures rc == DECLINED <==> Reading(key, value, wildcard, readonly).None?
      ensures rc == DECLINED ==> sets == old(sets)
      ensures Entered(old(accepted), old(stray), Reading(key, value, wildcard, readonly), rc, accepted, stray, sets)
    {
      hide Consistent, Reported, Reading, Lowered, StrayAfterBusy;
      ghost var r := Reading(key, value, wildcard, readonly);
      rc, sets, key' := AddKey(sets, accepted, stray, key, value, wildcard, readonly);
      if rc == OK {
        accepted := accepted + [r.value];
      } else if rc == BUSY {
        stray := StrayAfterBusy(accepted, stray, r.value);
      }
    }
  }

  // ------------------------------------------------- what a conflict means

  ghost predicate ConflictsWithSome<V>(acc: seq<Pattern<V>>, p: Pattern<V>) {
    exists i :: 0 <= i < |acc| && Conflict(acc[i], p)
  }

  lemma {:induction false} ConflictsMonotone<V>(acc: seq<Pattern<V>>, p: Pattern<V>)
    requires |acc| > 0 && ConflictsWithSome(acc[..|acc| - 1], p)
    ensures ConflictsWithSome(acc, p)
  {
    var i :| 0 <= i < |acc| - 1 && Conflict(acc[..|acc| - 1][i], p);
    assert Conflict(acc[i], p);
  }

  /** Membership in the sets is conflict with an accepted pattern. */
  lemma {:induction false} SetsMeanConflict<V>(acc: seq<Pattern<V>>, p: Pattern<V>)
    ensures p.Exact? ==> (p.name in Exacts(acc) + Dots(acc) <==> ConflictsWithSome(acc, p))
    ensures p.Head? ==> (p.suffix in Heads(acc) || (!p.below && p.suffix in Exacts(acc)) <==> ConflictsWithSome(acc, p))
    ensures p.Tail? ==> (p.prefix in Tails(acc) <==> ConflictsWithSome(acc, p))
  {
    if acc != [] {
      var front, last := acc[..|acc| - 1], acc[|acc| - 1];
      SetsMeanConflict(front, p);
      if ConflictsWithSome(front, p) {
        ConflictsMonotone(acc, p);
      }
      if ConflictsWithSome(acc, p) && !Conflict(last, p) {
        var i :| 0 <= i < |acc| && Conflict(acc[i], p);
        assert Conflict(front[i], p);
      }
    }
  }

  lemma {:induction false} DotsAreHeads<V>(acc: seq<Pattern<V>>)
    ensures Dots(acc) <= Heads(acc)
  {
    if acc != [] {
      DotsAreHeads(acc[..|acc| - 1]);
    }
  }

  lemma ConflictsMeans<V>(acc: seq<Pattern<V>>, stray: set<seq<Byte>>, p: Pattern<V>)
    requires stray <= Heads(acc)
    ensures Conflicts(acc, stray, p) <==> ConflictsWithSome(acc, p) || (p.Exact? && p.name in stray)
  {
    SetsMeanConflict(acc, p);
    DotsAreHeads(acc);
  }

  /** A name looks taken if it is, or if another one looks the same, which takes a NUL byte in it. */
  lemma LooksTakenByOther(names: set<seq<Byte>>, name: seq<Byte>, hsize: nat)
    requires hsize > 0
    ensures LooksTaken(names, name, hsize) <==> name in names || LooksTaken(names - {name}, name, hsize)
    ensures LooksTaken(names - {name}, name, hsize) ==> !NoNul(name)
  {
    LooksTakenIsTaken(names, name, hsize);
    LooksTakenIsTaken(names - {name}, name, hsize);
  }

  /**
    A key is reported as a conflict exactly when it conflicts with an accepted
    pattern, with two exceptions, both for exact names: one that a refused ".S" left
    behind, and one with a NUL byte that looks like another registered name, because it
    has its slot, its length and the bytes before the NUL.
  */
  lemma ReportedExactly<V>(acc: seq<Pattern<V>>, stray: set<seq<Byte>>, p: Pattern<V>, hsize: nat)
    requires hsize > 0 && stray <= Heads(acc)
    ensures Reported(acc, stray, p, hsize) <==>
            || ConflictsWithSome(acc, p)
            || (p.Exact? && (p.name in stray || LooksTaken(Taken(acc, stray) - {p.name}, p.name, hsize)))
    ensures p.Exact? && LooksTaken(Taken(acc, stray) - {p.name}, p.name, hsize) ==> !NoNul(p.name)
  {
    ConflictsMeans(acc, stray, p);
    if p.Exact? {
      LooksTakenByOther(Taken(acc, stray), p.name, hsize);
    }
  }

  lemma StrayConflicts<V>(v: V)
    ensures var star := [Head([97], true, v)];
            && !Conflicts([], {}, Head([97], true, v)) && Conflicts(star, {}, Head([97], false, v))
            && StrayAfterBusy(star, {}, Head([97], false, v)) == {[97]} && Conflicts(star, {[97]}, Exact([97], v))
            && !ConflictsWithSome(star, Exact([97], v))
  {
    SetsAfterAdd([], Head([97], true, v));
    assert [] + [Head([97], true, v)] == [Head([97], true, v)];
  }

  lemma StrayKinds(dot: seq<Byte>, star: seq<Byte>, name: seq<Byte>)
    requires name == [97] && dot == [DOT] + name && star == [STAR, DOT] + name
    ensures KindOf(dot) == HeadWild(1) && Lower(dot[1..]) == name
    ensures KindOf(star) == HeadWild(2) && Lower(star[2..]) == name
    ensures KindOf(name) == ExactName && Lower(name) == name && NoNul(name) && NoNul(dot) && NoNul(star)
  {
    assert dot[..1] == [DOT] && star[..2] == [STAR, DOT] && star[..2][..1] == [STAR] && name[..0] == [];
    assert Stars([DOT]) == 0 && Stars([STAR]) == 1 && Stars(name) == 0;
    assert Stars(dot) == 0 && Stars([STAR, DOT]) == 1 && Stars(star) == 1;
    assert dot[1..] == name && star[2..] == name;
  }

  /**
    The first exception happens: after "*.a", the pattern ".a" is in conflict, and then
    the exact name "a" is refused although it conflicts with no accepted pattern.
  */
  method StrayNameRun<V>(v: V) returns (rc1: Code, rc2: Code, rc3: Code)
    ensures rc1 == OK && rc2 == BUSY && rc3 == BUSY
    ensures !ConflictsWithSome([Head([97], true, v)], Exact([97], v))
  {
    var ha := new KeysArrays<V>(107);
    var name: seq<Byte> := [97];
    var dot, star := [DOT] + name, [STAR, DOT] + name;
    StrayKinds(dot, star, name);
    assert Reading(star, v, true, false) == Some(Head(name, true, v));
    assert Reading(dot, v, true, false) == Some(Head(name, false, v));
    assert Reading(name, v, true, false) == Some(Exact(name, v));
    StrayConflicts(v);
    hide LooksTaken, Consistent, KindOf, Lower, Conflicts, StrayAfterBusy, Reading;
    var low;
    rc1, low := ha.Add(star, v, true, false);
    rc2, low := ha.Add(dot, v, true, false);
    rc3, low := ha.Add(name, v, true, false);
  }

  lemma ModStep(x: nat, n: nat)
    requires n > 0
    ensures Mod(x + n, n) == Mod(x, n)
  {
  }

  /** Different names that one slot takes for the same. */
  ghost predicate LookAlike(a: seq<Byte>, b: seq<Byte>, hsize: nat)
    requires hsize > 0
  {
    a != b && |a| == |b| && CString(a) == CString(b) && Slot(a, hsize) == Slot(b, hsize)
  }

  lemma LookAlikeReported<V>(a: seq<Byte>, b: seq<Byte>, hsize: nat, v: V)
    requires hsize > 0 && LookAlike(a, b, hsize)
    ensures !Reported([], {}, Exact(a, v), hsize) && Reported([Exact(a, v)], {}, Exact(b, v), hsize)
    ensures !ConflictsWithSome([Exact(a, v)], Exact(b, v))
  {
    SetsAfterAdd([], Exact(a, v));
    assert [] + [Exact(a, v)] == [Exact(a, v)];
    assert a in Taken([Exact(a, v)], {});
  }

  /**
    The second exception happens, for every two keys added without wildcards that look
    alike once they are in lower case: the second one is refused although it conflicts
    with no accepted pattern.
  */
  method LookAlikeRun<V>(hsize: nat, a: seq<Byte>, b: seq<Byte>, v: V) returns (rc1: Code, rc2: Code)
    requires hsize > 0 && LookAlike(Lower(a), Lower(b), hsize)
    ensures rc1 == OK && rc2 == BUSY
    ensures !ConflictsWithSome([Exact(Lower(a), v)], Exact(Lower(b), v))
  {
    var ha := new KeysArrays<V>(hsize);
    LookAlikeReported(Lower(a), Lower(b), hsize, v);
    assert Reading(a, v, false, false) == Some(Exact(Lower(a), v));
    assert Reading(b, v, false, false) == Some(Exact(Lower(b), v));
    hide Consistent, Reported, Lower, Reading, Lowered, StrayAfterBusy, LookAlike, ConflictsWithSome;
    var low;
    rc1, low := ha.Add(a, v, false, false);
    rc2, low := ha.Add(b, v, false, false);
  }

  lemma HashAppend(s: seq<Byte>, c: Byte, r: seq<Byte>)
    requires r == s + [c] && HashKey(s) * 31 + c < 0x1_0000_0000_0000_0000
    ensures HashKey(r) == HashKey(s) * 31 + c
  {
    assert r[..|r| - 1] == s;
  }

  /** Three more bytes after a hash of 3007. */
  lemma HashOfFive(s: seq<Byte>, c: Byte, d: Byte, e: Byte)
    requires HashKey(s) == 3007
    ensures HashKey(s + [c, d, e]) == ((3007 * 31 + c) * 31 + d) * 31 + e
  {
    hide HashKey;
    HashAppend(s, c, s + [c]);
    HashAppend(s + [c], d, s + [c, d]);
    HashAppend(s + [c, d], e, s + [c, d, e]);
  }

  lemma LargeHashes(a: seq<Byte>, b: seq<Byte>)
    requires a == [97, 0, 98, 98, 98] && b == [97, 0, 108, 110, 123]
    ensures HashKey(b) == HashKey(a) + 10007
  {
    var s: seq<Byte> := [97, 0];
    assert HashKey([]) == 0;
    hide HashKey;
    HashAppend([], 97, [97]);
    HashAppend([97], 0, s);
    HashOfFive(s, 98, 98, 98);
    HashOfFive(s, 108, 110, 123);
    assert a == s + [98, 98, 98] && b == s + [108, 110, 123];
  }

  /** There are such keys for the 10007 slots that callers with many keys ask for. */
  lemma LargeLookAlike()
    ensures var a, b: seq<Byte> := [97, 0, 98, 98, 98], [97, 0, 108, 110, 123];
            LookAlike(Lower(a), Lower(b), 10007)
  {
    var a, b: seq<Byte> := [97, 0, 98, 98, 98], [97, 0, 108, 110, 123];
    assert Lower(a) == a && Lower(b) == b;
    LargeHashes(a, b);
    ModStep(HashKey(a), 10007);
    assert a[1..][0] == 0 && b[1..][0] == 0;
    assert CString(a) == [97] == CString(b);
    assert a[4] != b[4];
  }
}
