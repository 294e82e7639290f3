/**
  The size that ngx_hash_init settles on (ngx_hash.c): the search starts from a number of
  buckets below which the keys cannot fit, so nothing smaller is missed.
*/
module HashSize {
  import opened Bytes
  import opened HashTable

  ghost predicate AllLive<V>(names: seq<Key<V>>) {
    forall n :: 0 <= n < |names| ==> names[n].data.Some?
  }

  /** An element is a pointer, a 16-bit length and the name, rounded up to a multiple of eight. */
  lemma EltSizeIs(len: nat)
    ensures EltSize(len) % 8 == 0 && len + 10 <= EltSize(len) < len + 18
  {
  }

  // ----------------------------------------------------- counting the keys

  /** How many elements the first `n` buckets have. */
  ghost function Population<V>(names: seq<Key<V>>, size: nat, n: nat): nat
    requires size > 0
  {
    if n == 0 then 0 else Population(names, size, n - 1) + |Bucket(names, size, n - 1)|
  }

  lemma {:induction false} PopulationStep<V>(done: seq<Key<V>>, x: Key<V>, size: nat, n: nat)
    requires size > 0 && x.data.Some?
    ensures Population(done + [x], size, n) == Population(done, size, n) + if x.hash % size < n then 1 else 0
  {
    if n > 0 {
      PopulationStep(done, x, size, n - 1);
      LoadStep(done, x, size, n - 1);
    }
  }

  lemma {:induction false} NoPopulation<V>(size: nat, n: nat)
    requires size > 0
    ensures Population<V>([], size, n) == 0
  {
    if n > 0 {
      NoPopulation<V>(size, n - 1);
    }
  }

  /** Every live key is in one bucket. */
  lemma {:induction false} PopulationIsAll<V>(names: seq<Key<V>>, size: nat)
    requires size > 0 && AllLive(names)
    ensures Population(names, size, size) == |names|
    decreases |names|
  {
    if names == [] {
      NoPopulation<V>(size, size);
    } else {
      var n := |names| - 1;
      PopulationIsAll(names[..n], size);
      PopulationStep(names[..n], names[n], size, size);
      assert names == names[..n] + [names[n]];
    }
  }

  lemma {:induction false} SixteenEach<V>(es: seq<Elt<V>>)
    ensures 16 * |es| <= TotalSize(es)
  {
    if es != [] {
      SixteenEach(es[1..]);
    }
  }

  lemma OneMore(n: nat, m: nat)
    ensures (n + 1) * m == n * m + m
  {
  }

  lemma {:induction false} PopulationBound<V>(names: seq<Key<V>>, size: nat, n: nat, limit: nat)
    requires 0 < size && n <= size && Fits(names, size, limit)
    ensures Population(names, size, n) <= n * (limit / 16)
  {
    if n > 0 {
      PopulationBound(names, size, n - 1, limit);
      SixteenEach(Bucket(names, size, n - 1));
      assert Load(names, size, n - 1) <= limit;
      OneMore(n - 1, limit / 16);
    }
  }

  lemma {:induction false} TimesMonotone(s: nat, q: nat, b: nat)
    ensures s < q ==> s * b + b <= q * b
  {
    if s < q {
      TimesMonotone(s, q - 1, b);
      OneMore(q - 1, b);
      OneMore(s, b);
    }
  }

  lemma Quotient(a: nat, b: nat, s: nat)
    requires b > 0 && a <= s * b
    ensures a / b <= s
  {
    var q := a / b;
    assert q * b <= a;
    TimesMonotone(s, q, b);
  }

  /** Fewer buckets than this cannot hold the keys. */
  lemma NothingSmaller<V>(names: seq<Key<V>>, s: nat, limit: nat)
    requires 0 < s && 16 <= limit && AllLive(names) && Fits(names, s, limit)
    ensures |names| / (limit / 16) <= s
  {
    PopulationIsAll(names, s);
    PopulationBound(names, s, s, limit);
    Quotient(|names|, limit / 16, s);
  }

  // ------------------------------------------------------------- the search

  lemma {:induction false} FirstFitIsLeast<V>(names: seq<Key<V>>, cfg: Config, from: nat, s: nat)
    requires cfg.maxSize > 0 && 0 < from <= s < FirstFit(names, cfg, from)
    ensures !Fits(names, s, BucketLimit(cfg))
    decreases s - from
  {
    if from < s {
      FirstFitIsLeast(names, cfg, from + 1, s);
    }
  }

  /** More than ten thousand buckets allowed, and fewer than a hundred of them for each key. */
  predicate Shortcut(cfg: Config, nelts: nat) {
    cfg.maxSize > 10000 && nelts > 0 && cfg.maxSize / nelts < 100
  }

  lemma {:induction false} FirstFitFrom<V>(names: seq<Key<V>>, cfg: Config, from: nat)
    requires 0 < from <= cfg.maxSize
    ensures from <= FirstFit(names, cfg, from)
    decreases cfg.maxSize - from
  {
    if from < cfg.maxSize {
      FirstFitFrom(names, cfg, from + 1);
    }
  }

  /**
    The size is the least at which every bucket stays within its limit, or the greatest
    allowed; with the shortcut, the least among the last thousand and one.
  */
  lemma SizeIsLeast<V>(cfg: Config, names: seq<Key<V>>, s: nat)
    requires cfg.maxSize > 0 && cfg.bucketSize >= 24 && AllLive(names)
    ensures var size, from := TableSize(cfg, names), if Shortcut(cfg, |names|) then cfg.maxSize - 1000 else 1;
            && from <= size && (size == cfg.maxSize || Fits(names, size, cfg.bucketSize - 8))
            && (from <= s < size ==> !Fits(names, s, cfg.bucketSize - 8))
  {
    var start := StartSize(cfg, |names|);
    if Shortcut(cfg, |names|) {
      FirstFitFrom(names, cfg, start);
    }
    if 0 < s && Fits(names, s, cfg.bucketSize - 8) {
      NothingSmaller(names, s, cfg.bucketSize - 8);
    }
    if start <= s < TableSize(cfg, names) {
      FirstFitIsLeast(names, cfg, start, s);
    }
  }

  /** Keys that have been removed still count for the start, so with them a smaller size can be missed. */
  lemma RemovedKeysCount<V>(v: V)
    ensures var cfg, names := Config(2, 24, 64), [Key(Some([97]), 0, v), Key(None, 0, v)];
            CanDivide(cfg) && Fits(names, 1, 16) && TableSize(cfg, names) == 2
  {
    var live, dead := Key(Some([97]), 0, v), Key(None, 0, v);
    forall size, k | size > 0 ensures Load([live, dead], size, k) <= 16 {
      LoadStep([live], dead, size, k);
      LoadStep([], live, size, k);
      assert [live] + [dead] == [live, dead] && [] + [live] == [live];
    }
  }
}
