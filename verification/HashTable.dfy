/**
  The static hash of ngx_hash.c: `ngx_hash_init` packs variable-length elements
  into cache-line aligned buckets of one memory block, and `ngx_hash_find` walks
  a bucket by address arithmetic.

  Memory is modelled byte by byte.  A pointer stored at address `a` occupies the
  eight cells from `a`, each remembering its place in the pointer, so that any
  overlapping write destroys the pointer; other data are raw bytes.
*/
module HashTable {
  import opened Bytes

  // A pointer takes 8 bytes and a u_short 2 bytes; ngx_hash_elt_t has its value
  // at offset 0, its len at offset 8 and its name at offset 10.

  /** The number of 8-byte words that hold `n` bytes. */
  function Words(n: nat): (w: nat)
    ensures n <= 8 * w < n + 8
  {
    if n == 0 then 0 else if n <= 8 then 1 else 1 + Words(n - 8)
  }

  /** ngx_align and ngx_align_ptr with sizeof(void *). */
  function Align8(x: nat): nat {
    8 * Words(x)
  }

  predicate PowerOfTwo(a: nat) {
    a == 1 || (a > 1 && a % 2 == 0 && PowerOfTwo(a / 2))
  }

  /** ngx_align and ngx_align_ptr, which mask the low bits, for a power of two. */
  function Align(x: nat, a: nat): (r: nat)
    requires a > 0
  {
    (x + a - 1) / a * a
  }

  /** ngx_hash_key_t; `data` is None for a key whose data pointer is NULL.  Values are not NULL. */
  datatype Key<V> = Key(data: Option<seq<Byte>>, hash: nat, value: V)

  /** One byte of the element memory. */
  datatype Cell<V> = Undef | Raw(b: Byte) | Part(p: Option<V>, k: nat)

  /** ngx_hash_t together with the memory block that holds its elements. */
  datatype Table<V> = Table(base: nat, mem: seq<Cell<V>>, buckets: seq<Option<nat>>)

  /** The fields of ngx_hash_init_t that decide the shape, and ngx_cacheline_size. */
  datatype Config = Config(maxSize: nat, bucketSize: nat, cacheline: nat)

  datatype Elt<V> = Elt(name: seq<Byte>, value: V)

  datatype Result<+T> = Ok(value: T) | Error

  /** The outcome of reading the structure; Fault is a read outside the block or of the wrong kind. */
  datatype Lookup<V> = Fault | Null | Found(value: V)

  // ---------------------------------------------------------------- reading

  ghost predicate PtrAt<V>(mem: seq<Cell<V>>, i: nat, p: Option<V>) {
    && i + 8 <= |mem|
    && forall j :: i <= j < i + 8 ==> mem[j] == Part(p, j - i)
  }

  ghost predicate ShortAt<V>(mem: seq<Cell<V>>, i: nat, n: nat) {
    && i + 2 <= |mem| && n < 65536
    && mem[i] == Raw(n % 256) && mem[i + 1] == Raw(n / 256)
  }

  predicate RawAt<V>(mem: seq<Cell<V>>, i: nat, n: nat) {
    && i + n <= |mem|
    && forall j :: i <= j < i + n ==> mem[j].Raw?
  }

  ghost predicate BytesAt<V>(mem: seq<Cell<V>>, i: nat, s: seq<Byte>) {
    && RawAt(mem, i, |s|)
    && forall j :: i <= j < i + |s| ==> mem[j].b == s[j - i]
  }

  /** The u_short whose two bytes lie at cell `i`, low byte first. */
  function ShortValue<V>(mem: seq<Cell<V>>, i: nat): nat
    requires RawAt(mem, i, 2)
  {
    mem[i].b + 256 * mem[i + 1].b
  }

  /** The address of the element after the one at `a`, as the reader computes it. */
  function NextAddr(a: nat, len: nat): (r: nat)
    ensures r > a
  {
    Align8(a + 10 + len)
  }

  /** One turn of ngx_hash_find's loop: it is over, or it goes on at another address. */
  datatype Turn<V> = Done(result: Lookup<V>) | Next(a: nat)

  ghost function Visit<V>(t: Table<V>, a: nat, name: seq<Byte>): (r: Turn<V>)
    ensures r.Next? ==> r.a > a && a < t.base + |t.mem|
  {
    if a < t.base || a + 8 > t.base + |t.mem| then Done(Fault)
    else
      var i := a - t.base;
      if !t.mem[i].Part? || !PtrAt(t.mem, i, t.mem[i].p) then Done(Fault)
      else if t.mem[i].p.None? then Done(Null)
      else if !RawAt(t.mem, i + 8, 2) then Done(Fault)
      else
        var len := ShortValue(t.mem, i + 8);
        if len != |name| then Next(NextAddr(a, len))
        else if !RawAt(t.mem, i + 10, len) then Done(Fault)
        else if BytesAt(t.mem, i + 10, name) then Done(Found(t.mem[i].p.value))
        else Next(NextAddr(a, len))
  }

  /** What ngx_hash_find's loop yields when it stands at address `a`. */
  ghost function Walk<V>(t: Table<V>, a: nat, name: seq<Byte>): Lookup<V>
    decreases t.base + |t.mem| - a
  {
    match Visit(t, a, name)
    case Done(r) => r
    case Next(a') => Walk(t, a', name)
  }

  ghost function FindIn<V>(t: Table<V>, k: nat, name: seq<Byte>): Lookup<V>
    requires k < |t.buckets|
  {
    match t.buckets[k]
    case None => Null
    case Some(a) => Walk(t, a, name)
  }

  /** The value of ngx_hash_find, Fault included. */
  ghost function Find<V>(t: Table<V>, key: nat, name: seq<Byte>): Lookup<V>
    requires |t.buckets| > 0
  {
    FindIn(t, key % |t.buckets|, name)
  }

  /** The byte loop of ngx_hash_find. */
  method SameName<V>(mem: seq<Cell<V>>, i: nat, name: seq<Byte>) returns (same: bool)
    requires RawAt(mem, i, |name|)
    ensures same <==> BytesAt(mem, i, name)
  {
    for k := 0 to |name|
      invariant forall j :: i <= j < i + k ==> mem[j].b == name[j - i]
    {
      if name[k] != mem[i + k].b {
        return false;
      }
    }
    return true;
  }

  /** ngx_hash_find, on a table whose walk for this name stays inside the block. */
  method HashFind<V>(t: Table<V>, key: nat, name: seq<Byte>) returns (r: Option<V>)
    requires |t.buckets| > 0
    requires Find(t, key, name) != Fault
    ensures Find(t, key, name) == if r.None? then Null else Found(r.value)
  {
    var elt := t.buckets[key % |t.buckets|];
    if elt == None {
      return None;
    }
    var a := elt.value;
    while t.mem[a - t.base].p.Some?
      invariant Walk(t, a, name) == Find(t, key, name)
      decreases t.base + |t.mem| - a
    {
      var i := a - t.base;
      var len := ShortValue(t.mem, i + 8);
      if len == |name| {
        var same := SameName(t.mem, i + 10, name);
        if same {
          return t.mem[i].p;
        }
      }
      a := NextAddr(a, len);
    }
    return None;
  }

  // ------------------------------------------------------- what is written

  /** NGX_HASH_ELT_SIZE. */
  function EltSize(len: nat): (r: nat)
    ensures r >= 10 + len
    ensures r >= 16
  {
    8 + Align8(len + 2)
  }

  ghost function EltWords(len: nat): nat {
    1 + Words(len + 2)
  }

  ghost function TotalSize<V>(es: seq<Elt<V>>): (r: nat) {
    if es == [] then 0 else EltSize(|es[0].name|) + TotalSize(es[1..])
  }

  ghost predicate EltAt<V>(mem: seq<Cell<V>>, i: nat, e: Elt<V>) {
    && PtrAt(mem, i, Some(e.value))
    && ShortAt(mem, i + 8, |e.name|)
    && BytesAt(mem, i + 10, e.name)
  }

  /** The elements `es` lie one after another from cell `i`. */
  ghost predicate Layout<V>(mem: seq<Cell<V>>, i: nat, es: seq<Elt<V>>)
    decreases |es|
  {
    es == [] || (EltAt(mem, i, es[0]) && Layout(mem, i + EltSize(|es[0].name|), es[1..]))
  }

  /** The value of the first element with this name. */
  ghost function FirstMatch<V>(es: seq<Elt<V>>, name: seq<Byte>): Lookup<V> {
    if es == [] then Null
    else if es[0].name == name then Found(es[0].value)
    else FirstMatch(es[1..], name)
  }

  /** The reader's step from an aligned address is the size the writer used. */
  lemma WriterStepIsReaderStep(w: nat, len: nat)
    ensures NextAddr(8 * w, len) == 8 * w + EltSize(len) == 8 * (w + EltWords(len))
  {
  }

  lemma {:induction false} TotalSizeAppend<V>(es: seq<Elt<V>>, e: Elt<V>)
    ensures TotalSize(es + [e]) == TotalSize(es) + EltSize(|e.name|)
  {
    if es != [] {
      assert (es + [e])[1..] == es[1..] + [e];
      TotalSizeAppend(es[1..], e);
    }
  }

  lemma {:induction false} LayoutAppend<V>(mem: seq<Cell<V>>, i: nat, es: seq<Elt<V>>, e: Elt<V>)
    requires Layout(mem, i, es) && EltAt(mem, i + TotalSize(es), e)
    ensures Layout(mem, i, es + [e])
    decreases |es|
  {
    if es != [] {
      assert (es + [e])[1..] == es[1..] + [e];
      LayoutAppend(mem, i + EltSize(|es[0].name|), es[1..], e);
    }
  }

  lemma {:induction false} LayoutFrame<V>(mem: seq<Cell<V>>, mem': seq<Cell<V>>, i: nat, es: seq<Elt<V>>)
    requires Layout(mem, i, es) && |mem'| == |mem|
    requires i + TotalSize(es) <= |mem|
    requires forall j :: i <= j < i + TotalSize(es) ==> mem'[j] == mem[j]
    ensures Layout(mem', i, es)
    decreases |es|
  {
    if es != [] {
      LayoutFrame(mem, mem', i + EltSize(|es[0].name|), es[1..]);
    }
  }

  lemma BytesAtUnique<V>(mem: seq<Cell<V>>, i: nat, s: seq<Byte>, s': seq<Byte>)
    requires BytesAt(mem, i, s)
    ensures |s'| == |s| ==> (BytesAt(mem, i, s') <==> s' == s)
  {
    if |s'| == |s| && BytesAt(mem, i, s') {
      forall k | 0 <= k < |s| ensures s'[k] == s[k] {
        assert mem[i + k].b == s[k];
      }
    }
  }

  lemma ShortAtValue<V>(mem: seq<Cell<V>>, i: nat, n: nat)
    requires ShortAt(mem, i, n)
    ensures RawAt(mem, i, 2) && ShortValue(mem, i) == n
  {
  }

  /** One turn of the reader on an element the writer stored. */
  lemma VisitElt<V>(t: Table<V>, a: nat, w: nat, e: Elt<V>, name: seq<Byte>)
    requires t.base <= a == 8 * w && EltAt(t.mem, a - t.base, e)
    ensures Visit(t, a, name) == if e.name == name then Done(Found(e.value)) else Next(a + EltSize(|e.name|))
  {
    var i := a - t.base;
    assert t.mem[i] == Part(Some(e.value), 0);
    ShortAtValue(t.mem, i + 8, |e.name|);
    WriterStepIsReaderStep(w, |e.name|);
    BytesAtUnique(t.mem, i + 10, e.name, name);
  }

  /** Reading a laid out and terminated bucket finds its first element of that name. */
  lemma {:induction false} WalkFindsFirstMatch<V>(t: Table<V>, a: nat, w: nat, es: seq<Elt<V>>, name: seq<Byte>)
    requires t.base <= a == 8 * w
    requires Layout(t.mem, a - t.base, es)
    requires PtrAt(t.mem, a - t.base + TotalSize(es), None)
    ensures Walk(t, a, name) == FirstMatch(es, name)
    decreases |es|
  {
    if es == [] {
      assert t.mem[a - t.base] == Part(None, 0);
    } else {
      VisitElt(t, a, w, es[0], name);
      WriterStepIsReaderStep(w, |es[0].name|);
      WalkFindsFirstMatch(t, a + EltSize(|es[0].name|), w + EltWords(|es[0].name|), es[1..], name);
    }
  }

  // ------------------------------------------------------------ the buckets

  /** The elements that go to bucket `k` of `size`, in the order of the keys. */
  ghost function Bucket<V>(names: seq<Key<V>>, size: nat, k: nat): seq<Elt<V>>
    requires size > 0
  {
    if names == [] then []
    else
      var front := Bucket(names[..|names| - 1], size, k);
      var last := names[|names| - 1];
      if last.data.Some? && last.hash % size == k
      then front + [Elt(Lower(last.data.value), last.value)]
      else front
  }

  ghost function Load<V>(names: seq<Key<V>>, size: nat, k: nat): nat
    requires size > 0
  {
    TotalSize(Bucket(names, size, k))
  }

  ghost predicate Fits<V>(names: seq<Key<V>>, size: nat, limit: nat)
    requires size > 0
  {
    forall k :: 0 <= k < size ==> Load(names, size, k) <= limit
  }

  lemma LoadStep<V>(done: seq<Key<V>>, x: Key<V>, size: nat, k: nat)
    requires size > 0
    ensures Load(done + [x], size, k) == Load(done, size, k) +
            if x.data.Some? && x.hash % size == k then EltSize(|x.data.value|) else 0
    ensures Bucket(done + [x], size, k) ==
            if x.data.Some? && x.hash % size == k
            then Bucket(done, size, k) + [Elt(Lower(x.data.value), x.value)]
            else Bucket(done, size, k)
  {
    assert (done + [x])[..|done|] == done;
    if x.data.Some? && x.hash % size == k {
      TotalSizeAppend(Bucket(done, size, k), Elt(Lower(x.data.value), x.value));
    }
  }

  lemma LoadStepAll<V>(done: seq<Key<V>>, x: Key<V>, size: nat)
    requires size > 0
    ensures forall k :: Load(done + [x], size, k) ==
              Load(done, size, k) + if x.data.Some? && x.hash % size == k then EltSize(|x.data.value|) else 0
  {
    forall k ensures Load(done + [x], size, k) == Load(done, size, k) +
            if x.data.Some? && x.hash % size == k then EltSize(|x.data.value|) else 0 {
      LoadStep(done, x, size, k);
    }
  }

  lemma {:induction false} LoadMonotone<V>(names: seq<Key<V>>, n: nat, size: nat, k: nat)
    requires n <= |names| && size > 0
    ensures Load(names[..n], size, k) <= Load(names, size, k)
    decreases |names| - n
  {
    if n == |names| {
      assert names[..n] == names;
    } else {
      LoadStep(names[..n], names[n], size, k);
      assert names[..n + 1] == names[..n] + [names[n]];
      LoadMonotone(names, n + 1, size, k);
    }
  }

  /** The cast to u_short. */
  method ToShort(n: nat) returns (r: nat)
    ensures r < 65536 && (n < 65536 ==> r == n)
  {
    r := n % 65536;
  }

  /** Every key has been removed. */
  ghost predicate NoneLive<V>(names: seq<Key<V>>) {
    forall n :: 0 <= n < |names| ==> names[n].data.None?
  }

  /** The inner loop of the size search: do all buckets stay within `limit`? */
  method FitsAt<V>(names: seq<Key<V>>, size: nat, limit: nat, test: array<nat>) returns (fits: bool)
    requires 0 < size <= test.Length && (limit < 65536 || NoneLive(names))
    modifies test
    ensures fits <==> Fits(names, size, limit)
  {
    for i := 0 to size
      invariant forall k :: 0 <= k < i ==> test[k] == 0
    {
      test[i] := 0;
    }
    for n := 0 to |names|
      invariant forall k :: 0 <= k < size ==> test[k] == Load(names[..n], size, k) <= limit
    {
      LoadStepAll(names[..n], names[n], size);
      assert names[..n + 1] == names[..n] + [names[n]];
      if names[n].data.Some? {
        var key := names[n].hash % size;
        var len := test[key] + EltSize(|names[n].data.value|);
        if len > limit {
          LoadMonotone(names, n + 1, size, key);
          return false;
        }
        test[key] := ToShort(len);
      }
    }
    assert names[..|names|] == names;
    return true;
  }

  /** The room of a bucket without its terminator; the subtraction wraps. */
  function BucketLimit(cfg: Config): nat {
    if cfg.bucketSize >= 8 then cfg.bucketSize - 8 else cfg.bucketSize + 0x1_0000_0000_0000_0000 - 8
  }

  /** The divisor in the start size is not zero. */
  predicate CanDivide(cfg: Config) {
    cfg.bucketSize < 8 || 24 <= cfg.bucketSize
  }

  /** The size the search starts from. */
  function StartSize(cfg: Config, nelts: nat): (start: nat)
    requires CanDivide(cfg)
    ensures start >= 1
  {
    var d := BucketLimit(cfg) / 16;
    var start := if nelts / d > 0 then nelts / d else 1;
    if cfg.maxSize > 10000 && nelts > 0 && cfg.maxSize / nelts < 100 then cfg.maxSize - 1000 else start
  }

  /** The least size from `s` on that fits, or the greatest size allowed. */
  ghost function FirstFit<V>(names: seq<Key<V>>, cfg: Config, s: nat): (size: nat)
    requires s > 0 && cfg.maxSize > 0
    ensures 0 < size <= cfg.maxSize
    ensures Fits(names, size, BucketLimit(cfg)) || size == cfg.maxSize
    decreases cfg.maxSize - s
  {
    if s > cfg.maxSize then cfg.maxSize
    else if Fits(names, s, BucketLimit(cfg)) then s
    else FirstFit(names, cfg, s + 1)
  }

  method ChooseSize<V>(cfg: Config, names: seq<Key<V>>, test: array<nat>) returns (size: nat)
    requires CanDivide(cfg) && cfg.bucketSize < 65536 && (cfg.bucketSize < 8 ==> NoneLive(names))
    requires cfg.maxSize > 0 && test.Length == cfg.maxSize
    modifies test
    ensures size == FirstFit(names, cfg, StartSize(cfg, |names|))
  {
    size := StartSize(cfg, |names|);
    while size <= cfg.maxSize
      invariant size > 0
      invariant FirstFit(names, cfg, size) == FirstFit(names, cfg, StartSize(cfg, |names|))
    {
      var fits := FitsAt(names, size, BucketLimit(cfg), test);
      if fits {
        return;
      }
      size := size + 1;
    }
    size := cfg.maxSize;
  }

  // ------------------------------------------------- placing and filling

  /** A cache line is a power of two that holds a pointer and leaves room in 64 kilobytes. */
  predicate GoodCacheline(c: nat) {
    8 <= c <= 32768 && PowerOfTwo(c)
  }

  lemma {:induction false} SmallPowers(c: nat)
    requires PowerOfTwo(c) && 8 <= c <= 32768
    ensures c in {8, 16, 32, 64, 128, 256, 512, 1024, 2048, 4096, 8192, 16384, 32768}
  {
    if c >= 16 {
      SmallPowers(c / 2);
    } else {
      assert PowerOfTwo(c / 2) && PowerOfTwo(c / 2 / 2);
    }
  }

  lemma CachelineDivides(c: nat)
    requires GoodCacheline(c)
    ensures 65536 % c == 0 && c % 8 == 0
  {
    SmallPowers(c);
    if c == 8 {} else if c == 16 {} else if c == 32 {} else if c == 64 {} else if c == 128 {}
    else if c == 256 {} else if c == 512 {} else if c == 1024 {} else if c == 2048 {}
    else if c == 4096 {} else if c == 8192 {} else if c == 16384 {} else if c == 32768 {}
  }

  lemma MulMonotone(a: int, b: int, c: int)
    requires c > 0
    ensures a >= b ==> a * c >= b * c
    ensures a > b ==> a * c >= b * c + c
    decreases a - b
  {
    if a > b {
      MulMonotone(a - 1, b, c);
      assert a * c == (a - 1) * c + c;
    }
  }

  lemma MultipleMod(q: nat, c: nat)
    requires c > 0
    ensures (q * c) % c == 0
  {
    var p := (q * c) / c;
    MulMonotone(q, p, c);
    MulMonotone(p, q, c);
  }

  lemma AlignBounds(x: nat, c: nat)
    requires c > 0
    ensures x <= Align(x, c) < x + c && Align(x, c) % c == 0
  {
    MultipleMod((x + c - 1) / c, c);
  }

  lemma MultipleTrans(x: nat, c: nat)
    requires c > 0 && c % 8 == 0 && x % c == 0
    ensures x % 8 == 0
  {
    var q, d := x / c, c / 8;
    assert x == c * q && c == 8 * d;
    assert x == 8 * (d * q);
  }

  /** A load that passed the 16-bit test still passes it after rounding up to a cache line. */
  lemma AlignStaysShort(x: nat, c: nat)
    requires 0 < c <= 65536 && 65536 % c == 0 && x <= 65536 - c
    ensures Align(x, c) <= 65536 - c
  {
    AlignBounds(x, c);
    var q, m := (x + c - 1) / c, 65536 / c;
    assert 65536 == c * m;
    assert q * c < c * m;
    MulMonotone(q, m, c);
    MulMonotone(m, q, c);
  }

  /** What the memory of bucket `k` must hold: its elements and the terminating pointer. */
  ghost function Need<V>(names: seq<Key<V>>, size: nat, k: nat): nat
    requires size > 0
  {
    8 + Load(names, size, k)
  }

  /** The loop that computes the exact bucket loads and refuses one that a u_short cannot hold. */
  method Measure<V>(names: seq<Key<V>>, size: nat, cacheline: nat, test: array<nat>) returns (ok: bool)
    requires 0 < size <= test.Length && 0 < cacheline <= 65536 - 8
    modifies test
    ensures ok <==> forall k :: 0 <= k < size ==> Need(names, size, k) <= 65536 - cacheline
    ensures ok ==> forall k :: 0 <= k < size ==> test[k] == Need(names, size, k)
  {
    for i := 0 to size
      invariant forall k :: 0 <= k < i ==> test[k] == 8
    {
      test[i] := 8;
    }
    for n := 0 to |names|
      invariant forall k :: 0 <= k < size ==> test[k] == Need(names[..n], size, k) <= 65536 - cacheline
    {
      LoadStepAll(names[..n], names[n], size);
      assert names[..n + 1] == names[..n] + [names[n]];
      if names[n].data.Some? {
        var key := names[n].hash % size;
        var len := test[key] + EltSize(|names[n].data.value|);
        if len > 65536 - cacheline {
          LoadMonotone(names, n + 1, size, key);
          assert Need(names, size, key) > 65536 - cacheline;
          return false;
        }
        test[key] := ToShort(len);
      }
    }
    assert names[..|names|] == names;
    return true;
  }

  /** The bytes reserved before bucket `i`, when `room` is what each bucket takes; 8 marks an unused one. */
  function Offset(room: seq<nat>, i: nat): (r: nat)
    requires i <= |room|
  {
    if i == 0 then 0 else Offset(room, i - 1) + if room[i - 1] == 8 then 0 else room[i - 1]
  }

  lemma {:induction false} OffsetAligned(start: nat, room: seq<nat>, i: nat)
    requires i <= |room| && start % 8 == 0 && forall k :: 0 <= k < |room| ==> room[k] % 8 == 0
    ensures (start + Offset(room, i)) % 8 == 0
  {
    if i > 0 {
      OffsetAligned(start, room, i - 1);
    }
  }

  /** Bucket regions are disjoint and in the order of the buckets. */
  lemma {:induction false} OffsetsApart(room: seq<nat>, i: nat, j: nat)
    requires i < j <= |room|
    ensures Offset(room, i) + (if room[i] == 8 then 0 else room[i]) <= Offset(room, j)
    decreases j
  {
    if i < j - 1 {
      OffsetsApart(room, i, j - 1);
    }
  }

  /** A bucket's room: its need rounded up to whole cache lines. */
  ghost predicate IsRoom(need: nat, room: nat) {
    && room % 8 == 0
    && need <= room < 65536
    && (room == 8 <==> need == 8)
  }

  method RoundUpOne(need: nat, cacheline: nat) returns (room: nat)
    requires GoodCacheline(cacheline)
    requires 8 < need <= 65536 - cacheline
    ensures IsRoom(need, room)
  {
    CachelineDivides(cacheline);
    AlignBounds(need, cacheline);
    AlignStaysShort(need, cacheline);
    MultipleTrans(Align(need, cacheline), cacheline);
    room := ToShort(Align(need, cacheline));
  }

  lemma {:induction false} OffsetFrame(room: seq<nat>, room': seq<nat>, i: nat)
    requires i <= |room| <= |room'| && forall k :: 0 <= k < i ==> room[k] == room'[k]
    ensures Offset(room, i) == Offset(room', i)
  {
    if i > 0 {
      OffsetFrame(room, room', i - 1);
    }
  }

  /** Rounds the loads of the used buckets up to whole cache lines and adds them up. */
  method RoundUp(need: seq<nat>, cacheline: nat, test: array<nat>) returns (len: nat)
    requires |need| <= test.Length && forall i :: 0 <= i < |need| ==> test[i] == need[i]
    requires GoodCacheline(cacheline)
    requires forall i :: 0 <= i < |need| ==> 8 <= need[i] <= 65536 - cacheline
    modifies test
    ensures forall i :: 0 <= i < |need| ==> IsRoom(need[i], test[i])
    ensures len == Offset(test[..], |need|)
  {
    len := 0;
    for i := 0 to |need|
      invariant len == Offset(test[..], i)
      invariant forall k :: i <= k < |need| ==> test[k] == need[k]
      invariant forall k :: 0 <= k < i ==> IsRoom(need[k], test[k])
    {
      if test[i] != 8 {
        ghost var before := test[..];
        test[i] := RoundUpOne(test[i], cacheline);
        OffsetFrame(before, test[..], i);
        len := len + test[i];
      }
    }
  }

  /** Where bucket `i` starts, if it is used. */
  function BucketAddr(room: seq<nat>, elts: nat, i: nat): Option<nat>
    requires i < |room|
  {
    if room[i] == 8 then None else Some(elts + Offset(room, i))
  }

  /** Gives each used bucket its address, from `elts` on. */
  method Place(size: nat, elts: nat, test: array<nat>) returns (buckets: array<Option<nat>>)
    requires size <= test.Length
    ensures fresh(buckets) && buckets.Length == size
    ensures forall i :: 0 <= i < size ==> buckets[i] == BucketAddr(test[..], elts, i)
  {
    ghost var room := test[..];
    buckets := new Option<nat>[size](_ => None);
    var p := elts;
    for i := 0 to size
      invariant test[..] == room
      invariant p == elts + Offset(room, i)
      invariant forall k :: 0 <= k < i ==> buckets[k] == BucketAddr(room, elts, k)
      invariant forall k :: i <= k < size ==> buckets[k] == None
    {
      if test[i] != 8 {
        buckets[i] := Some(p);
        p := p + test[i];
      }
    }
  }

  method StorePtr<V>(mem: array<Cell<V>>, i: nat, p: Option<V>)
    requires i + 8 <= mem.Length
    modifies mem
    ensures PtrAt(mem[..], i, p)
    ensures forall j :: 0 <= j < mem.Length && !(i <= j < i + 8) ==> mem[j] == old(mem[j])
  {
    for k := 0 to 8
      invariant forall j :: i <= j < i + k ==> mem[j] == Part(p, j - i)
      invariant forall j :: 0 <= j < mem.Length && !(i <= j < i + 8) ==> mem[j] == old(mem[j])
    {
      mem[i + k] := Part(p, k);
    }
  }

  /** Writes one element: the value, the length as a u_short, and the lower-cased name. */
  method StoreElt<V>(mem: array<Cell<V>>, i: nat, name: seq<Byte>, value: V)
    requires i + 10 + |name| <= mem.Length && |name| < 65536
    modifies mem
    ensures EltAt(mem[..], i, Elt(Lower(name), value))
    ensures forall j :: 0 <= j < mem.Length && !(i <= j < i + 10 + |name|) ==> mem[j] == old(mem[j])
  {
    StorePtr(mem, i, Some(value));
    var len := ToShort(|name|);
    mem[i + 8] := Raw(len % 256);
    mem[i + 9] := Raw(len / 256);
    for k := 0 to |name|
      invariant PtrAt(mem[..], i, Some(value)) && ShortAt(mem[..], i + 8, |name|)
      invariant forall j :: i + 10 <= j < i + 10 + k ==> mem[j] == Raw(ToLower(name[j - i - 10]))
      invariant forall j :: 0 <= j < mem.Length && !(i <= j < i + 10 + |name|) ==> mem[j] == old(mem[j])
    {
      mem[i + 10 + k] := Raw(ToLower(name[k]));
    }
  }

  // Cell `o` of the block is where the first bucket starts; bucket `k` owns the
  // `room[k]` cells from cell `o + Offset(room, k)` on.

  /** Every bucket that gets elements owns enough cells for them and for the terminating pointer. */
  ghost predicate Roomy<V>(names: seq<Key<V>>, room: seq<nat>, o: nat, cells: nat) {
    && |room| > 0
    && o + Offset(room, |room|) <= cells
    && (forall k :: 0 <= k < |room| ==> room[k] == 8 ==> Load(names, |room|, k) == 0)
    && (forall k :: 0 <= k < |room| ==> room[k] != 8 ==> Load(names, |room|, k) + 8 <= room[k])
  }

  lemma RoomsAreRoomy<V>(names: seq<Key<V>>, room: seq<nat>, o: nat, cells: nat)
    requires |room| > 0 && o + Offset(room, |room|) <= cells
    requires forall k :: 0 <= k < |room| ==> IsRoom(Need(names, |room|, k), room[k])
    ensures Roomy(names, room, o, cells)
  {
    forall k | 0 <= k < |room|
      ensures room[k] == 8 ==> Load(names, |room|, k) == 0
      ensures room[k] != 8 ==> Load(names, |room|, k) + 8 <= room[k]
    {
      assert IsRoom(Need(names, |room|, k), room[k]);
    }
  }

  lemma RoomyPrefix<V>(names: seq<Key<V>>, n: nat, room: seq<nat>, o: nat, cells: nat)
    requires Roomy(names, room, o, cells) && n <= |names|
    ensures Roomy(names[..n], room, o, cells)
  {
    forall k | 0 <= k < |room| ensures Load(names[..n], |room|, k) <= Load(names, |room|, k) {
      LoadMonotone(names, n, |room|, k);
    }
  }

  /** Bucket `k` holds its elements among the keys `names`. */
  ghost predicate Holds<V>(mem: seq<Cell<V>>, room: seq<nat>, o: nat, names: seq<Key<V>>, k: nat)
    requires k < |room|
  {
    room[k] != 8 ==> Layout(mem, o + Offset(room, k), Bucket(names, |room|, k))
  }

  ghost predicate Terminated<V>(mem: seq<Cell<V>>, room: seq<nat>, o: nat, names: seq<Key<V>>, k: nat)
    requires k < |room|
  {
    room[k] != 8 ==> PtrAt(mem, o + Offset(room, k) + Load(names, |room|, k), None)
  }

  /** The cells that bucket `k` owns. */
  ghost predicate Owns(room: seq<nat>, o: nat, k: nat, j: int)
    requires k < |room|
  {
    o + Offset(room, k) <= j < o + Offset(room, k) + room[k]
  }

  lemma BucketsDisjoint(room: seq<nat>, o: nat, key: nat, k: nat, j: int)
    requires key < |room| && k < |room| && k != key && room[k] != 8 && room[key] != 8
    requires Owns(room, o, k, j)
    ensures !Owns(room, o, key, j)
  {
    if k < key {
      OffsetsApart(room, k, key);
    } else {
      OffsetsApart(room, key, k);
    }
  }

  /** The elements of a bucket stay in place as long as its cells do. */
  lemma LayoutInRoom<V>(mem: seq<Cell<V>>, mem': seq<Cell<V>>, room: seq<nat>, o: nat, k: nat, es: seq<Elt<V>>)
    requires k < |room| && room[k] != 8 && o + Offset(room, |room|) <= |mem| == |mem'|
    requires Layout(mem, o + Offset(room, k), es) && TotalSize(es) <= room[k]
    requires forall j :: 0 <= j < |mem| && Owns(room, o, k, j) ==> mem'[j] == mem[j]
    ensures Layout(mem', o + Offset(room, k), es)
  {
    OffsetsApart(room, k, |room|);
    LayoutFrame(mem, mem', o + Offset(room, k), es);
  }

  lemma HoldsElsewhere<V>(mem: seq<Cell<V>>, mem': seq<Cell<V>>, room: seq<nat>, o: nat,
                          names: seq<Key<V>>, key: nat, k: nat)
    requires Roomy(names, room, o, |mem|) && |mem'| == |mem|
    requires key < |room| && k < |room| && k != key && room[key] != 8
    requires Holds(mem, room, o, names, k)
    requires forall j :: 0 <= j < |mem| && !Owns(room, o, key, j) ==> mem'[j] == mem[j]
    ensures Holds(mem', room, o, names, k)
  {
    if room[k] != 8 {
      forall j | 0 <= j < |mem| && Owns(room, o, k, j) ensures mem'[j] == mem[j] {
        BucketsDisjoint(room, o, key, k, j);
      }
      LayoutInRoom(mem, mem', room, o, k, Bucket(names, |room|, k));
    }
  }

  lemma HoldsAfterStore<V>(mem: seq<Cell<V>>, mem': seq<Cell<V>>, room: seq<nat>, o: nat,
                           done: seq<Key<V>>, x: Key<V>, i: nat, k: nat)
    requires |mem'| == |mem| && |room| > 0 && x.data.Some? && k == x.hash % |room| && room[k] != 8
    requires Holds(mem, room, o, done, k)
    requires i == o + Offset(room, k) + Load(done, |room|, k) <= |mem|
    requires EltAt(mem', i, Elt(Lower(x.data.value), x.value))
    requires forall j :: 0 <= j < i ==> mem'[j] == mem[j]
    ensures Holds(mem', room, o, done + [x], k)
  {
    LoadStep(done, x, |room|, k);
    var es := Bucket(done, |room|, k);
    LayoutFrame(mem, mem', o + Offset(room, k), es);
    LayoutAppend(mem', o + Offset(room, k), es, Elt(Lower(x.data.value), x.value));
  }

  /** The element of key `x` stays inside its bucket. */
  lemma StoreInRoom<V>(done: seq<Key<V>>, x: Key<V>, room: seq<nat>, o: nat, cells: nat, k: nat)
    requires Roomy(done + [x], room, o, cells)
    requires x.data.Some? && k == x.hash % |room|
    ensures room[k] != 8
    ensures Load(done, |room|, k) + EltSize(|x.data.value|) + 8 <= room[k]
    ensures o + Offset(room, k) + room[k] <= cells
  {
    LoadStep(done, x, |room|, k);
    OffsetsApart(room, k, |room|);
  }

  lemma HoldsAllAfterStore<V>(mem: seq<Cell<V>>, mem': seq<Cell<V>>, room: seq<nat>, o: nat,
                              done: seq<Key<V>>, x: Key<V>, i: nat, key: nat)
    requires Roomy(done, room, o, |mem|) && Roomy(done + [x], room, o, |mem|) && |mem'| == |mem|
    requires x.data.Some? && key == x.hash % |room|
    requires forall k :: 0 <= k < |room| ==> Holds(mem, room, o, done, k)
    requires i == o + Offset(room, key) + Load(done, |room|, key)
    requires EltAt(mem', i, Elt(Lower(x.data.value), x.value))
    requires forall j :: 0 <= j < |mem| && !(i <= j < i + 10 + |x.data.value|) ==> mem'[j] == mem[j]
    ensures forall k :: 0 <= k < |room| ==> Holds(mem', room, o, done + [x], k)
  {
    StoreInRoom(done, x, room, o, |mem|, key);
    forall k | 0 <= k < |room| ensures Holds(mem', room, o, done + [x], k) {
      if k == key {
        HoldsAfterStore(mem, mem', room, o, done, x, i, k);
      } else {
        HoldsElsewhere(mem, mem', room, o, done, key, k);
        LoadStep(done, x, |room|, k);
      }
    }
  }

  /** One turn of the loop that writes the elements. */
  method FillOne<V>(ghost done: seq<Key<V>>, x: Key<V>, ghost room: seq<nat>, ghost o: nat, base: nat,
                    buckets: array<Option<nat>>, test: array<nat>, mem: array<Cell<V>>)
    requires x.data.Some? && |x.data.value| < 65536
    requires 0 < buckets.Length == |room| <= test.Length
    requires forall k :: 0 <= k < |room| ==> buckets[k] == BucketAddr(room, base + o, k)
    requires Roomy(done, room, o, mem.Length) && Roomy(done + [x], room, o, mem.Length)
    requires forall k :: 0 <= k < |room| ==> test[k] == Load(done, |room|, k)
    requires forall k :: 0 <= k < |room| ==> Holds(mem[..], room, o, done, k)
    requires forall k :: 0 <= k < |room| ==> room[k] < 65536
    modifies test, mem
    ensures forall k :: 0 <= k < |room| ==> test[k] == Load(done + [x], |room|, k)
    ensures forall k :: 0 <= k < |room| ==> Holds(mem[..], room, o, done + [x], k)
  {
    ghost var before := mem[..];
    var key := x.hash % buckets.Length;
    StoreInRoom(done, x, room, o, mem.Length, key);
    assert buckets[key] == BucketAddr(room, base + o, key);
    var i := buckets[key].value + test[key] - base;
    StoreElt(mem, i, x.data.value, x.value);
    ghost var after := mem[..];
    HoldsAllAfterStore(before, after, room, o, done, x, i, key);
    test[key] := ToShort(test[key] + EltSize(|x.data.value|));
    LoadStepAll(done, x, |room|);
    assert mem[..] == after;
  }

  /** The loop that writes every element into its bucket. */
  method Fill<V>(names: seq<Key<V>>, ghost room: seq<nat>, ghost o: nat, base: nat,
                 buckets: array<Option<nat>>, test: array<nat>, mem: array<Cell<V>>)
    requires buckets.Length == |room| <= test.Length
    requires Roomy(names, room, o, mem.Length)
    requires forall k :: 0 <= k < |room| ==> buckets[k] == BucketAddr(room, base + o, k)
    requires forall k :: 0 <= k < |room| ==> room[k] < 65536
    requires forall n :: 0 <= n < |names| && names[n].data.Some? ==> |names[n].data.value| < 65536
    modifies test, mem
    ensures forall k :: 0 <= k < |room| ==> Holds(mem[..], room, o, names, k)
    ensures forall k :: 0 <= k < |room| ==> test[k] == Load(names, |room|, k)
  {
    for i := 0 to buckets.Length
      invariant forall k :: 0 <= k < i ==> test[k] == 0
    {
      test[i] := 0;
    }
    ghost var done: seq<Key<V>> := [];
    for n := 0 to |names|
      invariant done == names[..n]
      invariant forall k :: 0 <= k < |room| ==> test[k] == Load(done, |room|, k)
      invariant forall k :: 0 <= k < |room| ==> Holds(mem[..], room, o, done, k)
    {
      ghost var done' := done + [names[n]];
      assert names[..n + 1] == done';
      if names[n].data.Some? {
        RoomyPrefix(names, n, room, o, mem.Length);
        RoomyPrefix(names, n + 1, room, o, mem.Length);
        FillOne(done, names[n], room, o, base, buckets, test, mem);
      } else {
        forall k | 0 <= k < |room| ensures Bucket(done', |room|, k) == Bucket(done, |room|, k) {
          LoadStep(done, names[n], |room|, k);
        }
        assert forall k :: 0 <= k < |room| ==> Holds(mem[..], room, o, done, k) ==> Holds(mem[..], room, o, done', k);
      }
      done := done';
    }
    assert done == names;
  }

  lemma TerminatorKeeps<V>(mem: seq<Cell<V>>, mem': seq<Cell<V>>, room: seq<nat>, o: nat,
                           names: seq<Key<V>>, i: nat, k: nat)
    requires Roomy(names, room, o, |mem|) && |mem'| == |mem| && i < |room| && k < |room| && room[i] != 8
    requires Holds(mem, room, o, names, k)
    requires var p := o + Offset(room, i) + Load(names, |room|, i);
             forall j :: 0 <= j < |mem| && !(p <= j < p + 8) ==> mem'[j] == mem[j]
    ensures Holds(mem', room, o, names, k)
    ensures k != i && Terminated(mem, room, o, names, k) ==> Terminated(mem', room, o, names, k)
  {
    if k == i {
      OffsetsApart(room, k, |room|);
      LayoutFrame(mem, mem', o + Offset(room, k), Bucket(names, |room|, k));
    } else {
      HoldsElsewhere(mem, mem', room, o, names, i, k);
      if room[k] != 8 {
        forall j | 0 <= j < |mem| && Owns(room, o, k, j) ensures mem'[j] == mem[j] {
          BucketsDisjoint(room, o, i, k, j);
        }
      }
    }
  }

  /** The loop that ends every used bucket with a NULL value. */
  method Terminate<V>(ghost names: seq<Key<V>>, ghost room: seq<nat>, ghost o: nat, base: nat,
                      buckets: array<Option<nat>>, test: array<nat>, mem: array<Cell<V>>)
    requires buckets.Length == |room| <= test.Length
    requires Roomy(names, room, o, mem.Length)
    requires forall k :: 0 <= k < |room| ==> buckets[k] == BucketAddr(room, base + o, k)
    requires forall k :: 0 <= k < |room| ==> test[k] == Load(names, |room|, k)
    requires forall k :: 0 <= k < |room| ==> Holds(mem[..], room, o, names, k)
    modifies mem
    ensures forall k :: 0 <= k < |room| ==> Holds(mem[..], room, o, names, k) && Terminated(mem[..], room, o, names, k)
  {
    for i := 0 to buckets.Length
      invariant forall k :: 0 <= k < |room| ==> Holds(mem[..], room, o, names, k)
      invariant forall k :: 0 <= k < i ==> Terminated(mem[..], room, o, names, k)
    {
      assert buckets[i] == BucketAddr(room, base + o, i);
      if buckets[i] != None {
        ghost var before := mem[..];
        OffsetsApart(room, i, |room|);
        StorePtr(mem, buckets[i].value + test[i] - base, None);
        ghost var after := mem[..];
        forall k | 0 <= k < |room|
          ensures Holds(after, room, o, names, k)
          ensures k != i && Terminated(before, room, o, names, k) ==> Terminated(after, room, o, names, k)
        {
          TerminatorKeeps(before, after, room, o, names, i, k);
        }
      }
    }
  }

  // ------------------------------------------------------------ ngx_hash_init

  ghost predicate TooSmallFor<V>(cfg: Config, x: Key<V>) {
    x.data.Some? && cfg.bucketSize < EltSize(|x.data.value|) + 8
  }

  /** The size ngx_hash_init settles on. */
  ghost function TableSize<V>(cfg: Config, names: seq<Key<V>>): (size: nat)
    requires cfg.maxSize > 0 && CanDivide(cfg)
    ensures 0 < size <= cfg.maxSize
  {
    FirstFit(names, cfg, StartSize(cfg, |names|))
  }

  /** Exactly when ngx_hash_init reports an error, memory exhaustion aside. */
  ghost predicate CannotBuild<V>(cfg: Config, names: seq<Key<V>>)
    requires cfg.cacheline <= 65536
  {
    || cfg.maxSize == 0
    || cfg.bucketSize > 65536 - cfg.cacheline
    || (exists x :: x in names && TooSmallFor(cfg, x))
    || (CanDivide(cfg) &&
        exists k :: 0 <= k < TableSize(cfg, names) && Need(names, TableSize(cfg, names), k) > 65536 - cfg.cacheline)
  }

  /** The same names and hashes, with any values. */
  ghost predicate SameKeys<V, W>(a: seq<Key<V>>, b: seq<Key<W>>) {
    |a| == |b| && forall i :: 0 <= i < |a| ==> a[i].data == b[i].data && a[i].hash == b[i].hash
  }

  lemma {:induction false} SameLoad<V, W>(a: seq<Key<V>>, b: seq<Key<W>>, size: nat, k: nat)
    requires SameKeys(a, b) && size > 0
    ensures Load(a, size, k) == Load(b, size, k)
  {
    if a != [] {
      var n := |a| - 1;
      SameLoad(a[..n], b[..n], size, k);
      assert a == a[..n] + [a[n]] && b == b[..n] + [b[n]];
      LoadStep(a[..n], a[n], size, k);
      LoadStep(b[..n], b[n], size, k);
    }
  }

  lemma {:induction false} SameFirstFit<V, W>(a: seq<Key<V>>, b: seq<Key<W>>, cfg: Config, s: nat)
    requires SameKeys(a, b) && s > 0 && cfg.maxSize > 0
    ensures FirstFit(a, cfg, s) == FirstFit(b, cfg, s)
    decreases cfg.maxSize - s
  {
    if s <= cfg.maxSize {
      forall k | 0 <= k < s ensures Load(a, s, k) == Load(b, s, k) {
        SameLoad(a, b, s, k);
      }
      SameFirstFit(a, b, cfg, s + 1);
    }
  }

  lemma SameTooSmall<V, W>(a: seq<Key<V>>, b: seq<Key<W>>, cfg: Config)
    requires SameKeys(a, b)
    ensures (exists x :: x in a && TooSmallFor(cfg, x)) ==> exists y :: y in b && TooSmallFor(cfg, y)
  {
    if x :| x in a && TooSmallFor(cfg, x) {
      var i :| 0 <= i < |a| && a[i] == x;
      assert b[i] in b && TooSmallFor(cfg, b[i]);
    }
  }

  lemma SameTableSize<V, W>(a: seq<Key<V>>, b: seq<Key<W>>, cfg: Config)
    requires SameKeys(a, b) && cfg.maxSize > 0 && CanDivide(cfg)
    ensures TableSize(cfg, a) == TableSize(cfg, b)
    ensures forall k :: 0 <= k < TableSize(cfg, a) ==> Need(a, TableSize(cfg, a), k) == Need(b, TableSize(cfg, a), k)
  {
    SameFirstFit(a, b, cfg, StartSize(cfg, |a|));
    var size := TableSize(cfg, a);
    forall k | 0 <= k < size ensures Need(a, size, k) == Need(b, size, k) {
      SameLoad(a, b, size, k);
    }
  }

  /** Whether a table can be built does not depend on the values. */
  lemma SameCannotBuild<V, W>(a: seq<Key<V>>, b: seq<Key<W>>, cfg: Config)
    requires SameKeys(a, b) && cfg.cacheline <= 65536
    ensures CannotBuild(cfg, a) <==> CannotBuild(cfg, b)
  {
    hide Need, TableSize, TooSmallFor;
    SameTooSmall(a, b, cfg);
    SameTooSmall(b, a, cfg);
    if cfg.maxSize > 0 && CanDivide(cfg) {
      SameTableSize(a, b, cfg);
    }
  }

  /** The table `t` answers every query as the list of keys would. */
  ghost predicate Represents<V>(t: Table<V>, names: seq<Key<V>>) {
    && |t.buckets| > 0
    && forall k, name :: 0 <= k < |t.buckets| ==> FindIn(t, k, name) == FirstMatch(Bucket(names, |t.buckets|, k), name)
  }

  lemma BucketAnswers<V>(t: Table<V>, room: seq<nat>, o: nat, names: seq<Key<V>>, k: nat, name: seq<Byte>)
    requires Roomy(names, room, o, |t.mem|) && k < |room| == |t.buckets|
    requires (t.base + o + Offset(room, k)) % 8 == 0
    requires t.buckets[k] == BucketAddr(room, t.base + o, k)
    requires Holds(t.mem, room, o, names, k) && Terminated(t.mem, room, o, names, k)
    ensures FindIn(t, k, name) == FirstMatch(Bucket(names, |room|, k), name)
  {
    var es := Bucket(names, |room|, k);
    if room[k] == 8 {
      assert TotalSize(es) == 0;
    } else {
      var a := t.base + o + Offset(room, k);
      WalkFindsFirstMatch(t, a, a / 8, es, name);
    }
  }

  lemma BuiltTableRepresents<V>(t: Table<V>, room: seq<nat>, o: nat, names: seq<Key<V>>)
    requires Roomy(names, room, o, |t.mem|) && |t.buckets| == |room|
    requires (t.base + o) % 8 == 0 && forall k :: 0 <= k < |room| ==> room[k] % 8 == 0
    requires forall k :: 0 <= k < |room| ==> t.buckets[k] == BucketAddr(room, t.base + o, k)
    requires forall k :: 0 <= k < |room| ==> Holds(t.mem, room, o, names, k) && Terminated(t.mem, room, o, names, k)
    ensures forall k, name :: 0 <= k < |room| ==> FindIn(t, k, name) == FirstMatch(Bucket(names, |room|, k), name)
  {
    forall k, name: seq<Byte> | 0 <= k < |room|
      ensures FindIn(t, k, name) == FirstMatch(Bucket(names, |room|, k), name)
    {
      OffsetAligned(t.base + o, room, k);
      BucketAnswers(t, room, o, names, k, name);
    }
  }

  method AlignBlock(poolAddr: nat, cacheline: nat) returns (elts: nat)
    requires GoodCacheline(cacheline)
    ensures poolAddr <= elts < poolAddr + cacheline && elts % 8 == 0
  {
    CachelineDivides(cacheline);
    elts := Align(poolAddr, cacheline);
    AlignBounds(poolAddr, cacheline);
    MultipleTrans(elts, cacheline);
  }

  /** Rounds the bucket loads up, allocates the element block and places the buckets in it. */
  method LayOut<V>(cacheline: nat, ghost names: seq<Key<V>>, size: nat, poolAddr: nat, test: array<nat>)
    returns (ghost room: seq<nat>, ghost o: nat, buckets: array<Option<nat>>, block: array<Cell<V>>)
    requires GoodCacheline(cacheline) && 0 < size <= test.Length
    requires forall k :: 0 <= k < size ==> test[k] == Need(names, size, k) <= 65536 - cacheline
    modifies test
    ensures fresh(buckets) && fresh(block) && buckets.Length == |room| == size
    ensures Roomy(names, room, o, block.Length)
    ensures (poolAddr + o) % 8 == 0
    ensures forall k :: 0 <= k < size ==> room[k] % 8 == 0 && room[k] < 65536
    ensures forall k :: 0 <= k < size ==> buckets[k] == BucketAddr(room, poolAddr + o, k)
  {
    var need := test[..size];
    var len := RoundUp(need, cacheline, test);
    room := test[..size];
    OffsetFrame(room, test[..], size);
    block := new Cell<V>[len + cacheline](_ => Undef);
    var elts := AlignBlock(poolAddr, cacheline);
    o := elts - poolAddr;
    forall k | 0 <= k < size ensures IsRoom(Need(names, size, k), room[k]) {
      assert need[k] == Need(names, size, k);
    }
    RoomsAreRoomy(names, room, o, block.Length);
    ghost var all := test[..];
    buckets := Place(size, elts, test);
    forall k | 0 <= k < size ensures buckets[k] == BucketAddr(room, poolAddr + o, k) {
      OffsetFrame(room, all, k);
    }
  }

  /** The second half of ngx_hash_init: lay out the memory and fill it. */
  method Build<V>(cacheline: nat, names: seq<Key<V>>, size: nat, poolAddr: nat, test: array<nat>)
    returns (t: Table<V>)
    requires GoodCacheline(cacheline) && 0 < size <= test.Length
    requires forall k :: 0 <= k < size ==> test[k] == Need(names, size, k) <= 65536 - cacheline
    requires forall n :: 0 <= n < |names| && names[n].data.Some? ==> |names[n].data.value| < 65536
    modifies test
    ensures |t.buckets| == size && Represents(t, names)
  {
    ghost var room, o;
    var buckets, block;
    room, o, buckets, block := LayOut(cacheline, names, size, poolAddr, test);
    Fill(names, room, o, poolAddr, buckets, test, block);
    Terminate(names, room, o, poolAddr, buckets, test, block);
    t := Table(poolAddr, block[..], buckets[..]);
    BuiltTableRepresents(t, room, o, names);
  }

  /**
    ngx_hash_init.  The pool may return any address for the element memory.  The size
    search divides by the number of smallest elements that fit a bucket, which is zero for
    a bucket of 8 to 23 bytes; a key shows such a bucket too small before that.
  */
  method HashInit<V>(cfg: Config, names: seq<Key<V>>) returns (r: Result<Table<V>>)
    requires GoodCacheline(cfg.cacheline)
    requires CanDivide(cfg) || exists x :: x in names && x.data.Some?
    ensures r.Error? <==> CannotBuild(cfg, names)
    ensures r.Ok? ==> |r.value.buckets| == TableSize(cfg, names)
    ensures r.Ok? ==> Represents(r.value, names)
  {
    if cfg.maxSize == 0 || cfg.bucketSize > 65536 - cfg.cacheline {
      return Error;
    }
    for n := 0 to |names|
      invariant forall i :: 0 <= i < n ==> !TooSmallFor(cfg, names[i])
    {
      if names[n].data.Some? && cfg.bucketSize < EltSize(|names[n].data.value|) + 8 {
        assert names[n] in names && TooSmallFor(cfg, names[n]);
        return Error;
      }
    }
    assert forall x :: x in names ==> !TooSmallFor(cfg, x);
    assert cfg.bucketSize < 24 ==> NoneLive(names);
    var test := new nat[cfg.maxSize];
    var size := ChooseSize(cfg, names, test);
    var ok := Measure(names, size, cfg.cacheline, test);
    assert size == TableSize(cfg, names);
    if !ok {
      return Error;
    }
    var poolAddr: nat := *;
    var t := Build(cfg.cacheline, names, size, poolAddr, test);
    return Ok(t);
  }

  // ------------------------------------------------- the table is a map

  /** Each key carries the hash of its lower-cased name. */
  ghost predicate HashedBy<V>(names: seq<Key<V>>, h: seq<Byte> -> nat) {
    forall n :: 0 <= n < |names| && names[n].data.Some? ==> names[n].hash == h(Lower(names[n].data.value))
  }

  ghost predicate IsKey<V>(x: Key<V>, name: seq<Byte>) {
    x.data.Some? && Lower(x.data.value) == name
  }

  /** No two keys have the same lower-cased name. */
  ghost predicate DistinctKeys<V>(names: seq<Key<V>>) {
    forall i, j, name :: 0 <= i < j < |names| ==> !(IsKey(names[i], name) && IsKey(names[j], name))
  }

  lemma {:induction false} FirstMatchAppend<V>(es: seq<Elt<V>>, e: Elt<V>, name: seq<Byte>)
    ensures FirstMatch(es, name) != Fault
    ensures FirstMatch(es + [e], name) ==
            if FirstMatch(es, name).Found? then FirstMatch(es, name)
            else if e.name == name then Found(e.value) else Null
  {
    if es != [] {
      assert (es + [e])[1..] == es[1..] + [e];
      FirstMatchAppend(es[1..], e, name);
    }
  }

  /** Key `n` is the first with the name. */
  ghost predicate IsFirstKey<V>(names: seq<Key<V>>, n: int, name: seq<Byte>) {
    0 <= n < |names| && IsKey(names[n], name) && forall m :: 0 <= m < n ==> !IsKey(names[m], name)
  }

  lemma BucketAppend<V>(front: seq<Key<V>>, x: Key<V>, h: seq<Byte> -> nat, size: nat, name: seq<Byte>, k: nat)
    requires size > 0 && k == h(name) % size && (x.data.Some? ==> x.hash == h(Lower(x.data.value)))
    ensures FirstMatch(Bucket(front + [x], size, k), name) ==
            if FirstMatch(Bucket(front, size, k), name).Null? && IsKey(x, name) then Found(x.value)
            else FirstMatch(Bucket(front, size, k), name)
    ensures FirstMatch(Bucket(front, size, k), name) != Fault
  {
    LoadStep(front, x, size, k);
    assert (front + [x])[..|front|] == front;
    FirstMatchAppend(Bucket(front, size, k), Elt(if x.data.Some? then Lower(x.data.value) else [], x.value), name);
  }

  /** `r` is the value of the first key with the name, or NULL if there is none. */
  ghost predicate FindsFirst<V>(names: seq<Key<V>>, name: seq<Byte>, r: Lookup<V>) {
    && (forall n :: IsFirstKey(names, n, name) ==> r == Found(names[n].value))
    && ((forall n :: 0 <= n < |names| ==> !IsKey(names[n], name)) ==> r == Null)
  }

  lemma {:induction false} FirstExists<V>(names: seq<Key<V>>, name: seq<Byte>)
    ensures (exists n :: IsFirstKey(names, n, name)) || forall n :: 0 <= n < |names| ==> !IsKey(names[n], name)
  {
    if names != [] {
      var front := names[..|names| - 1];
      FirstExists(front, name);
      assert forall m :: 0 <= m < |front| ==> names[m] == front[m];
      if n :| IsFirstKey(front, n, name) {
        assert IsFirstKey(names, n, name);
      } else if IsKey(names[|front|], name) {
        assert IsFirstKey(names, |front|, name);
      }
    }
  }

  lemma FirstOfAppended<V>(front: seq<Key<V>>, x: Key<V>, name: seq<Byte>, r: Lookup<V>)
    requires FindsFirst(front, name, r) && r != Fault
    ensures FindsFirst(front + [x], name, if r.Null? && IsKey(x, name) then Found(x.value) else r)
  {
    var names := front + [x];
    assert names[|front|] == x;
    assert forall m :: 0 <= m < |front| ==> names[m] == front[m];
    FirstExists(front, name);
    forall n | IsFirstKey(names, n, name) && n < |front| ensures IsFirstKey(front, n, name) {
    }
  }

  /** What the bucket of a name finds: the value of the first key with that name. */
  lemma {:induction false} BucketFindsFirst<V>(names: seq<Key<V>>, h: seq<Byte> -> nat, size: nat, name: seq<Byte>, k: nat)
    requires size > 0 && k == h(name) % size && HashedBy(names, h)
    ensures FindsFirst(names, name, FirstMatch(Bucket(names, size, k), name))
  {
    if names != [] {
      var front, x := names[..|names| - 1], names[|names| - 1];
      BucketFindsFirst(front, h, size, name, k);
      assert names == front + [x];
      BucketAppend(front, x, h, size, name, k);
      hide Bucket, FirstMatch, IsKey, HashedBy, FindsFirst;
      FirstOfAppended(front, x, name, FirstMatch(Bucket(front, size, k), name));
    }
  }

  /** A table built from any keys gives for every name the value of the first key of that name, and NULL if there is none. */
  lemma HashFindsFirst<V>(t: Table<V>, names: seq<Key<V>>, h: seq<Byte> -> nat, name: seq<Byte>)
    requires Represents(t, names) && HashedBy(names, h)
    ensures FindsFirst(names, name, Find(t, h(name), name))
  {
    BucketFindsFirst(names, h, |t.buckets|, name, h(name) % |t.buckets|);
  }

  /**
    The hash agrees with a map: a table built from distinct keys gives for every
    key the value stored with it, and NULL for every other name.
  */
  lemma HashAgreesWithMap<V>(t: Table<V>, names: seq<Key<V>>, h: seq<Byte> -> nat, name: seq<Byte>)
    requires Represents(t, names) && HashedBy(names, h) && DistinctKeys(names)
    ensures forall n :: 0 <= n < |names| && IsKey(names[n], name) ==> Find(t, h(name), name) == Found(names[n].value)
    ensures (forall n :: 0 <= n < |names| ==> !IsKey(names[n], name)) ==> Find(t, h(name), name) == Null
  {
    HashFindsFirst(t, names, h, name);
    forall n | 0 <= n < |names| && IsKey(names[n], name) ensures IsFirstKey(names, n, name) {
    }
  }
}
