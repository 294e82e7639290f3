/**
  Shared memory zones (ngx_cycle.c): how zones are declared, and what a reload does with
  the zones of the old and of the new cycle.
*/
module SharedZones {
  import opened Bytes

  /** The address of a zone that has none. */
  const NULL := 0

  /** ngx_shm_zone_t with its ngx_shm_t. */
  datatype Zone = Zone(name: seq<Byte>, size: nat, tag: int, noreuse: bool, addr: int)

  // ---------------------------------------------------------------- names

  /** Equal lengths, and strncmp finds no difference. */
  predicate SameName(a: seq<Byte>, b: seq<Byte>) {
    |a| == |b| && StrnEqual(a, b, |a|)
  }

  /** Names compare like pairs of a length and a C string, so "the same name" is an equivalence. */
  lemma SameNameMeans(a: seq<Byte>, b: seq<Byte>)
    ensures SameName(a, b) <==> |a| == |b| && CString(a) == CString(b)
  {
    if |a| == |b| {
      StrnEqualIsCString(a, b);
    }
  }

  /** The first zone from `i` on with the name, or the number of zones. */
  function FindName(zones: seq<Zone>, name: seq<Byte>, i: nat): (r: nat)
    requires i <= |zones|
    ensures i <= r <= |zones|
    ensures r < |zones| ==> SameName(name, zones[r].name)
    ensures forall j :: i <= j < r ==> !SameName(name, zones[j].name)
    decreases |zones| - i
  {
    if i == |zones| || SameName(name, zones[i].name) then i else FindName(zones, name, i + 1)
  }

  ghost predicate UniqueNames(zones: seq<Zone>) {
    forall i, j :: 0 <= i < j < |zones| ==> !SameName(zones[i].name, zones[j].name)
  }

  /** Where names are unique, the zone found is the only one with that name. */
  lemma FoundIsOnly(zones: seq<Zone>, name: seq<Byte>, k: nat)
    requires UniqueNames(zones) && k < |zones| && SameName(name, zones[k].name)
    ensures FindName(zones, name, 0) == k
  {
    var r := FindName(zones, name, 0);
    SameNameMeans(name, zones[k].name);
    if r < k {
      SameNameMeans(name, zones[r].name);
      SameNameMeans(zones[r].name, zones[k].name);
    }
  }

  // ------------------------------------------------------- declaring zones

  /** A new zone, as ngx_shared_memory_add pushes it. */
  function NewZone(name: seq<Byte>, size: nat, tag: int): Zone {
    Zone(name, size, tag, false, NULL)
  }

  /** The zones after a declaration. */
  function Declared(zones: seq<Zone>, name: seq<Byte>, size: nat, tag: int): seq<Zone> {
    var i := FindName(zones, name, 0);
    if i == |zones| then zones + [NewZone(name, size, tag)]
    else if zones[i].tag == tag && zones[i].size == 0 then zones[i := zones[i].(size := size)]
    else zones
  }

  /** Whether a declaration is refused: the name is used for something else or with another size. */
  predicate Refused(zones: seq<Zone>, name: seq<Byte>, size: nat, tag: int) {
    var i := FindName(zones, name, 0);
    i < |zones| && (zones[i].tag != tag || (size != 0 && zones[i].size != 0 && zones[i].size != size))
  }

  /** ngx_shared_memory_add. */
  method Add(zones: seq<Zone>, name: seq<Byte>, size: nat, tag: int) returns (zones': seq<Zone>, r: Option<nat>)
    ensures zones' == Declared(zones, name, size, tag)
    ensures r == if Refused(zones, name, size, tag) then None else Some(FindName(zones, name, 0))
  {
    zones' := zones;
    var i := 0;
    while i < |zones|
      invariant i <= |zones| && FindName(zones, name, 0) == FindName(zones, name, i)
    {
      if SameName(name, zones[i].name) {
        if tag != zones[i].tag {
          return zones, None;
        }
        if zones[i].size == 0 {
          zones' := zones[i := zones[i].(size := size)];
        }
        if size != 0 && size != zones'[i].size {
          return zones', None;
        }
        return zones', Some(i);
      }
      i := i + 1;
    }
    return zones + [NewZone(name, size, tag)], Some(i);
  }

  /** A zone that is given has the name, the tag and, if one was asked for, the size. */
  lemma DeclaredZone(zones: seq<Zone>, name: seq<Byte>, size: nat, tag: int)
    requires !Refused(zones, name, size, tag)
    ensures var i, after := FindName(zones, name, 0), Declared(zones, name, size, tag);
            i < |after| && SameName(name, after[i].name) && after[i].tag == tag && (size != 0 ==> after[i].size == size)
  {
    SameNameMeans(name, name);
  }

  /**
    Two declarations of one name: the second is refused exactly when it is for another
    use, or when both ask for a size and not for the same.  Otherwise there is one zone,
    with the size that was asked for.
  */
  lemma TwoDeclarations(name: seq<Byte>, again: seq<Byte>, s1: nat, s2: nat, t1: int, t2: int)
    requires SameName(again, name)
    ensures !Refused([], name, s1, t1) && Declared([], name, s1, t1) == [Zone(name, s1, t1, false, 0)]
    ensures var zones := [Zone(name, s1, t1, false, 0)];
            && (Refused(zones, again, s2, t2) <==> t1 != t2 || (s1 != 0 && s2 != 0 && s1 != s2))
            && Declared(zones, again, s2, t2) == [Zone(name, if s1 == 0 && t1 == t2 then s2 else s1, t1, false, 0)]
  {
  }

  /** A declaration of another name leaves the zones there are alone. */
  lemma OtherDeclaration(zones: seq<Zone>, name: seq<Byte>, size: nat, tag: int)
    requires forall k :: 0 <= k < |zones| ==> !SameName(name, zones[k].name)
    ensures !Refused(zones, name, size, tag) && Declared(zones, name, size, tag) == zones + [Zone(name, size, tag, false, 0)]
  {
  }

  datatype Request = Request(name: seq<Byte>, size: nat, tag: int)

  /** The zones after any run of declarations. */
  function DeclaredAll(zones: seq<Zone>, run: seq<Request>): seq<Zone>
    decreases |run|
  {
    if run == [] then zones else DeclaredAll(Declared(zones, run[0].name, run[0].size, run[0].tag), run[1..])
  }

  lemma DeclaredUnique(zones: seq<Zone>, name: seq<Byte>, size: nat, tag: int)
    requires UniqueNames(zones)
    ensures UniqueNames(Declared(zones, name, size, tag))
  {
    var i, after := FindName(zones, name, 0), Declared(zones, name, size, tag);
    forall j, k | 0 <= j < k < |after| ensures !SameName(after[j].name, after[k].name) {
      if k == |zones| {
        SameNameMeans(after[j].name, name);
        SameNameMeans(name, after[j].name);
      } else {
        assert !SameName(zones[j].name, zones[k].name);
      }
    }
  }

  /** Names stay unique. */
  lemma {:induction false} NamesStayUnique(zones: seq<Zone>, run: seq<Request>)
    requires UniqueNames(zones)
    ensures UniqueNames(DeclaredAll(zones, run))
    decreases |run|
  {
    if run != [] {
      DeclaredUnique(zones, run[0].name, run[0].size, run[0].tag);
      NamesStayUnique(Declared(zones, run[0].name, run[0].size, run[0].tag), run[1..]);
    }
  }

  // ------------------------------------------------------------ taking over

  /** Same tag, same size, and not to be created anew. */
  predicate Compatible(z: Zone, o: Zone) {
    z.tag == o.tag && z.size == o.size && !z.noreuse
  }

  /** The zone of the other cycle that goes on as `z`, or the number of zones there. */
  function Counterpart(others: seq<Zone>, z: Zone): (r: nat)
    ensures r <= |others|
    ensures r < |others| ==> SameName(z.name, others[r].name) && Compatible(z, others[r])
  {
    var j := FindName(others, z.name, 0);
    if j < |others| && Compatible(z, others[j]) then j else |others|
  }

  /** Which zone goes on: the one of the same length and C string as name, tag and size, unless it is to be created anew. */
  lemma GoesOn(others: seq<Zone>, z: Zone, i: nat)
    requires UniqueNames(others) && i < |others|
    ensures Counterpart(others, z) == i <==>
            && |z.name| == |others[i].name| && CString(z.name) == CString(others[i].name)
            && z.tag == others[i].tag && z.size == others[i].size && !z.noreuse
  {
    SameNameMeans(z.name, others[i].name);
    if SameName(z.name, others[i].name) {
      FoundIsOnly(others, z.name, i);
    }
  }

  /** The same zone in both cycles, but for the flag and the address. */
  predicate SameZone(z: Zone, o: Zone) {
    SameName(z.name, o.name) && z.tag == o.tag && z.size == o.size
  }

  /** A zone that both cycles have is to be created anew in both or in neither. */
  ghost predicate FlagsAgree(olds: seq<Zone>, news: seq<Zone>) {
    forall i, k :: 0 <= i < |olds| && 0 <= k < |news| && SameZone(news[k], olds[i]) ==> olds[i].noreuse == news[k].noreuse
  }

  /** A new zone takes over an old one exactly when, looked at from the old cycle, the old one goes on as the new one. */
  lemma BothSidesAgree(olds: seq<Zone>, news: seq<Zone>, i: nat, k: nat)
    requires UniqueNames(olds) && UniqueNames(news) && FlagsAgree(olds, news) && i < |olds| && k < |news|
    ensures Counterpart(olds, news[k]) == i <==> Counterpart(news, olds[i]) == k
  {
    SameNameMeans(news[k].name, olds[i].name);
    SameNameMeans(olds[i].name, news[k].name);
    if SameName(news[k].name, olds[i].name) {
      FoundIsOnly(olds, news[k].name, i);
      FoundIsOnly(news, olds[i].name, k);
    }
  }

  /** No old zone is taken over twice. */
  lemma TakeoverInjective(olds: seq<Zone>, news: seq<Zone>, j: nat, k: nat)
    requires UniqueNames(news) && j < k < |news| && Counterpart(olds, news[j]) == Counterpart(olds, news[k])
    ensures Counterpart(olds, news[j]) == |olds|
  {
    var i := Counterpart(olds, news[j]);
    if i < |olds| {
      SameNameMeans(news[j].name, olds[i].name);
      SameNameMeans(news[k].name, olds[i].name);
      SameNameMeans(news[j].name, news[k].name);
    }
  }

  // ---------------------------------------------------------------- memory

  /**
    The system's shared memory.  Where the next mapping is placed is not known: `place`
    says it, from the number of the attempt and the addresses mapped then; NULL is a failure.
  */
  class Memory {
    const place: (nat, set<int>) -> int
    var attempts: nat
    var mapped: set<int>
    var frees: seq<int>

    constructor (where: (nat, set<int>) -> int, taken: set<int>)
      ensures place == where && mapped == taken && attempts == 0 && frees == []
    {
      place, mapped, attempts, frees := where, taken, 0, [];
    }

    /** A new mapping is never placed on another one. */
    ghost predicate Sound()
      reads this
    {
      forall k, taken :: place(k, taken) != NULL ==> place(k, taken) !in taken
    }

    /** There is always memory. */
    ghost predicate AlwaysPlaces() {
      forall k, taken :: place(k, taken) != NULL
    }

    /** ngx_shm_alloc: the address, or NULL. */
    method Alloc() returns (addr: int)
      requires Sound()
      modifies this`attempts, this`mapped
      ensures addr == place(old(attempts), old(mapped)) && attempts == old(attempts) + 1
      ensures addr == NULL ==> mapped == old(mapped)
      ensures addr != NULL ==> addr !in old(mapped) && mapped == old(mapped) + {addr}
    {
      addr := place(attempts, mapped);
      attempts := attempts + 1;
      if addr != NULL {
        mapped := mapped + {addr};
      }
    }

    /** ngx_shm_free. */
    method Free(addr: int)
      modifies this`mapped, this`frees
      ensures mapped == old(mapped) - {addr} && frees == old(frees) + [addr]
    {
      mapped := mapped - {addr};
      frees := frees + [addr];
    }
  }

  // ---------------------------------------------------------------- creating

  /** A new zone that has memory of its own. */
  predicate Own(olds: seq<Zone>, z: Zone) {
    z.addr != NULL && Counterpart(olds, z) == |olds|
  }

  ghost function OwnAddrs(olds: seq<Zone>, news: seq<Zone>, i: nat): set<int> {
    set k | i <= k < |news| && Own(olds, news[k]) :: news[k].addr
  }

  /**
    The first `n` zones have been looked at: each that takes over an old one has its
    address; the others have addresses of their own, all different and not in use before,
    or none.  The zones after them are as configured.
  */
  ghost predicate Creating(olds: seq<Zone>, was: seq<Zone>, now: seq<Zone>, taken: set<int>, n: nat) {
    && |was| == |now| && n <= |now|
    && (forall k :: 0 <= k < |was| ==> was[k].addr == NULL && now[k] == was[k].(addr := now[k].addr))
    && (forall k :: n <= k < |was| ==> now[k].addr == NULL)
    && (forall k :: 0 <= k < n && Counterpart(olds, was[k]) < |olds| ==> now[k].addr == olds[Counterpart(olds, was[k])].addr)
    && (forall k :: 0 <= k < |now| && Own(olds, now[k]) ==> now[k].addr !in taken)
    && forall j, k :: 0 <= j < k < |now| && Own(olds, now[j]) && Own(olds, now[k]) ==> now[j].addr != now[k].addr
  }

  lemma SameCounterpart(others: seq<Zone>, z: Zone, addr: int)
    ensures Counterpart(others, z.(addr := addr)) == Counterpart(others, z)
  {
  }

  /** The next zone gets an address, or none. */
  lemma CreateNext(olds: seq<Zone>, was: seq<Zone>, now: seq<Zone>, taken: set<int>, n: nat, addr: int)
    requires Creating(olds, was, now, taken, n) && n < |now|
    requires var i := Counterpart(olds, was[n]);
             if i < |olds| then addr == olds[i].addr else addr == NULL || addr !in taken + OwnAddrs(olds, now, 0)
    ensures Creating(olds, was, now[n := now[n].(addr := addr)], taken, n + 1)
    ensures OwnAddrs(olds, now[n := now[n].(addr := addr)], 0) ==
            OwnAddrs(olds, now, 0) + if Counterpart(olds, was[n]) == |olds| && addr != NULL then {addr} else {}
  {
    hide Counterpart;
    var now' := now[n := now[n].(addr := addr)];
    SameCounterpart(olds, was[n], now[n].addr);
    SameCounterpart(olds, was[n], addr);
    forall k | 0 <= k < |now| && Own(olds, now[k]) ensures now[k].addr in OwnAddrs(olds, now, 0) && k != n {
    }
    forall f ensures f in OwnAddrs(olds, now', 0) <==>
                     f in OwnAddrs(olds, now, 0) || (f == addr && Own(olds, now'[n]))
    {
      if f in OwnAddrs(olds, now, 0) {
        var k :| 0 <= k < |now| && Own(olds, now[k]) && now[k].addr == f;
        assert now'[k] == now[k];
      }
      if f == addr && Own(olds, now'[n]) {
        assert now'[n].addr == f;
      }
    }
  }

  /** The inner loop: the first zone of that name decides. */
  method FindCounterpart(others: seq<Zone>, z: Zone) returns (r: nat)
    ensures r == Counterpart(others, z)
  {
    var n := 0;
    while n < |others|
      invariant n <= |others| && FindName(others, z.name, 0) == FindName(others, z.name, n)
    {
      if SameName(z.name, others[n].name) {
        if Compatible(z, others[n]) {
          return n;
        }
        break;
      }
      n := n + 1;
    }
    return |others|;
  }

  lemma NothingCreated(olds: seq<Zone>, was: seq<Zone>, taken: set<int>)
    requires forall k :: 0 <= k < |was| ==> was[k].addr == NULL
    ensures Creating(olds, was, was, taken, 0) && taken + OwnAddrs(olds, was, 0) == taken
  {
  }

  lemma NotCreated(olds: seq<Zone>, was: seq<Zone>, now: seq<Zone>, taken: set<int>, i: nat)
    requires Creating(olds, was, now, taken, i) && i < |now|
    ensures |was| == |now| && now[i] == was[i]
  {
  }

  /** Every new zone that takes over no old one has got memory. */
  ghost predicate AllCreated(olds: seq<Zone>, now: seq<Zone>) {
    forall k :: 0 <= k < |now| && Counterpart(olds, now[k]) == |olds| ==> now[k].addr != NULL
  }

  /** The zone `k` has a size, memory that could be set up unless it takes over an old one, and is initialised. */
  ghost predicate ZoneFine(olds: seq<Zone>, z: Zone, k: nat, pools: nat -> bool, inits: nat -> bool) {
    z.size != 0 && (Counterpart(olds, z) == |olds| ==> z.addr != NULL && pools(k)) && inits(k)
  }

  ghost predicate ZonesFine(olds: seq<Zone>, now: seq<Zone>, n: nat, pools: nat -> bool, inits: nat -> bool)
    requires n <= |now|
  {
    forall k :: 0 <= k < n ==> ZoneFine(olds, now[k], k, pools, inits)
  }

  /** The zones before the last one looked at are fine, and that one, or the next, is not. */
  ghost predicate StoppedAt(olds: seq<Zone>, now: seq<Zone>, n: nat, pools: nat -> bool, inits: nat -> bool) {
    || (n < |now| && now[n].size == 0 && ZonesFine(olds, now, n, pools, inits))
    || (&& 1 <= n <= |now| && now[n - 1].size != 0 && !ZoneFine(olds, now[n - 1], n - 1, pools, inits)
        && ZonesFine(olds, now, n - 1, pools, inits))
  }

  /**
    The loop that creates shared memory.  `pools` and `inits` tell for each zone whether
    the set-up of its memory and its own initialisation succeed.
  */
  method CreateZones(olds: seq<Zone>, news: array<Zone>, memory: Memory, pools: nat -> bool, inits: nat -> bool)
    returns (ok: bool, ghost n: nat)
    requires memory.Sound() && forall k :: 0 <= k < news.Length ==> news[k].addr == NULL
    modifies news, memory`attempts, memory`mapped
    ensures Creating(olds, old(news[..]), news[..], old(memory.mapped), n)
    ensures memory.mapped == old(memory.mapped) + OwnAddrs(olds, news[..], 0)
    ensures ok ==> n == news.Length && AllCreated(olds, news[..])
    ensures n <= news.Length && (ok <==> n == news.Length && ZonesFine(olds, news[..], n, pools, inits))
    ensures !ok ==> StoppedAt(olds, news[..], n, pools, inits)
    ensures memory.AlwaysPlaces() ==> forall k :: 0 <= k < n && Counterpart(olds, news[k]) == |olds| ==> news[k].addr != NULL
  {
    hide Creating, OwnAddrs, Counterpart;
    ghost var was, taken := news[..], memory.mapped;
    NothingCreated(olds, was, taken);
    n := 0;
    var i := 0;
    while i < news.Length
      invariant n == i <= news.Length && Creating(olds, was, news[..], taken, i)
      invariant memory.mapped == taken + OwnAddrs(olds, news[..], 0)
      invariant ZonesFine(olds, news[..], i, pools, inits)
    {
      NotCreated(olds, was, news[..], taken, i);
      if news[i].size == 0 {
        return false, n;
      }
      var j := FindCounterpart(olds, news[i]);
      var addr := NULL;
      if j < |olds| {
        addr := olds[j].addr;
      } else {
        addr := memory.Alloc();
      }
      CreateNext(olds, was, news[..], taken, i, addr);
      SameCounterpart(olds, news[i], addr);
      assert forall k :: 0 <= k < i ==> ZoneFine(olds, news[k], k, pools, inits);
      news[i] := news[i].(addr := addr);
      n := i + 1;
      if (j == |olds| && (addr == NULL || !pools(i))) || !inits(i) {
        return false, n;
      }
      i := i + 1;
    }
    return true, n;
  }

  // ------------------------------------------------ rollback and commit

  /** Only addresses that were not in use before have been freed since. */
  ghost predicate FreedOwn(before: seq<int>, after: seq<int>, taken: set<int>) {
    before <= after && forall j :: |before| <= j < |after| ==> after[j] !in taken
  }

  lemma OwnFrom(olds: seq<Zone>, was: seq<Zone>, now: seq<Zone>, taken: set<int>, n: nat, i: nat)
    requires Creating(olds, was, now, taken, n) && i < |now|
    ensures Own(olds, now[i]) ==>
              now[i].addr !in taken && taken + OwnAddrs(olds, now, i) - {now[i].addr} == taken + OwnAddrs(olds, now, i + 1)
    ensures !Own(olds, now[i]) ==> OwnAddrs(olds, now, i) == OwnAddrs(olds, now, i + 1)
  {
    hide Counterpart;
    if Own(olds, now[i]) {
      forall f ensures f in taken + OwnAddrs(olds, now, i) - {now[i].addr} <==> f in taken + OwnAddrs(olds, now, i + 1) {
      }
    } else {
      forall f ensures f in OwnAddrs(olds, now, i) <==> f in OwnAddrs(olds, now, i + 1) {
        if f in OwnAddrs(olds, now, i) {
          var k :| i <= k < |now| && Own(olds, now[k]) && now[k].addr == f;
          assert k != i;
        }
      }
    }
  }

  /** The addresses of the zones from `i` on that have memory of their own. */
  function OwnList(olds: seq<Zone>, news: seq<Zone>, i: nat): seq<int>
    requires i <= |news|
    decreases |news| - i
  {
    if i == |news| then []
    else (if Own(olds, news[i]) then [news[i].addr] else []) + OwnList(olds, news, i + 1)
  }

  lemma CreatingSizes(olds: seq<Zone>, was: seq<Zone>, now: seq<Zone>, taken: set<int>, n: nat)
    requires Creating(olds, was, now, taken, n)
    ensures |was| == |now|
  {
  }

  lemma OnlyAddrs(olds: seq<Zone>, was: seq<Zone>, now: seq<Zone>, taken: set<int>, n: nat)
    requires Creating(olds, was, now, taken, n)
    ensures |was| == |now| && forall k :: 0 <= k < |was| ==> now[k] == was[k].(addr := now[k].addr)
  {
  }

  lemma NoOwn(olds: seq<Zone>, now: seq<Zone>, taken: set<int>)
    ensures taken + OwnAddrs(olds, now, |now|) == taken
  {
  }

  /** The end of a failed reload: exactly the memory it allocated is freed. */
  method Rollback(olds: seq<Zone>, news: array<Zone>, memory: Memory, ghost was: seq<Zone>, ghost taken: set<int>, ghost n: nat)
    requires Creating(olds, was, news[..], taken, n) && memory.mapped == taken + OwnAddrs(olds, news[..], 0)
    modifies memory`mapped, memory`frees
    ensures memory.mapped == taken && FreedOwn(old(memory.frees), memory.frees, taken)
    ensures memory.frees == old(memory.frees) + OwnList(olds, news[..], 0)
  {
    hide Creating, OwnAddrs, Counterpart;
    ghost var now := news[..];
    CreatingSizes(olds, was, now, taken, n);
    for i := 0 to news.Length
      invariant memory.mapped == taken + OwnAddrs(olds, now, i)
      invariant FreedOwn(old(memory.frees), memory.frees, taken)
      invariant memory.frees + OwnList(olds, now, i) == old(memory.frees) + OwnList(olds, now, 0)
    {
      OwnFrom(olds, was, now, taken, n, i);
      ghost var rest := OwnList(olds, now, i + 1);
      if news[i].addr != NULL {
        var j := FindCounterpart(olds, news[i]);
        if j == |olds| {
          memory.Free(news[i].addr);
        } else {
          assert [] + rest == rest;
        }
      } else {
        assert [] + rest == rest;
      }
    }
    NoOwn(olds, now, taken);
  }

  /** The addresses of the old zones from `i` on that do not go on. */
  function DeadList(olds: seq<Zone>, news: seq<Zone>, i: nat): seq<int>
    requires i <= |olds|
    decreases |olds| - i
  {
    if i == |olds| then []
    else (if Counterpart(news, olds[i]) < |news| then [] else [olds[i].addr]) + DeadList(olds, news, i + 1)
  }

  function AddrsOf(s: seq<int>): set<int> {
    set f | f in s
  }

  lemma AddrsOfMore(f: int, s: seq<int>)
    ensures AddrsOf([f] + s) == {f} + AddrsOf(s)
  {
  }

  /** The end of a reload: the old zones that do not go on are freed. */
  method FreeDead(olds: seq<Zone>, news: array<Zone>, memory: Memory)
    modifies memory`mapped, memory`frees
    ensures memory.frees == old(memory.frees) + DeadList(olds, news[..], 0)
    ensures memory.mapped == old(memory.mapped) - AddrsOf(DeadList(olds, news[..], 0))
  {
    hide Counterpart;
    ghost var now := news[..];
    for i := 0 to |olds|
      invariant memory.frees + DeadList(olds, now, i) == old(memory.frees) + DeadList(olds, now, 0)
      invariant memory.mapped - AddrsOf(DeadList(olds, now, i)) == old(memory.mapped) - AddrsOf(DeadList(olds, now, 0))
    {
      var k := FindCounterpart(news[..], olds[i]);
      ghost var rest := DeadList(olds, now, i + 1);
      if k == |news[..]| {
        AddrsOfMore(olds[i].addr, rest);
        memory.Free(olds[i].addr);
      } else {
        assert [] + rest == rest;
      }
    }
  }

  // ------------------------------------------------------ the whole reload

  /** Zones of a running cycle: all mapped, at different addresses. */
  ghost predicate Mapped(olds: seq<Zone>, taken: set<int>) {
    && (forall i :: 0 <= i < |olds| ==> olds[i].addr != NULL && olds[i].addr in taken)
    && forall i, j :: 0 <= i < j < |olds| ==> olds[i].addr != olds[j].addr
  }

  lemma CounterpartRange(others: seq<Zone>, z: Zone)
    ensures Counterpart(others, z) <= |others|
  {
  }

  lemma NamesKept(olds: seq<Zone>, was: seq<Zone>, now: seq<Zone>, taken: set<int>)
    requires UniqueNames(was) && Creating(olds, was, now, taken, |was|)
    ensures UniqueNames(now) && (FlagsAgree(olds, now) <==> FlagsAgree(olds, was))
  {
    forall i, k | 0 <= i < |olds| && 0 <= k < |now| ensures SameZone(now[k], olds[i]) <==> SameZone(was[k], olds[i]) {
    }
    forall j, k | 0 <= j < k < |now| ensures !SameName(now[j].name, now[k].name) {
      assert !SameName(was[j].name, was[k].name);
    }
  }

  /** Some new zone has the address of the old zone `i` exactly when the commit lets it go on. */
  lemma TakenOverIffLive(olds: seq<Zone>, was: seq<Zone>, now: seq<Zone>, taken: set<int>, i: nat)
    requires UniqueNames(olds) && UniqueNames(was) && FlagsAgree(olds, was) && Mapped(olds, taken)
    requires Creating(olds, was, now, taken, |was|) && i < |olds|
    ensures Counterpart(now, olds[i]) < |now| <==> exists k :: 0 <= k < |now| && now[k].addr == olds[i].addr
  {
    hide Counterpart;
    NamesKept(olds, was, now, taken);
    if Counterpart(now, olds[i]) < |now| {
      var k := Counterpart(now, olds[i]);
      BothSidesAgree(olds, now, i, k);
      SameCounterpart(olds, was[k], now[k].addr);
      assert now[k].addr == olds[i].addr;
    }
    forall k | 0 <= k < |now| && now[k].addr == olds[i].addr ensures Counterpart(now, olds[i]) == k {
      SameCounterpart(olds, was[k], now[k].addr);
      assert !Own(olds, now[k]);
      CounterpartRange(olds, now[k]);
      BothSidesAgree(olds, now, i, k);
    }
  }

  lemma HolderIsCounterpart(olds: seq<Zone>, was: seq<Zone>, now: seq<Zone>, taken: set<int>, i: nat, k: nat)
    requires Mapped(olds, taken) && Creating(olds, was, now, taken, |was|)
    requires i < |olds| && k < |now| && now[k].addr == olds[i].addr
    ensures Counterpart(olds, now[k]) == i
  {
    hide Counterpart;
    SameCounterpart(olds, was[k], now[k].addr);
    CounterpartRange(olds, now[k]);
    assert !Own(olds, now[k]);
  }

  /** Where the flags differ, the old zone is freed though taken over, or kept though nobody has it. */
  lemma FlagsDiffer(olds: seq<Zone>, was: seq<Zone>, now: seq<Zone>, taken: set<int>, i: nat, k: nat)
    requires UniqueNames(olds) && UniqueNames(was) && Mapped(olds, taken)
    requires Creating(olds, was, now, taken, |was|) && i < |olds| && k < |was|
    requires SameZone(was[k], olds[i]) && olds[i].noreuse != was[k].noreuse
    ensures Counterpart(now, olds[i]) < |now| <==> !exists j :: 0 <= j < |now| && now[j].addr == olds[i].addr
  {
    NamesKept(olds, was, now, taken);
    SameNameMeans(was[k].name, olds[i].name);
    SameNameMeans(olds[i].name, now[k].name);
    FoundIsOnly(olds, now[k].name, i);
    FoundIsOnly(now, olds[i].name, k);
    SameCounterpart(olds, was[k], now[k].addr);
    if was[k].noreuse {
      forall j | 0 <= j < |now| ensures now[j].addr != olds[i].addr {
        if now[j].addr == olds[i].addr {
          HolderIsCounterpart(olds, was, now, taken, i, j);
          SameNameMeans(now[j].name, olds[i].name);
          SameNameMeans(now[j].name, now[k].name);
          SameNameMeans(now[k].name, now[j].name);
        }
      }
    } else {
      assert now[k].addr == olds[i].addr;
    }
  }

  lemma {:induction false} DeadOthers(olds: seq<Zone>, news: seq<Zone>, i: nat, f: int)
    requires i <= |olds| && forall j :: i <= j < |olds| ==> olds[j].addr != f
    ensures f !in DeadList(olds, news, i)
    decreases |olds| - i
  {
    hide Counterpart;
    if i < |olds| {
      DeadOthers(olds, news, i + 1, f);
    }
  }

  lemma {:induction false} DeadOnce(olds: seq<Zone>, news: seq<Zone>, taken: set<int>, i: nat, j: nat)
    requires Mapped(olds, taken) && i <= j < |olds|
    ensures multiset(DeadList(olds, news, i))[olds[j].addr] == if Counterpart(news, olds[j]) < |news| then 0 else 1
    decreases |olds| - i
  {
    hide Counterpart;
    CounterpartRange(news, olds[i]);
    var here := if Counterpart(news, olds[i]) < |news| then [] else [olds[i].addr];
    assert DeadList(olds, news, i) == here + DeadList(olds, news, i + 1);
    if i < j {
      DeadOnce(olds, news, taken, i + 1, j);
    } else {
      DeadOthers(olds, news, i + 1, olds[j].addr);
    }
  }

  /** An old zone is freed, once, exactly when no new zone has its address. */
  ghost predicate FreedIffGone(o: Zone, news: seq<Zone>, freed: seq<int>, mapped: set<int>) {
    if exists k :: 0 <= k < |news| && news[k].addr == o.addr
    then multiset(freed)[o.addr] == 0 && o.addr in mapped
    else multiset(freed)[o.addr] == 1 && o.addr !in mapped
  }

  lemma CommitOne(olds: seq<Zone>, was: seq<Zone>, now: seq<Zone>, taken: set<int>, mapped: set<int>, i: nat)
    requires UniqueNames(olds) && UniqueNames(was) && FlagsAgree(olds, was) && Mapped(olds, taken)
    requires Creating(olds, was, now, taken, |was|) && i < |olds| && taken <= mapped
    ensures FreedIffGone(olds[i], now, DeadList(olds, now, 0), mapped - AddrsOf(DeadList(olds, now, 0)))
  {
    hide Counterpart, Creating, DeadList;
    CounterpartRange(now, olds[i]);
    TakenOverIffLive(olds, was, now, taken, i);
    DeadOnce(olds, now, taken, 0, i);
  }

  lemma CommitWrong(olds: seq<Zone>, was: seq<Zone>, now: seq<Zone>, taken: set<int>, mapped: set<int>, i: nat, k: nat)
    requires UniqueNames(olds) && UniqueNames(was) && Mapped(olds, taken)
    requires Creating(olds, was, now, taken, |was|) && taken <= mapped && i < |olds| && k < |was|
    requires SameZone(was[k], olds[i]) && olds[i].noreuse != was[k].noreuse
    ensures var freed := DeadList(olds, now, 0); !FreedIffGone(olds[i], now, freed, mapped - AddrsOf(freed))
  {
    hide Counterpart, Creating, DeadList, SameZone, UniqueNames;
    FlagsDiffer(olds, was, now, taken, i, k);
    DeadOnce(olds, now, taken, 0, i);
  }

  /** The flags decide: every old zone is treated as it should exactly when they agree. */
  lemma CommitIffFlagsAgree(olds: seq<Zone>, was: seq<Zone>, now: seq<Zone>, taken: set<int>, mapped: set<int>)
    requires UniqueNames(olds) && UniqueNames(was) && Mapped(olds, taken)
    requires Creating(olds, was, now, taken, |was|) && taken <= mapped
    ensures var freed := DeadList(olds, now, 0);
            FlagsAgree(olds, was) <==>
            forall i :: 0 <= i < |olds| ==> FreedIffGone(olds[i], now, freed, mapped - AddrsOf(freed))
  {
    hide Counterpart, Creating, DeadList, SameZone, UniqueNames, FreedIffGone, Mapped;
    var freed := DeadList(olds, now, 0);
    if FlagsAgree(olds, was) {
      forall i | 0 <= i < |olds| ensures FreedIffGone(olds[i], now, freed, mapped - AddrsOf(freed)) {
        CommitOne(olds, was, now, taken, mapped, i);
      }
    } else {
      var i, k :| 0 <= i < |olds| && 0 <= k < |was| && SameZone(was[k], olds[i]) && olds[i].noreuse != was[k].noreuse;
      CommitWrong(olds, was, now, taken, mapped, i, k);
    }
  }

  ghost function Addrs(zones: seq<Zone>): set<int> {
    set k | 0 <= k < |zones| :: zones[k].addr
  }

  /** A new zone has the address of the old zone that it takes over, or one of its own. */
  lemma AddrFrom(olds: seq<Zone>, was: seq<Zone>, now: seq<Zone>, taken: set<int>, k: nat)
    requires Mapped(olds, taken) && Creating(olds, was, now, taken, |was|) && AllCreated(olds, now) && k < |now|
    ensures now[k].addr != NULL
    ensures var i := Counterpart(olds, now[k]);
            if i < |olds| then now[k].addr == olds[i].addr && now[k].addr in taken
            else Own(olds, now[k]) && now[k].addr !in taken && now[k].addr in OwnAddrs(olds, now, 0)
  {
    hide Counterpart;
    SameCounterpart(olds, was[k], now[k].addr);
    CounterpartRange(olds, now[k]);
  }

  lemma NewApart(olds: seq<Zone>, was: seq<Zone>, now: seq<Zone>, taken: set<int>, j: nat, k: nat)
    requires Mapped(olds, taken) && Creating(olds, was, now, taken, |was|) && AllCreated(olds, now)
    requires UniqueNames(was) && j < k < |now|
    ensures now[j].addr != now[k].addr
  {
    hide Counterpart, UniqueNames;
    NamesKept(olds, was, now, taken);
    AddrFrom(olds, was, now, taken, j);
    AddrFrom(olds, was, now, taken, k);
    var a, b := Counterpart(olds, now[j]), Counterpart(olds, now[k]);
    if a < |olds| && a == b {
      TakeoverInjective(olds, now, j, k);
    }
  }

  /** Memory that no old zone has is a new zone's exactly when it was allocated for it. */
  lemma OtherMemory(olds: seq<Zone>, was: seq<Zone>, now: seq<Zone>, taken: set<int>, f: int)
    requires Mapped(olds, taken) && Creating(olds, was, now, taken, |was|) && AllCreated(olds, now) && f !in Addrs(olds)
    ensures f in OwnAddrs(olds, now, 0) <==> f in Addrs(now)
    ensures f in Addrs(now) ==> f !in taken
  {
    hide Counterpart, Creating, AllCreated;
    if f in OwnAddrs(olds, now, 0) {
      var k :| 0 <= k < |now| && Own(olds, now[k]) && now[k].addr == f;
      assert f in Addrs(now);
    }
    if f in Addrs(now) {
      var k :| 0 <= k < |now| && now[k].addr == f;
      CounterpartRange(olds, now[k]);
      AddrFrom(olds, was, now, taken, k);
    }
  }

  /** What stays mapped: everything else that was, and the memory of the new zones. */
  lemma NewMemory(olds: seq<Zone>, was: seq<Zone>, now: seq<Zone>, taken: set<int>, mapped: set<int>)
    requires UniqueNames(olds) && UniqueNames(was) && FlagsAgree(olds, was) && Mapped(olds, taken)
    requires Creating(olds, was, now, taken, |was|) && AllCreated(olds, now) && mapped == taken + OwnAddrs(olds, now, 0)
    ensures mapped - AddrsOf(DeadList(olds, now, 0)) == taken - Addrs(olds) + Addrs(now)
    ensures taken - Addrs(olds) !! Addrs(now)
    ensures forall f :: f in DeadList(olds, now, 0) ==> f in Addrs(olds)
  {
    hide Counterpart, DeadList, UniqueNames, FlagsAgree, Creating, AllCreated, Mapped;
    CreatingSizes(olds, was, now, taken, |was|);
    forall f ensures f in mapped - AddrsOf(DeadList(olds, now, 0)) <==> f in taken - Addrs(olds) + Addrs(now)
             ensures f in Addrs(now) ==> f !in taken - Addrs(olds)
             ensures f in DeadList(olds, now, 0) ==> f in Addrs(olds)
    {
      if f in Addrs(olds) {
        var i :| 0 <= i < |olds| && olds[i].addr == f;
        CommitOne(olds, was, now, taken, mapped, i);
      } else {
        DeadOthers(olds, now, 0, f);
        OtherMemory(olds, was, now, taken, f);
      }
    }
  }

  lemma NewMapped(olds: seq<Zone>, was: seq<Zone>, now: seq<Zone>, taken: set<int>, mapped: set<int>)
    requires Mapped(olds, taken) && UniqueNames(was) && Creating(olds, was, now, taken, |was|) && AllCreated(olds, now)
    requires Addrs(now) <= mapped
    ensures Mapped(now, mapped) && UniqueNames(now)
  {
    hide Counterpart, UniqueNames, Creating, AllCreated;
    NamesKept(olds, was, now, taken);
    forall k | 0 <= k < |now| ensures now[k].addr != NULL && now[k].addr in mapped {
      AddrFrom(olds, was, now, taken, k);
      assert now[k].addr in Addrs(now);
    }
    forall j, k | 0 <= j < k < |now| ensures now[j].addr != now[k].addr {
      NewApart(olds, was, now, taken, j, k);
    }
  }

  /**
    Shared zones in ngx_init_cycle.  `late` is a failure after the zones were created.
    A reload that fails frees exactly what it allocated.  One that succeeds frees an old
    zone exactly when no new zone took it over, provided that the flags agree, and not
    otherwise.
  */
  method ReloadZones(olds: seq<Zone>, news: array<Zone>, memory: Memory, pools: nat -> bool, inits: nat -> bool, late: bool)
    returns (ok: bool)
    requires memory.Sound() && forall k :: 0 <= k < news.Length ==> news[k].addr == NULL
    requires UniqueNames(olds) && UniqueNames(news[..]) && Mapped(olds, memory.mapped)
    modifies news, memory`attempts, memory`mapped, memory`frees
    ensures ok <==> !late && ZonesFine(olds, news[..], news.Length, pools, inits)
    ensures !late && memory.AlwaysPlaces() && (forall k :: 0 <= k < news.Length ==> news[k].size != 0 && pools(k) && inits(k)) ==> ok
    ensures !ok ==> memory.mapped == old(memory.mapped) && FreedOwn(old(memory.frees), memory.frees, old(memory.mapped))
    ensures ok ==> old(memory.frees) <= memory.frees
    ensures ok ==> Creating(olds, old(news[..]), news[..], old(memory.mapped), news.Length)
    ensures ok ==> (FlagsAgree(olds, old(news[..])) <==>
                    forall i :: 0 <= i < |olds| ==>
                      FreedIffGone(olds[i], news[..], memory.frees[|old(memory.frees)|..], memory.mapped))
    ensures forall k :: 0 <= k < news.Length ==> news[k] == old(news[k]).(addr := news[k].addr)
    ensures ok && FlagsAgree(olds, old(news[..])) ==> Mapped(news[..], memory.mapped) && UniqueNames(news[..])
    ensures ok && FlagsAgree(olds, old(news[..])) ==>
              && memory.mapped == old(memory.mapped) - Addrs(olds) + Addrs(news[..])
              && old(memory.mapped) - Addrs(olds) !! Addrs(news[..])
              && FreedOwn(old(memory.frees), memory.frees, old(memory.mapped) - Addrs(olds))
  {
    hide Counterpart, Creating, DeadList, OwnAddrs, UniqueNames, FlagsAgree, Mapped, FreedIffGone;
    ghost var was, taken := news[..], memory.mapped;
    ghost var n;
    ok, n := CreateZones(olds, news, memory, pools, inits);
    if !ok || late {
      OnlyAddrs(olds, was, news[..], taken, n);
      Rollback(olds, news, memory, was, taken, n);
      return false;
    }
    ghost var mapped := memory.mapped;
    FreeDead(olds, news, memory);
    assert memory.frees[|old(memory.frees)|..] == DeadList(olds, news[..], 0);
    CreatingSizes(olds, was, news[..], taken, n);
    OnlyAddrs(olds, was, news[..], taken, n);
    CommitIffFlagsAgree(olds, was, news[..], taken, mapped);
    if FlagsAgree(olds, was) {
      NewMemory(olds, was, news[..], taken, mapped);
      NewMapped(olds, was, news[..], taken, memory.mapped);
    }
  }

  // ------------------------------------------------------ many reloads

  /** The zones are mapped at different addresses, and `others` is the other memory mapped. */
  ghost predicate Serving(zones: seq<Zone>, others: set<int>, mapped: set<int>) {
    && Mapped(zones, mapped) && UniqueNames(zones)
    && mapped == others + Addrs(zones) && others !! Addrs(zones)
  }

  /** The zones are those of the configuration, with memory. */
  ghost predicate Configured(config: seq<Zone>, zones: seq<Zone>) {
    |config| == |zones| && forall k :: 0 <= k < |zones| ==> zones[k] == config[k].(addr := zones[k].addr)
  }

  lemma ConfiguredNow(config: seq<Zone>, zones: seq<Zone>)
    requires |config| == |zones| && forall k :: 0 <= k < |zones| ==> zones[k] == config[k].(addr := zones[k].addr)
    ensures Configured(config, zones)
  {
  }

  lemma FlagsOfConfig(config: seq<Zone>, zones: seq<Zone>, news: seq<Zone>)
    requires Configured(config, zones) && FlagsAgree(config, news)
    ensures FlagsAgree(zones, news)
  {
    forall i, k | 0 <= i < |zones| && 0 <= k < |news| && SameZone(news[k], zones[i])
      ensures zones[i].noreuse == news[k].noreuse
    {
      assert SameZone(news[k], config[i]);
    }
  }

  lemma ServingStart(zones: seq<Zone>, mapped: set<int>)
    requires Mapped(zones, mapped) && UniqueNames(zones)
    ensures Serving(zones, mapped - Addrs(zones), mapped) && Configured(zones, zones)
  {
    forall f | f in Addrs(zones) ensures f in mapped {
      var k :| 0 <= k < |zones| && zones[k].addr == f;
    }
    assert mapped == mapped - Addrs(zones) + Addrs(zones);
  }

  lemma FreedOwnOn(a: seq<int>, b: seq<int>, c: seq<int>, taken: set<int>, less: set<int>)
    requires FreedOwn(a, b, less) && FreedOwn(b, c, taken) && less <= taken
    ensures FreedOwn(a, c, less)
  {
  }

  /** Zones as the configuration leaves them. */
  ghost predicate FreshZones(config: seq<Zone>) {
    UniqueNames(config) && forall k :: 0 <= k < |config| ==> config[k].addr == NULL
  }

  /** Any two of the configurations agree on which zones are to be created anew. */
  ghost predicate AllAgree(run: seq<seq<Zone>>) {
    forall m, n :: 0 <= m < n < |run| ==> FlagsAgree(run[m], run[n])
  }

  /**
    Any number of reloads, each of which may succeed or fail anywhere, with configurations
    that agree on the flags.  In the end the memory mapped is that of the zones of the
    cycle that is left and what was mapped besides the first cycle's, none of which was
    ever freed: no memory is leaked and none is lost.
  */
  method Reloads(first: seq<Zone>, configs: seq<seq<Zone>>, memory: Memory,
                 pools: (nat, nat) -> bool, inits: (nat, nat) -> bool, late: nat -> bool)
    returns (zones: seq<Zone>)
    requires memory.Sound() && UniqueNames(first) && Mapped(first, memory.mapped)
    requires AllAgree([first] + configs) && forall n :: 0 <= n < |configs| ==> FreshZones(configs[n])
    modifies memory`attempts, memory`mapped, memory`frees
    ensures Serving(zones, old(memory.mapped) - Addrs(first), memory.mapped)
    ensures FreedOwn(old(memory.frees), memory.frees, old(memory.mapped) - Addrs(first))
  {
    hide Addrs, UniqueNames, FlagsAgree, Mapped, FreedIffGone, Configured;
    ghost var run, others := [first] + configs, memory.mapped - Addrs(first);
    ServingStart(first, memory.mapped);
    zones := first;
    ghost var m := 0;
    for n := 0 to |configs|
      invariant m <= n && Configured(run[m], zones)
      invariant memory.Sound() && Serving(zones, others, memory.mapped)
      invariant FreedOwn(old(memory.frees), memory.frees, others)
    {
      var config := configs[n];
      assert config == run[n + 1] && FreshZones(config);
      FlagsOfConfig(run[m], zones, config);
      var news := new Zone[|config|](i requires 0 <= i < |config| => config[i]);
      assert news[..] == config;
      ghost var frees, mapped := memory.frees, memory.mapped;
      assert mapped - Addrs(zones) == others;
      var round: nat := n;
      var ok := ReloadZones(zones, news, memory, (i: nat) => pools(round, i), (i: nat) => inits(round, i), late(round));
      if ok {
        FreedOwnOn(old(memory.frees), frees, memory.frees, others, others);
        ConfiguredNow(config, news[..]);
        zones, m := news[..], n + 1;
      } else {
        FreedOwnOn(old(memory.frees), frees, memory.frees, mapped, others);
      }
    }
  }
}
