/** The badge cache: two maps with a common bound, a time to live, and a retention of stale entries. */
module BadgeCache {
  import opened Text
  import opened Names

  datatype Config = Config(maxEntries: int, defaultTtl: int, refreshThreshold: int, staleRetention: int)

  datatype Badge<V> = Badge(response: V, fetchedAt: int, expiresAt: int)

  datatype State<V> = State(byFqdn: map<string, Badge<V>>, byFqdnVer: map<string, Badge<V>>)

  // ---------------------------------------------------------------- looking up

  function FreshAt<V>(m: map<string, Badge<V>>, key: string, now: int): Option<Badge<V>> {
    if key in m && now <= m[key].expiresAt then Some(m[key]) else None
  }

  function StaleAt<V>(m: map<string, Badge<V>>, key: string, now: int, maxStaleness: int): Option<Badge<V>> {
    if key in m && now - m[key].expiresAt <= maxStaleness then Some(m[key]) else None
  }

  // ---------------------------------------------------------------- cleaning up

  /** The entries not expired beyond the deadline. */
  function Retained<V>(m: map<string, Badge<V>>, deadline: int): map<string, Badge<V>> {
    map k | k in m && deadline <= m[k].expiresAt :: m[k]
  }

  ghost predicate Within<V>(small: map<string, Badge<V>>, large: map<string, Badge<V>>) {
    forall k :: k in small ==> k in large && small[k] == large[k]
  }

  function Capacity(maxEntries: int): nat {
    if maxEntries < 0 then 0 else maxEntries
  }

  function Size<V>(s: State<V>): nat {
    |s.byFqdn| + |s.byFqdnVer|
  }

  function RetainedState<V>(config: Config, now: int, s: State<V>): State<V> {
    State(Retained(s.byFqdn, now - config.staleRetention), Retained(s.byFqdnVer, now - config.staleRetention))
  }

  /** What a cleanup may leave, whatever order the maps are walked in: a part of what the stale
      retention keeps, as large as the capacity allows, and with versioned entries given up only
      once there are no others. */
  ghost predicate Cleaned<V>(config: Config, now: int, before: State<V>, after: State<V>) {
    var kept := RetainedState(config, now, before);
    && Within(after.byFqdn, kept.byFqdn) && Within(after.byFqdnVer, kept.byFqdnVer)
    && Size(after) == (if Size(kept) <= config.maxEntries then Size(kept) else Capacity(config.maxEntries))
    && (after.byFqdnVer == kept.byFqdnVer || after.byFqdn == map[])
  }

  lemma WithinSize<V>(small: map<string, Badge<V>>, large: map<string, Badge<V>>)
    requires Within(small, large)
    ensures |small| <= |large|
    ensures |small| == |large| ==> small == large
  {
    SubsetSize(small.Keys, large.Keys);
  }

  lemma {:induction false} SubsetSize(a: set<string>, b: set<string>)
    requires a <= b
    ensures |a| <= |b| && (|a| == |b| ==> a == b)
  {
    if x :| x in a {
      SubsetSize(a - {x}, b - {x});
      assert a == a - {x} + {x} && b == b - {x} + {x};
    } else if y :| y in b {
      assert |b| == |b - {y}| + 1;
    }
  }

  /** How many entries of `before` are missing in `after`. */
  ghost function Dropped<V>(before: State<V>, after: State<V>): nat {
    |before.byFqdn.Keys - after.byFqdn.Keys| + |before.byFqdnVer.Keys - after.byFqdnVer.Keys|
  }

  lemma DroppedOf<V>(before: map<string, Badge<V>>, after: map<string, Badge<V>>)
    requires Within(after, before)
    ensures |before.Keys - after.Keys| == |before| - |after|
  {
    assert before.Keys == after.Keys + (before.Keys - after.Keys);
    assert |before.Keys| == |after.Keys| + |before.Keys - after.Keys|;
  }

  /** The entries that expired at most the retention ago. */
  ghost predicate IsRetained<V>(before: map<string, Badge<V>>, kept: map<string, Badge<V>>, now: int, retention: int) {
    && Within(kept, before)
    && forall k :: k in before ==> (k in kept <==> now - before[k].expiresAt <= retention)
  }

  /** Of the entries the stale retention keeps, and it keeps those that expired at most that long ago, a cleanup drops none
      within capacity and exactly the excess over capacity, and no versioned one while any unversioned one is left. */
  lemma CleanupDropsOnlyTheExcess<V>(config: Config, now: int, before: State<V>, after: State<V>)
    requires Cleaned(config, now, before, after)
    ensures var kept := RetainedState(config, now, before);
            && IsRetained(before.byFqdn, kept.byFqdn, now, config.staleRetention)
            && IsRetained(before.byFqdnVer, kept.byFqdnVer, now, config.staleRetention)
            && (Size(kept) <= config.maxEntries ==> after == kept)
            && (Size(kept) > config.maxEntries >= 0 ==> Dropped(kept, after) == Size(kept) - config.maxEntries)
            && (after.byFqdn != map[] ==> after.byFqdnVer == kept.byFqdnVer)
            && (|kept.byFqdn| >= Size(kept) - config.maxEntries ==> after.byFqdnVer == kept.byFqdnVer)
  {
    var kept := RetainedState(config, now, before);
    WithinSize(after.byFqdn, kept.byFqdn);
    WithinSize(after.byFqdnVer, kept.byFqdnVer);
    DroppedOf(kept.byFqdn, after.byFqdn);
    DroppedOf(kept.byFqdnVer, after.byFqdnVer);
  }

  // ---------------------------------------------------------------- the object

  class Cache<V(!new)> {
    const config: Config
    var byFqdn: map<string, Badge<V>>
    var byFqdnVer: map<string, Badge<V>>

    ghost function Abstract(): State<V>
      reads this
    {
      State(byFqdn, byFqdnVer)
    }

    constructor (config: Config)
      ensures this.config == config && Abstract() == State(map[], map[])
    {
      this.config := config;
      byFqdn, byFqdnVer := map[], map[];
    }

    method GetByFqdn(fqdn: Fqdn, now: int) returns (badge: Option<Badge<V>>)
      ensures badge == FreshAt(byFqdn, fqdn, now)
    {
      if fqdn !in byFqdn || now > byFqdn[fqdn].expiresAt {
        return None;
      }
      return Some(byFqdn[fqdn]);
    }

    method GetByFqdnVersion(fqdn: Fqdn, version: Version, now: int) returns (badge: Option<Badge<V>>)
      ensures badge == FreshAt(byFqdnVer, FqdnVersionKey(fqdn, version), now)
    {
      var key := FqdnVersionKey(fqdn, version);
      if key !in byFqdnVer || now > byFqdnVer[key].expiresAt {
        return None;
      }
      return Some(byFqdnVer[key]);
    }

    method GetStaleByFqdn(fqdn: Fqdn, now: int, maxStaleness: int) returns (badge: Option<Badge<V>>)
      ensures badge == StaleAt(byFqdn, fqdn, now, maxStaleness)
    {
      if fqdn !in byFqdn || now - byFqdn[fqdn].expiresAt > maxStaleness {
        return None;
      }
      return Some(byFqdn[fqdn]);
    }

    method GetStaleByFqdnVersion(fqdn: Fqdn, version: Version, now: int, maxStaleness: int) returns (badge: Option<Badge<V>>)
      ensures badge == StaleAt(byFqdnVer, FqdnVersionKey(fqdn, version), now, maxStaleness)
    {
      var key := FqdnVersionKey(fqdn, version);
      if key !in byFqdnVer || now - byFqdnVer[key].expiresAt > maxStaleness {
        return None;
      }
      return Some(byFqdnVer[key]);
    }

    /** The clock is read once for the expiry and again by the cleanup. */
    method Insert(fqdn: Fqdn, response: V, now: int, later: int)
      modifies this
      ensures Step(config, old(Abstract()), Stored(fqdn, response, now, later), Abstract())
    {
      ghost var op := Stored(fqdn, response, now, later);
      byFqdn := byFqdn[fqdn := Badge(response, now, now + config.defaultTtl)];
      assert Abstract() == Bound(config, old(Abstract()), op);
      Cleanup(later);
    }

    method InsertForVersion(fqdn: Fqdn, version: Version, response: V, now: int, later: int)
      modifies this
      ensures Step(config, old(Abstract()), StoredForVersion(fqdn, version, response, now, later), Abstract())
    {
      ghost var op := StoredForVersion(fqdn, version, response, now, later);
      byFqdnVer := byFqdnVer[FqdnVersionKey(fqdn, version) := Badge(response, now, now + config.defaultTtl)];
      assert Abstract() == Bound(config, old(Abstract()), op);
      Cleanup(later);
    }

    method Clear()
      modifies this
      ensures Step(config, old(Abstract()), Cleared, Abstract())
    {
      byFqdn, byFqdnVer := map[], map[];
    }

    /** `cleanupLocked`. */
    method Cleanup(now: int)
      modifies this
      ensures Cleaned(config, now, old(Abstract()), Abstract())
    {
      var deadline := now - config.staleRetention;
      byFqdn := Purge(byFqdn, deadline);
      byFqdnVer := Purge(byFqdnVer, deadline);
      var total := |byFqdn| + |byFqdnVer|;
      if total > config.maxEntries {
        var removed;
        byFqdn, removed := Evict(byFqdn, 0, total - config.maxEntries);
        byFqdnVer, removed := Evict(byFqdnVer, removed, total - config.maxEntries);
      }
    }

    /** One walk over a map that deletes what expired before the deadline. */
    method Purge(m: map<string, Badge<V>>, deadline: int) returns (rest: map<string, Badge<V>>)
      ensures rest == Retained(m, deadline)
    {
      rest := m;
      var unvisited := m.Keys;
      while unvisited != {}
        invariant unvisited <= m.Keys
        invariant rest == map k | k in m && (k in unvisited || deadline <= m[k].expiresAt) :: m[k]
        decreases |unvisited|
      {
        var key :| key in unvisited;
        unvisited := unvisited - {key};
        if deadline > m[key].expiresAt {
          rest := rest - {key};
        }
      }
    }

    /** One walk over a map that deletes keys while fewer than `toRemove` are gone. */
    method Evict(m: map<string, Badge<V>>, already: nat, toRemove: nat) returns (rest: map<string, Badge<V>>, removed: nat)
      requires already <= toRemove
      ensures Within(rest, m) && already <= removed <= toRemove && |rest| + removed == |m| + already
      ensures removed == toRemove || rest == map[]
      ensures already == toRemove ==> rest == m
    {
      rest, removed := m, already;
      var unvisited := m.Keys;
      while unvisited != {} && removed < toRemove
        invariant Within(rest, m) && rest.Keys == unvisited
        invariant already <= removed <= toRemove && |rest| + removed == |m| + already
        invariant already == toRemove ==> rest == m
        decreases |unvisited|
      {
        var key :| key in unvisited;
        unvisited := unvisited - {key};
        rest := rest - {key};
        removed := removed + 1;
      }
    }

    /** `refreshExpiring`: the keys near expiry are collected under the lock at one instant; the i-th
        of them reads the clock at `clock(2 * i)` and `clock(2 * i + 1)`. What it reads it writes back
        to the same keys: no key appears, and only due entries change, each to what was fetched for
        its key. */
    method RefreshExpiring(fetch: string -> Option<V>, now: int, clock: nat -> int) returns (ghost ops: seq<Op<V>>)
      requires KeysAreNames(Abstract())
      modifies this
      ensures Runs(config, old(Abstract()), ops, Abstract()) && KeysAreNames(Abstract())
      ensures forall op :: op in ops ==>
                op.Stored? && op.fqdn in old(byFqdn) && now + config.refreshThreshold > old(byFqdn)[op.fqdn].expiresAt &&
                fetch(op.fqdn) == Some(op.response)
      ensures forall k :: k in old(byFqdn) && now + config.refreshThreshold > old(byFqdn)[k].expiresAt && fetch(k).Some? ==>
                StoresUnder(ops, k)
    {
      var keys := DueKeys(now);
      ghost var start := Abstract();
      ops := [];
      RunsNothing(config, start);
      for i := 0 to |keys|
        invariant Runs(config, start, ops, Abstract()) && KeysAreNames(Abstract())
        invariant StoresFetched(fetch, keys, i, ops)
      {
        var response, fqdn := fetch(keys[i]), NewFqdn(keys[i]);
        if response.Some? && fqdn.Some? {
          ghost var before := Abstract();
          Insert(fqdn.value, response.value, clock(2 * i), clock(2 * i + 1));
          RunsOneMore(config, start, ops, before, Stored(fqdn.value, response.value, clock(2 * i), clock(2 * i + 1)), Abstract());
          StoresOneMore(fetch, keys, i, ops, Stored(fqdn.value, response.value, clock(2 * i), clock(2 * i + 1)));
          ops := ops + [Stored(fqdn.value, response.value, clock(2 * i), clock(2 * i + 1))];
        }
      }
    }

    method DueKeys(now: int) returns (keys: seq<string>)
      requires KeysAreNames(Abstract())
      ensures forall k :: k in keys <==> k in byFqdn && Due(byFqdn[k], now, config.refreshThreshold)
      ensures forall k :: k in keys ==> NewFqdn(k) == Some(k)
    {
      keys := [];
      var unvisited := byFqdn.Keys;
      while unvisited != {}
        invariant unvisited <= byFqdn.Keys
        invariant forall k :: k in keys <==> k in byFqdn && k !in unvisited && Due(byFqdn[k], now, config.refreshThreshold)
        decreases |unvisited|
      {
        var key :| key in unvisited;
        unvisited := unvisited - {key};
        if Due(byFqdn[key], now, config.refreshThreshold) {
          keys := keys + [key];
        }
      }
    }
  }

  /** One of the operations stores under this name. */
  ghost predicate StoresUnder<V(!new)>(ops: seq<Op<V>>, key: string) {
    exists op :: op in ops && op.Stored? && op.fqdn == key
  }

  /** The operations store what was fetched for these keys, and for each of the first n for which anything was. */
  ghost predicate StoresFetched<V(!new)>(fetch: string -> Option<V>, keys: seq<string>, n: nat, ops: seq<Op<V>>) {
    && (forall op :: op in ops ==> op.Stored? && op.fqdn in keys && fetch(op.fqdn) == Some(op.response))
    && (forall j :: 0 <= j < n <= |keys| && fetch(keys[j]).Some? ==> StoresUnder(ops, keys[j]))
  }

  lemma StoresOneMore<V(!new)>(fetch: string -> Option<V>, keys: seq<string>, n: nat, ops: seq<Op<V>>, op: Op<V>)
    requires StoresFetched(fetch, keys, n, ops) && n < |keys|
    requires op.Stored? && op.fqdn == keys[n] && fetch(op.fqdn) == Some(op.response)
    ensures StoresFetched(fetch, keys, n + 1, ops + [op])
  {
    assert op in ops + [op];
    forall k | StoresUnder(ops, k) ensures StoresUnder(ops + [op], k) {
      var o :| o in ops && o.Stored? && o.fqdn == k;
      assert o in ops + [op];
    }
  }

  /** `ShouldRefresh`. */
  predicate Due<V>(b: Badge<V>, now: int, threshold: int) {
    now + threshold > b.expiresAt
  }

  // ---------------------------------------------------------------- all runs

  /** One lock section. */
  datatype Op<V> =
    | Stored(fqdn: Fqdn, response: V, now: int, later: int)
    | StoredForVersion(fqdn: Fqdn, version: Version, response: V, now: int, later: int)
    | Cleared

  /** What the operation binds before it cleans up. */
  function Bound<V>(config: Config, s: State<V>, op: Op<V>): State<V> {
    match op
    case Stored(f, r, now, _) => s.(byFqdn := s.byFqdn[f := Badge(r, now, now + config.defaultTtl)])
    case StoredForVersion(f, v, r, now, _) =>
      s.(byFqdnVer := s.byFqdnVer[FqdnVersionKey(f, v) := Badge(r, now, now + config.defaultTtl)])
    case Cleared => State(map[], map[])
  }

  ghost predicate Step<V>(config: Config, s: State<V>, op: Op<V>, s': State<V>) {
    if op.Cleared? then s' == State(map[], map[])
    else Cleaned(config, op.later, Bound(config, s, op), s')
  }

  function Init<T>(s: seq<T>): (init: seq<T>)
    requires s != []
    ensures |init| < |s| && s == init + [Last(s)]
  {
    s[..|s| - 1]
  }

  function Last<T>(s: seq<T>): T
    requires s != []
  {
    s[|s| - 1]
  }

  ghost predicate Runs<V(!new)>(config: Config, s: State<V>, ops: seq<Op<V>>, s': State<V>) {
    if ops == [] then s' == s
    else exists mid :: Runs(config, s, Init(ops), mid) && Step(config, mid, Last(ops), s')
  }

  lemma RunsNothing<V(!new)>(config: Config, s: State<V>)
    ensures Runs(config, s, [], s)
  {
  }

  lemma RunsOneMore<V(!new)>(config: Config, s: State<V>, ops: seq<Op<V>>, mid: State<V>, op: Op<V>, s': State<V>)
    requires Runs(config, s, ops, mid) && Step(config, mid, op, s')
    ensures Runs(config, s, ops + [op], s')
    ensures KeysAreNames(mid) ==> KeysAreNames(s')
  {
    assert Init(ops + [op]) == ops && Last(ops + [op]) == op;
    if KeysAreNames(mid) {
      StepKeepsNames(config, mid, op, s');
    }
  }

  ghost predicate KeysAreNames<V>(s: State<V>) {
    && (forall k :: k in s.byFqdn ==> NewFqdn(k) == Some(k))
    && (forall k :: k in s.byFqdnVer ==> exists f: Fqdn, v: Version :: FqdnVersionKey(f, v) == k)
  }

  lemma StepKeepsNames<V>(config: Config, s: State<V>, op: Op<V>, s': State<V>)
    requires KeysAreNames(s) && Step(config, s, op, s')
    ensures KeysAreNames(s')
  {
  }

  /** The badge stored last for a name since the cache was cleared. */
  function LastStored<V>(config: Config, ops: seq<Op<V>>, fqdn: Fqdn): Option<Badge<V>> {
    if ops == [] then None
    else match Last(ops)
      case Cleared => None
      case Stored(f, r, now, _) =>
        if f == fqdn then Some(Badge(r, now, now + config.defaultTtl)) else LastStored(config, Init(ops), fqdn)
      case StoredForVersion(_, _, _, _, _) => LastStored(config, Init(ops), fqdn)
  }

  function LastStoredForVersion<V>(config: Config, ops: seq<Op<V>>, fqdn: Fqdn, version: Version): Option<Badge<V>> {
    if ops == [] then None
    else match Last(ops)
      case Cleared => None
      case Stored(_, _, _, _) => LastStoredForVersion(config, Init(ops), fqdn, version)
      case StoredForVersion(f, v, r, now, _) =>
        if f == fqdn && v == version then Some(Badge(r, now, now + config.defaultTtl))
        else LastStoredForVersion(config, Init(ops), fqdn, version)
  }

  ghost predicate HoldsLatest<V>(config: Config, ops: seq<Op<V>>, s: State<V>) {
    && (forall f: Fqdn :: f in s.byFqdn ==> LastStored(config, ops, f) == Some(s.byFqdn[f]))
    && (forall f: Fqdn, v: Version :: FqdnVersionKey(f, v) in s.byFqdnVer ==>
          LastStoredForVersion(config, ops, f, v) == Some(s.byFqdnVer[FqdnVersionKey(f, v)]))
  }

  lemma KeysDiffer(f: Fqdn, v: Version, g: Fqdn, w: Version)
    ensures FqdnVersionKey(f, v) == FqdnVersionKey(g, w) <==> f == g && v == w
  {
    CacheKeysAreDistinct(f, g, v, w);
  }

  lemma {:induction false} BoundHoldsLatest<V>(config: Config, ops: seq<Op<V>>, s: State<V>, op: Op<V>)
    requires HoldsLatest(config, ops, s)
    ensures HoldsLatest(config, ops + [op], Bound(config, s, op))
  {
    assert Init(ops + [op]) == ops && Last(ops + [op]) == op;
    if op.StoredForVersion? {
      BoundVersionHoldsLatest(config, ops, s, op);
    }
  }

  lemma {:induction false} BoundVersionHoldsLatest<V>(config: Config, ops: seq<Op<V>>, s: State<V>, op: Op<V>)
    requires HoldsLatest(config, ops, s) && op.StoredForVersion?
    ensures HoldsLatest(config, ops + [op], Bound(config, s, op))
  {
    assert Init(ops + [op]) == ops && Last(ops + [op]) == op;
    forall f: Fqdn, v: Version | FqdnVersionKey(f, v) in Bound(config, s, op).byFqdnVer
      ensures LastStoredForVersion(config, ops + [op], f, v) == Some(Bound(config, s, op).byFqdnVer[FqdnVersionKey(f, v)])
    {
      BoundVersionAt(config, ops, s, op, f, v);
    }
  }

  lemma LastAfterStore<V>(config: Config, ops: seq<Op<V>>, op: Op<V>, f: Fqdn, v: Version)
    requires op.StoredForVersion?
    ensures LastStoredForVersion(config, ops + [op], f, v) ==
            if op.fqdn == f && op.version == v then Some(Badge(op.response, op.now, op.now + config.defaultTtl))
            else LastStoredForVersion(config, ops, f, v)
  {
    assert Init(ops + [op]) == ops && Last(ops + [op]) == op;
  }

  lemma {:induction false} BoundVersionAt<V>(config: Config, ops: seq<Op<V>>, s: State<V>, op: Op<V>, f: Fqdn, v: Version)
    requires FqdnVersionKey(f, v) in s.byFqdnVer ==>
               LastStoredForVersion(config, ops, f, v) == Some(s.byFqdnVer[FqdnVersionKey(f, v)])
    requires op.StoredForVersion? && FqdnVersionKey(f, v) in Bound(config, s, op).byFqdnVer
    ensures LastStoredForVersion(config, ops + [op], f, v) == Some(Bound(config, s, op).byFqdnVer[FqdnVersionKey(f, v)])
  {
    LastAfterStore(config, ops, op, f, v);
    KeysDiffer(f, v, op.fqdn, op.version);
  }

  lemma {:induction false} StepHoldsLatest<V>(config: Config, ops: seq<Op<V>>, mid: State<V>, op: Op<V>, s': State<V>)
    requires HoldsLatest(config, ops, mid) && Step(config, mid, op, s')
    ensures HoldsLatest(config, ops + [op], s')
  {
    BoundHoldsLatest(config, ops, mid, op);
    StepKeepsPartOfBound(config, mid, op, s');
    PartHoldsLatest(config, ops + [op], Bound(config, mid, op), s');
  }

  ghost predicate PartOf<V>(small: State<V>, large: State<V>) {
    Within(small.byFqdn, large.byFqdn) && Within(small.byFqdnVer, large.byFqdnVer)
  }

  lemma PartHoldsLatest<V>(config: Config, ops: seq<Op<V>>, s: State<V>, part: State<V>)
    requires HoldsLatest(config, ops, s) && PartOf(part, s)
    ensures HoldsLatest(config, ops, part)
  {
  }

  lemma StepKeepsPartOfBound<V>(config: Config, s: State<V>, op: Op<V>, s': State<V>)
    requires Step(config, s, op, s')
    ensures PartOf(s', Bound(config, s, op))
  {
  }

  lemma StepIsBounded<V>(config: Config, s: State<V>, op: Op<V>, s': State<V>)
    requires Step(config, s, op, s')
    ensures Size(s') <= Capacity(config.maxEntries)
  {
  }

  /** After every run from an empty cache, in whatever order the maps are walked: the bound holds over
      both maps together, the keys are names, and each name or (name, version) is bound to what was
      stored for it last, or to nothing. */
  lemma {:induction false} RunIsBoundedAndLatest<V(!new)>(config: Config, ops: seq<Op<V>>, s: State<V>)
    requires Runs(config, State(map[], map[]), ops, s)
    ensures Size(s) <= Capacity(config.maxEntries)
    ensures KeysAreNames(s) && HoldsLatest(config, ops, s)
  {
    if ops != [] {
      var init, last := Init(ops), Last(ops);
      var mid :| Runs(config, State(map[], map[]), init, mid) && Step(config, mid, last, s);
      RunIsBoundedAndLatest(config, init, mid);
      StepIsBounded(config, mid, last, s);
      StepKeepsNames(config, mid, last, s);
      StepHoldsLatest(config, init, mid, last, s);
    }
  }

  /** A lookup hits exactly while the name's entry stays and was stored last at most so long ago; the hit is that entry. */
  ghost predicate HitsIff<V>(hit: Option<Badge<V>>, stays: bool, last: Option<Badge<V>>, now: int, age: int) {
    && (hit.Some? <==> stays && last.Some? && now <= last.value.fetchedAt + age)
    && (hit.Some? ==> hit == last)
  }

  lemma LookupsHit<V>(m: map<string, Badge<V>>, key: string, last: Option<Badge<V>>, now: int, ttl: int, maxStaleness: int)
    requires key in m ==> last == Some(m[key])
    requires last.Some? ==> last.value.expiresAt == last.value.fetchedAt + ttl
    ensures HitsIff(FreshAt(m, key, now), key in m, last, now, ttl)
    ensures HitsIff(StaleAt(m, key, now, maxStaleness), key in m, last, now, ttl + maxStaleness)
  {
  }

  /** After every run a fresh lookup hits exactly while the name's entry has not been dropped and was stored last at
      most the time to live ago, a stale lookup with the staleness added; the hit is what was stored last. And so by
      name and version. */
  lemma {:induction false} HitIsRecent<V(!new)>(config: Config, ops: seq<Op<V>>, s: State<V>, fqdn: Fqdn, version: Version, now: int, maxStaleness: int)
    requires Runs(config, State(map[], map[]), ops, s)
    ensures var stays, last := fqdn in s.byFqdn, LastStored(config, ops, fqdn);
            && HitsIff(FreshAt(s.byFqdn, fqdn, now), stays, last, now, config.defaultTtl)
            && HitsIff(StaleAt(s.byFqdn, fqdn, now, maxStaleness), stays, last, now, config.defaultTtl + maxStaleness)
    ensures var key, last := FqdnVersionKey(fqdn, version), LastStoredForVersion(config, ops, fqdn, version);
            && HitsIff(FreshAt(s.byFqdnVer, key, now), key in s.byFqdnVer, last, now, config.defaultTtl)
            && HitsIff(StaleAt(s.byFqdnVer, key, now, maxStaleness), key in s.byFqdnVer, last, now, config.defaultTtl + maxStaleness)
  {
    RunIsBoundedAndLatest(config, ops, s);
    var key, last := FqdnVersionKey(fqdn, version), LastStoredForVersion(config, ops, fqdn, version);
    LastStoredExpiry(config, ops, fqdn);
    LastVersionExpiry(config, ops, fqdn, version);
    LookupsHit(s.byFqdn, fqdn, LastStored(config, ops, fqdn), now, config.defaultTtl, maxStaleness);
    assert key in s.byFqdnVer ==> last == Some(s.byFqdnVer[key]);
    LookupsHit(s.byFqdnVer, key, last, now, config.defaultTtl, maxStaleness);
  }

  lemma {:induction false} LastStoredExpiry<V>(config: Config, ops: seq<Op<V>>, fqdn: Fqdn)
    ensures LastStored(config, ops, fqdn).Some? ==>
              LastStored(config, ops, fqdn).value.expiresAt == LastStored(config, ops, fqdn).value.fetchedAt + config.defaultTtl
  {
    if ops != [] {
      LastStoredExpiry(config, Init(ops), fqdn);
    }
  }

  lemma {:induction false} LastVersionExpiry<V>(config: Config, ops: seq<Op<V>>, fqdn: Fqdn, version: Version)
    ensures var last := LastStoredForVersion(config, ops, fqdn, version);
            last.Some? ==> last.value.expiresAt == last.value.fetchedAt + config.defaultTtl
  {
    if ops != [] {
      LastVersionExpiry(config, Init(ops), fqdn, version);
    }
  }

  /** Running the stores of a refresh makes no key and changes only the keys stored. */
  lemma {:induction false} StoresTouchOnlyTheirKeys<V(!new)>(config: Config, s: State<V>, ops: seq<Op<V>>, s': State<V>)
    requires Runs(config, s, ops, s') && forall op :: op in ops ==> op.Stored? && op.fqdn in s.byFqdn
    ensures s'.byFqdn.Keys <= s.byFqdn.Keys && Within(s'.byFqdnVer, s.byFqdnVer)
    ensures forall k :: k in s'.byFqdn && s'.byFqdn[k] != s.byFqdn[k] ==>
              exists op :: op in ops && op.Stored? && op.fqdn == k && op.response == s'.byFqdn[k].response
  {
    if ops != [] {
      var init, last := Init(ops), Last(ops);
      assert ops == init + [last] && last in ops;
      var mid :| Runs(config, s, init, mid) && Step(config, mid, last, s');
      StoresTouchOnlyTheirKeys(config, s, init, mid);
      forall k | k in s'.byFqdn && s'.byFqdn[k] != s.byFqdn[k]
        ensures exists op :: op in ops && op.Stored? && op.fqdn == k && op.response == s'.byFqdn[k].response
      {
        if k != last.fqdn {
          assert s'.byFqdn[k] == mid.byFqdn[k];
          var op :| op in init && op.Stored? && op.fqdn == k && op.response == mid.byFqdn[k].response;
          assert op in ops;
        }
      }
    }
  }

  // ---------------------------------------------------------------- whether a stored entry stays

  /** A part of a map that has a given size and none of the keys to be left out. */
  lemma {:induction false} PartOfSize<V>(m: map<string, Badge<V>>, without: set<string>, n: nat) returns (part: map<string, Badge<V>>)
    requires without <= m.Keys && n <= |m| - |without|
    ensures Within(part, m) && |part| == n && part.Keys !! without
    decreases |m|
  {
    if n == |m| {
      part := m;
    } else if k :| k in without {
      part := PartOfSize(m - {k}, without - {k}, n);
      assert k !in part;
    } else {
      assert |m| > 0;
      var k :| k in m;
      part := PartOfSize(m - {k}, {}, n);
    }
  }

  /** A cleanup of `kept` over capacity can leave out an unversioned key. */
  lemma CleanupWithoutKey<V>(config: Config, kept: State<V>, key: string) returns (after: State<V>)
    requires key in kept.byFqdn && Size(kept) > config.maxEntries
    ensures PartOf(after, kept) && Size(after) == Capacity(config.maxEntries) && key !in after.byFqdn
    ensures after.byFqdnVer == kept.byFqdnVer || after.byFqdn == map[]
  {
    var capacity := Capacity(config.maxEntries);
    if |kept.byFqdnVer| <= capacity {
      var rest := PartOfSize(kept.byFqdn, {key}, capacity - |kept.byFqdnVer|);
      assert key in {key};
      after := State(rest, kept.byFqdnVer);
    } else {
      var rest := PartOfSize(kept.byFqdnVer, {}, capacity);
      after := State(map[], rest);
    }
  }

  /** And a versioned key, once the unversioned ones do not make up the excess. */
  lemma CleanupWithoutVersion<V>(config: Config, kept: State<V>, key: string) returns (after: State<V>)
    requires key in kept.byFqdnVer && |kept.byFqdnVer| > config.maxEntries
    ensures PartOf(after, kept) && Size(after) == Capacity(config.maxEntries) && key !in after.byFqdnVer
    ensures after.byFqdn == map[]
  {
    var rest := PartOfSize(kept.byFqdnVer, {key}, Capacity(config.maxEntries));
    assert key in {key};
    after := State(map[], rest);
  }

  /** What the operation leaves for the capacity to be applied to. */
  function KeptBy<V>(config: Config, s: State<V>, op: Op<V>): State<V>
    requires !op.Cleared?
  {
    RetainedState(config, op.later, Bound(config, s, op))
  }

  lemma StepOf<V>(config: Config, s: State<V>, op: Op<V>, s': State<V>)
    requires !op.Cleared? && PartOf(s', KeptBy(config, s, op))
    requires var kept := KeptBy(config, s, op);
             && Size(s') == (if Size(kept) <= config.maxEntries then Size(kept) else Capacity(config.maxEntries))
             && (s'.byFqdnVer == kept.byFqdnVer || s'.byFqdn == map[])
    ensures Step(config, s, op, s')
  {
  }

  /** In whatever order the maps are walked, the entry just stored is still there after the operation,
      if and only if the retention keeps it and all that is kept fits the capacity. */
  lemma StoredEntryStays<V(!new)>(config: Config, s: State<V>, fqdn: Fqdn, response: V, now: int, later: int)
    ensures var op := Stored(fqdn, response, now, later);
            var kept := KeptBy(config, s, op);
            (forall s' :: Step(config, s, op, s') ==> fqdn in s'.byFqdn) <==>
            fqdn in kept.byFqdn && Size(kept) <= config.maxEntries
  {
    var op := Stored(fqdn, response, now, later);
    var kept := KeptBy(config, s, op);
    if fqdn !in kept.byFqdn {
      var after := SomeStep(config, s, op);
    } else if Size(kept) > config.maxEntries {
      var after := CleanupWithoutKey(config, kept, fqdn);
      StepOf(config, s, op, after);
    } else {
      forall s' | Step(config, s, op, s') ensures fqdn in s'.byFqdn {
        CleanupDropsOnlyTheExcess(config, later, Bound(config, s, op), s');
      }
    }
  }

  /** A versioned entry also stays while dropping unversioned ones is enough. */
  lemma StoredVersionStays<V(!new)>(config: Config, s: State<V>, fqdn: Fqdn, version: Version, response: V, now: int, later: int)
    ensures var op := StoredForVersion(fqdn, version, response, now, later);
            var kept := KeptBy(config, s, op);
            var key := FqdnVersionKey(fqdn, version);
            (forall s' :: Step(config, s, op, s') ==> key in s'.byFqdnVer) <==>
            key in kept.byFqdnVer && (Size(kept) <= config.maxEntries || |kept.byFqdn| >= Size(kept) - config.maxEntries)
  {
    var op := StoredForVersion(fqdn, version, response, now, later);
    var kept := KeptBy(config, s, op);
    var key := FqdnVersionKey(fqdn, version);
    if key !in kept.byFqdnVer {
      var after := SomeStep(config, s, op);
    } else if |kept.byFqdnVer| > config.maxEntries {
      var after := CleanupWithoutVersion(config, kept, key);
      StepOf(config, s, op, after);
    } else {
      forall s' | Step(config, s, op, s') ensures key in s'.byFqdnVer {
        CleanupDropsOnlyTheExcess(config, later, Bound(config, s, op), s');
      }
    }
  }

  /** Every operation has an outcome. */
  lemma SomeStep<V>(config: Config, s: State<V>, op: Op<V>) returns (s': State<V>)
    ensures Step(config, s, op, s')
  {
    if op.Cleared? {
      s' := State(map[], map[]);
    } else {
      var kept := KeptBy(config, s, op);
      var capacity := Capacity(config.maxEntries);
      if Size(kept) <= config.maxEntries {
        s' := kept;
      } else if |kept.byFqdnVer| <= capacity {
        var rest := PartOfSize(kept.byFqdn, {}, capacity - |kept.byFqdnVer|);
        s' := State(rest, kept.byFqdnVer);
      } else {
        var rest := PartOfSize(kept.byFqdnVer, {}, capacity);
        s' := State(map[], rest);
      }
      StepOf(config, s, op, s');
    }
  }

  /** For example, at a capacity of one the entry just stored may be the one removed. */
  lemma NewEntryMayGo<V>(response: V, f: Fqdn, g: Fqdn)
    requires f != g
    ensures var config := Config(1, 10, 1, 60);
            var held := State(map[f := Badge(response, 0, 10)], map[]);
            Step(config, held, Stored(g, response, 5, 5), held)
  {
    var config := Config(1, 10, 1, 60);
    var held := State(map[f := Badge(response, 0, 10)], map[]);
    var bound := Bound(config, held, Stored(g, response, 5, 5));
    NothingToRetain(config, bound);
    assert bound.byFqdn.Keys == {f, g};
    assert |bound.byFqdn| == |bound.byFqdn.Keys| == 2;
    assert |held.byFqdn| == |held.byFqdn.Keys| == 1;
  }

  lemma NothingToRetain<V>(config: Config, s: State<V>)
    requires config.staleRetention == 60 && forall k :: k in s.byFqdn ==> s.byFqdn[k].expiresAt >= 0
    requires s.byFqdnVer == map[]
    ensures RetainedState(config, 5, s) == s
  {
    assert Retained(s.byFqdn, 5 - 60) == s.byFqdn;
    assert Retained(s.byFqdnVer, 5 - 60) == map[];
  }
}
