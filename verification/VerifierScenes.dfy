/** Particular runs: a call that nothing comes between, a refresh round that brings a cleared entry back,
    and a renewed client certificate that a cached response turns away. */
module VerifierScenes {
  import opened Text
  import opened Hex
  import opened Names
  import opened Identity
  import opened BadgeCache
  import opened Verifier
  import opened VerifierRuns

  // ---------------------------------------------------------------- a call that nothing comes between

  function Now(s: System): World
    requires s.past.worlds != []
  {
    s.past.worlds[Present(s)]
  }

  /** The reply a thread gets, with the cache it leaves. */
  ghost predicate Ends(s: System, s': System, call: Call, reply: Reply, cache: CacheState) {
    && s'.cache == cache && |s'.returned| == |s.returned| + 1
    && s'.returned[|s.returned|].frame.call == call && s'.returned[|s.returned|].reply == reply
    && s'.returned[..|s.returned|] == s.returned
  }

  function LookupFrame(s: System, call: Call, lookup: int): Frame {
    Frame(call, Present(s), FreshFor(s.cache, KeyOf(call), lookup), lookup, |s.past.log|)
  }

  lemma BeginMoves(settings: Settings, s: System, t: Tid, call: Call)
    requires PcOf(s, t) == Idle && Callable(call)
    ensures BeginCall(settings, s, t, call) == At(s, t, AfterLookup(LookupFrame(s, call, s.now)))
  {
  }

  lemma Looked(settings: Settings, s: System, t: Tid, call: Call, lookup: int) returns (m: System)
    requires s.past.worlds != [] && PcOf(s, t) == Idle && Callable(call)
    ensures Leads(settings, s, m) && m == At(s.(now := lookup), t, AfterLookup(LookupFrame(s, call, lookup)))
  {
    var n := ClockSet(settings, s, lookup);
    m := Begun(settings, s, n, t, call);
    SameFrame(s, call, lookup);
  }

  lemma SameFrame(s: System, call: Call, now: int)
    ensures LookupFrame(s.(now := now), call, now) == LookupFrame(s, call, now)
  {
  }

  lemma {:induction false} Begun(settings: Settings, s: System, n: System, t: Tid, call: Call) returns (m: System)
    requires Leads(settings, s, n) && PcOf(n, t) == Idle && Callable(call)
    ensures Leads(settings, s, m) && m == At(n, t, AfterLookup(LookupFrame(n, call, n.now)))
  {
    LeadsOn(settings, s, n, Begin(t, call));
    m := BeginCall(settings, n, t, call);
    BeginMoves(settings, n, t, call);
  }

  lemma {:induction false} ClockSet(settings: Settings, s: System, now: int) returns (m: System)
    requires s.past.worlds != []
    ensures Leads(settings, s, m) && m == s.(now := now)
  {
    LeadsHere(settings, s);
    LeadsOn(settings, s, s, SetClock(now));
    m := s.(now := now);
  }

  lemma Concluded(settings: Settings, s: System, m: System, t: Tid, w: World, call: Call, r: TlResponse, reply: Reply) returns (s': System)
    requires Leads(settings, s, m) && m.past.worlds != [] && PcOf(m, t).Holding? && PcOf(m, t).frame.call == call
    requires w == Now(m) && ResponseOf(PcOf(m, t).frame, PcOf(m, t).source) == Some(r) && reply == Final(w, call, r)
    ensures Leads(settings, s, s') && s'.past == m.past && PcOf(s', t) == Idle
    ensures Ends(m, s', call, reply, m.cache)
  {
    LeadsOn(settings, s, m, Conclude(t));
    s' := ConcludeCall(m, t);
  }

  lemma Queried(settings: Settings, s: System, m: System, t: Tid) returns (s': System)
    requires Leads(settings, s, m) && m.past.worlds != [] && PcOf(m, t).Asking?
    requires FetchFor(settings, Now(m), KeyOf(PcOf(m, t).frame.call)).Fetched?
    ensures Leads(settings, s, s') && s'.cache == m.cache && s'.past == m.past && s'.returned == m.returned
    ensures PcOf(s', t) == Storing(PcOf(m, t).frame, Present(m), Present(m), FetchFor(settings, Now(m), KeyOf(PcOf(m, t).frame.call)).response)
  {
    LeadsOn(settings, s, m, Ask(t));
    s' := AskDns(settings, m, t);
    LeadsOn(settings, s, s', Fetch(t));
    s' := AskLog(settings, s', t);
  }

  /** The two queries, when they succeed, and the store. */
  lemma {:induction false} FetchedAndStored(settings: Settings, s: System, m: System, t: Tid, insert: int, later: int, after: CacheState) returns (s': System)
    requires Leads(settings, s, m) && m.past.worlds != [] && PcOf(m, t).Asking?
    requires FetchFor(settings, Now(m), KeyOf(PcOf(m, t).frame.call)).Fetched?
    requires var key := KeyOf(PcOf(m, t).frame.call);
             Step(settings.cache, m.cache, StoreOf(key, FetchFor(settings, Now(m), key).response, insert, later), after)
    ensures Leads(settings, s, s') && s'.cache == after && s'.past.worlds == m.past.worlds && s'.returned == m.returned
    ensures PcOf(s', t) == Holding(PcOf(m, t).frame,
                                   FromLog(Present(m), Present(m), FetchFor(settings, Now(m), KeyOf(PcOf(m, t).frame.call)).response))
  {
    s' := Queried(settings, s, m, t);
    LeadsOn(settings, s, s', SetClock(insert));
    s' := s'.(now := insert);
    LeadsOn(settings, s, s', Store(t, later, after));
    s' := StoreFetched(settings, s', t, later, after);
  }

  lemma FetchedNothing(settings: Settings, s: System, m: System, t: Tid) returns (s': System)
    requires Leads(settings, s, m) && m.past.worlds != [] && PcOf(m, t).Asking?
    requires FetchFor(settings, Now(m), KeyOf(PcOf(m, t).frame.call)).Absent?
    ensures Leads(settings, s, s')
    ensures Ends(m, s', PcOf(m, t).frame.call, Refused(PcOf(m, t).frame.call, NotAtiAgent(PcOf(m, t).frame.call.fqdn)), m.cache)
  {
    LeadsOn(settings, s, m, Ask(t));
    s' := AskDns(settings, m, t);
  }

  lemma FetchBroke(settings: Settings, s: System, m: System, t: Tid) returns (s': System)
    requires Leads(settings, s, m) && m.past.worlds != [] && PcOf(m, t).Asking?
    requires FetchFor(settings, Now(m), KeyOf(PcOf(m, t).frame.call)).Broken?
    ensures Leads(settings, s, s') && s'.cache == m.cache && s'.past == m.past && s'.returned == m.returned
    ensures PcOf(s', t) == Failing(PcOf(m, t).frame, Present(m), Present(m), FetchFor(settings, Now(m), KeyOf(PcOf(m, t).frame.call)).outcome)
  {
    LeadsOn(settings, s, m, Ask(t));
    s' := AskDns(settings, m, t);
    if PcOf(s', t).Fetching? {
      LeadsOn(settings, s, s', Fetch(t));
      s' := AskLog(settings, s', t);
    }
  }

  lemma Resorted(settings: Settings, s: System, m: System, t: Tid, stale: int) returns (s': System)
    requires Leads(settings, s, m) && PcOf(m, t).Failing?
    ensures Leads(settings, s, s')
    ensures var call := PcOf(m, t).frame.call;
            Ends(m, s', call, Refused(call, ApplyPolicy(settings, StaleFor(m.cache, KeyOf(call), stale, settings.maxStaleness), PcOf(m, t).error)), m.cache)
  {
    LeadsOn(settings, s, m, SetClock(stale));
    s' := m.(now := stale);
    LeadsOn(settings, s, s', Resort(t));
    s' := ResortToPolicy(settings, s', t);
  }

  /** What the call does once its lookup is over, when nothing comes between. */
  ghost predicate GoesOn(settings: Settings, w: World, t: Clock, frame: Frame, s: CacheState, reply: Reply, s': CacheState) {
    var call, key := frame.call, KeyOf(frame.call);
    match FetchFor(settings, w, key)
    case Fetched(r) => Step(settings.cache, s, StoreOf(key, r, t.insert, t.cleanup), s') && reply == Final(w, call, r)
    case Absent => s' == s && reply == Refused(call, NotAtiAgent(call.fqdn))
    case Broken(o) => s' == s && reply == Refused(call, ApplyPolicy(settings, StaleFor(s, key, t.stale, settings.maxStaleness), o))
  }

  lemma CallSplits(settings: Settings, w: World, t: Clock, frame: Frame, s: CacheState, reply: Reply, s': CacheState)
    requires CallOn(settings, w, t, frame.call, s, reply, s') && frame.seen == FreshFor(s, KeyOf(frame.call), t.lookup)
    ensures Decided(frame) ==> s' == s && reply == Final(w, frame.call, frame.seen.value.response)
    ensures !Decided(frame) ==> GoesOn(settings, w, t, frame, s, reply, s')
  {
  }

  lemma RunGoesOn(settings: Settings, s: System, m: System, t: Tid, clock: Clock, reply: Reply, cache: CacheState) returns (s': System)
    requires Leads(settings, s, m) && m.past.worlds != [] && PcOf(m, t).Asking?
    requires GoesOn(settings, Now(m), clock, PcOf(m, t).frame, m.cache, reply, cache)
    ensures Leads(settings, s, s') && Ends(m, s', PcOf(m, t).frame.call, reply, cache)
  {
    match FetchFor(settings, Now(m), KeyOf(PcOf(m, t).frame.call))
    case Fetched(r) =>
      var n := FetchedAndStored(settings, s, m, t, clock.insert, clock.cleanup, cache);
      s' := Concluded(settings, s, n, t, Now(m), PcOf(m, t).frame.call, r, reply);
    case Absent => s' := FetchedNothing(settings, s, m, t);
    case Broken(_) =>
      var n := FetchBroke(settings, s, m, t);
      s' := Resorted(settings, s, n, t, clock.stale);
  }

  /** A call of the object is a run of the transition system in which nothing comes between, so what holds of
      all interleavings holds of it. */
  lemma CallIsRun(settings: Settings, s: System, t: Tid, clock: Clock, call: Call, reply: Reply, cache: CacheState) returns (s': System)
    requires s.past.worlds != [] && PcOf(s, t) == Idle && Callable(call)
    requires CallOn(settings, Now(s), clock, call, s.cache, reply, cache)
    ensures Leads(settings, s, s') && Ends(s, s', call, reply, cache)
  {
    var frame := LookupFrame(s, call, clock.lookup);
    CallSplits(settings, Now(s), clock, frame, s.cache, reply, cache);
    var m := Looked(settings, s, t, call, clock.lookup);
    if Decided(frame) {
      s' := Concluded(settings, s, m, t, Now(s), call, frame.seen.value.response, reply);
    } else {
      s' := RunGoesOn(settings, s, m, t, clock, reply, cache);
    }
  }

  // ---------------------------------------------------------------- stores into an empty cache

  /** There is room for one entry, and it is retained. */
  predicate Roomy(settings: Settings) {
    settings.cache.maxEntries >= 1 && settings.cache.defaultTtl + settings.cache.staleRetention >= 0
  }

  function Only(settings: Settings, key: Key, r: TlResponse, now: int): CacheState {
    match key
    case ByName(fqdn) => BadgeCache.State(map[fqdn := NewBadge(settings, r, now)], map[])
    case ByVersion(fqdn, version) => BadgeCache.State(map[], map[FqdnVersionKey(fqdn, version) := NewBadge(settings, r, now)])
  }

  lemma OneRetained(settings: Settings, k: string, r: TlResponse, now: int)
    requires Roomy(settings)
    ensures Retained(map[k := NewBadge(settings, r, now)], now - settings.cache.staleRetention) == map[k := NewBadge(settings, r, now)]
    ensures Retained<TlResponse>(map[], now - settings.cache.staleRetention) == map[]
  {
  }

  lemma OnlyIsKept(settings: Settings, key: Key, r: TlResponse, now: int)
    requires Roomy(settings)
    ensures KeptBy(settings.cache, EMPTY, StoreOf(key, r, now, now)) == Only(settings, key, r, now)
    ensures Size(Only(settings, key, r, now)) == 1
  {
    OneRetained(settings, if key.ByName? then key.fqdn else FqdnVersionKey(key.fqdn, key.version), r, now);
    assert Bound(settings.cache, EMPTY, StoreOf(key, r, now, now)) == Only(settings, key, r, now);
  }

  lemma StoreIntoEmpty(settings: Settings, key: Key, r: TlResponse, now: int)
    requires Roomy(settings)
    ensures Step(settings.cache, EMPTY, StoreOf(key, r, now, now), Only(settings, key, r, now))
  {
    OnlyIsKept(settings, key, r, now);
    StepOf(settings.cache, EMPTY, StoreOf(key, r, now, now), Only(settings, key, r, now));
  }

  lemma OnlyIsFresh(settings: Settings, key: Key, r: TlResponse, now: int)
    requires settings.cache.defaultTtl >= 0
    ensures FreshFor(Only(settings, key, r, now), key, now) == Some(NewBadge(settings, r, now))
  {
  }

  // ---------------------------------------------------------------- a round brings back what was cleared

  /** The cache is cleared while a round has a due key in hand; the round then stores under it again. */
  lemma {:induction false} RoundMayBringBack(settings: Settings, f: Fqdn, r: TlResponse, w: World) returns (cleared: System, later: System)
    requires Roomy(settings)
    requires FetchFor(settings, w, ByName(f)) == Fetched(r) && w.refresh(f) == Some(r)
    ensures Reachable(settings, cleared) && cleared.cache == EMPTY
    ensures later == Next(settings, Next(settings, cleared, FetchNext(0)), StoreNext(0, cleared.now, later.cache))
    ensures Reachable(settings, later) && f in later.cache.byFqdn
  {
    var start := Start(0, w);
    var m := Prefetched(settings, start, f, r);
    cleared := CollectedThenCleared(settings, start, m, f, r);
    later := BroughtBack(settings, start, cleared, f, r);
  }

  lemma Prefetched(settings: Settings, start: System, f: Fqdn, r: TlResponse) returns (m: System)
    requires Roomy(settings) && start.past.worlds != [] && PcOf(start, 0) == Idle && start.cache == EMPTY
    requires FetchFor(settings, Now(start), ByName(f)) == Fetched(r)
    ensures Leads(settings, start, m) && PcOf(m, 0) == Idle && m.past.worlds == start.past.worlds
    ensures m.cache == Only(settings, ByName(f), r, 0)
  {
    m := Looked(settings, start, 0, OfPrefetch(f), 0);
    NothingDecides(start, OfPrefetch(f), 0);
    m := StoredFirst(settings, start, m, ByName(f), r);
    m := Concluded(settings, start, m, 0, Now(start), OfPrefetch(f), r, Response(r));
  }

  /** In an empty cache a lookup finds nothing. */
  lemma NothingDecides(s: System, call: Call, lookup: int)
    requires s.cache == EMPTY
    ensures AfterLookup(LookupFrame(s, call, lookup)) == Asking(LookupFrame(s, call, lookup))
  {
    assert FreshFor(EMPTY, KeyOf(call), lookup) == None;
  }

  lemma StoredFirst(settings: Settings, start: System, m: System, key: Key, r: TlResponse) returns (s': System)
    requires Roomy(settings) && Leads(settings, start, m) && m.past.worlds != [] && m.cache == EMPTY
    requires PcOf(m, 0).Asking? && KeyOf(PcOf(m, 0).frame.call) == key && FetchFor(settings, Now(m), key) == Fetched(r)
    ensures Leads(settings, start, s') && s'.cache == Only(settings, key, r, 0)
    ensures s'.past.worlds == m.past.worlds && s'.returned == m.returned
    ensures PcOf(s', 0) == Holding(PcOf(m, 0).frame, FromLog(Present(m), Present(m), r))
  {
    StoreIntoEmpty(settings, key, r, 0);
    s' := FetchedAndStored(settings, start, m, 0, 0, 0, Only(settings, key, r, 0));
  }

  lemma OnlyIsDue(settings: Settings, f: Fqdn, r: TlResponse, now: int)
    requires now + settings.cache.refreshThreshold > settings.cache.defaultTtl
    ensures forall k: Fqdn :: k in [f] <==> IsDue(settings, Only(settings, ByName(f), r, 0).byFqdn, k, now)
  {
  }

  lemma Collected(settings: Settings, start: System, m: System, f: Fqdn, r: TlResponse) returns (s': System)
    requires Leads(settings, start, m) && m.cache == Only(settings, ByName(f), r, 0) && PcOf(m, 0) == Idle
    ensures Leads(settings, start, s') && s'.past == m.past && PcOf(s', 0) == Round([f], m.cache.byFqdn, s'.now)
  {
    var due := settings.cache.defaultTtl - settings.cache.refreshThreshold + 1;
    LeadsOn(settings, start, m, SetClock(due));
    s' := m.(now := due);
    OnlyIsDue(settings, f, r, due);
    LeadsOn(settings, start, s', BeginRound(0, [f]));
    s' := CollectDue(settings, s', 0, [f]);
  }

  lemma CollectedThenCleared(settings: Settings, start: System, m: System, f: Fqdn, r: TlResponse) returns (s': System)
    requires Leads(settings, start, m) && m.cache == Only(settings, ByName(f), r, 0) && PcOf(m, 0) == Idle
    ensures Leads(settings, start, s') && s'.cache == EMPTY && s'.past == m.past && PcOf(s', 0).Round?
    ensures PcOf(s', 0).keys == [f] && f in PcOf(s', 0).found
  {
    s' := Collected(settings, start, m, f, r);
    LeadsOn(settings, start, s', Clear);
    s' := s'.(cache := EMPTY);
  }

  lemma {:induction false} BroughtBack(settings: Settings, start: System, s: System, f: Fqdn, r: TlResponse) returns (s': System)
    requires Roomy(settings) && Leads(settings, start, s) && s.past.worlds != [] && s.cache == EMPTY && PcOf(s, 0).Round?
    requires PcOf(s, 0).keys == [f] && f in PcOf(s, 0).found && Now(s).refresh(f) == Some(r)
    ensures Leads(settings, start, s') && f in s'.cache.byFqdn
    ensures s' == Next(settings, Next(settings, s, FetchNext(0)), StoreNext(0, s.now, s'.cache))
  {
    var m := Next(settings, s, FetchNext(0));
    LeadsOn(settings, start, s, FetchNext(0));
    var after := Only(settings, ByName(f), r, s.now);
    StoreIntoEmpty(settings, ByName(f), r, s.now);
    LeadsOn(settings, start, m, StoreNext(0, s.now, after));
    s' := StoredAgain(settings, m, f, r);
  }

  lemma StoredAgain(settings: Settings, m: System, f: Fqdn, r: TlResponse) returns (s': System)
    requires Roomy(settings) && m.past.worlds != [] && m.cache == EMPTY && PcOf(m, 0).RoundStoring?
    requires PcOf(m, 0).keys == [f] && f in PcOf(m, 0).found && PcOf(m, 0).response == r
    ensures s' == Next(settings, m, StoreNext(0, m.now, Only(settings, ByName(f), r, m.now)))
    ensures s'.cache == Only(settings, ByName(f), r, m.now)
  {
    StoreIntoEmpty(settings, ByName(f), r, m.now);
    s' := StoreRefreshed(settings, m, 0, m.now, Only(settings, ByName(f), r, m.now));
  }

  // ---------------------------------------------------------------- what a round adds

  /** The step takes the name out of the cache: a clearing, or a store whose cleanup drops it. */
  ghost predicate DropsName(settings: Settings, s: System, a: Action, f: Fqdn) {
    match a
    case Clear => true
    case Store(t, later, after) =>
      && PcOf(s, t).Storing?
      && CleanupDrops(settings, s, StoreOf(KeyOf(PcOf(s, t).frame.call), PcOf(s, t).response, s.now, later), after, f)
    case StoreNext(t, later, after) =>
      && PcOf(s, t).RoundStoring? && PcOf(s, t).keys != [] && PcOf(s, t).keys[0] in PcOf(s, t).found
      && CleanupDrops(settings, s, Stored(PcOf(s, t).keys[0], PcOf(s, t).response, s.now, later), after, f)
    case _ => false
  }

  ghost predicate CleanupDrops(settings: Settings, s: System, op: Op<TlResponse>, after: CacheState, f: Fqdn) {
    Step(settings.cache, s.cache, op, after) && f in Bound(settings.cache, s.cache, op).byFqdn && f !in after.byFqdn
  }

  lemma {:induction false} LeavesIffDropped(settings: Settings, s: System, a: Action, f: Fqdn)
    requires s.past.worlds != [] && f in s.cache.byFqdn
    ensures f !in Next(settings, s, a).cache.byFqdn <==> DropsName(settings, s, a, f)
  {
  }

  ghost function StateAt(settings: Settings, s: System, actions: seq<Action>, j: nat): (m: System)
    requires s.past.worlds != [] && j <= |actions|
    ensures m.past.worlds != []
  {
    Run(settings, s, actions[..j])
  }

  ghost predicate AbsentFrom(settings: Settings, s: System, actions: seq<Action>, f: Fqdn, n: nat)
    requires s.past.worlds != []
  {
    forall j :: n <= j <= |actions| ==> f !in StateAt(settings, s, actions, j).cache.byFqdn
  }

  ghost predicate LeftAt(settings: Settings, s: System, actions: seq<Action>, f: Fqdn, i: nat)
    requires s.past.worlds != [] && i < |actions|
  {
    var m := StateAt(settings, s, actions, i);
    f in m.cache.byFqdn && DropsName(settings, m, actions[i], f) && AbsentFrom(settings, s, actions, f, i + 1)
  }

  /** Some step of the segment takes the name out, and no later one of the segment puts it back. */
  ghost predicate LeftSince(settings: Settings, s: System, actions: seq<Action>, f: Fqdn)
    requires s.past.worlds != []
  {
    exists i :: 0 <= i < |actions| && LeftAt(settings, s, actions, f, i)
  }

  lemma {:induction false} StateAfter(settings: Settings, s: System, actions: seq<Action>, n: nat)
    requires s.past.worlds != [] && n < |actions|
    ensures StateAt(settings, s, actions, n + 1) == Next(settings, StateAt(settings, s, actions, n), actions[n])
  {
    assert actions[..n + 1] == actions[..n] + [actions[n]];
    RunMore(settings, s, actions[..n], actions[n]);
  }

  lemma {:induction false} StateAtEnds(settings: Settings, s: System, actions: seq<Action>)
    requires s.past.worlds != []
    ensures StateAt(settings, s, actions, 0) == s && StateAt(settings, s, actions, |actions|) == Run(settings, s, actions)
  {
    assert actions[..0] == [] && actions[..|actions|] == actions;
  }

  lemma {:induction false} LeavesHere(settings: Settings, s: System, actions: seq<Action>, f: Fqdn, i: nat)
    requires s.past.worlds != [] && i < |actions| && f in StateAt(settings, s, actions, i).cache.byFqdn
    requires AbsentFrom(settings, s, actions, f, i + 1)
    ensures LeftAt(settings, s, actions, f, i)
  {
    StateAfter(settings, s, actions, i);
    LeavesIffDropped(settings, StateAt(settings, s, actions, i), actions[i], f);
  }

  lemma {:induction false} LastLeaving(settings: Settings, s: System, actions: seq<Action>, f: Fqdn, n: nat) returns (i: nat)
    requires s.past.worlds != [] && f in StateAt(settings, s, actions, 0).cache.byFqdn && n <= |actions|
    requires AbsentFrom(settings, s, actions, f, n)
    ensures i < |actions| && LeftAt(settings, s, actions, f, i)
  {
    assert n > 0;
    i := n - 1;
    if f in StateAt(settings, s, actions, i).cache.byFqdn {
      LeavesHere(settings, s, actions, f, i);
    } else {
      i := LastLeaving(settings, s, actions, f, i);
    }
  }

  /** A name that was there at the start of a segment is gone at its end exactly when it left since. */
  lemma {:induction false} GoneIffLeft(settings: Settings, s: System, actions: seq<Action>, f: Fqdn)
    requires s.past.worlds != [] && f in s.cache.byFqdn
    ensures f !in Run(settings, s, actions).cache.byFqdn <==> LeftSince(settings, s, actions, f)
  {
    StateAtEnds(settings, s, actions);
    if f !in Run(settings, s, actions).cache.byFqdn {
      var i := LastLeaving(settings, s, actions, f, |actions|);
    }
  }

  /** The thread begins nothing in the segment. */
  predicate BeginsNothing(actions: seq<Action>, t: Tid) {
    forall i :: 0 <= i < |actions| ==> !(actions[i].Begin? && actions[i].t == t) && !(actions[i].BeginRound? && actions[i].t == t)
  }

  /** The thread is in the round that found `found`, with some of its keys to go, or through with it. */
  predicate InRound(pc: Pc, keys: seq<Fqdn>, found: map<string, Badge<TlResponse>>) {
    match pc
    case Idle => true
    case Round(ks, fs, _) => fs == found && forall k :: k in ks ==> k in keys
    case RoundStoring(ks, fs, _, _, _) => fs == found && forall k :: k in ks ==> k in keys
    case _ => false
  }

  lemma {:induction false} RoundGoesOn(settings: Settings, s: System, a: Action, t: Tid, keys: seq<Fqdn>, found: map<string, Badge<TlResponse>>)
    requires s.past.worlds != [] && InRound(PcOf(s, t), keys, found) && BeginsNothing([a], t)
    ensures InRound(PcOf(Next(settings, s, a), t), keys, found)
  {
    assert [a][0] == a;
  }

  lemma {:induction false} RoundLasts(settings: Settings, s: System, actions: seq<Action>, t: Tid, keys: seq<Fqdn>, found: map<string, Badge<TlResponse>>)
    requires s.past.worlds != [] && InRound(PcOf(s, t), keys, found) && BeginsNothing(actions, t)
    ensures InRound(PcOf(Run(settings, s, actions), t), keys, found)
    decreases |actions|
  {
    if actions != [] {
      assert BeginsNothing([actions[0]], t);
      RoundGoesOn(settings, s, actions[0], t, keys, found);
      RoundLasts(settings, Next(settings, s, actions[0]), actions[1..], t, keys, found);
    }
  }

  /** The round that begins here. */
  lemma {:induction false} RoundBegins(settings: Settings, s: System, t: Tid, keys: seq<Fqdn>, b: System)
    requires PcOf(s, t) == Idle && b == CollectDue(settings, s, t, keys) && PcOf(b, t).Round?
    ensures InRound(PcOf(b, t), keys, s.cache.byFqdn) && b.cache == s.cache && b.past == s.past
    ensures forall k :: k in keys ==> k in s.cache.byFqdn
  {
    assert forall k :: k in keys ==> IsDue(settings, s.cache.byFqdn, k, s.now);
  }

  /** Exact condition: when a round comes to store a name, the name is not in the cache exactly when it left the
      cache after the round collected it, by a clearing or by the cleanup of a store. Otherwise the
      store renews an entry that is there. */
  lemma {:induction false} RoundAddsWhatLeft(settings: Settings, s: System, t: Tid, keys: seq<Fqdn>, b: System, actions: seq<Action>, e: System)
    requires s.past.worlds != [] && PcOf(s, t) == Idle && b == CollectDue(settings, s, t, keys) && PcOf(b, t).Round?
    requires b.past.worlds != [] && BeginsNothing(actions, t) && e == Run(settings, b, actions)
    requires PcOf(e, t).RoundStoring? && PcOf(e, t).keys != []
    ensures PcOf(e, t).keys[0] in keys
    ensures PcOf(e, t).keys[0] !in e.cache.byFqdn <==> LeftSince(settings, b, actions, PcOf(e, t).keys[0])
  {
    RoundBegins(settings, s, t, keys, b);
    RoundLasts(settings, b, actions, t, keys, s.cache.byFqdn);
    var f := PcOf(e, t).keys[0];
    assert f in PcOf(e, t).keys;
    GoneIffLeft(settings, b, actions, f);
  }

  lemma {:induction false} RoundStoreLeaves(settings: Settings, e: System, t: Tid, later: int, after: CacheState)
    requires e.past.worlds != [] && PcOf(e, t).RoundStoring? && PcOf(e, t).keys != [] && PcOf(e, t).keys[0] in PcOf(e, t).found
    requires Step(settings.cache, e.cache, Stored(PcOf(e, t).keys[0], PcOf(e, t).response, e.now, later), after)
    ensures Next(settings, e, StoreNext(t, later, after)).cache == after
  {
  }

  lemma BoundHasName(config: Config, s: CacheState, f: Fqdn, r: TlResponse, now: int, later: int)
    ensures f in Bound(config, s, Stored(f, r, now, later)).byFqdn
  {
  }

  /** And the store then puts it in, unless its own cleanup drops it again. */
  lemma {:induction false} RoundStorePuts(settings: Settings, e: System, t: Tid, later: int, after: CacheState)
    requires Inv(settings, e) && PcOf(e, t).RoundStoring?
    requires Step(settings.cache, e.cache, Stored(PcOf(e, t).keys[0], PcOf(e, t).response, e.now, later), after)
    ensures var f := PcOf(e, t).keys[0];
            var op := Stored(f, PcOf(e, t).response, e.now, later);
            && Next(settings, e, StoreNext(t, later, after)).cache == after
            && (f in after.byFqdn <==> !CleanupDrops(settings, e, op, after, f))
  {
    var pc := PcOf(e, t);
    PcIsOk(settings, e, t);
    RestOfRound(settings, e.past, pc.keys, pc.found, pc.read);
    RoundStoreLeaves(settings, e, t, later, after);
    BoundHasName(settings.cache, e.cache, pc.keys[0], pc.response, e.now, later);
  }

  // ---------------------------------------------------------------- a renewed client certificate

  /** A client certificate for one name and version. */
  function ClientCert(f: Fqdn, v: Version, d: Digest): Cert {
    Cert(Some(f), [], [AtiUri(v, f)], d, d)
  }

  /** The log's record of an active agent with this identity certificate. */
  function ActiveRecord(f: Fqdn, v: Version, d: Digest): TlResponse {
    TlResponse(Payload(AtiUri(v, f), "", f, "ACTIVE", Fingerprints("", FingerprintString(d), "", "")), "")
  }

  /** A world in which the log attests this certificate. */
  function Attesting(f: Fqdn, v: Version, d: Digest): World {
    World(g => Missing, (g, u) => Got("url"), url => Logged(ActiveRecord(f, v, d)), None, g => None)
  }

  lemma {:induction false} NamesOfUri(f: Fqdn, v: Version)
    ensures NamesOf([AtiUri(v, f)]) == [AtiName(v, f, AtiUri(v, f))]
  {
    AtiNameRoundTrip(Lower, v, f);
    assert MapChars(Lower, f) == ToLower(f);
    FqdnIsNormal(f);
    NamesOfOne(AtiUri(v, f));
  }

  lemma {:induction false} SubjectOfClient(f: Fqdn, v: Version, d: Digest)
    ensures ClientSubject(ClientCert(f, v, d)) == SubjectIs(f, v)
  {
    NamesOfUri(f, v);
    SubjectByName(ClientCert(f, v, d), AtiName(v, f, AtiUri(v, f)));
  }

  lemma SubjectByName(cert: Cert, name: AtiName)
    requires Subject(cert).Some? && NamesOf(cert.uriSans) == [name] && NewFqdn(name.host) == Some(name.host)
    ensures ClientSubject(cert) == SubjectIs(name.host, name.version)
  {
  }

  lemma FingerprintsDecide(d: Digest, e: Digest)
    ensures MatchesWithRenewal(d, FingerprintString(e), "") <==> d == e
  {
    RenewalNeedsCurrent(d, FingerprintString(e), "");
    FingerprintRoundTrip(e);
  }

  /** The verdict on an active record, by its two remaining checks. */
  lemma JudgeOfActive(r: TlResponse, cert: Cert)
    requires r.payload.agentStatus == "ACTIVE"
    ensures var p := r.payload;
            var matches := MatchesWithRenewal(cert.fingerprint, p.certificates.identity, p.certificates.previousIdentity);
            && (!matches ==> JudgeClient(r, cert) == FingerprintMismatch(r, p.certificates.identity, FingerprintString(cert.fingerprint)))
            && (matches && NamedBy(cert.uriSans, p.agentName) ==> JudgeClient(r, cert) == Verified(r, cert.fingerprint, false, None))
  {
  }

  lemma NamedByOwn(f: Fqdn, v: Version)
    ensures NamedBy([AtiUri(v, f)], AtiUri(v, f))
  {
    NamesOfUri(f, v);
    assert NamesOf([AtiUri(v, f)])[0].raw == AtiUri(v, f);
  }

  lemma {:induction false} JudgeOfRecord(f: Fqdn, v: Version, d: Digest, e: Digest)
    ensures var o := JudgeClient(ActiveRecord(f, v, e), ClientCert(f, v, d));
            if d == e then o == Verified(ActiveRecord(f, v, e), d, false, None)
            else o == FingerprintMismatch(ActiveRecord(f, v, e), FingerprintString(e), FingerprintString(d))
  {
    JudgeOfActive(ActiveRecord(f, v, e), ClientCert(f, v, d));
    FingerprintsDecide(d, e);
    NamedByOwn(f, v);
  }

  lemma FetchOfRecord(settings: Settings, f: Fqdn, v: Version, d: Digest)
    ensures FetchFor(settings, Attesting(f, v, d), ByVersion(f, v)) == Fetched(ActiveRecord(f, v, d))
  {
  }

  /** The old certificate is verified; the log then attests a new one, without naming the old one as previous;
      within the time to live the new certificate is rejected, although the log vouches for it. A server
      call in this place would have asked the log again. */
  lemma {:induction false} RenewedClientMayBeRejected(settings: Settings, f: Fqdn, v: Version, d: Digest, e: Digest) returns (s: System)
    requires Roomy(settings) && settings.cache.defaultTtl >= 0 && d != e
    ensures Reachable(settings, s) && |s.returned| == 2 && Now(s) == Attesting(f, v, e)
    ensures s.returned[0].frame.call == OfClient(f, v, ClientCert(f, v, d))
    ensures s.returned[0].reply == Judged(Verified(ActiveRecord(f, v, d), d, false, None))
    ensures s.returned[1].frame.call == OfClient(f, v, ClientCert(f, v, e))
    ensures s.returned[1].reply == Judged(FingerprintMismatch(ActiveRecord(f, v, d), FingerprintString(d), FingerprintString(e)))
    ensures Uncached(settings, Now(s), OfClient(f, v, ClientCert(f, v, e))) == Judged(Verified(ActiveRecord(f, v, e), e, false, None))
  {
    var start := Start(0, Attesting(f, v, d));
    RepliesToClient(settings, f, v, d, e);
    var m := FirstClientCall(settings, f, v, d, start, Judged(Verified(ActiveRecord(f, v, d), d, false, None)));
    LeadsOn(settings, start, m, SetWorld(Attesting(f, v, e)));
    m := m.(past := m.past.(worlds := m.past.worlds + [Attesting(f, v, e)]));
    s := CachedClientCall(settings, f, v, d, e, start, m,
                          Judged(FingerprintMismatch(ActiveRecord(f, v, d), FingerprintString(d), FingerprintString(e))));
  }

  /** What a client call makes of the records, and what it would return without a cache. */
  lemma {:induction false} RepliesToClient(settings: Settings, f: Fqdn, v: Version, d: Digest, e: Digest)
    requires d != e
    ensures Final(Attesting(f, v, d), OfClient(f, v, ClientCert(f, v, d)), ActiveRecord(f, v, d)) ==
            Judged(Verified(ActiveRecord(f, v, d), d, false, None))
    ensures Final(Attesting(f, v, e), OfClient(f, v, ClientCert(f, v, e)), ActiveRecord(f, v, d)) ==
            Judged(FingerprintMismatch(ActiveRecord(f, v, d), FingerprintString(d), FingerprintString(e)))
    ensures Uncached(settings, Attesting(f, v, e), OfClient(f, v, ClientCert(f, v, e))) ==
            Judged(Verified(ActiveRecord(f, v, e), e, false, None))
  {
    JudgeOfRecord(f, v, d, d);
    JudgeOfRecord(f, v, e, d);
    JudgeOfRecord(f, v, e, e);
    FetchOfRecord(settings, f, v, e);
  }

  lemma FirstClientCall(settings: Settings, f: Fqdn, v: Version, d: Digest, start: System, reply: Reply) returns (m: System)
    requires Roomy(settings) && start == Start(0, Attesting(f, v, d))
    requires reply == Final(Attesting(f, v, d), OfClient(f, v, ClientCert(f, v, d)), ActiveRecord(f, v, d))
    ensures Leads(settings, start, m) && PcOf(m, 0) == Idle && m.past.worlds != [] && |m.returned| == 1
    ensures m.cache == Only(settings, ByVersion(f, v), ActiveRecord(f, v, d), 0)
    ensures m.returned[0].frame.call == OfClient(f, v, ClientCert(f, v, d))
    ensures m.returned[0].reply == reply
  {
    var call := OfClient(f, v, ClientCert(f, v, d));
    SubjectOfClient(f, v, d);
    FetchOfRecord(settings, f, v, d);
    m := Looked(settings, start, 0, call, 0);
    NothingDecides(start, call, 0);
    m := StoredFirst(settings, start, m, ByVersion(f, v), ActiveRecord(f, v, d));
    m := Concluded(settings, start, m, 0, Attesting(f, v, d), call, ActiveRecord(f, v, d), reply);
  }

  lemma {:induction false} LookedAndFound(settings: Settings, start: System, m: System, call: Call, b: Badge<TlResponse>) returns (l: System)
    requires Leads(settings, start, m) && PcOf(m, 0) == Idle && m.past.worlds != []
    requires call.OfClient? && Callable(call) && FreshFor(m.cache, KeyOf(call), 0) == Some(b)
    ensures Leads(settings, start, l) && l.past == m.past && l.cache == m.cache && l.returned == m.returned
    ensures PcOf(l, 0) == Holding(Frame(call, Present(m), Some(b), 0, |m.past.log|), FromCache)
  {
    l := Looked(settings, m, 0, call, 0);
    FoundDecides(m, call, 0, b);
    LeadsTrans(settings, start, m, l);
  }

  lemma FoundDecides(s: System, call: Call, lookup: int, b: Badge<TlResponse>)
    requires call.OfClient? && FreshFor(s.cache, KeyOf(call), lookup) == Some(b)
    ensures AfterLookup(LookupFrame(s, call, lookup)) == Holding(LookupFrame(s, call, lookup), FromCache)
    ensures LookupFrame(s, call, lookup).seen == Some(b)
  {
  }

  lemma CachedClientCall(settings: Settings, f: Fqdn, v: Version, d: Digest, e: Digest, start: System, m: System, reply: Reply)
    returns (s: System)
    requires settings.cache.defaultTtl >= 0 && Leads(settings, start, m) && PcOf(m, 0) == Idle && m.past.worlds != []
    requires m.cache == Only(settings, ByVersion(f, v), ActiveRecord(f, v, d), 0)
    requires reply == Final(Now(m), OfClient(f, v, ClientCert(f, v, e)), ActiveRecord(f, v, d))
    ensures Leads(settings, start, s) && s.past == m.past
    ensures Ends(m, s, OfClient(f, v, ClientCert(f, v, e)), reply, m.cache)
  {
    SubjectOfClient(f, v, e);
    OnlyIsFresh(settings, ByVersion(f, v), ActiveRecord(f, v, d), 0);
    var call, b := OfClient(f, v, ClientCert(f, v, e)), NewBadge(settings, ActiveRecord(f, v, d), 0);
    var l := LookedAndFound(settings, start, m, call, b);
    s := Concluded(settings, start, l, 0, Now(m), call, ActiveRecord(f, v, d), reply);
  }

  lemma {:induction false} RunAppend(settings: Settings, s: System, a: seq<Action>, b: seq<Action>)
    requires s.past.worlds != []
    ensures Run(settings, s, a + b) == Run(settings, Run(settings, s, a), b)
    decreases |a|
  {
    if a == [] {
      assert a + b == b;
    } else {
      assert (a + b)[1..] == a[1..] + b;
      RunAppend(settings, Next(settings, s, a[0]), a[1..], b);
    }
  }

  lemma LeadsTrans(settings: Settings, s: System, m: System, s': System)
    requires Leads(settings, s, m) && Leads(settings, m, s')
    ensures Leads(settings, s, s')
  {
    var a :| Run(settings, s, a) == m;
    var b :| Run(settings, m, b) == s';
    RunAppend(settings, s, a, b);
  }
}
