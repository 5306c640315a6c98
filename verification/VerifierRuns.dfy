/** Server calls, client calls, prefetches and rounds of the background refresh of any number of threads
    on one cache. Each lookup, each store and each clearing is one step under the lock; the DNS query, the
    log query and the DANE check are steps of their own, and between any two steps of a call every other
    thread may run, the clock may be set anywhere and the world outside may change. */
module VerifierRuns {
  import opened Text
  import opened Names
  import opened Identity
  import opened BadgeCache
  import opened Verifier

  type Tid = nat

  // ---------------------------------------------------------------- states

  /** A call after its lookup: the world was number `since` when it began, and the lookup found `seen`
      at clock reading `read`, when there had been `stores` stores. */
  datatype Frame = Frame(call: Call, since: nat, seen: Option<Badge<TlResponse>>, read: int, stores: nat)

  /** What a reply was made from; `dns` and `log` number the worlds that answered the queries, and a stale lookup was
      made at clock reading `read`, when there had been `stores` stores. */
  datatype Source =
    | FromCache
    | FromLog(dns: nat, log: nat, response: TlResponse)
    | FromNothing(dns: nat)
    | FromFailure(dns: nat, log: nat, error: Outcome, stale: Option<Badge<TlResponse>>, read: int, stores: nat)

  /** Where a thread stands. */
  datatype Pc =
    | Idle
    | Asking(frame: Frame)
    | Fetching(frame: Frame, dns: nat, url: string)
    | Storing(frame: Frame, dns: nat, log: nat, response: TlResponse)
    | Failing(frame: Frame, dns: nat, log: nat, error: Outcome)
    | Holding(frame: Frame, source: Source)
    | Round(keys: seq<Fqdn>, found: map<string, Badge<TlResponse>>, read: int)
    | RoundStoring(keys: seq<Fqdn>, found: map<string, Badge<TlResponse>>, read: int, world: nat, response: TlResponse)

  /** Who stored: a call, or a round that had found the entry `was` due at reading `read`. */
  datatype Origin = ByCall(dns: nat, log: nat) | ByRound(world: nat, was: Badge<TlResponse>, read: int)

  datatype Record = Record(key: Key, badge: Badge<TlResponse>, origin: Origin)

  /** A call that returned, when the world was number `at`. */
  datatype Return = Return(frame: Frame, source: Source, reply: Reply, at: nat)

  /** All worlds so far, the last one being the present one, and all stores so far. */
  datatype History = History(worlds: seq<World>, log: seq<Record>)

  datatype System = System(now: int, cache: CacheState, threads: map<Tid, Pc>, past: History, returned: seq<Return>)

  datatype Action =
    | SetClock(now: int)
    | SetWorld(w: World)
    | Clear
    | Begin(t: Tid, call: Call)
    | Ask(t: Tid)
    | Fetch(t: Tid)
    | Store(t: Tid, later: int, after: CacheState)
    | Resort(t: Tid)
    | Conclude(t: Tid)
    | BeginRound(t: Tid, keys: seq<Fqdn>)
    | FetchNext(t: Tid)
    | StoreNext(t: Tid, later: int, after: CacheState)

  const EMPTY: CacheState := BadgeCache.State(map[], map[])

  function Start(now: int, w: World): System {
    System(now, EMPTY, map[], History([w], []), [])
  }

  function PcOf(s: System, t: Tid): Pc {
    if t in s.threads then s.threads[t] else Idle
  }

  function At(s: System, t: Tid, pc: Pc): System {
    s.(threads := s.threads[t := pc])
  }

  /** The number of the present world. */
  function Present(s: System): nat {
    if s.past.worlds == [] then 0 else |s.past.worlds| - 1
  }

  function Returning(s: System, t: Tid, r: Return): System {
    At(s, t, Idle).(returned := s.returned + [r])
  }

  // ---------------------------------------------------------------- steps

  /** A client call is about the subject of its certificate. */
  predicate Callable(call: Call) {
    call.OfClient? ==> ClientSubject(call.cert) == SubjectIs(call.fqdn, call.version)
  }

  predicate Decided(frame: Frame) {
    frame.seen.Some? && Decides(frame.call, frame.seen.value.response)
  }

  /** The response a call concludes on. */
  function ResponseOf(frame: Frame, source: Source): Option<TlResponse> {
    match source
    case FromCache => if frame.seen.Some? then Some(frame.seen.value.response) else None
    case FromLog(_, _, r) => Some(r)
    case _ => None
  }

  function NewBadge(settings: Settings, response: TlResponse, now: int): Badge<TlResponse> {
    Badge(response, now, now + settings.cache.defaultTtl)
  }

  predicate IsDue(settings: Settings, found: map<string, Badge<TlResponse>>, key: string, read: int) {
    key in found && Due(found[key], read, settings.cache.refreshThreshold)
  }

  function AfterLookup(frame: Frame): Pc {
    if Decided(frame) then Holding(frame, FromCache) else Asking(frame)
  }

  /** The lookup, under the lock. */
  function BeginCall(settings: Settings, s: System, t: Tid, call: Call): System {
    if PcOf(s, t) != Idle || !Callable(call) then s
    else
      var frame := Frame(call, Present(s), FreshFor(s.cache, KeyOf(call), s.now), s.now, |s.past.log|);
      At(s, t, AfterLookup(frame))
  }

  /** The DNS query. */
  function AskDns(settings: Settings, s: System, t: Tid): System
    requires s.past.worlds != []
  {
    var pc, i := PcOf(s, t), Present(s);
    if !pc.Asking? then s
    else match DnsAnswer(s.past.worlds[i], KeyOf(pc.frame.call))
      case Missing =>
        Returning(s, t, Return(pc.frame, FromNothing(i), Refused(pc.frame.call, NotAtiAgent(pc.frame.call.fqdn)), i))
      case Failure(e) => At(s, t, Failing(pc.frame, i, i, DnsError(e)))
      case Got(url) => At(s, t, Fetching(pc.frame, i, url))
  }

  /** The log query. */
  function AskLog(settings: Settings, s: System, t: Tid): System
    requires s.past.worlds != []
  {
    var pc, i := PcOf(s, t), Present(s);
    if !pc.Fetching? then s
    else match LogAnswer(settings, s.past.worlds[i], pc.url)
      case Logged(r) => At(s, t, Storing(pc.frame, pc.dns, i, r))
      case LogFailure(e) => At(s, t, Failing(pc.frame, pc.dns, i, TlogError(e)))
  }

  function Recording(s: System, record: Record, after: CacheState): System {
    s.(cache := after, past := s.past.(log := s.past.log + [record]))
  }

  /** The store, under the lock; `after` is one of the states the cleanup may leave. */
  ghost function StoreFetched(settings: Settings, s: System, t: Tid, later: int, after: CacheState): System {
    var pc := PcOf(s, t);
    if !pc.Storing? || !Step(settings.cache, s.cache, StoreOf(KeyOf(pc.frame.call), pc.response, s.now, later), after) then s
    else
      At(Recording(s, Record(KeyOf(pc.frame.call), NewBadge(settings, pc.response, s.now), ByCall(pc.dns, pc.log)), after),
         t, Holding(pc.frame, FromLog(pc.dns, pc.log, pc.response)))
  }

  /** The failure policy, with what a stale lookup under the lock finds. */
  function ResortToPolicy(settings: Settings, s: System, t: Tid): System {
    var pc := PcOf(s, t);
    if !pc.Failing? then s
    else
      var stale := StaleFor(s.cache, KeyOf(pc.frame.call), s.now, settings.maxStaleness);
      Returning(s, t, Return(pc.frame, FromFailure(pc.dns, pc.log, pc.error, stale, s.now, |s.past.log|),
                             Refused(pc.frame.call, ApplyPolicy(settings, stale, pc.error)), Present(s)))
  }

  /** The verdict on the response in hand, with the DANE check. */
  function ConcludeCall(s: System, t: Tid): System
    requires s.past.worlds != []
  {
    var pc, i := PcOf(s, t), Present(s);
    if !pc.Holding? || ResponseOf(pc.frame, pc.source).None? then s
    else
      Returning(s, t, Return(pc.frame, pc.source, Final(s.past.worlds[i], pc.frame.call, ResponseOf(pc.frame, pc.source).value), i))
  }

  /** A refresh round collects the keys that are due, in some order, under the lock. */
  ghost function CollectDue(settings: Settings, s: System, t: Tid, keys: seq<Fqdn>): System {
    if PcOf(s, t) != Idle || !(forall k: Fqdn :: k in keys <==> IsDue(settings, s.cache.byFqdn, k, s.now)) then s
    else At(s, t, Round(keys, s.cache.byFqdn, s.now))
  }

  function RefreshNext(s: System, t: Tid): System
    requires s.past.worlds != []
  {
    var pc, i := PcOf(s, t), Present(s);
    if !pc.Round? then s
    else if pc.keys == [] then At(s, t, Idle)
    else match s.past.worlds[i].refresh(pc.keys[0])
      case None => At(s, t, Round(pc.keys[1..], pc.found, pc.read))
      case Some(r) => At(s, t, RoundStoring(pc.keys, pc.found, pc.read, i, r))
  }

  ghost function StoreRefreshed(settings: Settings, s: System, t: Tid, later: int, after: CacheState): System {
    var pc := PcOf(s, t);
    if !pc.RoundStoring? || pc.keys == [] || pc.keys[0] !in pc.found
       || !Step(settings.cache, s.cache, Stored(pc.keys[0], pc.response, s.now, later), after) then s
    else
      At(Recording(s, Record(ByName(pc.keys[0]), NewBadge(settings, pc.response, s.now), ByRound(pc.world, pc.found[pc.keys[0]], pc.read)), after),
         t, Round(pc.keys[1..], pc.found, pc.read))
  }

  /** The state after an action; an action that is not enabled changes nothing. */
  ghost function Next(settings: Settings, s: System, a: Action): System
    requires s.past.worlds != []
  {
    match a
    case SetClock(now) => s.(now := now)
    case SetWorld(w) => s.(past := s.past.(worlds := s.past.worlds + [w]))
    case Clear => s.(cache := EMPTY)
    case Begin(t, call) => BeginCall(settings, s, t, call)
    case Ask(t) => AskDns(settings, s, t)
    case Fetch(t) => AskLog(settings, s, t)
    case Store(t, later, after) => StoreFetched(settings, s, t, later, after)
    case Resort(t) => ResortToPolicy(settings, s, t)
    case Conclude(t) => ConcludeCall(s, t)
    case BeginRound(t, keys) => CollectDue(settings, s, t, keys)
    case FetchNext(t) => RefreshNext(s, t)
    case StoreNext(t, later, after) => StoreRefreshed(settings, s, t, later, after)
  }

  ghost function Run(settings: Settings, s: System, actions: seq<Action>): (s': System)
    requires s.past.worlds != []
    ensures s'.past.worlds != []
    decreases |actions|
  {
    if actions == [] then s else Run(settings, Next(settings, s, actions[0]), actions[1..])
  }

  // ---------------------------------------------------------------- the invariant

  /** One of the first n stores stored the badge under the key. */
  ghost predicate Recorded(past: History, n: nat, key: Key, badge: Badge<TlResponse>) {
    n <= |past.log| && exists i :: 0 <= i < n && past.log[i].key == key && past.log[i].badge == badge
  }

  /** World i gave the DNS record and world j the log entry. */
  predicate Obtained(settings: Settings, past: History, key: Key, i: nat, j: nat, response: TlResponse) {
    && i <= j < |past.worlds|
    && var w := past.worlds[i];
       var answer := if key.ByName? then w.preferred(key.fqdn) else w.forVersion(key.fqdn, key.version);
       answer.Got? && past.worlds[j].log(settings.rewriteHost(answer.url)) == Logged(response)
  }

  /** World i failed to give the DNS record, or world j the log entry. */
  predicate FailedAt(settings: Settings, past: History, key: Key, i: nat, j: nat, error: Outcome) {
    && i <= j < |past.worlds|
    && var w := past.worlds[i];
       match (if key.ByName? then w.preferred(key.fqdn) else w.forVersion(key.fqdn, key.version))
       case Missing => false
       case Failure(e) => error == DnsError(e)
       case Got(url) => var l := past.worlds[j].log(settings.rewriteHost(url)); l.LogFailure? && error == TlogError(l.error)
  }

  ghost predicate RecordOk(settings: Settings, past: History, r: Record) {
    && r.badge.expiresAt == r.badge.fetchedAt + settings.cache.defaultTtl
    && match r.origin
       case ByCall(i, j) => Obtained(settings, past, r.key, i, j, r.badge.response)
       case ByRound(i, was, read) =>
         && r.key.ByName? && i < |past.worlds| && past.worlds[i].refresh(r.key.fqdn) == Some(r.badge.response)
         && Recorded(past, |past.log|, r.key, was) && Due(was, read, settings.cache.refreshThreshold)
  }

  ghost predicate FrameOk(past: History, f: Frame) {
    && f.since < |past.worlds| && Callable(f.call)
    && (f.seen.Some? ==> Recorded(past, f.stores, KeyOf(f.call), f.seen.value) && f.read <= f.seen.value.expiresAt)
  }

  ghost predicate SourceOk(settings: Settings, past: History, f: Frame, source: Source) {
    match source
    case FromCache => Decided(f)
    case FromLog(i, j, r) => !Decided(f) && f.since <= i && Obtained(settings, past, KeyOf(f.call), i, j, r)
    case FromNothing(i) => !Decided(f) && f.since <= i < |past.worlds| && DnsAnswer(past.worlds[i], KeyOf(f.call)).Missing?
    case FromFailure(i, j, e, stale, read, n) =>
      && !Decided(f) && f.since <= i && FailedAt(settings, past, KeyOf(f.call), i, j, e)
      && (stale.Some? ==> Recorded(past, n, KeyOf(f.call), stale.value) && read - stale.value.expiresAt <= settings.maxStaleness)
  }

  ghost predicate RoundOk(settings: Settings, past: History, keys: seq<Fqdn>, found: map<string, Badge<TlResponse>>, read: int) {
    forall k :: k in keys ==> IsDue(settings, found, k, read) && Recorded(past, |past.log|, ByName(k), found[k])
  }

  ghost predicate PcOk(settings: Settings, past: History, pc: Pc) {
    match pc
    case Idle => true
    case Asking(f) => FrameOk(past, f) && !Decided(f)
    case Fetching(f, i, url) =>
      FrameOk(past, f) && !Decided(f) && f.since <= i < |past.worlds| && DnsAnswer(past.worlds[i], KeyOf(f.call)) == Got(url)
    case Storing(f, i, j, r) => FrameOk(past, f) && SourceOk(settings, past, f, FromLog(i, j, r))
    case Failing(f, i, j, e) => FrameOk(past, f) && SourceOk(settings, past, f, FromFailure(i, j, e, None, 0, 0))
    case Holding(f, source) => FrameOk(past, f) && SourceOk(settings, past, f, source)
    case Round(keys, found, read) => RoundOk(settings, past, keys, found, read)
    case RoundStoring(keys, found, read, i, r) =>
      && RoundOk(settings, past, keys, found, read)
      && keys != [] && i < |past.worlds| && past.worlds[i].refresh(keys[0]) == Some(r)
  }

  /** The last world that answered a query of the call. */
  function LastAsked(frame: Frame, source: Source): nat {
    match source
    case FromCache => frame.since
    case FromLog(_, j, _) => j
    case FromNothing(i) => i
    case FromFailure(_, j, _, _, _, _) => j
  }

  /** The reply is what its source leads to. */
  predicate ReplyOk(settings: Settings, past: History, r: Return) {
    && LastAsked(r.frame, r.source) <= r.at < |past.worlds|
    && match r.source
       case FromNothing(_) => r.reply == Refused(r.frame.call, NotAtiAgent(r.frame.call.fqdn))
       case FromFailure(_, _, e, stale, _, _) => r.reply == Refused(r.frame.call, ApplyPolicy(settings, stale, e))
       case _ =>
         var response := ResponseOf(r.frame, r.source);
         response.Some? && r.reply == Final(past.worlds[r.at], r.frame.call, response.value)
  }

  ghost predicate ReturnOk(settings: Settings, past: History, r: Return) {
    FrameOk(past, r.frame) && SourceOk(settings, past, r.frame, r.source) && ReplyOk(settings, past, r)
  }

  ghost predicate CacheOk(past: History, cache: CacheState) {
    && (forall f: Fqdn :: f in cache.byFqdn ==> Recorded(past, |past.log|, ByName(f), cache.byFqdn[f]))
    && (forall f: Fqdn, v: Version :: FqdnVersionKey(f, v) in cache.byFqdnVer ==>
          Recorded(past, |past.log|, ByVersion(f, v), cache.byFqdnVer[FqdnVersionKey(f, v)]))
  }

  /** The past up to the i-th store. */
  function Before(past: History, i: nat): History
    requires i <= |past.log|
  {
    past.(log := past.log[..i])
  }

  ghost predicate PastOk(settings: Settings, past: History) {
    past.worlds != [] && forall i :: 0 <= i < |past.log| ==> RecordOk(settings, Before(past, i), past.log[i])
  }

  ghost predicate ThreadsOk(settings: Settings, past: History, threads: map<Tid, Pc>) {
    forall t :: t in threads ==> PcOk(settings, past, threads[t])
  }

  ghost predicate ReturnsOk(settings: Settings, past: History, returned: seq<Return>) {
    forall i :: 0 <= i < |returned| ==> ReturnOk(settings, past, returned[i])
  }

  ghost predicate Inv(settings: Settings, s: System) {
    && PastOk(settings, s.past) && CacheOk(s.past, s.cache) && Size(s.cache) <= Capacity(settings.cache.maxEntries)
    && ThreadsOk(settings, s.past, s.threads) && ReturnsOk(settings, s.past, s.returned)
  }

  // ---------------------------------------------------------------- what holds of the past stays

  ghost predicate Continues(past: History, past': History) {
    past.worlds <= past'.worlds && past.log <= past'.log
  }

  lemma {:induction false} RecordedStays(past: History, past': History, n: nat, key: Key, badge: Badge<TlResponse>)
    requires Continues(past, past') && Recorded(past, n, key, badge)
    ensures forall m :: n <= m <= |past'.log| ==> Recorded(past', m, key, badge)
  {
    var i :| 0 <= i < n && past.log[i].key == key && past.log[i].badge == badge;
    assert past'.log[i] == past.log[i];
  }

  lemma {:induction false} ObtainedStays(settings: Settings, past: History, past': History, key: Key, i: nat, j: nat, r: TlResponse)
    requires Continues(past, past') && Obtained(settings, past, key, i, j, r)
    ensures Obtained(settings, past', key, i, j, r)
  {
    assert past'.worlds[i] == past.worlds[i] && past'.worlds[j] == past.worlds[j];
  }

  lemma {:induction false} FailedStays(settings: Settings, past: History, past': History, key: Key, i: nat, j: nat, e: Outcome)
    requires Continues(past, past') && FailedAt(settings, past, key, i, j, e)
    ensures FailedAt(settings, past', key, i, j, e)
  {
    assert past'.worlds[i] == past.worlds[i] && past'.worlds[j] == past.worlds[j];
  }

  lemma {:induction false} RecordStays(settings: Settings, past: History, past': History, r: Record)
    requires Continues(past, past') && RecordOk(settings, past, r)
    ensures RecordOk(settings, past', r)
  {
    match r.origin
    case ByCall(i, j) => ObtainedStays(settings, past, past', r.key, i, j, r.badge.response);
    case ByRound(i, was, _) =>
      RecordedStays(past, past', |past.log|, r.key, was);
      assert past'.worlds[i] == past.worlds[i];
  }

  lemma {:induction false} FrameStays(past: History, past': History, f: Frame)
    requires Continues(past, past') && FrameOk(past, f)
    ensures FrameOk(past', f)
  {
    if f.seen.Some? {
      RecordedStays(past, past', f.stores, KeyOf(f.call), f.seen.value);
    }
  }

  lemma {:induction false} SourceStays(settings: Settings, past: History, past': History, f: Frame, source: Source)
    requires Continues(past, past') && SourceOk(settings, past, f, source)
    ensures SourceOk(settings, past', f, source)
  {
    match source
    case FromCache =>
    case FromLog(i, j, r) => ObtainedStays(settings, past, past', KeyOf(f.call), i, j, r);
    case FromNothing(i) => assert past'.worlds[i] == past.worlds[i];
    case FromFailure(i, j, e, stale, _, n) =>
      FailedStays(settings, past, past', KeyOf(f.call), i, j, e);
      if stale.Some? {
        RecordedStays(past, past', n, KeyOf(f.call), stale.value);
      }
  }

  lemma {:induction false} RoundStays(settings: Settings, past: History, past': History, keys: seq<Fqdn>, found: map<string, Badge<TlResponse>>, read: int)
    requires Continues(past, past') && RoundOk(settings, past, keys, found, read)
    ensures RoundOk(settings, past', keys, found, read)
  {
    forall k | k in keys ensures IsDue(settings, found, k, read) && Recorded(past', |past'.log|, ByName(k), found[k]) {
      RecordedStays(past, past', |past.log|, ByName(k), found[k]);
    }
  }

  lemma {:induction false} PcStays(settings: Settings, past: History, past': History, pc: Pc)
    requires Continues(past, past') && PcOk(settings, past, pc)
    ensures PcOk(settings, past', pc)
  {
    match pc
    case Idle =>
    case Asking(f) => FrameStays(past, past', f);
    case Fetching(f, i, _) =>
      FrameStays(past, past', f);
      assert past'.worlds[i] == past.worlds[i];
    case Storing(f, i, j, r) =>
      FrameStays(past, past', f);
      SourceStays(settings, past, past', f, FromLog(i, j, r));
    case Failing(f, i, j, e) =>
      FrameStays(past, past', f);
      SourceStays(settings, past, past', f, FromFailure(i, j, e, None, 0, 0));
    case Holding(f, source) =>
      FrameStays(past, past', f);
      SourceStays(settings, past, past', f, source);
    case Round(keys, found, read) => RoundStays(settings, past, past', keys, found, read);
    case RoundStoring(keys, found, read, i, _) =>
      RoundStays(settings, past, past', keys, found, read);
      assert past'.worlds[i] == past.worlds[i];
  }

  lemma {:induction false} ReturnStays(settings: Settings, past: History, past': History, r: Return)
    requires Continues(past, past') && ReturnOk(settings, past, r)
    ensures ReturnOk(settings, past', r)
  {
    FrameStays(past, past', r.frame);
    SourceStays(settings, past, past', r.frame, r.source);
    assert past'.worlds[r.at] == past.worlds[r.at];
  }

  lemma {:induction false} ThreadsStay(settings: Settings, past: History, past': History, threads: map<Tid, Pc>)
    requires Continues(past, past') && ThreadsOk(settings, past, threads)
    ensures ThreadsOk(settings, past', threads)
  {
    forall t | t in threads ensures PcOk(settings, past', threads[t]) {
      PcStays(settings, past, past', threads[t]);
    }
  }

  lemma {:induction false} ReturnsStay(settings: Settings, past: History, past': History, returned: seq<Return>)
    requires Continues(past, past') && ReturnsOk(settings, past, returned)
    ensures ReturnsOk(settings, past', returned)
  {
    forall i | 0 <= i < |returned| ensures ReturnOk(settings, past', returned[i]) {
      ReturnStays(settings, past, past', returned[i]);
    }
  }

  lemma {:induction false} CacheStays(past: History, past': History, cache: CacheState)
    requires Continues(past, past') && CacheOk(past, cache)
    ensures CacheOk(past', cache)
  {
    forall f: Fqdn | f in cache.byFqdn ensures Recorded(past', |past'.log|, ByName(f), cache.byFqdn[f]) {
      RecordedStays(past, past', |past.log|, ByName(f), cache.byFqdn[f]);
    }
    forall f: Fqdn, v: Version | FqdnVersionKey(f, v) in cache.byFqdnVer
      ensures Recorded(past', |past'.log|, ByVersion(f, v), cache.byFqdnVer[FqdnVersionKey(f, v)])
    {
      RecordedStays(past, past', |past.log|, ByVersion(f, v), cache.byFqdnVer[FqdnVersionKey(f, v)]);
    }
  }

  // ---------------------------------------------------------------- every step keeps the invariant

  lemma {:induction false} MoveKeepsInv(settings: Settings, s: System, t: Tid, pc: Pc)
    requires Inv(settings, s) && PcOk(settings, s.past, pc)
    ensures Inv(settings, At(s, t, pc))
  {
  }

  lemma {:induction false} ReturnKeepsInv(settings: Settings, s: System, t: Tid, r: Return)
    requires Inv(settings, s) && ReturnOk(settings, s.past, r)
    ensures Inv(settings, Returning(s, t, r))
  {
    MoveKeepsInv(settings, s, t, Idle);
  }

  lemma {:induction false} WorldKeepsInv(settings: Settings, s: System, w: World)
    requires Inv(settings, s)
    ensures Inv(settings, s.(past := s.past.(worlds := s.past.worlds + [w])))
  {
    var past' := s.past.(worlds := s.past.worlds + [w]);
    forall i | 0 <= i < |past'.log| ensures RecordOk(settings, Before(past', i), past'.log[i]) {
      RecordStays(settings, Before(s.past, i), Before(past', i), s.past.log[i]);
    }
    CacheStays(s.past, past', s.cache);
    ThreadsStay(settings, s.past, past', s.threads);
    ReturnsStay(settings, s.past, past', s.returned);
  }

  lemma {:induction false} RecordKeepsPast(settings: Settings, past: History, r: Record)
    requires PastOk(settings, past) && RecordOk(settings, past, r)
    ensures PastOk(settings, past.(log := past.log + [r]))
  {
    var past' := past.(log := past.log + [r]);
    forall i | 0 <= i < |past'.log| ensures RecordOk(settings, Before(past', i), past'.log[i]) {
      if i < |past.log| {
        assert Before(past', i) == Before(past, i);
      } else {
        assert past'.log[..i] == past.log;
        assert Before(past', i) == past;
      }
    }
  }

  lemma {:induction false} BoundIsRecorded(settings: Settings, past: History, cache: CacheState, r: Record, later: int)
    requires CacheOk(past, cache) && r.badge == NewBadge(settings, r.badge.response, r.badge.fetchedAt)
    ensures CacheOk(past.(log := past.log + [r]), Bound(settings.cache, cache, StoreOf(r.key, r.badge.response, r.badge.fetchedAt, later)))
  {
    var past' := past.(log := past.log + [r]);
    CacheStays(past, past', cache);
    assert past'.log[|past.log|] == r;
    assert Recorded(past', |past'.log|, r.key, r.badge);
    if r.key.ByVersion? {
      BoundVersionIsRecorded(settings, past', cache, r, later);
    }
  }

  lemma {:induction false} BoundVersionIsRecorded(settings: Settings, past: History, cache: CacheState, r: Record, later: int)
    requires CacheOk(past, cache) && r.key.ByVersion? && Recorded(past, |past.log|, r.key, r.badge)
    requires r.badge == NewBadge(settings, r.badge.response, r.badge.fetchedAt)
    ensures CacheOk(past, Bound(settings.cache, cache, StoreOf(r.key, r.badge.response, r.badge.fetchedAt, later)))
  {
    var bound := Bound(settings.cache, cache, StoreOf(r.key, r.badge.response, r.badge.fetchedAt, later));
    forall f: Fqdn, v: Version | FqdnVersionKey(f, v) in bound.byFqdnVer
      ensures Recorded(past, |past.log|, ByVersion(f, v), bound.byFqdnVer[FqdnVersionKey(f, v)])
    {
      KeysDiffer(f, v, r.key.fqdn, r.key.version);
    }
  }

  lemma {:induction false} PartIsRecorded(past: History, cache: CacheState, part: CacheState)
    requires CacheOk(past, cache) && PartOf(part, cache)
    ensures CacheOk(past, part)
  {
  }

  lemma {:induction false} RecordingKeepsInv(settings: Settings, s: System, r: Record, later: int, after: CacheState)
    requires Inv(settings, s) && RecordOk(settings, s.past, r) && r.badge == NewBadge(settings, r.badge.response, r.badge.fetchedAt)
    requires Step(settings.cache, s.cache, StoreOf(r.key, r.badge.response, r.badge.fetchedAt, later), after)
    ensures Inv(settings, Recording(s, r, after)) && Continues(s.past, Recording(s, r, after).past)
  {
    var op := StoreOf(r.key, r.badge.response, r.badge.fetchedAt, later);
    var past' := s.past.(log := s.past.log + [r]);
    RecordKeepsPast(settings, s.past, r);
    BoundIsRecorded(settings, s.past, s.cache, r, later);
    StepKeepsPartOfBound(settings.cache, s.cache, op, after);
    PartIsRecorded(past', Bound(settings.cache, s.cache, op), after);
    StepIsBounded(settings.cache, s.cache, op, after);
    ThreadsStay(settings, s.past, past', s.threads);
    ReturnsStay(settings, s.past, past', s.returned);
  }

  lemma {:induction false} FreshIsRecorded(past: History, cache: CacheState, key: Key, now: int)
    requires CacheOk(past, cache)
    ensures FreshFor(cache, key, now).Some? ==>
              Recorded(past, |past.log|, key, FreshFor(cache, key, now).value) && now <= FreshFor(cache, key, now).value.expiresAt
  {
  }

  lemma {:induction false} StaleIsRecorded(past: History, cache: CacheState, key: Key, now: int, maxStaleness: int)
    requires CacheOk(past, cache)
    ensures StaleFor(cache, key, now, maxStaleness).Some? ==>
              Recorded(past, |past.log|, key, StaleFor(cache, key, now, maxStaleness).value) &&
              now - StaleFor(cache, key, now, maxStaleness).value.expiresAt <= maxStaleness
  {
  }

  lemma {:induction false} BeginKeepsInv(settings: Settings, s: System, t: Tid, call: Call)
    requires Inv(settings, s)
    ensures Inv(settings, BeginCall(settings, s, t, call))
  {
    if PcOf(s, t) == Idle && Callable(call) {
      FreshIsRecorded(s.past, s.cache, KeyOf(call), s.now);
      var frame := Frame(call, Present(s), FreshFor(s.cache, KeyOf(call), s.now), s.now, |s.past.log|);
      MoveKeepsInv(settings, s, t, AfterLookup(frame));
    }
  }

  lemma {:induction false} PcIsOk(settings: Settings, s: System, t: Tid)
    requires Inv(settings, s)
    ensures PcOk(settings, s.past, PcOf(s, t)) && s.past.worlds != []
  {
  }

  lemma {:induction false} AskKeepsInv(settings: Settings, s: System, t: Tid)
    requires Inv(settings, s)
    ensures Inv(settings, AskDns(settings, s, t))
  {
    PcIsOk(settings, s, t);
    var pc, i := PcOf(s, t), Present(s);
    if pc.Asking? {
      match DnsAnswer(s.past.worlds[i], KeyOf(pc.frame.call))
      case Missing =>
        ReturnKeepsInv(settings, s, t, Return(pc.frame, FromNothing(i), Refused(pc.frame.call, NotAtiAgent(pc.frame.call.fqdn)), i));
      case Failure(e) => MoveKeepsInv(settings, s, t, Failing(pc.frame, i, i, DnsError(e)));
      case Got(url) => MoveKeepsInv(settings, s, t, Fetching(pc.frame, i, url));
    }
  }

  lemma {:induction false} FetchKeepsInv(settings: Settings, s: System, t: Tid)
    requires Inv(settings, s)
    ensures Inv(settings, AskLog(settings, s, t))
  {
    PcIsOk(settings, s, t);
    var pc, i := PcOf(s, t), Present(s);
    if pc.Fetching? {
      match LogAnswer(settings, s.past.worlds[i], pc.url)
      case Logged(r) => MoveKeepsInv(settings, s, t, Storing(pc.frame, pc.dns, i, r));
      case LogFailure(e) => MoveKeepsInv(settings, s, t, Failing(pc.frame, pc.dns, i, TlogError(e)));
    }
  }

  lemma {:induction false} StoreKeepsInv(settings: Settings, s: System, t: Tid, later: int, after: CacheState)
    requires Inv(settings, s)
    ensures Inv(settings, StoreFetched(settings, s, t, later, after))
  {
    PcIsOk(settings, s, t);
    var pc := PcOf(s, t);
    if pc.Storing? && Step(settings.cache, s.cache, StoreOf(KeyOf(pc.frame.call), pc.response, s.now, later), after) {
      var r := Record(KeyOf(pc.frame.call), NewBadge(settings, pc.response, s.now), ByCall(pc.dns, pc.log));
      var s' := Recording(s, r, after);
      var holding := Holding(pc.frame, FromLog(pc.dns, pc.log, pc.response));
      RecordingKeepsInv(settings, s, r, later, after);
      PcStays(settings, s.past, s'.past, holding);
      MoveKeepsInv(settings, s', t, holding);
    }
  }

  lemma {:induction false} ResortKeepsInv(settings: Settings, s: System, t: Tid)
    requires Inv(settings, s)
    ensures Inv(settings, ResortToPolicy(settings, s, t))
  {
    PcIsOk(settings, s, t);
    var pc := PcOf(s, t);
    if pc.Failing? {
      var stale := StaleFor(s.cache, KeyOf(pc.frame.call), s.now, settings.maxStaleness);
      StaleIsRecorded(s.past, s.cache, KeyOf(pc.frame.call), s.now, settings.maxStaleness);
      ReturnKeepsInv(settings, s, t, Return(pc.frame, FromFailure(pc.dns, pc.log, pc.error, stale, s.now, |s.past.log|),
                                            Refused(pc.frame.call, ApplyPolicy(settings, stale, pc.error)), Present(s)));
    }
  }

  lemma {:induction false} ConcludeKeepsInv(settings: Settings, s: System, t: Tid)
    requires Inv(settings, s)
    ensures Inv(settings, ConcludeCall(s, t))
  {
    PcIsOk(settings, s, t);
    var pc, i := PcOf(s, t), Present(s);
    if pc.Holding? && ResponseOf(pc.frame, pc.source).Some? {
      ReturnKeepsInv(settings, s, t,
                     Return(pc.frame, pc.source, Final(s.past.worlds[i], pc.frame.call, ResponseOf(pc.frame, pc.source).value), i));
    }
  }

  lemma {:induction false} CollectKeepsInv(settings: Settings, s: System, t: Tid, keys: seq<Fqdn>)
    requires Inv(settings, s)
    ensures Inv(settings, CollectDue(settings, s, t, keys))
  {
    if PcOf(s, t) == Idle && (forall k: Fqdn :: k in keys <==> IsDue(settings, s.cache.byFqdn, k, s.now)) {
      MoveKeepsInv(settings, s, t, Round(keys, s.cache.byFqdn, s.now));
    }
  }

  lemma {:induction false} RestOfRound(settings: Settings, past: History, keys: seq<Fqdn>, found: map<string, Badge<TlResponse>>, read: int)
    requires keys != [] && RoundOk(settings, past, keys, found, read)
    ensures keys[0] in found && Due(found[keys[0]], read, settings.cache.refreshThreshold)
    ensures Recorded(past, |past.log|, ByName(keys[0]), found[keys[0]])
    ensures RoundOk(settings, past, keys[1..], found, read)
  {
    assert keys[0] in keys;
    assert forall k :: k in keys[1..] ==> k in keys;
  }

  lemma {:induction false} RefreshKeepsInv(settings: Settings, s: System, t: Tid)
    requires Inv(settings, s)
    ensures Inv(settings, RefreshNext(s, t))
  {
    PcIsOk(settings, s, t);
    var pc, i := PcOf(s, t), Present(s);
    if pc.Round? && pc.keys != [] {
      RestOfRound(settings, s.past, pc.keys, pc.found, pc.read);
      match s.past.worlds[i].refresh(pc.keys[0])
      case None => MoveKeepsInv(settings, s, t, Round(pc.keys[1..], pc.found, pc.read));
      case Some(r) => MoveKeepsInv(settings, s, t, RoundStoring(pc.keys, pc.found, pc.read, i, r));
    } else if pc.Round? {
      MoveKeepsInv(settings, s, t, Idle);
    }
  }

  lemma {:induction false} StoreNextKeepsInv(settings: Settings, s: System, t: Tid, later: int, after: CacheState)
    requires Inv(settings, s)
    ensures Inv(settings, StoreRefreshed(settings, s, t, later, after))
  {
    PcIsOk(settings, s, t);
    var pc := PcOf(s, t);
    if pc.RoundStoring? && Step(settings.cache, s.cache, Stored(pc.keys[0], pc.response, s.now, later), after) {
      RestOfRound(settings, s.past, pc.keys, pc.found, pc.read);
      var r := Record(ByName(pc.keys[0]), NewBadge(settings, pc.response, s.now), ByRound(pc.world, pc.found[pc.keys[0]], pc.read));
      var s' := Recording(s, r, after);
      RecordingKeepsInv(settings, s, r, later, after);
      RoundStays(settings, s.past, s'.past, pc.keys[1..], pc.found, pc.read);
      MoveKeepsInv(settings, s', t, Round(pc.keys[1..], pc.found, pc.read));
    }
  }

  lemma {:induction false} OutsideKeepsInv(settings: Settings, s: System, a: Action)
    requires Inv(settings, s) && (a.SetClock? || a.SetWorld? || a.Clear?)
    ensures Inv(settings, Next(settings, s, a))
  {
    if a.SetWorld? {
      WorldKeepsInv(settings, s, a.w);
    }
  }

  lemma {:induction false} NextKeepsInv(settings: Settings, s: System, a: Action)
    requires Inv(settings, s)
    ensures Inv(settings, Next(settings, s, a))
  {
    match a
    case Begin(t, call) => BeginKeepsInv(settings, s, t, call);
    case Ask(t) => AskKeepsInv(settings, s, t);
    case Fetch(t) => FetchKeepsInv(settings, s, t);
    case Store(t, later, after) => StoreKeepsInv(settings, s, t, later, after);
    case Resort(t) => ResortKeepsInv(settings, s, t);
    case Conclude(t) => ConcludeKeepsInv(settings, s, t);
    case BeginRound(t, keys) => CollectKeepsInv(settings, s, t, keys);
    case FetchNext(t) => RefreshKeepsInv(settings, s, t);
    case StoreNext(t, later, after) => StoreNextKeepsInv(settings, s, t, later, after);
    case _ => OutsideKeepsInv(settings, s, a);
  }

  lemma {:induction false} RunKeepsInv(settings: Settings, s: System, actions: seq<Action>)
    requires Inv(settings, s)
    ensures Inv(settings, Run(settings, s, actions))
    decreases |actions|
  {
    if actions != [] {
      NextKeepsInv(settings, s, actions[0]);
      RunKeepsInv(settings, Next(settings, s, actions[0]), actions[1..]);
    }
  }

  // ---------------------------------------------------------------- reachable states

  ghost predicate Leads(settings: Settings, s: System, s': System) {
    s.past.worlds != [] && exists actions :: Run(settings, s, actions) == s'
  }

  lemma {:induction false} RunMore(settings: Settings, s: System, actions: seq<Action>, a: Action)
    requires s.past.worlds != []
    ensures Run(settings, s, actions + [a]) == Next(settings, Run(settings, s, actions), a)
    decreases |actions|
  {
    if actions == [] {
      assert [a][1..] == [];
    } else {
      assert (actions + [a])[1..] == actions[1..] + [a];
      RunMore(settings, Next(settings, s, actions[0]), actions[1..], a);
    }
  }

  lemma {:induction false} LeadsHere(settings: Settings, s: System)
    requires s.past.worlds != []
    ensures Leads(settings, s, s)
  {
    assert Run(settings, s, []) == s;
  }

  lemma {:induction false} LeadsOn(settings: Settings, s: System, mid: System, a: Action)
    requires Leads(settings, s, mid)
    ensures mid.past.worlds != [] && Leads(settings, s, Next(settings, mid, a))
  {
    var actions :| Run(settings, s, actions) == mid;
    RunMore(settings, s, actions, a);
  }

  /** The states of all runs from an empty cache. */
  ghost predicate Reachable(settings: Settings, s: System) {
    exists now, w :: Leads(settings, Start(now, w), s)
  }

  /** In every interleaving every cache entry was stored for its very key, every store was fetched for its
      key by a call or stored by a round that had found the key due, every reply follows from what its
      call saw, and both maps together are within capacity. */
  lemma {:induction false} ReachableIsSound(settings: Settings, s: System)
    requires Reachable(settings, s)
    ensures Inv(settings, s)
  {
    var now, w :| Leads(settings, Start(now, w), s);
    var actions :| Run(settings, Start(now, w), actions) == s;
    RunKeepsInv(settings, Start(now, w), actions);
  }

  // ---------------------------------------------------------------- the cache is transparent

  /** Nothing outside changed so far. */
  ghost predicate Settled(past: History, w: World) {
    forall i :: 0 <= i < |past.worlds| ==> past.worlds[i] == w
  }

  /** The background refresh is given what a fetch would give. */
  ghost predicate Honest(settings: Settings, w: World) {
    forall f: Fqdn :: w.refresh(f).Some? ==> FetchFor(settings, w, ByName(f)) == Fetched(w.refresh(f).value)
  }

  lemma {:induction false} SettledFetch(settings: Settings, past: History, w: World, key: Key, i: nat, j: nat)
    requires Settled(past, w)
    ensures forall r :: Obtained(settings, past, key, i, j, r) ==> FetchFor(settings, w, key) == Fetched(r)
    ensures forall e :: FailedAt(settings, past, key, i, j, e) ==> FetchFor(settings, w, key) == Broken(e)
  {
  }

  lemma {:induction false} RecordedIsFaithful(settings: Settings, past: History, n: nat, w: World, key: Key, badge: Badge<TlResponse>)
    requires PastOk(settings, past) && Settled(past, w) && Honest(settings, w) && Recorded(past, n, key, badge)
    ensures FetchFor(settings, w, key) == Fetched(badge.response)
  {
    var i :| 0 <= i < n && past.log[i].key == key && past.log[i].badge == badge;
    var r := past.log[i];
    assert RecordOk(settings, Before(past, i), r);
    match r.origin
    case ByCall(d, l) => SettledFetch(settings, Before(past, i), w, key, d, l);
    case ByRound(k, _, _) => assert past.worlds[k] == w;
  }

  lemma {:induction false} ReturnAsUncached(settings: Settings, past: History, w: World, r: Return)
    requires PastOk(settings, past) && Settled(past, w) && Honest(settings, w) && ReturnOk(settings, past, r)
    ensures r.reply == Uncached(settings, w, r.frame.call)
  {
    var key := KeyOf(r.frame.call);
    assert past.worlds[r.at] == w;
    match r.source
    case FromCache => RecordedIsFaithful(settings, past, r.frame.stores, w, key, r.frame.seen.value);
    case FromLog(i, j, _) => SettledFetch(settings, past, w, key, i, j);
    case FromNothing(i) => assert past.worlds[i] == w;
    case FromFailure(i, j, _, stale, _, n) =>
      SettledFetch(settings, past, w, key, i, j);
      if stale.Some? {
        RecordedIsFaithful(settings, past, n, w, key, stale.value);
      }
  }

  /** Main theorem: while nothing outside changes, every server call, client call and prefetch returns
      what it returns without a cache: in every interleaving with other calls and refresh rounds, under
      every failure policy, whatever the clock reads, the capacity evicts and the order of the maps. */
  lemma {:induction false} CacheIsTransparent(settings: Settings, s: System, w: World, k: nat)
    requires Reachable(settings, s) && k < |s.returned|
    requires Settled(s.past, w) && Honest(settings, w)
    ensures s.returned[k].reply == Uncached(settings, w, s.returned[k].frame.call)
  {
    ReachableIsSound(settings, s);
    ReturnAsUncached(settings, s.past, w, s.returned[k]);
  }

  // ---------------------------------------------------------------- what a reply rests on

  /** Worlds of this very call gave the DNS record and the log entry. */
  ghost predicate FetchedInCall(settings: Settings, past: History, r: Return, key: Key, response: TlResponse) {
    exists i, j :: r.frame.since <= i <= j <= r.at && Obtained(settings, past, key, i, j, response)
  }

  ghost predicate FailedInCall(settings: Settings, past: History, r: Return, key: Key) {
    exists i, j, e :: r.frame.since <= i <= j <= r.at && FailedAt(settings, past, key, i, j, e)
  }

  /** One of the first n stores stored the response under the key, at most `age` before `now`. */
  ghost predicate StoredWithin(past: History, n: nat, key: Key, response: TlResponse, now: int, age: int) {
    && n <= |past.log|
    && exists i :: 0 <= i < n && past.log[i].key == key && past.log[i].badge.response == response && now - past.log[i].badge.fetchedAt <= age
  }

  lemma {:induction false} RecordedWithin(settings: Settings, past: History, n: nat, key: Key, badge: Badge<TlResponse>, now: int, staleness: int)
    requires PastOk(settings, past) && Recorded(past, n, key, badge) && now - badge.expiresAt <= staleness
    ensures StoredWithin(past, n, key, badge.response, now, settings.cache.defaultTtl + staleness)
  {
    var i :| 0 <= i < n && past.log[i].key == key && past.log[i].badge == badge;
    assert RecordOk(settings, Before(past, i), past.log[i]);
  }

  /** The response a call concluded on was stored before its lookup, within the time to live, or was fetched
      in the call. */
  ghost predicate RestsOn(settings: Settings, past: History, r: Return, key: Key, response: TlResponse) {
    && (r.source.FromCache? ==> StoredWithin(past, r.frame.stores, key, response, r.frame.read, settings.cache.defaultTtl))
    && (!r.source.FromCache? ==> FetchedInCall(settings, past, r, key, response))
  }

  lemma {:induction false} ConcludedOn(settings: Settings, past: History, r: Return)
    requires PastOk(settings, past) && ReturnOk(settings, past, r) && (r.source.FromCache? || r.source.FromLog?)
    ensures ResponseOf(r.frame, r.source).Some? && RestsOn(settings, past, r, KeyOf(r.frame.call), ResponseOf(r.frame, r.source).value)
  {
    if r.source.FromCache? {
      RecordedWithin(settings, past, r.frame.stores, KeyOf(r.frame.call), r.frame.seen.value, r.frame.read, 0);
    }
  }

  /** Verification was skipped: the policy is open, the fetch failed in the call, and a response is handed
      out only if it was stored for the key before the stale lookup, within the time to live and the
      allowed staleness. */
  ghost predicate SkipIsSound(settings: Settings, past: History, r: Return, key: Key, o: Outcome) {
    o.FailOpen? ==>
      && !settings.policy.FailClosed? && FailedInCall(settings, past, r, key)
      && (o.stale.Some? ==>
            && r.source.FromFailure?
            && StoredWithin(past, r.source.stores, key, o.stale.value, r.source.read, settings.cache.defaultTtl + settings.maxStaleness))
  }

  lemma {:induction false} RefusalSkips(settings: Settings, past: History, r: Return, o: Outcome)
    requires PastOk(settings, past) && ReturnOk(settings, past, r) && r.source.FromFailure?
    requires o == ApplyPolicy(settings, r.source.stale, r.source.error)
    ensures SkipIsSound(settings, past, r, KeyOf(r.frame.call), o) && !o.Verified? && !o.FingerprintMismatch?
  {
    assert r.source.error.DnsError? || r.source.error.TlogError?;
    if r.source.stale.Some? {
      RecordedWithin(settings, past, r.source.stores, KeyOf(r.frame.call), r.source.stale.value, r.source.read, settings.maxStaleness);
    }
  }

  /** What every server outcome rests on. */
  ghost predicate ServerReplyIsSafe(settings: Settings, past: History, r: Return, fqdn: Fqdn, cert: Cert, o: Outcome) {
    && (o.Verified? ==>
          && VouchesForServer(o.response, cert, fqdn) && RestsOn(settings, past, r, ByName(fqdn), o.response)
          && r.at < |past.worlds| && DaneAllows(past.worlds[r.at], fqdn, cert))
    && (o.FingerprintMismatch? ==> FetchedInCall(settings, past, r, ByName(fqdn), o.response))
    && SkipIsSound(settings, past, r, ByName(fqdn), o)
  }

  lemma {:induction false} ServerReturnIsSafe(settings: Settings, past: History, r: Return, fqdn: Fqdn, cert: Cert, o: Outcome)
    requires PastOk(settings, past) && ReturnOk(settings, past, r)
    requires r.frame.call == OfServer(fqdn, cert) && r.reply == Judged(o)
    ensures ServerReplyIsSafe(settings, past, r, fqdn, cert, o)
  {
    match r.source
    case FromNothing(_) =>
    case FromFailure(_, _, _, _, _, _) => RefusalSkips(settings, past, r, o);
    case _ =>
      ConcludedOn(settings, past, r);
      ServerJudged(past.worlds[r.at], fqdn, cert, ResponseOf(r.frame, r.source).value);
  }

  /** Main theorem: in every interleaving, however the world changes in between and under every policy, a
      server is verified only on a response that vouches for the certificate and was fetched in that
      call, or stored for that name before its lookup and within the time to live; DANE does not object. A fingerprint mismatch
      is only reported on a response fetched in that call. Verification is skipped only under an open
      policy and after a fetch that failed in the call. */
  lemma {:induction false} ServerOutcomesAreSafe(settings: Settings, s: System, k: nat, fqdn: Fqdn, cert: Cert, o: Outcome)
    requires Reachable(settings, s) && k < |s.returned|
    requires s.returned[k].frame.call == OfServer(fqdn, cert) && s.returned[k].reply == Judged(o)
    ensures ServerReplyIsSafe(settings, s.past, s.returned[k], fqdn, cert, o)
  {
    ReachableIsSound(settings, s);
    ServerReturnIsSafe(settings, s.past, s.returned[k], fqdn, cert, o);
  }

  /** `IsSuccess`: the outcome lets the caller through. */
  predicate IsSuccess(o: Outcome) {
    o.Verified? || o.FailOpen?
  }

  /** Under FailClosed a server call that succeeds has verified the server. */
  lemma {:induction false} FailClosedSucceedsOnlyVerified(settings: Settings, s: System, k: nat, fqdn: Fqdn, cert: Cert, o: Outcome)
    requires Reachable(settings, s) && k < |s.returned|
    requires s.returned[k].frame.call == OfServer(fqdn, cert) && s.returned[k].reply == Judged(o)
    requires settings.policy.FailClosed? && IsSuccess(o)
    ensures o.Verified? && VouchesForServer(o.response, cert, fqdn) && RestsOn(settings, s.past, s.returned[k], ByName(fqdn), o.response)
  {
    ServerOutcomesAreSafe(settings, s, k, fqdn, cert, o);
  }

  /** What every client outcome rests on. A mismatch is judged on the cached response exactly when the
      lookup found a fresh one that mismatches. */
  ghost predicate ClientReplyIsSafe(settings: Settings, past: History, r: Return, fqdn: Fqdn, version: Version, cert: Cert, o: Outcome) {
    && ClientSubject(cert) == SubjectIs(fqdn, version)
    && (o.Verified? ==>
          && VouchesForClient(o.response, cert) && RestsOn(settings, past, r, ByVersion(fqdn, version), o.response)
          && r.at < |past.worlds| && DaneAllows(past.worlds[r.at], fqdn, cert))
    && (o.FingerprintMismatch? ==>
          && RestsOn(settings, past, r, ByVersion(fqdn, version), o.response)
          && (r.source.FromCache? <==> r.frame.seen.Some? && JudgeClient(r.frame.seen.value.response, cert).FingerprintMismatch?))
    && SkipIsSound(settings, past, r, ByVersion(fqdn, version), o)
  }

  lemma {:induction false} ClientReturnIsSafe(settings: Settings, past: History, r: Return, fqdn: Fqdn, version: Version, cert: Cert, o: Outcome)
    requires PastOk(settings, past) && ReturnOk(settings, past, r)
    requires r.frame.call == OfClient(fqdn, version, cert) && r.reply == Judged(o)
    ensures ClientReplyIsSafe(settings, past, r, fqdn, version, cert, o)
  {
    match r.source
    case FromNothing(_) =>
    case FromFailure(_, _, _, _, _, _) => RefusalSkips(settings, past, r, o);
    case _ =>
      ConcludedOn(settings, past, r);
      ClientJudged(past.worlds[r.at], fqdn, cert, ResponseOf(r.frame, r.source).value);
  }

  /** Main theorem for clients: likewise, for the host and version of the certificate's first ati:// name;
      but a fingerprint mismatch may be that of a cached response, which was stored for them within the
      time to live. */
  lemma {:induction false} ClientOutcomesAreSafe(settings: Settings, s: System, k: nat, fqdn: Fqdn, version: Version, cert: Cert, o: Outcome)
    requires Reachable(settings, s) && k < |s.returned|
    requires s.returned[k].frame.call == OfClient(fqdn, version, cert) && s.returned[k].reply == Judged(o)
    ensures ClientReplyIsSafe(settings, s.past, s.returned[k], fqdn, version, cert, o)
  {
    ReachableIsSound(settings, s);
    ClientReturnIsSafe(settings, s.past, s.returned[k], fqdn, version, cert, o);
  }

  /** In every interleaving a prefetch returns neither a response nor an error exactly when its fetch failed and
      the policy lets the caller through: always, or with the stale entry its stale lookup found. */
  lemma {:induction false} PrefetchesOfNeither(settings: Settings, s: System, k: nat)
    requires Reachable(settings, s) && k < |s.returned| && s.returned[k].frame.call.OfPrefetch?
    ensures var r := s.returned[k];
            r.reply == Neither <==>
            && r.source.FromFailure?
            && (settings.policy.FailOpenAlways? || (settings.policy.FailOpenWithCache? && r.source.stale.Some?))
  {
    ReachableIsSound(settings, s);
    NeitherReply(settings, s.past, s.returned[k]);
  }

  lemma {:induction false} NeitherReply(settings: Settings, past: History, r: Return)
    requires ReturnOk(settings, past, r) && r.frame.call.OfPrefetch?
    ensures r.reply == Neither <==>
            && r.source.FromFailure?
            && (settings.policy.FailOpenAlways? || (settings.policy.FailOpenWithCache? && r.source.stale.Some?))
  {
    match r.source
    case FromFailure(i, j, e, _, _, _) => assert e.DnsError? || e.TlogError?;
    case _ =>
  }

  // ---------------------------------------------------------------- a fresh entry decides

  /** What the cache holds under the name, or the name and version, the call is about. */
  function Held(cache: CacheState, call: Call): Option<Badge<TlResponse>> {
    if call.OfClient? then
      var key := FqdnVersionKey(call.fqdn, call.version);
      if key in cache.byFqdnVer then Some(cache.byFqdnVer[key]) else None
    else if call.fqdn in cache.byFqdn then Some(cache.byFqdn[call.fqdn]) else None
  }

  lemma {:induction false} HeldExpiry(settings: Settings, s: System, call: Call)
    requires Inv(settings, s) && Held(s.cache, call).Some?
    ensures var b := Held(s.cache, call).value; b.expiresAt == b.fetchedAt + settings.cache.defaultTtl
  {
    var b := Held(s.cache, call).value;
    assert Recorded(s.past, |s.past.log|, KeyOf(call), b);
    var i :| 0 <= i < |s.past.log| && s.past.log[i].key == KeyOf(call) && s.past.log[i].badge == b;
    assert RecordOk(settings, Before(s.past, i), s.past.log[i]);
  }

  /** A call began at this time, and this is what its lookup found. */
  predicate HasBegun(pc: Pc, call: Call, now: int, seen: Option<Badge<TlResponse>>) {
    (pc.Asking? || pc.Holding?) && pc.frame.call == call && pc.frame.read == now && pc.frame.seen == seen
  }

  lemma Begins(settings: Settings, s: System, t: Tid, call: Call)
    requires PcOf(s, t) == Idle && Callable(call) && s.past.worlds != []
    ensures HasBegun(PcOf(Next(settings, s, Begin(t, call)), t), call, s.now, FreshFor(s.cache, KeyOf(call), s.now))
  {
    var frame := Frame(call, Present(s), FreshFor(s.cache, KeyOf(call), s.now), s.now, |s.past.log|);
    assert PcOf(At(s, t, AfterLookup(frame)), t) == AfterLookup(frame);
  }

  /** The entry, if it was stored at most `age` ago. */
  function StoredAtMost(held: Option<Badge<TlResponse>>, now: int, age: int): Option<Badge<TlResponse>> {
    if held.Some? && now - held.value.fetchedAt <= age then held else None
  }

  lemma {:induction false} HeldIsFound(settings: Settings, s: System, call: Call)
    requires Inv(settings, s)
    ensures FreshFor(s.cache, KeyOf(call), s.now) == StoredAtMost(Held(s.cache, call), s.now, settings.cache.defaultTtl)
    ensures StaleFor(s.cache, KeyOf(call), s.now, settings.maxStaleness) ==
            StoredAtMost(Held(s.cache, call), s.now, settings.cache.defaultTtl + settings.maxStaleness)
  {
    if Held(s.cache, call).Some? {
      HeldExpiry(settings, s, call);
    }
  }

  /** In every reachable state the lookup that begins a call finds the entry held for it if and only if that was
      stored at most the time to live ago. */
  lemma {:induction false} LookupFindsIff(settings: Settings, s: System, t: Tid, call: Call)
    requires Reachable(settings, s) && PcOf(s, t) == Idle && Callable(call)
    ensures s.past.worlds != []
    ensures HasBegun(PcOf(Next(settings, s, Begin(t, call)), t), call, s.now,
                     StoredAtMost(Held(s.cache, call), s.now, settings.cache.defaultTtl))
  {
    ReachableIsSound(settings, s);
    HeldIsFound(settings, s, call);
    Begins(settings, s, t, call);
  }

  /** The call of this thread returned, and this is what its stale lookup found. */
  predicate HasResorted(s: System, s': System, call: Call, stale: Option<Badge<TlResponse>>) {
    && |s'.returned| == |s.returned| + 1
    && var r := s'.returned[|s.returned|];
       r.frame.call == call && r.source.FromFailure? && r.source.stale == stale
  }

  lemma Resorts(settings: Settings, s: System, t: Tid, call: Call)
    requires PcOf(s, t).Failing? && PcOf(s, t).frame.call == call && s.past.worlds != []
    ensures HasResorted(s, Next(settings, s, Resort(t)), call, StaleFor(s.cache, KeyOf(call), s.now, settings.maxStaleness))
  {
  }

  /** The lookup of the failure policy likewise, with the allowed staleness. */
  lemma {:induction false} StaleLookupFindsIff(settings: Settings, s: System, t: Tid, call: Call)
    requires Reachable(settings, s) && PcOf(s, t).Failing? && PcOf(s, t).frame.call == call
    ensures s.past.worlds != []
    ensures HasResorted(s, Next(settings, s, Resort(t)), call,
                        StoredAtMost(Held(s.cache, call), s.now, settings.cache.defaultTtl + settings.maxStaleness))
  {
    ReachableIsSound(settings, s);
    HeldIsFound(settings, s, call);
    Resorts(settings, s, t, call);
  }

  lemma NamedIsHeld(settings: Settings, s: CacheState, call: Call, response: TlResponse, now: int, later: int, after: CacheState)
    requires !call.OfClient? && Step(settings.cache, s, Stored(call.fqdn, response, now, later), after) && Held(after, call).Some?
    ensures Held(after, call) == Some(NewBadge(settings, response, now))
  {
    StepKeepsPartOfBound(settings.cache, s, Stored(call.fqdn, response, now, later), after);
  }

  lemma VersionIsHeld(settings: Settings, s: CacheState, call: Call, response: TlResponse, now: int, later: int, after: CacheState)
    requires call.OfClient? && Step(settings.cache, s, StoredForVersion(call.fqdn, call.version, response, now, later), after)
    requires Held(after, call).Some?
    ensures Held(after, call) == Some(NewBadge(settings, response, now))
  {
    StepKeepsPartOfBound(settings.cache, s, StoredForVersion(call.fqdn, call.version, response, now, later), after);
  }

  /** About the same name, or the same name and version. */
  predicate SameSubject(a: Call, b: Call) {
    && a.fqdn == b.fqdn && (a.OfClient? <==> b.OfClient?)
    && (a.OfClient? && b.OfClient? ==> a.version == b.version)
  }

  lemma CacheAfterStore(settings: Settings, s: System, u: Tid, later: int, after: CacheState)
    requires s.past.worlds != [] && PcOf(s, u).Storing? && Next(settings, s, Store(u, later, after)) != s
    ensures Next(settings, s, Store(u, later, after)).cache == after
    ensures Step(settings.cache, s.cache, StoreOf(KeyOf(PcOf(s, u).frame.call), PcOf(s, u).response, s.now, later), after)
  {
  }

  lemma StoredIsHeld(settings: Settings, s: CacheState, call: Call, response: TlResponse, now: int, later: int, after: CacheState)
    requires Step(settings.cache, s, StoreOf(KeyOf(call), response, now, later), after) && Held(after, call).Some?
    ensures Held(after, call) == Some(NewBadge(settings, response, now))
  {
    if call.OfClient? {
      VersionIsHeld(settings, s, call, response, now, later, after);
    } else {
      NamedIsHeld(settings, s, call, response, now, later, after);
    }
  }

  /** The step stored this response at this time, and what is held for the subject is what it left there. */
  ghost predicate LeftByStore(settings: Settings, s: System, u: Tid, later: int, after: CacheState, response: TlResponse,
                              subject: Call, held: Option<Badge<TlResponse>>) {
    && s.past.worlds != [] && PcOf(s, u).Storing? && PcOf(s, u).response == response
    && SameSubject(PcOf(s, u).frame.call, subject)
    && var s' := Next(settings, s, Store(u, later, after));
       s' != s && held.Some? && held == Held(s'.cache, subject)
  }

  lemma {:induction false} StoreHolds(settings: Settings, s: System, u: Tid, later: int, after: CacheState, response: TlResponse,
                                      subject: Call, held: Option<Badge<TlResponse>>)
    requires LeftByStore(settings, s, u, later, after, response, subject, held)
    ensures held == Some(Badge(response, s.now, s.now + settings.cache.defaultTtl))
  {
    var call := PcOf(s, u).frame.call;
    CacheAfterStore(settings, s, u, later, after);
    assert Held(after, subject) == Held(after, call);
    StoredIsHeld(settings, s.cache, call, response, s.now, later, after);
  }

  /** A response stored by a call, as long as it stays, is found by every call about the same subject that begins
      at most the time to live later, and by none that begins after that. */
  lemma {:induction false} StoredResponseIsFound(settings: Settings, s: System, u: Tid, later: int, after: CacheState, response: TlResponse,
                                                 s2: System, t: Tid, call: Call)
    requires LeftByStore(settings, s, u, later, after, response, call, Held(s2.cache, call))
    requires Reachable(settings, s2) && PcOf(s2, t) == Idle && Callable(call)
    ensures s2.past.worlds != []
    ensures HasBegun(PcOf(Next(settings, s2, Begin(t, call)), t), call, s2.now,
                     if s2.now <= s.now + settings.cache.defaultTtl
                     then Some(Badge(response, s.now, s.now + settings.cache.defaultTtl)) else None)
  {
    StoreHolds(settings, s, u, later, after, response, call, Held(s2.cache, call));
    LookupFindsIff(settings, s2, t, call);
  }

  /** The failure policies: the error itself, a stale response instead of it, or only its cause. */
  predicate RefusalIs(settings: Settings, error: Outcome, stale: Option<Badge<TlResponse>>, o: Outcome) {
    match settings.policy
    case FailClosed => o == error
    case FailOpenWithCache => if stale.None? then o == error else o == FailOpen(Some(stale.value.response), "")
    case FailOpenAlways => o.FailOpen? && o.stale.None? && (error == DnsError(o.cause) || error == TlogError(o.cause))
  }

  /** What a server call returns, in terms of what its lookup found and of what the worlds answered. */
  ghost predicate ServerReplyIs(settings: Settings, past: History, r: Return, fqdn: Fqdn, cert: Cert) {
    var seen := r.frame.seen;
    && r.at < |past.worlds|
    && (r.source.FromCache? <==> seen.Some? && !JudgeServer(seen.value.response, cert, fqdn).FingerprintMismatch?)
    && match r.source
       case FromCache => r.reply == Judged(WithDane(past.worlds[r.at], fqdn, cert, JudgeServer(seen.value.response, cert, fqdn)))
       case FromLog(i, j, response) =>
         && r.frame.since <= i && j <= r.at && Obtained(settings, past, ByName(fqdn), i, j, response)
         && r.reply == Judged(WithDane(past.worlds[r.at], fqdn, cert, JudgeServer(response, cert, fqdn)))
       case FromNothing(i) =>
         r.frame.since <= i <= r.at && past.worlds[i].preferred(fqdn) == Missing && r.reply == Judged(NotAtiAgent(fqdn))
       case FromFailure(i, j, e, stale, _, _) =>
         && r.frame.since <= i && j <= r.at && FailedAt(settings, past, ByName(fqdn), i, j, e)
         && r.reply.Judged? && RefusalIs(settings, e, stale, r.reply.outcome)
  }

  /** A client call likewise; a fresh entry always decides it. */
  ghost predicate ClientReplyIs(settings: Settings, past: History, r: Return, fqdn: Fqdn, version: Version, cert: Cert) {
    && r.at < |past.worlds|
    && (r.source.FromCache? <==> r.frame.seen.Some?)
    && match r.source
       case FromCache => r.reply == Judged(WithDane(past.worlds[r.at], fqdn, cert, JudgeClient(r.frame.seen.value.response, cert)))
       case FromLog(i, j, response) =>
         && r.frame.since <= i && j <= r.at && Obtained(settings, past, ByVersion(fqdn, version), i, j, response)
         && r.reply == Judged(WithDane(past.worlds[r.at], fqdn, cert, JudgeClient(response, cert)))
       case FromNothing(i) =>
         r.frame.since <= i <= r.at && past.worlds[i].forVersion(fqdn, version) == Missing && r.reply == Judged(NotAtiAgent(fqdn))
       case FromFailure(i, j, e, stale, _, _) =>
         && r.frame.since <= i && j <= r.at && FailedAt(settings, past, ByVersion(fqdn, version), i, j, e)
         && r.reply.Judged? && RefusalIs(settings, e, stale, r.reply.outcome)
  }

  /** A prefetch hands out the response; of a failure under an open policy it says nothing. */
  ghost predicate PrefetchReplyIs(settings: Settings, past: History, r: Return, fqdn: Fqdn) {
    && r.at < |past.worlds|
    && (r.source.FromCache? <==> r.frame.seen.Some?)
    && match r.source
       case FromCache => r.reply == Response(r.frame.seen.value.response)
       case FromLog(i, j, response) =>
         && r.frame.since <= i && j <= r.at && Obtained(settings, past, ByName(fqdn), i, j, response)
         && r.reply == Response(response)
       case FromNothing(i) =>
         r.frame.since <= i <= r.at && past.worlds[i].preferred(fqdn) == Missing && r.reply == Error(NotAtiAgent(fqdn))
       case FromFailure(i, j, e, stale, _, _) =>
         && r.frame.since <= i && j <= r.at && FailedAt(settings, past, ByName(fqdn), i, j, e)
         && if settings.policy.FailOpenAlways? || (settings.policy.FailOpenWithCache? && stale.Some?) then r.reply == Neither
            else r.reply == Error(e)
  }

  lemma PolicyRefuses(settings: Settings, past: History, key: Key, i: nat, j: nat, error: Outcome, stale: Option<Badge<TlResponse>>)
    requires FailedAt(settings, past, key, i, j, error)
    ensures RefusalIs(settings, error, stale, ApplyPolicy(settings, stale, error))
    ensures error.DnsError? || error.TlogError?
  {
  }

  lemma ServerDecided(f: Frame, fqdn: Fqdn, cert: Cert)
    requires f.call == OfServer(fqdn, cert)
    ensures Decided(f) <==> f.seen.Some? && !JudgeServer(f.seen.value.response, cert, fqdn).FingerprintMismatch?
  {
  }

  lemma SourceDecided(settings: Settings, past: History, f: Frame, source: Source)
    requires SourceOk(settings, past, f, source)
    ensures source.FromCache? <==> Decided(f)
  {
  }

  lemma {:induction false} ServerReplyFollows(settings: Settings, past: History, r: Return, fqdn: Fqdn, cert: Cert)
    requires ReturnOk(settings, past, r) && r.frame.call == OfServer(fqdn, cert)
    ensures ServerReplyIs(settings, past, r, fqdn, cert)
  {
    ServerDecided(r.frame, fqdn, cert);
    SourceDecided(settings, past, r.frame, r.source);
    match r.source
    case FromFailure(i, j, e, stale, _, _) => PolicyRefuses(settings, past, ByName(fqdn), i, j, e, stale);
    case _ =>
  }

  lemma {:induction false} ClientReplyFollows(settings: Settings, past: History, r: Return, fqdn: Fqdn, version: Version, cert: Cert)
    requires ReturnOk(settings, past, r) && r.frame.call == OfClient(fqdn, version, cert)
    ensures ClientReplyIs(settings, past, r, fqdn, version, cert)
  {
    SourceDecided(settings, past, r.frame, r.source);
    match r.source
    case FromFailure(i, j, e, stale, _, _) => PolicyRefuses(settings, past, ByVersion(fqdn, version), i, j, e, stale);
    case _ =>
  }

  lemma {:induction false} PrefetchReplyFollows(settings: Settings, past: History, r: Return, fqdn: Fqdn)
    requires ReturnOk(settings, past, r) && r.frame.call == OfPrefetch(fqdn)
    ensures PrefetchReplyIs(settings, past, r, fqdn)
  {
    SourceDecided(settings, past, r.frame, r.source);
    match r.source
    case FromFailure(i, j, e, stale, _, _) => PolicyRefuses(settings, past, ByName(fqdn), i, j, e, stale);
    case _ =>
  }

  /** Main theorem: in every interleaving every call that returned returned exactly what its lookup, or else what
      the worlds it asked, lead to. In particular a fresh entry decides a server call, whatever DNS and the log
      answer, unless it judges the fingerprint another one; and it always decides the other calls. */
  lemma {:induction false} RepliesFollow(settings: Settings, s: System, k: nat)
    requires Reachable(settings, s) && k < |s.returned|
    ensures var r := s.returned[k];
            match r.frame.call
            case OfServer(fqdn, cert) => ServerReplyIs(settings, s.past, r, fqdn, cert)
            case OfClient(fqdn, version, cert) => ClientReplyIs(settings, s.past, r, fqdn, version, cert)
            case OfPrefetch(fqdn) => PrefetchReplyIs(settings, s.past, r, fqdn)
  {
    ReachableIsSound(settings, s);
    var r := s.returned[k];
    match r.frame.call
    case OfServer(fqdn, cert) => ServerReplyFollows(settings, s.past, r, fqdn, cert);
    case OfClient(fqdn, version, cert) => ClientReplyFollows(settings, s.past, r, fqdn, version, cert);
    case OfPrefetch(fqdn) => PrefetchReplyFollows(settings, s.past, r, fqdn);
  }

  // ---------------------------------------------------------------- what is stored

  /** A refresh round stores only under names whose entry it had found due, and only what it was given
      for that name; a call only what it fetched for its key. */
  lemma {:induction false} StoresAreAccounted(settings: Settings, s: System, k: nat)
    requires Reachable(settings, s) && k < |s.past.log|
    ensures var r := s.past.log[k];
            match r.origin
            case ByCall(i, j) => Obtained(settings, s.past, r.key, i, j, r.badge.response)
            case ByRound(i, was, read) =>
              && r.key.ByName? && i < |s.past.worlds| && s.past.worlds[i].refresh(r.key.fqdn) == Some(r.badge.response)
              && read + settings.cache.refreshThreshold > was.expiresAt
              && exists e :: 0 <= e < k && s.past.log[e].key == r.key && s.past.log[e].badge == was
  {
    ReachableIsSound(settings, s);
    var past := Before(s.past, k);
    assert RecordOk(settings, past, s.past.log[k]);
    match s.past.log[k].origin
    case ByCall(i, j) =>
    case ByRound(_, was, _) =>
      var e :| 0 <= e < |past.log| && past.log[e].key == s.past.log[k].key && past.log[e].badge == was;
      assert s.past.log[e] == past.log[e];
  }

  /** And what the cache holds was stored for the key it is under, within the capacity. */
  lemma {:induction false} CacheIsAccounted(settings: Settings, s: System)
    requires Reachable(settings, s)
    ensures CacheOk(s.past, s.cache) && Size(s.cache) <= Capacity(settings.cache.maxEntries)
  {
    ReachableIsSound(settings, s);
  }
}
