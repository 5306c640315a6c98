/** The refreshable key store: the object with its lock sections, and the transition system of
    concurrent on-demand callers and background refreshes running those sections. */
module KeyRefresh {
  import opened Text
  import opened KeyStore

  // ---------------------------------------------------------------- the object

  predicate WithinCooldown(last: Option<int>, now: int, cooldown: int) {
    last.Some? && now - last.value < cooldown
  }

  /** What an on-demand call does to the fields when nothing else runs, the first check reading `t0` and the
      commit `t2`. */
  predicate Refreshes(parse: Parser, cooldown: int, keys: Keys, last: Option<int>, t0: int, t2: int, fetched: Option<seq<string>>,
                      performed: bool, keys': Keys, last': Option<int>) {
    && (performed <==> (last.None? || t0 - last.value >= cooldown) && fetched.Some?)
    && (performed ==> keys' == Merged(parse, keys, fetched.value) && last' == Some(t2))
    && (!performed ==> keys' == keys && last' == last)
  }

  /** The fields, and one method for each section of code that runs under the lock. */
  class RefreshableKeyStore {
    const parse: Parser
    const cooldown: int
    var snapshot: Keys
    var lastRefreshed: Option<int>

    constructor (parse: Parser, cooldown: int, initial: Keys)
      ensures this.parse == parse && this.cooldown == cooldown
      ensures snapshot == initial && lastRefreshed == None
    {
      this.parse, this.cooldown := parse, cooldown;
      snapshot, lastRefreshed := initial, None;
    }

    method Get(kid: Kid) returns (key: Option<TrustedKey>)
      ensures key == if kid in snapshot then Some(snapshot[kid]) else None
    {
      key := if kid in snapshot then Some(snapshot[kid]) else None;
    }

    /** The write section of `DoRefresh`. */
    method Commit(strings: seq<string>, now: int) returns (result: MergeResult)
      modifies this
      ensures snapshot == Merged(parse, old(snapshot), strings) && lastRefreshed == Some(now)
      ensures |snapshot| == |old(snapshot)| + result.added
    {
      var merged;
      merged, result := MergeFrom(parse, snapshot, strings);
      snapshot, lastRefreshed := merged, Some(now);
    }

    /** `DoRefresh` with the outcome of its fetch; a failed fetch leaves everything as it was. */
    method DoRefresh(fetched: Option<seq<string>>, now: int) returns (ok: bool)
      modifies this
      ensures ok == fetched.Some?
      ensures ok ==> snapshot == Merged(parse, old(snapshot), fetched.value) && lastRefreshed == Some(now)
      ensures !ok ==> snapshot == old(snapshot) && lastRefreshed == old(lastRefreshed)
    {
      if fetched.None? {
        return false;
      }
      var result := Commit(fetched.value, now);
      return true;
    }

    /** `RefreshIfCooldownElapsed` when nothing else runs: the two checks read the clock at `t0` and
        `t1`, the commit at `t2`. */
    method RefreshIfCooldownElapsed(t0: int, t1: int, t2: int, fetched: Option<seq<string>>) returns (performed: bool)
      requires t0 <= t1 <= t2
      modifies this
      ensures Refreshes(parse, cooldown, old(snapshot), old(lastRefreshed), t0, t2, fetched, performed, snapshot, lastRefreshed)
      ensures performed && old(lastRefreshed).Some? ==> t2 - old(lastRefreshed).value >= cooldown
    {
      if WithinCooldown(lastRefreshed, t0, cooldown) {
        return false;
      }
      if WithinCooldown(lastRefreshed, t1, cooldown) {
        return false;
      }
      performed := DoRefresh(fetched, t2);
    }
  }

  // ---------------------------------------------------------------- the transition system

  type Tid = nat

  /** Where a thread stands. On-demand callers go through the gate; background refreshes do not. `seen` is how many
      refreshes had completed when the caller read `lastRefreshed`. */
  datatype Pc =
    | Idle
    | Peeked(last: Option<int>, seen: nat)
    | AtGate
    | InGate
    | Rechecking(last: Option<int>, seen: nat)
    | Fetching(passedAt: int, seen: nat)
    | Fetched(passedAt: int, seen: nat, strings: seq<string>)
    | Leaving
    | BackgroundFetching
    | BackgroundFetched(strings: seq<string>)

  /** One completed refresh. `seen` is how many refreshes had completed when an on-demand caller
      re-read `lastRefreshed` inside the gate. */
  datatype Refresh = Refresh(onDemand: bool, strings: seq<string>, seen: nat, at: int)

  datatype Config = Config(parse: Parser, cooldown: int, initial: Keys)

  datatype State = State(
    now: int,
    snapshot: Keys,
    last: Option<int>,
    gate: Option<Tid>,
    threads: map<Tid, Pc>,
    log: seq<Refresh>)

  /** One atomic step. The clock may advance by any amount between steps. */
  datatype Action =
    | Tick(amount: nat)
    | Peek(t: Tid)
    | QuickCheck(t: Tid)
    | Acquire(t: Tid)
    | Reread(t: Tid)
    | Recheck(t: Tid)
    | FetchEnds(t: Tid, result: Option<seq<string>>)
    | Commit(t: Tid)
    | Release(t: Tid)
    | BackgroundStart(t: Tid)

  function Init(c: Config, now: int): State {
    State(now, c.initial, None, None, map[], [])
  }

  function PcOf(s: State, t: Tid): Pc {
    if t in s.threads then s.threads[t] else Idle
  }

  function At(s: State, t: Tid, pc: Pc): State {
    s.(threads := s.threads[t := pc])
  }

  /** What `Commit` does to the fields: the write section of the object above. */
  function Committed(c: Config, s: State, r: Refresh): State {
    s.(snapshot := Merged(c.parse, s.snapshot, r.strings), last := Some(r.at), log := s.log + [r])
  }

  /** The state after an action; an action that is not enabled changes nothing. */
  function Next(c: Config, s: State, a: Action): State {
    match a
    case Tick(amount) => s.(now := s.now + amount)
    case Peek(t) => if PcOf(s, t) == Idle then At(s, t, Peeked(s.last, |s.log|)) else s
    case QuickCheck(t) =>
      var pc := PcOf(s, t);
      if !pc.Peeked? then s
      else if WithinCooldown(pc.last, s.now, c.cooldown) then At(s, t, Idle)
      else At(s, t, AtGate)
    case Acquire(t) =>
      if PcOf(s, t) == AtGate && s.gate.None? then At(s, t, InGate).(gate := Some(t)) else s
    case Reread(t) =>
      if PcOf(s, t) == InGate then At(s, t, Rechecking(s.last, |s.log|)) else s
    case Recheck(t) =>
      var pc := PcOf(s, t);
      if !pc.Rechecking? then s
      else if WithinCooldown(pc.last, s.now, c.cooldown) then At(s, t, Leaving)
      else At(s, t, Fetching(s.now, pc.seen))
    case FetchEnds(t, result) =>
      var pc := PcOf(s, t);
      if pc.Fetching? then
        At(s, t, if result.Some? then Fetched(pc.passedAt, pc.seen, result.value) else Leaving)
      else if pc.BackgroundFetching? then
        At(s, t, if result.Some? then BackgroundFetched(result.value) else Idle)
      else s
    case Commit(t) =>
      var pc := PcOf(s, t);
      if pc.Fetched? then At(Committed(c, s, Refresh(true, pc.strings, pc.seen, s.now)), t, Leaving)
      else if pc.BackgroundFetched? then At(Committed(c, s, Refresh(false, pc.strings, 0, s.now)), t, Idle)
      else s
    case Release(t) =>
      if PcOf(s, t) == Leaving then At(s, t, Idle).(gate := None) else s
    case BackgroundStart(t) => if PcOf(s, t) == Idle then At(s, t, BackgroundFetching) else s
  }

  /** The state after a run. */
  function Run(c: Config, s: State, actions: seq<Action>): State {
    if actions == [] then s
    else Next(c, Run(c, s, actions[..|actions| - 1]), actions[|actions| - 1])
  }

  // ---------------------------------------------------------------- the invariant

  predicate HoldsGate(pc: Pc) {
    pc.InGate? || pc.Rechecking? || pc.Fetching? || pc.Fetched? || pc.Leaving?
  }

  /** The first n refreshes are at least a cooldown before time p. */
  predicate CooledDown(log: seq<Refresh>, n: nat, p: int, cooldown: int) {
    n <= |log| && forall k :: 0 <= k < n ==> p - log[k].at >= cooldown
  }

  /** Every refresh from n on is a background one. */
  predicate OnlyBackgroundFrom(log: seq<Refresh>, n: nat) {
    n <= |log| && forall k :: n <= k < |log| ==> !log[k].onDemand
  }

  /** The completion time of the last of the first n refreshes. */
  predicate IsLast(log: seq<Refresh>, n: nat, last: Option<int>) {
    n <= |log| && last == if n == 0 then None else Some(log[n - 1].at)
  }

  predicate ThreadOk(c: Config, s: State, pc: Pc) {
    match pc
    case Peeked(last, seen) => IsLast(s.log, seen, last)
    case Rechecking(last, seen) => OnlyBackgroundFrom(s.log, seen) && IsLast(s.log, seen, last)
    case Fetching(p, seen) => OnlyBackgroundFrom(s.log, seen) && CooledDown(s.log, seen, p, c.cooldown) && p <= s.now
    case Fetched(p, seen, _) => OnlyBackgroundFrom(s.log, seen) && CooledDown(s.log, seen, p, c.cooldown) && p <= s.now
    case _ => true
  }

  /** An on-demand refresh came a full cooldown after every refresh completed before its re-check,
      and only background refreshes slipped in since. */
  predicate Spaced(c: Config, log: seq<Refresh>, j: nat)
    requires j < |log|
  {
    log[j].onDemand ==>
      var seen := log[j].seen;
      && seen <= j
      && (forall k :: 0 <= k < seen ==> log[j].at - log[k].at >= c.cooldown)
      && (forall k :: seen <= k < j ==> !log[k].onDemand)
  }

  predicate LogOk(c: Config, s: State) {
    && (forall j :: 0 <= j < |s.log| ==> Spaced(c, s.log, j))
    && (forall i, j :: 0 <= i <= j < |s.log| ==> s.log[i].at <= s.log[j].at <= s.now)
    && s.last == (if s.log == [] then None else Some(s.log[|s.log| - 1].at))
  }

  predicate Inv(c: Config, s: State) {
    && LogOk(c, s)
    && (forall t :: t in s.threads ==> ThreadOk(c, s, s.threads[t]))
    && (forall t :: t in s.threads && HoldsGate(s.threads[t]) ==> s.gate == Some(t))
  }

  lemma CommitKeepsLog(c: Config, s: State, r: Refresh)
    requires Inv(c, s) && r.at == s.now
    requires r.onDemand ==> OnlyBackgroundFrom(s.log, r.seen) && CooledDown(s.log, r.seen, s.now, c.cooldown)
    ensures LogOk(c, Committed(c, s, r))
  {
    var log := s.log + [r];
    forall j | 0 <= j < |log|
      ensures Spaced(c, log, j)
    {
      if j < |s.log| {
        assert Spaced(c, s.log, j) && log[j] == s.log[j];
      }
    }
  }

  /** A check passes exactly when every refresh completed before the caller read `lastRefreshed` was a full cooldown ago. */
  lemma CheckCools(c: Config, s: State, last: Option<int>, seen: nat)
    requires LogOk(c, s) && IsLast(s.log, seen, last)
    ensures !WithinCooldown(last, s.now, c.cooldown) <==> CooledDown(s.log, seen, s.now, c.cooldown)
  {
    if seen > 0 && !WithinCooldown(last, s.now, c.cooldown) {
      forall k | 0 <= k < seen
        ensures s.now - s.log[k].at >= c.cooldown
      {
        assert s.log[k].at <= s.log[seen - 1].at;
      }
    }
  }

  /** A step that moves one thread, and perhaps the gate. */
  lemma MoveKeepsInv(c: Config, s: State, t: Tid, pc: Pc, gate: Option<Tid>)
    requires Inv(c, s) && ThreadOk(c, s, pc) && (HoldsGate(pc) ==> gate == Some(t))
    requires forall u :: u in s.threads && u != t && HoldsGate(s.threads[u]) ==> gate == Some(u)
    ensures Inv(c, At(s, t, pc).(gate := gate))
  {
    var s' := At(s, t, pc).(gate := gate);
    forall u | u in s'.threads
      ensures ThreadOk(c, s', s'.threads[u]) && (HoldsGate(s'.threads[u]) ==> gate == Some(u))
    {
      if u != t {
        assert ThreadOk(c, s, s.threads[u]);
      }
    }
  }

  lemma TickKeepsInv(c: Config, s: State, amount: nat)
    requires Inv(c, s)
    ensures Inv(c, s.(now := s.now + amount))
  {
    var s' := s.(now := s.now + amount);
    forall u | u in s'.threads
      ensures ThreadOk(c, s', s'.threads[u])
    {
      assert ThreadOk(c, s, s.threads[u]);
    }
  }

  /** A commit of an on-demand caller happens inside the gate, so no other caller is past its
      re-read. */
  lemma CommitKeepsInv(c: Config, s: State, t: Tid, r: Refresh, pc: Pc)
    requires Inv(c, s) && t in s.threads && r.at == s.now
    requires r.onDemand ==> HoldsGate(s.threads[t]) &&
                            OnlyBackgroundFrom(s.log, r.seen) && CooledDown(s.log, r.seen, s.now, c.cooldown)
    requires pc == Idle || (pc == Leaving && HoldsGate(s.threads[t]))
    ensures Inv(c, At(Committed(c, s, r), t, pc))
  {
    var s' := At(Committed(c, s, r), t, pc);
    CommitKeepsLog(c, s, r);
    forall u | u in s'.threads
      ensures ThreadOk(c, s', s'.threads[u]) && (HoldsGate(s'.threads[u]) ==> s'.gate == Some(u))
    {
      if u != t {
        assert ThreadOk(c, s, s.threads[u]);
      }
    }
  }

  lemma {:induction false} NextKeepsInv(c: Config, s: State, a: Action)
    requires Inv(c, s)
    ensures Inv(c, Next(c, s, a))
  {
    match a
    case Tick(amount) => TickKeepsInv(c, s, amount);
    case Peek(t) => if PcOf(s, t) == Idle { MoveKeepsInv(c, s, t, Peeked(s.last, |s.log|), s.gate); }
    case QuickCheck(t) =>
      if PcOf(s, t).Peeked? {
        MoveKeepsInv(c, s, t, Idle, s.gate);
        MoveKeepsInv(c, s, t, AtGate, s.gate);
      }
    case Acquire(t) => if PcOf(s, t) == AtGate && s.gate.None? { MoveKeepsInv(c, s, t, InGate, Some(t)); }
    case Reread(t) => if PcOf(s, t) == InGate { MoveKeepsInv(c, s, t, Rechecking(s.last, |s.log|), s.gate); }
    case Recheck(t) => RecheckKeepsInv(c, s, t);
    case FetchEnds(t, result) => FetchEndsKeepsInv(c, s, t, result);
    case Commit(t) => CommitStepKeepsInv(c, s, t);
    case Release(t) => if PcOf(s, t) == Leaving { MoveKeepsInv(c, s, t, Idle, None); }
    case BackgroundStart(t) => if PcOf(s, t) == Idle { MoveKeepsInv(c, s, t, BackgroundFetching, s.gate); }
  }

  lemma RecheckKeepsInv(c: Config, s: State, t: Tid)
    requires Inv(c, s)
    ensures Inv(c, Next(c, s, Recheck(t)))
  {
    var pc := PcOf(s, t);
    if pc.Rechecking? {
      assert ThreadOk(c, s, pc);
      if WithinCooldown(pc.last, s.now, c.cooldown) {
        MoveKeepsInv(c, s, t, Leaving, s.gate);
      } else {
        CheckCools(c, s, pc.last, pc.seen);
        MoveKeepsInv(c, s, t, Fetching(s.now, pc.seen), s.gate);
      }
    }
  }

  lemma FetchEndsKeepsInv(c: Config, s: State, t: Tid, result: Option<seq<string>>)
    requires Inv(c, s)
    ensures Inv(c, Next(c, s, FetchEnds(t, result)))
  {
    var pc := PcOf(s, t);
    if pc.Fetching? {
      assert ThreadOk(c, s, pc);
      MoveKeepsInv(c, s, t, if result.Some? then Fetched(pc.passedAt, pc.seen, result.value) else Leaving, s.gate);
    } else if pc.BackgroundFetching? {
      MoveKeepsInv(c, s, t, if result.Some? then BackgroundFetched(result.value) else Idle, s.gate);
    }
  }

  lemma CommitStepKeepsInv(c: Config, s: State, t: Tid)
    requires Inv(c, s)
    ensures Inv(c, Next(c, s, Commit(t)))
  {
    var pc := PcOf(s, t);
    if pc.Fetched? {
      assert ThreadOk(c, s, pc);
      CommitKeepsInv(c, s, t, Refresh(true, pc.strings, pc.seen, s.now), Leaving);
    } else if pc.BackgroundFetched? {
      CommitKeepsInv(c, s, t, Refresh(false, pc.strings, 0, s.now), Idle);
    }
  }

  // ---------------------------------------------------------------- all runs

  lemma {:induction false} RunKeepsInv(c: Config, now: int, actions: seq<Action>)
    ensures Inv(c, Run(c, Init(c, now), actions))
  {
    if actions != [] {
      var n := |actions| - 1;
      RunKeepsInv(c, now, actions[..n]);
      NextKeepsInv(c, Run(c, Init(c, now), actions[..n]), actions[n]);
    }
  }

  /** In every interleaving an on-demand caller passes its first check, and goes on to the gate, and passes its second,
      and goes on to fetch, exactly when every refresh that had completed before it read `lastRefreshed` is a cooldown ago. */
  lemma {:induction false} ChecksPassIff(c: Config, now: int, actions: seq<Action>, t: Tid)
    ensures var s := Run(c, Init(c, now), actions);
            && (match PcOf(s, t)
                case Peeked(_, seen) =>
                  && PcOf(Next(c, s, QuickCheck(t)), t) in {AtGate, Idle} && seen <= |s.log|
                  && (PcOf(Next(c, s, QuickCheck(t)), t) == AtGate <==> forall i :: 0 <= i < seen ==> s.now - s.log[i].at >= c.cooldown)
                case Rechecking(_, seen) =>
                  && PcOf(Next(c, s, Recheck(t)), t) in {Fetching(s.now, seen), Leaving} && seen <= |s.log|
                  && (PcOf(Next(c, s, Recheck(t)), t) != Leaving <==> forall i :: 0 <= i < seen ==> s.now - s.log[i].at >= c.cooldown)
                case _ => true)
  {
    RunKeepsInv(c, now, actions);
    var s := Run(c, Init(c, now), actions);
    match PcOf(s, t)
    case Peeked(last, seen) => CheckCools(c, s, last, seen);
    case Rechecking(last, seen) => CheckCools(c, s, last, seen);
    case _ =>
  }

  /** On the way of an on-demand call. */
  predicate InCall(pc: Pc) {
    pc.Peeked? || pc.AtGate? || pc.InGate? || pc.Rechecking? || pc.Fetching? || pc.Fetched?
  }

  /** How the call of thread t ends with this action. */
  ghost predicate EndsWell(c: Config, s: State, a: Action, t: Tid, s': State) {
    || (a == Commit(t) && PcOf(s, t).Fetched? && s'.log == s.log + [Refresh(true, PcOf(s, t).strings, PcOf(s, t).seen, s.now)])
    || (a == FetchEnds(t, None) && s'.log == s.log)
    || (s'.log == s.log && exists i :: 0 <= i < |s.log| && s.now - s.log[i].at < c.cooldown)
  }

  lemma EndsAtCheck(c: Config, s: State, a: Action, t: Tid)
    requires Inv(c, s) && (PcOf(s, t).Peeked? || PcOf(s, t).Rechecking?) && !InCall(PcOf(Next(c, s, a), t))
    ensures Next(c, s, a).log == s.log && exists i :: 0 <= i < |s.log| && s.now - s.log[i].at < c.cooldown
  {
    var pc := PcOf(s, t);
    assert ThreadOk(c, s, pc);
    CheckCools(c, s, pc.last, pc.seen);
  }

  lemma EndsElsewhere(c: Config, s: State, a: Action, t: Tid)
    requires InCall(PcOf(s, t)) && !PcOf(s, t).Peeked? && !PcOf(s, t).Rechecking? && !InCall(PcOf(Next(c, s, a), t))
    ensures EndsWell(c, s, a, t, Next(c, s, a))
  {
  }

  /** Main theorem on progress: in every interleaving an on-demand call ends with its own refresh, which holds what it fetched,
      or its fetch failed, or at one of its checks a refresh had completed less than a cooldown before. */
  lemma {:induction false} CallEndsRefreshed(c: Config, now: int, actions: seq<Action>, a: Action, t: Tid)
    ensures var s := Run(c, Init(c, now), actions);
            InCall(PcOf(s, t)) && !InCall(PcOf(Next(c, s, a), t)) ==> EndsWell(c, s, a, t, Next(c, s, a))
  {
    RunKeepsInv(c, now, actions);
    var s := Run(c, Init(c, now), actions);
    if InCall(PcOf(s, t)) && !InCall(PcOf(Next(c, s, a), t)) {
      if PcOf(s, t).Peeked? || PcOf(s, t).Rechecking? {
        EndsAtCheck(c, s, a, t);
      } else {
        EndsElsewhere(c, s, a, t);
      }
    }
  }

  /** Main theorem: in every interleaving two successful on-demand refreshes complete at least a
      cooldown apart, whatever background refreshes slip between them. */
  lemma OnDemandRefreshesAreSpaced(c: Config, now: int, actions: seq<Action>, i: nat, j: nat)
    requires var log := Run(c, Init(c, now), actions).log;
             i < j < |log| && log[i].onDemand && log[j].onDemand
    ensures var log := Run(c, Init(c, now), actions).log;
            log[j].at - log[i].at >= c.cooldown
  {
    RunKeepsInv(c, now, actions);
    var log := Run(c, Init(c, now), actions).log;
    assert Spaced(c, log, j);
  }

  /** Exact condition: when an on-demand refresh completes too soon after another refresh, that one was a background
      refresh which completed after the on-demand caller had read when the last one was; with
      `OnDemandMayFollowBackground` this does happen, for every positive cooldown. */
  lemma TooSoonOnlyAfterBackground(c: Config, now: int, actions: seq<Action>, i: nat, j: nat)
    requires var log := Run(c, Init(c, now), actions).log;
             i < j < |log| && log[j].onDemand && log[j].at - log[i].at < c.cooldown
    ensures var log := Run(c, Init(c, now), actions).log;
            !log[i].onDemand && log[j].seen <= i
  {
    RunKeepsInv(c, now, actions);
    var log := Run(c, Init(c, now), actions).log;
    assert Spaced(c, log, j);
  }

  /** All key strings of the completed refreshes, in completion order. */
  function AllStrings(log: seq<Refresh>): seq<string> {
    if log == [] then [] else AllStrings(log[..|log| - 1]) + log[|log| - 1].strings
  }

  /** The snapshot is the initial store with the strings of all completed refreshes merged in order:
      none is lost, whichever way the refreshes overlap. */
  lemma {:induction false} SnapshotHoldsEveryRefresh(c: Config, now: int, actions: seq<Action>)
    ensures var s := Run(c, Init(c, now), actions);
            s.snapshot == Merged(c.parse, c.initial, AllStrings(s.log))
  {
    if actions != [] {
      var n := |actions| - 1;
      SnapshotHoldsEveryRefresh(c, now, actions[..n]);
      NextMergesLog(c, Run(c, Init(c, now), actions[..n]), actions[n]);
    }
  }

  lemma OnlyCommitsMerge(c: Config, s: State, a: Action)
    requires !a.Commit? || !(PcOf(s, a.t).Fetched? || PcOf(s, a.t).BackgroundFetched?)
    ensures Next(c, s, a).snapshot == s.snapshot && Next(c, s, a).log == s.log
  {
  }

  lemma NextMergesLog(c: Config, s: State, a: Action)
    requires s.snapshot == Merged(c.parse, c.initial, AllStrings(s.log))
    ensures var s' := Next(c, s, a); s'.snapshot == Merged(c.parse, c.initial, AllStrings(s'.log))
  {
    if a.Commit? && PcOf(s, a.t).Fetched? {
      CommitMergesLog(c, s, Refresh(true, PcOf(s, a.t).strings, PcOf(s, a.t).seen, s.now));
    } else if a.Commit? && PcOf(s, a.t).BackgroundFetched? {
      CommitMergesLog(c, s, Refresh(false, PcOf(s, a.t).strings, 0, s.now));
    } else {
      OnlyCommitsMerge(c, s, a);
    }
  }

  lemma CommitMergesLog(c: Config, s: State, r: Refresh)
    requires s.snapshot == Merged(c.parse, c.initial, AllStrings(s.log))
    ensures var s' := Committed(c, s, r); s'.snapshot == Merged(c.parse, c.initial, AllStrings(s'.log))
  {
    assert (s.log + [r])[..|s.log|] == s.log;
    MergedConcat(c.parse, c.initial, AllStrings(s.log), r.strings);
  }

  /** Whatever a completed refresh fetched and could parse, every later reader finds under its kid. */
  lemma RefreshedKeysAreFound(c: Config, now: int, actions: seq<Action>, j: nat, str: string)
    requires j < |Run(c, Init(c, now), actions).log|
    requires str in Run(c, Init(c, now), actions).log[j].strings && c.parse(str).Some?
    ensures c.parse(str).value.kid in Run(c, Init(c, now), actions).snapshot
  {
    var s := Run(c, Init(c, now), actions);
    SnapshotHoldsEveryRefresh(c, now, actions);
    StringsOfRefresh(s.log, j, str);
    MergedKnowsInput(c.parse, c.initial, AllStrings(s.log));
  }

  lemma {:induction false} StringsOfRefresh(log: seq<Refresh>, j: nat, str: string)
    requires j < |log| && str in log[j].strings
    ensures str in AllStrings(log)
  {
    var n := |log| - 1;
    if j < n {
      StringsOfRefresh(log[..n], j, str);
    }
  }

  /** A kid once found stays found, bound to the same key, however the run goes on. */
  lemma {:induction false} SnapshotOnlyGrows(c: Config, s: State, actions: seq<Action>, kid: Kid)
    requires kid in s.snapshot
    ensures kid in Run(c, s, actions).snapshot && Run(c, s, actions).snapshot[kid] == s.snapshot[kid]
  {
    if actions != [] {
      var n := |actions| - 1;
      var before := Run(c, s, actions[..n]);
      SnapshotOnlyGrows(c, s, actions[..n], kid);
      match actions[n]
      case Commit(t) =>
        if PcOf(before, t).Fetched? || PcOf(before, t).BackgroundFetched? {
          MergedBindings(c.parse, before.snapshot, PcOf(before, t).strings, kid);
        }
      case _ =>
    }
  }

  lemma RunStep(c: Config, s: State, actions: seq<Action>, a: Action)
    ensures Run(c, s, actions + [a]) == Next(c, Run(c, s, actions), a)
  {
    assert (actions + [a])[..|actions|] == actions;
  }

  const CALLER_PASSES: seq<Action> := [Peek(0)] + [QuickCheck(0)] + [Acquire(0)] + [Reread(0)] + [Recheck(0)]
  const BACKGROUND_COMPLETES: seq<Action> := [BackgroundStart(1), FetchEnds(1, Some([])), Commit(1)]

  const CALLER_ENTERS: seq<Action> := [Peek(0)] + [QuickCheck(0)] + [Acquire(0)]

  lemma CallerEnters(c: Config)
    ensures Run(c, Init(c, 0), CALLER_ENTERS) == State(0, c.initial, None, Some(0), map[0 := InGate], [])
  {
    var s := Init(c, 0);
    assert Run(c, s, [Peek(0)]) == At(s, 0, Peeked(None, 0)) by { assert [Peek(0)][..0] == []; }
    RunStep(c, s, [Peek(0)], QuickCheck(0));
    assert Run(c, s, [Peek(0)] + [QuickCheck(0)]) == At(s, 0, AtGate);
    RunStep(c, s, [Peek(0)] + [QuickCheck(0)], Acquire(0));
  }

  lemma CallerPasses(c: Config)
    ensures Run(c, Init(c, 0), CALLER_PASSES) == State(0, c.initial, None, Some(0), map[0 := Fetching(0, 0)], [])
  {
    var s := Init(c, 0);
    CallerEnters(c);
    RunStep(c, s, CALLER_ENTERS, Reread(0));
    assert Run(c, s, CALLER_ENTERS + [Reread(0)]) == State(0, c.initial, None, Some(0), map[0 := Rechecking(None, 0)], []);
    RunStep(c, s, CALLER_ENTERS + [Reread(0)], Recheck(0));
    assert CALLER_PASSES == CALLER_ENTERS + [Reread(0)] + [Recheck(0)];
  }

  lemma BackgroundCompletes(c: Config, s: State)
    requires PcOf(s, 1) == Idle
    ensures var r := Refresh(false, [], 0, s.now);
            Run(c, s, BACKGROUND_COMPLETES) == At(Committed(c, s, r), 1, Idle)
  {
    RunStep(c, s, [], BackgroundStart(1));
    RunStep(c, s, [BackgroundStart(1)], FetchEnds(1, Some([])));
    RunStep(c, s, [BackgroundStart(1), FetchEnds(1, Some([]))], Commit(1));
    assert [] + [BackgroundStart(1)] == [BackgroundStart(1)];
    assert [BackgroundStart(1)] + [FetchEnds(1, Some([]))] == [BackgroundStart(1), FetchEnds(1, Some([]))];
    assert [BackgroundStart(1), FetchEnds(1, Some([]))] + [Commit(1)] == BACKGROUND_COMPLETES;
    var s3 := At(At(At(Committed(c, s, Refresh(false, [], 0, s.now)), 1, BackgroundFetching), 1, BackgroundFetched([])), 1, Idle);
    assert s3 == At(Committed(c, s, Refresh(false, [], 0, s.now)), 1, Idle);
  }

  lemma {:induction false} RunAppend(c: Config, s: State, a: seq<Action>, b: seq<Action>)
    ensures Run(c, s, a + b) == Run(c, Run(c, s, a), b)
  {
    if b == [] {
      assert a + b == a;
    } else {
      var n := |b| - 1;
      assert (a + b)[..|a + b| - 1] == a + b[..n];
      RunAppend(c, s, a, b[..n]);
    }
  }

  /** Spacing does not extend to background refreshes: one may complete between the re-check of an
      on-demand caller and its commit, so that an on-demand refresh follows a refresh at once,
      however long the cooldown. */
  lemma OnDemandMayFollowBackground(c: Config)
    ensures var run := CALLER_PASSES + BACKGROUND_COMPLETES + [FetchEnds(0, Some([])), Commit(0)];
            var log := Run(c, Init(c, 0), run).log;
            && log == [Refresh(false, [], 0, 0), Refresh(true, [], 0, 0)]
            && (c.cooldown > 0 ==> log[1].at - log[0].at < c.cooldown)
  {
    var s0 := Init(c, 0);
    CallerPasses(c);
    var s1 := Run(c, s0, CALLER_PASSES);
    BackgroundCompletes(c, s1);
    RunAppend(c, s0, CALLER_PASSES, BACKGROUND_COMPLETES);
    var run := CALLER_PASSES + BACKGROUND_COMPLETES;
    RunStep(c, s0, run, FetchEnds(0, Some([])));
    RunStep(c, s0, run + [FetchEnds(0, Some([]))], Commit(0));
    assert run + [FetchEnds(0, Some([]))] + [Commit(0)] == run + [FetchEnds(0, Some([])), Commit(0)];
  }

  // ---------------------------------------------------------------- a call of the object is a run

  ghost predicate Leads(c: Config, s: State, s': State) {
    exists actions :: Run(c, s, actions) == s'
  }

  lemma LeadsHere(c: Config, s: State)
    ensures Leads(c, s, s)
  {
    assert Run(c, s, []) == s;
  }

  lemma LeadsOn(c: Config, s: State, m: State, a: Action)
    requires Leads(c, s, m)
    ensures Leads(c, s, Next(c, m, a))
  {
    var actions :| Run(c, s, actions) == m;
    RunStep(c, s, actions, a);
  }

  lemma Reentered(c: Config, s: State, m: State, t: Tid) returns (n: State)
    requires Leads(c, s, m) && PcOf(m, t) == AtGate && m.gate.None?
    ensures Leads(c, s, n) && n == At(m, t, Rechecking(m.last, |m.log|)).(gate := Some(t))
  {
    LeadsOn(c, s, m, Acquire(t));
    n := Next(c, m, Acquire(t));
    LeadsOn(c, s, n, Reread(t));
    n := Next(c, n, Reread(t));
  }

  /** The caller passes both checks and holds the gate. */
  lemma Passed(c: Config, s: State, t: Tid, t0: int, t1: int) returns (m: State)
    requires PcOf(s, t) == Idle && s.gate.None? && s.now <= t0 <= t1 && !WithinCooldown(s.last, t0, c.cooldown)
    ensures Leads(c, s, m) && m == At(s, t, Fetching(t1, |s.log|)).(now := t1, gate := Some(t))
  {
    m := LookedOnce(c, s, t, t0);
    m := Reentered(c, s, m, t);
    LeadsOn(c, s, m, Tick(t1 - t0));
    m := Next(c, m, Tick(t1 - t0));
    LeadsOn(c, s, m, Recheck(t));
    m := Next(c, m, Recheck(t));
  }

  lemma LookedOnce(c: Config, s: State, t: Tid, t0: int) returns (m: State)
    requires PcOf(s, t) == Idle && s.now <= t0
    ensures Leads(c, s, m)
    ensures m == At(s, t, if WithinCooldown(s.last, t0, c.cooldown) then Idle else AtGate).(now := t0)
  {
    LeadsHere(c, s);
    LeadsOn(c, s, s, Peek(t));
    m := Next(c, s, Peek(t));
    LeadsOn(c, s, m, Tick(t0 - s.now));
    m := Next(c, m, Tick(t0 - s.now));
    LeadsOn(c, s, m, QuickCheck(t));
    m := Next(c, m, QuickCheck(t));
  }

  lemma FetchedAndLeft(c: Config, s: State, m: State, t: Tid, t2: int, fetched: Option<seq<string>>) returns (s': State)
    requires Leads(c, s, m) && PcOf(m, t).Fetching? && m.now <= t2
    ensures Leads(c, s, s') && PcOf(s', t) == Idle && s'.gate.None?
    ensures fetched.Some? ==> s'.snapshot == Merged(c.parse, m.snapshot, fetched.value) && s'.last == Some(t2) && |s'.log| == |m.log| + 1
    ensures fetched.None? ==> s'.snapshot == m.snapshot && s'.last == m.last && s'.log == m.log
  {
    LeadsOn(c, s, m, FetchEnds(t, fetched));
    s' := Next(c, m, FetchEnds(t, fetched));
    if fetched.Some? {
      LeadsOn(c, s, s', Tick(t2 - m.now));
      s' := Next(c, s', Tick(t2 - m.now));
      LeadsOn(c, s, s', Commit(t));
      s' := Next(c, s', Commit(t));
    }
    LeadsOn(c, s, s', Release(t));
    s' := Next(c, s', Release(t));
  }

  /** `RefreshIfCooldownElapsed` with nothing in between is one of the runs and leaves the same fields, so what holds
      of all interleavings holds of it. */
  lemma OnDemandCallIsRun(c: Config, s: State, t: Tid, t0: int, t1: int, t2: int, fetched: Option<seq<string>>,
                          performed: bool, keys: Keys, last: Option<int>) returns (s': State)
    requires PcOf(s, t) == Idle && s.gate.None? && s.now <= t0 <= t1 <= t2
    requires Refreshes(c.parse, c.cooldown, s.snapshot, s.last, t0, t2, fetched, performed, keys, last)
    ensures Leads(c, s, s') && PcOf(s', t) == Idle && s'.gate.None? && s'.snapshot == keys && s'.last == last
    ensures |s'.log| == |s.log| + if performed then 1 else 0
  {
    if WithinCooldown(s.last, t0, c.cooldown) {
      s' := LookedOnce(c, s, t, t0);
    } else {
      var m := Passed(c, s, t, t0, t1);
      s' := FetchedAndLeft(c, s, m, t, t2, fetched);
    }
  }

  /** And so is `DoRefresh` in the background. */
  lemma BackgroundCallIsRun(c: Config, s: State, t: Tid, now: int, fetched: Option<seq<string>>) returns (s': State)
    requires PcOf(s, t) == Idle && s.now <= now
    ensures Leads(c, s, s') && PcOf(s', t) == Idle && s'.gate == s.gate
    ensures fetched.Some? ==> s'.snapshot == Merged(c.parse, s.snapshot, fetched.value) && s'.last == Some(now)
    ensures fetched.None? ==> s'.snapshot == s.snapshot && s'.last == s.last
  {
    LeadsHere(c, s);
    LeadsOn(c, s, s, BackgroundStart(t));
    s' := Next(c, s, BackgroundStart(t));
    LeadsOn(c, s, s', FetchEnds(t, fetched));
    s' := Next(c, s', FetchEnds(t, fetched));
    if fetched.Some? {
      LeadsOn(c, s, s', Tick(now - s.now));
      s' := Next(c, s', Tick(now - s.now));
      LeadsOn(c, s, s', Commit(t));
      s' := Next(c, s', Commit(t));
    }
  }
}
