/** The supplier of proof headers: lazy initialization, forced refresh and automatic refresh run
    concurrently over a few fields under one lock. */
module HeaderSupplier {
  import opened Text
  import opened Hex

  /** An opaque error and an opaque state of the key store, by number. */
  type Error = nat
  type KeyState = nat

  /** The verifiers are parameters; verifying a token yields its expiry. */
  datatype Config = Config(
    receiptVerifies: (Bytes, KeyState) -> bool,
    tokenExpiry: (Bytes, KeyState, int) -> Option<int>)

  /** One successful `fetchAndVerify`: what was fetched, and under which keys and clock it verified. */
  datatype Verification = Verification(
    receipt: Bytes, token: Bytes, exp: int, receiptKeys: KeyState, tokenKeys: KeyState, now: int)

  predicate Genuine(c: Config, v: Verification) {
    c.receiptVerifies(v.receipt, v.receiptKeys) && c.tokenExpiry(v.token, v.tokenKeys, v.now) == Some(v.exp)
  }

  // ---------------------------------------------------------------- the fields

  datatype Fields = Fields(
    receipt: Option<Bytes>, token: Option<Bytes>, exp: Option<int>, initialized: bool, lastError: Option<Error>)

  const UNSET := Fields(None, None, None, false, None)

  /** What `CurrentHeaders` copies out under the read lock. */
  datatype Snapshot = Snapshot(receipt: Option<Bytes>, token: Option<Bytes>, exp: Option<int>)

  function Copy(f: Fields): Snapshot {
    Snapshot(f.receipt, f.token, f.exp)
  }

  /** All three are those of verification v. */
  predicate IsFrom(snap: Snapshot, v: Verification) {
    snap == Snapshot(Some(v.receipt), Some(v.token), Some(v.exp))
  }

  function WithVerified(f: Fields, v: Verification): (r: Fields)
    ensures IsFrom(Copy(r), v) && r.initialized == f.initialized && r.lastError == None
  {
    f.(receipt := Some(v.receipt), token := Some(v.token), exp := Some(v.exp), lastError := None)
  }

  function WithError(f: Fields, e: Error): (r: Fields)
    ensures Copy(r) == Copy(f) && r.initialized == f.initialized && r.lastError == Some(e)
  {
    f.(lastError := Some(e))
  }

  /** Automatic refresh only sets the flag; lazy initialization also clears the error. */
  function WithInitialized(f: Fields, clearError: bool): Fields {
    f.(initialized := true, lastError := if clearError then None else f.lastError)
  }

  function NonEmpty(data: Option<Bytes>): Option<Bytes> {
    if data.Some? && data.value != [] then data else None
  }

  /** The headers made of a snapshot at clock reading `now`: an expired token is left out, and so is
      empty data. */
  function Headers(snap: Snapshot, now: int): (Option<Bytes>, Option<Bytes>) {
    (NonEmpty(snap.receipt),
     if snap.token.Some? && snap.exp.Some? && now >= snap.exp.value then None else NonEmpty(snap.token))
  }

  /** What is outside during one call that nothing comes between: the two fetches, the keys and the clock each
      verification sees, the error recorded if one of the four steps fails, and the clock of the
      expiry check. */
  datatype Outside = Outside(
    receipt: Option<Bytes>, token: Option<Bytes>, receiptKeys: KeyState, tokenKeys: KeyState, verifyNow: int,
    error: Error, emitNow: int)

  /** `fetchAndVerify`: nothing, unless both were fetched and both verify. */
  function Verified(c: Config, o: Outside): (v: Option<Verification>)
    ensures v.Some? ==> Genuine(c, v.value)
  {
    if o.receipt.None? || o.token.None? || !c.receiptVerifies(o.receipt.value, o.receiptKeys) then None
    else match c.tokenExpiry(o.token.value, o.tokenKeys, o.verifyNow)
      case None => None
      case Some(exp) => Some(Verification(o.receipt.value, o.token.value, exp, o.receiptKeys, o.tokenKeys, o.verifyNow))
  }

  function AfterFetch(c: Config, f: Fields, o: Outside): Fields {
    match Verified(c, o)
    case None => WithError(f, o.error)
    case Some(v) => WithVerified(f, v)
  }

  /** `initOnce`: a failure leaves the flag unset, so that a later call tries again. */
  function AfterInit(c: Config, f: Fields, o: Outside): Fields {
    if f.initialized then f
    else if Verified(c, o).Some? then WithInitialized(AfterFetch(c, f, o), true)
    else AfterFetch(c, f, o)
  }

  /** The object: the first methods are the sections of code under the write or read lock, the others the
      operations they make up. */
  class Supplier {
    var fields: Fields

    constructor ()
      ensures fields == UNSET
    {
      fields := UNSET;
    }

    /** `Healthy`. */
    predicate Healthy()
      reads this
    {
      fields.initialized && fields.lastError.None?
    }

    /** All three fields are replaced by those of one verification; the error goes, the flag stays. */
    method CacheVerified(v: Verification)
      modifies this
      ensures IsFrom(Copy(fields), v) && Healthy() == old(fields).initialized
      ensures fields.initialized == old(fields).initialized && fields.lastError == None
    {
      fields := fields.(receipt := Some(v.receipt), token := Some(v.token), exp := Some(v.exp));
      fields := fields.(lastError := None);
    }

    /** What was cached is still handed out after a failure, but the supplier is no longer healthy. */
    method RecordError(e: Error)
      modifies this
      ensures Copy(fields) == Copy(old(fields)) && fields.initialized == old(fields).initialized
      ensures fields.lastError == Some(e) && !Healthy()
      ensures forall now :: Headers(Copy(fields), now) == Headers(Copy(old(fields)), now)
    {
      fields := fields.(lastError := Some(e));
    }

    method MarkInitialized(clearError: bool)
      modifies this
      ensures fields == WithInitialized(old(fields), clearError)
    {
      fields := fields.(initialized := true);
      if clearError {
        fields := fields.(lastError := None);
      }
    }

    /** The end of `CurrentHeaders`, on one locked copy. */
    method CopyHeaders(now: int) returns (receipt: Option<Bytes>, token: Option<Bytes>)
      ensures (receipt, token) == Headers(Copy(fields), now)
    {
      var snap := Copy(fields);
      token := snap.token;
      if token.Some? && snap.exp.Some? && now >= snap.exp.value {
        token := None;
      }
      receipt, token := NonEmpty(snap.receipt), NonEmpty(token);
    }

    method FetchAndVerify(c: Config, o: Outside) returns (ok: bool)
      modifies this
      ensures ok == Verified(c, o).Some? && fields == AfterFetch(c, old(fields), o)
      ensures ok <==> && o.receipt.Some? && o.token.Some? && c.receiptVerifies(o.receipt.value, o.receiptKeys)
                      && c.tokenExpiry(o.token.value, o.tokenKeys, o.verifyNow).Some?
      ensures ok ==> && Copy(fields) == Snapshot(o.receipt, o.token, c.tokenExpiry(o.token.value, o.tokenKeys, o.verifyNow))
                     && fields.lastError == None
      ensures !ok ==> Copy(fields) == Copy(old(fields)) && fields.lastError == Some(o.error)
      ensures fields.initialized == old(fields).initialized
    {
      if o.receipt.None? || o.token.None? {
        RecordError(o.error);
        return false;
      }
      if !c.receiptVerifies(o.receipt.value, o.receiptKeys) {
        RecordError(o.error);
        return false;
      }
      var exp := c.tokenExpiry(o.token.value, o.tokenKeys, o.verifyNow);
      if exp.None? {
        RecordError(o.error);
        return false;
      }
      CacheVerified(Verification(o.receipt.value, o.token.value, exp.value, o.receiptKeys, o.tokenKeys, o.verifyNow));
      return true;
    }

    method InitOnce(c: Config, o: Outside)
      modifies this
      ensures fields == AfterInit(c, old(fields), o)
      ensures old(fields).initialized ==> fields == old(fields)
      ensures !old(fields).initialized && Verified(c, o).Some? ==> Healthy() && IsFrom(Copy(fields), Verified(c, o).value)
      ensures !old(fields).initialized && Verified(c, o).None? ==>
                !fields.initialized && Copy(fields) == Copy(old(fields)) && fields.lastError == Some(o.error)
    {
      if fields.initialized {
        return;
      }
      var ok := FetchAndVerify(c, o);
      if ok {
        MarkInitialized(true);
      } else {
        RecordError(o.error);
      }
    }

    /** Lazy initialization, then the headers; whatever it returns is sound for a verification of which the
        fields now are, if any. */
    method CurrentHeaders(c: Config, o: Outside) returns (receipt: Option<Bytes>, token: Option<Bytes>)
      modifies this
      ensures fields == AfterInit(c, old(fields), o)
      ensures (receipt, token) == Headers(Copy(fields), o.emitNow)
      ensures !old(fields).initialized && Verified(c, o).Some? ==>
                Healthy() && AreHeadersOf(receipt, token, o.emitNow, Verified(c, o).value)
    {
      if !fields.initialized {
        InitOnce(c, o);
      }
      receipt, token := CopyHeaders(o.emitNow);
    }

    /** One round of the automatic refresh. */
    method AutoRefresh(c: Config, o: Outside)
      modifies this
      ensures fields == if Verified(c, o).Some? then WithInitialized(AfterFetch(c, old(fields), o), false) else AfterFetch(c, old(fields), o)
      ensures Verified(c, o).Some? ==> Healthy() && IsFrom(Copy(fields), Verified(c, o).value)
      ensures Verified(c, o).None? ==>
                fields.initialized == old(fields).initialized && Copy(fields) == Copy(old(fields)) && fields.lastError == Some(o.error)
    {
      var ok := FetchAndVerify(c, o);
      if ok {
        MarkInitialized(false);
      }
    }
  }

  // ---------------------------------------------------------------- the transition system

  type Tid = nat

  /** Who runs `fetchAndVerify`: lazy initialization inside its gate, a forced refresh, or the
      automatic loop. */
  datatype Mode = Init | Forced | Automatic

  datatype Pc =
    | Idle
    | AtGate
    | InGate
    | Fetching(mode: Mode)
    | HasReceipt(mode: Mode, receipt: Bytes)
    | HasBoth(mode: Mode, receipt: Bytes, token: Bytes)
    | ReceiptVerified(mode: Mode, receipt: Bytes, token: Bytes, keys: KeyState)
    | AllVerified(mode: Mode, v: Verification)
    | Failed(mode: Mode, e: Error)
    | InitFailed(e: Error)
    | Cached(mode: Mode)
    | LeavingGate
    | Rereading
    | Emitting(snap: Snapshot, seen: nat)

  /** Headers handed out, with the clock reading of the expiry check and how many verifications had been stored when the
      fields were copied. */
  datatype Emission = Emission(receipt: Option<Bytes>, token: Option<Bytes>, now: int, seen: nat)

  datatype State = State(
    now: int,
    keys: KeyState,
    fields: Fields,
    gate: Option<Tid>,
    threads: map<Tid, Pc>,
    verified: seq<Verification>,
    emitted: seq<Emission>)

  datatype Action =
    | SetClock(now: int)
    | SetKeys(keys: KeyState)
    | Call(t: Tid)
    | Enter(t: Tid)
    | Recheck(t: Tid)
    | Refresh(t: Tid, automatic: bool)
    | ReceiptArrives(t: Tid, receipt: Bytes)
    | TokenArrives(t: Tid, token: Bytes)
    | VerifyReceipt(t: Tid, e: Error)
    | VerifyToken(t: Tid, e: Error)
    | Fail(t: Tid, e: Error)
    | Store(t: Tid)
    | NoteFailure(t: Tid)
    | NoteInitFailure(t: Tid)
    | Finish(t: Tid)
    | LeaveGate(t: Tid)
    | Reread(t: Tid)
    | Emit(t: Tid)

  function Start(now: int, keys: KeyState): State {
    State(now, keys, UNSET, None, map[], [], [])
  }

  function PcOf(s: State, t: Tid): Pc {
    if t in s.threads then s.threads[t] else Idle
  }

  function At(s: State, t: Tid, pc: Pc): State {
    s.(threads := s.threads[t := pc])
  }

  /** The state after an action; an action that is not enabled changes nothing. */
  function Next(c: Config, s: State, a: Action): State {
    match a
    case SetClock(now) => s.(now := now)
    case SetKeys(keys) => s.(keys := keys)
    case Call(t) =>
      if PcOf(s, t) != Idle then s
      else At(s, t, if s.fields.initialized then Emitting(Copy(s.fields), |s.verified|) else AtGate)
    case Enter(t) => if PcOf(s, t) == AtGate && s.gate.None? then At(s, t, InGate).(gate := Some(t)) else s
    case Recheck(t) =>
      if PcOf(s, t) != InGate then s
      else At(s, t, if s.fields.initialized then LeavingGate else Fetching(Init))
    case Refresh(t, automatic) =>
      if PcOf(s, t) == Idle then At(s, t, Fetching(if automatic then Automatic else Forced)) else s
    case ReceiptArrives(t, receipt) =>
      var pc := PcOf(s, t);
      if pc.Fetching? then At(s, t, HasReceipt(pc.mode, receipt)) else s
    case TokenArrives(t, token) =>
      var pc := PcOf(s, t);
      if pc.HasReceipt? then At(s, t, HasBoth(pc.mode, pc.receipt, token)) else s
    case VerifyReceipt(t, e) =>
      var pc := PcOf(s, t);
      if !pc.HasBoth? then s
      else if c.receiptVerifies(pc.receipt, s.keys) then At(s, t, ReceiptVerified(pc.mode, pc.receipt, pc.token, s.keys))
      else At(s, t, Failed(pc.mode, e))
    case VerifyToken(t, e) =>
      var pc := PcOf(s, t);
      if !pc.ReceiptVerified? then s
      else
        var exp := c.tokenExpiry(pc.token, s.keys, s.now);
        if exp.None? then At(s, t, Failed(pc.mode, e))
        else At(s, t, AllVerified(pc.mode, Verification(pc.receipt, pc.token, exp.value, pc.keys, s.keys, s.now)))
    case Fail(t, e) =>
      var pc := PcOf(s, t);
      if pc.Fetching? || pc.HasReceipt? then At(s, t, Failed(pc.mode, e)) else s
    case Store(t) =>
      var pc := PcOf(s, t);
      if pc.AllVerified? then
        At(s, t, Cached(pc.mode)).(fields := WithVerified(s.fields, pc.v), verified := s.verified + [pc.v])
      else s
    case NoteFailure(t) =>
      var pc := PcOf(s, t);
      if pc.Failed? then
        At(s, t, if pc.mode == Init then InitFailed(pc.e) else Idle).(fields := WithError(s.fields, pc.e))
      else s
    case NoteInitFailure(t) =>
      var pc := PcOf(s, t);
      if pc.InitFailed? then At(s, t, LeavingGate).(fields := WithError(s.fields, pc.e)) else s
    case Finish(t) =>
      var pc := PcOf(s, t);
      if !pc.Cached? then s
      else if pc.mode == Init then At(s, t, LeavingGate).(fields := WithInitialized(s.fields, true))
      else if pc.mode == Automatic then At(s, t, Idle).(fields := WithInitialized(s.fields, false))
      else At(s, t, Idle)
    case LeaveGate(t) => if PcOf(s, t) == LeavingGate then At(s, t, Rereading).(gate := None) else s
    case Reread(t) => if PcOf(s, t) == Rereading then At(s, t, Emitting(Copy(s.fields), |s.verified|)) else s
    case Emit(t) =>
      var pc := PcOf(s, t);
      if pc.Emitting? then
        var (receipt, token) := Headers(pc.snap, s.now);
        At(s, t, Idle).(emitted := s.emitted + [Emission(receipt, token, s.now, pc.seen)])
      else s
  }

  function Run(c: Config, s: State, actions: seq<Action>): State {
    if actions == [] then s
    else Next(c, Run(c, s, actions[..|actions| - 1]), actions[|actions| - 1])
  }

  // ---------------------------------------------------------------- the invariant

  /** A copy made after n verifications is of the last of them. */
  predicate FromLast(snap: Snapshot, n: nat, verified: seq<Verification>) {
    n <= |verified| && if n == 0 then snap == Snapshot(None, None, None) else IsFrom(snap, verified[n - 1])
  }

  /** What there is of the verification: the receipt goes out exactly when it is not empty, and the token exactly when it is
      not empty and before its expiry. */
  predicate AreHeadersOf(receipt: Option<Bytes>, token: Option<Bytes>, now: int, v: Verification) {
    && receipt == (if v.receipt == [] then None else Some(v.receipt))
    && token == (if now < v.exp && v.token != [] then Some(v.token) else None)
  }

  /** Headers are those of the last verification at the time of the copy; without one there are none. */
  predicate EmissionOk(e: Emission, verified: seq<Verification>) {
    && e.seen <= |verified|
    && if e.seen == 0 then e.receipt == None && e.token == None
       else AreHeadersOf(e.receipt, e.token, e.now, verified[e.seen - 1])
  }

  predicate HoldsGate(pc: Pc) {
    match pc
    case InGate => true
    case LeavingGate => true
    case InitFailed(_) => true
    case Fetching(m) => m == Init
    case HasReceipt(m, _) => m == Init
    case HasBoth(m, _, _) => m == Init
    case ReceiptVerified(m, _, _, _) => m == Init
    case AllVerified(m, _) => m == Init
    case Failed(m, _) => m == Init
    case Cached(m) => m == Init
    case _ => false
  }

  predicate ThreadOk(c: Config, s: State, pc: Pc) {
    match pc
    case ReceiptVerified(_, receipt, _, keys) => c.receiptVerifies(receipt, keys)
    case AllVerified(_, v) => Genuine(c, v)
    case Cached(_) => s.verified != []
    case Emitting(snap, seen) => FromLast(snap, seen, s.verified)
    case _ => true
  }

  predicate FieldsOk(c: Config, s: State) {
    && (forall i :: 0 <= i < |s.verified| ==> Genuine(c, s.verified[i]))
    && (if s.verified == [] then Copy(s.fields) == Snapshot(None, None, None)
        else IsFrom(Copy(s.fields), s.verified[|s.verified| - 1]))
    && (s.fields.initialized ==> s.verified != [])
    && (forall i :: 0 <= i < |s.emitted| ==> EmissionOk(s.emitted[i], s.verified))
  }

  predicate Inv(c: Config, s: State) {
    && FieldsOk(c, s)
    && (forall t :: t in s.threads ==> ThreadOk(c, s, s.threads[t]))
    && (forall t :: t in s.threads && HoldsGate(s.threads[t]) ==> s.gate == Some(t))
  }

  /** A step that moves one thread, and perhaps the gate. */
  lemma MoveKeepsInv(c: Config, s: State, t: Tid, pc: Pc, gate: Option<Tid>)
    requires Inv(c, s) && ThreadOk(c, s, pc) && (HoldsGate(pc) ==> gate == Some(t))
    requires gate == s.gate || s.gate.None? || (t in s.threads && HoldsGate(s.threads[t]))
    ensures Inv(c, At(s, t, pc).(gate := gate))
  {
    var s' := At(s, t, pc).(gate := gate);
    forall u | u in s'.threads
      ensures ThreadOk(c, s', s'.threads[u]) && (HoldsGate(s'.threads[u]) ==> gate == Some(u))
    {
      if u != t {
        assert ThreadOk(c, s, s.threads[u]);
      }
    }
  }

  /** A step that writes the fields but not the verified three. */
  lemma WriteKeepsInv(c: Config, s: State, fields: Fields)
    requires Inv(c, s) && Copy(fields) == Copy(s.fields) && (fields.initialized ==> s.verified != [])
    ensures Inv(c, s.(fields := fields))
  {
    forall u | u in s.threads
      ensures ThreadOk(c, s.(fields := fields), s.threads[u])
    {
      assert ThreadOk(c, s, s.threads[u]);
    }
  }

  lemma EnvironmentKeepsInv(c: Config, s: State, now: int, keys: KeyState)
    requires Inv(c, s)
    ensures Inv(c, s.(now := now, keys := keys))
  {
    forall u | u in s.threads
      ensures ThreadOk(c, s.(now := now, keys := keys), s.threads[u])
    {
      assert ThreadOk(c, s, s.threads[u]);
    }
  }

  /** The one step that sets the verified three: the copies other threads hold still come from one
      verification each. */
  lemma StoreKeepsInv(c: Config, s: State, v: Verification)
    requires Inv(c, s) && Genuine(c, v)
    ensures Inv(c, s.(fields := WithVerified(s.fields, v), verified := s.verified + [v]))
  {
    var s' := s.(fields := WithVerified(s.fields, v), verified := s.verified + [v]);
    forall u | u in s'.threads
      ensures ThreadOk(c, s', s'.threads[u])
    {
      assert ThreadOk(c, s, s.threads[u]);
    }
    forall i | 0 <= i < |s'.emitted|
      ensures EmissionOk(s'.emitted[i], s'.verified)
    {
      assert EmissionOk(s.emitted[i], s.verified);
    }
  }

  lemma HeadersAreSound(snap: Snapshot, now: int, seen: nat, verified: seq<Verification>)
    requires FromLast(snap, seen, verified)
    ensures var (receipt, token) := Headers(snap, now); EmissionOk(Emission(receipt, token, now, seen), verified)
  {
  }

  lemma CopyIsFromLast(c: Config, s: State)
    requires Inv(c, s)
    ensures FromLast(Copy(s.fields), |s.verified|, s.verified)
  {
  }

  lemma EmitKeepsInv(c: Config, s: State, e: Emission)
    requires Inv(c, s) && EmissionOk(e, s.verified)
    ensures Inv(c, s.(emitted := s.emitted + [e]))
  {
    forall u | u in s.threads
      ensures ThreadOk(c, s.(emitted := s.emitted + [e]), s.threads[u])
    {
      assert ThreadOk(c, s, s.threads[u]);
    }
  }

  /** The caller's steps before `fetchAndVerify`. */
  lemma CallerKeepsInv(c: Config, s: State, a: Action)
    requires Inv(c, s) && (a.Call? || a.Enter? || a.Recheck?)
    ensures Inv(c, Next(c, s, a))
  {
    CopyIsFromLast(c, s);
    match a
    case Call(t) =>
      if PcOf(s, t) == Idle {
        MoveKeepsInv(c, s, t, if s.fields.initialized then Emitting(Copy(s.fields), |s.verified|) else AtGate, s.gate);
      }
    case Enter(t) => if PcOf(s, t) == AtGate && s.gate.None? { MoveKeepsInv(c, s, t, InGate, Some(t)); }
    case Recheck(t) =>
      if PcOf(s, t) == InGate {
        MoveKeepsInv(c, s, t, if s.fields.initialized then LeavingGate else Fetching(Init), s.gate);
      }
  }

  /** The caller's steps after `fetchAndVerify`. */
  lemma LeaveKeepsInv(c: Config, s: State, a: Action)
    requires Inv(c, s) && (a.LeaveGate? || a.Reread?)
    ensures Inv(c, Next(c, s, a))
  {
    CopyIsFromLast(c, s);
    match a
    case LeaveGate(t) => if PcOf(s, t) == LeavingGate { MoveKeepsInv(c, s, t, Rereading, None); }
    case Reread(t) => if PcOf(s, t) == Rereading { MoveKeepsInv(c, s, t, Emitting(Copy(s.fields), |s.verified|), s.gate); }
  }

  lemma FetchKeepsInv(c: Config, s: State, a: Action)
    requires Inv(c, s) && (a.Refresh? || a.ReceiptArrives? || a.TokenArrives? || a.Fail?)
    ensures Inv(c, Next(c, s, a))
  {
    var pc := PcOf(s, a.t);
    match a
    case Refresh(t, automatic) =>
      if pc == Idle { MoveKeepsInv(c, s, t, Fetching(if automatic then Automatic else Forced), s.gate); }
    case ReceiptArrives(t, receipt) =>
      if pc.Fetching? { MoveKeepsInv(c, s, t, HasReceipt(pc.mode, receipt), s.gate); }
    case TokenArrives(t, token) =>
      if pc.HasReceipt? { MoveKeepsInv(c, s, t, HasBoth(pc.mode, pc.receipt, token), s.gate); }
    case Fail(t, e) =>
      if pc.Fetching? || pc.HasReceipt? { MoveKeepsInv(c, s, t, Failed(pc.mode, e), s.gate); }
  }

  lemma VerifyKeepsInv(c: Config, s: State, t: Tid, e: Error)
    requires Inv(c, s)
    ensures Inv(c, Next(c, s, VerifyReceipt(t, e))) && Inv(c, Next(c, s, VerifyToken(t, e)))
  {
    var pc := PcOf(s, t);
    match pc
    case HasBoth(mode, receipt, token) =>
      if c.receiptVerifies(receipt, s.keys) {
        MoveKeepsInv(c, s, t, ReceiptVerified(mode, receipt, token, s.keys), s.gate);
      } else {
        MoveKeepsInv(c, s, t, Failed(mode, e), s.gate);
      }
    case ReceiptVerified(mode, receipt, token, keys) =>
      assert ThreadOk(c, s, pc);
      var exp := c.tokenExpiry(token, s.keys, s.now);
      if exp.None? {
        MoveKeepsInv(c, s, t, Failed(mode, e), s.gate);
      } else {
        var v := Verification(receipt, token, exp.value, keys, s.keys, s.now);
        assert Genuine(c, v);
        MoveKeepsInv(c, s, t, AllVerified(mode, v), s.gate);
      }
    case _ =>
  }

  lemma StoreStepKeepsInv(c: Config, s: State, t: Tid)
    requires Inv(c, s)
    ensures Inv(c, Next(c, s, Store(t)))
  {
    var pc := PcOf(s, t);
    if pc.AllVerified? {
      assert ThreadOk(c, s, pc);
      StoreKeepsInv(c, s, pc.v);
      MoveKeepsInv(c, s.(fields := WithVerified(s.fields, pc.v), verified := s.verified + [pc.v]), t, Cached(pc.mode), s.gate);
    }
  }

  /** A section that writes an error or the flag, then moves on. */
  lemma WriteAndMoveKeepsInv(c: Config, s: State, t: Tid, fields: Fields, pc: Pc)
    requires Inv(c, s) && Copy(fields) == Copy(s.fields) && (fields.initialized ==> s.verified != [])
    requires (pc == LeavingGate && s.gate == Some(t)) || pc == Idle || (pc.InitFailed? && s.gate == Some(t))
    ensures Inv(c, At(s, t, pc).(fields := fields))
  {
    WriteKeepsInv(c, s, fields);
    MoveKeepsInv(c, s.(fields := fields), t, pc, s.gate);
  }

  lemma NoteKeepsInv(c: Config, s: State, a: Action)
    requires Inv(c, s) && (a.NoteFailure? || a.NoteInitFailure? || a.Finish?)
    ensures Inv(c, Next(c, s, a))
  {
    var pc := PcOf(s, a.t);
    match a
    case NoteFailure(t) =>
      if pc.Failed? {
        WriteAndMoveKeepsInv(c, s, t, WithError(s.fields, pc.e), if pc.mode == Init then InitFailed(pc.e) else Idle);
      }
    case NoteInitFailure(t) =>
      if pc.InitFailed? { WriteAndMoveKeepsInv(c, s, t, WithError(s.fields, pc.e), LeavingGate); }
    case Finish(t) =>
      if pc.Cached? {
        assert ThreadOk(c, s, pc);
        var fields := if pc.mode == Forced then s.fields else WithInitialized(s.fields, pc.mode == Init);
        WriteAndMoveKeepsInv(c, s, t, fields, if pc.mode == Init then LeavingGate else Idle);
      }
  }

  lemma EmitStepKeepsInv(c: Config, s: State, t: Tid)
    requires Inv(c, s)
    ensures Inv(c, Next(c, s, Emit(t)))
  {
    var pc := PcOf(s, t);
    if pc.Emitting? {
      assert ThreadOk(c, s, pc);
      HeadersAreSound(pc.snap, s.now, pc.seen, s.verified);
      var (receipt, token) := Headers(pc.snap, s.now);
      EmitKeepsInv(c, s, Emission(receipt, token, s.now, pc.seen));
      MoveKeepsInv(c, s.(emitted := s.emitted + [Emission(receipt, token, s.now, pc.seen)]), t, Idle, s.gate);
    }
  }

  lemma {:induction false} NextKeepsInv(c: Config, s: State, a: Action)
    requires Inv(c, s)
    ensures Inv(c, Next(c, s, a))
  {
    match a
    case SetClock(now) => EnvironmentKeepsInv(c, s, now, s.keys);
    case SetKeys(keys) => EnvironmentKeepsInv(c, s, s.now, keys);
    case VerifyReceipt(t, e) => VerifyKeepsInv(c, s, t, e);
    case VerifyToken(t, e) => VerifyKeepsInv(c, s, t, e);
    case Store(t) => StoreStepKeepsInv(c, s, t);
    case Emit(t) => EmitStepKeepsInv(c, s, t);
    case _ =>
      if a.NoteFailure? || a.NoteInitFailure? || a.Finish? {
        NoteKeepsInv(c, s, a);
      } else if a.Refresh? || a.ReceiptArrives? || a.TokenArrives? || a.Fail? {
        FetchKeepsInv(c, s, a);
      } else if a.LeaveGate? || a.Reread? {
        LeaveKeepsInv(c, s, a);
      } else {
        CallerKeepsInv(c, s, a);
      }
  }

  // ---------------------------------------------------------------- all runs

  lemma {:induction false} RunKeepsInv(c: Config, now: int, keys: KeyState, actions: seq<Action>)
    ensures Inv(c, Run(c, Start(now, keys), actions))
  {
    if actions != [] {
      var n := |actions| - 1;
      RunKeepsInv(c, now, keys, actions[..n]);
      NextKeepsInv(c, Run(c, Start(now, keys), actions[..n]), actions[n]);
    }
  }

  /** Main theorem: in every interleaving the stored receipt, token and expiry are those of the latest
      successful verification, or all unset when there was none; and `initialized` implies they are
      set. */
  lemma FieldsComeFromOneVerification(c: Config, now: int, keys: KeyState, actions: seq<Action>)
    ensures var s := Run(c, Start(now, keys), actions);
            && (s.verified == [] <==> Copy(s.fields) == Snapshot(None, None, None))
            && (s.verified != [] ==>
                  var v := s.verified[|s.verified| - 1];
                  IsFrom(Copy(s.fields), v) && Genuine(c, v))
            && (s.fields.initialized ==> s.verified != [])
  {
    RunKeepsInv(c, now, keys, actions);
  }

  /** Main theorem: in every interleaving, whatever the clock does, the headers handed out are exactly those of the
      verification that was the latest when the fields were copied: its receipt unless that is empty, and its token
      unless that is empty or the clock read for it is not before its expiry. Before any verification there are none. */
  lemma {:induction false} EmittedHeadersAreSound(c: Config, now: int, keys: KeyState, actions: seq<Action>, i: nat)
    requires i < |Run(c, Start(now, keys), actions).emitted|
    ensures var s := Run(c, Start(now, keys), actions);
            var e := s.emitted[i];
            && e.seen <= |s.verified|
            && (e.seen == 0 ==> e.receipt == None && e.token == None)
            && (e.seen > 0 ==>
                  var v := s.verified[e.seen - 1];
                  && Genuine(c, v)
                  && e.receipt == (if v.receipt != [] then Some(v.receipt) else None)
                  && e.token == (if v.token != [] && e.now < v.exp then Some(v.token) else None))
  {
    RunKeepsInv(c, now, keys, actions);
    var s := Run(c, Start(now, keys), actions);
    assert EmissionOk(s.emitted[i], s.verified);
  }

  /** At most one thread at a time is initializing. */
  lemma OneInitializerAtATime(c: Config, now: int, keys: KeyState, actions: seq<Action>, t: Tid, u: Tid)
    requires var s := Run(c, Start(now, keys), actions);
             t in s.threads && u in s.threads && HoldsGate(s.threads[t]) && HoldsGate(s.threads[u])
    ensures t == u
  {
    RunKeepsInv(c, now, keys, actions);
  }

  // ---------------------------------------------------------------- a call of the object is a run

  ghost predicate Leads(c: Config, s: State, s': State) {
    exists actions :: Run(c, s, actions) == s'
  }

  lemma LeadsHere(c: Config, s: State)
    ensures Leads(c, s, s)
  {
    assert Run(c, s, []) == s;
  }

  lemma LeadsOn(c: Config, s: State, m: State, a: Action)
    requires Leads(c, s, m)
    ensures Leads(c, s, Next(c, m, a))
  {
    var actions :| Run(c, s, actions) == m;
    assert (actions + [a])[..|actions|] == actions;
    assert Run(c, s, actions + [a]) == Next(c, m, a);
  }

  lemma FetchedBoth(c: Config, s: State, m: State, t: Tid, o: Outside) returns (n: State)
    requires Leads(c, s, m) && PcOf(m, t).Fetching?
    ensures Leads(c, s, n) && n.fields == m.fields && n.gate == m.gate && n.emitted == m.emitted
    ensures PcOf(n, t) == if o.receipt.Some? && o.token.Some? then HasBoth(PcOf(m, t).mode, o.receipt.value, o.token.value)
                          else Failed(PcOf(m, t).mode, o.error)
  {
    if o.receipt.None? {
      LeadsOn(c, s, m, Fail(t, o.error));
      n := Next(c, m, Fail(t, o.error));
    } else {
      LeadsOn(c, s, m, ReceiptArrives(t, o.receipt.value));
      n := Next(c, m, ReceiptArrives(t, o.receipt.value));
      var a := if o.token.Some? then TokenArrives(t, o.token.value) else Fail(t, o.error);
      LeadsOn(c, s, n, a);
      n := Next(c, n, a);
    }
  }

  lemma CheckedReceipt(c: Config, s: State, m: State, t: Tid, o: Outside) returns (n: State)
    requires Leads(c, s, m) && PcOf(m, t).HasBoth? && o.receipt == Some(PcOf(m, t).receipt)
    ensures Leads(c, s, n) && n.fields == m.fields && n.gate == m.gate && n.emitted == m.emitted
    ensures PcOf(n, t) == if c.receiptVerifies(o.receipt.value, o.receiptKeys)
                          then ReceiptVerified(PcOf(m, t).mode, PcOf(m, t).receipt, PcOf(m, t).token, o.receiptKeys)
                          else Failed(PcOf(m, t).mode, o.error)
  {
    LeadsOn(c, s, m, SetKeys(o.receiptKeys));
    n := Next(c, m, SetKeys(o.receiptKeys));
    LeadsOn(c, s, n, VerifyReceipt(t, o.error));
    n := Next(c, n, VerifyReceipt(t, o.error));
  }

  lemma CheckedToken(c: Config, s: State, m: State, t: Tid, o: Outside) returns (n: State)
    requires Leads(c, s, m) && PcOf(m, t).ReceiptVerified? && PcOf(m, t).keys == o.receiptKeys
    requires o.receipt == Some(PcOf(m, t).receipt) && o.token == Some(PcOf(m, t).token)
    requires c.receiptVerifies(o.receipt.value, o.receiptKeys)
    ensures Leads(c, s, n) && n.fields == m.fields && n.gate == m.gate && n.emitted == m.emitted
    ensures PcOf(n, t) == if Verified(c, o).Some? then AllVerified(PcOf(m, t).mode, Verified(c, o).value)
                          else Failed(PcOf(m, t).mode, o.error)
  {
    LeadsOn(c, s, m, SetKeys(o.tokenKeys));
    n := Next(c, m, SetKeys(o.tokenKeys));
    LeadsOn(c, s, n, SetClock(o.verifyNow));
    n := Next(c, n, SetClock(o.verifyNow));
    LeadsOn(c, s, n, VerifyToken(t, o.error));
    n := Next(c, n, VerifyToken(t, o.error));
  }

  /** The four steps of `fetchAndVerify`. */
  lemma FetchedAndVerified(c: Config, s: State, m: State, t: Tid, o: Outside) returns (n: State)
    requires Leads(c, s, m) && PcOf(m, t).Fetching?
    ensures Leads(c, s, n) && n.fields == m.fields && n.gate == m.gate && n.emitted == m.emitted
    ensures PcOf(n, t) == if Verified(c, o).Some? then AllVerified(PcOf(m, t).mode, Verified(c, o).value)
                          else Failed(PcOf(m, t).mode, o.error)
  {
    n := FetchedBoth(c, s, m, t, o);
    if PcOf(n, t).HasBoth? {
      n := CheckedReceipt(c, s, n, t, o);
      if PcOf(n, t).ReceiptVerified? {
        n := CheckedToken(c, s, n, t, o);
      }
    }
  }

  /** Storing the result, or noting the failure. */
  lemma FetchKept(c: Config, s: State, m: State, t: Tid, o: Outside) returns (n: State)
    requires Leads(c, s, m) && PcOf(m, t).Fetching?
    ensures Leads(c, s, n) && n.fields == AfterFetch(c, m.fields, o) && n.gate == m.gate && n.emitted == m.emitted
    ensures PcOf(n, t) == if Verified(c, o).Some? then Cached(PcOf(m, t).mode)
                          else if PcOf(m, t).mode == Init then InitFailed(o.error) else Idle
  {
    n := FetchedAndVerified(c, s, m, t, o);
    var a := if Verified(c, o).Some? then Store(t) else NoteFailure(t);
    LeadsOn(c, s, n, a);
    n := Next(c, n, a);
  }

  lemma EnteredGate(c: Config, s: State, m: State, t: Tid) returns (n: State)
    requires Leads(c, s, m) && PcOf(m, t) == AtGate && m.gate.None? && !m.fields.initialized
    ensures Leads(c, s, n) && n.fields == m.fields && n.emitted == m.emitted && n.gate == Some(t) && PcOf(n, t) == Fetching(Init)
  {
    LeadsOn(c, s, m, Enter(t));
    n := Next(c, m, Enter(t));
    LeadsOn(c, s, n, Recheck(t));
    n := Next(c, n, Recheck(t));
  }

  lemma NotedInit(c: Config, s: State, m: State, t: Tid) returns (n: State)
    requires Leads(c, s, m) && (PcOf(m, t) == Cached(Init) || PcOf(m, t).InitFailed?)
    ensures Leads(c, s, n) && n.emitted == m.emitted && PcOf(n, t) == LeavingGate
    ensures n.fields == if PcOf(m, t).InitFailed? then WithError(m.fields, PcOf(m, t).e) else WithInitialized(m.fields, true)
  {
    var a := if PcOf(m, t).InitFailed? then NoteInitFailure(t) else Finish(t);
    LeadsOn(c, s, m, a);
    n := Next(c, m, a);
  }

  lemma LeftGate(c: Config, s: State, m: State, t: Tid) returns (n: State)
    requires Leads(c, s, m) && PcOf(m, t) == LeavingGate
    ensures Leads(c, s, n) && n.fields == m.fields && n.emitted == m.emitted
    ensures PcOf(n, t) == Emitting(Copy(n.fields), |n.verified|) && n.gate.None?
  {
    LeadsOn(c, s, m, LeaveGate(t));
    n := Next(c, m, LeaveGate(t));
    LeadsOn(c, s, n, Reread(t));
    n := Next(c, n, Reread(t));
  }

  lemma Initialized(c: Config, s: State, m: State, t: Tid, o: Outside) returns (n: State)
    requires Leads(c, s, m) && PcOf(m, t) == AtGate && m.gate.None? && !m.fields.initialized
    ensures Leads(c, s, n) && n.fields == AfterInit(c, m.fields, o) && n.emitted == m.emitted
    ensures PcOf(n, t) == Emitting(Copy(n.fields), |n.verified|) && n.gate.None?
  {
    n := EnteredGate(c, s, m, t);
    n := FetchKept(c, s, n, t, o);
    n := NotedInit(c, s, n, t);
    n := LeftGate(c, s, n, t);
  }

  lemma Emitted(c: Config, s: State, m: State, t: Tid, now: int) returns (n: State)
    requires Leads(c, s, m) && PcOf(m, t) == Emitting(Copy(m.fields), |m.verified|)
    ensures Leads(c, s, n) && n.fields == m.fields && n.gate == m.gate && n.verified == m.verified && PcOf(n, t) == Idle
    ensures var (receipt, token) := Headers(Copy(m.fields), now); n.emitted == m.emitted + [Emission(receipt, token, now, |m.verified|)]
  {
    LeadsOn(c, s, m, SetClock(now));
    n := Next(c, m, SetClock(now));
    LeadsOn(c, s, n, Emit(t));
    n := Next(c, n, Emit(t));
  }

  /** `CurrentHeaders` with nothing in between is one of the runs, with the same fields left and the same headers
      handed out, so what holds of all interleavings holds of it. */
  lemma CurrentHeadersIsRun(c: Config, s: State, t: Tid, o: Outside) returns (s': State)
    requires PcOf(s, t) == Idle && s.gate.None?
    ensures Leads(c, s, s') && PcOf(s', t) == Idle && s'.gate.None? && s'.fields == AfterInit(c, s.fields, o)
    ensures var (receipt, token) := Headers(Copy(s'.fields), o.emitNow);
            s'.emitted == s.emitted + [Emission(receipt, token, o.emitNow, |s'.verified|)]
  {
    LeadsHere(c, s);
    LeadsOn(c, s, s, Call(t));
    s' := Next(c, s, Call(t));
    if !s.fields.initialized {
      s' := Initialized(c, s, s', t, o);
    }
    s' := Emitted(c, s, s', t, o.emitNow);
  }

  /** So are a forced refresh and one round of the automatic one. */
  lemma RefreshIsRun(c: Config, s: State, t: Tid, automatic: bool, o: Outside) returns (s': State)
    requires PcOf(s, t) == Idle
    ensures Leads(c, s, s') && PcOf(s', t) == Idle && s'.gate == s.gate && s'.emitted == s.emitted
    ensures s'.fields == if automatic && Verified(c, o).Some? then WithInitialized(AfterFetch(c, s.fields, o), false)
                         else AfterFetch(c, s.fields, o)
  {
    LeadsHere(c, s);
    LeadsOn(c, s, s, Refresh(t, automatic));
    s' := Next(c, s, Refresh(t, automatic));
    s' := FetchKept(c, s, s', t, o);
    if Verified(c, o).Some? {
      LeadsOn(c, s, s', Finish(t));
      s' := Next(c, s', Finish(t));
    }
  }
}
