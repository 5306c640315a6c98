/** Badge verification of servers and clients, and prefetching, on one cache or none: what a single call
    decides, and the methods that run it. */
module Verifier {
  import opened Text
  import opened Names
  import opened Identity
  import opened BadgeCache

  datatype Policy = FailClosed | FailOpenWithCache | FailOpenAlways

  /** What a DNS query comes back with; a missing record may be an error of that kind or no record at all. */
  datatype Answer = Got(url: string) | Missing | Failure(error: string)

  datatype Logged = Logged(response: TlResponse) | LogFailure(error: string)

  /** What is outside at one moment: the badge records, the transparency log, the DANE check, and what the
      background refresh would be given for a name. */
  datatype World = World(
    preferred: Fqdn -> Answer,
    forVersion: (Fqdn, Version) -> Answer,
    log: string -> Logged,
    dane: Option<(Fqdn, Cert) -> DaneResult>,
    refresh: Fqdn -> Option<TlResponse>)

  datatype Settings = Settings(policy: Policy, maxStaleness: int, cache: Config, rewriteHost: string -> string)

  /** Under what a response is cached and asked for. */
  datatype Key = ByName(fqdn: Fqdn) | ByVersion(fqdn: Fqdn, version: Version)

  // ---------------------------------------------------------------- fetching

  datatype Fetch = Fetched(response: TlResponse) | Absent | Broken(outcome: Outcome)

  function DnsAnswer(w: World, key: Key): Answer {
    match key
    case ByName(fqdn) => w.preferred(fqdn)
    case ByVersion(fqdn, version) => w.forVersion(fqdn, version)
  }

  function LogAnswer(settings: Settings, w: World, url: string): Logged {
    w.log(settings.rewriteHost(url))
  }

  /** `fetchTLResponse` before the failure policy: the DNS record, then the log entry it points to. */
  function FetchFor(settings: Settings, w: World, key: Key): Fetch {
    match DnsAnswer(w, key)
    case Missing => Absent
    case Failure(e) => Broken(DnsError(e))
    case Got(url) =>
      match LogAnswer(settings, w, url)
      case Logged(response) => Fetched(response)
      case LogFailure(e) => Broken(TlogError(e))
  }

  function Cause(o: Outcome): string {
    match o
    case DnsError(e) => e
    case TlogError(e) => e
    case _ => ""
  }

  /** `applyFailurePolicy`, given the stale entry the cache has. */
  function ApplyPolicy(settings: Settings, stale: Option<Badge<TlResponse>>, o: Outcome): Outcome {
    match settings.policy
    case FailClosed => o
    case FailOpenWithCache => if stale.Some? then FailOpen(Some(stale.value.response), "") else o
    case FailOpenAlways => FailOpen(None, Cause(o))
  }

  // ---------------------------------------------------------------- DANE

  predicate Rejects(d: DaneResult) {
    d.DaneMismatch? || d.DaneDnssecFailed?
  }

  /** `applyDANE`: only a verified outcome is looked at. */
  function WithDane(w: World, fqdn: Fqdn, cert: Cert, o: Outcome): Outcome {
    if !o.Verified? || w.dane.None? then o
    else
      var d := w.dane.value(fqdn, cert);
      if Rejects(d) then DaneRejection(o.response, d)
      else if d.DaneVerified? then o.(dane := Some(d))
      else o
  }

  // ---------------------------------------------------------------- the subject of a client certificate

  function NameOfHost(host: string): Option<Fqdn> {
    if NewFqdn(host).Some? then
      FqdnIdempotent(host);
      Some(NewFqdn(host).value)
    else None
  }

  datatype Subjects = NoSubject(fault: CertFault) | SubjectIs(fqdn: Fqdn, version: Version)

  /** Whom a client certificate speaks for: the host and version of its first ati:// name. */
  function ClientSubject(cert: Cert): Subjects {
    if Subject(cert).None? then NoSubject(NoCn)
    else if FirstName(cert.uriSans).None? then NoSubject(NoUriSan)
    else
      var name := FirstName(cert.uriSans).value;
      var fqdn := NameOfHost(name.host);
      if fqdn.None? then NoSubject(BadFqdn) else SubjectIs(fqdn.value, name.version)
  }

  /** A client certificate speaks for the host and version of its first URI that is an ati:// name, if it has a
      DNS name or a common name. */
  lemma {:induction false} ClientSubjectIs(cert: Cert, fqdn: Fqdn, version: Version)
    ensures ClientSubject(cert) == SubjectIs(fqdn, version) <==>
            && (cert.dnsSans != [] || cert.commonName.Some?)
            && exists i, name :: IsFirst(ParseAtiName, cert.uriSans, i, name) && NewFqdn(name.host) == Some(fqdn) && name.version == version
  {
    if FirstName(cert.uriSans).Some? {
      FirstNameIs(cert.uriSans, FirstName(cert.uriSans).value);
    }
    if i, name :| IsFirst(ParseAtiName, cert.uriSans, i, name) && NewFqdn(name.host) == Some(fqdn) && name.version == version {
      FirstNameIs(cert.uriSans, name);
    }
  }

  /** It has no subject without such a name, or when the host is no domain name. */
  lemma {:induction false} NoSubjectIff(cert: Cert, fault: CertFault)
    ensures ClientSubject(cert) == NoSubject(fault) <==>
            match fault
            case NoCn => cert.dnsSans == [] && cert.commonName.None?
            case NoUriSan => (cert.dnsSans != [] || cert.commonName.Some?) && NoneParses(ParseAtiName, cert.uriSans)
            case BadFqdn =>
              && (cert.dnsSans != [] || cert.commonName.Some?)
              && exists i, name :: IsFirst(ParseAtiName, cert.uriSans, i, name) && NewFqdn(name.host).None?
  {
    FirstNameIs(cert.uriSans, if FirstName(cert.uriSans).Some? then FirstName(cert.uriSans).value else AtiName(Version(0, 0, 0), "", ""));
    if i, name :| IsFirst(ParseAtiName, cert.uriSans, i, name) && NewFqdn(name.host).None? {
      FirstNameIs(cert.uriSans, name);
    }
  }

  // ---------------------------------------------------------------- one call

  /** A call once it is clear whom it is about. */
  datatype Call =
    | OfServer(fqdn: Fqdn, cert: Cert)
    | OfClient(fqdn: Fqdn, version: Version, cert: Cert)
    | OfPrefetch(fqdn: Fqdn)

  /** What a call returns. `Prefetch` hands out a response, an error, or under an open policy neither. */
  datatype Reply = Judged(outcome: Outcome) | Response(response: TlResponse) | Error(outcome: Outcome) | Neither

  function KeyOf(call: Call): Key {
    match call
    case OfServer(fqdn, _) => ByName(fqdn)
    case OfClient(fqdn, version, _) => ByVersion(fqdn, version)
    case OfPrefetch(fqdn) => ByName(fqdn)
  }

  /** A fresh entry decides a call, except that a server call goes on to fetch when the fingerprint
      is another one. */
  predicate Decides(call: Call, response: TlResponse) {
    call.OfServer? ==> !JudgeServer(response, call.cert, call.fqdn).FingerprintMismatch?
  }

  /** What the call makes of a response. */
  function Final(w: World, call: Call, response: TlResponse): Reply {
    match call
    case OfServer(fqdn, cert) => Judged(WithDane(w, fqdn, cert, JudgeServer(response, cert, fqdn)))
    case OfClient(fqdn, _, cert) => Judged(WithDane(w, fqdn, cert, JudgeClient(response, cert)))
    case OfPrefetch(_) => Response(response)
  }

  /** What it makes of having none; `ToError` is nothing for an outcome that lets the caller through. */
  function Refused(call: Call, o: Outcome): Reply {
    if !call.OfPrefetch? then Judged(o) else if o.FailOpen? || o.Verified? then Neither else Error(o)
  }

  function Uncached(settings: Settings, w: World, call: Call): Reply {
    match FetchFor(settings, w, KeyOf(call))
    case Fetched(r) => Final(w, call, r)
    case Absent => Refused(call, NotAtiAgent(call.fqdn))
    case Broken(o) => Refused(call, ApplyPolicy(settings, None, o))
  }

  /** What a call makes of a response: a verdict with the DANE check, or for a prefetch the response itself. */
  predicate ConcludesOn(w: World, call: Call, response: TlResponse, reply: Reply) {
    match call
    case OfServer(fqdn, cert) => reply == Judged(WithDane(w, fqdn, cert, JudgeServer(response, cert, fqdn)))
    case OfClient(fqdn, _, cert) => reply == Judged(WithDane(w, fqdn, cert, JudgeClient(response, cert)))
    case OfPrefetch(_) => reply == Response(response)
  }

  /** And of an error, when there is nothing stale: under FailOpenAlways it lets the caller through. */
  predicate FailsWith(settings: Settings, call: Call, error: Outcome, reply: Reply) {
    if settings.policy.FailOpenAlways? then
      if call.OfPrefetch? then reply == Neither
      else reply.Judged? && reply.outcome.FailOpen? && reply.outcome.stale.None? &&
           (error == DnsError(reply.outcome.cause) || error == TlogError(reply.outcome.cause))
    else reply == if call.OfPrefetch? then Error(error) else Judged(error)
  }

  /** Without a cache a call replies by the DNS record for the name, or for the name and version, and by the log entry it
      points to, once its host is rewritten. */
  lemma {:induction false} UncachedReplies(settings: Settings, w: World, call: Call)
    ensures var reply := Uncached(settings, w, call);
            match (if call.OfClient? then w.forVersion(call.fqdn, call.version) else w.preferred(call.fqdn))
            case Missing => reply == if call.OfPrefetch? then Error(NotAtiAgent(call.fqdn)) else Judged(NotAtiAgent(call.fqdn))
            case Failure(e) => FailsWith(settings, call, DnsError(e), reply)
            case Got(url) =>
              match w.log(settings.rewriteHost(url))
              case Logged(response) => ConcludesOn(w, call, response, reply)
              case LogFailure(e) => FailsWith(settings, call, TlogError(e), reply)
  {
  }

  type CacheState = State<TlResponse>

  function FreshFor(s: CacheState, key: Key, now: int): Option<Badge<TlResponse>> {
    match key
    case ByName(fqdn) => FreshAt(s.byFqdn, fqdn, now)
    case ByVersion(fqdn, version) => FreshAt(s.byFqdnVer, FqdnVersionKey(fqdn, version), now)
  }

  function StaleFor(s: CacheState, key: Key, now: int, maxStaleness: int): Option<Badge<TlResponse>> {
    match key
    case ByName(fqdn) => StaleAt(s.byFqdn, fqdn, now, maxStaleness)
    case ByVersion(fqdn, version) => StaleAt(s.byFqdnVer, FqdnVersionKey(fqdn, version), now, maxStaleness)
  }

  function StoreOf(key: Key, response: TlResponse, now: int, later: int): Op<TlResponse> {
    match key
    case ByName(fqdn) => Stored(fqdn, response, now, later)
    case ByVersion(fqdn, version) => StoredForVersion(fqdn, version, response, now, later)
  }

  /** The readings of the clock during one call: no order among them is required. */
  datatype Clock = Clock(lookup: int, insert: int, cleanup: int, stale: int)

  /** A call that nothing comes between, on a cache. */
  ghost predicate CallOn(settings: Settings, w: World, t: Clock, call: Call, s: CacheState, reply: Reply, s': CacheState) {
    var key := KeyOf(call);
    var hit := FreshFor(s, key, t.lookup);
    if hit.Some? && Decides(call, hit.value.response) then
      s' == s && reply == Final(w, call, hit.value.response)
    else
      match FetchFor(settings, w, key)
      case Fetched(r) => Step(settings.cache, s, StoreOf(key, r, t.insert, t.cleanup), s') && reply == Final(w, call, r)
      case Absent => s' == s && reply == Refused(call, NotAtiAgent(call.fqdn))
      case Broken(o) =>
        s' == s && reply == Refused(call, ApplyPolicy(settings, StaleFor(s, key, t.stale, settings.maxStaleness), o))
  }

  /** `Prefetch` returns neither a response nor an error exactly when nothing fresh is cached, the fetch
      breaks, and the policy lets the caller through. */
  lemma PrefetchOfNeither(settings: Settings, w: World, t: Clock, fqdn: Fqdn, s: CacheState, reply: Reply, s': CacheState)
    requires CallOn(settings, w, t, OfPrefetch(fqdn), s, reply, s')
    ensures reply == Neither <==>
            && FreshFor(s, ByName(fqdn), t.lookup).None?
            && FetchFor(settings, w, ByName(fqdn)).Broken?
            && (|| settings.policy.FailOpenAlways?
                || (settings.policy.FailOpenWithCache? && StaleFor(s, ByName(fqdn), t.stale, settings.maxStaleness).Some?))
  {
    BreaksPlainly(settings, w, ByName(fqdn));
  }

  /** A broken fetch is an error, never an outcome that lets the caller through. */
  lemma BreaksPlainly(settings: Settings, w: World, key: Key)
    ensures var f := FetchFor(settings, w, key); f.Broken? ==> f.outcome.DnsError? || f.outcome.TlogError?
  {
  }

  // ---------------------------------------------------------------- the methods

  /** `ServerVerifier` and `ClientVerifier` as `AnsVerifier` joins them: one configuration, one cache or none. */
  class AnsVerifier {
    const settings: Settings
    const cache: Cache?<TlResponse>

    constructor (settings: Settings, cache: Cache?<TlResponse>)
      ensures this.settings == settings && this.cache == cache
    {
      this.settings, this.cache := settings, cache;
    }

    ghost predicate Valid() {
      cache != null ==> cache.config == settings.cache
    }

    /** The result of a call: on a cache as above, or without one. */
    twostate predicate Returns(w: World, t: Clock, call: Call, reply: Reply)
      reads cache
    {
      if cache == null then reply == Uncached(settings, w, call)
      else CallOn(settings, w, t, call, old(cache.Abstract()), reply, cache.Abstract())
    }

    ghost function StaleEntry(t: Clock, key: Key): Option<Badge<TlResponse>>
      reads cache
    {
      if cache == null then None else StaleFor(cache.Abstract(), key, t.stale, settings.maxStaleness)
    }

    /** Either a response, or the outcome under the failure policy. */
    method FetchServerResponse(w: World, t: Clock, fqdn: Fqdn) returns (response: Option<TlResponse>, failed: Outcome)
      ensures match FetchFor(settings, w, ByName(fqdn))
              case Fetched(r) => response == Some(r)
              case Absent => response == None && failed == NotAtiAgent(fqdn)
              case Broken(e) => response == None && failed == ApplyPolicy(settings, StaleEntry(t, ByName(fqdn)), e)
    {
      failed := NotAtiAgent(fqdn);
      match FetchFor(settings, w, ByName(fqdn)) {
        case Fetched(r) => response := Some(r);
        case Absent => response := None;
        case Broken(e) =>
          var stale: Option<Badge<TlResponse>> := None;
          if cache != null {
            stale := cache.GetStaleByFqdn(fqdn, t.stale, settings.maxStaleness);
          }
          response, failed := None, ApplyPolicy(settings, stale, e);
      }
    }

    method FetchClientResponse(w: World, t: Clock, fqdn: Fqdn, version: Version) returns (response: Option<TlResponse>, failed: Outcome)
      ensures match FetchFor(settings, w, ByVersion(fqdn, version))
              case Fetched(r) => response == Some(r)
              case Absent => response == None && failed == NotAtiAgent(fqdn)
              case Broken(e) => response == None && failed == ApplyPolicy(settings, StaleEntry(t, ByVersion(fqdn, version)), e)
    {
      failed := NotAtiAgent(fqdn);
      match FetchFor(settings, w, ByVersion(fqdn, version)) {
        case Fetched(r) => response := Some(r);
        case Absent => response := None;
        case Broken(e) =>
          var stale: Option<Badge<TlResponse>> := None;
          if cache != null {
            stale := cache.GetStaleByFqdnVersion(fqdn, version, t.stale, settings.maxStaleness);
          }
          response, failed := None, ApplyPolicy(settings, stale, e);
      }
    }

    method VerifyServer(w: World, t: Clock, fqdn: Fqdn, cert: Cert) returns (outcome: Outcome)
      requires Valid()
      modifies cache
      ensures Returns(w, t, OfServer(fqdn, cert), Judged(outcome))
      ensures cache != null && fqdn in old(cache.byFqdn) && t.lookup <= old(cache.byFqdn)[fqdn].expiresAt ==>
                var verdict := JudgeServer(old(cache.byFqdn)[fqdn].response, cert, fqdn);
                verdict.FingerprintMismatch? || (outcome == WithDane(w, fqdn, cert, verdict) && unchanged(cache))
    {
      if cache != null {
        var cached := cache.GetByFqdn(fqdn, t.lookup);
        if cached.Some? {
          var result := JudgeServer(cached.value.response, cert, fqdn);
          if !result.FingerprintMismatch? {
            return WithDane(w, fqdn, cert, result);
          }
        }
      }
      var response, failed := FetchServerResponse(w, t, fqdn);
      if response.None? {
        return failed;
      }
      if cache != null {
        cache.Insert(fqdn, response.value, t.insert, t.cleanup);
      }
      return WithDane(w, fqdn, cert, JudgeServer(response.value, cert, fqdn));
    }

    /** A certificate without a usable subject is refused before anything is looked up. */
    method VerifyClient(w: World, t: Clock, cert: Cert) returns (outcome: Outcome)
      requires Valid()
      modifies cache
      ensures match ClientSubject(cert)
              case NoSubject(fault) => outcome == CertError(fault) && (cache != null ==> cache.Abstract() == old(cache.Abstract()))
              case SubjectIs(fqdn, version) => Returns(w, t, OfClient(fqdn, version, cert), Judged(outcome))
    {
      if Subject(cert).None? {
        return CertError(NoCn);
      }
      var name := FirstAtiName(cert);
      if name.None? {
        return CertError(NoUriSan);
      }
      var fqdn := NameOfHost(name.value.host);
      if fqdn.None? {
        return CertError(BadFqdn);
      }
      outcome := VerifyClientFor(w, t, fqdn.value, name.value.version, cert);
    }

    method VerifyClientFor(w: World, t: Clock, fqdn: Fqdn, version: Version, cert: Cert) returns (outcome: Outcome)
      requires Valid()
      modifies cache
      ensures Returns(w, t, OfClient(fqdn, version, cert), Judged(outcome))
      ensures var key := FqdnVersionKey(fqdn, version);
              cache != null && key in old(cache.byFqdnVer) && t.lookup <= old(cache.byFqdnVer)[key].expiresAt ==>
                outcome == WithDane(w, fqdn, cert, JudgeClient(old(cache.byFqdnVer)[key].response, cert)) && unchanged(cache)
    {
      if cache != null {
        var cached := cache.GetByFqdnVersion(fqdn, version, t.lookup);
        if cached.Some? {
          outcome := VerifyClientWithResponse(cached.value.response, cert);
          return WithDane(w, fqdn, cert, outcome);
        }
      }
      var response, failed := FetchClientResponse(w, t, fqdn, version);
      if response.None? {
        return failed;
      }
      if cache != null {
        cache.InsertForVersion(fqdn, version, response.value, t.insert, t.cleanup);
      }
      outcome := VerifyClientWithResponse(response.value, cert);
      return WithDane(w, fqdn, cert, outcome);
    }

    /** Neither a response nor an error is left where the outcome lets the caller through. */
    method Prefetch(w: World, t: Clock, fqdn: Fqdn) returns (response: Option<TlResponse>, error: Option<Outcome>)
      requires Valid()
      modifies cache
      ensures response.None? || error.None?
      ensures Returns(w, t, OfPrefetch(fqdn),
                      if response.Some? then Response(response.value) else if error.Some? then Error(error.value) else Neither)
      ensures cache != null && fqdn in old(cache.byFqdn) && t.lookup <= old(cache.byFqdn)[fqdn].expiresAt ==>
                response == Some(old(cache.byFqdn)[fqdn].response) && unchanged(cache)
    {
      if cache != null {
        var cached := cache.GetByFqdn(fqdn, t.lookup);
        if cached.Some? {
          return Some(cached.value.response), None;
        }
      }
      var fetched, failed := FetchServerResponse(w, t, fqdn);
      if fetched.None? {
        return None, if failed.FailOpen? || failed.Verified? then None else Some(failed);
      }
      if cache != null {
        cache.Insert(fqdn, fetched.value, t.insert, t.cleanup);
      }
      return fetched, None;
    }
  }

  // ---------------------------------------------------------------- what a verdict on a response says

  /** DANE, if it is configured, did not reject. */
  predicate DaneAllows(w: World, fqdn: Fqdn, cert: Cert) {
    w.dane.Some? ==> var d := w.dane.value(fqdn, cert); d.DaneVerified? || d.DaneSkipped? || d.DaneNoRecords? || d.DaneLookupError?
  }

  /** DANE turns a verified outcome into a rejection that names the same response, or leaves it verified
      and adds the DANE result if that is a verification, and touches no other outcome. */
  lemma DaneOnly(w: World, fqdn: Fqdn, cert: Cert, o: Outcome)
    ensures !o.Verified? ==> WithDane(w, fqdn, cert, o) == o
    ensures o.Verified? && !DaneAllows(w, fqdn, cert) ==>
              WithDane(w, fqdn, cert, o) == DaneRejection(o.response, w.dane.value(fqdn, cert))
    ensures o.Verified? && DaneAllows(w, fqdn, cert) ==>
              WithDane(w, fqdn, cert, o) ==
              if w.dane.Some? && w.dane.value(fqdn, cert) == DaneVerified then o.(dane := Some(DaneVerified)) else o
  {
  }

  lemma ServerKeepsResponse(r: TlResponse, cert: Cert, fqdn: Fqdn)
    ensures var o := JudgeServer(r, cert, fqdn); !o.FailOpen? && !o.DaneRejection? && (o.Verified? || o.FingerprintMismatch? ==> o.response == r)
  {
    ServerVerdict(r, cert, fqdn);
  }

  lemma ClientKeepsResponse(r: TlResponse, cert: Cert)
    ensures var o := JudgeClient(r, cert); !o.FailOpen? && !o.DaneRejection? && (o.Verified? || o.FingerprintMismatch? ==> o.response == r)
  {
  }

  lemma ServerVerifiedIff(r: TlResponse, cert: Cert, fqdn: Fqdn)
    ensures JudgeServer(r, cert, fqdn).Verified? <==> VouchesForServer(r, cert, fqdn)
  {
    ServerVerdict(r, cert, fqdn);
  }

  lemma ClientVerifiedIff(r: TlResponse, cert: Cert)
    ensures JudgeClient(r, cert).Verified? <==> VouchesForClient(r, cert)
  {
    ClientVerdict(r, cert);
  }

  /** A server outcome judged on a response. */
  ghost predicate ServerJudgedOn(w: World, fqdn: Fqdn, cert: Cert, r: TlResponse, o: Outcome) {
    && !o.FailOpen?
    && (o.Verified? ==> o.response == r && VouchesForServer(r, cert, fqdn) && DaneAllows(w, fqdn, cert))
    && (o.FingerprintMismatch? ==> o.response == r && o == JudgeServer(r, cert, fqdn))
  }

  lemma {:induction false} ServerJudged(w: World, fqdn: Fqdn, cert: Cert, r: TlResponse)
    ensures ServerJudgedOn(w, fqdn, cert, r, WithDane(w, fqdn, cert, JudgeServer(r, cert, fqdn)))
  {
    ServerKeepsResponse(r, cert, fqdn);
    ServerVerifiedIff(r, cert, fqdn);
    DaneOnly(w, fqdn, cert, JudgeServer(r, cert, fqdn));
  }

  ghost predicate ClientJudgedOn(w: World, fqdn: Fqdn, cert: Cert, r: TlResponse, o: Outcome) {
    && !o.FailOpen?
    && (o.Verified? ==> o.response == r && VouchesForClient(r, cert) && DaneAllows(w, fqdn, cert))
    && (o.FingerprintMismatch? <==> JudgeClient(r, cert).FingerprintMismatch?)
    && (o.FingerprintMismatch? ==> o.response == r)
  }

  lemma {:induction false} ClientJudged(w: World, fqdn: Fqdn, cert: Cert, r: TlResponse)
    ensures ClientJudgedOn(w, fqdn, cert, r, WithDane(w, fqdn, cert, JudgeClient(r, cert)))
  {
    ClientKeepsResponse(r, cert);
    ClientVerifiedIff(r, cert);
    DaneOnly(w, fqdn, cert, JudgeClient(r, cert));
  }
}
