/** What a certificate claims, what the transparency log attests, and when the one vouches for the other. */
module Identity {
  import opened Text
  import opened Hex
  import opened Names
  import opened HostNames

  datatype Cert = Cert(commonName: Option<string>, dnsSans: seq<string>, uriSans: seq<string>, fingerprint: Digest, spki: Digest)

  datatype Fingerprints = Fingerprints(server: string, identity: string, previousServer: string, previousIdentity: string)

  datatype Payload = Payload(agentName: string, agentHost: string, agentSubHost: string, agentStatus: string, certificates: Fingerprints)

  datatype TlResponse = TlResponse(payload: Payload, requestId: string)

  datatype DaneResult = DaneVerified | DaneSkipped | DaneNoRecords | DaneMismatch | DaneDnssecFailed | DaneLookupError

  datatype CertFault = NoCn | NoUriSan | BadFqdn

  datatype Outcome =
    | Verified(response: TlResponse, matched: Digest, deprecated: bool, dane: Option<DaneResult>)
    | NotAtiAgent(host: string)
    | InvalidStatus(response: TlResponse, status: string)
    | FingerprintMismatch(response: TlResponse, expected: string, actual: string)
    | HostnameMismatch(response: TlResponse, expected: string, actuals: seq<string>)
    | AtiNameMismatch(response: TlResponse, expected: string, actual: string)
    | DnsError(error: string)
    | TlogError(error: string)
    | CertError(fault: CertFault)
    | FailOpen(stale: Option<TlResponse>, cause: string)
    | DaneRejection(response: TlResponse, rejected: DaneResult)

  // ---------------------------------------------------------------- the certificate

  /** `CertIdentity.FQDN`. */
  function Subject(cert: Cert): Option<string> {
    if |cert.dnsSans| > 0 then Some(cert.dnsSans[0]) else cert.commonName
  }

  function NamesOf(uris: seq<string>): seq<AtiName> {
    if uris == [] then []
    else
      var name := ParseAtiName(uris[0]);
      (if name.Some? then [name.value] else []) + NamesOf(uris[1..])
  }

  function FirstName(uris: seq<string>): Option<AtiName> {
    if NamesOf(uris) == [] then None else Some(NamesOf(uris)[0])
  }

  /** URI i is the first that parses. */
  predicate IsFirst(parse: string -> Option<AtiName>, uris: seq<string>, i: nat, name: AtiName) {
    && i < |uris| && parse(uris[i]) == Some(name)
    && forall j :: 0 <= j < i ==> parse(uris[j]).None?
  }

  predicate NoneParses(parse: string -> Option<AtiName>, uris: seq<string>) {
    forall i :: 0 <= i < |uris| ==> parse(uris[i]).None?
  }

  lemma FirstNameNext(uris: seq<string>)
    requires uris != []
    ensures FirstName(uris) == if ParseAtiName(uris[0]).Some? then ParseAtiName(uris[0]) else FirstName(uris[1..])
  {
  }

  lemma IsFirstNext(parse: string -> Option<AtiName>, uris: seq<string>, i: nat, name: AtiName)
    requires uris != [] && parse(uris[0]).None? && IsFirst(parse, uris[1..], i, name)
    ensures IsFirst(parse, uris, i + 1, name)
  {
    assert forall j :: 1 <= j < |uris| ==> uris[j] == uris[1..][j - 1];
  }

  lemma NoneParsesNext(parse: string -> Option<AtiName>, uris: seq<string>)
    requires uris != []
    ensures NoneParses(parse, uris) <==> parse(uris[0]).None? && NoneParses(parse, uris[1..])
  {
    assert uris == [uris[0]] + uris[1..];
  }

  /** The loop of `CertIdentity.ATIName` with any parser. */
  function FirstBy(parse: string -> Option<AtiName>, uris: seq<string>): Option<AtiName> {
    if uris == [] then None else if parse(uris[0]).Some? then parse(uris[0]) else FirstBy(parse, uris[1..])
  }

  lemma {:induction false} FirstNameBy(uris: seq<string>)
    ensures FirstName(uris) == FirstBy(ParseAtiName, uris)
  {
    if uris != [] {
      FirstNameNext(uris);
      FirstNameBy(uris[1..]);
    }
  }

  lemma {:induction false} FirstOfNames(parse: string -> Option<AtiName>, uris: seq<string>) returns (i: nat)
    ensures if FirstBy(parse, uris).Some? then IsFirst(parse, uris, i, FirstBy(parse, uris).value) else NoneParses(parse, uris)
  {
    i := 0;
    if uris != [] {
      NoneParsesNext(parse, uris);
      if parse(uris[0]).None? {
        var k := FirstOfNames(parse, uris[1..]);
        i := k + 1;
        if FirstBy(parse, uris).Some? {
          IsFirstNext(parse, uris, k, FirstBy(parse, uris).value);
        }
      }
    }
  }

  lemma OneIsFirst(parse: string -> Option<AtiName>, uris: seq<string>, i: nat, name: AtiName, k: nat, other: AtiName)
    requires IsFirst(parse, uris, i, name)
    ensures IsFirst(parse, uris, k, other) ==> other == name
    ensures !NoneParses(parse, uris)
  {
    if IsFirst(parse, uris, k, other) {
      assert i == k;
    }
  }

  /** `FirstName` is what the first parseable URI says. */
  lemma {:induction false} FirstNameIs(uris: seq<string>, name: AtiName)
    ensures FirstName(uris) == Some(name) <==> exists i :: IsFirst(ParseAtiName, uris, i, name)
    ensures FirstName(uris).None? <==> NoneParses(ParseAtiName, uris)
  {
    FirstNameBy(uris);
    var k := FirstOfNames(ParseAtiName, uris);
    if i :| IsFirst(ParseAtiName, uris, i, name) {
      OneIsFirst(ParseAtiName, uris, i, name, k, if FirstName(uris).Some? then FirstName(uris).value else name);
    }
    if FirstName(uris).Some? {
      OneIsFirst(ParseAtiName, uris, k, FirstName(uris).value, k, name);
    }
  }

  lemma NamesOfOne(uri: string)
    ensures NamesOf([uri]) == if ParseAtiName(uri).Some? then [ParseAtiName(uri).value] else []
  {
    assert [uri][1..] == [];
  }

  lemma {:induction false} NamesOfMembers(uris: seq<string>, name: AtiName)
    ensures name in NamesOf(uris) <==> name.raw in uris && ParseAtiName(name.raw) == Some(name)
  {
    if uris != [] {
      assert uris == [uris[0]] + uris[1..];
      NamesOfMembers(uris[1..], name);
    }
  }

  lemma NamesOfNext(uris: seq<string>, i: nat)
    requires i < |uris|
    ensures NamesOf(uris[i..]) == (if ParseAtiName(uris[i]).Some? then [ParseAtiName(uris[i]).value] else []) + NamesOf(uris[i + 1..])
  {
    assert uris[i..][1..] == uris[i + 1..];
  }

  /** `CertIdentity.ATINames`. */
  method AtiNames(cert: Cert) returns (names: seq<AtiName>)
    ensures names == NamesOf(cert.uriSans)
  {
    names := [];
    var i := 0;
    while i < |cert.uriSans|
      invariant 0 <= i <= |cert.uriSans| && names + NamesOf(cert.uriSans[i..]) == NamesOf(cert.uriSans)
    {
      NamesOfNext(cert.uriSans, i);
      var name := ParseAtiName(cert.uriSans[i]);
      if name.Some? {
        names := names + [name.value];
      }
      i := i + 1;
    }
  }

  /** `CertIdentity.ATIName`. */
  method FirstAtiName(cert: Cert) returns (name: Option<AtiName>)
    ensures name == FirstName(cert.uriSans)
  {
    var i := 0;
    while i < |cert.uriSans|
      invariant 0 <= i <= |cert.uriSans| && FirstName(cert.uriSans) == FirstName(cert.uriSans[i..])
    {
      NamesOfNext(cert.uriSans, i);
      name := ParseAtiName(cert.uriSans[i]);
      if name.Some? {
        return;
      }
      i := i + 1;
    }
    return None;
  }

  // ---------------------------------------------------------------- the attested record

  predicate Connectable(status: string) {
    status == "ACTIVE" || status == "WARNING" || status == "DEPRECATED"
  }

  /** `IdentityHost`: the agent's own name under either registration model. */
  function IdentityHost(p: Payload): string {
    if p.agentSubHost != "" then p.agentSubHost else p.agentHost
  }

  // ---------------------------------------------------------------- server certificates

  /** `ServerVerifier.verifyWithTLResponse`. */
  function JudgeServer(response: TlResponse, cert: Cert, fqdn: Fqdn): Outcome {
    var p := response.payload;
    var atiName := ParseAtiName(p.agentName);
    if !Connectable(p.agentStatus) then InvalidStatus(response, p.agentStatus)
    else if !MatchesWithRenewal(cert.fingerprint, p.certificates.server, p.certificates.previousServer) then
      FingerprintMismatch(response, p.certificates.server, FingerprintString(cert.fingerprint))
    else if atiName.Some? && !EqualFold(atiName.value.host, fqdn) then AtiNameMismatch(response, p.agentName, fqdn)
    else if atiName.None? && !EqualFold(IdentityHost(p), fqdn) then HostnameMismatch(response, fqdn, [IdentityHost(p)])
    else if p.agentHost != "" && |cert.dnsSans| > 0 && !Covers(Lower, cert.dnsSans, p.agentHost) then
      HostnameMismatch(response, p.agentHost, cert.dnsSans)
    else Verified(response, cert.fingerprint, p.agentStatus == "DEPRECATED", None)
  }

  /** The certificate's fingerprint is the current one, or the previous one while a current one is there. */
  predicate Attested(d: Digest, current: string, previous: string) {
    ParseFingerprint(current) == Some(d) || (ParseFingerprint(previous) == Some(d) && !IsBlank(current))
  }

  /** The agent is in service. */
  predicate InService(status: string) {
    status in {"ACTIVE", "WARNING", "DEPRECATED"}
  }

  /** The record speaks for this name: by the host of its ati:// name, or, if that is none, by its
      sub-host, or by its host if there is no sub-host. */
  predicate SpeaksFor(p: Payload, fqdn: Fqdn) {
    var name := ParseAtiName(p.agentName);
    ToLower(if name.Some? then name.value.host else if p.agentSubHost == "" then p.agentHost else p.agentSubHost) == fqdn
  }

  /** Every DNS name the certificate has is of no use for the access host. */
  predicate HostUncovered(p: Payload, cert: Cert) {
    p.agentHost != "" && cert.dnsSans != [] && !CoveredByLabels(cert.dnsSans, p.agentHost)
  }

  /** Some DNS name of the certificate covers the host, label by label. */
  predicate CoveredByLabels(sans: seq<string>, host: string) {
    exists i :: 0 <= i < |sans| && Normal(Lower, sans[i]) != "" && Normal(Lower, host) != "" && LabelRule(Normal(Lower, sans[i]), Normal(Lower, host))
  }

  predicate VouchesForServer(response: TlResponse, cert: Cert, fqdn: Fqdn) {
    var p := response.payload;
    && InService(p.agentStatus)
    && Attested(cert.fingerprint, p.certificates.server, p.certificates.previousServer)
    && SpeaksFor(p, fqdn) && !HostUncovered(p, cert)
  }

  lemma CoversByLabels(sans: seq<string>, host: string)
    ensures Covers(Lower, sans, host) <==> CoveredByLabels(sans, host)
  {
    forall i | 0 <= i < |sans|
      ensures MatchesDnsName(Lower, sans[i], host) <==>
              Normal(Lower, sans[i]) != "" && Normal(Lower, host) != "" && LabelRule(Normal(Lower, sans[i]), Normal(Lower, host))
    {
      SuffixMatchIsLabelRule(Lower, sans[i], host);
    }
  }

  lemma FoldedName(s: string, fqdn: Fqdn)
    ensures EqualFold(s, fqdn) <==> ToLower(s) == fqdn
  {
    FqdnIsNormal(fqdn);
  }

  /** The checks of the record's name as the code makes them. */
  predicate NameAccepted(p: Payload, fqdn: Fqdn) {
    match ParseAtiName(p.agentName)
    case Some(name) => EqualFold(name.host, fqdn)
    case None => EqualFold(IdentityHost(p), fqdn)
  }

  lemma AcceptedNames(p: Payload, fqdn: Fqdn)
    ensures NameAccepted(p, fqdn) <==> SpeaksFor(p, fqdn)
  {
    FoldedName(IdentityHost(p), fqdn);
    if ParseAtiName(p.agentName).Some? {
      FoldedName(ParseAtiName(p.agentName).value.host, fqdn);
    }
  }

  lemma ServerChecks(response: TlResponse, cert: Cert, fqdn: Fqdn)
    ensures var p := response.payload;
            JudgeServer(response, cert, fqdn).Verified? <==>
            && Connectable(p.agentStatus)
            && MatchesWithRenewal(cert.fingerprint, p.certificates.server, p.certificates.previousServer)
            && NameAccepted(p, fqdn)
            && (p.agentHost == "" || cert.dnsSans == [] || Covers(Lower, cert.dnsSans, p.agentHost))
  {
  }

  lemma AttestedMatches(d: Digest, current: string, previous: string)
    ensures MatchesWithRenewal(d, current, previous) <==> Attested(d, current, previous)
  {
    RenewalNeedsCurrent(d, current, previous);
  }

  /** What a server certificate is refused with: the first of status, fingerprint, name and access host
      that the record does not vouch for. */
  predicate ServerRefusal(response: TlResponse, cert: Cert, fqdn: Fqdn, o: Outcome) {
    var p := response.payload;
    match o
    case InvalidStatus(r, status) => !InService(p.agentStatus) && r == response && status == p.agentStatus
    case FingerprintMismatch(r, expected, actual) =>
      && InService(p.agentStatus) && !Attested(cert.fingerprint, p.certificates.server, p.certificates.previousServer)
      && r == response && expected == p.certificates.server && ParseFingerprint(actual) == Some(cert.fingerprint)
    case AtiNameMismatch(r, expected, actual) =>
      && InService(p.agentStatus) && Attested(cert.fingerprint, p.certificates.server, p.certificates.previousServer)
      && !SpeaksFor(p, fqdn) && ParseAtiName(p.agentName).Some? && r == response && expected == p.agentName && actual == fqdn
    case HostnameMismatch(r, expected, actuals) =>
      && InService(p.agentStatus) && Attested(cert.fingerprint, p.certificates.server, p.certificates.previousServer)
      && r == response
      && if SpeaksFor(p, fqdn) then HostUncovered(p, cert) && expected == p.agentHost && actuals == cert.dnsSans
         else ParseAtiName(p.agentName).None? && expected == fqdn &&
              actuals == [if p.agentSubHost == "" then p.agentHost else p.agentSubHost]
    case _ => false
  }

  lemma ServerAccepted(response: TlResponse, cert: Cert, fqdn: Fqdn)
    ensures var o := JudgeServer(response, cert, fqdn);
            && (o.Verified? <==> VouchesForServer(response, cert, fqdn))
            && (o.Verified? ==> o == Verified(response, cert.fingerprint, response.payload.agentStatus == "DEPRECATED", None))
  {
    var p := response.payload;
    ServerChecks(response, cert, fqdn);
    AttestedMatches(cert.fingerprint, p.certificates.server, p.certificates.previousServer);
    CoversByLabels(cert.dnsSans, p.agentHost);
    AcceptedNames(p, fqdn);
  }

  lemma RefusedEarly(response: TlResponse, cert: Cert, fqdn: Fqdn)
    ensures var p, o := response.payload, JudgeServer(response, cert, fqdn);
            var attested := MatchesWithRenewal(cert.fingerprint, p.certificates.server, p.certificates.previousServer);
            && (!InService(p.agentStatus) ==> o == InvalidStatus(response, p.agentStatus))
            && (InService(p.agentStatus) && !attested ==>
                  o == FingerprintMismatch(response, p.certificates.server, FingerprintString(cert.fingerprint)))
  {
  }

  lemma RefusedByName(response: TlResponse, cert: Cert, fqdn: Fqdn)
    ensures var p, o := response.payload, JudgeServer(response, cert, fqdn);
            var attested := MatchesWithRenewal(cert.fingerprint, p.certificates.server, p.certificates.previousServer);
            InService(p.agentStatus) && attested && !NameAccepted(p, fqdn) ==>
              o == if ParseAtiName(p.agentName).Some? then AtiNameMismatch(response, p.agentName, fqdn)
                   else HostnameMismatch(response, fqdn, [if p.agentSubHost == "" then p.agentHost else p.agentSubHost])
  {
  }

  lemma RefusedByHost(response: TlResponse, cert: Cert, fqdn: Fqdn)
    ensures var p, o := response.payload, JudgeServer(response, cert, fqdn);
            var attested := MatchesWithRenewal(cert.fingerprint, p.certificates.server, p.certificates.previousServer);
            var covered := p.agentHost == "" || cert.dnsSans == [] || Covers(Lower, cert.dnsSans, p.agentHost);
            InService(p.agentStatus) && attested && NameAccepted(p, fqdn) && !covered ==>
              o == HostnameMismatch(response, p.agentHost, cert.dnsSans)
  {
  }

  lemma RefusalOf(response: TlResponse, cert: Cert, fqdn: Fqdn, o: Outcome)
    requires !VouchesForServer(response, cert, fqdn)
    requires var p := response.payload;
             var attested := Attested(cert.fingerprint, p.certificates.server, p.certificates.previousServer);
             && (!InService(p.agentStatus) ==> o == InvalidStatus(response, p.agentStatus))
             && (InService(p.agentStatus) && !attested ==>
                   o == FingerprintMismatch(response, p.certificates.server, FingerprintString(cert.fingerprint)))
             && (InService(p.agentStatus) && attested && !SpeaksFor(p, fqdn) ==>
                   o == if ParseAtiName(p.agentName).Some? then AtiNameMismatch(response, p.agentName, fqdn)
                        else HostnameMismatch(response, fqdn, [if p.agentSubHost == "" then p.agentHost else p.agentSubHost]))
             && (InService(p.agentStatus) && attested && SpeaksFor(p, fqdn) && HostUncovered(p, cert) ==>
                   o == HostnameMismatch(response, p.agentHost, cert.dnsSans))
    ensures ServerRefusal(response, cert, fqdn, o)
  {
    FingerprintRoundTrip(cert.fingerprint);
  }

  lemma ServerRefused(response: TlResponse, cert: Cert, fqdn: Fqdn)
    ensures VouchesForServer(response, cert, fqdn) || ServerRefusal(response, cert, fqdn, JudgeServer(response, cert, fqdn))
  {
    var p := response.payload;
    AttestedMatches(cert.fingerprint, p.certificates.server, p.certificates.previousServer);
    CoversByLabels(cert.dnsSans, p.agentHost);
    AcceptedNames(p, fqdn);
    RefusedEarly(response, cert, fqdn);
    RefusedByName(response, cert, fqdn);
    RefusedByHost(response, cert, fqdn);
    if !VouchesForServer(response, cert, fqdn) {
      RefusalOf(response, cert, fqdn, JudgeServer(response, cert, fqdn));
    }
  }

  /** A server certificate is accepted iff the record vouches for it: status, fingerprint, name and
      access host, all four; the outcome names the response, the digest and whether the agent is
      deprecated. Otherwise it is refused for the first of the four that fails. */
  lemma {:induction false} ServerVerdict(response: TlResponse, cert: Cert, fqdn: Fqdn)
    ensures var o := JudgeServer(response, cert, fqdn);
            if VouchesForServer(response, cert, fqdn)
            then o == Verified(response, cert.fingerprint, response.payload.agentStatus == "DEPRECATED", None)
            else ServerRefusal(response, cert, fqdn, o)
  {
    ServerAccepted(response, cert, fqdn);
    ServerRefused(response, cert, fqdn);
  }

  // ---------------------------------------------------------------- client certificates

  predicate NamedBy(uris: seq<string>, agentName: string) {
    exists i :: 0 <= i < |NamesOf(uris)| && EqualFold(agentName, NamesOf(uris)[i].raw)
  }

  function FirstRaw(uris: seq<string>): string {
    if FirstName(uris).Some? then FirstName(uris).value.raw else ""
  }

  function JudgeClient(response: TlResponse, cert: Cert): Outcome {
    var p := response.payload;
    if !Connectable(p.agentStatus) then InvalidStatus(response, p.agentStatus)
    else if !MatchesWithRenewal(cert.fingerprint, p.certificates.identity, p.certificates.previousIdentity) then
      FingerprintMismatch(response, p.certificates.identity, FingerprintString(cert.fingerprint))
    else if !NamedBy(cert.uriSans, p.agentName) then AtiNameMismatch(response, p.agentName, FirstRaw(cert.uriSans))
    else Verified(response, cert.fingerprint, p.agentStatus == "DEPRECATED", None)
  }

  /** The loop of `ClientVerifier.verifyWithTLResponse` over the certificate's names. */
  method IsNamedBy(names: seq<AtiName>, agentName: string) returns (matched: bool)
    ensures matched <==> exists i :: 0 <= i < |names| && EqualFold(agentName, names[i].raw)
  {
    var i := 0;
    while i < |names|
      invariant 0 <= i <= |names| && forall j :: 0 <= j < i ==> !EqualFold(agentName, names[j].raw)
    {
      if EqualFold(agentName, names[i].raw) {
        return true;
      }
      i := i + 1;
    }
    return false;
  }

  /** `ClientVerifier.verifyWithTLResponse`. */
  method VerifyClientWithResponse(response: TlResponse, cert: Cert) returns (outcome: Outcome)
    ensures outcome == JudgeClient(response, cert)
  {
    var p := response.payload;
    if !Connectable(p.agentStatus) {
      return InvalidStatus(response, p.agentStatus);
    }
    if !MatchesWithRenewal(cert.fingerprint, p.certificates.identity, p.certificates.previousIdentity) {
      return FingerprintMismatch(response, p.certificates.identity, FingerprintString(cert.fingerprint));
    }
    var names := AtiNames(cert);
    var matched := IsNamedBy(names, p.agentName);
    if !matched {
      var first := FirstAtiName(cert);
      return AtiNameMismatch(response, p.agentName, if first.Some? then first.value.raw else "");
    }
    return Verified(response, cert.fingerprint, p.agentStatus == "DEPRECATED", None);
  }

  /** Some URI of the certificate is a well-formed ati:// name and, up to case, the attested one. */
  predicate CarriesName(uris: seq<string>, agentName: string) {
    exists i :: 0 <= i < |uris| && ParseAtiName(uris[i]).Some? && ToLower(agentName) == ToLower(uris[i])
  }

  predicate VouchesForClient(response: TlResponse, cert: Cert) {
    var p := response.payload;
    && InService(p.agentStatus)
    && Attested(cert.fingerprint, p.certificates.identity, p.certificates.previousIdentity)
    && CarriesName(cert.uriSans, p.agentName)
  }

  lemma NamedCarries(uris: seq<string>, name: AtiName, agentName: string)
    requires name in NamesOf(uris) && EqualFold(agentName, name.raw)
    ensures CarriesName(uris, agentName)
  {
    NamesOfMembers(uris, name);
  }

  lemma {:induction false} CarriesNamed(uris: seq<string>, uri: string, agentName: string)
    requires uri in uris && ParseAtiName(uri).Some? && EqualFold(agentName, uri)
    ensures NamedBy(uris, agentName)
  {
    var name := ParseAtiName(uri).value;
    NamesOfMembers(uris, name);
    assert name in NamesOf(uris);
  }

  lemma NamedByCarries(uris: seq<string>, agentName: string)
    ensures NamedBy(uris, agentName) <==> CarriesName(uris, agentName)
  {
    if NamedBy(uris, agentName) {
      var i :| 0 <= i < |NamesOf(uris)| && EqualFold(agentName, NamesOf(uris)[i].raw);
      NamedCarries(uris, NamesOf(uris)[i], agentName);
    }
    if CarriesName(uris, agentName) {
      var i :| 0 <= i < |uris| && ParseAtiName(uris[i]).Some? && ToLower(agentName) == ToLower(uris[i]);
      CarriesNamed(uris, uris[i], agentName);
    }
  }

  predicate ClientRefusal(response: TlResponse, cert: Cert, o: Outcome) {
    var p := response.payload;
    match o
    case InvalidStatus(r, status) => !InService(p.agentStatus) && r == response && status == p.agentStatus
    case FingerprintMismatch(r, expected, actual) =>
      && InService(p.agentStatus) && !Attested(cert.fingerprint, p.certificates.identity, p.certificates.previousIdentity)
      && r == response && expected == p.certificates.identity && ParseFingerprint(actual) == Some(cert.fingerprint)
    case AtiNameMismatch(r, expected, _) =>
      && InService(p.agentStatus) && Attested(cert.fingerprint, p.certificates.identity, p.certificates.previousIdentity)
      && !CarriesName(cert.uriSans, p.agentName) && r == response && expected == p.agentName
    case _ => false
  }

  /** A client certificate likewise, by status, fingerprint and the names it carries. */
  lemma ClientVerdict(response: TlResponse, cert: Cert)
    ensures var o := JudgeClient(response, cert);
            if VouchesForClient(response, cert)
            then o == Verified(response, cert.fingerprint, response.payload.agentStatus == "DEPRECATED", None)
            else ClientRefusal(response, cert, o)
  {
    var p := response.payload;
    AttestedMatches(cert.fingerprint, p.certificates.identity, p.certificates.previousIdentity);
    NamedByCarries(cert.uriSans, p.agentName);
    FingerprintRoundTrip(cert.fingerprint);
  }
}
