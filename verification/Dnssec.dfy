/** The DNSSEC chain walk: from the zone that signed a record set up to the root trust anchor.
    Signature checking, key tags and DS digests are parameters, and so is the resolver. */
module Dnssec {
  import opened Text
  import opened DnsNames

  datatype RR =
    | Dnskey(name: string, ttl: nat, flags: nat, material: string)
    | Ds(name: string, ttl: nat, digestType: nat, digest: string)
    | Rrsig(name: string, ttl: nat, covered: nat, labels: nat, keyTag: nat, signer: string, signature: string)
    | Other(name: string, ttl: nat, rdata: string)

  type Signature = rr: RR | rr.Rrsig? witness Rrsig("", 0, 0, 0, 0, "", "")

  const TYPE_DS: nat := 43
  const TYPE_DNSKEY: nat := 48
  const KSK_FLAGS: nat := 257
  const MAX_KEY_TTL: nat := 86400

  datatype Question = Question(name: string, rrType: nat)

  /** A resolver that answers each question the same way, the cryptography, and the trust anchor. */
  datatype Env = Env(
    resolve: Question -> Option<seq<RR>>,
    tagOf: RR -> nat,
    verifies: (RR, RR, seq<RR>) -> bool,
    digestOf: (RR, nat) -> Option<string>,
    anchorType: nat,
    anchorDigest: string)

  datatype Reason =
    | KeyQueryFailed | RrsetUnverified | KeySigQueryFailed | KeySetUnsigned | KeySetUnverified
    | DsQueryFailed | NoKskMatchesDs | DsUnsigned | AnchorMismatch

  datatype Verdict = Secure | Insecure | Bogus(reason: Reason)

  // ---------------------------------------------------------------- what an answer holds

  function Select(rrs: seq<RR>, p: RR -> bool): (r: seq<RR>)
    ensures forall rr :: rr in r <==> rr in rrs && p(rr)
  {
    if rrs == [] then []
    else if p(rrs[|rrs| - 1]) then Select(rrs[..|rrs| - 1], p) + [rrs[|rrs| - 1]]
    else Select(rrs[..|rrs| - 1], p)
  }

  /** What is selected stands in the order of the answer: an answer is selected from part by part, and record by record. */
  lemma {:induction false} SelectConcat(a: seq<RR>, b: seq<RR>, p: RR -> bool)
    ensures Select(a + b, p) == Select(a, p) + Select(b, p)
    ensures forall rr :: Select([rr], p) == if p(rr) then [rr] else []
  {
    forall rr ensures Select([rr], p) == if p(rr) then [rr] else [] {
      assert [rr][..0] == [];
    }
    if b == [] {
      assert a + b == a;
    } else {
      var n := |b| - 1;
      assert (a + b)[..|a + b| - 1] == a + b[..n];
      SelectConcat(a, b[..n], p);
    }
  }

  function KeysIn(rrs: seq<RR>): (r: seq<RR>)
    ensures forall rr :: rr in r <==> rr in rrs && rr.Dnskey?
  {
    Select(rrs, (rr: RR) => rr.Dnskey?)
  }

  function DsIn(rrs: seq<RR>): (r: seq<RR>)
    ensures forall rr :: rr in r <==> rr in rrs && rr.Ds?
  {
    Select(rrs, (rr: RR) => rr.Ds?)
  }

  function SigsIn(rrs: seq<RR>, covered: nat): (r: seq<RR>)
    ensures forall rr :: rr in r <==> rr in rrs && rr.Rrsig? && rr.covered == covered
  {
    Select(rrs, (rr: RR) => rr.Rrsig? && rr.covered == covered)
  }

  function Ask(env: Env, zone: string, rrType: nat): Option<seq<RR>> {
    env.resolve(Question(Fqdn(zone), rrType))
  }

  function KeysOf(env: Env, zone: string): (r: Option<seq<RR>>)
    ensures r.Some? ==> forall k :: k in r.value ==> k.Dnskey?
  {
    match Ask(env, zone, TYPE_DNSKEY)
    case Some(rrs) => Some(KeysIn(rrs))
    case None => None
  }

  /** The smallest TTL of the keys, at most a day. */
  function MinTtl(keys: seq<RR>): (ttl: nat)
    ensures ttl <= MAX_KEY_TTL && forall k :: k in keys ==> ttl <= k.ttl
    ensures ttl == MAX_KEY_TTL || exists k :: k in keys && ttl == k.ttl
  {
    if keys == [] then MAX_KEY_TTL
    else
      var last, rest := keys[|keys| - 1], MinTtl(keys[..|keys| - 1]);
      if last.ttl < rest then last.ttl else rest
  }

  // ---------------------------------------------------------------- the checks of one zone

  /** The record set under the name its signature was made for: the wildcard, when the signature
      covers fewer labels than the owner has. */
  function SignedForm(rrset: seq<RR>, sig: Signature): (r: seq<RR>)
    ensures |r| == |rrset|
  {
    if rrset != [] && sig.labels < CountLabel(rrset[0].name) then
      var owner := WildcardOwner(rrset[0].name, sig.labels);
      seq(|rrset|, i requires 0 <= i < |rrset| => rrset[i].(name := owner))
    else rrset
  }

  predicate SignsRrset(env: Env, key: RR, rrset: seq<RR>, sig: Signature) {
    env.tagOf(key) == sig.keyTag && env.verifies(sig, key, SignedForm(rrset, sig))
  }

  predicate IsKsk(key: RR) {
    key.Dnskey? && key.flags == KSK_FLAGS
  }

  predicate SignsKeySet(env: Env, key: RR, sig: RR, keySet: seq<RR>) {
    sig.Rrsig? && IsKsk(key) && env.tagOf(key) == sig.keyTag && env.verifies(sig, key, keySet)
  }

  predicate HasDigest(env: Env, key: RR, digestType: nat, digest: string) {
    IsKsk(key) &&
    var computed := env.digestOf(key, digestType);
    computed.Some? && EqualFold(computed.value, digest)
  }

  predicate MatchesDs(env: Env, key: RR, ds: RR) {
    ds.Ds? && HasDigest(env, key, ds.digestType, ds.digest)
  }

  ghost predicate SomeKeySigns(env: Env, keys: seq<RR>, rrset: seq<RR>, sig: Signature) {
    exists k :: k in keys && SignsRrset(env, k, rrset, sig)
  }

  ghost predicate SomeKskSigns(env: Env, keys: seq<RR>, sigs: seq<RR>, keySet: seq<RR>) {
    exists s, k :: s in sigs && k in keys && SignsKeySet(env, k, s, keySet)
  }

  ghost predicate SomeKskMatches(env: Env, keys: seq<RR>, dss: seq<RR>) {
    exists d, k :: d in dss && k in keys && MatchesDs(env, k, d)
  }

  ghost predicate SomeKskAnchored(env: Env, keys: seq<RR>) {
    exists k :: k in keys && HasDigest(env, k, env.anchorType, env.anchorDigest)
  }

  /** `validateDNSKEYSet`: None when the key set is signed by one of the zone's KSKs. */
  ghost function KeySetError(env: Env, zone: string, keys: seq<RR>): Option<Reason> {
    match Ask(env, zone, TYPE_DNSKEY)
    case None => Some(KeySigQueryFailed)
    case Some(rrs) =>
      if SigsIn(rrs, TYPE_DNSKEY) == [] then Some(KeySetUnsigned)
      else if SomeKskSigns(env, keys, SigsIn(rrs, TYPE_DNSKEY), KeysIn(rrs)) then None
      else Some(KeySetUnverified)
  }

  /** The walk without any cache. It ends for every signer name. */
  ghost function ZoneChain(env: Env, zone: string, rrset: seq<RR>, sig: Signature): Verdict
    decreases Escapes(zone), Height(zone), 1
  {
    match KeysOf(env, zone)
    case None => Bogus(KeyQueryFailed)
    case Some(keys) =>
      if keys == [] then Insecure
      else if !SomeKeySigns(env, keys, rrset, sig) then Bogus(RrsetUnverified)
      else if KeySetError(env, zone, keys).Some? then Bogus(KeySetError(env, zone, keys).value)
      else if zone == "." then (if SomeKskAnchored(env, keys) then Secure else Bogus(AnchorMismatch))
      else DsChain(env, zone, keys)
  }

  ghost function DsChain(env: Env, zone: string, keys: seq<RR>): Verdict
    requires zone != "."
    decreases Escapes(zone), Height(zone), 0
  {
    match Ask(env, zone, TYPE_DS)
    case None => Bogus(DsQueryFailed)
    case Some(rrs) =>
      if DsIn(rrs) == [] then Insecure
      else if !SomeKskMatches(env, keys, DsIn(rrs)) then Bogus(NoKskMatchesDs)
      else if SigsIn(rrs, TYPE_DS) == [] then Bogus(DsUnsigned)
      else
        ParentIsCloser(zone);
        ZoneChain(env, ParentOf(zone), DsIn(rrs), SigsIn(rrs, TYPE_DS)[0])
  }

  // ---------------------------------------------------------------- witness chains

  /** The name a signature over n labels was made for, by section 5.3.2 of RFC 4035. The code takes names that are
      not valid, and zero labels, to the same construction. */
  predicate IsWildcardName(name: string, owner: string, n: nat)
    requires n < |Labels(owner)|
  {
    if ValidName(owner) && n >= 1 then IsFqdn(name) && name != "." && Labels(name) == ["*"] + Rightmost(Labels(owner), n)
    else name == Starred(Rightmost(Labels(owner), n))
  }

  /** What a signature over `n` labels was made for: the set itself, or when its owner has more labels the set under the
      wildcard name, each record otherwise unchanged. */
  predicate IsSignedForm(rrset: seq<RR>, form: seq<RR>, n: nat) {
    && |form| == |rrset|
    && (forall i :: 0 <= i < |rrset| ==> form[i] == rrset[i].(name := form[i].name))
    && if rrset == [] || n >= |Labels(rrset[0].name)| + (if rrset[0].name == "" then 1 else 0) then form == rrset
       else forall i :: 0 <= i < |form| ==> IsOwnerName(form[i].name, rrset[0].name, n)
  }

  /** The empty owner counts as one label and has none. */
  predicate IsOwnerName(name: string, owner: string, n: nat) {
    if n >= |Labels(owner)| then name == owner else IsWildcardName(name, owner, n)
  }

  lemma SameOwnerName(a: string, owner: string, n: nat)
    ensures IsOwnerName(a, owner, n) <==> a == WildcardOwner(owner, n)
  {
    if n < |Labels(owner)| && ValidName(owner) && n >= 1 {
      OwnerOfSomeLabels(owner, n);
      OwnerIsFqdn(owner, n);
      if IsFqdn(a) && a != "." && Labels(a) == Labels(WildcardOwner(owner, n)) {
        FqdnByLabels(a, WildcardOwner(owner, n));
      }
    }
  }

  lemma RenamedSet(rrset: seq<RR>, form: seq<RR>, name: string)
    ensures form == seq(|rrset|, i requires 0 <= i < |rrset| => rrset[i].(name := name)) <==>
            |form| == |rrset| && forall i :: 0 <= i < |rrset| ==> form[i] == rrset[i].(name := name)
  {
  }

  lemma RenamedByName(rrset: seq<RR>, form: seq<RR>, owner: string, n: nat)
    ensures |form| == |rrset| ==>
            ((forall i :: 0 <= i < |rrset| ==> form[i] == rrset[i].(name := WildcardOwner(owner, n))) <==>
             && (forall i :: 0 <= i < |rrset| ==> form[i] == rrset[i].(name := form[i].name))
             && (forall i :: 0 <= i < |form| ==> IsOwnerName(form[i].name, owner, n)))
  {
    forall i | 0 <= i < |form| ensures IsOwnerName(form[i].name, owner, n) <==> form[i].name == WildcardOwner(owner, n) {
      SameOwnerName(form[i].name, owner, n);
    }
  }

  lemma UnrenamedSet(rrset: seq<RR>)
    ensures forall i :: 0 <= i < |rrset| ==> rrset[i] == rrset[i].(name := rrset[i].name)
  {
  }

  /** `SignedForm` is the one set there is. */
  lemma SignedFormIs(rrset: seq<RR>, form: seq<RR>, sig: Signature)
    ensures IsSignedForm(rrset, form, sig.labels) <==> form == SignedForm(rrset, sig)
  {
    if rrset != [] && sig.labels < CountLabel(rrset[0].name) {
      RenamedSet(rrset, form, WildcardOwner(rrset[0].name, sig.labels));
      RenamedByName(rrset, form, rrset[0].name, sig.labels);
    } else {
      UnrenamedSet(rrset);
    }
  }

  /** The key verifies the signature over the set it was made for. */
  ghost predicate VerifiesSet(env: Env, key: RR, rrset: seq<RR>, sig: Signature) {
    env.tagOf(key) == sig.keyTag && exists form :: IsSignedForm(rrset, form, sig.labels) && env.verifies(sig, key, form)
  }

  lemma SignsMeans(env: Env, key: RR, rrset: seq<RR>, sig: Signature)
    ensures SignsRrset(env, key, rrset, sig) <==> VerifiesSet(env, key, rrset, sig)
  {
    var form := SignedForm(rrset, sig);
    SignedFormIs(rrset, form, sig);
    if VerifiesSet(env, key, rrset, sig) {
      var f :| IsSignedForm(rrset, f, sig.labels) && env.verifies(sig, key, f);
      SignedFormIs(rrset, f, sig);
    }
  }

  /** The digest names this key-signing key: its hexadecimal digits agree in either case. */
  predicate NamesKey(env: Env, key: RR, digestType: nat, digest: string) {
    && key.Dnskey? && key.flags == 257
    && var computed := env.digestOf(key, digestType);
       computed.Some? && ToLower(computed.value) == ToLower(digest)
  }

  /** One zone of the chain: what it signed, with which key; which KSK signed its key set; and
      which KSK is vouched for from above. The code does not ask that these two KSKs coincide. */
  datatype Link = Link(
    zone: string, rrset: seq<RR>, sig: Signature,
    zoneKey: RR, keySetSig: RR, signingKsk: RR, vouchedKsk: RR)

  /** The link in terms of the zone's DNSKEY answer, of what the signatures cover and of the flags of the keys. */
  ghost predicate LinkHolds(env: Env, l: Link) {
    var answer := env.resolve(Question(Fqdn(l.zone), 48));
    && answer.Some?
    && l.zoneKey in answer.value && l.zoneKey.Dnskey? && VerifiesSet(env, l.zoneKey, l.rrset, l.sig)
    && l.keySetSig in answer.value && l.keySetSig.Rrsig? && l.keySetSig.covered == 48
    && l.signingKsk in answer.value && l.signingKsk.Dnskey? && l.signingKsk.flags == 257
    && env.tagOf(l.signingKsk) == l.keySetSig.keyTag && env.verifies(l.keySetSig, l.signingKsk, KeysIn(answer.value))
    && l.vouchedKsk in answer.value && l.vouchedKsk.Dnskey? && l.vouchedKsk.flags == 257
  }

  /** `upper` vouches for `lower`: it is the parent zone, and what it signed is the DS set of the
      lower zone, one record of which names the lower zone's KSK. */
  ghost predicate Vouches(env: Env, lower: Link, upper: Link) {
    var answer := env.resolve(Question(Fqdn(lower.zone), 43));
    && lower.zone != "." && upper.zone == ParentOf(lower.zone)
    && answer.Some? && SigsIn(answer.value, TYPE_DS) != []
    && upper.rrset == DsIn(answer.value) && upper.sig == SigsIn(answer.value, TYPE_DS)[0]
    && exists d :: d in answer.value && d.Ds? && NamesKey(env, lower.vouchedKsk, d.digestType, d.digest)
  }

  ghost predicate AllHold(env: Env, chain: seq<Link>) {
    forall i :: 0 <= i < |chain| ==> LinkHolds(env, chain[i])
  }

  ghost predicate AllVouch(env: Env, chain: seq<Link>) {
    forall i :: 1 <= i < |chain| ==> Vouches(env, chain[i - 1], chain[i])
  }

  predicate EndsAtAnchor(env: Env, chain: seq<Link>)
    requires chain != []
  {
    var top := chain[|chain| - 1];
    top.zone == "." && NamesKey(env, top.vouchedKsk, env.anchorType, env.anchorDigest)
  }

  /** An unbroken chain from the zone that signed `rrset` to the trust anchor. */
  ghost predicate IsChain(env: Env, chain: seq<Link>, zone: string, rrset: seq<RR>, sig: Signature) {
    IsUpward(env, chain) && chain[0].zone == zone && chain[0].rrset == rrset && chain[0].sig == sig
  }

  /** A zone that passes its own checks yields a link for any KSK `v` of it. */
  lemma {:induction false} LinkOf(env: Env, zone: string, rrset: seq<RR>, sig: Signature, v: RR) returns (link: Link)
    requires KeysOf(env, zone).Some? && v in KeysOf(env, zone).value && IsKsk(v)
    requires SomeKeySigns(env, KeysOf(env, zone).value, rrset, sig)
    requires KeySetError(env, zone, KeysOf(env, zone).value).None?
    ensures LinkHolds(env, link)
    ensures link.zone == zone && link.rrset == rrset && link.sig == sig && link.vouchedKsk == v
  {
    var rrs := Ask(env, zone, TYPE_DNSKEY).value;
    var keys := KeysIn(rrs);
    var zoneKey :| zoneKey in keys && SignsRrset(env, zoneKey, rrset, sig);
    var s, k :| s in SigsIn(rrs, TYPE_DNSKEY) && k in keys && SignsKeySet(env, k, s, keys);
    SignsMeans(env, zoneKey, rrset, sig);
    link := Link(zone, rrset, sig, zoneKey, s, k, v);
  }

  lemma LinksOfPrepended(env: Env, link: Link, rest: seq<Link>)
    ensures AllHold(env, [link] + rest) <==> LinkHolds(env, link) && AllHold(env, rest)
  {
    var chain := [link] + rest;
    assert chain[0] == link && forall i :: 0 <= i < |rest| ==> chain[i + 1] == rest[i];
  }

  lemma StepsOfPrepended(env: Env, link: Link, rest: seq<Link>)
    requires rest != []
    ensures AllVouch(env, [link] + rest) <==> Vouches(env, link, rest[0]) && AllVouch(env, rest)
  {
    var chain := [link] + rest;
    assert chain[0] == link && forall i :: 0 <= i < |rest| ==> chain[i + 1] == rest[i];
    if AllVouch(env, chain) {
      forall i | 1 <= i < |rest| ensures Vouches(env, rest[i - 1], rest[i]) {
        assert Vouches(env, chain[i + 1 - 1], chain[i + 1]);
      }
      assert Vouches(env, chain[1 - 1], chain[1]);
    }
    if Vouches(env, link, rest[0]) && AllVouch(env, rest) {
      forall i | 1 <= i < |chain| ensures Vouches(env, chain[i - 1], chain[i]) {
        if i > 1 {
          assert Vouches(env, rest[i - 1 - 1], rest[i - 1]);
        }
      }
    }
  }

  lemma TopOfPrepended(env: Env, link: Link, rest: seq<Link>)
    requires rest != []
    ensures EndsAtAnchor(env, [link] + rest) <==> EndsAtAnchor(env, rest)
  {
    assert ([link] + rest)[|rest|] == rest[|rest| - 1];
  }

  /** The parts of a chain that do not depend on what it starts from. */
  ghost predicate IsUpward(env: Env, chain: seq<Link>) {
    chain != [] && AllHold(env, chain) && AllVouch(env, chain) && EndsAtAnchor(env, chain)
  }

  lemma UpwardOfPrepended(env: Env, link: Link, rest: seq<Link>)
    requires rest != []
    ensures IsUpward(env, [link] + rest) <==> LinkHolds(env, link) && Vouches(env, link, rest[0]) && IsUpward(env, rest)
  {
    LinksOfPrepended(env, link, rest);
    StepsOfPrepended(env, link, rest);
    TopOfPrepended(env, link, rest);
  }

  /** A chain is a link on top of which the rest is a chain. */
  lemma {:induction false} ChainOfPrepended(env: Env, link: Link, rest: seq<Link>)
    requires rest != []
    ensures IsChain(env, [link] + rest, link.zone, link.rrset, link.sig) <==>
            && LinkHolds(env, link) && Vouches(env, link, rest[0])
            && IsChain(env, rest, rest[0].zone, rest[0].rrset, rest[0].sig)
  {
    UpwardOfPrepended(env, link, rest);
  }

  /** The zone passes its own checks. */
  ghost predicate Passes(env: Env, zone: string, rrset: seq<RR>, sig: Signature) {
    && KeysOf(env, zone).Some? && SomeKeySigns(env, KeysOf(env, zone).value, rrset, sig)
    && KeySetError(env, zone, KeysOf(env, zone).value).None?
  }

  /** A zone below the root has its key in a signed DS set, for which the parent has this verdict. */
  ghost predicate LeadsTo(env: Env, zone: string, v: Verdict) {
    var answer := Ask(env, zone, TYPE_DS);
    && KeysOf(env, zone).Some? && answer.Some? && SigsIn(answer.value, TYPE_DS) != []
    && SomeKskMatches(env, KeysOf(env, zone).value, DsIn(answer.value))
    && ZoneChain(env, ParentOf(zone), DsIn(answer.value), SigsIn(answer.value, TYPE_DS)[0]) == v
  }

  /** What the walk asks of a zone, and what it leads on to. */
  lemma SecureZone(env: Env, zone: string, rrset: seq<RR>, sig: Signature)
    ensures ZoneChain(env, zone, rrset, sig) == Secure <==>
            && Passes(env, zone, rrset, sig)
            && (if zone == "." then SomeKskAnchored(env, KeysOf(env, zone).value) else LeadsTo(env, zone, Secure))
  {
    if zone != "." {
      ParentIsCloser(zone);
    }
  }

  lemma {:induction false} SecureHasChain(env: Env, zone: string, rrset: seq<RR>, sig: Signature) returns (chain: seq<Link>)
    requires ZoneChain(env, zone, rrset, sig) == Secure
    ensures IsChain(env, chain, zone, rrset, sig)
    decreases Escapes(zone), Height(zone)
  {
    SecureZone(env, zone, rrset, sig);
    var keys := KeysOf(env, zone).value;
    if zone == "." {
      var v :| v in keys && HasDigest(env, v, env.anchorType, env.anchorDigest);
      var link := LinkOf(env, zone, rrset, sig, v);
      chain := [link];
    } else {
      var answer := Ask(env, zone, TYPE_DS).value;
      var d, v :| d in DsIn(answer) && v in keys && MatchesDs(env, v, d);
      var link := LinkOf(env, zone, rrset, sig, v);
      ParentIsCloser(zone);
      var rest := SecureHasChain(env, ParentOf(zone), DsIn(answer), SigsIn(answer, TYPE_DS)[0]);
      VouchedAbove(env, link, d, rest[0]);
      ChainOfPrepended(env, link, rest);
      chain := [link] + rest;
    }
  }

  lemma VouchedAbove(env: Env, lower: Link, ds: RR, upper: Link)
    requires lower.zone != "." && upper.zone == ParentOf(lower.zone) && Ask(env, lower.zone, TYPE_DS).Some?
    requires var answer := Ask(env, lower.zone, TYPE_DS).value;
             SigsIn(answer, TYPE_DS) != [] && upper.rrset == DsIn(answer) && upper.sig == SigsIn(answer, TYPE_DS)[0]
    requires ds in DsIn(Ask(env, lower.zone, TYPE_DS).value) && MatchesDs(env, lower.vouchedKsk, ds)
    ensures Vouches(env, lower, upper)
  {
  }

  lemma RestOfChain(env: Env, chain: seq<Link>, zone: string, rrset: seq<RR>, sig: Signature)
    requires IsChain(env, chain, zone, rrset, sig) && |chain| >= 2
    ensures IsChain(env, chain[1..], chain[1].zone, chain[1].rrset, chain[1].sig)
  {
    var link, rest := chain[0], chain[1..];
    assert chain == [link] + rest && rest[0] == chain[1];
    ChainOfPrepended(env, link, rest);
  }

  /** A link that holds is a zone that passes its own checks. */
  lemma LinkPasses(env: Env, l: Link)
    requires LinkHolds(env, l)
    ensures Passes(env, l.zone, l.rrset, l.sig) && l.vouchedKsk in KeysOf(env, l.zone).value
  {
    SignsMeans(env, l.zoneKey, l.rrset, l.sig);
    assert SignsRrset(env, l.zoneKey, l.rrset, l.sig);
    assert SignsKeySet(env, l.signingKsk, l.keySetSig, KeysOf(env, l.zone).value);
  }

  lemma VouchedMatches(env: Env, lower: Link, upper: Link)
    requires LinkHolds(env, lower) && Vouches(env, lower, upper)
    ensures Ask(env, lower.zone, TYPE_DS).Some? && upper.rrset == DsIn(Ask(env, lower.zone, TYPE_DS).value)
    ensures SomeKskMatches(env, KeysOf(env, lower.zone).value, upper.rrset)
  {
    var answer := Ask(env, lower.zone, TYPE_DS).value;
    var d :| d in answer && d.Ds? && NamesKey(env, lower.vouchedKsk, d.digestType, d.digest);
    assert MatchesDs(env, lower.vouchedKsk, d) && d in upper.rrset;
  }

  /** The chain goes on above every zone but the root. */
  lemma ChainGoesOn(env: Env, chain: seq<Link>, zone: string, rrset: seq<RR>, sig: Signature)
    requires IsChain(env, chain, zone, rrset, sig)
    ensures zone == "." <==> |chain| == 1
    ensures zone != "." ==> Vouches(env, chain[0], chain[1])
  {
    assert |chain| > 1 ==> Vouches(env, chain[1 - 1], chain[1]);
  }

  lemma {:induction false} ChainIsSecure(env: Env, chain: seq<Link>, zone: string, rrset: seq<RR>, sig: Signature)
    requires IsChain(env, chain, zone, rrset, sig)
    ensures ZoneChain(env, zone, rrset, sig) == Secure
    decreases |chain|
  {
    LinkPasses(env, chain[0]);
    ChainGoesOn(env, chain, zone, rrset, sig);
    SecureZone(env, zone, rrset, sig);
    if zone == "." {
      assert SomeKskAnchored(env, KeysOf(env, zone).value);
    } else {
      RestOfChain(env, chain, zone, rrset, sig);
      ChainIsSecure(env, chain[1..], chain[1].zone, chain[1].rrset, chain[1].sig);
      VouchedMatches(env, chain[0], chain[1]);
      assert LeadsTo(env, zone, Secure);
    }
  }

  /** Main theorem: the walk answers "secure" exactly when an unbroken chain of verified links
      leads from the signer zone to the trust anchor. */
  lemma {:induction false} SecureIffChain(env: Env, zone: string, rrset: seq<RR>, sig: Signature)
    ensures ZoneChain(env, zone, rrset, sig) == Secure <==> exists chain :: IsChain(env, chain, zone, rrset, sig)
  {
    if ZoneChain(env, zone, rrset, sig) == Secure {
      var chain := SecureHasChain(env, zone, rrset, sig);
    }
    if exists chain :: IsChain(env, chain, zone, rrset, sig) {
      var chain :| IsChain(env, chain, zone, rrset, sig);
      ChainIsSecure(env, chain, zone, rrset, sig);
    }
  }

  // ---------------------------------------------------------------- every verdict

  /** Some key of the zone verifies the signature over the set. */
  ghost predicate ZoneSigns(env: Env, zone: string, rrset: seq<RR>, sig: Signature) {
    var answer := env.resolve(Question(Fqdn(zone), 48));
    answer.Some? && exists k :: k in answer.value && k.Dnskey? && VerifiesSet(env, k, rrset, sig)
  }

  /** Some signature over the zone's key set is that of a KSK among them. */
  ghost predicate ZoneSelfSigned(env: Env, zone: string) {
    var answer := env.resolve(Question(Fqdn(zone), 48));
    answer.Some? && exists s, k :: s in answer.value && k in answer.value && IsKeySetSig(env, k, s, KeysIn(answer.value))
  }

  predicate IsKeySetSig(env: Env, k: RR, s: RR, keySet: seq<RR>) {
    && s.Rrsig? && s.covered == 48 && k.Dnskey? && k.flags == 257
    && env.tagOf(k) == s.keyTag && env.verifies(s, k, keySet)
  }

  /** One of the DS records above the zone names one of its KSKs. */
  ghost predicate ZoneNamedAbove(env: Env, zone: string) {
    var keys, answer := env.resolve(Question(Fqdn(zone), 48)), env.resolve(Question(Fqdn(zone), 43));
    && keys.Some? && answer.Some?
    && exists d, k :: d in answer.value && k in keys.value && d.Ds? && NamesKey(env, k, d.digestType, d.digest)
  }

  ghost predicate ZoneNamedByAnchor(env: Env, zone: string) {
    var keys := env.resolve(Question(Fqdn(zone), 48));
    keys.Some? && exists k :: k in keys.value && NamesKey(env, k, env.anchorType, env.anchorDigest)
  }

  /** The zone and its keys give this verdict at once, without the zone above. */
  ghost predicate EndsHere(env: Env, zone: string, rrset: seq<RR>, sig: Signature, v: Verdict) {
    var keys, ds := env.resolve(Question(Fqdn(zone), 48)), env.resolve(Question(Fqdn(zone), 43));
    var signed := ZoneSigns(env, zone, rrset, sig);
    var passes := signed && ZoneSelfSigned(env, zone);
    match v
    case Secure => passes && zone == "." && ZoneNamedByAnchor(env, zone)
    case Insecure => NoKeys(env, zone) || (passes && NoDs(env, zone))
    case Bogus(reason) =>
      match reason
      case KeyQueryFailed => keys.None?
      case RrsetUnverified => keys.Some? && !NoKeys(env, zone) && !signed
      case KeySigQueryFailed => false
      case KeySetUnsigned => signed && SigsIn(keys.value, 48) == []
      case KeySetUnverified => signed && SigsIn(keys.value, 48) != [] && !ZoneSelfSigned(env, zone)
      case AnchorMismatch => passes && zone == "." && !ZoneNamedByAnchor(env, zone)
      case DsQueryFailed => passes && zone != "." && ds.None?
      case NoKskMatchesDs => passes && zone != "." && ds.Some? && !NoDs(env, zone) && !ZoneNamedAbove(env, zone)
      case DsUnsigned => passes && zone != "." && ZoneNamedAbove(env, zone) && SigsIn(ds.value, 43) == []
  }

  /** The zone answers without any key. */
  ghost predicate NoKeys(env: Env, zone: string) {
    var answer := env.resolve(Question(Fqdn(zone), 48));
    answer.Some? && forall rr :: rr in answer.value ==> !rr.Dnskey?
  }

  /** The zone is delegated without any DS record. */
  ghost predicate NoDs(env: Env, zone: string) {
    var answer := env.resolve(Question(Fqdn(zone), 43));
    zone != "." && answer.Some? && forall rr :: rr in answer.value ==> !rr.Ds?
  }

  lemma NoneOfThem(env: Env, zone: string)
    ensures NoKeys(env, zone) <==> KeysOf(env, zone) == Some([])
    ensures zone != "." ==> (NoDs(env, zone) <==> Ask(env, zone, TYPE_DS).Some? && DsIn(Ask(env, zone, TYPE_DS).value) == [])
  {
    var k, d := Ask(env, zone, TYPE_DNSKEY), Ask(env, zone, TYPE_DS);
    if k.Some? && KeysIn(k.value) != [] {
      assert KeysIn(k.value)[0] in KeysIn(k.value);
    }
    if d.Some? && DsIn(d.value) != [] {
      assert DsIn(d.value)[0] in DsIn(d.value);
    }
  }

  lemma ZoneSignsIff(env: Env, zone: string, rrset: seq<RR>, sig: Signature)
    ensures ZoneSigns(env, zone, rrset, sig) <==> KeysOf(env, zone).Some? && SomeKeySigns(env, KeysOf(env, zone).value, rrset, sig)
    ensures ZoneSigns(env, zone, rrset, sig) ==> !NoKeys(env, zone)
  {
    forall k ensures SignsRrset(env, k, rrset, sig) <==> VerifiesSet(env, k, rrset, sig) {
      SignsMeans(env, k, rrset, sig);
    }
  }

  lemma SelfSignedIff(env: Env, zone: string)
    ensures ZoneSelfSigned(env, zone) <==>
            KeysOf(env, zone).Some? && SomeKskSigns(env, KeysOf(env, zone).value, SigsIn(Ask(env, zone, 48).value, 48), KeysOf(env, zone).value)
    ensures ZoneSelfSigned(env, zone) ==> SigsIn(Ask(env, zone, 48).value, 48) != []
  {
    var answer := Ask(env, zone, 48);
    if answer.Some? {
      forall s, k ensures k in KeysIn(answer.value) && s in SigsIn(answer.value, 48) && SignsKeySet(env, k, s, KeysIn(answer.value)) <==>
                          s in answer.value && k in answer.value && IsKeySetSig(env, k, s, KeysIn(answer.value))
      {
      }
    }
  }

  lemma NamedIff(env: Env, zone: string)
    ensures ZoneNamedAbove(env, zone) <==>
            && KeysOf(env, zone).Some? && Ask(env, zone, TYPE_DS).Some?
            && SomeKskMatches(env, KeysOf(env, zone).value, DsIn(Ask(env, zone, TYPE_DS).value))
    ensures ZoneNamedByAnchor(env, zone) <==> KeysOf(env, zone).Some? && SomeKskAnchored(env, KeysOf(env, zone).value)
  {
    forall d, k ensures MatchesDs(env, k, d) <==> d.Ds? && NamesKey(env, k, d.digestType, d.digest) {
    }
  }

  /** The checks of a zone in the order the code makes them. */
  lemma ZoneMeans(env: Env, zone: string, rrset: seq<RR>, sig: Signature)
    ensures NoKeys(env, zone) <==> KeysOf(env, zone) == Some([])
    ensures KeysOf(env, zone).Some? ==> (ZoneSigns(env, zone, rrset, sig) <==> SomeKeySigns(env, KeysOf(env, zone).value, rrset, sig))
    ensures KeysOf(env, zone).Some? ==>
              KeySetError(env, zone, KeysOf(env, zone).value) ==
              if SigsIn(Ask(env, zone, 48).value, 48) == [] then Some(KeySetUnsigned)
              else if ZoneSelfSigned(env, zone) then None else Some(KeySetUnverified)
    ensures ZoneSelfSigned(env, zone) ==> KeysOf(env, zone).Some? && SigsIn(Ask(env, zone, 48).value, 48) != []
    ensures ZoneSigns(env, zone, rrset, sig) ==> KeysOf(env, zone).Some? && !NoKeys(env, zone)
  {
    NoneOfThem(env, zone);
    ZoneSignsIff(env, zone, rrset, sig);
    SelfSignedIff(env, zone);
  }

  lemma PassesMeans(env: Env, zone: string, rrset: seq<RR>, sig: Signature)
    ensures Passes(env, zone, rrset, sig) <==> ZoneSigns(env, zone, rrset, sig) && ZoneSelfSigned(env, zone)
  {
    ZoneMeans(env, zone, rrset, sig);
  }

  /** A zone that does not pass gives its verdict at once. */
  lemma FailingZone(env: Env, zone: string, rrset: seq<RR>, sig: Signature, v: Verdict)
    requires !Passes(env, zone, rrset, sig)
    ensures ZoneChain(env, zone, rrset, sig) == v <==> EndsHere(env, zone, rrset, sig, v)
  {
    PassesMeans(env, zone, rrset, sig);
    ZoneMeans(env, zone, rrset, sig);
  }

  lemma RootZone(env: Env, rrset: seq<RR>, sig: Signature, v: Verdict)
    requires Passes(env, ".", rrset, sig)
    ensures ZoneChain(env, ".", rrset, sig) == v <==> EndsHere(env, ".", rrset, sig, v)
  {
    PassesMeans(env, ".", rrset, sig);
    ZoneMeans(env, ".", rrset, sig);
    NamedIff(env, ".");
  }

  lemma PassingZone(env: Env, zone: string, rrset: seq<RR>, sig: Signature, v: Verdict)
    requires Passes(env, zone, rrset, sig) && zone != "."
    ensures ZoneChain(env, zone, rrset, sig) == DsChain(env, zone, KeysOf(env, zone).value)
    ensures EndsHere(env, zone, rrset, sig, v) <==>
            || (v == Insecure && NoDs(env, zone))
            || (v == Bogus(DsQueryFailed) && Ask(env, zone, 43).None?)
            || (v == Bogus(NoKskMatchesDs) && Ask(env, zone, 43).Some? && !NoDs(env, zone) && !ZoneNamedAbove(env, zone))
            || (v == Bogus(DsUnsigned) && ZoneNamedAbove(env, zone) && SigsIn(Ask(env, zone, 43).value, 43) == [])
  {
    PassesMeans(env, zone, rrset, sig);
    ZoneMeans(env, zone, rrset, sig);
  }

  lemma DelegatedZone(env: Env, zone: string, rrset: seq<RR>, sig: Signature, v: Verdict)
    requires Passes(env, zone, rrset, sig) && zone != "."
    ensures DsChain(env, zone, KeysOf(env, zone).value) == v <==>
            || (v == Insecure && NoDs(env, zone))
            || (v == Bogus(DsQueryFailed) && Ask(env, zone, 43).None?)
            || (v == Bogus(NoKskMatchesDs) && Ask(env, zone, 43).Some? && !NoDs(env, zone) && !ZoneNamedAbove(env, zone))
            || (v == Bogus(DsUnsigned) && ZoneNamedAbove(env, zone) && SigsIn(Ask(env, zone, 43).value, 43) == [])
            || LeadsTo(env, zone, v)
  {
    NoneOfThem(env, zone);
    NamedIff(env, zone);
    ParentIsCloser(zone);
    NamedHasDs(env, zone);
  }

  lemma NamedHasDs(env: Env, zone: string)
    ensures ZoneNamedAbove(env, zone) ==> !NoDs(env, zone)
  {
  }

  /** Each verdict comes from the zone itself or from the zone above it. */
  lemma {:induction false} VerdictOfZone(env: Env, zone: string, rrset: seq<RR>, sig: Signature, v: Verdict)
    ensures ZoneChain(env, zone, rrset, sig) == v <==>
            || EndsHere(env, zone, rrset, sig, v)
            || (zone != "." && Passes(env, zone, rrset, sig) && LeadsTo(env, zone, v))
  {
    if !Passes(env, zone, rrset, sig) {
      FailingZone(env, zone, rrset, sig, v);
    } else if zone == "." {
      RootZone(env, rrset, sig, v);
    } else {
      PassingZone(env, zone, rrset, sig, v);
      DelegatedZone(env, zone, rrset, sig, v);
    }
  }

  /** A signed DS set names the zone's KSK. */
  ghost predicate HasDs(env: Env, l: Link) {
    var answer := env.resolve(Question(Fqdn(l.zone), 43));
    && l.zone != "." && answer.Some? && SigsIn(answer.value, TYPE_DS) != []
    && exists d :: d in answer.value && d.Ds? && NamesKey(env, l.vouchedKsk, d.digestType, d.digest)
  }

  /** The zone above this one gives the verdict on its DS set. */
  ghost predicate EndsAbove(env: Env, l: Link, v: Verdict) {
    && HasDs(env, l)
    && var answer := env.resolve(Question(Fqdn(l.zone), 43)).value;
       EndsHere(env, ParentOf(l.zone), DsIn(answer), SigsIn(answer, TYPE_DS)[0], v)
  }

  /** Each link holds and is vouched for by the next, and the zone above the last gives the verdict. */
  ghost predicate LeadsUpward(env: Env, link: Link, rest: seq<Link>, v: Verdict)
    decreases |rest|
  {
    LinkHolds(env, link) &&
    if rest == [] then EndsAbove(env, link, v) else Vouches(env, link, rest[0]) && LeadsUpward(env, rest[0], rest[1..], v)
  }

  /** The zone gives the verdict, or verified links lead from it to a zone that does. */
  ghost predicate IsChainTo(env: Env, chain: seq<Link>, zone: string, rrset: seq<RR>, sig: Signature, v: Verdict) {
    if chain == [] then EndsHere(env, zone, rrset, sig, v)
    else LeadsUpward(env, chain[0], chain[1..], v) && chain[0].zone == zone && chain[0].rrset == rrset && chain[0].sig == sig
  }

  lemma LinkForDs(env: Env, zone: string, rrset: seq<RR>, sig: Signature, v: Verdict) returns (link: Link)
    requires zone != "." && Passes(env, zone, rrset, sig) && LeadsTo(env, zone, v)
    ensures LinkHolds(env, link) && link.zone == zone && link.rrset == rrset && link.sig == sig && HasDs(env, link)
  {
    var answer := Ask(env, zone, TYPE_DS).value;
    var d, k :| d in DsIn(answer) && k in KeysOf(env, zone).value && MatchesDs(env, k, d);
    link := LinkOf(env, zone, rrset, sig, k);
    assert d in answer && NamesKey(env, link.vouchedKsk, d.digestType, d.digest);
  }

  lemma {:induction false} VerdictHasChain(env: Env, zone: string, rrset: seq<RR>, sig: Signature, v: Verdict) returns (chain: seq<Link>)
    requires ZoneChain(env, zone, rrset, sig) == v
    ensures IsChainTo(env, chain, zone, rrset, sig, v)
    decreases Escapes(zone), Height(zone)
  {
    VerdictOfZone(env, zone, rrset, sig, v);
    chain := [];
    if !EndsHere(env, zone, rrset, sig, v) {
      var answer := Ask(env, zone, TYPE_DS).value;
      var link := LinkForDs(env, zone, rrset, sig, v);
      ParentIsCloser(zone);
      var rest := VerdictHasChain(env, ParentOf(zone), DsIn(answer), SigsIn(answer, TYPE_DS)[0], v);
      chain := ChainAbove(env, link, rest, v);
    }
  }

  lemma ChainAbove(env: Env, link: Link, rest: seq<Link>, v: Verdict) returns (chain: seq<Link>)
    requires LinkHolds(env, link) && HasDs(env, link)
    requires var answer := Ask(env, link.zone, TYPE_DS).value;
             IsChainTo(env, rest, ParentOf(link.zone), DsIn(answer), SigsIn(answer, TYPE_DS)[0], v)
    ensures IsChainTo(env, chain, link.zone, link.rrset, link.sig, v)
  {
    chain := [link] + rest;
    assert chain[0] == link && chain[1..] == rest;
  }

  lemma {:induction false} ChainGivesVerdict(env: Env, link: Link, rest: seq<Link>, v: Verdict)
    requires LeadsUpward(env, link, rest, v)
    ensures ZoneChain(env, link.zone, link.rrset, link.sig) == v
    decreases |rest|
  {
    if rest == [] {
      LinkUnderVerdict(env, link, v);
    } else {
      ChainGivesVerdict(env, rest[0], rest[1..], v);
      LinkUnderChain(env, link, rest[0], v);
    }
    LinkGivesVerdict(env, link, v);
  }

  lemma LinkGivesVerdict(env: Env, l: Link, v: Verdict)
    requires Passes(env, l.zone, l.rrset, l.sig) && l.zone != "." && LeadsTo(env, l.zone, v)
    ensures ZoneChain(env, l.zone, l.rrset, l.sig) == v
  {
    VerdictOfZone(env, l.zone, l.rrset, l.sig, v);
  }

  lemma LinkUnderVerdict(env: Env, link: Link, v: Verdict)
    requires LinkHolds(env, link) && EndsAbove(env, link, v)
    ensures Passes(env, link.zone, link.rrset, link.sig) && link.zone != "." && LeadsTo(env, link.zone, v)
  {
    LinkPasses(env, link);
    var answer := Ask(env, link.zone, TYPE_DS).value;
    var d :| d in answer && d.Ds? && NamesKey(env, link.vouchedKsk, d.digestType, d.digest);
    assert d in DsIn(answer) && MatchesDs(env, link.vouchedKsk, d);
    VerdictOfZone(env, ParentOf(link.zone), DsIn(answer), SigsIn(answer, TYPE_DS)[0], v);
  }

  lemma LinkUnderChain(env: Env, link: Link, upper: Link, v: Verdict)
    requires LinkHolds(env, link) && Vouches(env, link, upper)
    requires ZoneChain(env, upper.zone, upper.rrset, upper.sig) == v
    ensures Passes(env, link.zone, link.rrset, link.sig) && link.zone != "." && LeadsTo(env, link.zone, v)
  {
    LinkPasses(env, link);
    VouchedMatches(env, link, upper);
  }

  /** Main theorem: the walk gives a verdict, whichever it is, exactly when verified links lead from the zone up to one
      whose own answers give that verdict: no keys or no DS records for "insecure", and for each error its one cause. */
  lemma {:induction false} VerdictIffChain(env: Env, zone: string, rrset: seq<RR>, sig: Signature, v: Verdict)
    ensures ZoneChain(env, zone, rrset, sig) == v <==> exists chain :: IsChainTo(env, chain, zone, rrset, sig, v)
  {
    if ZoneChain(env, zone, rrset, sig) == v {
      var chain := VerdictHasChain(env, zone, rrset, sig, v);
    }
    if chain :| IsChainTo(env, chain, zone, rrset, sig, v) {
      VerdictOfZone(env, zone, rrset, sig, v);
      if chain != [] {
        ChainGivesVerdict(env, chain[0], chain[1..], v);
      }
    }
  }

  // ---------------------------------------------------------------- one KSK per zone

  /** A chain as section 5.2 of RFC 4035 means it: in every zone the KSK that is vouched for is the
      one that signs the key set. */
  ghost predicate IsStrictChain(env: Env, chain: seq<Link>, zone: string, rrset: seq<RR>, sig: Signature) {
    IsChain(env, chain, zone, rrset, sig) && OneKskEach(chain)
  }

  predicate OneKskEach(chain: seq<Link>) {
    forall i :: 0 <= i < |chain| ==> chain[i].signingKsk == chain[i].vouchedKsk
  }

  lemma OneKskOfRest(chain: seq<Link>)
    requires chain != []
    ensures OneKskEach(chain) <==> chain[0].signingKsk == chain[0].vouchedKsk && OneKskEach(chain[1..])
  {
    assert chain == [chain[0]] + chain[1..];
  }

  /** The anchor or the parent's DS set names this key. */
  ghost predicate IsVouched(env: Env, zone: string, key: RR) {
    if zone == "." then HasDigest(env, key, env.anchorType, env.anchorDigest)
    else Ask(env, zone, TYPE_DS).Some? && exists d :: d in DsIn(Ask(env, zone, TYPE_DS).value) && MatchesDs(env, key, d)
  }

  /** Some one KSK of the zone both signs the key set, by `sig`, and is vouched for. */
  ghost predicate IsHead(env: Env, zone: string, key: RR, sig: RR) {
    var answer := Ask(env, zone, TYPE_DNSKEY);
    && answer.Some? && key in KeysIn(answer.value) && sig in SigsIn(answer.value, TYPE_DNSKEY)
    && SignsKeySet(env, key, sig, KeysIn(answer.value)) && IsVouched(env, zone, key)
  }

  ghost predicate HasHead(env: Env, zone: string) {
    exists key, sig :: IsHead(env, zone, key, sig)
  }

  /** In the zone and in every zone above it. */
  ghost predicate HeadsAllTheWay(env: Env, zone: string)
    decreases Escapes(zone), Height(zone)
  {
    HasHead(env, zone) && (zone == "." || (ParentIsCloser(zone); HeadsAllTheWay(env, ParentOf(zone))))
  }

  lemma StrictLinkIsHead(env: Env, chain: seq<Link>, zone: string, rrset: seq<RR>, sig: Signature)
    requires IsStrictChain(env, chain, zone, rrset, sig)
    ensures HasHead(env, zone)
  {
    assert LinkHolds(env, chain[0]);
    ChainGoesOn(env, chain, zone, rrset, sig);
    assert IsHead(env, zone, chain[0].signingKsk, chain[0].keySetSig);
  }

  lemma RestOfStrict(env: Env, chain: seq<Link>, zone: string, rrset: seq<RR>, sig: Signature)
    requires IsStrictChain(env, chain, zone, rrset, sig) && |chain| >= 2
    ensures IsStrictChain(env, chain[1..], chain[1].zone, chain[1].rrset, chain[1].sig)
  {
    RestOfChain(env, chain, zone, rrset, sig);
    OneKskOfRest(chain);
  }

  lemma {:induction false} StrictHasHeads(env: Env, chain: seq<Link>, zone: string, rrset: seq<RR>, sig: Signature)
    requires IsStrictChain(env, chain, zone, rrset, sig)
    ensures HeadsAllTheWay(env, zone)
    decreases Escapes(zone), Height(zone)
  {
    StrictLinkIsHead(env, chain, zone, rrset, sig);
    ChainGoesOn(env, chain, zone, rrset, sig);
    if zone != "." {
      RestOfStrict(env, chain, zone, rrset, sig);
      ParentIsCloser(zone);
      StrictHasHeads(env, chain[1..], chain[1].zone, chain[1].rrset, chain[1].sig);
    }
  }

  /** A link whose two KSKs are the given one. */
  lemma {:induction false} StrictLinkOf(env: Env, zone: string, rrset: seq<RR>, sig: Signature, key: RR, keySetSig: RR) returns (link: Link)
    requires KeysOf(env, zone).Some? && SomeKeySigns(env, KeysOf(env, zone).value, rrset, sig)
    requires IsHead(env, zone, key, keySetSig)
    ensures LinkHolds(env, link) && link.signingKsk == link.vouchedKsk == key
    ensures link.zone == zone && link.rrset == rrset && link.sig == sig
  {
    var zoneKey :| zoneKey in KeysOf(env, zone).value && SignsRrset(env, zoneKey, rrset, sig);
    SignsMeans(env, zoneKey, rrset, sig);
    link := Link(zone, rrset, sig, zoneKey, keySetSig, key, key);
  }

  lemma {:induction false} HeadsMakeStrict(env: Env, zone: string, rrset: seq<RR>, sig: Signature) returns (chain: seq<Link>)
    requires ZoneChain(env, zone, rrset, sig) == Secure && HeadsAllTheWay(env, zone)
    ensures IsStrictChain(env, chain, zone, rrset, sig)
    decreases Escapes(zone), Height(zone)
  {
    SecureZone(env, zone, rrset, sig);
    var key, keySetSig :| IsHead(env, zone, key, keySetSig);
    var link := StrictLinkOf(env, zone, rrset, sig, key, keySetSig);
    chain := [link];
    if zone != "." {
      var answer := Ask(env, zone, TYPE_DS).value;
      ParentIsCloser(zone);
      var rest := HeadsMakeStrict(env, ParentOf(zone), DsIn(answer), SigsIn(answer, TYPE_DS)[0]);
      var d :| d in DsIn(answer) && MatchesDs(env, key, d);
      VouchedAbove(env, link, d, rest[0]);
      ChainOfPrepended(env, link, rest);
      chain := [link] + rest;
      OneKskOfRest(chain);
    }
  }

  /** Main theorem: a strict chain exists exactly when the walk answers "secure" and in every zone on
      the way up some one KSK both signs the key set and is vouched for. */
  lemma {:induction false} StrictIffHeads(env: Env, zone: string, rrset: seq<RR>, sig: Signature)
    ensures (exists chain :: IsStrictChain(env, chain, zone, rrset, sig)) <==>
            ZoneChain(env, zone, rrset, sig) == Secure && HeadsAllTheWay(env, zone)
  {
    if exists chain :: IsStrictChain(env, chain, zone, rrset, sig) {
      var chain :| IsStrictChain(env, chain, zone, rrset, sig);
      ChainIsSecure(env, chain, zone, rrset, sig);
      StrictHasHeads(env, chain, zone, rrset, sig);
    }
    if ZoneChain(env, zone, rrset, sig) == Secure && HeadsAllTheWay(env, zone) {
      var chain := HeadsMakeStrict(env, zone, rrset, sig);
    }
  }

  predicate SoleKsk(keys: seq<RR>) {
    forall j, k | j in keys && k in keys :: IsKsk(j) && IsKsk(k) ==> j == k
  }

  /** No zone on the way up answers with two different KSKs. */
  ghost predicate SoleKsksAllTheWay(env: Env, zone: string)
    decreases Escapes(zone), Height(zone)
  {
    && (KeysOf(env, zone).Some? ==> SoleKsk(KeysOf(env, zone).value))
    && (zone == "." || (ParentIsCloser(zone); SoleKsksAllTheWay(env, ParentOf(zone))))
  }

  lemma {:induction false} SoleKskIsHead(env: Env, zone: string, rrset: seq<RR>, sig: Signature)
    requires ZoneChain(env, zone, rrset, sig) == Secure && SoleKsk(KeysOf(env, zone).value)
    ensures HasHead(env, zone)
  {
    var rrs := Ask(env, zone, TYPE_DNSKEY).value;
    var keys := KeysIn(rrs);
    var s, k :| s in SigsIn(rrs, TYPE_DNSKEY) && k in keys && SignsKeySet(env, k, s, keys);
    if zone == "." {
      var v :| v in keys && HasDigest(env, v, env.anchorType, env.anchorDigest);
      assert v == k;
    } else {
      var d, v :| d in DsIn(Ask(env, zone, TYPE_DS).value) && v in keys && MatchesDs(env, v, d);
      assert v == k;
    }
    assert IsHead(env, zone, k, s);
  }

  /** Where every key set on the way up has at most one KSK, every secure answer has a strict chain. */
  lemma {:induction false} SoleKsksHaveHeads(env: Env, zone: string, rrset: seq<RR>, sig: Signature)
    requires ZoneChain(env, zone, rrset, sig) == Secure && SoleKsksAllTheWay(env, zone)
    ensures HeadsAllTheWay(env, zone)
    decreases Escapes(zone), Height(zone)
  {
    SecureZone(env, zone, rrset, sig);
    SoleKskIsHead(env, zone, rrset, sig);
    if zone != "." {
      var answer := Ask(env, zone, TYPE_DS).value;
      ParentIsCloser(zone);
      SoleKsksHaveHeads(env, ParentOf(zone), DsIn(answer), SigsIn(answer, TYPE_DS)[0]);
    }
  }

  /** Where every key set on the way up has at most one KSK, every secure answer has a strict chain. */
  lemma SoleKsksMakeStrict(env: Env, zone: string, rrset: seq<RR>, sig: Signature)
    requires ZoneChain(env, zone, rrset, sig) == Secure && SoleKsksAllTheWay(env, zone)
    ensures exists chain :: IsStrictChain(env, chain, zone, rrset, sig)
  {
    SoleKsksHaveHeads(env, zone, rrset, sig);
    StrictIffHeads(env, zone, rrset, sig);
  }

  lemma SoleKskIsVouched(env: Env, l: Link)
    requires LinkHolds(env, l) && SoleKsk(KeysOf(env, l.zone).value)
    ensures l.signingKsk == l.vouchedKsk
  {
    assert l.signingKsk in KeysOf(env, l.zone).value && l.vouchedKsk in KeysOf(env, l.zone).value;
  }

  /** And then every chain is strict. */
  lemma {:induction false} SoleKsksLeaveNoChoice(env: Env, chain: seq<Link>, zone: string, rrset: seq<RR>, sig: Signature)
    requires IsChain(env, chain, zone, rrset, sig) && SoleKsksAllTheWay(env, zone)
    ensures IsStrictChain(env, chain, zone, rrset, sig)
    decreases |chain|
  {
    assert LinkHolds(env, chain[0]);
    SoleKskIsVouched(env, chain[0]);
    OneKskOfRest(chain);
    ChainGoesOn(env, chain, zone, rrset, sig);
    if zone != "." {
      RestOfChain(env, chain, zone, rrset, sig);
      SoleKsksLeaveNoChoice(env, chain[1..], chain[1].zone, chain[1].rrset, chain[1].sig);
    } else {
      assert OneKskEach(chain[1..]);
    }
  }

  lemma {:induction false} SelectAll(rrs: seq<RR>, p: RR -> bool)
    requires forall rr :: rr in rrs ==> p(rr)
    ensures Select(rrs, p) == rrs
  {
    if rrs != [] {
      SelectAll(rrs[..|rrs| - 1], p);
    }
  }

  const ROOT_SIG: Signature := Rrsig(".", 0, TYPE_DNSKEY, 0, 0, ".", "")

  /** A root zone with these keys, in which `signer` verifies everything and the anchor is `anchored`. */
  function ParallelTrust(keys: seq<RR>, signer: RR, anchored: RR): Env {
    Env((q: Question) => if q.rrType == TYPE_DNSKEY then Some(keys + [ROOT_SIG]) else None,
        (key: RR) => 0,
        (s: RR, key: RR, rrs: seq<RR>) => key == signer,
        (key: RR, t: nat) => Some(if key == anchored then "anchor" else "other"),
        1, "anchor")
  }

  lemma AnchorText()
    ensures !EqualFold("other", "anchor") && EqualFold("anchor", "anchor")
  {
    assert |ToLower("other")| == 5 && |ToLower("anchor")| == 6;
  }

  lemma ParallelKeys(keys: seq<RR>, signer: RR, anchored: RR)
    requires forall k :: k in keys ==> k.Dnskey?
    ensures KeysOf(ParallelTrust(keys, signer, anchored), ".") == Some(keys)
  {
    var p := (rr: RR) => rr.Dnskey?;
    assert (keys + [ROOT_SIG])[..|keys|] == keys;
    SelectAll(keys, p);
  }

  /** For every key set with two different KSKs there is an environment in which the walk answers
      "secure" although no strict chain exists: one KSK signs the keys, the other is the anchor. */
  lemma {:induction false} TwoKsksPartWays(keys: seq<RR>, signer: RR, anchored: RR) returns (env: Env, rrset: seq<RR>)
    requires forall k :: k in keys ==> k.Dnskey?
    requires signer in keys && anchored in keys && IsKsk(signer) && IsKsk(anchored) && signer != anchored
    ensures KeysOf(env, ".") == Some(keys) && ZoneChain(env, ".", rrset, ROOT_SIG) == Secure
    ensures !exists chain :: IsStrictChain(env, chain, ".", rrset, ROOT_SIG)
  {
    env, rrset := ParallelTrust(keys, signer, anchored), [];
    ParallelKeys(keys, signer, anchored);
    AnchorText();
    var rrs := keys + [ROOT_SIG];
    assert Ask(env, ".", TYPE_DNSKEY) == Some(rrs);
    assert rrs[|keys|] == ROOT_SIG;
    assert ROOT_SIG in SigsIn(rrs, TYPE_DNSKEY);
    assert SignsRrset(env, signer, rrset, ROOT_SIG);
    assert SignsKeySet(env, signer, ROOT_SIG, keys);
    assert HasDigest(env, anchored, env.anchorType, env.anchorDigest);
    assert forall key, sig :: !IsHead(env, ".", key, sig);
    StrictIffHeads(env, ".", rrset, ROOT_SIG);
  }

  /** The exact condition on a key set: whatever the environment, secure answers of a root zone with
      these keys have strict chains if and only if no two of the keys are different KSKs. */
  lemma StrictnessNeedsSoleKsk(keys: seq<RR>)
    requires forall k :: k in keys ==> k.Dnskey?
    ensures SoleKsk(keys) <==>
            forall env: Env, rrset: seq<RR>, sig: Signature ::
              KeysOf(env, ".") == Some(keys) && ZoneChain(env, ".", rrset, sig) == Secure ==>
              exists chain :: IsStrictChain(env, chain, ".", rrset, sig)
  {
    if SoleKsk(keys) {
      forall env: Env, rrset: seq<RR>, sig: Signature
        | KeysOf(env, ".") == Some(keys) && ZoneChain(env, ".", rrset, sig) == Secure
        ensures exists chain :: IsStrictChain(env, chain, ".", rrset, sig)
      {
        SoleKsksMakeStrict(env, ".", rrset, sig);
      }
    } else {
      var j, k :| j in keys && k in keys && IsKsk(j) && IsKsk(k) && j != k;
      var env, rrset := TwoKsksPartWays(keys, j, k);
    }
  }

  // ---------------------------------------------------------------- the validator

  method CollectKeys(rrs: seq<RR>) returns (keys: seq<RR>, minTtl: nat)
    ensures keys == KeysIn(rrs) && minTtl == MinTtl(keys)
  {
    keys, minTtl := [], MAX_KEY_TTL;
    var i := 0;
    while i < |rrs|
      invariant 0 <= i <= |rrs|
      invariant keys == KeysIn(rrs[..i]) && minTtl == MinTtl(keys)
    {
      assert rrs[..i + 1][..i] == rrs[..i];
      if rrs[i].Dnskey? {
        assert (keys + [rrs[i]])[..|keys|] == keys;
        keys := keys + [rrs[i]];
        if rrs[i].ttl < minTtl {
          minTtl := rrs[i].ttl;
        }
      }
      i := i + 1;
    }
    assert rrs[..i] == rrs;
  }

  datatype Entry = Entry(keys: seq<RR>, expires: int)

  ghost predicate HoldsKeys(env: Env, cache: map<string, Entry>) {
    forall zone :: zone in cache ==> KeysOf(env, zone) == Some(cache[zone].keys) && cache[zone].keys != []
  }

  lemma HoldsWithout(env: Env, cache: map<string, Entry>, zone: string)
    requires HoldsKeys(env, cache)
    ensures HoldsKeys(env, cache - {zone})
  {
  }

  lemma HoldsAfterFetch(env: Env, cache: map<string, Entry>, zone: string, keys: Option<seq<RR>>, now: int)
    requires HoldsKeys(env, cache) && keys == KeysOf(env, zone)
    ensures HoldsKeys(env, AfterFetch(cache, zone, keys, now))
  {
  }

  /** The cache after a fetch that was not answered from it. */
  function AfterFetch(cache: map<string, Entry>, zone: string, keys: Option<seq<RR>>, now: int): map<string, Entry> {
    if keys.None? || keys.value == [] then cache else cache[zone := Entry(keys.value, now + MinTtl(keys.value))]
  }

  /** The validator with its DNSKEY cache. `clock` gives the successive readings of the wall clock
      and is arbitrary. */
  class Validator {
    const env: Env
    const clock: nat -> int
    var ticks: nat
    var cache: map<string, Entry>

    /** Every cached key set is the one the resolver gives. */
    ghost predicate Faithful()
      reads this
    {
      HoldsKeys(env, cache)
    }

    constructor (env: Env, clock: nat -> int)
      ensures Faithful() && cache == map[] && this.env == env
    {
      this.env, this.clock := env, clock;
      ticks, cache := 0, map[];
    }

    predicate Fresh(zone: string)
      reads this
    {
      zone in cache && clock(ticks) < cache[zone].expires
    }

    /** The reading that follows a lookup. */
    function NextReading(zone: string): nat
      reads this
    {
      ticks + if zone in cache then 1 else 0
    }

    /** The cached keys before their expiry; an expired entry is dropped. */
    method Lookup(zone: string) returns (keys: Option<seq<RR>>)
      modifies this
      ensures keys == if zone in old(cache) && clock(old(ticks)) < old(cache)[zone].expires then Some(old(cache)[zone].keys) else None
      ensures old(Fresh(zone)) ==> cache == old(cache)
      ensures !old(Fresh(zone)) ==> cache == old(cache) - {zone}
      ensures ticks == old(NextReading(zone))
    {
      if zone in cache {
        var unexpired := clock(ticks) < cache[zone].expires;
        ticks := ticks + 1;
        if unexpired {
          return Some(cache[zone].keys);
        }
        cache := cache - {zone};
      }
      return None;
    }

    /** Fetched keys are kept for the smallest TTL among them, counted from the reading `now`. */
    method Store(zone: string, keys: seq<RR>, minTtl: nat) returns (now: int)
      modifies this
      ensures cache == old(cache)[zone := Entry(keys, now + minTtl)] && now == clock(old(ticks)) && ticks == old(ticks) + 1
    {
      now := clock(ticks);
      ticks := ticks + 1;
      cache := cache[zone := Entry(keys, now + minTtl)];
    }

    method QueryKeys(zone: string) returns (keys: Option<seq<RR>>, minTtl: nat)
      ensures keys == KeysOf(env, zone) && (keys.Some? ==> minTtl == MinTtl(keys.value))
    {
      var resp := Ask(env, zone, TYPE_DNSKEY);
      if resp.None? {
        return None, 0;
      }
      var found;
      found, minTtl := CollectKeys(resp.value);
      keys := Some(found);
    }

    /** What the resolver gives is stored unless it is empty; a new entry lives for the smallest TTL of its
        keys from a clock reading. */
    method AskForKeys(zone: string) returns (keys: Option<seq<RR>>)
      modifies this
      ensures keys == KeysOf(env, zone)
      ensures cache == AfterFetch(old(cache), zone, keys, clock(old(ticks)))
    {
      var minTtl;
      keys, minTtl := QueryKeys(zone);
      if keys.None? || |keys.value| == 0 {
        return;
      }
      var now := Store(zone, keys.value, minTtl);
    }

    /** The keys are those the resolver gives, whether cached or not; only this zone's entry may
        change, and a new entry lives for the smallest TTL of its keys from a clock reading. */
    method FetchDNSKEYs(zone: string) returns (keys: Option<seq<RR>>)
      requires Faithful()
      modifies this
      ensures Faithful() && keys == KeysOf(env, zone)
      ensures cache == if old(Fresh(zone)) then old(cache)
                       else AfterFetch(old(cache) - {zone}, zone, keys, clock(old(NextReading(zone))))
    {
      HoldsWithout(env, cache, zone);
      var cached := Lookup(zone);
      if cached.Some? {
        return cached;
      }
      keys := AskForKeys(zone);
      HoldsAfterFetch(env, old(cache) - {zone}, zone, keys, clock(old(NextReading(zone))));
    }

    method ValidateDNSKEYSet(zone: string, keys: seq<RR>) returns (error: Option<Reason>)
      ensures error == KeySetError(env, zone, keys)
    {
      var resp := Ask(env, zone, TYPE_DNSKEY);
      if resp.None? {
        return Some(KeySigQueryFailed);
      }
      var keySet, sigs := KeysIn(resp.value), SigsIn(resp.value, TYPE_DNSKEY);
      if |sigs| == 0 {
        return Some(KeySetUnsigned);
      }
      var i := 0;
      while i < |sigs|
        invariant 0 <= i <= |sigs|
        invariant forall s, k :: s in sigs[..i] && k in keys ==> !SignsKeySet(env, k, s, keySet)
      {
        var j := 0;
        while j < |keys|
          invariant 0 <= j <= |keys|
          invariant forall k :: k in keys[..j] ==> !SignsKeySet(env, k, sigs[i], keySet)
        {
          if SignsKeySet(env, keys[j], sigs[i], keySet) {
            assert sigs[i] in sigs && keys[j] in keys;
            return None;
          }
          j := j + 1;
        }
        i := i + 1;
      }
      assert sigs[..i] == sigs;
      return Some(KeySetUnverified);
    }

    method VerifyRootKeys(keys: seq<RR>) returns (v: Verdict)
      ensures v == if SomeKskAnchored(env, keys) then Secure else Bogus(AnchorMismatch)
    {
      var i := 0;
      while i < |keys|
        invariant 0 <= i <= |keys|
        invariant forall k :: k in keys[..i] ==> !HasDigest(env, k, env.anchorType, env.anchorDigest)
      {
        if HasDigest(env, keys[i], env.anchorType, env.anchorDigest) {
          assert keys[i] in keys;
          return Secure;
        }
        i := i + 1;
      }
      assert keys[..i] == keys;
      return Bogus(AnchorMismatch);
    }

    method SomeKeyMatchesDs(keys: seq<RR>, dss: seq<RR>) returns (matched: bool)
      ensures matched == SomeKskMatches(env, keys, dss)
    {
      matched := false;
      var i := 0;
      while i < |dss| && !matched
        invariant 0 <= i <= |dss|
        invariant matched ==> SomeKskMatches(env, keys, dss)
        invariant !matched ==> forall d, k :: d in dss[..i] && k in keys ==> !MatchesDs(env, k, d)
      {
        var j := 0;
        while j < |keys| && !matched
          invariant 0 <= j <= |keys|
          invariant matched ==> SomeKskMatches(env, keys, dss)
          invariant !matched ==> forall k :: k in keys[..j] ==> !MatchesDs(env, k, dss[i])
        {
          if MatchesDs(env, keys[j], dss[i]) {
            assert dss[i] in dss && keys[j] in keys;
            matched := true;
          }
          j := j + 1;
        }
        i := i + 1;
      }
      assert !matched ==> dss[..i] == dss;
    }

    method SomeKeyVerifies(keys: seq<RR>, rrset: seq<RR>, sig: Signature) returns (verified: bool)
      ensures verified == SomeKeySigns(env, keys, rrset, sig)
    {
      var i := 0;
      while i < |keys|
        invariant 0 <= i <= |keys|
        invariant forall k :: k in keys[..i] ==> !SignsRrset(env, k, rrset, sig)
      {
        if SignsRrset(env, keys[i], rrset, sig) {
          assert keys[i] in keys;
          return true;
        }
        i := i + 1;
      }
      assert keys[..i] == keys;
      return false;
    }

    method ValidateZoneChain(zone: string, rrset: seq<RR>, sig: Signature) returns (v: Verdict)
      requires Faithful()
      modifies this
      ensures Faithful() && v == ZoneChain(env, zone, rrset, sig)
      decreases Escapes(zone), Height(zone), 1
    {
      var fetched := FetchDNSKEYs(zone);
      if fetched.None? {
        return Bogus(KeyQueryFailed);
      }
      var keys := fetched.value;
      if |keys| == 0 {
        return Insecure;
      }
      var verified := SomeKeyVerifies(keys, rrset, sig);
      if !verified {
        return Bogus(RrsetUnverified);
      }
      var error := ValidateDNSKEYSet(zone, keys);
      if error.Some? {
        return Bogus(error.value);
      }
      if zone == "." {
        v := VerifyRootKeys(keys);
      } else {
        v := ValidateDSChain(zone, keys);
      }
    }

    method ValidateDSChain(zone: string, keys: seq<RR>) returns (v: Verdict)
      requires Faithful() && zone != "."
      modifies this
      ensures Faithful() && v == DsChain(env, zone, keys)
      decreases Escapes(zone), Height(zone), 0
    {
      var resp := Ask(env, zone, TYPE_DS);
      if resp.None? {
        return Bogus(DsQueryFailed);
      }
      var dss, sigs := DsIn(resp.value), SigsIn(resp.value, TYPE_DS);
      if |dss| == 0 {
        return Insecure;
      }
      var matched := SomeKeyMatchesDs(keys, dss);
      if !matched {
        return Bogus(NoKskMatchesDs);
      }
      if |sigs| == 0 {
        return Bogus(DsUnsigned);
      }
      ParentIsCloser(zone);
      v := ValidateZoneChain(ParentOf(zone), dss, sigs[0]);
    }

    /** From every cache state the validator can reach, the answer is that of the walk without a
        cache, and "secure" comes with a chain to the trust anchor. */
    method ValidateRRset(rrset: seq<RR>, sigs: seq<Signature>) returns (v: Verdict)
      requires Faithful()
      modifies this
      ensures Faithful()
      ensures v == if rrset == [] || sigs == [] then Insecure else ZoneChain(env, sigs[0].signer, rrset, sigs[0])
      ensures v == Secure <==> rrset != [] && sigs != [] &&
                               exists chain :: IsChain(env, chain, sigs[0].signer, rrset, sigs[0])
    {
      if |rrset| == 0 || |sigs| == 0 {
        return Insecure;
      }
      SecureIffChain(env, sigs[0].signer, rrset, sigs[0]);
      v := ValidateZoneChain(sigs[0].signer, rrset, sigs[0]);
    }
  }
}
