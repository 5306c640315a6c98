/** Choosing one _ati record out of a DNS answer. */
module VersionPolicy {
  import opened Text
  import opened Names

  datatype Record = Record(id: string, version: Version, protocol: string, url: string)

  /** What the caller of a choice can tell apart. */
  datatype Key = Key(version: Version, protocol: string, url: string)

  function KeyOf(r: Record): Key {
    Key(r.version, r.protocol, r.url)
  }

  /** A version expression as the semver library reads it; records carry no pre-release. */
  datatype Semver = Semver(major: nat, minor: nat, patch: nat, preRelease: string)

  /** The semver library, `NewVersion` and `NewConstraint` with `Check`, and Unicode's case tables: the lower
      case of a character, and what stands for all characters equal to it under case folding. */
  datatype Library = Library(
    version: string -> Option<Semver>,
    range: string -> Option<Version -> bool>,
    lower: char -> char,
    fold: char -> char)

  function SemverOf(v: Version): Semver {
    Semver(v.major as nat, v.minor as nat, v.patch as nat, "")
  }

  datatype Failure = NoRecords | NoneForProtocol | VersionRequired | InvalidVersion | NotFound | NoValidRecords | NoneSatisfies
  datatype Choice = Chosen(record: Record) | Failed(why: Failure)

  const EXACT := "EXACT"
  const LATEST := "LATEST"
  const LATEST_COMPATIBLE := "LATEST_COMPATIBLE"

  // ---------------------------------------------------------------- the order of preference

  /** `preferRecord` between two records. */
  predicate PreferRecord(candidate: Record, current: Record) {
    if candidate.protocol != current.protocol then Less(candidate.protocol, current.protocol)
    else Less(candidate.url, current.url)
  }

  /** Greater version first, then least protocol, then least URL. */
  predicate Beats(a: Record, b: Record) {
    Compare(a.version, b.version) > 0 || (a.version == b.version && PreferRecord(a, b))
  }

  lemma CompareOrder(v: Version, w: Version)
    ensures Compare(v, w) == -Compare(w, v)
  {
  }

  lemma CompareTransitive(u: Version, v: Version, w: Version)
    requires Compare(u, v) >= 0 && Compare(v, w) > 0
    ensures Compare(u, w) > 0
  {
  }

  lemma PreferTotal(a: Record, b: Record)
    ensures PreferRecord(a, b) || PreferRecord(b, a) || (a.protocol == b.protocol && a.url == b.url)
    ensures !(PreferRecord(a, b) && PreferRecord(b, a))
  {
    LessTotal(a.protocol, b.protocol);
    LessTotal(a.url, b.url);
  }

  lemma PreferTransitive(a: Record, b: Record, c: Record)
    requires PreferRecord(a, b) && PreferRecord(b, c)
    ensures PreferRecord(a, c)
  {
    if a.protocol == b.protocol == c.protocol {
      LessTransitive(a.url, b.url, c.url);
    } else if a.protocol != b.protocol && b.protocol != c.protocol {
      LessTransitive(a.protocol, b.protocol, c.protocol);
      LessTotal(a.protocol, b.protocol);
    }
  }

  lemma BeatsTotal(a: Record, b: Record)
    ensures Beats(a, b) || Beats(b, a) || KeyOf(a) == KeyOf(b)
    ensures !(Beats(a, b) && Beats(b, a))
  {
    CompareOrder(a.version, b.version);
    PreferTotal(a, b);
  }

  lemma BeatsTransitive(a: Record, b: Record, c: Record)
    requires Beats(a, b) && Beats(b, c)
    ensures Beats(a, c)
  {
    if a.version == b.version == c.version {
      PreferTransitive(a, b, c);
    } else if b.version == c.version {
    } else {
      CompareTransitive(a.version, b.version, c.version);
    }
  }

  // ---------------------------------------------------------------- the greatest admissible record

  /** The first of the records of `rs` that pass `ok` and that no other such record beats. */
  function Greatest(rs: seq<Record>, ok: Version -> bool): Option<Record> {
    if rs == [] then None
    else
      var r, best := rs[|rs| - 1], Greatest(rs[..|rs| - 1], ok);
      if ok(r.version) && (best.None? || Beats(r, best.value)) then Some(r) else best
  }

  ghost predicate IsGreatest(rs: seq<Record>, ok: Version -> bool, best: Record) {
    && best in rs && ok(best.version)
    && forall r :: r in rs && ok(r.version) ==> !Beats(r, best)
  }

  lemma {:induction false} GreatestIsOptimal(rs: seq<Record>, ok: Version -> bool)
    ensures Greatest(rs, ok).None? <==> forall r :: r in rs ==> !ok(r.version)
    ensures Greatest(rs, ok).Some? ==> IsGreatest(rs, ok, Greatest(rs, ok).value)
  {
    if rs != [] {
      var init, last := rs[..|rs| - 1], rs[|rs| - 1];
      assert rs == init + [last];
      GreatestIsOptimal(init, ok);
      var was := Greatest(init, ok);
      BeatsTotal(last, last);
      if was.Some? && ok(last.version) && Beats(last, was.value) {
        forall r | r in init && ok(r.version) ensures !Beats(r, last) {
          if Beats(r, last) { BeatsTransitive(r, last, was.value); }
        }
      }
    }
  }

  lemma GreatestIsUnique(rs: seq<Record>, qs: seq<Record>, ok: Version -> bool, a: Record, b: Record)
    requires forall r :: r in rs <==> r in qs
    requires IsGreatest(rs, ok, a) && IsGreatest(qs, ok, b)
    ensures KeyOf(a) == KeyOf(b)
  {
    BeatsTotal(a, b);
  }

  /** `resolveLatest` and the loop of `resolveLatestCompatible`. A record's version is printed from three
      32-bit numbers, so the library reads it as those numbers. */
  method ResolveLatest(rs: seq<Record>) returns (result: Choice)
    ensures result == AsChoice(Greatest(rs, v => true), NoValidRecords)
  {
    ghost var ok: Version -> bool := v => true;
    var best: Option<Record> := None;
    var i := 0;
    while i < |rs|
      invariant 0 <= i <= |rs| && best == Greatest(rs[..i], ok)
    {
      var r := rs[i];
      assert rs[..i + 1][..i] == rs[..i];
      if best.None? || Compare(r.version, best.value.version) > 0
         || (Compare(r.version, best.value.version) == 0 && PreferRecord(r, best.value)) {
        best := Some(r);
      }
      i := i + 1;
    }
    assert rs[..i] == rs;
    return AsChoice(best, NoValidRecords);
  }

  method ResolveSatisfying(rs: seq<Record>, check: Version -> bool) returns (result: Choice)
    ensures result == AsChoice(Greatest(rs, check), NoneSatisfies)
  {
    var best: Option<Record> := None;
    var i := 0;
    while i < |rs|
      invariant 0 <= i <= |rs| && best == Greatest(rs[..i], check)
    {
      var r := rs[i];
      assert rs[..i + 1][..i] == rs[..i];
      if check(r.version) {
        if best.None? || Compare(r.version, best.value.version) > 0
           || (Compare(r.version, best.value.version) == 0 && PreferRecord(r, best.value)) {
          best := Some(r);
        }
      }
      i := i + 1;
    }
    assert rs[..i] == rs;
    return AsChoice(best, NoneSatisfies);
  }

  function AsChoice(r: Option<Record>, why: Failure): Choice {
    if r.Some? then Chosen(r.value) else Failed(why)
  }

  // ---------------------------------------------------------------- the first record of a version

  function First(rs: seq<Record>, v: Semver): Option<Record> {
    if rs == [] then None
    else if SemverOf(rs[0].version) == v then Some(rs[0])
    else First(rs[1..], v)
  }

  lemma {:induction false} FirstIsFound(rs: seq<Record>, v: Semver)
    ensures First(rs, v).None? <==> forall r :: r in rs ==> SemverOf(r.version) != v
    ensures First(rs, v).Some? ==> First(rs, v).value in rs && SemverOf(First(rs, v).value.version) == v
  {
    if rs != [] {
      assert rs == [rs[0]] + rs[1..];
      FirstIsFound(rs[1..], v);
    }
  }

  /** The loop of `resolveExact` and of `findExact`. */
  method FindExact(rs: seq<Record>, v: Semver) returns (result: Choice)
    ensures result == AsChoice(First(rs, v), NotFound)
  {
    var i := 0;
    while i < |rs|
      invariant 0 <= i <= |rs| && First(rs, v) == First(rs[i..], v)
    {
      if SemverOf(rs[i].version) == v {
        return Chosen(rs[i]);
      }
      i := i + 1;
    }
    return Failed(NotFound);
  }

  // ---------------------------------------------------------------- one protocol

  /** A record without a protocol serves every protocol. */
  predicate Serves(lib: Library, r: Record, protocol: string) {
    r.protocol == "" || MapChars(lib.fold, r.protocol) == MapChars(lib.fold, MapChars(lib.lower, protocol))
  }

  function Serving(lib: Library, rs: seq<Record>, protocol: string): seq<Record> {
    if rs == [] then []
    else (if Serves(lib, rs[0], protocol) then [rs[0]] else []) + Serving(lib, rs[1..], protocol)
  }

  function ForProtocol(lib: Library, rs: seq<Record>, protocol: string): seq<Record> {
    if protocol == "" then rs else Serving(lib, rs, protocol)
  }

  lemma {:induction false} ServingMembers(lib: Library, rs: seq<Record>, protocol: string)
    ensures forall r :: r in Serving(lib, rs, protocol) <==> r in rs && Serves(lib, r, protocol)
  {
    if rs != [] {
      assert rs == [rs[0]] + rs[1..];
      ServingMembers(lib, rs[1..], protocol);
    }
  }

  /** `FilterATIRecordsByProtocol`. */
  method FilterByProtocol(lib: Library, rs: seq<Record>, protocol: string) returns (out: seq<Record>)
    ensures out == ForProtocol(lib, rs, protocol)
  {
    if protocol == "" {
      return rs;
    }
    out := [];
    var i := 0;
    while i < |rs|
      invariant 0 <= i <= |rs| && out + Serving(lib, rs[i..], protocol) == Serving(lib, rs, protocol)
    {
      assert rs[i..][1..] == rs[i + 1..];
      if Serves(lib, rs[i], protocol) {
        out := out + [rs[i]];
      }
      i := i + 1;
    }
  }

  // ---------------------------------------------------------------- the choice

  function Exact(lib: Library, rs: seq<Record>, requested: string): Choice {
    match lib.version(requested)
    case None => Failed(InvalidVersion)
    case Some(v) => AsChoice(First(rs, v), NotFound)
  }

  function Resolve(lib: Library, records: seq<Record>, policy: string, requested: string, protocol: string): Choice {
    if records == [] then Failed(NoRecords)
    else
      var rs := ForProtocol(lib, records, protocol);
      if rs == [] then Failed(NoneForProtocol)
      else if policy == EXACT then
        if requested == "" then Failed(VersionRequired) else Exact(lib, rs, requested)
      else if policy != LATEST_COMPATIBLE || requested == "" then
        AsChoice(Greatest(rs, v => true), NoValidRecords)
      else match lib.range(requested)
        case None => Exact(lib, rs, requested)
        case Some(check) => AsChoice(Greatest(rs, check), NoneSatisfies)
  }

  method ResolveExact(lib: Library, rs: seq<Record>, requested: string) returns (result: Choice)
    ensures result == Exact(lib, rs, requested)
  {
    var v := lib.version(requested);
    if v.None? {
      return Failed(InvalidVersion);
    }
    result := FindExact(rs, v.value);
  }

  /** `ResolveVersionForProtocol`. */
  method ResolveVersionForProtocol(lib: Library, records: seq<Record>, policy: string, requested: string, protocol: string)
    returns (result: Choice)
    ensures result == Resolve(lib, records, policy, requested, protocol)
  {
    if |records| == 0 {
      return Failed(NoRecords);
    }
    var rs := FilterByProtocol(lib, records, protocol);
    if |rs| == 0 {
      return Failed(NoneForProtocol);
    }
    if policy == EXACT {
      if requested == "" {
        return Failed(VersionRequired);
      }
      result := ResolveExact(lib, rs, requested);
    } else if policy == LATEST_COMPATIBLE && requested != "" {
      var range := lib.range(requested);
      if range.None? {
        result := ResolveExact(lib, rs, requested);
      } else {
        result := ResolveSatisfying(rs, range.value);
      }
    } else {
      result := ResolveLatest(rs);
    }
  }

  // ---------------------------------------------------------------- what is chosen

  /** The request names one version: policy EXACT, or a compatible range that is no range. */
  predicate NamesOneVersion(lib: Library, policy: string, requested: string) {
    policy == EXACT || (policy == LATEST_COMPATIBLE && requested != "" && lib.range(requested).None?)
  }

  /** The versions the policy and the request admit. */
  function Admits(lib: Library, policy: string, requested: string): Version -> bool {
    if NamesOneVersion(lib, policy, requested) then
      (v: Version) => requested != "" && lib.version(requested) == Some(Semver(v.major as nat, v.minor as nat, v.patch as nat, ""))
    else if policy == LATEST_COMPATIBLE && requested != "" then lib.range(requested).value
    else v => true
  }

  /** No protocol is asked for, or the record has none, or they are the same but for case, character by character. */
  predicate ProtocolFits(lib: Library, r: Record, protocol: string) {
    || protocol == "" || r.protocol == ""
    || (|r.protocol| == |protocol| && forall i :: 0 <= i < |protocol| ==> lib.fold(r.protocol[i]) == lib.fold(lib.lower(protocol[i])))
  }

  predicate Admissible(lib: Library, policy: string, requested: string, protocol: string, r: Record) {
    ProtocolFits(lib, r, protocol) && Admits(lib, policy, requested)(r.version)
  }

  lemma ServesIfFits(lib: Library, r: Record, protocol: string)
    ensures protocol == "" || Serves(lib, r, protocol) <==> ProtocolFits(lib, r, protocol)
  {
    var a, b := MapChars(lib.fold, r.protocol), MapChars(lib.fold, MapChars(lib.lower, protocol));
    if a == b && protocol != "" {
      assert |r.protocol| == |a| == |b| == |protocol|;
      assert forall i :: 0 <= i < |protocol| ==> a[i] == b[i];
    }
  }

  lemma ExactChoice(lib: Library, rs: seq<Record>, requested: string)
    ensures Exact(lib, rs, requested).Failed? <==> forall r :: r in rs ==> lib.version(requested) != Some(SemverOf(r.version))
    ensures Exact(lib, rs, requested).Chosen? ==>
              Exact(lib, rs, requested).record in rs && lib.version(requested) == Some(SemverOf(Exact(lib, rs, requested).record.version))
  {
    if lib.version(requested).Some? {
      FirstIsFound(rs, lib.version(requested).value);
    }
  }

  lemma CandidatesAre(lib: Library, records: seq<Record>, protocol: string)
    ensures forall r :: r in ForProtocol(lib, records, protocol) <==> r in records && ProtocolFits(lib, r, protocol)
  {
    ServingMembers(lib, records, protocol);
    forall r: Record ensures protocol == "" || Serves(lib, r, protocol) <==> ProtocolFits(lib, r, protocol) {
      ServesIfFits(lib, r, protocol);
    }
  }

  /** Without records to choose from nothing is chosen; otherwise the policy decides. */
  lemma ResolveAmongCandidates(lib: Library, records: seq<Record>, policy: string, requested: string, protocol: string)
    ensures var rs, ok, choice := ForProtocol(lib, records, protocol), Admits(lib, policy, requested), Resolve(lib, records, policy, requested, protocol);
            && (choice.Failed? <==> forall r :: r in rs ==> !ok(r.version))
            && (choice.Chosen? ==> choice.record in rs && ok(choice.record.version))
            && (choice.Chosen? ==> forall r :: r in rs && ok(r.version) ==> Rank(r.version) <= Rank(choice.record.version))
            && (choice.Chosen? && !NamesOneVersion(lib, policy, requested) ==>
                  forall r :: r in rs && ok(r.version) ==> !IsPreferable(r, choice.record))
  {
    forall r: Record, c: Record ensures IsPreferable(r, c) || Rank(r.version) > Rank(c.version) ==> Beats(r, c) {
      PreferableBeats(r, c);
    }
    var rs, ok := ForProtocol(lib, records, protocol), Admits(lib, policy, requested);
    if NamesOneVersion(lib, policy, requested) {
      ExactChoice(lib, rs, requested);
    } else {
      GreatestIsOptimal(rs, ok);
      GreatestIsOptimal(rs, v => true);
    }
  }

  /** Main theorem: a record is chosen iff some record is admissible. The one chosen is admissible and of
      the greatest admissible version, and where a range or the latest is asked for, it has the least
      (protocol, URL) of that version. */
  lemma ChoiceIsOptimal(lib: Library, records: seq<Record>, policy: string, requested: string, protocol: string)
    ensures var choice := Resolve(lib, records, policy, requested, protocol);
            && (choice.Chosen? <==> exists r :: r in records && Admissible(lib, policy, requested, protocol, r))
            && (choice.Chosen? ==>
                  && choice.record in records && Admissible(lib, policy, requested, protocol, choice.record)
                  && forall r :: r in records && Admissible(lib, policy, requested, protocol, r) ==>
                       && Rank(r.version) <= Rank(choice.record.version)
                       && (NamesOneVersion(lib, policy, requested) || !IsPreferable(r, choice.record)))
  {
    CandidatesAre(lib, records, protocol);
    ResolveAmongCandidates(lib, records, policy, requested, protocol);
  }

  /** Of the same version, and with a lesser protocol, or the same one and a lesser URL. */
  predicate IsPreferable(r: Record, chosen: Record) {
    && r.version == chosen.version
    && (Less(r.protocol, chosen.protocol) || (r.protocol == chosen.protocol && Less(r.url, chosen.url)))
  }

  lemma PreferableBeats(r: Record, chosen: Record)
    ensures IsPreferable(r, chosen) ==> Beats(r, chosen)
    ensures Rank(r.version) > Rank(chosen.version) ==> Beats(r, chosen)
  {
    LessTotal(r.protocol, r.protocol);
  }

  /** Why nothing is chosen: there are no records, or none for the protocol, or the version asked for is missing, or
      unreadable, or not there, or no version is in range; and nothing else. */
  lemma FailuresAre(lib: Library, records: seq<Record>, policy: string, requested: string, protocol: string, why: Failure)
    ensures Resolve(lib, records, policy, requested, protocol) == Failed(why) <==>
            var named := NamesOneVersion(lib, policy, requested);
            var fits := exists r :: r in records && ProtocolFits(lib, r, protocol);
            match why
            case NoRecords => records == []
            case NoneForProtocol => records != [] && !fits
            case VersionRequired => fits && policy == EXACT && requested == ""
            case InvalidVersion => fits && named && requested != "" && lib.version(requested).None?
            case NotFound =>
              && fits && named && requested != "" && lib.version(requested).Some?
              && forall r :: r in records ==> !Admissible(lib, policy, requested, protocol, r)
            case NoneSatisfies =>
              && fits && policy == LATEST_COMPATIBLE && requested != "" && lib.range(requested).Some?
              && forall r :: r in records ==> !Admissible(lib, policy, requested, protocol, r)
            case NoValidRecords => false
  {
    var rs := ForProtocol(lib, records, protocol);
    CandidatesAre(lib, records, protocol);
    FitsIffAny(lib, records, protocol);
    ExactChoice(lib, rs, requested);
    GreatestIsOptimal(rs, v => true);
    if lib.range(requested).Some? {
      GreatestIsOptimal(rs, lib.range(requested).value);
    }
  }

  lemma FitsIffAny(lib: Library, records: seq<Record>, protocol: string)
    ensures ForProtocol(lib, records, protocol) != [] <==> exists r :: r in records && ProtocolFits(lib, r, protocol)
  {
    CandidatesAre(lib, records, protocol);
    if ForProtocol(lib, records, protocol) != [] {
      assert ForProtocol(lib, records, protocol)[0] in ForProtocol(lib, records, protocol);
    }
  }

  // ---------------------------------------------------------------- the order of the answer

  /** What two answers have in common when neither the failure nor what is chosen differs. */
  predicate SameChoice(a: Choice, b: Choice) {
    match a
    case Failed(why) => b == a
    case Chosen(r) => b.Chosen? && KeyOf(b.record) == KeyOf(r)
  }

  lemma GreatestOfSameRecords(rs: seq<Record>, qs: seq<Record>, ok: Version -> bool, why: Failure)
    requires forall r :: r in rs <==> r in qs
    ensures SameChoice(AsChoice(Greatest(rs, ok), why), AsChoice(Greatest(qs, ok), why))
  {
    GreatestIsOptimal(rs, ok);
    GreatestIsOptimal(qs, ok);
    var a, b := Greatest(rs, ok), Greatest(qs, ok);
    if a.Some? && b.Some? {
      GreatestIsUnique(rs, qs, ok, a.value, b.value);
    }
  }

  lemma SameRecords(rs: seq<Record>, qs: seq<Record>)
    requires multiset(rs) == multiset(qs)
    ensures forall r :: r in rs <==> r in qs
    ensures |rs| == |qs|
  {
    forall r ensures r in rs <==> r in qs {
      assert r in rs <==> r in multiset(rs);
      assert r in qs <==> r in multiset(qs);
    }
    assert |multiset(rs)| == |rs| && |multiset(qs)| == |qs|;
  }

  lemma SameEmptiness(rs: seq<Record>, qs: seq<Record>)
    requires forall r :: r in rs <==> r in qs
    ensures rs == [] <==> qs == []
  {
    if rs != [] { assert rs[0] in qs; }
    if qs != [] { assert qs[0] in rs; }
  }

  /** Main theorem: for the latest record or the latest in a range, every permutation of the answer
      leads to the same version, protocol and URL, or to the same failure. */
  lemma OrderNeverMatters(lib: Library, records: seq<Record>, permuted: seq<Record>, policy: string, requested: string, protocol: string)
    requires multiset(records) == multiset(permuted)
    requires !NamesOneVersion(lib, policy, requested)
    ensures SameChoice(Resolve(lib, records, policy, requested, protocol), Resolve(lib, permuted, policy, requested, protocol))
  {
    SameRecords(records, permuted);
    SameEmptiness(records, permuted);
    CandidatesAre(lib, records, protocol);
    CandidatesAre(lib, permuted, protocol);
    var rs, qs := ForProtocol(lib, records, protocol), ForProtocol(lib, permuted, protocol);
    SameEmptiness(rs, qs);
    if policy == LATEST_COMPATIBLE && requested != "" {
      GreatestOfSameRecords(rs, qs, lib.range(requested).value, NoneSatisfies);
    } else {
      GreatestOfSameRecords(rs, qs, v => true, NoValidRecords);
    }
  }

  /** All admissible records look alike to the caller. */
  ghost predicate NoRivals(lib: Library, records: seq<Record>, policy: string, requested: string, protocol: string) {
    forall a, b :: a in records && b in records
                   && Admissible(lib, policy, requested, protocol, a) && Admissible(lib, policy, requested, protocol, b) ==>
      KeyOf(a) == KeyOf(b)
  }

  ghost predicate OrderIndependent(lib: Library, records: seq<Record>, policy: string, requested: string, protocol: string) {
    forall permuted :: multiset(permuted) == multiset(records) ==>
      SameChoice(Resolve(lib, records, policy, requested, protocol), Resolve(lib, permuted, policy, requested, protocol))
  }

  /** `records` with one member moved to the front. */
  lemma MoveToFront(records: seq<Record>, r: Record) returns (moved: seq<Record>)
    requires r in records
    ensures multiset(moved) == multiset(records) && moved != [] && moved[0] == r
  {
    var i :| 0 <= i < |records| && records[i] == r;
    moved := [r] + records[..i] + records[i + 1..];
    assert records == records[..i] + [r] + records[i + 1..];
  }

  lemma FrontIsChosen(lib: Library, records: seq<Record>, policy: string, requested: string, protocol: string)
    requires NamesOneVersion(lib, policy, requested)
    requires records != [] && Admissible(lib, policy, requested, protocol, records[0])
    ensures Resolve(lib, records, policy, requested, protocol) == Chosen(records[0])
  {
    var rs := ForProtocol(lib, records, protocol);
    assert rs != [] && rs[0] == records[0];
  }

  lemma FailuresAgree(lib: Library, records: seq<Record>, permuted: seq<Record>, policy: string, requested: string, protocol: string)
    requires multiset(records) == multiset(permuted)
    requires NamesOneVersion(lib, policy, requested)
    requires Resolve(lib, records, policy, requested, protocol).Failed?
    ensures Resolve(lib, permuted, policy, requested, protocol) == Resolve(lib, records, policy, requested, protocol)
  {
    SameRecords(records, permuted);
    SameEmptiness(records, permuted);
    CandidatesAre(lib, records, protocol);
    CandidatesAre(lib, permuted, protocol);
    var rs, qs := ForProtocol(lib, records, protocol), ForProtocol(lib, permuted, protocol);
    SameEmptiness(rs, qs);
    ExactChoice(lib, rs, requested);
    ExactChoice(lib, qs, requested);
  }

  /** Where one version is named the first record of that version wins, so the choice is independent of
      the order of the answer iff no two admissible records differ in protocol or URL. */
  lemma NamedVersionDependsOnOrder(lib: Library, records: seq<Record>, policy: string, requested: string, protocol: string)
    requires NamesOneVersion(lib, policy, requested)
    ensures OrderIndependent(lib, records, policy, requested, protocol) <==> NoRivals(lib, records, policy, requested, protocol)
  {
    if OrderIndependent(lib, records, policy, requested, protocol) {
      forall a, b | a in records && b in records
                    && Admissible(lib, policy, requested, protocol, a) && Admissible(lib, policy, requested, protocol, b)
        ensures KeyOf(a) == KeyOf(b)
      {
        RivalsTakeTurns(lib, records, policy, requested, protocol, a);
        RivalsTakeTurns(lib, records, policy, requested, protocol, b);
      }
    }
    if NoRivals(lib, records, policy, requested, protocol) {
      forall permuted | multiset(permuted) == multiset(records)
        ensures SameChoice(Resolve(lib, records, policy, requested, protocol), Resolve(lib, permuted, policy, requested, protocol))
      {
        WithoutRivals(lib, records, permuted, policy, requested, protocol);
      }
    }
  }

  lemma RivalsTakeTurns(lib: Library, records: seq<Record>, policy: string, requested: string, protocol: string, r: Record)
    requires NamesOneVersion(lib, policy, requested) && OrderIndependent(lib, records, policy, requested, protocol)
    requires r in records && Admissible(lib, policy, requested, protocol, r)
    ensures SameChoice(Resolve(lib, records, policy, requested, protocol), Chosen(r))
  {
    var moved := MoveToFront(records, r);
    FrontIsChosen(lib, moved, policy, requested, protocol);
  }

  lemma WithoutRivals(lib: Library, records: seq<Record>, permuted: seq<Record>, policy: string, requested: string, protocol: string)
    requires NamesOneVersion(lib, policy, requested) && NoRivals(lib, records, policy, requested, protocol)
    requires multiset(permuted) == multiset(records)
    ensures SameChoice(Resolve(lib, records, policy, requested, protocol), Resolve(lib, permuted, policy, requested, protocol))
  {
    if Resolve(lib, records, policy, requested, protocol).Failed? {
      FailuresAgree(lib, records, permuted, policy, requested, protocol);
    } else {
      SameRecords(records, permuted);
      ChoiceIsOptimal(lib, records, policy, requested, protocol);
      ChoiceIsOptimal(lib, permuted, policy, requested, protocol);
    }
  }

  /** Two records of one version, one per protocol: EXACT follows the order of the answer. */
  lemma ExactFollowsTheAnswer(lib: Library)
    requires lib.version("1.0.0") == Some(Semver(1, 0, 0, ""))
    ensures var a, b := Record("x", Version(1, 0, 0), "a2a", "u"), Record("x", Version(1, 0, 0), "mcp", "u");
            && Resolve(lib, [a, b], EXACT, "1.0.0", "") == Chosen(a)
            && Resolve(lib, [b, a], EXACT, "1.0.0", "") == Chosen(b)
  {
    var a, b := Record("x", Version(1, 0, 0), "a2a", "u"), Record("x", Version(1, 0, 0), "mcp", "u");
    FrontIsChosen(lib, [a, b], EXACT, "1.0.0", "");
    FrontIsChosen(lib, [b, a], EXACT, "1.0.0", "");
  }
}
