/** Versions, fully qualified domain names, ati:// names and certificate fingerprints: the printers,
    the parsers and what they make of each other. */
module Names {
  import opened Text
  import opened Hex

  // ---------------------------------------------------------------- versions

  newtype uint32 = x: int | 0 <= x < 0x1_0000_0000

  datatype Version = Version(major: uint32, minor: uint32, patch: uint32)

  /** `strconv.ParseUint(s, 10, 32)`: digits only, no sign, no overflow. */
  function ParseUint32(s: string): Option<uint32> {
    if s != "" && AllDigits(s) && Atoi(s) < 0x1_0000_0000 then Some(Atoi(s) as uint32) else None
  }

  function ParseVersion(s: string): Option<Version> {
    if s == "" then None
    else
      var parts := Split(if s[0] == 'v' then s[1..] else s, '.');
      if |parts| != 3 then None
      else match (ParseUint32(parts[0]), ParseUint32(parts[1]), ParseUint32(parts[2]))
        case (Some(major), Some(minor), Some(patch)) => Some(Version(major, minor, patch))
        case _ => None
  }

  /** Three parts with dots between them. */
  function Dotted(a: string, b: string, c: string): string {
    a + "." + b + "." + c
  }

  function VersionString(v: Version): string {
    Dotted("v" + Itoa(v.major as nat), Itoa(v.minor as nat), Itoa(v.patch as nat))
  }

  lemma ParsesItoa(n: uint32)
    ensures ParseUint32(Itoa(n as nat)) == Some(n) && '.' !in Itoa(n as nat)
  {
    AtoiItoa(n as nat);
  }

  lemma SplitsInThree(a: string, b: string, c: string)
    requires '.' !in a && '.' !in b && '.' !in c
    ensures Split(Dotted(a, b, c), '.') == [a] + ([b] + [c])
  {
    assert Dotted(a, b, c) == a + ['.'] + (b + ['.'] + c);
    SplitAt(a, '.', b + ['.'] + c);
    SplitAt(b, '.', c);
    SplitLacking(c, '.');
  }

  lemma DottedTail(a: string, b: string, c: string)
    ensures Dotted("v" + a, b, c) != "" && Dotted("v" + a, b, c)[0] == 'v' && Dotted("v" + a, b, c)[1..] == Dotted(a, b, c)
  {
  }

  /** Every version survives printing and parsing. */
  lemma VersionRoundTrip(v: Version)
    ensures ParseVersion(VersionString(v)) == Some(v)
  {
    var a, b, c := Itoa(v.major as nat), Itoa(v.minor as nat), Itoa(v.patch as nat);
    ParsesItoa(v.major);
    ParsesItoa(v.minor);
    ParsesItoa(v.patch);
    DottedTail(a, b, c);
    SplitsInThree(a, b, c);
  }

  /** The digits denote the number. */
  predicate IsNumeral(t: string, n: uint32) {
    t != "" && AllDigits(t) && Atoi(t) == n as int
  }

  predicate AreNumerals(v: Version, a: string, b: string, c: string) {
    IsNumeral(a, v.major) && IsNumeral(b, v.minor) && IsNumeral(c, v.patch)
  }

  lemma ParsesNumerals(v: Version, a: string, b: string, c: string)
    requires AreNumerals(v, a, b, c)
    ensures ParseVersion(Dotted(a, b, c)) == Some(v) && ParseVersion("v" + Dotted(a, b, c)) == Some(v)
  {
    SplitsInThree(a, b, c);
    assert Dotted(a, b, c)[0] == a[0];
    assert ("v" + Dotted(a, b, c))[1..] == Dotted(a, b, c);
  }

  lemma JoinsThree(parts: seq<string>)
    requires |parts| == 3
    ensures Join(parts, '.') == Dotted(parts[0], parts[1], parts[2])
  {
    var rest := parts[1..];
    assert rest[1..] == [parts[2]] && rest[0] == parts[1];
    assert Join(rest, '.') == parts[1] + ['.'] + parts[2];
    assert parts[0] + ['.'] + (parts[1] + ['.'] + parts[2]) == Dotted(parts[0], parts[1], parts[2]);
  }

  /** Exactly three numbers below 2^32 are accepted, in decimal digits with dots between them, with or without a `v`. */
  lemma VersionsAccepted(s: string, v: Version)
    ensures ParseVersion(s) == Some(v) <==>
            exists a, b, c :: AreNumerals(v, a, b, c) && (s == Dotted(a, b, c) || s == "v" + Dotted(a, b, c))
  {
    if ParseVersion(s) == Some(v) {
      var base := if s[0] == 'v' then s[1..] else s;
      var parts := Split(base, '.');
      JoinSplit(base, '.');
      JoinsThree(parts);
      assert AreNumerals(v, parts[0], parts[1], parts[2]);
      assert s == base || s == "v" + base;
    }
    if a, b, c :| AreNumerals(v, a, b, c) && (s == Dotted(a, b, c) || s == "v" + Dotted(a, b, c)) {
      ParsesNumerals(v, a, b, c);
    }
  }

  /** A version as one number. */
  function Rank(v: Version): int {
    (v.major as int * 0x1_0000_0000 + v.minor as int) * 0x1_0000_0000 + v.patch as int
  }

  function Compare(v: Version, w: Version): (r: int)
    ensures r == 0 <==> v == w
    ensures r == -1 <==> Rank(v) < Rank(w)
    ensures r == 1 <==> Rank(v) > Rank(w)
  {
    if v.major != w.major then (if v.major < w.major then -1 else 1)
    else if v.minor != w.minor then (if v.minor < w.minor then -1 else 1)
    else if v.patch != w.patch then (if v.patch < w.patch then -1 else 1)
    else 0
  }

  // ---------------------------------------------------------------- domain names

  const MAX_LABEL_LENGTH: nat := 63

  predicate IsLabelChar(c: char) {
    'a' <= c <= 'z' || 'A' <= c <= 'Z' || '0' <= c <= '9' || c == '-'
  }

  predicate ValidLabel(part: string) {
    && 0 < |part| <= MAX_LABEL_LENGTH
    && (forall i :: 0 <= i < |part| ==> IsLabelChar(part[i]))
    && part[0] != '-' && part[|part| - 1] != '-'
  }

  /** `NewFqdn`: the normalized name, when every label is valid. */
  function NewFqdn(domain: string): Option<string> {
    if domain == "" then None
    else
      var d := TrimDot(domain);
      if forall l :: l in Split(d, '.') ==> ValidLabel(l) then Some(ToLower(d)) else None
  }

  function LowerAll(parts: seq<string>): (r: seq<string>)
    ensures |r| == |parts| && forall i :: 0 <= i < |parts| ==> r[i] == ToLower(parts[i])
  {
    seq(|parts|, i requires 0 <= i < |parts| => ToLower(parts[i]))
  }

  lemma {:induction false} SplitLower(s: string)
    ensures Split(ToLower(s), '.') == LowerAll(Split(s, '.'))
  {
    if s != "" {
      SplitLower(s[1..]);
      assert ToLower(s)[1..] == ToLower(s[1..]);
      var rest := Split(s[1..], '.');
      if s[0] != '.' {
        assert ToLower([s[0]] + rest[0]) == [Lower(s[0])] + ToLower(rest[0]);
      }
    }
  }

  lemma {:induction false} LastPartOfDotted(s: string)
    requires s != "" && s[|s| - 1] == '.'
    ensures |Split(s, '.')| >= 2 && Split(s, '.')[|Split(s, '.')| - 1] == ""
  {
    if |s| > 1 {
      LastPartOfDotted(s[1..]);
    } else {
      assert s[1..] == "";
    }
  }

  lemma LowerKeepsLabels(l: string)
    requires ValidLabel(l)
    ensures ValidLabel(ToLower(l))
  {
    var r := ToLower(l);
    forall i | 0 <= i < |r|
      ensures IsLabelChar(r[i]) && (r[i] == '-' <==> l[i] == '-')
    {
      assert IsLabelChar(l[i]);
    }
  }

  /** A normalized name has only lower-case valid labels, so it is its own normal form. */
  lemma FqdnIsNormal(domain: string)
    requires NewFqdn(domain).Some?
    ensures var f := NewFqdn(domain).value;
            f != "" && TrimDot(f) == f && ToLower(f) == f && forall l :: l in Split(f, '.') ==> ValidLabel(l)
  {
    var d := TrimDot(domain);
    var f := ToLower(d);
    assert !ValidLabel("");
    assert Split("", '.') == [""];
    assert d != "";
    if d[|d| - 1] == '.' {
      LastPartOfDotted(d);
      assert false;
    }
    SplitLower(d);
    forall l | l in Split(f, '.')
      ensures ValidLabel(l)
    {
      var i :| 0 <= i < |Split(f, '.')| && Split(f, '.')[i] == l;
      assert Split(d, '.')[i] in Split(d, '.');
      LowerKeepsLabels(Split(d, '.')[i]);
    }
    ToLowerIdempotent(d);
  }

  lemma FqdnIdempotent(domain: string)
    requires NewFqdn(domain).Some?
    ensures NewFqdn(NewFqdn(domain).value) == NewFqdn(domain)
  {
    FqdnIsNormal(domain);
  }

  /** The labels make up a name. */
  predicate AreLabels(labels: seq<string>) {
    labels != [] && forall l :: l in labels ==> ValidLabel(l)
  }

  lemma {:induction false} JoinedLabels(labels: seq<string>)
    requires AreLabels(labels)
    ensures Split(Join(labels, '.'), '.') == labels
    ensures Join(labels, '.') != "" && Join(labels, '.')[|Join(labels, '.')| - 1] != '.'
  {
    var l := labels[0];
    assert l in labels && '.' !in l;
    if |labels| == 1 {
      SplitLacking(l, '.');
    } else {
      assert forall k :: k in labels[1..] ==> k in labels;
      JoinedLabels(labels[1..]);
      SplitAt(l, '.', Join(labels[1..], '.'));
    }
  }

  /** A domain name of these labels, with a trailing dot or without. */
  predicate IsDomainOf(domain: string, labels: seq<string>) {
    AreLabels(labels) && (domain == Join(labels, '.') || domain == Join(labels, '.') + ".")
  }

  /** Exactly the valid labels with dots between them are accepted, with at most one dot behind them; what is handed out is
      the name in lower case. */
  lemma {:induction false} FqdnsAccepted(domain: string, f: string)
    ensures NewFqdn(domain) == Some(f) <==> exists labels :: IsDomainOf(domain, labels) && f == ToLower(Join(labels, '.'))
  {
    if NewFqdn(domain) == Some(f) {
      LabelsOfDomain(domain);
    }
    if labels :| IsDomainOf(domain, labels) && f == ToLower(Join(labels, '.')) {
      AcceptsDomain(domain, labels);
    }
  }

  lemma LabelsOfDomain(domain: string)
    requires NewFqdn(domain).Some?
    ensures IsDomainOf(domain, Split(TrimDot(domain), '.'))
    ensures NewFqdn(domain).value == ToLower(Join(Split(TrimDot(domain), '.'), '.'))
  {
    JoinSplit(TrimDot(domain), '.');
    assert domain == TrimDot(domain) || domain == TrimDot(domain) + ".";
  }

  lemma AcceptsDomain(domain: string, labels: seq<string>)
    requires IsDomainOf(domain, labels)
    ensures NewFqdn(domain) == Some(ToLower(Join(labels, '.')))
  {
    JoinedLabels(labels);
    var name := Join(labels, '.');
    assert (name + ".")[..|name|] == name;
    assert TrimDot(domain) == name;
  }

  /** A `models.Fqdn`: what `NewFqdn` hands out. */
  type Fqdn = f: string | NewFqdn(f) == Some(f) witness (NameOfOneLetter(); "a")

  lemma NameOfOneLetter()
    ensures NewFqdn("a") == Some("a")
  {
    assert TrimDot("a") == "a";
    SplitLacking("a", '.');
    assert ToLower("a") == "a";
  }

  /** Only letters, digits, hyphens and dots make up a normalized name. */
  lemma FqdnCharacters(domain: string, i: nat)
    requires NewFqdn(domain).Some? && i < |NewFqdn(domain).value|
    ensures var c := NewFqdn(domain).value[i]; c == '.' || IsLabelChar(c)
  {
    FqdnIsNormal(domain);
    var f := NewFqdn(domain).value;
    assert forall k :: 0 <= k < |Split(f, '.')| ==> Split(f, '.')[k] in Split(f, '.');
    CharacterOfPart(f, i);
  }

  predicate LabelChars(s: string) {
    forall j :: 0 <= j < |s| ==> IsLabelChar(s[j])
  }

  lemma {:induction false} CharacterOfPart(s: string, i: nat)
    requires i < |s| && forall k :: 0 <= k < |Split(s, '.')| ==> LabelChars(Split(s, '.')[k])
    ensures s[i] == '.' || IsLabelChar(s[i])
  {
    var rest, parts := Split(s[1..], '.'), Split(s, '.');
    if s[0] == '.' {
      assert forall k :: 0 <= k < |rest| ==> rest[k] == parts[k + 1];
    } else {
      assert parts[0] == [s[0]] + rest[0] && IsLabelChar(parts[0][0]);
      assert LabelChars(rest[0]) by {
        assert forall j :: 0 <= j < |rest[0]| ==> parts[0][j + 1] == rest[0][j];
      }
      assert forall k :: 1 <= k < |rest| ==> rest[k] == parts[k];
    }
    if i > 0 {
      CharacterOfPart(s[1..], i - 1);
    }
  }

  // ---------------------------------------------------------------- cache keys

  function FqdnVersionKey(fqdn: string, v: Version): string {
    fqdn + ":" + VersionString(v)
  }

  /** Distinct (name, version) pairs get distinct cache keys. */
  lemma CacheKeysAreDistinct(a: string, b: string, v: Version, w: Version)
    requires NewFqdn(a).Some? && NewFqdn(b).Some?
    ensures FqdnVersionKey(NewFqdn(a).value, v) == FqdnVersionKey(NewFqdn(b).value, w) <==>
            NewFqdn(a) == NewFqdn(b) && v == w
  {
    var f, g := NewFqdn(a).value, NewFqdn(b).value;
    var k, m := FqdnVersionKey(f, v), FqdnVersionKey(g, w);
    if k == m {
      forall i | 0 <= i < |f| ensures f[i] != ':' { FqdnCharacters(a, i); }
      forall i | 0 <= i < |g| ensures g[i] != ':' { FqdnCharacters(b, i); }
      SplitAt(f, ':', VersionString(v));
      SplitAt(g, ':', VersionString(w));
      assert k == f + [':'] + VersionString(v) && m == g + [':'] + VersionString(w);
      assert f == Split(k, ':')[0] == g;
      assert VersionString(v) == k[|f| + 1..] == VersionString(w);
      VersionRoundTrip(v);
      VersionRoundTrip(w);
    }
  }

  // ---------------------------------------------------------------- ati:// names

  datatype AtiName = AtiName(version: Version, host: string, raw: string)

  const ATI_PREFIX := "ati://"

  /** `strings.SplitN`: at most n parts, the last one unsplit. */
  function SplitN(s: string, sep: char, n: nat): (parts: seq<string>)
    requires n >= 1
    ensures 1 <= |parts| <= n
    decreases n
  {
    if n == 1 || sep !in s then [s]
    else
      var i := IndexOf(s, sep);
      [s[..i]] + SplitN(s[i + 1..], sep, n - 1)
  }

  function IndexOf(s: string, c: char): (i: nat)
    requires c in s
    ensures i < |s| && s[i] == c && c !in s[..i]
  {
    if s[0] == c then 0
    else
      assert s[..IndexOf(s[1..], c) + 1] == [s[0]] + s[1..][..IndexOf(s[1..], c)];
      IndexOf(s[1..], c) + 1
  }

  /** With the case table a parameter. */
  function ParseAtiNameBy(lower: char -> char, uri: string): (name: Option<AtiName>)
    ensures name.Some? ==> name.value.raw == uri
  {
    if !(ATI_PREFIX <= uri) then None
    else
      var rest := uri[|ATI_PREFIX|..];
      if !("v" <= rest) then None
      else
        var parts := SplitN(rest, '.', 4);
        if |parts| < 4 then None
        else match ParseVersion(Dotted(parts[0], parts[1], parts[2]))
          case None => None
          case Some(v) => Some(AtiName(v, MapChars(lower, parts[3]), uri))
  }

  function ParseAtiName(uri: string): (name: Option<AtiName>)
    ensures name.Some? ==> name.value.raw == uri
  {
    ParseAtiNameBy(Lower, uri)
  }

  function AtiUri(v: Version, host: string): string {
    ATI_PREFIX + VersionString(v) + "." + host
  }

  lemma {:induction false} IndexOfAfter(head: string, c: char, tail: string)
    requires c !in head
    ensures IndexOf(head + [c] + tail, c) == |head|
  {
    if head != "" {
      assert (head + [c] + tail)[1..] == head[1..] + [c] + tail;
      IndexOfAfter(head[1..], c, tail);
    }
  }

  lemma SplitNStep(head: string, c: char, tail: string, n: nat)
    requires c !in head && n >= 2
    ensures SplitN(head + [c] + tail, c, n) == [head] + SplitN(tail, c, n - 1)
  {
    var s := head + [c] + tail;
    IndexOfAfter(head, c, tail);
    assert s[|head|] == c && s[..|head|] == head && s[|head| + 1..] == tail;
  }

  lemma SplitsInTwo(c: string, host: string, n: nat)
    requires '.' !in c && n == 2
    ensures SplitN(c + ['.'] + host, '.', n) == [c, host]
  {
    SplitNStep(c, '.', host, n);
  }

  lemma SplitsInFour(a: string, b: string, c: string, host: string, n: nat)
    requires '.' !in a && '.' !in b && '.' !in c && n == 4
    ensures SplitN(a + ['.'] + (b + ['.'] + (c + ['.'] + host)), '.', n) == [a] + ([b] + [c, host])
  {
    var cHost := c + ['.'] + host;
    SplitsInTwo(c, host, n - 2);
    SplitNStep(b, '.', cHost, n - 1);
    SplitNStep(a, '.', b + ['.'] + cHost, n);
  }

  lemma AtiUriRest(v: Version, host: string)
    ensures ATI_PREFIX <= AtiUri(v, host)
    ensures AtiUri(v, host)[|ATI_PREFIX|..] == VersionString(v) + "." + host
    ensures "v" <= VersionString(v) + "." + host
  {
    var rest := VersionString(v) + "." + host;
    assert AtiUri(v, host) == ATI_PREFIX + rest;
  }

  lemma DottedWith(a: string, b: string, c: string, host: string)
    ensures Dotted(a, b, c) + "." + host == a + ['.'] + (b + ['.'] + (c + ['.'] + host))
  {
  }

  lemma VersionParts(v: Version, host: string)
    ensures var parts := SplitN(VersionString(v) + "." + host, '.', 4);
            |parts| == 4 && Dotted(parts[0], parts[1], parts[2]) == VersionString(v) && parts[3] == host
  {
    var a, b, c := "v" + Itoa(v.major as nat), Itoa(v.minor as nat), Itoa(v.patch as nat);
    ParsesItoa(v.major);
    ParsesItoa(v.minor);
    ParsesItoa(v.patch);
    SplitsInFour(a, b, c, host, 4);
    DottedWith(a, b, c, host);
  }

  /** Printing a version and a host and parsing the name gives back the version and the host in
      lower case, whatever the host and the case table are. */
  lemma AtiNameRoundTrip(lower: char -> char, v: Version, host: string)
    ensures ParseAtiNameBy(lower, AtiUri(v, host)) == Some(AtiName(v, MapChars(lower, host), AtiUri(v, host)))
  {
    AtiUriRest(v, host);
    VersionParts(v, host);
    VersionRoundTrip(v);
  }

  /** The parts of `SplitN`, joined again. */
  lemma {:induction false} SplitNJoins(s: string, sep: char, n: nat)
    requires n >= 1
    ensures Join(SplitN(s, sep, n), sep) == s
    decreases n
  {
    if n > 1 && sep in s {
      var i := IndexOf(s, sep);
      SplitNJoins(s[i + 1..], sep, n - 1);
      JoinsOneMore(s[..i], SplitN(s[i + 1..], sep, n - 1), sep);
      assert s == s[..i] + [sep] + s[i + 1..];
    }
  }

  lemma JoinsOneMore(part: string, parts: seq<string>, sep: char)
    requires parts != []
    ensures Join([part] + parts, sep) == part + [sep] + Join(parts, sep)
  {
    assert ([part] + parts)[1..] == parts;
  }

  lemma JoinsFour(parts: seq<string>)
    requires |parts| == 4
    ensures Join(parts, '.') == Dotted(parts[0], parts[1], parts[2]) + "." + parts[3]
  {
    var rest := parts[1..];
    JoinsThree(rest);
    DottedWith(parts[0], parts[1], parts[2], parts[3]);
    assert Join(parts, '.') == parts[0] + ['.'] + Dotted(parts[1], parts[2], parts[3]);
    assert Dotted(parts[1], parts[2], parts[3]) == parts[1] + ['.'] + (parts[2] + ['.'] + parts[3]);
  }

  /** What follows the prefix: a version with a `v`, a dot, and the host. */
  lemma VersionAndHost(rest: string, v: Version) returns (a: string, b: string, c: string)
    requires var parts := SplitN(rest, '.', 4);
             "v" <= rest && |parts| == 4 && ParseVersion(Dotted(parts[0], parts[1], parts[2])) == Some(v)
    ensures AreNumerals(v, a, b, c) && rest == "v" + Dotted(a, b, c) + "." + SplitN(rest, '.', 4)[3]
  {
    var parts := SplitN(rest, '.', 4);
    var text := Dotted(parts[0], parts[1], parts[2]);
    SplitNJoins(rest, '.', 4);
    JoinsFour(parts);
    VersionsAccepted(text, v);
    a, b, c :| AreNumerals(v, a, b, c) && (text == Dotted(a, b, c) || text == "v" + Dotted(a, b, c));
    assert text[0] == rest[0] == 'v';
    assert Dotted(a, b, c)[0] == a[0];
  }

  lemma NumeralParts(v: Version, a: string, b: string, c: string, host: string)
    requires AreNumerals(v, a, b, c)
    ensures var parts := SplitN("v" + Dotted(a, b, c) + "." + host, '.', 4);
            |parts| == 4 && Dotted(parts[0], parts[1], parts[2]) == "v" + Dotted(a, b, c) && parts[3] == host
  {
    SplitsInFour("v" + a, b, c, host, 4);
    DottedWith("v" + a, b, c, host);
    DottedTail(a, b, c);
    DottedSigned(a, b, c);
  }

  lemma DottedSigned(a: string, b: string, c: string)
    ensures Dotted("v" + a, b, c) == "v" + Dotted(a, b, c)
  {
  }

  /** The URI is this version and this host behind the prefix. */
  predicate IsAtiUri(uri: string, v: Version, a: string, b: string, c: string, host: string) {
    AreNumerals(v, a, b, c) && uri == "ati://" + ("v" + Dotted(a, b, c) + "." + host)
  }

  lemma ParsesAtiUri(lower: char -> char, uri: string, v: Version, a: string, b: string, c: string, host: string)
    requires IsAtiUri(uri, v, a, b, c, host)
    ensures ParseAtiNameBy(lower, uri) == Some(AtiName(v, MapChars(lower, host), uri))
  {
    var rest := "v" + Dotted(a, b, c) + "." + host;
    assert uri[|ATI_PREFIX|..] == rest && rest[0] == 'v';
    NumeralParts(v, a, b, c, host);
    ParsesNumerals(v, a, b, c);
  }

  lemma SplitAtiUri(lower: char -> char, uri: string, rest: string)
    requires ParseAtiNameBy(lower, uri).Some? && |uri| >= |ATI_PREFIX| && rest == uri[|ATI_PREFIX|..]
    ensures uri == "ati://" + rest && "v" <= rest
    ensures var name, parts := ParseAtiNameBy(lower, uri).value, SplitN(rest, '.', 4);
            && |parts| == 4 && ParseVersion(Dotted(parts[0], parts[1], parts[2])) == Some(name.version)
            && name == AtiName(name.version, MapChars(lower, parts[3]), uri)
  {
    assert uri == uri[..|ATI_PREFIX|] + rest;
  }

  lemma PartsOfAtiUri(lower: char -> char, uri: string) returns (a: string, b: string, c: string, host: string)
    requires ParseAtiNameBy(lower, uri).Some?
    ensures var name := ParseAtiNameBy(lower, uri).value;
            IsAtiUri(uri, name.version, a, b, c, host) && name == AtiName(name.version, MapChars(lower, host), uri)
  {
    a, b, c, host := PartsOfRest(lower, uri, uri[|ATI_PREFIX|..], ParseAtiNameBy(lower, uri).value);
  }

  lemma PartsOfRest(lower: char -> char, uri: string, rest: string, name: AtiName) returns (a: string, b: string, c: string, host: string)
    requires ParseAtiNameBy(lower, uri) == Some(name) && |uri| >= |ATI_PREFIX| && rest == uri[|ATI_PREFIX|..]
    ensures IsAtiUri(uri, name.version, a, b, c, host) && name == AtiName(name.version, MapChars(lower, host), uri)
  {
    SplitAtiUri(lower, uri, rest);
    a, b, c := VersionAndHost(rest, name.version);
    host := SplitN(rest, '.', 4)[3];
  }

  /** Exactly the prefix `ati://v`, three numbers below 2^32 with dots between them, a dot and any host are accepted. */
  lemma {:induction false} AtiNamesAccepted(lower: char -> char, uri: string, name: AtiName)
    ensures ParseAtiNameBy(lower, uri) == Some(name) <==>
            exists a, b, c, host :: IsAtiUri(uri, name.version, a, b, c, host) && name == AtiName(name.version, MapChars(lower, host), uri)
  {
    if ParseAtiNameBy(lower, uri) == Some(name) {
      var a, b, c, host := PartsOfAtiUri(lower, uri);
    }
    if a, b, c, host :| IsAtiUri(uri, name.version, a, b, c, host) && name == AtiName(name.version, MapChars(lower, host), uri) {
      ParsesAtiUri(lower, uri, name.version, a, b, c, host);
    }
  }

  // ---------------------------------------------------------------- fingerprints

  function ParseFingerprint(s: string): Option<Digest> {
    var hex :=
      if "SHA256:" <= s || "sha256:" <= s then Some(s[7..])
      else if "SHA-256:" <= s || "sha-256:" <= s then Some(s[8..])
      else None;
    if hex.None? then None
    else match Decode(hex.value)
      case Some(b) => if |b| == DIGEST_SIZE then Some(b) else None
      case None => None
  }

  function FingerprintString(d: Digest): string {
    "SHA256:" + Encode(d)
  }

  lemma FingerprintRoundTrip(d: Digest)
    ensures ParseFingerprint(FingerprintString(d)) == Some(d)
  {
    DecodeEncode(d);
    assert FingerprintString(d)[7..] == Encode(d);
  }

  predicate IsFingerprintPrefix(prefix: string) {
    prefix == "SHA256:" || prefix == "sha256:" || prefix == "SHA-256:" || prefix == "sha-256:"
  }

  /** The prefix and 64 hexadecimal digits. */
  predicate IsFingerprint(s: string, prefix: string, hex: string, d: Digest) {
    IsFingerprintPrefix(prefix) && s == prefix + hex && ToLower(hex) == Encode(d)
  }

  lemma PrefixDecides(prefix: string, hex: string)
    requires IsFingerprintPrefix(prefix)
    ensures ParseFingerprint(prefix + hex) ==
            match Decode(hex) case Some(b) => (if |b| == DIGEST_SIZE then Some(b) else None) case None => None
  {
    var s := prefix + hex;
    assert s[|prefix|..] == hex && prefix <= s;
    if |prefix| == 8 {
      assert s[3] == '-' && !("SHA256:" <= s) && !("sha256:" <= s);
    }
  }

  /** Exactly a prefix in one of four spellings and the digits of the digest, in either case, are accepted. */
  lemma {:induction false} FingerprintsAccepted(s: string, d: Digest)
    ensures ParseFingerprint(s) == Some(d) <==> exists prefix, hex :: IsFingerprint(s, prefix, hex, d)
  {
    if ParseFingerprint(s) == Some(d) {
      var n := if "SHA256:" <= s || "sha256:" <= s then 7 else 8;
      DecodesExactly(s[n..], d);
      assert IsFingerprint(s, s[..n], s[n..], d);
    }
    if prefix, hex :| IsFingerprint(s, prefix, hex, d) {
      PrefixDecides(prefix, hex);
      DecodesExactly(hex, d);
    }
  }

  /** What `strings.TrimSpace` takes away. */
  predicate IsSpace(c: char) {
    c in "\t\n\U{B}\U{C}\r \U{85}\U{A0}\U{1680}\U{2028}\U{2029}\U{202F}\U{205F}\U{3000}" || '\U{2000}' <= c <= '\U{200A}'
  }

  predicate IsBlank(s: string) {
    forall i :: 0 <= i < |s| ==> IsSpace(s[i])
  }

  predicate Matches(d: Digest, other: string) {
    ParseFingerprint(other) == Some(d)
  }

  predicate MatchesAny(d: Digest, candidates: seq<string>) {
    exists i :: 0 <= i < |candidates| && candidates[i] != "" && Matches(d, candidates[i])
  }

  predicate MatchesWithRenewal(d: Digest, current: string, previous: string) {
    !IsBlank(current) && MatchesAny(d, [current, previous])
  }

  /** The current fingerprint matches, or the previous one does while the current one is not blank:
      a previous fingerprint alone is no evidence. */
  lemma RenewalNeedsCurrent(d: Digest, current: string, previous: string)
    ensures MatchesWithRenewal(d, current, previous) <==>
            Matches(d, current) || (Matches(d, previous) && !IsBlank(current))
  {
    var candidates := [current, previous];
    if Matches(d, current) {
      assert candidates[0] == current;
      assert current[0] == 'S' || current[0] == 's';
      assert !IsSpace(current[0]);
    }
    if Matches(d, previous) {
      assert candidates[1] == previous;
    }
  }
}
