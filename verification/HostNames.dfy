/** Matching a host against the DNS names of a certificate. */
module HostNames {
  import opened Text

  /** Without one trailing dot and in lower case, by whatever case table. */
  function Normal(lower: char -> char, name: string): string {
    MapChars(lower, TrimDot(name))
  }

  /** `matchesDNSName`: at most one trailing dot is dropped and case is folded on either side. */
  predicate MatchesDnsName(lower: char -> char, pattern: string, host: string) {
    SuffixRule(Normal(lower, pattern), Normal(lower, host))
  }

  /** The suffix test on the lower-case names without a trailing dot. */
  predicate SuffixRule(p: string, h: string) {
    if p == "" || h == "" then false
    else if !("*." <= p) then p == h
    else
      HasSuffix(h, p[1..]) &&
      var head := h[..|h| - (|p| - 1)];
      head != "" && '.' !in head
  }

  /** The rule of section 6.4.3 of RFC 6125, by labels: equal names, or a complete leftmost wildcard
      label standing for exactly one non-empty label. */
  predicate LabelRule(p: string, h: string) {
    var ps, hs := Split(p, '.'), Split(h, '.');
    ps == hs || (|ps| >= 2 && ps[0] == "*" && hs[0] != "" && ps[1..] == hs[1..])
  }

  lemma {:induction false} WildcardSplit(p: string)
    ensures "*." <= p ==> Split(p, '.') == ["*"] + Split(p[2..], '.')
    ensures |Split(p, '.')| >= 2 && Split(p, '.')[0] == "*" ==> "*." <= p
  {
    if "*." <= p {
      assert p == "*" + ['.'] + p[2..];
      SplitAt("*", '.', p[2..]);
    }
    var ps := Split(p, '.');
    if |ps| >= 2 && ps[0] == "*" {
      JoinSplit(p, '.');
      assert p == ps[0] + ['.'] + Join(ps[1..], '.');
    }
  }

  /** A host ending in a dot and `tail`, with no dot before them, has the labels of `tail` behind
      its first one. */
  lemma {:induction false} SuffixGivesLabels(h: string, tail: string)
    requires HasSuffix(h, "." + tail) && '.' !in h[..|h| - |tail| - 1]
    ensures Split(h, '.') == [h[..|h| - |tail| - 1]] + Split(tail, '.')
  {
    var head := h[..|h| - |tail| - 1];
    assert h == head + ("." + tail) == head + ['.'] + tail;
    SplitAt(head, '.', tail);
  }

  lemma JoinFirst(parts: seq<string>)
    requires |parts| >= 2
    ensures Join(parts, '.') == parts[0] + ['.'] + Join(parts[1..], '.')
  {
  }

  /** And conversely. */
  lemma {:induction false} LabelsGiveSuffix(h: string, tail: string)
    requires Split(h, '.')[1..] == Split(tail, '.')
    ensures HasSuffix(h, "." + tail) && h[..|h| - |tail| - 1] == Split(h, '.')[0]
    ensures '.' !in Split(h, '.')[0]
  {
    var hs := Split(h, '.');
    var head := hs[0];
    JoinSplit(h, '.');
    JoinSplit(tail, '.');
    SplitPartsLackSeparator(h, '.');
    assert head in hs;
    JoinFirst(hs);
    SuffixOfJoined(h, head, tail);
  }

  lemma SuffixOfJoined(h: string, head: string, tail: string)
    requires h == head + ['.'] + tail
    ensures HasSuffix(h, "." + tail) && h[..|h| - |tail| - 1] == head
  {
    assert h[|head|..] == "." + tail && h[..|head|] == head;
  }

  lemma LiteralPattern(p: string, h: string)
    requires !("*." <= p)
    ensures LabelRule(p, h) <==> p == h
  {
    WildcardSplit(p);
    SplitInjective(p, h, '.');
  }

  lemma WildcardPatternCovers(tail: string, h: string)
    requires HasSuffix(h, "." + tail) && '.' !in h[..|h| - |tail| - 1]
    requires h[..|h| - |tail| - 1] != ""
    ensures LabelRule("*." + tail, h)
  {
    SuffixGivesLabels(h, tail);
    WildcardLabels(tail);
  }

  lemma WildcardLabels(tail: string)
    ensures Split("*." + tail, '.') == ["*"] + Split(tail, '.')
  {
    assert "*." + tail == "*" + ['.'] + tail;
    SplitAt("*", '.', tail);
  }

  lemma WildcardPatternCoversOnly(tail: string, h: string)
    requires LabelRule("*." + tail, h)
    ensures HasSuffix(h, "." + tail) && '.' !in h[..|h| - |tail| - 1]
    ensures h[..|h| - |tail| - 1] != ""
  {
    WildcardLabels(tail);
    var ps, hs := Split("*." + tail, '.'), Split(h, '.');
    assert ps[1..] == Split(tail, '.') && ps[0] == "*";
    LabelsGiveSuffix(h, tail);
  }

  /** Main theorem: for all strings and every case table, the suffix comparison is the label-wise rule on the names
      without a trailing dot and in lower case; empty names match nothing. */
  lemma SuffixMatchIsLabelRule(lower: char -> char, pattern: string, host: string)
    ensures MatchesDnsName(lower, pattern, host) <==>
            Normal(lower, pattern) != "" && Normal(lower, host) != "" && LabelRule(Normal(lower, pattern), Normal(lower, host))
  {
    var p, h := Normal(lower, pattern), Normal(lower, host);
    if p != "" && h != "" {
      SuffixRuleIsLabelRule(p, h);
    }
  }

  lemma SuffixRuleIsLabelRule(p: string, h: string)
    requires p != "" && h != ""
    ensures SuffixRule(p, h) <==> LabelRule(p, h)
  {
    if "*." <= p {
      var tail := p[2..];
      assert p[1..] == "." + tail && p == "*." + tail;
      if SuffixRule(p, h) {
        WildcardPatternCovers(tail, h);
      }
      if LabelRule(p, h) {
        WildcardPatternCoversOnly(tail, h);
      }
    } else {
      LiteralPattern(p, h);
    }
  }

  predicate Covers(lower: char -> char, sans: seq<string>, host: string) {
    exists i :: 0 <= i < |sans| && MatchesDnsName(lower, sans[i], host)
  }

  /** `CoversHost`. */
  method CoversHost(lower: char -> char, sans: seq<string>, host: string) returns (covered: bool)
    ensures covered <==> Covers(lower, sans, host)
  {
    var i := 0;
    while i < |sans|
      invariant 0 <= i <= |sans| && forall j :: 0 <= j < i ==> !MatchesDnsName(lower, sans[j], host)
    {
      if MatchesDnsName(lower, sans[i], host) {
        return true;
      }
      i := i + 1;
    }
    return false;
  }
}
