/** Domain names in presentation format. A backslash takes the next character literally, so a dot
    separates labels only when it is not escaped; the DNS library splits names that way, while
    `parentOf` looks for the first dot of any kind. */
module DnsNames {
  import opened Text

  // ---------------------------------------------------------------- labels, as the DNS library cuts them

  /** No backslash is left without the character it escapes. */
  predicate Closed(s: string) {
    s == [] || (if s[0] == '\\' then |s| >= 2 && Closed(s[2..]) else Closed(s[1..]))
  }

  function Cut(s: string): (labels: seq<string>)
    ensures |labels| >= 1
  {
    if s == [] then [[]]
    else if s[0] == '\\' then
      (if |s| == 1 then [s] else var rest := Cut(s[2..]); [s[..2] + rest[0]] + rest[1..])
    else
      var rest := Cut(s[1..]);
      if s[0] == '.' then [[]] + rest else [[s[0]] + rest[0]] + rest[1..]
  }

  predicate IsFqdn(s: string) {
    s != [] && s[|s| - 1] == '.' && Closed(s[..|s| - 1])
  }

  function Fqdn(s: string): (r: string)
    ensures r != [] && r[|r| - 1] == '.'
  {
    if IsFqdn(s) then s else s + "."
  }

  /** `dns.SplitDomainName`. */
  function Labels(s: string): seq<string> {
    if s == "" || s == "." then [] else Cut(if IsFqdn(s) then s[..|s| - 1] else s)
  }

  /** `dns.CountLabel`. */
  function CountLabel(s: string): nat {
    if s == "" then 1 else |Labels(s)|
  }

  // ---------------------------------------------------------------- the two name computations

  /** The rightmost n labels. */
  function Rightmost(labels: seq<string>, n: nat): (r: seq<string>)
    requires n <= |labels|
    ensures |r| == n
  {
    labels[|labels| - n..]
  }

  /** The labels under an asterisk. */
  function Starred(labels: seq<string>): string {
    "*." + Join(labels, '.') + "."
  }

  function WildcardOwner(name: string, sigLabels: nat): string {
    var labels := Labels(name);
    if sigLabels >= |labels| then name else Starred(Rightmost(labels, sigLabels))
  }

  /** `strings.Index(s, ".")` for a string that has a dot. */
  function FirstDot(s: string): (i: nat)
    requires '.' in s
    ensures i < |s| && s[i] == '.' && '.' !in s[..i]
  {
    if s[0] == '.' then 0
    else
      var i := FirstDot(s[1..]);
      assert s[..i + 1] == [s[0]] + s[1..][..i];
      i + 1
  }

  function ParentOf(zone: string): string {
    var z := Fqdn(zone);
    if z == "." then "."
    else
      var parent := z[FirstDot(z) + 1..];
      if parent == "" then "." else parent
  }

  // ---------------------------------------------------------------- facts about cutting

  lemma {:induction false} ClosedAppend(a: string, b: string)
    requires Closed(a)
    ensures Closed(a + b) == Closed(b)
    decreases |a|
  {
    if a == [] {
      assert a + b == b;
    } else if a[0] == '\\' {
      assert (a + b)[2..] == a[2..] + b;
      ClosedAppend(a[2..], b);
    } else {
      assert (a + b)[1..] == a[1..] + b;
      ClosedAppend(a[1..], b);
    }
  }

  /** After any dot, escaped or not, the scan is between characters again. */
  lemma {:induction false} ClosedAfterDot(a: string, b: string)
    requires Closed(a + "." + b)
    ensures Closed(b)
    decreases |a|
  {
    var s := a + "." + b;
    if a == [] {
      assert s[1..] == b;
    } else if a[0] == '\\' {
      if |a| == 1 {
        assert s[2..] == b;
      } else {
        assert s[2..] == a[2..] + "." + b;
        ClosedAfterDot(a[2..], b);
      }
    } else {
      assert s[1..] == a[1..] + "." + b;
      ClosedAfterDot(a[1..], b);
    }
  }

  /** A label: closed, and without a dot that would separate. */
  predicate IsLabel(s: string) {
    Closed(s) && Cut(s) == [s]
  }

  lemma PlainLabel(c: char)
    requires c != '.' && c != '\\'
    ensures IsLabel([c])
  {
    assert [c][1..] == [] && Cut([])[1..] == [];
    assert [c] + Cut([])[0] == [c];
  }

  lemma {:induction false} CutAt(head: string, tail: string)
    requires IsLabel(head)
    ensures Cut(head + "." + tail) == [head] + Cut(tail)
    decreases |head|
  {
    var s := head + "." + tail;
    if head == [] {
      assert s[1..] == tail;
    } else if head[0] == '\\' {
      assert s[2..] == head[2..] + "." + tail && s[..2] == head[..2];
      var rest := Cut(head[2..]);
      assert Cut(head)[0] == head[..2] + rest[0] && |rest| == 1;
      CutAt(head[2..], tail);
      assert head == head[..2] + head[2..];
    } else {
      assert head[0] != '.';
      assert s[1..] == head[1..] + "." + tail;
      var rest := Cut(head[1..]);
      assert Cut(head)[0] == [head[0]] + rest[0] && |rest| == 1;
      CutAt(head[1..], tail);
      assert head == [head[0]] + head[1..];
    }
  }

  lemma {:induction false} PartsAreLabels(s: string)
    requires Closed(s)
    ensures forall l :: l in Cut(s) ==> IsLabel(l)
    decreases |s|
  {
    if s != [] && s[0] == '\\' {
      PartsAreLabels(s[2..]);
      var rest := Cut(s[2..]);
      var l := s[..2] + rest[0];
      assert l[2..] == rest[0] && rest[0] in rest;
    } else if s != [] {
      PartsAreLabels(s[1..]);
      var rest := Cut(s[1..]);
      assert rest[0] in rest;
      if s[0] != '.' {
        var l := [s[0]] + rest[0];
        assert l[1..] == rest[0];
      }
    }
  }

  lemma ClosedDotted(head: string, tail: string)
    requires Closed(head) && Closed(tail)
    ensures Closed(head + "." + tail)
  {
    assert head + "." + tail == head + ("." + tail) && ("." + tail)[1..] == tail;
    ClosedAppend(head, "." + tail);
  }

  lemma {:induction false} CutJoin(labels: seq<string>)
    requires |labels| >= 1 && forall l :: l in labels ==> IsLabel(l)
    ensures Cut(Join(labels, '.')) == labels && Closed(Join(labels, '.'))
  {
    assert labels[0] in labels;
    if |labels| == 1 {
      assert labels == [labels[0]] && Join(labels, '.') == labels[0];
    } else {
      var head, tail := labels[0], labels[1..];
      CutJoin(tail);
      CutAt(head, Join(tail, '.'));
      ClosedDotted(head, Join(tail, '.'));
      assert labels == [head] + tail;
    }
  }

  lemma Reassociate(p: string, q: string, r: string, t: string)
    ensures (p + q) + r + t == p + (q + r + t)
  {
  }

  /** Characters put in front of the first part are in front of the joined text. */
  lemma JoinPrefixed(p: string, part: string, rest: seq<string>)
    ensures Join([p + part] + rest, '.') == p + Join([part] + rest, '.')
  {
    assert ([p + part] + rest)[1..] == rest == ([part] + rest)[1..];
    Reassociate(p, part, ['.'], Join(rest, '.'));
  }

  lemma {:induction false} JoinCut(s: string)
    ensures Join(Cut(s), '.') == s
    decreases |s|
  {
    if s == [] || s == "\\" {
    } else if s[0] == '\\' {
      JoinCut(s[2..]);
      var rest := Cut(s[2..]);
      JoinPrefixed(s[..2], rest[0], rest[1..]);
      assert [rest[0]] + rest[1..] == rest;
    } else {
      JoinCut(s[1..]);
      var rest := Cut(s[1..]);
      if s[0] == '.' {
        assert ([[]] + rest)[1..] == rest;
        assert [] + ['.'] + s[1..] == s;
      } else {
        JoinPrefixed([s[0]], rest[0], rest[1..]);
        assert [rest[0]] + rest[1..] == rest;
      }
    }
  }

  // ---------------------------------------------------------------- what the computations achieve

  /** A name as it comes off the wire: closed, and no empty label. */
  predicate ValidName(s: string) {
    Closed(s) && "" !in Labels(s)
  }

  lemma LabelsOfValid(s: string)
    requires ValidName(s) && Labels(s) != []
    ensures forall l :: l in Labels(s) ==> IsLabel(l) && l != ""
    ensures Fqdn(s) == Join(Labels(s), '.') + "."
  {
    var base := if IsFqdn(s) then s[..|s| - 1] else s;
    PartsAreLabels(base);
    JoinCut(base);
    assert IsFqdn(s) ==> s == base + ".";
  }

  lemma LabelsOfClosed(base: string)
    requires Closed(base) && base != ""
    ensures IsFqdn(base + ".") && Labels(base + ".") == Cut(base)
  {
    assert (base + ".")[..|base|] == base;
  }

  lemma ClosedWildcard(rest: string)
    requires Closed(rest)
    ensures Closed("*." + rest) && Cut("*." + rest) == ["*"] + Cut(rest)
  {
    assert "*."[1..] == "." && "."[1..] == "";
    ClosedAppend("*.", rest);
    PlainLabel('*');
    CutAt("*", rest);
    assert "*" + "." + rest == "*." + rest;
  }

  lemma LabelsOfWildcard(rest: string)
    requires Closed(rest)
    ensures Labels("*." + rest + ".") == ["*"] + Cut(rest)
  {
    ClosedWildcard(rest);
    LabelsOfClosed("*." + rest);
  }

  lemma WildcardOfLabels(labels: seq<string>)
    requires labels != [] && forall l :: l in labels ==> IsLabel(l)
    ensures Labels(Starred(labels)) == ["*"] + labels
  {
    CutJoin(labels);
    LabelsOfWildcard(Join(labels, '.'));
  }

  lemma WildcardOfNoLabels()
    ensures Labels(Starred([])) == ["*"] + Cut("")
  {
    LabelsOfWildcard(Join([], '.'));
  }

  lemma OwnerOfSomeLabels(name: string, sigLabels: nat)
    requires ValidName(name) && 1 <= sigLabels < |Labels(name)|
    ensures Labels(WildcardOwner(name, sigLabels)) == ["*"] + Rightmost(Labels(name), sigLabels)
  {
    LabelsOfValid(name);
    var kept := Rightmost(Labels(name), sigLabels);
    assert forall l :: l in kept ==> l in Labels(name);
    WildcardOfLabels(kept);
    assert WildcardOwner(name, sigLabels) == Starred(kept);
  }

  lemma OwnerIsFqdn(name: string, sigLabels: nat)
    requires ValidName(name) && 1 <= sigLabels < |Labels(name)|
    ensures IsFqdn(WildcardOwner(name, sigLabels)) && WildcardOwner(name, sigLabels) != "."
  {
    LabelsOfValid(name);
    var kept := Rightmost(Labels(name), sigLabels);
    assert forall l :: l in kept ==> l in Labels(name);
    CutJoin(kept);
    ClosedWildcard(Join(kept, '.'));
    LabelsOfClosed("*." + Join(kept, '.'));
  }

  /** A fully qualified name is determined by its labels. */
  lemma FqdnByLabels(a: string, b: string)
    requires IsFqdn(a) && IsFqdn(b) && a != "." && b != "." && Labels(a) == Labels(b)
    ensures a == b
  {
    JoinCut(a[..|a| - 1]);
    JoinCut(b[..|b| - 1]);
    assert a == a[..|a| - 1] + "." && b == b[..|b| - 1] + ".";
  }

  lemma OwnerOfNoLabels(name: string)
    requires Labels(name) != []
    ensures |Labels(WildcardOwner(name, 0))| == 2
  {
    assert Rightmost(Labels(name), 0) == [];
    WildcardOfNoLabels();
    assert |["*"] + Cut("")| == 2;
  }

  /** The owner a signature over `sigLabels` labels covers, by section 5.3.2 of RFC 4035: an
      asterisk label before the rightmost `sigLabels` labels. `wildcardOwner` builds that name
      exactly when the signature covers at least one label. */
  lemma {:induction false} WildcardOwnerIsRfc4035(name: string, sigLabels: nat)
    requires ValidName(name) && sigLabels < |Labels(name)|
    ensures Labels(WildcardOwner(name, sigLabels)) == ["*"] + Rightmost(Labels(name), sigLabels) <==> sigLabels >= 1
  {
    if sigLabels >= 1 {
      OwnerOfSomeLabels(name, sigLabels);
    } else {
      OwnerOfNoLabels(name);
      assert |["*"] + Rightmost(Labels(name), sigLabels)| == 1;
    }
  }

  /** Zero covered labels: for "a." the code asks for "*..", not "*.". */
  lemma {:induction false} WildcardOwnerOfZeroLabels()
    ensures WildcardOwner("a.", 0) == "*.." && Labels("*..") == ["*", ""]
  {
    assert IsFqdn("a.") by { assert "a."[..1] == "a"; assert Closed("a"[1..]); }
    PlainLabel('a');
    assert "a."[..1] == "a";
    assert "*." + "" + "." == "*..";
    LabelsOfWildcard("");
  }

  // ---------------------------------------------------------------- the way up is finite

  lemma {:induction false} DanglingDotCloses(s: string)
    requires !Closed(s)
    ensures Closed(s + ".")
    decreases |s|
  {
    if |s| >= 2 && s[0] == '\\' {
      DanglingDotCloses(s[2..]);
      assert (s + ".")[2..] == s[2..] + ".";
    } else if s[0] != '\\' {
      DanglingDotCloses(s[1..]);
      assert (s + ".")[1..] == s[1..] + ".";
    } else {
      assert (s + ".")[2..] == "";
    }
  }

  /** How far a zone is from the root: the first component covers a name that ends inside an
      escape, the second one the rest. */
  function Escapes(zone: string): nat {
    if Closed(zone) then 0 else 1
  }

  function Height(zone: string): nat {
    if zone == "." then 0 else |Fqdn(zone)|
  }

  lemma ClosedFqdn(zone: string)
    ensures Closed(Fqdn(zone))
    ensures Closed(zone) ==> IsFqdn(Fqdn(zone))
  {
    assert Closed(".") by { assert "."[1..] == ""; }
    if IsFqdn(zone) {
      ClosedAppend(zone[..|zone| - 1], ".");
      assert zone == zone[..|zone| - 1] + ".";
    } else if Closed(zone) {
      ClosedAppend(zone, ".");
      assert (zone + ".")[..|zone|] == zone;
    } else {
      DanglingDotCloses(zone);
    }
  }

  lemma AroundDot(z: string, i: nat)
    requires i < |z| && z[i] == '.'
    ensures z == z[..i] + "." + z[i + 1..]
  {
  }

  lemma AfterFirstDot(z: string, parent: string)
    requires '.' in z && parent == z[FirstDot(z) + 1..]
    ensures z == z[..FirstDot(z)] + "." + parent && |parent| < |z|
  {
    AroundDot(z, FirstDot(z));
  }

  lemma ParentTail(zone: string)
    requires ParentOf(zone) != "."
    ensures ParentOf(zone) != "" && ParentOf(zone) == Fqdn(zone)[FirstDot(Fqdn(zone)) + 1..]
  {
  }

  /** The parent of a closed name ends like the name does. */
  lemma TailIsFqdn(z: string, before: string, parent: string)
    requires IsFqdn(z) && z == before + "." + parent && parent != ""
    ensures IsFqdn(parent)
  {
    var tail := parent[..|parent| - 1];
    assert z[..|z| - 1] == before + "." + tail;
    ClosedAfterDot(before, tail);
  }

  lemma ParentIsClosed(zone: string)
    requires ParentOf(zone) != "."
    ensures Closed(ParentOf(zone)) && |ParentOf(zone)| < |Fqdn(zone)|
    ensures Closed(zone) ==> IsFqdn(ParentOf(zone))
  {
    var z, parent := Fqdn(zone), ParentOf(zone);
    ParentTail(zone);
    AfterFirstDot(z, parent);
    ClosedFqdn(zone);
    ClosedAfterDot(z[..FirstDot(z)], parent);
    if Closed(zone) {
      TailIsFqdn(z, z[..FirstDot(z)], parent);
    }
  }

  /** Whatever the signer name is, going to the parent gets strictly closer to the root. */
  lemma {:induction false} ParentIsCloser(zone: string)
    requires zone != "."
    ensures Escapes(ParentOf(zone)) < Escapes(zone) ||
            (Escapes(ParentOf(zone)) == Escapes(zone) && Height(ParentOf(zone)) < Height(zone))
    ensures Closed(zone) && ParentOf(zone) != "." ==> IsFqdn(ParentOf(zone))
  {
    if ParentOf(zone) == "." {
      assert "."[1..] == "";
    } else {
      ParentIsClosed(zone);
    }
  }

  lemma {:induction false} FirstDotAfter(head: string, tail: string)
    requires '.' !in head
    ensures FirstDot(head + "." + tail) == |head|
  {
    if head != [] {
      assert (head + "." + tail)[1..] == head[1..] + "." + tail;
      FirstDotAfter(head[1..], tail);
    }
  }

  lemma ParentOfDotted(zone: string, head: string, tail: string)
    requires '.' !in head && Fqdn(zone) == head + "." + tail && Fqdn(zone) != "."
    ensures ParentOf(zone) == if tail == "" then "." else tail
  {
    FirstDotAfter(head, tail);
    assert (head + "." + tail)[|head| + 1..] == tail;
  }

  lemma JoinIsLong(labels: seq<string>)
    requires labels != [] && labels[0] != ""
    ensures Join(labels, '.') != ""
  {
  }

  lemma {:induction false} LabelsOfJoined(labels: seq<string>)
    requires |labels| >= 1 && forall l :: l in labels ==> IsLabel(l) && l != ""
    ensures Labels(Join(labels, '.') + ".") == labels && Join(labels, '.') != ""
  {
    CutJoin(labels);
    assert labels[0] in labels;
    JoinIsLong(labels);
    LabelsOfClosed(Join(labels, '.'));
  }

  /** No dot of the first label is escaped, or it is the last character of a top-level name. */
  predicate NoHiddenDot(labels: seq<string>)
    requires labels != []
  {
    '.' !in labels[0] || (|labels| == 1 && FirstDot(labels[0]) == |labels[0]| - 1)
  }

  lemma PlainParentDropsOneLabel(zone: string)
    requires ValidName(zone) && Labels(zone) != [] && '.' !in Labels(zone)[0]
    ensures Labels(ParentOf(zone)) == Labels(zone)[1..]
  {
    var labels := Labels(zone);
    LabelsOfValid(zone);
    var head, rest := labels[0], labels[1..];
    assert head in labels;
    if rest == [] {
      assert Fqdn(zone) == head + "." + "";
      ParentOfDotted(zone, head, "");
    } else {
      var tail := Join(rest, '.') + ".";
      assert Fqdn(zone) == head + "." + tail;
      ParentOfDotted(zone, head, tail);
      LabelsOfJoined(rest);
    }
  }

  /** What follows the first label of a joined name. */
  function Behind(rest: seq<string>): string {
    if rest == [] then "." else "." + Join(rest, '.') + "."
  }

  lemma JoinedDotted(labels: seq<string>)
    requires labels != []
    ensures Join(labels, '.') + "." == labels[0] + Behind(labels[1..])
  {
    if |labels| > 1 {
      Regroup(labels[0], ".", Join(labels[1..], '.'), ".");
    }
  }

  lemma Regroup(a: string, b: string, c: string, d: string)
    ensures a + b + c + d == a + (b + c + d)
    ensures a + b + c == a + (b + c)
  {
  }

  /** A dot inside the first label makes `parentOf` stop there, keeping its remainder `v`. */
  lemma HiddenDotParent(zone: string, v: string)
    requires ValidName(zone) && Labels(zone) != [] && '.' in Labels(zone)[0]
    requires v == Labels(zone)[0][FirstDot(Labels(zone)[0]) + 1..]
    ensures ParentOf(zone) == v + Behind(Labels(zone)[1..])
  {
    var labels := Labels(zone);
    LabelsOfValid(zone);
    JoinedDotted(labels);
    AfterFirstDot(labels[0], v);
    DottedLabel(zone, labels[0][..FirstDot(labels[0])], v, Behind(labels[1..]));
  }

  lemma DottedLabel(zone: string, before: string, v: string, behind: string)
    requires '.' !in before && Fqdn(zone) == before + "." + v + behind && behind != ""
    ensures ParentOf(zone) == v + behind
  {
    assert before + "." + v + behind == before + "." + (v + behind);
    assert |Fqdn(zone)| > 1;
    ParentOfDotted(zone, before, v + behind);
  }

  lemma JoinOfFqdn(s: string)
    requires IsFqdn(s) && s != "."
    ensures |Join(Labels(s), '.')| == |s| - 1
  {
    JoinCut(s[..|s| - 1]);
  }

  lemma BehindLength(rest: seq<string>)
    ensures |Behind(rest)| == if rest == [] then 1 else |Join(rest, '.')| + 2
  {
  }

  /** Keeping a remainder of the first label, or just its dot, is not the way to the rest. */
  lemma {:induction false} RemainderIsNoParent(zone: string, v: string)
    requires ValidName(zone) && Labels(zone) != []
    requires ParentOf(zone) == v + Behind(Labels(zone)[1..])
    requires v != "" || |Labels(zone)| > 1
    ensures Labels(ParentOf(zone)) != Labels(zone)[1..]
  {
    var parent, rest := ParentOf(zone), Labels(zone)[1..];
    BehindLength(rest);
    ParentIsClosed(zone);
    JoinOfFqdn(parent);
    assert rest == [] ==> |Join(rest, '.')| == 0;
  }

  /** `parentOf` of a valid name is one label up exactly when no escaped dot hides in the first
      label. */
  lemma {:induction false} ParentDropsOneLabel(zone: string)
    requires ValidName(zone) && Labels(zone) != []
    ensures Labels(ParentOf(zone)) == Labels(zone)[1..] <==> NoHiddenDot(Labels(zone))
  {
    var labels := Labels(zone);
    if '.' !in labels[0] {
      PlainParentDropsOneLabel(zone);
    } else {
      var v := labels[0][FirstDot(labels[0]) + 1..];
      HiddenDotParent(zone, v);
      if v != "" || |labels| > 1 {
        RemainderIsNoParent(zone, v);
      } else {
        assert labels[1..] == [];
      }
    }
  }

  lemma TwoLabels(x: string, y: string)
    requires IsLabel(x) && IsLabel(y) && x != ""
    ensures IsFqdn(x + "." + y + ".") && Labels(x + "." + y + ".") == [x, y]
  {
    var labels := [x, y];
    CutJoin(labels);
    assert labels[1..] == [y] && Join(labels, '.') == x + "." + y;
    LabelsOfClosed(x + "." + y);
  }

  /** An escaped dot in the first label: for `a\.b.c.` the code goes to `b.c.` instead of `c.`. */
  lemma {:induction false} ParentOfHiddenDot()
    ensures Labels("a\\.b.c.") == ["a\\.b", "c"] && !NoHiddenDot(["a\\.b", "c"])
    ensures ParentOf("a\\.b.c.") == "b.c." && Labels("b.c.") == ["b", "c"]
  {
    var zone := "a\\.b.c.";
    EscapedDotIsLabel();
    PlainLabel('b');
    PlainLabel('c');
    TwoLabels("a\\.b", "c");
    TwoLabels("b", "c");
    assert "a\\.b" + "." + "c" + "." == zone && "b" + "." + "c" + "." == "b.c.";
    assert "a\\.b"[2] == '.';
    assert "a\\" + "." + "b.c." == zone;
    ParentOfDotted(zone, "a\\", "b.c.");
  }

  lemma LabelAfterPlain(c: char, rest: string)
    requires c != '.' && c != '\\' && IsLabel(rest)
    ensures IsLabel([c] + rest)
  {
    var s := [c] + rest;
    assert s[1..] == rest && Cut(rest)[1..] == [];
  }

  lemma LabelAfterEscape(c: char, rest: string)
    requires IsLabel(rest)
    ensures IsLabel(['\\', c] + rest)
  {
    var s := ['\\', c] + rest;
    assert s[2..] == rest && s[..2] == ['\\', c] && Cut(rest)[1..] == [];
  }

  lemma EscapedDotIsLabel()
    ensures IsLabel("a\\.b")
  {
    PlainLabel('b');
    LabelAfterEscape('.', "b");
    LabelAfterPlain('a', ['\\', '.'] + "b");
    assert ['a'] + (['\\', '.'] + "b") == "a\\.b";
  }
}
