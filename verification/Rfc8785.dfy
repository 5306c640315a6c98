/** The canonical text that RFC 8785 asks for, and exactly when the SDK's text is that one: strings escape
    no more than section 3.2.2.2 says, and names are ordered by UTF-16 code units as section 3.2.3
    says. Numbers are written alike. */
module Rfc8785 {
  import opened Text
  import opened Json
  import opened Numerals
  import opened Jcs

  // ---------------------------------------------------------------- the order of UTF-16 code units

  function Units(c: char): (u: seq<nat>)
    ensures |u| >= 1
  {
    var n := c as nat;
    if n < 0x10000 then [n] else [0xD800 + (n - 0x10000) / 0x400, 0xDC00 + (n - 0x10000) % 0x400]
  }

  function Utf16(s: string): seq<nat> {
    if s == "" then [] else Units(s[0]) + Utf16(s[1..])
  }

  predicate UnitsLess(a: seq<nat>, b: seq<nat>) {
    b != [] && (a == [] || a[0] < b[0] || (a[0] == b[0] && UnitsLess(a[1..], b[1..])))
  }

  predicate RfcLess(a: string, b: string) {
    UnitsLess(Utf16(a), Utf16(b))
  }

  lemma {:induction false} UnitsLessTransitive(a: seq<nat>, b: seq<nat>, c: seq<nat>)
    requires UnitsLess(a, b) && UnitsLess(b, c)
    ensures UnitsLess(a, c)
  {
    if a != [] && a[0] == b[0] == c[0] {
      UnitsLessTransitive(a[1..], b[1..], c[1..]);
    }
  }

  predicate IsAstral(c: char) {
    c as nat >= 0x10000
  }

  predicate IsUpperBmp(c: char) {
    0xE000 <= c as nat < 0x10000
  }

  /** Where the two strings first differ, one has a character outside the basic plane and the other one of
      its upper end, above the surrogates. */
  predicate Straddles(a: string, b: string) {
    && a != "" && b != ""
    && if a[0] == b[0] then Straddles(a[1..], b[1..])
       else (IsAstral(a[0]) && IsUpperBmp(b[0])) || (IsUpperBmp(a[0]) && IsAstral(b[0]))
  }

  lemma SameUnits(u: seq<nat>, x: seq<nat>, y: seq<nat>)
    requires 1 <= |u| <= 2
    ensures UnitsLess(u + x, u + y) <==> UnitsLess(x, y)
  {
    assert (u + x)[1..] == u[1..] + x && (u + y)[1..] == u[1..] + y;
    if |u| == 2 {
      assert (u[1..] + x)[1..] == x && (u[1..] + y)[1..] == y;
    } else {
      assert u[1..] + x == x && u[1..] + y == y;
    }
  }

  lemma OtherUnits(c: char, d: char, x: seq<nat>, y: seq<nat>)
    requires c != d
    ensures UnitsLess(Units(c) + x, Units(d) + y) <==>
            if (IsAstral(c) && IsUpperBmp(d)) || (IsUpperBmp(c) && IsAstral(d)) then d < c else c < d
  {
    var a, b := Units(c) + x, Units(d) + y;
    assert a[0] == Units(c)[0] && b[0] == Units(d)[0];
    if IsAstral(c) && IsAstral(d) {
      var m, n := c as nat - 0x10000, d as nat - 0x10000;
      assert m == (m / 0x400) * 0x400 + m % 0x400 && n == (n / 0x400) * 0x400 + n % 0x400;
      assert a[1..][0] == Units(c)[1] && b[1..][0] == Units(d)[1];
    }
  }

  /** The two orders disagree on two strings if and only if they straddle the surrogates. */
  lemma {:induction false} OrdersDisagree(a: string, b: string)
    ensures Less(a, b) != RfcLess(a, b) <==> Straddles(a, b)
  {
    if a != "" && b != "" {
      if a[0] == b[0] {
        OrdersDisagree(a[1..], b[1..]);
        SameUnits(Units(a[0]), Utf16(a[1..]), Utf16(b[1..]));
      } else {
        OtherUnits(a[0], b[0], Utf16(a[1..]), Utf16(b[1..]));
      }
    }
  }

  lemma {:induction false} StraddlesBothWays(a: string, b: string)
    ensures Straddles(a, b) <==> Straddles(b, a)
  {
    if a != "" && b != "" && a[0] == b[0] {
      StraddlesBothWays(a[1..], b[1..]);
    }
  }

  lemma RfcLessTotal(a: string, b: string)
    ensures a != b ==> RfcLess(a, b) || RfcLess(b, a)
    ensures !(RfcLess(a, b) && RfcLess(b, a))
    ensures !RfcLess(a, a)
  {
    OrdersDisagree(a, b);
    OrdersDisagree(b, a);
    OrdersDisagree(a, a);
    StraddlesBothWays(a, b);
    NeverStraddlesItself(a);
    LessTotal(a, b);
    LessTotal(a, a);
  }

  lemma {:induction false} NeverStraddlesItself(a: string)
    ensures !Straddles(a, a)
  {
    if a != "" {
      NeverStraddlesItself(a[1..]);
    }
  }

  // ---------------------------------------------------------------- names in that order

  ghost predicate IsLeast(keys: set<string>, k: string) {
    k in keys && forall j :: j in keys ==> j == k || RfcLess(k, j)
  }

  lemma {:induction false} SomeLeast(keys: set<string>)
    requires keys != {}
    ensures exists k :: IsLeast(keys, k)
  {
    var k :| k in keys;
    if keys == {k} {
      assert IsLeast(keys, k);
    } else {
      SomeLeast(keys - {k});
      var l :| IsLeast(keys - {k}, l);
      RfcLessTotal(k, l);
      if RfcLess(k, l) {
        forall j | j in keys ensures j == k || RfcLess(k, j) {
          assert j != k ==> j in keys - {k};
          if j != k && j != l { UnitsLessTransitive(Utf16(k), Utf16(l), Utf16(j)); }
        }
        assert IsLeast(keys, k);
      } else {
        assert IsLeast(keys, l);
      }
    }
  }

  predicate RfcSorted(keys: seq<string>) {
    forall i, j :: 0 <= i < j < |keys| ==> RfcLess(keys[i], keys[j])
  }

  /** The names in ascending order of their code units. */
  ghost function RfcKeys(keys: set<string>): (r: seq<string>)
    ensures RfcSorted(r) && forall k :: k in r <==> k in keys
  {
    if keys == {} then []
    else
      SomeLeast(keys);
      var k :| IsLeast(keys, k);
      var rest := RfcKeys(keys - {k});
      assert forall i :: 0 <= i < |rest| ==> rest[i] in rest;
      [k] + rest
  }

  /** The two orders agree on all these names. */
  predicate OrdersAgree(keys: set<string>) {
    forall a, b :: a in keys && b in keys ==> !Straddles(a, b)
  }

  lemma SameOrderIfAgree(keys: set<string>)
    requires OrdersAgree(keys)
    ensures SortedKeys(keys) == RfcKeys(keys)
  {
    var r := RfcKeys(keys);
    forall i, j | 0 <= i < j < |r| ensures Less(r[i], r[j]) {
      assert r[i] in r && r[j] in r;
      OrdersDisagree(r[i], r[j]);
    }
    SortedIsUnique(SortedKeys(keys), r);
  }

  lemma SortedBothWays(r: seq<string>, i: nat, j: nat)
    requires StrictlySorted(r) && RfcSorted(r) && i <= j < |r|
    ensures !Straddles(r[i], r[j]) && !Straddles(r[j], r[i])
  {
    StraddlesBothWays(r[i], r[j]);
    if i == j {
      NeverStraddlesItself(r[i]);
    } else {
      assert Less(r[i], r[j]) && RfcLess(r[i], r[j]);
      OrdersDisagree(r[i], r[j]);
    }
  }

  lemma AgreeIfSameOrder(keys: set<string>)
    requires SortedKeys(keys) == RfcKeys(keys)
    ensures OrdersAgree(keys)
  {
    var r := RfcKeys(keys);
    forall a, b | a in keys && b in keys ensures !Straddles(a, b) {
      var i :| 0 <= i < |r| && r[i] == a;
      var j :| 0 <= j < |r| && r[j] == b;
      SortedBothWays(r, if i < j then i else j, if i < j then j else i);
    }
  }

  // ---------------------------------------------------------------- strings

  /** The characters `json.Marshal` escapes for the sake of HTML and JavaScript. */
  predicate IsMarkup(c: char) {
    c == '<' || c == '>' || c == '&' || c == '\U{2028}' || c == '\U{2029}'
  }

  predicate NoMarkup(s: string) {
    forall i :: 0 <= i < |s| ==> !IsMarkup(s[i])
  }

  /** Section 3.2.2.2: the short escapes where there are any, other control characters in hexadecimal, the quote and
      the backslash, and every other character as it is. */
  function RfcEscape(c: char): (p: Piece)
    ensures ValidPiece(p)
  {
    if c == '"' || c == '\\' then Short(c)
    else if c == 8 as char then Short('b')
    else if c == 9 as char then Short('t')
    else if c == 10 as char then Short('n')
    else if c == 12 as char then Short('f')
    else if c == 13 as char then Short('r')
    else if c as nat < 0x20 then Hex4("00" + [if c as nat < 0x10 then '0' else '1'] + [HEX_DIGITS[c as nat % 16]])
    else Raw(c)
  }

  const HEX_DIGITS := "0123456789abcdef"

  function RfcEscapeAll(s: string): (ps: seq<Piece>)
    ensures ValidPieces(ps) && |ps| == |s|
    ensures forall i :: 0 <= i < |s| ==> ps[i] == RfcEscape(s[i])
  {
    if s == "" then [] else [RfcEscape(s[0])] + RfcEscapeAll(s[1..])
  }

  lemma HexDigitOf(n: nat)
    requires n < 16
    ensures LowerHex(n) == HEX_DIGITS[n]
  {
  }

  lemma HexFourOfControl(n: nat)
    requires n < 0x20
    ensures HexFour(n) == Hex4("00" + [if n < 0x10 then '0' else '1'] + [HEX_DIGITS[n % 16]])
  {
    HexDigitOf(n % 16);
    assert n / 16 < 2 && n / 16 / 16 == 0;
  }

  /** A control character in hexadecimal is the same in either spelling. */
  lemma ControlEscapes(c: char)
    ensures RfcEscape(c).Hex4? ==> c as nat < 0x20 && RfcEscape(c) == HexFour(c as nat)
  {
    if c as nat < 0x20 {
      HexFourOfControl(c as nat);
    }
  }

  lemma EscapesAgree(c: char)
    ensures Escape(c) == RfcEscape(c) <==> !IsMarkup(c)
  {
    ControlEscapes(c);
  }

  lemma {:induction false} EscapeEach(s: string)
    ensures |EscapeAll(s)| == |s| && forall i :: 0 <= i < |s| ==> EscapeAll(s)[i] == Escape(s[i])
  {
    if s != "" {
      EscapeEach(s[1..]);
    }
  }

  /** No escape of either kind stands for two characters. */
  lemma EscapeDecides(c: char, d: char)
    requires Escape(c) == RfcEscape(d)
    ensures c == d
  {
    DecodeEscape(c, []);
    if Escape(c).Hex4? {
      ControlEscapes(d);
      assert Code(Escape(c)) == c as nat && Code(RfcEscape(d)) == d as nat;
    }
  }

  lemma EscapedAlike(s: string, t: string)
    ensures EscapeAll(s) == RfcEscapeAll(t) <==> s == t && NoMarkup(s)
  {
    EscapeEach(s);
    if EscapeAll(s) == RfcEscapeAll(t) {
      forall i | 0 <= i < |s| ensures s[i] == t[i] && !IsMarkup(s[i]) {
        assert Escape(s[i]) == RfcEscape(t[i]);
        EscapeDecides(s[i], t[i]);
        EscapesAgree(s[i]);
      }
    }
    if s == t && NoMarkup(s) {
      forall i | 0 <= i < |s| ensures Escape(s[i]) == RfcEscape(s[i]) {
        EscapesAgree(s[i]);
      }
    }
  }

  // ---------------------------------------------------------------- the text of RFC 8785

  ghost function RfcDoc(lib: FloatLib, v: Value): (doc: Doc)
    requires Lawful(lib) && Printable(lib, v)
    ensures ValidDoc(doc) && Tight(doc)
    decreases v, 1, 0
  {
    match v
    case Null => DNull
    case Bool(b) => DBool(b)
    case Number(literal) =>
      WrittenNumberReparses(lib, literal);
      NumbersConform(lib, literal);
      DNumber(RfcNumber(lib, literal).value)
    case Str(s) => DString(RfcEscapeAll(s))
    case Arr(items) => DArray("", RfcItems(lib, items))
    case Obj(members) => DObject("", RfcMembers(lib, v, RfcKeys(members.Keys)))
  }

  ghost function RfcItems(lib: FloatLib, vs: seq<Value>): (items: seq<Item>)
    requires Lawful(lib) && forall i :: 0 <= i < |vs| ==> Printable(lib, vs[i])
    ensures ValidItems(items) && TightItems(items) && |items| == |vs|
    decreases vs, 0, 0
  {
    if vs == [] then []
    else
      var x := Item("", RfcDoc(lib, vs[0]), "");
      assert ValidItem(x);
      [x] + RfcItems(lib, vs[1..])
  }

  ghost function RfcMember(lib: FloatLib, v: Value, key: string): (m: Member)
    requires Lawful(lib) && v.Obj? && Printable(lib, v) && key in v.members
    ensures ValidMember(m) && TightMember(m)
    decreases v, 0, 0
  {
    var x := Item("", RfcDoc(lib, v.members[key]), "");
    assert ValidItem(x);
    Member("", RfcEscapeAll(key), "", x)
  }

  ghost function RfcMembers(lib: FloatLib, v: Value, keys: seq<string>): (ms: seq<Member>)
    requires Lawful(lib) && v.Obj? && Printable(lib, v) && forall k :: k in keys ==> k in v.members
    ensures ValidMembers(ms) && TightMembers(ms) && |ms| == |keys|
    decreases v, 0, 1, |keys|
  {
    if keys == [] then []
    else
      assert keys[0] in keys;
      [RfcMember(lib, v, keys[0])] + RfcMembers(lib, v, keys[1..])
  }

  ghost function RfcPrint(lib: FloatLib, v: Value): string
    requires Lawful(lib) && Printable(lib, v)
  {
    DocText(RfcDoc(lib, v))
  }

  // ---------------------------------------------------------------- a document without whitespace is determined by its text

  predicate Tight(doc: Doc)
    decreases doc
  {
    match doc
    case DArray(blank, items) => blank == "" && TightItems(items)
    case DObject(blank, ms) => blank == "" && TightMembers(ms)
    case _ => true
  }

  predicate TightItem(x: Item)
    decreases x
  {
    x.before == "" && x.after == "" && Tight(x.doc)
  }

  predicate TightItems(items: seq<Item>)
    decreases items
  {
    items != [] ==> TightItem(items[0]) && TightItems(items[1..])
  }

  predicate TightMember(m: Member)
    decreases m
  {
    m.before == "" && m.afterKey == "" && TightItem(m.item)
  }

  predicate TightMembers(ms: seq<Member>)
    decreases ms
  {
    ms != [] ==> TightMember(ms[0]) && TightMembers(ms[1..])
  }

  /** The first character tells the kind of a document. */
  lemma KindByText(doc: Doc, tail: string)
    requires ValidDoc(doc)
    ensures DocText(doc) + tail != ""
    ensures var c := (DocText(doc) + tail)[0];
            && (doc.DNull? <==> c == 'n') && (doc.DBool? <==> c == 't' || c == 'f') && (doc == DBool(true) <==> c == 't')
            && (doc.DString? <==> c == '"') && (doc.DArray? <==> c == '[') && (doc.DObject? <==> c == '{')
  {
    FirstCharacter(doc);
    assert (DocText(doc) + tail)[0] == DocText(doc)[0];
  }

  lemma NumbersByText(a: string, t: string, b: string, u: string)
    requires IsNumber(a) && IsNumber(b) && EndsNumber(t) && EndsNumber(u) && a + t == b + u
    ensures a == b && t == u
  {
    NumberBefore(a, t);
    NumberBefore(b, u);
    assert (a + t)[..|a|] == a && (b + u)[..|b|] == b;
    assert (a + t)[|a|..] == t && (b + u)[|b|..] == u;
  }

  lemma StringsByText(a: seq<Piece>, t: string, b: seq<Piece>, u: string)
    requires ValidPieces(a) && ValidPieces(b) && PiecesText(a) + "\"" + t == PiecesText(b) + "\"" + u
    ensures a == b && t == u
  {
    LexesPieces(a, t);
    LexesPieces(b, u);
  }

  lemma AfterFirst(c: char, s: string, t: string)
    requires [c] + s == [c] + t
    ensures s == t
  {
    assert ([c] + s)[1..] == s && ([c] + t)[1..] == t;
  }

  lemma {:induction false} DocByText(a: Doc, t: string, b: Doc, u: string)
    requires ValidDoc(a) && ValidDoc(b) && Tight(a) && Tight(b) && EndsNumber(t) && EndsNumber(u)
    requires DocText(a) + t == DocText(b) + u
    ensures a == b && t == u
    decreases a, 1
  {
    KindByText(a, t);
    KindByText(b, u);
    match a
    case DNull => assert (DocText(a) + t)[4..] == t && (DocText(b) + u)[4..] == u;
    case DBool(_) =>
      var n := |DocText(a)|;
      assert (DocText(a) + t)[n..] == t && (DocText(b) + u)[n..] == u;
    case DNumber(x) => NumbersByText(x, t, b.literal, u);
    case DString(ps) =>
      StringOpens(ps, t);
      StringOpens(b.pieces, u);
      AfterFirst('"', PiecesText(ps) + "\"" + t, PiecesText(b.pieces) + "\"" + u);
      StringsByText(ps, t, b.pieces, u);
    case DArray(_, _) => ArrayByText(a, t, b, u);
    case DObject(_, _) => ObjectByText(a, t, b, u);
  }

  lemma StringOpens(ps: seq<Piece>, t: string)
    ensures DocText(DString(ps)) + t == ['"'] + (PiecesText(ps) + "\"" + t)
  {
  }

  /** What stands behind the opening bracket, and behind it the tail. */
  function ItemsOnward(items: seq<Item>, t: string): string {
    if items == [] then [']'] + t else ItemsText(items) + t
  }

  function MembersOnward(ms: seq<Member>, t: string): string {
    if ms == [] then ['}'] + t else MembersText(ms) + t
  }

  lemma ArrayOpens(a: Doc, t: string)
    requires a.DArray? && Tight(a)
    ensures DocText(a) + t == ['['] + ItemsOnward(a.items, t)
  {
  }

  lemma ObjectOpens(a: Doc, t: string)
    requires a.DObject? && Tight(a)
    ensures DocText(a) + t == ['{'] + MembersOnward(a.members, t)
  {
  }

  lemma {:induction false} ArrayByText(a: Doc, t: string, b: Doc, u: string)
    requires a.DArray? && b.DArray? && ValidDoc(a) && ValidDoc(b) && Tight(a) && Tight(b)
    requires DocText(a) + t == DocText(b) + u
    ensures a == b && t == u
    decreases a, 0
  {
    ArrayOpens(a, t);
    ArrayOpens(b, u);
    AfterFirst('[', ItemsOnward(a.items, t), ItemsOnward(b.items, u));
    StartOfItems(a.items, t);
    StartOfItems(b.items, u);
    if a.items == [] {
      AfterFirst(']', t, u);
    } else {
      ItemsByText(a.items, t, b.items, u);
    }
  }

  /** A list of items begins with no closing bracket. */
  lemma StartOfItems(xs: seq<Item>, t: string)
    requires ValidItems(xs) && TightItems(xs)
    ensures ItemsOnward(xs, t) != "" && (ItemsOnward(xs, t)[0] == ']' <==> xs == [])
  {
    if xs != [] {
      FirstCharacter(xs[0].doc);
      TightItemText(xs[0]);
      assert ItemsOnward(xs, t)[0] == DocText(xs[0].doc)[0];
    }
  }

  lemma TightItemText(x: Item)
    requires TightItem(x)
    ensures ItemText(x) == DocText(x.doc)
  {
  }

  /** The first item, and what stands behind it. */
  function BehindItem(xs: seq<Item>, t: string): string
    requires xs != []
  {
    if |xs| == 1 then [']'] + t else [','] + (ItemsText(xs[1..]) + t)
  }

  lemma FirstItem(xs: seq<Item>, t: string)
    requires xs != [] && TightItems(xs)
    ensures ItemsText(xs) + t == DocText(xs[0].doc) + BehindItem(xs, t)
  {
    TightItemText(xs[0]);
    if |xs| > 1 {
      Behind(DocText(xs[0].doc), ",", ItemsText(xs[1..]), t);
    } else {
      Behind(DocText(xs[0].doc), "", "]", t);
    }
  }

  lemma Behind(a: string, b: string, c: string, d: string)
    ensures (a + (b + c)) + d == a + (b + (c + d))
    ensures (a + c) + d == a + (c + d)
  {
  }

  lemma {:induction false} FirstItemsByText(xs: seq<Item>, t: string, ys: seq<Item>, u: string)
    requires xs != [] && ys != [] && ValidItems(xs) && ValidItems(ys) && TightItems(xs) && TightItems(ys)
    requires ItemsText(xs) + t == ItemsText(ys) + u
    ensures xs[0] == ys[0] && BehindItem(xs, t) == BehindItem(ys, u)
    decreases xs, 0
  {
    FirstItem(xs, t);
    FirstItem(ys, u);
    ItemByText(xs[0], BehindItem(xs, t), ys[0], BehindItem(ys, u));
  }

  lemma {:induction false} ItemsByText(xs: seq<Item>, t: string, ys: seq<Item>, u: string)
    requires xs != [] && ys != [] && ValidItems(xs) && ValidItems(ys) && TightItems(xs) && TightItems(ys)
    requires ItemsText(xs) + t == ItemsText(ys) + u
    ensures xs == ys && t == u
    decreases xs
  {
    FirstItemsByText(xs, t, ys, u);
    assert BehindItem(xs, t)[0] == BehindItem(ys, u)[0];
    if |xs| == 1 {
      AfterFirst(']', t, u);
      assert xs == [xs[0]] && ys == [ys[0]];
    } else {
      AfterFirst(',', ItemsText(xs[1..]) + t, ItemsText(ys[1..]) + u);
      ItemsByText(xs[1..], t, ys[1..], u);
      assert xs == [xs[0]] + xs[1..] && ys == [ys[0]] + ys[1..];
    }
  }

  lemma {:induction false} ObjectByText(a: Doc, t: string, b: Doc, u: string)
    requires a.DObject? && b.DObject? && ValidDoc(a) && ValidDoc(b) && Tight(a) && Tight(b)
    requires DocText(a) + t == DocText(b) + u
    ensures a == b && t == u
    decreases a, 0
  {
    ObjectOpens(a, t);
    ObjectOpens(b, u);
    AfterFirst('{', MembersOnward(a.members, t), MembersOnward(b.members, u));
    StartOfMembers(a.members, t);
    StartOfMembers(b.members, u);
    if a.members == [] {
      AfterFirst('}', t, u);
    } else {
      MembersByText(a.members, t, b.members, u);
    }
  }

  lemma StartOfMembers(ms: seq<Member>, t: string)
    requires TightMembers(ms)
    ensures MembersOnward(ms, t) != "" && (MembersOnward(ms, t)[0] == '}' <==> ms == [])
  {
    if ms != [] {
      assert MemberText(ms[0])[0] == '"';
      assert MembersOnward(ms, t)[0] == MemberText(ms[0])[0];
    }
  }

  function BehindMember(ms: seq<Member>, t: string): string
    requires ms != []
  {
    if |ms| == 1 then ['}'] + t else [','] + (MembersText(ms[1..]) + t)
  }

  lemma TightMemberText(m: Member)
    requires TightMember(m)
    ensures MemberText(m) == ['"'] + (PiecesText(m.key) + "\"" + ([':'] + DocText(m.item.doc)))
  {
    TightItemText(m.item);
    assert "" + (":" + ItemText(m.item)) == [':'] + DocText(m.item.doc);
    assert "" + ("\"" + KeyOnward(m)) == ['"'] + KeyOnward(m);
  }

  lemma FirstMember(ms: seq<Member>, t: string)
    requires ms != [] && TightMembers(ms)
    ensures MembersText(ms) + t ==
            ['"'] + (PiecesText(ms[0].key) + "\"" + ([':'] + (DocText(ms[0].item.doc) + BehindMember(ms, t))))
  {
    var doc := DocText(ms[0].item.doc);
    TightMemberText(ms[0]);
    if |ms| > 1 {
      Behind(MemberText(ms[0]), ",", MembersText(ms[1..]), t);
    } else {
      Behind(MemberText(ms[0]), "", "}", t);
    }
    assert MembersText(ms) + t == MemberText(ms[0]) + BehindMember(ms, t);
    BehindKey(PiecesText(ms[0].key), doc, BehindMember(ms, t));
  }

  lemma BehindKey(key: string, doc: string, rest: string)
    ensures (['"'] + (key + "\"" + ([':'] + doc))) + rest == ['"'] + (key + "\"" + ([':'] + (doc + rest)))
  {
  }

  lemma {:induction false} MembersByText(xs: seq<Member>, t: string, ys: seq<Member>, u: string)
    requires xs != [] && ys != [] && ValidMembers(xs) && ValidMembers(ys) && TightMembers(xs) && TightMembers(ys)
    requires MembersText(xs) + t == MembersText(ys) + u
    ensures xs == ys && t == u
    decreases xs
  {
    FirstMembersByText(xs, t, ys, u);
    assert BehindMember(xs, t)[0] == BehindMember(ys, u)[0];
    if |xs| == 1 {
      AfterFirst('}', t, u);
      assert xs == [xs[0]] && ys == [ys[0]];
    } else {
      AfterFirst(',', MembersText(xs[1..]) + t, MembersText(ys[1..]) + u);
      MembersByText(xs[1..], t, ys[1..], u);
      assert xs == [xs[0]] + xs[1..] && ys == [ys[0]] + ys[1..];
    }
  }

  lemma {:induction false} FirstMembersByText(xs: seq<Member>, t: string, ys: seq<Member>, u: string)
    requires xs != [] && ys != [] && ValidMembers(xs) && ValidMembers(ys) && TightMembers(xs) && TightMembers(ys)
    requires MembersText(xs) + t == MembersText(ys) + u
    ensures xs[0] == ys[0] && BehindMember(xs, t) == BehindMember(ys, u)
    decreases xs, 0
  {
    FirstMember(xs, t);
    FirstMember(ys, u);
    MemberByText(xs[0], BehindMember(xs, t), ys[0], BehindMember(ys, u));
  }

  lemma {:induction false} MemberByText(x: Member, t: string, y: Member, u: string)
    requires ValidMember(x) && ValidMember(y) && TightMember(x) && TightMember(y) && EndsNumber(t) && EndsNumber(u)
    requires ['"'] + (PiecesText(x.key) + "\"" + ([':'] + (DocText(x.item.doc) + t))) ==
             ['"'] + (PiecesText(y.key) + "\"" + ([':'] + (DocText(y.item.doc) + u)))
    ensures x == y && t == u
    decreases x
  {
    var a, b := [':'] + (DocText(x.item.doc) + t), [':'] + (DocText(y.item.doc) + u);
    AfterFirst('"', PiecesText(x.key) + "\"" + a, PiecesText(y.key) + "\"" + b);
    StringsByText(x.key, a, y.key, b);
    AfterFirst(':', DocText(x.item.doc) + t, DocText(y.item.doc) + u);
    ItemByText(x.item, t, y.item, u);
  }

  lemma {:induction false} ItemByText(x: Item, t: string, y: Item, u: string)
    requires ValidItem(x) && ValidItem(y) && TightItem(x) && TightItem(y) && EndsNumber(t) && EndsNumber(u)
    requires DocText(x.doc) + t == DocText(y.doc) + u
    ensures x == y && t == u
    decreases x
  {
    DocByText(x.doc, t, y.doc, u);
  }

  // ---------------------------------------------------------------- when the two texts are one

  lemma {:induction false} CanonIsTight(lib: FloatLib, v: Value)
    requires Lawful(lib) && Printable(lib, v)
    ensures Tight(CanonDoc(lib, v))
    decreases v, 1
  {
    match v
    case Arr(items) => CanonItemsTight(lib, items);
    case Obj(members) => CanonMembersTight(lib, v, SortedKeys(members.Keys));
    case _ =>
  }

  lemma {:induction false} CanonItemsTight(lib: FloatLib, vs: seq<Value>)
    requires Lawful(lib) && forall i :: 0 <= i < |vs| ==> Printable(lib, vs[i])
    ensures TightItems(CanonItems(lib, vs))
    decreases vs, 0
  {
    if vs != [] {
      CanonIsTight(lib, vs[0]);
      CanonItemsTight(lib, vs[1..]);
      assert CanonItems(lib, vs)[1..] == CanonItems(lib, vs[1..]);
    }
  }

  lemma {:induction false} CanonMembersTight(lib: FloatLib, v: Value, keys: seq<string>)
    requires Lawful(lib) && v.Obj? && Printable(lib, v) && forall k :: k in keys ==> k in v.members
    ensures TightMembers(CanonMembers(lib, v, keys))
    decreases v, 0, |keys|
  {
    if keys != [] {
      assert keys[0] in keys;
      CanonIsTight(lib, v.members[keys[0]]);
      CanonMembersTight(lib, v, keys[1..]);
      assert CanonMembers(lib, v, keys)[1..] == CanonMembers(lib, v, keys[1..]);
    }
  }

  /** No string and no name in the value has one of the five characters, and in every object the two orders
      of the names agree. */
  predicate Conforms(v: Value) {
    match v
    case Str(s) => NoMarkup(s)
    case Arr(items) => forall i :: 0 <= i < |items| ==> Conforms(items[i])
    case Obj(members) => OrdersAgree(members.Keys) && forall k :: k in members ==> NoMarkup(k) && Conforms(members[k])
    case _ => true
  }

  lemma {:induction false} SameDocIfConforms(lib: FloatLib, v: Value)
    requires Lawful(lib) && Printable(lib, v)
    ensures CanonDoc(lib, v) == RfcDoc(lib, v) <==> Conforms(v)
    decreases v, 2
  {
    match v
    case Null =>
    case Bool(_) =>
    case Number(_) => SameNumberDoc(lib, v);
    case Str(s) => EscapedAlike(s, s);
    case Arr(items) => SameItems(lib, items);
    case Obj(members) => SameObject(lib, v);
  }

  lemma SameNumberDoc(lib: FloatLib, v: Value)
    requires Lawful(lib) && Printable(lib, v) && v.Number?
    ensures CanonDoc(lib, v) == RfcDoc(lib, v)
  {
    NumbersConform(lib, v.literal);
  }

  lemma {:induction false} SameItems(lib: FloatLib, vs: seq<Value>)
    requires Lawful(lib) && forall i :: 0 <= i < |vs| ==> Printable(lib, vs[i])
    ensures CanonItems(lib, vs) == RfcItems(lib, vs) <==> forall i :: 0 <= i < |vs| ==> Conforms(vs[i])
    decreases vs, 0
  {
    if vs != [] {
      SameDocIfConforms(lib, vs[0]);
      SameItems(lib, vs[1..]);
      FirstsAndRests(CanonItems(lib, vs), RfcItems(lib, vs));
      assert CanonItems(lib, vs)[1..] == CanonItems(lib, vs[1..]) && RfcItems(lib, vs)[1..] == RfcItems(lib, vs[1..]);
      ConformEach(vs);
    }
  }

  lemma ConformEach(vs: seq<Value>)
    requires vs != []
    ensures (forall i :: 0 <= i < |vs| ==> Conforms(vs[i])) <==>
            Conforms(vs[0]) && forall i :: 0 <= i < |vs[1..]| ==> Conforms(vs[1..][i])
  {
    assert forall i :: 1 <= i < |vs| ==> vs[i] == vs[1..][i - 1];
  }

  lemma FirstsAndRests<T>(a: seq<T>, b: seq<T>)
    requires a != [] && b != []
    ensures a == b <==> a[0] == b[0] && a[1..] == b[1..]
  {
    assert a == [a[0]] + a[1..] && b == [b[0]] + b[1..];
  }

  /** Members agree for the same names in the same order, without the five characters, and with values that
      conform. */
  lemma {:induction false} SameMembers(lib: FloatLib, v: Value, a: seq<string>, b: seq<string>)
    requires Lawful(lib) && v.Obj? && Printable(lib, v) && |a| == |b|
    requires (forall k :: k in a ==> k in v.members) && forall k :: k in b ==> k in v.members
    ensures CanonMembers(lib, v, a) == RfcMembers(lib, v, b) <==>
            a == b && forall k :: k in a ==> NoMarkup(k) && Conforms(v.members[k])
    decreases v, 0, |a|
  {
    if a != [] {
      assert a[0] in a && b[0] in b;
      SameMember(lib, v, a[0], b[0]);
      SameMembers(lib, v, a[1..], b[1..]);
      FirstsAndRests(a, b);
      FirstsAndRests(CanonMembers(lib, v, a), RfcMembers(lib, v, b));
      assert CanonMembers(lib, v, a)[1..] == CanonMembers(lib, v, a[1..]);
      assert RfcMembers(lib, v, b)[1..] == RfcMembers(lib, v, b[1..]);
      assert forall k :: k in a <==> k == a[0] || k in a[1..];
    }
  }

  lemma {:induction false} SameMember(lib: FloatLib, v: Value, a: string, b: string)
    requires Lawful(lib) && v.Obj? && Printable(lib, v) && a in v.members && b in v.members
    ensures CanonMember(lib, v, a) == RfcMember(lib, v, b) <==> a == b && NoMarkup(a) && Conforms(v.members[a])
    decreases v, 0, 0
  {
    EscapedAlike(a, b);
    SameDocIfConforms(lib, v.members[a]);
  }

  lemma {:induction false} SameObject(lib: FloatLib, v: Value)
    requires Lawful(lib) && v.Obj? && Printable(lib, v)
    ensures CanonDoc(lib, v) == RfcDoc(lib, v) <==> Conforms(v)
    decreases v, 1
  {
    OrdersByKeys(v.members.Keys);
    SameMembers(lib, v, SortedKeys(v.members.Keys), RfcKeys(v.members.Keys));
    ObjectDocs(lib, v);
    ObjectConforms(v);
  }

  lemma ObjectConforms(v: Value)
    requires v.Obj?
    ensures Conforms(v) <==> OrdersAgree(v.members.Keys) &&
                             forall k :: k in SortedKeys(v.members.Keys) ==> NoMarkup(k) && Conforms(v.members[k])
  {
  }

  lemma OrdersByKeys(keys: set<string>)
    ensures SortedKeys(keys) == RfcKeys(keys) <==> OrdersAgree(keys)
    ensures |SortedKeys(keys)| == |RfcKeys(keys)|
  {
    if OrdersAgree(keys) {
      SameOrderIfAgree(keys);
    }
    if SortedKeys(keys) == RfcKeys(keys) {
      AgreeIfSameOrder(keys);
    }
    SortedSize(keys);
    RfcSize(keys);
  }

  lemma RfcSize(keys: set<string>)
    ensures |RfcKeys(keys)| == |keys|
  {
    NoTwice(RfcKeys(keys));
    SizeOfList(RfcKeys(keys), keys);
  }

  lemma SortedSize(keys: set<string>)
    ensures |SortedKeys(keys)| == |keys|
  {
    var s := SortedKeys(keys);
    forall i, j | 0 <= i < j < |s| ensures s[i] != s[j] {
      LessTotal(s[i], s[j]);
    }
    SizeOfList(s, keys);
  }

  lemma {:induction false} SizeOfList(s: seq<string>, keys: set<string>)
    requires (forall i, j :: 0 <= i < j < |s| ==> s[i] != s[j]) && forall k :: k in s <==> k in keys
    ensures |s| == |keys|
  {
    if s == [] {
      assert keys == {};
    } else {
      var n := |s| - 1;
      assert s == s[..n] + [s[n]] && s[n] in s && s[n] !in s[..n];
      SizeOfList(s[..n], keys - {s[n]});
    }
  }

  lemma ObjectDocs(lib: FloatLib, v: Value)
    requires Lawful(lib) && v.Obj? && Printable(lib, v)
    ensures CanonDoc(lib, v) == RfcDoc(lib, v) <==>
            CanonMembers(lib, v, SortedKeys(v.members.Keys)) == RfcMembers(lib, v, RfcKeys(v.members.Keys))
  {
  }

  /** Main theorem: the SDK's text of a value is the text of RFC 8785 if and only if the value has none of the
      five characters in its strings and names, and no two names of one object straddle the
      surrogates. */
  lemma ConformsExactlyWhen(lib: FloatLib, v: Value)
    requires Lawful(lib) && Printable(lib, v)
    ensures Print(lib, v) == RfcPrint(lib, v) <==> Conforms(v)
  {
    SameDocIfConforms(lib, v);
    if Print(lib, v) == RfcPrint(lib, v) {
      CanonIsTight(lib, v);
      assert Print(lib, v) + "" == Print(lib, v) && RfcPrint(lib, v) + "" == RfcPrint(lib, v);
      DocByText(CanonDoc(lib, v), "", RfcDoc(lib, v), "");
    }
  }

  // ---------------------------------------------------------------- one input for each cause

  lemma MarkupIsEscaped(lib: FloatLib)
    requires Lawful(lib)
    ensures Print(lib, Str("<")) == "\"\\u003c\"" && RfcPrint(lib, Str("<")) == "\"<\""
  {
    EscapedLess();
    PiecesOfOne(HexFour(0x3c));
    PiecesOfOne(Raw('<'));
    assert "\"" + "\\u003c" + "\"" == "\"\\u003c\"" && "\"" + "<" + "\"" == "\"<\"";
  }

  lemma EscapedLess()
    ensures EscapeAll("<") == [HexFour(0x3c)] && PieceText(HexFour(0x3c)) == "\\u003c" && RfcEscapeAll("<") == [Raw('<')]
  {
    assert "<"[1..] == "";
    assert HexFour(0x3c).digits == "003c";
  }

  lemma PiecesOfOne(p: Piece)
    ensures PiecesText([p]) == PieceText(p)
  {
    assert [p][1..] == [];
  }

  /** Two names that straddle the surrogates, whatever else they consist of: the SDK and the RFC put them in
      opposite orders. */
  lemma NamesInOtherOrder(lib: FloatLib, a: string, b: string)
    requires Lawful(lib) && Straddles(a, b) && Less(a, b)
    ensures SortedKeys({a, b}) == [a, b] && RfcKeys({a, b}) == [b, a]
    ensures var v := Obj(map[a := Null, b := Null]); Printable(lib, v) && Print(lib, v) != RfcPrint(lib, v)
  {
    var v := Obj(map[a := Null, b := Null]);
    OrdersDisagree(a, b);
    LessTotal(a, b);
    RfcLessTotal(a, b);
    SortedOfTwo(a, b);
    RfcKeysOfTwo(b, a);
    assert {b, a} == {a, b};
    StraddlersDoNotConform(v, a, b);
    ConformsExactlyWhen(lib, v);
  }

  /** For example U+E000 and U+10000, neither of which is escaped. */
  lemma StraddlingNames()
    ensures var a, b := "\U{E000}", "\U{10000}"; Straddles(a, b) && Less(a, b) && NoMarkup(a) && NoMarkup(b)
  {
  }

  lemma StraddlersDoNotConform(v: Value, a: string, b: string)
    requires v.Obj? && a in v.members && b in v.members && Straddles(a, b)
    ensures !Conforms(v)
  {
    assert !OrdersAgree(v.members.Keys);
  }

  lemma SortedOfTwo(a: string, b: string)
    requires Less(a, b)
    ensures SortedKeys({a, b}) == [a, b]
  {
    SortedIsUnique(SortedKeys({a, b}), [a, b]);
  }

  lemma RfcKeysOfTwo(a: string, b: string)
    requires RfcLess(a, b)
    ensures RfcKeys({a, b}) == [a, b]
  {
    RfcLessTotal(a, b);
    RfcLessTotal(b, b);
    var r := RfcKeys({a, b});
    RfcSize({a, b});
    assert |r| == 2 && r[0] in r && r[1] in r && RfcLess(r[0], r[1]);
    RfcLessTotal(r[0], r[1]);
  }

  lemma NoTwice(r: seq<string>)
    requires RfcSorted(r)
    ensures forall i, j :: 0 <= i < j < |r| ==> r[i] != r[j]
  {
    forall i, j | 0 <= i < j < |r| ensures r[i] != r[j] {
      RfcLessTotal(r[i], r[j]);
    }
  }
}
