/** JSON as Go's decoder reads it (`UseNumber` set): values, a recursive-descent reader of one
    value, and documents, the concrete texts of values with all their freedom of whitespace,
    member order and escapes. */
module Json {
  import opened Text

  /** A decoded value. Numbers keep their literal; an object is a map, so a repeated name keeps
      its last value. */
  datatype Value =
    | Null
    | Bool(b: bool)
    | Number(literal: string)
    | Str(s: string)
    | Arr(items: seq<Value>)
    | Obj(members: map<string, Value>)

  const MAX_NESTING: nat := 10000

  /** At most `d` arrays and objects inside each other. */
  predicate Fits(v: Value, d: nat) {
    match v
    case Arr(items) => d > 0 && forall i :: 0 <= i < |items| ==> Fits(items[i], d - 1)
    case Obj(members) => d > 0 && forall k :: k in members ==> Fits(members[k], d - 1)
    case _ => true
  }

  // ---------------------------------------------------------------- whitespace

  predicate IsWs(c: char) {
    c == ' ' || c == '\t' || c == '\r' || c == '\n'
  }

  predicate AllWs(s: string) {
    forall i :: 0 <= i < |s| ==> IsWs(s[i])
  }

  function SkipWs(s: string): (r: string)
    ensures |r| <= |s|
  {
    if s != "" && IsWs(s[0]) then SkipWs(s[1..]) else s
  }

  lemma {:induction false} SkipsAllWs(ws: string, s: string)
    requires AllWs(ws) && (s == "" || !IsWs(s[0]))
    ensures SkipWs(ws + s) == s
  {
    if ws == "" {
      assert ws + s == s;
    } else {
      assert (ws + s)[1..] == ws[1..] + s;
      SkipsAllWs(ws[1..], s);
    }
  }

  // ---------------------------------------------------------------- numbers

  /** The end of the digit run starting at i. */
  function Digits(s: string, i: nat): (j: nat)
    requires i <= |s|
    ensures i <= j <= |s|
    decreases |s| - i
  {
    if i < |s| && IsDigit(s[i]) then Digits(s, i + 1) else i
  }

  function IntEnd(s: string): (j: Option<nat>)
    ensures j.Some? ==> 0 < j.value <= |s|
  {
    var i := if s != "" && s[0] == '-' then 1 else 0;
    if i == |s| || !IsDigit(s[i]) then None
    else if s[i] == '0' then Some(i + 1)
    else Some(Digits(s, i + 1))
  }

  function FractionEnd(s: string, i: nat): (j: Option<nat>)
    requires i <= |s|
    ensures j.Some? ==> i <= j.value <= |s|
  {
    if i < |s| && s[i] == '.' then
      var j := Digits(s, i + 1);
      if j == i + 1 then None else Some(j)
    else Some(i)
  }

  predicate IsExp(c: char) {
    c == 'e' || c == 'E'
  }

  function ExponentEnd(s: string, i: nat): (j: Option<nat>)
    requires i <= |s|
    ensures j.Some? ==> i <= j.value <= |s|
  {
    if i < |s| && IsExp(s[i]) then
      var k := if i + 1 < |s| && (s[i + 1] == '+' || s[i + 1] == '-') then i + 2 else i + 1;
      var j := Digits(s, k);
      if j == k then None else Some(j)
    else Some(i)
  }

  /** The end of the number at the start of s. */
  function NumberEnd(s: string): (j: Option<nat>)
    ensures j.Some? ==> 0 < j.value <= |s|
  {
    match IntEnd(s)
    case None => None
    case Some(i) =>
      match FractionEnd(s, i)
      case None => None
      case Some(j) => ExponentEnd(s, j)
  }

  predicate IsNumber(s: string) {
    NumberEnd(s) == Some(|s|)
  }

  /** What may follow a number without extending it. */
  predicate EndsNumber(tail: string) {
    tail == "" || !(IsDigit(tail[0]) || tail[0] == '.' || IsExp(tail[0]))
  }

  lemma {:induction false} DigitsBefore(s: string, tail: string, i: nat)
    requires i <= |s| && (tail == "" || !IsDigit(tail[0]))
    ensures Digits(s + tail, i) == Digits(s, i)
    decreases |s| - i
  {
    if i < |s| && IsDigit(s[i]) {
      DigitsBefore(s, tail, i + 1);
    }
  }

  lemma {:induction false} DigitsToEnd(s: string, i: nat)
    requires i <= |s| && AllDigits(s[i..])
    ensures Digits(s, i) == |s|
    decreases |s| - i
  {
    if i < |s| {
      assert s[i..][0] == s[i] && s[i + 1..] == s[i..][1..];
      DigitsToEnd(s, i + 1);
    }
  }

  lemma FractionBefore(s: string, tail: string, i: nat)
    requires i <= |s| && EndsNumber(tail) && FractionEnd(s, i).Some?
    ensures FractionEnd(s + tail, i) == FractionEnd(s, i)
  {
    if i < |s| {
      DigitsBefore(s, tail, i + 1);
    }
  }

  lemma ExponentBefore(s: string, tail: string, i: nat)
    requires i <= |s| && EndsNumber(tail) && ExponentEnd(s, i).Some?
    ensures ExponentEnd(s + tail, i) == ExponentEnd(s, i)
  {
    if i < |s| {
      DigitsBefore(s, tail, i + 1);
      if i + 1 < |s| {
        DigitsBefore(s, tail, i + 2);
      }
    }
  }

  lemma IntBefore(s: string, tail: string)
    requires s != "" && IntEnd(s).Some? && (tail == "" || !IsDigit(tail[0]))
    ensures IntEnd(s + tail) == IntEnd(s)
  {
    var sign := if s[0] == '-' then 1 else 0;
    DigitsBefore(s, tail, sign + 1);
  }

  lemma NumberBefore(s: string, tail: string)
    requires IsNumber(s) && EndsNumber(tail)
    ensures NumberEnd(s + tail) == Some(|s|)
  {
    IntBefore(s, tail);
    FractionBefore(s, tail, IntEnd(s).value);
    ExponentBefore(s, tail, FractionEnd(s, IntEnd(s).value).value);
  }

  /** A number without an exponent, then a signed exponent, is a number. */
  lemma ExponentExtends(mantissa: string, sign: char, digits: string)
    requires IsNumber(mantissa) && (forall i :: 0 <= i < |mantissa| ==> !IsExp(mantissa[i]))
    requires (sign == '+' || sign == '-') && digits != "" && AllDigits(digits)
    ensures IsNumber(mantissa + "e" + [sign] + digits)
  {
    var tail := "e" + [sign] + digits;
    var s := mantissa + tail;
    assert s == mantissa + "e" + [sign] + digits;
    IntBefore(mantissa, tail);
    var i := IntEnd(mantissa).value;
    if i < |mantissa| {
      DigitsBefore(mantissa, tail, i + 1);
    }
    assert FractionEnd(s, i) == FractionEnd(mantissa, i);
    var j := FractionEnd(mantissa, i).value;
    assert j == |mantissa|;
    assert s[j + 2..] == digits;
    DigitsToEnd(s, j + 2);
  }

  // ---------------------------------------------------------------- strings

  /** One written unit of a string literal. */
  datatype Piece = Raw(c: char) | Short(letter: char) | Hex4(digits: string)

  predicate IsHex(c: char) {
    IsDigit(c) || 'a' <= c <= 'f' || 'A' <= c <= 'F'
  }

  function HexVal(c: char): (n: nat)
    requires IsHex(c)
    ensures n < 16
  {
    if IsDigit(c) then c as int - '0' as int
    else if 'a' <= c <= 'f' then c as int - 'a' as int + 10
    else c as int - 'A' as int + 10
  }

  const SHORTS := "\"\\/bfnrt"

  predicate ValidPiece(p: Piece) {
    match p
    case Raw(c) => c >= ' ' && c != '"' && c != '\\'
    case Short(letter) => letter in SHORTS
    case Hex4(digits) => |digits| == 4 && forall i :: 0 <= i < 4 ==> IsHex(digits[i])
  }

  function PieceText(p: Piece): (s: string)
    ensures |s| >= 1
  {
    match p
    case Raw(c) => [c]
    case Short(letter) => ['\\', letter]
    case Hex4(digits) => ['\\', 'u'] + digits
  }

  function PiecesText(ps: seq<Piece>): string {
    if ps == [] then "" else PieceText(ps[0]) + PiecesText(ps[1..])
  }

  function ShortChar(letter: char): char {
    match letter
    case 'b' => 8 as char
    case 'f' => 12 as char
    case 'n' => '\n'
    case 'r' => '\r'
    case 't' => '\t'
    case _ => letter
  }

  function Code(p: Piece): (n: nat)
    requires ValidPiece(p) && p.Hex4?
    ensures n < 0x10000
  {
    var d := p.digits;
    ((HexVal(d[0]) * 16 + HexVal(d[1])) * 16 + HexVal(d[2])) * 16 + HexVal(d[3])
  }

  predicate IsHigh(n: nat) {
    0xD800 <= n < 0xDC00
  }

  predicate IsLow(n: nat) {
    0xDC00 <= n < 0xE000
  }

  /** The string the pieces stand for: surrogate escapes combine in pairs, and one that stands
      alone becomes the replacement character. */
  function Decode(ps: seq<Piece>): string
    requires forall p :: p in ps ==> ValidPiece(p)
  {
    if ps == [] then ""
    else
      assert ps[0] in ps;
      match ps[0]
      case Raw(c) => [c] + Decode(ps[1..])
      case Short(letter) => [ShortChar(letter)] + Decode(ps[1..])
      case Hex4(_) =>
        var n := Code(ps[0]);
        if !IsHigh(n) && !IsLow(n) then [n as char] + Decode(ps[1..])
        else if IsHigh(n) && |ps| >= 2 && ps[1].Hex4? && (assert ps[1] in ps; IsLow(Code(ps[1]))) then
          [(0x10000 + (n - 0xD800) * 0x400 + (Code(ps[1]) - 0xDC00)) as char] + Decode(ps[2..])
        else ['\U{FFFD}'] + Decode(ps[1..])
  }

  /** The piece at the start of s. */
  function LexPiece(s: string): (r: Option<Piece>)
    ensures r.Some? ==> ValidPiece(r.value) && |PieceText(r.value)| <= |s|
  {
    if s == "" then None
    else if s[0] == '\\' then
      if |s| >= 2 && s[1] in SHORTS then Some(Short(s[1]))
      else if |s| >= 6 && s[1] == 'u' && IsHex(s[2]) && IsHex(s[3]) && IsHex(s[4]) && IsHex(s[5]) then
        Some(Hex4(s[2..6]))
      else None
    else if s[0] >= ' ' && s[0] != '"' then Some(Raw(s[0]))
    else None
  }

  /** The pieces up to the closing quote, and what follows it. */
  function LexString(s: string): (r: Option<(seq<Piece>, string)>)
    ensures r.Some? ==> |r.value.1| < |s| && forall p :: p in r.value.0 ==> ValidPiece(p)
    decreases |s|
  {
    if s != "" && s[0] == '"' then Some(([], s[1..]))
    else match LexPiece(s)
      case None => None
      case Some(p) =>
        match LexString(s[|PieceText(p)|..])
        case None => None
        case Some((ps, rest)) => Some(([p] + ps, rest))
  }

  lemma LexesPiece(p: Piece, rest: string)
    requires ValidPiece(p)
    ensures var s := PieceText(p) + rest;
            LexPiece(s) == Some(p) && s[|PieceText(p)|..] == rest && s[0] != '"'
  {
    var s := PieceText(p) + rest;
    assert s[|PieceText(p)|..] == rest;
    if p.Hex4? {
      assert s[2..6] == p.digits;
    }
  }

  lemma {:induction false} LexesPieces(ps: seq<Piece>, tail: string)
    requires forall p :: p in ps ==> ValidPiece(p)
    ensures LexString(PiecesText(ps) + "\"" + tail) == Some((ps, tail))
  {
    var s := PiecesText(ps) + "\"" + tail;
    if ps == [] {
      assert s == "\"" + tail && s[1..] == tail;
    } else {
      var p, rest := ps[0], PiecesText(ps[1..]) + "\"" + tail;
      assert p in ps;
      assert s == PieceText(p) + rest;
      LexesPiece(p, rest);
      LexesPieces(ps[1..], tail);
      assert [p] + ps[1..] == ps;
    }
  }

  // ---------------------------------------------------------------- the reader

  function FromPairs(ps: seq<(string, Value)>): map<string, Value> {
    if ps == [] then map[]
    else FromPairs(ps[..|ps| - 1])[ps[|ps| - 1].0 := ps[|ps| - 1].1]
  }

  lemma {:induction false} PairsFit(ps: seq<(string, Value)>, d: nat)
    requires forall i :: 0 <= i < |ps| ==> Fits(ps[i].1, d)
    ensures forall k :: k in FromPairs(ps) ==> Fits(FromPairs(ps)[k], d)
  {
    if ps != [] {
      PairsFit(ps[..|ps| - 1], d);
    }
  }

  /** One value, after any whitespace, nested at most d deep; and the text behind it. */
  function ReadValue(s: string, d: nat): (r: Option<(Value, string)>)
    ensures r.Some? ==> |r.value.1| < |s| && Fits(r.value.0, d)
    decreases |s|, 0
  {
    var t := SkipWs(s);
    if t == "" then None
    else if "null" <= t then Some((Null, t[4..]))
    else if "true" <= t then Some((Bool(true), t[4..]))
    else if "false" <= t then Some((Bool(false), t[5..]))
    else if t[0] == '"' then
      match LexString(t[1..])
      case None => None
      case Some((ps, rest)) => Some((Str(Decode(ps)), rest))
    else if t[0] == '[' then
      if d == 0 then None
      else
        var u := SkipWs(t[1..]);
        if u != "" && u[0] == ']' then Some((Arr([]), u[1..]))
        else match ReadItems(t[1..], d - 1)
          case None => None
          case Some((items, rest)) => Some((Arr(items), rest))
    else if t[0] == '{' then
      if d == 0 then None
      else
        var u := SkipWs(t[1..]);
        if u != "" && u[0] == '}' then Some((Obj(map[]), u[1..]))
        else match ReadMembers(t[1..], d - 1)
          case None => None
          case Some((ps, rest)) =>
            PairsFit(ps, d - 1);
            Some((Obj(FromPairs(ps)), rest))
    else match NumberEnd(t)
      case None => None
      case Some(n) => Some((Number(t[..n]), t[n..]))
  }

  function ReadItems(s: string, d: nat): (r: Option<(seq<Value>, string)>)
    ensures r.Some? ==> |r.value.1| < |s| && forall i :: 0 <= i < |r.value.0| ==> Fits(r.value.0[i], d)
    decreases |s|, 1
  {
    match ReadValue(s, d)
    case None => None
    case Some((v, after)) =>
      var t := SkipWs(after);
      if t != "" && t[0] == ']' then Some(([v], t[1..]))
      else if t != "" && t[0] == ',' then
        match ReadItems(t[1..], d)
        case None => None
        case Some((vs, rest)) => Some(([v] + vs, rest))
      else None
  }

  function ReadMembers(s: string, d: nat): (r: Option<(seq<(string, Value)>, string)>)
    ensures r.Some? ==> |r.value.1| < |s| && forall i :: 0 <= i < |r.value.0| ==> Fits(r.value.0[i].1, d)
    decreases |s|, 1
  {
    var t := SkipWs(s);
    if t == "" || t[0] != '"' then None
    else match LexString(t[1..])
      case None => None
      case Some((key, afterKey)) =>
        var u := SkipWs(afterKey);
        if u == "" || u[0] != ':' then None
        else match ReadValue(u[1..], d)
          case None => None
          case Some((v, after)) =>
            var w := SkipWs(after);
            if w != "" && w[0] == '}' then Some(([(Decode(key), v)], w[1..]))
            else if w != "" && w[0] == ',' then
              match ReadMembers(w[1..], d)
              case None => None
              case Some((ps, rest)) => Some(([(Decode(key), v)] + ps, rest))
            else None
  }

  // ---------------------------------------------------------------- documents

  datatype Doc =
    | DNull
    | DBool(b: bool)
    | DNumber(literal: string)
    | DString(pieces: seq<Piece>)
    | DArray(blank: string, items: seq<Item>)
    | DObject(blank: string, members: seq<Member>)

  /** A value with the whitespace written before and after it. */
  datatype Item = Item(before: string, doc: Doc, after: string)

  datatype Member = Member(before: string, key: seq<Piece>, afterKey: string, item: Item)

  predicate ValidPieces(ps: seq<Piece>) {
    forall p :: p in ps ==> ValidPiece(p)
  }

  predicate ValidDoc(doc: Doc)
    decreases doc
  {
    match doc
    case DNumber(literal) => IsNumber(literal)
    case DString(ps) => ValidPieces(ps)
    case DArray(blank, items) => AllWs(blank) && ValidItems(items)
    case DObject(blank, ms) => AllWs(blank) && ValidMembers(ms)
    case _ => true
  }

  predicate ValidItem(x: Item)
    decreases x
  {
    AllWs(x.before) && AllWs(x.after) && ValidDoc(x.doc)
  }

  predicate ValidItems(items: seq<Item>)
    decreases items
  {
    items != [] ==> ValidItem(items[0]) && ValidItems(items[1..])
  }

  predicate ValidMember(m: Member)
    decreases m
  {
    AllWs(m.before) && ValidPieces(m.key) && AllWs(m.afterKey) && ValidItem(m.item)
  }

  predicate ValidMembers(ms: seq<Member>)
    decreases ms
  {
    ms != [] ==> ValidMember(ms[0]) && ValidMembers(ms[1..])
  }

  /** At most d arrays and objects inside each other. */
  predicate Shallow(doc: Doc, d: nat)
    decreases doc
  {
    match doc
    case DArray(_, items) => d > 0 && ShallowItems(items, d - 1)
    case DObject(_, ms) => d > 0 && ShallowMembers(ms, d - 1)
    case _ => true
  }

  predicate ShallowItems(items: seq<Item>, d: nat)
    decreases items
  {
    items != [] ==> Shallow(items[0].doc, d) && ShallowItems(items[1..], d)
  }

  predicate ShallowMembers(ms: seq<Member>, d: nat)
    decreases ms
  {
    ms != [] ==> Shallow(ms[0].item.doc, d) && ShallowMembers(ms[1..], d)
  }

  function DocText(doc: Doc): (s: string)
    ensures s != "" || doc.DNumber?
    decreases doc
  {
    match doc
    case DNull => "null"
    case DBool(b) => if b then "true" else "false"
    case DNumber(literal) => literal
    case DString(ps) => "\"" + PiecesText(ps) + "\""
    case DArray(blank, items) => "[" + (if items == [] then blank + "]" else ItemsText(items))
    case DObject(blank, ms) => "{" + (if ms == [] then blank + "}" else MembersText(ms))
  }

  function ItemText(x: Item): string
    decreases x
  {
    x.before + DocText(x.doc) + x.after
  }

  function ItemsText(items: seq<Item>): string
    requires items != []
    decreases items
  {
    ItemText(items[0]) + if |items| == 1 then "]" else "," + ItemsText(items[1..])
  }

  function MemberText(m: Member): string
    decreases m, 1
  {
    m.before + ("\"" + KeyOnward(m))
  }

  /** A member from behind its opening quote. */
  function KeyOnward(m: Member): string
    decreases m, 0
  {
    PiecesText(m.key) + "\"" + (m.afterKey + (":" + ItemText(m.item)))
  }

  function MembersText(ms: seq<Member>): string
    requires ms != []
    decreases ms
  {
    MemberText(ms[0]) + if |ms| == 1 then "}" else "," + MembersText(ms[1..])
  }

  /** The value a document denotes. */
  function Meaning(doc: Doc): (v: Value)
    requires ValidDoc(doc)
    decreases doc
  {
    match doc
    case DNull => Null
    case DBool(b) => Bool(b)
    case DNumber(literal) => Number(literal)
    case DString(ps) => Str(Decode(ps))
    case DArray(_, items) => Arr(MeaningItems(items))
    case DObject(_, ms) => Obj(FromPairs(MeaningMembers(ms)))
  }

  function MeaningItems(items: seq<Item>): (vs: seq<Value>)
    requires ValidItems(items)
    ensures |vs| == |items|
    decreases items
  {
    if items == [] then [] else assert ValidItem(items[0]); [Meaning(items[0].doc)] + MeaningItems(items[1..])
  }

  function MeaningMember(m: Member): (string, Value)
    requires ValidMember(m)
    decreases m
  {
    assert ValidItem(m.item);
    (Decode(m.key), Meaning(m.item.doc))
  }

  function MeaningMembers(ms: seq<Member>): (ps: seq<(string, Value)>)
    requires ValidMembers(ms)
    ensures |ps| == |ms|
    decreases ms
  {
    if ms == [] then [] else [MeaningMember(ms[0])] + MeaningMembers(ms[1..])
  }

  // ---------------------------------------------------------------- the reader understands every document

  lemma FirstCharacter(doc: Doc)
    requires ValidDoc(doc)
    ensures DocText(doc) != "" && !IsWs(DocText(doc)[0])
    ensures doc.DNumber? ==> IsDigit(DocText(doc)[0]) || DocText(doc)[0] == '-'
  {
  }

  /** Whatever whitespace stands before, the reader gets the meaning and stops at the tail. */
  lemma {:induction false} ReadsDoc(ws: string, doc: Doc, tail: string, d: nat)
    requires AllWs(ws) && ValidDoc(doc) && Shallow(doc, d) && EndsNumber(tail)
    ensures ReadValue(ws + DocText(doc) + tail, d) == Some((Meaning(doc), tail))
    decreases doc, 2
  {
    var t := DocText(doc) + tail;
    FirstCharacter(doc);
    assert t[0] == DocText(doc)[0];
    SkipsAllWs(ws, t);
    assert ws + DocText(doc) + tail == ws + t;
    ReadsTrimmed(ws + t, doc, tail, d);
  }

  lemma ReadsNumber(s: string, literal: string, tail: string, d: nat)
    requires IsNumber(literal) && EndsNumber(tail) && SkipWs(s) == literal + tail
    ensures ReadValue(s, d) == Some((Number(literal), tail))
  {
    var t := SkipWs(s);
    NumberBefore(literal, tail);
    assert t[0] == literal[0] && (IsDigit(t[0]) || t[0] == '-');
    assert t[..|literal|] == literal && t[|literal|..] == tail;
  }

  lemma OpensString(s: string, body: string, d: nat)
    requires SkipWs(s) == "\"" + body
    ensures ReadValue(s, d) == match LexString(body)
                               case None => None
                               case Some((ps, rest)) => Some((Str(Decode(ps)), rest))
  {
    assert SkipWs(s)[0] == '"' && SkipWs(s)[1..] == body;
  }

  lemma ReadsString(s: string, ps: seq<Piece>, tail: string, d: nat)
    requires ValidPieces(ps) && SkipWs(s) == "\"" + PiecesText(ps) + "\"" + tail
    ensures ReadValue(s, d) == Some((Str(Decode(ps)), tail))
  {
    var body := PiecesText(ps) + "\"" + tail;
    assert SkipWs(s) == "\"" + body;
    OpensString(s, body, d);
    LexesPieces(ps, tail);
  }

  lemma {:induction false} ReadsTrimmed(s: string, doc: Doc, tail: string, d: nat)
    requires ValidDoc(doc) && Shallow(doc, d) && EndsNumber(tail) && SkipWs(s) == DocText(doc) + tail
    ensures ReadValue(s, d) == Some((Meaning(doc), tail))
    decreases doc, 1
  {
    var t := SkipWs(s);
    match doc
    case DNull => assert t[4..] == tail;
    case DBool(b) =>
      assert t[0] == DocText(doc)[0] && t[|DocText(doc)|..] == tail;
    case DNumber(literal) => ReadsNumber(s, literal, tail, d);
    case DString(ps) => ReadsString(s, ps, tail, d);
    case DArray(_, _) => ReadsArray(s, doc, tail, d);
    case DObject(_, _) => ReadsObject(s, doc, tail, d);
  }

  lemma OpensArray(s: string, body: string, d: nat)
    requires d > 0 && SkipWs(s) == "[" + body
    ensures ReadValue(s, d) ==
            var u := SkipWs(body);
            if u != "" && u[0] == ']' then Some((Arr([]), u[1..]))
            else match ReadItems(body, d - 1)
              case None => None
              case Some((items, rest)) => Some((Arr(items), rest))
  {
    assert SkipWs(s)[0] == '[' && SkipWs(s)[1..] == body;
  }

  lemma {:induction false} ReadsArray(s: string, doc: Doc, tail: string, d: nat)
    requires doc.DArray? && ValidDoc(doc) && Shallow(doc, d) && SkipWs(s) == DocText(doc) + tail
    ensures ReadValue(s, d) == Some((Meaning(doc), tail))
    decreases doc, 0
  {
    var items := doc.items;
    if items == [] {
      var close := "]" + tail;
      assert SkipWs(s) == "[" + (doc.blank + close) && close[1..] == tail;
      OpensArray(s, doc.blank + close, d);
      SkipsAllWs(doc.blank, close);
    } else {
      var body := ItemsText(items) + tail;
      assert SkipWs(s) == "[" + body;
      OpensArray(s, body, d);
      ReadsItems(items, tail, d - 1);
      ItemsStart(items, tail);
    }
  }

  lemma OpensObject(s: string, body: string, d: nat)
    requires d > 0 && SkipWs(s) == "{" + body
    ensures ReadValue(s, d) ==
            var u := SkipWs(body);
            if u != "" && u[0] == '}' then Some((Obj(map[]), u[1..]))
            else match ReadMembers(body, d - 1)
              case None => None
              case Some((ps, rest)) => Some((Obj(FromPairs(ps)), rest))
  {
    assert SkipWs(s)[0] == '{' && SkipWs(s)[1..] == body;
  }

  lemma {:induction false} ReadsObject(s: string, doc: Doc, tail: string, d: nat)
    requires doc.DObject? && ValidDoc(doc) && Shallow(doc, d) && SkipWs(s) == DocText(doc) + tail
    ensures ReadValue(s, d) == Some((Meaning(doc), tail))
    decreases doc, 0
  {
    var ms := doc.members;
    if ms == [] {
      var close := "}" + tail;
      assert SkipWs(s) == "{" + (doc.blank + close) && close[1..] == tail;
      OpensObject(s, doc.blank + close, d);
      SkipsAllWs(doc.blank, close);
    } else {
      var body := MembersText(ms) + tail;
      assert SkipWs(s) == "{" + body;
      OpensObject(s, body, d);
      ReadsMembers(ms, tail, d - 1);
      MembersStart(ms, tail);
    }
  }

  lemma ItemsStart(items: seq<Item>, tail: string)
    requires items != [] && ValidItems(items)
    ensures var u := SkipWs(ItemsText(items) + tail); u != "" && u[0] != ']'
  {
    var x := items[0];
    var rest := x.after + (if |items| == 1 then "]" else "," + ItemsText(items[1..])) + tail;
    FirstCharacter(x.doc);
    assert ItemsText(items) + tail == x.before + (DocText(x.doc) + rest);
    SkipsAllWs(x.before, DocText(x.doc) + rest);
  }

  lemma MembersStart(ms: seq<Member>, tail: string)
    requires ms != [] && ValidMembers(ms)
    ensures var u := SkipWs(MembersText(ms) + tail); u != "" && u[0] == '"'
  {
    var m := ms[0];
    var more := if |ms| == 1 then "}" else "," + MembersText(ms[1..]);
    assert ValidMember(m);
    var quoted := "\"" + (KeyOnward(m) + more + tail);
    SkipsAllWs(m.before, quoted);
    assert MembersText(ms) + tail == m.before + quoted;
  }

  /** An item, then a delimiter: the value is read, and the delimiter is what comes next. */
  lemma {:induction false} ReadsItem(x: Item, delimiter: char, rest: string, d: nat)
    requires ValidItem(x) && Shallow(x.doc, d)
    requires delimiter == ',' || delimiter == ']' || delimiter == '}'
    ensures var after := x.after + ([delimiter] + rest);
            ReadValue(ItemText(x) + ([delimiter] + rest), d) == Some((Meaning(x.doc), after)) &&
            SkipWs(after) == [delimiter] + rest
    decreases x
  {
    var after := x.after + ([delimiter] + rest);
    SkipsAllWs(x.after, [delimiter] + rest);
    assert ItemText(x) + ([delimiter] + rest) == x.before + DocText(x.doc) + after;
    ReadsDoc(x.before, x.doc, after, d);
  }

  lemma {:induction false} ReadsItems(items: seq<Item>, tail: string, d: nat)
    requires items != [] && ValidItems(items) && ShallowItems(items, d)
    ensures ReadItems(ItemsText(items) + tail, d) == Some((MeaningItems(items), tail))
    decreases items
  {
    if |items| == 1 {
      assert items[1..] == [];
      assert ItemsText(items) + tail == ItemText(items[0]) + ([']'] + tail);
      ReadsItem(items[0], ']', tail, d);
      assert ([']'] + tail)[1..] == tail;
      assert MeaningItems(items) == [Meaning(items[0].doc)];
    } else {
      var rest := ItemsText(items[1..]) + tail;
      assert ItemsText(items) + tail == ItemText(items[0]) + ([','] + rest);
      ReadsItem(items[0], ',', rest, d);
      assert ([','] + rest)[1..] == rest;
      ReadsItems(items[1..], tail, d);
    }
  }

  /** A member, then a delimiter. */
  lemma {:induction false} ReadsMember(m: Member, rest: string)
    requires ValidMember(m)
    ensures var t := SkipWs(MemberText(m) + rest);
            t != "" && t[0] == '"' &&
            var lexed := LexString(t[1..]);
            lexed.Some? && lexed.value.0 == m.key &&
            SkipWs(lexed.value.1) == ":" + (ItemText(m.item) + rest)
  {
    var colon := ":" + (ItemText(m.item) + rest);
    var quoted := "\"" + (KeyOnward(m) + rest);
    assert MemberText(m) + rest == m.before + quoted;
    SkipsAllWs(m.before, quoted);
    assert quoted[1..] == PiecesText(m.key) + "\"" + (m.afterKey + colon);
    LexesPieces(m.key, m.afterKey + colon);
    SkipsAllWs(m.afterKey, colon);
  }

  lemma {:induction false} ReadsMemberStep(m: Member, delimiter: char, rest: string, d: nat)
    requires ValidMember(m) && Shallow(m.item.doc, d) && (delimiter == ',' || delimiter == '}')
    ensures var pair := MeaningMember(m);
            ReadMembers(MemberText(m) + ([delimiter] + rest), d) ==
            if delimiter == '}' then Some(([pair], rest))
            else match ReadMembers(rest, d)
              case None => None
              case Some((ps, tail)) => Some(([pair] + ps, tail))
    decreases m
  {
    ReadsMember(m, [delimiter] + rest);
    ReadsItem(m.item, delimiter, rest, d);
    assert (":" + (ItemText(m.item) + ([delimiter] + rest)))[1..] == ItemText(m.item) + ([delimiter] + rest);
    assert ([delimiter] + rest)[1..] == rest;
  }

  lemma {:induction false} ReadsMembers(ms: seq<Member>, tail: string, d: nat)
    requires ms != [] && ValidMembers(ms) && ShallowMembers(ms, d)
    ensures ReadMembers(MembersText(ms) + tail, d) == Some((MeaningMembers(ms), tail))
    decreases ms
  {
    var m := ms[0];
    if |ms| == 1 {
      ReadsMemberStep(m, '}', tail, d);
      assert MembersText(ms) + tail == MemberText(m) + (['}'] + tail);
      assert MeaningMembers(ms) == [MeaningMember(m)];
    } else {
      ReadsMembers(ms[1..], tail, d);
      ReadsMoreMembers(ms, tail, d);
    }
  }

  lemma ReadsMoreMembers(ms: seq<Member>, tail: string, d: nat)
    requires |ms| > 1 && ValidMembers(ms) && ShallowMembers(ms, d)
    requires ReadMembers(MembersText(ms[1..]) + tail, d) == Some((MeaningMembers(ms[1..]), tail))
    ensures ReadMembers(MembersText(ms) + tail, d) == Some((MeaningMembers(ms), tail))
  {
    var rest := MembersText(ms[1..]) + tail;
    ReadsMemberStep(ms[0], ',', rest, d);
    assert MembersText(ms) + tail == MemberText(ms[0]) + ([','] + rest);
  }
}
