/** The canonical JSON writer. Floating-point parsing and shortest formatting are parameters with
    stated laws; everything the SDK does around them is modelled. */
module Jcs {
  import opened Text
  import opened Json
  import opened Numerals

  // ---------------------------------------------------------------- numbers

  /** An IEEE 754 double, by its bits. */
  type Float64 = bits: nat | bits < 0x1_0000_0000_0000_0000

  /** `Number.Float64`, the tests on a double, and its shortest decimal. */
  datatype FloatLib = FloatLib(
    parse: string -> Option<Float64>,
    isFinite: Float64 -> bool,
    isZero: Float64 -> bool,
    inPositionalBand: Float64 -> bool,
    decimal: Float64 -> Decimal)

  predicate IsExpo(mantissa: string, sign: char, digits: string) {
    IsNumber(mantissa) && NoExponent(mantissa) && (sign == '+' || sign == '-') && digits != "" && AllDigits(digits)
  }

  /** A finite double other than zero. */
  predicate IsProper(lib: FloatLib, f: Float64) {
    lib.isFinite(f) && !lib.isZero(f)
  }

  /** The laws of floating-point text: both spellings of the shortest decimal reparse to the same double, the band from
      1e-6 to 1e21 is seen from the decimal, and zeros in front of an exponent do not matter. */
  ghost predicate Lawful(lib: FloatLib) {
    && lib.parse("0").Some? && lib.isZero(lib.parse("0").value)
    && (forall f: Float64 :: lib.isZero(f) ==> lib.isFinite(f))
    && (forall f: Float64 :: IsProper(lib, f) ==>
          && ValidDecimal(lib.decimal(f)) && (lib.inPositionalBand(f) <==> -6 < lib.decimal(f).point <= 21)
          && lib.parse(FixedText(lib.decimal(f))) == Some(f) && lib.parse(ScientificText(lib.decimal(f))) == Some(f))
    && (forall m: string, c: char, a: string, b: string ::
          IsExpo(m, c, a) && IsExpo(m, c, b) && Atoi(a) == Atoi(b) ==> lib.parse(Expo(m, c, a)) == lib.parse(Expo(m, c, b)))
  }

  /** The first 'e' or 'E'. */
  function ExpIndex(s: string): (i: nat)
    ensures i <= |s| && NoExponent(s[..i]) && (i < |s| ==> IsExp(s[i]))
  {
    if s == "" || IsExp(s[0]) then 0
    else
      var i := ExpIndex(s[1..]);
      assert s[..i + 1] == [s[0]] + s[1..][..i];
      i + 1
  }

  lemma {:induction false} ExpIndexIs(head: string, tail: string)
    requires NoExponent(head) && tail != "" && IsExp(tail[0])
    ensures ExpIndex(head + tail) == |head|
  {
    if head != "" {
      assert (head + tail)[1..] == head[1..] + tail;
      ExpIndexIs(head[1..], tail);
    }
  }

  /** What follows an exponent mark is a number, with a sign or without. */
  predicate ExponentIsNumber(s: string) {
    var i := ExpIndex(s);
    i < |s| ==> i + 1 < |s| && AllDigits(if s[i + 1] == '+' || s[i + 1] == '-' then s[i + 2..] else s[i + 1..])
  }

  /** `es6NumberFormat`: the exponent loses its zero padding. */
  function Es6NumberFormat(s: string): string
    requires ExponentIsNumber(s)
  {
    var i := ExpIndex(s);
    if i == |s| then s
    else
      var signed := s[i + 1] == '+' || s[i + 1] == '-';
      var sign := if signed then [s[i + 1]] else "";
      var digits := if signed then s[i + 2..] else s[i + 1..];
      s[..i] + "e" + sign + Itoa(Atoi(digits))
  }

  lemma Es6OfExpo(mantissa: string, sign: char, digits: string)
    requires IsExpo(mantissa, sign, digits)
    ensures var s := Expo(mantissa, sign, digits);
            && ExpIndex(s) == |mantissa| && s[|mantissa| + 1] == sign && s[|mantissa| + 2..] == digits
            && ExponentIsNumber(s)
    ensures Es6NumberFormat(Expo(mantissa, sign, digits)) == Expo(mantissa, sign, Itoa(Atoi(digits)))
  {
    var s := Expo(mantissa, sign, digits);
    assert s == mantissa + ("e" + [sign] + digits);
    ExpIndexIs(mantissa, "e" + [sign] + digits);
    assert s[..|mantissa|] == mantissa && s[|mantissa| + 2..] == digits;
  }

  /** `jcsWriteNumber`: None is its error. */
  function NumberText(lib: FloatLib, literal: string): (r: Option<string>)
    requires Lawful(lib)
  {
    match lib.parse(literal)
    case None => None
    case Some(f) =>
      if !lib.isFinite(f) then None
      else if lib.isZero(f) then Some("0")
      else if lib.inPositionalBand(f) then Some(FixedText(lib.decimal(f)))
      else Some(ExponentialText(lib.decimal(f)))
  }

  /** Its last branch. */
  function ExponentialText(d: Decimal): string
    requires ValidDecimal(d)
  {
    Unpads(d);
    Es6NumberFormat(ScientificText(d))
  }

  /** The exponent of a decimal in either spelling. */
  lemma ExponentsOf(d: Decimal)
    requires ValidDecimal(d)
    ensures var e := Abs(d.point - 1);
            && IsExpo(Mantissa(d), SignChar(d.point - 1), Padded(e)) && IsExpo(Mantissa(d), SignChar(d.point - 1), Itoa(e))
            && Atoi(Padded(e)) == Atoi(Itoa(e)) == e
  {
    MantissaIsNumber(d);
    AtoiPadded(Abs(d.point - 1));
    AtoiItoa(Abs(d.point - 1));
  }

  /** The decimal without the zeros in front of its exponent. */
  function Unpadded(d: Decimal): string
    requires d.digits != ""
  {
    Expo(Mantissa(d), SignChar(d.point - 1), Itoa(Abs(d.point - 1)))
  }

  lemma Unpads(d: Decimal)
    requires ValidDecimal(d)
    ensures ExponentIsNumber(ScientificText(d)) && Es6NumberFormat(ScientificText(d)) == Unpadded(d)
    ensures IsNumber(Unpadded(d))
  {
    ExponentsOf(d);
    Es6OfExpo(Mantissa(d), SignChar(d.point - 1), Padded(Abs(d.point - 1)));
    ExponentExtends(Mantissa(d), SignChar(d.point - 1), Itoa(Abs(d.point - 1)));
  }

  lemma ScientificFormats(lib: FloatLib, f: Float64)
    requires Lawful(lib) && IsProper(lib, f)
    ensures var d := lib.decimal(f);
            && ValidDecimal(d) && ExponentialText(d) == Unpadded(d)
            && IsNumber(Unpadded(d)) && lib.parse(Unpadded(d)) == Some(f)
  {
    var d := lib.decimal(f);
    Unpads(d);
    ExponentsOf(d);
  }

  /** Equal as numbers: the same double, or both a zero of some sign. */
  predicate SameFloat(lib: FloatLib, f: Float64, g: Float64) {
    f == g || (lib.isZero(f) && lib.isZero(g))
  }

  predicate SameNumber(lib: FloatLib, a: string, b: string) {
    lib.parse(a).Some? && lib.parse(b).Some? && SameFloat(lib, lib.parse(a).value, lib.parse(b).value)
  }

  /** A written number is a JSON number that reparses to the number it was made from. */
  lemma WrittenNumberReparses(lib: FloatLib, literal: string)
    requires Lawful(lib) && NumberText(lib, literal).Some?
    ensures var text := NumberText(lib, literal).value;
            IsNumber(text) && SameNumber(lib, literal, text) && NumberText(lib, text) == Some(text)
  {
    var f := lib.parse(literal).value;
    if lib.isZero(f) {
      assert IntEnd("0") == Some(1);
    } else {
      FixedIsNumber(lib.decimal(f));
      ScientificFormats(lib, f);
    }
  }

  /** What section 3.2.2.3 of RFC 8785 writes: ECMAScript's spelling; there is none for what is no finite number. */
  function RfcNumber(lib: FloatLib, literal: string): (r: Option<string>)
    requires Lawful(lib)
  {
    match lib.parse(literal)
    case None => None
    case Some(f) => if lib.isZero(f) then Some("0") else if lib.isFinite(f) then Some(Es6Text(lib.decimal(f))) else None
  }

  /** The text of a proper double, by the band. */
  lemma TextOf(lib: FloatLib, literal: string, f: Float64)
    requires Lawful(lib) && lib.parse(literal) == Some(f) && IsProper(lib, f)
    ensures ValidDecimal(lib.decimal(f))
    ensures NumberText(lib, literal) ==
            Some(if -6 < lib.decimal(f).point <= 21 then FixedText(lib.decimal(f)) else Unpadded(lib.decimal(f)))
  {
    ScientificFormats(lib, f);
  }

  lemma SpellsEs6(d: Decimal)
    requires ValidDecimal(d)
    ensures Es6Text(d) == if -6 < d.point <= 21 then FixedText(d) else Unpadded(d)
  {
    if -6 < d.point <= 21 {
      FixedIsEs6(d);
    } else {
      UnpaddedIsEs6(d);
    }
  }

  /** Numbers are written as RFC 8785 asks, digit by digit, and refused exactly when they are no finite doubles. */
  lemma {:induction false} NumbersConform(lib: FloatLib, literal: string)
    requires Lawful(lib)
    ensures NumberText(lib, literal) == RfcNumber(lib, literal)
  {
    if lib.parse(literal).Some? && IsProper(lib, lib.parse(literal).value) {
      TextOf(lib, literal, lib.parse(literal).value);
      SpellsEs6(lib.decimal(lib.parse(literal).value));
    }
  }

  /** A written exponent has a sign, and no zero in front of other digits. */
  predicate IsCanonicalExpo(text: string, mantissa: string, sign: char, digits: string) {
    IsExpo(mantissa, sign, digits) && text == Expo(mantissa, sign, digits) && (digits[0] != '0' || digits == "0")
  }

  ghost predicate HasCanonicalExpo(text: string) {
    exists mantissa, sign, digits :: IsCanonicalExpo(text, mantissa, sign, digits)
  }

  lemma UnpaddedIsCanonical(d: Decimal)
    requires ValidDecimal(d)
    ensures HasCanonicalExpo(Unpadded(d))
  {
    ExponentsOf(d);
    assert IsCanonicalExpo(Unpadded(d), Mantissa(d), SignChar(d.point - 1), Itoa(Abs(d.point - 1)));
  }

  /** A written number has a canonical exponent outside the band and none within. */
  lemma {:induction false} WrittenExponents(lib: FloatLib, literal: string)
    requires Lawful(lib) && NumberText(lib, literal).Some?
    ensures var f, text := lib.parse(literal).value, NumberText(lib, literal).value;
            if lib.isZero(f) || -6 < lib.decimal(f).point <= 21 then NoExponent(text) else HasCanonicalExpo(text)
  {
    var f := lib.parse(literal).value;
    if !lib.isZero(f) {
      TextOf(lib, literal, f);
      FixedIsNumber(lib.decimal(f));
      UnpaddedIsCanonical(lib.decimal(f));
    }
  }

  // ---------------------------------------------------------------- strings

  function LowerHex(n: nat): (c: char)
    requires n < 16
    ensures IsHex(c) && HexVal(c) == n
  {
    if n < 10 then (n + '0' as int) as char else (n - 10 + 'a' as int) as char
  }

  function HexFour(n: nat): (p: Piece)
    requires n < 0x10000
    ensures p.Hex4? && ValidPiece(p) && Code(p) == n
  {
    var a := n / 16;
    var b := a / 16;
    Hex4([LowerHex(b / 16), LowerHex(b % 16), LowerHex(a % 16), LowerHex(n % 16)])
  }

  /** How `json.Marshal` writes one character, HTML escaping included. */
  function Escape(c: char): (p: Piece)
    ensures ValidPiece(p)
  {
    if c == '"' || c == '\\' then Short(c)
    else if c == 8 as char then Short('b')
    else if c == 12 as char then Short('f')
    else if c == '\n' then Short('n')
    else if c == '\r' then Short('r')
    else if c == '\t' then Short('t')
    else if c < ' ' || c == '<' || c == '>' || c == '&' || c == '\U{2028}' || c == '\U{2029}' then HexFour(c as nat)
    else Raw(c)
  }

  function EscapeAll(s: string): (ps: seq<Piece>)
    ensures ValidPieces(ps)
  {
    if s == "" then [] else [Escape(s[0])] + EscapeAll(s[1..])
  }

  lemma DecodeEscape(c: char, ps: seq<Piece>)
    requires ValidPieces(ps)
    ensures Decode([Escape(c)] + ps) == [c] + Decode(ps)
  {
    assert ([Escape(c)] + ps)[1..] == ps;
  }

  lemma {:induction false} DecodeEscapeAll(s: string)
    ensures Decode(EscapeAll(s)) == s
  {
    if s != "" {
      DecodeEscapeAll(s[1..]);
      DecodeEscape(s[0], EscapeAll(s[1..]));
      assert [s[0]] + s[1..] == s;
    }
  }

  // ---------------------------------------------------------------- sorted keys

  predicate StrictlySorted(keys: seq<string>) {
    forall i, j :: 0 <= i < j < |keys| ==> Less(keys[i], keys[j])
  }

  lemma FirstIsLeast(keys: seq<string>, k: string)
    requires StrictlySorted(keys) && k in keys
    ensures k == keys[0] || Less(keys[0], k)
  {
    var i :| 0 <= i < |keys| && keys[i] == k;
  }

  lemma NonEmptyToo(a: seq<string>, b: seq<string>)
    requires forall k :: k in a ==> k in b
    ensures a != [] ==> b != []
  {
    assert a != [] ==> a[0] in a;
  }

  lemma {:induction false} SortedIsUnique(a: seq<string>, b: seq<string>)
    requires StrictlySorted(a) && StrictlySorted(b)
    requires forall k :: k in a <==> k in b
    ensures a == b
  {
    NonEmptyToo(a, b);
    NonEmptyToo(b, a);
    if a != [] {
      FirstIsLeast(a, b[0]);
      FirstIsLeast(b, a[0]);
      LessTotal(a[0], b[0]);
      forall k
        ensures k in a[1..] <==> k in b[1..]
      {
        LessTotal(a[0], k);
        assert k in a <==> k == a[0] || k in a[1..];
        assert k in b <==> k == b[0] || k in b[1..];
      }
      SortedIsUnique(a[1..], b[1..]);
      assert a == [a[0]] + a[1..] && b == [b[0]] + b[1..];
    }
  }

  /** Insert a new key into a sorted list. */
  function Insert(key: string, keys: seq<string>): (r: seq<string>)
    requires StrictlySorted(keys) && key !in keys
    ensures StrictlySorted(r) && forall k :: k in r <==> k == key || k in keys
  {
    if keys == [] then [key]
    else
      LessTotal(key, keys[0]);
      if Less(key, keys[0]) then
        assert forall i :: 1 <= i < |keys| ==> Less(keys[0], keys[i]);
        assert forall i :: 0 <= i < |keys| ==> Less(key, keys[i]) by {
          forall i | 1 <= i < |keys| ensures Less(key, keys[i]) { LessTransitive(key, keys[0], keys[i]); }
        }
        [key] + keys
      else
        var rest := Insert(key, keys[1..]);
        assert forall i :: 0 <= i < |rest| ==> Less(keys[0], rest[i]) by {
          forall i | 0 <= i < |rest| ensures Less(keys[0], rest[i]) {
            assert rest[i] in rest;
            if rest[i] != key { FirstIsLeast(keys, rest[i]); LessTotal(keys[0], rest[i]); }
          }
        }
        assert keys == [keys[0]] + keys[1..];
        [keys[0]] + rest
  }

  function InsertAll(keys: seq<string>): (r: seq<string>)
    requires forall i, j :: 0 <= i < j < |keys| ==> keys[i] != keys[j]
    ensures StrictlySorted(r) && forall k :: k in r <==> k in keys
  {
    if keys == [] then []
    else
      var n := |keys| - 1;
      assert keys == keys[..n] + [keys[n]];
      Insert(keys[n], InsertAll(keys[..n]))
  }

  /** The keys of a map in order. */
  ghost function SortedKeys(keys: set<string>): (r: seq<string>)
    ensures StrictlySorted(r) && forall k :: k in r <==> k in keys
  {
    if keys == {} then []
    else
      var k :| k in keys;
      Insert(k, SortedKeys(keys - {k}))
  }

  // ---------------------------------------------------------------- the canonical document

  /** Every number in the value has a canonical form: otherwise writing fails. */
  predicate Printable(lib: FloatLib, v: Value)
    requires Lawful(lib)
  {
    match v
    case Number(literal) => NumberText(lib, literal).Some?
    case Arr(items) => forall i :: 0 <= i < |items| ==> Printable(lib, items[i])
    case Obj(members) => forall k :: k in members ==> Printable(lib, members[k])
    case _ => true
  }

  /** The document the writer produces: no whitespace, keys in order, canonical strings and
      numbers. */
  ghost function CanonDoc(lib: FloatLib, v: Value): (doc: Doc)
    requires Lawful(lib) && Printable(lib, v)
    ensures ValidDoc(doc)
    decreases v, 1, 0
  {
    match v
    case Null => DNull
    case Bool(b) => DBool(b)
    case Number(literal) =>
      WrittenNumberReparses(lib, literal);
      DNumber(NumberText(lib, literal).value)
    case Str(s) => DString(EscapeAll(s))
    case Arr(items) => DArray("", CanonItems(lib, items))
    case Obj(members) => DObject("", CanonMembers(lib, v, SortedKeys(members.Keys)))
  }

  ghost function CanonItems(lib: FloatLib, vs: seq<Value>): (items: seq<Item>)
    requires Lawful(lib) && forall i :: 0 <= i < |vs| ==> Printable(lib, vs[i])
    ensures ValidItems(items) && |items| == |vs|
    decreases vs, 0, 0
  {
    if vs == [] then []
    else
      var x := Item("", CanonDoc(lib, vs[0]), "");
      assert ValidItem(x);
      [x] + CanonItems(lib, vs[1..])
  }

  ghost function CanonMember(lib: FloatLib, v: Value, key: string): (m: Member)
    requires Lawful(lib) && v.Obj? && Printable(lib, v) && key in v.members
    ensures ValidMember(m)
    decreases v, 0, 0
  {
    var x := Item("", CanonDoc(lib, v.members[key]), "");
    assert ValidItem(x);
    Member("", EscapeAll(key), "", x)
  }

  ghost function CanonMembers(lib: FloatLib, v: Value, keys: seq<string>): (ms: seq<Member>)
    requires Lawful(lib) && v.Obj? && Printable(lib, v) && forall k :: k in keys ==> k in v.members
    ensures ValidMembers(ms) && |ms| == |keys|
    decreases v, 0, 1, |keys|
  {
    if keys == [] then []
    else
      assert keys[0] in keys;
      [CanonMember(lib, v, keys[0])] + CanonMembers(lib, v, keys[1..])
  }

  ghost function Print(lib: FloatLib, v: Value): string
    requires Lawful(lib) && Printable(lib, v)
  {
    DocText(CanonDoc(lib, v))
  }

  /** The value read back: the same, with every number in canonical spelling. */
  function Canon(lib: FloatLib, v: Value): (c: Value)
    requires Lawful(lib) && Printable(lib, v)
  {
    match v
    case Number(literal) => Number(NumberText(lib, literal).value)
    case Arr(items) => Arr(seq(|items|, i requires 0 <= i < |items| => Canon(lib, items[i])))
    case Obj(members) => Obj(map k | k in members :: Canon(lib, members[k]))
    case _ => v
  }

  lemma {:induction false} MeaningOfCanonItems(lib: FloatLib, vs: seq<Value>)
    requires Lawful(lib) && forall i :: 0 <= i < |vs| ==> Printable(lib, vs[i])
    ensures MeaningItems(CanonItems(lib, vs)) == seq(|vs|, i requires 0 <= i < |vs| => Canon(lib, vs[i]))
    decreases vs, 0
  {
    if vs != [] {
      MeaningOfCanonDoc(lib, vs[0]);
      MeaningOfCanonItems(lib, vs[1..]);
      assert CanonItems(lib, vs)[1..] == CanonItems(lib, vs[1..]);
    }
  }

  lemma {:induction false} MeaningOfCanonMembers(lib: FloatLib, v: Value, keys: seq<string>)
    requires Lawful(lib) && v.Obj? && Printable(lib, v) && forall k :: k in keys ==> k in v.members
    ensures var ps := MeaningMembers(CanonMembers(lib, v, keys));
            forall i :: 0 <= i < |keys| ==> ps[i] == (keys[i], Canon(lib, v.members[keys[i]]))
    decreases v, 0, 0, |keys|
  {
    if keys != [] {
      assert keys[0] in keys;
      var m := CanonMember(lib, v, keys[0]);
      DecodeEscapeAll(keys[0]);
      MeaningOfCanonDoc(lib, v.members[keys[0]]);
      MeaningOfCanonMembers(lib, v, keys[1..]);
      assert CanonMembers(lib, v, keys)[1..] == CanonMembers(lib, v, keys[1..]);
    }
  }

  predicate DistinctNames(ps: seq<(string, Value)>) {
    forall i, j :: 0 <= i < j < |ps| ==> ps[i].0 != ps[j].0
  }

  /** Pairs with distinct names make the map that holds exactly them. */
  lemma {:induction false} FromPairsHolds(ps: seq<(string, Value)>, i: nat)
    requires DistinctNames(ps) && i < |ps|
    ensures ps[i].0 in FromPairs(ps) && FromPairs(ps)[ps[i].0] == ps[i].1
  {
    var n := |ps| - 1;
    if i < n {
      assert ps[..n][i] == ps[i];
      FromPairsHolds(ps[..n], i);
    }
  }

  lemma {:induction false} FromPairsNames(ps: seq<(string, Value)>, k: string) returns (i: nat)
    requires k in FromPairs(ps)
    ensures i < |ps| && ps[i].0 == k
  {
    var n := |ps| - 1;
    if k == ps[n].0 {
      i := n;
    } else {
      i := FromPairsNames(ps[..n], k);
    }
  }

  lemma PairsOfSortedKeys(keys: seq<string>, c: map<string, Value>, ps: seq<(string, Value)>)
    requires StrictlySorted(keys) && (forall k :: k in keys <==> k in c) && |ps| == |keys|
    requires forall i :: 0 <= i < |keys| ==> ps[i] == (keys[i], c[keys[i]])
    ensures FromPairs(ps) == c
  {
    forall i, j | 0 <= i < j < |ps|
      ensures ps[i].0 != ps[j].0
    {
      LessTotal(keys[i], keys[j]);
    }
    forall k | k in c
      ensures k in FromPairs(ps) && FromPairs(ps)[k] == c[k]
    {
      var i :| 0 <= i < |keys| && keys[i] == k;
      FromPairsHolds(ps, i);
    }
    forall k | k in FromPairs(ps)
      ensures k in c
    {
      var i := FromPairsNames(ps, k);
      assert keys[i] in keys;
    }
  }

  /** The canonical document of a value means that value, numbers respelled. */
  lemma {:induction false} MeaningOfCanonDoc(lib: FloatLib, v: Value)
    requires Lawful(lib) && Printable(lib, v)
    ensures Meaning(CanonDoc(lib, v)) == Canon(lib, v)
    decreases v, 1
  {
    match v
    case Str(s) => DecodeEscapeAll(s);
    case Arr(items) => MeaningOfCanonItems(lib, items);
    case Obj(_) => MeaningOfCanonObject(lib, v);
    case _ =>
  }

  lemma {:induction false} MeaningOfCanonObject(lib: FloatLib, v: Value)
    requires Lawful(lib) && v.Obj? && Printable(lib, v)
    ensures Meaning(CanonDoc(lib, v)) == Canon(lib, v)
    decreases v, 0, 1, 0
  {
    var keys := SortedKeys(v.members.Keys);
    var ms := CanonMembers(lib, v, keys);
    MeaningOfCanonMembers(lib, v, keys);
    PairsOfSortedKeys(keys, Canon(lib, v).members, MeaningMembers(ms));
    assert CanonDoc(lib, v) == DObject("", ms);
  }

  // ---------------------------------------------------------------- nesting

  lemma {:induction false} ShallowCanonItems(lib: FloatLib, vs: seq<Value>, d: nat)
    requires Lawful(lib) && forall i :: 0 <= i < |vs| ==> Printable(lib, vs[i]) && Fits(vs[i], d)
    ensures ShallowItems(CanonItems(lib, vs), d)
    decreases vs, 0
  {
    if vs != [] {
      ShallowCanonDoc(lib, vs[0], d);
      ShallowCanonItems(lib, vs[1..], d);
      assert CanonItems(lib, vs)[1..] == CanonItems(lib, vs[1..]);
    }
  }

  lemma {:induction false} ShallowCanonMembers(lib: FloatLib, v: Value, keys: seq<string>, d: nat)
    requires Lawful(lib) && v.Obj? && Printable(lib, v)
    requires forall k :: k in keys ==> k in v.members && Fits(v.members[k], d)
    ensures ShallowMembers(CanonMembers(lib, v, keys), d)
    decreases v, 0, |keys|
  {
    if keys != [] {
      assert keys[0] in keys;
      ShallowCanonDoc(lib, v.members[keys[0]], d);
      ShallowCanonMembers(lib, v, keys[1..], d);
      assert CanonMembers(lib, v, keys)[1..] == CanonMembers(lib, v, keys[1..]);
    }
  }

  lemma {:induction false} ShallowCanonDoc(lib: FloatLib, v: Value, d: nat)
    requires Lawful(lib) && Printable(lib, v) && Fits(v, d)
    ensures Shallow(CanonDoc(lib, v), d)
    decreases v, 1
  {
    match v
    case Arr(items) => ShallowCanonItems(lib, items, d - 1);
    case Obj(members) => ShallowCanonMembers(lib, v, SortedKeys(members.Keys), d - 1);
    case _ =>
  }

  /** Every value fits some depth. */
  lemma {:induction false} FitsSome(v: Value) returns (d: nat)
    ensures Fits(v, d)
    decreases v, 1
  {
    match v
    case Arr(items) =>
      d := AllFitSome(v, items);
      d := d + 1;
    case Obj(members) =>
      var keys := SortedKeys(members.Keys);
      var vs := seq(|keys|, i requires 0 <= i < |keys| => assert keys[i] in keys; members[keys[i]]);
      forall i | 0 <= i < |vs|
        ensures vs[i] < v
      {
        assert keys[i] in members && vs[i] == members[keys[i]];
      }
      d := AllFitSome(v, vs);
      forall k | k in members
        ensures Fits(members[k], d)
      {
        var i :| 0 <= i < |keys| && keys[i] == k;
        assert vs[i] == members[k];
      }
      d := d + 1;
    case _ => d := 0;
  }

  lemma {:induction false} AllFitSome(parent: Value, vs: seq<Value>) returns (d: nat)
    requires forall i :: 0 <= i < |vs| ==> vs[i] < parent
    ensures forall i :: 0 <= i < |vs| ==> Fits(vs[i], d)
    decreases parent, 0, |vs|
  {
    if vs == [] {
      d := 0;
    } else {
      var d0 := FitsSome(vs[0]);
      var d1 := AllFitSome(parent, vs[1..]);
      d := if d0 < d1 then d1 else d0;
      FitsMore(vs[0], d0, d);
      forall i | 1 <= i < |vs| ensures Fits(vs[i], d) {
        assert vs[i] == vs[1..][i - 1];
        FitsMore(vs[i], d1, d);
      }
    }
  }

  lemma {:induction false} FitsMore(v: Value, d: nat, e: nat)
    requires Fits(v, d) && d <= e
    ensures Fits(v, e)
  {
    match v
    case Arr(items) => forall i | 0 <= i < |items| ensures Fits(items[i], e - 1) { FitsMore(items[i], d - 1, e - 1); }
    case Obj(members) => forall k | k in members ensures Fits(members[k], e - 1) { FitsMore(members[k], d - 1, e - 1); }
    case _ =>
  }

  // ---------------------------------------------------------------- canonical and unambiguous

  /** Main theorem: reading what was written gives the value back, wherever the text stands. */
  lemma {:induction false} ReadsPrinted(lib: FloatLib, v: Value, ws: string, tail: string, d: nat)
    requires Lawful(lib) && Printable(lib, v) && Fits(v, d) && AllWs(ws) && EndsNumber(tail)
    ensures ReadValue(ws + Print(lib, v) + tail, d) == Some((Canon(lib, v), tail))
  {
    ShallowCanonDoc(lib, v, d);
    MeaningOfCanonDoc(lib, v);
    ReadsDoc(ws, CanonDoc(lib, v), tail, d);
  }

  /** Equal as JSON values: numbers as numbers, objects as maps. */
  ghost predicate SameValue(lib: FloatLib, v: Value, w: Value) {
    match (v, w)
    case (Number(a), Number(b)) => SameNumber(lib, a, b)
    case (Arr(xs), Arr(ys)) => |xs| == |ys| && forall i :: 0 <= i < |xs| ==> SameValue(lib, xs[i], ys[i])
    case (Obj(ms), Obj(ns)) => ms.Keys == ns.Keys && forall k :: k in ms ==> SameValue(lib, ms[k], ns[k])
    case _ => v == w
  }

  lemma {:induction false} CanonIsSame(lib: FloatLib, v: Value)
    requires Lawful(lib) && Printable(lib, v)
    ensures SameValue(lib, v, Canon(lib, v))
  {
    match v
    case Number(literal) => WrittenNumberReparses(lib, literal);
    case Arr(items) => forall i | 0 <= i < |items| ensures SameValue(lib, items[i], Canon(lib, items[i])) { CanonIsSame(lib, items[i]); }
    case Obj(members) => forall k | k in members ensures SameValue(lib, members[k], Canon(lib, members[k])) { CanonIsSame(lib, members[k]); }
    case _ =>
  }

  lemma {:induction false} CanonIsCanonical(lib: FloatLib, v: Value)
    requires Lawful(lib) && Printable(lib, v)
    ensures Printable(lib, Canon(lib, v)) && Canon(lib, Canon(lib, v)) == Canon(lib, v)
  {
    match v
    case Number(literal) => WrittenNumberReparses(lib, literal);
    case Arr(items) =>
      forall i | 0 <= i < |items|
        ensures Printable(lib, Canon(lib, items[i])) && Canon(lib, Canon(lib, items[i])) == Canon(lib, items[i])
      { CanonIsCanonical(lib, items[i]); }
    case Obj(members) =>
      forall k | k in members
        ensures Printable(lib, Canon(lib, members[k])) && Canon(lib, Canon(lib, members[k])) == Canon(lib, members[k])
      { CanonIsCanonical(lib, members[k]); }
    case _ =>
  }

  lemma {:induction false} SameHasSameCanon(lib: FloatLib, v: Value, w: Value)
    requires Lawful(lib) && Printable(lib, v) && SameValue(lib, v, w)
    ensures Printable(lib, w) && Canon(lib, w) == Canon(lib, v)
  {
    match (v, w)
    case (Arr(xs), Arr(ys)) =>
      forall i | 0 <= i < |xs| ensures Printable(lib, ys[i]) && Canon(lib, ys[i]) == Canon(lib, xs[i])
      { SameHasSameCanon(lib, xs[i], ys[i]); }
    case (Obj(ms), Obj(ns)) =>
      forall k | k in ms ensures Printable(lib, ns[k]) && Canon(lib, ns[k]) == Canon(lib, ms[k])
      { SameHasSameCanon(lib, ms[k], ns[k]); }
    case _ =>
  }

  lemma {:induction false} SameCanonIsSame(lib: FloatLib, v: Value, w: Value)
    requires Lawful(lib) && Printable(lib, v) && Printable(lib, w) && Canon(lib, v) == Canon(lib, w)
    ensures SameValue(lib, v, w)
  {
    match (v, w)
    case (Number(a), Number(b)) =>
      WrittenNumberReparses(lib, a);
      WrittenNumberReparses(lib, b);
    case (Arr(xs), Arr(ys)) =>
      assert |Canon(lib, v).items| == |xs| && |Canon(lib, w).items| == |ys|;
      assert |xs| == |ys|;
      forall i | 0 <= i < |xs| ensures SameValue(lib, xs[i], ys[i])
      {
        assert Canon(lib, xs[i]) == Canon(lib, v).items[i] == Canon(lib, ys[i]);
        SameCanonIsSame(lib, xs[i], ys[i]);
      }
    case (Obj(ms), Obj(ns)) =>
      assert Canon(lib, v).members.Keys == ms.Keys && Canon(lib, w).members.Keys == ns.Keys;
      forall k | k in ms ensures SameValue(lib, ms[k], ns[k])
      {
        assert Canon(lib, ms[k]) == Canon(lib, v).members[k] == Canon(lib, ns[k]);
        SameCanonIsSame(lib, ms[k], ns[k]);
      }
    case _ =>
  }

  /** Printing a value again after reading it back changes nothing. */
  lemma {:induction false} PrintOfCanon(lib: FloatLib, v: Value)
    requires Lawful(lib) && Printable(lib, v)
    ensures Printable(lib, Canon(lib, v)) && Print(lib, Canon(lib, v)) == Print(lib, v)
  {
    CanonIsCanonical(lib, v);
    CanonIsSame(lib, v);
    SamePrintsSame(lib, v, Canon(lib, v));
  }

  lemma {:induction false} SameCanonItems(lib: FloatLib, xs: seq<Value>, ys: seq<Value>)
    requires Lawful(lib) && |xs| == |ys|
    requires forall i :: 0 <= i < |xs| ==> Printable(lib, xs[i]) && Printable(lib, ys[i]) && SameValue(lib, xs[i], ys[i])
    ensures CanonItems(lib, xs) == CanonItems(lib, ys)
    decreases xs, 0
  {
    if xs != [] {
      SameCanonDoc(lib, xs[0], ys[0]);
      SameCanonItems(lib, xs[1..], ys[1..]);
    }
  }

  lemma {:induction false} SameCanonMembers(lib: FloatLib, v: Value, w: Value, keys: seq<string>)
    requires Lawful(lib) && v.Obj? && w.Obj? && Printable(lib, v) && Printable(lib, w)
    requires forall k :: k in keys ==> k in v.members && k in w.members && SameValue(lib, v.members[k], w.members[k])
    ensures CanonMembers(lib, v, keys) == CanonMembers(lib, w, keys)
    decreases v, 0, |keys|
  {
    if keys != [] {
      assert keys[0] in keys;
      SameCanonDoc(lib, v.members[keys[0]], w.members[keys[0]]);
      SameCanonMembers(lib, v, w, keys[1..]);
    }
  }

  lemma {:induction false} SameCanonDoc(lib: FloatLib, v: Value, w: Value)
    requires Lawful(lib) && Printable(lib, v) && Printable(lib, w) && SameValue(lib, v, w)
    ensures CanonDoc(lib, v) == CanonDoc(lib, w)
    decreases v, 1
  {
    match (v, w)
    case (Arr(xs), Arr(ys)) => SameCanonItems(lib, xs, ys);
    case (Obj(ms), Obj(ns)) => SameCanonMembers(lib, v, w, SortedKeys(ms.Keys));
    case _ =>
  }

  lemma {:induction false} SamePrintsSame(lib: FloatLib, v: Value, w: Value)
    requires Lawful(lib) && Printable(lib, v) && Printable(lib, w) && SameValue(lib, v, w)
    ensures Print(lib, v) == Print(lib, w)
  {
    SameCanonDoc(lib, v, w);
  }

  /** Main theorem: two values have the same canonical text exactly when they are the same JSON
      value. */
  lemma PrintIsCanonical(lib: FloatLib, v: Value, w: Value)
    requires Lawful(lib) && Printable(lib, v) && Printable(lib, w)
    ensures Print(lib, v) == Print(lib, w) <==> SameValue(lib, v, w)
  {
    if Print(lib, v) == Print(lib, w) {
      var d := FitsSome(v);
      var e := FitsSome(w);
      var most := if d < e then e else d;
      FitsMore(v, d, most);
      FitsMore(w, e, most);
      ReadsPrinted(lib, v, "", "", most);
      ReadsPrinted(lib, w, "", "", most);
      SameCanonIsSame(lib, v, w);
    }
    if SameValue(lib, v, w) {
      SamePrintsSame(lib, v, w);
    }
  }

  // ---------------------------------------------------------------- canonicalizing text

  /** `JCSCanonicalize`: the first value of the text, written canonically; None on any error. The
      decoder does not look behind that value. */
  ghost function Canonicalize(lib: FloatLib, text: string): Option<string>
    requires Lawful(lib)
  {
    match ReadValue(text, MAX_NESTING)
    case None => None
    case Some((v, _)) => if Printable(lib, v) then Some(Print(lib, v)) else None
  }

  /** Canonicalizing twice is canonicalizing once. */
  lemma CanonicalizeIdempotent(lib: FloatLib, text: string)
    requires Lawful(lib) && Canonicalize(lib, text).Some?
    ensures Canonicalize(lib, Canonicalize(lib, text).value) == Canonicalize(lib, text)
  {
    var v := ReadValue(text, MAX_NESTING).value.0;
    ReadsPrinted(lib, v, "", "", MAX_NESTING);
    assert "" + Print(lib, v) + "" == Print(lib, v);
    PrintOfCanon(lib, v);
  }

  /** Texts of two documents, whatever their whitespace, escapes and member order and whatever
      follows them, canonicalize alike exactly when they denote the same value. */
  lemma {:induction false} LayoutNeverMatters(
    lib: FloatLib, ws: string, doc: Doc, tail: string, ws': string, doc': Doc, tail': string)
    requires Lawful(lib) && AllWs(ws) && AllWs(ws') && EndsNumber(tail) && EndsNumber(tail')
    requires ValidDoc(doc) && ValidDoc(doc') && Shallow(doc, MAX_NESTING) && Shallow(doc', MAX_NESTING)
    requires Printable(lib, Meaning(doc)) && Printable(lib, Meaning(doc'))
    ensures Canonicalize(lib, ws + DocText(doc) + tail) == Some(Print(lib, Meaning(doc)))
    ensures Canonicalize(lib, ws + DocText(doc) + tail) == Canonicalize(lib, ws' + DocText(doc') + tail') <==>
            SameValue(lib, Meaning(doc), Meaning(doc'))
  {
    ReadsDoc(ws, doc, tail, MAX_NESTING);
    ReadsDoc(ws', doc', tail', MAX_NESTING);
    PrintIsCanonical(lib, Meaning(doc), Meaning(doc'));
  }

  /** Members with distinct names denote the same object in every order. */
  lemma MemberOrderNeverMatters(ps: seq<(string, Value)>, qs: seq<(string, Value)>)
    requires multiset(ps) == multiset(qs) && DistinctNames(ps)
    ensures FromPairs(ps) == FromPairs(qs)
  {
    forall i, j | 0 <= i < j < |qs|
      ensures qs[i].0 != qs[j].0
    {
      DistinctAfterShuffle(ps, qs, i, j);
    }
    SubsetOfPairs(ps, qs);
    SubsetOfPairs(qs, ps);
  }

  lemma {:induction false} SubsetOfPairs(ps: seq<(string, Value)>, qs: seq<(string, Value)>)
    requires multiset(ps) == multiset(qs) && DistinctNames(ps) && DistinctNames(qs)
    ensures forall k :: k in FromPairs(ps) ==> k in FromPairs(qs) && FromPairs(qs)[k] == FromPairs(ps)[k]
  {
    forall k | k in FromPairs(ps)
      ensures k in FromPairs(qs) && FromPairs(qs)[k] == FromPairs(ps)[k]
    {
      var i := FromPairsNames(ps, k);
      assert ps[i] in multiset(qs);
      var j :| 0 <= j < |qs| && qs[j] == ps[i];
      FromPairsHolds(ps, i);
      FromPairsHolds(qs, j);
    }
  }

  lemma DistinctAfterShuffle(ps: seq<(string, Value)>, qs: seq<(string, Value)>, i: nat, j: nat)
    requires multiset(ps) == multiset(qs) && i < j < |qs| && DistinctNames(ps)
    ensures qs[i].0 != qs[j].0
  {
    assert qs[i] in multiset(ps) && qs[j] in multiset(ps);
    if qs[i] == qs[j] {
      assert qs == qs[..i] + [qs[i]] + qs[i + 1..j] + [qs[j]] + qs[j + 1..];
      assert multiset(qs)[qs[i]] >= 2;
      OnceEach(ps, qs[i]);
      assert false;
    }
    var a :| 0 <= a < |ps| && ps[a] == qs[i];
    var b :| 0 <= b < |ps| && ps[b] == qs[j];
    assert a != b;
  }

  lemma {:induction false} OnceEach(ps: seq<(string, Value)>, p: (string, Value))
    requires DistinctNames(ps)
    ensures multiset(ps)[p] <= 1
  {
    if ps != [] {
      var n := |ps| - 1;
      OnceEach(ps[..n], p);
      assert ps == ps[..n] + [ps[n]];
      assert p == ps[n] ==> p !in ps[..n];
    }
  }
}
