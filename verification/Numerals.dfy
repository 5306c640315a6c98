/** The text of a decimal: as `strconv.FormatFloat` spells it, with and without an exponent, and as ECMAScript's
    Number::toString does, which section 3.2.2.3 of RFC 8785 asks for. */
module Numerals {
  import opened Text
  import opened Json

  /** The number 0.d1d2... * 10^point, with its sign. */
  datatype Decimal = Decimal(negative: bool, digits: string, point: int)

  predicate ValidDecimal(d: Decimal) {
    d.digits != "" && AllDigits(d.digits) && d.digits[0] != '0' && d.digits[|d.digits| - 1] != '0'
  }

  function Sign(negative: bool): string {
    if negative then "-" else ""
  }

  function Zeros(n: int): (s: string)
    ensures AllDigits(s) && |s| == if n <= 0 then 0 else n
  {
    if n <= 0 then "" else seq(n, _ => '0')
  }

  function Abs(n: int): nat {
    if n < 0 then -n else n
  }

  // ---------------------------------------------------------------- the spelling of strconv

  function WholePart(d: Decimal): string {
    if d.point <= 0 then "0"
    else if d.point < |d.digits| then d.digits[..d.point]
    else d.digits + Zeros(d.point - |d.digits|)
  }

  function FractionPart(d: Decimal): string {
    if d.point >= |d.digits| then ""
    else "." + Zeros(-d.point) + (if d.point <= 0 then d.digits else d.digits[d.point..])
  }

  /** `FormatFloat(f, 'f', -1, 64)`. */
  function FixedText(d: Decimal): string {
    Sign(d.negative) + WholePart(d) + FractionPart(d)
  }

  function MantissaTail(d: Decimal): string {
    if |d.digits| > 1 then "." + d.digits[1..] else ""
  }

  function Mantissa(d: Decimal): string
    requires d.digits != ""
  {
    Sign(d.negative) + [d.digits[0]] + MantissaTail(d)
  }

  /** A number with a signed exponent. */
  function Expo(mantissa: string, sign: char, digits: string): string {
    mantissa + "e" + [sign] + digits
  }

  function SignChar(n: int): char {
    if n < 0 then '-' else '+'
  }

  /** An exponent of at least two digits. */
  function Padded(e: nat): (s: string)
    ensures s != "" && AllDigits(s)
  {
    if e < 10 then "0" + Itoa(e) else Itoa(e)
  }

  /** `FormatFloat(f, 'e', -1, 64)`. */
  function ScientificText(d: Decimal): string
    requires d.digits != ""
  {
    Expo(Mantissa(d), SignChar(d.point - 1), Padded(Abs(d.point - 1)))
  }

  lemma {:induction false} AtoiPadded(e: nat)
    ensures Atoi(Padded(e)) == e
  {
    AtoiItoa(e);
    if e < 10 {
      assert ("0" + Itoa(e))[..1] == "0" && "0"[..0] == "";
      assert Itoa(e)[..0] == "";
    }
  }

  // ---------------------------------------------------------------- they are JSON numbers

  predicate NoExponent(s: string) {
    forall i :: 0 <= i < |s| ==> !IsExp(s[i])
  }

  predicate IsWhole(s: string) {
    s == "0" || (s != "" && AllDigits(s) && s[0] != '0')
  }

  predicate IsFraction(s: string) {
    s == "" || (|s| > 1 && s[0] == '.' && AllDigits(s[1..]))
  }

  lemma WholeEnds(negative: bool, whole: string)
    requires IsWhole(whole)
    ensures IntEnd(Sign(negative) + whole) == Some(|Sign(negative) + whole|)
  {
    var s := Sign(negative) + whole;
    var i := |Sign(negative)|;
    assert s[i] == whole[0] && s[i..] == whole && s[i + 1..] == whole[1..];
    if whole != "0" {
      DigitsToEnd(s, i + 1);
    }
  }

  lemma FractionEnds(s: string, i: nat)
    requires i <= |s| && IsFraction(s[i..])
    ensures FractionEnd(s, i) == Some(|s|)
  {
    if i < |s| {
      assert s[i] == s[i..][0] && s[i + 1..] == s[i..][1..];
      DigitsToEnd(s, i + 1);
    }
  }

  /** A sign, a whole number and a fraction make up a JSON number. */
  lemma PlainNumber(negative: bool, whole: string, fraction: string)
    requires IsWhole(whole) && IsFraction(fraction)
    ensures IsNumber(Sign(negative) + whole + fraction)
  {
    var head := Sign(negative) + whole;
    var s := head + fraction;
    WholeEnds(negative, whole);
    IntBefore(head, fraction);
    assert s[|head|..] == fraction;
    FractionEnds(s, |head|);
  }

  lemma PlainHasNoExponent(negative: bool, whole: string, fraction: string)
    requires IsWhole(whole) && IsFraction(fraction)
    ensures NoExponent(Sign(negative) + whole + fraction)
  {
    assert fraction != "" ==> forall i :: 1 <= i < |fraction| ==> fraction[i] == fraction[1..][i - 1];
  }

  lemma FractionOf(a: string, b: string)
    requires AllDigits(a) && AllDigits(b) && b != ""
    ensures IsFraction("." + a + b)
  {
    assert ("." + a + b)[1..] == a + b;
  }

  lemma FixedIsNumber(d: Decimal)
    requires ValidDecimal(d)
    ensures IsNumber(FixedText(d)) && NoExponent(FixedText(d))
  {
    if d.point < |d.digits| {
      FractionOf(Zeros(-d.point), if d.point <= 0 then d.digits else d.digits[d.point..]);
    }
    PlainNumber(d.negative, WholePart(d), FractionPart(d));
    PlainHasNoExponent(d.negative, WholePart(d), FractionPart(d));
  }

  lemma MantissaIsNumber(d: Decimal)
    requires ValidDecimal(d)
    ensures IsNumber(Mantissa(d)) && NoExponent(Mantissa(d))
  {
    if |d.digits| > 1 {
      FractionOf("", d.digits[1..]);
      assert "." + "" + d.digits[1..] == "." + d.digits[1..];
    }
    PlainNumber(d.negative, [d.digits[0]], MantissaTail(d));
    PlainHasNoExponent(d.negative, [d.digits[0]], MantissaTail(d));
  }

  // ---------------------------------------------------------------- ECMAScript's spelling

  /** Number::toString, section 6.1.6.1.20 of ECMA-262, of a number other than zero: `k` digits, the point after the
      first `n` of them. */
  function Es6Text(d: Decimal): string
    requires d.digits != ""
  {
    (if d.negative then "-" else "") + Es6Magnitude(d.digits, d.point)
  }

  function Es6Magnitude(digits: string, n: int): string
    requires digits != ""
  {
    var k := |digits|;
    if k <= n <= 21 then digits + Zeros(n - k)
    else if 0 < n <= 21 then digits[..n] + "." + digits[n..]
    else if -6 < n <= 0 then "0." + Zeros(-n) + digits
    else (if k == 1 then digits else [digits[0]] + "." + digits[1..]) + (if n > 0 then "e+" else "e-") + Itoa(Abs(n - 1))
  }

  lemma FixedMagnitude(d: Decimal)
    requires ValidDecimal(d) && -6 < d.point <= 21
    ensures WholePart(d) + FractionPart(d) == Es6Magnitude(d.digits, d.point)
  {
    if 0 < d.point < |d.digits| {
      assert "." + "" + d.digits[d.point..] == "." + d.digits[d.point..];
    }
  }

  /** Within the band the spelling without an exponent is ECMAScript's. */
  lemma FixedIsEs6(d: Decimal)
    requires ValidDecimal(d) && -6 < d.point <= 21
    ensures FixedText(d) == Es6Text(d)
  {
    FixedMagnitude(d);
    Regroup(Sign(d.negative), WholePart(d), FractionPart(d));
  }

  lemma Regroup(a: string, b: string, c: string)
    ensures a + b + c == a + (b + c)
  {
  }

  lemma RegroupExpo(a: string, b: string, sign: char, digits: string)
    ensures Expo(a + b, sign, digits) == a + Expo(b, sign, digits)
  {
  }

  lemma UnpaddedMagnitude(d: Decimal)
    requires ValidDecimal(d) && !(-6 < d.point <= 21)
    ensures Expo([d.digits[0]] + MantissaTail(d), SignChar(d.point - 1), Itoa(Abs(d.point - 1))) == Es6Magnitude(d.digits, d.point)
  {
    assert |d.digits| == 1 ==> d.digits == [d.digits[0]];
  }

  /** Outside the band it is the spelling with an exponent, less the zeros in front of the exponent. */
  lemma UnpaddedIsEs6(d: Decimal)
    requires ValidDecimal(d) && !(-6 < d.point <= 21)
    ensures Expo(Mantissa(d), SignChar(d.point - 1), Itoa(Abs(d.point - 1))) == Es6Text(d)
  {
    UnpaddedMagnitude(d);
    Regroup(Sign(d.negative), [d.digits[0]], MantissaTail(d));
    RegroupExpo(Sign(d.negative), [d.digits[0]] + MantissaTail(d), SignChar(d.point - 1), Itoa(Abs(d.point - 1)));
  }
}
