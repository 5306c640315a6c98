/** Bytes, SHA-256 digests and hexadecimal text (`encoding/hex`). */
module Hex {
  import opened Text

  newtype Byte = x: int | 0 <= x < 256
  type Bytes = seq<Byte>

  const DIGEST_SIZE: nat := 32

  type Digest = d: Bytes | |d| == DIGEST_SIZE witness seq(DIGEST_SIZE, _ => 0)

  /** SHA-256 is a parameter of every statement: nothing is assumed about it. */
  type Sha = Bytes -> Digest

  /** Two inputs that exhibit a collision of `sha`. */
  predicate IsCollision(sha: Sha, pair: (Bytes, Bytes)) {
    pair.0 != pair.1 && sha(pair.0) == sha(pair.1)
  }

  function Nibble(c: char): Option<Byte> {
    if '0' <= c <= '9' then Some((c as int - '0' as int) as Byte)
    else if 'a' <= c <= 'f' then Some((c as int - 'a' as int + 10) as Byte)
    else if 'A' <= c <= 'F' then Some((c as int - 'A' as int + 10) as Byte)
    else None
  }

  function HexDigit(n: Byte): (c: char)
    requires n < 16
    ensures Nibble(c) == Some(n)
  {
    if n < 10 then (n as int + '0' as int) as char else (n as int - 10 + 'a' as int) as char
  }

  /** `hex.DecodeString`: pairs of digits of either case; anything else is an error. */
  function Decode(s: string): (r: Option<Bytes>)
    ensures r.Some? ==> |s| == 2 * |r.value|
  {
    if s == [] then Some([])
    else if |s| == 1 then None
    else match (Nibble(s[0]), Nibble(s[1]), Decode(s[2..]))
      case (Some(hi), Some(lo), Some(rest)) => Some([(hi as int * 16 + lo as int) as Byte] + rest)
      case _ => None
  }

  /** `hex.EncodeToString`. */
  function Encode(b: Bytes): (s: string)
    ensures |s| == 2 * |b|
  {
    if b == [] then [] else [HexDigit(b[0] / 16), HexDigit(b[0] % 16)] + Encode(b[1..])
  }

  lemma {:induction false} DecodeEncode(b: Bytes)
    ensures Decode(Encode(b)) == Some(b)
  {
    if b != [] {
      DecodeEncode(b[1..]);
      assert Encode(b)[2..] == Encode(b[1..]);
      assert [b[0]] + b[1..] == b;
      assert (b[0] / 16) as int == b[0] as int / 16 && (b[0] % 16) as int == b[0] as int % 16;
    }
  }

  lemma NibbleIs(c: char, n: Byte)
    requires n < 16
    ensures Nibble(c) == Some(n) <==> Lower(c) == HexDigit(n)
  {
  }

  /** Two digits stand for one byte. */
  lemma TwoNibbles(hi: char, lo: char, b: Byte)
    ensures (Nibble(hi).Some? && Nibble(lo).Some? && Nibble(hi).value as int * 16 + Nibble(lo).value as int == b as int) <==>
            Lower(hi) == HexDigit(b / 16) && Lower(lo) == HexDigit(b % 16)
  {
    NibbleIs(hi, b / 16);
    NibbleIs(lo, b % 16);
    assert (b / 16) as int == b as int / 16 && (b % 16) as int == b as int % 16;
  }

  lemma DecodeNext(s: string, b: Bytes)
    requires |s| >= 2 && b != []
    ensures Decode(s) == Some(b) <==>
            Lower(s[0]) == HexDigit(b[0] / 16) && Lower(s[1]) == HexDigit(b[0] % 16) && Decode(s[2..]) == Some(b[1..])
  {
    TwoNibbles(s[0], s[1], b[0]);
    assert b == [b[0]] + b[1..];
  }

  lemma EncodeNext(s: string, b: Bytes)
    requires |s| >= 2 && b != []
    ensures ToLower(s) == Encode(b) <==>
            Lower(s[0]) == HexDigit(b[0] / 16) && Lower(s[1]) == HexDigit(b[0] % 16) && ToLower(s[2..]) == Encode(b[1..])
  {
    assert ToLower(s) == [Lower(s[0]), Lower(s[1])] + ToLower(s[2..]);
    assert Encode(b)[2..] == Encode(b[1..]) && ToLower(s)[2..] == ToLower(s[2..]);
  }

  /** Exactly the printed bytes are decoded, in either case. */
  lemma {:induction false} DecodesExactly(s: string, b: Bytes)
    ensures Decode(s) == Some(b) <==> ToLower(s) == Encode(b)
  {
    if |s| >= 2 && b != [] {
      DecodeNext(s, b);
      EncodeNext(s, b);
      DecodesExactly(s[2..], b[1..]);
    }
  }
}
