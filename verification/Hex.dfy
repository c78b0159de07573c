/** Base16 text, as the `hex` crate reads and writes it (section 8 of RFC 4648). */
module Hex {
  import opened Wrappers

  type Byte = b: int | 0 <= b < 256
  type Bytes = seq<Byte>

  const LOWER_DIGITS: string := "0123456789abcdef"

  predicate IsDigit(c: char) {
    '0' <= c <= '9' || 'a' <= c <= 'f' || 'A' <= c <= 'F'
  }

  function DigitValue(c: char): (v: int)
    requires IsDigit(c)
    ensures 0 <= v < 16
  {
    if '0' <= c <= '9' then c as int - '0' as int
    else if 'a' <= c <= 'f' then c as int - 'a' as int + 10
    else c as int - 'A' as int + 10
  }

  /** Both cases are accepted; an odd length or any other character is an error. */
  function Decode(s: string): (r: Option<Bytes>)
  {
    if s == "" then Some([])
    else if |s| == 1 || !IsDigit(s[0]) || !IsDigit(s[1]) then None
    else
      match Decode(s[2..])
      case None => None
      case Some(rest) => Some([(16 * DigitValue(s[0]) + DigitValue(s[1])) as Byte] + rest)
  }

  /** Always lower case. */
  function Encode(b: Bytes): (s: string)
  {
    if b == [] then ""
    else Pair(b[0]) + Encode(b[1..])
  }

  function LowerChar(c: char): char {
    if 'A' <= c <= 'Z' then (c as int + 32) as char else c
  }

  function Lower(s: string): string {
    seq(|s|, i requires 0 <= i < |s| => LowerChar(s[i]))
  }

  /** Exactly the even-length strings of hex digits decode. */
  lemma {:induction false} DecodesIff(s: string)
    ensures Decode(s).Some? <==> |s| % 2 == 0 && forall i :: 0 <= i < |s| ==> IsDigit(s[i])
    ensures Decode(s).Some? ==> |s| == 2 * |Decode(s).value|
  {
    if |s| > 1 {
      DecodesIff(s[2..]);
      assert forall i :: 2 <= i < |s| ==> s[i] == s[2..][i - 2];
    }
  }

  lemma DigitRoundTrip(c: char)
    requires IsDigit(c)
    ensures LOWER_DIGITS[DigitValue(c)] == LowerChar(c)
  {
  }

  /** Decoding loses only the case of the digits. */
  lemma {:induction false} EncodeAfterDecode(s: string)
    requires Decode(s).Some?
    ensures Encode(Decode(s).value) == Lower(s)
  {
    if |s| > 1 {
      EncodeAfterDecode(s[2..]);
      DigitRoundTrip(s[0]);
      DigitRoundTrip(s[1]);
      var b := Decode(s).value;
      assert b[1..] == Decode(s[2..]).value;
      assert b[0] / 16 == DigitValue(s[0]) && b[0] % 16 == DigitValue(s[1]);
      assert Encode(b) == [LowerChar(s[0]), LowerChar(s[1])] + Lower(s[2..]);
    }
  }

  lemma NibbleRoundTrip(n: nat)
    requires n < 16
    ensures IsDigit(LOWER_DIGITS[n]) && DigitValue(LOWER_DIGITS[n]) == n
  {
  }

  /** The two digits of a byte. */
  function Pair(x: Byte): string {
    [LOWER_DIGITS[x / 16], LOWER_DIGITS[x % 16]]
  }

  lemma PairRoundTrip(x: Byte)
    ensures IsDigit(Pair(x)[0]) && IsDigit(Pair(x)[1])
    ensures 16 * DigitValue(Pair(x)[0]) + DigitValue(Pair(x)[1]) == x
  {
    NibbleRoundTrip(x / 16);
    NibbleRoundTrip(x % 16);
  }

  lemma DecodePair(pair: string, rest: string)
    requires |pair| == 2 && IsDigit(pair[0]) && IsDigit(pair[1]) && Decode(rest).Some?
    ensures Decode(pair + rest) == Some([(16 * DigitValue(pair[0]) + DigitValue(pair[1])) as Byte] + Decode(rest).value)
  {
    var s := pair + rest;
    assert s[0] == pair[0] && s[1] == pair[1] && s[2..] == rest;
  }

  lemma {:induction false} DecodeAfterEncode(b: Bytes)
    ensures Decode(Encode(b)) == Some(b)
  {
    if b != [] {
      DecodeAfterEncode(b[1..]);
      PairRoundTrip(b[0]);
      DecodePair(Pair(b[0]), Encode(b[1..]));
      assert b == [b[0]] + b[1..];
    }
  }

  // ---- The alphabet and the order of the digits ----

  predicate SpellsDigit(c: char, n: int) {
    0 <= n < 16 && (c == "0123456789abcdef"[n] || c == "0123456789ABCDEF"[n])
  }

  /** High digit first. */
  predicate SpellsByte(high: char, low: char, x: Byte) {
    SpellsDigit(high, x / 16) && SpellsDigit(low, x % 16)
  }

  lemma DigitSpelledIff(c: char, n: int)
    ensures SpellsDigit(c, n) <==> IsDigit(c) && DigitValue(c) == n
  {
  }

  lemma ByteSpelledIff(high: char, low: char, x: Byte)
    ensures SpellsByte(high, low, x) <==> IsDigit(high) && IsDigit(low) && 16 * DigitValue(high) + DigitValue(low) == x
  {
    DigitSpelledIff(high, x / 16);
    DigitSpelledIff(low, x % 16);
  }

  ghost predicate SpellsOut(s: string, b: Bytes) {
    |s| == 2 * |b| && forall i :: 0 <= i < |b| ==> SpellsByte(s[2 * i], s[2 * i + 1], b[i])
  }

  lemma SpellsTail(s: string, b: Bytes)
    requires |s| >= 2 && b != []
    ensures SpellsOut(s, b) <==> SpellsByte(s[0], s[1], b[0]) && SpellsOut(s[2..], b[1..])
  {
    if SpellsOut(s[2..], b[1..]) && SpellsByte(s[0], s[1], b[0]) {
      forall i | 0 <= i < |b|
        ensures SpellsByte(s[2 * i], s[2 * i + 1], b[i])
      {
        assert i > 0 ==> SpellsByte(s[2..][2 * (i - 1)], s[2..][2 * (i - 1) + 1], b[1..][i - 1]);
      }
    }
    if SpellsOut(s, b) {
      forall i | 0 <= i < |b[1..]|
        ensures SpellsByte(s[2..][2 * i], s[2..][2 * i + 1], b[1..][i])
      {
        assert SpellsByte(s[2 * (i + 1)], s[2 * (i + 1) + 1], b[i + 1]);
      }
    }
  }

  /** Text that decodes: digits of either case, an even number of them. */
  predicate IsHexText(s: string) {
    |s| % 2 == 0 && forall i :: 0 <= i < |s| ==> s[i] in "0123456789abcdefABCDEF"
  }

  lemma DigitIff(c: char)
    ensures IsDigit(c) <==> c in "0123456789abcdefABCDEF"
  {
    var digits := "0123456789abcdefABCDEF";
    if '0' <= c <= '9' {
      assert digits[c as int - '0' as int] == c;
    } else if 'a' <= c <= 'f' {
      assert digits[c as int - 'a' as int + 10] == c;
    } else if 'A' <= c <= 'F' {
      assert digits[c as int - 'A' as int + 16] == c;
    }
  }

  lemma HexTextIff(s: string)
    ensures Decode(s).Some? <==> IsHexText(s)
    ensures Decode(s).Some? ==> |s| == 2 * |Decode(s).value|
  {
    DecodesIff(s);
    forall i | 0 <= i < |s|
      ensures IsDigit(s[i]) <==> s[i] in "0123456789abcdefABCDEF"
    {
      DigitIff(s[i]);
    }
  }

  /** Decoding gives exactly the bytes that the text spells, digit by digit, in either case. */
  lemma {:induction false} DecodeIff(s: string, b: Bytes)
    ensures Decode(s) == Some(b) <==> SpellsOut(s, b)
  {
    if |s| >= 2 {
      if b != [] {
        ByteSpelledIff(s[0], s[1], b[0]);
        SpellsTail(s, b);
        DecodeIff(s[2..], b[1..]);
        assert b == [b[0]] + b[1..];
      }
    }
  }

  lemma {:induction false} EncodeLength(b: Bytes)
    ensures |Encode(b)| == 2 * |b|
  {
    if b != [] {
      EncodeLength(b[1..]);
    }
  }

  /** Encoding writes two digits per byte, in lower case, high digit first. */
  lemma {:induction false} EncodeSpells(b: Bytes, i: nat)
    requires i < |b|
    ensures |Encode(b)| == 2 * |b|
    ensures Encode(b)[2 * i] == "0123456789abcdef"[b[i] / 16]
    ensures Encode(b)[2 * i + 1] == "0123456789abcdef"[b[i] % 16]
  {
    EncodeLength(b);
    if i > 0 {
      EncodeSpells(b[1..], i - 1);
      assert Encode(b) == Pair(b[0]) + Encode(b[1..]);
    }
  }
}
