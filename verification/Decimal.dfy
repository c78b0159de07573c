/** Decimal text of 64-bit signed integers, as `format!` writes and `parse` reads it. */
module Decimal {
  import opened Wrappers

  const I64_MIN: int := -0x8000_0000_0000_0000
  const I64_MAX: int := 0x7fff_ffff_ffff_ffff

  predicate InI64(n: int) { I64_MIN <= n <= I64_MAX }

  predicate IsDecimalDigit(c: char) { '0' <= c <= '9' }

  function DigitChar(d: int): char
    requires 0 <= d < 10
  {
    ('0' as int + d) as char
  }

  function FormatNat(n: nat): (s: string)
    ensures s != "" && forall i :: 0 <= i < |s| ==> IsDecimalDigit(s[i])
  {
    if n < 10 then [DigitChar(n)] else FormatNat(n / 10) + [DigitChar(n % 10)]
  }

  function Format(n: int): string {
    if n < 0 then "-" + FormatNat(-n) else FormatNat(n)
  }

  /** Digits only; no sign, not empty. */
  function ParseDigits(s: string): Option<nat> {
    if s == "" || !IsDecimalDigit(s[|s| - 1]) then None
    else
      var d := s[|s| - 1] as int - '0' as int;
      if |s| == 1 then Some(d)
      else
        match ParseDigits(s[..|s| - 1])
        case None => None
        case Some(n) => Some(10 * n + d)
  }

  /** `str::parse::<i64>`: an optional sign, at least one digit, in range. */
  function ParseI64(s: string): Option<int> {
    var digits := if s != "" && (s[0] == '-' || s[0] == '+') then ParseDigits(s[1..]) else ParseDigits(s);
    match digits
    case None => None
    case Some(n) =>
      var magnitude: int := n;
      var v := if s[0] == '-' then -magnitude else magnitude;
      if InI64(v) then Some(v) else None
  }

  lemma {:induction false} ParseFormatNat(n: nat)
    ensures ParseDigits(FormatNat(n)) == Some(n)
  {
    if n >= 10 {
      ParseFormatNat(n / 10);
      var s := FormatNat(n);
      assert s[..|s| - 1] == FormatNat(n / 10);
    }
  }

  /** Reading back what was written gives the number, so the text identifies it. */
  lemma ParseFormat(n: int)
    requires InI64(n)
    ensures ParseI64(Format(n)) == Some(n)
  {
    var magnitude := if n < 0 then -n else n;
    ParseFormatNat(magnitude);
    if n < 0 {
      assert Format(n)[1..] == FormatNat(-n);
    }
  }

  lemma FormatHasNoColon(n: int)
    ensures ':' !in Format(n)
  {
  }

  // ---- What the text looks like, and which texts are read ----

  /** Without its last `k` digits. */
  function Shifted(n: nat, k: nat): nat {
    if k == 0 then n else Shifted(n / 10, k - 1)
  }

  /** Digits are written from the highest place to the lowest. */
  lemma {:induction false} DigitAtPlace(n: nat, k: nat)
    requires k < |FormatNat(n)|
    ensures FormatNat(n)[|FormatNat(n)| - 1 - k] == "0123456789"[Shifted(n, k) % 10]
  {
    if k > 0 {
      DigitAtPlace(n / 10, k - 1);
    }
  }

  /** And none is left out or put in front. */
  lemma {:induction false} NoLeadingZero(n: nat)
    ensures n > 0 ==> FormatNat(n)[0] != '0'
    ensures Shifted(n, |FormatNat(n)|) == 0
  {
    if n >= 10 {
      NoLeadingZero(n / 10);
    }
  }

  function Zeros(k: nat): string {
    seq(k, _ => '0')
  }

  lemma {:induction false} ZerosParse(k: nat)
    ensures k > 0 ==> ParseDigits(Zeros(k)) == Some(0)
  {
    if k > 1 {
      ZerosParse(k - 1);
      assert Zeros(k)[..k - 1] == Zeros(k - 1);
    }
  }

  lemma {:induction false} PaddedParses(k: nat, n: nat)
    ensures ParseDigits(Zeros(k) + FormatNat(n)) == Some(n)
    decreases n
  {
    var s := Zeros(k) + FormatNat(n);
    if n < 10 {
      ZerosParse(k);
      assert s[..|s| - 1] == Zeros(k);
    } else {
      PaddedParses(k, n / 10);
      assert s[..|s| - 1] == Zeros(k) + FormatNat(n / 10);
    }
  }

  ghost predicate IsPadded(s: string, n: nat) {
    exists k: nat :: s == Zeros(k) + FormatNat(n)
  }

  /** One more digit at the end. */
  lemma PaddedNext(init: string, m: nat, d: nat)
    requires IsPadded(init, m) && d < 10
    ensures IsPadded(init + [DigitChar(d)], 10 * m + d)
  {
    var k: nat :| init == Zeros(k) + FormatNat(m);
    var n: nat := 10 * m + d;
    if m == 0 {
      assert FormatNat(n) == [DigitChar(d)];
      assert init + [DigitChar(d)] == Zeros(k + 1) + FormatNat(n);
    } else {
      assert n / 10 == m && n % 10 == d;
      assert FormatNat(n) == FormatNat(m) + [DigitChar(d)];
      assert init + [DigitChar(d)] == Zeros(k) + FormatNat(n);
    }
  }

  lemma {:induction false} ParsedIsPadded(s: string)
    requires ParseDigits(s).Some?
    ensures IsPadded(s, ParseDigits(s).value)
  {
    var last := |s| - 1;
    var d: nat := s[last] as int - '0' as int;
    assert s == s[..last] + [DigitChar(d)];
    if last == 0 {
      assert FormatNat(d) == [DigitChar(d)];
      assert s == Zeros(0) + FormatNat(d);
    } else {
      ParsedIsPadded(s[..last]);
      PaddedNext(s[..last], ParseDigits(s[..last]).value, d);
    }
  }

  /** An optional sign, any number of leading zeros, and the number's own digits. */
  ghost predicate ReadsAs(s: string, v: int) {
    || (v >= 0 && (IsPadded(s, v) || (s != "" && s[0] == '+' && IsPadded(s[1..], v))))
    || (v <= 0 && s != "" && s[0] == '-' && IsPadded(s[1..], -v))
  }

  lemma ParseDigitsIff(s: string, n: nat)
    ensures ParseDigits(s) == Some(n) <==> IsPadded(s, n)
  {
    if ParseDigits(s).Some? {
      ParsedIsPadded(s);
    }
    forall k: nat | s == Zeros(k) + FormatNat(n)
      ensures ParseDigits(s) == Some(n)
    {
      PaddedParses(k, n);
    }
  }

  lemma UnsignedFirst(s: string, n: nat)
    requires IsPadded(s, n)
    ensures s != "" && s[0] != '+' && s[0] != '-'
  {
    var k: nat :| s == Zeros(k) + FormatNat(n);
    assert k == 0 ==> s[0] == FormatNat(n)[0];
  }

  lemma UnsignedIff(s: string, n: nat)
    ensures IsPadded(s, n) <==> s != "" && s[0] != '+' && s[0] != '-' && ParseDigits(s) == Some(n)
  {
    ParseDigitsIff(s, n);
    if IsPadded(s, n) {
      UnsignedFirst(s, n);
    }
  }

  lemma SignedIff(s: string, n: nat)
    requires s != ""
    ensures IsPadded(s[1..], n) <==> ParseDigits(s[1..]) == Some(n)
  {
    ParseDigitsIff(s[1..], n);
  }

  /** The exact texts that are read as a given number: those in the range of an i64, signed or not. */
  lemma ParseI64Iff(s: string, v: int)
    ensures ParseI64(s) == Some(v) <==> -0x8000_0000_0000_0000 <= v <= 0x7fff_ffff_ffff_ffff && ReadsAs(s, v)
  {
    var magnitude := if v < 0 then -v else v;
    UnsignedIff(s, magnitude);
    if s != "" {
      SignedIff(s, magnitude);
    }
  }
}
