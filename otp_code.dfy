/**
 * The textual form of a one-time code: Number.prototype.toString of a
 * non-negative integer, and the fact that every integer in
 * [100000, 999999] prints as exactly six decimal digits.
 */
module OtpCode {

  const MinCode: nat := 100000
  const MaxCode: nat := 999999

  /** The characters /\D/ does not match: the ASCII digits. */
  predicate IsDigit(c: char)
  {
    '0' <= c <= '9'
  }

  predicate AllDigits(s: string)
  {
    forall i :: 0 <= i < |s| ==> IsDigit(s[i])
  }

  /** What the six-digit code stored for a pending registration looks like. */
  predicate IsOtpCode(s: string)
  {
    |s| == 6 && AllDigits(s)
  }

  function DigitChar(d: nat): (c: char)
    requires d < 10
    ensures IsDigit(c) && DigitValue(c) == d
  {
    (48 + d) as char
  }

  function DigitValue(c: char): nat
    requires IsDigit(c)
  {
    c as int - 48
  }

  /** n.toString() for a non-negative integer n: most significant digit first. */
  function Decimal(n: nat): (s: string)
    ensures |s| >= 1 && AllDigits(s)
    decreases n
  {
    if n < 10 then [DigitChar(n)] else Decimal(n / 10) + [DigitChar(n % 10)]
  }

  /** The value of a string of decimal digits (the reference reading of Decimal). */
  function ParseDecimal(s: string): nat
    requires AllDigits(s)
  {
    if s == [] then 0 else ParseDecimal(s[..|s| - 1]) * 10 + DigitValue(s[|s| - 1])
  }

  function Pow10(k: nat): (p: nat)
    ensures p >= 1
  {
    if k == 0 then 1 else 10 * Pow10(k - 1)
  }

  /** Reading a printed number gives the number back. */
  lemma {:induction false} ParseDecimalOfDecimal(n: nat)
    ensures ParseDecimal(Decimal(n)) == n
    decreases n
  {
    if n >= 10 {
      ParseDecimalOfDecimal(n / 10);
      var s := Decimal(n);
      assert s[..|s| - 1] == Decimal(n / 10);
    }
  }

  /** Distinct numbers print differently. */
  lemma DecimalInjective(a: nat, b: nat)
    ensures Decimal(a) == Decimal(b) ==> a == b
  {
    ParseDecimalOfDecimal(a);
    ParseDecimalOfDecimal(b);
  }

  /** A number with k digits prints as k characters. */
  lemma {:induction false} DecimalLength(n: nat, k: nat)
    requires 1 <= k && Pow10(k - 1) <= n < Pow10(k)
    ensures |Decimal(n)| == k
    decreases k
  {
    if k > 1 {
      DecimalLength(n / 10, k - 1);
    }
  }

  /** Every code drawn from [100000, 999999] prints as six digits without a leading zero. */
  lemma CodeIsSixDigits(code: nat)
    requires MinCode <= code <= MaxCode
    ensures IsOtpCode(Decimal(code))
    ensures Decimal(code)[0] != '0'
  {
    assert Pow10(5) == 100000 && Pow10(6) == 1000000;
    DecimalLength(code, 6);
    LeadingDigit(code);
  }

  /** Only 0 prints with a leading zero. */
  lemma {:induction false} LeadingDigit(n: nat)
    requires n > 0
    ensures Decimal(n)[0] != '0'
    decreases n
  {
    if n >= 10 {
      LeadingDigit(n / 10);
    }
  }
}
