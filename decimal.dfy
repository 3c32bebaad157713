/**
 * Decimal text of integers, as Java's `Integer.toString` writes it (and as string
 * concatenation with an `int` produces it), with the parser that reads it back.
 */
module Decimal {
  import opened Results

  predicate IsDigit(c: char) {
    '0' <= c <= '9'
  }

  predicate IsDigits(s: string) {
    forall i :: 0 <= i < |s| ==> IsDigit(s[i])
  }

  function DigitValue(c: char): (d: nat)
    requires IsDigit(c)
    ensures d < 10
  {
    c as int - '0' as int
  }

  function DigitChar(d: nat): (c: char)
    requires d < 10
    ensures IsDigit(c) && DigitValue(c) == d
  {
    ('0' as int + d) as char
  }

  /** The digits of `n`, most significant first, with no leading zero. */
  function NatToString(n: nat): (s: string)
    ensures |s| > 0 && IsDigits(s)
    ensures s[0] == '0' ==> n == 0 && |s| == 1
  {
    if n < 10 then [DigitChar(n)] else NatToString(n / 10) + [DigitChar(n % 10)]
  }

  /** The value of a string of decimal digits. */
  function DigitsValue(s: string): nat
    requires IsDigits(s)
  {
    if s == [] then 0 else DigitsValue(s[..|s| - 1]) * 10 + DigitValue(s[|s| - 1])
  }

  lemma {:induction false} NatToStringRoundTrip(n: nat)
    ensures DigitsValue(NatToString(n)) == n
  {
    if n >= 10 {
      var s := NatToString(n);
      assert s[..|s| - 1] == NatToString(n / 10);
      NatToStringRoundTrip(n / 10);
    }
  }

  /** Reads an optionally negative decimal integer; `None` for any other text. */
  function ParseInt(s: string): Option<int>
  {
    if |s| > 1 && s[0] == '-' && IsDigits(s[1..]) then
      var magnitude: int := DigitsValue(s[1..]);
      Some(-magnitude)
    else if |s| > 0 && IsDigits(s) then Some(DigitsValue(s))
    else None
  }

  /**
   * The text `Integer.toString` writes: "0", or digits without a leading
   * zero, or '-' followed by digits without a leading zero.
   */
  predicate Canonical(s: string) {
    s == "0" ||
    (|s| > 0 && IsDigits(s) && s[0] != '0') ||
    (|s| > 1 && s[0] == '-' && IsDigits(s[1..]) && s[1] != '0')
  }

  /** Digits without a leading zero have a positive value. */
  lemma {:induction false} LeadingDigitPositive(s: string)
    requires |s| > 0 && IsDigits(s) && s[0] != '0'
    ensures DigitsValue(s) > 0
    decreases |s|
  {
    if |s| > 1 {
      LeadingDigitPositive(s[..|s| - 1]);
    }
  }

  /** Digit strings without a leading zero are fixed by their value. */
  lemma {:induction false} DigitsValueInjective(s: string, t: string)
    requires IsDigits(s) && IsDigits(t)
    requires s == [] || s[0] != '0'
    requires t == [] || t[0] != '0'
    requires DigitsValue(s) == DigitsValue(t)
    ensures s == t
    decreases |s|
  {
    if s == [] || t == [] {
      if s != [] {
        LeadingDigitPositive(s);
      }
      if t != [] {
        LeadingDigitPositive(t);
      }
    } else {
      var s', t' := s[..|s| - 1], t[..|t| - 1];
      var a, b := DigitValue(s[|s| - 1]), DigitValue(t[|t| - 1]);
      assert DigitsValue(s') * 10 + a == DigitsValue(t') * 10 + b;
      assert a == b && DigitsValue(s') == DigitsValue(t');
      DigitsValueInjective(s', t');
      assert s == s' + [s[|s| - 1]] && t == t' + [t[|t| - 1]];
    }
  }

  /** Canonical text is fixed by the integer it reads as. */
  lemma CanonicalUnique(s: string, t: string)
    requires Canonical(s) && Canonical(t)
    requires ParseInt(s) == ParseInt(t)
    ensures s == t
  {
    CanonicalSign(s);
    CanonicalSign(t);
    if s[0] == '-' {
      DigitsValueInjective(s[1..], t[1..]);
      assert s == [s[0]] + s[1..] && t == [t[0]] + t[1..];
    } else if s != "0" {
      DigitsValueInjective(s, t);
    }
  }

  /** The sign of canonical text is the sign of its value. */
  lemma CanonicalSign(s: string)
    requires Canonical(s)
    ensures ParseInt(s).Some?
    ensures s[0] == '-' <==> ParseInt(s).value < 0
    ensures s == "0" <==> ParseInt(s).value == 0
  {
    if s == "0" {
    } else if s[0] == '-' {
      LeadingDigitPositive(s[1..]);
    } else {
      LeadingDigitPositive(s);
    }
  }

  /** Java's `Integer.toString`: a '-' for negative values, then the digits of the magnitude. */
  function IntToString(n: int): (s: string)
    ensures ParseInt(s) == Some(n)
    ensures Canonical(s)
  {
    if n < 0 then
      var digits := NatToString(-n);
      NatToStringRoundTrip(-n);
      var s := "-" + digits;
      assert s[1..] == digits;
      s
    else
      var digits := NatToString(n);
      NatToStringRoundTrip(n);
      assert IsDigit(digits[0]);
      digits
  }

  /** Distinct integers have distinct decimal text. */
  lemma IntToStringInjective(m: int, n: int)
    requires IntToString(m) == IntToString(n)
    ensures m == n
  {
    assert ParseInt(IntToString(m)) == Some(m);
  }
}
