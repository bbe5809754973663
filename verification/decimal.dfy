/** Decimal digit strings: how JavaScript renders a non-negative integer
    (`String(n)`, a template literal) and how `parseInt` reads one back. */
module Decimal {

  /** An ASCII digit; this is what `\d` matches in a JavaScript regular
      expression without the `u` flag. */
  predicate IsDigit(c: char) {
    '0' <= c <= '9'
  }

  predicate AllDigits(s: string) {
    forall i :: 0 <= i < |s| ==> IsDigit(s[i])
  }

  /** How `String(n)` writes a natural number: no leading zero except for "0". */
  predicate Canonical(s: string) {
    AllDigits(s) && s != [] && (s[0] == '0' ==> |s| == 1)
  }

  function DigitChar(d: nat): (c: char)
    requires d < 10
    ensures IsDigit(c) && c as int - '0' as int == d
  {
    ('0' as int + d) as char
  }

  function DigitValue(c: char): (d: nat)
    requires IsDigit(c)
    ensures d < 10 && DigitChar(d) == c
  {
    c as int - '0' as int
  }

  /** The value of a digit string read most significant digit first; "" reads as 0. */
  function DigitsValue(s: string): nat
    requires AllDigits(s)
  {
    if s == [] then 0 else 10 * DigitsValue(s[..|s| - 1]) + DigitValue(s[|s| - 1])
  }

  /** `String(n)` for a natural number. */
  function NatToString(n: nat): (s: string)
    ensures Canonical(s)
  {
    if n < 10 then [DigitChar(n)] else NatToString(n / 10) + [DigitChar(n % 10)]
  }

  /** Reading back what was written gives the number written. */
  lemma {:induction false} ReadWritten(n: nat)
    ensures DigitsValue(NatToString(n)) == n
  {
    if n >= 10 {
      var s := NatToString(n);
      assert s[..|s| - 1] == NatToString(n / 10);
      ReadWritten(n / 10);
    }
  }

  /** Writing what was read gives back the same canonical string. */
  lemma {:induction false} WriteRead(s: string)
    requires Canonical(s)
    ensures NatToString(DigitsValue(s)) == s
  {
    if |s| > 1 {
      var init := s[..|s| - 1];
      assert init[0] == s[0];
      WriteRead(init);
      LeadingDigitNonZero(s);
      assert s == init + [s[|s| - 1]];
    }
  }

  /** A canonical string of two or more digits denotes at least 10. */
  lemma {:induction false} LeadingDigitNonZero(s: string)
    requires Canonical(s) && |s| > 1
    ensures DigitsValue(s) >= 10
  {
    var init := s[..|s| - 1];
    if |init| > 1 {
      assert init[0] == s[0];
      LeadingDigitNonZero(init);
    } else {
      assert init[0] == s[0];
    }
  }

  /** Distinct numbers are written differently. */
  lemma NatToStringInjective(m: nat, n: nat)
    requires NatToString(m) == NatToString(n)
    ensures m == n
  {
    ReadWritten(m);
    ReadWritten(n);
  }
}
