/**
 * Decimal digit strings: what Python's int() reads from a field made of ASCII
 * digits, and what str() / an f-string writes for a natural number.
 */
module Decimal {

  predicate IsDigit(c: char) {
    '0' <= c <= '9'
  }

  /** A non-empty run of decimal digits. */
  predicate IsDigits(s: string) {
    |s| > 0 && forall i :: 0 <= i < |s| ==> IsDigit(s[i])
  }

  function DigitValue(c: char): (d: nat)
    requires IsDigit(c)
    ensures d < 10
  {
    c as int - '0' as int
  }

  function DigitChar(d: nat): (c: char)
    requires d < 10
    ensures IsDigit(c) && DigitValue(c) == d
  {
    ('0' as int + d) as char
  }

  /** The number a digit string denotes, most significant digit first (leading zeros allowed, as int() allows them). */
  function Value(s: string): nat
    requires forall i :: 0 <= i < |s| ==> IsDigit(s[i])
  {
    if |s| == 0 then 0 else 10 * Value(s[..|s| - 1]) + DigitValue(s[|s| - 1])
  }

  /** The decimal rendering of n without leading zeros. */
  function Show(n: nat): (s: string)
    ensures IsDigits(s)
    ensures n < 10 <==> |s| == 1
  {
    if n < 10 then [DigitChar(n)] else Show(n / 10) + [DigitChar(n % 10)]
  }

  /** Reading back a rendered number gives the number. */
  lemma {:induction false} ValueOfShow(n: nat)
    ensures Value(Show(n)) == n
  {
    if n >= 10 {
      var s := Show(n);
      assert s[..|s| - 1] == Show(n / 10);
      ValueOfShow(n / 10);
    }
  }

  /** Distinct numbers have distinct renderings. */
  lemma ShowInjective(m: nat, n: nat)
    requires Show(m) == Show(n)
    ensures m == n
  {
    ValueOfShow(m);
    ValueOfShow(n);
  }
}
