/** Decimal numerals as `%d` prints them. */
module Decimal {

  function Digit(d: nat): char
    requires d < 10
  {
    '0' + d as char
  }

  predicate IsDigit(c: char) {
    '0' <= c <= '9'
  }

  predicate AllDigits(s: string) {
    forall i :: 0 <= i < |s| ==> IsDigit(s[i])
  }

  function Print(n: nat): (s: string)
    ensures s != [] && AllDigits(s)
  {
    if n < 10 then [Digit(n)] else Print(n / 10) + [Digit(n % 10)]
  }

  function ValueOf(s: string): nat
    requires AllDigits(s)
  {
    if s == [] then 0 else 10 * ValueOf(s[..|s| - 1]) + (s[|s| - 1] - '0') as nat
  }

  lemma {:induction false} ValueOfPrint(n: nat)
    ensures ValueOf(Print(n)) == n
  {
    if n >= 10 {
      ValueOfPrint(n / 10);
      assert Print(n)[..|Print(n)| - 1] == Print(n / 10);
    }
  }

  lemma PrintIsInjective(m: nat, n: nat)
    requires Print(m) == Print(n)
    ensures m == n
  {
    ValueOfPrint(m);
    ValueOfPrint(n);
  }

  /** A numeral followed by something else can be read off in only one way. */
  lemma NumeralEndsAtNonDigit(a: string, x: string, b: string, y: string)
    requires AllDigits(a) && AllDigits(b) && a + x == b + y
    requires x != [] && y != [] && !IsDigit(x[0]) && !IsDigit(y[0])
    ensures a == b && x == y
  {
    NumeralIsMaximal(a, x, b, y);
    NumeralIsMaximal(b, y, a, x);
    assert a == (a + x)[..|a|] && b == (b + y)[..|b|];
    assert x == (a + x)[|a|..] && y == (b + y)[|b|..];
  }

  lemma NumeralIsMaximal(a: string, x: string, b: string, y: string)
    requires AllDigits(b) && a + x == b + y && x != [] && !IsDigit(x[0])
    ensures |b| <= |a|
  {
    assert forall i :: 0 <= i < |b| ==> IsDigit((b + y)[i]);
    assert !IsDigit((a + x)[|a|]);
  }
}
