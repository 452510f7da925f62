/** Multiplication of reals by name, so that proofs use its laws one at a time. */
module Reals {
  function Times(a: real, b: real): real {
    a * b
  }

  lemma TimesSum(a: real, b: real, c: real)
    ensures Times(a + b, c) == Times(a, c) + Times(b, c)
  {
  }

  lemma TimesOne(c: real)
    ensures Times(1.0, c) == c
  {
  }

  lemma TimesPositive(a: real, c: real)
    requires a >= 0.0 && c > 0.0
    ensures Times(a, c) >= 0.0 && (a > 0.0 ==> Times(a, c) > 0.0)
  {
  }

  lemma TimesQuotient(a: real, c: real)
    requires c > 0.0
    ensures Times(a / c, c) == a
  {
  }

  lemma TimesMonotone(a: real, b: real, c: real)
    requires a <= b && c > 0.0
    ensures Times(a, c) <= Times(b, c) && (a < b ==> Times(a, c) < Times(b, c))
  {
    hide Times;
    TimesSum(a, b - a, c);
    TimesPositive(b - a, c);
    assert a + (b - a) == b;
  }
}
