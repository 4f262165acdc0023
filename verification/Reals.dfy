/** Products and quotients of reals under names of their own, so that proofs can hide the arithmetic. */
module Reals {

  function Times(a: real, b: real): real {
    a * b
  }

  function Over(a: real, b: real): real
    requires b != 0.0
  {
    a / b
  }

  lemma TimesBasics(a: real, b: real)
    ensures Times(a, b) == Times(b, a)
    ensures Times(0.0, b) == 0.0 && Times(1.0, b) == b
  {
  }

  lemma TimesOfDifference(a: real, b: real, c: real)
    ensures Times(a - b, c) == Times(a, c) - Times(b, c)
  {
  }

  lemma TimesOfSum(a: real, b: real, c: real)
    ensures Times(a + b, c) == Times(a, c) + Times(b, c)
  {
  }

  lemma TimesSign(a: real, b: real)
    ensures a >= 0.0 && b >= 0.0 ==> Times(a, b) >= 0.0
    ensures a > 0.0 && b > 0.0 ==> Times(a, b) > 0.0
  {
  }

  lemma TimesKeepsOrder(a: real, b: real, s: real)
    requires a <= b && s >= 0.0
    ensures Times(a, s) <= Times(b, s)
  {
    TimesSign(b - a, s);
    TimesOfDifference(b, a, s);
    hide Times;
  }

  lemma TimesReflectsOrder(a: real, b: real, s: real)
    requires Times(a, s) <= Times(b, s) && s > 0.0
    ensures a <= b
  {
    TimesSign(a - b, s);
    TimesOfDifference(a, b, s);
    hide Times;
  }

  lemma OverThenTimes(a: real, s: real)
    requires s != 0.0
    ensures Times(Over(a, s), s) == a
  {
  }

  /** A quotient is the only number whose product with the divisor is the dividend. */
  lemma QuotientIs(q: real, a: real, s: real)
    requires s > 0.0 && Times(q, s) == a
    ensures Over(a, s) == q
  {
    OverThenTimes(a, s);
    hide Times, Over;
    TimesReflectsOrder(Over(a, s), q, s);
    TimesReflectsOrder(q, Over(a, s), s);
  }

  lemma OverKeepsOrder(a: real, b: real, s: real)
    requires a <= b && s > 0.0
    ensures Over(a, s) <= Over(b, s)
  {
    OverThenTimes(a, s);
    OverThenTimes(b, s);
    hide Times, Over;
    TimesReflectsOrder(Over(a, s), Over(b, s), s);
  }

  lemma OverOfDifference(a: real, b: real, s: real)
    requires s > 0.0
    ensures Over(a - b, s) == Over(a, s) - Over(b, s)
  {
    OverThenTimes(a, s);
    OverThenTimes(b, s);
    TimesOfDifference(Over(a, s), Over(b, s), s);
    hide Times, Over;
    QuotientIs(Over(a, s) - Over(b, s), a - b, s);
  }

  lemma OverSign(a: real, s: real)
    requires s > 0.0
    ensures a >= 0.0 ==> Over(a, s) >= 0.0
    ensures a > 0.0 ==> Over(a, s) > 0.0
  {
    OverThenTimes(a, s);
    TimesBasics(0.0, s);
    hide Times, Over;
    if a >= 0.0 {
      TimesReflectsOrder(0.0, Over(a, s), s);
    }
  }

  function Sum(values: seq<real>): real {
    if values == [] then 0.0 else Sum(values[..|values| - 1]) + values[|values| - 1]
  }
}
