/** Decimal rounding over real numbers: Python's `round(x, digits)`, ties to even. */
module Rounding {
  import opened Reals

  function Pow10(digits: nat): (r: nat)
    ensures r >= 1
  {
    if digits == 0 then 1 else 10 * Pow10(digits - 1)
  }

  /** The scales the reports round to. */
  lemma ScalesAre()
    ensures Pow10(3) == 1000 && Pow10(6) == 1000000
  {
  }

  /** The nearest integer; of two equally near ones, the even one. */
  function RoundHalfEven(y: real): int {
    var down := y.Floor;
    var rest := y - down as real;
    if rest < 0.5 then down
    else if rest > 0.5 then down + 1
    else if down % 2 == 0 then down
    else down + 1
  }

  function RoundTo(x: real, digits: nat): real {
    Over(RoundHalfEven(Times(x, Pow10(digits) as real)) as real, Pow10(digits) as real)
  }

  lemma NearestInteger(y: real)
    ensures -0.5 <= RoundHalfEven(y) as real - y <= 0.5
  {
  }

  /** No integer is nearer, and a tie goes to the even neighbour. */
  lemma NoIntegerIsNearer(y: real, n: int)
    requires n != RoundHalfEven(y)
    ensures var r := RoundHalfEven(y);
            var here, there := if y >= r as real then y - r as real else r as real - y,
                               if y >= n as real then y - n as real else n as real - y;
            here < there || (here == there && r % 2 == 0)
  {
    var r := RoundHalfEven(y);
    NearestInteger(y);
    if n > r {
      assert n as real >= r as real + 1.0;
    } else {
      assert n as real <= r as real - 1.0;
    }
  }

  lemma RoundHalfEvenIsMonotone(x: real, y: real)
    requires x <= y
    ensures RoundHalfEven(x) <= RoundHalfEven(y)
  {
    assert x.Floor <= y.Floor;
  }

  lemma RoundHalfEvenFixesIntegers(n: int)
    ensures RoundHalfEven(n as real) == n
  {
  }

  lemma RoundToIsMonotone(x: real, y: real, digits: nat)
    requires x <= y
    ensures RoundTo(x, digits) <= RoundTo(y, digits)
  {
    hide Times, Over, RoundHalfEven;
    var s := Pow10(digits) as real;
    TimesKeepsOrder(x, y, s);
    RoundHalfEvenIsMonotone(Times(x, s), Times(y, s));
    OverKeepsOrder(RoundHalfEven(Times(x, s)) as real, RoundHalfEven(Times(y, s)) as real, s);
  }

  /** Rounding moves a number by at most half a unit of the last digit. */
  lemma RoundToError(x: real, digits: nat)
    ensures Over(-0.5, Pow10(digits) as real) <= RoundTo(x, digits) - x <= Over(0.5, Pow10(digits) as real)
  {
    hide Times, Over, RoundHalfEven;
    var s := Pow10(digits) as real;
    var r := RoundHalfEven(Times(x, s)) as real;
    NearestInteger(Times(x, s));
    OverKeepsOrder(-0.5, r - Times(x, s), s);
    OverKeepsOrder(r - Times(x, s), 0.5, s);
    OverOfDifference(r, Times(x, s), s);
    QuotientIs(x, Times(x, s), s);
  }

  /** Numbers already on the grid are left alone. */
  lemma RoundToFixesGrid(n: int, digits: nat)
    ensures RoundTo(Over(n as real, Pow10(digits) as real), digits) == Over(n as real, Pow10(digits) as real)
  {
    hide Times, Over, RoundHalfEven;
    OverThenTimes(n as real, Pow10(digits) as real);
    RoundHalfEvenFixesIntegers(n);
  }

  lemma IntegerProduct(n: int, p: nat)
    ensures Times(n as real, p as real) == (n * p) as real
  {
  }

  lemma RoundToFixesIntegers(n: int, digits: nat)
    ensures RoundTo(n as real, digits) == n as real
  {
    hide Times, Over, RoundTo;
    var p := Pow10(digits);
    RoundToFixesGrid(n * p, digits);
    IntegerProduct(n, p);
    QuotientIs(n as real, (n * p) as real, p as real);
  }

  /** The reported number is the quotient a / n to within half a unit of its last digit. */
  ghost predicate IsQuotientTo(digits: nat, reported: real, a: real, n: real) {
    Times(-0.5, n) <= Times(Times(reported, n) - a, Pow10(digits) as real) <= Times(0.5, n)
  }

  lemma RoundedQuotient(a: real, n: real, digits: nat)
    requires n > 0.0
    ensures IsQuotientTo(digits, RoundTo(Over(a, n), digits), a, n)
  {
    var s, q, r := Pow10(digits) as real, Over(a, n), RoundTo(Over(a, n), digits);
    NearestInteger(Times(q, s));
    OverThenTimes(RoundHalfEven(Times(q, s)) as real, s);
    OverThenTimes(a, n);
    TimesOfDifference(r, q, s);
    TimesOfDifference(r, q, n);
    Exchange(r - q, s, n);
    hide Times, Over, RoundTo, RoundHalfEven, Pow10;
    assert -0.5 <= Times(r - q, s) <= 0.5;
    TimesKeepsOrder(-0.5, Times(r - q, s), n);
    TimesKeepsOrder(Times(r - q, s), 0.5, n);
  }

  lemma Exchange(x: real, s: real, n: real)
    ensures Times(Times(x, n), s) == Times(Times(x, s), n)
  {
  }
}
