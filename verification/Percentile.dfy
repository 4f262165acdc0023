/** Latency percentiles by linear interpolation, and the rounded latency summary. */
module Percentile {
  import opened Collections
  import opened Reals
  import opened Rounding
  import opened Sorting

  datatype LatencyError = NoValues | PercentileOutOfRange

  predicate Below(x: real, y: real) {
    x <= y
  }

  function Ceil(x: real): int {
    -((-x).Floor)
  }

  /** Linear interpolation between the neighbours of a position in an ordered sample. */
  function Interpolate(ordered: seq<real>, position: real): real
    requires 0.0 <= position && position <= (|ordered| - 1) as real
  {
    var lower, upper := position.Floor, Ceil(position);
    if lower == upper then ordered[lower]
    else
      var weight := position - lower as real;
      Times(ordered[lower], 1.0 - weight) + Times(ordered[upper], weight)
  }

  function Position(count: nat, percentile: real): (position: real)
    requires count > 0 && 0.0 <= percentile <= 100.0
    ensures 0.0 <= position && position <= (count - 1) as real
  {
    PositionInRange(count, percentile);
    Times(percentile / 100.0, (count - 1) as real)
  }

  lemma PositionInRange(count: nat, percentile: real)
    requires count > 0 && 0.0 <= percentile <= 100.0
    ensures 0.0 <= Times(percentile / 100.0, (count - 1) as real) <= (count - 1) as real
  {
    hide Times;
    var span := (count - 1) as real;
    TimesKeepsOrder(0.0, percentile / 100.0, span);
    TimesKeepsOrder(percentile / 100.0, 1.0, span);
    TimesBasics(1.0, span);
  }

  function PercentileOf(values: seq<real>, percentile: real): Result<real, LatencyError> {
    if values == [] then Failure(NoValues)
    else if !(0.0 <= percentile <= 100.0) then Failure(PercentileOutOfRange)
    else
      var ordered := StableSort(Below, values);
      SortedSample(values);
      Success(Interpolate(ordered, Position(|values|, percentile)))
  }

  lemma BelowIsPreorder()
    ensures TotalPreorder(Below)
  {
  }

  lemma SortedSample(values: seq<real>)
    ensures |StableSort(Below, values)| == |values|
    ensures Ascending(Below, StableSort(Below, values))
    ensures multiset(StableSort(Below, values)) == multiset(values)
  {
    BelowIsPreorder();
    SortIsAscendingPermutation(Below, values);
    PermutationKeepsMembers(values, StableSort(Below, values));
  }

  // ---------------------------------------------------------------- order and extremes

  /** An interpolated value lies between its neighbours. */
  lemma BetweenNeighbours(ordered: seq<real>, position: real)
    requires Ascending(Below, ordered) && 0.0 <= position && position <= (|ordered| - 1) as real
    ensures 0 <= position.Floor <= Ceil(position) < |ordered|
    ensures ordered[position.Floor] <= Interpolate(ordered, position) <= ordered[Ceil(position)]
  {
    hide Times;
    var lower, upper := position.Floor, Ceil(position);
    if lower != upper {
      var low, high := ordered[lower], ordered[upper];
      var weight := position - lower as real;
      assert Below(low, high);
      AsOffset(low, high, weight);
      TimesKeepsOrder(0.0, weight, high - low);
      TimesKeepsOrder(weight, 1.0, high - low);
      TimesBasics(1.0, high - low);
    }
  }

  lemma AsOffset(low: real, high: real, weight: real)
    ensures Times(low, 1.0 - weight) + Times(high, weight) == low + Times(weight, high - low)
  {
    hide Times;
    TimesBasics(low, 1.0 - weight);
    TimesBasics(1.0, low);
    TimesBasics(weight, low);
    TimesBasics(high, weight);
    TimesBasics(weight, high - low);
    TimesOfDifference(1.0, weight, low);
    TimesOfDifference(high, low, weight);
    TimesBasics(low, weight);
  }

  /** Interpolation never decreases, within a segment or across segment boundaries. */
  lemma InterpolateIsMonotone(ordered: seq<real>, x: real, y: real)
    requires Ascending(Below, ordered) && 0.0 <= x <= y && y <= (|ordered| - 1) as real
    ensures Interpolate(ordered, x) <= Interpolate(ordered, y)
  {
    hide Times;
    BetweenNeighbours(ordered, x);
    BetweenNeighbours(ordered, y);
    if x.Floor == y.Floor {
      if x != y && y != y.Floor as real {
        SameSegment(ordered, x, y);
      }
    } else {
      hide Interpolate;
      assert Ceil(x) <= y.Floor;
      assert Ceil(x) < y.Floor ==> Below(ordered[Ceil(x)], ordered[y.Floor]);
    }
  }

  lemma SameSegment(ordered: seq<real>, x: real, y: real)
    requires Ascending(Below, ordered) && 0.0 <= x < y && y <= (|ordered| - 1) as real
    requires x.Floor == y.Floor && y != y.Floor as real
    ensures Interpolate(ordered, x) <= Interpolate(ordered, y)
  {
    var lower := y.Floor;
    var low, high := ordered[lower], ordered[lower + 1];
    var u, v := x - lower as real, y - lower as real;
    assert Below(low, high);
    hide Times;
    AsOffset(low, high, u);
    AsOffset(low, high, v);
    TimesKeepsOrder(u, v, high - low);
  }

  /** Percentiles never decrease in the percentile. */
  lemma PercentileIsMonotone(values: seq<real>, p: real, q: real)
    requires values != [] && 0.0 <= p <= q <= 100.0
    ensures PercentileOf(values, p).Success? && PercentileOf(values, q).Success?
    ensures PercentileOf(values, p).value <= PercentileOf(values, q).value
  {
    SortedSample(values);
    hide Interpolate, StableSort, Times;
    TimesKeepsOrder(p / 100.0, q / 100.0, (|values| - 1) as real);
    InterpolateIsMonotone(StableSort(Below, values), Position(|values|, p), Position(|values|, q));
  }

  function MinOf(values: seq<real>): (m: real)
    requires values != []
    ensures m in values && forall i :: 0 <= i < |values| ==> m <= values[i]
  {
    var last := values[|values| - 1];
    if |values| == 1 then last
    else
      var m := MinOf(values[..|values| - 1]);
      assert forall i :: 0 <= i < |values| - 1 ==> values[i] == values[..|values| - 1][i];
      if last < m then last else m
  }

  function MaxOf(values: seq<real>): (m: real)
    requires values != []
    ensures m in values && forall i :: 0 <= i < |values| ==> values[i] <= m
  {
    var last := values[|values| - 1];
    if |values| == 1 then last
    else
      var m := MaxOf(values[..|values| - 1]);
      assert forall i :: 0 <= i < |values| - 1 ==> values[i] == values[..|values| - 1][i];
      if last > m then last else m
  }

  /** The 0th percentile is the minimum and the 100th the maximum. */
  lemma ExtremePercentiles(values: seq<real>)
    requires values != []
    ensures PercentileOf(values, 0.0) == Success(MinOf(values))
    ensures PercentileOf(values, 100.0) == Success(MaxOf(values))
  {
    SortedSample(values);
    var ordered := StableSort(Below, values);
    var n := |ordered| - 1;
    EndsOfOrdered(values, ordered);
    hide StableSort, MinOf, MaxOf;
    TimesBasics(1.0, n as real);
    hide Times;
    assert Interpolate(ordered, 0.0) == ordered[0];
    assert Interpolate(ordered, n as real) == ordered[n];
  }

  lemma EndsOfOrdered(values: seq<real>, ordered: seq<real>)
    requires values != [] && multiset(values) == multiset(ordered) && Ascending(Below, ordered)
    ensures |ordered| == |values| && ordered[0] == MinOf(values) && ordered[|ordered| - 1] == MaxOf(values)
  {
    PermutationKeepsMembers(values, ordered);
    var n := |ordered| - 1;
    var low, high := MinOf(values), MaxOf(values);
    assert low in ordered && high in ordered;
    var i :| 0 <= i < |ordered| && ordered[i] == low;
    var j :| 0 <= j < |ordered| && ordered[j] == high;
    assert ordered[0] in values && ordered[n] in values;
    assert i > 0 ==> Below(ordered[0], ordered[i]);
    assert j < n ==> Below(ordered[j], ordered[n]);
  }

  /** Only which values occur, and how often, matters. */
  lemma PercentileIgnoresOrder(values: seq<real>, shuffled: seq<real>, percentile: real)
    requires multiset(values) == multiset(shuffled)
    ensures PercentileOf(values, percentile) == PercentileOf(shuffled, percentile)
  {
    PermutationKeepsMembers(values, shuffled);
    SortedSample(values);
    SortedSample(shuffled);
    AscendingIsUnique(Below, StableSort(Below, values), StableSort(Below, shuffled));
  }

  // ---------------------------------------------------------------- the exact value

  /** Between two neighbours the value moves along the straight line that joins them. */
  lemma InterpolateIsLinear(ordered: seq<real>, k: nat, position: real)
    requires k < |ordered| && k as real <= position && position < k as real + 1.0 && position <= (|ordered| - 1) as real
    ensures Interpolate(ordered, position) - ordered[k]
         == Times(position - k as real, ordered[Min(k + 1, |ordered| - 1)] - ordered[k])
  {
    assert position.Floor == k;
    if position == k as real {
      hide Times;
      TimesBasics(0.0, ordered[Min(k + 1, |ordered| - 1)] - ordered[k]);
    } else {
      assert Ceil(position) == k + 1;
      hide Times;
      AsOffset(ordered[k], ordered[k + 1], position - k as real);
    }
  }

  /** The value lies at that position, on the line between the k-th value and the next. */
  ghost predicate LiesAt(ordered: seq<real>, position: real, k: nat, value: real) {
    && k < |ordered| && k as real <= position && position < k as real + 1.0
    && value - ordered[k] == Times(position - k as real, ordered[Min(k + 1, |ordered| - 1)] - ordered[k])
  }

  /** A percentile interpolates between two neighbours of the sorted sample, at its share of the way through. */
  lemma PercentileIsInterpolated(values: seq<real>, percentile: real) returns (ordered: seq<real>, k: nat)
    requires values != [] && 0.0 <= percentile <= 100.0
    ensures multiset(ordered) == multiset(values) && forall i, j :: 0 <= i < j < |ordered| ==> ordered[i] <= ordered[j]
    ensures PercentileOf(values, percentile).Success?
    ensures LiesAt(ordered, Times(percentile / 100.0, (|values| - 1) as real), k, PercentileOf(values, percentile).value)
  {
    SortedSample(values);
    ordered := StableSort(Below, values);
    AscendingValues(ordered);
    PositionInRange(|values|, percentile);
    var position := Times(percentile / 100.0, (|values| - 1) as real);
    k := position.Floor;
    InterpolateIsLinear(ordered, k, position);
    hide StableSort, Interpolate, Times, Ascending;
  }

  lemma AscendingValues(ordered: seq<real>)
    requires Ascending(Below, ordered)
    ensures forall i, j :: 0 <= i < j < |ordered| ==> ordered[i] <= ordered[j]
  {
    forall i, j | 0 <= i < j < |ordered|
      ensures ordered[i] <= ordered[j]
    {
      assert Below(ordered[i], ordered[j]);
    }
  }

  /** The percentile is refused outside 0 to 100, and for no values. */
  lemma PercentileAccepts(values: seq<real>, percentile: real)
    ensures PercentileOf(values, percentile).Success? <==> values != [] && 0.0 <= percentile <= 100.0
  {
    hide Interpolate, StableSort;
  }

  // ---------------------------------------------------------------- summary

  datatype Summary = Summary(count: nat, mean: real, p50: real, p95: real, min: real, max: real)

  function Summarise(values: seq<real>): Result<Summary, LatencyError> {
    if values == [] then Failure(NoValues)
    else
      var p50 :- PercentileOf(values, 50.0);
      var p95 :- PercentileOf(values, 95.0);
      Success(Summary(|values|, RoundTo(Over(Sum(values), |values| as real), 3), RoundTo(p50, 3), RoundTo(p95, 3),
                      RoundTo(MinOf(values), 3), RoundTo(MaxOf(values), 3)))
  }

  lemma {:induction false} SumIsBounded(values: seq<real>, low: real, high: real)
    requires forall i :: 0 <= i < |values| ==> low <= values[i] <= high
    ensures Times(low, |values| as real) <= Sum(values) <= Times(high, |values| as real)
  {
    hide Times;
    var m := |values| as real;
    TimesBasics(low, m);
    TimesBasics(high, m);
    if values == [] {
      TimesBasics(0.0, low);
      TimesBasics(0.0, high);
    } else {
      var n := |values| - 1;
      SumIsBounded(values[..n], low, high);
      TimesBasics(low, n as real);
      TimesBasics(high, n as real);
      TimesOfSum(n as real, 1.0, low);
      TimesOfSum(n as real, 1.0, high);
      TimesBasics(1.0, low);
      TimesBasics(1.0, high);
    }
  }

  lemma MeanIsBounded(values: seq<real>)
    requires values != []
    ensures MinOf(values) <= Over(Sum(values), |values| as real) <= MaxOf(values)
  {
    hide Times, Over, Sum;
    var n, low, high := |values| as real, MinOf(values), MaxOf(values);
    SumIsBounded(values, low, high);
    OverKeepsOrder(Times(low, n), Sum(values), n);
    OverKeepsOrder(Sum(values), Times(high, n), n);
    QuotientIs(low, Times(low, n), n);
    QuotientIs(high, Times(high, n), n);
  }

  /** A reported summary is ordered, rounding included. */
  lemma SummaryIsOrdered(values: seq<real>)
    requires values != []
    ensures Summarise(values).Success?
    ensures var s := Summarise(values).value;
            s.min <= s.p50 <= s.p95 <= s.max && s.min <= s.mean <= s.max
  {
    ExtremePercentiles(values);
    PercentileIsMonotone(values, 0.0, 50.0);
    PercentileIsMonotone(values, 50.0, 95.0);
    PercentileIsMonotone(values, 95.0, 100.0);
    MeanIsBounded(values);
    var p50, p95 := PercentileOf(values, 50.0).value, PercentileOf(values, 95.0).value;
    var mean := Over(Sum(values), |values| as real);
    hide PercentileOf, RoundTo, MinOf, MaxOf, Sum, Over;
    RoundToIsMonotone(MinOf(values), p50, 3);
    RoundToIsMonotone(p50, p95, 3);
    RoundToIsMonotone(p95, MaxOf(values), 3);
    RoundToIsMonotone(MinOf(values), mean, 3);
    RoundToIsMonotone(mean, MaxOf(values), 3);
  }

  lemma {:induction false} SumConcat(a: seq<real>, b: seq<real>)
    ensures Sum(a + b) == Sum(a) + Sum(b)
    ensures forall x :: Sum([x]) == x
  {
    if b == [] {
      assert a + b == a;
    } else {
      SumConcat(a, b[..|b| - 1]);
      assert (a + b)[..|a + b| - 1] == a + b[..|b| - 1];
    }
  }

  /** The summary's entries, each rounded to three digits. */
  lemma SummaryMeans(values: seq<real>)
    requires values != []
    ensures Summarise(values).Success? && PercentileOf(values, 50.0).Success? && PercentileOf(values, 95.0).Success?
    ensures var s := Summarise(values).value;
            && s.count == |values|
            && s.p50 == RoundTo(PercentileOf(values, 50.0).value, 3) && s.p95 == RoundTo(PercentileOf(values, 95.0).value, 3)
            && s.min == RoundTo(MinOf(values), 3) && s.max == RoundTo(MaxOf(values), 3)
            && exists mean :: Times(mean, |values| as real) == Sum(values) && s.mean == RoundTo(mean, 3)
  {
    PercentileAccepts(values, 50.0);
    PercentileAccepts(values, 95.0);
    OverThenTimes(Sum(values), |values| as real);
    hide PercentileOf, RoundTo, MinOf, MaxOf, Sum, Over, Times;
  }
}
