/** Comparing an expanded run with its baseline: recovered and regressed cases against the change in the mean. */
module Comparison {
  import opened Collections
  import opened Reals
  import opened Rounding
  import opened Sorting

  /** One evaluated case: whether it expects no evidence, and its hit at 5. */
  datatype EvaluatedCase = EvaluatedCase(caseId: string, noEvidence: bool, hit: Option<real>)

  function Ids(rows: seq<EvaluatedCase>): set<string> {
    set i | 0 <= i < |rows| :: rows[i].caseId
  }

  /** `{row["case_id"]: row for row in rows}`: the last row of an id stays. */
  function ById(rows: seq<EvaluatedCase>): (byId: map<string, EvaluatedCase>)
    ensures forall id :: id in byId <==> id in Ids(rows)
  {
    if rows == [] then map[]
    else
      var rest, last := rows[..|rows| - 1], rows[|rows| - 1];
      IdsSnoc(rows);
      ById(rest)[last.caseId := last]
  }

  lemma IdsSnoc(rows: seq<EvaluatedCase>)
    requires rows != []
    ensures Ids(rows) == Ids(rows[..|rows| - 1]) + {rows[|rows| - 1].caseId}
  {
    var n := |rows| - 1;
    var rest := rows[..n];
    forall id | id in Ids(rest) + {rows[n].caseId}
      ensures id in Ids(rows)
    {
      if id in Ids(rest) {
        var i :| 0 <= i < |rest| && rest[i].caseId == id;
        assert rows[i].caseId == id;
      }
    }
    forall id | id in Ids(rows)
      ensures id in Ids(rest) + {rows[n].caseId}
    {
      var i :| 0 <= i <= n && rows[i].caseId == id;
      assert i < n ==> rest[i].caseId == id;
    }
  }

  function Positives(rows: seq<EvaluatedCase>): seq<EvaluatedCase> {
    Filter((row: EvaluatedCase) => !row.noEvidence, rows)
  }

  function Hits(rows: seq<EvaluatedCase>): seq<real> {
    if rows == [] then []
    else
      var last := rows[|rows| - 1];
      Hits(rows[..|rows| - 1]) + if last.hit.Some? then [last.hit.value] else []
  }

  /** `_mean` over the rows that carry the metric. */
  function Mean(rows: seq<EvaluatedCase>): Option<real> {
    var hits := Hits(rows);
    if hits == [] then None else Some(RoundTo(Over(Sum(hits), |hits| as real), 6))
  }

  function OrZero(mean: Option<real>): real {
    if mean.Some? then mean.value else 0.0
  }

  /** The reported `metric_delta` of the hit rate. */
  function ReportedDelta(baseline: seq<EvaluatedCase>, expanded: seq<EvaluatedCase>): real {
    RoundTo(OrZero(Mean(Positives(expanded))) - OrZero(Mean(Positives(baseline))), 6)
  }

  function PositiveIds(rows: seq<EvaluatedCase>): set<string> {
    Ids(Positives(rows))
  }

  predicate Hit(rows: seq<EvaluatedCase>, id: string, value: real) {
    id in ById(rows) && ById(rows)[id].hit == Some(value)
  }

  /** Positive cases missed by the baseline and found by the expanded run. */
  function Recovered(baseline: seq<EvaluatedCase>, expanded: seq<EvaluatedCase>): set<string> {
    set id | id in PositiveIds(baseline) && Hit(baseline, id, 0.0) && Hit(expanded, id, 1.0)
  }

  /** Positive cases found by the baseline and missed by the expanded run. */
  function Regressed(baseline: seq<EvaluatedCase>, expanded: seq<EvaluatedCase>): set<string> {
    set id | id in PositiveIds(baseline) && Hit(baseline, id, 1.0) && Hit(expanded, id, 0.0)
  }

  /** Unique case ids, and every positive case scored 0 or 1. */
  ghost predicate Scored(rows: seq<EvaluatedCase>) {
    && (forall i, j :: 0 <= i < j < |rows| ==> rows[i].caseId != rows[j].caseId)
    && (forall i :: 0 <= i < |rows| && !rows[i].noEvidence ==> rows[i].hit in {Some(0.0), Some(1.0)})
  }

  /** Both runs evaluate the same cases, in any order. */
  ghost predicate Paired(baseline: seq<EvaluatedCase>, expanded: seq<EvaluatedCase>) {
    Scored(baseline) && Scored(expanded) && Ids(baseline) == Ids(expanded)
    && PositiveIds(baseline) == PositiveIds(expanded)
  }

  /** The positive cases a run hits. */
  function HitIds(rows: seq<EvaluatedCase>): set<string> {
    set i | 0 <= i < |rows| && !rows[i].noEvidence && rows[i].hit == Some(1.0) :: rows[i].caseId
  }

  function OwnHit(row: EvaluatedCase): set<string> {
    if !row.noEvidence && row.hit == Some(1.0) then {row.caseId} else {}
  }

  lemma HitIdsSnoc(rows: seq<EvaluatedCase>)
    requires rows != []
    ensures HitIds(rows) == HitIds(rows[..|rows| - 1]) + OwnHit(rows[|rows| - 1])
  {
    var n := |rows| - 1;
    var rest, last := rows[..n], rows[n];
    var added := OwnHit(last);
    forall id | id in HitIds(rest) + added
      ensures id in HitIds(rows)
    {
      if id in HitIds(rest) {
        var i :| 0 <= i < |rest| && !rest[i].noEvidence && rest[i].hit == Some(1.0) && rest[i].caseId == id;
        assert !rows[i].noEvidence && rows[i].hit == Some(1.0) && rows[i].caseId == id;
      } else {
        assert !rows[n].noEvidence && rows[n].hit == Some(1.0) && rows[n].caseId == id;
      }
    }
    forall id | id in HitIds(rows)
      ensures id in HitIds(rest) + added
    {
      var i :| 0 <= i <= n && !rows[i].noEvidence && rows[i].hit == Some(1.0) && rows[i].caseId == id;
      assert i < n ==> !rest[i].noEvidence && rest[i].hit == Some(1.0) && rest[i].caseId == id;
    }
  }

  /** What one more row adds to the positives, their ids and their hits. */
  lemma PositivesStep(rest: seq<EvaluatedCase>, last: EvaluatedCase)
    ensures var rows := rest + [last];
            if last.noEvidence then Positives(rows) == Positives(rest) && PositiveIds(rows) == PositiveIds(rest)
            else
              && Positives(rows) == Positives(rest) + [last]
              && PositiveIds(rows) == PositiveIds(rest) + {last.caseId}
              && Hits(Positives(rows))
                 == Hits(Positives(rest)) + if last.hit.Some? then [last.hit.value] else []
  {
    FilterSnoc((row: EvaluatedCase) => !row.noEvidence, rest, last);
    if !last.noEvidence {
      var positives := Positives(rest) + [last];
      assert positives[..|positives| - 1] == Positives(rest);
      IdsSnoc(positives);
    }
  }

  lemma {:induction false} PositiveIdsAreIds(rows: seq<EvaluatedCase>)
    ensures HitIds(rows) <= PositiveIds(rows) <= Ids(rows)
  {
    if rows == [] {
      assert HitIds(rows) == {} && Ids([]) == {};
    } else {
      var n := |rows| - 1;
      PositiveIdsAreIds(rows[..n]);
      PositivesStep(rows[..n], rows[n]);
      HitIdsSnoc(rows);
      IdsSnoc(rows);
      assert rows == rows[..n] + [rows[n]];
      hide HitIds, Positives, Hits;
    }
  }

  lemma SumSnoc(values: seq<real>, last: real)
    ensures Sum(values + [last]) == Sum(values) + last
  {
    assert (values + [last])[..|values|] == values;
  }

  /** With unique ids the hit total counts the hit cases. */
  lemma {:induction false} HitTotalCountsHitCases(rows: seq<EvaluatedCase>)
    requires Scored(rows)
    ensures Sum(Hits(Positives(rows))) == |HitIds(rows)| as real
  {
    if rows == [] {
      assert HitIds(rows) == {};
    } else {
      var n := |rows| - 1;
      var rest, last := rows[..n], rows[n];
      LastIdIsNew(rows);
      HitTotalCountsHitCases(rest);
      PositiveIdsAreIds(rest);
      HitIdsSnoc(rows);
      PositivesStep(rest, last);
      assert rows == rest + [last];
      hide HitIds, Positives, Hits, Ids, Sum, PositiveIds, Scored;
      if !last.noEvidence {
        SumSnoc(Hits(Positives(rest)), last.hit.value);
      }
    }
  }

  /** With unique ids every positive case carries the metric and is counted once. */
  lemma {:induction false} EveryPositiveIsCounted(rows: seq<EvaluatedCase>)
    requires Scored(rows)
    ensures |Hits(Positives(rows))| == |Positives(rows)| == |PositiveIds(rows)|
  {
    if rows == [] {
      assert Ids([]) == {};
    } else {
      var n := |rows| - 1;
      var rest, last := rows[..n], rows[n];
      LastIdIsNew(rows);
      EveryPositiveIsCounted(rest);
      PositiveIdsAreIds(rest);
      PositivesStep(rest, last);
      assert rows == rest + [last];
      hide HitIds, Positives, Hits, Ids, PositiveIds, Scored;
    }
  }

  lemma LastIdIsNew(rows: seq<EvaluatedCase>)
    requires Scored(rows) && rows != []
    ensures var last := rows[|rows| - 1];
            && Scored(rows[..|rows| - 1]) && last.caseId !in Ids(rows[..|rows| - 1])
            && (!last.noEvidence ==> last.hit == Some(0.0) || last.hit == Some(1.0))
  {
    assert forall i :: 0 <= i < |rows| - 1 ==> rows[..|rows| - 1][i] == rows[i];
  }

  lemma {:induction false} ByIdFindsTheRow(rows: seq<EvaluatedCase>, i: nat)
    requires i < |rows| && forall i, j :: 0 <= i < j < |rows| ==> rows[i].caseId != rows[j].caseId
    ensures rows[i].caseId in ById(rows) && ById(rows)[rows[i].caseId] == rows[i]
  {
    var n := |rows| - 1;
    if i < n {
      ByIdFindsTheRow(rows[..n], i);
    }
  }

  /** On positive cases, hit means the case is in the hit set and missed means it is not. */
  lemma HitIffInHitIds(rows: seq<EvaluatedCase>, id: string)
    requires Scored(rows) && id in PositiveIds(rows)
    ensures Hit(rows, id, 1.0) <==> id in HitIds(rows)
    ensures Hit(rows, id, 0.0) <==> id !in HitIds(rows)
  {
    var positives := Positives(rows);
    var k :| 0 <= k < |positives| && positives[k].caseId == id;
    FilterMembers((row: EvaluatedCase) => !row.noEvidence, rows);
    assert positives[k] in positives;
    var i :| 0 <= i < |rows| && rows[i] == positives[k];
    ByIdFindsTheRow(rows, i);
    hide ById, Positives;
    if id in HitIds(rows) {
      var j :| 0 <= j < |rows| && !rows[j].noEvidence && rows[j].hit == Some(1.0) && rows[j].caseId == id;
      assert j == i;
    }
  }

  lemma Exchange(a: set<string>, b: set<string>)
    ensures |a| - |b| == |a - b| - |b - a|
  {
    assert a == (a - b) + (a * b) && (a - b) !! (a * b);
    assert b == (b - a) + (a * b) && (b - a) !! (a * b);
  }

  lemma RecoveredAndRegressed(baseline: seq<EvaluatedCase>, expanded: seq<EvaluatedCase>)
    requires Paired(baseline, expanded)
    ensures Recovered(baseline, expanded) == HitIds(expanded) - HitIds(baseline)
    ensures Regressed(baseline, expanded) == HitIds(baseline) - HitIds(expanded)
  {
    PositiveIdsAreIds(baseline);
    PositiveIdsAreIds(expanded);
    forall id
      ensures id in Recovered(baseline, expanded) <==> id in HitIds(expanded) - HitIds(baseline)
      ensures id in Regressed(baseline, expanded) <==> id in HitIds(baseline) - HitIds(expanded)
    {
      if id in PositiveIds(baseline) {
        HitIffInHitIds(baseline, id);
        HitIffInHitIds(expanded, id);
      }
      hide Hit, HitIds, PositiveIds;
    }
  }

  lemma HitTotalsDiffer(baseline: seq<EvaluatedCase>, expanded: seq<EvaluatedCase>)
    requires Paired(baseline, expanded)
    ensures |Hits(Positives(baseline))| == |Hits(Positives(expanded))| == |PositiveIds(baseline)|
    ensures Sum(Hits(Positives(expanded))) - Sum(Hits(Positives(baseline)))
         == (|Recovered(baseline, expanded)| - |Regressed(baseline, expanded)|) as real
  {
    HitTotalCountsHitCases(baseline);
    HitTotalCountsHitCases(expanded);
    EveryPositiveIsCounted(baseline);
    EveryPositiveIsCounted(expanded);
    RecoveredAndRegressed(baseline, expanded);
    Exchange(HitIds(expanded), HitIds(baseline));
    hide Sum, Hits, Positives, HitIds, Recovered, Regressed, PositiveIds, Scored, Ids;
  }

  /** The exact change in the mean hit rate is the recovered cases minus the regressed ones, per positive case. */
  lemma MeanChangeIsNetRecovery(baseline: seq<EvaluatedCase>, expanded: seq<EvaluatedCase>)
    requires Paired(baseline, expanded) && PositiveIds(baseline) != {}
    ensures var n := |PositiveIds(baseline)| as real;
            && |Hits(Positives(baseline))| == |Hits(Positives(expanded))| == |PositiveIds(baseline)|
            && Over(Sum(Hits(Positives(expanded))), n) - Over(Sum(Hits(Positives(baseline))), n)
               == Over((|Recovered(baseline, expanded)| - |Regressed(baseline, expanded)|) as real, n)
  {
    hide Over, Sum, Hits, Positives, HitIds, Recovered, Regressed, PositiveIds, Paired, Ids;
    HitTotalsDiffer(baseline, expanded);
    OverOfDifference(Sum(Hits(Positives(expanded))), Sum(Hits(Positives(baseline))), |PositiveIds(baseline)| as real);
  }

  /** The difference of two numbers rounded to six digits is already on the grid. */
  lemma DifferenceStaysOnGrid(x: real, y: real)
    ensures RoundTo(RoundTo(x, 6) - RoundTo(y, 6), 6) == RoundTo(x, 6) - RoundTo(y, 6)
  {
    hide Times, Over, RoundHalfEven;
    var s := Pow10(6) as real;
    var m, n := RoundHalfEven(Times(x, s)), RoundHalfEven(Times(y, s));
    OverOfDifference(m as real, n as real, s);
    assert (m - n) as real == m as real - n as real;
    RoundToFixesGrid(m - n, 6);
  }

  /** The reported delta is within one millionth of the exact change. */
  lemma ReportedDeltaIsAccurate(baseline: seq<EvaluatedCase>, expanded: seq<EvaluatedCase>)
    requires Paired(baseline, expanded) && PositiveIds(baseline) != {}
    ensures var exact := Over((|Recovered(baseline, expanded)| - |Regressed(baseline, expanded)|) as real,
                              |PositiveIds(baseline)| as real);
            -0.000001 <= ReportedDelta(baseline, expanded) - exact <= 0.000001
  {
    hide Over, RoundTo, Sum, Hits, Positives, Recovered, Regressed, PositiveIds, Paired;
    MeanChangeIsNetRecovery(baseline, expanded);
    var n := |PositiveIds(baseline)| as real;
    var before, after := Over(Sum(Hits(Positives(baseline))), n), Over(Sum(Hits(Positives(expanded))), n);
    RoundToError(before, 6);
    RoundToError(after, 6);
    DifferenceStaysOnGrid(after, before);
    HalfMillionth();
  }

  lemma HalfMillionth()
    ensures Over(-0.5, Pow10(6) as real) == -0.0000005 && Over(0.5, Pow10(6) as real) == 0.0000005
  {
    ScalesAre();
  }

  /** A run has a hit rate exactly when some positive case of it was scored. */
  lemma {:induction false} MeanExistsIff(rows: seq<EvaluatedCase>)
    ensures Mean(rows).Some? <==> exists row :: row in rows && row.hit.Some?
  {
    if rows != [] {
      var rest, last := rows[..|rows| - 1], rows[|rows| - 1];
      MeanExistsIff(rest);
      assert rows == rest + [last];
    }
  }

  /** A run without a hit rate counts as zero on either side of the delta. */
  lemma MissingRateIsZero(baseline: seq<EvaluatedCase>, expanded: seq<EvaluatedCase>)
    ensures var before, after := Mean(Positives(baseline)), Mean(Positives(expanded));
            && (before.None? && after.None? ==> ReportedDelta(baseline, expanded) == 0.0)
            && (before.None? && after.Some? ==> ReportedDelta(baseline, expanded) == after.value)
            && (before.Some? && after.None? ==> ReportedDelta(baseline, expanded) == -before.value)
  {
    var before, after := Hits(Positives(baseline)), Hits(Positives(expanded));
    RoundToFixesIntegers(0, 6);
    var b := if before == [] then 0.0 else Over(Sum(before), |before| as real);
    var a := if after == [] then 0.0 else Over(Sum(after), |after| as real);
    DifferenceStaysOnGrid(a, b);
    hide RoundTo, Over, Sum, Hits, Positives;
  }
}
