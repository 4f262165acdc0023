/** What a v1 score says about the case and the ranked rows, in terms of their own fields. */
module LegacyMeaning {
  import opened Collections
  import opened Json
  import opened Reals
  import opened Scoring
  import opened LegacyScoring
  import opened FieldRelations
  import SM = ScoreMeaning

  // ---------------------------------------------------------------- reading a case

  /** An expected unit: an id, a document and at least one page. */
  ghost predicate UnitIsSound(unit: Json) {
    && unit.Obj?
    && (exists id :: id != "" && Get(unit.fields, Other("evidence_unit_id")) == Str(id))
    && (exists document :: document != "" && Get(unit.fields, DocumentId) == Str(document))
    && Get(unit.fields, PageRefs).Arr? && Get(unit.fields, PageRefs).items != []
  }

  /** The expected units of a row; a field that is not a list has none. */
  ghost function UnitsOf(row: Row): seq<Json> {
    var units := Get(row, Other("expected_evidence"));
    if units.Arr? then units.items else []
  }

  ghost predicate SameId(a: Json, b: Json) {
    a.Obj? && b.Obj? && Get(a.fields, Other("evidence_unit_id")) == Get(b.fields, Other("evidence_unit_id"))
  }

  /** A v1 case: a product, a policy, and units exactly when evidence is expected, no two with one id. */
  ghost predicate CaseIsSound(row: Row) {
    && (exists product :: product != "" && Get(row, ProductModelCode) == Str(product))
    && Get(row, EvidenceMatchPolicy) in {Str("ANY"), Str("ALL"), Str("NONE")}
    && Get(row, Other("expected_evidence")).Arr?
    && Get(row, Other("expected_no_evidence")) == Bool(Get(row, EvidenceMatchPolicy) == Str("NONE"))
    && (UnitsOf(row) == [] <==> Get(row, EvidenceMatchPolicy) == Str("NONE"))
    && (forall unit :: unit in UnitsOf(row) ==> UnitIsSound(unit))
    && forall a, b :: 0 <= a < b < |UnitsOf(row)| ==> !SameId(UnitsOf(row)[a], UnitsOf(row)[b])
  }

  /** The unit as it was read. */
  ghost predicate Reads(unit: Unit, item: Json) {
    && item.Obj? && Get(item.fields, Other("evidence_unit_id")) == Str(unit.id) && Get(item.fields, DocumentId) == Str(unit.document)
    && Get(item.fields, PageRefs).Arr?
    && forall page :: page in unit.pages <==> page in Get(item.fields, PageRefs).items
  }

  lemma UnitMeans(item: Json)
    requires item.Obj?
    ensures ReadUnit(item.fields).Success? <==> UnitIsSound(item)
    ensures ReadUnit(item.fields).Success? ==> Reads(ReadUnit(item.fields).value, item)
  {
    var id, document := Get(item.fields, EVIDENCE_UNIT_ID), Get(item.fields, DocumentId);
    if IsText(id) && IsText(document) {
      assert id == Str(id.s) && document == Str(document.s);
    }
  }

  ghost predicate AllReads(units: seq<Unit>, items: seq<Json>) {
    |units| == |items| && forall i :: 0 <= i < |units| ==> Reads(units[i], items[i])
  }

  ghost predicate ApartFrom(items: seq<Json>, last: Json) {
    forall a :: 0 <= a < |items| ==> !SameId(items[a], last)
  }

  ghost predicate IdsDiffer(items: seq<Json>) {
    forall a, b :: 0 <= a < b < |items| ==> !SameId(items[a], items[b])
  }

  lemma IdsDifferStep(rest: seq<Json>, last: Json)
    ensures IdsDiffer(rest + [last]) <==> IdsDiffer(rest) && ApartFrom(rest, last)
  {
    hide SameId;
    var items := rest + [last];
    assert forall a :: 0 <= a < |rest| ==> items[a] == rest[a];
    assert items[|rest|] == last;
    if IdsDiffer(items) {
      forall a, b | 0 <= a < b < |rest|
        ensures !SameId(rest[a], rest[b])
      {
        assert !SameId(items[a], items[b]);
      }
      forall a | 0 <= a < |rest|
        ensures !SameId(rest[a], last)
      {
        assert !SameId(items[a], items[|rest|]);
      }
    }
  }

  lemma TakenIdMeans(units: seq<Unit>, items: seq<Json>, unit: Unit, last: Json)
    requires AllReads(units, items) && Reads(unit, last)
    ensures unit.id in UnitIds(units) <==> !ApartFrom(items, last)
  {
    forall i | 0 <= i < |units|
      ensures units[i].id == unit.id <==> SameId(items[i], last)
    {
      assert Reads(units[i], items[i]);
    }
  }

  lemma {:induction false} UnitsMean(items: seq<Json>)
    requires forall i :: 0 <= i < |items| ==> items[i].Obj?
    ensures ReadUnits(items).Success? <==> (forall item :: item in items ==> UnitIsSound(item)) && IdsDiffer(items)
    ensures ReadUnits(items).Success? ==> AllReads(ReadUnits(items).value, items)
  {
    hide ReadUnit, UnitIsSound, Reads, IdsDiffer, ApartFrom, UnitIds;
    if items == [] {
      NoUnitsDiffer();
    } else {
      var rest, last := items[..|items| - 1], items[|items| - 1];
      UnitsMean(rest);
      UnitMeans(last);
      IdsDifferStep(rest, last);
      assert items == rest + [last];
      if ReadUnits(rest).Success? && ReadUnit(last.fields).Success? {
        TakenIdMeans(ReadUnits(rest).value, rest, ReadUnit(last.fields).value, last);
      }
    }
  }

  lemma NoUnitsDiffer()
    ensures IdsDiffer([])
  {
  }

  /** The case as it was read. */
  ghost predicate ReadsCase(c: LegacyCase, row: Row) {
    && Get(row, ProductModelCode) == Str(c.product)
    && Get(row, EvidenceMatchPolicy) == Str(match c.policy case ANY => "ANY" case ALL => "ALL" case NONE => "NONE")
    && AllReads(c.units, UnitsOf(row))
    && c.expectedPath == if ExpectedExecutionPath in row then row[ExpectedExecutionPath] else Str("PGVECTOR_QUERY")
  }

  lemma PolicyMeans(value: Json)
    ensures ReadPolicy(value).Success? <==> value in {Str("ANY"), Str("ALL"), Str("NONE")}
    ensures forall policy :: ReadPolicy(value) == Success(policy) ==>
              value == Str(match policy case ANY => "ANY" case ALL => "ALL" case NONE => "NONE")
  {
  }

  lemma PoliciesDiffer()
    ensures Str("NONE") != Str("ANY") && Str("NONE") != Str("ALL")
  {
    assert "NONE"[0] == 'N' && "ANY"[0] == 'A' && "ALL"[0] == 'A';
  }

  lemma ObjectsMean(j: Json)
    requires j.Arr? && forall item :: item in j.items ==> UnitIsSound(item)
    ensures AreObjects(j)
  {
    forall i | 0 <= i < |j.items|
      ensures j.items[i].Obj?
    {
      assert UnitIsSound(j.items[i]);
    }
  }

  /** A v1 case is read exactly when it is sound, and as what its fields say. */
  lemma LegacyCaseMeans(row: Row)
    ensures ReadLegacyCase(row).Success? <==> CaseIsSound(row)
    ensures ReadLegacyCase(row).Success? ==> ReadsCase(ReadLegacyCase(row).value, row)
  {
    hide ReadUnits, UnitIsSound, AllReads, ReadPolicy, SameId, LegacyCase.Valid;
    PolicyMeans(Get(row, EvidenceMatchPolicy));
    PoliciesDiffer();
    var product, expected := Get(row, ProductModelCode), Get(row, EXPECTED_EVIDENCE);
    assert IsText(product) ==> product == Str(product.s);
    if expected.Arr? {
      if forall unit :: unit in expected.items ==> UnitIsSound(unit) {
        ObjectsMean(expected);
      }
      if AreObjects(expected) {
        UnitsMean(expected.items);
      }
    }
  }

  /** A v1 score is given for a sound case whose ranked rows carry chunks and whose expected path, if any, is a text. */
  lemma LegacyScoredIff(row: Row, ranked: seq<Row>, path: string, queries: int, topK: int)
    ensures LegacyScoreCase(row, ranked, path, queries, topK).Success? <==>
            && topK >= 1 && queries >= 0 && CaseIsSound(row) && ChunksAreObjects(ranked)
            && (ExpectedExecutionPath in row ==> row[ExpectedExecutionPath].Str? && row[ExpectedExecutionPath] != Str(""))
    ensures LegacyScoreCase(row, ranked, path, queries, topK).Success? ==>
              exists c :: ReadsCase(c, row) && c.Valid()
                          && LegacyScoreCase(row, ranked, path, queries, topK).value == LegacyScoreRows(c, CorpusRows(ranked), path, topK)
  {
    hide LegacyScoreRows, ReadLegacyCase, CaseIsSound, AllReads, LegacyCase.Valid;
    LegacyCaseMeans(row);
    assert "PGVECTOR_QUERY" != "";
  }

  // ---------------------------------------------------------------- what the rows show

  /** The row names the unit, its document, and at least one of its pages. */
  ghost predicate RowShows(row: Row, unit: Unit) {
    && Has(row, EvidenceUnitIds, unit.id) && Get(row, DocumentId) == Str(unit.document)
    && exists page :: page in unit.pages && Get(row, PageRefs).Arr? && page in Get(row, PageRefs).items
  }

  /** One of the first k rows shows the unit. */
  ghost predicate Shown(rows: seq<Row>, k: int, unit: Unit) {
    exists i :: 0 <= i < k && i < |rows| && RowShows(rows[i], unit)
  }

  ghost predicate SomeShown(c: LegacyCase, rows: seq<Row>, k: int) {
    exists unit :: unit in c.units && Shown(rows, k, unit)
  }

  /** What ANY and ALL ask of the first k rows. */
  ghost predicate Completed(c: LegacyCase, rows: seq<Row>, k: int) {
    if c.policy == ANY then SomeShown(c, rows, k)
    else forall unit :: unit in c.units ==> Shown(rows, k, unit)
  }

  lemma RowShowsMeans(row: Row, unit: Unit)
    ensures UnitMatches(unit, row) <==> RowShows(row, unit)
  {
    if RowShows(row, unit) {
      var page :| page in unit.pages && Get(row, PageRefs).Arr? && page in Get(row, PageRefs).items;
      assert page in Items(Get(row, PageRefs)) * unit.pages;
    }
    if UnitMatches(unit, row) {
      var page :| page in Items(Get(row, PageRefs)) * unit.pages;
    }
  }

  lemma MatchedIdMeans(units: seq<Unit>, row: Row, id: string)
    ensures id in MatchedUnits(units, row) <==> exists unit :: unit in units && unit.id == id && RowShows(row, unit)
  {
    hide UnitMatches, RowShows;
    forall unit
      ensures UnitMatches(unit, row) <==> RowShows(row, unit)
    {
      RowShowsMeans(row, unit);
    }
    if unit :| unit in units && unit.id == id && RowShows(row, unit) {
      var i :| 0 <= i < |units| && units[i] == unit;
      assert UnitMatches(units[i], row);
    }
  }

  lemma CoveredIdMeans(c: LegacyCase, rows: seq<Row>, k: nat, id: string)
    ensures id in CoveredThrough(UnitsByRank(c.units, rows), k)
       <==> exists unit :: unit in c.units && unit.id == id && Shown(rows, k, unit)
  {
    hide MatchedUnits, RowShows;
    var byRank := UnitsByRank(c.units, rows);
    var n := Min(k, |byRank|);
    SM.CoveredHolds(byRank[..n], id);
    forall i | 0 <= i < n
      ensures id in byRank[i] <==> exists unit :: unit in c.units && unit.id == id && RowShows(rows[i], unit)
    {
      MatchedIdMeans(c.units, rows[i], id);
    }
    hide UnitsByRank;
    if id in CoveredThrough(byRank, k) {
      var i :| 0 <= i < n && id in byRank[..n][i];
      var unit :| unit in c.units && unit.id == id && RowShows(rows[i], unit);
      assert Shown(rows, k, unit);
    }
    if unit :| unit in c.units && unit.id == id && Shown(rows, k, unit) {
      var i :| 0 <= i < k && i < |rows| && RowShows(rows[i], unit);
      assert id in byRank[..n][i];
    }
  }

  lemma IdIsOneUnits(c: LegacyCase, unit: Unit, other: Unit)
    requires c.Valid() && unit in c.units && other in c.units && unit.id == other.id
    ensures unit == other
  {
    var i :| 0 <= i < |c.units| && c.units[i] == unit;
    var j :| 0 <= j < |c.units| && c.units[j] == other;
  }

  lemma CompleteMeans(c: LegacyCase, rows: seq<Row>, k: nat)
    requires c.Valid() && c.policy != NONE
    ensures Complete(UnitsByRank(c.units, rows), c.Ids(), c.policy, k) <==> Completed(c, rows, k)
  {
    hide UnitsByRank, CoveredThrough, Shown;
    var covered := CoveredThrough(UnitsByRank(c.units, rows), k);
    forall id
      ensures id in covered <==> exists unit :: unit in c.units && unit.id == id && Shown(rows, k, unit)
    {
      CoveredIdMeans(c, rows, k, id);
    }
    if c.policy == ALL && c.Ids() <= covered {
      forall unit | unit in c.units
        ensures Shown(rows, k, unit)
      {
        assert unit.id in c.Ids();
        var other :| other in c.units && other.id == unit.id && Shown(rows, k, other);
        IdIsOneUnits(c, unit, other);
      }
    }
    if c.policy == ALL && Completed(c, rows, k) {
      forall id | id in c.Ids()
        ensures id in covered
      {
        var i :| 0 <= i < |c.units| && c.units[i].id == id;
        assert c.units[i] in c.units;
      }
    }
    if covered != {} {
      var id :| id in covered;
    }
    if unit :| unit in c.units && Shown(rows, k, unit) {
      assert unit.id in covered;
    }
  }

  // ---------------------------------------------------------------- the score

  /** The units covered, and the first row that shows one. */
  lemma LegacyCoverageMeans(c: LegacyCase, rows: seq<Row>, path: string, topK: nat)
    requires topK >= 1
    ensures var score := LegacyScoreRows(c, rows, path, topK);
            && (forall id :: id in score.covered <==> exists unit :: unit in c.units && unit.id == id && Shown(rows, |rows|, unit))
            && (score.firstMatchedRank.Some? ==>
                  var r := score.firstMatchedRank.value;
                  1 <= r <= |rows| && SomeShown(c, rows, r) && !SomeShown(c, rows, r - 1))
            && (score.firstMatchedRank.None? ==> !SomeShown(c, rows, |rows|))
  {
    hide CompletionRankOf, LegacyHit, Shown, CoveredThrough, UnitsByRank, FirstMatch;
    var byRank := UnitsByRank(c.units, rows);
    CoveredIsAll(byRank);
    forall id
      ensures id in CoveredThrough(byRank, |rows|)
         <==> exists unit :: unit in c.units && unit.id == id && Shown(rows, |rows|, unit)
    {
      CoveredIdMeans(c, rows, |rows|, id);
    }
    forall k: nat | k <= |rows|
      ensures SomeShown(c, rows, k) <==> FirstMatch(byRank).Some? && FirstMatch(byRank).value <= k
    {
      SomeShownMeans(c, rows, k);
    }
    hide SomeShown;
  }

  lemma CoveredIsAll(byRank: seq<set<string>>)
    ensures CoveredThrough(byRank, |byRank|) == Covered(byRank)
  {
    assert byRank[..|byRank|] == byRank;
  }

  lemma SomeShownMeans(c: LegacyCase, rows: seq<Row>, k: nat)
    requires k <= |rows|
    ensures SomeShown(c, rows, k)
       <==> FirstMatch(UnitsByRank(c.units, rows)).Some? && FirstMatch(UnitsByRank(c.units, rows)).value <= k
  {
    hide Shown, CoveredThrough, UnitsByRank, FirstMatch;
    var byRank := UnitsByRank(c.units, rows);
    CoverageIffMatch(byRank, k);
    forall id
      ensures id in CoveredThrough(byRank, k)
         <==> exists unit :: unit in c.units && unit.id == id && Shown(rows, k, unit)
    {
      CoveredIdMeans(c, rows, k, id);
    }
    if unit :| unit in c.units && Shown(rows, k, unit) {
      assert unit.id in CoveredThrough(byRank, k);
    }
    if CoveredThrough(byRank, k) != {} {
      var id :| id in CoveredThrough(byRank, k);
    }
  }

  /** The least number of rows that completes the case, at any depth, and its reciprocal. */
  lemma LegacyRankMeans(c: LegacyCase, rows: seq<Row>, path: string, topK: nat)
    requires c.Valid() && topK >= 1
    ensures var score := LegacyScoreRows(c, rows, path, topK);
            && (c.policy == NONE ==> score.completionRank.None?)
            && (score.completionRank.None? ==> score.mrr == 0.0 && (c.policy != NONE ==> !Completed(c, rows, |rows|)))
            && (score.completionRank.Some? ==>
                  var r := score.completionRank.value;
                  && 1 <= r <= |rows| && Completed(c, rows, r) && (forall k :: 1 <= k < r ==> !Completed(c, rows, k))
                  && score.mrr * r as real == 1.0)
  {
    hide UnitsByRank, Covered, FirstMatch, LegacyHit, Complete, Completed, LegacyCase.Valid;
    var byRank, rank := UnitsByRank(c.units, rows), LegacyScoreRows(c, rows, path, topK).completionRank;
    if c.policy != NONE {
      forall k: nat | k <= |rows|
        ensures Complete(byRank, c.Ids(), c.policy, k) <==> Completed(c, rows, k)
      {
        CompleteMeans(c, rows, k);
      }
      NotCompletedByNothing(c, rows);
    }
    if rank.Some? {
      OverThenTimes(1.0, rank.value as real);
    }
  }

  lemma NotCompletedByNothing(c: LegacyCase, rows: seq<Row>)
    requires c.Valid() && c.policy != NONE
    ensures !Completed(c, rows, 0)
  {
    assert !Shown(rows, 0, c.units[0]);
    hide RowShows;
  }

  /** Hits, counts and verdicts. */
  lemma LegacyVerdictsMean(c: LegacyCase, rows: seq<Row>, path: string, topK: nat)
    requires c.Valid() && topK >= 1
    ensures var score := LegacyScoreRows(c, rows, path, topK);
            && score.wrongProduct == |set i | 0 <= i < Min(topK, |rows|) && Get(rows[i], ExactSalesCode) != Str(c.product)|
            && (score.executionContractPassed <==> c.expectedPath == Str(path))
            && (c.policy == NONE ==>
                  (score.passed <==> rows == []) && score.hitAt1 == score.hitAt3 == score.hitAt5 == 0.0)
            && (c.policy != NONE ==>
                  && (score.passed <==> Completed(c, rows, topK))
                  && score.hitAt1 == (if Completed(c, rows, 1) then 1.0 else 0.0)
                  && score.hitAt3 == (if Completed(c, rows, Min(3, topK)) then 1.0 else 0.0)
                  && score.hitAt5 == (if Completed(c, rows, Min(5, topK)) then 1.0 else 0.0))
  {
    hide UnitsByRank, Covered, FirstMatch, Complete, Completed, CompletionRankOf, LegacyCase.Valid, Count;
    if c.policy != NONE {
      CompleteMeans(c, rows, 1);
      CompleteMeans(c, rows, Min(3, topK));
      CompleteMeans(c, rows, Min(5, topK));
      CompleteMeans(c, rows, topK);
    }
    NoneNeverCompletes(UnitsByRank(c.units, rows), c.Ids());
    WrongProductsCounted(c.product, rows, Min(topK, |rows|));
  }

  lemma NoneNeverCompletes(byRank: seq<set<string>>, ids: set<string>)
    ensures forall k: nat :: !Complete(byRank, ids, NONE, k)
  {
  }

  lemma WrongProductsCounted(product: string, rows: seq<Row>, n: nat)
    requires n <= |rows|
    ensures Count((row: Row) => Get(row, ExactSalesCode) != Str(product), rows[..n])
         == |set i | 0 <= i < n && Get(rows[i], ExactSalesCode) != Str(product)|
  {
    hide Get, Count;
    var wrong := (row: Row) => Get(row, ExactSalesCode) != Str(product);
    SM.CountIsCardinality(wrong, rows[..n]);
    assert SM.Positions(wrong, rows[..n]) == set i | 0 <= i < n && Get(rows[i], ExactSalesCode) != Str(product);
  }

  // ---------------------------------------------------------------- the entry point

  ghost predicate CarriesLegacy(row: Row) {
    exists field :: field in row && field in {Other("expected_evidence"), Other("expected_no_evidence")}
  }

  ghost predicate CarriesGroups(row: Row) {
    exists field ::
      field in row && field in {RequiredEvidenceGroupIds, SupportingEvidenceGroupIds, ExpectedRetrievalOutcome}
  }

  /** A row is scored by the one contract whose fields it carries; a v2 row also needs a registry. */
  lemma DispatchMeans(row: Row, ranked: seq<Row>, entries: Option<seq<Entry>>, observation: Observation, topK: int)
    ensures var r := ScoreGoldCase(row, ranked, entries, observation, topK);
            && (CarriesLegacy(row) && CarriesGroups(row) ==> r == Failure(BothContracts))
            && (!CarriesLegacy(row) && !CarriesGroups(row) ==> r == Failure(NeitherContract))
            && (CarriesGroups(row) && !CarriesLegacy(row) && entries.None? ==> r == Failure(RegistryAbsent))
            && (forall score :: r == Success(V2(score)) <==>
                  && CarriesGroups(row) && !CarriesLegacy(row) && entries.Some?
                  && ScoreCase(row, ranked, entries.value, observation, topK, {"EXPERIMENT_ONLY"}, {"TEXT_AND_VISUAL_VERIFIED"})
                       == Success(score))
            && (forall score :: r == Success(V1(score)) <==>
                  && CarriesLegacy(row) && !CarriesGroups(row)
                  && LegacyScoreCase(row, ranked, observation.path, observation.queries, topK) == Success(score))
  {
    hide ScoreCase, LegacyScoreCase;
    if CarriesLegacy(row) {
      var field :| field in row && field in {Other("expected_evidence"), Other("expected_no_evidence")};
    }
    if CarriesGroups(row) {
      var field :|
        field in row && field in {RequiredEvidenceGroupIds, SupportingEvidenceGroupIds, ExpectedRetrievalOutcome};
    }
    assert HasV1Field(row) <==> CarriesLegacy(row);
    assert HasV2Field(row) <==> CarriesGroups(row);
  }
}
