/** The Gold v1 scorer kept beside v2, and the entry point that chooses between them. */
module LegacyScoring {
  import opened Collections
  import opened Json
  import opened Reals
  import opened Scoring
  import opened ScoringTheorems

  const EXPECTED_EVIDENCE := Other("expected_evidence")
  const EXPECTED_NO_EVIDENCE := Other("expected_no_evidence")
  const EVIDENCE_UNIT_ID := Other("evidence_unit_id")

  datatype LegacyError =
    | PolicyUnsupported
    | ProductAbsent
    | NoEvidenceNotBoolean
    | EvidenceNotObjects
    | NoneNotEmpty
    | EvidenceExpected
    | UnitIdAbsent
    | UnitDocumentAbsent
    | UnitPagesAbsent
    | UnitRepeated
    | PathNotText
    | TopKInvalid
    | QueryCountInvalid
    | ChunkInvalid

  datatype Unit = Unit(id: string, document: string, pages: set<Json>)

  datatype LegacyCase = LegacyCase(product: string, policy: Policy, units: seq<Unit>, expectedPath: Json)
  {
    /** What the reading guarantees. */
    ghost predicate Valid() {
      && (policy == NONE <==> units == [])
      && forall i, j :: 0 <= i < j < |units| ==> units[i].id != units[j].id
    }

    function Ids(): set<string> {
      set i | 0 <= i < |units| :: units[i].id
    }
  }

  predicate AreObjects(j: Json) {
    j.Arr? && forall i :: 0 <= i < |j.items| ==> j.items[i].Obj?
  }

  function ReadUnit(unit: Row): Result<Unit, LegacyError> {
    var id, document, pages := Get(unit, EVIDENCE_UNIT_ID), Get(unit, DocumentId), Get(unit, PageRefs);
    if !IsText(id) then Failure(UnitIdAbsent)
    else if !IsText(document) then Failure(UnitDocumentAbsent)
    else if !pages.Arr? || pages.items == [] then Failure(UnitPagesAbsent)
    else Success(Unit(id.s, document.s, ToSet(pages.items)))
  }

  function UnitIds(units: seq<Unit>): set<string> {
    set i | 0 <= i < |units| :: units[i].id
  }

  function ReadUnits(items: seq<Json>): (r: Result<seq<Unit>, LegacyError>)
    requires forall i :: 0 <= i < |items| ==> items[i].Obj?
    ensures r.Success? ==> |r.value| == |items|
    ensures r.Success? ==> forall i, j :: 0 <= i < j < |r.value| ==> r.value[i].id != r.value[j].id
  {
    if items == [] then Success([])
    else
      var before :- ReadUnits(items[..|items| - 1]);
      var unit :- ReadUnit(items[|items| - 1].fields);
      if unit.id in UnitIds(before) then Failure(UnitRepeated) else Success(before + [unit])
  }

  /** The checks that precede the ranking; the expected path is tested after it. */
  function ReadLegacyCase(row: Row): (r: Result<LegacyCase, LegacyError>)
    ensures r.Success? ==> r.value.Valid()
  {
    var product, policy := Get(row, ProductModelCode), ReadPolicy(Get(row, EvidenceMatchPolicy));
    var noEvidence, expected := Get(row, EXPECTED_NO_EVIDENCE), Get(row, EXPECTED_EVIDENCE);
    var path := if ExpectedExecutionPath in row then row[ExpectedExecutionPath] else Str(PGVECTOR_QUERY);
    if !IsText(product) then Failure(ProductAbsent)
    else if policy.Failure? then Failure(PolicyUnsupported)
    else if !noEvidence.Bool? then Failure(NoEvidenceNotBoolean)
    else if !AreObjects(expected) then Failure(EvidenceNotObjects)
    else if policy.value == NONE && (expected.items != [] || !noEvidence.b) then Failure(NoneNotEmpty)
    else if policy.value != NONE && (expected.items == [] || noEvidence.b) then Failure(EvidenceExpected)
    else
      var units :- ReadUnits(expected.items);
      Success(LegacyCase(product.s, policy.value, units, path))
  }

  // ---------------------------------------------------------------- matching

  function Items(j: Json): set<Json> {
    if j.Arr? then ToSet(j.items) else {}
  }

  /** Unit id, document and at least one page all agree. */
  predicate UnitMatches(unit: Unit, row: Row) {
    && Str(unit.id) in Items(Get(row, EvidenceUnitIds))
    && Get(row, DocumentId) == Str(unit.document)
    && Items(Get(row, PageRefs)) * unit.pages != {}
  }

  function MatchedUnits(units: seq<Unit>, row: Row): set<string> {
    set i | 0 <= i < |units| && UnitMatches(units[i], row) :: units[i].id
  }

  function UnitsByRank(units: seq<Unit>, rows: seq<Row>): (byRank: seq<set<string>>)
    ensures |byRank| == |rows|
    ensures forall i :: 0 <= i < |byRank| ==> byRank[i] == MatchedUnits(units, rows[i])
  {
    seq(|rows|, i requires 0 <= i < |rows| => MatchedUnits(units, rows[i]))
  }

  /** One pass over all rows: every rank is matched, beyond topK too. */
  method MatchRows(units: seq<Unit>, rows: seq<Row>) returns (byRank: seq<set<string>>)
    ensures byRank == UnitsByRank(units, rows)
  {
    byRank := [];
    for i := 0 to |rows|
      invariant byRank == UnitsByRank(units, rows)[..i]
    {
      byRank := byRank + [MatchedUnits(units, rows[i])];
    }
  }

  // ---------------------------------------------------------------- score

  datatype LegacyScore = LegacyScore(
    covered: set<string>,
    hitAt1: real,
    hitAt3: real,
    hitAt5: real,
    completionRank: Option<nat>,
    firstMatchedRank: Option<nat>,
    mrr: real,
    wrongProduct: nat,
    executionContractPassed: bool,
    passed: bool)

  function LegacyHit(byRank: seq<set<string>>, ids: set<string>, policy: Policy, topK: nat, k: nat): real {
    if Complete(byRank, ids, policy, Min(k, topK)) then 1.0 else 0.0
  }

  function FirstMatch(byRank: seq<set<string>>): (r: Option<nat>)
    ensures r.Some? ==> 1 <= r.value <= |byRank| && byRank[r.value - 1] != {}
    ensures r.Some? ==> forall i :: 0 <= i < r.value - 1 ==> byRank[i] == {}
    ensures r.None? ==> forall i :: 0 <= i < |byRank| ==> byRank[i] == {}
  {
    if byRank == [] then None
    else
      var earlier := FirstMatch(byRank[..|byRank| - 1]);
      if earlier.Some? then earlier
      else if byRank[|byRank| - 1] != {} then Some(|byRank|)
      else None
  }

  function LegacyScoreRows(c: LegacyCase, rows: seq<Row>, path: string, topK: nat): LegacyScore
    requires topK >= 1
  {
    var byRank := UnitsByRank(c.units, rows);
    var rank := if c.policy == NONE then None else CompletionRankOf(byRank, c.Ids(), c.policy);
    LegacyScore(
      Covered(byRank),
      LegacyHit(byRank, c.Ids(), c.policy, topK, 1),
      LegacyHit(byRank, c.Ids(), c.policy, topK, 3),
      LegacyHit(byRank, c.Ids(), c.policy, topK, 5),
      rank,
      FirstMatch(byRank),
      if rank.Some? && rank.value > 0 then Over(1.0, rank.value as real) else 0.0,
      Count((row: Row) => Get(row, ExactSalesCode) != Str(c.product), rows[..Min(topK, |rows|)]),
      Str(path) == c.expectedPath,
      if c.policy == NONE then rows == [] else LegacyHit(byRank, c.Ids(), c.policy, topK, topK) == 1.0)
  }

  function LegacyScoreCase(row: Row, ranked: seq<Row>, path: string, queries: int, topK: int)
    : Result<LegacyScore, LegacyError>
  {
    if topK < 1 then Failure(TopKInvalid)
    else if queries < 0 then Failure(QueryCountInvalid)
    else
      var c :- ReadLegacyCase(row);
      if !ChunksAreObjects(ranked) then Failure(ChunkInvalid)
      else if !IsText(c.expectedPath) then Failure(PathNotText)
      else Success(LegacyScoreRows(c, CorpusRows(ranked), path, topK))
  }

  // ---------------------------------------------------------------- one entry point

  datatype GoldScore = V1(legacy: LegacyScore) | V2(score: Score)

  datatype GoldError =
    | BothContracts
    | NeitherContract
    | RegistryAbsent
    | V1Error(legacy: LegacyError)
    | V2Error(error: ScoringError)

  predicate HasV2Field(row: Row) {
    RequiredEvidenceGroupIds in row || SupportingEvidenceGroupIds in row || ExpectedRetrievalOutcome in row
  }

  predicate HasV1Field(row: Row) {
    EXPECTED_EVIDENCE in row || EXPECTED_NO_EVIDENCE in row
  }

  function ScoreGoldCase(row: Row, ranked: seq<Row>, entries: Option<seq<Entry>>, observation: Observation, topK: int)
    : Result<GoldScore, GoldError>
  {
    if HasV1Field(row) && HasV2Field(row) then Failure(BothContracts)
    else if HasV2Field(row) then
      if entries.None? then Failure(RegistryAbsent)
      else
        match ScoreCase(row, ranked, entries.value, observation, topK, DEFAULT_ALLOWED_USE, DEFAULT_VERIFIED)
        case Success(score) => Success(V2(score))
        case Failure(error) => Failure(V2Error(error))
    else if HasV1Field(row) then
      match LegacyScoreCase(row, ranked, observation.path, observation.queries, topK)
      case Success(score) => Success(V1(score))
      case Failure(error) => Failure(V1Error(error))
    else Failure(NeitherContract)
  }

  /** A row either scorer would accept reaches that scorer, and one both would accept is refused. */
  lemma DispatchFollowsTheContract(row: Row, ranked: seq<Row>, entries: Option<seq<Entry>>, observation: Observation,
                                   topK: int)
    ensures var r := ScoreGoldCase(row, ranked, entries, observation, topK);
            && (ReadCase(row).Success? && ReadLegacyCase(row).Success? ==> r == Failure(BothContracts))
            && (r.Success? && r.value.V2? ==> ReadCase(row).Success? && ReadLegacyCase(row).Failure?)
            && (r.Success? && r.value.V1? ==> ReadLegacyCase(row).Success? && ReadCase(row).Failure?)
  {
    if ReadCase(row).Success? {
      assert ReadList(row, RequiredEvidenceGroupIds).Success?;
    }
    hide ReadList, ReadPolicy, ReadText, ReadOutcome, ReadUnits, LegacyScoreRows, ScoreRows, Admit;
  }

  // ---------------------------------------------------------------- what a v1 score means

  lemma CoverageEndsWithTheRows(byRank: seq<set<string>>, k: nat)
    ensures CoveredThrough(byRank, k) == CoveredThrough(byRank, Min(k, |byRank|))
  {
  }

  /** A v1 hit at k means the completion rank exists and is at most k and topK. */
  lemma LegacyHitIffRankInTime(byRank: seq<set<string>>, ids: set<string>, policy: Policy, topK: nat, k: nat)
    requires policy != NONE && ids != {}
    ensures var rank := CompletionRankOf(byRank, ids, policy);
            LegacyHit(byRank, ids, policy, topK, k) == 1.0 <==> rank.Some? && rank.value <= Min(k, topK)
  {
    var m := Min(Min(k, topK), |byRank|);
    var rank := CompletionRankOf(byRank, ids, policy);
    CoverageEndsWithTheRows(byRank, Min(k, topK));
    assert byRank[..0] == [];
    assert !Complete(byRank, ids, policy, 0);
    assert Complete(byRank, ids, policy, m) == Complete(byRank, ids, policy, Min(k, topK));
    if rank.Some? && rank.value <= m {
      CompleteIsMonotone(byRank, ids, policy, rank.value, m);
    }
  }

  /** A v1 case passes exactly when it completes within topK, yet its reciprocal rank counts completion at any depth. */
  lemma LegacyPassAndReciprocalRank(c: LegacyCase, rows: seq<Row>, path: string, topK: nat)
    requires c.Valid() && c.policy != NONE && topK >= 1
    ensures var score := LegacyScoreRows(c, rows, path, topK);
            && (score.passed <==> score.completionRank.Some? && score.completionRank.value <= topK)
            && (score.mrr > 0.0 <==> score.completionRank.Some?)
            && (score.mrr > 0.0 && !score.passed <==> score.completionRank.Some? && score.completionRank.value > topK)
  {
    var byRank := UnitsByRank(c.units, rows);
    assert c.units[0].id in c.Ids();
    LegacyHitIffRankInTime(byRank, c.Ids(), c.policy, topK, topK);
    var rank := CompletionRankOf(byRank, c.Ids(), c.policy);
    hide UnitsByRank, Covered, Over, FirstMatch, Complete;
    if rank.Some? {
      OverSign(1.0, rank.value as real);
    }
  }

  lemma PrefixOfRanks(units: seq<Unit>, rows: seq<Row>, n: nat)
    requires n <= |rows|
    ensures UnitsByRank(units, rows[..n]) == UnitsByRank(units, rows)[..n]
  {
  }

  lemma PrefixCompletes(byRank: seq<set<string>>, ids: set<string>, policy: Policy, n: nat, k: nat)
    requires k <= n <= |byRank|
    ensures Complete(byRank[..n], ids, policy, k) == Complete(byRank, ids, policy, k)
  {
    assert byRank[..n][..k] == byRank[..k];
  }

  /** The completion rank of a prefix is the rank of the whole when it lies inside, and missing otherwise. */
  lemma PrefixRank(byRank: seq<set<string>>, ids: set<string>, policy: Policy, n: nat)
    requires n <= |byRank|
    ensures var rank := CompletionRankOf(byRank, ids, policy);
            CompletionRankOf(byRank[..n], ids, policy) == if rank.Some? && rank.value <= n then rank else None
  {
    hide Complete;
    var rank, short := CompletionRankOf(byRank, ids, policy), CompletionRankOf(byRank[..n], ids, policy);
    if rank.Some? && rank.value <= n {
      PrefixCompletes(byRank, ids, policy, n, rank.value);
    }
    if short.Some? {
      PrefixCompletes(byRank, ids, policy, n, short.value);
    }
  }

  /**
   * Cutting the ranking at topK keeps the verdict, the hits and the wrong-product count of a v1 case; the
   * reciprocal rank stays the same exactly when the case does not complete beyond topK.
   */
  lemma TopKDecidesAllButReciprocalRank(c: LegacyCase, rows: seq<Row>, path: string, topK: nat)
    requires c.Valid() && c.policy != NONE && 1 <= topK <= |rows|
    ensures var full, cut := LegacyScoreRows(c, rows, path, topK), LegacyScoreRows(c, rows[..topK], path, topK);
            && full.passed == cut.passed
            && full.hitAt1 == cut.hitAt1 && full.hitAt3 == cut.hitAt3 && full.hitAt5 == cut.hitAt5
            && full.wrongProduct == cut.wrongProduct
            && (full.mrr == cut.mrr <==> full.completionRank.None? || full.completionRank.value <= topK)
  {
    var byRank := UnitsByRank(c.units, rows);
    PrefixOfRanks(c.units, rows, topK);
    var cut := byRank[..topK];
    assert rows[..topK][..topK] == rows[..topK];
    assert c.units[0].id in c.Ids();
    PrefixRank(byRank, c.Ids(), c.policy, topK);
    PrefixHits(byRank, c.Ids(), c.policy, topK, 1);
    PrefixHits(byRank, c.Ids(), c.policy, topK, 3);
    PrefixHits(byRank, c.Ids(), c.policy, topK, 5);
    PrefixHits(byRank, c.Ids(), c.policy, topK, topK);
    var rank := CompletionRankOf(byRank, c.Ids(), c.policy);
    hide UnitsByRank, Covered, Over, FirstMatch, Complete, CompletionRankOf, LegacyHit;
    if rank.Some? {
      OverSign(1.0, rank.value as real);
    }
  }

  lemma PrefixHits(byRank: seq<set<string>>, ids: set<string>, policy: Policy, topK: nat, k: nat)
    requires policy != NONE && ids != {} && topK <= |byRank|
    ensures LegacyHit(byRank[..topK], ids, policy, topK, k) == LegacyHit(byRank, ids, policy, topK, k)
  {
    PrefixCompletes(byRank, ids, policy, topK, Min(k, topK));
  }

  /** ANY completes at the first matching rank; ALL never before it. */
  lemma CompletionAgainstFirstMatch(byRank: seq<set<string>>, ids: set<string>)
    requires ids != {}
    ensures CompletionRankOf(byRank, ids, ANY) == FirstMatch(byRank)
    ensures var rank := CompletionRankOf(byRank, ids, ALL);
            rank.Some? ==> FirstMatch(byRank).Some? && FirstMatch(byRank).value <= rank.value
  {
    var first := FirstMatch(byRank);
    forall k | 0 <= k <= |byRank|
      ensures CoveredThrough(byRank, k) != {} <==> first.Some? && first.value <= k
    {
      CoverageIffMatch(byRank, k);
    }
    var any, all := CompletionRankOf(byRank, ids, ANY), CompletionRankOf(byRank, ids, ALL);
    hide CoveredThrough, FirstMatch;
    if all.Some? {
      assert ids <= CoveredThrough(byRank, all.value);
      assert CoveredThrough(byRank, all.value) != {};
    }
    if first.Some? {
      assert Complete(byRank, ids, ANY, first.value);
    }
  }

  lemma CoverageIffMatch(byRank: seq<set<string>>, k: nat)
    requires k <= |byRank|
    ensures CoveredThrough(byRank, k) != {} <==> FirstMatch(byRank).Some? && FirstMatch(byRank).value <= k
  {
    hide FirstMatch;
    var prefix := byRank[..k];
    forall i | 0 <= i < k
      ensures prefix[i] <= Covered(prefix)
    {
      assert forall g :: g in prefix[i] ==> g in Covered(prefix);
    }
    if first :| 0 <= first < k && prefix[first] != {} {
      assert byRank[first] != {};
    }
  }

  lemma CoverageGrowsByLast(byRank: seq<set<string>>)
    requires byRank != []
    ensures |Covered(byRank)| <= |Covered(byRank[..|byRank| - 1])| + |byRank[|byRank| - 1]|
  {
    var rest, last := byRank[..|byRank| - 1], byRank[|byRank| - 1];
    assert byRank == rest + [last];
    assert Covered(byRank) == Covered(rest) + last;
  }

  lemma {:induction false} CoverageIsAtMost(byRank: seq<set<string>>, m: nat)
    requires forall i :: 0 <= i < |byRank| ==> |byRank[i]| <= m
    ensures |Covered(byRank)| <= |byRank| * m
  {
    if byRank == [] {
      assert Covered(byRank) == {};
    } else {
      hide Covered;
      var n := |byRank| - 1;
      CoverageIsAtMost(byRank[..n], m);
      CoverageGrowsByLast(byRank);
      assert (n + 1) * m == n * m + m;
    }
  }

  lemma IdsAreCounted(c: LegacyCase)
    requires c.Valid()
    ensures |c.Ids()| == |c.units|
  {
    var ids := seq(|c.units|, i requires 0 <= i < |c.units| => c.units[i].id);
    NoDuplicatesCardinality(ids);
    assert ToSet(ids) == c.Ids() by {
      assert forall i :: 0 <= i < |ids| ==> ids[i] == c.units[i].id;
    }
  }

  /** If no row matches more than m units, completing ALL at rank r takes r * m at least the number of units. */
  lemma AllNeedsEnoughRanks(c: LegacyCase, rows: seq<Row>, m: nat)
    requires c.Valid() && c.policy == ALL
    requires forall i :: 0 <= i < |rows| ==> |MatchedUnits(c.units, rows[i])| <= m
    ensures var rank := CompletionRankOf(UnitsByRank(c.units, rows), c.Ids(), ALL);
            rank.Some? ==> rank.value * m >= |c.units|
  {
    hide MatchedUnits, Covered;
    var byRank := UnitsByRank(c.units, rows);
    var rank := CompletionRankOf(byRank, c.Ids(), ALL);
    if rank.Some? {
      IdsAreCounted(c);
      SubsetCardinality(c.Ids(), CoveredThrough(byRank, rank.value));
      CoverageIsAtMost(byRank[..rank.value], m);
    }
  }

  // ---------------------------------------------------------------- witnesses

  /** A v1 case of one page and these units. */
  function CaseOn(product: string, policy: Policy, ids: seq<string>, document: string): LegacyCase {
    LegacyCase(product, policy, seq(|ids|, i requires 0 <= i < |ids| => Unit(ids[i], document, {Int(1)})),
               Str(PGVECTOR_QUERY))
  }

  /** A row that names these units on that page. */
  function RowOn(ids: seq<string>, document: string): Row {
    map[
      EvidenceUnitIds := Arr(seq(|ids|, i requires 0 <= i < |ids| => Str(ids[i]))),
      DocumentId := Str(document),
      PageRefs := Arr([Int(1)])]
  }

  lemma RowOnMatches(product: string, policy: Policy, ids: seq<string>, document: string)
    ensures MatchedUnits(CaseOn(product, policy, ids, document).units, RowOn(ids, document)) == ToSet(ids)
    ensures CaseOn(product, policy, ids, document).Ids() == ToSet(ids)
  {
    var units, row := CaseOn(product, policy, ids, document).units, RowOn(ids, document);
    var named := Get(row, EvidenceUnitIds).items;
    assert Int(1) in Items(Get(row, PageRefs)) by {
      assert Get(row, PageRefs).items[0] == Int(1);
    }
    forall i | 0 <= i < |ids|
      ensures UnitMatches(units[i], row)
    {
      assert named[i] == Str(ids[i]);
      assert Int(1) in Items(Get(row, PageRefs)) * units[i].pages;
    }
    assert forall i :: 0 <= i < |ids| ==> units[i].id == ids[i];
  }

  lemma EmptyRowMatchesNothing(units: seq<Unit>)
    ensures MatchedUnits(units, map[]) == {}
  {
  }

  /** Unlike v2, one v1 row can complete every unit at once. */
  lemma OneRowCanCompleteAll(product: string, ids: seq<string>, document: string)
    requires ids != [] && NoDuplicates(ids)
    ensures var c, rows := CaseOn(product, ALL, ids, document), [RowOn(ids, document)];
            c.Valid() && CompletionRankOf(UnitsByRank(c.units, rows), c.Ids(), ALL) == Some(1)
  {
    hide MatchedUnits, RowOn;
    var c, rows := CaseOn(product, ALL, ids, document), [RowOn(ids, document)];
    RowOnMatches(product, ALL, ids, document);
    var byRank := UnitsByRank(c.units, rows);
    assert byRank[..1] == byRank && byRank[0] == ToSet(ids);
    assert Covered(byRank) == byRank[0];
  }

  /** A case completed at rank two, with a bound of one, has a positive reciprocal rank and does not pass. */
  lemma LateCompletionFailsWithPositiveRank(product: string, id: string, document: string, path: string)
    ensures var c, rows := CaseOn(product, ANY, [id], document), [map[], RowOn([id], document)];
            var score := LegacyScoreRows(c, rows, path, 1);
            && c.Valid() && score.completionRank == Some(2)
            && score.mrr > 0.0 && !score.passed
            && LegacyScoreRows(c, rows[..1], path, 1).mrr == 0.0
  {
    hide MatchedUnits, RowOn, Over;
    var c, rows: seq<Row> := CaseOn(product, ANY, [id], document), [map[], RowOn([id], document)];
    RowOnMatches(product, ANY, [id], document);
    EmptyRowMatchesNothing(c.units);
    assert UnitsByRank(c.units, rows) == [{}, ToSet([id])];
    assert id in ToSet([id]);
    RankTwo(c.Ids(), ToSet([id]));
    LegacyPassAndReciprocalRank(c, rows, path, 1);
    PrefixOfRanks(c.units, rows, 1);
    PrefixRank(UnitsByRank(c.units, rows), c.Ids(), ANY, 1);
  }

  lemma RankTwo(ids: set<string>, matched: set<string>)
    requires matched != {}
    ensures CompletionRankOf([{}, matched], ids, ANY) == Some(2)
  {
    var byRank: seq<set<string>> := [{}, matched];
    assert Covered(byRank[..1]) == {};
    assert byRank[..2] == byRank;
    assert Covered(byRank) != {} by {
      var g :| g in byRank[1];
      assert g in Covered(byRank);
    }
    assert !Complete(byRank, ids, ANY, 1) && Complete(byRank, ids, ANY, 2);
  }
}
