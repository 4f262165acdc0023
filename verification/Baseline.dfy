/** One local baseline run: the execution path of every case, its score and the run summary. */
module Baseline {
  import opened Collections
  import opened Json
  import opened Ranking
  import opened Scoring
  import L = LegacyScoring

  const LOCAL_DENSE_QUERY := "LOCAL_DENSE_QUERY"
  const LOCAL_POLICY_SIMULATION := "LOCAL_POLICY_SIMULATION"

  /** What the run is given besides the cases; similarity and argsort stand for the embedding model and NumPy. */
  datatype Setup = Setup(
    corpus: seq<Row>,
    entries: seq<Entry>,
    policyService: Option<Row -> string>,
    similarity: (Row, Row) -> real,
    argsort: seq<real> -> seq<nat>,
    threshold: real,
    topK: int)
  {
    ghost predicate Valid() {
      forall scores :: IsArgsort(scores, argsort(scores))
    }
  }

  /** What the run records for one case. */
  datatype CaseResult = CaseResult(
    outcome: Json,
    expectedPath: Json,
    actualPath: string,
    queries: nat,
    rankedCount: nat,
    semanticQuality: bool,
    score: Score)

  predicate IsBlockPath(path: Json) {
    Member(path, POLICY_BLOCK_PATHS)
  }

  function Candidates(corpus: seq<Row>, product: Json): seq<Row> {
    if corpus == [] then []
    else
      Candidates(corpus[..|corpus| - 1], product)
      + if Get(corpus[|corpus| - 1], ExactSalesCode) == product then [corpus[|corpus| - 1]] else []
  }

  function ScoresOf(setup: Setup, row: Row, candidates: seq<Row>): (scores: seq<real>)
    ensures |scores| == |candidates|
  {
    seq(|candidates|, i requires 0 <= i < |candidates| => setup.similarity(row, candidates[i]))
  }

  function Wrap(hits: seq<Hit<Row>>): (rows: seq<Row>)
    ensures |rows| == |hits|
  {
    seq(|hits|, i requires 0 <= i < |hits| => map[Chunk := Obj(hits[i].chunk), Other("score") := Float(hits[i].score)])
  }

  /** The dense ranking of one case. */
  ghost function DenseRanking(setup: Setup, row: Row): seq<Hit<Row>>
    requires setup.Valid()
  {
    var candidates := Candidates(setup.corpus, Get(row, ProductModelCode));
    var scores := ScoresOf(setup, row, candidates);
    StopAt(Eligible(Arrange(Pair(candidates, scores), setup.argsort(scores)), setup.threshold), setup.topK)
  }

  datatype Execution = Execution(path: string, queries: nat, ranked: seq<Row>)

  /** Which path a case takes: the policy service's answer, the simulation marker, or a local dense query. */
  ghost function ExecutionOf(setup: Setup, row: Row): Execution
    requires setup.Valid()
  {
    if setup.policyService.Some? && setup.policyService.value(row) != PGVECTOR_QUERY then
      Execution(setup.policyService.value(row), 0, [])
    else if setup.policyService.None? && IsBlockPath(Get(row, ExpectedExecutionPath)) then
      Execution(LOCAL_POLICY_SIMULATION, 0, [])
    else
      Execution(LOCAL_DENSE_QUERY, 1, Wrap(DenseRanking(setup, row)))
  }

  method Execute(setup: Setup, row: Row) returns (execution: Execution)
    requires setup.Valid()
    ensures execution == ExecutionOf(setup, row)
  {
    if setup.policyService.Some? {
      var observed := setup.policyService.value(row);
      if observed != PGVECTOR_QUERY {
        return Execution(observed, 0, []);
      }
    } else if IsBlockPath(Get(row, ExpectedExecutionPath)) {
      return Execution(LOCAL_POLICY_SIMULATION, 0, []);
    }
    var candidates := Candidates(setup.corpus, Get(row, ProductModelCode));
    var ranked := [];
    var scores := ScoresOf(setup, row, candidates);
    ranked := RankDense(candidates, scores, setup.argsort(scores), setup.threshold, setup.topK);
    execution := Execution(LOCAL_DENSE_QUERY, 1, Wrap(ranked));
  }

  function SemanticQuality(row: Row, score: Score, rankedCount: nat): bool {
    if IsBlockPath(Get(row, ExpectedExecutionPath)) then score.policyBlockSuccess == Some(true)
    else if Get(row, ExpectedRetrievalOutcome) == Str("NO_EVIDENCE") then rankedCount == 0
    else score.semanticPassed == Some(true) && score.counts.invalidTopK == 0
  }

  /** The scorer rejects the case, or scores it by the first contract, whose rows lack the fields recorded next. */
  datatype RunError = Rejected(error: L.GoldError) | FieldMissing

  function Record(row: Row, execution: Execution, scoring: Result<L.GoldScore, L.GoldError>)
    : Result<CaseResult, RunError>
  {
    match scoring
    case Failure(error) => Failure(Rejected(error))
    case Success(V1(_)) => Failure(FieldMissing)
    case Success(V2(score)) =>
      Success(CaseResult(Get(row, ExpectedRetrievalOutcome), Get(row, ExpectedExecutionPath), execution.path,
                         execution.queries, |execution.ranked|,
                         SemanticQuality(row, score, |execution.ranked|), score))
  }

  ghost function ResultOf(setup: Setup, row: Row): Result<CaseResult, RunError>
    requires setup.Valid()
  {
    var execution := ExecutionOf(setup, row);
    Record(row, execution,
           L.ScoreGoldCase(row, execution.ranked, Some(setup.entries), Observation(execution.path, execution.queries),
                           setup.topK))
  }

  /** The results of a whole run: one per case, in order. */
  ghost predicate IsRun(setup: Setup, cases: seq<Row>, results: seq<CaseResult>)
    requires setup.Valid()
  {
    && |results| == |cases|
    && forall i :: 0 <= i < |cases| ==> ResultOf(setup, cases[i]) == Success(results[i])
  }

  method RunCases(setup: Setup, cases: seq<Row>) returns (r: Result<seq<CaseResult>, RunError>)
    requires setup.Valid()
    ensures r.Success? ==> IsRun(setup, cases, r.value)
    ensures r.Failure? ==> exists i :: 0 <= i < |cases|
                             && ResultOf(setup, cases[i]) == Failure(r.error)
                             && forall j :: 0 <= j < i ==> ResultOf(setup, cases[j]).Success?
  {
    hide ExecutionOf, L.ScoreGoldCase, SemanticQuality;
    var results := [];
    for i := 0 to |cases|
      invariant IsRun(setup, cases[..i], results)
    {
      var row := cases[i];
      var execution := Execute(setup, row);
      var scoring := L.ScoreGoldCase(row, execution.ranked, Some(setup.entries),
                                     Observation(execution.path, execution.queries), setup.topK);
      var result := Record(row, execution, scoring);
      assert result == ResultOf(setup, row);
      if result.Failure? {
        assert forall j :: 0 <= j < i ==> cases[..i][j] == cases[j];
        return Failure(result.error);
      }
      results := results + [result.value];
      assert cases[..i + 1] == cases[..i] + [row];
    }
    assert cases[..|cases|] == cases;
    r := Success(results);
  }

  // ---------------------------------------------------------------- summary

  predicate IsEvidence(r: CaseResult) {
    r.outcome == Str("EVIDENCE")
  }

  predicate IsAbsence(r: CaseResult) {
    r.outcome == Str("NO_EVIDENCE") && r.expectedPath == Str(PGVECTOR_QUERY)
  }

  predicate IsBlock(r: CaseResult) {
    IsBlockPath(r.expectedPath)
  }

  datatype Summary = Summary(
    cases: nat,
    evidence: nat,
    absence: nat,
    blocks: nat,
    qualityPassed: nat,
    executionPassed: nat,
    scorerPassed: nat,
    absenceEmpty: nat,
    blockPassed: nat,
    queries: nat)

  function TotalQueries(results: seq<CaseResult>): nat {
    if results == [] then 0 else results[0].queries + TotalQueries(results[1..])
  }

  function BuildSummary(results: seq<CaseResult>): Summary {
    Summary(
      |results|,
      Count(IsEvidence, results),
      Count(IsAbsence, results),
      Count(IsBlock, results),
      Count((r: CaseResult) => r.semanticQuality, results),
      Count((r: CaseResult) => r.score.executionContractPassed, results),
      Count((r: CaseResult) => r.score.passed, results),
      Count((r: CaseResult) => IsAbsence(r) && r.rankedCount == 0, results),
      Count((r: CaseResult) => IsBlock(r) && r.score.policyBlockSuccess == Some(true), results),
      TotalQueries(results))
  }

  // ---------------------------------------------------------------- single results

  lemma PathsAreDistinct()
    ensures PGVECTOR_QUERY !in POLICY_BLOCK_PATHS
    ensures PGVECTOR_QUERY != LOCAL_DENSE_QUERY && PGVECTOR_QUERY != LOCAL_POLICY_SIMULATION
    ensures LOCAL_DENSE_QUERY !in POLICY_BLOCK_PATHS && LOCAL_POLICY_SIMULATION !in POLICY_BLOCK_PATHS
    ensures Str("EVIDENCE") != Str("NO_EVIDENCE")
  {
    assert forall path :: path in POLICY_BLOCK_PATHS ==> path[0] == 'P' && path[1] == 'O';
    assert PGVECTOR_QUERY[1] == 'G' && LOCAL_DENSE_QUERY[0] == 'L' && LOCAL_POLICY_SIMULATION[0] == 'L';
    assert |"EVIDENCE"| != |"NO_EVIDENCE"|;
  }

  /** The case ran a local dense query rather than being stopped before the search. */
  predicate Searches(setup: Setup, row: Row) {
    if setup.policyService.Some? then setup.policyService.value(row) == PGVECTOR_QUERY
    else !IsBlockPath(Get(row, ExpectedExecutionPath))
  }

  /** The policy service observed exactly the block the case expects. */
  predicate ObservesExpectedBlock(setup: Setup, row: Row) {
    && setup.policyService.Some?
    && IsBlockPath(Get(row, ExpectedExecutionPath))
    && Get(row, ExpectedExecutionPath) == Str(setup.policyService.value(row))
  }

  /** The scorer's verdicts, from the contract, the observation and whether anything was ranked. */
  lemma ScoreVerdicts(contract: Contract, gate: Gate, owner: map<string, string>, rows: seq<Row>,
                      observation: Observation, topK: nat)
    requires contract.Valid()
    ensures var score := ScoreRows(contract, gate, owner, rows, observation, topK);
            var pathMatches := observation.path == contract.expectedPath;
            var isBlock := contract.outcome == NO_EVIDENCE && contract.expectedPath != PGVECTOR_QUERY;
            && score.executionContractPassed
               == (pathMatches && if isBlock then observation.queries == 0 else observation.queries >= 1)
            && (contract.outcome == EVIDENCE ==>
                  score.passed == (score.executionContractPassed && score.semanticPassed == Some(true)
                                   && score.counts.invalidTopK == 0))
            && (contract.outcome == NO_EVIDENCE ==> score.passed == (score.executionContractPassed && rows == []))
            && (isBlock ==> score.policyBlockSuccess == Some(score.passed))
  {
    hide MatchedByRank, MatchedChildren, CompletionRankOf, CountDefects, HitAt, RecallAt, Covered;
  }

  lemma ReadCaseKeepsTexts(row: Row)
    requires ReadCase(row).Success?
    ensures var contract := ReadCase(row).value;
            && contract.Valid()
            && Get(row, ExpectedExecutionPath) == Str(contract.expectedPath)
            && (contract.outcome == EVIDENCE <==> Get(row, ExpectedRetrievalOutcome) == Str("EVIDENCE"))
            && (contract.outcome == NO_EVIDENCE <==> Get(row, ExpectedRetrievalOutcome) == Str("NO_EVIDENCE"))
  {
    PathsAreDistinct();
    assert ReadOutcome(Get(row, ExpectedRetrievalOutcome)).Success?;
    hide ReadList, ReadPolicy, ReadText;
  }

  /** A recorded result carries the score of the second contract. */
  lemma ResultIsScored(setup: Setup, row: Row, r: CaseResult)
    requires setup.Valid() && ResultOf(setup, row) == Success(r)
    ensures var execution := ExecutionOf(setup, row);
            && ScoreCase(row, execution.ranked, setup.entries, Observation(execution.path, execution.queries),
                         setup.topK, DEFAULT_ALLOWED_USE, DEFAULT_VERIFIED) == Success(r.score)
            && r == CaseResult(Get(row, ExpectedRetrievalOutcome), Get(row, ExpectedExecutionPath), execution.path,
                               execution.queries, |execution.ranked|,
                               SemanticQuality(row, r.score, |execution.ranked|), r.score)
  {
    hide ExecutionOf, ScoreCase, L.LegacyScoreCase, SemanticQuality;
  }

  /** The three kinds are exhaustive and exclusive on scored cases. */
  lemma OneKind(setup: Setup, row: Row, r: CaseResult)
    requires setup.Valid() && ResultOf(setup, row) == Success(r)
    ensures (if IsEvidence(r) then 1 else 0) + (if IsAbsence(r) then 1 else 0) + (if IsBlock(r) then 1 else 0) == 1
    ensures r.expectedPath == Get(row, ExpectedExecutionPath)
  {
    hide ExecutionOf, SemanticQuality, ScoreRows, BuildRegistry, ResultOf;
    ResultIsScored(setup, row, r);
    assert ReadCase(row).Success?;
    ReadCaseKeepsTexts(row);
    PathsAreDistinct();
    hide ReadCase, ScoreCase;
  }

  /** The execution contract is met exactly by a block the policy service observed as expected. */
  lemma ExecutionPassedIff(setup: Setup, row: Row, r: CaseResult)
    requires setup.Valid() && ResultOf(setup, row) == Success(r)
    ensures r.score.executionContractPassed <==> ObservesExpectedBlock(setup, row)
    ensures r.score.passed <==> r.score.executionContractPassed
    ensures IsBlock(r) ==> (r.score.policyBlockSuccess == Some(true) <==> ObservesExpectedBlock(setup, row))
    ensures IsBlock(r) ==> r.semanticQuality == (r.score.policyBlockSuccess == Some(true))
    ensures IsAbsence(r) ==> r.semanticQuality == (r.rankedCount == 0)
  {
    hide ResultOf;
    var execution := ExecutionOf(setup, row);
    ResultIsScored(setup, row, r);
    ExecutionShape(setup, row);
    var contract := ReadCase(row).value;
    var registry := Admit(contract, setup.entries).value;
    var gate := GateOf(contract, DEFAULT_ALLOWED_USE, DEFAULT_VERIFIED);
    ScoreVerdicts(contract, gate, registry.owner, CorpusRows(execution.ranked),
                  Observation(execution.path, execution.queries), setup.topK);
    ReadCaseKeepsTexts(row);
    OneKind(setup, row, r);
    PathsAreDistinct();
    hide ExecutionOf, ScoreRows, Admit, ReadCase;
  }

  lemma ExecutionShape(setup: Setup, row: Row)
    requires setup.Valid()
    ensures var execution := ExecutionOf(setup, row);
            if Searches(setup, row) then execution.path == LOCAL_DENSE_QUERY && execution.queries == 1
            else
              && execution.queries == 0 && execution.ranked == []
              && execution.path == if setup.policyService.Some? then setup.policyService.value(row)
                                   else LOCAL_POLICY_SIMULATION
  {
    hide DenseRanking;
  }

  // ---------------------------------------------------------------- what a search ranks

  /** The score of corpus row p for the case. */
  ghost function ScoreAt(setup: Setup, row: Row, p: int): real {
    if 0 <= p < |setup.corpus| then setup.similarity(row, setup.corpus[p]) else 0.0
  }

  /** Corpus row p is of the case's product and scores at or above the threshold. */
  ghost predicate IsEligible(setup: Setup, row: Row, p: int) {
    && 0 <= p < |setup.corpus|
    && Get(setup.corpus[p], ExactSalesCode) == Get(row, ProductModelCode)
    && ScoreAt(setup, row, p) >= setup.threshold
  }

  ghost function EligibleRows(setup: Setup, row: Row): set<int> {
    set p | 0 <= p < |setup.corpus| && IsEligible(setup, row, p)
  }

  /** Each ranked row holds the corpus row at its position, with its score. */
  ghost predicate WrapsRows(setup: Setup, row: Row, ranked: seq<Row>, at: seq<int>) {
    && |at| == |ranked|
    && forall i :: 0 <= i < |at| ==>
         && 0 <= at[i] < |setup.corpus|
         && ranked[i] == map[Chunk := Obj(setup.corpus[at[i]]), Other("score") := Float(ScoreAt(setup, row, at[i]))]
  }

  ghost predicate ScoresDescend(setup: Setup, row: Row, at: seq<int>) {
    forall i, j :: 0 <= i < j < |at| ==> ScoreAt(setup, row, at[i]) >= ScoreAt(setup, row, at[j])
  }

  /** The ranking wraps distinct eligible corpus rows, the ones at `at`, and leaves out no better one. */
  ghost predicate RanksTheBest(setup: Setup, row: Row, ranked: seq<Row>, at: seq<int>) {
    && WrapsRows(setup, row, ranked, at) && NoDuplicates(at)
    && (forall i :: 0 <= i < |at| ==> IsEligible(setup, row, at[i]))
    && ScoresDescend(setup, row, at)
    && (forall i, p :: 0 <= i < |at| && IsEligible(setup, row, p) && p !in at ==>
          ScoreAt(setup, row, p) <= ScoreAt(setup, row, at[i]))
  }

  /** Where the candidates stand in the corpus. */
  ghost function CandidatePositions(corpus: seq<Row>, product: Json): seq<int> {
    if corpus == [] then []
    else
      var n := |corpus| - 1;
      CandidatePositions(corpus[..n], product) + if Get(corpus[n], ExactSalesCode) == product then [n] else []
  }

  /** The candidates are the corpus rows of the product, each at its position. */
  ghost predicate StandAt(corpus: seq<Row>, product: Json, candidates: seq<Row>, at: seq<int>) {
    && |at| == |candidates| && NoDuplicates(at)
    && (forall i :: 0 <= i < |at| ==> 0 <= at[i] < |corpus| && candidates[i] == corpus[at[i]])
    && (forall p :: p in at <==> 0 <= p < |corpus| && Get(corpus[p], ExactSalesCode) == product)
  }

  lemma StandStep(rest: seq<Row>, last: Row, product: Json, candidates: seq<Row>, at: seq<int>)
    requires StandAt(rest, product, candidates, at)
    ensures var corpus := rest + [last];
            if Get(last, ExactSalesCode) == product then StandAt(corpus, product, candidates + [last], at + [|rest|])
            else StandAt(corpus, product, candidates, at)
  {
    hide Get;
    assert forall p :: 0 <= p < |rest| ==> (rest + [last])[p] == rest[p];
  }

  lemma {:induction false} CandidatesStandAt(corpus: seq<Row>, product: Json)
    ensures StandAt(corpus, product, Candidates(corpus, product), CandidatePositions(corpus, product))
  {
    hide Get;
    if corpus != [] {
      hide StandAt;
      var rest, last := corpus[..|corpus| - 1], corpus[|corpus| - 1];
      assert corpus == rest + [last];
      CandidatesStandAt(rest, product);
      StandStep(rest, last, product, Candidates(rest, product), CandidatePositions(rest, product));
      assert CandidatePositions(rest, product) + [] == CandidatePositions(rest, product);
      assert Candidates(rest, product) + [] == Candidates(rest, product);
    }
  }

  /** Position `i` of the ranking order, as a corpus position. */
  ghost function Placed(at: seq<int>, order: seq<nat>, n: nat): (placed: seq<int>)
    requires n <= |order| && forall i :: 0 <= i < |order| ==> order[i] < |at|
    ensures |placed| == n && forall i :: 0 <= i < n ==> placed[i] == at[order[i]]
  {
    seq(n, i requires 0 <= i < n => at[order[i]])
  }

  lemma PlacedIsDistinct(at: seq<int>, order: seq<nat>, n: nat)
    requires n <= |order| && NoDuplicates(at) && NoDuplicates(order)
    requires forall i :: 0 <= i < |order| ==> order[i] < |at|
    ensures NoDuplicates(Placed(at, order, n))
  {
  }

  /** Every candidate has a place in the order. */
  lemma EveryPositionIsPlaced(at: seq<int>, order: seq<nat>, p: int) returns (i: nat)
    requires |order| == |at| && NoDuplicates(order) && forall i :: 0 <= i < |order| ==> order[i] < |order|
    requires p in at
    ensures i < |order| && at[order[i]] == p
  {
    OrderNamesEveryIndex(order);
    PermutationKeepsMembers(order, Range(|order|));
    var k: nat :| k < |at| && at[k] == p;
    assert Range(|order|)[k] == k;
    assert k in Range(|order|) && k in order;
    i :| 0 <= i < |order| && order[i] == k;
  }

  /** The candidates of a search in ranking order: the eligible ones come first. */
  lemma SearchOrder(setup: Setup, row: Row) returns (placed: seq<int>, n: nat)
    requires setup.Valid()
    ensures NoDuplicates(placed) && n <= |placed|
    ensures forall i :: 0 <= i < |placed| ==> 0 <= placed[i] < |setup.corpus|
    ensures forall p :: IsEligible(setup, row, p) <==> p in placed[..n]
    ensures ScoresDescend(setup, row, placed)
    ensures var k := if setup.topK < 1 then n else Min(setup.topK, n);
            && |DenseRanking(setup, row)| == k
            && forall i :: 0 <= i < k ==>
                 DenseRanking(setup, row)[i]
                 == Hit(setup.corpus[placed[i]], ScoreAt(setup, row, placed[i]))
  {
    hide Candidates, CandidatePositions, Get;
    var product := Get(row, ProductModelCode);
    var candidates, at := Candidates(setup.corpus, product), CandidatePositions(setup.corpus, product);
    CandidatesStandAt(setup.corpus, product);
    var scores := ScoresOf(setup, row, candidates);
    var order := setup.argsort(scores);
    assert IsArgsort(scores, order);
    var arranged := Arrange(Pair(candidates, scores), order);
    ArrangedIsDescending(candidates, scores, order, setup.threshold);
    n := EligibleOfDescending(arranged, setup.threshold);
    placed := Placed(at, order, |order|);
    PlacedIsDistinct(at, order, |order|);
    hide Eligible, Placed, Arrange, Pair;
    forall p
      ensures IsEligible(setup, row, p) <==> p in placed[..n]
    {
      if p in at {
        var i := EveryPositionIsPlaced(at, order, p);
        assert placed[i] == p && arranged[i].score == ScoreAt(setup, row, p);
        assert i < n ==> placed[..n][i] == p;
      }
    }
  }

  /** A case that searches ranks the best eligible rows of its own product, as many as fit. */
  lemma SearchRanksTheBest(setup: Setup, row: Row)
    requires setup.Valid() && Searches(setup, row)
    ensures var ranked := ExecutionOf(setup, row).ranked;
            && (exists at :: RanksTheBest(setup, row, ranked, at))
            && |ranked| == if setup.topK < 1 then |EligibleRows(setup, row)|
                           else Min(setup.topK, |EligibleRows(setup, row)|)
  {
    hide DenseRanking, IsEligible, RanksTheBest;
    var placed, n := SearchOrder(setup, row);
    var k := if setup.topK < 1 then n else Min(setup.topK, n);
    EligibleIsInside(setup, row);
    assert ToSet(placed[..n]) == EligibleRows(setup, row);
    NoDuplicatesCardinality(placed[..n]);
    var ranked := Wrap(DenseRanking(setup, row));
    FirstPlacedAreWrapped(setup, row, placed, k, ranked);
    FirstPlacedAreBest(setup, row, placed, n, k, ranked);
    assert ranked == ExecutionOf(setup, row).ranked;
  }

  lemma FirstPlacedAreWrapped(setup: Setup, row: Row, placed: seq<int>, k: nat, ranked: seq<Row>)
    requires k <= |placed| && |ranked| == k
    requires forall i :: 0 <= i < |placed| ==> 0 <= placed[i] < |setup.corpus|
    requires forall i :: 0 <= i < k ==>
               ranked[i] == map[Chunk := Obj(setup.corpus[placed[i]]),
                                Other("score") := Float(ScoreAt(setup, row, placed[i]))]
    ensures WrapsRows(setup, row, ranked, placed[..k])
  {
    hide ScoreAt;
  }

  lemma FirstPlacedAreEligible(setup: Setup, row: Row, placed: seq<int>, n: nat, k: nat)
    requires NoDuplicates(placed) && ScoresDescend(setup, row, placed) && k <= n <= |placed|
    requires forall p :: p in placed[..n] ==> IsEligible(setup, row, p)
    ensures NoDuplicates(placed[..k]) && ScoresDescend(setup, row, placed[..k])
    ensures forall i :: 0 <= i < k ==> IsEligible(setup, row, placed[..k][i])
  {
    hide IsEligible;
    forall i | 0 <= i < k
      ensures IsEligible(setup, row, placed[..k][i])
    {
      assert placed[..n][i] == placed[..k][i];
    }
  }

  lemma FirstPlacedAreBest(setup: Setup, row: Row, placed: seq<int>, n: nat, k: nat, ranked: seq<Row>)
    requires NoDuplicates(placed) && k <= n <= |placed|
    requires WrapsRows(setup, row, ranked, placed[..k])
    requires forall p :: IsEligible(setup, row, p) <==> p in placed[..n]
    requires ScoresDescend(setup, row, placed)
    ensures RanksTheBest(setup, row, ranked, placed[..k])
  {
    hide IsEligible, ScoreAt, ScoresDescend, NoDuplicates, WrapsRows;
    var at := placed[..k];
    FirstPlacedAreEligible(setup, row, placed, n, k);
    forall i, p | 0 <= i < |at| && IsEligible(setup, row, p) && p !in at
      ensures ScoreAt(setup, row, p) <= ScoreAt(setup, row, at[i])
    {
      LeftOutScoresNoMore(setup, row, placed, n, k, i, p);
    }
  }

  lemma LeftOutScoresNoMore(setup: Setup, row: Row, placed: seq<int>, n: nat, k: nat, i: nat, p: int)
    requires i < k <= n <= |placed| && p in placed[..n] && p !in placed[..k]
    requires ScoresDescend(setup, row, placed)
    ensures ScoreAt(setup, row, p) <= ScoreAt(setup, row, placed[i])
  {
    hide ScoreAt;
    assert placed[..n] == placed[..k] + placed[k..n];
    var j :| 0 <= j < n - k && placed[k..n][j] == p;
    assert placed[k + j] == p;
  }

  lemma EligibleIsInside(setup: Setup, row: Row)
    ensures forall p :: IsEligible(setup, row, p) ==> 0 <= p < |setup.corpus|
  {
  }

  // ---------------------------------------------------------------- whole runs

  lemma {:induction false} CountExactlyOne<T>(p: T -> bool, q: T -> bool, r: T -> bool, s: seq<T>)
    requires forall i :: 0 <= i < |s| ==>
               (if p(s[i]) then 1 else 0) + (if q(s[i]) then 1 else 0) + (if r(s[i]) then 1 else 0) == 1
    ensures Count(p, s) + Count(q, s) + Count(r, s) == |s|
  {
    if s != [] {
      CountExactlyOne(p, q, r, s[1..]);
    }
  }

  /** A count splits into three when every counted entry is counted by exactly one of them. */
  lemma {:induction false} CountOfParts<T>(t: T -> bool, p: T -> bool, q: T -> bool, r: T -> bool, s: seq<T>)
    requires forall i :: 0 <= i < |s| ==>
               (if t(s[i]) then 1 else 0)
               == (if p(s[i]) then 1 else 0) + (if q(s[i]) then 1 else 0) + (if r(s[i]) then 1 else 0)
    ensures Count(t, s) == Count(p, s) + Count(q, s) + Count(r, s)
  {
    if s != [] {
      CountOfParts(t, p, q, r, s[1..]);
    }
  }

  lemma CountsAgree<T>(p: T -> bool, q: T -> bool, s: seq<T>)
    requires forall i :: 0 <= i < |s| ==> p(s[i]) == q(s[i])
    ensures Count(p, s) == Count(q, s)
  {
    CountAtMost(p, q, s);
    CountAtMost(q, p, s);
  }

  /** Evidence, corpus-absence and policy-block counts partition the cases of every completed run. */
  lemma KindsPartitionTheRun(setup: Setup, cases: seq<Row>, results: seq<CaseResult>)
    requires setup.Valid() && IsRun(setup, cases, results)
    ensures var summary := BuildSummary(results);
            summary.evidence + summary.absence + summary.blocks == summary.cases == |cases|
  {
    hide ResultOf;
    forall i | 0 <= i < |results|
      ensures (if IsEvidence(results[i]) then 1 else 0) + (if IsAbsence(results[i]) then 1 else 0)
              + (if IsBlock(results[i]) then 1 else 0) == 1
    {
      OneKind(setup, cases[i], results[i]);
    }
    CountExactlyOne(IsEvidence, IsAbsence, IsBlock, results);
  }

  /**
   * In every completed run the execution-contract, scorer and policy-block counters are one number: how many
   * block cases the policy service observed as expected.
   */
  lemma PassCountersCoincide(setup: Setup, cases: seq<Row>, results: seq<CaseResult>)
    requires setup.Valid() && IsRun(setup, cases, results)
    ensures var summary := BuildSummary(results);
            && summary.executionPassed == summary.scorerPassed == summary.blockPassed
            && summary.executionPassed == Count((row: Row) => ObservesExpectedBlock(setup, row), cases)
            && summary.executionPassed <= summary.blocks
            && (setup.policyService.None? ==> summary.executionPassed == 0)
  {
    var executed := (r: CaseResult) => r.score.executionContractPassed;
    var passed := (r: CaseResult) => r.score.passed;
    var blocked := (r: CaseResult) => IsBlock(r) && r.score.policyBlockSuccess == Some(true);
    var observed := (row: Row) => ObservesExpectedBlock(setup, row);
    forall i | 0 <= i < |results|
      ensures executed(results[i]) == passed(results[i]) == blocked(results[i]) == observed(cases[i])
      ensures executed(results[i]) ==> IsBlock(results[i])
    {
      ExecutionPassedIff(setup, cases[i], results[i]);
      OneKind(setup, cases[i], results[i]);
    }
    hide ResultOf, IsBlock, ObservesExpectedBlock;
    CountsAgree(executed, passed, results);
    CountsAgree(executed, blocked, results);
    CountAtMost(executed, IsBlock, results);
    CountsCorrespond(executed, observed, results, cases);
    if setup.policyService.None? {
      NoServiceObservesNothing(setup, cases);
    }
  }

  lemma NoServiceObservesNothing(setup: Setup, cases: seq<Row>)
    requires setup.policyService.None?
    ensures Count((row: Row) => ObservesExpectedBlock(setup, row), cases) == 0
  {
    CountZeroIffNone((row: Row) => ObservesExpectedBlock(setup, row), cases);
  }

  lemma {:induction false} CountsCorrespond<S, T>(p: S -> bool, q: T -> bool, s: seq<S>, t: seq<T>)
    requires |s| == |t| && forall i :: 0 <= i < |s| ==> p(s[i]) == q(t[i])
    ensures Count(p, s) == Count(q, t)
  {
    if s != [] {
      CountsCorrespond(p, q, s[1..], t[1..]);
    }
  }

  /** The quality counter is the evidence cases passed plus the empty absences plus the blocks passed. */
  lemma QualityIsCountedByKind(setup: Setup, cases: seq<Row>, results: seq<CaseResult>)
    requires setup.Valid() && IsRun(setup, cases, results)
    ensures var summary := BuildSummary(results);
            summary.qualityPassed
            == Count((r: CaseResult) => IsEvidence(r) && r.semanticQuality, results)
               + summary.absenceEmpty + summary.blockPassed
  {
    var quality := (r: CaseResult) => r.semanticQuality;
    var evidence := (r: CaseResult) => IsEvidence(r) && r.semanticQuality;
    var absentEmpty := (r: CaseResult) => IsAbsence(r) && r.rankedCount == 0;
    var blockPassed := (r: CaseResult) => IsBlock(r) && r.score.policyBlockSuccess == Some(true);
    forall i | 0 <= i < |results|
      ensures (if quality(results[i]) then 1 else 0)
              == (if evidence(results[i]) then 1 else 0) + (if absentEmpty(results[i]) then 1 else 0)
                 + (if blockPassed(results[i]) then 1 else 0)
    {
      OneKind(setup, cases[i], results[i]);
      ExecutionPassedIff(setup, cases[i], results[i]);
      hide ResultOf, IsBlock, IsAbsence, IsEvidence, ObservesExpectedBlock;
    }
    hide ResultOf, IsBlock, IsAbsence, IsEvidence, IsRun;
    CountOfParts(quality, evidence, absentEmpty, blockPassed, results);
  }

  /** The vector queries of a run are the cases that were not stopped before the search. */
  lemma {:induction false} QueriesCountSearches(setup: Setup, cases: seq<Row>, results: seq<CaseResult>)
    requires setup.Valid() && IsRun(setup, cases, results)
    ensures TotalQueries(results) == Count((row: Row) => Searches(setup, row), cases)
  {
    if results != [] {
      ExecutionShape(setup, cases[0]);
      ResultIsScored(setup, cases[0], results[0]);
      hide ResultOf, ExecutionOf;
      assert IsRun(setup, cases[1..], results[1..]);
      QueriesCountSearches(setup, cases[1..], results[1..]);
    }
  }
}
