/** What a recorded result says about the case and the rows that were ranked for it. */
module BaselineMeaning {
  import opened Collections
  import opened Json
  import opened Scoring
  import opened Baseline
  import opened ScoreMeaning

  /** Quality, kind by kind: an evidence case is completed by admissible rows only, an absence case ranks nothing, and a
      block is one the policy service observed. */
  lemma QualityMeans(setup: Setup, row: Row, r: CaseResult) returns (s: Setting)
    requires setup.Valid() && ResultOf(setup, row) == Success(r)
    ensures ReadCase(row) == Success(s.contract)
    ensures s.allowedUse == {"EXPERIMENT_ONLY"} && s.verified == {"TEXT_AND_VISUAL_VERIFIED"}
    ensures BuildRegistry(setup.entries).Success? && s.owner == BuildRegistry(setup.entries).value.owner
    ensures ChunksAreObjects(ExecutionOf(setup, row).ranked)
    ensures r.rankedCount == |ExecutionOf(setup, row).ranked| && r.actualPath == ExecutionOf(setup, row).path
    ensures r.queries == ExecutionOf(setup, row).queries
    ensures r.expectedPath == Get(row, ExpectedExecutionPath) && r.outcome == Get(row, ExpectedRetrievalOutcome)
    ensures IsEvidence(r) ==>
              var rows := CorpusRows(ExecutionOf(setup, row).ranked);
              r.semanticQuality <==>
                setup.topK >= 1 && s.Completed(rows, setup.topK)
                && forall i :: 0 <= i < setup.topK && i < |rows| ==> s.IsAdmissible(rows[i])
    ensures IsAbsence(r) ==> (r.semanticQuality <==> r.rankedCount == 0)
    ensures IsBlock(r) ==> (r.semanticQuality <==> ObservesExpectedBlock(setup, row))
  {
    hide ResultOf, ExecutionOf, ReadCase, BuildRegistry, ScoreRows, Setting.Completed, Setting.IsAdmissible, Admit,
         ObservesExpectedBlock;
    ResultIsScored(setup, row, r);
    var execution := ExecutionOf(setup, row);
    s := ScoredCaseHasSetting(row, execution.ranked, setup.entries, Observation(execution.path, execution.queries), setup.topK,
                              DEFAULT_ALLOWED_USE, DEFAULT_VERIFIED);
    hide ScoreCase;
    ExecutionPassedIff(setup, row, r);
    PathsAreDistinct();
    ReadCaseKeepsTexts(row);
    if IsEvidence(r) {
      var observation := Observation(execution.path, execution.queries);
      var rows := CorpusRows(execution.ranked);
      VerdictsMean(s, rows, observation, setup.topK);
      DefectCountsMean(s, rows, observation, setup.topK);
      InvalidZeroMeans(s, rows, setup.topK);
      CountsAreThose(s, rows, observation, setup.topK);
    }
  }

  lemma CountsAreThose(s: Setting, rows: seq<Row>, observation: Observation, topK: nat)
    requires s.contract.Valid()
    ensures ScoreOf(s, rows, observation, topK).counts == CountDefects(s.Gate(), rows[..Min(topK, |rows|)])
  {
    hide CountDefects, MatchedByRank, MatchedChildren, Covered, HitAt, RecallAt, CompletionRankOf;
  }
}
