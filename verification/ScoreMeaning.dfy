/** What every field of a v2 score says about the ranked rows, in terms of the rows' own fields. */
module ScoreMeaning {
  import opened Collections
  import opened Json
  import opened Scoring
  import opened ScoringTheorems

  /** An admitted case with the row values it allows and the registry's owner index. */
  datatype Setting = Setting(contract: Contract, allowedUse: set<string>, verified: set<string>, owner: map<string, string>)
  {
    function Gate(): Gate {
      GateOf(contract, allowedUse, verified)
    }

    /** A present `source_verification_status` decides alone; only without it does `verification_status` count. */
    ghost predicate IsVerified(row: Row) {
      exists status :: status in verified
        && (SourceVerificationStatus in row ==> row[SourceVerificationStatus] == Str(status))
        && (SourceVerificationStatus !in row ==> VerificationStatus in row && row[VerificationStatus] == Str(status))
    }

    ghost predicate IsForbiddenDocument(row: Row) {
      exists document :: document in contract.forbiddenDocuments && Get(row, DocumentId) == Str(document)
    }

    ghost predicate IsForbiddenModel(row: Row) {
      exists model :: model in contract.forbiddenModels && Get(row, ExactSalesCode) == Str(model)
    }

    ghost predicate HasAllowedUse(row: Row) {
      exists use :: use in allowedUse && Get(row, AllowedUse) == Str(use)
    }

    /** Why a row may not be shown for the case. */
    ghost predicate Fails(row: Row, defect: Defect) {
      match defect
      case WRONG_PRODUCT => Get(row, ExactSalesCode) != Str(contract.product)
      case NON_CHILD => !NamesChild(Get(row, RecordType))
      case NON_SEARCH_CANDIDATE => Get(row, RetrievalRole) != Str("SEARCH_CANDIDATE")
      case DISALLOWED_USE => !HasAllowedUse(row)
      case UNVERIFIED => !IsVerified(row)
      case FORBIDDEN_DOCUMENT => IsForbiddenDocument(row)
      case FORBIDDEN_MODEL => IsForbiddenModel(row)
    }

    ghost predicate IsAdmissible(row: Row) {
      && Get(row, ExactSalesCode) == Str(contract.product)
      && NamesChild(Get(row, RecordType))
      && Get(row, RetrievalRole) == Str("SEARCH_CANDIDATE")
      && HasAllowedUse(row) && IsVerified(row)
      && !IsForbiddenDocument(row) && !IsForbiddenModel(row)
    }

    /** The row is admissible and its record is a child of the group. */
    ghost predicate StandsFor(row: Row, group: string) {
      IsAdmissible(row)
      && exists child :: child in owner && owner[child] == group && Get(row, SourceRecordId) == Str(child)
    }

    /** One of the first k rows stands for the group. */
    ghost predicate Shows(rows: seq<Row>, k: int, group: string) {
      exists i :: 0 <= i < k && i < |rows| && StandsFor(rows[i], group)
    }

    /** What ANY and ALL ask of the first k rows. */
    ghost predicate Completed(rows: seq<Row>, k: int) {
      if contract.policy == ANY then exists g :: g in contract.required && Shows(rows, k, g)
      else forall g :: g in contract.required ==> Shows(rows, k, g)
    }
  }

  // ---------------------------------------------------------------- one row

  lemma DefectMeans(s: Setting, row: Row, defect: Defect)
    ensures HasDefect(s.Gate(), row, defect) <==> s.Fails(row, defect)
  {
    assert StatusOf(row).Str? ==> SourceVerificationStatus in row || VerificationStatus in row;
  }

  lemma ValidIffAdmissible(s: Setting, row: Row)
    ensures RowIsValid(s.Gate(), row) <==> s.IsAdmissible(row)
  {
    forall d
      ensures HasDefect(s.Gate(), row, d) <==> s.Fails(row, d)
    {
      DefectMeans(s, row, d);
    }
    InvalidMeansSomeDefect(s.Gate(), row);
    AdmissibleIffNothingFails(s, row);
    hide RowIsValid, HasDefect, Setting.Fails, Setting.IsAdmissible;
  }

  lemma AdmissibleIffNothingFails(s: Setting, row: Row)
    ensures s.IsAdmissible(row) <==> forall d :: !s.Fails(row, d)
  {
    hide Setting.IsVerified, Setting.HasAllowedUse, Setting.IsForbiddenDocument, Setting.IsForbiddenModel,
         NamesChild, Get;
    if forall d :: !s.Fails(row, d) {
      assert !s.Fails(row, WRONG_PRODUCT) && !s.Fails(row, NON_CHILD) && !s.Fails(row, NON_SEARCH_CANDIDATE)
        && !s.Fails(row, DISALLOWED_USE) && !s.Fails(row, UNVERIFIED) && !s.Fails(row, FORBIDDEN_DOCUMENT)
        && !s.Fails(row, FORBIDDEN_MODEL);
    }
  }

  lemma MatchedMeans(s: Setting, wanted: set<string>, row: Row, g: string)
    ensures g in Matched(s.Gate(), s.owner, wanted, row) <==> g in wanted && s.StandsFor(row, g)
  {
    ValidIffAdmissible(s, row);
    MatchOfRow(s.Gate(), s.owner, wanted, row);
    hide RowIsValid, Matched;
  }

  // ---------------------------------------------------------------- coverage

  lemma CoveredMeans(s: Setting, wanted: set<string>, rows: seq<Row>, topK: nat, k: nat, g: string)
    ensures g in CoveredThrough(MatchedByRank(s.Gate(), s.owner, wanted, rows[..Min(topK, |rows|)]), k)
       <==> g in wanted && s.Shows(rows, Min(k, topK), g)
  {
    hide Matched;
    var evaluated := rows[..Min(topK, |rows|)];
    var byRank := MatchedByRank(s.Gate(), s.owner, wanted, evaluated);
    var n := Min(k, |byRank|);
    forall i | 0 <= i < n
      ensures g in byRank[i] <==> g in wanted && s.StandsFor(rows[i], g)
    {
      MatchedMeans(s, wanted, rows[i], g);
    }
    CoveredHolds(byRank[..n], g);
    hide Setting.StandsFor, MatchedByRank;
  }

  lemma CoveredHolds(byRank: seq<set<string>>, g: string)
    ensures g in Covered(byRank) <==> exists i :: 0 <= i < |byRank| && g in byRank[i]
  {
  }

  lemma CoveredSetMeans(s: Setting, wanted: set<string>, rows: seq<Row>, topK: nat, k: nat)
    ensures CoveredThrough(MatchedByRank(s.Gate(), s.owner, wanted, rows[..Min(topK, |rows|)]), k)
         == set g | g in wanted && s.Shows(rows, Min(k, topK), g)
  {
    forall g
      ensures g in CoveredThrough(MatchedByRank(s.Gate(), s.owner, wanted, rows[..Min(topK, |rows|)]), k)
        <==> g in wanted && s.Shows(rows, Min(k, topK), g)
    {
      CoveredMeans(s, wanted, rows, topK, k, g);
    }
  }

  lemma CompleteMeans(s: Setting, rows: seq<Row>, topK: nat, k: nat)
    requires s.contract.policy != NONE
    ensures var byRank := MatchedByRank(s.Gate(), s.owner, s.contract.Required(), rows[..Min(topK, |rows|)]);
            Complete(byRank, s.contract.Required(), s.contract.policy, k) <==> s.Completed(rows, Min(k, topK))
  {
    CoveredSetMeans(s, s.contract.Required(), rows, topK, k);
    hide MatchedByRank, CoveredThrough, Setting.Shows;
    var covered := set g | g in s.contract.Required() && s.Shows(rows, Min(k, topK), g);
    if s.contract.policy == ANY {
      if g :| g in s.contract.required && s.Shows(rows, Min(k, topK), g) {
        assert g in covered;
      }
      if covered != {} {
        var g :| g in covered;
        assert g in s.contract.required;
      }
    } else {
      assert forall g :: g in s.contract.Required() <==> g in s.contract.required;
    }
  }

  // ---------------------------------------------------------------- the score

  ghost function ScoreOf(s: Setting, rows: seq<Row>, observation: Observation, topK: nat): Score
    requires s.contract.Valid()
  {
    ScoreRows(s.contract, s.Gate(), s.owner, rows, observation, topK)
  }

  /** A scored case is an admitted one, and its score is that of its ranked rows. */
  lemma ScoredCaseHasSetting(row: Row, ranked: seq<Row>, entries: seq<Entry>, observation: Observation, topK: int,
                             allowedUse: set<string>, verified: set<string>) returns (s: Setting)
    requires ScoreCase(row, ranked, entries, observation, topK, allowedUse, verified).Success?
    ensures topK >= 1 && ChunksAreObjects(ranked)
    ensures ReadCase(row) == Success(s.contract) && s.allowedUse == allowedUse && s.verified == verified
    ensures BuildRegistry(entries).Success? && s.owner == BuildRegistry(entries).value.owner
    ensures ScoreCase(row, ranked, entries, observation, topK, allowedUse, verified)
         == Success(ScoreOf(s, CorpusRows(ranked), observation, topK))
  {
    hide ReadCase, BuildRegistry, ScoreRows;
    s := Setting(ReadCase(row).value, allowedUse, verified, BuildRegistry(entries).value.owner);
  }

  /** The three group sets of a score. */
  lemma GroupSetsMean(s: Setting, rows: seq<Row>, observation: Observation, topK: nat)
    requires s.contract.Valid()
    ensures var score := ScoreOf(s, rows, observation, topK);
            && score.coveredRequired == (set g | g in s.contract.Required() && s.Shows(rows, topK, g))
            && score.missingRequired == (set g | g in s.contract.Required() && !s.Shows(rows, topK, g))
            && score.coveredSupporting == (set g | g in s.contract.Supporting() && s.Shows(rows, topK, g))
  {
    hide CompletionRankOf, CountDefects, HitAt, RecallAt, MatchedChildren, Covered, MatchedByRank, Setting.Shows;
    CoveredAll(s, s.contract.Required(), rows, topK);
    CoveredAll(s, s.contract.Supporting(), rows, topK);
  }

  lemma CoveredAll(s: Setting, wanted: set<string>, rows: seq<Row>, topK: nat)
    ensures Covered(MatchedByRank(s.Gate(), s.owner, wanted, rows[..Min(topK, |rows|)]))
         == set g | g in wanted && s.Shows(rows, topK, g)
  {
    CoveredSetMeans(s, wanted, rows, topK, topK);
    hide Matched, Setting.Shows;
    var byRank := MatchedByRank(s.Gate(), s.owner, wanted, rows[..Min(topK, |rows|)]);
    assert byRank[..Min(topK, |byRank|)] == byRank;
  }

  /** The three hits and the three recalls of an evidence case; a case without evidence has none. */
  lemma HitsAndRecallsMean(s: Setting, rows: seq<Row>, observation: Observation, topK: nat)
    requires s.contract.Valid()
    ensures var score := ScoreOf(s, rows, observation, topK);
            && (s.contract.outcome == EVIDENCE ==>
                  && HitMeans(s, rows, topK, 1, score.hitAt1) && HitMeans(s, rows, topK, 3, score.hitAt3)
                  && HitMeans(s, rows, topK, 5, score.hitAt5)
                  && RecallMeans(s, rows, topK, 1, score.recallAt1) && RecallMeans(s, rows, topK, 3, score.recallAt3)
                  && RecallMeans(s, rows, topK, 5, score.recallAt5))
            && (s.contract.outcome == NO_EVIDENCE ==>
                  && score.hitAt1 == score.hitAt3 == score.hitAt5 == None
                  && score.recallAt1 == score.recallAt3 == score.recallAt5 == None)
  {
    if s.contract.outcome == EVIDENCE {
      HitAndRecallMean(s, rows, topK, 1);
      HitAndRecallMean(s, rows, topK, 3);
      HitAndRecallMean(s, rows, topK, 5);
      hide CompletionRankOf, CountDefects, HitAt, RecallAt, MatchedChildren, Covered, MatchedByRank, HitMeans,
           RecallMeans;
    }
  }

  ghost predicate HitMeans(s: Setting, rows: seq<Row>, topK: nat, k: nat, hit: Option<real>) {
    hit == Some(if s.Completed(rows, Min(k, topK)) then 1.0 else 0.0)
  }

  /** The share of the required groups that the first min(k, topK) rows show. */
  ghost predicate RecallMeans(s: Setting, rows: seq<Row>, topK: nat, k: nat, recall: Option<real>) {
    && recall.Some?
    && recall.value * |s.contract.required| as real
       == |set g | g in s.contract.Required() && s.Shows(rows, Min(k, topK), g)| as real
  }

  lemma HitAndRecallMean(s: Setting, rows: seq<Row>, topK: nat, k: nat)
    requires s.contract.Valid() && s.contract.outcome == EVIDENCE
    ensures var byRank := MatchedByRank(s.Gate(), s.owner, s.contract.Required(), rows[..Min(topK, |rows|)]);
            && HitMeans(s, rows, topK, k, HitAt(byRank, s.contract, topK, k))
            && RecallMeans(s, rows, topK, k, RecallAt(byRank, s.contract, topK, k))
  {
    hide MatchedByRank, CoveredThrough, Setting.Shows, Setting.Completed;
    CompleteMeans(s, rows, topK, Min(k, topK));
    CoveredSetMeans(s, s.contract.Required(), rows, topK, Min(k, topK));
    var byRank := MatchedByRank(s.Gate(), s.owner, s.contract.Required(), rows[..Min(topK, |rows|)]);
    QuotientTimes(|CoveredThrough(byRank, Min(k, topK))|, |s.contract.required|);
  }

  lemma QuotientTimes(a: nat, n: nat)
    requires n > 0
    ensures a as real / n as real * n as real == a as real
  {
  }

  /** The completion rank is the least number of rows within topK that completes the case, and mrr is its reciprocal. */
  lemma RankMeans(s: Setting, rows: seq<Row>, observation: Observation, topK: nat)
    requires s.contract.Valid()
    ensures var score := ScoreOf(s, rows, observation, topK);
            && (s.contract.outcome == NO_EVIDENCE ==> score.completionRank == None && score.mrr == None)
            && (s.contract.outcome == EVIDENCE && score.completionRank.None? ==>
                  !s.Completed(rows, topK) && score.mrr == Some(0.0))
            && (s.contract.outcome == EVIDENCE && score.completionRank.Some? ==>
                  var r := score.completionRank.value;
                  && 1 <= r <= Min(topK, |rows|)
                  && s.Completed(rows, r) && (forall k :: 1 <= k < r ==> !s.Completed(rows, k))
                  && score.mrr.Some? && score.mrr.value * r as real == 1.0)
  {
    hide CountDefects, HitAt, RecallAt, MatchedChildren, Covered, MatchedByRank, Complete, Setting.Completed;
    var score := ScoreOf(s, rows, observation, topK);
    if s.contract.outcome == EVIDENCE {
      var evaluated := rows[..Min(topK, |rows|)];
      var byRank := MatchedByRank(s.Gate(), s.owner, s.contract.Required(), evaluated);
      var rank := CompletionRankOf(byRank, s.contract.Required(), s.contract.policy);
      CompletedAtEnd(s, rows, topK);
      forall k: nat | k <= |byRank|
        ensures Complete(byRank, s.contract.Required(), s.contract.policy, k) <==> s.Completed(rows, k)
      {
        CompleteMeans(s, rows, topK, k);
      }
      if rank.Some? {
        ReciprocalIsExact(rank.value);
      } else {
        NotCompletedByNothing(s, rows);
        assert !s.Completed(rows, |byRank|);
      }
    }
  }

  lemma ReciprocalIsExact(r: nat)
    requires r >= 1
    ensures ReciprocalRank(Some(r)) * r as real == 1.0
  {
  }

  lemma NotCompletedByNothing(s: Setting, rows: seq<Row>)
    requires s.contract.Valid() && s.contract.outcome == EVIDENCE
    ensures !s.Completed(rows, 0)
  {
    assert !s.Shows(rows, 0, s.contract.required[0]);
    hide Setting.StandsFor;
  }

  /** Rows beyond the end show nothing more. */
  lemma CompletedAtEnd(s: Setting, rows: seq<Row>, k: nat)
    ensures s.Completed(rows, k) <==> s.Completed(rows, Min(k, |rows|))
  {
    forall g
      ensures s.Shows(rows, k, g) <==> s.Shows(rows, Min(k, |rows|), g)
    {
      hide Setting.StandsFor;
    }
    hide Setting.Shows;
  }

  // ---------------------------------------------------------------- the counts

  ghost function Positions<T>(p: T -> bool, rows: seq<T>): set<int> {
    set i | 0 <= i < |rows| && p(rows[i])
  }

  lemma PositionsGrow<T>(p: T -> bool, rows: seq<T>, last: T)
    ensures Positions(p, rows + [last]) == Positions(p, rows) + if p(last) then {|rows|} else {}
    ensures |Positions(p, rows + [last])| == |Positions(p, rows)| + if p(last) then 1 else 0
  {
    assert |rows| !in Positions(p, rows);
  }

  /** A count is the number of positions counted. */
  lemma {:induction false} CountIsCardinality<T>(p: T -> bool, rows: seq<T>)
    ensures Count(p, rows) == |Positions(p, rows)|
  {
    if rows == [] {
      assert Positions(p, rows) == {};
    } else {
      hide Positions, Count;
      var n := |rows| - 1;
      CountIsCardinality(p, rows[..n]);
      CountStep(p, rows, n);
      PositionsGrow(p, rows[..n], rows[n]);
      assert rows[..n + 1] == rows && rows == rows[..n] + [rows[n]];
    }
  }

  /** How many of the rows have the defect. */
  ghost function Failing(s: Setting, rows: seq<Row>, defect: Defect): nat {
    |set i | 0 <= i < |rows| && s.Fails(rows[i], defect)|
  }

  lemma DefectCountMeans(s: Setting, rows: seq<Row>, defect: Defect)
    ensures CountDefect(s.Gate(), rows, defect) == Failing(s, rows, defect)
  {
    hide HasDefect, Setting.Fails;
    var gate := s.Gate();
    var has := (row: Row) => HasDefect(gate, row, defect);
    CountIsCardinality(has, rows);
    forall i | 0 <= i < |rows|
      ensures has(rows[i]) <==> s.Fails(rows[i], defect)
    {
      DefectMeans(s, rows[i], defect);
    }
    assert (set i | 0 <= i < |rows| && s.Fails(rows[i], defect)) == Positions(has, rows);
  }

  lemma InvalidCountMeans(s: Setting, rows: seq<Row>)
    ensures CountInvalid(s.Gate(), rows) == |set i | 0 <= i < |rows| && !s.IsAdmissible(rows[i])|
  {
    hide RowIsValid, Setting.IsAdmissible;
    var gate := s.Gate();
    var invalid := (row: Row) => !RowIsValid(gate, row);
    CountIsCardinality(invalid, rows);
    forall i | 0 <= i < |rows|
      ensures invalid(rows[i]) <==> !s.IsAdmissible(rows[i])
    {
      ValidIffAdmissible(s, rows[i]);
    }
    assert (set i | 0 <= i < |rows| && !s.IsAdmissible(rows[i])) == Positions(invalid, rows);
  }

  /** Each defect count is the number of rows within topK that have the defect. */
  lemma DefectCountsMean(s: Setting, rows: seq<Row>, observation: Observation, topK: nat)
    requires s.contract.Valid()
    ensures var counts := ScoreOf(s, rows, observation, topK).counts;
            var evaluated := rows[..Min(topK, |rows|)];
            && counts.wrongProduct == Failing(s, evaluated, WRONG_PRODUCT)
            && counts.nonChild == Failing(s, evaluated, NON_CHILD)
            && counts.nonSearchCandidate == Failing(s, evaluated, NON_SEARCH_CANDIDATE)
            && counts.disallowedUse == Failing(s, evaluated, DISALLOWED_USE)
            && counts.unverified == Failing(s, evaluated, UNVERIFIED)
            && counts.forbiddenDocument == Failing(s, evaluated, FORBIDDEN_DOCUMENT)
            && counts.forbiddenModel == Failing(s, evaluated, FORBIDDEN_MODEL)
            && counts.invalidTopK == |set i | 0 <= i < |evaluated| && !s.IsAdmissible(evaluated[i])|
  {
    hide CompletionRankOf, HitAt, RecallAt, MatchedChildren, Covered, MatchedByRank, CountDefect, CountInvalid, Failing,
         Setting.IsAdmissible;
    var evaluated := rows[..Min(topK, |rows|)];
    forall d
      ensures CountDefect(s.Gate(), evaluated, d) == Failing(s, evaluated, d)
    {
      DefectCountMeans(s, evaluated, d);
    }
    InvalidCountMeans(s, evaluated);
  }

  // ---------------------------------------------------------------- the matched children

  /** The child a row stands for, when its group is one the case names. */
  ghost function Label(s: Setting, row: Row): Option<string> {
    if (exists g :: g in s.contract.Expected() && s.StandsFor(row, g)) && Get(row, SourceRecordId).Str?
    then Some(Get(row, SourceRecordId).s)
    else None
  }

  ghost function Labels(s: Setting, rows: seq<Row>): (labels: seq<Option<string>>)
    ensures |labels| == |rows|
    ensures forall i :: 0 <= i < |rows| ==> labels[i] == Label(s, rows[i])
  {
    seq(|rows|, i requires 0 <= i < |rows| => Label(s, rows[i]))
  }

  /** Each label once, in the order of first occurrences. */
  ghost predicate ListsFirst(labels: seq<Option<string>>, list: seq<string>) {
    && NoDuplicates(list)
    && (forall c :: c in list <==> Some(c) in labels)
    && (forall a, b :: 0 <= a < b < |list| ==> FirstBefore(labels, list[a], list[b]))
  }

  /** Up to some occurrence of `first` there is none of `later`. */
  ghost predicate FirstBefore(labels: seq<Option<string>>, first: string, later: string) {
    exists i :: 0 <= i < |labels| && labels[i] == Some(first) && Some(later) !in labels[..i + 1]
  }

  lemma FirstBeforeStays(labels: seq<Option<string>>, last: Option<string>, first: string, later: string)
    requires FirstBefore(labels, first, later)
    ensures FirstBefore(labels + [last], first, later)
  {
    var i :| 0 <= i < |labels| && labels[i] == Some(first) && Some(later) !in labels[..i + 1];
    assert (labels + [last])[i] == labels[i] && (labels + [last])[..i + 1] == labels[..i + 1];
  }

  lemma NewLabelIsLast(labels: seq<Option<string>>, first: string, later: string)
    requires Some(first) in labels && Some(later) !in labels
    ensures FirstBefore(labels, first, later)
  {
    var i :| 0 <= i < |labels| && labels[i] == Some(first);
  }

  lemma OneMoreLabel(labels: seq<Option<string>>, last: Option<string>, list: seq<string>)
    requires ListsFirst(labels, list)
    ensures ListsFirst(labels + [last], if last.Some? && last.value !in list then list + [last.value] else list)
  {
    hide FirstBefore;
    var grown := if last.Some? && last.value !in list then list + [last.value] else list;
    forall a, b | 0 <= a < b < |grown|
      ensures FirstBefore(labels + [last], grown[a], grown[b])
    {
      if b == |list| {
        assert list[a] in list;
        NewLabelIsLast(labels, grown[a], grown[b]);
      }
      FirstBeforeStays(labels, last, grown[a], grown[b]);
    }
  }

  lemma LabelMeans(s: Setting, row: Row)
    ensures Label(s, row)
         == if Matched(s.Gate(), s.owner, s.contract.Expected(), row) != {} && Get(row, SourceRecordId).Str?
            then Some(Get(row, SourceRecordId).s) else None
  {
    hide Setting.StandsFor, Matched;
    var matched := Matched(s.Gate(), s.owner, s.contract.Expected(), row);
    forall g
      ensures g in matched <==> g in s.contract.Expected() && s.StandsFor(row, g)
    {
      MatchedMeans(s, s.contract.Expected(), row, g);
    }
    if matched != {} {
      var g :| g in matched;
    }
  }

  lemma {:induction false} ChildrenAreListed(s: Setting, rows: seq<Row>)
    ensures ListsFirst(Labels(s, rows), MatchedChildren(s.Gate(), s.owner, s.contract.Expected(), rows))
  {
    hide ListsFirst, Label, Matched;
    if rows == [] {
      NothingListed();
    } else {
      var n := |rows| - 1;
      ChildrenAreListed(s, rows[..n]);
      LabelMeans(s, rows[n]);
      OneMoreLabel(Labels(s, rows[..n]), Label(s, rows[n]),
                   MatchedChildren(s.Gate(), s.owner, s.contract.Expected(), rows[..n]));
      assert Labels(s, rows) == Labels(s, rows[..n]) + [Label(s, rows[n])];
    }
  }

  lemma NothingListed()
    ensures forall labels: seq<Option<string>> :: |labels| == 0 ==> ListsFirst(labels, [])
  {
  }

  /** The matched children: each child shown for a group of the case once, in the order first shown. */
  lemma MatchedChildrenMean(s: Setting, rows: seq<Row>, observation: Observation, topK: nat)
    requires s.contract.Valid()
    ensures ListsFirst(Labels(s, rows[..Min(topK, |rows|)]), ScoreOf(s, rows, observation, topK).matchedChildren)
  {
    hide CompletionRankOf, HitAt, RecallAt, MatchedChildren, Covered, MatchedByRank, CountDefects, ListsFirst, Labels;
    ChildrenAreListed(s, rows[..Min(topK, |rows|)]);
  }

  // ---------------------------------------------------------------- the verdicts

  /** The verdicts of the three kinds of cases. */
  lemma VerdictsMean(s: Setting, rows: seq<Row>, observation: Observation, topK: nat)
    requires s.contract.Valid()
    ensures var score := ScoreOf(s, rows, observation, topK);
            var onPath := observation.path == s.contract.expectedPath;
            && score.contract == s.contract && score.observation == observation && score.topK == topK
            && (s.contract.outcome == EVIDENCE ==>
                  && score.semanticPassed == Some(s.Completed(rows, topK))
                  && score.executionContractPassed == (onPath && observation.queries >= 1)
                  && score.noEvidenceSuccess == None && score.policyBlockSuccess == None
                  && (score.passed <==>
                        && onPath && observation.queries >= 1 && s.Completed(rows, topK)
                        && forall i :: 0 <= i < topK && i < |rows| ==> s.IsAdmissible(rows[i])))
            && (s.contract.outcome == NO_EVIDENCE && s.contract.expectedPath == PGVECTOR_QUERY ==>
                  && score.semanticPassed == None && score.policyBlockSuccess == None
                  && score.executionContractPassed == (onPath && observation.queries >= 1)
                  && score.passed == (onPath && observation.queries >= 1 && rows == [])
                  && score.noEvidenceSuccess == Some(score.passed))
            && (s.contract.outcome == NO_EVIDENCE && s.contract.expectedPath != PGVECTOR_QUERY ==>
                  && score.semanticPassed == None && score.noEvidenceSuccess == None
                  && score.executionContractPassed == (onPath && observation.queries == 0)
                  && score.passed == (onPath && observation.queries == 0 && rows == [])
                  && score.policyBlockSuccess == Some(score.passed))
  {
    hide CompletionRankOf, RecallAt, MatchedChildren, Covered, MatchedByRank, CountDefects, HitAt,
         Setting.IsAdmissible, Setting.Completed;
    if s.contract.outcome == EVIDENCE {
      HitAndRecallMean(s, rows, topK, topK);
      InvalidZeroMeans(s, rows, topK);
    }
  }

  lemma InvalidZeroMeans(s: Setting, rows: seq<Row>, topK: nat)
    ensures CountDefects(s.Gate(), rows[..Min(topK, |rows|)]).invalidTopK == 0
       <==> forall i :: 0 <= i < topK && i < |rows| ==> s.IsAdmissible(rows[i])
  {
    hide Setting.IsAdmissible, RowIsValid, CountDefect, CountInvalid;
    var evaluated := rows[..Min(topK, |rows|)];
    NoInvalidRowIffNoDefect(s.Gate(), evaluated);
    forall i | 0 <= i < |evaluated|
      ensures RowIsValid(s.Gate(), evaluated[i]) <==> s.IsAdmissible(rows[i])
    {
      ValidIffAdmissible(s, rows[i]);
    }
    assert forall i :: 0 <= i < |evaluated| ==> evaluated[i] == rows[i];
  }
}
