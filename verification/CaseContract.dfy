/** The Gold v2 case contract: the logic check, the schema's conditional rules and the scorer's reading of a case. */
module CaseContract {
  import opened Collections
  import opened Json
  import opened Scoring

  datatype ExecutionPath =
    | PgvectorQuery
    | BlockProductMismatch
    | BlockUnsupportedModel
    | BlockUnsupportedCapability
    | BlockOutOfManualScope
    | BlockUnverifiedSource

  datatype Risk = General | Caution | Danger

  datatype Usage = Normal | PartialStop | TotalStop | PendingConsultation

  datatype Consultation = NotNeeded | Conditional | Required

  datatype Basis =
    | NoBasis
    | SourceConditionPending
    | SourceConditionMet
    | DangerSafety
    | EvidenceAbsent
    | PolicyBlock

  datatype Status = Active | Excluded | RejectedCase

  datatype Review = UnreviewedDraft | OnePersonReviewed | TwoPersonApproved | RejectedReview

  /** The fields of a row that passes the schema's field rules, with its enumerations decoded. */
  datatype GoldCase = GoldCase(
    product: string,
    outcome: Outcome,
    path: ExecutionPath,
    required: seq<string>,
    supporting: seq<string>,
    policy: Policy,
    risk: Risk,
    usage: Usage,
    consultation: Consultation,
    basis: seq<Basis>,
    conditions: seq<string>,
    forbiddenDocuments: seq<string>,
    forbiddenModels: seq<string>,
    status: Status,
    review: Review)
  {
    /** The schema's rules on single fields: nonempty texts, unique items, at least one basis code. */
    ghost predicate FieldRules() {
      && product != ""
      && UniqueTexts(required) && UniqueTexts(supporting)
      && UniqueTexts(forbiddenDocuments) && UniqueTexts(forbiddenModels)
      && NoDuplicates(conditions)
      && basis != [] && NoDuplicates(basis)
    }

    predicate IsBlocked() {
      path != PgvectorQuery
    }

    predicate HasGroups() {
      required != [] || supporting != []
    }

    predicate HasSourceCondition() {
      SourceConditionPending in basis || SourceConditionMet in basis
    }

    predicate HasImmediateBasis() {
      SourceConditionMet in basis || DangerSafety in basis || EvidenceAbsent in basis || PolicyBlock in basis
    }
  }

  ghost predicate UniqueTexts(texts: seq<string>) {
    NoDuplicates(texts) && forall i :: 0 <= i < |texts| ==> texts[i] != ""
  }

  // ---------------------------------------------------------------- the logic check

  datatype RetrievalCode =
    | EVIDENCE_GROUP_ROLE_OVERLAP
    | EVIDENCE_REQUIRES_QUERY_PATH
    | EVIDENCE_REQUIRES_REQUIRED_GROUP
    | EVIDENCE_REQUIRES_ANY_OR_ALL
    | NO_EVIDENCE_REQUIRES_EMPTY_GROUPS
    | NO_EVIDENCE_REQUIRES_NONE
    | NONE_REQUIRES_NO_EVIDENCE
    | NONE_REQUIRES_EMPTY_GROUPS
    | POLICY_BLOCK_REQUIRES_NO_EVIDENCE

  datatype BasisCode =
    | SOURCE_CONDITION_REFERENCE_REQUIRED
    | CONDITION_REFERENCE_WITHOUT_SOURCE_BASIS
    | NONE_BASIS_MUST_BE_EXCLUSIVE
    | NONE_BASIS_REQUIRES_NONE
    | PENDING_BASIS_MUST_BE_EXCLUSIVE
    | PENDING_BASIS_REQUIRES_CONDITIONAL
    | IMMEDIATE_BASIS_REQUIRES_REQUIRED

  datatype PathCode =
    | NO_EVIDENCE_REQUIRES_BASIS
    | CORPUS_ABSENCE_BASIS_MISMATCH
    | POLICY_BLOCK_REQUIRES_BASIS
    | POLICY_BLOCK_CANNOT_USE_NO_EVIDENCE_BASIS
    | NO_EVIDENCE_BASIS_PATH_MISMATCH
    | POLICY_BLOCK_BASIS_PATH_MISMATCH
    | SOURCE_CONDITION_REQUIRES_EVIDENCE

  datatype SafetyCode =
    | PENDING_CONSULTATION_REQUIRES_REQUIRED
    | DANGER_REQUIRES_CONSULTATION
    | TOTAL_STOP_REQUIRES_CONSULTATION
    | DANGER_REQUIRES_SAFETY_BASIS
    | DANGER_USAGE_STATUS_INVALID
    | DANGER_BASIS_REQUIRES_DANGER_RISK
    | TOTAL_STOP_REQUIRES_DANGER_RISK

  datatype StatusCode =
    | TARGET_MODEL_FORBIDDEN
    | ACTIVE_CASE_CANNOT_BE_REJECTED
    | REJECTED_CASE_REVIEW_STATUS_MISMATCH

  /** The codes of the one error list, by the part of the check that reports them. */
  datatype LogicCode =
    | OfRetrieval(retrieval: RetrievalCode)
    | OfBasis(basis: BasisCode)
    | OfPath(path: PathCode)
    | OfSafety(safety: SafetyCode)
    | OfStatus(status: StatusCode)

  predicate RetrievalViolated(c: GoldCase, code: RetrievalCode) {
    match code
    case EVIDENCE_GROUP_ROLE_OVERLAP => !(ToSet(c.required) !! ToSet(c.supporting))
    case EVIDENCE_REQUIRES_QUERY_PATH => c.outcome == EVIDENCE && c.path != PgvectorQuery
    case EVIDENCE_REQUIRES_REQUIRED_GROUP => c.outcome == EVIDENCE && c.required == []
    case EVIDENCE_REQUIRES_ANY_OR_ALL => c.outcome == EVIDENCE && c.policy == NONE
    case NO_EVIDENCE_REQUIRES_EMPTY_GROUPS => c.outcome == NO_EVIDENCE && c.HasGroups()
    case NO_EVIDENCE_REQUIRES_NONE => c.outcome == NO_EVIDENCE && c.policy != NONE
    case NONE_REQUIRES_NO_EVIDENCE => c.policy == NONE && c.outcome != NO_EVIDENCE
    case NONE_REQUIRES_EMPTY_GROUPS => c.policy == NONE && c.HasGroups()
    case POLICY_BLOCK_REQUIRES_NO_EVIDENCE => c.IsBlocked() && c.outcome != NO_EVIDENCE
  }

  predicate BasisViolated(c: GoldCase, code: BasisCode) {
    match code
    case SOURCE_CONDITION_REFERENCE_REQUIRED => c.HasSourceCondition() && c.conditions == []
    case CONDITION_REFERENCE_WITHOUT_SOURCE_BASIS => !c.HasSourceCondition() && c.conditions != []
    case NONE_BASIS_MUST_BE_EXCLUSIVE => NoBasis in c.basis && !Alone(c, NoBasis)
    case NONE_BASIS_REQUIRES_NONE => NoBasis in c.basis && c.consultation != NotNeeded
    case PENDING_BASIS_MUST_BE_EXCLUSIVE => SourceConditionPending in c.basis && !Alone(c, SourceConditionPending)
    case PENDING_BASIS_REQUIRES_CONDITIONAL => SourceConditionPending in c.basis && c.consultation != Conditional
    case IMMEDIATE_BASIS_REQUIRES_REQUIRED => c.HasImmediateBasis() && c.consultation != Required
  }

  predicate PathViolated(c: GoldCase, code: PathCode) {
    match code
    case NO_EVIDENCE_REQUIRES_BASIS =>
      c.outcome == NO_EVIDENCE && EvidenceAbsent !in c.basis && PolicyBlock !in c.basis
    case CORPUS_ABSENCE_BASIS_MISMATCH =>
      c.outcome == NO_EVIDENCE && c.path == PgvectorQuery && (EvidenceAbsent !in c.basis || PolicyBlock in c.basis)
    case POLICY_BLOCK_REQUIRES_BASIS => c.IsBlocked() && PolicyBlock !in c.basis
    case POLICY_BLOCK_CANNOT_USE_NO_EVIDENCE_BASIS => c.IsBlocked() && EvidenceAbsent in c.basis
    case NO_EVIDENCE_BASIS_PATH_MISMATCH =>
      EvidenceAbsent in c.basis && (c.outcome != NO_EVIDENCE || c.path != PgvectorQuery)
    case POLICY_BLOCK_BASIS_PATH_MISMATCH => PolicyBlock in c.basis && !c.IsBlocked()
    case SOURCE_CONDITION_REQUIRES_EVIDENCE => c.HasSourceCondition() && c.outcome != EVIDENCE
  }

  predicate SafetyViolated(c: GoldCase, code: SafetyCode) {
    match code
    case PENDING_CONSULTATION_REQUIRES_REQUIRED => c.usage == PendingConsultation && c.consultation != Required
    case DANGER_REQUIRES_CONSULTATION => c.risk == Danger && c.consultation != Required
    case TOTAL_STOP_REQUIRES_CONSULTATION => c.usage == TotalStop && c.consultation != Required
    case DANGER_REQUIRES_SAFETY_BASIS => (c.risk == Danger || c.usage == TotalStop) && DangerSafety !in c.basis
    case DANGER_USAGE_STATUS_INVALID => c.risk == Danger && c.usage != PartialStop && c.usage != TotalStop
    case DANGER_BASIS_REQUIRES_DANGER_RISK => DangerSafety in c.basis && c.risk != Danger
    case TOTAL_STOP_REQUIRES_DANGER_RISK => c.usage == TotalStop && c.risk != Danger
  }

  predicate StatusViolated(c: GoldCase, code: StatusCode) {
    match code
    case TARGET_MODEL_FORBIDDEN => c.product in c.forbiddenModels
    case ACTIVE_CASE_CANNOT_BE_REJECTED => c.status == Active && c.review == RejectedReview
    case REJECTED_CASE_REVIEW_STATUS_MISMATCH => c.status == RejectedCase && c.review != RejectedReview
  }

  /** The rule behind each code. */
  predicate Violates(c: GoldCase, code: LogicCode) {
    match code
    case OfRetrieval(r) => RetrievalViolated(c, r)
    case OfBasis(b) => BasisViolated(c, b)
    case OfPath(p) => PathViolated(c, p)
    case OfSafety(s) => SafetyViolated(c, s)
    case OfStatus(s) => StatusViolated(c, s)
  }

  /** `basis_set == {code}` and `len(basis_codes) == 1`. */
  predicate Alone(c: GoldCase, code: Basis) {
    ToSet(c.basis) == {code} && |c.basis| == 1
  }

  function RetrievalRank(code: RetrievalCode): (rank: nat)
    ensures rank < 9
  {
    match code
    case EVIDENCE_GROUP_ROLE_OVERLAP => 0
    case EVIDENCE_REQUIRES_QUERY_PATH => 1
    case EVIDENCE_REQUIRES_REQUIRED_GROUP => 2
    case EVIDENCE_REQUIRES_ANY_OR_ALL => 3
    case NO_EVIDENCE_REQUIRES_EMPTY_GROUPS => 4
    case NO_EVIDENCE_REQUIRES_NONE => 5
    case NONE_REQUIRES_NO_EVIDENCE => 6
    case NONE_REQUIRES_EMPTY_GROUPS => 7
    case POLICY_BLOCK_REQUIRES_NO_EVIDENCE => 8
  }

  function BasisRank(code: BasisCode): (rank: nat)
    ensures rank < 7
  {
    match code
    case SOURCE_CONDITION_REFERENCE_REQUIRED => 0
    case CONDITION_REFERENCE_WITHOUT_SOURCE_BASIS => 1
    case NONE_BASIS_MUST_BE_EXCLUSIVE => 2
    case NONE_BASIS_REQUIRES_NONE => 3
    case PENDING_BASIS_MUST_BE_EXCLUSIVE => 4
    case PENDING_BASIS_REQUIRES_CONDITIONAL => 5
    case IMMEDIATE_BASIS_REQUIRES_REQUIRED => 6
  }

  function PathRank(code: PathCode): (rank: nat)
    ensures rank < 7
  {
    match code
    case NO_EVIDENCE_REQUIRES_BASIS => 0
    case CORPUS_ABSENCE_BASIS_MISMATCH => 1
    case POLICY_BLOCK_REQUIRES_BASIS => 2
    case POLICY_BLOCK_CANNOT_USE_NO_EVIDENCE_BASIS => 3
    case NO_EVIDENCE_BASIS_PATH_MISMATCH => 4
    case POLICY_BLOCK_BASIS_PATH_MISMATCH => 5
    case SOURCE_CONDITION_REQUIRES_EVIDENCE => 6
  }

  function SafetyRank(code: SafetyCode): (rank: nat)
    ensures rank < 7
  {
    match code
    case PENDING_CONSULTATION_REQUIRES_REQUIRED => 0
    case DANGER_REQUIRES_CONSULTATION => 1
    case TOTAL_STOP_REQUIRES_CONSULTATION => 2
    case DANGER_REQUIRES_SAFETY_BASIS => 3
    case DANGER_USAGE_STATUS_INVALID => 4
    case DANGER_BASIS_REQUIRES_DANGER_RISK => 5
    case TOTAL_STOP_REQUIRES_DANGER_RISK => 6
  }

  function StatusRank(code: StatusCode): (rank: nat)
    ensures rank < 3
  {
    match code
    case TARGET_MODEL_FORBIDDEN => 0
    case ACTIVE_CASE_CANNOT_BE_REJECTED => 1
    case REJECTED_CASE_REVIEW_STATUS_MISMATCH => 2
  }

  /** The place of a code among all 33, in the order the check asks for them. */
  function Rank(code: LogicCode): (rank: nat)
    ensures rank < 33
  {
    match code
    case OfRetrieval(r) => RetrievalRank(r)
    case OfBasis(b) => 9 + BasisRank(b)
    case OfPath(p) => 16 + PathRank(p)
    case OfSafety(s) => 23 + SafetyRank(s)
    case OfStatus(s) => 30 + StatusRank(s)
  }

  lemma RankIsInjective(x: LogicCode, y: LogicCode)
    requires Rank(x) == Rank(y)
    ensures x == y
  {
  }

  ghost predicate InOrder(codes: seq<LogicCode>) {
    forall i, j :: 0 <= i < j < |codes| ==> Rank(codes[i]) < Rank(codes[j])
  }

  /** The violated codes among the first `asked`, each once and in the order of the check. */
  ghost predicate ReportsFirst(c: GoldCase, errors: seq<LogicCode>, asked: nat) {
    && (forall code :: code in errors <==> Violates(c, code) && Rank(code) < asked)
    && InOrder(errors)
  }

  /** The error list of a case: every violated code, each once and in the order of the check. */
  ghost predicate IsReport(c: GoldCase, errors: seq<LogicCode>) {
    && (forall code :: code in errors <==> Violates(c, code))
    && InOrder(errors)
  }

  /** Appends the code if its rule is violated. */
  method Ask(c: GoldCase, before: seq<LogicCode>, code: LogicCode, violated: bool) returns (errors: seq<LogicCode>)
    requires ReportsFirst(c, before, Rank(code)) && violated == Violates(c, code)
    ensures ReportsFirst(c, errors, Rank(code) + 1)
  {
    errors := if violated then before + [code] else before;
    forall x | Rank(x) == Rank(code)
      ensures x == code
    {
      RankIsInjective(x, code);
    }
    hide Violates, Rank;
    assert forall i :: 0 <= i < |before| ==> before[i] in before;
  }

  method CheckRetrieval(c: GoldCase, before: seq<LogicCode>) returns (errors: seq<LogicCode>)
    requires ReportsFirst(c, before, 0)
    ensures ReportsFirst(c, errors, 9)
  {
    hide ReportsFirst;
    errors := Ask(c, before, OfRetrieval(EVIDENCE_GROUP_ROLE_OVERLAP), !(ToSet(c.required) !! ToSet(c.supporting)));
    errors := Ask(c, errors, OfRetrieval(EVIDENCE_REQUIRES_QUERY_PATH),
      c.outcome == EVIDENCE && c.path != PgvectorQuery);
    errors := Ask(c, errors, OfRetrieval(EVIDENCE_REQUIRES_REQUIRED_GROUP), c.outcome == EVIDENCE && c.required == []);
    errors := Ask(c, errors, OfRetrieval(EVIDENCE_REQUIRES_ANY_OR_ALL),
      c.outcome == EVIDENCE && c.policy !in {ANY, ALL});
    errors := Ask(c, errors, OfRetrieval(NO_EVIDENCE_REQUIRES_EMPTY_GROUPS), c.outcome == NO_EVIDENCE && c.HasGroups());
    errors := Ask(c, errors, OfRetrieval(NO_EVIDENCE_REQUIRES_NONE), c.outcome == NO_EVIDENCE && c.policy != NONE);
    errors := Ask(c, errors, OfRetrieval(NONE_REQUIRES_NO_EVIDENCE), c.policy == NONE && c.outcome != NO_EVIDENCE);
    errors := Ask(c, errors, OfRetrieval(NONE_REQUIRES_EMPTY_GROUPS), c.policy == NONE && c.HasGroups());
    errors := Ask(c, errors, OfRetrieval(POLICY_BLOCK_REQUIRES_NO_EVIDENCE), c.IsBlocked() && c.outcome != NO_EVIDENCE);
  }

  method CheckBasis(c: GoldCase, before: seq<LogicCode>) returns (errors: seq<LogicCode>)
    requires ReportsFirst(c, before, 9)
    ensures ReportsFirst(c, errors, 16)
  {
    hide ReportsFirst;
    errors := Ask(c, before, OfBasis(SOURCE_CONDITION_REFERENCE_REQUIRED),
      c.HasSourceCondition() && c.conditions == []);
    errors := Ask(c, errors, OfBasis(CONDITION_REFERENCE_WITHOUT_SOURCE_BASIS),
      !c.HasSourceCondition() && c.conditions != []);
    errors := Ask(c, errors, OfBasis(NONE_BASIS_MUST_BE_EXCLUSIVE), NoBasis in c.basis && !Alone(c, NoBasis));
    errors := Ask(c, errors, OfBasis(NONE_BASIS_REQUIRES_NONE), NoBasis in c.basis && c.consultation != NotNeeded);
    errors := Ask(c, errors, OfBasis(PENDING_BASIS_MUST_BE_EXCLUSIVE),
      SourceConditionPending in c.basis && !Alone(c, SourceConditionPending));
    errors := Ask(c, errors, OfBasis(PENDING_BASIS_REQUIRES_CONDITIONAL),
      SourceConditionPending in c.basis && c.consultation != Conditional);
    errors := Ask(c, errors, OfBasis(IMMEDIATE_BASIS_REQUIRES_REQUIRED),
      c.HasImmediateBasis() && c.consultation != Required);
  }

  method CheckPaths(c: GoldCase, before: seq<LogicCode>) returns (errors: seq<LogicCode>)
    requires ReportsFirst(c, before, 16)
    ensures ReportsFirst(c, errors, 23)
  {
    hide ReportsFirst;
    errors := Ask(c, before, OfPath(NO_EVIDENCE_REQUIRES_BASIS),
      c.outcome == NO_EVIDENCE && EvidenceAbsent !in c.basis && PolicyBlock !in c.basis);
    errors := Ask(c, errors, OfPath(CORPUS_ABSENCE_BASIS_MISMATCH),
      c.outcome == NO_EVIDENCE && c.path == PgvectorQuery && (EvidenceAbsent !in c.basis || PolicyBlock in c.basis));
    errors := Ask(c, errors, OfPath(POLICY_BLOCK_REQUIRES_BASIS), c.IsBlocked() && PolicyBlock !in c.basis);
    errors := Ask(c, errors, OfPath(POLICY_BLOCK_CANNOT_USE_NO_EVIDENCE_BASIS),
      c.IsBlocked() && EvidenceAbsent in c.basis);
    errors := Ask(c, errors, OfPath(NO_EVIDENCE_BASIS_PATH_MISMATCH),
      EvidenceAbsent in c.basis && (c.outcome != NO_EVIDENCE || c.path != PgvectorQuery));
    errors := Ask(c, errors, OfPath(POLICY_BLOCK_BASIS_PATH_MISMATCH), PolicyBlock in c.basis && !c.IsBlocked());
    errors := Ask(c, errors, OfPath(SOURCE_CONDITION_REQUIRES_EVIDENCE),
      c.HasSourceCondition() && c.outcome != EVIDENCE);
  }

  method CheckSafety(c: GoldCase, before: seq<LogicCode>) returns (errors: seq<LogicCode>)
    requires ReportsFirst(c, before, 23)
    ensures ReportsFirst(c, errors, 30)
  {
    hide ReportsFirst;
    errors := Ask(c, before, OfSafety(PENDING_CONSULTATION_REQUIRES_REQUIRED),
      c.usage == PendingConsultation && c.consultation != Required);
    errors := Ask(c, errors, OfSafety(DANGER_REQUIRES_CONSULTATION), c.risk == Danger && c.consultation != Required);
    errors := Ask(c, errors, OfSafety(TOTAL_STOP_REQUIRES_CONSULTATION),
      c.usage == TotalStop && c.consultation != Required);
    errors := Ask(c, errors, OfSafety(DANGER_REQUIRES_SAFETY_BASIS),
      (c.risk == Danger || c.usage == TotalStop) && DangerSafety !in c.basis);
    errors := Ask(c, errors, OfSafety(DANGER_USAGE_STATUS_INVALID),
      c.risk == Danger && c.usage !in {PartialStop, TotalStop});
    errors := Ask(c, errors, OfSafety(DANGER_BASIS_REQUIRES_DANGER_RISK), DangerSafety in c.basis && c.risk != Danger);
    errors := Ask(c, errors, OfSafety(TOTAL_STOP_REQUIRES_DANGER_RISK), c.usage == TotalStop && c.risk != Danger);
  }

  method CheckStatus(c: GoldCase, before: seq<LogicCode>) returns (errors: seq<LogicCode>)
    requires ReportsFirst(c, before, 30)
    ensures ReportsFirst(c, errors, 33)
  {
    hide ReportsFirst;
    errors := Ask(c, before, OfStatus(TARGET_MODEL_FORBIDDEN), c.product in c.forbiddenModels);
    errors := Ask(c, errors, OfStatus(ACTIVE_CASE_CANNOT_BE_REJECTED),
      c.status == Active && c.review == RejectedReview);
    errors := Ask(c, errors, OfStatus(REJECTED_CASE_REVIEW_STATUS_MISMATCH),
      c.status == RejectedCase && c.review != RejectedReview);
  }

  method ValidateCaseLogic(c: GoldCase) returns (errors: seq<LogicCode>)
    ensures IsReport(c, errors)
  {
    hide Violates, Rank;
    errors := CheckRetrieval(c, []);
    errors := CheckBasis(c, errors);
    errors := CheckPaths(c, errors);
    errors := CheckSafety(c, errors);
    errors := CheckStatus(c, errors);
  }

  lemma LastIsHighest(codes: seq<LogicCode>)
    requires InOrder(codes) && codes != []
    ensures InOrder(codes[..|codes| - 1])
    ensures forall x :: x in codes ==> Rank(x) <= Rank(codes[|codes| - 1])
    ensures forall x :: x in codes[..|codes| - 1] <==> x in codes && x != codes[|codes| - 1]
  {
    hide Rank;
    var n := |codes| - 1;
    assert codes == codes[..n] + [codes[n]];
    assert forall i :: 0 <= i < n ==> Rank(codes[i]) < Rank(codes[n]);
  }

  lemma {:induction false} SameCodesSameOrder(s: seq<LogicCode>, t: seq<LogicCode>)
    requires InOrder(s) && InOrder(t)
    requires forall x :: x in s <==> x in t
    ensures s == t
  {
    hide Rank, InOrder;
    assert s != [] ==> s[0] in s && s[0] in t;
    assert t != [] ==> t[0] in t && t[0] in s;
    if s != [] && t != [] {
      LastIsHighest(s);
      LastIsHighest(t);
      var m, n := |s| - 1, |t| - 1;
      assert s[m] in t && t[n] in s;
      RankIsInjective(s[m], t[n]);
      assert s[m] == t[n];
      forall x
        ensures x in s[..m] <==> x in t[..n]
      {
        assert x in s <==> x in t;
      }
      SameCodesSameOrder(s[..m], t[..n]);
      assert s == s[..m] + [s[m]] && t == t[..n] + [t[n]];
    }
  }

  /** A case has one error list. */
  lemma ReportIsUnique(c: GoldCase, s: seq<LogicCode>, t: seq<LogicCode>)
    requires IsReport(c, s) && IsReport(c, t)
    ensures s == t
  {
    hide Violates, InOrder;
    SameCodesSameOrder(s, t);
  }

  lemma EmptyIffNothingViolated(c: GoldCase, errors: seq<LogicCode>)
    requires IsReport(c, errors)
    ensures errors == [] <==> forall code :: !Violates(c, code)
  {
    hide Violates, Rank;
    assert errors != [] ==> errors[0] in errors;
  }

  // ---------------------------------------------------------------- the schema's conditional rules

  /** The `allOf` block of the case schema, one conjunct per if/then rule, in its order. */
  ghost predicate ConditionalRules(c: GoldCase) {
    && (if c.HasSourceCondition() then |c.conditions| >= 1 else |c.conditions| <= 0)
    && (c.status == Active ==> c.review != RejectedReview)
    && (c.status == RejectedCase ==> c.review == RejectedReview)
    && (c.outcome == EVIDENCE ==> c.path == PgvectorQuery && |c.required| >= 1 && c.policy in {ANY, ALL})
    && (c.outcome == NO_EVIDENCE ==> |c.required| <= 0 && |c.supporting| <= 0 && c.policy == NONE)
    && (c.policy == NONE ==> c.outcome == NO_EVIDENCE && |c.required| <= 0 && |c.supporting| <= 0)
    && (c.IsBlocked() ==> c.outcome == NO_EVIDENCE)
    && (NoBasis in c.basis ==> |c.basis| <= 1 && c.consultation == NotNeeded)
    && (SourceConditionPending in c.basis ==> |c.basis| <= 1 && c.consultation == Conditional)
    && (c.HasImmediateBasis() ==> c.consultation == Required)
    && (c.outcome == NO_EVIDENCE ==> EvidenceAbsent in c.basis || PolicyBlock in c.basis)
    && (c.IsBlocked() ==> PolicyBlock in c.basis)
    && (c.usage == TotalStop || c.risk == Danger ==>
          c.consultation == Required && DangerSafety in c.basis && c.usage in {PartialStop, TotalStop})
    && (c.usage == PendingConsultation ==> c.consultation == Required)
    && (EvidenceAbsent in c.basis ==> c.outcome == NO_EVIDENCE && c.path == PgvectorQuery)
    && (PolicyBlock in c.basis ==> c.IsBlocked() && EvidenceAbsent !in c.basis)
    && (DangerSafety in c.basis ==> c.risk == Danger && c.usage in {PartialStop, TotalStop})
    && (c.HasSourceCondition() ==> c.outcome == EVIDENCE)
    && (c.outcome == NO_EVIDENCE && c.path == PgvectorQuery ==> EvidenceAbsent in c.basis && PolicyBlock !in c.basis)
    && (c.outcome == EVIDENCE ==> EvidenceAbsent !in c.basis && PolicyBlock !in c.basis)
    && (c.usage == TotalStop ==> c.risk == Danger)
  }

  /** The two relations the schema does not express. */
  ghost predicate BeyondSchema(c: GoldCase) {
    ToSet(c.required) !! ToSet(c.supporting) && c.product !in c.forbiddenModels
  }

  lemma AloneIffSingle(c: GoldCase, code: Basis)
    requires code in c.basis
    ensures Alone(c, code) <==> |c.basis| <= 1
  {
    if |c.basis| <= 1 {
      assert c.basis == [code];
    }
  }

  lemma CleanMeansRules(c: GoldCase)
    requires forall code :: !Violates(c, code)
    ensures ConditionalRules(c) && BeyondSchema(c)
  {
    assert !Violates(c, OfRetrieval(EVIDENCE_GROUP_ROLE_OVERLAP)) && !Violates(c, OfStatus(TARGET_MODEL_FORBIDDEN));
    assert !Violates(c, OfStatus(ACTIVE_CASE_CANNOT_BE_REJECTED));
    assert !Violates(c, OfStatus(REJECTED_CASE_REVIEW_STATUS_MISMATCH));
    RetrievalRules(c);
    BasisRules(c);
    SafetyRules(c);
  }

  lemma RetrievalRules(c: GoldCase)
    requires forall code :: !Violates(c, code)
    ensures c.outcome == EVIDENCE ==> c.path == PgvectorQuery && c.required != [] && c.policy != NONE
    ensures c.outcome == NO_EVIDENCE ==> c.required == [] && c.supporting == [] && c.policy == NONE
    ensures EvidenceAbsent in c.basis <==> c.outcome == NO_EVIDENCE && c.path == PgvectorQuery
    ensures PolicyBlock in c.basis <==> c.IsBlocked()
  {
    assert !Violates(c, OfRetrieval(EVIDENCE_REQUIRES_QUERY_PATH));
    assert !Violates(c, OfRetrieval(EVIDENCE_REQUIRES_REQUIRED_GROUP));
    assert !Violates(c, OfRetrieval(EVIDENCE_REQUIRES_ANY_OR_ALL));
    assert !Violates(c, OfRetrieval(NO_EVIDENCE_REQUIRES_EMPTY_GROUPS));
    assert !Violates(c, OfRetrieval(NO_EVIDENCE_REQUIRES_NONE));
    assert !Violates(c, OfPath(CORPUS_ABSENCE_BASIS_MISMATCH));
    assert !Violates(c, OfPath(NO_EVIDENCE_BASIS_PATH_MISMATCH)) && !Violates(c, OfPath(POLICY_BLOCK_REQUIRES_BASIS));
    assert !Violates(c, OfPath(POLICY_BLOCK_BASIS_PATH_MISMATCH));
  }

  lemma BasisRules(c: GoldCase)
    requires forall code :: !Violates(c, code)
    ensures c.HasSourceCondition() <==> c.conditions != []
    ensures c.HasSourceCondition() ==> c.outcome == EVIDENCE
    ensures NoBasis in c.basis ==> c.basis == [NoBasis] && c.consultation == NotNeeded
    ensures SourceConditionPending in c.basis ==>
              c.basis == [SourceConditionPending] && c.consultation == Conditional
    ensures c.HasImmediateBasis() ==> c.consultation == Required
  {
    assert !Violates(c, OfBasis(SOURCE_CONDITION_REFERENCE_REQUIRED));
    assert !Violates(c, OfBasis(CONDITION_REFERENCE_WITHOUT_SOURCE_BASIS));
    assert !Violates(c, OfPath(SOURCE_CONDITION_REQUIRES_EVIDENCE));
    assert !Violates(c, OfBasis(NONE_BASIS_MUST_BE_EXCLUSIVE)) && !Violates(c, OfBasis(NONE_BASIS_REQUIRES_NONE));
    assert !Violates(c, OfBasis(PENDING_BASIS_MUST_BE_EXCLUSIVE));
    assert !Violates(c, OfBasis(PENDING_BASIS_REQUIRES_CONDITIONAL));
    assert !Violates(c, OfBasis(IMMEDIATE_BASIS_REQUIRES_REQUIRED));
  }

  lemma SafetyRules(c: GoldCase)
    requires forall code :: !Violates(c, code)
    ensures DangerSafety in c.basis <==> c.risk == Danger
    ensures c.risk == Danger ==> c.usage in {PartialStop, TotalStop}
    ensures c.usage == TotalStop ==> c.risk == Danger
    ensures c.risk == Danger || c.usage == PendingConsultation ==> c.consultation == Required
  {
    assert !Violates(c, OfSafety(PENDING_CONSULTATION_REQUIRES_REQUIRED));
    assert !Violates(c, OfSafety(DANGER_REQUIRES_CONSULTATION));
    assert !Violates(c, OfSafety(DANGER_REQUIRES_SAFETY_BASIS));
    assert !Violates(c, OfSafety(DANGER_USAGE_STATUS_INVALID));
    assert !Violates(c, OfSafety(DANGER_BASIS_REQUIRES_DANGER_RISK));
    assert !Violates(c, OfSafety(TOTAL_STOP_REQUIRES_DANGER_RISK));
  }

  lemma RulesMeanClean(c: GoldCase, code: LogicCode)
    requires ConditionalRules(c)
    requires code != OfRetrieval(EVIDENCE_GROUP_ROLE_OVERLAP) && code != OfStatus(TARGET_MODEL_FORBIDDEN)
    ensures !Violates(c, code)
  {
    if NoBasis in c.basis {
      AloneIffSingle(c, NoBasis);
    }
    if SourceConditionPending in c.basis {
      AloneIffSingle(c, SourceConditionPending);
    }
  }

  /** The logic check is clean exactly when the schema's conditional rules hold and two relations beyond them do. */
  lemma CleanIffSchemaRules(c: GoldCase, errors: seq<LogicCode>)
    requires IsReport(c, errors)
    ensures errors == [] <==> ConditionalRules(c) && BeyondSchema(c)
  {
    EmptyIffNothingViolated(c, errors);
    if errors == [] {
      CleanMeansRules(c);
    }
    if ConditionalRules(c) && BeyondSchema(c) {
      forall code
        ensures !Violates(c, code)
      {
        if code != OfRetrieval(EVIDENCE_GROUP_ROLE_OVERLAP) && code != OfStatus(TARGET_MODEL_FORBIDDEN) {
          RulesMeanClean(c, code);
        }
      }
    }
  }

  /** A schema-valid row can only be reported for overlapping roles or for forbidding its own product. */
  lemma SchemaValidReportsOnlyTwoCodes(c: GoldCase, errors: seq<LogicCode>, code: LogicCode)
    requires IsReport(c, errors) && ConditionalRules(c)
    ensures code in errors <==>
            || (code == OfRetrieval(EVIDENCE_GROUP_ROLE_OVERLAP) && !(ToSet(c.required) !! ToSet(c.supporting)))
            || (code == OfStatus(TARGET_MODEL_FORBIDDEN) && c.product in c.forbiddenModels)
  {
    EmptyIffNothingViolated(c, errors);
    if code != OfRetrieval(EVIDENCE_GROUP_ROLE_OVERLAP) && code != OfStatus(TARGET_MODEL_FORBIDDEN) {
      RulesMeanClean(c, code);
    }
  }

  // ---------------------------------------------------------------- what an accepted case means

  /** The consultation requirement is determined by the basis codes. */
  lemma BasisDecidesConsultation(c: GoldCase, errors: seq<LogicCode>)
    requires IsReport(c, errors)
    requires c.basis != [] && errors == []
    ensures c.consultation == NotNeeded <==> c.basis == [NoBasis]
    ensures c.consultation == Conditional <==> c.basis == [SourceConditionPending]
    ensures c.consultation == Required <==> c.HasImmediateBasis()
  {
    EmptyIffNothingViolated(c, errors);
    BasisRules(c);
    hide Violates;
    var first := c.basis[0];
    assert first in c.basis;
    match first {
      case NoBasis =>
      case SourceConditionPending =>
      case _ => assert c.HasImmediateBasis();
    }
  }

  /** The basis set of a case that expects no evidence: why, and danger if there is any. */
  function AbsenceBasis(c: GoldCase): set<Basis> {
    {if c.IsBlocked() then PolicyBlock else EvidenceAbsent} + if c.risk == Danger then {DangerSafety} else {}
  }

  /** Outcome, path and risk determine the basis of a case that expects no evidence. */
  lemma BasisOfAbsence(c: GoldCase, errors: seq<LogicCode>)
    requires IsReport(c, errors)
    requires c.basis != [] && errors == [] && c.outcome == NO_EVIDENCE
    ensures ToSet(c.basis) == AbsenceBasis(c)
  {
    EmptyIffNothingViolated(c, errors);
    RetrievalRules(c);
    BasisRules(c);
    SafetyRules(c);
    hide Violates;
    var expected := AbsenceBasis(c);
    forall code: Basis
      ensures code in c.basis <==> code in expected
    {
      match code {
        case NoBasis =>
        case _ =>
      }
    }
  }

  /** A case that expects evidence rests on no basis, a pending condition, a met condition or danger. */
  lemma BasisOfEvidence(c: GoldCase, errors: seq<LogicCode>)
    requires IsReport(c, errors)
    requires c.basis != [] && errors == [] && c.outcome == EVIDENCE
    ensures EvidenceAbsent !in c.basis && PolicyBlock !in c.basis
    ensures DangerSafety in c.basis <==> c.risk == Danger
    ensures c.conditions == [] <==> ToSet(c.basis) == {NoBasis} || ToSet(c.basis) == {DangerSafety}
  {
    EmptyIffNothingViolated(c, errors);
    RetrievalRules(c);
    BasisRules(c);
    SafetyRules(c);
    hide Violates;
    assert c.basis[0] in c.basis;
    if c.conditions == [] {
      forall code | code in c.basis
        ensures code == NoBasis || code == DangerSafety
      {
      }
      if NoBasis !in c.basis {
        assert ToSet(c.basis) == {DangerSafety};
      }
    } else if ToSet(c.basis) == {NoBasis} || ToSet(c.basis) == {DangerSafety} {
      assert forall code :: code in c.basis <==> code in ToSet(c.basis);
    }
  }

  // ---------------------------------------------------------------- the scorer reads the case

  function PathText(path: ExecutionPath): string {
    match path
    case PgvectorQuery => PGVECTOR_QUERY
    case BlockProductMismatch => "POLICY_BLOCK_PRODUCT_MISMATCH"
    case BlockUnsupportedModel => "POLICY_BLOCK_UNSUPPORTED_MODEL"
    case BlockUnsupportedCapability => "POLICY_BLOCK_UNSUPPORTED_CAPABILITY"
    case BlockOutOfManualScope => "POLICY_BLOCK_OUT_OF_MANUAL_SCOPE"
    case BlockUnverifiedSource => "POLICY_BLOCK_UNVERIFIED_SOURCE"
  }

  function PolicyText(policy: Policy): string {
    match policy
    case ANY => "ANY"
    case ALL => "ALL"
    case NONE => "NONE"
  }

  function OutcomeText(outcome: Outcome): string {
    match outcome
    case EVIDENCE => "EVIDENCE"
    case NO_EVIDENCE => "NO_EVIDENCE"
  }

  ghost predicate Lists(row: Row, field: Field, texts: seq<string>) {
    && Get(row, field).Arr?
    && |Get(row, field).items| == |texts|
    && forall i :: 0 <= i < |texts| ==> Get(row, field).items[i] == Str(texts[i])
  }

  /** The row carries these values in the fields the scorer reads. */
  ghost predicate Represents(row: Row, c: GoldCase) {
    && Get(row, ProductModelCode) == Str(c.product)
    && Get(row, EvidenceMatchPolicy) == Str(PolicyText(c.policy))
    && Get(row, ExpectedRetrievalOutcome) == Str(OutcomeText(c.outcome))
    && Get(row, ExpectedExecutionPath) == Str(PathText(c.path))
    && Lists(row, RequiredEvidenceGroupIds, c.required)
    && Lists(row, SupportingEvidenceGroupIds, c.supporting)
    && Lists(row, ForbiddenDocumentIds, c.forbiddenDocuments)
    && Lists(row, ForbiddenModelCodes, c.forbiddenModels)
  }

  function ContractOf(c: GoldCase): Contract {
    Contract(c.product, c.policy, c.outcome, PathText(c.path), c.required, c.supporting,
             c.forbiddenDocuments, c.forbiddenModels)
  }

  lemma ListIsRead(row: Row, field: Field, texts: seq<string>)
    requires Lists(row, field, texts) && UniqueTexts(texts)
    ensures ReadList(row, field) == Success(texts)
  {
    var value := Get(row, field);
    forall i | 0 <= i < |value.items|
      ensures IsText(value.items[i])
    {
      assert value.items[i] == Str(texts[i]);
    }
    assert Texts(value) == texts;
  }

  lemma PolicyIsRead(policy: Policy)
    ensures ReadPolicy(Str(PolicyText(policy))) == Success(policy)
  {
    assert "ANY"[1] == 'N' && "ALL"[1] == 'L' && |"NONE"| == 4;
  }

  lemma OutcomeIsRead(outcome: Outcome)
    ensures ReadOutcome(Str(OutcomeText(outcome))) == Success(outcome)
  {
  }

  lemma PathIsRead(path: ExecutionPath)
    ensures ReadText(Str(PathText(path)), ExpectedPathMissing) == Success(PathText(path))
    ensures PathText(path) == PGVECTOR_QUERY <==> path == PgvectorQuery
    ensures PathText(path) in POLICY_BLOCK_PATHS <==> path != PgvectorQuery
  {
    assert PathText(path)[1] == 'G' <==> path == PgvectorQuery;
    assert forall text :: text in POLICY_BLOCK_PATHS ==> text[1] == 'O';
  }

  /** Reading a row that passes the field rules fails only for the four relational reasons. */
  lemma FieldsAreRead(row: Row, c: GoldCase)
    requires c.FieldRules() && Represents(row, c)
    ensures ReadCase(row)
         == if !(ToSet(c.required) !! ToSet(c.supporting)) then Failure(RolesOverlap)
            else if c.outcome == EVIDENCE && c.IsBlocked() then Failure(EvidencePathInvalid)
            else if c.outcome == EVIDENCE && (c.policy == NONE || c.required == []) then Failure(EvidencePolicyInvalid)
            else if c.outcome == NO_EVIDENCE && (c.policy != NONE || c.HasGroups()) then Failure(NoEvidenceNotEmpty)
            else Success(ContractOf(c))
  {
    PolicyIsRead(c.policy);
    OutcomeIsRead(c.outcome);
    PathIsRead(c.path);
    ListIsRead(row, RequiredEvidenceGroupIds, c.required);
    ListIsRead(row, SupportingEvidenceGroupIds, c.supporting);
    ListIsRead(row, ForbiddenDocumentIds, c.forbiddenDocuments);
    ListIsRead(row, ForbiddenModelCodes, c.forbiddenModels);
    hide ReadPolicy, ReadOutcome, ReadList, PathText, PolicyText, OutcomeText, Lists, UniqueTexts;
  }

  /** The list holds no code of the check's first part. */
  ghost predicate NoRetrievalCode(errors: seq<LogicCode>) {
    forall code :: code in errors ==> !code.OfRetrieval?
  }

  /** The scorer accepts a case exactly when the check's nine retrieval rules report nothing. */
  lemma ScorerReadsIffRetrievalRulesClean(row: Row, c: GoldCase, errors: seq<LogicCode>)
    requires IsReport(c, errors)
    requires c.FieldRules() && Represents(row, c)
    ensures ReadCase(row).Success? <==> NoRetrievalCode(errors)
    ensures ReadCase(row).Success? ==> ReadCase(row) == Success(ContractOf(c))
  {
    hide ReadCase, Represents, PathText;
    FieldsAreRead(row, c);
    RetrievalCleanIff(c, errors);
  }

  lemma RetrievalCleanIff(c: GoldCase, errors: seq<LogicCode>)
    requires IsReport(c, errors)
    ensures NoRetrievalCode(errors) <==>
            && ToSet(c.required) !! ToSet(c.supporting)
            && (c.outcome == EVIDENCE ==> c.path == PgvectorQuery && c.policy != NONE && c.required != [])
            && (c.outcome == NO_EVIDENCE ==> c.policy == NONE && !c.HasGroups())
  {
    EmptyIffNothingViolated(c, errors);
    if NoRetrievalCode(errors) {
      assert !Violates(c, OfRetrieval(EVIDENCE_GROUP_ROLE_OVERLAP));
      assert !Violates(c, OfRetrieval(EVIDENCE_REQUIRES_QUERY_PATH));
      assert !Violates(c, OfRetrieval(EVIDENCE_REQUIRES_REQUIRED_GROUP));
      assert !Violates(c, OfRetrieval(EVIDENCE_REQUIRES_ANY_OR_ALL));
      assert !Violates(c, OfRetrieval(NO_EVIDENCE_REQUIRES_EMPTY_GROUPS));
      assert !Violates(c, OfRetrieval(NO_EVIDENCE_REQUIRES_NONE));
    }
  }

  /** Every case the check passes is one the scorer accepts, and its three kinds exclude each other. */
  lemma CleanCaseIsScored(row: Row, c: GoldCase, errors: seq<LogicCode>)
    requires IsReport(c, errors)
    requires c.FieldRules() && Represents(row, c) && errors == []
    ensures ReadCase(row) == Success(ContractOf(c))
    ensures c.outcome == EVIDENCE ==> c.path == PgvectorQuery
    ensures ContractOf(c).expectedPath == PGVECTOR_QUERY || ContractOf(c).expectedPath in POLICY_BLOCK_PATHS
    ensures ContractOf(c).expectedPath in POLICY_BLOCK_PATHS ==>
              c.outcome == NO_EVIDENCE && ContractOf(c).expectedPath != PGVECTOR_QUERY
  {
    ScorerReadsIffRetrievalRulesClean(row, c, errors);
    PathIsRead(c.path);
    EmptyIffNothingViolated(c, errors);
    RetrievalRules(c);
    hide ReadCase, Represents, PathText, Violates;
  }
}
