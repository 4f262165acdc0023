/** The Gold v2 evidence scorer: case contract, group registry and the score of one ranking. */
module Scoring {
  import opened Collections
  import opened Json

  datatype Policy = ANY | ALL | NONE

  datatype Outcome = EVIDENCE | NO_EVIDENCE

  const PGVECTOR_QUERY := "PGVECTOR_QUERY"

  const DEFAULT_ALLOWED_USE := {"EXPERIMENT_ONLY"}
  const DEFAULT_VERIFIED := {"TEXT_AND_VISUAL_VERIFIED"}

  datatype ScoringError =
    | TopKNotPositive
    | NegativeQueryCount
    | ExecutionPathMissing
    | ProductMissing
    | PolicyUnknown
    | OutcomeUnknown
    | ExpectedPathMissing
    | ListInvalid(field: Field)
    | ListDuplicate(field: Field)
    | RolesOverlap
    | EvidencePathInvalid
    | EvidencePolicyInvalid
    | NoEvidenceNotEmpty
    | NoEvidencePathInvalid
    | RegistryKeyInvalid
    | GroupIdMissing
    | GroupKeyMismatch
    | GroupIdDuplicate
    | GroupChildless
    | ChildShared
    | GroupUnregistered
    | GroupProductMismatch
    | AllowedUseEmpty
    | VerifiedStatusEmpty
    | ChunkNotObject

  // ---------------------------------------------------------------- case contract

  /** The part of a Gold case the scorer reads, once accepted. */
  datatype Contract = Contract(
    product: string,
    policy: Policy,
    outcome: Outcome,
    expectedPath: string,
    required: seq<string>,
    supporting: seq<string>,
    forbiddenDocuments: seq<string>,
    forbiddenModels: seq<string>)
  {
    function Required(): set<string> { ToSet(required) }

    function Supporting(): set<string> { ToSet(supporting) }

    function Expected(): set<string> { Required() + Supporting() }

    /** What acceptance guarantees about outcome, path, policy and groups. */
    ghost predicate Valid() {
      && product != ""
      && NoDuplicates(required) && NoDuplicates(supporting)
      && Required() !! Supporting()
      && (outcome == EVIDENCE ==> expectedPath == PGVECTOR_QUERY && policy != NONE && required != [])
      && (outcome == NO_EVIDENCE ==>
            && policy == NONE && required == [] && supporting == []
            && (expectedPath == PGVECTOR_QUERY || expectedPath in POLICY_BLOCK_PATHS))
    }
  }

  function ReadList(row: Row, field: Field): Result<seq<string>, ScoringError> {
    var value := Get(row, field);
    if !IsTextList(value) then Failure(ListInvalid(field))
    else if !NoDuplicates(Texts(value)) then Failure(ListDuplicate(field))
    else Success(Texts(value))
  }

  function ReadPolicy(value: Json): Result<Policy, ScoringError> {
    if value == Str("ANY") then Success(ANY)
    else if value == Str("ALL") then Success(ALL)
    else if value == Str("NONE") then Success(NONE)
    else Failure(PolicyUnknown)
  }

  function ReadOutcome(value: Json): Result<Outcome, ScoringError> {
    if value == Str("EVIDENCE") then Success(EVIDENCE)
    else if value == Str("NO_EVIDENCE") then Success(NO_EVIDENCE)
    else Failure(OutcomeUnknown)
  }

  function ReadText(value: Json, error: ScoringError): Result<string, ScoringError> {
    if IsText(value) then Success(value.s) else Failure(error)
  }

  /** The checks that need only the case, in the source's order. */
  function ReadCase(row: Row): (r: Result<Contract, ScoringError>)
    ensures r.Success? ==> r.value.Valid()
  {
    var product :- ReadText(Get(row, ProductModelCode), ProductMissing);
    var policy :- ReadPolicy(Get(row, EvidenceMatchPolicy));
    var outcome :- ReadOutcome(Get(row, ExpectedRetrievalOutcome));
    var expectedPath :- ReadText(Get(row, ExpectedExecutionPath), ExpectedPathMissing);
    var required :- ReadList(row, RequiredEvidenceGroupIds);
    var supporting :- ReadList(row, SupportingEvidenceGroupIds);
    var forbiddenDocuments :- ReadList(row, ForbiddenDocumentIds);
    var forbiddenModels :- ReadList(row, ForbiddenModelCodes);
    if !(ToSet(required) !! ToSet(supporting)) then Failure(RolesOverlap)
    else if outcome == EVIDENCE && expectedPath != PGVECTOR_QUERY then Failure(EvidencePathInvalid)
    else if outcome == EVIDENCE && (policy == NONE || required == []) then Failure(EvidencePolicyInvalid)
    else if outcome == NO_EVIDENCE && (policy != NONE || required != [] || supporting != []) then
      Failure(NoEvidenceNotEmpty)
    else if outcome == NO_EVIDENCE && expectedPath != PGVECTOR_QUERY && expectedPath !in POLICY_BLOCK_PATHS then
      Failure(NoEvidencePathInvalid)
    else
      Success(Contract(product, policy, outcome, expectedPath, required, supporting,
                       forbiddenDocuments, forbiddenModels))
  }

  // ---------------------------------------------------------------- group registry

  /** One registry entry; a mapping supplies a key, a sequence does not. */
  datatype Entry = Entry(key: Option<string>, row: Row)

  /** The two indexes: group id to row, child id to its one owning group. */
  datatype Registry = Registry(groups: map<string, Row>, owner: map<string, string>)

  /** `embedded_id if embedded_id is not None else mapping_key`. */
  function EntryId(entry: Entry): Json {
    var embedded := Get(entry.row, EvidenceGroupId);
    if embedded != Null then embedded
    else if entry.key.Some? then Str(entry.key.value)
    else Null
  }

  predicate KeyAgrees(entry: Entry) {
    entry.key.None? || Get(entry.row, EvidenceGroupId) == Null
    || Get(entry.row, EvidenceGroupId) == Str(entry.key.value)
  }

  function AddChildren(owner: map<string, string>, children: seq<string>, group: string)
    : Result<map<string, string>, ScoringError>
  {
    if children == [] then Success(owner)
    else
      var before :- AddChildren(owner, children[..|children| - 1], group);
      var child := children[|children| - 1];
      if child in before then Failure(ChildShared) else Success(before[child := group])
  }

  function AddEntry(registry: Registry, entry: Entry): Result<Registry, ScoringError> {
    var id := EntryId(entry);
    if !IsText(id) then Failure(GroupIdMissing)
    else if !KeyAgrees(entry) then Failure(GroupKeyMismatch)
    else if id.s in registry.groups then Failure(GroupIdDuplicate)
    else
      var children :- ReadList(entry.row, ChildIds);
      if children == [] then Failure(GroupChildless)
      else
        var owner :- AddChildren(registry.owner, children, id.s);
        Success(Registry(registry.groups[id.s := entry.row], owner))
  }

  function AddEntries(entries: seq<Entry>): Result<Registry, ScoringError> {
    if entries == [] then Success(Registry(map[], map[]))
    else
      var before :- AddEntries(entries[..|entries| - 1]);
      AddEntry(before, entries[|entries| - 1])
  }

  predicate KeysAreText(entries: seq<Entry>) {
    forall i :: 0 <= i < |entries| ==> entries[i].key != Some("")
  }

  function BuildRegistry(entries: seq<Entry>): Result<Registry, ScoringError> {
    if !KeysAreText(entries) then Failure(RegistryKeyInvalid) else AddEntries(entries)
  }

  /** Claims each child for the group, stopping at the first one already owned. */
  method ClaimChildren(owner: map<string, string>, children: seq<string>, group: string)
    returns (r: Result<map<string, string>, ScoringError>)
    ensures r == AddChildren(owner, children, group)
  {
    var claimed := owner;
    for c := 0 to |children|
      invariant AddChildren(owner, children[..c], group) == Success(claimed)
    {
      assert children[..c + 1][..c] == children[..c];
      if children[c] in claimed {
        ChildFailureIsFinal(owner, children, group, c + 1);
        return Failure(ChildShared);
      }
      claimed := claimed[children[c] := group];
    }
    assert children[..|children|] == children;
    r := Success(claimed);
  }

  method RegisterEntry(registry: Registry, entry: Entry) returns (r: Result<Registry, ScoringError>)
    ensures r == AddEntry(registry, entry)
  {
    hide AddChildren, NoDuplicates;
    var id := EntryId(entry);
    if !IsText(id) {
      return Failure(GroupIdMissing);
    }
    if !KeyAgrees(entry) {
      return Failure(GroupKeyMismatch);
    }
    if id.s in registry.groups {
      return Failure(GroupIdDuplicate);
    }
    var children := ReadList(entry.row, ChildIds);
    if children.Failure? {
      return Failure(children.error);
    }
    if children.value == [] {
      return Failure(GroupChildless);
    }
    var owner := ClaimChildren(registry.owner, children.value, id.s);
    if owner.Failure? {
      return Failure(owner.error);
    }
    r := Success(Registry(registry.groups[id.s := entry.row], owner.value));
  }

  /** The registry loop: every entry in turn, stopping at the first fault. */
  method NormaliseGroupRegistry(entries: seq<Entry>) returns (r: Result<Registry, ScoringError>)
    ensures r == BuildRegistry(entries)
  {
    hide AddEntry;
    if !KeysAreText(entries) {
      return Failure(RegistryKeyInvalid);
    }
    var registry := Registry(map[], map[]);
    for i := 0 to |entries|
      invariant AddEntries(entries[..i]) == Success(registry)
    {
      assert entries[..i + 1][..i] == entries[..i];
      var grown := RegisterEntry(registry, entries[i]);
      if grown.Failure? {
        PrefixFailureIsFinal(entries, i + 1);
        return Failure(grown.error);
      }
      registry := grown.value;
    }
    assert entries[..|entries|] == entries;
    r := Success(registry);
  }

  lemma {:induction false} PrefixFailureIsFinal(entries: seq<Entry>, n: nat)
    requires n <= |entries|
    ensures AddEntries(entries[..n]).Failure? ==> AddEntries(entries) == AddEntries(entries[..n])
    decreases |entries|
  {
    if n < |entries| {
      var rest := entries[..|entries| - 1];
      assert rest[..n] == entries[..n];
      PrefixFailureIsFinal(rest, n);
    } else {
      assert entries[..n] == entries;
    }
  }

  lemma {:induction false} ChildFailureIsFinal(owner: map<string, string>, children: seq<string>, group: string, n: nat)
    requires n <= |children|
    ensures AddChildren(owner, children[..n], group).Failure? ==> AddChildren(owner, children, group) == Failure(ChildShared)
    decreases |children|
  {
    if n < |children| {
      var rest := children[..|children| - 1];
      assert rest[..n] == children[..n];
      ChildFailureIsFinal(owner, rest, group, n);
    } else {
      assert children[..n] == children;
      if |children| > 0 {
        var rest := children[..|children| - 1];
        assert rest[..|rest|] == rest;
        ChildFailureIsFinal(owner, rest, group, |rest|);
      }
    }
  }

  // ---------------------------------------------------------------- corpus rows

  /** A ranked result is a corpus row, or wraps one under `chunk`. */
  function CorpusRow(result: Row): Result<Row, ScoringError> {
    match Get(result, Chunk)
    case Null => Success(result)
    case Obj(fields) => Success(fields)
    case _ => Failure(ChunkNotObject)
  }

  predicate ChunksAreObjects(ranked: seq<Row>) {
    forall i :: 0 <= i < |ranked| ==> CorpusRow(ranked[i]).Success?
  }

  function CorpusRows(ranked: seq<Row>): (rows: seq<Row>)
    requires ChunksAreObjects(ranked)
    ensures |rows| == |ranked|
  {
    seq(|ranked|, i requires 0 <= i < |ranked| => CorpusRow(ranked[i]).value)
  }

  /** What one case admits among the corpus rows. */
  datatype Gate = Gate(
    product: string,
    forbiddenDocuments: set<string>,
    forbiddenModels: set<string>,
    allowedUse: set<string>,
    verified: set<string>)

  datatype Defect =
    | WRONG_PRODUCT
    | NON_CHILD
    | NON_SEARCH_CANDIDATE
    | DISALLOWED_USE
    | UNVERIFIED
    | FORBIDDEN_DOCUMENT
    | FORBIDDEN_MODEL

  /** A present `source_verification_status`, even null, hides `verification_status`. */
  function StatusOf(row: Row): Json {
    if SourceVerificationStatus in row then row[SourceVerificationStatus]
    else Get(row, VerificationStatus)
  }

  predicate HasDefect(gate: Gate, row: Row, defect: Defect) {
    match defect
    case WRONG_PRODUCT => Get(row, ExactSalesCode) != Str(gate.product)
    case NON_CHILD => !NamesChild(Get(row, RecordType))
    case NON_SEARCH_CANDIDATE => Get(row, RetrievalRole) != Str("SEARCH_CANDIDATE")
    case DISALLOWED_USE => !Member(Get(row, AllowedUse), gate.allowedUse)
    case UNVERIFIED => !Member(StatusOf(row), gate.verified)
    case FORBIDDEN_DOCUMENT => Member(Get(row, DocumentId), gate.forbiddenDocuments)
    case FORBIDDEN_MODEL => Member(Get(row, ExactSalesCode), gate.forbiddenModels)
  }

  predicate RowIsValid(gate: Gate, row: Row) {
    && Get(row, ExactSalesCode) == Str(gate.product)
    && NamesChild(Get(row, RecordType))
    && Get(row, RetrievalRole) == Str("SEARCH_CANDIDATE")
    && Member(Get(row, AllowedUse), gate.allowedUse)
    && Member(StatusOf(row), gate.verified)
    && !(Member(Get(row, DocumentId), gate.forbiddenDocuments)
         || Member(Get(row, ExactSalesCode), gate.forbiddenModels))
  }

  function CountDefect(gate: Gate, rows: seq<Row>, defect: Defect): nat {
    Count(row => HasDefect(gate, row, defect), rows)
  }

  function CountInvalid(gate: Gate, rows: seq<Row>): nat {
    Count(row => !RowIsValid(gate, row), rows)
  }

  /** The group a row stands for: only a valid row, and only through `source_record_id`. */
  function GroupOf(gate: Gate, owner: map<string, string>, row: Row): Option<string> {
    if RowIsValid(gate, row) && Member(Get(row, SourceRecordId), owner.Keys)
    then Some(owner[Get(row, SourceRecordId).s])
    else None
  }

  function Matched(gate: Gate, owner: map<string, string>, wanted: set<string>, row: Row): set<string> {
    match GroupOf(gate, owner, row)
    case Some(group) => if group in wanted then {group} else {}
    case None => {}
  }

  function MatchedByRank(gate: Gate, owner: map<string, string>, wanted: set<string>, rows: seq<Row>)
    : (byRank: seq<set<string>>)
    ensures |byRank| == |rows|
  {
    seq(|rows|, i requires 0 <= i < |rows| => Matched(gate, owner, wanted, rows[i]))
  }

  /** Child ids of matching rows, first occurrences in rank order. */
  function MatchedChildren(gate: Gate, owner: map<string, string>, expected: set<string>, rows: seq<Row>): seq<string> {
    if rows == [] then []
    else
      var before := MatchedChildren(gate, owner, expected, rows[..|rows| - 1]);
      var row := rows[|rows| - 1];
      if Matched(gate, owner, expected, row) != {} && Get(row, SourceRecordId).Str?
         && Get(row, SourceRecordId).s !in before
      then before + [Get(row, SourceRecordId).s]
      else before
  }

  // ---------------------------------------------------------------- coverage and rank

  function Covered(byRank: seq<set<string>>): set<string> {
    set i, g | 0 <= i < |byRank| && g in byRank[i] :: g
  }

  function CoveredThrough(byRank: seq<set<string>>, k: nat): set<string> {
    Covered(byRank[..Min(k, |byRank|)])
  }

  predicate Complete(byRank: seq<set<string>>, required: set<string>, policy: Policy, k: nat) {
    match policy
    case ANY => CoveredThrough(byRank, k) != {}
    case ALL => required <= CoveredThrough(byRank, k)
    case NONE => false
  }

  function LeastComplete(byRank: seq<set<string>>, required: set<string>, policy: Policy, from: nat): (r: Option<nat>)
    ensures r.Some? ==> from <= r.value <= |byRank| && Complete(byRank, required, policy, r.value)
    ensures r.Some? ==> forall k :: from <= k < r.value ==> !Complete(byRank, required, policy, k)
    ensures r.None? ==> forall k :: from <= k <= |byRank| ==> !Complete(byRank, required, policy, k)
    decreases |byRank| + 1 - from
  {
    if from > |byRank| then None
    else if Complete(byRank, required, policy, from) then Some(from)
    else LeastComplete(byRank, required, policy, from + 1)
  }

  function CompletionRankOf(byRank: seq<set<string>>, required: set<string>, policy: Policy): Option<nat> {
    LeastComplete(byRank, required, policy, 1)
  }

  method ComputeCoveredThrough(byRank: seq<set<string>>, k: nat) returns (covered: set<string>)
    ensures covered == CoveredThrough(byRank, k)
  {
    covered := {};
    var stop := Min(k, |byRank|);
    for i := 0 to stop
      invariant covered == Covered(byRank[..i])
    {
      covered := covered + byRank[i];
    }
  }

  method ComputeCompletionRank(byRank: seq<set<string>>, required: set<string>, policy: Policy)
    returns (rank: Option<nat>)
    ensures rank == CompletionRankOf(byRank, required, policy)
  {
    var r := 1;
    while r <= |byRank|
      invariant 1 <= r <= |byRank| + 1
      invariant LeastComplete(byRank, required, policy, 1) == LeastComplete(byRank, required, policy, r)
    {
      var covered := ComputeCoveredThrough(byRank, r);
      if policy == ANY && covered != {} {
        return Some(r);
      }
      if policy == ALL && required <= covered {
        return Some(r);
      }
      r := r + 1;
    }
    rank := None;
  }

  // ---------------------------------------------------------------- score

  function HitAt(byRank: seq<set<string>>, contract: Contract, topK: nat, k: nat): Option<real> {
    if contract.outcome == NO_EVIDENCE then None
    else
      var covered := CoveredThrough(byRank, Min(k, topK));
      if contract.policy == ANY then Some(if covered != {} then 1.0 else 0.0)
      else Some(if contract.Required() <= covered then 1.0 else 0.0)
  }

  function RecallAt(byRank: seq<set<string>>, contract: Contract, topK: nat, k: nat): Option<real>
    requires contract.outcome == EVIDENCE ==> contract.required != []
  {
    if contract.outcome == NO_EVIDENCE then None
    else Some(|CoveredThrough(byRank, Min(k, topK))| as real / |contract.required| as real)
  }

  datatype DefectCounts = DefectCounts(
    wrongProduct: nat,
    nonChild: nat,
    nonSearchCandidate: nat,
    disallowedUse: nat,
    unverified: nat,
    forbiddenDocument: nat,
    forbiddenModel: nat,
    invalidTopK: nat)

  function CountDefects(gate: Gate, rows: seq<Row>): DefectCounts {
    DefectCounts(
      CountDefect(gate, rows, WRONG_PRODUCT),
      CountDefect(gate, rows, NON_CHILD),
      CountDefect(gate, rows, NON_SEARCH_CANDIDATE),
      CountDefect(gate, rows, DISALLOWED_USE),
      CountDefect(gate, rows, UNVERIFIED),
      CountDefect(gate, rows, FORBIDDEN_DOCUMENT),
      CountDefect(gate, rows, FORBIDDEN_MODEL),
      CountInvalid(gate, rows))
  }

  /** The path the run took and how many vector queries it made. */
  datatype Observation = Observation(path: string, queries: int)

  datatype Score = Score(
    contract: Contract,
    observation: Observation,
    topK: nat,
    coveredRequired: set<string>,
    missingRequired: set<string>,
    coveredSupporting: set<string>,
    matchedChildren: seq<string>,
    hitAt1: Option<real>,
    hitAt3: Option<real>,
    hitAt5: Option<real>,
    recallAt1: Option<real>,
    recallAt3: Option<real>,
    recallAt5: Option<real>,
    completionRank: Option<nat>,
    mrr: Option<real>,
    executionContractPassed: bool,
    semanticPassed: Option<bool>,
    counts: DefectCounts,
    noEvidenceSuccess: Option<bool>,
    policyBlockSuccess: Option<bool>,
    passed: bool)

  function GateOf(contract: Contract, allowedUse: set<string>, verified: set<string>): Gate {
    Gate(contract.product, ToSet(contract.forbiddenDocuments), ToSet(contract.forbiddenModels), allowedUse, verified)
  }

  function ReciprocalRank(rank: Option<nat>): real {
    if rank.Some? && rank.value > 0 then 1.0 / rank.value as real else 0.0
  }

  /** The score of an accepted case: only the first topK rows are inspected, all rows decide emptiness. */
  function ScoreRows(contract: Contract, gate: Gate, owner: map<string, string>, rows: seq<Row>,
                     observation: Observation, topK: nat): Score
    requires contract.Valid()
  {
    var evaluated := rows[..Min(topK, |rows|)];
    var required := MatchedByRank(gate, owner, contract.Required(), evaluated);
    var supporting := MatchedByRank(gate, owner, contract.Supporting(), evaluated);
    var rank := if contract.outcome == EVIDENCE
                then CompletionRankOf(required, contract.Required(), contract.policy) else None;
    var counts := CountDefects(gate, evaluated);
    var queried := observation.path == contract.expectedPath && observation.queries >= 1;
    var blocked := observation.path == contract.expectedPath && observation.queries == 0;
    var semantic := HitAt(required, contract, topK, topK) == Some(1.0);
    var isEvidence := contract.outcome == EVIDENCE;
    var isAbsence := !isEvidence && contract.expectedPath == PGVECTOR_QUERY;
    var isBlock := !isEvidence && contract.expectedPath != PGVECTOR_QUERY;
    Score(
      contract, observation, topK,
      Covered(required),
      contract.Required() - Covered(required),
      Covered(supporting),
      MatchedChildren(gate, owner, contract.Expected(), evaluated),
      HitAt(required, contract, topK, 1), HitAt(required, contract, topK, 3), HitAt(required, contract, topK, 5),
      RecallAt(required, contract, topK, 1), RecallAt(required, contract, topK, 3),
      RecallAt(required, contract, topK, 5),
      rank,
      if isEvidence then Some(ReciprocalRank(rank)) else None,
      if isBlock then blocked else queried,
      if isEvidence then Some(semantic) else None,
      counts,
      if isAbsence then Some(queried && rows == []) else None,
      if isBlock then Some(blocked && rows == []) else None,
      if isEvidence then queried && semantic && counts.invalidTopK == 0
      else if isAbsence then queried && rows == []
      else blocked && rows == [])
  }

  /** All registry-dependent checks that precede the ranking. */
  function Admit(contract: Contract, entries: seq<Entry>): Result<Registry, ScoringError> {
    var registry :- BuildRegistry(entries);
    if !(contract.Expected() <= registry.groups.Keys) then Failure(GroupUnregistered)
    else if exists g :: g in contract.Expected()
                        && Get(registry.groups[g], ExactSalesCode) != Str(contract.product)
    then Failure(GroupProductMismatch)
    else Success(registry)
  }

  function ScoreCase(row: Row, ranked: seq<Row>, entries: seq<Entry>, observation: Observation, topK: int,
                     allowedUse: set<string>, verified: set<string>): Result<Score, ScoringError>
  {
    if topK < 1 then Failure(TopKNotPositive)
    else if observation.queries < 0 then Failure(NegativeQueryCount)
    else if observation.path == "" then Failure(ExecutionPathMissing)
    else
      var contract :- ReadCase(row);
      var registry :- Admit(contract, entries);
      if allowedUse == {} then Failure(AllowedUseEmpty)
      else if verified == {} then Failure(VerifiedStatusEmpty)
      else if !ChunksAreObjects(ranked) then Failure(ChunkNotObject)
      else Success(ScoreRows(contract, GateOf(contract, allowedUse, verified), registry.owner,
                             CorpusRows(ranked), observation, topK))
  }

  /** The scorer's own row loop and rank search. */
  method ScoreEvidenceCaseV2(row: Row, ranked: seq<Row>, entries: seq<Entry>, observation: Observation, topK: int,
                             allowedUse: set<string>, verified: set<string>)
    returns (r: Result<Score, ScoringError>)
    ensures r == ScoreCase(row, ranked, entries, observation, topK, allowedUse, verified)
  {
    hide ReadCase, BuildRegistry, MatchedByRank, MatchedChildren, Covered, CountDefects, CompletionRankOf;
    if topK < 1 {
      return Failure(TopKNotPositive);
    }
    if observation.queries < 0 {
      return Failure(NegativeQueryCount);
    }
    if observation.path == "" {
      return Failure(ExecutionPathMissing);
    }
    var reading := ReadCase(row);
    if reading.Failure? {
      return Failure(reading.error);
    }
    var contract := reading.value;
    var indexing := NormaliseGroupRegistry(entries);
    if indexing.Failure? {
      return Failure(indexing.error);
    }
    var registry := indexing.value;
    if !(contract.Expected() <= registry.groups.Keys) {
      return Failure(GroupUnregistered);
    }
    if exists g :: g in contract.Expected() && Get(registry.groups[g], ExactSalesCode) != Str(contract.product) {
      return Failure(GroupProductMismatch);
    }
    if allowedUse == {} {
      return Failure(AllowedUseEmpty);
    }
    if verified == {} {
      return Failure(VerifiedStatusEmpty);
    }
    if !ChunksAreObjects(ranked) {
      return Failure(ChunkNotObject);
    }
    var rows := CorpusRows(ranked);
    var evaluated := rows[..Min(topK, |rows|)];
    var gate := GateOf(contract, allowedUse, verified);
    var requiredByRank, supportingByRank, matchedChildren := ScanRows(contract, gate, registry.owner, evaluated);
    var coveredRequired := ComputeCoveredThrough(requiredByRank, |requiredByRank|);
    var coveredSupporting := ComputeCoveredThrough(supportingByRank, |supportingByRank|);
    assert requiredByRank[..|requiredByRank|] == requiredByRank;
    assert supportingByRank[..|supportingByRank|] == supportingByRank;
    var rank := None;
    if contract.outcome == EVIDENCE {
      rank := ComputeCompletionRank(requiredByRank, contract.Required(), contract.policy);
    }
    var counts := CountDefects(gate, evaluated);
    var pathMatches := observation.path == contract.expectedPath;
    var executionPassed, semanticPassed, noEvidenceSuccess, policyBlockSuccess, passed, mrr;
    if contract.outcome == EVIDENCE {
      executionPassed := pathMatches && observation.queries >= 1;
      var semantic := HitAt(requiredByRank, contract, topK, topK) == Some(1.0);
      semanticPassed := Some(semantic);
      passed := executionPassed && semantic && counts.invalidTopK == 0;
      noEvidenceSuccess, policyBlockSuccess := None, None;
      mrr := Some(ReciprocalRank(rank));
    } else if contract.expectedPath == PGVECTOR_QUERY {
      executionPassed := pathMatches && observation.queries >= 1;
      passed := executionPassed && rows == [];
      noEvidenceSuccess, policyBlockSuccess := Some(passed), None;
      semanticPassed, mrr := None, None;
    } else {
      executionPassed := pathMatches && observation.queries == 0;
      passed := executionPassed && rows == [];
      noEvidenceSuccess, policyBlockSuccess := None, Some(passed);
      semanticPassed, mrr := None, None;
    }
    r := Success(Score(
      contract, observation, topK, coveredRequired, contract.Required() - coveredRequired, coveredSupporting,
      matchedChildren,
      HitAt(requiredByRank, contract, topK, 1), HitAt(requiredByRank, contract, topK, 3),
      HitAt(requiredByRank, contract, topK, 5),
      RecallAt(requiredByRank, contract, topK, 1), RecallAt(requiredByRank, contract, topK, 3),
      RecallAt(requiredByRank, contract, topK, 5),
      rank, mrr, executionPassed, semanticPassed, counts, noEvidenceSuccess, policyBlockSuccess, passed));
  }

  lemma MatchOfRow(gate: Gate, owner: map<string, string>, wanted: set<string>, row: Row)
    ensures Matched(gate, owner, wanted, row)
         == if RowIsValid(gate, row) && Member(Get(row, SourceRecordId), owner.Keys)
               && owner[Get(row, SourceRecordId).s] in wanted
            then {owner[Get(row, SourceRecordId).s]} else {}
  {
    hide RowIsValid;
  }

  /** One pass over the evaluated rows, filling the two rank lists and the matched child ids. */
  method ScanRows(contract: Contract, gate: Gate, owner: map<string, string>, evaluated: seq<Row>)
    returns (requiredByRank: seq<set<string>>, supportingByRank: seq<set<string>>, matchedChildren: seq<string>)
    ensures requiredByRank == MatchedByRank(gate, owner, contract.Required(), evaluated)
    ensures supportingByRank == MatchedByRank(gate, owner, contract.Supporting(), evaluated)
    ensures matchedChildren == MatchedChildren(gate, owner, contract.Expected(), evaluated)
  {
    hide RowIsValid, Matched, GroupOf;
    requiredByRank, supportingByRank, matchedChildren := [], [], [];
    var seen: set<string> := {};
    for i := 0 to |evaluated|
      invariant |requiredByRank| == |supportingByRank| == i
      invariant forall j :: 0 <= j < i ==> requiredByRank[j] == Matched(gate, owner, contract.Required(), evaluated[j])
      invariant forall j :: 0 <= j < i ==> supportingByRank[j] == Matched(gate, owner, contract.Supporting(), evaluated[j])
      invariant matchedChildren == MatchedChildren(gate, owner, contract.Expected(), evaluated[..i])
      invariant seen == ToSet(matchedChildren)
    {
      var row := evaluated[i];
      var valid := RowIsValid(gate, row);
      var record := Get(row, SourceRecordId);
      var isVariant := valid && Member(record, owner.Keys);
      var required, supporting := {}, {};
      if isVariant {
        var group := owner[record.s];
        required := if group in contract.Required() then {group} else {};
        supporting := if group in contract.Supporting() then {group} else {};
      }
      requiredByRank := requiredByRank + [required];
      supportingByRank := supportingByRank + [supporting];
      assert evaluated[..i + 1][..i] == evaluated[..i];
      MatchOfRow(gate, owner, contract.Required(), row);
      MatchOfRow(gate, owner, contract.Supporting(), row);
      MatchOfRow(gate, owner, contract.Expected(), row);
      if isVariant && owner[record.s] in contract.Expected() && record.s !in seen {
        matchedChildren := matchedChildren + [record.s];
        seen := seen + {record.s};
      }
    }
    assert evaluated[..|evaluated|] == evaluated;
  }
}
