/** The Gold, Evidence Group, Child and Corpus lineage checker. */
module Compatibility {
  import opened Collections
  import opened Json
  import opened Sorting

  datatype JsonlRow = JsonlRow(line: int, value: Row)

  datatype Source = GOLD | GROUPS | CHILDREN | CORPUS

  datatype Code =
    | GOLD_CASE_ID_MISSING
    | DUPLICATE_GOLD_CASE_ID
    | EVIDENCE_GROUP_ID_MISSING
    | DUPLICATE_EVIDENCE_GROUP_ID
    | CHILD_ID_MISSING
    | DUPLICATE_CHILD_ID
    | CORPUS_CHUNK_ID_MISSING
    | DUPLICATE_CORPUS_CHUNK_ID
    | CORPUS_SOURCE_RECORD_ID_MISSING
    | DUPLICATE_CORPUS_SOURCE_RECORD_ID
    | GROUP_SCHEMA_CONTRACT_INVALID
    | GROUP_SCHEMA_VALIDATION_ERROR
    | GOLD_EVALUATION_STATUS_INVALID
    | GOLD_PRODUCT_MODEL_CODE_INVALID
    | GOLD_REQUIRED_GROUP_IDS_INVALID
    | GOLD_REQUIRED_GROUP_ID_DUPLICATE
    | GOLD_SUPPORTING_GROUP_IDS_INVALID
    | GOLD_SUPPORTING_GROUP_ID_DUPLICATE
    | GOLD_REQUIRED_SUPPORTING_OVERLAP
    | GOLD_CONDITION_IDS_INVALID
    | GOLD_CONDITION_ID_DUPLICATE
    | GOLD_EVIDENCE_EXECUTION_PATH_INVALID
    | GOLD_EVIDENCE_MATCH_POLICY_INVALID
    | GOLD_SUPPORTING_ONLY_POSITIVE
    | GOLD_POSITIVE_REQUIRED_GROUP_MISSING
    | GOLD_NO_EVIDENCE_GROUPS_NOT_EMPTY
    | GOLD_NO_EVIDENCE_MATCH_POLICY_INVALID
    | GOLD_NO_EVIDENCE_EXECUTION_PATH_INVALID
    | GOLD_RETRIEVAL_OUTCOME_INVALID
    | GOLD_GROUP_PRODUCT_MISMATCH
    | GOLD_GROUP_DOCUMENT_FORBIDDEN
    | GOLD_GROUP_MODEL_FORBIDDEN
    | GROUP_CHILD_IDS_INVALID
    | GROUP_CHILD_ID_DUPLICATE
    | GROUP_SOURCE_VARIANT_IDS_INVALID
    | GROUP_SOURCE_VARIANT_ID_DUPLICATE
    | GROUP_CHILD_IDS_EMPTY
    | GROUP_SOURCE_VARIANT_IDS_EMPTY
    | GROUP_CHILD_VARIANT_CARDINALITY_MISMATCH
    | GROUP_CONSULTATION_CONDITIONS_INVALID
    | GROUP_CONSULTATION_CONDITION_INVALID
    | GROUP_CONDITION_ID_INVALID
    | DUPLICATE_GROUP_CONDITION_ID
    | GROUP_CONDITION_CHILD_LINEAGE_INVALID
    | GROUP_CONDITION_PAGE_LINEAGE_INVALID
    | GROUP_CHILD_NOT_FOUND
    | CHILD_GROUP_LINEAGE_MISMATCH
    | CHILD_PRODUCT_LINEAGE_MISMATCH
    | CHILD_DOCUMENT_LINEAGE_MISMATCH
    | CHILD_PAGE_LINEAGE_MISMATCH
    | CHILD_RECORD_TYPE_INVALID
    | CHILD_RETRIEVAL_ROLE_INVALID
    | CHILD_ALLOWED_USE_INVALID
    | CHILD_VERIFICATION_STATUS_INVALID
    | CHILD_SOURCE_FILE_SHA256_INVALID
    | CHILD_TEXT_SHA256_INVALID
    | CHILD_SOURCE_VARIANT_LINEAGE_MISMATCH
    | GROUP_CHILD_SOURCE_VARIANT_COVERAGE_MISMATCH
    | GROUP_UNDECLARED_CHILD_REFERENCE
    | CHILD_GROUP_NOT_FOUND
    | GOLD_CONDITION_NOT_FOUND
    | GOLD_CONDITION_GROUP_NOT_REFERENCED
    | CORPUS_GROUP_ATTACHED_TO_UNREGISTERED_CHILD
    | GROUP_CHILD_CORPUS_LINK_MISSING
    | CORPUS_NON_CHILD_CANNOT_SATISFY_GROUP
    | CORPUS_RETRIEVAL_ROLE_INVALID
    | CORPUS_ALLOWED_USE_INVALID
    | CORPUS_VERIFICATION_STATUS_INVALID
    | CORPUS_PRODUCT_LINEAGE_MISMATCH
    | CORPUS_DOCUMENT_LINEAGE_MISMATCH
    | CORPUS_PAGE_LINEAGE_MISMATCH
    | CORPUS_GROUP_LINK_MISSING
    | CORPUS_SOURCE_VARIANT_LINEAGE_MISMATCH
    | CORPUS_SOURCE_FILE_LINEAGE_MISMATCH
    | CORPUS_CHILD_TEXT_SHA256_MISMATCH
    | CORPUS_CHILD_LINK_MISMATCH
    | REQUIRED_GROUP_SEARCH_CANDIDATE_MISSING
    | SUPPORTING_GROUP_SEARCH_CANDIDATE_MISSING
    | LOADER_ERROR(name: string)

  datatype Diagnostic = Diagnostic(code: Code, source: Source, line: Option<int>, related: Option<(Source, int)>)

  function At(code: Code, source: Source, row: JsonlRow): Diagnostic {
    Diagnostic(code, source, Some(row.line), None)
  }

  function Linked(code: Code, source: Source, row: JsonlRow, relatedSource: Source, related: JsonlRow): Diagnostic {
    Diagnostic(code, source, Some(row.line), Some((relatedSource, related.line)))
  }

  /** The error list every pass appends to. */
  class ErrorLog {
    var items: seq<Diagnostic>

    constructor (initial: seq<Diagnostic>)
      ensures items == initial
    {
      items := initial;
    }

    method Append(item: Diagnostic)
      modifies this
      ensures items == old(items) + [item]
    {
      items := items + [item];
    }
  }

  const CHILD_USES := {"EXPERIMENT_ONLY", "RAG_HANDOFF_ONLY"}
  const CORPUS_USE := "EXPERIMENT_ONLY"
  const VERIFIED := "TEXT_AND_VISUAL_VERIFIED"

  // ---------------------------------------------------------------- indexes

  type Index = map<string, JsonlRow>

  /** An index together with the errors raised while building it. */
  datatype Indexed = Indexed(index: Index, errors: seq<Diagnostic>)

  datatype IndexRule = IndexRule(field: Field, source: Source, missing: Code, duplicate: Code)

  function IndexRow(before: Indexed, rule: IndexRule, row: JsonlRow): Indexed {
    var id := Get(row.value, rule.field);
    if !IsText(id) then
      before.(errors := before.errors + [At(rule.missing, rule.source, row)])
    else if id.s in before.index then
      before.(errors := before.errors + [Linked(rule.duplicate, rule.source, row, rule.source, before.index[id.s])])
    else
      before.(index := before.index[id.s := row])
  }

  function IndexRows(rule: IndexRule, rows: seq<JsonlRow>): Indexed {
    if rows == [] then Indexed(map[], [])
    else IndexRow(IndexRows(rule, rows[..|rows| - 1]), rule, rows[|rows| - 1])
  }

  /** Keeps the first row of each identifier and reports the others. */
  method IndexUnique(rows: seq<JsonlRow>, rule: IndexRule, log: ErrorLog) returns (indexed: Index)
    modifies log
    ensures indexed == IndexRows(rule, rows).index
    ensures log.items == old(log.items) + IndexRows(rule, rows).errors
  {
    indexed := map[];
    for i := 0 to |rows|
      invariant indexed == IndexRows(rule, rows[..i]).index
      invariant log.items == old(log.items) + IndexRows(rule, rows[..i]).errors
    {
      assert rows[..i + 1][..i] == rows[..i];
      var row := rows[i];
      var id := Get(row.value, rule.field);
      if !IsText(id) {
        log.Append(At(rule.missing, rule.source, row));
        continue;
      }
      if id.s in indexed {
        log.Append(Linked(rule.duplicate, rule.source, row, rule.source, indexed[id.s]));
        continue;
      }
      indexed := indexed[id.s := row];
    }
    assert rows[..|rows|] == rows;
  }

  // ---------------------------------------------------------------- string lists

  function ListValue(row: JsonlRow, field: Field): seq<string> {
    if IsTextList(Get(row.value, field)) then Texts(Get(row.value, field)) else []
  }

  function ListErrors(row: JsonlRow, field: Field, source: Source, invalid: Code, duplicate: Code): seq<Diagnostic> {
    var value := Get(row.value, field);
    if !IsTextList(value) then [At(invalid, source, row)]
    else if !NoDuplicates(Texts(value)) then [At(duplicate, source, row)]
    else []
  }

  method StringList(row: JsonlRow, field: Field, source: Source, log: ErrorLog, invalid: Code, duplicate: Code)
    returns (texts: seq<string>)
    modifies log
    ensures texts == ListValue(row, field)
    ensures log.items == old(log.items) + ListErrors(row, field, source, invalid, duplicate)
  {
    var value := Get(row.value, field);
    if !IsTextList(value) {
      log.Append(At(invalid, source, row));
      return [];
    }
    texts := Texts(value);
    DistinctIffCardinality(texts);
    if |texts| != |ToSet(texts)| {
      log.Append(At(duplicate, source, row));
    }
  }

  // ---------------------------------------------------------------- lineage of one child, one corpus row

  function TextsOf(j: Json): set<string> {
    if j.Arr? then set i | 0 <= i < |j.items| && IsText(j.items[i]) :: j.items[i].s else {}
  }

  /** Every evidence-group id a corpus row carries, singular or in either list. */
  function GroupIdsAttached(corpus: Row): set<string> {
    (if IsText(Get(corpus, EvidenceGroupId)) then {Get(corpus, EvidenceGroupId).s} else {})
    + TextsOf(Get(corpus, EvidenceGroupIds)) + TextsOf(Get(corpus, EvidenceUnitIds))
  }

  predicate SamePageLineage(left: Json, right: Json) {
    && left.Arr? && right.Arr? && left.items != [] && right.items != []
    && IsPageList(left) && IsPageList(right)
    && Pages(left) == Pages(right)
  }

  predicate ChildPageWithinGroup(childPages: Json, groupPages: Json) {
    && childPages.Arr? && groupPages.Arr? && childPages.items != [] && groupPages.items != []
    && IsPageList(childPages) && IsPageList(groupPages)
    && Pages(childPages) <= Pages(groupPages)
  }

  /** A tested condition and the code reported when it fails. */
  datatype Check = Check(passed: bool, code: Code)

  function FailedChecks(checks: seq<Check>, source: Source, row: JsonlRow, relatedSource: Source, related: JsonlRow)
    : seq<Diagnostic>
  {
    FlatMap((c: Check) => if c.passed then [] else [Linked(c.code, source, row, relatedSource, related)], checks)
  }

  method RunChecks(checks: seq<Check>, source: Source, row: JsonlRow, relatedSource: Source, related: JsonlRow,
                   log: ErrorLog) returns (valid: bool)
    modifies log
    ensures log.items == old(log.items) + FailedChecks(checks, source, row, relatedSource, related)
    ensures valid <==> forall i :: 0 <= i < |checks| ==> checks[i].passed
  {
    valid := true;
    ghost var report := (c: Check) => if c.passed then [] else [Linked(c.code, source, row, relatedSource, related)];
    for i := 0 to |checks|
      invariant log.items == old(log.items) + FlatMap(report, checks[..i])
      invariant valid <==> forall j :: 0 <= j < i ==> checks[j].passed
    {
      FlatMapStep(report, checks, i);
      if !checks[i].passed {
        log.Append(Linked(checks[i].code, source, row, relatedSource, related));
        valid := false;
      }
    }
    assert checks[..|checks|] == checks;
  }

  function ChildChecks(group: JsonlRow, child: JsonlRow, groupId: string): seq<Check> {
    [ Check(Get(child.value, EvidenceGroupId) == Str(groupId), CHILD_GROUP_LINEAGE_MISMATCH),
      Check(Get(child.value, ExactSalesCode) == Get(group.value, ExactSalesCode), CHILD_PRODUCT_LINEAGE_MISMATCH),
      Check(Get(child.value, DocumentId) == Get(group.value, DocumentId), CHILD_DOCUMENT_LINEAGE_MISMATCH),
      Check(ChildPageWithinGroup(Get(child.value, PageRefs), Get(group.value, PageRefs)), CHILD_PAGE_LINEAGE_MISMATCH),
      Check(NamesChild(Get(child.value, RecordType)), CHILD_RECORD_TYPE_INVALID),
      Check(Get(child.value, RetrievalRole) == Str("SEARCH_CANDIDATE"), CHILD_RETRIEVAL_ROLE_INVALID),
      Check(Member(Get(child.value, AllowedUse), CHILD_USES), CHILD_ALLOWED_USE_INVALID),
      Check(Get(child.value, VerificationStatus) == Str(VERIFIED), CHILD_VERIFICATION_STATUS_INVALID),
      Check(IsSha256(Get(child.value, SourceFileSha256)), CHILD_SOURCE_FILE_SHA256_INVALID),
      Check(IsSha256(Get(child.value, ChildTextSha256)), CHILD_TEXT_SHA256_INVALID) ]
  }

  function ChildErrors(group: JsonlRow, child: JsonlRow, groupId: string): seq<Diagnostic> {
    FailedChecks(ChildChecks(group, child, groupId), CHILDREN, child, GROUPS, group)
  }

  function CorpusChecks(corpus: JsonlRow, child: JsonlRow, groupId: string): seq<Check> {
    var c, h := corpus.value, child.value;
    [ Check(NamesChild(Get(c, RecordType)), CORPUS_NON_CHILD_CANNOT_SATISFY_GROUP),
      Check(Get(c, RetrievalRole) == Str("SEARCH_CANDIDATE"), CORPUS_RETRIEVAL_ROLE_INVALID),
      Check(Get(c, AllowedUse) == Str(CORPUS_USE), CORPUS_ALLOWED_USE_INVALID),
      Check(Get(c, SourceVerificationStatus) == Str(VERIFIED), CORPUS_VERIFICATION_STATUS_INVALID),
      Check(Get(c, ExactSalesCode) == Get(h, ExactSalesCode), CORPUS_PRODUCT_LINEAGE_MISMATCH),
      Check(Get(c, DocumentId) == Get(h, DocumentId), CORPUS_DOCUMENT_LINEAGE_MISMATCH),
      Check(SamePageLineage(Get(c, PageRefs), Get(h, PageRefs)), CORPUS_PAGE_LINEAGE_MISMATCH),
      Check(groupId in GroupIdsAttached(c), CORPUS_GROUP_LINK_MISSING),
      Check(IsText(Get(c, SourceVariantId)) && Get(c, SourceVariantId) == Get(h, SourceVariantId),
            CORPUS_SOURCE_VARIANT_LINEAGE_MISMATCH),
      Check(IsSha256(Get(c, SourceFileSha256)) && Get(c, SourceFileSha256) == Get(h, SourceFileSha256),
            CORPUS_SOURCE_FILE_LINEAGE_MISMATCH),
      Check(IsSha256(Get(c, TextSha256)) && Get(c, TextSha256) == Get(h, ChildTextSha256),
            CORPUS_CHILD_TEXT_SHA256_MISMATCH),
      Check(Get(c, SourceRecordId) == Get(h, ChildId), CORPUS_CHILD_LINK_MISMATCH) ]
  }

  function CorpusErrors(corpus: JsonlRow, child: JsonlRow, groupId: string): seq<Diagnostic> {
    FailedChecks(CorpusChecks(corpus, child, groupId), CORPUS, corpus, CHILDREN, child)
  }

  /** The verdict also needs the group's product, which is checked without a diagnostic. */
  predicate CorpusMatches(corpus: JsonlRow, child: JsonlRow, group: JsonlRow, groupId: string) {
    && (forall i :: 0 <= i < |CorpusChecks(corpus, child, groupId)| ==> CorpusChecks(corpus, child, groupId)[i].passed)
    && Get(corpus.value, ExactSalesCode) == Get(group.value, ExactSalesCode)
  }

  method CorpusMatchesChild(corpus: JsonlRow, child: JsonlRow, group: JsonlRow, groupId: string, log: ErrorLog)
    returns (valid: bool)
    modifies log
    ensures log.items == old(log.items) + CorpusErrors(corpus, child, groupId)
    ensures valid <==> CorpusMatches(corpus, child, group, groupId)
  {
    valid := RunChecks(CorpusChecks(corpus, child, groupId), CORPUS, corpus, CHILDREN, child, log);
    if Get(corpus.value, ExactSalesCode) != Get(group.value, ExactSalesCode) {
      valid := false;
    }
  }

  // ---------------------------------------------------------------- gold cases

  /** A Gold case referring to a group, with the product the case is about. */
  datatype Reference = Reference(row: JsonlRow, product: string)

  type References = map<string, seq<Reference>>

  function ReferencesTo(refs: References, group: string): seq<Reference> {
    if group in refs then refs[group] else []
  }

  function AddReferences(refs: References, groups: seq<string>, reference: Reference): References {
    if groups == [] then refs
    else
      var before := AddReferences(refs, groups[..|groups| - 1], reference);
      var group := groups[|groups| - 1];
      before[group := ReferencesTo(before, group) + [reference]]
  }

  datatype ConditionReference = ConditionReference(row: JsonlRow, groups: set<string>, condition: string)

  /** The counters and reference tables filled while reading the Gold cases. */
  datatype GoldScan = GoldScan(
    active: nat,
    evidence: nat,
    noEvidence: nat,
    required: References,
    supporting: References,
    conditions: seq<ConditionReference>)

  predicate IsActive(row: JsonlRow) {
    Get(row.value, EvaluationStatus) == Str("ACTIVE")
  }

  predicate IsSkipped(row: JsonlRow) {
    Member(Get(row.value, EvaluationStatus), {"EXCLUDED", "REJECTED"})
  }

  function ProductOf(row: JsonlRow): string {
    if IsText(Get(row.value, ProductModelCode)) then Get(row.value, ProductModelCode).s else ""
  }

  function RequiredOf(row: JsonlRow): seq<string> {
    ListValue(row, RequiredEvidenceGroupIds)
  }

  function SupportingOf(row: JsonlRow): seq<string> {
    ListValue(row, SupportingEvidenceGroupIds)
  }

  function ConditionsOf(row: JsonlRow): seq<string> {
    if ConsultationConditionIds in row.value then ListValue(row, ConsultationConditionIds) else []
  }

  predicate HasOutcome(row: JsonlRow, outcome: string) {
    Get(row.value, ExpectedRetrievalOutcome) == Str(outcome)
  }

  function If(condition: bool, code: Code, source: Source, row: JsonlRow): seq<Diagnostic> {
    if condition then [At(code, source, row)] else []
  }

  function EvidenceErrors(row: JsonlRow): seq<Diagnostic> {
    If(Get(row.value, ExpectedExecutionPath) != Str("PGVECTOR_QUERY"), GOLD_EVIDENCE_EXECUTION_PATH_INVALID, GOLD, row)
    + If(!Member(Get(row.value, EvidenceMatchPolicy), {"ANY", "ALL"}), GOLD_EVIDENCE_MATCH_POLICY_INVALID, GOLD, row)
    + If(RequiredOf(row) == [],
         if SupportingOf(row) != [] then GOLD_SUPPORTING_ONLY_POSITIVE else GOLD_POSITIVE_REQUIRED_GROUP_MISSING,
         GOLD, row)
  }

  function NoEvidenceErrors(row: JsonlRow): seq<Diagnostic> {
    If(RequiredOf(row) != [] || SupportingOf(row) != [], GOLD_NO_EVIDENCE_GROUPS_NOT_EMPTY, GOLD, row)
    + If(Get(row.value, EvidenceMatchPolicy) != Str("NONE"), GOLD_NO_EVIDENCE_MATCH_POLICY_INVALID, GOLD, row)
    + If(Get(row.value, ExpectedExecutionPath) != Str("PGVECTOR_QUERY")
         && !Member(Get(row.value, ExpectedExecutionPath), POLICY_BLOCK_PATHS),
         GOLD_NO_EVIDENCE_EXECUTION_PATH_INVALID, GOLD, row)
  }

  function CaseListErrors(row: JsonlRow): seq<Diagnostic> {
    If(!IsText(Get(row.value, ProductModelCode)), GOLD_PRODUCT_MODEL_CODE_INVALID, GOLD, row)
    + ListErrors(row, RequiredEvidenceGroupIds, GOLD, GOLD_REQUIRED_GROUP_IDS_INVALID, GOLD_REQUIRED_GROUP_ID_DUPLICATE)
    + ListErrors(row, SupportingEvidenceGroupIds, GOLD, GOLD_SUPPORTING_GROUP_IDS_INVALID, GOLD_SUPPORTING_GROUP_ID_DUPLICATE)
    + If(ToSet(RequiredOf(row)) * ToSet(SupportingOf(row)) != {}, GOLD_REQUIRED_SUPPORTING_OVERLAP, GOLD, row)
    + if ConsultationConditionIds in row.value
      then ListErrors(row, ConsultationConditionIds, GOLD, GOLD_CONDITION_IDS_INVALID, GOLD_CONDITION_ID_DUPLICATE)
      else []
  }

  function CaseErrors(row: JsonlRow): seq<Diagnostic> {
    if IsSkipped(row) then []
    else if !IsActive(row) then [At(GOLD_EVALUATION_STATUS_INVALID, GOLD, row)]
    else CaseListErrors(row)
         + (if HasOutcome(row, "EVIDENCE") then EvidenceErrors(row)
            else if HasOutcome(row, "NO_EVIDENCE") then NoEvidenceErrors(row)
            else [At(GOLD_RETRIEVAL_OUTCOME_INVALID, GOLD, row)])
  }

  function ConditionReferences(row: JsonlRow): (refs: seq<ConditionReference>)
    ensures |refs| == |ConditionsOf(row)|
  {
    seq(|ConditionsOf(row)|, i requires 0 <= i < |ConditionsOf(row)| =>
      ConditionReference(row, ToSet(RequiredOf(row)) + ToSet(SupportingOf(row)), ConditionsOf(row)[i]))
  }

  function ScanCase(scan: GoldScan, row: JsonlRow): GoldScan {
    if !IsActive(row) then scan
    else
      var counted := scan.(active := scan.active + 1, conditions := scan.conditions + ConditionReferences(row));
      if HasOutcome(row, "EVIDENCE") then
        counted.(evidence := scan.evidence + 1,
                 required := AddReferences(scan.required, RequiredOf(row), Reference(row, ProductOf(row))),
                 supporting := AddReferences(scan.supporting, SupportingOf(row), Reference(row, ProductOf(row))))
      else if HasOutcome(row, "NO_EVIDENCE") then counted.(noEvidence := scan.noEvidence + 1)
      else counted
  }

  function ScanGold(rows: seq<JsonlRow>): GoldScan {
    if rows == [] then GoldScan(0, 0, 0, map[], map[], [])
    else ScanCase(ScanGold(rows[..|rows| - 1]), rows[|rows| - 1])
  }

  method RecordReferences(refs: References, groups: seq<string>, reference: Reference) returns (grown: References)
    ensures grown == AddReferences(refs, groups, reference)
  {
    grown := refs;
    for i := 0 to |groups|
      invariant grown == AddReferences(refs, groups[..i], reference)
    {
      assert groups[..i + 1][..i] == groups[..i];
      grown := grown[groups[i] := ReferencesTo(grown, groups[i]) + [reference]];
    }
    assert groups[..|groups|] == groups;
  }

  method AppendIf(condition: bool, code: Code, source: Source, row: JsonlRow, log: ErrorLog)
    modifies log
    ensures log.items == old(log.items) + If(condition, code, source, row)
  {
    if condition {
      log.Append(At(code, source, row));
    }
  }

  /** The checks shared by every active case; returns its three id lists. */
  method CheckCaseLists(row: JsonlRow, log: ErrorLog)
    returns (product: string, required: seq<string>, supporting: seq<string>, conditions: seq<string>)
    modifies log
    ensures log.items == old(log.items) + CaseListErrors(row)
    ensures product == ProductOf(row) && required == RequiredOf(row) && supporting == SupportingOf(row)
    ensures conditions == ConditionsOf(row)
  {
    ghost var start := log.items;
    ghost var e1 := If(!IsText(Get(row.value, ProductModelCode)), GOLD_PRODUCT_MODEL_CODE_INVALID, GOLD, row);
    product := "";
    if IsText(Get(row.value, ProductModelCode)) {
      product := Get(row.value, ProductModelCode).s;
    } else {
      log.Append(At(GOLD_PRODUCT_MODEL_CODE_INVALID, GOLD, row));
    }
    assert log.items == start + e1;
    required := StringList(row, RequiredEvidenceGroupIds, GOLD, log,
                           GOLD_REQUIRED_GROUP_IDS_INVALID, GOLD_REQUIRED_GROUP_ID_DUPLICATE);
    ghost var e2 := ListErrors(row, RequiredEvidenceGroupIds, GOLD,
                               GOLD_REQUIRED_GROUP_IDS_INVALID, GOLD_REQUIRED_GROUP_ID_DUPLICATE);
    assert log.items == start + (e1 + e2);
    supporting := StringList(row, SupportingEvidenceGroupIds, GOLD, log,
                             GOLD_SUPPORTING_GROUP_IDS_INVALID, GOLD_SUPPORTING_GROUP_ID_DUPLICATE);
    ghost var e3 := ListErrors(row, SupportingEvidenceGroupIds, GOLD,
                               GOLD_SUPPORTING_GROUP_IDS_INVALID, GOLD_SUPPORTING_GROUP_ID_DUPLICATE);
    assert log.items == start + (e1 + e2 + e3);
    AppendIf(ToSet(required) * ToSet(supporting) != {}, GOLD_REQUIRED_SUPPORTING_OVERLAP, GOLD, row, log);
    ghost var e4 := If(ToSet(required) * ToSet(supporting) != {}, GOLD_REQUIRED_SUPPORTING_OVERLAP, GOLD, row);
    assert log.items == start + (e1 + e2 + e3 + e4);
    conditions := [];
    if ConsultationConditionIds in row.value {
      conditions := StringList(row, ConsultationConditionIds, GOLD, log,
                               GOLD_CONDITION_IDS_INVALID, GOLD_CONDITION_ID_DUPLICATE);
    }
  }

  method CheckEvidenceCase(row: JsonlRow, required: seq<string>, supporting: seq<string>, log: ErrorLog)
    requires required == RequiredOf(row) && supporting == SupportingOf(row)
    modifies log
    ensures log.items == old(log.items) + EvidenceErrors(row)
  {
    AppendIf(Get(row.value, ExpectedExecutionPath) != Str("PGVECTOR_QUERY"),
             GOLD_EVIDENCE_EXECUTION_PATH_INVALID, GOLD, row, log);
    AppendIf(!Member(Get(row.value, EvidenceMatchPolicy), {"ANY", "ALL"}),
             GOLD_EVIDENCE_MATCH_POLICY_INVALID, GOLD, row, log);
    AppendIf(required == [],
             if supporting != [] then GOLD_SUPPORTING_ONLY_POSITIVE else GOLD_POSITIVE_REQUIRED_GROUP_MISSING,
             GOLD, row, log);
  }

  method CheckNoEvidenceCase(row: JsonlRow, required: seq<string>, supporting: seq<string>, log: ErrorLog)
    requires required == RequiredOf(row) && supporting == SupportingOf(row)
    modifies log
    ensures log.items == old(log.items) + NoEvidenceErrors(row)
  {
    AppendIf(required != [] || supporting != [], GOLD_NO_EVIDENCE_GROUPS_NOT_EMPTY, GOLD, row, log);
    AppendIf(Get(row.value, EvidenceMatchPolicy) != Str("NONE"),
             GOLD_NO_EVIDENCE_MATCH_POLICY_INVALID, GOLD, row, log);
    AppendIf(Get(row.value, ExpectedExecutionPath) != Str("PGVECTOR_QUERY")
             && !Member(Get(row.value, ExpectedExecutionPath), POLICY_BLOCK_PATHS),
             GOLD_NO_EVIDENCE_EXECUTION_PATH_INVALID, GOLD, row, log);
  }

  /** One active case: its lists, then the rules of its declared outcome. */
  method CheckActiveCase(row: JsonlRow, log: ErrorLog)
    returns (product: string, required: seq<string>, supporting: seq<string>)
    requires IsActive(row) && !IsSkipped(row)
    modifies log
    ensures log.items == old(log.items) + CaseErrors(row)
    ensures product == ProductOf(row) && required == RequiredOf(row) && supporting == SupportingOf(row)
  {
    ghost var start := log.items;
    var conditions;
    product, required, supporting, conditions := CheckCaseLists(row, log);
    if HasOutcome(row, "EVIDENCE") {
      CheckEvidenceCase(row, required, supporting, log);
      assert log.items == start + (CaseListErrors(row) + EvidenceErrors(row));
    } else if HasOutcome(row, "NO_EVIDENCE") {
      CheckNoEvidenceCase(row, required, supporting, log);
      assert log.items == start + (CaseListErrors(row) + NoEvidenceErrors(row));
    } else {
      log.Append(At(GOLD_RETRIEVAL_OUTCOME_INVALID, GOLD, row));
      assert log.items == start + (CaseListErrors(row) + [At(GOLD_RETRIEVAL_OUTCOME_INVALID, GOLD, row)]);
    }
  }

  lemma ActiveIsNotSkipped(row: JsonlRow)
    ensures !(IsActive(row) && IsSkipped(row))
  {
    assert "ACTIVE"[0] == 'A' && "EXCLUDED"[0] == 'E' && "REJECTED"[0] == 'R';
  }

  /** Counts an active case and files its group and condition references. */
  method FileCase(scan: GoldScan, row: JsonlRow, product: string, required: seq<string>, supporting: seq<string>)
    returns (filed: GoldScan)
    requires IsActive(row)
    requires product == ProductOf(row) && required == RequiredOf(row) && supporting == SupportingOf(row)
    ensures filed == ScanCase(scan, row)
  {
    filed := scan.(active := scan.active + 1, conditions := scan.conditions + ConditionReferences(row));
    if HasOutcome(row, "EVIDENCE") {
      var grownRequired := RecordReferences(scan.required, required, Reference(row, product));
      var grownSupporting := RecordReferences(scan.supporting, supporting, Reference(row, product));
      filed := filed.(evidence := scan.evidence + 1, required := grownRequired, supporting := grownSupporting);
    } else if HasOutcome(row, "NO_EVIDENCE") {
      filed := filed.(noEvidence := scan.noEvidence + 1);
    }
  }

  method ReadCase(scan: GoldScan, row: JsonlRow, log: ErrorLog) returns (filed: GoldScan)
    modifies log
    ensures filed == ScanCase(scan, row)
    ensures log.items == old(log.items) + CaseErrors(row)
  {
    hide CaseListErrors, EvidenceErrors, NoEvidenceErrors, IsActive, IsSkipped, HasOutcome;
    ActiveIsNotSkipped(row);
    if IsSkipped(row) {
      return scan;
    }
    if !IsActive(row) {
      log.Append(At(GOLD_EVALUATION_STATUS_INVALID, GOLD, row));
      return scan;
    }
    var product, required, supporting := CheckActiveCase(row, log);
    filed := FileCase(scan, row, product, required, supporting);
  }

  /** The Gold pass: validates each active case and records which groups and conditions it refers to. */
  method ReadGold(rows: seq<JsonlRow>, log: ErrorLog) returns (scan: GoldScan)
    modifies log
    ensures scan == ScanGold(rows)
    ensures log.items == old(log.items) + FlatMap(CaseErrors, rows)
  {
    hide CaseErrors, ScanCase;
    scan := ScanGold([]);
    for i := 0 to |rows|
      invariant scan == ScanGold(rows[..i])
      invariant log.items == old(log.items) + FlatMap(CaseErrors, rows[..i])
    {
      assert rows[..i + 1][..i] == rows[..i];
      FlatMapStep(CaseErrors, rows, i);
      scan := ReadCase(scan, rows[i], log);
    }
    assert rows[..|rows|] == rows;
  }

  // ---------------------------------------------------------------- evidence groups

  /** One registered group, with the child index it is checked against. */
  datatype View = View(id: string, group: JsonlRow, children: Index) {
    function ChildIdList(): seq<string> { ListValue(group, ChildIds) }

    function VariantIds(): seq<string> { ListValue(group, SourceVariantIds) }
  }

  function IfLinked(condition: bool, code: Code, source: Source, row: JsonlRow, related: JsonlRow): seq<Diagnostic> {
    if condition then [Linked(code, source, row, GROUPS, related)] else []
  }

  method AppendIfLinked(condition: bool, code: Code, source: Source, row: JsonlRow, related: JsonlRow, log: ErrorLog)
    modifies log
    ensures log.items == old(log.items) + IfLinked(condition, code, source, row, related)
  {
    if condition {
      log.Append(Linked(code, source, row, GROUPS, related));
    }
  }

  function ReferenceErrors(group: JsonlRow, reference: Reference): seq<Diagnostic> {
    var row := reference.row;
    IfLinked(Get(group.value, ExactSalesCode) != Str(reference.product), GOLD_GROUP_PRODUCT_MISMATCH, GOLD, row, group)
    + IfLinked(Member(Get(group.value, DocumentId), IteratedTexts(Get(row.value, ForbiddenDocumentIds))),
               GOLD_GROUP_DOCUMENT_FORBIDDEN, GOLD, row, group)
    + IfLinked(Member(Get(group.value, ExactSalesCode), IteratedTexts(Get(row.value, ForbiddenModelCodes))),
               GOLD_GROUP_MODEL_FORBIDDEN, GOLD, row, group)
  }

  method CheckReference(group: JsonlRow, reference: Reference, log: ErrorLog)
    modifies log
    ensures log.items == old(log.items) + ReferenceErrors(group, reference)
  {
    hide IteratedTexts, Member;
    var row := reference.row;
    AppendIfLinked(Get(group.value, ExactSalesCode) != Str(reference.product),
                   GOLD_GROUP_PRODUCT_MISMATCH, GOLD, row, group, log);
    AppendIfLinked(Member(Get(group.value, DocumentId), IteratedTexts(Get(row.value, ForbiddenDocumentIds))),
                   GOLD_GROUP_DOCUMENT_FORBIDDEN, GOLD, row, group, log);
    AppendIfLinked(Member(Get(group.value, ExactSalesCode), IteratedTexts(Get(row.value, ForbiddenModelCodes))),
                   GOLD_GROUP_MODEL_FORBIDDEN, GOLD, row, group, log);
  }

  method CheckReferences(group: JsonlRow, references: seq<Reference>, log: ErrorLog)
    modifies log
    ensures log.items == old(log.items) + FlatMap((r: Reference) => ReferenceErrors(group, r), references)
  {
    hide ReferenceErrors;
    ghost var report := (r: Reference) => ReferenceErrors(group, r);
    for i := 0 to |references|
      invariant log.items == old(log.items) + FlatMap(report, references[..i])
    {
      FlatMapStep(report, references, i);
      CheckReference(group, references[i], log);
    }
    assert references[..|references|] == references;
  }

  function GroupListErrors(group: JsonlRow): seq<Diagnostic> {
    ListErrors(group, ChildIds, GROUPS, GROUP_CHILD_IDS_INVALID, GROUP_CHILD_ID_DUPLICATE)
    + ListErrors(group, SourceVariantIds, GROUPS, GROUP_SOURCE_VARIANT_IDS_INVALID, GROUP_SOURCE_VARIANT_ID_DUPLICATE)
    + If(ListValue(group, ChildIds) == [], GROUP_CHILD_IDS_EMPTY, GROUPS, group)
    + If(ListValue(group, SourceVariantIds) == [], GROUP_SOURCE_VARIANT_IDS_EMPTY, GROUPS, group)
    + If(|ListValue(group, ChildIds)| != |ListValue(group, SourceVariantIds)|,
         GROUP_CHILD_VARIANT_CARDINALITY_MISMATCH, GROUPS, group)
  }

  method CheckGroupLists(group: JsonlRow, log: ErrorLog) returns (childIds: seq<string>, variantIds: seq<string>)
    modifies log
    ensures childIds == ListValue(group, ChildIds) && variantIds == ListValue(group, SourceVariantIds)
    ensures log.items == old(log.items) + GroupListErrors(group)
  {
    ghost var start := log.items;
    childIds := StringList(group, ChildIds, GROUPS, log, GROUP_CHILD_IDS_INVALID, GROUP_CHILD_ID_DUPLICATE);
    ghost var done := ListErrors(group, ChildIds, GROUPS, GROUP_CHILD_IDS_INVALID, GROUP_CHILD_ID_DUPLICATE);
    variantIds := StringList(group, SourceVariantIds, GROUPS, log,
                             GROUP_SOURCE_VARIANT_IDS_INVALID, GROUP_SOURCE_VARIANT_ID_DUPLICATE);
    done := done + ListErrors(group, SourceVariantIds, GROUPS,
                              GROUP_SOURCE_VARIANT_IDS_INVALID, GROUP_SOURCE_VARIANT_ID_DUPLICATE);
    assert log.items == start + done;
    AppendIf(childIds == [], GROUP_CHILD_IDS_EMPTY, GROUPS, group, log);
    done := done + If(childIds == [], GROUP_CHILD_IDS_EMPTY, GROUPS, group);
    assert log.items == start + done;
    AppendIf(variantIds == [], GROUP_SOURCE_VARIANT_IDS_EMPTY, GROUPS, group, log);
    done := done + If(variantIds == [], GROUP_SOURCE_VARIANT_IDS_EMPTY, GROUPS, group);
    assert log.items == start + done;
    AppendIf(|childIds| != |variantIds|, GROUP_CHILD_VARIANT_CARDINALITY_MISMATCH, GROUPS, group, log);
  }

  // ---------------------------------------------------------------- consultation conditions

  type Owners = map<string, string>

  datatype ConditionScan = ConditionScan(owners: Owners, errors: seq<Diagnostic>)

  predicate ChildLineageValid(view: View, condition: Row) {
    var sources := Get(condition, SourceChildIds);
    IsTextList(sources) && sources.items != [] && ToSet(Texts(sources)) <= ToSet(view.ChildIdList())
  }

  predicate ChildHasPages(children: Index, child: string) {
    child in children && IsPageList(Get(children[child].value, PageRefs))
  }

  /** The pages of the selected children, if every one of them is found with a page list. */
  function SelectedPages(children: Index, sources: seq<string>): Option<set<int>> {
    if sources == [] then Some({})
    else
      var before := SelectedPages(children, sources[..|sources| - 1]);
      var child := sources[|sources| - 1];
      if before.None? || !ChildHasPages(children, child) then None
      else Some(before.value + Pages(Get(children[child].value, PageRefs)))
  }

  function SelectedFor(view: View, condition: Row): Option<set<int>> {
    if ChildLineageValid(view, condition)
    then SelectedPages(view.children, Texts(Get(condition, SourceChildIds)))
    else None
  }

  predicate PageLineageValid(view: View, condition: Row) {
    var pages := Get(condition, SourcePageRefs);
    && IsPageList(pages) && pages.items != []
    && Pages(pages) <= Pages(Get(view.group.value, PageRefs))
    && SelectedFor(view, condition).Some?
    && Pages(pages) <= SelectedFor(view, condition).value
  }

  function ConditionErrors(view: View, owners: Owners, condition: Row): seq<Diagnostic>
    requires IsText(Get(condition, ConditionId))
  {
    If(Get(condition, ConditionId).s in owners, DUPLICATE_GROUP_CONDITION_ID, GROUPS, view.group)
    + If(!ChildLineageValid(view, condition), GROUP_CONDITION_CHILD_LINEAGE_INVALID, GROUPS, view.group)
    + If(!PageLineageValid(view, condition), GROUP_CONDITION_PAGE_LINEAGE_INVALID, GROUPS, view.group)
  }

  /** The errors of one list entry, given the conditions already owned. */
  function ConditionValueErrors(view: View, owners: Owners, condition: Json): seq<Diagnostic> {
    if !condition.Obj? then [At(GROUP_CONSULTATION_CONDITION_INVALID, GROUPS, view.group)]
    else if !IsText(Get(condition.fields, ConditionId)) then [At(GROUP_CONDITION_ID_INVALID, GROUPS, view.group)]
    else ConditionErrors(view, owners, condition.fields)
  }

  /** The first group to name a condition id owns it. */
  function OwnersAfter(view: View, owners: Owners, condition: Json): Owners {
    if condition.Obj? && IsText(Get(condition.fields, ConditionId)) && Get(condition.fields, ConditionId).s !in owners
    then owners[Get(condition.fields, ConditionId).s := view.id]
    else owners
  }

  function ScanCondition(view: View, scan: ConditionScan, condition: Json): ConditionScan {
    ConditionScan(OwnersAfter(view, scan.owners, condition),
                  scan.errors + ConditionValueErrors(view, scan.owners, condition))
  }

  function ScanConditions(view: View, owners: Owners, conditions: seq<Json>): ConditionScan {
    if conditions == [] then ConditionScan(owners, [])
    else ScanCondition(view, ScanConditions(view, owners, conditions[..|conditions| - 1]), conditions[|conditions| - 1])
  }

  function ConditionList(group: JsonlRow): seq<Json> {
    var value := Get(group.value, ConsultationConditions);
    if value.Arr? then value.items else []
  }

  /** A missing list reads as empty; anything present that is not a list is reported. */
  function ConditionListErrors(group: JsonlRow): seq<Diagnostic> {
    If(ConsultationConditions in group.value && !group.value[ConsultationConditions].Arr?,
       GROUP_CONSULTATION_CONDITIONS_INVALID, GROUPS, group)
  }

  /** Adds up the selected children's pages, giving up at the first child without a page list. */
  method CollectPages(children: Index, sources: seq<string>) returns (pages: Option<set<int>>)
    ensures pages == SelectedPages(children, sources)
  {
    var selected: set<int> := {};
    for i := 0 to |sources|
      invariant SelectedPages(children, sources[..i]) == Some(selected)
    {
      assert sources[..i + 1][..i] == sources[..i];
      if !ChildHasPages(children, sources[i]) {
        MissingPagesAreFinal(children, sources, i + 1);
        return None;
      }
      selected := selected + Pages(Get(children[sources[i]].value, PageRefs));
    }
    assert sources[..|sources|] == sources;
    pages := Some(selected);
  }

  lemma {:induction false} MissingPagesAreFinal(children: Index, sources: seq<string>, n: nat)
    requires n <= |sources|
    ensures SelectedPages(children, sources[..n]).None? ==> SelectedPages(children, sources).None?
    decreases |sources|
  {
    if n < |sources| {
      assert sources[..|sources| - 1][..n] == sources[..n];
      MissingPagesAreFinal(children, sources[..|sources| - 1], n);
    } else {
      assert sources[..n] == sources;
    }
  }

  method CheckSelectedPages(view: View, condition: Row, log: ErrorLog)
    modifies log
    ensures log.items == old(log.items)
                         + If(!PageLineageValid(view, condition), GROUP_CONDITION_PAGE_LINEAGE_INVALID, GROUPS, view.group)
  {
    hide IsPageList, Pages, ChildLineageValid, SelectedPages;
    var selected: Option<set<int>> := None;
    if ChildLineageValid(view, condition) {
      SourcesAreTexts(view, condition);
      selected := CollectPages(view.children, Texts(Get(condition, SourceChildIds)));
    }
    var pages := Get(condition, SourcePageRefs);
    PageListsAreLists(pages);
    if !IsPageList(pages) || pages.items == [] || !(Pages(pages) <= Pages(Get(view.group.value, PageRefs)))
       || selected.None? || !(Pages(pages) <= selected.value) {
      log.Append(At(GROUP_CONDITION_PAGE_LINEAGE_INVALID, GROUPS, view.group));
    }
  }

  lemma SourcesAreTexts(view: View, condition: Row)
    requires ChildLineageValid(view, condition)
    ensures IsTextList(Get(condition, SourceChildIds))
  {
  }

  lemma PageListsAreLists(j: Json)
    ensures IsPageList(j) ==> j.Arr?
  {
  }

  method CheckCondition(view: View, owners: Owners, condition: Json, log: ErrorLog) returns (grown: Owners)
    modifies log
    ensures log.items == old(log.items) + ConditionValueErrors(view, owners, condition)
    ensures grown == OwnersAfter(view, owners, condition)
  {
    hide ChildLineageValid, PageLineageValid;
    if !condition.Obj? {
      log.Append(At(GROUP_CONSULTATION_CONDITION_INVALID, GROUPS, view.group));
      return owners;
    }
    if !IsText(Get(condition.fields, ConditionId)) {
      log.Append(At(GROUP_CONDITION_ID_INVALID, GROUPS, view.group));
      return owners;
    }
    var id := Get(condition.fields, ConditionId).s;
    grown := owners;
    if id in owners {
      log.Append(At(DUPLICATE_GROUP_CONDITION_ID, GROUPS, view.group));
    } else {
      grown := owners[id := view.id];
    }
    AppendIf(!ChildLineageValid(view, condition.fields), GROUP_CONDITION_CHILD_LINEAGE_INVALID, GROUPS, view.group,
             log);
    CheckSelectedPages(view, condition.fields, log);
  }

  method CheckConditions(view: View, owners: Owners, log: ErrorLog) returns (grown: Owners)
    modifies log
    ensures grown == ScanConditions(view, owners, ConditionList(view.group)).owners
    ensures log.items == old(log.items) + ConditionListErrors(view.group)
                         + ScanConditions(view, owners, ConditionList(view.group)).errors
  {
    hide OwnersAfter, ConditionValueErrors;
    AppendIf(ConsultationConditions in view.group.value && !view.group.value[ConsultationConditions].Arr?,
             GROUP_CONSULTATION_CONDITIONS_INVALID, GROUPS, view.group, log);
    ghost var start := log.items;
    var conditions := ConditionList(view.group);
    grown := owners;
    for i := 0 to |conditions|
      invariant grown == ScanConditions(view, owners, conditions[..i]).owners
      invariant log.items == start + ScanConditions(view, owners, conditions[..i]).errors
    {
      assert conditions[..i + 1][..i] == conditions[..i];
      grown := CheckCondition(view, grown, conditions[i], log);
    }
    assert conditions[..|conditions|] == conditions;
  }

  // ---------------------------------------------------------------- declared and undeclared children

  function Found(children: Index, child: string): seq<JsonlRow> {
    if child in children then [children[child]] else []
  }

  function DeclaredChildren(view: View): seq<JsonlRow> {
    FlatMap((c: string) => Found(view.children, c), view.ChildIdList())
  }

  function DeclaredChildErrors(view: View, child: string): seq<Diagnostic> {
    if child !in view.children then [At(GROUP_CHILD_NOT_FOUND, GROUPS, view.group)]
    else
      var row := view.children[child];
      ChildErrors(view.group, row, view.id)
      + IfLinked(!Member(Get(row.value, SourceVariantId), ToSet(view.VariantIds())),
                 CHILD_SOURCE_VARIANT_LINEAGE_MISMATCH, CHILDREN, row, view.group)
  }

  function VariantsOf(children: seq<JsonlRow>): seq<string> {
    if children == [] then []
    else
      var variant := Get(children[|children| - 1].value, SourceVariantId);
      VariantsOf(children[..|children| - 1]) + if variant.Str? then [variant.s] else []
  }

  /** `Counter(declared_variants) != Counter(source_variant_ids)`. */
  function CoverageErrors(view: View): seq<Diagnostic> {
    If(multiset(VariantsOf(DeclaredChildren(view))) != multiset(view.VariantIds()),
       GROUP_CHILD_SOURCE_VARIANT_COVERAGE_MISMATCH, GROUPS, view.group)
  }

  function UndeclaredErrors(view: View, child: JsonlRow): seq<Diagnostic> {
    IfLinked(Get(child.value, EvidenceGroupId) == Str(view.id)
             && !Member(Get(child.value, ChildId), ToSet(view.ChildIdList())),
             GROUP_UNDECLARED_CHILD_REFERENCE, CHILDREN, child, view.group)
  }

  method CheckDeclaredChild(view: View, childId: string, log: ErrorLog) returns (found: seq<JsonlRow>)
    modifies log
    ensures found == Found(view.children, childId)
    ensures log.items == old(log.items) + DeclaredChildErrors(view, childId)
  {
    if childId !in view.children {
      log.Append(At(GROUP_CHILD_NOT_FOUND, GROUPS, view.group));
      return [];
    }
    var child := view.children[childId];
    var _ := RunChecks(ChildChecks(view.group, child, view.id), CHILDREN, child, GROUPS, view.group, log);
    AppendIfLinked(!Member(Get(child.value, SourceVariantId), ToSet(view.VariantIds())),
                   CHILD_SOURCE_VARIANT_LINEAGE_MISMATCH, CHILDREN, child, view.group, log);
    found := [child];
  }

  method CheckDeclared(view: View, log: ErrorLog) returns (declared: seq<JsonlRow>)
    modifies log
    ensures declared == DeclaredChildren(view)
    ensures log.items == old(log.items) + FlatMap((c: string) => DeclaredChildErrors(view, c), view.ChildIdList())
  {
    hide DeclaredChildErrors, ListValue;
    var childIds := view.ChildIdList();
    ghost var report := (c: string) => DeclaredChildErrors(view, c);
    ghost var find := (c: string) => Found(view.children, c);
    declared := [];
    for i := 0 to |childIds|
      invariant declared == FlatMap(find, childIds[..i])
      invariant log.items == old(log.items) + FlatMap(report, childIds[..i])
    {
      FlatMapStep(report, childIds, i);
      FlatMapStep(find, childIds, i);
      var found := CheckDeclaredChild(view, childIds[i], log);
      declared := declared + found;
    }
    assert childIds[..|childIds|] == childIds;
  }

  method CheckCoverage(view: View, declared: seq<JsonlRow>, log: ErrorLog)
    requires declared == DeclaredChildren(view)
    modifies log
    ensures log.items == old(log.items) + CoverageErrors(view)
  {
    hide DeclaredChildren, If, ListValue;
    var variants: seq<string> := [];
    for i := 0 to |declared|
      invariant variants == VariantsOf(declared[..i])
    {
      assert declared[..i + 1][..i] == declared[..i];
      if Get(declared[i].value, SourceVariantId).Str? {
        variants := variants + [Get(declared[i].value, SourceVariantId).s];
      }
    }
    assert declared[..|declared|] == declared;
    AppendIf(multiset(variants) != multiset(view.VariantIds()),
             GROUP_CHILD_SOURCE_VARIANT_COVERAGE_MISMATCH, GROUPS, view.group, log);
  }

  method CheckUndeclared(view: View, childRows: seq<JsonlRow>, log: ErrorLog)
    modifies log
    ensures log.items == old(log.items) + FlatMap((c: JsonlRow) => UndeclaredErrors(view, c), childRows)
  {
    ghost var report := (c: JsonlRow) => UndeclaredErrors(view, c);
    for i := 0 to |childRows|
      invariant log.items == old(log.items) + FlatMap(report, childRows[..i])
    {
      FlatMapStep(report, childRows, i);
      var child := childRows[i];
      AppendIfLinked(Get(child.value, EvidenceGroupId) == Str(view.id)
                     && !Member(Get(child.value, ChildId), ToSet(view.ChildIdList())),
                     GROUP_UNDECLARED_CHILD_REFERENCE, CHILDREN, child, view.group, log);
    }
    assert childRows[..|childRows|] == childRows;
  }

  // ---------------------------------------------------------------- the pass over all groups

  /** Everything the group pass reads. */
  datatype Tables = Tables(groups: Index, children: Index, corpus: Index, childRows: seq<JsonlRow>, gold: GoldScan) {
    function ViewOf(id: string): View
      requires id in groups
    {
      View(id, groups[id], children)
    }
  }

  /** A group's errors, apart from its conditions, before and after them. */
  function ErrorsBeforeConditions(tables: Tables, view: View): seq<Diagnostic> {
    FlatMap((r: Reference) => ReferenceErrors(view.group, r),
            ReferencesTo(tables.gold.required, view.id) + ReferencesTo(tables.gold.supporting, view.id))
    + GroupListErrors(view.group)
    + ConditionListErrors(view.group)
  }

  function ErrorsAfterConditions(tables: Tables, view: View): seq<Diagnostic> {
    FlatMap((c: string) => DeclaredChildErrors(view, c), view.ChildIdList())
    + CoverageErrors(view)
    + FlatMap((c: JsonlRow) => UndeclaredErrors(view, c), tables.childRows)
  }

  function ScanGroup(tables: Tables, scan: ConditionScan, view: View): ConditionScan {
    var conditions := ScanConditions(view, scan.owners, ConditionList(view.group));
    ConditionScan(conditions.owners,
                  scan.errors + (ErrorsBeforeConditions(tables, view) + conditions.errors
                                 + ErrorsAfterConditions(tables, view)))
  }

  function ScanGroups(tables: Tables, order: seq<string>): ConditionScan
    requires forall i :: 0 <= i < |order| ==> order[i] in tables.groups
  {
    if order == [] then ConditionScan(map[], [])
    else ScanGroup(tables, ScanGroups(tables, order[..|order| - 1]), tables.ViewOf(order[|order| - 1]))
  }

  method CheckGroup(tables: Tables, view: View, owners: Owners, log: ErrorLog)
    returns (grown: Owners, declared: seq<JsonlRow>)
    modifies log
    ensures log.items == old(log.items)
                         + (ErrorsBeforeConditions(tables, view)
                            + ScanConditions(view, owners, ConditionList(view.group)).errors
                            + ErrorsAfterConditions(tables, view))
    ensures grown == ScanConditions(view, owners, ConditionList(view.group)).owners
    ensures declared == DeclaredChildren(view)
  {
    hide FlatMap, ReferenceErrors, GroupListErrors, ScanConditions, ConditionListErrors, ErrorsAfterConditions,
         DeclaredChildren, ReferencesTo;
    ghost var start := log.items;
    var references := ReferencesTo(tables.gold.required, view.id) + ReferencesTo(tables.gold.supporting, view.id);
    CheckReferences(view.group, references, log);
    var childIds, variantIds := CheckGroupLists(view.group, log);
    ghost var soFar := FlatMap((r: Reference) => ReferenceErrors(view.group, r), references) + GroupListErrors(view.group);
    assert log.items == start + soFar;
    grown := CheckConditions(view, owners, log);
    soFar := ErrorsBeforeConditions(tables, view) + ScanConditions(view, owners, ConditionList(view.group)).errors;
    assert log.items == start + soFar;
    ghost var middle := log.items;
    declared := CheckDeclaredAndCoverage(tables, view, log);
    assert log.items == middle + ErrorsAfterConditions(tables, view);
  }

  method CheckDeclaredAndCoverage(tables: Tables, view: View, log: ErrorLog) returns (declared: seq<JsonlRow>)
    modifies log
    ensures log.items == old(log.items) + ErrorsAfterConditions(tables, view)
    ensures declared == DeclaredChildren(view)
  {
    hide FlatMap, DeclaredChildErrors, CoverageErrors, UndeclaredErrors, DeclaredChildren;
    ghost var start := log.items;
    declared := CheckDeclared(view, log);
    CheckCoverage(view, declared, log);
    assert log.items == start + (FlatMap((c: string) => DeclaredChildErrors(view, c), view.ChildIdList())
                                 + CoverageErrors(view));
    CheckUndeclared(view, tables.childRows, log);
  }

  /** The group pass, in the order of the group ids. */
  method CheckGroups(tables: Tables, log: ErrorLog) returns (owners: Owners, groupChildren: map<string, seq<JsonlRow>>)
    modifies log
    ensures log.items == old(log.items) + ScanGroups(tables, SortedKeys(tables.groups.Keys)).errors
    ensures owners == ScanGroups(tables, SortedKeys(tables.groups.Keys)).owners
    ensures groupChildren == map g | g in tables.groups :: DeclaredChildren(tables.ViewOf(g))
  {
    hide ScanConditions, ErrorsBeforeConditions, ErrorsAfterConditions, DeclaredChildren, ConditionList, SortedKeys,
         Collected, ScanGroups;
    var order := SortedKeys(tables.groups.Keys);
    SortedKeysAreKeys(tables.groups.Keys);
    owners, groupChildren := map[], map[];
    CollectedNone(tables);
    ScanGroupsNone(tables);
    assert order[..0] == [];
    for i := 0 to |order|
      invariant owners == ScanGroups(tables, order[..i]).owners
      invariant log.items == old(log.items) + ScanGroups(tables, order[..i]).errors
      invariant Collected(tables, order[..i], groupChildren)
    {
      ScanGroupsStep(tables, order, i);
      CollectedStep(tables, order, i, groupChildren);
      var declared;
      owners, declared := CheckGroup(tables, tables.ViewOf(order[i]), owners, log);
      groupChildren := groupChildren[order[i] := declared];
    }
    assert order[..|order|] == order;
    CollectedAll(tables, order, groupChildren);
  }

  ghost predicate Collected(tables: Tables, order: seq<string>, groupChildren: map<string, seq<JsonlRow>>) {
    && (forall g :: g in groupChildren <==> g in order)
    && (forall g :: g in groupChildren ==> g in tables.groups && groupChildren[g] == DeclaredChildren(tables.ViewOf(g)))
  }

  lemma CollectedNone(tables: Tables)
    ensures Collected(tables, [], map[])
  {
  }

  lemma CollectedStep(tables: Tables, order: seq<string>, i: nat, groupChildren: map<string, seq<JsonlRow>>)
    requires i < |order| && order[i] in tables.groups
    requires Collected(tables, order[..i], groupChildren)
    ensures Collected(tables, order[..i + 1], groupChildren[order[i] := DeclaredChildren(tables.ViewOf(order[i]))])
  {
  }

  lemma CollectedAll(tables: Tables, order: seq<string>, groupChildren: map<string, seq<JsonlRow>>)
    requires Collected(tables, order, groupChildren)
    requires forall g :: g in tables.groups <==> g in order
    ensures groupChildren == map g | g in tables.groups :: DeclaredChildren(tables.ViewOf(g))
  {
  }

  lemma SortedKeysAreKeys(keys: set<string>)
    ensures forall i :: 0 <= i < |SortedKeys(keys)| ==> SortedKeys(keys)[i] in keys
    ensures forall k :: k in keys ==> k in SortedKeys(keys)
  {
    assert forall i :: 0 <= i < |SortedKeys(keys)| ==> SortedKeys(keys)[i] in ToSet(SortedKeys(keys));
  }

  lemma ScanGroupsNone(tables: Tables)
    ensures ScanGroups(tables, []) == ConditionScan(map[], [])
  {
  }

  lemma ScanGroupsStep(tables: Tables, order: seq<string>, i: nat)
    requires i < |order|
    requires forall j :: 0 <= j < |order| ==> order[j] in tables.groups
    ensures ScanGroups(tables, order[..i + 1])
         == ScanGroup(tables, ScanGroups(tables, order[..i]), tables.ViewOf(order[i]))
  {
    assert order[..i + 1][..i] == order[..i];
  }

  // ---------------------------------------------------------------- orphans, condition references, attachments

  function OrphanErrors(tables: Tables, child: JsonlRow): seq<Diagnostic> {
    If(!Member(Get(child.value, EvidenceGroupId), tables.groups.Keys), CHILD_GROUP_NOT_FOUND, CHILDREN, child)
  }

  function ConditionReferenceErrors(owners: Owners, reference: ConditionReference): seq<Diagnostic> {
    if reference.condition !in owners then [At(GOLD_CONDITION_NOT_FOUND, GOLD, reference.row)]
    else If(owners[reference.condition] !in reference.groups, GOLD_CONDITION_GROUP_NOT_REFERENCED, GOLD, reference.row)
  }

  /** The registered groups a corpus row is attached to. */
  function Attached(tables: Tables, corpus: JsonlRow): set<string> {
    GroupIdsAttached(corpus.value) * tables.groups.Keys
  }

  /** The row's registered child belongs to `group`. */
  predicate AttachmentOk(tables: Tables, corpus: JsonlRow, group: string) {
    var record := Get(corpus.value, SourceRecordId);
    Member(record, tables.children.Keys) && Get(tables.children[record.s].value, EvidenceGroupId) == Str(group)
  }

  function AttachmentErrors(tables: Tables, corpus: JsonlRow): seq<Diagnostic> {
    FlatMap((g: string) => If(!AttachmentOk(tables, corpus, g), CORPUS_GROUP_ATTACHED_TO_UNREGISTERED_CHILD, CORPUS, corpus),
            SortedKeys(Attached(tables, corpus)))
  }

  function OrphansErrors(tables: Tables, rows: seq<JsonlRow>): seq<Diagnostic> {
    FlatMap((c: JsonlRow) => OrphanErrors(tables, c), rows)
  }

  function ConditionReferencesErrors(owners: Owners, references: seq<ConditionReference>): seq<Diagnostic> {
    FlatMap((r: ConditionReference) => ConditionReferenceErrors(owners, r), references)
  }

  function AttachmentsErrors(tables: Tables, rows: seq<JsonlRow>): seq<Diagnostic> {
    FlatMap((c: JsonlRow) => AttachmentErrors(tables, c), rows)
  }

  method CheckOrphans(tables: Tables, log: ErrorLog)
    modifies log
    ensures log.items == old(log.items) + OrphansErrors(tables, tables.childRows)
  {
    ghost var report := (c: JsonlRow) => OrphanErrors(tables, c);
    var rows := tables.childRows;
    for i := 0 to |rows|
      invariant log.items == old(log.items) + FlatMap(report, rows[..i])
    {
      FlatMapStep(report, rows, i);
      AppendIf(!Member(Get(rows[i].value, EvidenceGroupId), tables.groups.Keys), CHILD_GROUP_NOT_FOUND, CHILDREN,
               rows[i], log);
    }
    assert rows[..|rows|] == rows;
  }

  method CheckConditionReferences(owners: Owners, references: seq<ConditionReference>, log: ErrorLog)
    modifies log
    ensures log.items == old(log.items) + ConditionReferencesErrors(owners, references)
  {
    ghost var report := (r: ConditionReference) => ConditionReferenceErrors(owners, r);
    for i := 0 to |references|
      invariant log.items == old(log.items) + FlatMap(report, references[..i])
    {
      FlatMapStep(report, references, i);
      var reference := references[i];
      if reference.condition !in owners {
        log.Append(At(GOLD_CONDITION_NOT_FOUND, GOLD, reference.row));
      } else if owners[reference.condition] !in reference.groups {
        log.Append(At(GOLD_CONDITION_GROUP_NOT_REFERENCED, GOLD, reference.row));
      }
    }
    assert references[..|references|] == references;
  }

  method CheckAttachment(tables: Tables, corpus: JsonlRow, log: ErrorLog)
    modifies log
    ensures log.items == old(log.items) + AttachmentErrors(tables, corpus)
  {
    hide AttachmentOk, SortedKeys, If, Attached;
    ghost var report := (g: string) =>
      If(!AttachmentOk(tables, corpus, g), CORPUS_GROUP_ATTACHED_TO_UNREGISTERED_CHILD, CORPUS, corpus);
    var order := SortedKeys(Attached(tables, corpus));
    for i := 0 to |order|
      invariant log.items == old(log.items) + FlatMap(report, order[..i])
    {
      FlatMapStep(report, order, i);
      AppendIf(!AttachmentOk(tables, corpus, order[i]), CORPUS_GROUP_ATTACHED_TO_UNREGISTERED_CHILD, CORPUS, corpus,
               log);
    }
    assert order[..|order|] == order;
  }

  method CheckAttachments(tables: Tables, rows: seq<JsonlRow>, log: ErrorLog)
    modifies log
    ensures log.items == old(log.items) + AttachmentsErrors(tables, rows)
  {
    hide AttachmentErrors;
    ghost var report := (c: JsonlRow) => AttachmentErrors(tables, c);
    for i := 0 to |rows|
      invariant log.items == old(log.items) + FlatMap(report, rows[..i])
    {
      FlatMapStep(report, rows, i);
      CheckAttachment(tables, rows[i], log);
    }
    assert rows[..|rows|] == rows;
  }

  // ---------------------------------------------------------------- corpus links

  predicate HasCorpus(tables: Tables, child: JsonlRow) {
    Member(Get(child.value, ChildId), tables.corpus.Keys)
  }

  function CorpusOf(tables: Tables, child: JsonlRow): JsonlRow
    requires HasCorpus(tables, child)
  {
    tables.corpus[Get(child.value, ChildId).s]
  }

  /** The child's corpus row exists and matches it in every respect. */
  predicate IsLinked(tables: Tables, view: View, child: JsonlRow) {
    HasCorpus(tables, child) && CorpusMatches(CorpusOf(tables, child), child, view.group, view.id)
  }

  function LinkErrors(tables: Tables, view: View, child: JsonlRow): seq<Diagnostic> {
    if !HasCorpus(tables, child) then [Linked(GROUP_CHILD_CORPUS_LINK_MISSING, CHILDREN, child, GROUPS, view.group)]
    else CorpusErrors(CorpusOf(tables, child), child, view.id)
  }

  function LinkedCount(tables: Tables, view: View): nat {
    Count((c: JsonlRow) => IsLinked(tables, view, c), DeclaredChildren(view))
  }

  datatype LinkScan = LinkScan(linked: nat, candidates: set<string>, errors: seq<Diagnostic>)

  function ScanLinks(tables: Tables, order: seq<string>): LinkScan
    requires forall i :: 0 <= i < |order| ==> order[i] in tables.groups
  {
    if order == [] then LinkScan(0, {}, [])
    else
      var before := ScanLinks(tables, order[..|order| - 1]);
      var view := tables.ViewOf(order[|order| - 1]);
      LinkScan(before.linked + LinkedCount(tables, view),
               if LinkedCount(tables, view) > 0 then before.candidates + {view.id} else before.candidates,
               before.errors + GroupLinkErrors(tables, view))
  }

  method CheckLink(tables: Tables, view: View, child: JsonlRow, log: ErrorLog) returns (valid: bool)
    modifies log
    ensures valid <==> IsLinked(tables, view, child)
    ensures log.items == old(log.items) + LinkErrors(tables, view, child)
  {
    hide CorpusErrors, CorpusMatches;
    if !HasCorpus(tables, child) {
      log.Append(Linked(GROUP_CHILD_CORPUS_LINK_MISSING, CHILDREN, child, GROUPS, view.group));
      return false;
    }
    valid := CorpusMatchesChild(CorpusOf(tables, child), child, view.group, view.id, log);
  }

  method CheckGroupLinks(tables: Tables, view: View, declared: seq<JsonlRow>, log: ErrorLog) returns (linked: nat)
    requires declared == DeclaredChildren(view)
    modifies log
    ensures linked == LinkedCount(tables, view)
    ensures log.items == old(log.items) + GroupLinkErrors(tables, view)
  {
    hide DeclaredChildren, IsLinked, LinkErrors, Count, FlatMap;
    ghost var report := (c: JsonlRow) => LinkErrors(tables, view, c);
    ghost var link := (c: JsonlRow) => IsLinked(tables, view, c);
    linked := 0;
    FlatMapNone(report);
    CountNone(link);
    for i := 0 to |declared|
      invariant linked == Count(link, declared[..i])
      invariant log.items == old(log.items) + FlatMap(report, declared[..i])
    {
      FlatMapStep(report, declared, i);
      CountStep(link, declared, i);
      var valid := CheckLink(tables, view, declared[i], log);
      if valid {
        linked := linked + 1;
      }
    }
    assert declared[..|declared|] == declared;
  }

  function GroupLinkErrors(tables: Tables, view: View): seq<Diagnostic> {
    FlatMap((c: JsonlRow) => LinkErrors(tables, view, c), DeclaredChildren(view))
  }

  lemma ScanLinksNone(tables: Tables, order: seq<string>)
    requires |order| == 0
    ensures ScanLinks(tables, order) == LinkScan(0, {}, [])
  {
  }

  lemma ScanLinksStep(tables: Tables, order: seq<string>, i: nat)
    requires i < |order|
    requires forall j :: 0 <= j < |order| ==> order[j] in tables.groups
    ensures var before, view := ScanLinks(tables, order[..i]), tables.ViewOf(order[i]);
            ScanLinks(tables, order[..i + 1])
            == LinkScan(before.linked + LinkedCount(tables, view),
                        if LinkedCount(tables, view) > 0 then before.candidates + {view.id} else before.candidates,
                        before.errors + GroupLinkErrors(tables, view))
  {
    assert order[..i + 1][..i] == order[..i];
  }

  method CheckLinks(tables: Tables, groupChildren: map<string, seq<JsonlRow>>, log: ErrorLog)
    returns (linked: nat, candidates: set<string>)
    requires groupChildren == map g | g in tables.groups :: DeclaredChildren(tables.ViewOf(g))
    modifies log
    ensures var scan := ScanLinks(tables, SortedKeys(tables.groups.Keys));
            linked == scan.linked && candidates == scan.candidates && log.items == old(log.items) + scan.errors
  {
    hide DeclaredChildren, GroupLinkErrors, LinkedCount, SortedKeys, ScanLinks;
    var order := SortedKeys(tables.groups.Keys);
    SortedKeysAreKeys(tables.groups.Keys);
    linked, candidates := 0, {};
    ScanLinksNone(tables, order[..0]);
    for i := 0 to |order|
      invariant ScanLinks(tables, order[..i]) == LinkScan(linked, candidates, ScanLinks(tables, order[..i]).errors)
      invariant log.items == old(log.items) + ScanLinks(tables, order[..i]).errors
    {
      ScanLinksStep(tables, order, i);
      var found := CheckGroupLinks(tables, tables.ViewOf(order[i]), groupChildren[order[i]], log);
      linked := linked + found;
      if found > 0 {
        candidates := candidates + {order[i]};
      }
    }
    assert order[..|order|] == order;
  }

  function MissingCandidate(tables: Tables, candidates: set<string>, code: Code, group: string): seq<Diagnostic> {
    if group in tables.groups && group !in candidates then [At(code, GROUPS, tables.groups[group])] else []
  }

  /** Referenced groups that are registered must have a candidate; unregistered ones are passed over. */
  method CheckReferenced(tables: Tables, references: References, candidates: set<string>, code: Code, log: ErrorLog)
    returns (linked: nat)
    modifies log
    ensures linked == Count((g: string) => g in tables.groups && g in candidates, SortedKeys(references.Keys))
    ensures log.items == old(log.items)
                         + FlatMap((g: string) => MissingCandidate(tables, candidates, code, g), SortedKeys(references.Keys))
  {
    hide Count, FlatMap, SortedKeys;
    ghost var report := (g: string) => MissingCandidate(tables, candidates, code, g);
    ghost var present := (g: string) => g in tables.groups && g in candidates;
    var order := SortedKeys(references.Keys);
    linked := 0;
    FlatMapNone(report);
    CountNone(present);
    for i := 0 to |order|
      invariant linked == Count(present, order[..i])
      invariant log.items == old(log.items) + FlatMap(report, order[..i])
    {
      FlatMapStep(report, order, i);
      CountStep(present, order, i);
      if order[i] !in tables.groups {
        continue;
      }
      if order[i] in candidates {
        linked := linked + 1;
      } else {
        log.Append(At(code, GROUPS, tables.groups[order[i]]));
      }
    }
    assert order[..|order|] == order;
  }

  // ---------------------------------------------------------------- the report

  /** The four files as loaded; `schema` is the row validator, absent when the schema itself is broken. */
  datatype Inputs = Inputs(
    loaderErrors: seq<Diagnostic>,
    schema: Option<Row -> bool>,
    gold: seq<JsonlRow>,
    groups: seq<JsonlRow>,
    children: seq<JsonlRow>,
    corpus: seq<JsonlRow>)

  const GOLD_RULE := IndexRule(CaseId, GOLD, GOLD_CASE_ID_MISSING, DUPLICATE_GOLD_CASE_ID)
  const GROUP_RULE := IndexRule(EvidenceGroupId, GROUPS, EVIDENCE_GROUP_ID_MISSING, DUPLICATE_EVIDENCE_GROUP_ID)
  const CHILD_RULE := IndexRule(ChildId, CHILDREN, CHILD_ID_MISSING, DUPLICATE_CHILD_ID)
  const CHUNK_RULE := IndexRule(ChunkId, CORPUS, CORPUS_CHUNK_ID_MISSING, DUPLICATE_CORPUS_CHUNK_ID)
  const RECORD_RULE := IndexRule(SourceRecordId, CORPUS, CORPUS_SOURCE_RECORD_ID_MISSING, DUPLICATE_CORPUS_SOURCE_RECORD_ID)

  function SchemaErrors(inputs: Inputs): seq<Diagnostic> {
    if inputs.schema.None? then [Diagnostic(GROUP_SCHEMA_CONTRACT_INVALID, GROUPS, None, None)]
    else FlatMap((g: JsonlRow) => If(!inputs.schema.value(g.value), GROUP_SCHEMA_VALIDATION_ERROR, GROUPS, g), inputs.groups)
  }

  function TablesOf(inputs: Inputs): Tables {
    Tables(IndexRows(GROUP_RULE, inputs.groups).index,
           IndexRows(CHILD_RULE, inputs.children).index,
           IndexRows(RECORD_RULE, inputs.corpus).index,
           inputs.children,
           ScanGold(inputs.gold))
  }

  function IndexErrors(inputs: Inputs): seq<Diagnostic> {
    inputs.loaderErrors + SchemaErrors(inputs)
    + IndexRows(GOLD_RULE, inputs.gold).errors + IndexRows(GROUP_RULE, inputs.groups).errors
    + IndexRows(CHILD_RULE, inputs.children).errors + IndexRows(CHUNK_RULE, inputs.corpus).errors
    + IndexRows(RECORD_RULE, inputs.corpus).errors
  }

  function GroupScanOf(inputs: Inputs): ConditionScan {
    var tables := TablesOf(inputs);
    SortedKeysAreKeys(tables.groups.Keys);
    ScanGroups(tables, SortedKeys(tables.groups.Keys))
  }

  function LinkScanOf(inputs: Inputs): LinkScan {
    var tables := TablesOf(inputs);
    SortedKeysAreKeys(tables.groups.Keys);
    ScanLinks(tables, SortedKeys(tables.groups.Keys))
  }

  function LineageErrors(inputs: Inputs): seq<Diagnostic> {
    var tables := TablesOf(inputs);
    OrphansErrors(tables, inputs.children)
    + ConditionReferencesErrors(GroupScanOf(inputs).owners, tables.gold.conditions)
    + AttachmentsErrors(tables, inputs.corpus)
    + LinkScanOf(inputs).errors
  }

  function ReferencedErrors(inputs: Inputs, references: References, code: Code): seq<Diagnostic> {
    FlatMap((g: string) => MissingCandidate(TablesOf(inputs), LinkScanOf(inputs).candidates, code, g),
            SortedKeys(references.Keys))
  }

  /** Every diagnostic of the report, in the order the passes raise them. */
  function AllErrors(inputs: Inputs): seq<Diagnostic> {
    IndexErrors(inputs)
    + FlatMap(CaseErrors, inputs.gold)
    + GroupScanOf(inputs).errors
    + LineageErrors(inputs)
    + ReferencedErrors(inputs, TablesOf(inputs).gold.required, REQUIRED_GROUP_SEARCH_CANDIDATE_MISSING)
    + ReferencedErrors(inputs, TablesOf(inputs).gold.supporting, SUPPORTING_GROUP_SEARCH_CANDIDATE_MISSING)
  }

  datatype Counts = Counts(
    goldRows: nat, evidenceGroupRows: nat, childRows: nat, corpusRows: nat,
    activeCases: nat, activeEvidenceCases: nat, activeNoEvidenceCases: nat,
    referencedRequiredGroups: nat, referencedSupportingGroups: nat,
    linkedRequiredGroups: nat, linkedSupportingGroups: nat,
    linkedEvidenceGroups: nat, linkedGroupChildren: nat,
    referencedConditions: nat, registeredConditions: nat, errors: nat)

  datatype Report = Report(passed: bool, counts: Counts, errors: seq<Diagnostic>)

  function LinkedReferences(inputs: Inputs, references: References): nat {
    Count((g: string) => g in TablesOf(inputs).groups && g in LinkScanOf(inputs).candidates, SortedKeys(references.Keys))
  }

  function ReportOf(inputs: Inputs): Report {
    var tables := TablesOf(inputs);
    var errors := AllErrors(inputs);
    Report(errors == [],
           Counts(|inputs.gold|, |inputs.groups|, |inputs.children|, |inputs.corpus|,
                  tables.gold.active, tables.gold.evidence, tables.gold.noEvidence,
                  |tables.gold.required|, |tables.gold.supporting|,
                  LinkedReferences(inputs, tables.gold.required), LinkedReferences(inputs, tables.gold.supporting),
                  |LinkScanOf(inputs).candidates|, LinkScanOf(inputs).linked,
                  |tables.gold.conditions|, |GroupScanOf(inputs).owners|, |errors|),
           errors)
  }

  method CheckSchema(inputs: Inputs, log: ErrorLog)
    modifies log
    ensures log.items == old(log.items) + SchemaErrors(inputs)
  {
    if inputs.schema.None? {
      log.Append(Diagnostic(GROUP_SCHEMA_CONTRACT_INVALID, GROUPS, None, None));
      return;
    }
    ghost var report := (g: JsonlRow) => If(!inputs.schema.value(g.value), GROUP_SCHEMA_VALIDATION_ERROR, GROUPS, g);
    for i := 0 to |inputs.groups|
      invariant log.items == old(log.items) + FlatMap(report, inputs.groups[..i])
    {
      FlatMapStep(report, inputs.groups, i);
      AppendIf(!inputs.schema.value(inputs.groups[i].value), GROUP_SCHEMA_VALIDATION_ERROR, GROUPS, inputs.groups[i],
               log);
    }
    assert inputs.groups[..|inputs.groups|] == inputs.groups;
  }

  /** Loader errors, schema and the five unique indexes. */
  method BuildIndexes(inputs: Inputs, log: ErrorLog) returns (groups: Index, children: Index, corpus: Index)
    requires log.items == inputs.loaderErrors
    modifies log
    ensures log.items == IndexErrors(inputs)
    ensures groups == TablesOf(inputs).groups && children == TablesOf(inputs).children && corpus == TablesOf(inputs).corpus
  {
    hide IndexRows, SchemaErrors, ScanGold;
    CheckSchema(inputs, log);
    var cases := IndexUnique(inputs.gold, GOLD_RULE, log);
    groups := IndexUnique(inputs.groups, GROUP_RULE, log);
    children := IndexUnique(inputs.children, CHILD_RULE, log);
    var chunks := IndexUnique(inputs.corpus, CHUNK_RULE, log);
    corpus := IndexUnique(inputs.corpus, RECORD_RULE, log);
  }

  /** All passes in order over one shared error list. */
  method BuildCompatibilityReport(inputs: Inputs) returns (report: Report)
    ensures report == ReportOf(inputs)
  {
    hide IndexErrors, FlatMap, GroupScanOf, LinkScanOf, SortedKeys, Count, ScanGold, CaseErrors, IndexRows;
    var log := new ErrorLog(inputs.loaderErrors);
    var groups, children, corpus := BuildIndexes(inputs, log);
    var gold := ReadGold(inputs.gold, log);
    var tables := Tables(groups, children, corpus, inputs.children, gold);
    assert tables == TablesOf(inputs);
    ghost var errors := IndexErrors(inputs) + FlatMap(CaseErrors, inputs.gold);
    assert log.items == errors;
    var owners, groupChildren, linked, candidates := RunLineage(inputs, tables, log);
    errors := errors + GroupScanOf(inputs).errors + LineageErrors(inputs);
    assert log.items == errors;
    var linkedRequired := CheckReferenced(tables, gold.required, candidates, REQUIRED_GROUP_SEARCH_CANDIDATE_MISSING, log);
    errors := errors + ReferencedErrors(inputs, gold.required, REQUIRED_GROUP_SEARCH_CANDIDATE_MISSING);
    assert log.items == errors;
    var linkedSupporting := CheckReferenced(tables, gold.supporting, candidates, SUPPORTING_GROUP_SEARCH_CANDIDATE_MISSING, log);
    errors := errors + ReferencedErrors(inputs, gold.supporting, SUPPORTING_GROUP_SEARCH_CANDIDATE_MISSING);
    assert log.items == errors;
    report := Report(log.items == [],
                     Counts(|inputs.gold|, |inputs.groups|, |inputs.children|, |inputs.corpus|,
                            gold.active, gold.evidence, gold.noEvidence, |gold.required|, |gold.supporting|,
                            linkedRequired, linkedSupporting, |candidates|, linked,
                            |gold.conditions|, |owners|, |log.items|),
                     log.items);
  }

  method RunLineage(inputs: Inputs, tables: Tables, log: ErrorLog)
    returns (owners: Owners, groupChildren: map<string, seq<JsonlRow>>, linked: nat, candidates: set<string>)
    requires tables == TablesOf(inputs)
    modifies log
    ensures owners == GroupScanOf(inputs).owners
    ensures linked == LinkScanOf(inputs).linked && candidates == LinkScanOf(inputs).candidates
    ensures log.items == old(log.items) + GroupScanOf(inputs).errors + LineageErrors(inputs)
  {
    hide OrphansErrors, ConditionReferencesErrors, AttachmentsErrors, SortedKeys, ScanGroups, ScanLinks, TablesOf;
    owners, groupChildren := CheckGroups(tables, log);
    ghost var middle := log.items;
    CheckOrphans(tables, log);
    TablesHoldChildren(inputs);
    ghost var errors := OrphansErrors(tables, inputs.children);
    assert log.items == middle + errors;
    CheckConditionReferences(owners, tables.gold.conditions, log);
    errors := errors + ConditionReferencesErrors(owners, tables.gold.conditions);
    assert log.items == middle + errors;
    CheckAttachments(tables, inputs.corpus, log);
    errors := errors + AttachmentsErrors(tables, inputs.corpus);
    assert log.items == middle + errors;
    linked, candidates := CheckLinks(tables, groupChildren, log);
    errors := errors + LinkScanOf(inputs).errors;
    assert log.items == middle + errors;
    assert errors == LineageErrors(inputs);
  }

  lemma TablesHoldChildren(inputs: Inputs)
    ensures TablesOf(inputs).childRows == inputs.children
  {
  }
}
