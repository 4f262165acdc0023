/** The consultation-condition overlay of the evidence group registry. */
module Overlay {
  import opened Collections
  import opened Json
  import opened Sorting

  datatype Fault =
    | CANONICAL_GROUP_COUNT_MISMATCH
    | CANONICAL_GROUP_SCHEMA_MISMATCH
    | DUPLICATE_OR_MISSING_GROUP_ID
    | DUPLICATE_OR_MISSING_CHILD_ID
    | DUPLICATE_OR_MISSING_CORPUS_SOURCE_RECORD_ID
    | CONDITION_COUNT_MISMATCH
    | CANONICAL_CONDITIONS_INVALID
    | CANONICAL_CONDITION_INVALID
    | CANONICAL_CONDITION_ID_INVALID
    | CONDITION_ROW_INVALID
    | CONDITION_KEYS_INVALID
    | CONDITION_ID_INVALID
    | CONDITION_SEMANTICS_CODE_INVALID
    | CONDITION_GROUP_NOT_FOUND
    | CONDITION_SEMANTICS_DUPLICATE
    | CONDITION_TRIGGER_INVALID
    | CONDITION_PENDING_BASIS_INVALID
    | CONDITION_MET_BASIS_INVALID
    | CONDITION_REVIEW_STATUS_INVALID
    | CONDITION_CHILD_IDS_INVALID
    | CONDITION_PAGE_REFS_INVALID
    | CONDITION_GROUP_CHILD_LINEAGE_MISMATCH
    | CONDITION_GROUP_PAGE_LINEAGE_MISMATCH
    | CONDITION_SOURCE_HASH_INVALID
    | CONDITION_CHILD_NOT_FOUND
    | CONDITION_CHILD_GROUP_LINEAGE_MISMATCH
    | CONDITION_CHILD_PRODUCT_LINEAGE_MISMATCH
    | CONDITION_CHILD_DOCUMENT_LINEAGE_MISMATCH
    | CONDITION_CHILD_PAGE_REFS_INVALID
    | CONDITION_CHILD_PAGE_LINEAGE_MISMATCH
    | CONDITION_CHILD_RECORD_TYPE_INVALID
    | CONDITION_CHILD_RETRIEVAL_ROLE_INVALID
    | CONDITION_CHILD_ALLOWED_USE_INVALID
    | CONDITION_CHILD_VERIFICATION_INVALID
    | CHILD_FREE_TEXT_CONDITION_MISSING
    | CONDITION_CORPUS_CHILD_NOT_FOUND
    | CONDITION_CORPUS_RECORD_TYPE_INVALID
    | CONDITION_CORPUS_RETRIEVAL_ROLE_INVALID
    | CONDITION_CORPUS_ALLOWED_USE_INVALID
    | CONDITION_CORPUS_VERIFICATION_INVALID
    | CONDITION_CORPUS_GROUP_LINK_MISSING
    | CONDITION_CORPUS_PRODUCT_LINEAGE_MISMATCH
    | CONDITION_CORPUS_DOCUMENT_LINEAGE_MISMATCH
    | CONDITION_CORPUS_PAGE_LINEAGE_MISMATCH
    | CONDITION_CORPUS_VARIANT_LINEAGE_MISMATCH
    | CONDITION_CORPUS_SOURCE_HASH_MISMATCH
    | CONDITION_CORPUS_TEXT_HASH_MISMATCH
    | CONDITION_SELECTED_CHILD_PAGE_LINEAGE_MISMATCH
    | CHILD_FREE_TEXT_CONDITION_HASH_MISMATCH
    | DERIVED_GROUP_SCHEMA_MISMATCH
    | CANONICAL_GROUP_FIELD_DRIFT

  /** The decoded files and contract; `schema` validates a group row, `hash` is the text digest. */
  datatype Inputs = Inputs(
    groups: seq<Row>,
    children: seq<Row>,
    corpus: seq<Row>,
    conditions: Json,
    groupCount: nat,
    conditionCount: nat,
    schema: Row -> bool,
    hash: string -> string)

  type Index = map<string, Row>

  // ---------------------------------------------------------------- strict indexes and lists

  function AddToIndex(before: Index, field: Field, fault: Fault, row: Row): Result<Index, Fault> {
    var id := Get(row, field);
    if !IsText(id) || id.s in before then Failure(fault) else Success(before[id.s := row])
  }

  function IndexRows(rows: seq<Row>, field: Field, fault: Fault): Result<Index, Fault> {
    if rows == [] then Success(map[])
    else
      var before :- IndexRows(rows[..|rows| - 1], field, fault);
      AddToIndex(before, field, fault, rows[|rows| - 1])
  }

  lemma {:induction false} IndexFaultIsFinal(rows: seq<Row>, field: Field, fault: Fault, n: nat)
    requires n <= |rows|
    ensures IndexRows(rows[..n], field, fault).Failure? ==> IndexRows(rows, field, fault) == IndexRows(rows[..n], field, fault)
    decreases |rows|
  {
    hide AddToIndex;
    if n < |rows| {
      assert rows[..|rows| - 1][..n] == rows[..n];
      IndexFaultIsFinal(rows[..|rows| - 1], field, fault, n);
    } else {
      assert rows[..n] == rows;
    }
  }

  lemma IndexStep(rows: seq<Row>, field: Field, fault: Fault, i: nat)
    requires i < |rows| && IndexRows(rows[..i], field, fault).Success?
    ensures IndexRows(rows[..i + 1], field, fault)
         == AddToIndex(IndexRows(rows[..i], field, fault).value, field, fault, rows[i])
  {
    hide AddToIndex;
    assert rows[..i + 1][..i] == rows[..i];
  }

  method IndexUnique(rows: seq<Row>, field: Field, fault: Fault) returns (r: Result<Index, Fault>)
    ensures r == IndexRows(rows, field, fault)
  {
    var index: Index := map[];
    assert IndexRows(rows[..0], field, fault) == Success(index);
    hide AddToIndex, IndexRows;
    for i := 0 to |rows|
      invariant IndexRows(rows[..i], field, fault) == Success(index)
    {
      IndexStep(rows, field, fault, i);
      IndexFaultIsFinal(rows, field, fault, i + 1);
      var grown := AddToIndex(index, field, fault, rows[i]);
      if grown.Failure? {
        return grown;
      }
      index := grown.value;
    }
    assert rows[..|rows|] == rows;
    r := Success(index);
  }

  /** A nonempty list of distinct nonempty strings. */
  predicate IsDistinctTextList(j: Json) {
    IsTextList(j) && j.items != [] && NoDuplicates(Texts(j))
  }

  predicate IsStrictPage(j: Json) {
    j.Int? && j.n >= 1
  }

  /** A nonempty list of distinct positive integers; booleans are refused here. */
  predicate IsStrictPageList(j: Json) {
    j.Arr? && j.items != [] && (forall i :: 0 <= i < |j.items| ==> IsStrictPage(j.items[i])) && NoDuplicates(j.items)
  }

  function PageKey(j: Json): Json {
    if j.Bool? then Int(if j.b then 1 else 0) else j
  }

  /** The set of a list's members, with Python's True as 1 and False as 0. */
  function PageKeys(j: Json): set<Json> {
    if j.Arr? then set i | 0 <= i < |j.items| :: PageKey(j.items[i]) else {}
  }

  predicate IsUpperHex(c: char) {
    '0' <= c <= '9' || 'A' <= c <= 'F'
  }

  predicate IsUpperSha256(j: Json) {
    j.Str? && |j.s| == 64 && forall i :: 0 <= i < |j.s| ==> IsUpperHex(j.s[i])
  }

  predicate IsDigit(c: char) {
    '0' <= c <= '9'
  }

  /** `COND-`, then one or more of A-Z, 0-9 and `-`, then `-` and three digits. */
  predicate IsConditionId(s: string) {
    var n := |s|;
    && n >= 10 && s[..5] == "COND-"
    && (forall i :: 5 <= i < n - 4 ==> 'A' <= s[i] <= 'Z' || IsDigit(s[i]) || s[i] == '-')
    && s[n - 4] == '-' && IsDigit(s[n - 3]) && IsDigit(s[n - 2]) && IsDigit(s[n - 1])
  }

  // ---------------------------------------------------------------- one condition's lineage

  datatype Context = Context(groups: Index, children: Index, corpus: Index, existing: set<string>, hash: string -> string)

  function When(failed: bool, fault: Fault, next: Option<Fault>): Option<Fault> {
    if failed then Some(fault) else next
  }

  function ChildRowFault(group: Row, child: Row): Option<Fault> {
    When(Get(child, EvidenceGroupId) != Get(group, EvidenceGroupId), CONDITION_CHILD_GROUP_LINEAGE_MISMATCH,
    When(Get(child, ExactSalesCode) != Get(group, ExactSalesCode), CONDITION_CHILD_PRODUCT_LINEAGE_MISMATCH,
    When(Get(child, DocumentId) != Get(group, DocumentId), CONDITION_CHILD_DOCUMENT_LINEAGE_MISMATCH,
    When(!IsStrictPageList(Get(child, PageRefs)), CONDITION_CHILD_PAGE_REFS_INVALID,
    When(!(PageKeys(Get(child, PageRefs)) <= PageKeys(Get(group, PageRefs))), CONDITION_CHILD_PAGE_LINEAGE_MISMATCH,
    When(!NamesChild(Get(child, RecordType)), CONDITION_CHILD_RECORD_TYPE_INVALID,
    When(Get(child, RetrievalRole) != Str("SEARCH_CANDIDATE"), CONDITION_CHILD_RETRIEVAL_ROLE_INVALID,
    When(!Member(Get(child, AllowedUse), {"EXPERIMENT_ONLY", "RAG_HANDOFF_ONLY"}), CONDITION_CHILD_ALLOWED_USE_INVALID,
    When(Get(child, VerificationStatus) != Str("TEXT_AND_VISUAL_VERIFIED"), CONDITION_CHILD_VERIFICATION_INVALID,
    When(!IsTextList(Get(child, ConsultationConditions)) || Get(child, ConsultationConditions).items == [],
         CHILD_FREE_TEXT_CONDITION_MISSING,
    None))))))))))
  }

  function CorpusRowFault(group: Row, child: Row, corpus: Row): Option<Fault> {
    var units := Get(corpus, EvidenceUnitIds);
    When(Get(corpus, RecordType) != Str("CHILD"), CONDITION_CORPUS_RECORD_TYPE_INVALID,
    When(Get(corpus, RetrievalRole) != Str("SEARCH_CANDIDATE"), CONDITION_CORPUS_RETRIEVAL_ROLE_INVALID,
    When(Get(corpus, AllowedUse) != Str("EXPERIMENT_ONLY"), CONDITION_CORPUS_ALLOWED_USE_INVALID,
    When(Get(corpus, SourceVerificationStatus) != Str("TEXT_AND_VISUAL_VERIFIED"), CONDITION_CORPUS_VERIFICATION_INVALID,
    When(!(units.Arr? && Get(group, EvidenceGroupId) in units.items), CONDITION_CORPUS_GROUP_LINK_MISSING,
    When(Get(corpus, ExactSalesCode) != Get(child, ExactSalesCode), CONDITION_CORPUS_PRODUCT_LINEAGE_MISMATCH,
    When(Get(corpus, DocumentId) != Get(child, DocumentId), CONDITION_CORPUS_DOCUMENT_LINEAGE_MISMATCH,
    When(PageKeys(Get(corpus, PageRefs)) != PageKeys(Get(child, PageRefs)), CONDITION_CORPUS_PAGE_LINEAGE_MISMATCH,
    When(Get(corpus, SourceVariantId) != Get(child, SourceVariantId), CONDITION_CORPUS_VARIANT_LINEAGE_MISMATCH,
    When(Get(corpus, SourceFileSha256) != Get(child, SourceFileSha256), CONDITION_CORPUS_SOURCE_HASH_MISMATCH,
    When(Get(corpus, TextSha256) != Get(child, ChildTextSha256), CONDITION_CORPUS_TEXT_HASH_MISMATCH,
    None)))))))))))
  }

  /** The first fault of one source child, its own checks before its corpus row's. */
  function ChildFault(context: Context, group: Row, childId: string): Option<Fault> {
    if childId !in context.children then Some(CONDITION_CHILD_NOT_FOUND)
    else
      var child := context.children[childId];
      var own := ChildRowFault(group, child);
      if own.Some? then own
      else if childId !in context.corpus then Some(CONDITION_CORPUS_CHILD_NOT_FOUND)
      else CorpusRowFault(group, child, context.corpus[childId])
  }

  /** How many of the child's free-text conditions have the contract's digest. */
  function MatchesIn(context: Context, childId: string, digest: string): nat {
    if childId in context.children && IsTextList(Get(context.children[childId], ConsultationConditions))
    then Count((s: string) => context.hash(s) == digest, Texts(Get(context.children[childId], ConsultationConditions)))
    else 0
  }

  datatype Selection = Selection(matched: nat, pages: set<Json>)

  function SelectChildren(context: Context, group: Row, digest: string, childIds: seq<string>): Result<Selection,
                          Fault> {
    if childIds == [] then Success(Selection(0, {}))
    else
      var before :- SelectChildren(context, group, digest, childIds[..|childIds| - 1]);
      var childId := childIds[|childIds| - 1];
      var fault := ChildFault(context, group, childId);
      if fault.Some? then Failure(fault.value)
      else Success(Selection(before.matched + MatchesIn(context, childId, digest),
                             before.pages + PageKeys(Get(context.children[childId], PageRefs))))
  }

  function LineageHeadFault(group: Row, condition: Row): Option<Fault> {
    var sources, pages := Get(condition, SourceChildIds), Get(condition, SourcePageRefs);
    When(!IsDistinctTextList(sources), CONDITION_CHILD_IDS_INVALID,
    When(!IsStrictPageList(pages), CONDITION_PAGE_REFS_INVALID,
    When(!(TextMembers(sources) <= TextMembers(Get(group, ChildIds))), CONDITION_GROUP_CHILD_LINEAGE_MISMATCH,
    When(!(PageKeys(pages) <= PageKeys(Get(group, PageRefs))), CONDITION_GROUP_PAGE_LINEAGE_MISMATCH,
    When(!IsUpperSha256(Get(condition, SourceConditionSha256)), CONDITION_SOURCE_HASH_INVALID,
    None)))))
  }

  function LineageFault(context: Context, group: Row, condition: Row): Option<Fault> {
    var head := LineageHeadFault(group, condition);
    if head.Some? then head
    else if !IsTextList(Get(condition, SourceChildIds)) || !Get(condition, SourceConditionSha256).Str? then None
    else
      var selection := SelectChildren(context, group, Get(condition, SourceConditionSha256).s,
                                      Texts(Get(condition, SourceChildIds)));
      if selection.Failure? then Some(selection.error)
      else if !(PageKeys(Get(condition, SourcePageRefs)) <= selection.value.pages)
      then Some(CONDITION_SELECTED_CHILD_PAGE_LINEAGE_MISMATCH)
      else if selection.value.matched != 1 then Some(CHILD_FREE_TEXT_CONDITION_HASH_MISMATCH)
      else None
  }

  lemma {:induction false} SelectionFaultIsFinal(context: Context, group: Row, digest: string, childIds: seq<string>,
                                                 n: nat)
    requires n <= |childIds|
    ensures SelectChildren(context, group, digest, childIds[..n]).Failure? ==>
              SelectChildren(context, group, digest, childIds) == SelectChildren(context, group, digest, childIds[..n])
    decreases |childIds|
  {
    if n < |childIds| {
      assert childIds[..|childIds| - 1][..n] == childIds[..n];
      SelectionFaultIsFinal(context, group, digest, childIds[..|childIds| - 1], n);
    } else {
      assert childIds[..n] == childIds;
    }
  }

  /** Walks the source children, adding up digest matches and pages. */
  method ValidateLineage(context: Context, group: Row, condition: Row) returns (fault: Option<Fault>)
    ensures fault == LineageFault(context, group, condition)
  {
    hide ChildFault, MatchesIn, PageKeys, IsUpperSha256, IsStrictPageList, TextMembers;
    fault := LineageHeadFault(group, condition);
    if fault.Some? {
      return;
    }
    HeadMeansLists(group, condition);
    var digest := Get(condition, SourceConditionSha256).s;
    var childIds := Texts(Get(condition, SourceChildIds));
    var matched: nat := 0;
    var pages: set<Json> := {};
    for i := 0 to |childIds|
      invariant SelectChildren(context, group, digest, childIds[..i]) == Success(Selection(matched, pages))
    {
      assert childIds[..i + 1][..i] == childIds[..i];
      var childFault := ChildFault(context, group, childIds[i]);
      if childFault.Some? {
        SelectionFaultIsFinal(context, group, digest, childIds, i + 1);
        return childFault;
      }
      FaultlessChildIsKnown(context, group, childIds[i]);
      matched := matched + MatchesIn(context, childIds[i], digest);
      pages := pages + PageKeys(Get(context.children[childIds[i]], PageRefs));
    }
    assert childIds[..|childIds|] == childIds;
    if !(PageKeys(Get(condition, SourcePageRefs)) <= pages) {
      return Some(CONDITION_SELECTED_CHILD_PAGE_LINEAGE_MISMATCH);
    }
    if matched != 1 {
      return Some(CHILD_FREE_TEXT_CONDITION_HASH_MISMATCH);
    }
    fault := None;
  }

  lemma HeadMeansLists(group: Row, condition: Row)
    requires LineageHeadFault(group, condition).None?
    ensures IsTextList(Get(condition, SourceChildIds)) && Get(condition, SourceConditionSha256).Str?
  {
  }

  lemma FaultlessChildIsKnown(context: Context, group: Row, childId: string)
    requires ChildFault(context, group, childId).None?
    ensures childId in context.children
  {
  }

  // ---------------------------------------------------------------- the contract's conditions

  const CONDITION_KEYS := {
    ConditionId, ConditionSemanticsCode, EvidenceGroupId, TriggerType, SourceChildIds, SourcePageRefs,
    SourceConditionSha256, GoldPendingBasisCode, GoldMetBasisCode, ReviewStatus
  }

  /** Ids and (group, semantics) pairs already taken. */
  datatype Ledger = Ledger(ids: set<string>, semantics: set<(string, string)>)

  function ConditionFault(context: Context, ledger: Ledger, condition: Json): Option<Fault> {
    if !condition.Obj? then Some(CONDITION_ROW_INVALID)
    else
      var row := condition.fields;
      var id, semantics, group := Get(row, ConditionId), Get(row, ConditionSemanticsCode), Get(row, EvidenceGroupId);
      When(row.Keys != CONDITION_KEYS, CONDITION_KEYS_INVALID,
      When(!id.Str? || !IsConditionId(id.s) || id.s in ledger.ids || id.s in context.existing, CONDITION_ID_INVALID,
      When(!IsText(semantics), CONDITION_SEMANTICS_CODE_INVALID,
      When(!Member(group, context.groups.Keys), CONDITION_GROUP_NOT_FOUND,
      When(group.Str? && semantics.Str? && (group.s, semantics.s) in ledger.semantics, CONDITION_SEMANTICS_DUPLICATE,
      When(!Member(Get(row, TriggerType), {"PERSISTENCE", "RECURRENCE", "AFTER_CHECK"}), CONDITION_TRIGGER_INVALID,
      When(Get(row, GoldPendingBasisCode) != Str("SOURCE_CONDITION_PENDING"), CONDITION_PENDING_BASIS_INVALID,
      When(Get(row, GoldMetBasisCode) != Str("SOURCE_CONDITION_MET"), CONDITION_MET_BASIS_INVALID,
      When(Get(row, ReviewStatus) != Str("AI_PROPOSED_PENDING_HUMAN_SIGNOFF"), CONDITION_REVIEW_STATUS_INVALID,
      if Member(group, context.groups.Keys) then LineageFault(context, context.groups[group.s], row) else None)))))))))
  }

  function TextOf(condition: Json, field: Field): string {
    if condition.Obj? && Get(condition.fields, field).Str? then Get(condition.fields, field).s else ""
  }

  function EnterCondition(ledger: Ledger, condition: Json): Ledger {
    Ledger(ledger.ids + {TextOf(condition, ConditionId)},
           ledger.semantics + {(TextOf(condition, EvidenceGroupId), TextOf(condition, ConditionSemanticsCode))})
  }

  function ReadConditions(context: Context, conditions: seq<Json>): Result<Ledger, Fault> {
    if conditions == [] then Success(Ledger({}, {}))
    else
      var ledger :- ReadConditions(context, conditions[..|conditions| - 1]);
      var condition := conditions[|conditions| - 1];
      var fault := ConditionFault(context, ledger, condition);
      if fault.Some? then Failure(fault.value) else Success(EnterCondition(ledger, condition))
  }

  /** The four fields of a contract condition that the registry keeps. */
  function Stripped(condition: Json): Json {
    if condition.Obj? then
      Obj(map[ConditionId := Get(condition.fields, ConditionId), TriggerType := Get(condition.fields, TriggerType),
              SourceChildIds := Get(condition.fields, SourceChildIds), SourcePageRefs := Get(condition.fields, SourcePageRefs)])
    else condition
  }

  /** The conditions the contract adds to a group, in contract order. */
  function Additions(conditions: seq<Json>, group: string): seq<Json> {
    if conditions == [] then []
    else
      var condition := conditions[|conditions| - 1];
      Additions(conditions[..|conditions| - 1], group)
      + if TextOf(condition, EvidenceGroupId) == group then [Stripped(condition)] else []
  }

  lemma {:induction false} ConditionFaultIsFinal(context: Context, conditions: seq<Json>, n: nat)
    requires n <= |conditions|
    ensures ReadConditions(context, conditions[..n]).Failure? ==>
              ReadConditions(context, conditions) == ReadConditions(context, conditions[..n])
    decreases |conditions|
  {
    if n < |conditions| {
      assert conditions[..|conditions| - 1][..n] == conditions[..n];
      ConditionFaultIsFinal(context, conditions[..|conditions| - 1], n);
    } else {
      assert conditions[..n] == conditions;
    }
  }

  function Bucket(buckets: map<string, seq<Json>>, group: string): seq<Json> {
    if group in buckets then buckets[group] else []
  }

  /** Validates each contract condition and drops it into its group's bucket. */
  method BucketConditions(context: Context, conditions: seq<Json>) returns (r: Result<map<string, seq<Json>>, Fault>)
    ensures r.Success? <==> ReadConditions(context, conditions).Success?
    ensures r.Failure? ==> ReadConditions(context, conditions) == Failure(r.error)
    ensures r.Success? ==> forall g :: Bucket(r.value, g) == Additions(conditions, g)
  {
    hide ConditionFault;
    var buckets: map<string, seq<Json>> := map[];
    var ids: set<string> := {};
    var semantics: set<(string, string)> := {};
    for i := 0 to |conditions|
      invariant ReadConditions(context, conditions[..i]) == Success(Ledger(ids, semantics))
      invariant forall g :: Bucket(buckets, g) == Additions(conditions[..i], g)
    {
      assert conditions[..i + 1][..i] == conditions[..i];
      var condition := conditions[i];
      var fault := ConditionFault(context, Ledger(ids, semantics), condition);
      if fault.Some? {
        ConditionFaultIsFinal(context, conditions, i + 1);
        return Failure(fault.value);
      }
      var group := TextOf(condition, EvidenceGroupId);
      ids := ids + {TextOf(condition, ConditionId)};
      semantics := semantics + {(group, TextOf(condition, ConditionSemanticsCode))};
      buckets := buckets[group := Bucket(buckets, group) + [Stripped(condition)]];
    }
    assert conditions[..|conditions|] == conditions;
    r := Success(buckets);
  }

  // ---------------------------------------------------------------- canonical conditions

  function AddCanonicalId(ids: set<string>, condition: Json): Result<set<string>, Fault> {
    if !condition.Obj? then Failure(CANONICAL_CONDITION_INVALID)
    else if !IsText(Get(condition.fields, ConditionId)) || Get(condition.fields, ConditionId).s in ids
    then Failure(CANONICAL_CONDITION_ID_INVALID)
    else Success(ids + {Get(condition.fields, ConditionId).s})
  }

  function AddCanonicalIds(ids: set<string>, conditions: seq<Json>): Result<set<string>, Fault> {
    if conditions == [] then Success(ids)
    else
      var before :- AddCanonicalIds(ids, conditions[..|conditions| - 1]);
      AddCanonicalId(before, conditions[|conditions| - 1])
  }

  function ConditionList(group: Row): seq<Json> {
    var value := Get(group, ConsultationConditions);
    if value.Arr? then value.items else []
  }

  function AddGroupIds(ids: set<string>, group: Row): Result<set<string>, Fault> {
    if !Get(group, ConsultationConditions).Arr? then Failure(CANONICAL_CONDITIONS_INVALID)
    else AddCanonicalIds(ids, ConditionList(group))
  }

  function CanonicalIds(groups: seq<Row>): Result<set<string>, Fault> {
    if groups == [] then Success({})
    else
      var before :- CanonicalIds(groups[..|groups| - 1]);
      AddGroupIds(before, groups[|groups| - 1])
  }

  lemma {:induction false} CanonicalListFaultIsFinal(ids: set<string>, conditions: seq<Json>, n: nat)
    requires n <= |conditions|
    ensures AddCanonicalIds(ids, conditions[..n]).Failure? ==>
              AddCanonicalIds(ids, conditions) == AddCanonicalIds(ids, conditions[..n])
    decreases |conditions|
  {
    hide AddCanonicalId;
    if n < |conditions| {
      assert conditions[..|conditions| - 1][..n] == conditions[..n];
      CanonicalListFaultIsFinal(ids, conditions[..|conditions| - 1], n);
    } else {
      assert conditions[..n] == conditions;
    }
  }

  lemma {:induction false} CanonicalFaultIsFinal(groups: seq<Row>, n: nat)
    requires n <= |groups|
    ensures CanonicalIds(groups[..n]).Failure? ==> CanonicalIds(groups) == CanonicalIds(groups[..n])
    decreases |groups|
  {
    hide AddGroupIds;
    if n < |groups| {
      assert groups[..|groups| - 1][..n] == groups[..n];
      CanonicalFaultIsFinal(groups[..|groups| - 1], n);
    } else {
      assert groups[..n] == groups;
    }
  }

  method CollectGroupIds(ids: set<string>, conditions: seq<Json>) returns (r: Result<set<string>, Fault>)
    ensures r == AddCanonicalIds(ids, conditions)
  {
    hide AddCanonicalId;
    var taken := ids;
    for i := 0 to |conditions|
      invariant AddCanonicalIds(ids, conditions[..i]) == Success(taken)
    {
      assert conditions[..i + 1][..i] == conditions[..i];
      var grown := AddCanonicalId(taken, conditions[i]);
      if grown.Failure? {
        CanonicalListFaultIsFinal(ids, conditions, i + 1);
        return grown;
      }
      taken := grown.value;
    }
    assert conditions[..|conditions|] == conditions;
    r := Success(taken);
  }

  /** The ids already used by the canonical registry, each at most once. */
  method CollectCanonicalIds(groups: seq<Row>) returns (r: Result<set<string>, Fault>)
    ensures r == CanonicalIds(groups)
  {
    hide AddCanonicalIds;
    var taken: set<string> := {};
    for i := 0 to |groups|
      invariant CanonicalIds(groups[..i]) == Success(taken)
    {
      assert groups[..i + 1][..i] == groups[..i];
      CanonicalFaultIsFinal(groups, i + 1);
      if !Get(groups[i], ConsultationConditions).Arr? {
        return Failure(CANONICAL_CONDITIONS_INVALID);
      }
      var grown := CollectGroupIds(taken, ConditionList(groups[i]));
      if grown.Failure? {
        return grown;
      }
      taken := grown.value;
    }
    assert groups[..|groups|] == groups;
    r := Success(taken);
  }

  // ---------------------------------------------------------------- the derived registry

  function SortKey(condition: Json): string {
    TextOf(condition, ConditionId)
  }

  predicate IdAtMost(a: Json, b: Json) {
    AtMost(SortKey(a), SortKey(b))
  }

  /** `sorted(items, key=condition_id)`. */
  function SortById(items: seq<Json>): seq<Json> {
    StableSort(IdAtMost, items)
  }

  function GroupId(group: Row): string {
    if Get(group, EvidenceGroupId).Str? then Get(group, EvidenceGroupId).s else ""
  }

  function DeriveGroup(group: Row, additions: seq<Json>): Row {
    group[ConsultationConditions := Arr(SortById(ConditionList(group) + additions))]
  }

  function Derive(groups: seq<Row>, conditions: seq<Json>): (derived: seq<Row>)
    ensures |derived| == |groups|
    ensures forall i :: 0 <= i < |groups| ==> derived[i] == DeriveGroup(groups[i], Additions(conditions, GroupId(groups[i])))
  {
    seq(|groups|, i requires 0 <= i < |groups| => DeriveGroup(groups[i], Additions(conditions, GroupId(groups[i]))))
  }

  predicate SameOutsideConditions(canonical: Row, derived: Row) {
    canonical - {ConsultationConditions} == derived - {ConsultationConditions}
  }

  predicate AllValid(schema: Row -> bool, rows: seq<Row>) {
    forall i :: 0 <= i < |rows| ==> schema(rows[i])
  }

  function ContextOf(inputs: Inputs): Result<Context, Fault> {
    if |inputs.groups| != inputs.groupCount then Failure(CANONICAL_GROUP_COUNT_MISMATCH)
    else if !AllValid(inputs.schema, inputs.groups) then Failure(CANONICAL_GROUP_SCHEMA_MISMATCH)
    else
      var groups :- IndexRows(inputs.groups, EvidenceGroupId, DUPLICATE_OR_MISSING_GROUP_ID);
      var children :- IndexRows(inputs.children, ChildId, DUPLICATE_OR_MISSING_CHILD_ID);
      var corpus :- IndexRows(inputs.corpus, SourceRecordId, DUPLICATE_OR_MISSING_CORPUS_SOURCE_RECORD_ID);
      if !inputs.conditions.Arr? || |inputs.conditions.items| != inputs.conditionCount then Failure(CONDITION_COUNT_MISMATCH)
      else
        var existing :- CanonicalIds(inputs.groups);
        Success(Context(groups, children, corpus, existing, inputs.hash))
  }

  /** The overlay: the first fault found, or the registry with every condition list extended and sorted. */
  function OverlayOf(inputs: Inputs): Result<seq<Row>, Fault> {
    var context :- ContextOf(inputs);
    if !inputs.conditions.Arr? then Failure(CONDITION_COUNT_MISMATCH)
    else
      var _ :- ReadConditions(context, inputs.conditions.items);
      var derived := Derive(inputs.groups, inputs.conditions.items);
      if !AllValid(inputs.schema, derived) then Failure(DERIVED_GROUP_SCHEMA_MISMATCH) else Success(derived)
  }

  method BuildContext(inputs: Inputs) returns (r: Result<Context, Fault>)
    ensures r == ContextOf(inputs)
  {
    hide IndexRows, CanonicalIds;
    if |inputs.groups| != inputs.groupCount {
      return Failure(CANONICAL_GROUP_COUNT_MISMATCH);
    }
    if !AllValid(inputs.schema, inputs.groups) {
      return Failure(CANONICAL_GROUP_SCHEMA_MISMATCH);
    }
    var groups := IndexUnique(inputs.groups, EvidenceGroupId, DUPLICATE_OR_MISSING_GROUP_ID);
    if groups.Failure? {
      return Failure(groups.error);
    }
    var children := IndexUnique(inputs.children, ChildId, DUPLICATE_OR_MISSING_CHILD_ID);
    if children.Failure? {
      return Failure(children.error);
    }
    var corpus := IndexUnique(inputs.corpus, SourceRecordId, DUPLICATE_OR_MISSING_CORPUS_SOURCE_RECORD_ID);
    if corpus.Failure? {
      return Failure(corpus.error);
    }
    if !inputs.conditions.Arr? || |inputs.conditions.items| != inputs.conditionCount {
      return Failure(CONDITION_COUNT_MISMATCH);
    }
    var existing := CollectCanonicalIds(inputs.groups);
    if existing.Failure? {
      return Failure(existing.error);
    }
    r := Success(Context(groups.value, children.value, corpus.value, existing.value, inputs.hash));
  }

  /** Rewrites each group's condition list in a copy, then checks that nothing else moved. */
  method BuildOverlay(inputs: Inputs) returns (r: Result<seq<Row>, Fault>)
    ensures r == OverlayOf(inputs)
  {
    hide ContextOf, ReadConditions, Additions, SortById;
    var building := BuildContext(inputs);
    if building.Failure? {
      return Failure(building.error);
    }
    ContextMeansList(inputs);
    var conditions := inputs.conditions.items;
    var bucketing := BucketConditions(building.value, conditions);
    if bucketing.Failure? {
      return Failure(bucketing.error);
    }
    var derived := inputs.groups;
    for i := 0 to |derived|
      invariant |derived| == |inputs.groups|
      invariant forall j :: 0 <= j < i ==> derived[j] == Derive(inputs.groups, conditions)[j]
      invariant forall j :: i <= j < |derived| ==> derived[j] == inputs.groups[j]
    {
      derived := derived[i := DeriveGroup(derived[i], Bucket(bucketing.value, GroupId(derived[i])))];
    }
    assert derived == Derive(inputs.groups, conditions);
    if !AllValid(inputs.schema, derived) {
      return Failure(DERIVED_GROUP_SCHEMA_MISMATCH);
    }
    for i := 0 to |derived| {
      if !SameOutsideConditions(inputs.groups[i], derived[i]) {
        assert false;
        return Failure(CANONICAL_GROUP_FIELD_DRIFT);
      }
    }
    r := Success(derived);
  }

  lemma ContextMeansList(inputs: Inputs)
    requires ContextOf(inputs).Success?
    ensures inputs.conditions.Arr?
  {
    hide IndexRows, CanonicalIds;
  }
}
