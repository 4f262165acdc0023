/** Which diagnostics a Gold case, a reference, a group and a condition raise, and what the report counts. */
module ReportMeaning {
  import opened Collections
  import opened Json
  import opened Compatibility
  import opened CompatibilityTheorems
  import opened FieldRelations
  import opened CaseMeaning
  import opened GroupMeaning
  import opened PassMeaning
  import SM = ScoreMeaning

  // ---------------------------------------------------------------- membership

  lemma InIf(condition: bool, code: Code, source: Source, row: JsonlRow, d: Diagnostic)
    ensures d in If(condition, code, source, row) <==> condition && d == At(code, source, row)
  {
  }

  /** The field is a list of nonempty texts, with this one among them. */
  ghost predicate IsListed(row: Row, field: Field, text: string) {
    TextItems(Get(row, field)) && Has(row, field, text)
  }

  lemma ListedMeans(row: JsonlRow, field: Field)
    ensures forall text :: text in ListValue(row, field) <==> IsListed(row.value, field, text)
    ensures ListValue(row, field) == [] <==> forall text :: !IsListed(row.value, field, text)
  {
    hide Has;
    TextListMeans(Get(row.value, field));
    if TextItems(Get(row.value, field)) {
      ListValueMeans(row, field);
      EmptyListMeans(row, field);
    }
  }

  lemma InListErrors(row: JsonlRow, field: Field, source: Source, invalid: Code, duplicate: Code, d: Diagnostic)
    ensures d in ListErrors(row, field, source, invalid, duplicate) <==>
            || (!TextItems(Get(row.value, field)) && d == At(invalid, source, row))
            || (TextItems(Get(row.value, field)) && !DistinctTexts(Get(row.value, field)) && d == At(duplicate, source, row))
  {
    var j := Get(row.value, field);
    TextListMeans(j);
    if IsTextList(j) {
      TextsMean(j);
    }
  }

  // ---------------------------------------------------------------- an active Gold case

  /** Why a case's lists are reported. */
  ghost predicate ListFails(row: Row, code: Code) {
    match code
    case GOLD_PRODUCT_MODEL_CODE_INVALID => !(exists product :: product != "" && Get(row, ProductModelCode) == Str(product))
    case GOLD_REQUIRED_GROUP_IDS_INVALID => !TextItems(Get(row, RequiredEvidenceGroupIds))
    case GOLD_REQUIRED_GROUP_ID_DUPLICATE =>
      TextItems(Get(row, RequiredEvidenceGroupIds)) && !DistinctTexts(Get(row, RequiredEvidenceGroupIds))
    case GOLD_SUPPORTING_GROUP_IDS_INVALID => !TextItems(Get(row, SupportingEvidenceGroupIds))
    case GOLD_SUPPORTING_GROUP_ID_DUPLICATE =>
      TextItems(Get(row, SupportingEvidenceGroupIds)) && !DistinctTexts(Get(row, SupportingEvidenceGroupIds))
    case GOLD_REQUIRED_SUPPORTING_OVERLAP =>
      exists g :: IsListed(row, RequiredEvidenceGroupIds, g) && IsListed(row, SupportingEvidenceGroupIds, g)
    case GOLD_CONDITION_IDS_INVALID => ConsultationConditionIds in row && !TextItems(row[ConsultationConditionIds])
    case GOLD_CONDITION_ID_DUPLICATE =>
      ConsultationConditionIds in row && TextItems(row[ConsultationConditionIds]) && !DistinctTexts(row[ConsultationConditionIds])
    case _ => false
  }

  lemma OverlapMeans(row: JsonlRow)
    ensures ToSet(RequiredOf(row)) * ToSet(SupportingOf(row)) != {}
       <==> exists g :: IsListed(row.value, RequiredEvidenceGroupIds, g) && IsListed(row.value, SupportingEvidenceGroupIds, g)
  {
    hide ListValue, IsListed;
    ListedMeans(row, RequiredEvidenceGroupIds);
    ListedMeans(row, SupportingEvidenceGroupIds);
    var both := ToSet(RequiredOf(row)) * ToSet(SupportingOf(row));
    if g :| IsListed(row.value, RequiredEvidenceGroupIds, g) && IsListed(row.value, SupportingEvidenceGroupIds, g) {
      assert g in both;
    }
    if both != {} {
      var g :| g in both;
    }
  }

  lemma InCaseLists(row: JsonlRow, d: Diagnostic)
    ensures d in CaseListErrors(row) <==>
            || d in If(!IsText(Get(row.value, ProductModelCode)), GOLD_PRODUCT_MODEL_CODE_INVALID, GOLD, row)
            || d in ListErrors(row, RequiredEvidenceGroupIds, GOLD, GOLD_REQUIRED_GROUP_IDS_INVALID, GOLD_REQUIRED_GROUP_ID_DUPLICATE)
            || d in ListErrors(row, SupportingEvidenceGroupIds, GOLD, GOLD_SUPPORTING_GROUP_IDS_INVALID, GOLD_SUPPORTING_GROUP_ID_DUPLICATE)
            || d in If(ToSet(RequiredOf(row)) * ToSet(SupportingOf(row)) != {}, GOLD_REQUIRED_SUPPORTING_OVERLAP, GOLD, row)
            || (ConsultationConditionIds in row.value
                && d in ListErrors(row, ConsultationConditionIds, GOLD, GOLD_CONDITION_IDS_INVALID, GOLD_CONDITION_ID_DUPLICATE))
  {
    hide If, ListErrors, Get, IsText, ListValue;
  }

  /** The lists of an active case raise exactly the codes whose reason holds. */
  lemma CaseListCodeRaisedIff(row: JsonlRow, code: Code)
    ensures At(code, GOLD, row) in CaseListErrors(row) <==> ListFails(row.value, code)
  {
    hide CaseListErrors, ListErrors, If, ListValue, IsListed, TextItems, DistinctTexts;
    var d := At(code, GOLD, row);
    InCaseLists(row, d);
    InIf(!IsText(Get(row.value, ProductModelCode)), GOLD_PRODUCT_MODEL_CODE_INVALID, GOLD, row, d);
    InListErrors(row, RequiredEvidenceGroupIds, GOLD, GOLD_REQUIRED_GROUP_IDS_INVALID,
                 GOLD_REQUIRED_GROUP_ID_DUPLICATE, d);
    InListErrors(row, SupportingEvidenceGroupIds, GOLD, GOLD_SUPPORTING_GROUP_IDS_INVALID,
                 GOLD_SUPPORTING_GROUP_ID_DUPLICATE, d);
    InIf(ToSet(RequiredOf(row)) * ToSet(SupportingOf(row)) != {}, GOLD_REQUIRED_SUPPORTING_OVERLAP, GOLD, row, d);
    InListErrors(row, ConsultationConditionIds, GOLD, GOLD_CONDITION_IDS_INVALID, GOLD_CONDITION_ID_DUPLICATE, d);
    OverlapMeans(row);
  }

  /** Why a case that expects evidence, or none, is reported. */
  ghost predicate OutcomeFails(row: Row, code: Code) {
    var path, policy := Get(row, ExpectedExecutionPath), Get(row, EvidenceMatchPolicy);
    match code
    case GOLD_EVIDENCE_EXECUTION_PATH_INVALID => path != Str("PGVECTOR_QUERY")
    case GOLD_EVIDENCE_MATCH_POLICY_INVALID => policy !in {Str("ANY"), Str("ALL")}
    case GOLD_SUPPORTING_ONLY_POSITIVE =>
      && (forall g :: !IsListed(row, RequiredEvidenceGroupIds, g))
      && exists g :: IsListed(row, SupportingEvidenceGroupIds, g)
    case GOLD_POSITIVE_REQUIRED_GROUP_MISSING =>
      forall g :: !IsListed(row, RequiredEvidenceGroupIds, g) && !IsListed(row, SupportingEvidenceGroupIds, g)
    case GOLD_NO_EVIDENCE_GROUPS_NOT_EMPTY =>
      exists g :: IsListed(row, RequiredEvidenceGroupIds, g) || IsListed(row, SupportingEvidenceGroupIds, g)
    case GOLD_NO_EVIDENCE_MATCH_POLICY_INVALID => policy != Str("NONE")
    case GOLD_NO_EVIDENCE_EXECUTION_PATH_INVALID =>
      path != Str("PGVECTOR_QUERY") && !(exists block :: block in POLICY_BLOCK_PATHS && path == Str(block))
    case _ => false
  }

  ghost predicate IsEvidenceCode(code: Code) {
    || code.GOLD_EVIDENCE_EXECUTION_PATH_INVALID?
    || code.GOLD_EVIDENCE_MATCH_POLICY_INVALID?
    || code.GOLD_SUPPORTING_ONLY_POSITIVE?
    || code.GOLD_POSITIVE_REQUIRED_GROUP_MISSING?
  }

  ghost predicate IsAbsenceCode(code: Code) {
    || code.GOLD_NO_EVIDENCE_GROUPS_NOT_EMPTY?
    || code.GOLD_NO_EVIDENCE_MATCH_POLICY_INVALID?
    || code.GOLD_NO_EVIDENCE_EXECUTION_PATH_INVALID?
  }

  lemma InEvidenceErrors(row: JsonlRow, d: Diagnostic)
    ensures d in EvidenceErrors(row) <==>
            || (Get(row.value, ExpectedExecutionPath) != Str("PGVECTOR_QUERY") && d == At(GOLD_EVIDENCE_EXECUTION_PATH_INVALID, GOLD, row))
            || (!Member(Get(row.value, EvidenceMatchPolicy), {"ANY", "ALL"}) && d == At(GOLD_EVIDENCE_MATCH_POLICY_INVALID, GOLD, row))
            || (RequiredOf(row) == [] && SupportingOf(row) != [] && d == At(GOLD_SUPPORTING_ONLY_POSITIVE, GOLD, row))
            || (RequiredOf(row) == [] && SupportingOf(row) == [] && d == At(GOLD_POSITIVE_REQUIRED_GROUP_MISSING, GOLD, row))
  {
    hide Get, Member, ListValue;
  }

  lemma EvidenceCodeRaisedIff(row: JsonlRow, code: Code)
    ensures At(code, GOLD, row) in EvidenceErrors(row) <==> IsEvidenceCode(code) && OutcomeFails(row.value, code)
  {
    hide EvidenceErrors, ListValue, IsListed, Get, Member;
    InEvidenceErrors(row, At(code, GOLD, row));
    ListedMeans(row, RequiredEvidenceGroupIds);
    ListedMeans(row, SupportingEvidenceGroupIds);
    MemberMeans(Get(row.value, EvidenceMatchPolicy), {"ANY", "ALL"});
  }

  lemma InNoEvidenceErrors(row: JsonlRow, d: Diagnostic)
    ensures d in NoEvidenceErrors(row) <==>
            || ((RequiredOf(row) != [] || SupportingOf(row) != []) && d == At(GOLD_NO_EVIDENCE_GROUPS_NOT_EMPTY, GOLD, row))
            || (Get(row.value, EvidenceMatchPolicy) != Str("NONE") && d == At(GOLD_NO_EVIDENCE_MATCH_POLICY_INVALID, GOLD, row))
            || (Get(row.value, ExpectedExecutionPath) != Str("PGVECTOR_QUERY")
                && !Member(Get(row.value, ExpectedExecutionPath), POLICY_BLOCK_PATHS)
                && d == At(GOLD_NO_EVIDENCE_EXECUTION_PATH_INVALID, GOLD, row))
  {
    hide Get, Member, ListValue;
  }

  lemma AbsenceCodeRaisedIff(row: JsonlRow, code: Code)
    ensures At(code, GOLD, row) in NoEvidenceErrors(row) <==> IsAbsenceCode(code) && OutcomeFails(row.value, code)
  {
    hide NoEvidenceErrors, ListValue, IsListed, Get, Member;
    InNoEvidenceErrors(row, At(code, GOLD, row));
    ListedMeans(row, RequiredEvidenceGroupIds);
    ListedMeans(row, SupportingEvidenceGroupIds);
    MemberMeans(Get(row.value, ExpectedExecutionPath), POLICY_BLOCK_PATHS);
  }

  /** Why an active case is reported, whatever its outcome. */
  ghost predicate CaseFails(row: Row, code: Code) {
    var outcome := Get(row, ExpectedRetrievalOutcome);
    || ListFails(row, code)
    || (outcome == Str("EVIDENCE") && IsEvidenceCode(code) && OutcomeFails(row, code))
    || (outcome == Str("NO_EVIDENCE") && IsAbsenceCode(code) && OutcomeFails(row, code))
    || (code == GOLD_RETRIEVAL_OUTCOME_INVALID && outcome !in {Str("EVIDENCE"), Str("NO_EVIDENCE")})
  }

  /** A Gold case raises nothing when excluded or rejected, its status when that is unknown, and when active exactly the
      codes whose reason holds. */
  lemma CaseCodeRaisedIff(row: JsonlRow, code: Code)
    ensures var status := Get(row.value, EvaluationStatus);
            At(code, GOLD, row) in CaseErrors(row) <==>
              || (status == Str("ACTIVE") && CaseFails(row.value, code))
              || (status !in {Str("ACTIVE"), Str("EXCLUDED"), Str("REJECTED")} && code == GOLD_EVALUATION_STATUS_INVALID)
  {
    hide CaseListErrors, EvidenceErrors, NoEvidenceErrors, ListFails, OutcomeFails, IsEvidenceCode, IsAbsenceCode, Get;
    ActiveIsNotSkipped(row);
    OutcomesDiffer();
    MemberMeans(Get(row.value, EvaluationStatus), {"EXCLUDED", "REJECTED"});
    CaseListCodeRaisedIff(row, code);
    EvidenceCodeRaisedIff(row, code);
    AbsenceCodeRaisedIff(row, code);
  }

  // ---------------------------------------------------------------- a reference, a group's lists, a condition

  /** Why a case and a group it refers to are reported. */
  ghost predicate ReferenceFails(row: Row, group: Row, code: Code) {
    match code
    case GOLD_GROUP_PRODUCT_MISMATCH => Get(group, ExactSalesCode) != Get(row, ProductModelCode)
    case GOLD_GROUP_DOCUMENT_FORBIDDEN =>
      exists document :: Get(group, DocumentId) == Str(document) && Yields(Get(row, ForbiddenDocumentIds), document)
    case GOLD_GROUP_MODEL_FORBIDDEN =>
      exists model :: Get(group, ExactSalesCode) == Str(model) && Yields(Get(row, ForbiddenModelCodes), model)
    case _ => false
  }

  lemma InReferenceErrors(group: JsonlRow, reference: Reference, d: Diagnostic)
    ensures d in ReferenceErrors(group, reference) <==>
            || (Get(group.value, ExactSalesCode) != Str(reference.product)
                && d == Linked(GOLD_GROUP_PRODUCT_MISMATCH, GOLD, reference.row, GROUPS, group))
            || (Member(Get(group.value, DocumentId), IteratedTexts(Get(reference.row.value, ForbiddenDocumentIds)))
                && d == Linked(GOLD_GROUP_DOCUMENT_FORBIDDEN, GOLD, reference.row, GROUPS, group))
            || (Member(Get(group.value, ExactSalesCode), IteratedTexts(Get(reference.row.value, ForbiddenModelCodes)))
                && d == Linked(GOLD_GROUP_MODEL_FORBIDDEN, GOLD, reference.row, GROUPS, group))
  {
    hide IteratedTexts, Member, Get;
  }

  /** A reference raises exactly the codes whose reason holds. */
  lemma ReferenceCodeRaisedIff(group: JsonlRow, row: JsonlRow, code: Code)
    requires Get(row.value, ProductModelCode).Str? && Get(row.value, ProductModelCode) != Str("")
    ensures Linked(code, GOLD, row, GROUPS, group) in ReferenceErrors(group, Reference(row, ProductOf(row)))
       <==> ReferenceFails(row.value, group.value, code)
  {
    hide IteratedTexts, Yields, Member, ReferenceErrors;
    InReferenceErrors(group, Reference(row, ProductOf(row)), Linked(code, GOLD, row, GROUPS, group));
    ForbiddenMeans(Get(group.value, DocumentId), Get(row.value, ForbiddenDocumentIds));
    ForbiddenMeans(Get(group.value, ExactSalesCode), Get(row.value, ForbiddenModelCodes));
  }

  /** Why a group's child and variant lists are reported; a malformed list reads as empty. */
  ghost predicate GroupFails(group: Row, code: Code) {
    match code
    case GROUP_CHILD_IDS_INVALID => !TextItems(Get(group, ChildIds))
    case GROUP_CHILD_ID_DUPLICATE => TextItems(Get(group, ChildIds)) && !DistinctTexts(Get(group, ChildIds))
    case GROUP_SOURCE_VARIANT_IDS_INVALID => !TextItems(Get(group, SourceVariantIds))
    case GROUP_SOURCE_VARIANT_ID_DUPLICATE =>
      TextItems(Get(group, SourceVariantIds)) && !DistinctTexts(Get(group, SourceVariantIds))
    case GROUP_CHILD_IDS_EMPTY => forall c :: !IsListed(group, ChildIds, c)
    case GROUP_SOURCE_VARIANT_IDS_EMPTY => forall v :: !IsListed(group, SourceVariantIds, v)
    case GROUP_CHILD_VARIANT_CARDINALITY_MISMATCH => TextCount(Get(group, ChildIds)) != TextCount(Get(group, SourceVariantIds))
    case _ => false
  }

  /** How many texts a list of texts has; anything else has none. */
  ghost function TextCount(j: Json): nat {
    if TextItems(j) then |j.items| else 0
  }

  lemma TextCountMeans(group: JsonlRow, field: Field)
    ensures |ListValue(group, field)| == TextCount(Get(group.value, field))
  {
    TextListMeans(Get(group.value, field));
  }

  lemma InGroupLists(group: JsonlRow, d: Diagnostic)
    ensures d in GroupListErrors(group) <==>
            || d in ListErrors(group, ChildIds, GROUPS, GROUP_CHILD_IDS_INVALID, GROUP_CHILD_ID_DUPLICATE)
            || d in ListErrors(group, SourceVariantIds, GROUPS, GROUP_SOURCE_VARIANT_IDS_INVALID, GROUP_SOURCE_VARIANT_ID_DUPLICATE)
            || (ListValue(group, ChildIds) == [] && d == At(GROUP_CHILD_IDS_EMPTY, GROUPS, group))
            || (ListValue(group, SourceVariantIds) == [] && d == At(GROUP_SOURCE_VARIANT_IDS_EMPTY, GROUPS, group))
            || (|ListValue(group, ChildIds)| != |ListValue(group, SourceVariantIds)|
                && d == At(GROUP_CHILD_VARIANT_CARDINALITY_MISMATCH, GROUPS, group))
  {
    hide ListErrors, ListValue;
  }

  /** A group's lists raise exactly the codes whose reason holds. */
  lemma GroupCodeRaisedIff(group: JsonlRow, code: Code)
    ensures At(code, GROUPS, group) in GroupListErrors(group) <==> GroupFails(group.value, code)
  {
    hide GroupListErrors, ListErrors, ListValue, IsListed, TextItems, DistinctTexts, TextCount, Get;
    var d := At(code, GROUPS, group);
    InGroupLists(group, d);
    InListErrors(group, ChildIds, GROUPS, GROUP_CHILD_IDS_INVALID, GROUP_CHILD_ID_DUPLICATE, d);
    InListErrors(group, SourceVariantIds, GROUPS, GROUP_SOURCE_VARIANT_IDS_INVALID, GROUP_SOURCE_VARIANT_ID_DUPLICATE,
                 d);
    ListedMeans(group, ChildIds);
    ListedMeans(group, SourceVariantIds);
    TextCountMeans(group, ChildIds);
    TextCountMeans(group, SourceVariantIds);
  }

  ghost predicate IsNamed(entry: Json) {
    entry.Obj? && exists id :: id != "" && Get(entry.fields, ConditionId) == Str(id)
  }

  lemma NamedIsObject(entry: Json)
    ensures IsNamed(entry) ==> entry.Obj?
  {
  }

  /** The source children are a nonempty list of texts, all of them the group's. */
  ghost predicate SourcesAreListed(group: Row, condition: Row) {
    && TextItems(Get(condition, SourceChildIds)) && Get(condition, SourceChildIds).items != []
    && forall c :: Str(c) in Get(condition, SourceChildIds).items ==> IsListed(group, ChildIds, c)
  }

  /** Why an entry of a group's condition list is reported, given the ids already taken. */
  ghost predicate EntryFails(children: seq<JsonlRow>, group: Row, taken: set<string>, entry: Json, code: Code) {
    match code
    case GROUP_CONSULTATION_CONDITION_INVALID => !entry.Obj?
    case GROUP_CONDITION_ID_INVALID => entry.Obj? && !IsNamed(entry)
    case DUPLICATE_GROUP_CONDITION_ID => exists id :: IsCondition(entry, id) && id in taken
    case GROUP_CONDITION_CHILD_LINEAGE_INVALID => IsNamed(entry) && !SourcesAreListed(group, entry.fields)
    case GROUP_CONDITION_PAGE_LINEAGE_INVALID =>
      IsNamed(entry) && !(TextItems(Get(group, ChildIds)) && ConditionIsLinked(children, group, entry.fields))
    case _ => false
  }

  lemma ChildLineageMeans(view: View, condition: Row)
    ensures ChildLineageValid(view, condition) <==> SourcesAreListed(view.group.value, condition)
  {
    hide ListValue, IsListed;
    var sources := Get(condition, SourceChildIds);
    ListedMeans(view.group, ChildIds);
    TextListMeans(sources);
    if TextItems(sources) {
      TextsMean(sources);
      hide TextItems;
      if ChildLineageValid(view, condition) {
        forall c | Str(c) in sources.items
          ensures IsListed(view.group.value, ChildIds, c)
        {
          assert c in ToSet(Texts(sources));
        }
      }
    }
  }

  lemma PageLineageMeans(inputs: Inputs, view: View, condition: Row)
    requires Keyed(inputs.children, ChildId) && view.children == TablesOf(inputs).children
    ensures PageLineageValid(view, condition)
       <==> TextItems(Get(view.group.value, ChildIds)) && ConditionIsLinked(inputs.children, view.group.value, condition)
  {
    hide TablesOf, Keyed, ConditionIsLinked, ChildLineageValid, TextItems, Pages, SelectedPages;
    ChildLineageMeans(view, condition);
    SourcesNeedList(view.group.value, condition);
    assert PageLineageValid(view, condition) ==> ChildLineageValid(view, condition);
    if TextItems(Get(view.group.value, ChildIds)) {
      LinkedConditionMeans(inputs, view, condition);
    }
  }

  lemma SourcesNeedList(group: Row, condition: Row)
    ensures SourcesAreListed(group, condition) ==> TextItems(Get(group, ChildIds))
  {
    if SourcesAreListed(group, condition) {
      var first := Get(condition, SourceChildIds).items[0];
      assert first in Get(condition, SourceChildIds).items;
      assert IsListed(group, ChildIds, first.s);
    }
  }

  lemma InEntryErrors(view: View, owners: Owners, entry: Json, d: Diagnostic)
    ensures d in ConditionValueErrors(view, owners, entry) <==>
            || (!entry.Obj? && d == At(GROUP_CONSULTATION_CONDITION_INVALID, GROUPS, view.group))
            || (entry.Obj? && !IsNamed(entry) && d == At(GROUP_CONDITION_ID_INVALID, GROUPS, view.group))
            || ((exists id :: IsCondition(entry, id) && id in owners) && d == At(DUPLICATE_GROUP_CONDITION_ID, GROUPS, view.group))
            || (IsNamed(entry) && !ChildLineageValid(view, entry.fields) && d == At(GROUP_CONDITION_CHILD_LINEAGE_INVALID, GROUPS, view.group))
            || (IsNamed(entry) && !PageLineageValid(view, entry.fields) && d == At(GROUP_CONDITION_PAGE_LINEAGE_INVALID, GROUPS, view.group))
  {
    hide ChildLineageValid, PageLineageValid;
    if entry.Obj? && IsText(Get(entry.fields, ConditionId)) {
      var id := Get(entry.fields, ConditionId).s;
      assert IsCondition(entry, id) && Get(entry.fields, ConditionId) == Str(id);
    }
  }

  /** An entry of a condition list raises exactly the codes whose reason holds. */
  lemma EntryCodeRaisedIff(inputs: Inputs, view: View, owners: Owners, entry: Json, code: Code)
    requires Keyed(inputs.children, ChildId) && view.children == TablesOf(inputs).children
    ensures At(code, GROUPS, view.group) in ConditionValueErrors(view, owners, entry)
       <==> EntryFails(inputs.children, view.group.value, owners.Keys, entry, code)
  {
    hide TablesOf, Keyed, ConditionValueErrors, ChildLineageValid, PageLineageValid, SourcesAreListed, ConditionIsLinked,
         TextItems, IsCondition, IsNamed;
    NamedIsObject(entry);
    InEntryErrors(view, owners, entry, At(code, GROUPS, view.group));
    if entry.Obj? {
      ChildLineageMeans(view, entry.fields);
      PageLineageMeans(inputs, view, entry.fields);
    }
  }

  // ---------------------------------------------------------------- the counters

  ghost predicate IsActiveRow(row: JsonlRow) {
    Get(row.value, EvaluationStatus) == Str("ACTIVE")
  }

  ghost predicate IsActiveOf(row: JsonlRow, outcome: string) {
    IsActiveRow(row) && Get(row.value, ExpectedRetrievalOutcome) == Str(outcome)
  }

  lemma {:induction false} ScanCounts(rows: seq<JsonlRow>)
    ensures ScanGold(rows).active == Count((row: JsonlRow) => IsActive(row), rows)
    ensures ScanGold(rows).evidence == Count((row: JsonlRow) => IsActive(row) && HasOutcome(row, "EVIDENCE"), rows)
    ensures ScanGold(rows).noEvidence == Count((row: JsonlRow) => IsActive(row) && HasOutcome(row, "NO_EVIDENCE"), rows)
  {
    hide AddReferences, ConditionReferences, IsActive, HasOutcome, ProductOf, ListValue, Count;
    var active := (row: JsonlRow) => IsActive(row);
    var evidence := (row: JsonlRow) => IsActive(row) && HasOutcome(row, "EVIDENCE");
    var noEvidence := (row: JsonlRow) => IsActive(row) && HasOutcome(row, "NO_EVIDENCE");
    if rows == [] {
      CountNone(active);
      CountNone(evidence);
      CountNone(noEvidence);
    } else {
      var n := |rows| - 1;
      ScanCounts(rows[..n]);
      OneOutcome(rows[n]);
      CountStep(active, rows, n);
      CountStep(evidence, rows, n);
      CountStep(noEvidence, rows, n);
      assert rows[..n + 1] == rows;
    }
  }

  lemma OneOutcome(row: JsonlRow)
    ensures !(HasOutcome(row, "EVIDENCE") && HasOutcome(row, "NO_EVIDENCE"))
  {
    OutcomesDiffer();
  }

  lemma PositionsMean(rows: seq<JsonlRow>)
    ensures ScanGold(rows).active == |set i | 0 <= i < |rows| && IsActiveRow(rows[i])|
    ensures ScanGold(rows).evidence == |set i | 0 <= i < |rows| && IsActiveOf(rows[i], "EVIDENCE")|
    ensures ScanGold(rows).noEvidence == |set i | 0 <= i < |rows| && IsActiveOf(rows[i], "NO_EVIDENCE")|
  {
    ScanCounts(rows);
    hide ScanGold, Count;
    var active := (row: JsonlRow) => IsActive(row);
    var evidence := (row: JsonlRow) => IsActive(row) && HasOutcome(row, "EVIDENCE");
    var noEvidence := (row: JsonlRow) => IsActive(row) && HasOutcome(row, "NO_EVIDENCE");
    SM.CountIsCardinality(active, rows);
    SM.CountIsCardinality(evidence, rows);
    SM.CountIsCardinality(noEvidence, rows);
    assert SM.Positions(active, rows) == set i | 0 <= i < |rows| && IsActiveRow(rows[i]);
    assert SM.Positions(evidence, rows) == set i | 0 <= i < |rows| && IsActiveOf(rows[i], "EVIDENCE");
    assert SM.Positions(noEvidence, rows) == set i | 0 <= i < |rows| && IsActiveOf(rows[i], "NO_EVIDENCE");
  }

  /** The groups some case refers to in that role. */
  ghost predicate IsReferenced(inputs: Inputs, field: Field, g: string) {
    exists row :: row in inputs.gold && IsActiveOf(row, "EVIDENCE") && IsListed(row.value, field, g)
  }

  lemma {:induction false} ReferencesHaveEntries(refs: References, groups: seq<string>, reference: Reference)
    requires forall g :: g in refs ==> refs[g] != []
    ensures forall g :: g in AddReferences(refs, groups, reference) <==> g in refs || g in groups
    ensures forall g :: g in AddReferences(refs, groups, reference) ==> AddReferences(refs, groups, reference)[g] != []
  {
    if groups != [] {
      ReferencesHaveEntries(refs, groups[..|groups| - 1], reference);
      assert groups == groups[..|groups| - 1] + [groups[|groups| - 1]];
    }
  }

  lemma {:induction false} TablesHaveEntries(rows: seq<JsonlRow>)
    ensures forall g :: g in ScanGold(rows).required ==> ScanGold(rows).required[g] != []
    ensures forall g :: g in ScanGold(rows).supporting ==> ScanGold(rows).supporting[g] != []
  {
    hide AddReferences, ConditionReferences, IsActive, HasOutcome, ProductOf, ListValue;
    if rows != [] {
      var rest, last := rows[..|rows| - 1], rows[|rows| - 1];
      TablesHaveEntries(rest);
      ReferencesHaveEntries(ScanGold(rest).required, RequiredOf(last), Reference(last, ProductOf(last)));
      ReferencesHaveEntries(ScanGold(rest).supporting, SupportingOf(last), Reference(last, ProductOf(last)));
    }
  }

  lemma ReferencedGroupsMean(inputs: Inputs, g: string)
    ensures g in ScanGold(inputs.gold).required <==> IsReferenced(inputs, RequiredEvidenceGroupIds, g)
    ensures g in ScanGold(inputs.gold).supporting <==> IsReferenced(inputs, SupportingEvidenceGroupIds, g)
  {
    hide ScanGold, ListValue, IsListed, ProductOf;
    TablesHaveEntries(inputs.gold);
    var gold := ScanGold(inputs.gold);
    if g in gold.required {
      RecordedReferences(inputs.gold, g, gold.required[g][0]);
      var row :| row in inputs.gold && Records(row, RequiredOf(row), g, gold.required[g][0]);
      ListedMeans(row, RequiredEvidenceGroupIds);
    }
    if g in gold.supporting {
      RecordedReferences(inputs.gold, g, gold.supporting[g][0]);
      var row :| row in inputs.gold && Records(row, SupportingOf(row), g, gold.supporting[g][0]);
      ListedMeans(row, SupportingEvidenceGroupIds);
    }
    if row :| row in inputs.gold && IsActiveOf(row, "EVIDENCE") && IsListed(row.value, RequiredEvidenceGroupIds, g) {
      ListedMeans(row, RequiredEvidenceGroupIds);
      RecordedReferences(inputs.gold, g, Reference(row, ProductOf(row)));
      assert Records(row, RequiredOf(row), g, Reference(row, ProductOf(row)));
    }
    if row :| row in inputs.gold && IsActiveOf(row, "EVIDENCE") && IsListed(row.value, SupportingEvidenceGroupIds, g) {
      ListedMeans(row, SupportingEvidenceGroupIds);
      RecordedReferences(inputs.gold, g, Reference(row, ProductOf(row)));
      assert Records(row, SupportingOf(row), g, Reference(row, ProductOf(row)));
    }
  }

  /** The case counters count rows, and the reference counters count the distinct groups referred to. */
  lemma CountersMean(inputs: Inputs, required: set<string>, supporting: set<string>)
    requires forall g :: g in required <==> IsReferenced(inputs, RequiredEvidenceGroupIds, g)
    requires forall g :: g in supporting <==> IsReferenced(inputs, SupportingEvidenceGroupIds, g)
    ensures var counts, rows := ReportOf(inputs).counts, inputs.gold;
            && counts.goldRows == |rows| && counts.evidenceGroupRows == |inputs.groups|
            && counts.childRows == |inputs.children| && counts.corpusRows == |inputs.corpus|
            && counts.activeCases == |set i | 0 <= i < |rows| && IsActiveRow(rows[i])|
            && counts.activeEvidenceCases == |set i | 0 <= i < |rows| && IsActiveOf(rows[i], "EVIDENCE")|
            && counts.activeNoEvidenceCases == |set i | 0 <= i < |rows| && IsActiveOf(rows[i], "NO_EVIDENCE")|
            && counts.referencedRequiredGroups == |required| && counts.referencedSupportingGroups == |supporting|
            && counts.errors == |ReportOf(inputs).errors|
  {
    PositionsMean(inputs.gold);
    hide ScanGold, AllErrors, LinkedReferences, GroupScanOf, LinkScanOf, IsReferenced, IndexRows;
    var gold := ScanGold(inputs.gold);
    forall g
      ensures g in gold.required <==> g in required
      ensures g in gold.supporting <==> g in supporting
    {
      ReferencedGroupsMean(inputs, g);
    }
    assert gold.required.Keys == required && gold.supporting.Keys == supporting;
    assert |gold.required| == |gold.required.Keys| && |gold.supporting| == |gold.supporting.Keys|;
  }

  ghost predicate IsHeldSomewhere(inputs: Inputs, condition: string) {
    exists id :: IsHeld(inputs, id, condition)
  }

  lemma OwnedIsHeld(inputs: Inputs, condition: string)
    requires Keyed(inputs.groups, EvidenceGroupId)
    ensures condition in GroupScanOf(inputs).owners <==> IsHeldSomewhere(inputs, condition)
  {
    hide Keyed, Holds, IsHeld, TablesOf, GroupScanOf;
    RegistryOwnersMean(inputs);
    var owners := GroupScanOf(inputs).owners;
    if condition in owners {
      HoldsMean(inputs, owners[condition], condition);
    }
    if id :| IsHeld(inputs, id, condition) {
      HoldsMean(inputs, id, condition);
    }
  }

  lemma OwnersAreHeld(inputs: Inputs, held: set<string>)
    requires Keyed(inputs.groups, EvidenceGroupId)
    requires forall condition :: condition in held <==> IsHeldSomewhere(inputs, condition)
    ensures |GroupScanOf(inputs).owners| == |held|
  {
    hide Keyed, IsHeldSomewhere, GroupScanOf;
    var owners := GroupScanOf(inputs).owners;
    forall condition
      ensures condition in owners <==> condition in held
    {
      OwnedIsHeld(inputs, condition);
    }
    assert owners.Keys == held && |owners| == |owners.Keys|;
  }

  /** With distinct group ids the report counts each condition id held by some group once. */
  lemma RegisteredConditionsMean(inputs: Inputs, held: set<string>)
    requires Keyed(inputs.groups, EvidenceGroupId)
    requires forall condition :: condition in held <==> IsHeldSomewhere(inputs, condition)
    ensures ReportOf(inputs).counts.registeredConditions == |held|
  {
    hide Keyed, IsHeldSomewhere, TablesOf, AllErrors, LinkedReferences, LinkScanOf, GroupScanOf;
    OwnersAreHeld(inputs, held);
  }
}
