/** When a Gold case, and its reference to a group, raise nothing. */
module CaseMeaning {
  import opened Collections
  import opened Json
  import opened Compatibility
  import opened CompatibilityTheorems
  import opened FieldRelations

  // ---------------------------------------------------------------- a Gold case on its own

  ghost predicate EvidenceIsSound(row: Row) {
    && Get(row, ExpectedExecutionPath) == Str("PGVECTOR_QUERY")
    && Get(row, EvidenceMatchPolicy) in {Str("ANY"), Str("ALL")}
    && exists g :: Has(row, RequiredEvidenceGroupIds, g)
  }

  ghost predicate AbsenceIsSound(row: Row) {
    && (forall g :: !Has(row, RequiredEvidenceGroupIds, g) && !Has(row, SupportingEvidenceGroupIds, g))
    && Get(row, EvidenceMatchPolicy) == Str("NONE")
    && (|| Get(row, ExpectedExecutionPath) == Str("PGVECTOR_QUERY")
        || exists path :: path in POLICY_BLOCK_PATHS && Get(row, ExpectedExecutionPath) == Str(path))
  }

  /** Excluded and rejected cases are not looked at; an active one has clean lists and fits its outcome. */
  ghost predicate CaseIsSound(row: Row) {
    || Get(row, EvaluationStatus) in {Str("EXCLUDED"), Str("REJECTED")}
    || (&& Get(row, EvaluationStatus) == Str("ACTIVE")
        && Get(row, ProductModelCode).Str? && Get(row, ProductModelCode) != Str("")
        && DistinctTexts(Get(row, RequiredEvidenceGroupIds)) && DistinctTexts(Get(row, SupportingEvidenceGroupIds))
        && (forall g :: !(Has(row, RequiredEvidenceGroupIds, g) && Has(row, SupportingEvidenceGroupIds, g)))
        && (ConsultationConditionIds in row ==> DistinctTexts(row[ConsultationConditionIds]))
        && (|| (Get(row, ExpectedRetrievalOutcome) == Str("EVIDENCE") && EvidenceIsSound(row))
            || (Get(row, ExpectedRetrievalOutcome) == Str("NO_EVIDENCE") && AbsenceIsSound(row))))
  }

  lemma ListErrorsMean(row: JsonlRow, field: Field, source: Source, invalid: Code, duplicate: Code)
    ensures ListErrors(row, field, source, invalid, duplicate) == [] <==> DistinctTexts(Get(row.value, field))
  {
    var j := Get(row.value, field);
    TextListMeans(j);
    if IsTextList(j) {
      TextsMean(j);
    }
  }

  /** The checker's reading of a clean list holds the items of the field, as many as there are. */
  lemma ListValueMeans(row: JsonlRow, field: Field)
    requires TextItems(Get(row.value, field))
    ensures forall text :: text in ListValue(row, field) <==> Has(row.value, field, text)
    ensures |ListValue(row, field)| == |Get(row.value, field).items|
    ensures NoDuplicates(ListValue(row, field)) <==> DistinctTexts(Get(row.value, field))
  {
    var j := Get(row.value, field);
    TextListMeans(j);
    TextsMean(j);
  }

  lemma CaseListsMean(row: JsonlRow)
    ensures CaseListErrors(row) == [] <==>
            && Get(row.value, ProductModelCode).Str? && Get(row.value, ProductModelCode) != Str("")
            && DistinctTexts(Get(row.value, RequiredEvidenceGroupIds))
            && DistinctTexts(Get(row.value, SupportingEvidenceGroupIds))
            && (forall g :: !(Has(row.value, RequiredEvidenceGroupIds, g) && Has(row.value, SupportingEvidenceGroupIds, g)))
            && (ConsultationConditionIds in row.value ==> DistinctTexts(row.value[ConsultationConditionIds]))
  {
    hide ListErrors, DistinctTexts, ListValue, Has;
    ListErrorsMean(row, RequiredEvidenceGroupIds, GOLD, GOLD_REQUIRED_GROUP_IDS_INVALID,
                   GOLD_REQUIRED_GROUP_ID_DUPLICATE);
    ListErrorsMean(row, SupportingEvidenceGroupIds, GOLD, GOLD_SUPPORTING_GROUP_IDS_INVALID,
                   GOLD_SUPPORTING_GROUP_ID_DUPLICATE);
    ListErrorsMean(row, ConsultationConditionIds, GOLD, GOLD_CONDITION_IDS_INVALID, GOLD_CONDITION_ID_DUPLICATE);
    if DistinctTexts(Get(row.value, RequiredEvidenceGroupIds)) && DistinctTexts(Get(row.value, SupportingEvidenceGroupIds)) {
      DistinctAreTexts(Get(row.value, RequiredEvidenceGroupIds));
      DistinctAreTexts(Get(row.value, SupportingEvidenceGroupIds));
      RolesMean(row);
    }
  }

  lemma DistinctAreTexts(j: Json)
    requires DistinctTexts(j)
    ensures TextItems(j)
  {
  }

  lemma RolesMean(row: JsonlRow)
    requires TextItems(Get(row.value, RequiredEvidenceGroupIds)) && TextItems(Get(row.value, SupportingEvidenceGroupIds))
    ensures ToSet(RequiredOf(row)) * ToSet(SupportingOf(row)) == {}
       <==> forall g :: !(Has(row.value, RequiredEvidenceGroupIds, g) && Has(row.value, SupportingEvidenceGroupIds, g))
  {
    hide ListValue, Has;
    ListValueMeans(row, RequiredEvidenceGroupIds);
    ListValueMeans(row, SupportingEvidenceGroupIds);
    var both := ToSet(RequiredOf(row)) * ToSet(SupportingOf(row));
    if g :| Has(row.value, RequiredEvidenceGroupIds, g) && Has(row.value, SupportingEvidenceGroupIds, g) {
      assert g in both;
    }
    if both != {} {
      var g :| g in both;
      assert Has(row.value, RequiredEvidenceGroupIds, g) && Has(row.value, SupportingEvidenceGroupIds, g);
    }
  }

  lemma EmptyListMeans(row: JsonlRow, field: Field)
    requires TextItems(Get(row.value, field))
    ensures ListValue(row, field) == [] <==> forall text :: !Has(row.value, field, text)
  {
    hide ListValue, Has;
    ListValueMeans(row, field);
    if ListValue(row, field) != [] {
      assert ListValue(row, field)[0] in ListValue(row, field);
    }
  }

  lemma OutcomeMeans(row: JsonlRow)
    requires TextItems(Get(row.value, RequiredEvidenceGroupIds)) && TextItems(Get(row.value, SupportingEvidenceGroupIds))
    ensures EvidenceErrors(row) == [] <==> EvidenceIsSound(row.value)
    ensures NoEvidenceErrors(row) == [] <==> AbsenceIsSound(row.value)
  {
    hide ListValue, Member, Has;
    EmptyListMeans(row, RequiredEvidenceGroupIds);
    EmptyListMeans(row, SupportingEvidenceGroupIds);
    MemberMeans(Get(row.value, EvidenceMatchPolicy), {"ANY", "ALL"});
    MemberMeans(Get(row.value, ExpectedExecutionPath), POLICY_BLOCK_PATHS);
  }

  lemma CaseMeans(row: JsonlRow)
    ensures CaseErrors(row) == [] <==> CaseIsSound(row.value)
  {
    hide CaseListErrors, EvidenceErrors, NoEvidenceErrors, EvidenceIsSound, AbsenceIsSound, DistinctTexts, Has;
    CaseListsMean(row);
    ActiveIsNotSkipped(row);
    MemberMeans(Get(row.value, EvaluationStatus), {"EXCLUDED", "REJECTED"});
    if CaseListErrors(row) == [] {
      DistinctAreTexts(Get(row.value, RequiredEvidenceGroupIds));
      DistinctAreTexts(Get(row.value, SupportingEvidenceGroupIds));
      OutcomeMeans(row);
    }
    OutcomesDiffer();
  }

  lemma OutcomesDiffer()
    ensures Str("EVIDENCE") != Str("NO_EVIDENCE")
  {
    assert |"EVIDENCE"| != |"NO_EVIDENCE"|;
  }

  // ---------------------------------------------------------------- a case and a group it refers to

  /** The group is of the case's product, and neither its document nor its product is forbidden. */
  ghost predicate ReferenceIsSound(row: Row, group: Row) {
    && Get(group, ExactSalesCode) == Get(row, ProductModelCode)
    && !(exists document :: Get(group, DocumentId) == Str(document) && Yields(Get(row, ForbiddenDocumentIds), document))
    && !(exists model :: Get(group, ExactSalesCode) == Str(model) && Yields(Get(row, ForbiddenModelCodes), model))
  }

  lemma ForbiddenMeans(value: Json, list: Json)
    ensures Member(value, IteratedTexts(list)) <==> exists text :: value == Str(text) && Yields(list, text)
  {
    hide IteratedTexts, Yields;
    if value.Str? {
      IterationMeans(list, value.s);
    }
  }

  lemma ReferenceMeans(group: JsonlRow, row: JsonlRow)
    requires Get(row.value, ProductModelCode).Str? && Get(row.value, ProductModelCode) != Str("")
    ensures ReferenceErrors(group, Reference(row, ProductOf(row))) == [] <==> ReferenceIsSound(row.value, group.value)
  {
    hide IteratedTexts, Yields, Member;
    ForbiddenMeans(Get(group.value, DocumentId), Get(row.value, ForbiddenDocumentIds));
    ForbiddenMeans(Get(group.value, ExactSalesCode), Get(row.value, ForbiddenModelCodes));
  }
}
