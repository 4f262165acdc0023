/** Which relation between the rows each diagnostic of the lineage report stands for. */
module CheckMeaning {
  import opened Collections
  import opened Json
  import opened Compatibility
  import opened CompatibilityTheorems
  import opened FieldRelations

  // ---------------------------------------------------------------- a declared child

  /** What a child row owes the group that declares it; the code is reported when it does not hold. */
  ghost predicate ChildRelation(group: Row, child: Row, id: string, code: Code) {
    match code
    case CHILD_GROUP_LINEAGE_MISMATCH => Get(child, EvidenceGroupId) == Str(id)
    case CHILD_PRODUCT_LINEAGE_MISMATCH => Get(child, ExactSalesCode) == Get(group, ExactSalesCode)
    case CHILD_DOCUMENT_LINEAGE_MISMATCH => Get(child, DocumentId) == Get(group, DocumentId)
    case CHILD_PAGE_LINEAGE_MISMATCH => PagesWithin(Get(child, PageRefs), Get(group, PageRefs))
    case CHILD_RECORD_TYPE_INVALID => SaysChild(Get(child, RecordType))
    case CHILD_RETRIEVAL_ROLE_INVALID => Get(child, RetrievalRole) == Str("SEARCH_CANDIDATE")
    case CHILD_ALLOWED_USE_INVALID => Get(child, AllowedUse) in {Str("EXPERIMENT_ONLY"), Str("RAG_HANDOFF_ONLY")}
    case CHILD_VERIFICATION_STATUS_INVALID => Get(child, VerificationStatus) == Str("TEXT_AND_VISUAL_VERIFIED")
    case CHILD_SOURCE_FILE_SHA256_INVALID => IsHash(Get(child, SourceFileSha256))
    case CHILD_TEXT_SHA256_INVALID => IsHash(Get(child, ChildTextSha256))
    case CHILD_SOURCE_VARIANT_LINEAGE_MISMATCH => VariantListed(group, Get(child, SourceVariantId))
    case _ => true
  }

  /** The variant is an item of the group's variant list, read as empty when it is not a list of texts. */
  ghost predicate VariantListed(group: Row, variant: Json) {
    TextItems(Get(group, SourceVariantIds)) && variant in Get(group, SourceVariantIds).items
  }

  /** The codes of a declared child. */
  ghost predicate IsChildCode(code: Code) {
    || code.CHILD_GROUP_LINEAGE_MISMATCH?
    || code.CHILD_PRODUCT_LINEAGE_MISMATCH?
    || code.CHILD_DOCUMENT_LINEAGE_MISMATCH?
    || code.CHILD_PAGE_LINEAGE_MISMATCH?
    || code.CHILD_RECORD_TYPE_INVALID?
    || code.CHILD_RETRIEVAL_ROLE_INVALID?
    || code.CHILD_ALLOWED_USE_INVALID?
    || code.CHILD_VERIFICATION_STATUS_INVALID?
    || code.CHILD_SOURCE_FILE_SHA256_INVALID?
    || code.CHILD_TEXT_SHA256_INVALID?
    || code.CHILD_SOURCE_VARIANT_LINEAGE_MISMATCH?
  }

  lemma PageCheckMeans(pages: Json, allowed: Json)
    ensures ChildPageWithinGroup(pages, allowed) <==> PagesWithin(pages, allowed)
  {
    hide Pages, HasPage;
    PageListMeans(pages);
    PageListMeans(allowed);
    hide IsPageList;
    if PageItems(pages) {
      PageInclusion(pages, allowed);
    }
  }

  /** A check is reported exactly when it failed. */
  lemma FailedCheckMeans(checks: seq<Check>, source: Source, row: JsonlRow, relatedSource: Source, related: JsonlRow,
                         code: Code)
    ensures Linked(code, source, row, relatedSource, related) in FailedChecks(checks, source, row, relatedSource, related)
       <==> exists i :: 0 <= i < |checks| && checks[i].code == code && !checks[i].passed
  {
    hide FlatMap;
    FlatMapMember((c: Check) => if c.passed then [] else [Linked(c.code, source, row, relatedSource, related)], checks,
                  Linked(code, source, row, relatedSource, related));
  }

  /** The code of the i-th check. */
  ghost function ChildCodeAt(i: nat): Code {
    match i
    case 0 => CHILD_GROUP_LINEAGE_MISMATCH
    case 1 => CHILD_PRODUCT_LINEAGE_MISMATCH
    case 2 => CHILD_DOCUMENT_LINEAGE_MISMATCH
    case 3 => CHILD_PAGE_LINEAGE_MISMATCH
    case 4 => CHILD_RECORD_TYPE_INVALID
    case 5 => CHILD_RETRIEVAL_ROLE_INVALID
    case 6 => CHILD_ALLOWED_USE_INVALID
    case 7 => CHILD_VERIFICATION_STATUS_INVALID
    case 8 => CHILD_SOURCE_FILE_SHA256_INVALID
    case _ => CHILD_TEXT_SHA256_INVALID
  }

  lemma ChildCheckCodes(group: JsonlRow, child: JsonlRow, id: string)
    ensures |ChildChecks(group, child, id)| == 10
    ensures forall i :: 0 <= i < 10 ==> ChildChecks(group, child, id)[i].code == ChildCodeAt(i)
  {
    hide ChildPageWithinGroup, NamesChild, IsSha256, Get, Member;
  }

  lemma ChildCheckMeans(group: JsonlRow, child: JsonlRow, id: string, i: nat)
    requires i < |ChildChecks(group, child, id)|
    ensures ChildChecks(group, child, id)[i].passed
       <==> ChildRelation(group.value, child.value, id, ChildCodeAt(i))
  {
    hide ChildChecks, ChildRelation, ChildCodeAt;
    ChildCheckCodes(group, child, id);
    if i < 5 {
      EarlyChildCheckMeans(group, child, id, i);
    } else {
      LateChildCheckMeans(group, child, id, i);
    }
  }

  lemma EarlyChildCheckMeans(group: JsonlRow, child: JsonlRow, id: string, i: nat)
    requires i < 5 && i < |ChildChecks(group, child, id)|
    ensures ChildChecks(group, child, id)[i].passed
       <==> ChildRelation(group.value, child.value, id, ChildCodeAt(i))
  {
    hide ChildPageWithinGroup, PagesWithin, NamesChild, SaysChild, IsSha256, IsHash, Get, Member;
    PageCheckMeans(Get(child.value, PageRefs), Get(group.value, PageRefs));
    ChildWordMeans(Get(child.value, RecordType));
  }

  lemma LateChildCheckMeans(group: JsonlRow, child: JsonlRow, id: string, i: nat)
    requires 5 <= i < 10 && i < |ChildChecks(group, child, id)|
    ensures ChildChecks(group, child, id)[i].passed
       <==> ChildRelation(group.value, child.value, id, ChildCodeAt(i))
  {
    hide ChildPageWithinGroup, PagesWithin, NamesChild, SaysChild, IsSha256, IsHash, Get, Member;
    HashMeans(Get(child.value, SourceFileSha256));
    HashMeans(Get(child.value, ChildTextSha256));
    UseMeans(Get(child.value, AllowedUse));
  }

  lemma UseMeans(use: Json)
    ensures Member(use, CHILD_USES) <==> use in {Str("EXPERIMENT_ONLY"), Str("RAG_HANDOFF_ONLY")}
  {
  }

  ghost function ChildCodeIndex(code: Code): nat {
    match code
    case CHILD_GROUP_LINEAGE_MISMATCH => 0
    case CHILD_PRODUCT_LINEAGE_MISMATCH => 1
    case CHILD_DOCUMENT_LINEAGE_MISMATCH => 2
    case CHILD_PAGE_LINEAGE_MISMATCH => 3
    case CHILD_RECORD_TYPE_INVALID => 4
    case CHILD_RETRIEVAL_ROLE_INVALID => 5
    case CHILD_ALLOWED_USE_INVALID => 6
    case CHILD_VERIFICATION_STATUS_INVALID => 7
    case CHILD_SOURCE_FILE_SHA256_INVALID => 8
    case _ => 9
  }

  lemma ChildCodeHasCheck(code: Code)
    requires IsChildCode(code) && code != CHILD_SOURCE_VARIANT_LINEAGE_MISMATCH
    ensures ChildCodeIndex(code) < 10 && ChildCodeAt(ChildCodeIndex(code)) == code
    ensures forall j :: 0 <= j < 10 && ChildCodeAt(j) == code ==> j == ChildCodeIndex(code)
  {
    ChildCodeIsAtIndex(code);
    forall j | 0 <= j < 10
      ensures ChildCodeIndex(ChildCodeAt(j)) == j
    {
      ChildIndexIsAtCode(j);
    }
    hide ChildCodeIndex, ChildCodeAt;
  }

  lemma ChildCodeIsAtIndex(code: Code)
    requires IsChildCode(code) && code != CHILD_SOURCE_VARIANT_LINEAGE_MISMATCH
    ensures ChildCodeIndex(code) < 10 && ChildCodeAt(ChildCodeIndex(code)) == code
  {
  }

  lemma ChildIndexIsAtCode(j: nat)
    requires j < 10
    ensures ChildCodeIndex(ChildCodeAt(j)) == j
  {
  }

  lemma ChildCheckCodesAreOthers()
    ensures forall i: nat :: ChildCodeAt(i) != CHILD_SOURCE_VARIANT_LINEAGE_MISMATCH
    ensures forall i: nat :: IsChildCode(ChildCodeAt(i))
  {
  }

  /** For a declared child found in the index, each code is reported exactly when its relation fails. */
  lemma ChildCodeRaisedIff(view: View, c: string, code: Code)
    requires c in view.children && IsChildCode(code)
    ensures Linked(code, CHILDREN, view.children[c], GROUPS, view.group) in DeclaredChildErrors(view, c)
       <==> !ChildRelation(view.group.value, view.children[c].value, view.id, code)
  {
    hide ChildChecks, FailedChecks, ChildRelation, ListValue, Member, ChildCodeAt, ChildCodeIndex, IsChildCode;
    var child := view.children[c];
    var checks := ChildChecks(view.group, child, view.id);
    FailedCheckMeans(checks, CHILDREN, child, GROUPS, view.group, code);
    VariantCheckMeans(view, child);
    ChildCheckCodes(view.group, child, view.id);
    ChildCheckCodesAreOthers();
    if code != CHILD_SOURCE_VARIANT_LINEAGE_MISMATCH {
      ChildCodeHasCheck(code);
      ChildCheckMeans(view.group, child, view.id, ChildCodeIndex(code));
    }
  }

  lemma VariantCheckMeans(view: View, child: JsonlRow)
    ensures Member(Get(child.value, SourceVariantId), ToSet(view.VariantIds()))
       <==> ChildRelation(view.group.value, child.value, view.id, CHILD_SOURCE_VARIANT_LINEAGE_MISMATCH)
  {
    var list, variant := Get(view.group.value, SourceVariantIds), Get(child.value, SourceVariantId);
    TextListMeans(list);
    if IsTextList(list) {
      TextsMean(list);
    }
  }

  /** A declared child raises nothing exactly when it is found and all its relations hold. */
  lemma DeclaredChildMeans(view: View, c: string)
    ensures DeclaredChildErrors(view, c) == [] <==>
            c in view.children && forall code :: ChildRelation(view.group.value, view.children[c].value, view.id, code)
  {
    hide ChildChecks, FailedChecks, ChildRelation, ListValue, Member, ChildCodeAt, ChildCodeIndex, IsChildCode;
    if c in view.children {
      var child := view.children[c];
      var checks := ChildChecks(view.group, child, view.id);
      NoFailedChecks(checks, CHILDREN, child, GROUPS, view.group);
      VariantCheckMeans(view, child);
      ChildCheckCodes(view.group, child, view.id);
      forall i | 0 <= i < |checks|
        ensures checks[i].passed <==> ChildRelation(view.group.value, child.value, view.id, ChildCodeAt(i))
      {
        ChildCheckMeans(view.group, child, view.id, i);
      }
      if DeclaredChildErrors(view, c) == [] {
        forall code
          ensures ChildRelation(view.group.value, child.value, view.id, code)
        {
          if !IsChildCode(code) {
            OtherCodesHold(view.group.value, child.value, view.id, code);
          } else if code != CHILD_SOURCE_VARIANT_LINEAGE_MISMATCH {
            ChildCodeHasCheck(code);
            assert checks[ChildCodeIndex(code)].passed;
          }
        }
      }
    }
  }

  lemma OtherCodesHold(group: Row, child: Row, id: string, code: Code)
    requires !IsChildCode(code)
    ensures ChildRelation(group, child, id, code)
  {
  }

  // ---------------------------------------------------------------- a child's corpus row

  /** The row names the group: alone, or among the items of one of its two lists. */
  ghost predicate NamesGroup(corpus: Row, id: string) {
    && id != ""
    && (|| Get(corpus, EvidenceGroupId) == Str(id)
        || Has(corpus, EvidenceGroupIds, id)
        || Has(corpus, EvidenceUnitIds, id))
  }

  /** Two nonempty page lists with the same pages. */
  ghost predicate SamePages(left: Json, right: Json) {
    PagesWithin(left, right) && PagesWithin(right, left)
  }

  /** What a corpus row owes the child it stands for; the code is reported when it does not hold. */
  ghost predicate CorpusRelation(corpus: Row, child: Row, id: string, code: Code) {
    match code
    case CORPUS_NON_CHILD_CANNOT_SATISFY_GROUP => SaysChild(Get(corpus, RecordType))
    case CORPUS_RETRIEVAL_ROLE_INVALID => Get(corpus, RetrievalRole) == Str("SEARCH_CANDIDATE")
    case CORPUS_ALLOWED_USE_INVALID => Get(corpus, AllowedUse) == Str("EXPERIMENT_ONLY")
    case CORPUS_VERIFICATION_STATUS_INVALID => Get(corpus, SourceVerificationStatus) == Str("TEXT_AND_VISUAL_VERIFIED")
    case CORPUS_PRODUCT_LINEAGE_MISMATCH => Get(corpus, ExactSalesCode) == Get(child, ExactSalesCode)
    case CORPUS_DOCUMENT_LINEAGE_MISMATCH => Get(corpus, DocumentId) == Get(child, DocumentId)
    case CORPUS_PAGE_LINEAGE_MISMATCH => SamePages(Get(corpus, PageRefs), Get(child, PageRefs))
    case CORPUS_GROUP_LINK_MISSING => NamesGroup(corpus, id)
    case CORPUS_SOURCE_VARIANT_LINEAGE_MISMATCH =>
      Get(corpus, SourceVariantId).Str? && Get(corpus, SourceVariantId) != Str("")
      && Get(corpus, SourceVariantId) == Get(child, SourceVariantId)
    case CORPUS_SOURCE_FILE_LINEAGE_MISMATCH =>
      IsHash(Get(corpus, SourceFileSha256)) && Get(corpus, SourceFileSha256) == Get(child, SourceFileSha256)
    case CORPUS_CHILD_TEXT_SHA256_MISMATCH =>
      IsHash(Get(corpus, TextSha256)) && Get(corpus, TextSha256) == Get(child, ChildTextSha256)
    case CORPUS_CHILD_LINK_MISMATCH => Get(corpus, SourceRecordId) == Get(child, ChildId)
    case _ => true
  }

  /** The codes of a child's corpus row. */
  ghost predicate IsCorpusCode(code: Code) {
    || code.CORPUS_NON_CHILD_CANNOT_SATISFY_GROUP?
    || code.CORPUS_RETRIEVAL_ROLE_INVALID?
    || code.CORPUS_ALLOWED_USE_INVALID?
    || code.CORPUS_VERIFICATION_STATUS_INVALID?
    || code.CORPUS_PRODUCT_LINEAGE_MISMATCH?
    || code.CORPUS_DOCUMENT_LINEAGE_MISMATCH?
    || code.CORPUS_PAGE_LINEAGE_MISMATCH?
    || code.CORPUS_GROUP_LINK_MISSING?
    || code.CORPUS_SOURCE_VARIANT_LINEAGE_MISMATCH?
    || code.CORPUS_SOURCE_FILE_LINEAGE_MISMATCH?
    || code.CORPUS_CHILD_TEXT_SHA256_MISMATCH?
    || code.CORPUS_CHILD_LINK_MISMATCH?
  }

  /** The code of the i-th check. */
  ghost function CorpusCodeAt(i: nat): Code {
    match i
    case 0 => CORPUS_NON_CHILD_CANNOT_SATISFY_GROUP
    case 1 => CORPUS_RETRIEVAL_ROLE_INVALID
    case 2 => CORPUS_ALLOWED_USE_INVALID
    case 3 => CORPUS_VERIFICATION_STATUS_INVALID
    case 4 => CORPUS_PRODUCT_LINEAGE_MISMATCH
    case 5 => CORPUS_DOCUMENT_LINEAGE_MISMATCH
    case 6 => CORPUS_PAGE_LINEAGE_MISMATCH
    case 7 => CORPUS_GROUP_LINK_MISSING
    case 8 => CORPUS_SOURCE_VARIANT_LINEAGE_MISMATCH
    case 9 => CORPUS_SOURCE_FILE_LINEAGE_MISMATCH
    case 10 => CORPUS_CHILD_TEXT_SHA256_MISMATCH
    case _ => CORPUS_CHILD_LINK_MISMATCH
  }

  ghost function CorpusCodeIndex(code: Code): nat {
    match code
    case CORPUS_NON_CHILD_CANNOT_SATISFY_GROUP => 0
    case CORPUS_RETRIEVAL_ROLE_INVALID => 1
    case CORPUS_ALLOWED_USE_INVALID => 2
    case CORPUS_VERIFICATION_STATUS_INVALID => 3
    case CORPUS_PRODUCT_LINEAGE_MISMATCH => 4
    case CORPUS_DOCUMENT_LINEAGE_MISMATCH => 5
    case CORPUS_PAGE_LINEAGE_MISMATCH => 6
    case CORPUS_GROUP_LINK_MISSING => 7
    case CORPUS_SOURCE_VARIANT_LINEAGE_MISMATCH => 8
    case CORPUS_SOURCE_FILE_LINEAGE_MISMATCH => 9
    case CORPUS_CHILD_TEXT_SHA256_MISMATCH => 10
    case _ => 11
  }

  lemma CorpusCodeHasCheck(code: Code)
    requires IsCorpusCode(code)
    ensures CorpusCodeIndex(code) < 12 && CorpusCodeAt(CorpusCodeIndex(code)) == code
    ensures forall j :: 0 <= j < 12 && CorpusCodeAt(j) == code ==> j == CorpusCodeIndex(code)
  {
    CorpusCodeIsAtIndex(code);
    forall j | 0 <= j < 12
      ensures CorpusCodeIndex(CorpusCodeAt(j)) == j
    {
      CorpusIndexIsAtCode(j);
    }
    hide CorpusCodeIndex, CorpusCodeAt;
  }

  lemma CorpusCodeIsAtIndex(code: Code)
    requires IsCorpusCode(code)
    ensures CorpusCodeIndex(code) < 12 && CorpusCodeAt(CorpusCodeIndex(code)) == code
  {
  }

  lemma CorpusIndexIsAtCode(j: nat)
    requires j < 12
    ensures CorpusCodeIndex(CorpusCodeAt(j)) == j
  {
  }

  lemma CorpusCheckCodes(corpus: JsonlRow, child: JsonlRow, id: string)
    ensures |CorpusChecks(corpus, child, id)| == 12
    ensures forall i :: 0 <= i < 12 ==> CorpusChecks(corpus, child, id)[i].code == CorpusCodeAt(i)
  {
    hide CorpusChecks, CorpusCodeAt;
    EarlyCorpusCodes(corpus, child, id);
    LateCorpusCodes(corpus, child, id);
  }

  lemma EarlyCorpusCodes(corpus: JsonlRow, child: JsonlRow, id: string)
    ensures |CorpusChecks(corpus, child, id)| == 12
    ensures forall i :: 0 <= i < 6 ==> CorpusChecks(corpus, child, id)[i].code == CorpusCodeAt(i)
  {
    hide SamePageLineage, NamesChild, IsSha256, Get, GroupIdsAttached, IsText;
  }

  lemma LateCorpusCodes(corpus: JsonlRow, child: JsonlRow, id: string)
    ensures |CorpusChecks(corpus, child, id)| == 12
    ensures forall i :: 6 <= i < 12 ==> CorpusChecks(corpus, child, id)[i].code == CorpusCodeAt(i)
  {
    hide SamePageLineage, NamesChild, IsSha256, Get, GroupIdsAttached, IsText;
  }

  lemma SamePagesMean(left: Json, right: Json)
    ensures SamePageLineage(left, right) <==> SamePages(left, right)
  {
    PageCheckMeans(left, right);
    PageCheckMeans(right, left);
    hide Pages, IsPageList, PagesWithin;
  }

  lemma AttachedMeans(corpus: Row, id: string)
    ensures id in GroupIdsAttached(corpus) <==> NamesGroup(corpus, id)
  {
    ListedTextsMean(Get(corpus, EvidenceGroupIds), id);
    ListedTextsMean(Get(corpus, EvidenceUnitIds), id);
    hide TextsOf;
  }

  lemma ListedTextsMean(j: Json, text: string)
    ensures text in TextsOf(j) <==> text != "" && j.Arr? && Str(text) in j.items
  {
    if text != "" && j.Arr? && Str(text) in j.items {
      var i :| 0 <= i < |j.items| && j.items[i] == Str(text);
      assert IsText(j.items[i]);
    }
  }

  lemma CorpusCheckMeans(corpus: JsonlRow, child: JsonlRow, id: string, i: nat)
    requires i < |CorpusChecks(corpus, child, id)|
    ensures CorpusChecks(corpus, child, id)[i].passed
       <==> CorpusRelation(corpus.value, child.value, id, CorpusCodeAt(i))
  {
    hide CorpusChecks, CorpusRelation, CorpusCodeAt;
    CorpusCheckCodes(corpus, child, id);
    if i < 4 {
      CorpusStateMeans(corpus, child, id, i);
    } else if i < 8 {
      CorpusLineageMeans(corpus, child, id, i);
    } else {
      CorpusTextMeans(corpus, child, id, i);
    }
  }

  lemma CorpusStateMeans(corpus: JsonlRow, child: JsonlRow, id: string, i: nat)
    requires i < 4 && i < |CorpusChecks(corpus, child, id)|
    ensures CorpusChecks(corpus, child, id)[i].passed
       <==> CorpusRelation(corpus.value, child.value, id, CorpusCodeAt(i))
  {
    hide SamePageLineage, SamePages, NamesChild, SaysChild, IsSha256, IsHash, Get, GroupIdsAttached, NamesGroup, IsText;
    ChildWordMeans(Get(corpus.value, RecordType));
  }

  lemma CorpusLineageMeans(corpus: JsonlRow, child: JsonlRow, id: string, i: nat)
    requires 4 <= i < 8 && i < |CorpusChecks(corpus, child, id)|
    ensures CorpusChecks(corpus, child, id)[i].passed
       <==> CorpusRelation(corpus.value, child.value, id, CorpusCodeAt(i))
  {
    hide SamePageLineage, SamePages, NamesChild, SaysChild, IsSha256, IsHash, Get, GroupIdsAttached, NamesGroup, IsText;
    SamePagesMean(Get(corpus.value, PageRefs), Get(child.value, PageRefs));
    AttachedMeans(corpus.value, id);
  }

  lemma CorpusTextMeans(corpus: JsonlRow, child: JsonlRow, id: string, i: nat)
    requires 8 <= i < 12 && i < |CorpusChecks(corpus, child, id)|
    ensures CorpusChecks(corpus, child, id)[i].passed
       <==> CorpusRelation(corpus.value, child.value, id, CorpusCodeAt(i))
  {
    hide SamePageLineage, SamePages, NamesChild, SaysChild, IsSha256, IsHash, Get, GroupIdsAttached, NamesGroup;
    HashMeans(Get(corpus.value, SourceFileSha256));
    HashMeans(Get(corpus.value, TextSha256));
  }

  /** Each code is reported for a child's corpus row exactly when its relation fails. */
  lemma CorpusCodeRaisedIff(corpus: JsonlRow, child: JsonlRow, id: string, code: Code)
    requires IsCorpusCode(code)
    ensures Linked(code, CORPUS, corpus, CHILDREN, child) in CorpusErrors(corpus, child, id)
       <==> !CorpusRelation(corpus.value, child.value, id, code)
  {
    hide CorpusChecks, FailedChecks, CorpusRelation, CorpusCodeAt, CorpusCodeIndex, IsCorpusCode;
    var checks := CorpusChecks(corpus, child, id);
    FailedCheckMeans(checks, CORPUS, corpus, CHILDREN, child, code);
    CorpusCheckCodes(corpus, child, id);
    CorpusCodeHasCheck(code);
    CorpusCheckMeans(corpus, child, id, CorpusCodeIndex(code));
  }

  /** A corpus row matches its child exactly when all relations hold and the group's product agrees. */
  lemma CorpusMatchMeans(corpus: JsonlRow, child: JsonlRow, group: JsonlRow, id: string)
    ensures CorpusMatches(corpus, child, group, id)
       <==> && (forall code :: CorpusRelation(corpus.value, child.value, id, code))
            && Get(corpus.value, ExactSalesCode) == Get(group.value, ExactSalesCode)
    ensures CorpusErrors(corpus, child, id) == []
       <==> forall code :: CorpusRelation(corpus.value, child.value, id, code)
  {
    hide CorpusChecks, FailedChecks, CorpusRelation, CorpusCodeAt, CorpusCodeIndex, IsCorpusCode;
    var checks := CorpusChecks(corpus, child, id);
    NoFailedChecks(checks, CORPUS, corpus, CHILDREN, child);
    CorpusCheckCodes(corpus, child, id);
    forall i | 0 <= i < |checks|
      ensures checks[i].passed <==> CorpusRelation(corpus.value, child.value, id, CorpusCodeAt(i))
    {
      CorpusCheckMeans(corpus, child, id, i);
    }
    if forall i :: 0 <= i < |checks| ==> checks[i].passed {
      forall code
        ensures CorpusRelation(corpus.value, child.value, id, code)
      {
        if !IsCorpusCode(code) {
          OtherCorpusCodesHold(corpus.value, child.value, id, code);
        } else {
          CorpusCodeHasCheck(code);
          assert checks[CorpusCodeIndex(code)].passed;
        }
      }
    }
  }

  lemma OtherCorpusCodesHold(corpus: Row, child: Row, id: string, code: Code)
    requires !IsCorpusCode(code)
    ensures CorpusRelation(corpus, child, id, code)
  {
  }
}
