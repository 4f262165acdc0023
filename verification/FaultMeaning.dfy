/** Which relation between the rows each fault of the overlay stands for, and that the first failing one is reported. */
module FaultMeaning {
  import opened Collections
  import opened Json
  import opened FieldRelations
  import opened Overlay

  /** No fault when everything in the list of checks holds, otherwise the first fault of the list that does not. */
  ghost predicate IsFirstFault(fault: Option<Fault>, n: nat, at: nat -> Fault, holds: Fault -> bool) {
    match fault
    case None => forall k: nat :: k < n ==> holds(at(k))
    case Some(f) => exists k: nat :: k < n && f == at(k) && !holds(f) && forall j: nat :: j < k ==> holds(at(j))
  }

  /** The search for the first failing check, from the k-th on. */
  ghost function SearchFrom(k: nat, n: nat, at: nat -> Fault, holds: Fault -> bool): Option<Fault>
    requires k <= n
    decreases n - k
  {
    if k == n then None else When(!holds(at(k)), at(k), SearchFrom(k + 1, n, at, holds))
  }

  lemma {:induction false} SearchFindsFirst(k: nat, n: nat, at: nat -> Fault, holds: Fault -> bool)
    requires k <= n && forall j: nat :: j < k ==> holds(at(j))
    ensures IsFirstFault(SearchFrom(k, n, at, holds), n, at, holds)
    decreases n - k
  {
    if k < n && holds(at(k)) {
      SearchFindsFirst(k + 1, n, at, holds);
    }
  }

  lemma SearchStep(k: nat, n: nat, at: nat -> Fault, holds: Fault -> bool)
    requires k < n
    ensures SearchFrom(k, n, at, holds) == if holds(at(k)) then SearchFrom(k + 1, n, at, holds) else Some(at(k))
  {
  }

  lemma SearchEnd(n: nat, at: nat -> Fault, holds: Fault -> bool)
    ensures SearchFrom(n, n, at, holds) == None
  {
  }

  // ---------------------------------------------------------------- strict lists

  /** A nonempty list of positive integers, no two alike; here `True` is not a page. */
  ghost predicate StrictPages(j: Json) {
    && j.Arr? && j.items != [] && (forall x :: x in j.items ==> x.Int? && x.n >= 1)
    && forall a, b :: 0 <= a < b < |j.items| ==> j.items[a] != j.items[b]
  }

  /** Sixty-four hexadecimal digits in upper case. */
  ghost predicate UpperHash(j: Json) {
    j.Str? && |j.s| == 64 && forall c :: c in j.s ==> c in "0123456789ABCDEF"
  }

  lemma StrictPagesMean(j: Json)
    ensures IsStrictPageList(j) <==> StrictPages(j)
  {
    if IsStrictPageList(j) {
      forall x | x in j.items
        ensures x.Int? && x.n >= 1
      {
        var i :| 0 <= i < |j.items| && j.items[i] == x;
        assert IsStrictPage(j.items[i]);
      }
    }
  }

  lemma StrictTextsMean(j: Json)
    ensures IsDistinctTextList(j) <==> DistinctTexts(j) && j.items != []
  {
    TextListMeans(j);
    if IsTextList(j) {
      TextsMean(j);
    }
  }

  lemma UpperHashMeans(j: Json)
    ensures IsUpperSha256(j) <==> UpperHash(j)
  {
    hide IsUpperHex;
    forall c
      ensures IsUpperHex(c) <==> c in "0123456789ABCDEF"
    {
      UpperDigitMeans(c);
    }
    if IsUpperSha256(j) {
      forall c | c in j.s
        ensures IsUpperHex(c)
      {
        var i :| 0 <= i < |j.s| && j.s[i] == c;
      }
    }
  }

  lemma UpperDigitMeans(c: char)
    ensures IsUpperHex(c) <==> c in "0123456789ABCDEF"
  {
  }

  lemma PageKeyMeans(j: Json, page: int)
    requires page >= 1
    ensures Int(page) in PageKeys(j) <==> HasPage(j, page)
  {
    if Int(page) in PageKeys(j) {
      var i :| 0 <= i < |j.items| && PageKey(j.items[i]) == Int(page);
      assert j.items[i] in j.items;
    }
    if HasPage(j, page) {
      var x := if Int(page) in j.items then Int(page) else Bool(true);
      var i :| 0 <= i < |j.items| && j.items[i] == x;
      assert PageKey(j.items[i]) == Int(page);
    }
  }

  lemma StrictKeysArePages(j: Json, key: Json)
    requires StrictPages(j) && key in PageKeys(j)
    ensures key.Int? && key.n >= 1 && key in j.items
  {
    var i :| 0 <= i < |j.items| && PageKey(j.items[i]) == key;
    assert j.items[i] in j.items;
  }

  /** Every page of the first is one of the second. */
  ghost predicate PagesAmong(pages: Json, allowed: Json) {
    forall page :: HasPage(pages, page) ==> HasPage(allowed, page)
  }

  lemma StrictHasPage(j: Json, page: int)
    requires StrictPages(j) && HasPage(j, page)
    ensures page >= 1 && Int(page) in j.items
  {
  }

  lemma PageKeyInclusion(pages: Json, allowed: Json)
    requires StrictPages(pages)
    ensures PageKeys(pages) <= PageKeys(allowed) <==> PagesAmong(pages, allowed)
  {
    hide StrictPages, PageKeys, HasPage;
    if PageKeys(pages) <= PageKeys(allowed) {
      forall page | HasPage(pages, page)
        ensures HasPage(allowed, page)
      {
        StrictHasPage(pages, page);
        PageKeyMeans(pages, page);
        PageKeyMeans(allowed, page);
      }
    }
    if PagesAmong(pages, allowed) {
      forall key | key in PageKeys(pages)
        ensures key in PageKeys(allowed)
      {
        StrictKeysArePages(pages, key);
        PageKeyMeans(pages, key.n);
        PageKeyMeans(allowed, key.n);
      }
    }
  }

  /** The list holds the pages of the strict list, `True` counting as 1, and nothing else. */
  ghost predicate ExactlyPages(list: Json, pages: Json) {
    && list.Arr? && PagesAmong(pages, list)
    && forall x :: x in list.items ==> (x.Int? && HasPage(pages, x.n)) || (x == Bool(true) && HasPage(pages, 1))
  }

  lemma PageKeysEqual(list: Json, pages: Json)
    requires StrictPages(pages)
    ensures PageKeys(list) == PageKeys(pages) <==> ExactlyPages(list, pages)
  {
    PageKeyInclusion(pages, list);
    if PageKeys(list) == PageKeys(pages) {
      StrictHasKey(pages);
      forall x | x in list.items
        ensures (x.Int? && HasPage(pages, x.n)) || (x == Bool(true) && HasPage(pages, 1))
      {
        var i :| 0 <= i < |list.items| && list.items[i] == x;
        assert PageKey(x) in PageKeys(list);
        StrictKeysArePages(pages, PageKey(x));
        PageKeyMeans(pages, PageKey(x).n);
      }
    }
    if ExactlyPages(list, pages) {
      forall key | key in PageKeys(list)
        ensures key in PageKeys(pages)
      {
        var i :| 0 <= i < |list.items| && PageKey(list.items[i]) == key;
        assert list.items[i] in list.items;
        StrictHasPage(pages, key.n);
        PageKeyMeans(pages, key.n);
      }
    }
  }

  lemma StrictHasKey(pages: Json)
    requires StrictPages(pages)
    ensures exists key :: key in PageKeys(pages)
  {
    assert PageKey(pages.items[0]) in PageKeys(pages);
  }

  // ---------------------------------------------------------------- a source child

  /** What a source child of a condition owes the group; the fault is raised when it does not hold. */
  ghost predicate SourceChildRelation(group: Row, child: Row, fault: Fault) {
    match fault
    case CONDITION_CHILD_GROUP_LINEAGE_MISMATCH => Get(child, EvidenceGroupId) == Get(group, EvidenceGroupId)
    case CONDITION_CHILD_PRODUCT_LINEAGE_MISMATCH => Get(child, ExactSalesCode) == Get(group, ExactSalesCode)
    case CONDITION_CHILD_DOCUMENT_LINEAGE_MISMATCH => Get(child, DocumentId) == Get(group, DocumentId)
    case CONDITION_CHILD_PAGE_REFS_INVALID => StrictPages(Get(child, PageRefs))
    case CONDITION_CHILD_PAGE_LINEAGE_MISMATCH => PagesAmong(Get(child, PageRefs), Get(group, PageRefs))
    case CONDITION_CHILD_RECORD_TYPE_INVALID => SaysChild(Get(child, RecordType))
    case CONDITION_CHILD_RETRIEVAL_ROLE_INVALID => Get(child, RetrievalRole) == Str("SEARCH_CANDIDATE")
    case CONDITION_CHILD_ALLOWED_USE_INVALID => Get(child, AllowedUse) in {Str("EXPERIMENT_ONLY"), Str("RAG_HANDOFF_ONLY")}
    case CONDITION_CHILD_VERIFICATION_INVALID => Get(child, VerificationStatus) == Str("TEXT_AND_VISUAL_VERIFIED")
    case CHILD_FREE_TEXT_CONDITION_MISSING =>
      TextItems(Get(child, ConsultationConditions)) && Get(child, ConsultationConditions).items != []
    case _ => true
  }

  /** The checks of a source child, in order. */
  ghost function ChildFaultAt(k: nat): Fault {
    match k
    case 0 => CONDITION_CHILD_GROUP_LINEAGE_MISMATCH
    case 1 => CONDITION_CHILD_PRODUCT_LINEAGE_MISMATCH
    case 2 => CONDITION_CHILD_DOCUMENT_LINEAGE_MISMATCH
    case 3 => CONDITION_CHILD_PAGE_REFS_INVALID
    case 4 => CONDITION_CHILD_PAGE_LINEAGE_MISMATCH
    case 5 => CONDITION_CHILD_RECORD_TYPE_INVALID
    case 6 => CONDITION_CHILD_RETRIEVAL_ROLE_INVALID
    case 7 => CONDITION_CHILD_ALLOWED_USE_INVALID
    case 8 => CONDITION_CHILD_VERIFICATION_INVALID
    case _ => CHILD_FREE_TEXT_CONDITION_MISSING
  }

  lemma ChildPagesMean(group: Row, child: Row)
    ensures SourceChildRelation(group, child, ChildFaultAt(3)) <==> IsStrictPageList(Get(child, PageRefs))
    ensures IsStrictPageList(Get(child, PageRefs)) ==>
              (SourceChildRelation(group, child, ChildFaultAt(4)) <==> PageKeys(Get(child, PageRefs)) <= PageKeys(Get(group, PageRefs)))
  {
    hide IsStrictPageList, StrictPages, PageKeys, PagesAmong, Get;
    StrictPagesMean(Get(child, PageRefs));
    if StrictPages(Get(child, PageRefs)) {
      PageKeyInclusion(Get(child, PageRefs), Get(group, PageRefs));
    }
  }

  lemma ChildRoleMeans(group: Row, child: Row)
    ensures SourceChildRelation(group, child, ChildFaultAt(5)) <==> NamesChild(Get(child, RecordType))
    ensures SourceChildRelation(group, child, ChildFaultAt(6)) <==> Get(child, RetrievalRole) == Str("SEARCH_CANDIDATE")
    ensures SourceChildRelation(group, child, ChildFaultAt(7))
       <==> Member(Get(child, AllowedUse), {"EXPERIMENT_ONLY", "RAG_HANDOFF_ONLY"})
  {
    hide NamesChild, SaysChild, Get, TextItems, Member;
    ChildWordMeans(Get(child, RecordType));
    AllowedUseMeans(Get(child, AllowedUse));
  }

  lemma ChildTextsMean(group: Row, child: Row)
    ensures SourceChildRelation(group, child, ChildFaultAt(8))
       <==> Get(child, VerificationStatus) == Str("TEXT_AND_VISUAL_VERIFIED")
    ensures SourceChildRelation(group, child, ChildFaultAt(9))
       <==> IsTextList(Get(child, ConsultationConditions)) && Get(child, ConsultationConditions).items != []
  {
    hide SaysChild, Get, TextItems, IsTextList;
    TextListMeans(Get(child, ConsultationConditions));
  }

  lemma ChildLineageMeans(group: Row, child: Row)
    ensures SourceChildRelation(group, child, ChildFaultAt(0))
       <==> Get(child, EvidenceGroupId) == Get(group, EvidenceGroupId)
    ensures SourceChildRelation(group, child, ChildFaultAt(1))
       <==> Get(child, ExactSalesCode) == Get(group, ExactSalesCode)
    ensures SourceChildRelation(group, child, ChildFaultAt(2)) <==> Get(child, DocumentId) == Get(group, DocumentId)
  {
    hide Get;
  }

  lemma ChildFaultsInOrder()
    ensures ChildFaultAt(0) == CONDITION_CHILD_GROUP_LINEAGE_MISMATCH && ChildFaultAt(1) == CONDITION_CHILD_PRODUCT_LINEAGE_MISMATCH
    ensures ChildFaultAt(2) == CONDITION_CHILD_DOCUMENT_LINEAGE_MISMATCH && ChildFaultAt(3) == CONDITION_CHILD_PAGE_REFS_INVALID
    ensures ChildFaultAt(4) == CONDITION_CHILD_PAGE_LINEAGE_MISMATCH && ChildFaultAt(5) == CONDITION_CHILD_RECORD_TYPE_INVALID
    ensures ChildFaultAt(6) == CONDITION_CHILD_RETRIEVAL_ROLE_INVALID && ChildFaultAt(7) == CONDITION_CHILD_ALLOWED_USE_INVALID
    ensures ChildFaultAt(8) == CONDITION_CHILD_VERIFICATION_INVALID && ChildFaultAt(9) == CHILD_FREE_TEXT_CONDITION_MISSING
  {
  }

  lemma AllowedUseMeans(use: Json)
    ensures Member(use, {"EXPERIMENT_ONLY", "RAG_HANDOFF_ONLY"})
       <==> use in {Str("EXPERIMENT_ONLY"), Str("RAG_HANDOFF_ONLY")}
  {
  }

  /** A source child's own checks report the first relation that fails. */
  lemma ChildRowFaultIsFirst(group: Row, child: Row)
    ensures IsFirstFault(ChildRowFault(group, child), 10, ChildFaultAt, fault => SourceChildRelation(group, child, fault))
  {
    var holds := fault => SourceChildRelation(group, child, fault);
    SearchFindsFirst(0, 10, ChildFaultAt, holds);
    ChildSearch(group, child, holds);
    hide ChildRowFault, SearchFrom, IsFirstFault;
  }

  /** The last five checks. */
  lemma ChildSearchEnds(group: Row, child: Row, holds: Fault -> bool)
    requires forall fault :: holds(fault) == SourceChildRelation(group, child, fault)
    ensures SearchFrom(5, 10, ChildFaultAt, holds) ==
      When(!NamesChild(Get(child, RecordType)), CONDITION_CHILD_RECORD_TYPE_INVALID,
      When(Get(child, RetrievalRole) != Str("SEARCH_CANDIDATE"), CONDITION_CHILD_RETRIEVAL_ROLE_INVALID,
      When(!Member(Get(child, AllowedUse), {"EXPERIMENT_ONLY", "RAG_HANDOFF_ONLY"}), CONDITION_CHILD_ALLOWED_USE_INVALID,
      When(Get(child, VerificationStatus) != Str("TEXT_AND_VISUAL_VERIFIED"), CONDITION_CHILD_VERIFICATION_INVALID,
      When(!IsTextList(Get(child, ConsultationConditions)) || Get(child, ConsultationConditions).items == [],
           CHILD_FREE_TEXT_CONDITION_MISSING,
      None)))))
  {
    hide NamesChild, Get, IsTextList, Member, SourceChildRelation, ChildFaultAt, SearchFrom;
    ChildRoleMeans(group, child);
    ChildTextsMean(group, child);
    ChildFaultsInOrder();
    SearchStep(5, 10, ChildFaultAt, holds);
    SearchStep(6, 10, ChildFaultAt, holds);
    SearchStep(7, 10, ChildFaultAt, holds);
    SearchStep(8, 10, ChildFaultAt, holds);
    SearchStep(9, 10, ChildFaultAt, holds);
    SearchEnd(10, ChildFaultAt, holds);
  }

  lemma ChildSearch(group: Row, child: Row, holds: Fault -> bool)
    requires forall fault :: holds(fault) == SourceChildRelation(group, child, fault)
    ensures ChildRowFault(group, child) == SearchFrom(0, 10, ChildFaultAt, holds)
  {
    hide IsStrictPageList, PageKeys, NamesChild, Get, IsTextList, Member, SourceChildRelation, ChildFaultAt, SearchFrom;
    ChildLineageMeans(group, child);
    ChildPagesMean(group, child);
    ChildFaultsInOrder();
    ChildSearchEnds(group, child, holds);
    SearchStep(0, 10, ChildFaultAt, holds);
    SearchStep(1, 10, ChildFaultAt, holds);
    SearchStep(2, 10, ChildFaultAt, holds);
    SearchStep(3, 10, ChildFaultAt, holds);
    SearchStep(4, 10, ChildFaultAt, holds);
  }

  // ---------------------------------------------------------------- the corpus row of a source child

  /** What the corpus row of a source child owes the child; the fault is raised when it does not hold. */
  ghost predicate SourceCorpusRelation(group: Row, child: Row, corpus: Row, fault: Fault) {
    match fault
    case CONDITION_CORPUS_RECORD_TYPE_INVALID => Get(corpus, RecordType) == Str("CHILD")
    case CONDITION_CORPUS_RETRIEVAL_ROLE_INVALID => Get(corpus, RetrievalRole) == Str("SEARCH_CANDIDATE")
    case CONDITION_CORPUS_ALLOWED_USE_INVALID => Get(corpus, AllowedUse) == Str("EXPERIMENT_ONLY")
    case CONDITION_CORPUS_VERIFICATION_INVALID => Get(corpus, SourceVerificationStatus) == Str("TEXT_AND_VISUAL_VERIFIED")
    case CONDITION_CORPUS_GROUP_LINK_MISSING =>
      Get(corpus, EvidenceUnitIds).Arr? && Get(group, EvidenceGroupId) in Get(corpus, EvidenceUnitIds).items
    case CONDITION_CORPUS_PRODUCT_LINEAGE_MISMATCH => Get(corpus, ExactSalesCode) == Get(child, ExactSalesCode)
    case CONDITION_CORPUS_DOCUMENT_LINEAGE_MISMATCH => Get(corpus, DocumentId) == Get(child, DocumentId)
    case CONDITION_CORPUS_PAGE_LINEAGE_MISMATCH => ExactlyPages(Get(corpus, PageRefs), Get(child, PageRefs))
    case CONDITION_CORPUS_VARIANT_LINEAGE_MISMATCH => Get(corpus, SourceVariantId) == Get(child, SourceVariantId)
    case CONDITION_CORPUS_SOURCE_HASH_MISMATCH => Get(corpus, SourceFileSha256) == Get(child, SourceFileSha256)
    case CONDITION_CORPUS_TEXT_HASH_MISMATCH => Get(corpus, TextSha256) == Get(child, ChildTextSha256)
    case _ => true
  }

  /** The checks of a corpus row, in order. */
  ghost function CorpusFaultAt(k: nat): Fault {
    match k
    case 0 => CONDITION_CORPUS_RECORD_TYPE_INVALID
    case 1 => CONDITION_CORPUS_RETRIEVAL_ROLE_INVALID
    case 2 => CONDITION_CORPUS_ALLOWED_USE_INVALID
    case 3 => CONDITION_CORPUS_VERIFICATION_INVALID
    case 4 => CONDITION_CORPUS_GROUP_LINK_MISSING
    case 5 => CONDITION_CORPUS_PRODUCT_LINEAGE_MISMATCH
    case 6 => CONDITION_CORPUS_DOCUMENT_LINEAGE_MISMATCH
    case 7 => CONDITION_CORPUS_PAGE_LINEAGE_MISMATCH
    case 8 => CONDITION_CORPUS_VARIANT_LINEAGE_MISMATCH
    case 9 => CONDITION_CORPUS_SOURCE_HASH_MISMATCH
    case _ => CONDITION_CORPUS_TEXT_HASH_MISMATCH
  }

  lemma CorpusRoleMeans(group: Row, child: Row, corpus: Row)
    ensures SourceCorpusRelation(group, child, corpus, CorpusFaultAt(0)) <==> Get(corpus, RecordType) == Str("CHILD")
    ensures SourceCorpusRelation(group, child, corpus, CorpusFaultAt(1))
       <==> Get(corpus, RetrievalRole) == Str("SEARCH_CANDIDATE")
    ensures SourceCorpusRelation(group, child, corpus, CorpusFaultAt(2))
       <==> Get(corpus, AllowedUse) == Str("EXPERIMENT_ONLY")
  {
    hide Get;
  }

  lemma CorpusStateMeans(group: Row, child: Row, corpus: Row)
    ensures SourceCorpusRelation(group, child, corpus, CorpusFaultAt(3))
       <==> Get(corpus, SourceVerificationStatus) == Str("TEXT_AND_VISUAL_VERIFIED")
    ensures SourceCorpusRelation(group, child, corpus, CorpusFaultAt(4))
       <==> Get(corpus, EvidenceUnitIds).Arr? && Get(group, EvidenceGroupId) in Get(corpus, EvidenceUnitIds).items
  {
    hide Get;
  }

  lemma CorpusLineageMeans(group: Row, child: Row, corpus: Row)
    requires StrictPages(Get(child, PageRefs))
    ensures SourceCorpusRelation(group, child, corpus, CorpusFaultAt(5))
       <==> Get(corpus, ExactSalesCode) == Get(child, ExactSalesCode)
    ensures SourceCorpusRelation(group, child, corpus, CorpusFaultAt(6))
       <==> Get(corpus, DocumentId) == Get(child, DocumentId)
    ensures SourceCorpusRelation(group, child, corpus, CorpusFaultAt(7))
       <==> PageKeys(Get(corpus, PageRefs)) == PageKeys(Get(child, PageRefs))
  {
    hide Get, PageKeys, ExactlyPages, StrictPages;
    PageKeysEqual(Get(corpus, PageRefs), Get(child, PageRefs));
  }

  lemma CorpusTextMeans(group: Row, child: Row, corpus: Row)
    ensures SourceCorpusRelation(group, child, corpus, CorpusFaultAt(8))
       <==> Get(corpus, SourceVariantId) == Get(child, SourceVariantId)
    ensures SourceCorpusRelation(group, child, corpus, CorpusFaultAt(9))
       <==> Get(corpus, SourceFileSha256) == Get(child, SourceFileSha256)
    ensures SourceCorpusRelation(group, child, corpus, CorpusFaultAt(10))
       <==> Get(corpus, TextSha256) == Get(child, ChildTextSha256)
  {
    hide Get;
  }

  lemma CorpusFaultsInOrder()
    ensures CorpusFaultAt(0) == CONDITION_CORPUS_RECORD_TYPE_INVALID && CorpusFaultAt(1) == CONDITION_CORPUS_RETRIEVAL_ROLE_INVALID
    ensures CorpusFaultAt(2) == CONDITION_CORPUS_ALLOWED_USE_INVALID && CorpusFaultAt(3) == CONDITION_CORPUS_VERIFICATION_INVALID
    ensures CorpusFaultAt(4) == CONDITION_CORPUS_GROUP_LINK_MISSING && CorpusFaultAt(5) == CONDITION_CORPUS_PRODUCT_LINEAGE_MISMATCH
    ensures CorpusFaultAt(6) == CONDITION_CORPUS_DOCUMENT_LINEAGE_MISMATCH && CorpusFaultAt(7) == CONDITION_CORPUS_PAGE_LINEAGE_MISMATCH
    ensures CorpusFaultAt(8) == CONDITION_CORPUS_VARIANT_LINEAGE_MISMATCH && CorpusFaultAt(9) == CONDITION_CORPUS_SOURCE_HASH_MISMATCH
    ensures CorpusFaultAt(10) == CONDITION_CORPUS_TEXT_HASH_MISMATCH
  {
  }

  /** The last six checks. */
  lemma CorpusSearchEnds(group: Row, child: Row, corpus: Row, holds: Fault -> bool)
    requires StrictPages(Get(child, PageRefs))
    requires forall fault :: holds(fault) == SourceCorpusRelation(group, child, corpus, fault)
    ensures SearchFrom(5, 11, CorpusFaultAt, holds) ==
      When(Get(corpus, ExactSalesCode) != Get(child, ExactSalesCode), CONDITION_CORPUS_PRODUCT_LINEAGE_MISMATCH,
      When(Get(corpus, DocumentId) != Get(child, DocumentId), CONDITION_CORPUS_DOCUMENT_LINEAGE_MISMATCH,
      When(PageKeys(Get(corpus, PageRefs)) != PageKeys(Get(child, PageRefs)), CONDITION_CORPUS_PAGE_LINEAGE_MISMATCH,
      When(Get(corpus, SourceVariantId) != Get(child, SourceVariantId), CONDITION_CORPUS_VARIANT_LINEAGE_MISMATCH,
      When(Get(corpus, SourceFileSha256) != Get(child, SourceFileSha256), CONDITION_CORPUS_SOURCE_HASH_MISMATCH,
      When(Get(corpus, TextSha256) != Get(child, ChildTextSha256), CONDITION_CORPUS_TEXT_HASH_MISMATCH,
      None))))))
  {
    hide PageKeys, Get, SourceCorpusRelation, CorpusFaultAt, SearchFrom, StrictPages;
    CorpusLineageMeans(group, child, corpus);
    CorpusTextMeans(group, child, corpus);
    CorpusFaultsInOrder();
    SearchStep(5, 11, CorpusFaultAt, holds);
    SearchStep(6, 11, CorpusFaultAt, holds);
    SearchStep(7, 11, CorpusFaultAt, holds);
    SearchStep(8, 11, CorpusFaultAt, holds);
    SearchStep(9, 11, CorpusFaultAt, holds);
    SearchStep(10, 11, CorpusFaultAt, holds);
    SearchEnd(11, CorpusFaultAt, holds);
  }

  lemma CorpusSearch(group: Row, child: Row, corpus: Row, holds: Fault -> bool)
    requires StrictPages(Get(child, PageRefs))
    requires forall fault :: holds(fault) == SourceCorpusRelation(group, child, corpus, fault)
    ensures CorpusRowFault(group, child, corpus) == SearchFrom(0, 11, CorpusFaultAt, holds)
  {
    hide PageKeys, Get, SourceCorpusRelation, CorpusFaultAt, SearchFrom, StrictPages;
    CorpusRoleMeans(group, child, corpus);
    CorpusStateMeans(group, child, corpus);
    CorpusFaultsInOrder();
    CorpusSearchEnds(group, child, corpus, holds);
    SearchStep(0, 11, CorpusFaultAt, holds);
    SearchStep(1, 11, CorpusFaultAt, holds);
    SearchStep(2, 11, CorpusFaultAt, holds);
    SearchStep(3, 11, CorpusFaultAt, holds);
    SearchStep(4, 11, CorpusFaultAt, holds);
  }

  /** A corpus row reports the first relation that fails, for a child whose pages were accepted. */
  lemma CorpusRowFaultIsFirst(group: Row, child: Row, corpus: Row)
    requires StrictPages(Get(child, PageRefs))
    ensures IsFirstFault(CorpusRowFault(group, child, corpus), 11, CorpusFaultAt,
                         fault => SourceCorpusRelation(group, child, corpus, fault))
  {
    var holds := fault => SourceCorpusRelation(group, child, corpus, fault);
    SearchFindsFirst(0, 11, CorpusFaultAt, holds);
    CorpusSearch(group, child, corpus, holds);
    hide CorpusRowFault, SearchFrom, IsFirstFault;
  }

  // ---------------------------------------------------------------- the head of a lineage

  /** What a condition owes its group before its children are looked up. */
  ghost predicate HeadRelation(group: Row, condition: Row, fault: Fault) {
    match fault
    case CONDITION_CHILD_IDS_INVALID => DistinctTexts(Get(condition, SourceChildIds)) && Get(condition, SourceChildIds).items != []
    case CONDITION_PAGE_REFS_INVALID => StrictPages(Get(condition, SourcePageRefs))
    case CONDITION_GROUP_CHILD_LINEAGE_MISMATCH => forall c :: Has(condition, SourceChildIds, c) ==> Has(group, ChildIds, c)
    case CONDITION_GROUP_PAGE_LINEAGE_MISMATCH => PagesAmong(Get(condition, SourcePageRefs), Get(group, PageRefs))
    case CONDITION_SOURCE_HASH_INVALID => UpperHash(Get(condition, SourceConditionSha256))
    case _ => true
  }

  /** The head checks, in order. */
  ghost function HeadFaultAt(k: nat): Fault {
    match k
    case 0 => CONDITION_CHILD_IDS_INVALID
    case 1 => CONDITION_PAGE_REFS_INVALID
    case 2 => CONDITION_GROUP_CHILD_LINEAGE_MISMATCH
    case 3 => CONDITION_GROUP_PAGE_LINEAGE_MISMATCH
    case _ => CONDITION_SOURCE_HASH_INVALID
  }

  lemma MembersWithin(sources: Row, children: Row)
    ensures TextMembers(Get(sources, SourceChildIds)) <= TextMembers(Get(children, ChildIds))
       <==> forall c :: Has(sources, SourceChildIds, c) ==> Has(children, ChildIds, c)
  {
    hide TextMembers;
    forall c
      ensures c in TextMembers(Get(sources, SourceChildIds)) <==> Has(sources, SourceChildIds, c)
      ensures c in TextMembers(Get(children, ChildIds)) <==> Has(children, ChildIds, c)
    {
      MembersMean(Get(sources, SourceChildIds), c);
      MembersMean(Get(children, ChildIds), c);
    }
  }

  lemma HeadChildrenMean(group: Row, condition: Row)
    ensures HeadRelation(group, condition, HeadFaultAt(0)) <==> IsDistinctTextList(Get(condition, SourceChildIds))
    ensures HeadRelation(group, condition, HeadFaultAt(2))
       <==> TextMembers(Get(condition, SourceChildIds)) <= TextMembers(Get(group, ChildIds))
  {
    hide Get, Has, DistinctTexts, IsDistinctTextList, TextMembers;
    StrictTextsMean(Get(condition, SourceChildIds));
    MembersWithin(condition, group);
  }

  lemma HeadPagesMean(group: Row, condition: Row)
    ensures HeadRelation(group, condition, HeadFaultAt(1)) <==> IsStrictPageList(Get(condition, SourcePageRefs))
    ensures IsStrictPageList(Get(condition, SourcePageRefs)) ==>
              (HeadRelation(group, condition, HeadFaultAt(3))
               <==> PageKeys(Get(condition, SourcePageRefs)) <= PageKeys(Get(group, PageRefs)))
    ensures HeadRelation(group, condition, HeadFaultAt(4)) <==> IsUpperSha256(Get(condition, SourceConditionSha256))
  {
    hide Get, StrictPages, IsStrictPageList, PagesAmong, PageKeys, UpperHash, IsUpperSha256;
    StrictPagesMean(Get(condition, SourcePageRefs));
    UpperHashMeans(Get(condition, SourceConditionSha256));
    if StrictPages(Get(condition, SourcePageRefs)) {
      PageKeyInclusion(Get(condition, SourcePageRefs), Get(group, PageRefs));
    }
  }

  lemma HeadFaultsInOrder()
    ensures HeadFaultAt(0) == CONDITION_CHILD_IDS_INVALID && HeadFaultAt(1) == CONDITION_PAGE_REFS_INVALID
    ensures HeadFaultAt(2) == CONDITION_GROUP_CHILD_LINEAGE_MISMATCH && HeadFaultAt(3) == CONDITION_GROUP_PAGE_LINEAGE_MISMATCH
    ensures HeadFaultAt(4) == CONDITION_SOURCE_HASH_INVALID
  {
  }

  lemma HeadSearch(group: Row, condition: Row, holds: Fault -> bool)
    requires forall fault :: holds(fault) == HeadRelation(group, condition, fault)
    ensures LineageHeadFault(group, condition) == SearchFrom(0, 5, HeadFaultAt, holds)
  {
    hide Get, IsDistinctTextList, IsStrictPageList, PageKeys, TextMembers, IsUpperSha256, HeadRelation, HeadFaultAt,
         SearchFrom;
    HeadChildrenMean(group, condition);
    HeadPagesMean(group, condition);
    HeadFaultsInOrder();
    SearchStep(0, 5, HeadFaultAt, holds);
    SearchStep(1, 5, HeadFaultAt, holds);
    SearchStep(2, 5, HeadFaultAt, holds);
    SearchStep(3, 5, HeadFaultAt, holds);
    SearchStep(4, 5, HeadFaultAt, holds);
    SearchEnd(5, HeadFaultAt, holds);
  }

  /** The head of a lineage reports the first relation that fails. */
  lemma HeadFaultIsFirst(group: Row, condition: Row)
    ensures IsFirstFault(LineageHeadFault(group, condition), 5, HeadFaultAt, fault => HeadRelation(group, condition, fault))
  {
    var holds := fault => HeadRelation(group, condition, fault);
    SearchFindsFirst(0, 5, HeadFaultAt, holds);
    HeadSearch(group, condition, holds);
    hide LineageHeadFault, SearchFrom, IsFirstFault;
  }

  // ---------------------------------------------------------------- a contract condition

  /** `COND-`, a nonempty body of capitals, digits and hyphens, a hyphen and three digits. */
  ghost predicate IsConditionName(s: string) {
    exists body, digits ::
      && s == "COND-" + body + "-" + digits
      && body != "" && (forall c :: c in body ==> c in "ABCDEFGHIJKLMNOPQRSTUVWXYZ0123456789-")
      && |digits| == 3 && forall c :: c in digits ==> c in "0123456789"
  }

  lemma NameLetterMeans(c: char)
    ensures 'A' <= c <= 'Z' || IsDigit(c) || c == '-' <==> c in "ABCDEFGHIJKLMNOPQRSTUVWXYZ0123456789-"
    ensures IsDigit(c) <==> c in "0123456789"
  {
  }

  ghost predicate HasNameParts(s: string, body: string, digits: string) {
    && s == "COND-" + body + "-" + digits
    && body != "" && (forall c :: c in body ==> 'A' <= c <= 'Z' || IsDigit(c) || c == '-')
    && |digits| == 3 && forall c :: c in digits ==> IsDigit(c)
  }

  lemma NameHasParts(s: string)
    requires IsConditionId(s)
    ensures HasNameParts(s, s[5..|s| - 4], s[|s| - 3..])
  {
    hide IsDigit;
    var n := |s|;
    var body, digits := s[5..n - 4], s[n - 3..];
    assert s == s[..5] + (body + ([s[n - 4]] + digits));
    assert s == "COND-" + body + "-" + digits;
    forall c | c in body
      ensures 'A' <= c <= 'Z' || IsDigit(c) || c == '-'
    {
      var i :| 0 <= i < |body| && body[i] == c;
      assert s[5 + i] == c;
    }
    assert digits == [s[n - 3], s[n - 2], s[n - 1]];
  }

  lemma PartsMakeName(s: string, body: string, digits: string)
    requires HasNameParts(s, body, digits)
    ensures IsConditionId(s)
  {
    hide IsDigit;
    var n := |s|;
    assert n == |body| + 9;
    assert s[..5] == "COND-";
    forall i | 5 <= i < n - 4
      ensures 'A' <= s[i] <= 'Z' || IsDigit(s[i]) || s[i] == '-'
    {
      assert s[i] == body[i - 5];
    }
    assert s[n - 3] == digits[0] && s[n - 2] == digits[1] && s[n - 1] == digits[2];
  }

  lemma ConditionNameMeans(s: string)
    ensures IsConditionId(s) <==> IsConditionName(s)
  {
    hide IsDigit, IsConditionId;
    forall c
      ensures 'A' <= c <= 'Z' || IsDigit(c) || c == '-' <==> c in "ABCDEFGHIJKLMNOPQRSTUVWXYZ0123456789-"
      ensures IsDigit(c) <==> c in "0123456789"
    {
      NameLetterMeans(c);
    }
    if IsConditionId(s) {
      NameHasParts(s);
    }
    if IsConditionName(s) {
      var body, digits :|
        && s == "COND-" + body + "-" + digits
        && body != "" && (forall c :: c in body ==> c in "ABCDEFGHIJKLMNOPQRSTUVWXYZ0123456789-")
        && |digits| == 3 && forall c :: c in digits ==> c in "0123456789";
      PartsMakeName(s, body, digits);
    }
  }

  /** What a contract condition owes the contract so far and the registry, before its lineage is looked at. */
  ghost predicate ConditionRelation(context: Context, ledger: Ledger, condition: Row, fault: Fault) {
    match fault
    case CONDITION_KEYS_INVALID =>
      condition.Keys == {ConditionId, ConditionSemanticsCode, EvidenceGroupId, TriggerType, SourceChildIds, SourcePageRefs,
                         SourceConditionSha256, GoldPendingBasisCode, GoldMetBasisCode, ReviewStatus}
    case CONDITION_ID_INVALID =>
      exists id :: Get(condition, ConditionId) == Str(id) && IsConditionName(id) && id !in ledger.ids && id !in context.existing
    case CONDITION_SEMANTICS_CODE_INVALID =>
      Get(condition, ConditionSemanticsCode).Str? && Get(condition, ConditionSemanticsCode) != Str("")
    case CONDITION_GROUP_NOT_FOUND => exists g :: Get(condition, EvidenceGroupId) == Str(g) && g in context.groups
    case CONDITION_SEMANTICS_DUPLICATE =>
      forall g, code :: Get(condition, EvidenceGroupId) == Str(g) && Get(condition, ConditionSemanticsCode) == Str(code) ==>
        (g, code) !in ledger.semantics
    case CONDITION_TRIGGER_INVALID => Get(condition, TriggerType) in {Str("PERSISTENCE"), Str("RECURRENCE"), Str("AFTER_CHECK")}
    case CONDITION_PENDING_BASIS_INVALID => Get(condition, GoldPendingBasisCode) == Str("SOURCE_CONDITION_PENDING")
    case CONDITION_MET_BASIS_INVALID => Get(condition, GoldMetBasisCode) == Str("SOURCE_CONDITION_MET")
    case CONDITION_REVIEW_STATUS_INVALID => Get(condition, ReviewStatus) == Str("AI_PROPOSED_PENDING_HUMAN_SIGNOFF")
    case _ => true
  }

  /** The checks of a contract condition, in order. */
  ghost function ConditionFaultAt(k: nat): Fault {
    match k
    case 0 => CONDITION_KEYS_INVALID
    case 1 => CONDITION_ID_INVALID
    case 2 => CONDITION_SEMANTICS_CODE_INVALID
    case 3 => CONDITION_GROUP_NOT_FOUND
    case 4 => CONDITION_SEMANTICS_DUPLICATE
    case 5 => CONDITION_TRIGGER_INVALID
    case 6 => CONDITION_PENDING_BASIS_INVALID
    case 7 => CONDITION_MET_BASIS_INVALID
    case _ => CONDITION_REVIEW_STATUS_INVALID
  }

  ghost predicate HasContractKeys(condition: Row) {
    condition.Keys == CONDITION_KEYS
  }

  ghost predicate HasNewId(context: Context, ledger: Ledger, condition: Row) {
    var id := Get(condition, ConditionId);
    id.Str? && IsConditionId(id.s) && id.s !in ledger.ids && id.s !in context.existing
  }

  lemma ConditionNamesMean(context: Context, ledger: Ledger, condition: Row)
    ensures ConditionRelation(context, ledger, condition, ConditionFaultAt(0)) <==> HasContractKeys(condition)
    ensures ConditionRelation(context, ledger, condition, ConditionFaultAt(1)) <==> HasNewId(context, ledger, condition)
    ensures ConditionRelation(context, ledger, condition, ConditionFaultAt(2))
       <==> IsText(Get(condition, ConditionSemanticsCode))
  {
    hide Get, IsConditionId, IsConditionName;
    var id := Get(condition, ConditionId);
    if id.Str? {
      ConditionNameMeans(id.s);
    }
  }

  lemma ConditionGroupMeans(context: Context, ledger: Ledger, condition: Row)
    ensures ConditionRelation(context, ledger, condition, ConditionFaultAt(3))
       <==> Member(Get(condition, EvidenceGroupId), context.groups.Keys)
    ensures ConditionRelation(context, ledger, condition, ConditionFaultAt(4)) <==>
            var group, semantics := Get(condition, EvidenceGroupId), Get(condition, ConditionSemanticsCode);
            !(group.Str? && semantics.Str? && (group.s, semantics.s) in ledger.semantics)
  {
    hide Get;
  }

  lemma TriggerMeans(trigger: Json)
    ensures Member(trigger, {"PERSISTENCE", "RECURRENCE", "AFTER_CHECK"})
       <==> trigger in {Str("PERSISTENCE"), Str("RECURRENCE"), Str("AFTER_CHECK")}
  {
  }

  lemma ConditionStateMeans(context: Context, ledger: Ledger, condition: Row)
    ensures ConditionRelation(context, ledger, condition, ConditionFaultAt(5))
       <==> Member(Get(condition, TriggerType), {"PERSISTENCE", "RECURRENCE", "AFTER_CHECK"})
    ensures ConditionRelation(context, ledger, condition, ConditionFaultAt(6))
       <==> Get(condition, GoldPendingBasisCode) == Str("SOURCE_CONDITION_PENDING")
  {
    hide Get, Member;
    TriggerMeans(Get(condition, TriggerType));
  }

  lemma ConditionReviewMeans(context: Context, ledger: Ledger, condition: Row)
    ensures ConditionRelation(context, ledger, condition, ConditionFaultAt(7))
       <==> Get(condition, GoldMetBasisCode) == Str("SOURCE_CONDITION_MET")
    ensures ConditionRelation(context, ledger, condition, ConditionFaultAt(8))
       <==> Get(condition, ReviewStatus) == Str("AI_PROPOSED_PENDING_HUMAN_SIGNOFF")
  {
    hide Get;
  }

  lemma ConditionFaultsInOrder()
    ensures ConditionFaultAt(0) == CONDITION_KEYS_INVALID && ConditionFaultAt(1) == CONDITION_ID_INVALID
    ensures ConditionFaultAt(2) == CONDITION_SEMANTICS_CODE_INVALID && ConditionFaultAt(3) == CONDITION_GROUP_NOT_FOUND
    ensures ConditionFaultAt(4) == CONDITION_SEMANTICS_DUPLICATE && ConditionFaultAt(5) == CONDITION_TRIGGER_INVALID
    ensures ConditionFaultAt(6) == CONDITION_PENDING_BASIS_INVALID && ConditionFaultAt(7) == CONDITION_MET_BASIS_INVALID
    ensures ConditionFaultAt(8) == CONDITION_REVIEW_STATUS_INVALID
  {
  }

  /** The condition's own faults, and the lineage of a condition that has none. */
  ghost function OwnOr(own: Option<Fault>, otherwise: Option<Fault>): Option<Fault> {
    if own.Some? then own else otherwise
  }

  ghost function LineageOf(context: Context, condition: Row): Option<Fault> {
    if Member(Get(condition, EvidenceGroupId), context.groups.Keys)
    then LineageFault(context, context.groups[Get(condition, EvidenceGroupId).s], condition) else None
  }

  /** The checks after the condition's keys and id. */
  ghost function LaterFault(context: Context, ledger: Ledger, condition: Row): Option<Fault> {
    var semantics, group := Get(condition, ConditionSemanticsCode), Get(condition, EvidenceGroupId);
    When(!IsText(semantics), CONDITION_SEMANTICS_CODE_INVALID,
    When(!Member(group, context.groups.Keys), CONDITION_GROUP_NOT_FOUND,
    When(group.Str? && semantics.Str? && (group.s, semantics.s) in ledger.semantics, CONDITION_SEMANTICS_DUPLICATE,
    LastFault(context, condition))))
  }

  ghost function LastFault(context: Context, condition: Row): Option<Fault> {
    When(!Member(Get(condition, TriggerType), {"PERSISTENCE", "RECURRENCE", "AFTER_CHECK"}), CONDITION_TRIGGER_INVALID,
    When(Get(condition, GoldPendingBasisCode) != Str("SOURCE_CONDITION_PENDING"), CONDITION_PENDING_BASIS_INVALID,
    When(Get(condition, GoldMetBasisCode) != Str("SOURCE_CONDITION_MET"), CONDITION_MET_BASIS_INVALID,
    When(Get(condition, ReviewStatus) != Str("AI_PROPOSED_PENDING_HUMAN_SIGNOFF"), CONDITION_REVIEW_STATUS_INVALID,
    LineageOf(context, condition)))))
  }

  lemma ConditionFaultParts(context: Context, ledger: Ledger, condition: Row)
    ensures ConditionFault(context, ledger, Obj(condition)) ==
      When(!HasContractKeys(condition), CONDITION_KEYS_INVALID,
      When(!HasNewId(context, ledger, condition), CONDITION_ID_INVALID,
      LaterFault(context, ledger, condition)))
  {
    hide Get, IsConditionId, LineageFault, IsText, When;
  }

  lemma LastSearch(context: Context, ledger: Ledger, condition: Row, holds: Fault -> bool)
    requires forall fault :: holds(fault) == ConditionRelation(context, ledger, condition, fault)
    ensures OwnOr(SearchFrom(5, 9, ConditionFaultAt, holds), LineageOf(context, condition)) == LastFault(context, condition)
  {
    hide Member, Get, ConditionRelation, ConditionFaultAt, SearchFrom, LineageOf;
    ConditionStateMeans(context, ledger, condition);
    ConditionReviewMeans(context, ledger, condition);
    ConditionFaultsInOrder();
    SearchStep(5, 9, ConditionFaultAt, holds);
    SearchStep(6, 9, ConditionFaultAt, holds);
    SearchStep(7, 9, ConditionFaultAt, holds);
    SearchStep(8, 9, ConditionFaultAt, holds);
    SearchEnd(9, ConditionFaultAt, holds);
  }

  lemma LaterSearch(context: Context, ledger: Ledger, condition: Row, holds: Fault -> bool)
    requires forall fault :: holds(fault) == ConditionRelation(context, ledger, condition, fault)
    ensures OwnOr(SearchFrom(2, 9, ConditionFaultAt, holds), LineageOf(context, condition)) == LaterFault(context, ledger, condition)
  {
    hide Get, Member, ConditionRelation, ConditionFaultAt, SearchFrom, LineageOf, IsText, LastFault;
    ConditionNamesMean(context, ledger, condition);
    ConditionGroupMeans(context, ledger, condition);
    LastSearch(context, ledger, condition, holds);
    ConditionFaultsInOrder();
    SearchStep(2, 9, ConditionFaultAt, holds);
    SearchStep(3, 9, ConditionFaultAt, holds);
    SearchStep(4, 9, ConditionFaultAt, holds);
  }

  lemma ConditionSearch(context: Context, ledger: Ledger, condition: Row, holds: Fault -> bool)
    requires forall fault :: holds(fault) == ConditionRelation(context, ledger, condition, fault)
    ensures ConditionFault(context, ledger, Obj(condition))
         == OwnOr(SearchFrom(0, 9, ConditionFaultAt, holds), LineageOf(context, condition))
  {
    hide HasNewId, HasContractKeys, ConditionRelation, ConditionFaultAt, SearchFrom, LineageOf, LaterFault,
         ConditionFault;
    ConditionNamesMean(context, ledger, condition);
    ConditionFaultParts(context, ledger, condition);
    LaterSearch(context, ledger, condition, holds);
    ConditionFaultsInOrder();
    SearchStep(0, 9, ConditionFaultAt, holds);
    SearchStep(1, 9, ConditionFaultAt, holds);
  }

  /** A contract condition reports the first of its own relations that fails; its lineage is looked at when none does. */
  lemma ConditionFaultIsFirst(context: Context, ledger: Ledger, condition: Row)
    ensures exists own ::
              && IsFirstFault(own, 9, ConditionFaultAt, fault => ConditionRelation(context, ledger, condition, fault))
              && ConditionFault(context, ledger, Obj(condition)) == OwnOr(own, LineageOf(context, condition))
  {
    var holds := fault => ConditionRelation(context, ledger, condition, fault);
    SearchFindsFirst(0, 9, ConditionFaultAt, holds);
    ConditionSearch(context, ledger, condition, holds);
    hide ConditionFault, SearchFrom, IsFirstFault, OwnOr;
    assert IsFirstFault(SearchFrom(0, 9, ConditionFaultAt, holds), 9, ConditionFaultAt, holds);
  }
}
