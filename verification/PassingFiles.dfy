/** Concrete file sets: which passing reports exist, and what passing does not promise. */
module PassingFiles {
  import opened Collections
  import opened Json
  import opened Sorting
  import opened Compatibility
  import opened CompatibilityTheorems
  import opened Reachability
  import S = Scoring

  // ---------------------------------------------------------------- one case, no registry

  /** An active EVIDENCE case about group `g` and its product. */
  function CaseAbout(g: string, product: string): JsonlRow {
    JsonlRow(1, map[
      CaseId := Str("CASE"), EvaluationStatus := Str("ACTIVE"), ProductModelCode := Str(product),
      ExpectedRetrievalOutcome := Str("EVIDENCE"), ExpectedExecutionPath := Str("PGVECTOR_QUERY"),
      EvidenceMatchPolicy := Str("ANY"), RequiredEvidenceGroupIds := Arr([Str(g)]),
      SupportingEvidenceGroupIds := Arr([]), ForbiddenDocumentIds := Arr([]), ForbiddenModelCodes := Arr([])])
  }

  /** One case and no registry, children or corpus. */
  function Dangling(row: JsonlRow): Inputs {
    Inputs([], Some(_ => true), [row], [], [], [])
  }

  /** PASS alone does not resolve group references: an unregistered group raises no diagnostic. */
  lemma PassWithUnregisteredGroup(g: string, product: string)
    requires g != "" && product != ""
    ensures var row, inputs := CaseAbout(g, product), Dangling(CaseAbout(g, product));
            ReportOf(inputs).passed && EvidenceCase(inputs, row) && ForbiddenListsClean(row)
            && !GroupsRegistered(inputs, row)
  {
    hide ReportOf, IndexRows, ScanGold, CaseErrors, RequiredOf, ForbiddenListsClean, CaseAbout, IsActive, HasOutcome;
    var row := CaseAbout(g, product);
    var inputs := Dangling(row);
    CaseAboutFields(g, product);
    CaseAboutIsClean(g, product);
    DanglingPasses(row);
    assert inputs.gold[0] == row;
    IndexMeaning(GROUP_RULE, inputs.groups);
    assert g !in TablesOf(inputs).groups;
    assert RequiredOf(row)[0] == g;
  }

  lemma CaseAboutFields(g: string, product: string)
    requires g != "" && product != ""
    ensures var row := CaseAbout(g, product);
            && IsActive(row) && HasOutcome(row, "EVIDENCE")
            && ProductOf(row) == product && RequiredOf(row) == [g] && SupportingOf(row) == [] && ConditionsOf(row) == []
            && ForbiddenListsClean(row)
            && IsText(Get(row.value, CaseId)) && IsText(Get(row.value, ProductModelCode))
            && IsTextList(Get(row.value, RequiredEvidenceGroupIds))
            && IsTextList(Get(row.value, SupportingEvidenceGroupIds))
            && ConsultationConditionIds !in row.value
  {
    var row := CaseAbout(g, product);
    assert Get(row.value, RequiredEvidenceGroupIds).items[0] == Str(g);
    assert Texts(Get(row.value, RequiredEvidenceGroupIds)) == [g];
  }

  lemma CaseAboutIsClean(g: string, product: string)
    requires g != "" && product != ""
    ensures CaseErrors(CaseAbout(g, product)) == []
  {
    var row := CaseAbout(g, product);
    CaseAboutFields(g, product);
    ActiveIsNotSkipped(row);
    CaseAboutPolicy(g, product);
    hide CaseAbout, IsActive, IsSkipped, HasOutcome;
    assert CaseListErrors(row) == [];
    assert EvidenceErrors(row) == [];
  }

  lemma CaseAboutPolicy(g: string, product: string)
    ensures Get(CaseAbout(g, product).value, ExpectedExecutionPath) == Str("PGVECTOR_QUERY")
    ensures Member(Get(CaseAbout(g, product).value, EvidenceMatchPolicy), {"ANY", "ALL"})
  {
  }

  lemma DanglingTables(row: JsonlRow)
    requires ConditionsOf(row) == []
    ensures var t := TablesOf(Dangling(row));
            t.groups == map[] && t.children == map[] && t.corpus == map[] && t.gold.conditions == []
  {
    hide ConditionsOf;
    var inputs := Dangling(row);
    assert inputs.gold[..0] == [];
    assert ScanGold(inputs.gold) == ScanCase(ScanGold([]), row);
    assert ConditionReferences(row) == [];
  }

  lemma DanglingIndexes(row: JsonlRow)
    requires IsText(Get(row.value, CaseId))
    ensures IndexErrors(Dangling(row)) == []
  {
    IndexMeaning(GOLD_RULE, Dangling(row).gold);
    IndexMeaning(GROUP_RULE, []);
    IndexMeaning(CHILD_RULE, []);
    IndexMeaning(CHUNK_RULE, []);
    IndexMeaning(RECORD_RULE, []);
    hide IndexRows;
  }

  lemma NothingMissing(t: Tables, candidates: set<string>, code: Code, references: References)
    requires t.groups == map[]
    ensures FlatMap((g: string) => MissingCandidate(t, candidates, code, g), SortedKeys(references.Keys)) == []
  {
    hide SortedKeys;
    FlatMapEmptyIff((g: string) => MissingCandidate(t, candidates, code, g), SortedKeys(references.Keys));
  }

  lemma DanglingPasses(row: JsonlRow)
    requires IsText(Get(row.value, CaseId)) && ConditionsOf(row) == [] && CaseErrors(row) == []
    ensures ReportOf(Dangling(row)).passed
  {
    hide IndexErrors, IsText, ConditionsOf, CaseErrors, IndexRows, ScanGold;
    var inputs := Dangling(row);
    var t := TablesOf(inputs);
    DanglingIndexes(row);
    DanglingTables(row);
    FlatMapEmptyIff(CaseErrors, inputs.gold);
    DanglingLineage(inputs);
    hide TablesOf, LinkScanOf, GroupScanOf, LineageErrors, SortedKeys;
    NothingMissing(t, LinkScanOf(inputs).candidates, REQUIRED_GROUP_SEARCH_CANDIDATE_MISSING, t.gold.required);
    NothingMissing(t, LinkScanOf(inputs).candidates, SUPPORTING_GROUP_SEARCH_CANDIDATE_MISSING, t.gold.supporting);
    hide FlatMap;
    assert ReferencedErrors(inputs, t.gold.required, REQUIRED_GROUP_SEARCH_CANDIDATE_MISSING) == [];
    assert ReferencedErrors(inputs, t.gold.supporting, SUPPORTING_GROUP_SEARCH_CANDIDATE_MISSING) == [];
  }

  lemma DanglingLineage(inputs: Inputs)
    requires inputs.children == [] && inputs.corpus == []
    requires TablesOf(inputs).groups == map[] && TablesOf(inputs).gold.conditions == []
    ensures LineageErrors(inputs) == [] && GroupScanOf(inputs).errors == []
  {
    hide TablesOf;
    assert SortedKeys(TablesOf(inputs).groups.Keys) == [];
  }

  // ---------------------------------------------------------------- one group, one child, one corpus row

  /** The names a one-child registry is built from. */
  datatype Names = Names(group: string, child: string, product: string, document: string, variant: string, hash: string)
  {
    predicate Valid() {
      group != "" && child != "" && product != "" && variant != "" && IsSha256(Str(hash))
    }
  }

  const FIRST_PAGE := Arr([Int(1)])

  function GroupRow(n: Names): JsonlRow {
    JsonlRow(1, map[
      EvidenceGroupId := Str(n.group), ExactSalesCode := Str(n.product), DocumentId := Str(n.document),
      PageRefs := FIRST_PAGE, ChildIds := Arr([Str(n.child)]), SourceVariantIds := Arr([Str(n.variant)])])
  }

  function ChildRow(n: Names): JsonlRow {
    JsonlRow(1, map[
      ChildId := Str(n.child), EvidenceGroupId := Str(n.group), ExactSalesCode := Str(n.product),
      DocumentId := Str(n.document), PageRefs := FIRST_PAGE, RecordType := Str("CHILD"),
      RetrievalRole := Str("SEARCH_CANDIDATE"), AllowedUse := Str(CORPUS_USE), VerificationStatus := Str(VERIFIED),
      SourceVariantId := Str(n.variant), SourceFileSha256 := Str(n.hash), ChildTextSha256 := Str(n.hash)])
  }

  function CorpusRow(n: Names): JsonlRow {
    JsonlRow(1, map[
      ChunkId := Str(n.child), SourceRecordId := Str(n.child), EvidenceGroupId := Str(n.group),
      ExactSalesCode := Str(n.product), DocumentId := Str(n.document), PageRefs := FIRST_PAGE,
      RecordType := Str("CHILD"), RetrievalRole := Str("SEARCH_CANDIDATE"), AllowedUse := Str(CORPUS_USE),
      SourceVerificationStatus := Str(VERIFIED), SourceVariantId := Str(n.variant), SourceFileSha256 := Str(n.hash),
      TextSha256 := Str(n.hash)])
  }

  /** One case over a registry of one group with one child and its corpus row. */
  function Registered(row: JsonlRow, n: Names): Inputs {
    Inputs([], Some(_ => true), [row], [GroupRow(n)], [ChildRow(n)], [CorpusRow(n)])
  }

  lemma GroupFields(n: Names)
    ensures var group := GroupRow(n).value;
            && Get(group, EvidenceGroupId) == Str(n.group) && Get(group, ExactSalesCode) == Str(n.product)
            && Get(group, DocumentId) == Str(n.document) && Get(group, PageRefs) == FIRST_PAGE
            && Get(group, ChildIds) == Arr([Str(n.child)]) && Get(group, SourceVariantIds) == Arr([Str(n.variant)])
            && ConsultationConditions !in group
  {
  }

  lemma ChildFields(n: Names)
    ensures var child := ChildRow(n).value;
            && Get(child, ChildId) == Str(n.child) && Get(child, EvidenceGroupId) == Str(n.group)
            && Get(child, SourceVariantId) == Str(n.variant)
  {
  }

  lemma CorpusFields(n: Names)
    ensures var corpus := CorpusRow(n).value;
            && Get(corpus, ChunkId) == Str(n.child) && Get(corpus, SourceRecordId) == Str(n.child)
            && Get(corpus, EvidenceGroupId) == Str(n.group)
            && Get(corpus, EvidenceGroupIds) == Null && Get(corpus, EvidenceUnitIds) == Null
  {
  }

  lemma ChildOtherFields(n: Names)
    ensures var child := ChildRow(n).value;
            && Get(child, ExactSalesCode) == Str(n.product) && Get(child, DocumentId) == Str(n.document)
            && Get(child, PageRefs) == FIRST_PAGE
            && Get(child, RecordType) == Str("CHILD") && Get(child, RetrievalRole) == Str("SEARCH_CANDIDATE")
            && Get(child, AllowedUse) == Str(CORPUS_USE) && Get(child, VerificationStatus) == Str(VERIFIED)
            && Get(child, SourceFileSha256) == Str(n.hash) && Get(child, ChildTextSha256) == Str(n.hash)
  {
  }

  lemma CorpusOtherFields(n: Names)
    ensures var corpus, child := CorpusRow(n).value, ChildRow(n).value;
            && Get(corpus, ExactSalesCode) == Str(n.product) && Get(corpus, DocumentId) == Str(n.document)
            && Get(corpus, PageRefs) == FIRST_PAGE && Get(corpus, SourceVariantId) == Str(n.variant)
            && Get(corpus, RecordType) == Str("CHILD") && Get(corpus, RetrievalRole) == Str("SEARCH_CANDIDATE")
            && Get(corpus, AllowedUse) == Str(CORPUS_USE) && Get(corpus, SourceVerificationStatus) == Str(VERIFIED)
            && Get(corpus, SourceFileSha256) == Str(n.hash) && Get(corpus, TextSha256) == Str(n.hash)
  {
  }

  lemma OneTextList(row: JsonlRow, field: Field, text: string)
    requires Get(row.value, field) == Arr([Str(text)]) && text != ""
    ensures ListValue(row, field) == [text]
    ensures forall source, invalid, duplicate :: ListErrors(row, field, source, invalid, duplicate) == []
  {
    var value := Get(row.value, field);
    assert value.items[0] == Str(text);
    assert IsTextList(value);
    assert Texts(value) == [text];
  }

  lemma OnePage()
    ensures SamePageLineage(FIRST_PAGE, FIRST_PAGE) && ChildPageWithinGroup(FIRST_PAGE, FIRST_PAGE)
  {
  }

  lemma TextsAreAccepted()
    ensures NamesChild(Str("CHILD")) && Member(Str(CORPUS_USE), CHILD_USES)
  {
  }

  lemma GroupRowFacts(n: Names)
    requires n.Valid()
    ensures var group := GroupRow(n);
            && ListValue(group, ChildIds) == [n.child] && ListValue(group, SourceVariantIds) == [n.variant]
            && ConditionList(group) == [] && ConditionListErrors(group) == [] && GroupListErrors(group) == []
  {
    hide GroupRow, ListValue, ListErrors;
    GroupFields(n);
    OneTextList(GroupRow(n), ChildIds, n.child);
    OneTextList(GroupRow(n), SourceVariantIds, n.variant);
  }

  lemma ChildRowFacts(n: Names)
    requires n.Valid()
    ensures ChildErrors(GroupRow(n), ChildRow(n), n.group) == []
  {
    hide GroupRow, ChildRow, NamesChild, ChildPageWithinGroup, Member, IsSha256, Get, FailedChecks;
    var group, child := GroupRow(n), ChildRow(n);
    GroupFields(n);
    ChildFields(n);
    ChildOtherFields(n);
    OnePage();
    TextsAreAccepted();
    NoFailedChecks(ChildChecks(group, child, n.group), CHILDREN, child, GROUPS, group);
  }

  lemma CorpusChecksPass(n: Names)
    requires n.Valid()
    ensures forall i :: 0 <= i < |CorpusChecks(CorpusRow(n), ChildRow(n), n.group)| ==>
              CorpusChecks(CorpusRow(n), ChildRow(n), n.group)[i].passed
  {
    hide ChildRow, CorpusRow, NamesChild, SamePageLineage, Member, IsSha256, Get, GroupIdsAttached;
    ChildFields(n);
    ChildOtherFields(n);
    CorpusFields(n);
    CorpusOtherFields(n);
    GroupIdsOfCorpusRow(n);
    OnePage();
    TextsAreAccepted();
  }

  lemma CorpusRowFacts(n: Names)
    requires n.Valid()
    ensures CorpusErrors(CorpusRow(n), ChildRow(n), n.group) == []
    ensures CorpusMatches(CorpusRow(n), ChildRow(n), GroupRow(n), n.group)
  {
    hide GroupRow, ChildRow, CorpusRow, CorpusChecks, Get, FailedChecks;
    GroupFields(n);
    CorpusOtherFields(n);
    CorpusChecksPass(n);
    NoFailedChecks(CorpusChecks(CorpusRow(n), ChildRow(n), n.group), CORPUS, CorpusRow(n), CHILDREN, ChildRow(n));
  }

  lemma GroupIdsOfCorpusRow(n: Names)
    requires n.group != ""
    ensures GroupIdsAttached(CorpusRow(n).value) == {n.group}
  {
    hide CorpusRow, Get;
    CorpusFields(n);
  }

  lemma SingleIndex(rule: IndexRule, row: JsonlRow, id: string)
    requires Get(row.value, rule.field) == Str(id) && id != ""
    ensures IndexRows(rule, [row]) == Indexed(map[id := row], [])
  {
    assert [row][..0] == [];
    assert IndexRows(rule, []) == Indexed(map[], []);
  }

  /** The tables of such a file set. */
  lemma RegisteredTables(row: JsonlRow, n: Names)
    requires n.Valid()
    ensures var t := TablesOf(Registered(row, n));
            && t.groups == map[n.group := GroupRow(n)] && t.children == map[n.child := ChildRow(n)]
            && t.corpus == map[n.child := CorpusRow(n)] && t.childRows == [ChildRow(n)] && t.gold == ScanGold([row])
    ensures IsText(Get(row.value, CaseId)) ==> IndexErrors(Registered(row, n)) == []
  {
    hide GroupRow, ChildRow, CorpusRow, ScanGold, IsText, IndexRows, Get, SchemaErrors;
    GroupFields(n);
    ChildFields(n);
    CorpusFields(n);
    SingleIndex(GROUP_RULE, GroupRow(n), n.group);
    SingleIndex(CHILD_RULE, ChildRow(n), n.child);
    SingleIndex(RECORD_RULE, CorpusRow(n), n.child);
    SingleIndex(CHUNK_RULE, CorpusRow(n), n.child);
    SchemaAccepts(Registered(row, n));
    if IsText(Get(row.value, CaseId)) {
      SingleCase(row);
    }
  }

  lemma SingleCase(row: JsonlRow)
    requires IsText(Get(row.value, CaseId))
    ensures IndexRows(GOLD_RULE, [row]).errors == []
  {
    SingleIndex(GOLD_RULE, row, Get(row.value, CaseId).s);
  }

  lemma SchemaAccepts(inputs: Inputs)
    requires inputs.schema.Some? && forall row :: inputs.schema.value(row)
    ensures SchemaErrors(inputs) == []
  {
    var schema := inputs.schema.value;
    var check := (g: JsonlRow) => If(!inputs.schema.value(g.value), GROUP_SCHEMA_VALIDATION_ERROR, GROUPS, g);
    FlatMapEmptyIff(check, inputs.groups);
    assert forall i :: 0 <= i < |inputs.groups| ==> schema(inputs.groups[i].value);
  }

  lemma {:induction false} OnlyReference(groups: seq<string>, reference: Reference, g: string)
    ensures forall r :: r in ReferencesTo(AddReferences(map[], groups, reference), g) ==> r == reference
  {
    if groups != [] {
      var rest, last := groups[..|groups| - 1], groups[|groups| - 1];
      OnlyReference(rest, reference, g);
      var before := AddReferences(map[], rest, reference);
      assert AddReferences(map[], groups, reference) == before[last := ReferencesTo(before, last) + [reference]];
      assert ReferencesTo(AddReferences(map[], groups, reference), g)
          == if last == g then ReferencesTo(before, g) + [reference] else ReferencesTo(before, g);
    }
  }

  /** The references of a single case all are the case's own. */
  lemma SingleCaseReferences(row: JsonlRow, g: string)
    ensures var gold := ScanGold([row]); var own := Reference(row, ProductOf(row));
            && (forall r :: r in ReferencesTo(gold.required, g) ==> r == own)
            && (forall r :: r in ReferencesTo(gold.supporting, g) ==> r == own)
            && (ConditionsOf(row) == [] ==> gold.conditions == [])
  {
    hide ConditionsOf, RequiredOf, SupportingOf, ProductOf;
    assert [row][..0] == [];
    assert ScanGold([row]) == ScanCase(ScanGold([]), row);
    OnlyReference(RequiredOf(row), Reference(row, ProductOf(row)), g);
    OnlyReference(SupportingOf(row), Reference(row, ProductOf(row)), g);
  }

  lemma CountOne<T>(p: T -> bool, x: T)
    ensures Count(p, [x]) == if p(x) then 1 else 0
  {
    assert [x][1..] == [];
  }

  lemma Single<T, R>(f: T -> seq<R>, x: T)
    ensures FlatMap(f, [x]) == f(x)
  {
    assert [x][..0] == [];
  }

  /** The group of a one-child registry as the group pass sees it. */
  ghost predicate IsOwnView(view: View, n: Names) {
    view == View(n.group, GroupRow(n), map[n.child := ChildRow(n)])
  }

  lemma OneDeclaredChild(view: View, n: Names)
    requires n.Valid() && IsOwnView(view, n)
    ensures view.ChildIdList() == [n.child] && DeclaredChildren(view) == [ChildRow(n)]
    ensures CoverageErrors(view) == []
  {
    hide GroupRow, ChildRow, ListValue, FlatMap;
    GroupRowFacts(n);
    ChildFields(n);
    Single((x: string) => Found(view.children, x), n.child);
    OneVariant(ChildRow(n), n.variant);
  }

  lemma OneVariant(child: JsonlRow, variant: string)
    requires Get(child.value, SourceVariantId) == Str(variant)
    ensures VariantsOf([child]) == [variant]
  {
    assert [child][..0] == [];
  }

  lemma OneChildClean(view: View, n: Names)
    requires n.Valid() && IsOwnView(view, n)
    ensures DeclaredChildErrors(view, n.child) == [] && UndeclaredErrors(view, ChildRow(n)) == []
  {
    hide GroupRow, ChildRow, ChildErrors, ListValue, Get;
    GroupRowFacts(n);
    ChildFields(n);
    ChildRowFacts(n);
    assert n.child in [n.child] && n.variant in [n.variant];
  }

  /** The group's own checks raise nothing when the case's reference is allowed. */
  lemma GroupPassClean(row: JsonlRow, n: Names)
    requires n.Valid() && ReferenceErrors(GroupRow(n), Reference(row, ProductOf(row))) == []
    ensures var t := TablesOf(Registered(row, n));
            n.group in t.groups && IsOwnView(t.ViewOf(n.group), n)
            && ErrorsBeforeConditions(t, t.ViewOf(n.group)) == [] && ErrorsAfterConditions(t, t.ViewOf(n.group)) == []
  {
    hide TablesOf, Registered, GroupRow, ChildRow, CorpusRow, ReferenceErrors, ProductOf, ListValue, FlatMap, IsSha256,
         GroupListErrors, ConditionListErrors, ConditionList, ReferencesTo, DeclaredChildErrors, CoverageErrors,
         UndeclaredErrors, ScanGold;
    var t := TablesOf(Registered(row, n));
    RegisteredTables(row, n);
    var view := t.ViewOf(n.group);
    ReferencesClean(t.gold, row, n);
    GroupRowFacts(n);
    OneDeclaredChild(view, n);
    OneChildClean(view, n);
    Single((x: string) => DeclaredChildErrors(view, x), n.child);
    Single((x: JsonlRow) => UndeclaredErrors(view, x), ChildRow(n));
  }

  lemma ReferencesClean(gold: GoldScan, row: JsonlRow, n: Names)
    requires gold == ScanGold([row]) && ReferenceErrors(GroupRow(n), Reference(row, ProductOf(row))) == []
    ensures FlatMap((r: Reference) => ReferenceErrors(GroupRow(n), r),
                    ReferencesTo(gold.required, n.group) + ReferencesTo(gold.supporting, n.group)) == []
  {
    hide GroupRow, ReferenceErrors, ProductOf, ReferencesTo, ScanGold, FlatMap;
    SingleCaseReferences(row, n.group);
    var required, supporting := ReferencesTo(gold.required, n.group), ReferencesTo(gold.supporting, n.group);
    FlatMapEmptyIff((r: Reference) => ReferenceErrors(GroupRow(n), r), required + supporting);
    forall i | 0 <= i < |required + supporting|
      ensures (required + supporting)[i] == Reference(row, ProductOf(row))
    {
      assert (required + supporting)[i] in required || (required + supporting)[i] in supporting;
    }
  }

  lemma OneKey(g: string)
    ensures SortedKeys({g}) == [g]
  {
    var keys := SortedKeys({g});
    assert keys[0] in ToSet(keys);
  }

  /** The link pass links the child and makes the group a candidate. */
  lemma LinkPassClean(row: JsonlRow, n: Names)
    requires n.Valid()
    ensures var t := TablesOf(Registered(row, n));
            t.groups.Keys == {n.group} && ScanLinks(t, [n.group]) == LinkScan(1, {n.group}, [])
  {
    hide GroupRow, ChildRow, CorpusRow, TablesOf, Registered, FlatMap, IsSha256, IsLinked, LinkErrors, DeclaredChildren,
         ScanGold;
    var t := TablesOf(Registered(row, n));
    RegisteredTables(row, n);
    var view, child := t.ViewOf(n.group), ChildRow(n);
    OneDeclaredChild(view, n);
    ChildIsLinked(t, view, n);
    Single((r: JsonlRow) => LinkErrors(t, view, r), child);
    CountOne((c: JsonlRow) => IsLinked(t, view, c), child);
    assert [n.group][..0] == [];
  }

  lemma ChildIsLinked(t: Tables, view: View, n: Names)
    requires n.Valid() && t.corpus == map[n.child := CorpusRow(n)] && IsOwnView(view, n)
    ensures IsLinked(t, view, ChildRow(n)) && LinkErrors(t, view, ChildRow(n)) == []
  {
    hide GroupRow, ChildRow, CorpusRow, CorpusErrors, CorpusMatches, Get, IsSha256;
    ChildFields(n);
    CorpusRowFacts(n);
  }

  lemma LineageClean(row: JsonlRow, n: Names)
    requires n.Valid() && ConditionsOf(row) == []
    ensures LineageErrors(Registered(row, n)) == []
  {
    hide TablesOf, GroupRow, ChildRow, CorpusRow, ScanGold, ConditionsOf, SortedKeys, ScanLinks, ScanGroups, FlatMap,
         OrphanErrors, AttachmentErrors, IsSha256;
    var inputs := Registered(row, n);
    var t := TablesOf(inputs);
    RegisteredTables(row, n);
    LinkPassClean(row, n);
    OneKey(n.group);
    SingleCaseReferences(row, n.group);
    AttachmentClean(t, n);
    Single((x: JsonlRow) => OrphanErrors(t, x), ChildRow(n));
    Single((x: JsonlRow) => AttachmentErrors(t, x), CorpusRow(n));
    FlatMapNone((r: ConditionReference) => ConditionReferenceErrors(GroupScanOf(inputs).owners, r));
  }

  lemma AttachmentClean(t: Tables, n: Names)
    requires n.group != "" && t.groups.Keys == {n.group} && t.children == map[n.child := ChildRow(n)]
    ensures OrphanErrors(t, ChildRow(n)) == [] && AttachmentErrors(t, CorpusRow(n)) == []
  {
    hide ChildRow, CorpusRow, Get, GroupIdsAttached, SortedKeys, FlatMap;
    var corpus := CorpusRow(n);
    ChildFields(n);
    CorpusFields(n);
    GroupIdsOfCorpusRow(n);
    OneKey(n.group);
    assert Attached(t, corpus) == {n.group};
    Single((x: string) => If(!AttachmentOk(t, corpus, x), CORPUS_GROUP_ATTACHED_TO_UNREGISTERED_CHILD, CORPUS, corpus),
           n.group);
  }

  lemma NothingElseMissing(t: Tables, g: string, code: Code, references: References)
    requires t.groups.Keys == {g}
    ensures FlatMap((x: string) => MissingCandidate(t, {g}, code, x), SortedKeys(references.Keys)) == []
  {
    hide SortedKeys;
    FlatMapEmptyIff((x: string) => MissingCandidate(t, {g}, code, x), SortedKeys(references.Keys));
  }

  lemma GroupScanClean(row: JsonlRow, n: Names)
    requires n.Valid() && ReferenceErrors(GroupRow(n), Reference(row, ProductOf(row))) == []
    ensures GroupScanOf(Registered(row, n)).errors == []
  {
    hide TablesOf, GroupRow, ChildRow, ReferenceErrors, ErrorsBeforeConditions, ErrorsAfterConditions, SortedKeys,
         ScanLinks, ConditionList, IsSha256, ProductOf;
    GroupPassClean(row, n);
    GroupRowFacts(n);
    LinkPassClean(row, n);
    OneKey(n.group);
    var t := TablesOf(Registered(row, n));
    assert [n.group][..0] == [];
    assert ScanGroups(t, [n.group]) == ScanGroup(t, ConditionScan(map[], []), t.ViewOf(n.group));
  }

  /** A clean case whose references the group allows passes over the one-group registry. */
  lemma RegisteredPasses(row: JsonlRow, n: Names)
    requires n.Valid() && IsText(Get(row.value, CaseId))
    requires CaseErrors(row) == [] && ConditionsOf(row) == []
    requires ReferenceErrors(GroupRow(n), Reference(row, ProductOf(row))) == []
    ensures ReportOf(Registered(row, n)).passed
  {
    hide IndexErrors, IsText, ConditionsOf, CaseErrors, TablesOf, ScanGold, GroupRow, ReferenceErrors, LineageErrors,
         SortedKeys, ScanLinks, GroupScanOf, FlatMap, IsSha256;
    var inputs := Registered(row, n);
    var t := TablesOf(inputs);
    assert inputs.gold == [row];
    RegisteredTables(row, n);
    GroupScanClean(row, n);
    LineageClean(row, n);
    LinkPassClean(row, n);
    OneKey(n.group);
    Single(CaseErrors, row);
    NothingElseMissing(t, n.group, REQUIRED_GROUP_SEARCH_CANDIDATE_MISSING, t.gold.required);
    NothingElseMissing(t, n.group, SUPPORTING_GROUP_SEARCH_CANDIDATE_MISSING, t.gold.supporting);
  }

  /** An evidence case about the registered group is one of the passing report's scorable or unreadable cases. */
  lemma RegisteredCase(row: JsonlRow, n: Names)
    requires n.Valid() && IsText(Get(row.value, CaseId)) && IsActive(row) && HasOutcome(row, "EVIDENCE")
    requires CaseErrors(row) == [] && ConditionsOf(row) == [] && RequiredOf(row) == [n.group] && SupportingOf(row) == []
    requires ReferenceErrors(GroupRow(n), Reference(row, ProductOf(row))) == []
    ensures var inputs := Registered(row, n);
            && |inputs.groups| == |inputs.children| == |inputs.corpus| == 1
            && ReportOf(inputs).passed && EvidenceCase(inputs, row) && GroupsRegistered(inputs, row)
  {
    hide ReportOf, CaseErrors, RequiredOf, SupportingOf, IsActive, HasOutcome, GroupRow, ChildRow, CorpusRow,
         ReferenceErrors, TablesOf, IsSha256, ConditionsOf, IsText, Get, ProductOf, ScanGold;
    RegisteredPasses(row, n);
    RegisteredTables(row, n);
    assert Registered(row, n).gold[0] == row;
  }

  /** A passing report over a nonempty registry, with one case that a ranking can pass. */
  lemma PassWithRegistry(n: Names)
    requires n.Valid()
    ensures var row := CaseAbout(n.group, n.product); var inputs := Registered(row, n);
            && |inputs.groups| == |inputs.children| == |inputs.corpus| == 1
            && ReportOf(inputs).passed && EvidenceCase(inputs, row)
            && ForbiddenListsClean(row) && GroupsRegistered(inputs, row)
            && exists rows :: IsRanking(inputs, rows) && Passes(inputs, row, rows, 1)
  {
    hide ReportOf, CaseErrors, RequiredOf, SupportingOf, ForbiddenListsClean, CaseAbout, IsActive, HasOutcome, GroupRow,
         ReferenceErrors, Passes, IsRanking, TablesOf, IsSha256, EvidenceCase, GroupsRegistered, Registered, IsText,
         Get, ConditionsOf, ProductOf, IsTextList;
    var row := CaseAbout(n.group, n.product);
    CaseAboutFields(n.group, n.product);
    CaseAboutIsClean(n.group, n.product);
    CaseAboutIsAllowed(n);
    RegisteredCase(row, n);
    EvidenceCaseIsPassable(Registered(row, n), row, 1);
  }

  lemma CaseAboutIsAllowed(n: Names)
    requires n.Valid()
    ensures var row := CaseAbout(n.group, n.product);
            ReferenceErrors(GroupRow(n), Reference(row, ProductOf(row))) == []
  {
    hide GroupRow, CaseAbout, ProductOf;
    GroupFields(n);
    CaseAboutFields(n.group, n.product);
    CaseAboutForbids(n.group, n.product);
  }

  lemma CaseAboutForbids(g: string, product: string)
    ensures IteratedTexts(Get(CaseAbout(g, product).value, ForbiddenDocumentIds)) == {}
    ensures IteratedTexts(Get(CaseAbout(g, product).value, ForbiddenModelCodes)) == {}
  {
  }

  /** The same case without a forbidden-document list. */
  function CaseWithoutForbidden(g: string, product: string): JsonlRow {
    var row := CaseAbout(g, product);
    row.(value := row.value - {ForbiddenDocumentIds})
  }

  /** PASS does not make a case readable: a missing forbidden list raises no diagnostic, and no ranking passes. */
  lemma PassWithUnreadableCase(n: Names)
    requires n.Valid()
    ensures var row := CaseWithoutForbidden(n.group, n.product); var inputs := Registered(row, n);
            && ReportOf(inputs).passed && EvidenceCase(inputs, row) && GroupsRegistered(inputs, row)
            && S.ReadCase(row.value).Failure?
            && forall rows, topK :: !Passes(inputs, row, rows, topK)
  {
    hide ReportOf, CaseErrors, RequiredOf, SupportingOf, ForbiddenListsClean, CaseAbout, IsActive, HasOutcome, GroupRow,
         ReferenceErrors, TablesOf, IsSha256, EvidenceCase, GroupsRegistered, Registered, IsText, Get, ConditionsOf,
         ProductOf, CaseWithoutForbidden, S.ReadCase, S.Admit, S.ScoreRows;
    var row := CaseWithoutForbidden(n.group, n.product);
    UnforbiddingFields(n.group, n.product);
    UnforbiddingIsClean(n.group, n.product);
    UnforbiddingIsAllowed(n);
    RegisteredCase(row, n);
    PassedCaseIsRead(Registered(row, n), row);
  }

  lemma SameFields(g: string, product: string)
    ensures CaseWithoutForbidden(g, product).line == CaseAbout(g, product).line
    ensures var row, other := CaseWithoutForbidden(g, product).value, CaseAbout(g, product).value;
            && (forall field :: field != ForbiddenDocumentIds ==>
                  Get(row, field) == Get(other, field) && (field in row <==> field in other))
            && Get(row, ForbiddenDocumentIds) == Null
  {
    hide CaseAbout;
  }

  lemma UnforbiddingFields(g: string, product: string)
    requires g != "" && product != ""
    ensures var row := CaseWithoutForbidden(g, product);
            && IsActive(row) && HasOutcome(row, "EVIDENCE")
            && ProductOf(row) == product && RequiredOf(row) == [g] && SupportingOf(row) == [] && ConditionsOf(row) == []
            && !ForbiddenListsClean(row) && IsText(Get(row.value, CaseId))
  {
    hide CaseAbout, CaseWithoutForbidden, Get, Texts, IsText;
    var row, other := CaseWithoutForbidden(g, product), CaseAbout(g, product);
    CaseAboutFields(g, product);
    SameFields(g, product);
    assert RequiredOf(row) == RequiredOf(other) && SupportingOf(row) == SupportingOf(other);
    assert ProductOf(row) == ProductOf(other) && ConditionsOf(row) == ConditionsOf(other);
  }

  lemma UnforbiddingIsAllowed(n: Names)
    requires n.Valid()
    ensures var row := CaseWithoutForbidden(n.group, n.product);
            ReferenceErrors(GroupRow(n), Reference(row, ProductOf(row))) == []
  {
    hide GroupRow, CaseAbout, CaseWithoutForbidden, ProductOf;
    GroupFields(n);
    UnforbiddingFields(n.group, n.product);
    CaseAboutForbids(n.group, n.product);
    SameFields(n.group, n.product);
  }

  /** The two rows agree on every field but the forbidden documents. */
  ghost predicate AgreeOtherwise(row: JsonlRow, other: JsonlRow) {
    && row.line == other.line
    && forall field :: field != ForbiddenDocumentIds ==>
         Get(row.value, field) == Get(other.value, field) && (field in row.value <==> field in other.value)
  }

  lemma SameListErrors(row: JsonlRow, other: JsonlRow)
    requires AgreeOtherwise(row, other)
    ensures CaseListErrors(row) == CaseListErrors(other)
  {
    hide Get, IsTextList, Texts, IsText, ToSet, NoDuplicates;
  }

  lemma SameEvidenceErrors(row: JsonlRow, other: JsonlRow)
    requires AgreeOtherwise(row, other)
    ensures EvidenceErrors(row) == EvidenceErrors(other)
  {
    hide Get, IsTextList, Texts, Member;
  }

  /** Case diagnostics depend on the fields the pass reads, and the forbidden lists are not among them. */
  lemma SameCaseErrors(row: JsonlRow, other: JsonlRow)
    requires AgreeOtherwise(row, other)
    requires CaseErrors(other) == [] && IsActive(other) && HasOutcome(other, "EVIDENCE")
    ensures CaseErrors(row) == []
  {
    hide Get, IsSkipped, IsActive, HasOutcome, CaseListErrors, EvidenceErrors, NoEvidenceErrors;
    ActiveStaysActive(row, other);
    SameListErrors(row, other);
    SameEvidenceErrors(row, other);
  }

  lemma ActiveStaysActive(row: JsonlRow, other: JsonlRow)
    requires Get(row.value, EvaluationStatus) == Get(other.value, EvaluationStatus)
    requires Get(row.value, ExpectedRetrievalOutcome) == Get(other.value, ExpectedRetrievalOutcome)
    requires IsActive(other) && HasOutcome(other, "EVIDENCE")
    ensures IsActive(row) && HasOutcome(row, "EVIDENCE") && !IsSkipped(row) && !IsSkipped(other)
  {
    ActiveIsNotSkipped(row);
    ActiveIsNotSkipped(other);
  }

  lemma UnforbiddingIsClean(g: string, product: string)
    requires g != "" && product != ""
    ensures CaseErrors(CaseWithoutForbidden(g, product)) == []
  {
    hide CaseAbout, CaseWithoutForbidden, CaseErrors, IsActive, HasOutcome, ConditionsOf, Get;
    CaseAboutFields(g, product);
    CaseAboutIsClean(g, product);
    SameFields(g, product);
    SameCaseErrors(CaseWithoutForbidden(g, product), CaseAbout(g, product));
  }
}
