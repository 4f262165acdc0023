/** A file set that passes the compatibility checker can be scored, and its cases can be passed. */
module Reachability {
  import opened Collections
  import opened Json
  import opened Sorting
  import opened Compatibility
  import opened CompatibilityTheorems
  import S = Scoring
  import T = ScoringTheorems

  /** The group file as the scorer receives it. */
  function Entries(inputs: Inputs): (entries: seq<S.Entry>)
    ensures |entries| == |inputs.groups|
  {
    seq(|inputs.groups|, i requires 0 <= i < |inputs.groups| => S.Entry(None, inputs.groups[i].value))
  }

  function GroupIdAt(inputs: Inputs, i: nat): string
    requires i < |inputs.groups|
  {
    var id := Get(inputs.groups[i].value, EvidenceGroupId);
    if id.Str? then id.s else ""
  }

  lemma GroupAt(inputs: Inputs, i: nat)
    requires ReportOf(inputs).passed && i < |inputs.groups|
    ensures GroupIdAt(inputs, i) != "" && Get(inputs.groups[i].value, EvidenceGroupId) == Str(GroupIdAt(inputs, i))
    ensures var t, g := TablesOf(inputs), GroupIdAt(inputs, i);
            g in t.groups && t.groups[g] == inputs.groups[i]
  {
    hide ReportOf, IndexRows, ScanGold;
    PassedFilesAreKeyed(inputs);
    KeyedRow(GROUP_RULE, inputs.groups, i);
  }

  lemma EntryIsOk(inputs: Inputs, i: nat)
    requires ReportOf(inputs).passed && i < |inputs.groups|
    ensures T.EntryOk(Entries(inputs)[i])
    ensures var t, g := TablesOf(inputs), GroupIdAt(inputs, i);
            && S.EntryId(Entries(inputs)[i]) == Str(g)
            && forall c :: c in T.EntryChildren(Entries(inputs)[i]) <==> Declares(t, g, c)
  {
    hide ReportOf, TablesOf, TextMembers;
    GroupAt(inputs, i);
    var g := GroupIdAt(inputs, i);
    PassedLists(inputs, g);
    TextMembersOfList(Get(inputs.groups[i].value, ChildIds));
  }

  /** PASS makes the scorer's registry acceptable, and its owner index the exact inverse of the declarations. */
  lemma PassedRegistry(inputs: Inputs)
    requires ReportOf(inputs).passed
    ensures var built := S.BuildRegistry(Entries(inputs)); var t := TablesOf(inputs);
            && built.Success?
            && built.value.groups.Keys == t.groups.Keys
            && (forall g :: g in t.groups ==> built.value.groups[g] == t.groups[g].value)
            && (forall g, c :: Declares(t, g, c) <==> c in built.value.owner && built.value.owner[c] == g)
  {
    hide ReportOf, TablesOf, S.EntryId, T.EntryOk, T.EntryChildren, Declares, S.AddEntries;
    var entries, t := Entries(inputs), TablesOf(inputs);
    RegistryIsOk(inputs);
    T.RegistryAcceptedIff(entries);
    var built := S.BuildRegistry(entries).value;
    forall g
      ensures g in built.groups <==> g in t.groups
      ensures g in t.groups ==> g in built.groups && built.groups[g] == t.groups[g].value
    {
      BuiltGroup(inputs, built, g);
    }
    forall g, c
      ensures Declares(t, g, c) <==> c in built.owner && built.owner[c] == g
    {
      BuiltOwner(inputs, built, g, c);
    }
  }

  lemma RegistryIsOk(inputs: Inputs)
    requires ReportOf(inputs).passed
    ensures T.RegistryOk(Entries(inputs)) && S.KeysAreText(Entries(inputs))
  {
    hide ReportOf, TablesOf, S.EntryId, T.EntryOk, T.EntryChildren, Declares, OwnerOf;
    var entries := Entries(inputs);
    forall i | 0 <= i < |entries|
      ensures T.EntryOk(entries[i])
    {
      EntryIsOk(inputs, i);
    }
    PassedFilesAreKeyed(inputs);
    forall i, j | 0 <= i < j < |entries|
      ensures S.EntryId(entries[i]) != S.EntryId(entries[j])
      ensures T.EntryChildren(entries[i]) !! T.EntryChildren(entries[j])
    {
      EntryIsOk(inputs, i);
      EntryIsOk(inputs, j);
      GroupAt(inputs, i);
      GroupAt(inputs, j);
      var g, h := GroupIdAt(inputs, i), GroupIdAt(inputs, j);
      assert g != h;
      forall c | c in T.EntryChildren(entries[i])
        ensures c !in T.EntryChildren(entries[j])
      {
        DeclaredExactlyByOwner(inputs, g, c);
        DeclaredExactlyByOwner(inputs, h, c);
      }
    }
  }

  lemma BuiltGroup(inputs: Inputs, built: S.Registry, g: string)
    requires ReportOf(inputs).passed && T.Indexes(built, Entries(inputs))
    ensures g in built.groups <==> g in TablesOf(inputs).groups
    ensures g in TablesOf(inputs).groups ==> built.groups[g] == TablesOf(inputs).groups[g].value
  {
    hide ReportOf, T.EntryOk, T.EntryChildren, Declares, IndexRows, ScanGold;
    var entries, t := Entries(inputs), TablesOf(inputs);
    if g in built.groups {
      var i :| T.Names(entries, i, g);
      EntryIsOk(inputs, i);
      GroupAt(inputs, i);
    }
    if g in t.groups {
      IndexMeaning(GROUP_RULE, inputs.groups);
      var i :| IdAt(inputs.groups, EvidenceGroupId, i, g) && t.groups[g] == inputs.groups[i];
      EntryIsOk(inputs, i);
      assert T.Names(entries, i, g);
    }
  }

  lemma BuiltOwner(inputs: Inputs, built: S.Registry, g: string, c: string)
    requires ReportOf(inputs).passed && T.Indexes(built, Entries(inputs))
    ensures Declares(TablesOf(inputs), g, c) <==> c in built.owner && built.owner[c] == g
  {
    hide ReportOf, T.EntryOk, T.EntryChildren, IndexRows, ScanGold, ListValue, S.EntryId;
    var entries, t := Entries(inputs), TablesOf(inputs);
    if Declares(t, g, c) {
      IndexMeaning(GROUP_RULE, inputs.groups);
      var i :| IdAt(inputs.groups, EvidenceGroupId, i, g) && t.groups[g] == inputs.groups[i];
      EntryIsOk(inputs, i);
      assert T.Holds(entries, i, c);
    }
    if c in built.owner && built.owner[c] == g {
      var i :| T.Holds(entries, i, c);
      EntryIsOk(inputs, i);
    }
  }

  // ---------------------------------------------------------------- one evidence case

  /** An active EVIDENCE case of the Gold file. */
  ghost predicate EvidenceCase(inputs: Inputs, row: JsonlRow) {
    row in inputs.gold && IsActive(row) && HasOutcome(row, "EVIDENCE")
  }

  /** A list of distinct nonempty strings. */
  predicate IsDistinctTexts(j: Json) {
    IsTextList(j) && NoDuplicates(Texts(j))
  }

  /** Both forbidden lists are present and well formed; the report reads them leniently, the scorer does not. */
  predicate ForbiddenListsClean(row: JsonlRow) {
    && IsDistinctTexts(Get(row.value, ForbiddenDocumentIds))
    && IsDistinctTexts(Get(row.value, ForbiddenModelCodes))
  }

  lemma CleanListsAreRead(row: JsonlRow)
    ensures ForbiddenListsClean(row) <==>
              S.ReadList(row.value, ForbiddenDocumentIds).Success? && S.ReadList(row.value, ForbiddenModelCodes).Success?
  {
  }

  ghost predicate CleanCase(inputs: Inputs, row: JsonlRow) {
    EvidenceCase(inputs, row) && ForbiddenListsClean(row)
  }

  /** Every group the case refers to is registered, which the report does not test either. */
  ghost predicate GroupsRegistered(inputs: Inputs, row: JsonlRow) {
    forall g :: g in RequiredOf(row) || g in SupportingOf(row) ==> g in TablesOf(inputs).groups
  }

  ghost predicate ScorableCase(inputs: Inputs, row: JsonlRow) {
    CleanCase(inputs, row) && GroupsRegistered(inputs, row)
  }

  lemma PassedCase(inputs: Inputs, row: JsonlRow)
    requires ReportOf(inputs).passed && EvidenceCase(inputs, row)
    ensures CaseListErrors(row) == [] && EvidenceErrors(row) == []
  {
    hide ReportOf, TablesOf, CaseListErrors, EvidenceErrors, NoEvidenceErrors;
    PassedParts(inputs);
    FlatMapEmptyIff(CaseErrors, inputs.gold);
    var i :| 0 <= i < |inputs.gold| && inputs.gold[i] == row;
    assert CaseErrors(row) == [];
    ActiveIsNotSkipped(row);
  }

  /**
   * After PASS the scorer reads an active evidence case exactly when its forbidden lists are clean, and then
   * with the product and groups of the report.
   */
  lemma PassedCaseIsRead(inputs: Inputs, row: JsonlRow)
    requires ReportOf(inputs).passed && EvidenceCase(inputs, row)
    ensures S.ReadCase(row.value).Success? <==> ForbiddenListsClean(row)
    ensures ForbiddenListsClean(row) ==>
              var read := S.ReadCase(row.value).value;
              && read.outcome == S.EVIDENCE
              && read.product == ProductOf(row)
              && read.required == RequiredOf(row) && read.supporting == SupportingOf(row)
              && S.ReadList(row.value, ForbiddenDocumentIds) == Success(read.forbiddenDocuments)
              && S.ReadList(row.value, ForbiddenModelCodes) == Success(read.forbiddenModels)
  {
    hide ReportOf, TablesOf, CaseListErrors, EvidenceErrors, ListValue, S.ReadList, S.ReadPolicy, S.ReadOutcome,
         HasOutcome, ForbiddenListsClean;
    PassedCase(inputs, row);
    PassedCaseLists(row);
    PassedCasePolicy(row);
    EvidenceOutcomeIsRead(row);
    CleanListsAreRead(row);
  }

  lemma EvidenceOutcomeIsRead(row: JsonlRow)
    requires HasOutcome(row, "EVIDENCE")
    ensures S.ReadOutcome(Get(row.value, ExpectedRetrievalOutcome)) == Success(S.EVIDENCE)
  {
  }

  lemma PassedCaseLists(row: JsonlRow)
    requires CaseListErrors(row) == []
    ensures IsText(Get(row.value, ProductModelCode))
    ensures S.ReadList(row.value, RequiredEvidenceGroupIds) == Success(RequiredOf(row))
    ensures S.ReadList(row.value, SupportingEvidenceGroupIds) == Success(SupportingOf(row))
    ensures ToSet(RequiredOf(row)) !! ToSet(SupportingOf(row))
  {
    hide IsTextList, NoDuplicates;
    forall g | g in RequiredOf(row)
      ensures g !in SupportingOf(row)
    {
      assert g in SupportingOf(row) ==> g in ToSet(RequiredOf(row)) * ToSet(SupportingOf(row));
    }
  }

  lemma PassedCasePolicy(row: JsonlRow)
    requires EvidenceErrors(row) == []
    ensures Get(row.value, ExpectedExecutionPath) == Str(S.PGVECTOR_QUERY)
    ensures RequiredOf(row) != []
    ensures var policy := S.ReadPolicy(Get(row.value, EvidenceMatchPolicy)); policy.Success? && policy.value != S.NONE
  {
    hide ListValue;
  }

  // ---------------------------------------------------------------- references reach the group pass

  lemma {:induction false} ReferencesGrow(refs: References, groups: seq<string>, reference: Reference, g: string,
                                          known: Reference)
    ensures known in ReferencesTo(refs, g) ==> known in ReferencesTo(AddReferences(refs, groups, reference), g)
    ensures g in groups ==> reference in ReferencesTo(AddReferences(refs, groups, reference), g)
  {
    if groups != [] {
      ReferencesGrow(refs, groups[..|groups| - 1], reference, g, known);
      ReferencesGrow(refs, groups[..|groups| - 1], reference, g, reference);
    }
  }

  /** Every active EVIDENCE case is filed under each group it requires or supports. */
  lemma {:induction false} ReferencesAreRecorded(rows: seq<JsonlRow>, row: JsonlRow, g: string)
    requires row in rows && IsActive(row) && HasOutcome(row, "EVIDENCE")
    ensures g in RequiredOf(row) ==> Reference(row, ProductOf(row)) in ReferencesTo(ScanGold(rows).required, g)
    ensures g in SupportingOf(row) ==> Reference(row, ProductOf(row)) in ReferencesTo(ScanGold(rows).supporting, g)
  {
    hide AddReferences, ReferencesTo, RequiredOf, SupportingOf, ProductOf, ConditionReferences, IsActive, HasOutcome;
    var rest, last := rows[..|rows| - 1], rows[|rows| - 1];
    var known := Reference(row, ProductOf(row));
    var added := Reference(last, ProductOf(last));
    var before := ScanGold(rest);
    if row in rest {
      ReferencesAreRecorded(rest, row, g);
    }
    ReferencesGrow(before.required, RequiredOf(last), added, g, known);
    ReferencesGrow(before.supporting, SupportingOf(last), added, g, known);
  }

  lemma PassedReference(inputs: Inputs, row: JsonlRow, g: string)
    requires ReportOf(inputs).passed && ScorableCase(inputs, row)
    requires g in RequiredOf(row) || g in SupportingOf(row)
    ensures ReferenceErrors(TablesOf(inputs).groups[g], Reference(row, ProductOf(row))) == []
  {
    hide ReportOf, IndexRows, ScanGold, ReferenceErrors, GroupListErrors, ConditionListErrors, FlatMap, RequiredOf,
         SupportingOf, HasOutcome, IsActive, ProductOf, ReferencesTo, ErrorsAfterConditions, GroupLinkErrors;
    var t := TablesOf(inputs);
    var view := t.ViewOf(g);
    var reference := Reference(row, ProductOf(row));
    ReferencesAreRecorded(inputs.gold, row, g);
    PassedGroup(inputs, g);
    var references := ReferencesTo(t.gold.required, g) + ReferencesTo(t.gold.supporting, g);
    FlatMapEmptyIff((r: Reference) => ReferenceErrors(view.group, r), references);
    assert reference in ReferencesTo(t.gold.required, g) || reference in ReferencesTo(t.gold.supporting, g);
    assert reference in references;
  }

  /** The group is about the case's product, and neither its document nor its product is forbidden. */
  lemma PassedGroupIsAllowed(inputs: Inputs, row: JsonlRow, g: string)
    requires ReportOf(inputs).passed && ScorableCase(inputs, row)
    requires g in RequiredOf(row) || g in SupportingOf(row)
    ensures var group := TablesOf(inputs).groups[g].value;
            && Get(group, ExactSalesCode) == Str(ProductOf(row))
            && !Member(Get(group, DocumentId), IteratedTexts(Get(row.value, ForbiddenDocumentIds)))
            && !Member(Get(group, ExactSalesCode), IteratedTexts(Get(row.value, ForbiddenModelCodes)))
  {
    hide ReportOf, TablesOf, IteratedTexts, Member, RequiredOf, SupportingOf, HasOutcome, IsActive, ProductOf;
    PassedReference(inputs, row, g);
  }

  /** A scorable case passes every check the scorer makes before it looks at the ranking. */
  lemma PassedCaseIsAdmitted(inputs: Inputs, row: JsonlRow)
    requires ReportOf(inputs).passed && ScorableCase(inputs, row)
    ensures S.ReadCase(row.value).Success?
    ensures S.Admit(S.ReadCase(row.value).value, Entries(inputs)) == S.BuildRegistry(Entries(inputs))
  {
    hide ReportOf, TablesOf, S.ReadCase, S.BuildRegistry, RequiredOf, SupportingOf, HasOutcome, IsActive, ProductOf,
         S.ReadList, Declares;
    PassedCaseIsRead(inputs, row);
    PassedRegistry(inputs);
    var contract := S.ReadCase(row.value).value;
    forall g | g in contract.Expected()
      ensures g in TablesOf(inputs).groups && Get(TablesOf(inputs).groups[g].value, ExactSalesCode) == Str(contract.product)
    {
      PassedGroupIsAllowed(inputs, row, g);
    }
  }

  /**
   * After PASS the scorer admits an active evidence case exactly when its forbidden lists are clean and the
   * groups it refers to are registered.
   */
  lemma AdmittedIffCleanAndRegistered(inputs: Inputs, row: JsonlRow)
    requires ReportOf(inputs).passed && EvidenceCase(inputs, row)
    ensures S.ReadCase(row.value).Success? && S.Admit(S.ReadCase(row.value).value, Entries(inputs)).Success?
       <==> ForbiddenListsClean(row) && GroupsRegistered(inputs, row)
  {
    hide ReportOf, TablesOf, S.ReadCase, S.BuildRegistry, RequiredOf, SupportingOf, EvidenceCase, Declares,
         ForbiddenListsClean;
    PassedCaseIsRead(inputs, row);
    PassedRegistry(inputs);
    if ForbiddenListsClean(row) {
      if GroupsRegistered(inputs, row) {
        PassedCaseIsAdmitted(inputs, row);
      } else {
        var g :| (g in RequiredOf(row) || g in SupportingOf(row)) && g !in TablesOf(inputs).groups;
        assert g in S.ReadCase(row.value).value.Expected();
      }
    }
  }

  // ---------------------------------------------------------------- a ranking that passes

  /** The gate the scorer builds for the case under its default use and verification values. */
  ghost function CaseGate(row: JsonlRow): S.Gate
    requires S.ReadCase(row.value).Success?
  {
    S.GateOf(S.ReadCase(row.value).value, S.DEFAULT_ALLOWED_USE, S.DEFAULT_VERIFIED)
  }

  /** What a linked corpus row says, field by field. */
  lemma LinkedRowFields(corpus: JsonlRow, child: JsonlRow, group: JsonlRow, g: string)
    requires CorpusMatches(corpus, child, group, g)
    ensures NamesChild(Get(corpus.value, RecordType))
    ensures Get(corpus.value, RetrievalRole) == Str("SEARCH_CANDIDATE")
    ensures Get(corpus.value, AllowedUse) == Str(CORPUS_USE)
    ensures S.StatusOf(corpus.value) == Str(VERIFIED)
    ensures Get(corpus.value, DocumentId) == Get(child.value, DocumentId)
    ensures Get(corpus.value, ExactSalesCode) == Get(group.value, ExactSalesCode)
  {
    var checks := CorpusChecks(corpus, child, g);
    assert checks[0].passed && checks[1].passed && checks[2].passed && checks[3].passed && checks[5].passed;
  }

  lemma ForbiddenSets(row: JsonlRow, field: Field)
    requires S.ReadList(row.value, field).Success?
    ensures IteratedTexts(Get(row.value, field)) == ToSet(S.ReadList(row.value, field).value)
  {
    TextMembersOfList(Get(row.value, field));
  }

  /** The gate asks for the group's product, forbids neither its document nor its product, and admits linked rows. */
  predicate GateAdmits(gate: S.Gate, group: Row) {
    && Get(group, ExactSalesCode) == Str(gate.product)
    && !Member(Get(group, DocumentId), gate.forbiddenDocuments)
    && !Member(Get(group, ExactSalesCode), gate.forbiddenModels)
    && CORPUS_USE in gate.allowedUse && VERIFIED in gate.verified
  }

  /** A linked row of a declared child is valid for a gate exactly when the gate admits the group. */
  lemma LinkedRowValidIff(inputs: Inputs, g: string, c: string, gate: S.Gate)
    requires ReportOf(inputs).passed && Declares(TablesOf(inputs), g, c)
    requires c in TablesOf(inputs).children && c in TablesOf(inputs).corpus
    ensures S.RowIsValid(gate, TablesOf(inputs).corpus[c].value)
       <==> GateAdmits(gate, TablesOf(inputs).groups[g].value)
  {
    hide ReportOf, TablesOf, ListValue, CorpusMatches, NamesChild;
    var t := TablesOf(inputs);
    var view := t.ViewOf(g);
    PassedLink(inputs, g, c);
    PassedDeclaredChild(inputs, g, c);
    ChildIdIsKey(inputs, c);
    assert CorpusOf(t, t.children[c]) == t.corpus[c];
    LinkedRowFields(t.corpus[c], t.children[c], view.group, g);
  }

  /** A registered group has a corpus row of its own, its first child's. */
  lemma RowForGroup(inputs: Inputs, g: string, gate: S.Gate) returns (corpus: JsonlRow)
    requires ReportOf(inputs).passed && g in TablesOf(inputs).groups
    requires GateAdmits(gate, TablesOf(inputs).groups[g].value)
    ensures corpus in inputs.corpus
    ensures S.BuildRegistry(Entries(inputs)).Success?
    ensures S.GroupOf(gate, S.BuildRegistry(Entries(inputs)).value.owner, corpus.value) == Some(g)
  {
    hide ReportOf, TablesOf, S.BuildRegistry, ListValue, IsLinked, Attached, S.RowIsValid, OwnerOf, GateAdmits;
    var t := TablesOf(inputs);
    var view := t.ViewOf(g);
    PassedLists(inputs, g);
    var c := view.ChildIdList()[0];
    DeclaredExactlyByOwner(inputs, g, c);
    ChildHasAttachedRow(inputs, c);
    corpus := t.corpus[c];
    PassedRegistry(inputs);
    assert Declares(t, g, c);
    LinkedRowValidIff(inputs, g, c, gate);
  }

  /** After PASS some corpus row counts for a registered group exactly when the gate admits the group. */
  lemma GroupIsFoundIff(inputs: Inputs, g: string, gate: S.Gate)
    requires ReportOf(inputs).passed && g in TablesOf(inputs).groups
    ensures S.BuildRegistry(Entries(inputs)).Success?
    ensures var owner := S.BuildRegistry(Entries(inputs)).value.owner;
            (exists corpus :: corpus in inputs.corpus && S.GroupOf(gate, owner, corpus.value) == Some(g))
            <==> GateAdmits(gate, TablesOf(inputs).groups[g].value)
  {
    hide ReportOf, TablesOf, S.BuildRegistry, S.RowIsValid, GateAdmits, Declares;
    PassedRegistry(inputs);
    var owner := S.BuildRegistry(Entries(inputs)).value.owner;
    if GateAdmits(gate, TablesOf(inputs).groups[g].value) {
      var corpus := RowForGroup(inputs, g, gate);
    }
    forall corpus | corpus in inputs.corpus && S.GroupOf(gate, owner, corpus.value) == Some(g)
      ensures GateAdmits(gate, TablesOf(inputs).groups[g].value)
    {
      var i :| 0 <= i < |inputs.corpus| && inputs.corpus[i] == corpus;
      OwnedRowIsLinked(inputs, i, g);
      LinkedRowValidIff(inputs, g, Get(corpus.value, SourceRecordId).s, gate);
    }
  }

  /** A corpus row whose record is declared by a group is the indexed row of that child. */
  lemma OwnedRowIsLinked(inputs: Inputs, i: nat, g: string)
    requires ReportOf(inputs).passed && i < |inputs.corpus|
    requires Get(inputs.corpus[i].value, SourceRecordId).Str?
    requires Declares(TablesOf(inputs), g, Get(inputs.corpus[i].value, SourceRecordId).s)
    ensures var t, c := TablesOf(inputs), Get(inputs.corpus[i].value, SourceRecordId).s;
            c in t.children && c in t.corpus && t.corpus[c] == inputs.corpus[i]
  {
    hide ReportOf, IndexRows, ScanGold, ListValue;
    var c := Get(inputs.corpus[i].value, SourceRecordId).s;
    DeclaredExactlyByOwner(inputs, g, c);
    PassedFilesAreKeyed(inputs);
    KeyedRow(RECORD_RULE, inputs.corpus, i);
  }

  /** The default gate of a scorable case admits every group the case refers to. */
  lemma CaseGateAdmits(inputs: Inputs, row: JsonlRow, g: string)
    requires ReportOf(inputs).passed && ScorableCase(inputs, row)
    requires g in RequiredOf(row) || g in SupportingOf(row)
    ensures S.ReadCase(row.value).Success? && GateAdmits(CaseGate(row), TablesOf(inputs).groups[g].value)
  {
    hide ReportOf, TablesOf, S.ReadCase, S.ReadList, RequiredOf, SupportingOf, EvidenceCase, ForbiddenListsClean,
         ProductOf, IteratedTexts, Member;
    PassedCaseIsRead(inputs, row);
    PassedGroupIsAllowed(inputs, row, g);
    ForbiddenSets(row, ForbiddenDocumentIds);
    ForbiddenSets(row, ForbiddenModelCodes);
    DefaultsAdmit();
  }

  lemma DefaultsAdmit()
    ensures CORPUS_USE in S.DEFAULT_ALLOWED_USE && VERIFIED in S.DEFAULT_VERIFIED
  {
  }

  lemma ChildIdIsKey(inputs: Inputs, c: string)
    requires c in TablesOf(inputs).children
    ensures Get(TablesOf(inputs).children[c].value, ChildId) == Str(c)
  {
    hide IndexRows, ScanGold;
    IndexMeaning(CHILD_RULE, inputs.children);
  }

  /** Corpus rows as the runner hands them to the scorer, each wrapped under `chunk`. */
  function Wrapped(rows: seq<JsonlRow>): (ranked: seq<Row>)
    ensures |ranked| == |rows|
    ensures forall i :: 0 <= i < |rows| ==> ranked[i] == map[Chunk := Obj(rows[i].value)]
  {
    seq(|rows|, i requires 0 <= i < |rows| => map[Chunk := Obj(rows[i].value)])
  }

  function Values(rows: seq<JsonlRow>): (values: seq<Row>)
    ensures |values| == |rows|
    ensures forall i :: 0 <= i < |rows| ==> values[i] == rows[i].value
  {
    seq(|rows|, i requires 0 <= i < |rows| => rows[i].value)
  }

  lemma UnwrapWrapped(rows: seq<JsonlRow>)
    ensures S.ChunksAreObjects(Wrapped(rows)) && S.CorpusRows(Wrapped(rows)) == Values(rows)
  {
    assert forall i :: 0 <= i < |rows| ==> S.CorpusRow(Wrapped(rows)[i]) == Success(rows[i].value);
  }

  ghost predicate IsRanking(inputs: Inputs, rows: seq<JsonlRow>) {
    NoDuplicates(rows) && forall i :: 0 <= i < |rows| ==> rows[i] in inputs.corpus
  }

  /** The ranking scores passed=true when it was produced by one PGVECTOR query. */
  ghost predicate Passes(inputs: Inputs, row: JsonlRow, rows: seq<JsonlRow>, topK: int) {
    var score := S.ScoreCase(row.value, Wrapped(rows), Entries(inputs), S.Observation(S.PGVECTOR_QUERY, 1), topK,
                             S.DEFAULT_ALLOWED_USE, S.DEFAULT_VERIFIED);
    score.Success? && score.value.passed
  }

  /** The score of a scorable case depends on the ranking alone. */
  lemma PassesMeaning(inputs: Inputs, row: JsonlRow, rows: seq<JsonlRow>, topK: int)
    requires ReportOf(inputs).passed && ScorableCase(inputs, row) && topK >= 1
    requires S.ReadCase(row.value).Success? && S.BuildRegistry(Entries(inputs)).Success?
    ensures Passes(inputs, row, rows, topK)
       <==> S.ScoreRows(S.ReadCase(row.value).value, CaseGate(row), S.BuildRegistry(Entries(inputs)).value.owner,
                        Values(rows), S.Observation(S.PGVECTOR_QUERY, 1), topK).passed
  {
    hide ReportOf, TablesOf, S.ReadCase, S.BuildRegistry, S.ScoreRows, ScorableCase, S.Admit;
    PassedCaseIsAdmitted(inputs, row);
    UnwrapWrapped(rows);
  }

  /** Rows standing one by one for the first required groups. */
  ghost predicate StandsFor(gate: S.Gate, owner: map<string, string>, rows: seq<Row>, groups: seq<string>) {
    |rows| <= |groups| && forall i :: 0 <= i < |rows| ==> S.GroupOf(gate, owner, rows[i]) == Some(groups[i])
  }

  lemma {:induction false} RowsForGroups(inputs: Inputs, row: JsonlRow, n: nat) returns (rows: seq<JsonlRow>)
    requires ReportOf(inputs).passed && ScorableCase(inputs, row) && n <= |RequiredOf(row)|
    requires S.ReadCase(row.value).Success? && S.BuildRegistry(Entries(inputs)).Success?
    requires NoDuplicates(RequiredOf(row))
    ensures |rows| == n && IsRanking(inputs, rows)
    ensures StandsFor(CaseGate(row), S.BuildRegistry(Entries(inputs)).value.owner, Values(rows), RequiredOf(row))
  {
    hide ReportOf, TablesOf, S.ReadCase, S.BuildRegistry, S.GroupOf, EvidenceCase, ForbiddenListsClean, RequiredOf,
         CaseGate, GateAdmits;
    if n == 0 {
      rows := [];
    } else {
      var before := RowsForGroups(inputs, row, n - 1);
      var g := RequiredOf(row)[n - 1];
      CaseGateAdmits(inputs, row, g);
      var corpus := RowForGroup(inputs, g, CaseGate(row));
      rows := before + [corpus];
      forall i | 0 <= i < n - 1
        ensures before[i] != corpus
      {
        assert Values(before)[i] == before[i].value;
        assert RequiredOf(row)[i] != g;
      }
      assert NoDuplicates(rows);
      assert forall i :: 0 <= i < n - 1 ==> Values(rows)[i] == Values(before)[i];
    }
  }

  /** Such rows pass the case: one row for ANY, one row per group for ALL. */
  lemma StandingRowsPass(contract: S.Contract, gate: S.Gate, owner: map<string, string>, rows: seq<Row>, topK: nat)
    requires contract.Valid() && contract.outcome == S.EVIDENCE
    requires StandsFor(gate, owner, rows, contract.required)
    requires 1 <= |rows| <= topK && (contract.policy == S.ALL ==> |rows| == |contract.required|)
    ensures S.ScoreRows(contract, gate, owner, rows, S.Observation(S.PGVECTOR_QUERY, 1), topK).passed
  {
    hide S.RowIsValid, S.CompletionRankOf, S.CountDefects, S.MatchedChildren, S.HitAt, S.RecallAt;
    var byRank := S.MatchedByRank(gate, owner, contract.Required(), rows);
    assert rows[..Min(topK, |rows|)] == rows;
    forall i | 0 <= i < |rows|
      ensures byRank[i] == {contract.required[i]} && S.RowIsValid(gate, rows[i])
    {
      assert S.GroupOf(gate, owner, rows[i]) == Some(contract.required[i]);
    }
    T.EvidencePassIff(contract, gate, owner, rows, S.Observation(S.PGVECTOR_QUERY, 1), topK);
    StandingRowsComplete(contract, byRank);
  }

  lemma StandingRowsComplete(contract: S.Contract, byRank: seq<set<string>>)
    requires contract.Valid() && contract.outcome == S.EVIDENCE
    requires 1 <= |byRank| <= |contract.required|
    requires forall i :: 0 <= i < |byRank| ==> byRank[i] == {contract.required[i]}
    requires contract.policy == S.ALL ==> |byRank| == |contract.required|
    ensures S.CompletionRankOf(byRank, contract.Required(), contract.policy).Some?
  {
    assert byRank[..Min(|byRank|, |byRank|)] == byRank;
    assert contract.required[0] in S.Covered(byRank);
    forall g | contract.policy == S.ALL && g in contract.Required()
      ensures g in S.Covered(byRank)
    {
      var i :| 0 <= i < |contract.required| && contract.required[i] == g;
      assert g in byRank[i];
    }
    assert S.Complete(byRank, contract.Required(), contract.policy, |byRank|);
  }

  /** For a scorable case PASS is reachable exactly when the policy is ANY or the required groups fit into topK. */
  lemma ScorableCaseIsPassable(inputs: Inputs, row: JsonlRow, topK: int)
    requires ReportOf(inputs).passed && ScorableCase(inputs, row) && topK >= 1
    ensures (exists rows :: IsRanking(inputs, rows) && Passes(inputs, row, rows, topK))
       <==> Get(row.value, EvidenceMatchPolicy) == Str("ANY") || |RequiredOf(row)| <= topK
  {
    hide ReportOf, TablesOf, EvidenceCase, ForbiddenListsClean, GroupsRegistered, S.ReadCase, S.BuildRegistry,
         S.ScoreRows, RequiredOf, Passes, CaseGate;
    PassedCaseIsRead(inputs, row);
    PassedRegistry(inputs);
    PolicyIsRead(row);
    var contract := S.ReadCase(row.value).value;
    var owner := S.BuildRegistry(Entries(inputs)).value.owner;
    if contract.policy == S.ANY || |contract.required| <= topK {
      var rows := RowsForGroups(inputs, row, if contract.policy == S.ANY then 1 else |contract.required|);
      StandingRowsPass(contract, CaseGate(row), owner, Values(rows), topK);
      PassesMeaning(inputs, row, rows, topK);
    } else {
      forall rows | Passes(inputs, row, rows, topK)
        ensures false
      {
        PassesMeaning(inputs, row, rows, topK);
        PassedAllFits(contract, CaseGate(row), owner, Values(rows), topK);
      }
    }
  }

  /**
   * An error-free report makes PASS reachable for an active EVIDENCE case exactly when topK is positive, its
   * forbidden lists are clean, its groups are registered, and the policy is ANY or the required groups fit into topK.
   */
  lemma EvidenceCaseIsPassable(inputs: Inputs, row: JsonlRow, topK: int)
    requires ReportOf(inputs).passed && EvidenceCase(inputs, row)
    ensures (exists rows :: IsRanking(inputs, rows) && Passes(inputs, row, rows, topK))
       <==> && topK >= 1 && ForbiddenListsClean(row) && GroupsRegistered(inputs, row)
            && (Get(row.value, EvidenceMatchPolicy) == Str("ANY") || |RequiredOf(row)| <= topK)
  {
    hide ReportOf, TablesOf, EvidenceCase, ForbiddenListsClean, GroupsRegistered, S.ReadCase, S.BuildRegistry,
         S.ScoreRows, S.Admit, RequiredOf, IsRanking;
    AdmittedIffCleanAndRegistered(inputs, row);
    if topK >= 1 && ForbiddenListsClean(row) && GroupsRegistered(inputs, row) {
      ScorableCaseIsPassable(inputs, row, topK);
    } else {
      forall rows
        ensures !Passes(inputs, row, rows, topK)
      {
      }
    }
  }

  lemma PolicyIsRead(row: JsonlRow)
    requires S.ReadCase(row.value).Success?
    ensures S.ReadCase(row.value).value.policy == S.ANY <==> Get(row.value, EvidenceMatchPolicy) == Str("ANY")
  {
    hide S.ReadList, S.ReadOutcome;
    assert "ALL"[1] == 'L' && "NONE"[1] == 'O' && "ANY"[1] == 'N';
  }

  /** A passed ALL case has no more required groups than ranks. */
  lemma PassedAllFits(contract: S.Contract, gate: S.Gate, owner: map<string, string>, rows: seq<Row>, topK: nat)
    requires contract.Valid() && contract.outcome == S.EVIDENCE && contract.policy == S.ALL
    requires S.ScoreRows(contract, gate, owner, rows, S.Observation(S.PGVECTOR_QUERY, 1), topK).passed
    ensures |contract.required| <= topK
  {
    hide S.RowIsValid, S.CountDefects, S.MatchedChildren, S.HitAt, S.RecallAt, S.MatchedByRank;
    T.EvidencePassIff(contract, gate, owner, rows, S.Observation(S.PGVECTOR_QUERY, 1), topK);
    T.AllNeedsOneRankPerGroup(gate, owner, contract, rows[..Min(topK, |rows|)]);
  }
}
