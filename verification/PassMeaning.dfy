/** PASS in full: the relations over the four files that hold exactly when the lineage report is free of errors. */
module PassMeaning {
  import opened Collections
  import opened Json
  import opened Sorting
  import opened Compatibility
  import opened CompatibilityTheorems
  import opened FieldRelations
  import opened CheckMeaning
  import opened CaseMeaning
  import opened GroupMeaning

  // ---------------------------------------------------------------- what the Gold pass records

  /** An active case that expects evidence and lists the group. */
  ghost predicate RefersTo(row: Row, group: string) {
    && Get(row, EvaluationStatus) == Str("ACTIVE") && Get(row, ExpectedRetrievalOutcome) == Str("EVIDENCE")
    && ListsGroup(row, group)
  }

  ghost predicate ListsGroup(row: Row, group: string) {
    Has(row, RequiredEvidenceGroupIds, group) || Has(row, SupportingEvidenceGroupIds, group)
  }

  lemma {:induction false} AddedReferences(refs: References, groups: seq<string>, reference: Reference, g: string,
                                           r: Reference)
    ensures r in ReferencesTo(AddReferences(refs, groups, reference), g)
       <==> r in ReferencesTo(refs, g) || (g in groups && r == reference)
  {
    if groups != [] {
      var rest, last := groups[..|groups| - 1], groups[|groups| - 1];
      AddedReferences(refs, rest, reference, g, r);
      assert groups == rest + [last];
      if g == last {
        assert ReferencesTo(AddReferences(refs, groups, reference), g)
            == ReferencesTo(AddReferences(refs, rest, reference), g) + [reference];
      }
    }
  }

  ghost predicate Records(row: JsonlRow, groups: seq<string>, g: string, r: Reference) {
    IsActive(row) && HasOutcome(row, "EVIDENCE") && g in groups && r == Reference(row, ProductOf(row))
  }

  lemma {:induction false} RecordedReferences(rows: seq<JsonlRow>, g: string, r: Reference)
    ensures r in ReferencesTo(ScanGold(rows).required, g)
       <==> exists row :: row in rows && Records(row, RequiredOf(row), g, r)
    ensures r in ReferencesTo(ScanGold(rows).supporting, g)
       <==> exists row :: row in rows && Records(row, SupportingOf(row), g, r)
  {
    hide ReferencesTo, AddReferences, IsActive, HasOutcome, ListValue, ProductOf, ConditionReferences;
    if rows == [] {
      NothingRecorded(g, r);
    } else {
      var rest, last := rows[..|rows| - 1], rows[|rows| - 1];
      var before := ScanGold(rest);
      RecordedReferences(rest, g, r);
      AddedReferences(before.required, RequiredOf(last), Reference(last, ProductOf(last)), g, r);
      AddedReferences(before.supporting, SupportingOf(last), Reference(last, ProductOf(last)), g, r);
      assert rows == rest + [last];
      assert r in ReferencesTo(ScanGold(rows).required, g)
        <==> r in ReferencesTo(before.required, g) || Records(last, RequiredOf(last), g, r);
      assert r in ReferencesTo(ScanGold(rows).supporting, g)
        <==> r in ReferencesTo(before.supporting, g) || Records(last, SupportingOf(last), g, r);
    }
  }

  lemma NothingRecorded(g: string, r: Reference)
    ensures r !in ReferencesTo(ScanGold([]).required, g) && r !in ReferencesTo(ScanGold([]).supporting, g)
  {
  }

  lemma {:induction false} RecordedConditions(rows: seq<JsonlRow>, r: ConditionReference)
    ensures r in ScanGold(rows).conditions
       <==> exists row :: row in rows && IsActive(row) && r in ConditionReferences(row)
  {
    hide AddReferences, IsActive, HasOutcome, ListValue, ProductOf, ConditionReferences;
    if rows != [] {
      var rest, last := rows[..|rows| - 1], rows[|rows| - 1];
      RecordedConditions(rest, r);
      assert rows == rest + [last];
      assert r in ScanGold(rows).conditions
        <==> r in ScanGold(rest).conditions || (IsActive(last) && r in ConditionReferences(last));
    }
  }

  /** Every case of the Gold file is sound. */
  ghost predicate CasesAreSound(inputs: Inputs) {
    forall row :: row in inputs.gold ==> CaseIsSound(row.value)
  }

  lemma CasesMean(inputs: Inputs)
    ensures FlatMap(CaseErrors, inputs.gold) == [] <==> CasesAreSound(inputs)
  {
    hide CaseErrors, CaseIsSound, FlatMap;
    FlatMapEmptyIff(CaseErrors, inputs.gold);
    forall row
      ensures CaseErrors(row) == [] <==> CaseIsSound(row.value)
    {
      CaseMeans(row);
    }
    assert CasesAreSound(inputs) <==> forall i :: 0 <= i < |inputs.gold| ==> CaseIsSound(inputs.gold[i].value);
  }

  /** In a sound active case the checker's lists are the items of the fields. */
  lemma ActiveLists(row: JsonlRow)
    requires CaseIsSound(row.value) && IsActive(row)
    ensures Get(row.value, ProductModelCode).Str? && Get(row.value, ProductModelCode) != Str("")
    ensures forall g :: g in RequiredOf(row) || g in SupportingOf(row) <==> ListsGroup(row.value, g)
    ensures forall id :: id in ConditionsOf(row) <==> Has(row.value, ConsultationConditionIds, id)
  {
    hide ListValue, Has, DistinctTexts, EvidenceIsSound, AbsenceIsSound;
    ActiveIsNotSkipped(row);
    MemberMeans(Get(row.value, EvaluationStatus), {"EXCLUDED", "REJECTED"});
    DistinctAreTexts(Get(row.value, RequiredEvidenceGroupIds));
    DistinctAreTexts(Get(row.value, SupportingEvidenceGroupIds));
    ListValueMeans(row, RequiredEvidenceGroupIds);
    ListValueMeans(row, SupportingEvidenceGroupIds);
    if ConsultationConditionIds in row.value {
      DistinctAreTexts(Get(row.value, ConsultationConditionIds));
      ListValueMeans(row, ConsultationConditionIds);
    } else {
      NothingListed(row.value, ConsultationConditionIds);
    }
  }

  lemma NothingListed(row: Row, field: Field)
    requires field !in row
    ensures forall text :: !Has(row, field, text)
  {
  }

  ghost function ReferencesIn(inputs: Inputs, g: string): seq<Reference> {
    var gold := ScanGold(inputs.gold);
    ReferencesTo(gold.required, g) + ReferencesTo(gold.supporting, g)
  }

  /** Everything recorded against a group is sound exactly when every case that refers to it fits it. */
  lemma ReferencesMean(inputs: Inputs, group: JsonlRow, g: string)
    requires CasesAreSound(inputs)
    ensures FlatMap((r: Reference) => ReferenceErrors(group, r), ReferencesIn(inputs, g)) == []
       <==> forall row :: row in inputs.gold && RefersTo(row.value, g) ==> ReferenceIsSound(row.value, group.value)
  {
    hide FlatMap, ReferenceErrors, ReferencesTo, ScanGold, ReferenceIsSound, RefersTo, CaseIsSound, ListValue,
         ProductOf;
    var references := ReferencesIn(inputs, g);
    FlatMapEmptyIff((r: Reference) => ReferenceErrors(group, r), references);
    assert (forall i :: 0 <= i < |references| ==> ReferenceErrors(group, references[i]) == [])
      <==> (forall r :: r in references ==> ReferenceErrors(group, r) == []);
    if forall r :: r in references ==> ReferenceErrors(group, r) == [] {
      forall row | row in inputs.gold && RefersTo(row.value, g)
        ensures ReferenceIsSound(row.value, group.value)
      {
        var r := Reference(row, ProductOf(row));
        ReferringIsRecorded(inputs, row, g);
        assert r in references;
        ReferenceMeans(group, row);
      }
    }
    if forall row :: row in inputs.gold && RefersTo(row.value, g) ==> ReferenceIsSound(row.value, group.value) {
      forall r | r in references
        ensures ReferenceErrors(group, r) == []
      {
        var row := RecordedIsReferring(inputs, r, g);
        ReferenceMeans(group, row);
      }
    }
  }

  lemma ReferringIsRecorded(inputs: Inputs, row: JsonlRow, g: string)
    requires CasesAreSound(inputs) && row in inputs.gold && RefersTo(row.value, g)
    ensures Get(row.value, ProductModelCode).Str? && Get(row.value, ProductModelCode) != Str("")
    ensures var gold, r := ScanGold(inputs.gold), Reference(row, ProductOf(row));
            r in ReferencesTo(gold.required, g) || r in ReferencesTo(gold.supporting, g)
  {
    hide ReferencesTo, ScanGold, CaseIsSound, ListValue, ProductOf, ListsGroup;
    var r := Reference(row, ProductOf(row));
    ActiveLists(row);
    RecordedReferences(inputs.gold, g, r);
    assert Records(row, RequiredOf(row), g, r) || Records(row, SupportingOf(row), g, r);
  }

  lemma RecordedIsReferring(inputs: Inputs, r: Reference, g: string) returns (row: JsonlRow)
    requires CasesAreSound(inputs)
    requires var gold := ScanGold(inputs.gold); r in ReferencesTo(gold.required, g) || r in ReferencesTo(gold.supporting, g)
    ensures row in inputs.gold && RefersTo(row.value, g) && r == Reference(row, ProductOf(row))
    ensures Get(row.value, ProductModelCode).Str? && Get(row.value, ProductModelCode) != Str("")
  {
    hide ReferencesTo, ScanGold, CaseIsSound, ListValue, ProductOf, ListsGroup;
    RecordedReferences(inputs.gold, g, r);
    row :| row in inputs.gold && (Records(row, RequiredOf(row), g, r) || Records(row, SupportingOf(row), g, r));
    ActiveLists(row);
  }

  /** Each condition id of an active case is owned by a group the case lists. */
  lemma ConditionReferencesMean(inputs: Inputs, owners: Owners)
    requires CasesAreSound(inputs)
    ensures ConditionReferencesErrors(owners, ScanGold(inputs.gold).conditions) == [] <==>
            forall row, id :: row in inputs.gold && IsActive(row) && Has(row.value, ConsultationConditionIds, id) ==>
              id in owners && ListsGroup(row.value, owners[id])
  {
    hide FlatMap, ScanGold, IsActive, Has, CaseIsSound, ListsGroup, ConditionReferences, ConditionsOf;
    var references := ScanGold(inputs.gold).conditions;
    FlatMapEmptyIff((r: ConditionReference) => ConditionReferenceErrors(owners, r), references);
    assert ConditionReferencesErrors(owners, references) == []
      <==> (forall r :: r in references ==> ConditionReferenceErrors(owners, r) == []);
    if ConditionReferencesErrors(owners, references) == [] {
      forall row, id | row in inputs.gold && IsActive(row) && Has(row.value, ConsultationConditionIds, id)
        ensures id in owners && ListsGroup(row.value, owners[id])
      {
        ActiveLists(row);
        var r := ConditionOfCase(row, id);
        RecordedConditions(inputs.gold, r);
        assert ConditionReferenceErrors(owners, r) == [];
      }
    }
    if forall row, id :: row in inputs.gold && IsActive(row) && Has(row.value, ConsultationConditionIds, id) ==>
         id in owners && ListsGroup(row.value, owners[id]) {
      forall r | r in references
        ensures ConditionReferenceErrors(owners, r) == []
      {
        RecordedConditions(inputs.gold, r);
        var row :| row in inputs.gold && IsActive(row) && r in ConditionReferences(row);
        ActiveLists(row);
        CaseOfCondition(row, r);
      }
    }
  }

  lemma ConditionOfCase(row: JsonlRow, id: string) returns (r: ConditionReference)
    requires id in ConditionsOf(row)
    ensures r in ConditionReferences(row) && r.condition == id
    ensures forall g :: g in r.groups <==> g in RequiredOf(row) || g in SupportingOf(row)
  {
    hide ListValue;
    var i :| 0 <= i < |ConditionsOf(row)| && ConditionsOf(row)[i] == id;
    r := ConditionReferences(row)[i];
    assert r == ConditionReference(row, ToSet(RequiredOf(row)) + ToSet(SupportingOf(row)), id);
  }

  lemma CaseOfCondition(row: JsonlRow, r: ConditionReference)
    requires r in ConditionReferences(row)
    ensures r.condition in ConditionsOf(row)
    ensures forall g :: g in r.groups <==> g in RequiredOf(row) || g in SupportingOf(row)
  {
    hide ListValue;
    var i :| 0 <= i < |ConditionReferences(row)| && ConditionReferences(row)[i] == r;
    assert r == ConditionReference(row, ToSet(RequiredOf(row)) + ToSet(SupportingOf(row)), ConditionsOf(row)[i]);
  }

  // ---------------------------------------------------------------- the pass over the groups

  /** A group that raises nothing, conditions of other groups aside. */
  ghost predicate GroupIsClean(t: Tables, view: View) {
    && ErrorsBeforeConditions(t, view) == [] && ErrorsAfterConditions(t, view) == []
    && (forall entry :: entry in ConditionList(view.group) ==> EntryIsClean(view, entry))
    && ConditionsDiffer(ConditionList(view.group))
  }

  /** The condition is in the list of group `g`. */
  ghost predicate Holds(t: Tables, g: string, id: string) {
    g in t.groups && NamesCondition(ConditionList(t.groups[g]), id)
  }

  /** The owners after scanning `order`: each condition met belongs to a group that holds it. */
  ghost predicate OwnsWhatItMet(t: Tables, order: seq<string>, owners: Owners) {
    && (forall id :: id in owners ==> owners[id] in order && Holds(t, owners[id], id))
    && (forall id, g :: g in order && Holds(t, g, id) ==> id in owners)
  }

  lemma OwnersStep(t: Tables, rest: seq<string>, g: string, owners: Owners)
    requires g in t.groups && OwnsWhatItMet(t, rest, owners)
    ensures OwnsWhatItMet(t, rest + [g], ScanConditions(t.ViewOf(g), owners, ConditionList(t.groups[g])).owners)
  {
    hide ScanConditions, ConditionList, NamesCondition;
    ScannedIds(t.ViewOf(g), owners, ConditionList(t.groups[g]));
  }

  lemma {:induction false} OwnersMean(t: Tables, order: seq<string>)
    requires forall n :: 0 <= n < |order| ==> order[n] in t.groups
    ensures OwnsWhatItMet(t, order, ScanGroups(t, order).owners)
  {
    hide ErrorsBeforeConditions, ErrorsAfterConditions, OwnsWhatItMet;
    if order == [] {
      NothingMet(t);
    } else {
      var rest, last := order[..|order| - 1], order[|order| - 1];
      OwnersMean(t, rest);
      OwnersStep(t, rest, last, ScanGroups(t, rest).owners);
      assert order == rest + [last];
    }
  }

  lemma NothingMet(t: Tables)
    ensures OwnsWhatItMet(t, [], map[])
  {
  }

  /** No condition is held by two of the groups. */
  ghost predicate HeldOnce(t: Tables, groups: seq<string>) {
    forall g, h, id :: g in groups && h in groups && Holds(t, g, id) && Holds(t, h, id) ==> g == h
  }

  /** The pass raises nothing exactly when every group is clean and no condition is held twice. */
  lemma {:induction false} GroupScanMeans(t: Tables, order: seq<string>)
    requires NoDuplicates(order) && forall n :: 0 <= n < |order| ==> order[n] in t.groups
    ensures ScanGroups(t, order).errors == []
       <==> (forall g :: g in order ==> g in t.groups && GroupIsClean(t, t.ViewOf(g))) && HeldOnce(t, order)
  {
    hide ErrorsBeforeConditions, ErrorsAfterConditions, ScanConditions, EntryIsClean, ConditionsDiffer, ConditionList;
    if order != [] {
      var rest, last := order[..|order| - 1], order[|order| - 1];
      GroupScanMeans(t, rest);
      OwnersMean(t, rest);
      var owners := ScanGroups(t, rest).owners;
      ConditionScanMeans(t.ViewOf(last), owners, ConditionList(t.groups[last]));
      assert order == rest + [last];
      HeldOnceStep(t, rest, last, owners);
      hide HeldOnce, OwnsWhatItMet, NoDuplicates, NamesCondition;
      assert ScanGroups(t, order).errors == [] <==>
        && ScanGroups(t, rest).errors == []
        && GroupIsClean(t, t.ViewOf(last))
        && (forall id :: NamesCondition(ConditionList(t.groups[last]), id) ==> id !in owners);
    }
  }

  lemma HeldOnceStep(t: Tables, rest: seq<string>, last: string, owners: Owners)
    requires OwnsWhatItMet(t, rest, owners) && last in t.groups && NoDuplicates(rest + [last])
    ensures HeldOnce(t, rest + [last]) <==>
            HeldOnce(t, rest) && forall id :: NamesCondition(ConditionList(t.groups[last]), id) ==> id !in owners
  {
    hide ConditionList, NamesCondition;
    var order := rest + [last];
    forall g | g in rest
      ensures g != last
    {
      var n :| 0 <= n < |rest| && rest[n] == g;
      assert order[n] == g && order[|rest|] == last;
    }
    if HeldOnce(t, order) {
      forall id | NamesCondition(ConditionList(t.groups[last]), id)
        ensures id !in owners
      {
        assert Holds(t, last, id) && last in order;
        assert forall g :: g in rest ==> g in order && !Holds(t, g, id);
      }
    }
  }

  /** The same over the registry: all groups, whatever the order of the pass. */
  lemma RegistryScanMeans(inputs: Inputs)
    ensures var t := TablesOf(inputs);
            GroupScanOf(inputs).errors == [] <==>
              && (forall g :: g in t.groups ==> GroupIsClean(t, t.ViewOf(g)))
              && (forall g, h, id :: Holds(t, g, id) && Holds(t, h, id) ==> g == h)
  {
    hide TablesOf, SortedKeys, ScanGroups, GroupIsClean, ConditionList, NamesCondition;
    var t := TablesOf(inputs);
    var order := SortedKeys(t.groups.Keys);
    SortedKeysAreKeys(t.groups.Keys);
    GroupScanMeans(t, order);
    assert forall g :: g in order <==> g in t.groups;
  }

  /** Each condition held somewhere is owned by a group that holds it. */
  lemma RegistryOwnersMean(inputs: Inputs)
    ensures var t, owners := TablesOf(inputs), GroupScanOf(inputs).owners;
            && (forall id :: id in owners ==> Holds(t, owners[id], id))
            && (forall id, g :: Holds(t, g, id) ==> id in owners)
  {
    hide TablesOf, SortedKeys, ScanGroups, GroupIsClean, ConditionList, NamesCondition;
    var t := TablesOf(inputs);
    var order := SortedKeys(t.groups.Keys);
    SortedKeysAreKeys(t.groups.Keys);
    OwnersMean(t, order);
    assert forall g :: g in order <==> g in t.groups;
  }

  // ---------------------------------------------------------------- one group, over the files

  ghost predicate FilesAreKeyed(inputs: Inputs) {
    && Keyed(inputs.gold, CaseId) && Keyed(inputs.groups, EvidenceGroupId) && Keyed(inputs.children, ChildId)
    && Keyed(inputs.corpus, ChunkId) && Keyed(inputs.corpus, SourceRecordId)
  }

  ghost predicate DeclaresChild(group: Row, child: Row) {
    exists c :: Get(child, ChildId) == Str(c) && Has(group, ChildIds, c)
  }

  /** The cases that refer to it fit it, its lists and conditions are sound, its children are found and are all that name it. */
  ghost predicate GroupIsSound(inputs: Inputs, id: string, group: Row) {
    && (forall row :: row in inputs.gold && RefersTo(row.value, id) ==> ReferenceIsSound(row.value, group))
    && GroupListsAreSound(group)
    && (ConsultationConditions in group ==> group[ConsultationConditions].Arr?)
    && (forall entry :: entry in EntriesOf(group) ==> ConditionIsSound(inputs.children, group, entry))
    && ConditionsDiffer(EntriesOf(group))
    && (forall c :: Has(group, ChildIds, c) ==> exists child :: IsDeclaredChild(inputs.children, id, group, c, child))
    && VariantsAreCovered(inputs.children, group)
    && (forall child :: child in inputs.children && Get(child.value, EvidenceGroupId) == Str(id) ==> DeclaresChild(group, child.value))
  }

  /** A child row and a corpus row of that id, in every relation a corpus row owes its child. */
  ghost predicate AreLinked(inputs: Inputs, id: string, c: string, child: JsonlRow, corpus: JsonlRow) {
    && child in inputs.children && Get(child.value, ChildId) == Str(c)
    && corpus in inputs.corpus && Get(corpus.value, SourceRecordId) == Str(c)
    && forall code :: CorpusRelation(corpus.value, child.value, id, code)
  }

  ghost predicate ChildrenAreLinked(inputs: Inputs, id: string, group: Row) {
    forall c :: Has(group, ChildIds, c) ==> exists child, corpus :: AreLinked(inputs, id, c, child, corpus)
  }

  lemma EntriesMean(group: JsonlRow)
    ensures EntriesOf(group.value) == ConditionList(group)
    ensures ConditionListErrors(group) == []
       <==> (ConsultationConditions in group.value ==> group.value[ConsultationConditions].Arr?)
  {
  }

  lemma BeforeMeans(inputs: Inputs, view: View)
    requires CasesAreSound(inputs)
    ensures ErrorsBeforeConditions(TablesOf(inputs), view) == [] <==>
            && (forall row :: row in inputs.gold && RefersTo(row.value, view.id) ==> ReferenceIsSound(row.value, view.group.value))
            && GroupListsAreSound(view.group.value)
            && (ConsultationConditions in view.group.value ==> view.group.value[ConsultationConditions].Arr?)
  {
    ReferencesMean(inputs, view.group, view.id);
    GroupListsMean(view.group);
    EntriesMean(view.group);
    hide FlatMap, GroupListErrors, ConditionListErrors, ReferencesTo, ScanGold, RefersTo, ReferenceIsSound, ReferenceErrors,
         GroupListsAreSound, IndexRows, CasesAreSound;
    assert ErrorsBeforeConditions(TablesOf(inputs), view)
        == FlatMap((r: Reference) => ReferenceErrors(view.group, r), ReferencesIn(inputs, view.id))
           + GroupListErrors(view.group) + ConditionListErrors(view.group);
  }

  lemma UndeclaredMeans(inputs: Inputs, view: View, child: JsonlRow)
    requires TextItems(Get(view.group.value, ChildIds))
    ensures UndeclaredErrors(view, child) == []
       <==> (Get(child.value, EvidenceGroupId) == Str(view.id) ==> DeclaresChild(view.group.value, child.value))
  {
    hide Has, ListValue, TextItems;
    ListValueMeans(view.group, ChildIds);
  }

  lemma AllUndeclaredMean(inputs: Inputs, view: View)
    requires TextItems(Get(view.group.value, ChildIds))
    ensures FlatMap((c: JsonlRow) => UndeclaredErrors(view, c), TablesOf(inputs).childRows) == [] <==>
            forall child :: child in inputs.children && Get(child.value, EvidenceGroupId) == Str(view.id) ==>
              DeclaresChild(view.group.value, child.value)
  {
    hide UndeclaredErrors, TextItems, FlatMap, TablesOf, DeclaresChild, Get;
    TablesHoldChildren(inputs);
    var rows := inputs.children;
    FlatMapEmptyIff((c: JsonlRow) => UndeclaredErrors(view, c), rows);
    assert (forall i :: 0 <= i < |rows| ==> UndeclaredErrors(view, rows[i]) == [])
      <==> (forall child :: child in rows ==> UndeclaredErrors(view, child) == []);
    forall child
      ensures UndeclaredErrors(view, child) == []
         <==> (Get(child.value, EvidenceGroupId) == Str(view.id) ==> DeclaresChild(view.group.value, child.value))
    {
      UndeclaredMeans(inputs, view, child);
    }
  }

  lemma AfterMeans(inputs: Inputs, view: View)
    requires Keyed(inputs.children, ChildId) && view.children == TablesOf(inputs).children
    requires GroupListsAreSound(view.group.value)
    ensures ErrorsAfterConditions(TablesOf(inputs), view) == [] <==>
            && (forall c :: Has(view.group.value, ChildIds, c) ==>
                  exists child :: IsDeclaredChild(inputs.children, view.id, view.group.value, c, child))
            && VariantsAreCovered(inputs.children, view.group.value)
            && (forall child :: child in inputs.children && Get(child.value, EvidenceGroupId) == Str(view.id) ==>
                  DeclaresChild(view.group.value, child.value))
  {
    hide FlatMap, TablesOf, Keyed, DistinctTexts, DeclaredChildErrors, CoverageErrors, UndeclaredErrors, ListValue, Has, Get,
         IsDeclaredChild, VariantsAreCovered, DeclaresChild;
    DistinctAreTexts(Get(view.group.value, ChildIds));
    AllDeclaredMean(inputs, view);
    AllUndeclaredMean(inputs, view);
    if forall c :: Has(view.group.value, ChildIds, c) ==>
         exists child :: IsDeclaredChild(inputs.children, view.id, view.group.value, c, child) {
      CoverageMeans(inputs, view);
    }
  }

  lemma GroupMeans(inputs: Inputs, g: string)
    requires Keyed(inputs.children, ChildId) && CasesAreSound(inputs) && g in TablesOf(inputs).groups
    ensures GroupIsClean(TablesOf(inputs), TablesOf(inputs).ViewOf(g))
       <==> GroupIsSound(inputs, g, TablesOf(inputs).groups[g].value)
  {
    hide TablesOf, Keyed, CasesAreSound, ErrorsBeforeConditions, ErrorsAfterConditions, EntryIsClean, ConditionIsSound,
         ConditionList, EntriesOf, Has, Get, IsDeclaredChild, VariantsAreCovered, DeclaresChild, RefersTo, ReferenceIsSound,
         ConditionsDiffer, DistinctTexts;
    var t := TablesOf(inputs);
    var view := t.ViewOf(g);
    BeforeMeans(inputs, view);
    EntriesMean(view.group);
    if GroupListsAreSound(view.group.value) {
      AfterMeans(inputs, view);
      DistinctAreTexts(Get(view.group.value, ChildIds));
      forall entry
        ensures EntryIsClean(view, entry) <==> ConditionIsSound(inputs.children, view.group.value, entry)
      {
        EntryMeans(inputs, view, entry);
      }
    }
    hide GroupListsAreSound;
  }

  // ---------------------------------------------------------------- the corpus links

  lemma LinkMeans(inputs: Inputs, view: View, c: string)
    requires Keyed(inputs.children, ChildId) && Keyed(inputs.corpus, SourceRecordId)
    requires c in TablesOf(inputs).children
    ensures LinkErrors(TablesOf(inputs), view, TablesOf(inputs).children[c]) == []
       <==> exists child, corpus :: AreLinked(inputs, view.id, c, child, corpus)
  {
    hide Keyed, CorpusErrors, CorpusRelation, IndexRows, ScanGold, Get;
    var t := TablesOf(inputs);
    var child := t.children[c];
    IndexFindsRows(CHILD_RULE, inputs.children);
    IndexFindsRows(RECORD_RULE, inputs.corpus);
    if HasCorpus(t, child) {
      CorpusMatchMeans(CorpusOf(t, child), child, view.group, view.id);
      assert LinkErrors(t, view, child) == [] ==> AreLinked(inputs, view.id, c, child, CorpusOf(t, child));
    }
    forall found, corpus | AreLinked(inputs, view.id, c, found, corpus)
      ensures LinkErrors(t, view, child) == []
    {
      assert found == child && t.corpus[c] == corpus;
    }
  }

  /** The linked child also matches the group's product, so it counts as a candidate. */
  lemma LinkedIsCounted(inputs: Inputs, view: View, c: string)
    requires Keyed(inputs.children, ChildId) && view.children == TablesOf(inputs).children && c in view.children
    requires exists child :: IsDeclaredChild(inputs.children, view.id, view.group.value, c, child)
    requires LinkErrors(TablesOf(inputs), view, view.children[c]) == []
    ensures IsLinked(TablesOf(inputs), view, view.children[c])
  {
    hide Keyed, CorpusErrors, CorpusMatches, CorpusRelation, ChildRelation, IndexRows, ScanGold, Get;
    var t := TablesOf(inputs);
    var row := view.children[c];
    var child :| IsDeclaredChild(inputs.children, view.id, view.group.value, c, child);
    IndexFindsRows(CHILD_RULE, inputs.children);
    assert child == row;
    var corpus := CorpusOf(t, row);
    CorpusMatchMeans(corpus, row, view.group, view.id);
    ProductsAgree(corpus.value, row.value, view.group.value, view.id);
  }

  lemma ProductsAgree(corpus: Row, child: Row, group: Row, id: string)
    requires CorpusRelation(corpus, child, id, CORPUS_PRODUCT_LINEAGE_MISMATCH)
    requires ChildRelation(group, child, id, CHILD_PRODUCT_LINEAGE_MISMATCH)
    ensures Get(corpus, ExactSalesCode) == Get(group, ExactSalesCode)
  {
    hide Get;
  }

  lemma DeclaredAreIndexed(inputs: Inputs, view: View)
    requires Keyed(inputs.children, ChildId) && view.children == TablesOf(inputs).children
    requires TextItems(Get(view.group.value, ChildIds))
    requires forall c :: Has(view.group.value, ChildIds, c) ==>
               exists child :: IsDeclaredChild(inputs.children, view.id, view.group.value, c, child)
    ensures forall c :: c in view.ChildIdList() <==> Has(view.group.value, ChildIds, c)
    ensures forall c :: c in view.ChildIdList() ==> c in view.children
  {
    hide Keyed, TextItems, Has, ListValue, TablesOf, IsDeclaredChild, Get;
    ListValueMeans(view.group, ChildIds);
    forall c | c in view.ChildIdList()
      ensures c in view.children
    {
      assert Has(view.group.value, ChildIds, c);
      DeclaredHasVariant(inputs, view, c);
    }
  }

  lemma GroupLinksMean(inputs: Inputs, view: View)
    requires Keyed(inputs.children, ChildId) && Keyed(inputs.corpus, SourceRecordId)
    requires view.children == TablesOf(inputs).children && TextItems(Get(view.group.value, ChildIds))
    requires forall c :: Has(view.group.value, ChildIds, c) ==>
               exists child :: IsDeclaredChild(inputs.children, view.id, view.group.value, c, child)
    ensures GroupLinkErrors(TablesOf(inputs), view) == [] <==> ChildrenAreLinked(inputs, view.id, view.group.value)
  {
    hide Keyed, TextItems, Has, ListValue, TablesOf, IsDeclaredChild, Get, LinkErrors, FlatMap, DeclaredChildren,
         AreLinked;
    var t, ids := TablesOf(inputs), view.ChildIdList();
    DeclaredAreIndexed(inputs, view);
    DeclaredInOrder(view);
    FlatMapEmptyIff((r: JsonlRow) => LinkErrors(t, view, r), DeclaredChildren(view));
    assert GroupLinkErrors(t, view) == []
       <==> forall i :: 0 <= i < |ids| ==> LinkErrors(t, view, view.children[ids[i]]) == [];
    assert GroupLinkErrors(t, view) == [] <==> forall c :: c in ids ==> LinkErrors(t, view, view.children[c]) == [];
    forall c | c in ids
      ensures LinkErrors(t, view, view.children[c]) == []
         <==> exists child, corpus :: AreLinked(inputs, view.id, c, child, corpus)
    {
      LinkMeans(inputs, view, c);
    }
  }

  /** A sound group without link errors has a candidate. */
  lemma SoundGroupIsCandidate(inputs: Inputs, view: View)
    requires Keyed(inputs.children, ChildId) && view.children == TablesOf(inputs).children
    requires TextItems(Get(view.group.value, ChildIds)) && Get(view.group.value, ChildIds).items != []
    requires forall c :: Has(view.group.value, ChildIds, c) ==>
               exists child :: IsDeclaredChild(inputs.children, view.id, view.group.value, c, child)
    requires GroupLinkErrors(TablesOf(inputs), view) == []
    ensures LinkedCount(TablesOf(inputs), view) > 0
  {
    hide Keyed, TextItems, Has, ListValue, TablesOf, IsDeclaredChild, Get, LinkErrors, FlatMap, DeclaredChildren,
         Count, IsLinked;
    var t, ids := TablesOf(inputs), view.ChildIdList();
    ListValueMeans(view.group, ChildIds);
    DeclaredAreIndexed(inputs, view);
    DeclaredInOrder(view);
    FlatMapEmptyIff((r: JsonlRow) => LinkErrors(t, view, r), DeclaredChildren(view));
    assert ids[0] in ids && Has(view.group.value, ChildIds, ids[0]);
    assert LinkErrors(t, view, DeclaredChildren(view)[0]) == [];
    LinkedIsCounted(inputs, view, ids[0]);
    CountZeroIffNone((c: JsonlRow) => IsLinked(t, view, c), DeclaredChildren(view));
  }

  lemma {:induction false} LinkScanMeans(t: Tables, order: seq<string>)
    requires forall n :: 0 <= n < |order| ==> order[n] in t.groups
    ensures ScanLinks(t, order).errors == []
       <==> forall g :: g in order ==> g in t.groups && GroupLinkErrors(t, t.ViewOf(g)) == []
    ensures forall g :: g in ScanLinks(t, order).candidates
                   <==> g in order && g in t.groups && LinkedCount(t, t.ViewOf(g)) > 0
  {
    hide GroupLinkErrors, LinkedCount;
    if order != [] {
      var rest, last := order[..|order| - 1], order[|order| - 1];
      LinkScanMeans(t, rest);
      assert order == rest + [last];
    }
  }

  lemma RegistryLinksMean(inputs: Inputs)
    ensures var t := TablesOf(inputs);
            && (LinkScanOf(inputs).errors == [] <==> forall g :: g in t.groups ==> GroupLinkErrors(t, t.ViewOf(g)) == [])
            && (forall g :: g in LinkScanOf(inputs).candidates <==> g in t.groups && LinkedCount(t, t.ViewOf(g)) > 0)
  {
    hide TablesOf, SortedKeys, ScanLinks, GroupLinkErrors, LinkedCount;
    var t := TablesOf(inputs);
    SortedKeysAreKeys(t.groups.Keys);
    LinkScanMeans(t, SortedKeys(t.groups.Keys));
    assert forall g :: g in SortedKeys(t.groups.Keys) <==> g in t.groups;
  }

  /** When every registered group has a candidate, no referenced group is reported for lack of one. */
  lemma NoneMissing(inputs: Inputs, references: References, code: Code)
    requires forall g :: g in TablesOf(inputs).groups ==> g in LinkScanOf(inputs).candidates
    ensures ReferencedErrors(inputs, references, code) == []
  {
    hide TablesOf, LinkScanOf, SortedKeys, FlatMap;
    FlatMapEmptyIff((g: string) => MissingCandidate(TablesOf(inputs), LinkScanOf(inputs).candidates, code, g),
                    SortedKeys(references.Keys));
  }

  // ---------------------------------------------------------------- rows that look back at the registry

  ghost predicate IsGroup(inputs: Inputs, group: JsonlRow, id: string) {
    group in inputs.groups && Get(group.value, EvidenceGroupId) == Str(id)
  }

  lemma GroupRows(inputs: Inputs, id: string)
    requires Keyed(inputs.groups, EvidenceGroupId)
    ensures var groups := TablesOf(inputs).groups;
            && (id in groups ==> IsGroup(inputs, groups[id], id))
            && forall group :: IsGroup(inputs, group, id) ==> id in groups && groups[id] == group
  {
    hide IndexRows, Keyed, ScanGold;
    IndexFindsRow(GROUP_RULE, inputs.groups, id);
    forall group | IsGroup(inputs, group, id)
      ensures id in TablesOf(inputs).groups && TablesOf(inputs).groups[id] == group
    {
      IndexFindsRows(GROUP_RULE, inputs.groups);
    }
  }

  /** The child names a group of the registry. */
  ghost predicate HasGroup(inputs: Inputs, child: Row) {
    exists group, id :: IsGroup(inputs, group, id) && Get(child, EvidenceGroupId) == Str(id)
  }

  lemma OrphansMean(inputs: Inputs)
    requires Keyed(inputs.groups, EvidenceGroupId)
    ensures OrphansErrors(TablesOf(inputs), inputs.children) == []
       <==> forall child :: child in inputs.children ==> HasGroup(inputs, child.value)
  {
    hide TablesOf, Keyed, FlatMap, HasGroup, Get, OrphanErrors;
    var t, rows := TablesOf(inputs), inputs.children;
    FlatMapEmptyIff((c: JsonlRow) => OrphanErrors(t, c), rows);
    assert OrphansErrors(t, rows) == [] <==> forall i :: 0 <= i < |rows| ==> OrphanErrors(t, rows[i]) == [];
    assert OrphansErrors(t, rows) == [] <==> forall child :: child in rows ==> OrphanErrors(t, child) == [];
    forall child
      ensures OrphanErrors(t, child) == [] <==> HasGroup(inputs, child.value)
    {
      OrphanMeans(inputs, child);
    }
  }

  lemma OrphanMeans(inputs: Inputs, child: JsonlRow)
    requires Keyed(inputs.groups, EvidenceGroupId)
    ensures OrphanErrors(TablesOf(inputs), child) == [] <==> HasGroup(inputs, child.value)
  {
    hide TablesOf, Keyed, Get, IsGroup;
    var name := Get(child.value, EvidenceGroupId);
    if name.Str? {
      GroupRows(inputs, name.s);
    }
  }

  /** The row's record is a child row of that group. */
  ghost predicate StandsForChildOf(inputs: Inputs, row: Row, id: string) {
    exists child, c :: child in inputs.children && Get(child.value, ChildId) == Str(c) == Get(row, SourceRecordId)
                       && Get(child.value, EvidenceGroupId) == Str(id)
  }

  lemma AttachmentMeans(inputs: Inputs, row: JsonlRow, id: string)
    requires Keyed(inputs.children, ChildId)
    ensures AttachmentOk(TablesOf(inputs), row, id) <==> StandsForChildOf(inputs, row.value, id)
  {
    hide IndexRows, Keyed, ScanGold, Get;
    IndexFindsRows(CHILD_RULE, inputs.children);
  }

  lemma RowAttachmentsMean(inputs: Inputs, row: JsonlRow)
    requires Keyed(inputs.groups, EvidenceGroupId) && Keyed(inputs.children, ChildId)
    ensures AttachmentErrors(TablesOf(inputs), row) == [] <==>
            forall group, id :: IsGroup(inputs, group, id) && NamesGroup(row.value, id) ==> StandsForChildOf(inputs, row.value, id)
  {
    hide TablesOf, Keyed, FlatMap, AttachmentOk, SortedKeys, GroupIdsAttached, NamesGroup, StandsForChildOf, IsGroup;
    var t := TablesOf(inputs);
    var order := SortedKeys(Attached(t, row));
    FlatMapEmptyIff((g: string) => If(!AttachmentOk(t, row, g), CORPUS_GROUP_ATTACHED_TO_UNREGISTERED_CHILD, CORPUS, row), order);
    SortedKeysAreKeys(Attached(t, row));
    assert AttachmentErrors(t, row) == [] <==> forall i :: 0 <= i < |order| ==> AttachmentOk(t, row, order[i]);
    assert AttachmentErrors(t, row) == [] <==> forall g :: g in order ==> AttachmentOk(t, row, g);
    forall id
      ensures id in order <==> NamesGroup(row.value, id) && exists group :: IsGroup(inputs, group, id)
      ensures AttachmentOk(t, row, id) <==> StandsForChildOf(inputs, row.value, id)
    {
      AttachedMeans(row.value, id);
      GroupRows(inputs, id);
      AttachmentMeans(inputs, row, id);
    }
  }

  // ---------------------------------------------------------------- the whole report

  /** The condition is in the list of the group of that id. */
  ghost predicate IsHeld(inputs: Inputs, id: string, condition: string) {
    exists group :: IsGroup(inputs, group, id) && NamesCondition(EntriesOf(group.value), condition)
  }

  ghost predicate SchemaAccepts(inputs: Inputs) {
    inputs.schema.Some? && forall group :: group in inputs.groups ==> inputs.schema.value(group.value)
  }

  /** Every active case that names a condition lists a group that holds it. */
  ghost predicate ConditionsAreReferenced(inputs: Inputs) {
    forall row, condition ::
      row in inputs.gold && IsActive(row) && Has(row.value, ConsultationConditionIds, condition) ==>
        exists id :: IsHeld(inputs, id, condition) && ListsGroup(row.value, id)
  }

  ghost predicate GroupsAreSound(inputs: Inputs) {
    forall group, id :: IsGroup(inputs, group, id) ==> GroupIsSound(inputs, id, group.value)
  }

  ghost predicate GroupsAreLinked(inputs: Inputs) {
    forall group, id :: IsGroup(inputs, group, id) ==> ChildrenAreLinked(inputs, id, group.value)
  }

  ghost predicate ConditionsAreHeldOnce(inputs: Inputs) {
    forall g, h, condition :: IsHeld(inputs, g, condition) && IsHeld(inputs, h, condition) ==> g == h
  }

  /** A corpus row that names a registered group is the record of one of its children. */
  ghost predicate AttachmentsAreOwned(inputs: Inputs) {
    forall row, group, id ::
      row in inputs.corpus && IsGroup(inputs, group, id) && NamesGroup(row.value, id) ==> StandsForChildOf(inputs, row.value, id)
  }

  /** The four files agree: everything the report checks, on the fields of the rows. */
  ghost predicate Consistent(inputs: Inputs) {
    && inputs.loaderErrors == [] && SchemaAccepts(inputs) && FilesAreKeyed(inputs)
    && CasesAreSound(inputs) && GroupsAreSound(inputs) && ConditionsAreHeldOnce(inputs)
    && (forall child :: child in inputs.children ==> HasGroup(inputs, child.value))
    && ConditionsAreReferenced(inputs) && AttachmentsAreOwned(inputs) && GroupsAreLinked(inputs)
  }

  lemma IndexErrorsMean(inputs: Inputs)
    ensures IndexErrors(inputs) == [] <==> inputs.loaderErrors == [] && SchemaAccepts(inputs) && FilesAreKeyed(inputs)
  {
    IndexMeaning(GOLD_RULE, inputs.gold);
    IndexMeaning(GROUP_RULE, inputs.groups);
    IndexMeaning(CHILD_RULE, inputs.children);
    IndexMeaning(CHUNK_RULE, inputs.corpus);
    IndexMeaning(RECORD_RULE, inputs.corpus);
    SchemaErrorsMean(inputs);
    hide IndexRows, Keyed, SchemaErrors, SchemaAccepts;
  }

  lemma SchemaErrorsMean(inputs: Inputs)
    ensures SchemaErrors(inputs) == [] <==> SchemaAccepts(inputs)
  {
    hide FlatMap;
    if inputs.schema.Some? {
      FlatMapEmptyIff((g: JsonlRow) => If(!inputs.schema.value(g.value), GROUP_SCHEMA_VALIDATION_ERROR, GROUPS, g),
                      inputs.groups);
      assert SchemaErrors(inputs) == []
        <==> forall i :: 0 <= i < |inputs.groups| ==> inputs.schema.value(inputs.groups[i].value);
    }
  }

  lemma AttachmentsMean(inputs: Inputs)
    requires Keyed(inputs.groups, EvidenceGroupId) && Keyed(inputs.children, ChildId)
    ensures AttachmentsErrors(TablesOf(inputs), inputs.corpus) == [] <==> AttachmentsAreOwned(inputs)
  {
    hide TablesOf, Keyed, FlatMap, AttachmentErrors, NamesGroup, StandsForChildOf, IsGroup;
    var t, rows := TablesOf(inputs), inputs.corpus;
    FlatMapEmptyIff((c: JsonlRow) => AttachmentErrors(t, c), rows);
    assert AttachmentsErrors(t, rows) == [] <==> forall i :: 0 <= i < |rows| ==> AttachmentErrors(t, rows[i]) == [];
    assert AttachmentsErrors(t, rows) == [] <==> forall row :: row in rows ==> AttachmentErrors(t, row) == [];
    forall row
      ensures AttachmentErrors(t, row) == [] <==>
              forall group, id :: IsGroup(inputs, group, id) && NamesGroup(row.value, id) ==> StandsForChildOf(inputs, row.value, id)
    {
      RowAttachmentsMean(inputs, row);
    }
  }

  lemma HoldsMean(inputs: Inputs, id: string, condition: string)
    requires Keyed(inputs.groups, EvidenceGroupId)
    ensures Holds(TablesOf(inputs), id, condition) <==> IsHeld(inputs, id, condition)
  {
    hide TablesOf, Keyed, NamesCondition, IsGroup, ConditionList, EntriesOf;
    var groups := TablesOf(inputs).groups;
    GroupRows(inputs, id);
    if id in groups {
      EntriesMean(groups[id]);
      assert IsGroup(inputs, groups[id], id);
    }
  }

  lemma AllHoldsMean(inputs: Inputs)
    requires Keyed(inputs.groups, EvidenceGroupId)
    ensures forall id, condition :: Holds(TablesOf(inputs), id, condition) <==> IsHeld(inputs, id, condition)
  {
    hide TablesOf, Keyed, Holds, IsHeld;
    forall id, condition
      ensures Holds(TablesOf(inputs), id, condition) <==> IsHeld(inputs, id, condition)
    {
      HoldsMean(inputs, id, condition);
    }
  }

  /** When no condition is held twice, the owner of a condition is the group that holds it. */
  lemma ReferencedMeans(inputs: Inputs)
    requires Keyed(inputs.groups, EvidenceGroupId) && CasesAreSound(inputs)
    requires ConditionsAreHeldOnce(inputs)
    ensures ConditionReferencesErrors(GroupScanOf(inputs).owners, ScanGold(inputs.gold).conditions) == []
       <==> ConditionsAreReferenced(inputs)
  {
    hide Keyed, Holds, IsHeld, GroupScanOf, TablesOf, ScanGold, CasesAreSound, ConditionReferencesErrors, IsActive, Has,
         ListsGroup;
    var owners := GroupScanOf(inputs).owners;
    ConditionReferencesMean(inputs, owners);
    RegistryOwnersMean(inputs);
    AllHoldsMean(inputs);
    assert forall condition :: condition in owners ==> IsHeld(inputs, owners[condition], condition);
    if ConditionReferencesErrors(owners, ScanGold(inputs.gold).conditions) == [] {
      forall row, condition | row in inputs.gold && IsActive(row) && Has(row.value, ConsultationConditionIds, condition)
        ensures exists id :: IsHeld(inputs, id, condition) && ListsGroup(row.value, id)
      {
        assert IsHeld(inputs, owners[condition], condition) && ListsGroup(row.value, owners[condition]);
      }
    }
    if ConditionsAreReferenced(inputs) {
      forall row, condition | row in inputs.gold && IsActive(row) && Has(row.value, ConsultationConditionIds, condition)
        ensures condition in owners && ListsGroup(row.value, owners[condition])
      {
        var id :| IsHeld(inputs, id, condition) && ListsGroup(row.value, id);
        assert Holds(TablesOf(inputs), id, condition);
      }
    }
  }

  // ---------------------------------------------------------------- PASS

  /** With the files keyed and the cases sound: the group pass. */
  lemma GroupsMean(inputs: Inputs)
    requires FilesAreKeyed(inputs) && CasesAreSound(inputs)
    ensures GroupScanOf(inputs).errors == [] <==> GroupsAreSound(inputs) && ConditionsAreHeldOnce(inputs)
  {
    hide TablesOf, Keyed, CasesAreSound, GroupIsClean, GroupIsSound, Holds, IsHeld, IsGroup, GroupScanOf;
    var t := TablesOf(inputs);
    RegistryScanMeans(inputs);
    AllHoldsMean(inputs);
    forall group, id | IsGroup(inputs, group, id)
      ensures id in t.groups && t.groups[id] == group
    {
      GroupRows(inputs, id);
    }
    forall g | g in t.groups
      ensures IsGroup(inputs, t.groups[g], g)
      ensures GroupIsClean(t, t.ViewOf(g)) <==> GroupIsSound(inputs, g, t.groups[g].value)
    {
      GroupRows(inputs, g);
      GroupMeans(inputs, g);
    }
  }

  /** With every group sound: the link pass. */
  lemma LinksMean(inputs: Inputs)
    requires FilesAreKeyed(inputs) && GroupsAreSound(inputs)
    ensures LinkScanOf(inputs).errors == [] <==> GroupsAreLinked(inputs)
    ensures LinkScanOf(inputs).errors == [] ==> forall g :: g in TablesOf(inputs).groups ==> g in LinkScanOf(inputs).candidates
  {
    hide TablesOf, Keyed, GroupIsSound, IsGroup, LinkScanOf, GroupLinkErrors, LinkedCount, ChildrenAreLinked;
    var t := TablesOf(inputs);
    RegistryLinksMean(inputs);
    forall group, id | IsGroup(inputs, group, id)
      ensures id in t.groups && t.groups[id] == group
    {
      GroupRows(inputs, id);
    }
    forall g | g in t.groups
      ensures IsGroup(inputs, t.groups[g], g)
      ensures GroupLinkErrors(t, t.ViewOf(g)) == [] <==> ChildrenAreLinked(inputs, g, t.groups[g].value)
      ensures GroupLinkErrors(t, t.ViewOf(g)) == [] ==> LinkedCount(t, t.ViewOf(g)) > 0
    {
      GroupRows(inputs, g);
      SoundGroupLinks(inputs, g);
    }
  }

  lemma SoundGroupLinks(inputs: Inputs, g: string)
    requires FilesAreKeyed(inputs) && g in TablesOf(inputs).groups
    requires GroupIsSound(inputs, g, TablesOf(inputs).groups[g].value)
    ensures var t := TablesOf(inputs);
            && (GroupLinkErrors(t, t.ViewOf(g)) == [] <==> ChildrenAreLinked(inputs, g, t.groups[g].value))
            && (GroupLinkErrors(t, t.ViewOf(g)) == [] ==> LinkedCount(t, t.ViewOf(g)) > 0)
  {
    hide TablesOf, Keyed, DistinctTexts, GroupLinkErrors, LinkedCount, ChildrenAreLinked, Has, Get, IsDeclaredChild,
         ConditionIsSound, VariantsAreCovered, EntriesOf, RefersTo, ReferenceIsSound, DeclaresChild, ConditionsDiffer;
    var t := TablesOf(inputs);
    var view := t.ViewOf(g);
    DistinctAreTexts(Get(view.group.value, ChildIds));
    GroupLinksMean(inputs, view);
    if GroupLinkErrors(t, view) == [] {
      SoundGroupIsCandidate(inputs, view);
    }
  }

  lemma AllErrorsVanish(inputs: Inputs)
    ensures AllErrors(inputs) == [] <==>
            && IndexErrors(inputs) == [] && FlatMap(CaseErrors, inputs.gold) == [] && GroupScanOf(inputs).errors == []
            && OrphansErrors(TablesOf(inputs), inputs.children) == []
            && ConditionReferencesErrors(GroupScanOf(inputs).owners, ScanGold(inputs.gold).conditions) == []
            && AttachmentsErrors(TablesOf(inputs), inputs.corpus) == []
            && LinkScanOf(inputs).errors == []
            && ReferencedErrors(inputs, ScanGold(inputs.gold).required, REQUIRED_GROUP_SEARCH_CANDIDATE_MISSING) == []
            && ReferencedErrors(inputs, ScanGold(inputs.gold).supporting, SUPPORTING_GROUP_SEARCH_CANDIDATE_MISSING) == []
  {
    hide IndexErrors, FlatMap, GroupScanOf, LinkScanOf, OrphansErrors, ConditionReferencesErrors, AttachmentsErrors,
         ReferencedErrors, ScanGold, IndexRows;
  }

  /** PASS means that the four files agree, and says no more and no less. */
  lemma PassMeans(inputs: Inputs)
    ensures ReportOf(inputs).passed <==> Consistent(inputs)
  {
    hide IndexErrors, FlatMap, GroupScanOf, LinkScanOf, OrphansErrors, ConditionReferencesErrors, AttachmentsErrors,
         ReferencedErrors, ScanGold, TablesOf, Keyed, SchemaAccepts, CasesAreSound, GroupsAreSound, GroupsAreLinked,
         ConditionsAreHeldOnce, HasGroup, ConditionsAreReferenced, AttachmentsAreOwned, AllErrors;
    AllErrorsVanish(inputs);
    IndexErrorsMean(inputs);
    CasesMean(inputs);
    assert ReportOf(inputs).passed <==> AllErrors(inputs) == [];
    if FilesAreKeyed(inputs) && CasesAreSound(inputs) {
      GroupsMean(inputs);
      OrphansMean(inputs);
      AttachmentsMean(inputs);
      if GroupScanOf(inputs).errors == [] {
        ReferencedMeans(inputs);
        LinksMean(inputs);
        if LinkScanOf(inputs).errors == [] {
          NoneMissing(inputs, ScanGold(inputs.gold).required, REQUIRED_GROUP_SEARCH_CANDIDATE_MISSING);
          NoneMissing(inputs, ScanGold(inputs.gold).supporting, SUPPORTING_GROUP_SEARCH_CANDIDATE_MISSING);
        }
      }
    }
  }

  lemma SameChild(inputs: Inputs, c: string, child: JsonlRow, other: JsonlRow)
    requires Keyed(inputs.children, ChildId)
    requires child in inputs.children && Get(child.value, ChildId) == Str(c)
    requires other in inputs.children && Get(other.value, ChildId) == Str(c)
    ensures child == other
  {
    hide IndexRows, Keyed, Get;
    IndexFindsRows(CHILD_RULE, inputs.children);
  }

  /** On PASS a child listed by a group is of that group, within its pages, searchable, verified and hashed. */
  lemma PassedChildren(inputs: Inputs, group: JsonlRow, id: string, child: JsonlRow)
    requires ReportOf(inputs).passed && IsGroup(inputs, group, id)
    requires child in inputs.children && DeclaresChild(group.value, child.value)
    ensures Get(child.value, EvidenceGroupId) == Get(group.value, EvidenceGroupId)
    ensures Get(child.value, ExactSalesCode) == Get(group.value, ExactSalesCode)
    ensures Get(child.value, DocumentId) == Get(group.value, DocumentId)
    ensures PagesWithin(Get(child.value, PageRefs), Get(group.value, PageRefs))
    ensures SaysChild(Get(child.value, RecordType)) && Get(child.value, RetrievalRole) == Str("SEARCH_CANDIDATE")
    ensures Get(child.value, AllowedUse) in {Str("EXPERIMENT_ONLY"), Str("RAG_HANDOFF_ONLY")}
    ensures Get(child.value, VerificationStatus) == Str("TEXT_AND_VISUAL_VERIFIED")
    ensures IsHash(Get(child.value, SourceFileSha256)) && IsHash(Get(child.value, ChildTextSha256))
    ensures VariantListed(group.value, Get(child.value, SourceVariantId))
  {
    hide ReportOf, Keyed, CasesAreSound, SchemaAccepts, ConditionsAreReferenced, AttachmentsAreOwned, GroupsAreLinked,
         ConditionsAreHeldOnce, HasGroup, ChildRelation, Has, Get, GroupListsAreSound, EntriesOf, PagesWithin, SaysChild,
         IsHash, VariantListed;
    PassMeans(inputs);
    var c :| Get(child.value, ChildId) == Str(c) && Has(group.value, ChildIds, c);
    var found :| IsDeclaredChild(inputs.children, id, group.value, c, found);
    SameChild(inputs, c, child, found);
    DeclaredChildFields(group.value, child.value, id);
  }

  lemma DeclaredChildFields(group: Row, child: Row, id: string)
    requires forall code :: ChildRelation(group, child, id, code)
    ensures Get(child, EvidenceGroupId) == Str(id)
    ensures Get(child, ExactSalesCode) == Get(group, ExactSalesCode) && Get(child, DocumentId) == Get(group, DocumentId)
    ensures PagesWithin(Get(child, PageRefs), Get(group, PageRefs)) && SaysChild(Get(child, RecordType))
    ensures Get(child, RetrievalRole) == Str("SEARCH_CANDIDATE")
    ensures Get(child, AllowedUse) in {Str("EXPERIMENT_ONLY"), Str("RAG_HANDOFF_ONLY")}
    ensures Get(child, VerificationStatus) == Str("TEXT_AND_VISUAL_VERIFIED")
    ensures IsHash(Get(child, SourceFileSha256)) && IsHash(Get(child, ChildTextSha256))
    ensures VariantListed(group, Get(child, SourceVariantId))
  {
    hide ChildRelation;
    DeclaredChildLineage(group, child, id);
    DeclaredChildState(group, child, id);
  }

  lemma DeclaredChildLineage(group: Row, child: Row, id: string)
    requires forall code :: ChildRelation(group, child, id, code)
    ensures Get(child, EvidenceGroupId) == Str(id)
    ensures Get(child, ExactSalesCode) == Get(group, ExactSalesCode) && Get(child, DocumentId) == Get(group, DocumentId)
    ensures PagesWithin(Get(child, PageRefs), Get(group, PageRefs)) && SaysChild(Get(child, RecordType))
  {
    hide Get, PagesWithin, SaysChild, IsHash, VariantListed;
    assert ChildRelation(group, child, id, CHILD_GROUP_LINEAGE_MISMATCH);
    assert ChildRelation(group, child, id, CHILD_PRODUCT_LINEAGE_MISMATCH);
    assert ChildRelation(group, child, id, CHILD_DOCUMENT_LINEAGE_MISMATCH);
    assert ChildRelation(group, child, id, CHILD_PAGE_LINEAGE_MISMATCH);
    assert ChildRelation(group, child, id, CHILD_RECORD_TYPE_INVALID);
  }

  lemma DeclaredChildState(group: Row, child: Row, id: string)
    requires forall code :: ChildRelation(group, child, id, code)
    ensures Get(child, RetrievalRole) == Str("SEARCH_CANDIDATE")
    ensures Get(child, AllowedUse) in {Str("EXPERIMENT_ONLY"), Str("RAG_HANDOFF_ONLY")}
    ensures Get(child, VerificationStatus) == Str("TEXT_AND_VISUAL_VERIFIED")
    ensures IsHash(Get(child, SourceFileSha256)) && IsHash(Get(child, ChildTextSha256))
    ensures VariantListed(group, Get(child, SourceVariantId))
  {
    hide Get, PagesWithin, SaysChild, IsHash, VariantListed;
    assert ChildRelation(group, child, id, CHILD_RETRIEVAL_ROLE_INVALID);
    assert ChildRelation(group, child, id, CHILD_ALLOWED_USE_INVALID);
    assert ChildRelation(group, child, id, CHILD_VERIFICATION_STATUS_INVALID);
    assert ChildRelation(group, child, id, CHILD_SOURCE_FILE_SHA256_INVALID);
    assert ChildRelation(group, child, id, CHILD_TEXT_SHA256_INVALID);
    assert ChildRelation(group, child, id, CHILD_SOURCE_VARIANT_LINEAGE_MISMATCH);
  }
}
