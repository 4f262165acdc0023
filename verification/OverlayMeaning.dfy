/** What the overlay writes, entry by entry, on the fields of the contract and the registry. */
module OverlayMeaning {
  import opened Collections
  import opened Json
  import opened Sorting
  import opened FieldRelations
  import opened Overlay
  import opened OverlayTheorems

  /** The entry has exactly the four fields the registry keeps, each as in the contract's condition. */
  ghost predicate IsEntryOf(entry: Json, condition: Json) {
    && condition.Obj? && entry.Obj?
    && entry.fields.Keys == {ConditionId, TriggerType, SourceChildIds, SourcePageRefs}
    && forall field :: field in entry.fields ==> entry.fields[field] == Get(condition.fields, field)
  }

  /** The condition names the group. */
  ghost predicate IsFor(condition: Json, group: Row) {
    condition.Obj? && Get(condition.fields, EvidenceGroupId) == Get(group, EvidenceGroupId)
  }

  /** The entry of one of the conditions that name the group. */
  ghost predicate IsAdded(conditions: seq<Json>, group: Row, x: Json) {
    exists c :: 0 <= c < |conditions| && IsFor(conditions[c], group) && IsEntryOf(x, conditions[c])
  }

  lemma StrippedIsEntry(condition: Json, entry: Json)
    requires condition.Obj?
    ensures IsEntryOf(entry, condition) <==> entry == Stripped(condition)
  {
    hide Get;
    if IsEntryOf(entry, condition) {
      assert entry.fields == Stripped(condition).fields;
    }
  }

  lemma EntriesAreList(group: Row)
    ensures EntriesOf(group) == ConditionList(group)
  {
  }

  /** In an accepted contract every condition is an object and names a group of the registry. */
  lemma AcceptedNames(inputs: Inputs, c: nat, i: nat)
    requires OverlayOf(inputs).Success? && inputs.conditions.Arr? && c < |inputs.conditions.items| && i < |inputs.groups|
    ensures inputs.conditions.items[c].Obj?
    ensures IsFor(inputs.conditions.items[c], inputs.groups[i])
       <==> TextOf(inputs.conditions.items[c], EvidenceGroupId) == GroupId(inputs.groups[i])
  {
    AcceptedIds(inputs);
    AcceptedGroups(inputs);
    hide OverlayOf, ContextOf, AllKeys, NoDuplicates, LineageFault, IsConditionId, DistinctIds,
         OverlayTheorems.HasGroup;
    assert ConditionOk(ContextOf(inputs).value, inputs.conditions.items[c]);
  }

  /** A derived list holds the group's own entries and one entry for each contract condition that names the group. */
  lemma DerivedEntries(inputs: Inputs, i: nat, x: Json)
    requires OverlayOf(inputs).Success? && i < |inputs.groups|
    ensures inputs.conditions.Arr? && |OverlayOf(inputs).value| == |inputs.groups|
    ensures x in EntriesOf(OverlayOf(inputs).value[i])
       <==> x in EntriesOf(inputs.groups[i]) || IsAdded(inputs.conditions.items, inputs.groups[i], x)
  {
    AcceptedContext(inputs);
    DerivedListOf(inputs, i);
    hide OverlayOf, ContextOf, ConditionList, SortById, TextOf, Stripped, GroupId, ReadConditions, IsFor, IsEntryOf,
         Additions;
    var conditions, group := inputs.conditions.items, inputs.groups[i];
    EntriesAreList(group);
    EntriesAreList(OverlayOf(inputs).value[i]);
    var entries := ConditionList(group) + Additions(conditions, GroupId(group));
    SortSorts(entries);
    PermutationKeepsMembers(SortById(entries), entries);
    AdditionsComeFrom(conditions, GroupId(group), x);
    forall c | 0 <= c < |conditions|
      ensures TextOf(conditions[c], EvidenceGroupId) == GroupId(group) && x == Stripped(conditions[c])
         <==> IsFor(conditions[c], group) && IsEntryOf(x, conditions[c])
    {
      AcceptedNames(inputs, c, i);
      StrippedIsEntry(conditions[c], x);
    }
  }

  /** Every contract condition has its entry in its own group's list, and in the list of no other group. */
  lemma ConditionHasItsEntry(inputs: Inputs, c: nat, i: nat)
    requires OverlayOf(inputs).Success? && inputs.conditions.Arr? && c < |inputs.conditions.items| && i < |inputs.groups|
    ensures |OverlayOf(inputs).value| == |inputs.groups|
    ensures (exists entry :: entry in EntriesOf(OverlayOf(inputs).value[i]) && IsEntryOf(entry, inputs.conditions.items[c]))
       <==> IsFor(inputs.conditions.items[c], inputs.groups[i])
  {
    ConditionLandsInOneGroup(inputs, c, i);
    AcceptedNames(inputs, c, i);
    hide OverlayOf, Stripped, IsFor, IsEntryOf;
    var condition, list := inputs.conditions.items[c], EntriesOf(OverlayOf(inputs).value[i]);
    EntriesAreList(OverlayOf(inputs).value[i]);
    StrippedIsEntry(condition, Stripped(condition));
    forall entry | IsEntryOf(entry, condition)
      ensures entry == Stripped(condition)
    {
      StrippedIsEntry(condition, entry);
    }
  }

  /** All condition entries of a registry, counted. */
  ghost function EntryBag(groups: seq<Row>): multiset<Json> {
    if groups == [] then multiset{} else EntryBag(groups[..|groups| - 1]) + multiset(EntriesOf(groups[|groups| - 1]))
  }

  lemma {:induction false} BagsAgree(groups: seq<Row>)
    ensures EntryBag(groups) == Bag(groups)
  {
    hide EntriesOf, ConditionList;
    if groups != [] {
      BagsAgree(groups[..|groups| - 1]);
      EntriesAreList(groups[|groups| - 1]);
    }
  }

  /** The entries are those of the conditions, one each and in order. */
  ghost predicate AreEntriesOf(entries: seq<Json>, conditions: seq<Json>) {
    |entries| == |conditions| && forall c :: 0 <= c < |entries| ==> IsEntryOf(entries[c], conditions[c])
  }

  lemma {:induction false} BagOfEntries(entries: seq<Json>, conditions: seq<Json>)
    requires AreEntriesOf(entries, conditions)
    ensures multiset(entries) == StrippedBag(conditions)
  {
    hide Stripped, IsEntryOf;
    if entries != [] {
      var n := |entries| - 1;
      assert entries == entries[..n] + [entries[n]];
      BagOfEntries(entries[..n], conditions[..n]);
      EntryIsStripped(entries[n], conditions[n]);
    }
  }

  lemma EntryIsStripped(entry: Json, condition: Json)
    requires IsEntryOf(entry, condition)
    ensures entry == Stripped(condition)
  {
    StrippedIsEntry(condition, entry);
  }

  /** Conservation: whichever way the contract's entries are written out, the registry gains exactly them. */
  lemma EntriesAreConserved(inputs: Inputs, entries: seq<Json>)
    requires OverlayOf(inputs).Success? && inputs.conditions.Arr? && AreEntriesOf(entries, inputs.conditions.items)
    ensures EntryBag(OverlayOf(inputs).value) == EntryBag(inputs.groups) + multiset(entries)
  {
    ConditionsAreConserved(inputs);
    hide OverlayOf;
    BagOfEntries(entries, inputs.conditions.items);
    BagsAgree(inputs.groups);
    BagsAgree(OverlayOf(inputs).value);
  }

  /** The entries of an accepted contract can be written out. */
  lemma EntriesExist(inputs: Inputs) returns (entries: seq<Json>)
    requires OverlayOf(inputs).Success?
    ensures inputs.conditions.Arr? && AreEntriesOf(entries, inputs.conditions.items)
  {
    AcceptedIds(inputs);
    hide OverlayOf, ContextOf, AllKeys, NoDuplicates, LineageFault, IsConditionId, Stripped, IsEntryOf;
    var conditions := inputs.conditions.items;
    entries := seq(|conditions|, c requires 0 <= c < |conditions| => Stripped(conditions[c]));
    forall c | 0 <= c < |entries|
      ensures IsEntryOf(entries[c], conditions[c])
    {
      assert ConditionOk(ContextOf(inputs).value, conditions[c]);
      StrippedIsEntry(conditions[c], entries[c]);
    }
  }
}
