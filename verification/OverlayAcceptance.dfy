/** The overlay accepts exactly the sound inputs, and what it returns is the only registry that fits them. */
module OverlayAcceptance {
  import opened Collections
  import opened Json
  import opened Sorting
  import opened FieldRelations
  import opened Overlay
  import opened OverlayTheorems
  import opened FaultMeaning
  import opened ContractMeaning
  import opened OverlayMeaning

  // ---------------------------------------------------------------- files and canonical conditions

  ghost predicate HaveTexts(rows: seq<Row>, field: Field) {
    forall row :: row in rows ==> IsText(Get(row, field))
  }

  /** Every row has a nonempty text for its id, and no two rows share one. */
  ghost predicate AreNamed(rows: seq<Row>, field: Field) {
    && HaveTexts(rows, field)
    && (forall i, j, id :: Named(rows, field, i, id) && Named(rows, field, j, id) ==> i == j)
  }

  /** The row brings a new id. */
  ghost predicate BringsName(rest: seq<Row>, row: Row, field: Field) {
    IsText(Get(row, field)) && forall i :: !Named(rest, field, i, Get(row, field).s)
  }

  lemma NamesOfSnoc(rest: seq<Row>, last: Row, field: Field)
    ensures forall i, id :: Named(rest + [last], field, i, id)
              <==> Named(rest, field, i, id) || (i == |rest| && id != "" && Get(last, field) == Str(id))
    ensures forall i, id :: Named(rest, field, i, id) ==> i < |rest|
  {
    forall i, id
      ensures Named(rest + [last], field, i, id)
         <==> Named(rest, field, i, id) || (i == |rest| && id != "" && Get(last, field) == Str(id))
    {
      NamedSnoc(rest, last, field, i, id);
    }
  }

  lemma NamedStep(rest: seq<Row>, last: Row, field: Field)
    ensures AreNamed(rest + [last], field) <==> AreNamed(rest, field) && BringsName(rest, last, field)
  {
    hide Named, Get, HaveTexts;
    HaveTextsStep(rest, last, field);
    NamesOfSnoc(rest, last, field);
    var rows := rest + [last];
    if IsText(Get(last, field)) {
      assert Named(rows, field, |rest|, Get(last, field).s);
    }
  }

  lemma HaveTextsStep(rest: seq<Row>, last: Row, field: Field)
    ensures HaveTexts(rest + [last], field) <==> HaveTexts(rest, field) && IsText(Get(last, field))
  {
    hide Get, IsText;
    assert last in rest + [last];
    assert forall row :: row in rest ==> row in rest + [last];
  }

  lemma {:induction false} FileIsIndexedIff(rows: seq<Row>, field: Field, fault: Fault)
    ensures IndexRows(rows, field, fault).Success? <==> AreNamed(rows, field)
  {
    hide AreNamed, IsText, Get;
    if rows == [] {
      NoneAreNamed(field);
    } else {
      var rest, last := rows[..|rows| - 1], rows[|rows| - 1];
      FileIsIndexedIff(rest, field, fault);
      NamedStep(rest, last, field);
      assert rows == rest + [last];
      if IndexRows(rest, field, fault).Success? {
        StrictIndexMeaning(rest, field, fault);
        NextIsIndexedIff(IndexRows(rest, field, fault).value, rest, last, field, fault);
      }
    }
  }

  lemma NoneAreNamed(field: Field)
    ensures AreNamed([], field)
  {
  }

  lemma NextIsIndexedIff(index: Index, rest: seq<Row>, last: Row, field: Field, fault: Fault)
    requires IndexesAll(index, rest, field)
    ensures AddToIndex(index, field, fault, last).Success? <==> BringsName(rest, last, field)
  {
    hide Get, Named;
  }

  /** The entries are objects with nonempty text ids. */
  ghost predicate EntriesAreNamed(entries: seq<Json>) {
    forall entry :: entry in entries ==> exists id :: IsCondition(entry, id)
  }

  lemma {:induction false} CanonicalListMeans(ids: set<string>, entries: seq<Json>)
    ensures AddCanonicalIds(ids, entries).Success? <==>
            EntriesAreNamed(entries) && ConditionsDiffer(entries) && forall id :: NamesCondition(entries, id) ==> id !in ids
    ensures AddCanonicalIds(ids, entries).Success? ==>
              forall id :: id in AddCanonicalIds(ids, entries).value <==> id in ids || NamesCondition(entries, id)
  {
    hide IsCondition, AddCanonicalId, ConditionsDiffer, EntriesAreNamed;
    if entries == [] {
      NoEntriesDiffer();
    } else {
      var rest, last := entries[..|entries| - 1], entries[|entries| - 1];
      CanonicalListMeans(ids, rest);
      NewEntry(rest, last);
      assert entries == rest + [last];
      forall id
        ensures NamesCondition(entries, id) <==> NamesCondition(rest, id) || IsCondition(last, id)
      {
      }
      hide NamesCondition;
      if AddCanonicalIds(ids, rest).Success? {
        CanonicalEntryMeans(AddCanonicalIds(ids, rest).value, last);
      }
      NamedEntriesSnoc(rest, last);
    }
  }

  lemma NamedEntriesSnoc(rest: seq<Json>, last: Json)
    ensures EntriesAreNamed(rest + [last]) <==> EntriesAreNamed(rest) && exists id :: IsCondition(last, id)
  {
    hide IsCondition;
    var entries := rest + [last];
    assert last in entries;
    if EntriesAreNamed(entries) {
      forall entry | entry in rest
        ensures exists id :: IsCondition(entry, id)
      {
        assert entry in entries;
      }
    }
  }

  lemma NoEntriesDiffer()
    ensures ConditionsDiffer([]) && EntriesAreNamed([])
  {
  }

  lemma CanonicalEntryMeans(ids: set<string>, entry: Json)
    ensures AddCanonicalId(ids, entry).Success?
       <==> (exists id :: IsCondition(entry, id)) && forall id :: IsCondition(entry, id) ==> id !in ids
    ensures AddCanonicalId(ids, entry).Success? ==>
              forall id :: id in AddCanonicalId(ids, entry).value <==> id in ids || IsCondition(entry, id)
  {
    if entry.Obj? && IsText(Get(entry.fields, ConditionId)) {
      assert IsCondition(entry, Get(entry.fields, ConditionId).s);
    }
  }

  /** The condition is in the list of some group. */
  ghost predicate IsRegistered(groups: seq<Row>, id: string) {
    exists group :: group in groups && NamesCondition(EntriesOf(group), id)
  }

  /** A group with a list of named conditions, no two alike. */
  ghost predicate ListIsSound(group: Row) {
    && Get(group, ConsultationConditions).Arr?
    && EntriesAreNamed(EntriesOf(group)) && ConditionsDiffer(EntriesOf(group))
  }

  /** Every canonical list is sound and no condition is in two of them. */
  ghost predicate RegistryIsSound(groups: seq<Row>) {
    && (forall group :: group in groups ==> ListIsSound(group))
    && (forall i, j, id :: 0 <= i < j < |groups| && NamesCondition(EntriesOf(groups[i]), id) ==>
          !NamesCondition(EntriesOf(groups[j]), id))
  }

  lemma RegistryStep(rest: seq<Row>, last: Row)
    ensures RegistryIsSound(rest + [last]) <==>
            RegistryIsSound(rest) && ListIsSound(last)
            && forall id :: NamesCondition(EntriesOf(last), id) ==> !IsRegistered(rest, id)
  {
    hide ListIsSound, NamesCondition, EntriesOf;
    var groups := rest + [last];
    assert forall i :: 0 <= i < |rest| ==> groups[i] == rest[i];
    if RegistryIsSound(groups) {
      forall id, group | NamesCondition(EntriesOf(last), id) && group in rest
        ensures !NamesCondition(EntriesOf(group), id)
      {
        var i :| 0 <= i < |rest| && rest[i] == group;
        assert groups[i] == group && groups[|rest|] == last;
      }
      forall i, j, id | 0 <= i < j < |rest| && NamesCondition(EntriesOf(rest[i]), id)
        ensures !NamesCondition(EntriesOf(rest[j]), id)
      {
        assert groups[i] == rest[i] && groups[j] == rest[j];
      }
    }
    if RegistryIsSound(rest) && ListIsSound(last) && forall id :: NamesCondition(EntriesOf(last), id) ==> !IsRegistered(rest, id) {
      forall i, j, id | 0 <= i < j < |groups| && NamesCondition(EntriesOf(groups[i]), id)
        ensures !NamesCondition(EntriesOf(groups[j]), id)
      {
        assert groups[i] == rest[i] && rest[i] in rest;
        assert j < |rest| ==> groups[j] == rest[j];
      }
    }
  }

  lemma {:induction false} CanonicalMeans(groups: seq<Row>)
    ensures CanonicalIds(groups).Success? <==> RegistryIsSound(groups)
    ensures CanonicalIds(groups).Success? ==> forall id :: id in CanonicalIds(groups).value <==> IsRegistered(groups, id)
  {
    hide RegistryIsSound, EntriesAreNamed, ConditionsDiffer, NamesCondition, EntriesOf, AddCanonicalIds,
         ConditionList, Get;
    if groups == [] {
      NoGroupsAreSound();
    } else {
      var rest, last := groups[..|groups| - 1], groups[|groups| - 1];
      CanonicalMeans(rest);
      RegistryStep(rest, last);
      EntriesAreList(last);
      assert groups == rest + [last];
      if CanonicalIds(rest).Success? {
        CanonicalListMeans(CanonicalIds(rest).value, ConditionList(last));
      }
    }
  }

  lemma NoGroupsAreSound()
    ensures RegistryIsSound([])
  {
  }

  // ---------------------------------------------------------------- the contract's conditions

  /** The fields of a contract condition that need no other row. */
  ghost predicate FieldsAreSound(condition: Row) {
    && condition.Keys == {ConditionId, ConditionSemanticsCode, EvidenceGroupId, TriggerType, SourceChildIds, SourcePageRefs,
                          SourceConditionSha256, GoldPendingBasisCode, GoldMetBasisCode, ReviewStatus}
    && Get(condition, ConditionSemanticsCode).Str? && Get(condition, ConditionSemanticsCode) != Str("")
    && Get(condition, TriggerType) in {Str("PERSISTENCE"), Str("RECURRENCE"), Str("AFTER_CHECK")}
    && Get(condition, GoldPendingBasisCode) == Str("SOURCE_CONDITION_PENDING")
    && Get(condition, GoldMetBasisCode) == Str("SOURCE_CONDITION_MET")
    && Get(condition, ReviewStatus) == Str("AI_PROPOSED_PENDING_HUMAN_SIGNOFF")
  }

  /** Its id is well formed and new to the registry. */
  ghost predicate IdIsSound(inputs: Inputs, condition: Row) {
    exists id :: Get(condition, ConditionId) == Str(id) && IsConditionName(id) && !IsRegistered(inputs.groups, id)
  }

  /** Its group is registered, and its lineage is sound there. */
  ghost predicate GroupIsSound(inputs: Inputs, condition: Row) {
    exists g, group ::
      Get(condition, EvidenceGroupId) == Str(g) && IsRow(inputs.groups, EvidenceGroupId, g, group) && LineageIsSound(inputs, group, condition)
  }

  /** A contract condition on its own. */
  ghost predicate ConditionIsSound(inputs: Inputs, condition: Json) {
    && condition.Obj? && FieldsAreSound(condition.fields) && IdIsSound(inputs, condition.fields)
    && GroupIsSound(inputs, condition.fields)
  }

  /** Two conditions with different ids that do not share both group and semantics. */
  ghost predicate AreApart(a: Json, b: Json) {
    && SortKey(a) != SortKey(b)
    && (TextOf(a, EvidenceGroupId) != TextOf(b, EvidenceGroupId)
        || TextOf(a, ConditionSemanticsCode) != TextOf(b, ConditionSemanticsCode))
  }

  /** The tables stand for the files. */
  ghost predicate Reflects(context: Context, inputs: Inputs) {
    && Indexes(context, inputs) && IndexesAll(context.groups, inputs.groups, EvidenceGroupId)
    && forall id :: id in context.existing <==> IsRegistered(inputs.groups, id)
  }

  lemma OtherConditionFaultsHold(fault: Fault, context: Context, ledger: Ledger, condition: Row)
    requires forall k: nat :: k < 9 ==> ConditionFaultAt(k) != fault
    ensures ConditionRelation(context, ledger, condition, fault)
  {
    hide Get, IsConditionName, ConditionFaultAt;
    ConditionFaultsInOrder();
    assert fault != ConditionFaultAt(0) && fault != ConditionFaultAt(1) && fault != ConditionFaultAt(2);
    assert fault != ConditionFaultAt(3) && fault != ConditionFaultAt(4) && fault != ConditionFaultAt(5);
    assert fault != ConditionFaultAt(6) && fault != ConditionFaultAt(7) && fault != ConditionFaultAt(8);
  }

  lemma OwnRelationsMean(context: Context, ledger: Ledger, condition: Row)
    ensures ConditionFault(context, ledger, Obj(condition)).None?
       <==> (forall fault :: ConditionRelation(context, ledger, condition, fault)) && LineageOf(context, condition).None?
  {
    hide ConditionFault, ConditionRelation, IsFirstFault, ConditionFaultAt, LineageOf;
    var holds := fault => ConditionRelation(context, ledger, condition, fault);
    ConditionFaultIsFirst(context, ledger, condition);
    forall fault | forall k: nat :: k < 9 ==> ConditionFaultAt(k) != fault
      ensures ConditionRelation(context, ledger, condition, fault)
    {
      OtherConditionFaultsHold(fault, context, ledger, condition);
    }
    var own :| IsFirstFault(own, 9, ConditionFaultAt, fault => ConditionRelation(context, ledger, condition, fault))
               && ConditionFault(context, ledger, Obj(condition)) == OwnOr(own, LineageOf(context, condition));
    NoFaultMeans(own, 9, ConditionFaultAt, holds);
    assert forall fault :: holds(fault) <==> ConditionRelation(context, ledger, condition, fault);
  }

  lemma RelationsMean(context: Context, ledger: Ledger, condition: Row)
    ensures (forall fault :: ConditionRelation(context, ledger, condition, fault)) <==>
            && FieldsAreSound(condition)
            && ConditionRelation(context, ledger, condition, CONDITION_ID_INVALID)
            && ConditionRelation(context, ledger, condition, CONDITION_GROUP_NOT_FOUND)
            && ConditionRelation(context, ledger, condition, CONDITION_SEMANTICS_DUPLICATE)
  {
    hide Get, IsConditionName;
    if forall fault :: ConditionRelation(context, ledger, condition, fault) {
      FieldRelationsHold(context, ledger, condition);
    }
  }

  lemma FieldRelationsHold(context: Context, ledger: Ledger, condition: Row)
    requires forall fault :: ConditionRelation(context, ledger, condition, fault)
    ensures FieldsAreSound(condition)
  {
    hide Get, IsConditionName;
    assert ConditionRelation(context, ledger, condition, CONDITION_KEYS_INVALID);
    assert ConditionRelation(context, ledger, condition, CONDITION_SEMANTICS_CODE_INVALID);
    assert ConditionRelation(context, ledger, condition, CONDITION_TRIGGER_INVALID);
    assert ConditionRelation(context, ledger, condition, CONDITION_PENDING_BASIS_INVALID);
    assert ConditionRelation(context, ledger, condition, CONDITION_MET_BASIS_INVALID);
    assert ConditionRelation(context, ledger, condition, CONDITION_REVIEW_STATUS_INVALID);
  }

  lemma OwnGroupMeans(context: Context, inputs: Inputs, ledger: Ledger, condition: Row)
    requires Reflects(context, inputs)
    ensures ConditionRelation(context, ledger, condition, CONDITION_GROUP_NOT_FOUND) && LineageOf(context, condition).None?
       <==> GroupIsSound(inputs, condition)
  {
    hide IndexesAll, IsRegistered, IsRow, LineageFault, LineageIsSound, Get;
    var name := Get(condition, EvidenceGroupId);
    if name.Str? {
      IndexedRow(context.groups, inputs.groups, EvidenceGroupId, name.s);
      if name.s in context.groups {
        LineageMeans(context, inputs, context.groups[name.s], condition);
      }
    }
  }

  /** The ledger after reading `rest` knows its ids and its pairs of group and semantics. */
  ghost predicate Remembers(ledger: Ledger, rest: seq<Json>) {
    && (forall id :: id in ledger.ids <==> exists d :: 0 <= d < |rest| && SortKey(rest[d]) == id)
    && (forall g, code :: (g, code) in ledger.semantics
          <==> exists d :: 0 <= d < |rest| && TextOf(rest[d], EvidenceGroupId) == g && TextOf(rest[d], ConditionSemanticsCode) == code)
  }

  lemma NewIdMeans(context: Context, inputs: Inputs, ledger: Ledger, rest: seq<Json>, condition: Row)
    requires Reflects(context, inputs) && Remembers(ledger, rest)
    ensures ConditionRelation(context, ledger, condition, CONDITION_ID_INVALID)
       <==> IdIsSound(inputs, condition) && forall d :: 0 <= d < |rest| ==> SortKey(rest[d]) != SortKey(Obj(condition))
  {
    hide Indexes, IndexesAll, IsRegistered, IsConditionName;
    var id := SortKey(Obj(condition));
    assert id in ledger.ids <==> exists d :: 0 <= d < |rest| && SortKey(rest[d]) == id;
    assert id in context.existing <==> IsRegistered(inputs.groups, id);
    hide Reflects, Remembers, SortKey;
    IdRelationMeans(context, ledger, condition, id);
  }

  lemma IdRelationMeans(context: Context, ledger: Ledger, condition: Row, id: string)
    requires id == SortKey(Obj(condition))
    ensures ConditionRelation(context, ledger, condition, CONDITION_ID_INVALID) <==>
            Get(condition, ConditionId) == Str(id) && IsConditionName(id) && id !in ledger.ids && id !in context.existing
  {
    hide IsConditionName, Get;
  }

  lemma NewPairMeans(context: Context, ledger: Ledger, rest: seq<Json>, condition: Row)
    requires Remembers(ledger, rest)
    requires Get(condition, EvidenceGroupId).Str? && Get(condition, ConditionSemanticsCode).Str?
    ensures ConditionRelation(context, ledger, condition, CONDITION_SEMANTICS_DUPLICATE) <==>
            forall d :: 0 <= d < |rest| ==>
              || TextOf(rest[d], EvidenceGroupId) != TextOf(Obj(condition), EvidenceGroupId)
              || TextOf(rest[d], ConditionSemanticsCode) != TextOf(Obj(condition), ConditionSemanticsCode)
  {
    var g, code := TextOf(Obj(condition), EvidenceGroupId), TextOf(Obj(condition), ConditionSemanticsCode);
    assert (g, code) in ledger.semantics
      <==> exists d :: 0 <= d < |rest| && TextOf(rest[d], EvidenceGroupId) == g && TextOf(rest[d], ConditionSemanticsCode) == code;
    PairRelationMeans(context, ledger, condition, g, code);
    hide Remembers, TextOf, Get;
  }

  lemma PairRelationMeans(context: Context, ledger: Ledger, condition: Row, g: string, code: string)
    requires Get(condition, EvidenceGroupId) == Str(g) && Get(condition, ConditionSemanticsCode) == Str(code)
    ensures ConditionRelation(context, ledger, condition, CONDITION_SEMANTICS_DUPLICATE)
       <==> (g, code) !in ledger.semantics
  {
    hide Get;
  }

  lemma NewInContract(context: Context, inputs: Inputs, ledger: Ledger, rest: seq<Json>, condition: Row)
    requires Reflects(context, inputs) && Remembers(ledger, rest)
    requires Get(condition, EvidenceGroupId).Str? && Get(condition, ConditionSemanticsCode).Str?
    ensures ConditionRelation(context, ledger, condition, CONDITION_ID_INVALID)
            && ConditionRelation(context, ledger, condition, CONDITION_SEMANTICS_DUPLICATE)
       <==> IdIsSound(inputs, condition) && forall d :: 0 <= d < |rest| ==> AreApart(rest[d], Obj(condition))
  {
    hide Reflects, Remembers, ConditionRelation, IdIsSound, Get, TextOf, SortKey;
    NewIdMeans(context, inputs, ledger, rest, condition);
    NewPairMeans(context, ledger, rest, condition);
    assert (forall d :: 0 <= d < |rest| ==> AreApart(rest[d], Obj(condition))) ==>
             forall d :: 0 <= d < |rest| ==> SortKey(rest[d]) != SortKey(Obj(condition));
  }

  lemma NextConditionMeans(context: Context, inputs: Inputs, ledger: Ledger, rest: seq<Json>, x: Json)
    requires Reflects(context, inputs) && Remembers(ledger, rest)
    ensures ConditionFault(context, ledger, x).None?
       <==> ConditionIsSound(inputs, x) && forall d :: 0 <= d < |rest| ==> AreApart(rest[d], x)
  {
    hide Reflects, Remembers, ConditionFault, ConditionRelation, LineageOf, FieldsAreSound, IdIsSound, GroupIsSound,
         AreApart, Get;
    if x.Obj? {
      OwnRelationsMean(context, ledger, x.fields);
      RelationsMean(context, ledger, x.fields);
      OwnGroupMeans(context, inputs, ledger, x.fields);
      SoundTexts(context, inputs, ledger, x.fields);
      if Get(x.fields, EvidenceGroupId).Str? && Get(x.fields, ConditionSemanticsCode).Str? {
        NewInContract(context, inputs, ledger, rest, x.fields);
      }
    } else {
      NotAnObject(context, ledger, x);
    }
  }

  lemma SoundTexts(context: Context, inputs: Inputs, ledger: Ledger, condition: Row)
    ensures FieldsAreSound(condition) ==> Get(condition, ConditionSemanticsCode).Str?
    ensures ConditionRelation(context, ledger, condition, CONDITION_GROUP_NOT_FOUND) ==> Get(condition, EvidenceGroupId).Str?
    ensures GroupIsSound(inputs, condition) ==> Get(condition, EvidenceGroupId).Str?
  {
    hide Get;
  }

  lemma NotAnObject(context: Context, ledger: Ledger, x: Json)
    requires !x.Obj?
    ensures ConditionFault(context, ledger, x).Some?
  {
  }

  ghost predicate AllApart(conditions: seq<Json>) {
    forall c, d :: 0 <= c < d < |conditions| ==> AreApart(conditions[c], conditions[d])
  }

  lemma {:induction false} ContractMeans(context: Context, inputs: Inputs, conditions: seq<Json>)
    requires Reflects(context, inputs)
    ensures ReadConditions(context, conditions).Success?
       <==> (forall x :: x in conditions ==> ConditionIsSound(inputs, x)) && AllApart(conditions)
    ensures ReadConditions(context, conditions).Success? ==> Remembers(ReadConditions(context, conditions).value, conditions)
  {
    hide Reflects, ConditionFault, ConditionIsSound, AreApart, EnterCondition, Remembers;
    if conditions == [] {
      NothingRemembered();
    } else {
      var rest, last := conditions[..|conditions| - 1], conditions[|conditions| - 1];
      ContractMeans(context, inputs, rest);
      assert conditions == rest + [last];
      ApartStep(rest, last);
      if ReadConditions(context, rest).Success? {
        var ledger := ReadConditions(context, rest).value;
        NextConditionMeans(context, inputs, ledger, rest, last);
        RemembersOne(ledger, rest, last);
      }
      hide AllApart;
    }
  }

  lemma NothingRemembered()
    ensures Remembers(Ledger({}, {}), [])
  {
  }

  lemma ApartStep(rest: seq<Json>, last: Json)
    ensures AllApart(rest + [last]) <==> AllApart(rest) && forall d :: 0 <= d < |rest| ==> AreApart(rest[d], last)
  {
    hide AreApart;
    var all := rest + [last];
    assert forall d :: 0 <= d < |rest| ==> all[d] == rest[d];
    assert all[|rest|] == last;
    if AllApart(all) {
      forall c, d | 0 <= c < d < |rest|
        ensures AreApart(rest[c], rest[d])
      {
        assert AreApart(all[c], all[d]);
      }
      forall d | 0 <= d < |rest|
        ensures AreApart(rest[d], last)
      {
        assert AreApart(all[d], all[|rest|]);
      }
    }
  }

  lemma RemembersOne(ledger: Ledger, rest: seq<Json>, last: Json)
    requires Remembers(ledger, rest)
    ensures Remembers(EnterCondition(ledger, last), rest + [last])
  {
    hide TextOf;
    var all, grown := rest + [last], EnterCondition(ledger, last);
    assert forall d :: 0 <= d < |rest| ==> all[d] == rest[d];
    assert all[|rest|] == last;
    forall id
      ensures id in grown.ids <==> exists d :: 0 <= d < |all| && SortKey(all[d]) == id
    {
      assert id == SortKey(last) ==> SortKey(all[|rest|]) == id;
    }
    forall g, code
      ensures (g, code) in grown.semantics
         <==> exists d :: 0 <= d < |all| && TextOf(all[d], EvidenceGroupId) == g && TextOf(all[d], ConditionSemanticsCode) == code
    {
      if d :| 0 <= d < |rest| && TextOf(rest[d], EvidenceGroupId) == g && TextOf(rest[d], ConditionSemanticsCode) == code {
        assert TextOf(all[d], EvidenceGroupId) == g;
      }
      assert g == TextOf(last, EvidenceGroupId) ==> TextOf(all[|rest|], EvidenceGroupId) == g;
    }
  }

  // ---------------------------------------------------------------- acceptance

  ghost predicate FilesAreSound(inputs: Inputs) {
    && |inputs.groups| == inputs.groupCount
    && AreNamed(inputs.groups, EvidenceGroupId) && AreNamed(inputs.children, ChildId) && AreNamed(inputs.corpus, SourceRecordId)
    && inputs.conditions.Arr? && |inputs.conditions.items| == inputs.conditionCount
    && RegistryIsSound(inputs.groups)
  }

  ghost predicate ContractIsSound(inputs: Inputs) {
    && inputs.conditions.Arr?
    && (forall x :: x in inputs.conditions.items ==> ConditionIsSound(inputs, x)) && AllApart(inputs.conditions.items)
  }

  ghost predicate AllAccepted(schema: Row -> bool, rows: seq<Row>) {
    forall row :: row in rows ==> schema(row)
  }

  lemma AcceptedMeans(schema: Row -> bool, rows: seq<Row>)
    ensures AllValid(schema, rows) <==> AllAccepted(schema, rows)
  {
    if AllAccepted(schema, rows) {
      forall i | 0 <= i < |rows|
        ensures schema(rows[i])
      {
        assert rows[i] in rows;
      }
    }
  }

  lemma ContextMeans(inputs: Inputs)
    ensures ContextOf(inputs).Success? <==> FilesAreSound(inputs) && AllAccepted(inputs.schema, inputs.groups)
    ensures ContextOf(inputs).Success? ==> Reflects(ContextOf(inputs).value, inputs)
  {
    hide IndexRows, AreNamed, RegistryIsSound, CanonicalIds, AllValid, AllAccepted, IndexesAll, IsRegistered;
    AcceptedMeans(inputs.schema, inputs.groups);
    FileIsIndexedIff(inputs.groups, EvidenceGroupId, DUPLICATE_OR_MISSING_GROUP_ID);
    FileIsIndexedIff(inputs.children, ChildId, DUPLICATE_OR_MISSING_CHILD_ID);
    FileIsIndexedIff(inputs.corpus, SourceRecordId, DUPLICATE_OR_MISSING_CORPUS_SOURCE_RECORD_ID);
    CanonicalMeans(inputs.groups);
    if ContextOf(inputs).Success? {
      StrictIndexMeaning(inputs.groups, EvidenceGroupId, DUPLICATE_OR_MISSING_GROUP_ID);
      StrictIndexMeaning(inputs.children, ChildId, DUPLICATE_OR_MISSING_CHILD_ID);
      StrictIndexMeaning(inputs.corpus, SourceRecordId, DUPLICATE_OR_MISSING_CORPUS_SOURCE_RECORD_ID);
    }
  }

  /** Up to the schema of the derived rows, acceptance is soundness of the files and the contract. */
  lemma OverlaySucceedsIff(inputs: Inputs)
    ensures OverlayOf(inputs).Success? <==>
            && FilesAreSound(inputs) && AllAccepted(inputs.schema, inputs.groups) && ContractIsSound(inputs)
            && AllAccepted(inputs.schema, Derive(inputs.groups, inputs.conditions.items))
    ensures OverlayOf(inputs).Success? ==> OverlayOf(inputs).value == Derive(inputs.groups, inputs.conditions.items)
  {
    hide ContextOf, ReadConditions, AreNamed, RegistryIsSound, AllValid, AllAccepted, Derive, ConditionIsSound,
         AllApart, Reflects;
    ContextMeans(inputs);
    if ContextOf(inputs).Success? {
      ContractMeans(ContextOf(inputs).value, inputs, inputs.conditions.items);
      AcceptedMeans(inputs.schema, Derive(inputs.groups, inputs.conditions.items));
    }
  }

  // ---------------------------------------------------------------- the registry that is returned

  /** Both are conditions, and the first one's id comes before the second one's. */
  ghost predicate IdBefore(a: Json, b: Json) {
    exists x, y :: IsCondition(a, x) && IsCondition(b, y) && Before(x, y)
  }

  ghost predicate Ascends(entries: seq<Json>) {
    forall a, b :: 0 <= a < b < |entries| ==> IdBefore(entries[a], entries[b])
  }

  /** The row is the group with its list of conditions extended by the entries meant for it, in ascending order of id. */
  ghost predicate IsDerived(inputs: Inputs, group: Row, row: Row) {
    && inputs.conditions.Arr?
    && row.Keys == group.Keys + {ConsultationConditions} && row[ConsultationConditions].Arr?
    && (forall field :: field in group && field != ConsultationConditions ==> row[field] == group[field])
    && Ascends(EntriesOf(row))
    && forall x :: x in EntriesOf(row) <==> x in EntriesOf(group) || IsAdded(inputs.conditions.items, group, x)
  }

  ghost predicate IsOverlay(inputs: Inputs, derived: seq<Row>) {
    |derived| == |inputs.groups| && forall i :: 0 <= i < |derived| ==> IsDerived(inputs, inputs.groups[i], derived[i])
  }

  /** The same inputs under a schema that accepts everything. */
  ghost function Unchecked(inputs: Inputs): Inputs {
    inputs.(schema := (r: Row) => true)
  }

  lemma UncheckedSucceeds(inputs: Inputs)
    requires FilesAreSound(inputs) && ContractIsSound(inputs)
    ensures OverlayOf(Unchecked(inputs)) == Success(Derive(inputs.groups, inputs.conditions.items))
  {
    hide OverlayOf, AreNamed, RegistryIsSound, AllApart, Derive, ConditionIsSound;
    var free := Unchecked(inputs);
    OverlaySucceedsIff(free);
    SoundForAnySchema(inputs, free);
  }

  lemma SoundForAnySchema(inputs: Inputs, free: Inputs)
    requires ContractIsSound(inputs) && free == inputs.(schema := free.schema)
    ensures ContractIsSound(free)
  {
    hide ConditionIsSound, AllApart;
    forall x | x in free.conditions.items
      ensures ConditionIsSound(free, x)
    {
      SoundConditionForAnySchema(inputs, free, x);
    }
  }

  lemma SoundConditionForAnySchema(inputs: Inputs, free: Inputs, x: Json)
    requires ConditionIsSound(inputs, x) && free == inputs.(schema := free.schema)
    ensures ConditionIsSound(free, x)
  {
    hide LineageIsSound, FieldsAreSound, IsRow, IsConditionName, IsRegistered;
    var g, group :| Get(x.fields, EvidenceGroupId) == Str(g) && IsRow(inputs.groups, EvidenceGroupId, g, group)
                    && LineageIsSound(inputs, group, x.fields);
    SoundLineageForAnySchema(inputs, free, group, x.fields);
  }

  lemma SoundLineageForAnySchema(inputs: Inputs, free: Inputs, group: Row, condition: Row)
    requires LineageIsSound(inputs, group, condition) && free == inputs.(schema := free.schema)
    ensures LineageIsSound(free, group, condition)
  {
    hide HeadRelation, SourceChildRelation, SourceCorpusRelation, IsRow, HasPage, Has, Get;
    forall a, k
      ensures IsSourceText(free, condition, a, k) == IsSourceText(inputs, condition, a, k)
    {
    }
    hide IsSourceText;
    forall c
      ensures SourceIsSound(free, group, c) == SourceIsSound(inputs, group, c)
    {
    }
    forall page
      ensures IsSourcePage(free, condition, page) == IsSourcePage(inputs, condition, page)
    {
    }
  }

  lemma DerivedFields(inputs: Inputs, i: nat)
    requires inputs.conditions.Arr? && i < |inputs.groups|
    ensures var group, row := inputs.groups[i], Derive(inputs.groups, inputs.conditions.items)[i];
            && row.Keys == group.Keys + {ConsultationConditions} && row[ConsultationConditions].Arr?
            && forall field :: field in group && field != ConsultationConditions ==> row[field] == group[field]
  {
    hide SortById, Additions, ConditionList, GroupId;
  }

  /** Every entry of a derived list is a condition with an id. */
  lemma DerivedEntryIsNamed(inputs: Inputs, i: nat, x: Json)
    requires FilesAreSound(inputs) && ContractIsSound(inputs) && i < |inputs.groups|
    requires x in EntriesOf(inputs.groups[i]) || IsAdded(inputs.conditions.items, inputs.groups[i], x)
    ensures IsCondition(x, SortKey(x))
  {
    hide AreNamed, ConditionsDiffer, NamesCondition, AllApart, EntriesOf, LineageIsSound, FieldsAreSound, IsRow,
         IsRegistered;
    if x in EntriesOf(inputs.groups[i]) {
      assert inputs.groups[i] in inputs.groups;
      var id :| IsCondition(x, id);
    } else {
      var c :| 0 <= c < |inputs.conditions.items|
               && IsFor(inputs.conditions.items[c], inputs.groups[i]) && IsEntryOf(x, inputs.conditions.items[c]);
      assert ConditionIsSound(inputs, inputs.conditions.items[c]);
      SoundIdIsNamed(inputs, inputs.conditions.items[c].fields);
    }
  }

  lemma SoundIdIsNamed(inputs: Inputs, condition: Row)
    requires IdIsSound(inputs, condition)
    ensures IsText(Get(condition, ConditionId))
  {
    hide IsRegistered;
  }

  lemma NamedAscend(list: seq<Json>)
    requires StrictlyAscendingIds(list) && forall x :: x in list ==> IsCondition(x, SortKey(x))
    ensures Ascends(list)
  {
    hide SortKey, Before;
    forall a, b | 0 <= a < b < |list|
      ensures IdBefore(list[a], list[b])
    {
      assert IsCondition(list[a], SortKey(list[a])) && IsCondition(list[b], SortKey(list[b]));
    }
  }

  /** What the code derives is an overlay. */
  lemma DerivedIsOverlay(inputs: Inputs)
    requires FilesAreSound(inputs) && ContractIsSound(inputs)
    ensures IsOverlay(inputs, Derive(inputs.groups, inputs.conditions.items))
  {
    hide FilesAreSound, ContractIsSound, OverlayOf, Derive, IsDerived;
    SoundIsList(inputs);
    forall i | 0 <= i < |inputs.groups|
      ensures IsDerived(inputs, inputs.groups[i], Derive(inputs.groups, inputs.conditions.items)[i])
    {
      DerivedRowIsDerived(inputs, i);
    }
    DeriveLength(inputs.groups, inputs.conditions.items);
  }

  lemma SoundIsList(inputs: Inputs)
    ensures FilesAreSound(inputs) ==> inputs.conditions.Arr?
  {
    hide AreNamed, RegistryIsSound;
  }

  lemma DeriveLength(groups: seq<Row>, conditions: seq<Json>)
    ensures |Derive(groups, conditions)| == |groups|
  {
  }

  lemma DerivedMember(inputs: Inputs, i: nat, x: Json)
    requires FilesAreSound(inputs) && ContractIsSound(inputs) && i < |inputs.groups|
    ensures var row := Derive(inputs.groups, inputs.conditions.items)[i];
            && (x in EntriesOf(row) <==> x in EntriesOf(inputs.groups[i]) || IsAdded(inputs.conditions.items, inputs.groups[i], x))
            && (x in EntriesOf(row) ==> IsCondition(x, SortKey(x)))
  {
    SoundIsList(inputs);
    UncheckedSucceeds(inputs);
    hide FilesAreSound, ContractIsSound, OverlayOf, Derive, IsAdded, EntriesOf, SortKey, IsCondition;
    var free, row := Unchecked(inputs), Derive(inputs.groups, inputs.conditions.items)[i];
    DerivedEntries(free, i, x);
    if x in EntriesOf(row) {
      DerivedEntryIsNamed(inputs, i, x);
    }
  }

  lemma DerivedAscends(inputs: Inputs, i: nat)
    requires FilesAreSound(inputs) && ContractIsSound(inputs) && i < |inputs.groups|
    ensures Ascends(EntriesOf(Derive(inputs.groups, inputs.conditions.items)[i]))
  {
    SoundIsList(inputs);
    UncheckedSucceeds(inputs);
    hide FilesAreSound, ContractIsSound, OverlayOf, Derive, IsAdded, EntriesOf, Ascends, StrictlyAscendingIds, SortKey,
         IsCondition, Additions, ConditionList;
    var free, row := Unchecked(inputs), Derive(inputs.groups, inputs.conditions.items)[i];
    DerivedListsAreSorted(free, i);
    EntriesAreList(row);
    forall x | x in EntriesOf(row)
      ensures IsCondition(x, SortKey(x))
    {
      DerivedMember(inputs, i, x);
    }
    NamedAscend(EntriesOf(row));
  }

  lemma DerivedRowIsDerived(inputs: Inputs, i: nat)
    requires FilesAreSound(inputs) && ContractIsSound(inputs) && i < |inputs.groups|
    ensures IsDerived(inputs, inputs.groups[i], Derive(inputs.groups, inputs.conditions.items)[i])
  {
    SoundIsList(inputs);
    hide FilesAreSound, ContractIsSound, Derive, IsAdded, EntriesOf, Ascends, IsCondition, SortKey;
    var row := Derive(inputs.groups, inputs.conditions.items)[i];
    DerivedFields(inputs, i);
    DerivedAscends(inputs, i);
    forall x
      ensures x in EntriesOf(row)
         <==> x in EntriesOf(inputs.groups[i]) || IsAdded(inputs.conditions.items, inputs.groups[i], x)
    {
      DerivedMember(inputs, i, x);
    }
  }

  lemma AscendingMeans(list: seq<Json>)
    requires Ascends(list)
    ensures StrictlyAscendingIds(list) && NoDuplicates(list)
  {
    forall a, b | 0 <= a < b < |list|
      ensures Before(SortKey(list[a]), SortKey(list[b]))
    {
      assert IdBefore(list[a], list[b]);
    }
  }

  /** No group has two overlaid rows. */
  lemma DerivedIsUnique(inputs: Inputs, group: Row, row: Row, other: Row)
    requires IsDerived(inputs, group, row) && IsDerived(inputs, group, other)
    ensures row == other
  {
    hide IsAdded, Ascends, StrictlyAscendingIds;
    AscendingMeans(EntriesOf(row));
    AscendingMeans(EntriesOf(other));
    SameMembersArePermuted(EntriesOf(row), EntriesOf(other));
    StrictOrderIsUnique(EntriesOf(row), EntriesOf(other));
    SameFields(row, other);
  }

  lemma SameFields(row: Row, other: Row)
    requires ConsultationConditions in row && row[ConsultationConditions].Arr? && row.Keys == other.Keys
    requires other[ConsultationConditions].Arr? && EntriesOf(row) == EntriesOf(other)
    requires forall field :: field in row && field != ConsultationConditions ==> row[field] == other[field]
    ensures row == other
  {
    assert row[ConsultationConditions] == other[ConsultationConditions];
  }

  lemma OverlayIsUnique(inputs: Inputs, derived: seq<Row>, other: seq<Row>)
    requires IsOverlay(inputs, derived) && IsOverlay(inputs, other)
    ensures derived == other
  {
    hide IsDerived;
    forall i | 0 <= i < |derived|
      ensures derived[i] == other[i]
    {
      DerivedIsUnique(inputs, inputs.groups[i], derived[i], other[i]);
    }
  }

  /** The overlay is built exactly when the files and the contract are sound and the schema accepts the canonical rows
      and those of an overlay; what is returned is that overlay. */
  lemma OverlayMeans(inputs: Inputs)
    ensures OverlayOf(inputs).Success? <==>
            && FilesAreSound(inputs) && ContractIsSound(inputs) && AllAccepted(inputs.schema, inputs.groups)
            && exists derived :: IsOverlay(inputs, derived) && AllAccepted(inputs.schema, derived)
    ensures forall derived :: OverlayOf(inputs) == Success(derived) ==> IsOverlay(inputs, derived)
  {
    hide OverlayOf, FilesAreSound, ContractIsSound, AllAccepted, IsOverlay, Derive;
    OverlaySucceedsIff(inputs);
    SoundIsList(inputs);
    if FilesAreSound(inputs) && ContractIsSound(inputs) {
      DerivedIsOverlay(inputs);
      forall derived | IsOverlay(inputs, derived)
        ensures derived == Derive(inputs.groups, inputs.conditions.items)
      {
        OverlayIsUnique(inputs, derived, Derive(inputs.groups, inputs.conditions.items));
      }
    }
  }
}
