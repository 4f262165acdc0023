/** What a successful overlay preserves, adds and guarantees to the compatibility checker. */
module OverlayTheorems {
  import opened Collections
  import opened Json
  import opened Sorting
  import opened Overlay

  // ---------------------------------------------------------------- sorting by id

  ghost predicate StrictlyAscendingIds(items: seq<Json>) {
    forall i, j :: 0 <= i < j < |items| ==> Before(SortKey(items[i]), SortKey(items[j]))
  }

  function Keys(items: seq<Json>): (keys: seq<string>)
    ensures |keys| == |items|
    ensures forall i :: 0 <= i < |items| ==> keys[i] == SortKey(items[i])
  {
    seq(|items|, i requires 0 <= i < |items| => SortKey(items[i]))
  }

  lemma IdOrderIsTotal()
    ensures TotalPreorder(IdAtMost)
  {
    forall x, y
      ensures IdAtMost(x, y) || IdAtMost(y, x)
    {
      AtMostIsTotal(SortKey(x), SortKey(y));
    }
    forall x, y, z | IdAtMost(x, y) && IdAtMost(y, z)
      ensures IdAtMost(x, z)
    {
      AtMostIsTransitive(SortKey(x), SortKey(y), SortKey(z));
    }
  }

  /** The sort is a permutation in ascending order of id. */
  lemma SortSorts(items: seq<Json>)
    ensures multiset(SortById(items)) == multiset(items)
    ensures Ascending(IdAtMost, SortById(items))
  {
    IdOrderIsTotal();
    SortIsAscendingPermutation(IdAtMost, items);
  }

  /** With distinct ids the order is strict. */
  lemma SortIsStrict(items: seq<Json>)
    requires NoDuplicates(Keys(items))
    ensures StrictlyAscendingIds(SortById(items))
  {
    SortSorts(items);
    var sorted := SortById(items);
    forall i, j | 0 <= i < j < |sorted|
      ensures SortKey(sorted[i]) != SortKey(sorted[j])
    {
      DistinctKeysOfPermutation(items, sorted, i, j);
    }
  }

  lemma KeysConcat(a: seq<Json>, b: seq<Json>)
    ensures Keys(a + b) == Keys(a) + Keys(b)
  {
  }

  lemma {:induction false} KeysMultiset(s: seq<Json>, t: seq<Json>)
    requires multiset(s) == multiset(t)
    ensures multiset(Keys(s)) == multiset(Keys(t))
    decreases |s|
  {
    hide Keys;
    PermutationKeepsMembers(s, t);
    if s == [] {
      assert Keys(s) == Keys(t);
    } else {
      var j := TakeOut(s, t);
      KeysMultiset(s[1..], t[..j] + t[j + 1..]);
      assert s == [s[0]] + s[1..];
      KeysConcat([s[0]], s[1..]);
      KeysConcat(t[..j], [s[0]] + t[j + 1..]);
      KeysConcat([s[0]], t[j + 1..]);
      KeysConcat(t[..j], t[j + 1..]);
    }
  }

  lemma DistinctKeysOfPermutation(s: seq<Json>, t: seq<Json>, i: nat, j: nat)
    requires NoDuplicates(Keys(s)) && multiset(s) == multiset(t) && i < j < |t|
    ensures SortKey(t[i]) != SortKey(t[j])
  {
    KeysMultiset(s, t);
    PermutationKeepsDistinctness(Keys(t), Keys(s));
    assert Keys(t)[i] != Keys(t)[j];
  }

  /** The strictly ascending arrangement of given entries is unique, so the result does not depend on how it is sorted. */
  lemma StrictOrderIsUnique(s: seq<Json>, t: seq<Json>)
    requires StrictlyAscendingIds(s) && StrictlyAscendingIds(t) && multiset(s) == multiset(t)
    ensures s == t
  {
    forall x, y | x in s && y in s && IdAtMost(x, y) && IdAtMost(y, x)
      ensures x == y
    {
      AtMostIsAntisymmetric(SortKey(x), SortKey(y));
      var i :| 0 <= i < |s| && s[i] == x;
      var j :| 0 <= j < |s| && s[j] == y;
    }
    AscendingIsUnique(IdAtMost, s, t);
  }

  // ---------------------------------------------------------------- accepted inputs

  /** An accepted contract condition, seen on its own. */
  ghost predicate ConditionOk(context: Context, condition: Json) {
    && condition.Obj?
    && Get(condition.fields, ConditionId).Str? && IsConditionId(Get(condition.fields, ConditionId).s)
    && Get(condition.fields, ConditionId).s !in context.existing
    && Get(condition.fields, EvidenceGroupId).Str?
    && Get(condition.fields, EvidenceGroupId).s in context.groups
    && LineageFault(context, context.groups[Get(condition.fields, EvidenceGroupId).s], condition.fields).None?
  }

  lemma FaultlessCondition(context: Context, ledger: Ledger, condition: Json)
    requires ConditionFault(context, ledger, condition).None?
    ensures ConditionOk(context, condition) && SortKey(condition) !in ledger.ids
  {
    hide LineageFault, IsConditionId;
  }

  lemma KeysLast(items: seq<Json>)
    requires items != []
    ensures Keys(items) == Keys(items[..|items| - 1]) + [SortKey(items[|items| - 1])]
  {
    assert items == items[..|items| - 1] + [items[|items| - 1]];
  }

  /** Accepted contract conditions are all well linked and carry distinct ids. */
  lemma {:induction false} AcceptedConditions(context: Context, conditions: seq<Json>)
    requires ReadConditions(context, conditions).Success?
    ensures forall i :: 0 <= i < |conditions| ==> ConditionOk(context, conditions[i])
    ensures NoDuplicates(Keys(conditions))
    ensures ReadConditions(context, conditions).value.ids == ToSet(Keys(conditions))
  {
    hide ConditionFault, ConditionOk, Keys, NoDuplicates;
    if conditions == [] {
      KeysOfNone();
    } else {
      var n := |conditions| - 1;
      var rest, last := conditions[..n], conditions[n];
      AcceptedConditions(context, rest);
      FaultlessCondition(context, ReadConditions(context, rest).value, last);
      KeysLast(conditions);
      SingleIsDistinct(SortKey(last));
      NoDuplicatesConcat(Keys(rest), [SortKey(last)]);
      ToSetConcat(Keys(rest), [SortKey(last)]);
      assert forall i :: 0 <= i < n ==> conditions[i] == rest[i];
    }
  }

  lemma KeysOfNone()
    ensures Keys([]) == [] && NoDuplicates(Keys([]))
  {
  }

  lemma SingleIsDistinct(x: string)
    ensures NoDuplicates([x])
  {
  }

  /** All condition ids of the registry, group after group. */
  function AllKeys(groups: seq<Row>): seq<string> {
    if groups == [] then [] else AllKeys(groups[..|groups| - 1]) + Keys(ConditionList(groups[|groups| - 1]))
  }

  lemma {:induction false} CanonicalListMeaning(ids: set<string>, conditions: seq<Json>)
    requires AddCanonicalIds(ids, conditions).Success?
    ensures AddCanonicalIds(ids, conditions).value == ids + ToSet(Keys(conditions))
    ensures NoDuplicates(Keys(conditions)) && ids !! ToSet(Keys(conditions))
    ensures forall i :: 0 <= i < |conditions| ==> conditions[i].Obj? && IsText(Get(conditions[i].fields, ConditionId))
  {
    hide Keys, NoDuplicates;
    if conditions == [] {
      KeysOfNone();
    } else {
      var n := |conditions| - 1;
      var rest, last := conditions[..n], conditions[n];
      CanonicalListMeaning(ids, rest);
      KeysLast(conditions);
      SingleIsDistinct(SortKey(last));
      NoDuplicatesConcat(Keys(rest), [SortKey(last)]);
      ToSetConcat(Keys(rest), [SortKey(last)]);
      assert forall i :: 0 <= i < n ==> conditions[i] == rest[i];
    }
  }

  /** The canonical ids are pairwise distinct across the whole registry. */
  lemma {:induction false} CanonicalMeaning(groups: seq<Row>)
    requires CanonicalIds(groups).Success?
    ensures CanonicalIds(groups).value == ToSet(AllKeys(groups))
    ensures NoDuplicates(AllKeys(groups))
    ensures forall i :: 0 <= i < |groups| ==> Get(groups[i], ConsultationConditions).Arr?
  {
    hide AddCanonicalIds, Keys, ConditionList;
    if groups != [] {
      var n := |groups| - 1;
      CanonicalMeaning(groups[..n]);
      var before := CanonicalIds(groups[..n]).value;
      CanonicalListMeaning(before, ConditionList(groups[n]));
      DisjointMembers(AllKeys(groups[..n]), Keys(ConditionList(groups[n])));
      NoDuplicatesConcat(AllKeys(groups[..n]), Keys(ConditionList(groups[n])));
      ToSetConcat(AllKeys(groups[..n]), Keys(ConditionList(groups[n])));
    }
  }

  ghost predicate Named(rows: seq<Row>, field: Field, i: int, id: string) {
    0 <= i < |rows| && id != "" && Get(rows[i], field) == Str(id)
  }

  /** Every row is named, no two alike, and the index finds each by its name. */
  ghost predicate IndexesAll(index: Index, rows: seq<Row>, field: Field) {
    && (forall i :: 0 <= i < |rows| ==> IsText(Get(rows[i], field)))
    && (forall i, id :: Named(rows, field, i, id) ==> id in index && index[id] == rows[i])
    && (forall i, j, id :: Named(rows, field, i, id) && Named(rows, field, j, id) ==> i == j)
    && (forall id :: id in index ==> exists i :: Named(rows, field, i, id))
  }

  lemma NamedSnoc(rest: seq<Row>, row: Row, field: Field, i: int, id: string)
    ensures Named(rest + [row], field, i, id)
       <==> Named(rest, field, i, id) || (i == |rest| && id != "" && Get(row, field) == Str(id))
  {
  }

  lemma IndexesAllSnoc(index: Index, rest: seq<Row>, row: Row, field: Field, id: string)
    requires IndexesAll(index, rest, field) && Get(row, field) == Str(id) && id != "" && id !in index
    ensures IndexesAll(index[id := row], rest + [row], field)
  {
    NamesSnoc(index, rest, row, field, id);
    var rows, grown := rest + [row], index[id := row];
    assert IsText(Get(row, field));
    hide Named, Get, IsText;
    forall i | 0 <= i < |rows|
      ensures IsText(Get(rows[i], field))
    {
      assert i < |rest| ==> rows[i] == rest[i];
    }
    forall k | k in grown
      ensures exists i :: Named(rows, field, i, k)
    {
      NamedSnoc(rest, row, field, |rest|, k);
      if k != id {
        var i :| Named(rest, field, i, k);
        NamedSnoc(rest, row, field, i, k);
      }
    }
  }

  lemma NamesSnoc(index: Index, rest: seq<Row>, row: Row, field: Field, id: string)
    requires IndexesAll(index, rest, field) && Get(row, field) == Str(id) && id != "" && id !in index
    ensures forall i, k :: Named(rest + [row], field, i, k) ==> k in index[id := row] && index[id := row][k] == (rest + [row])[i]
    ensures forall i, j, k :: Named(rest + [row], field, i, k) && Named(rest + [row], field, j, k) ==> i == j
  {
    hide Get, IsText;
    var rows := rest + [row];
    forall i, k | Named(rows, field, i, k)
      ensures k in index[id := row] && index[id := row][k] == rows[i]
    {
      NamedSnoc(rest, row, field, i, k);
      assert i < |rest| ==> rows[i] == rest[i];
    }
    forall i, j, k | Named(rows, field, i, k) && Named(rows, field, j, k)
      ensures i == j
    {
      NamedSnoc(rest, row, field, i, k);
      NamedSnoc(rest, row, field, j, k);
    }
  }

  lemma {:induction false} StrictIndexMeaning(rows: seq<Row>, field: Field, fault: Fault)
    requires IndexRows(rows, field, fault).Success?
    ensures IndexesAll(IndexRows(rows, field, fault).value, rows, field)
  {
    if rows != [] {
      hide IndexesAll;
      var n := |rows| - 1;
      StrictIndexMeaning(rows[..n], field, fault);
      IndexesAllSnoc(IndexRows(rows[..n], field, fault).value, rows[..n], rows[n], field, Get(rows[n], field).s);
      assert rows == rows[..n] + [rows[n]];
    }
  }

  // ---------------------------------------------------------------- conservation

  /** All conditions of the registry. */
  ghost function Bag(groups: seq<Row>): multiset<Json> {
    if groups == [] then multiset{} else Bag(groups[..|groups| - 1]) + multiset(ConditionList(groups[|groups| - 1]))
  }

  ghost function AdditionBag(groups: seq<Row>, conditions: seq<Json>): multiset<Json> {
    if groups == [] then multiset{}
    else AdditionBag(groups[..|groups| - 1], conditions) + multiset(Additions(conditions, GroupId(groups[|groups| - 1])))
  }

  ghost function StrippedBag(conditions: seq<Json>): multiset<Json> {
    if conditions == [] then multiset{}
    else StrippedBag(conditions[..|conditions| - 1]) + multiset{Stripped(conditions[|conditions| - 1])}
  }

  lemma DerivedList(group: Row, additions: seq<Json>)
    ensures ConditionList(DeriveGroup(group, additions)) == SortById(ConditionList(group) + additions)
  {
  }

  lemma {:induction false} DerivedBag(groups: seq<Row>, conditions: seq<Json>)
    ensures Bag(Derive(groups, conditions)) == Bag(groups) + AdditionBag(groups, conditions)
  {
    hide ConditionList, DeriveGroup, Additions, GroupId;
    if groups != [] {
      var n := |groups| - 1;
      DerivedBag(groups[..n], conditions);
      assert Derive(groups, conditions)[..n] == Derive(groups[..n], conditions);
      var additions := Additions(conditions, GroupId(groups[n]));
      DerivedList(groups[n], additions);
      SortSorts(ConditionList(groups[n]) + additions);
    }
  }

  lemma {:induction false} NoAdditions(groups: seq<Row>)
    ensures AdditionBag(groups, []) == multiset{}
  {
    if groups != [] {
      NoAdditions(groups[..|groups| - 1]);
    }
  }

  ghost predicate DistinctIds(groups: seq<Row>) {
    forall i, j :: 0 <= i < j < |groups| ==> GroupId(groups[i]) != GroupId(groups[j])
  }

  ghost predicate HasGroup(groups: seq<Row>, id: string) {
    exists i :: 0 <= i < |groups| && GroupId(groups[i]) == id
  }

  /** One more condition adds one entry in all, in its own group. */
  lemma {:induction false} OneMoreAddition(groups: seq<Row>, rest: seq<Json>, last: Json)
    requires DistinctIds(groups)
    ensures AdditionBag(groups, rest + [last])
         == AdditionBag(groups, rest)
            + if HasGroup(groups, TextOf(last, EvidenceGroupId)) then multiset{Stripped(last)} else multiset{}
  {
    hide GroupId, TextOf, Stripped;
    if groups != [] {
      var n := |groups| - 1;
      var id := TextOf(last, EvidenceGroupId);
      OneMoreAddition(groups[..n], rest, last);
      assert (rest + [last])[..|rest|] == rest;
      HasGroupSnoc(groups, id);
      if GroupId(groups[n]) == id {
        assert !HasGroup(groups[..n], id);
      }
    }
  }

  lemma HasGroupSnoc(groups: seq<Row>, id: string)
    requires groups != []
    ensures HasGroup(groups, id) <==> HasGroup(groups[..|groups| - 1], id) || GroupId(groups[|groups| - 1]) == id
  {
    hide GroupId;
    var n := |groups| - 1;
    if HasGroup(groups[..n], id) {
      var i :| 0 <= i < n && GroupId(groups[..n][i]) == id;
      assert groups[i] == groups[..n][i];
    }
  }

  lemma {:induction false} AdditionsAreStripped(groups: seq<Row>, conditions: seq<Json>)
    requires DistinctIds(groups)
    requires forall i :: 0 <= i < |conditions| ==> HasGroup(groups, TextOf(conditions[i], EvidenceGroupId))
    ensures AdditionBag(groups, conditions) == StrippedBag(conditions)
  {
    hide HasGroup, TextOf, Stripped;
    if conditions == [] {
      NoAdditions(groups);
    } else {
      var rest, last := conditions[..|conditions| - 1], conditions[|conditions| - 1];
      assert conditions == rest + [last];
      assert StrippedBag(conditions) == StrippedBag(rest) + multiset{Stripped(last)};
      hide AdditionBag, StrippedBag, DistinctIds;
      AdditionsAreStripped(groups, rest);
      OneMoreAddition(groups, rest, last);
    }
  }

  lemma {:induction false} StrippedBagSize(conditions: seq<Json>)
    ensures |StrippedBag(conditions)| == |conditions|
  {
    if conditions != [] {
      StrippedBagSize(conditions[..|conditions| - 1]);
    }
  }

  lemma AcceptedContext(inputs: Inputs)
    requires OverlayOf(inputs).Success?
    ensures inputs.conditions.Arr? && ContextOf(inputs).Success?
    ensures ReadConditions(ContextOf(inputs).value, inputs.conditions.items).Success?
    ensures OverlayOf(inputs).value == Derive(inputs.groups, inputs.conditions.items)
    ensures CanonicalIds(inputs.groups) == Success(ContextOf(inputs).value.existing)
    ensures IndexRows(inputs.groups, EvidenceGroupId, DUPLICATE_OR_MISSING_GROUP_ID) == Success(ContextOf(inputs).value.groups)
    ensures IndexRows(inputs.children, ChildId, DUPLICATE_OR_MISSING_CHILD_ID) == Success(ContextOf(inputs).value.children)
  {
    hide ReadConditions, IndexRows, CanonicalIds, Derive;
  }

  lemma AcceptedGroups(inputs: Inputs)
    requires OverlayOf(inputs).Success?
    ensures DistinctIds(inputs.groups)
    ensures forall i :: 0 <= i < |inputs.groups| ==> GroupId(inputs.groups[i]) != ""
    ensures forall g :: g in ContextOf(inputs).value.groups ==> HasGroup(inputs.groups, g)
    ensures forall i :: 0 <= i < |inputs.groups| ==>
              GroupId(inputs.groups[i]) in ContextOf(inputs).value.groups
              && ContextOf(inputs).value.groups[GroupId(inputs.groups[i])] == inputs.groups[i]
  {
    AcceptedContext(inputs);
    hide ReadConditions, IndexRows, CanonicalIds, ContextOf, OverlayOf;
    StrictIndexMeaning(inputs.groups, EvidenceGroupId, DUPLICATE_OR_MISSING_GROUP_ID);
    NamedGroups(ContextOf(inputs).value.groups, inputs.groups);
  }

  lemma NamedGroups(index: Index, groups: seq<Row>)
    requires IndexesAll(index, groups, EvidenceGroupId)
    ensures DistinctIds(groups)
    ensures forall i :: 0 <= i < |groups| ==> GroupId(groups[i]) != ""
    ensures forall g :: g in index ==> HasGroup(groups, g)
    ensures forall i :: 0 <= i < |groups| ==> GroupId(groups[i]) in index && index[GroupId(groups[i])] == groups[i]
  {
    forall i | 0 <= i < |groups|
      ensures Named(groups, EvidenceGroupId, i, GroupId(groups[i]))
    {
    }
    forall g | g in index
      ensures HasGroup(groups, g)
    {
      var i :| Named(groups, EvidenceGroupId, i, g);
      assert GroupId(groups[i]) == g;
    }
  }

  /** Conditions are conserved: the registry gains exactly the contract's conditions, one entry each. */
  lemma ConditionsAreConserved(inputs: Inputs)
    requires OverlayOf(inputs).Success?
    ensures var derived := OverlayOf(inputs).value;
            && inputs.conditions.Arr?
            && Bag(derived) == Bag(inputs.groups) + StrippedBag(inputs.conditions.items)
            && |Bag(derived)| == |Bag(inputs.groups)| + |inputs.conditions.items|
  {
    AcceptedContext(inputs);
    AcceptedGroups(inputs);
    hide OverlayOf, ContextOf, ReadConditions, Derive;
    var conditions := inputs.conditions.items;
    AcceptedConditions(ContextOf(inputs).value, conditions);
    forall i | 0 <= i < |conditions|
      ensures HasGroup(inputs.groups, TextOf(conditions[i], EvidenceGroupId))
    {
      assert ConditionOk(ContextOf(inputs).value, conditions[i]);
    }
    hide HasGroup, ConditionOk;
    DerivedBag(inputs.groups, conditions);
    AdditionsAreStripped(inputs.groups, conditions);
    StrippedBagSize(conditions);
  }

  /** Nothing but the condition lists moves: same rows, same order, same other fields. */
  lemma OnlyConditionsChange(inputs: Inputs)
    requires OverlayOf(inputs).Success?
    ensures var derived := OverlayOf(inputs).value;
            && |derived| == |inputs.groups|
            && forall i, f :: 0 <= i < |derived| && f != ConsultationConditions ==>
                 (f in derived[i] <==> f in inputs.groups[i]) && Get(derived[i], f) == Get(inputs.groups[i], f)
  {
    AcceptedContext(inputs);
    hide OverlayOf, ContextOf, ReadConditions;
  }

  // ---------------------------------------------------------------- each derived list

  lemma StrippedKeepsId(condition: Json)
    ensures SortKey(Stripped(condition)) == SortKey(condition)
  {
  }

  /** An addition comes from a contract condition of that group, and keeps its id. */
  lemma {:induction false} AdditionsComeFrom(conditions: seq<Json>, group: string, x: Json)
    ensures x in Additions(conditions, group) <==>
            exists i :: 0 <= i < |conditions| && TextOf(conditions[i], EvidenceGroupId) == group && x == Stripped(conditions[i])
  {
    hide TextOf, Stripped;
    if conditions != [] {
      var n := |conditions| - 1;
      AdditionsComeFrom(conditions[..n], group, x);
      assert forall i :: 0 <= i < n ==> conditions[..n][i] == conditions[i];
    }
  }

  lemma {:induction false} AdditionKeysDistinct(conditions: seq<Json>, group: string)
    requires NoDuplicates(Keys(conditions))
    ensures NoDuplicates(Keys(Additions(conditions, group)))
    ensures forall k :: k in Keys(Additions(conditions, group)) ==> k in Keys(conditions)
  {
    hide TextOf, Stripped, NoDuplicates, Keys;
    if conditions == [] {
      KeysOfNone();
    } else {
      var rest, last := conditions[..|conditions| - 1], conditions[|conditions| - 1];
      KeysLast(conditions);
      DistinctPrefix(Keys(rest), SortKey(last));
      AdditionKeysDistinct(rest, group);
      if TextOf(last, EvidenceGroupId) == group {
        KeysLast(Additions(conditions, group));
        StrippedKeepsId(last);
        SingleIsDistinct(SortKey(last));
        assert Additions(conditions, group)[..|Additions(rest, group)|] == Additions(rest, group);
        NoDuplicatesConcat(Keys(Additions(rest, group)), [SortKey(last)]);
      } else {
        assert Additions(conditions, group) == Additions(rest, group);
      }
    }
  }

  lemma DistinctPrefix(keys: seq<string>, last: string)
    requires NoDuplicates(keys + [last])
    ensures NoDuplicates(keys) && last !in keys
  {
    var all := keys + [last];
    assert forall i :: 0 <= i < |keys| ==> keys[i] == all[i];
    assert all[|keys|] == last;
  }

  /** The canonical ids of one group are among the registry's, and distinct. */
  lemma {:induction false} ListKeysWithin(groups: seq<Row>, i: nat)
    requires i < |groups| && NoDuplicates(AllKeys(groups))
    ensures NoDuplicates(Keys(ConditionList(groups[i])))
    ensures forall k :: k in Keys(ConditionList(groups[i])) ==> k in AllKeys(groups)
    decreases |groups|
  {
    hide Keys, ConditionList;
    var n := |groups| - 1;
    var rest, list := AllKeys(groups[..n]), Keys(ConditionList(groups[n]));
    DistinctParts(rest, list);
    if i < n {
      ListKeysWithin(groups[..n], i);
    }
  }

  lemma DistinctParts(a: seq<string>, b: seq<string>)
    requires NoDuplicates(a + b)
    ensures NoDuplicates(a) && NoDuplicates(b) && forall k :: k in a ==> k !in b
  {
    var s := a + b;
    assert forall i :: 0 <= i < |a| ==> a[i] == s[i];
    assert forall i :: 0 <= i < |b| ==> b[i] == s[|a| + i];
  }

  /** Ids of two different canonical groups never meet. */
  lemma {:induction false} ListKeysDisjoint(groups: seq<Row>, i: nat, j: nat)
    requires i < j < |groups| && NoDuplicates(AllKeys(groups))
    ensures forall k :: k in Keys(ConditionList(groups[i])) ==> k !in Keys(ConditionList(groups[j]))
    decreases |groups|
  {
    hide Keys, ConditionList;
    var n := |groups| - 1;
    DistinctParts(AllKeys(groups[..n]), Keys(ConditionList(groups[n])));
    if j < n {
      ListKeysDisjoint(groups[..n], i, j);
    } else {
      ListKeysWithin(groups[..n], i);
      assert groups[..n][i] == groups[i];
    }
  }

  /** What acceptance says about all ids at once. */
  lemma AcceptedIds(inputs: Inputs)
    requires OverlayOf(inputs).Success?
    ensures inputs.conditions.Arr?
    ensures NoDuplicates(AllKeys(inputs.groups)) && NoDuplicates(Keys(inputs.conditions.items))
    ensures forall k :: k in Keys(inputs.conditions.items) ==> k !in AllKeys(inputs.groups)
    ensures forall i :: 0 <= i < |inputs.conditions.items| ==> ConditionOk(ContextOf(inputs).value, inputs.conditions.items[i])
  {
    AcceptedContext(inputs);
    hide OverlayOf, ContextOf, ReadConditions, CanonicalIds, AllKeys;
    var context, conditions := ContextOf(inputs).value, inputs.conditions.items;
    AcceptedConditions(context, conditions);
    CanonicalMeaning(inputs.groups);
    forall k | k in Keys(conditions)
      ensures k !in AllKeys(inputs.groups)
    {
      var i :| 0 <= i < |conditions| && Keys(conditions)[i] == k;
      assert ConditionOk(context, conditions[i]);
      assert k in AllKeys(inputs.groups) ==> k in context.existing;
    }
  }

  lemma DerivedListOf(inputs: Inputs, i: nat)
    requires OverlayOf(inputs).Success? && inputs.conditions.Arr? && i < |inputs.groups|
    ensures |OverlayOf(inputs).value| == |inputs.groups|
    ensures ConditionList(OverlayOf(inputs).value[i])
         == SortById(ConditionList(inputs.groups[i]) + Additions(inputs.conditions.items, GroupId(inputs.groups[i])))
  {
    AcceptedContext(inputs);
    hide OverlayOf, ContextOf, ReadConditions, SortById, Additions;
  }

  /** Each derived list is the one strictly ascending arrangement of the canonical entries and the additions. */
  lemma DerivedListsAreSorted(inputs: Inputs, i: nat)
    requires OverlayOf(inputs).Success? && i < |inputs.groups|
    ensures inputs.conditions.Arr? && |OverlayOf(inputs).value| == |inputs.groups|
    ensures var list := ConditionList(OverlayOf(inputs).value[i]);
            var entries := ConditionList(inputs.groups[i]) + Additions(inputs.conditions.items, GroupId(inputs.groups[i]));
            && StrictlyAscendingIds(list)
            && multiset(list) == multiset(entries)
            && forall other :: StrictlyAscendingIds(other) && multiset(other) == multiset(entries) ==> other == list
  {
    AcceptedIds(inputs);
    DerivedListOf(inputs, i);
    hide OverlayOf, ContextOf, AllKeys, Additions, ConditionList, Keys, StrictlyAscendingIds, NoDuplicates,
         ConditionOk, SortById;
    var canonical := ConditionList(inputs.groups[i]);
    var additions := Additions(inputs.conditions.items, GroupId(inputs.groups[i]));
    ListKeysWithin(inputs.groups, i);
    AdditionKeysDistinct(inputs.conditions.items, GroupId(inputs.groups[i]));
    KeysConcat(canonical, additions);
    NoDuplicatesConcat(Keys(canonical), Keys(additions));
    SortIsStrict(canonical + additions);
    SortSorts(canonical + additions);
    var list := SortById(canonical + additions);
    forall other | StrictlyAscendingIds(other) && multiset(other) == multiset(canonical + additions)
      ensures other == list
    {
      StrictOrderIsUnique(other, list);
    }
  }

  /** A contract condition appears, stripped, in its own group's list and in no other. */
  lemma ConditionLandsInOneGroup(inputs: Inputs, c: nat, i: nat)
    requires OverlayOf(inputs).Success? && inputs.conditions.Arr? && c < |inputs.conditions.items| && i < |inputs.groups|
    ensures |OverlayOf(inputs).value| == |inputs.groups|
    ensures Stripped(inputs.conditions.items[c]) in ConditionList(OverlayOf(inputs).value[i])
       <==> GroupId(inputs.groups[i]) == TextOf(inputs.conditions.items[c], EvidenceGroupId)
  {
    AcceptedIds(inputs);
    DerivedListOf(inputs, i);
    hide OverlayOf, ContextOf, AllKeys, ConditionList, NoDuplicates, ConditionOk, SortById, TextOf, Stripped, GroupId;
    var conditions, group := inputs.conditions.items, inputs.groups[i];
    var x := Stripped(conditions[c]);
    var canonical, additions := ConditionList(group), Additions(conditions, GroupId(group));
    SortSorts(canonical + additions);
    PermutationKeepsMembers(SortById(canonical + additions), canonical + additions);
    StrippedKeepsId(conditions[c]);
    ListKeysWithin(inputs.groups, i);
    NotCanonical(canonical, x, conditions, c);
    AdditionsComeFrom(conditions, GroupId(group), x);
    forall d | 0 <= d < |conditions| && Stripped(conditions[d]) == x
      ensures d == c
    {
      StrippedKeepsId(conditions[d]);
      if d != c {
        OtherIndexOtherKey(conditions, c, d);
      }
    }
  }

  lemma NotCanonical(canonical: seq<Json>, x: Json, conditions: seq<Json>, c: nat)
    requires c < |conditions| && SortKey(x) == SortKey(conditions[c])
    requires forall k :: k in Keys(canonical) ==> k !in Keys(conditions)
    ensures x !in canonical
  {
    assert Keys(conditions)[c] in Keys(conditions);
    forall i | 0 <= i < |canonical|
      ensures canonical[i] != x
    {
      assert Keys(canonical)[i] in Keys(canonical);
    }
  }

  lemma OtherIndexOtherKey(conditions: seq<Json>, c: nat, d: nat)
    requires c < |conditions| && d < |conditions| && NoDuplicates(Keys(conditions)) && c != d
    ensures SortKey(conditions[c]) != SortKey(conditions[d])
  {
    assert Keys(conditions)[c] != Keys(conditions)[d];
  }
}
