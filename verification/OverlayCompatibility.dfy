/** The overlaid registry, read back by the compatibility checker, raises no condition error. */
module OverlayCompatibility {
  import opened Collections
  import opened Json
  import opened Overlay
  import opened OverlayTheorems
  import C = Compatibility
  import CT = CompatibilityTheorems

  /** `files` holds the derived registry and the overlay's own child rows. */
  ghost predicate Presents(files: C.Inputs, inputs: Inputs) {
    && OverlayOf(inputs).Success?
    && |files.groups| == |inputs.groups| && |OverlayOf(inputs).value| == |inputs.groups|
    && (forall i :: 0 <= i < |files.groups| ==> files.groups[i].value == OverlayOf(inputs).value[i])
    && |files.children| == |inputs.children|
    && (forall i :: 0 <= i < |files.children| ==> files.children[i].value == inputs.children[i])
  }

  ghost predicate ConditionIsClean(view: C.View, condition: Json) {
    && condition.Obj? && IsText(Get(condition.fields, ConditionId))
    && C.ChildLineageValid(view, condition.fields) && C.PageLineageValid(view, condition.fields)
  }

  /** The canonical registry is clean on its own: child lists are text lists, canonical conditions are well linked. */
  ghost predicate CleanCanonical(files: C.Inputs, inputs: Inputs) {
    forall i :: 0 <= i < |inputs.groups| ==>
      && IsTextList(Get(inputs.groups[i], ChildIds))
      && forall x :: x in ConditionList(inputs.groups[i]) ==> ConditionIsClean(ViewAt(files, inputs, i), x)
  }

  /** A derived group as the checker sees it. */
  ghost function ViewAt(files: C.Inputs, inputs: Inputs, i: int): C.View
    requires 0 <= i < |inputs.groups|
  {
    C.View(GroupId(inputs.groups[i]), if i < |files.groups| then files.groups[i] else C.JsonlRow(0, map[]),
           C.TablesOf(files).children)
  }

  // ---------------------------------------------------------------- one contract condition

  lemma KnownChild(files: C.Inputs, inputs: Inputs, c: string)
    requires Presents(files, inputs) && ContextOf(inputs).Success?
    requires IndexRows(inputs.children, ChildId, DUPLICATE_OR_MISSING_CHILD_ID) == Success(ContextOf(inputs).value.children)
    requires c in ContextOf(inputs).value.children
    ensures c in C.TablesOf(files).children
    ensures C.TablesOf(files).children[c].value == ContextOf(inputs).value.children[c]
  {
    hide OverlayOf, ContextOf, IndexRows, C.IndexRows, C.ScanGold;
    StrictIndexMeaning(inputs.children, ChildId, DUPLICATE_OR_MISSING_CHILD_ID);
    CT.IndexMeaning(C.CHILD_RULE, files.children);
    var index := ContextOf(inputs).value.children;
    var i :| Named(inputs.children, ChildId, i, c);
    assert CT.IdAt(files.children, ChildId, i, c);
    var j :| CT.IdAt(files.children, ChildId, j, c) && C.TablesOf(files).children[c] == files.children[j];
    assert Named(inputs.children, ChildId, j, c);
  }

  lemma StrictPagesArePages(j: Json)
    requires IsStrictPageList(j)
    ensures IsPageList(j) && j.items != []
    ensures forall n :: n in Pages(j) <==> Int(n) in PageKeys(j)
  {
    assert forall i :: 0 <= i < |j.items| ==> IsStrictPage(j.items[i]) && PageKey(j.items[i]) == j.items[i];
    forall n
      ensures n in Pages(j) <==> Int(n) in PageKeys(j)
    {
      if n in Pages(j) {
        var i :| 0 <= i < |j.items| && IsPage(j.items[i]) && PageNumber(j.items[i]) == n;
        assert PageKey(j.items[i]) == Int(n);
      }
      if Int(n) in PageKeys(j) {
        var i :| 0 <= i < |j.items| && PageKey(j.items[i]) == Int(n);
        assert PageNumber(j.items[i]) == n;
      }
    }
  }

  lemma PagesWithin(j: Json, group: Json)
    requires IsStrictPageList(j) && PageKeys(j) <= PageKeys(group)
    ensures Pages(j) <= Pages(group)
  {
    StrictPagesArePages(j);
    forall n | n in Pages(j)
      ensures n in Pages(group)
    {
      var k :| 0 <= k < |j.items| && IsPage(j.items[k]) && PageNumber(j.items[k]) == n;
      assert n >= 1 && Int(n) in PageKeys(group);
      var i :| 0 <= i < |group.items| && PageKey(group.items[i]) == Int(n);
      assert IsPage(group.items[i]) && PageNumber(group.items[i]) == n;
    }
  }

  lemma ChildRowPages(group: Row, child: Row)
    requires ChildRowFault(group, child).None?
    ensures IsStrictPageList(Get(child, PageRefs))
  {
  }

  /** The checker's page selection covers what the overlay's selection covered. */
  lemma {:induction false} SelectionAgrees(files: C.Inputs, inputs: Inputs, group: Row, digest: string,
                                           ids: seq<string>)
    requires Presents(files, inputs) && ContextOf(inputs).Success?
    requires IndexRows(inputs.children, ChildId, DUPLICATE_OR_MISSING_CHILD_ID) == Success(ContextOf(inputs).value.children)
    requires SelectChildren(ContextOf(inputs).value, group, digest, ids).Success?
    ensures var selected := C.SelectedPages(C.TablesOf(files).children, ids);
            && selected.Some?
            && forall n :: Int(n) in SelectChildren(ContextOf(inputs).value, group, digest, ids).value.pages ==> n in selected.value
  {
    hide OverlayOf, ContextOf, IndexRows, C.TablesOf, ChildRowFault, CorpusRowFault, PageKeys, Pages, MatchesIn,
         IsStrictPageList, IsPageList;
    if ids != [] {
      var context, c := ContextOf(inputs).value, ids[|ids| - 1];
      SelectionAgrees(files, inputs, group, digest, ids[..|ids| - 1]);
      assert ChildFault(context, group, c).None?;
      KnownChild(files, inputs, c);
      ChildRowPages(group, context.children[c]);
      StrictPagesArePages(Get(context.children[c], PageRefs));
    }
  }

  lemma HeadFacts(group: Row, condition: Row)
    requires LineageHeadFault(group, condition).None?
    ensures IsDistinctTextList(Get(condition, SourceChildIds)) && IsStrictPageList(Get(condition, SourcePageRefs))
    ensures TextMembers(Get(condition, SourceChildIds)) <= TextMembers(Get(group, ChildIds))
    ensures PageKeys(Get(condition, SourcePageRefs)) <= PageKeys(Get(group, PageRefs))
    ensures Get(condition, SourceConditionSha256).Str?
  {
    hide IsDistinctTextList, IsStrictPageList, TextMembers, PageKeys;
  }

  lemma StrippedFields(condition: Json)
    requires condition.Obj?
    ensures Stripped(condition).Obj?
    ensures forall f :: f in {ConditionId, TriggerType, SourceChildIds, SourcePageRefs} ==>
              Get(Stripped(condition).fields, f) == Get(condition.fields, f)
  {
  }

  lemma TextsWithin(sources: Json, children: Json)
    requires IsTextList(sources) && IsTextList(children) && TextMembers(sources) <= TextMembers(children)
    ensures ToSet(Texts(sources)) <= ToSet(Texts(children))
  {
    TextMembersOfList(sources);
    TextMembersOfList(children);
  }

  lemma TextChildrenMakeClean(files: C.Inputs, inputs: Inputs, i: nat, condition: Json)
    requires Presents(files, inputs) && ContextOf(inputs).Success? && i < |inputs.groups|
    requires IndexRows(inputs.children, ChildId, DUPLICATE_OR_MISSING_CHILD_ID) == Success(ContextOf(inputs).value.children)
    requires IsTextList(Get(inputs.groups[i], ChildIds))
    requires Get(files.groups[i].value, ChildIds) == Get(inputs.groups[i], ChildIds)
    requires Get(files.groups[i].value, PageRefs) == Get(inputs.groups[i], PageRefs)
    requires condition.Obj? && LineageFault(ContextOf(inputs).value, inputs.groups[i], condition.fields).None?
    ensures C.ChildLineageValid(ViewAt(files, inputs, i), Stripped(condition).fields)
    ensures C.PageLineageValid(ViewAt(files, inputs, i), Stripped(condition).fields)
  {
    hide OverlayOf, ContextOf, IndexRows, C.TablesOf, IsDistinctTextList, IsStrictPageList, TextMembers, PageKeys, Pages,
         IsPageList, C.SelectedPages, SelectChildren, LineageHeadFault, Stripped;
    var context, row, group := ContextOf(inputs).value, condition.fields, inputs.groups[i];
    var view := ViewAt(files, inputs, i);
    HeadFacts(group, row);
    StrippedFields(condition);
    var sources, pages := Get(row, SourceChildIds), Get(row, SourcePageRefs);
    DistinctIsList(sources);
    TextsWithin(sources, Get(group, ChildIds));
    StrictPagesArePages(pages);
    PagesWithin(pages, Get(group, PageRefs));
    var digest := Get(row, SourceConditionSha256).s;
    SelectionAgrees(files, inputs, group, digest, Texts(sources));
    var stripped := Stripped(condition).fields;
    assert C.ChildLineageValid(view, stripped);
    assert C.SelectedFor(view, stripped) == C.SelectedPages(C.TablesOf(files).children, Texts(sources));
    forall n | n in Pages(pages)
      ensures n in C.SelectedFor(view, stripped).value
    {
      assert Int(n) in PageKeys(pages);
      assert Int(n) in SelectChildren(context, group, digest, Texts(sources)).value.pages;
    }
  }

  /** A group whose `child_ids` is not a list of texts has no children for the checker. */
  lemma OtherChildrenMakeDirty(view: C.View, condition: Row)
    requires !IsTextList(Get(view.group.value, ChildIds))
    ensures !C.ChildLineageValid(view, condition) && !C.PageLineageValid(view, condition)
  {
    var sources := Get(condition, SourceChildIds);
    if IsTextList(sources) && sources.items != [] {
      assert Texts(sources)[0] in ToSet(Texts(sources));
    }
  }

  /** What passed the overlay's lineage check passes the checker's, unless the group's `child_ids` is malformed. */
  lemma ContractConditionIsClean(files: C.Inputs, inputs: Inputs, i: nat, condition: Json)
    requires Presents(files, inputs) && ContextOf(inputs).Success? && i < |inputs.groups|
    requires IndexRows(inputs.children, ChildId, DUPLICATE_OR_MISSING_CHILD_ID) == Success(ContextOf(inputs).value.children)
    requires Get(files.groups[i].value, ChildIds) == Get(inputs.groups[i], ChildIds)
    requires Get(files.groups[i].value, PageRefs) == Get(inputs.groups[i], PageRefs)
    requires condition.Obj? && LineageFault(ContextOf(inputs).value, inputs.groups[i], condition.fields).None?
    ensures C.ChildLineageValid(ViewAt(files, inputs, i), Stripped(condition).fields)
       <==> IsTextList(Get(inputs.groups[i], ChildIds))
    ensures C.PageLineageValid(ViewAt(files, inputs, i), Stripped(condition).fields)
       <==> IsTextList(Get(inputs.groups[i], ChildIds))
  {
    hide OverlayOf, ContextOf, IndexRows, C.TablesOf, LineageFault, C.ChildLineageValid, C.PageLineageValid;
    if IsTextList(Get(inputs.groups[i], ChildIds)) {
      TextChildrenMakeClean(files, inputs, i, condition);
    } else {
      OtherChildrenMakeDirty(ViewAt(files, inputs, i), Stripped(condition).fields);
    }
  }

  lemma DistinctIsList(j: Json)
    requires IsDistinctTextList(j)
    ensures IsTextList(j) && j.items != []
  {
  }

  // ---------------------------------------------------------------- one derived group

  /** Every condition of a derived group is clean. */
  lemma DerivedConditionIsClean(files: C.Inputs, inputs: Inputs, i: nat, x: Json)
    requires Presents(files, inputs) && CleanCanonical(files, inputs)
    requires i < |inputs.groups| && x in ConditionList(files.groups[i].value)
    ensures ConditionIsClean(ViewAt(files, inputs, i), x)
  {
    hide OverlayOf, ContextOf, IndexRows, C.TablesOf, SortById, AllKeys, Keys, ConditionIsClean, ReadConditions, CanonicalIds,
         Derive, ViewAt, DistinctIds, HasGroup, LineageFault;
    AcceptedContext(inputs);
    AcceptedIds(inputs);
    AcceptedGroups(inputs);
    DerivedListOf(inputs, i);
    OnlyConditionsChange(inputs);
    var conditions, group := inputs.conditions.items, inputs.groups[i];
    var entries := ConditionList(group) + Additions(conditions, GroupId(group));
    SortSorts(entries);
    PermutationKeepsMembers(SortById(entries), entries);
    hide ConditionList, Additions;
    if x in ConditionList(group) {
    } else {
      assert x in Additions(conditions, GroupId(group));
      AdditionsComeFrom(conditions, GroupId(group), x);
      var c :| 0 <= c < |conditions| && TextOf(conditions[c], EvidenceGroupId) == GroupId(group) && x == Stripped(conditions[c]);
      assert ConditionOk(ContextOf(inputs).value, conditions[c]);
      ContractConditionIsClean(files, inputs, i, conditions[c]);
      AdditionIsText(ContextOf(inputs).value, conditions[c]);
      CleanFromParts(ViewAt(files, inputs, i), x);
    }
  }

  lemma CleanFromParts(view: C.View, x: Json)
    requires x.Obj? && IsText(Get(x.fields, ConditionId))
    requires C.ChildLineageValid(view, x.fields) && C.PageLineageValid(view, x.fields)
    ensures ConditionIsClean(view, x)
  {
  }

  lemma AdditionIsText(context: Context, condition: Json)
    requires ConditionOk(context, condition)
    ensures Stripped(condition).Obj? && IsText(Get(Stripped(condition).fields, ConditionId))
  {
    hide LineageFault;
    StrippedFields(condition);
  }

  /** The ids of a derived group: its canonical ids and those of its own contract conditions. */
  lemma DerivedKeys(inputs: Inputs, i: nat)
    requires OverlayOf(inputs).Success? && inputs.conditions.Arr? && i < |inputs.groups|
    ensures |OverlayOf(inputs).value| == |inputs.groups|
    ensures var keys := Keys(ConditionList(OverlayOf(inputs).value[i]));
            && NoDuplicates(keys)
            && forall k :: k in keys ==>
                 || k in Keys(ConditionList(inputs.groups[i]))
                 || k in Keys(Additions(inputs.conditions.items, GroupId(inputs.groups[i])))
  {
    AcceptedIds(inputs);
    DerivedListOf(inputs, i);
    hide OverlayOf, ContextOf, AllKeys, Additions, ConditionList, Keys, NoDuplicates, ConditionOk, SortById;
    var canonical, additions := ConditionList(inputs.groups[i]), Additions(inputs.conditions.items, GroupId(inputs.groups[i]));
    ListKeysWithin(inputs.groups, i);
    AdditionKeysDistinct(inputs.conditions.items, GroupId(inputs.groups[i]));
    KeysConcat(canonical, additions);
    NoDuplicatesConcat(Keys(canonical), Keys(additions));
    SortSorts(canonical + additions);
    KeysMultiset(SortById(canonical + additions), canonical + additions);
    PermutationKeepsDistinctness(Keys(SortById(canonical + additions)), Keys(canonical + additions));
    PermutationKeepsMembers(Keys(SortById(canonical + additions)), Keys(canonical + additions));
  }

  /** Additions of two different groups share no id. */
  lemma AdditionKeysDisjoint(conditions: seq<Json>, g: string, h: string)
    requires NoDuplicates(Keys(conditions)) && g != h
    ensures forall k :: k in Keys(Additions(conditions, g)) ==> k !in Keys(Additions(conditions, h))
  {
    forall a, b | 0 <= a < |Additions(conditions, g)| && 0 <= b < |Additions(conditions, h)|
      ensures SortKey(Additions(conditions, g)[a]) != SortKey(Additions(conditions, h)[b])
    {
      var x, y := Additions(conditions, g)[a], Additions(conditions, h)[b];
      AdditionsComeFrom(conditions, g, x);
      AdditionsComeFrom(conditions, h, y);
      var c :| 0 <= c < |conditions| && TextOf(conditions[c], EvidenceGroupId) == g && x == Stripped(conditions[c]);
      var d :| 0 <= d < |conditions| && TextOf(conditions[d], EvidenceGroupId) == h && y == Stripped(conditions[d]);
      StrippedKeepsId(conditions[c]);
      StrippedKeepsId(conditions[d]);
      OtherIndexOtherKey(conditions, c, d);
    }
  }

  /** Two derived groups share no condition id. */
  lemma DerivedKeysDisjoint(inputs: Inputs, i: nat, j: nat)
    requires OverlayOf(inputs).Success? && i < |inputs.groups| && j < |inputs.groups| && i != j
    ensures |OverlayOf(inputs).value| == |inputs.groups|
    ensures forall k :: k in Keys(ConditionList(OverlayOf(inputs).value[i]))
              ==> k !in Keys(ConditionList(OverlayOf(inputs).value[j]))
  {
    AcceptedIds(inputs);
    AcceptedGroups(inputs);
    DerivedKeys(inputs, i);
    DerivedKeys(inputs, j);
    assert GroupId(inputs.groups[i]) != GroupId(inputs.groups[j]);
    hide OverlayOf, ContextOf, AllKeys, Additions, ConditionList, Keys, NoDuplicates, ConditionOk, GroupId,
         DistinctIds, HasGroup;
    var conditions, g, h := inputs.conditions.items, GroupId(inputs.groups[i]), GroupId(inputs.groups[j]);
    ListKeysWithin(inputs.groups, i);
    ListKeysWithin(inputs.groups, j);
    if i < j {
      ListKeysDisjoint(inputs.groups, i, j);
    } else {
      ListKeysDisjoint(inputs.groups, j, i);
    }
    AdditionKeysDistinct(conditions, g);
    AdditionKeysDistinct(conditions, h);
    AdditionKeysDisjoint(conditions, g, h);
  }

  // ---------------------------------------------------------------- the checker's scan

  /** A clean list with fresh, distinct ids is scanned without error, and its ids become owned. */
  lemma {:induction false} CleanScan(view: C.View, owners: C.Owners, list: seq<Json>)
    requires forall i :: 0 <= i < |list| ==> ConditionIsClean(view, list[i])
    requires NoDuplicates(Keys(list)) && owners.Keys !! ToSet(Keys(list))
    ensures C.ScanConditions(view, owners, list).errors == []
    ensures C.ScanConditions(view, owners, list).owners.Keys == owners.Keys + ToSet(Keys(list))
  {
    hide NoDuplicates, Keys, C.ChildLineageValid, C.PageLineageValid;
    if list == [] {
      KeysOfNone();
    } else {
      var rest, last := list[..|list| - 1], list[|list| - 1];
      KeysLast(list);
      DistinctPrefix(Keys(rest), SortKey(last));
      ToSetConcat(Keys(rest), [SortKey(last)]);
      assert SortKey(last) in ToSet([SortKey(last)]);
      CleanScan(view, owners, rest);
      CleanEntry(view, C.ScanConditions(view, owners, rest).owners, last);
    }
  }

  lemma CleanEntry(view: C.View, owners: C.Owners, x: Json)
    requires ConditionIsClean(view, x) && SortKey(x) !in owners
    ensures C.ConditionValueErrors(view, owners, x) == []
    ensures C.OwnersAfter(view, owners, x) == owners[SortKey(x) := view.id]
  {
    hide C.ChildLineageValid, C.PageLineageValid;
  }

  // ---------------------------------------------------------------- all groups

  /** Row `i` of the derived registry is the checker's row for group `g`. */
  ghost predicate RowIs(files: C.Inputs, inputs: Inputs, g: string, i: int) {
    && 0 <= i < |inputs.groups| && |files.groups| == |inputs.groups| && GroupId(inputs.groups[i]) == g
    && g in C.TablesOf(files).groups && C.TablesOf(files).groups[g] == files.groups[i]
  }

  lemma RowOfGroup(files: C.Inputs, inputs: Inputs, g: string) returns (i: nat)
    requires Presents(files, inputs) && g in C.TablesOf(files).groups
    ensures RowIs(files, inputs, g, i)
    ensures C.TablesOf(files).ViewOf(g) == ViewAt(files, inputs, i)
  {
    hide OverlayOf, C.IndexRows, C.ScanGold;
    CT.IndexMeaning(C.GROUP_RULE, files.groups);
    OnlyConditionsChange(inputs);
    i :| CT.IdAt(files.groups, EvidenceGroupId, i, g) && C.TablesOf(files).groups[g] == files.groups[i];
    assert Get(files.groups[i].value, EvidenceGroupId) == Get(inputs.groups[i], EvidenceGroupId);
  }

  /** The ids owned after scanning `order`: those of its groups' lists. */
  ghost predicate OwnedBy(t: C.Tables, order: seq<string>, owners: C.Owners) {
    forall k :: k in owners ==>
      exists n :: 0 <= n < |order| && order[n] in t.groups && k in Keys(C.ConditionList(t.groups[order[n]]))
  }

  lemma SameConditionList(row: C.JsonlRow)
    ensures C.ConditionList(row) == ConditionList(row.value)
  {
  }

  /** Scanning one more group of the derived registry raises nothing. */
  lemma NextGroupIsClean(files: C.Inputs, inputs: Inputs, order: seq<string>, owners: C.Owners, g: string)
    requires Presents(files, inputs) && CleanCanonical(files, inputs)
    requires g in C.TablesOf(files).groups && g !in order
    requires OwnedBy(C.TablesOf(files), order, owners)
    ensures var t := C.TablesOf(files); var list := C.ConditionList(t.groups[g]);
            var scan := C.ScanConditions(t.ViewOf(g), owners, list);
            && scan.errors == []
            && OwnedBy(t, order + [g], scan.owners)
  {
    hide OverlayOf, C.TablesOf, CleanCanonical, ConditionIsClean, Keys, ConditionList, C.ConditionList, NoDuplicates,
         C.ScanConditions, ViewAt;
    var t := C.TablesOf(files);
    var i := RowOfGroup(files, inputs, g);
    SameConditionList(t.groups[g]);
    var list := C.ConditionList(t.groups[g]);
    forall j | 0 <= j < |list|
      ensures ConditionIsClean(t.ViewOf(g), list[j])
    {
      DerivedConditionIsClean(files, inputs, i, list[j]);
    }
    AcceptedContext(inputs);
    DerivedKeys(inputs, i);
    forall k | k in owners
      ensures k !in Keys(list)
    {
      var n :| 0 <= n < |order| && order[n] in t.groups && k in Keys(C.ConditionList(t.groups[order[n]]));
      var j := RowOfGroup(files, inputs, order[n]);
      SameConditionList(t.groups[order[n]]);
      assert i != j;
      DerivedKeysDisjoint(inputs, j, i);
    }
    CleanScan(t.ViewOf(g), owners, list);
    OwnedGrows(t, order, owners, g, C.ScanConditions(t.ViewOf(g), owners, list).owners);
  }

  lemma OwnedGrows(t: C.Tables, order: seq<string>, owners: C.Owners, g: string, grown: C.Owners)
    requires g in t.groups && OwnedBy(t, order, owners)
    requires grown.Keys == owners.Keys + ToSet(Keys(C.ConditionList(t.groups[g])))
    ensures OwnedBy(t, order + [g], grown)
  {
    hide Keys, C.ConditionList;
    var all := order + [g];
    forall k | k in grown
      ensures exists n :: 0 <= n < |all| && all[n] in t.groups && k in Keys(C.ConditionList(t.groups[all[n]]))
    {
      if k in owners {
        var n :| 0 <= n < |order| && order[n] in t.groups && k in Keys(C.ConditionList(t.groups[order[n]]));
        assert all[n] == order[n];
      } else {
        assert all[|order|] == g;
      }
    }
  }

  lemma {:induction false} ScannedOwners(files: C.Inputs, inputs: Inputs, order: seq<string>)
    requires Presents(files, inputs) && CleanCanonical(files, inputs)
    requires NoDuplicates(order) && forall i :: 0 <= i < |order| ==> order[i] in C.TablesOf(files).groups
    ensures OwnedBy(C.TablesOf(files), order, C.ScanGroups(C.TablesOf(files), order).owners)
  {
    hide Presents, CleanCanonical, C.TablesOf, OwnedBy, C.ErrorsBeforeConditions, C.ErrorsAfterConditions, C.ConditionList,
         C.ScanConditions;
    var t := C.TablesOf(files);
    if order == [] {
      NothingOwned(t);
    } else {
      var rest, g := order[..|order| - 1], order[|order| - 1];
      ScannedOwners(files, inputs, rest);
      NextGroupIsClean(files, inputs, rest, C.ScanGroups(t, rest).owners, g);
      assert order == rest + [g];
    }
  }

  lemma NothingOwned(t: C.Tables)
    ensures OwnedBy(t, [], map[])
  {
  }

  /** Checked in any order of its groups, the derived registry raises no duplicate-id, child-lineage,
      page-lineage or malformed-condition error. */
  lemma DerivedRegistryHasNoConditionErrors(files: C.Inputs, inputs: Inputs, order: seq<string>, n: nat)
    requires Presents(files, inputs) && CleanCanonical(files, inputs)
    requires NoDuplicates(order) && forall i :: 0 <= i < |order| ==> order[i] in C.TablesOf(files).groups
    requires n < |order|
    ensures var t := C.TablesOf(files); var group := t.groups[order[n]];
            && C.ConditionListErrors(group) == []
            && C.ScanConditions(t.ViewOf(order[n]), C.ScanGroups(t, order[..n]).owners, C.ConditionList(group)).errors == []
  {
    hide CleanCanonical, C.TablesOf, OwnedBy, C.ScanGroups, C.ScanConditions, C.ConditionList, OverlayOf;
    var t, rest := C.TablesOf(files), order[..n];
    ScannedOwners(files, inputs, rest);
    assert order[n] !in rest;
    NextGroupIsClean(files, inputs, rest, C.ScanGroups(t, rest).owners, order[n]);
    var i := RowOfGroup(files, inputs, order[n]);
    DerivedConditionsAreLists(inputs, i);
  }

  lemma DerivedConditionsAreLists(inputs: Inputs, i: nat)
    requires OverlayOf(inputs).Success? && i < |inputs.groups|
    ensures |OverlayOf(inputs).value| == |inputs.groups|
    ensures Get(OverlayOf(inputs).value[i], ConsultationConditions).Arr? && ConsultationConditions in OverlayOf(inputs).value[i]
  {
    AcceptedContext(inputs);
    hide OverlayOf, ContextOf, SortById, Additions, ConditionList;
  }
}
