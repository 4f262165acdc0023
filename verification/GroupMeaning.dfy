/** When an evidence group, its conditions and its children raise nothing. */
module GroupMeaning {
  import opened Collections
  import opened Json
  import opened Compatibility
  import opened CompatibilityTheorems
  import opened FieldRelations
  import opened CheckMeaning
  import opened CaseMeaning

  // ---------------------------------------------------------------- a group on its own

  /** Child and variant lists are nonempty lists of distinct texts, as long as each other. */
  ghost predicate GroupListsAreSound(group: Row) {
    && DistinctTexts(Get(group, ChildIds)) && DistinctTexts(Get(group, SourceVariantIds))
    && Get(group, ChildIds).items != []
    && |Get(group, ChildIds).items| == |Get(group, SourceVariantIds).items|
  }

  lemma GroupListsMean(group: JsonlRow)
    ensures GroupListErrors(group) == [] <==> GroupListsAreSound(group.value)
  {
    hide ListErrors, ListValue, DistinctTexts;
    ListErrorsMean(group, ChildIds, GROUPS, GROUP_CHILD_IDS_INVALID, GROUP_CHILD_ID_DUPLICATE);
    ListErrorsMean(group, SourceVariantIds, GROUPS, GROUP_SOURCE_VARIANT_IDS_INVALID,
                   GROUP_SOURCE_VARIANT_ID_DUPLICATE);
    if DistinctTexts(Get(group.value, ChildIds)) && DistinctTexts(Get(group.value, SourceVariantIds)) {
      DistinctAreTexts(Get(group.value, ChildIds));
      DistinctAreTexts(Get(group.value, SourceVariantIds));
      ListValueMeans(group, ChildIds);
      ListValueMeans(group, SourceVariantIds);
    }
  }

  // ---------------------------------------------------------------- one consultation condition

  /** A row of the child file with this id and a list of pages. */
  ghost predicate ChildWithPages(children: seq<JsonlRow>, id: string, child: JsonlRow) {
    child in children && Get(child.value, ChildId) == Str(id) && PageItems(Get(child.value, PageRefs))
  }

  /** The page is on one of the condition's source children. */
  ghost predicate SourceHasPage(children: seq<JsonlRow>, sources: Json, page: int) {
    sources.Arr? && exists c, child ::
      Str(c) in sources.items && ChildWithPages(children, c, child) && HasPage(Get(child.value, PageRefs), page)
  }

  /** Its source children are children of the group and have pages; its pages are pages of the group and of theirs. */
  ghost predicate ConditionIsLinked(children: seq<JsonlRow>, group: Row, condition: Row) {
    var sources, pages := Get(condition, SourceChildIds), Get(condition, SourcePageRefs);
    && TextItems(sources) && sources.items != []
    && (forall c :: Str(c) in sources.items ==> Has(group, ChildIds, c))
    && (forall c :: Str(c) in sources.items ==> exists child :: ChildWithPages(children, c, child))
    && PageItems(pages) && pages.items != []
    && (forall page :: HasPage(pages, page) ==> HasPage(Get(group, PageRefs), page))
    && (forall page :: HasPage(pages, page) ==> SourceHasPage(children, sources, page))
  }

  ghost predicate ConditionIsSound(children: seq<JsonlRow>, group: Row, condition: Json) {
    && condition.Obj?
    && Get(condition.fields, ConditionId).Str? && Get(condition.fields, ConditionId) != Str("")
    && ConditionIsLinked(children, group, condition.fields)
  }

  /** In a keyed file the index finds exactly the rows. */
  lemma IndexFindsRows(rule: IndexRule, rows: seq<JsonlRow>)
    requires Keyed(rows, rule.field)
    ensures var index := IndexRows(rule, rows).index;
            && (forall id :: id in index ==> id != "" && index[id] in rows && Get(index[id].value, rule.field) == Str(id))
            && (forall id, row :: row in rows && Get(row.value, rule.field) == Str(id) ==> id in index && index[id] == row)
  {
    IndexMeaning(rule, rows);
    var index := IndexRows(rule, rows).index;
    hide IndexRows;
    forall id | id in index
      ensures id != "" && index[id] in rows && Get(index[id].value, rule.field) == Str(id)
    {
      var i :| IdAt(rows, rule.field, i, id) && index[id] == rows[i];
    }
    forall id, row | row in rows && Get(row.value, rule.field) == Str(id)
      ensures id in index && index[id] == row
    {
      var i :| 0 <= i < |rows| && rows[i] == row;
      KeyedRow(rule, rows, i);
    }
  }

  lemma IndexFindsRow(rule: IndexRule, rows: seq<JsonlRow>, id: string)
    requires Keyed(rows, rule.field)
    ensures var index := IndexRows(rule, rows).index;
            id in index ==> id != "" && index[id] in rows && Get(index[id].value, rule.field) == Str(id)
  {
    hide IndexRows, Keyed, Get;
    IndexFindsRows(rule, rows);
  }

  lemma RowIsIndexed(rule: IndexRule, rows: seq<JsonlRow>, id: string, row: JsonlRow)
    requires Keyed(rows, rule.field) && row in rows && Get(row.value, rule.field) == Str(id)
    ensures id in IndexRows(rule, rows).index && IndexRows(rule, rows).index[id] == row
  {
    hide IndexRows, Keyed, Get;
    IndexFindsRows(rule, rows);
  }

  lemma ChildHasPagesMeans(inputs: Inputs, c: string)
    requires Keyed(inputs.children, ChildId)
    ensures ChildHasPages(TablesOf(inputs).children, c) <==> exists child :: ChildWithPages(inputs.children, c, child)
    ensures forall child :: ChildWithPages(inputs.children, c, child) ==>
              c in TablesOf(inputs).children && child == TablesOf(inputs).children[c]
  {
    hide IndexRows, PageItems, IsPageList, ScanGold;
    var children := TablesOf(inputs).children;
    IndexFindsRows(CHILD_RULE, inputs.children);
    if c in children {
      PageListMeans(Get(children[c].value, PageRefs));
      assert children[c] in inputs.children && Get(children[c].value, ChildId) == Str(c);
      assert ChildHasPages(children, c) ==> ChildWithPages(inputs.children, c, children[c]);
    }
  }

  /** The pages selected by a list of children, as a union over the list. */
  lemma {:induction false} SelectionMeans(children: Index, ids: seq<string>)
    ensures SelectedPages(children, ids).Some? <==> forall c :: c in ids ==> ChildHasPages(children, c)
    ensures SelectedPages(children, ids).Some? ==>
              forall page :: page in SelectedPages(children, ids).value
                        <==> exists c :: c in ids && c in children && page in Pages(Get(children[c].value, PageRefs))
  {
    hide ChildHasPages, Pages;
    if ids != [] {
      var rest, last := ids[..|ids| - 1], ids[|ids| - 1];
      SelectionMeans(children, rest);
      assert ids == rest + [last];
      FoundWithPages(children, last);
    }
  }

  lemma FoundWithPages(children: Index, c: string)
    ensures ChildHasPages(children, c) ==> c in children
  {
  }

  lemma SourcesMean(view: View, condition: Row)
    requires TextItems(Get(view.group.value, ChildIds))
    ensures ChildLineageValid(view, condition)
       <==> && TextItems(Get(condition, SourceChildIds)) && Get(condition, SourceChildIds).items != []
            && forall c :: Str(c) in Get(condition, SourceChildIds).items ==> Has(view.group.value, ChildIds, c)
  {
    hide ListValue, Has;
    var sources := Get(condition, SourceChildIds);
    ListValueMeans(view.group, ChildIds);
    TextListMeans(sources);
    if TextItems(sources) {
      TextsMean(sources);
      hide TextItems;
      if ChildLineageValid(view, condition) {
        forall c | Str(c) in sources.items
          ensures Has(view.group.value, ChildIds, c)
        {
          assert c in ToSet(Texts(sources));
        }
      }
    }
  }

  lemma SelectedMeans(inputs: Inputs, view: View, condition: Row)
    requires Keyed(inputs.children, ChildId) && view.children == TablesOf(inputs).children
    requires ChildLineageValid(view, condition)
    ensures var sources, selected := Get(condition, SourceChildIds), SelectedFor(view, condition);
            && (selected.Some? <==> forall c :: Str(c) in sources.items ==> exists child :: ChildWithPages(inputs.children, c, child))
            && (selected.Some? ==>
                  forall page :: page in selected.value <==> page >= 1 && SourceHasPage(inputs.children, sources, page))
  {
    hide TablesOf, SelectedPages, ChildWithPages, HasPage, Pages, ChildHasPages, Get, SourceHasPage;
    var sources, selected := Get(condition, SourceChildIds), SelectedFor(view, condition);
    TextsMean(sources);
    SelectionMeans(view.children, Texts(sources));
    forall c
      ensures ChildHasPages(view.children, c) <==> exists child :: ChildWithPages(inputs.children, c, child)
    {
      ChildHasPagesMeans(inputs, c);
    }
    if selected.Some? {
      forall page
        ensures page in selected.value <==> page >= 1 && SourceHasPage(inputs.children, sources, page)
      {
        SelectedPageMeans(inputs, sources, page);
      }
    }
  }

  lemma SelectedPageMeans(inputs: Inputs, sources: Json, page: int)
    requires Keyed(inputs.children, ChildId) && IsTextList(sources)
    requires SelectedPages(TablesOf(inputs).children, Texts(sources)).Some?
    ensures page in SelectedPages(TablesOf(inputs).children, Texts(sources)).value
       <==> page >= 1 && SourceHasPage(inputs.children, sources, page)
  {
    hide TablesOf, SelectedPages, ChildWithPages, HasPage, Pages, ChildHasPages, Get;
    var children, ids := TablesOf(inputs).children, Texts(sources);
    TextsMean(sources);
    SelectionMeans(children, ids);
    if page in SelectedPages(children, ids).value {
      var c :| c in ids && c in children && page in Pages(Get(children[c].value, PageRefs));
      assert ChildHasPages(children, c);
      ChildHasPagesMeans(inputs, c);
      var child :| ChildWithPages(inputs.children, c, child);
      PagesMean(Get(child.value, PageRefs), page);
      assert Str(c) in sources.items;
    }
    if page >= 1 && SourceHasPage(inputs.children, sources, page) {
      var c, child :|
        Str(c) in sources.items && ChildWithPages(inputs.children, c, child) && HasPage(Get(child.value, PageRefs),
            page);
      ChildHasPagesMeans(inputs, c);
      PagesMean(Get(child.value, PageRefs), page);
    }
  }

  lemma PagesSelected(pages: Json, selected: set<int>, children: seq<JsonlRow>, sources: Json)
    requires PageItems(pages)
    requires forall page :: page in selected <==> page >= 1 && SourceHasPage(children, sources, page)
    ensures Pages(pages) <= selected <==> forall page :: HasPage(pages, page) ==> SourceHasPage(children, sources, page)
  {
    hide PageItems, HasPage, Pages, SourceHasPage;
    if Pages(pages) <= selected {
      forall page | HasPage(pages, page)
        ensures SourceHasPage(children, sources, page)
      {
        PagesArePositive(pages, page);
        PagesMean(pages, page);
        assert page in selected;
      }
    }
    if forall page :: HasPage(pages, page) ==> SourceHasPage(children, sources, page) {
      forall page | page in Pages(pages)
        ensures page in selected
      {
        PagesMean(pages, page);
      }
    }
  }

  lemma LinkedConditionMeans(inputs: Inputs, view: View, condition: Row)
    requires Keyed(inputs.children, ChildId) && view.children == TablesOf(inputs).children
    requires TextItems(Get(view.group.value, ChildIds))
    ensures ChildLineageValid(view, condition) && PageLineageValid(view, condition)
       <==> ConditionIsLinked(inputs.children, view.group.value, condition)
  {
    hide TablesOf, ChildLineageValid, SelectedFor, TextItems, Has, ChildWithPages, Pages, IsPageList, PageItems, HasPage,
         SourceHasPage, Get, Keyed;
    var sources, pages := Get(condition, SourceChildIds), Get(condition, SourcePageRefs);
    SourcesMean(view, condition);
    PageListMeans(pages);
    PageListsAreLists(pages);
    if ChildLineageValid(view, condition) && PageItems(pages) {
      SelectedMeans(inputs, view, condition);
      PageInclusion(pages, Get(view.group.value, PageRefs));
      if SelectedFor(view, condition).Some? {
        PagesSelected(pages, SelectedFor(view, condition).value, inputs.children, sources);
      }
    }
  }

  // ---------------------------------------------------------------- all consultation conditions

  /** A list entry that raises nothing on its own account. */
  ghost predicate EntryIsClean(view: View, entry: Json) {
    && entry.Obj? && IsText(Get(entry.fields, ConditionId))
    && ChildLineageValid(view, entry.fields) && PageLineageValid(view, entry.fields)
  }

  lemma EntryMeans(inputs: Inputs, view: View, entry: Json)
    requires Keyed(inputs.children, ChildId) && view.children == TablesOf(inputs).children
    requires TextItems(Get(view.group.value, ChildIds))
    ensures EntryIsClean(view, entry) <==> ConditionIsSound(inputs.children, view.group.value, entry)
  {
    hide TablesOf, ChildLineageValid, PageLineageValid, TextItems, ConditionIsLinked;
    if entry.Obj? {
      LinkedConditionMeans(inputs, view, entry.fields);
    }
  }

  /** A scan owns what it started with and the ids it met. */
  lemma {:induction false} ScannedIds(view: View, owners: Owners, entries: seq<Json>)
    ensures var grown := ScanConditions(view, owners, entries).owners;
            && (forall id :: id in grown <==> id in owners || NamesCondition(entries, id))
            && (forall id :: id in owners ==> grown[id] == owners[id])
            && (forall id :: id in grown && id !in owners ==> grown[id] == view.id)
  {
    hide ConditionValueErrors;
    if entries != [] {
      var rest, last := entries[..|entries| - 1], entries[|entries| - 1];
      ScannedIds(view, owners, rest);
      assert entries == rest + [last];
      forall id
        ensures NamesCondition(entries, id) <==> NamesCondition(rest, id) || IsCondition(last, id)
      {
        hide IsCondition;
      }
      hide NamesCondition;
    }
  }

  lemma EntryErrorsMean(view: View, owners: Owners, entry: Json)
    ensures ConditionValueErrors(view, owners, entry) == []
       <==> EntryIsClean(view, entry) && forall id :: IsCondition(entry, id) ==> id !in owners
  {
    hide ChildLineageValid, PageLineageValid;
    if entry.Obj? && IsText(Get(entry.fields, ConditionId)) {
      assert IsCondition(entry, Get(entry.fields, ConditionId).s);
    }
  }

  /** A list is scanned without error exactly when its entries are clean and bring ids that are new each time. */
  lemma {:induction false} ConditionScanMeans(view: View, owners: Owners, entries: seq<Json>)
    ensures ScanConditions(view, owners, entries).errors == [] <==>
            && (forall entry :: entry in entries ==> EntryIsClean(view, entry))
            && ConditionsDiffer(entries)
            && (forall id :: NamesCondition(entries, id) ==> id !in owners)
  {
    hide ConditionValueErrors, EntryIsClean, OwnersAfter, IsCondition;
    if entries != [] {
      var rest, last := entries[..|entries| - 1], entries[|entries| - 1];
      ConditionScanMeans(view, owners, rest);
      ScannedIds(view, owners, rest);
      EntryErrorsMean(view, ScanConditions(view, owners, rest).owners, last);
      assert entries == rest + [last];
      NewEntry(rest, last);
      hide ConditionsDiffer;
      forall id
        ensures NamesCondition(entries, id) <==> NamesCondition(rest, id) || IsCondition(last, id)
      {
      }
      hide NamesCondition;
    }
  }

  // ---------------------------------------------------------------- the declared children

  /** A row of the child file with this id, in every relation a declared child owes its group. */
  ghost predicate IsDeclaredChild(children: seq<JsonlRow>, id: string, group: Row, c: string, child: JsonlRow) {
    && child in children && Get(child.value, ChildId) == Str(c)
    && forall code :: ChildRelation(group, child.value, id, code)
  }

  /** A row of the child file with this id and this source variant. */
  ghost predicate HasVariant(children: seq<JsonlRow>, c: string, variant: string, child: JsonlRow) {
    child in children && Get(child.value, ChildId) == Str(c) && Get(child.value, SourceVariantId) == Str(variant)
  }

  lemma DeclaredMean(inputs: Inputs, view: View, c: string)
    requires Keyed(inputs.children, ChildId) && view.children == TablesOf(inputs).children
    ensures DeclaredChildErrors(view, c) == []
       <==> exists child :: IsDeclaredChild(inputs.children, view.id, view.group.value, c, child)
  {
    hide DeclaredChildErrors, ChildRelation, IndexRows, ScanGold, Keyed, Get;
    DeclaredChildMeans(view, c);
    if DeclaredChildErrors(view, c) == [] {
      IndexFindsRow(CHILD_RULE, inputs.children, c);
      assert IsDeclaredChild(inputs.children, view.id, view.group.value, c, view.children[c]);
    }
    forall child | IsDeclaredChild(inputs.children, view.id, view.group.value, c, child)
      ensures c in view.children && view.children[c] == child
    {
      RowIsIndexed(CHILD_RULE, inputs.children, c, child);
    }
  }

  lemma AllDeclaredMean(inputs: Inputs, view: View)
    requires Keyed(inputs.children, ChildId) && view.children == TablesOf(inputs).children
    requires TextItems(Get(view.group.value, ChildIds))
    ensures FlatMap((c: string) => DeclaredChildErrors(view, c), view.ChildIdList()) == [] <==>
            forall c :: Has(view.group.value, ChildIds, c) ==>
              exists child :: IsDeclaredChild(inputs.children, view.id, view.group.value, c, child)
  {
    hide DeclaredChildErrors, TextItems, FlatMap, TablesOf, Keyed, IsDeclaredChild, Has, Get;
    var ids := view.ChildIdList();
    FlatMapEmptyIff((c: string) => DeclaredChildErrors(view, c), ids);
    ListValueMeans(view.group, ChildIds);
    hide ListValue;
    forall c
      ensures DeclaredChildErrors(view, c) == []
         <==> exists child :: IsDeclaredChild(inputs.children, view.id, view.group.value, c, child)
    {
      DeclaredMean(inputs, view, c);
    }
    assert (forall i :: 0 <= i < |ids| ==> DeclaredChildErrors(view, ids[i]) == [])
      <==> (forall c :: c in ids ==> DeclaredChildErrors(view, c) == []);
  }

  /** Every variant of the group is that of one of its children. */
  ghost predicate VariantsAreCovered(children: seq<JsonlRow>, group: Row) {
    forall variant :: Has(group, SourceVariantIds, variant) ==>
      exists c, child :: Has(group, ChildIds, c) && HasVariant(children, c, variant, child)
  }

  /** With all children found and as many variants as children, the multisets agree exactly when no variant is missed. */
  lemma CoverageMeans(inputs: Inputs, view: View)
    requires Keyed(inputs.children, ChildId) && view.children == TablesOf(inputs).children
    requires GroupListsAreSound(view.group.value)
    requires forall c :: Has(view.group.value, ChildIds, c) ==>
               exists child :: IsDeclaredChild(inputs.children, view.id, view.group.value, c, child)
    ensures CoverageErrors(view) == [] <==> VariantsAreCovered(inputs.children, view.group.value)
  {
    hide Keyed, IsDeclaredChild, Has, ListValue, TablesOf, DeclaredChildren, VariantsOf, HasVariant;
    var ids, variants := view.ChildIdList(), view.VariantIds();
    var declared := DeclaredChildren(view);
    DistinctAreTexts(Get(view.group.value, ChildIds));
    DistinctAreTexts(Get(view.group.value, SourceVariantIds));
    ListValueMeans(view.group, ChildIds);
    ListValueMeans(view.group, SourceVariantIds);
    hide DistinctTexts, Get;
    forall i | 0 <= i < |ids|
      ensures ids[i] in view.children && Get(view.children[ids[i]].value, SourceVariantId).Str?
    {
      assert ids[i] in ids && Has(view.group.value, ChildIds, ids[i]);
      DeclaredHasVariant(inputs, view, ids[i]);
    }
    DeclaredInOrder(view);
    VariantsInOrder(declared);
    var found := VariantsOf(declared);
    forall variant
      ensures variant in found <==>
              exists c, child :: Has(view.group.value, ChildIds, c) && HasVariant(inputs.children, c, variant, child)
    {
      FoundVariantMeans(inputs, view, variant);
    }
    if CoverageErrors(view) == [] {
      PermutationKeepsMembers(found, variants);
    }
    if VariantsAreCovered(inputs.children, view.group.value) {
      forall variant | variant in variants
        ensures variant in found
      {
        assert Has(view.group.value, SourceVariantIds, variant);
      }
      CoveringIsPermutation(found, variants);
    }
  }

  lemma DeclaredInOrder(view: View)
    requires forall i :: 0 <= i < |view.ChildIdList()| ==> view.ChildIdList()[i] in view.children
    ensures |DeclaredChildren(view)| == |view.ChildIdList()|
    ensures forall i :: 0 <= i < |view.ChildIdList()| ==> DeclaredChildren(view)[i] == view.children[view.ChildIdList()[i]]
  {
    hide ListValue;
    AllFound(view.children, view.ChildIdList());
  }

  lemma DeclaredHasVariant(inputs: Inputs, view: View, c: string)
    requires Keyed(inputs.children, ChildId) && view.children == TablesOf(inputs).children
    requires exists child :: IsDeclaredChild(inputs.children, view.id, view.group.value, c, child)
    ensures c in view.children && Get(view.children[c].value, SourceVariantId).Str?
  {
    hide IndexRows, Keyed, ScanGold, ChildRelation, Get;
    var child :| IsDeclaredChild(inputs.children, view.id, view.group.value, c, child);
    ListedVariantIsText(view.group.value, child.value, view.id);
    IndexFindsRows(CHILD_RULE, inputs.children);
    assert view.children[c] == child;
  }

  lemma ListedVariantIsText(group: Row, child: Row, id: string)
    requires ChildRelation(group, child, id, CHILD_SOURCE_VARIANT_LINEAGE_MISMATCH)
    ensures Get(child, SourceVariantId).Str?
  {
  }

  lemma VariantOfRow(inputs: Inputs, c: string, variant: string)
    requires Keyed(inputs.children, ChildId)
    ensures var index := TablesOf(inputs).children;
            && (c in index && Get(index[c].value, SourceVariantId) == Str(variant) ==>
                  HasVariant(inputs.children, c, variant, index[c]))
            && forall child :: HasVariant(inputs.children, c, variant, child) ==> c in index && index[c] == child
  {
    hide Keyed, Get, IndexRows, ScanGold;
    IndexFindsRows(CHILD_RULE, inputs.children);
  }

  lemma FoundVariantMeans(inputs: Inputs, view: View, variant: string)
    requires Keyed(inputs.children, ChildId) && view.children == TablesOf(inputs).children
    requires TextItems(Get(view.group.value, ChildIds))
    requires forall i :: 0 <= i < |view.ChildIdList()| ==>
               && view.ChildIdList()[i] in view.children
               && Get(view.children[view.ChildIdList()[i]].value, SourceVariantId).Str?
    ensures variant in VariantsOf(DeclaredChildren(view)) <==>
            exists c, child :: Has(view.group.value, ChildIds, c) && HasVariant(inputs.children, c, variant, child)
  {
    hide Keyed, Has, DeclaredChildren, VariantsOf, TextItems, Get, TablesOf, ListValue;
    var ids, found := view.ChildIdList(), VariantsOf(DeclaredChildren(view));
    ListValueMeans(view.group, ChildIds);
    DeclaredInOrder(view);
    VariantsInOrder(DeclaredChildren(view));
    if variant in found {
      var i :| 0 <= i < |found| && found[i] == variant;
      VariantOfRow(inputs, ids[i], variant);
      assert ids[i] in ids;
    }
    if c, child :| Has(view.group.value, ChildIds, c) && HasVariant(inputs.children, c, variant, child) {
      var i :| 0 <= i < |ids| && ids[i] == c;
      VariantOfRow(inputs, c, variant);
      assert Str(found[i]) == Str(variant);
    }
  }
}
