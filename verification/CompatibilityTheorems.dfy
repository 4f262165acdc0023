/** What an error-free compatibility report says about the four files taken together. */
module CompatibilityTheorems {
  import opened Collections
  import opened Json
  import opened Sorting
  import opened Compatibility

  // ---------------------------------------------------------------- unique indexes

  ghost predicate IdAt(rows: seq<JsonlRow>, field: Field, i: int, id: string) {
    0 <= i < |rows| && Get(rows[i].value, field) == Str(id) && id != ""
  }

  /** Every row carries a nonempty identifier and no two rows share one. */
  ghost predicate Keyed(rows: seq<JsonlRow>, field: Field) {
    && (forall i :: 0 <= i < |rows| ==> IsText(Get(rows[i].value, field)))
    && (forall i, j :: 0 <= i < j < |rows| ==> Get(rows[i].value, field) != Get(rows[j].value, field))
  }

  /** The index holds only rows of the file, each under its own identifier, and all of them when the file is keyed. */
  ghost predicate IndexesRows(index: Index, rows: seq<JsonlRow>, field: Field) {
    && (forall id :: id in index ==> exists i :: IdAt(rows, field, i, id) && index[id] == rows[i])
    && (forall i, id :: IdAt(rows, field, i, id) ==> id in index)
  }

  lemma IndexRowStep(before: Indexed, rule: IndexRule, rest: seq<JsonlRow>, row: JsonlRow)
    requires IndexesRows(before.index, rest, rule.field)
    ensures IndexesRows(IndexRow(before, rule, row).index, rest + [row], rule.field)
  {
    var rows, after := rest + [row], IndexRow(before, rule, row).index;
    forall id | id in after
      ensures exists i :: IdAt(rows, rule.field, i, id) && after[id] == rows[i]
    {
      if id in before.index {
        var i :| IdAt(rest, rule.field, i, id) && before.index[id] == rest[i];
        assert IdAt(rows, rule.field, i, id);
      } else {
        assert IdAt(rows, rule.field, |rest|, id);
      }
    }
    forall i, id | IdAt(rows, rule.field, i, id)
      ensures id in after
    {
      if i < |rest| {
        assert IdAt(rest, rule.field, i, id);
      }
    }
  }

  lemma IndexedIff(index: Index, rows: seq<JsonlRow>, field: Field, id: string)
    requires IndexesRows(index, rows, field) && id != ""
    ensures id in index <==> exists i :: 0 <= i < |rows| && Get(rows[i].value, field) == Str(id)
  {
    if i :| 0 <= i < |rows| && Get(rows[i].value, field) == Str(id) {
      assert IdAt(rows, field, i, id);
    }
  }

  /** `row` adds a new identifier to the file. */
  ghost predicate Fresh(rest: seq<JsonlRow>, row: JsonlRow, field: Field) {
    IsText(Get(row.value, field)) && forall i :: 0 <= i < |rest| ==> Get(rest[i].value, field) != Get(row.value, field)
  }

  /** The identifier values of a file, in order. */
  function Identifiers(rows: seq<JsonlRow>, field: Field): (values: seq<Json>)
    ensures |values| == |rows|
    ensures forall i :: 0 <= i < |values| ==> values[i] == Get(rows[i].value, field)
  {
    seq(|rows|, i requires 0 <= i < |rows| => Get(rows[i].value, field))
  }

  lemma KeyedByIdentifiers(rows: seq<JsonlRow>, field: Field)
    ensures var values := Identifiers(rows, field);
            Keyed(rows, field) <==> NoDuplicates(values) && forall i :: 0 <= i < |values| ==> IsText(values[i])
  {
    hide Get, IsText;
    var values := Identifiers(rows, field);
    if Keyed(rows, field) {
      forall i, j | 0 <= i < j < |values|
        ensures values[i] != values[j]
      {
        assert Get(rows[i].value, field) != Get(rows[j].value, field);
      }
    }
    if NoDuplicates(values) && forall i :: 0 <= i < |values| ==> IsText(values[i]) {
      forall i | 0 <= i < |rows|
        ensures IsText(Get(rows[i].value, field))
      {
        assert IsText(values[i]);
      }
      forall i, j | 0 <= i < j < |rows|
        ensures Get(rows[i].value, field) != Get(rows[j].value, field)
      {
        assert values[i] != values[j];
      }
    }
  }

  lemma IdentifiersSnoc(rest: seq<JsonlRow>, row: JsonlRow, field: Field)
    ensures Identifiers(rest + [row], field) == Identifiers(rest, field) + [Get(row.value, field)]
    ensures Fresh(rest, row, field) <==>
            IsText(Get(row.value, field))
            && forall i :: 0 <= i < |rest| ==> Identifiers(rest, field)[i] != Get(row.value, field)
  {
    hide IsText, Get;
  }

  lemma KeyedSnoc(rest: seq<JsonlRow>, row: JsonlRow, field: Field)
    ensures Keyed(rest + [row], field) <==> Keyed(rest, field) && Fresh(rest, row, field)
  {
    hide Keyed, Fresh, Identifiers, Get, IsText;
    KeyedByIdentifiers(rest, field);
    KeyedByIdentifiers(rest + [row], field);
    IdentifiersSnoc(rest, row, field);
    DistinctTextsSnoc(Identifiers(rest, field), Get(row.value, field));
  }

  lemma DistinctTextsSnoc(before: seq<Json>, value: Json)
    ensures var values := before + [value];
            NoDuplicates(values) && (forall i :: 0 <= i < |values| ==> IsText(values[i])) <==>
              && NoDuplicates(before) && (forall i :: 0 <= i < |before| ==> IsText(before[i]))
              && IsText(value) && forall i :: 0 <= i < |before| ==> before[i] != value
  {
    hide IsText;
    var values := before + [value];
    assert forall i :: 0 <= i < |before| ==> values[i] == before[i];
    assert values[|before|] == value;
  }

  lemma {:induction false} IndexMeaning(rule: IndexRule, rows: seq<JsonlRow>)
    ensures IndexesRows(IndexRows(rule, rows).index, rows, rule.field)
    ensures IndexRows(rule, rows).errors == [] <==> Keyed(rows, rule.field)
  {
    hide IndexesRows;
    if rows == [] {
      IndexesNone(rule.field);
    } else {
      var rest, row := rows[..|rows| - 1], rows[|rows| - 1];
      IndexMeaning(rule, rest);
      IndexRowStep(IndexRows(rule, rest), rule, rest, row);
      assert rows == rest + [row];
      KeyedSnoc(rest, row, rule.field);
      if IsText(Get(row.value, rule.field)) {
        IndexedIff(IndexRows(rule, rest).index, rest, rule.field, Get(row.value, rule.field).s);
      }
      hide Keyed;
    }
  }

  lemma IndexesNone(field: Field)
    ensures IndexesRows(map[], [], field)
  {
  }

  /** In a keyed file the identifier determines the row. */
  lemma KeyedRow(rule: IndexRule, rows: seq<JsonlRow>, i: nat)
    requires Keyed(rows, rule.field) && i < |rows|
    ensures var index := IndexRows(rule, rows).index;
            && Get(rows[i].value, rule.field).s in index
            && index[Get(rows[i].value, rule.field).s] == rows[i]
  {
    var index, id := IndexRows(rule, rows).index, Get(rows[i].value, rule.field).s;
    IndexMeaning(rule, rows);
    assert IdAt(rows, rule.field, i, id);
    var j :| IdAt(rows, rule.field, j, id) && index[id] == rows[j];
  }

  /** A keyed file has as many identifiers as rows. */
  lemma {:induction false} KeyedCardinality(rule: IndexRule, rows: seq<JsonlRow>)
    requires Keyed(rows, rule.field)
    ensures |IndexRows(rule, rows).index| == |rows|
  {
    if rows != [] {
      var rest, row := rows[..|rows| - 1], rows[|rows| - 1];
      KeyedCardinality(rule, rest);
      IndexMeaning(rule, rest);
      var id := Get(row.value, rule.field).s;
      var before := IndexRows(rule, rest).index;
      assert id !in before;
      assert before[id := row].Keys == before.Keys + {id};
    }
  }

  // ---------------------------------------------------------------- what PASS forces, pass by pass

  /** An error-free report has error-free passes. */
  lemma PassedParts(inputs: Inputs)
    requires ReportOf(inputs).passed
    ensures IndexErrors(inputs) == [] && FlatMap(CaseErrors, inputs.gold) == []
    ensures GroupScanOf(inputs).errors == [] && LinkScanOf(inputs).errors == []
    ensures var t := TablesOf(inputs);
            && OrphansErrors(t, inputs.children) == []
            && ConditionReferencesErrors(GroupScanOf(inputs).owners, t.gold.conditions) == []
            && AttachmentsErrors(t, inputs.corpus) == []
  {
    hide IndexErrors, FlatMap, GroupScanOf, LinkScanOf, TablesOf, OrphansErrors, ConditionReferencesErrors,
         AttachmentsErrors;
  }

  lemma PassedFilesAreKeyed(inputs: Inputs)
    requires ReportOf(inputs).passed
    ensures Keyed(inputs.groups, EvidenceGroupId) && Keyed(inputs.children, ChildId)
    ensures Keyed(inputs.corpus, SourceRecordId) && Keyed(inputs.corpus, ChunkId) && Keyed(inputs.gold, CaseId)
  {
    PassedParts(inputs);
    IndexMeaning(GROUP_RULE, inputs.groups);
    IndexMeaning(CHILD_RULE, inputs.children);
    IndexMeaning(RECORD_RULE, inputs.corpus);
    IndexMeaning(CHUNK_RULE, inputs.corpus);
    IndexMeaning(GOLD_RULE, inputs.gold);
    hide IndexRows, Keyed;
  }

  lemma {:induction false} GroupErrorsVanish(tables: Tables, order: seq<string>, i: nat)
    requires forall j :: 0 <= j < |order| ==> order[j] in tables.groups
    requires ScanGroups(tables, order).errors == [] && i < |order|
    ensures var view := tables.ViewOf(order[i]);
            ErrorsBeforeConditions(tables, view) == [] && ErrorsAfterConditions(tables, view) == []
    decreases |order|
  {
    hide ErrorsBeforeConditions, ErrorsAfterConditions, ScanConditions;
    var rest := order[..|order| - 1];
    if i < |rest| {
      assert rest[i] == order[i];
      GroupErrorsVanish(tables, rest, i);
    }
  }

  lemma {:induction false} LinkErrorsVanish(tables: Tables, order: seq<string>, i: nat)
    requires forall j :: 0 <= j < |order| ==> order[j] in tables.groups
    requires ScanLinks(tables, order).errors == [] && i < |order|
    ensures GroupLinkErrors(tables, tables.ViewOf(order[i])) == []
    decreases |order|
  {
    hide GroupLinkErrors, LinkedCount;
    var rest := order[..|order| - 1];
    if i < |rest| {
      assert rest[i] == order[i];
      LinkErrorsVanish(tables, rest, i);
    }
  }

  /** Every registered group is free of reference, list, child, coverage and link errors. */
  lemma PassedGroup(inputs: Inputs, g: string)
    requires ReportOf(inputs).passed && g in TablesOf(inputs).groups
    ensures var t := TablesOf(inputs); var view := t.ViewOf(g);
            && ErrorsBeforeConditions(t, view) == []
            && ErrorsAfterConditions(t, view) == []
            && GroupLinkErrors(t, view) == []
  {
    PassedParts(inputs);
    hide ReportOf, TablesOf, ScanGroups, ScanLinks, GroupLinkErrors, ErrorsBeforeConditions, ErrorsAfterConditions,
         SortedKeys;
    var t := TablesOf(inputs);
    var order := SortedKeys(t.groups.Keys);
    SortedKeysAreKeys(t.groups.Keys);
    var i :| 0 <= i < |order| && order[i] == g;
    GroupErrorsVanish(t, order, i);
    LinkErrorsVanish(t, order, i);
  }

  lemma NoFailedChecks(checks: seq<Check>, source: Source, row: JsonlRow, relatedSource: Source, related: JsonlRow)
    ensures FailedChecks(checks, source, row, relatedSource, related) == []
       <==> forall i :: 0 <= i < |checks| ==> checks[i].passed
  {
    FlatMapEmptyIff((c: Check) => if c.passed then [] else [Linked(c.code, source, row, relatedSource, related)],
                    checks);
  }

  // ---------------------------------------------------------------- one group

  /** What an error-free group guarantees about one declared child. */
  ghost predicate ChildLineage(t: Tables, view: View, c: string) {
    && c in t.children
    && var child := t.children[c].value;
    && Get(child, EvidenceGroupId) == Str(view.id)
    && Get(child, ExactSalesCode) == Get(view.group.value, ExactSalesCode)
    && Get(child, DocumentId) == Get(view.group.value, DocumentId)
    && Member(Get(child, SourceVariantId), ToSet(view.VariantIds()))
  }

  lemma DeclaredChildOk(t: Tables, view: View, c: string)
    requires view.children == t.children && DeclaredChildErrors(view, c) == []
    ensures ChildLineage(t, view, c)
  {
    var checks := ChildChecks(view.group, t.children[c], view.id);
    NoFailedChecks(checks, CHILDREN, t.children[c], GROUPS, view.group);
    assert checks[0].passed && checks[1].passed && checks[2].passed;
    hide FlatMap;
  }

  lemma PassedDeclaredChild(inputs: Inputs, g: string, c: string)
    requires ReportOf(inputs).passed && g in TablesOf(inputs).groups
    requires c in TablesOf(inputs).ViewOf(g).ChildIdList()
    ensures ChildLineage(TablesOf(inputs), TablesOf(inputs).ViewOf(g), c)
  {
    hide ReportOf, TablesOf, DeclaredChildErrors, CoverageErrors, UndeclaredErrors, FlatMap, ListValue;
    PassedGroup(inputs, g);
    var t := TablesOf(inputs);
    var view := t.ViewOf(g);
    FlatMapEmptyIff((c: string) => DeclaredChildErrors(view, c), view.ChildIdList());
    var i :| 0 <= i < |view.ChildIdList()| && view.ChildIdList()[i] == c;
    DeclaredChildOk(t, view, c);
  }

  /** The child and variant lists are clean and as long as each other. */
  lemma PassedLists(inputs: Inputs, g: string)
    requires ReportOf(inputs).passed && g in TablesOf(inputs).groups
    ensures var view := TablesOf(inputs).ViewOf(g);
            && IsTextList(Get(view.group.value, ChildIds))
            && NoDuplicates(view.ChildIdList()) && NoDuplicates(view.VariantIds())
            && view.ChildIdList() != [] && |view.ChildIdList()| == |view.VariantIds()|
  {
    hide ReportOf, TablesOf, FlatMap, ConditionListErrors, ErrorsAfterConditions;
    PassedGroup(inputs, g);
    var view := TablesOf(inputs).ViewOf(g);
    assert GroupListErrors(view.group) == [];
  }

  lemma PassedChildGroup(inputs: Inputs, i: nat)
    requires ReportOf(inputs).passed && i < |inputs.children|
    ensures Member(Get(inputs.children[i].value, EvidenceGroupId), TablesOf(inputs).groups.Keys)
  {
    hide ReportOf, TablesOf, FlatMap;
    PassedParts(inputs);
    var t := TablesOf(inputs);
    FlatMapEmptyIff((c: JsonlRow) => OrphanErrors(t, c), inputs.children);
    assert OrphanErrors(t, inputs.children[i]) == [];
  }

  /** A child row belongs to a registered group, and that group declares it. */
  lemma PassedChildRow(inputs: Inputs, i: nat)
    requires ReportOf(inputs).passed && i < |inputs.children|
    ensures var t := TablesOf(inputs);
            var group := Get(inputs.children[i].value, EvidenceGroupId);
            && Member(group, t.groups.Keys)
            && Member(Get(inputs.children[i].value, ChildId), ToSet(t.ViewOf(group.s).ChildIdList()))
  {
    hide ReportOf, TablesOf, FlatMap, CoverageErrors, ListValue, ErrorsBeforeConditions, GroupLinkErrors;
    PassedChildGroup(inputs, i);
    var t := TablesOf(inputs);
    var child := inputs.children[i];
    var g := Get(child.value, EvidenceGroupId).s;
    PassedGroup(inputs, g);
    var view := t.ViewOf(g);
    TablesHoldChildren(inputs);
    FlatMapEmptyIff((c: JsonlRow) => UndeclaredErrors(view, c), t.childRows);
    assert UndeclaredErrors(view, child) == [];
  }

  /** A declared child's corpus row exists and matches it in every respect, group product included. */
  lemma PassedLink(inputs: Inputs, g: string, c: string)
    requires ReportOf(inputs).passed && g in TablesOf(inputs).groups
    requires c in TablesOf(inputs).ViewOf(g).ChildIdList()
    requires c in TablesOf(inputs).children
    ensures IsLinked(TablesOf(inputs), TablesOf(inputs).ViewOf(g), TablesOf(inputs).children[c])
  {
    hide ReportOf, TablesOf, FlatMap, ListValue, CorpusChecks;
    var t := TablesOf(inputs);
    var view, child := t.ViewOf(g), t.children[c];
    PassedGroup(inputs, g);
    PassedDeclaredChild(inputs, g, c);
    DeclaredAreFound(view, c);
    FlatMapEmptyIff((r: JsonlRow) => LinkErrors(t, view, r), DeclaredChildren(view));
    assert LinkErrors(t, view, child) == [];
    var corpus := CorpusOf(t, child);
    NoFailedChecks(CorpusChecks(corpus, child, g), CORPUS, corpus, CHILDREN, child);
    CorpusProductIsChildProduct(corpus, child, g);
  }

  lemma CorpusProductIsChildProduct(corpus: JsonlRow, child: JsonlRow, g: string)
    requires forall i :: 0 <= i < |CorpusChecks(corpus, child, g)| ==> CorpusChecks(corpus, child, g)[i].passed
    ensures Get(corpus.value, ExactSalesCode) == Get(child.value, ExactSalesCode)
  {
    assert CorpusChecks(corpus, child, g)[4].passed;
  }

  lemma DeclaredAreFound(view: View, c: string)
    requires c in view.ChildIdList() && c in view.children
    ensures view.children[c] in DeclaredChildren(view)
  {
    FoundInFlatMap(view.children, view.ChildIdList(), c);
  }

  lemma {:induction false} FoundInFlatMap(children: Index, ids: seq<string>, c: string)
    requires c in ids && c in children
    ensures children[c] in FlatMap((x: string) => Found(children, x), ids)
  {
    var rest := ids[..|ids| - 1];
    if ids[|ids| - 1] != c {
      assert c in rest;
      FoundInFlatMap(children, rest, c);
    }
  }

  // ---------------------------------------------------------------- the three-way bijection

  /** The group a child row names. */
  ghost function OwnerOf(t: Tables, c: string): string
    requires c in t.children
  {
    var group := Get(t.children[c].value, EvidenceGroupId);
    if group.Str? then group.s else ""
  }

  ghost predicate Declares(t: Tables, g: string, c: string) {
    g in t.groups && c in t.ViewOf(g).ChildIdList()
  }

  ghost predicate IsAttached(t: Tables, corpus: JsonlRow) {
    Attached(t, corpus) != {}
  }

  /** Registered groups declare exactly the child rows, each by the one group it names. */
  lemma DeclaredExactlyByOwner(inputs: Inputs, g: string, c: string)
    requires ReportOf(inputs).passed
    ensures var t := TablesOf(inputs);
            Declares(t, g, c) <==> c in t.children && g == OwnerOf(t, c)
  {
    hide ReportOf, ListValue, IndexRows;
    var t := TablesOf(inputs);
    if Declares(t, g, c) {
      PassedDeclaredChild(inputs, g, c);
    }
    if c in t.children && g == OwnerOf(t, c) {
      PassedFilesAreKeyed(inputs);
      IndexMeaning(CHILD_RULE, inputs.children);
      var i :| IdAt(inputs.children, ChildId, i, c) && t.children[c] == inputs.children[i];
      PassedChildRow(inputs, i);
      MemberOfList(Get(inputs.children[i].value, ChildId), t.ViewOf(g).ChildIdList());
    }
  }

  lemma MemberOfList(j: Json, list: seq<string>)
    requires Member(j, ToSet(list))
    ensures j.s in list
  {
  }

  /** A corpus row attached to registered groups is some child's row, attached to that child's group alone. */
  lemma AttachedOnlyToOwner(inputs: Inputs, i: nat)
    requires ReportOf(inputs).passed && i < |inputs.corpus| && IsAttached(TablesOf(inputs), inputs.corpus[i])
    ensures var t, record := TablesOf(inputs), Get(inputs.corpus[i].value, SourceRecordId);
            && Member(record, t.children.Keys)
            && Member(record, t.corpus.Keys) && t.corpus[record.s] == inputs.corpus[i]
            && Attached(t, inputs.corpus[i]) == {OwnerOf(t, record.s)}
  {
    hide ReportOf, FlatMap, ListValue, IndexRows, SortedKeys, GroupIdsAttached, ScanGold;
    var t := TablesOf(inputs);
    var row := inputs.corpus[i];
    PassedAttachment(inputs, i);
    var g :| g in Attached(t, row);
    var record := Get(row.value, SourceRecordId).s;
    assert forall g' :: g' in Attached(t, row) ==> g' == OwnerOf(t, record);
    PassedFilesAreKeyed(inputs);
    KeyedRow(RECORD_RULE, inputs.corpus, i);
  }

  lemma PassedAttachment(inputs: Inputs, i: nat)
    requires ReportOf(inputs).passed && i < |inputs.corpus|
    ensures forall g :: g in Attached(TablesOf(inputs), inputs.corpus[i])
              ==> AttachmentOk(TablesOf(inputs), inputs.corpus[i], g)
  {
    hide ReportOf, FlatMap, TablesOf, AttachmentErrors, AttachmentOk, Attached;
    var t := TablesOf(inputs);
    PassedParts(inputs);
    FlatMapEmptyIff((c: JsonlRow) => AttachmentErrors(t, c), inputs.corpus);
    forall g | g in Attached(t, inputs.corpus[i])
      ensures AttachmentOk(t, inputs.corpus[i], g)
    {
      NoAttachmentError(t, inputs.corpus[i], g);
    }
  }

  lemma NoAttachmentError(t: Tables, row: JsonlRow, g: string)
    requires AttachmentErrors(t, row) == [] && g in Attached(t, row)
    ensures AttachmentOk(t, row, g)
  {
    hide AttachmentOk, SortedKeys, Attached;
    var order := SortedKeys(Attached(t, row));
    FlatMapEmptyIff((g: string) => If(!AttachmentOk(t, row, g), CORPUS_GROUP_ATTACHED_TO_UNREGISTERED_CHILD, CORPUS, row), order);
    SortedKeysAreKeys(Attached(t, row));
    var i :| 0 <= i < |order| && order[i] == g;
  }

  lemma LinkedRowIsAttached(t: Tables, view: View, child: JsonlRow)
    requires view.id in t.groups && IsLinked(t, view, child)
    ensures view.id in Attached(t, CorpusOf(t, child))
  {
    assert CorpusChecks(CorpusOf(t, child), child, view.id)[7].passed;
  }

  /** Every child has a corpus row of its own, attached to the child's group alone. */
  lemma ChildHasAttachedRow(inputs: Inputs, c: string)
    requires ReportOf(inputs).passed && c in TablesOf(inputs).children
    ensures var t := TablesOf(inputs);
            && c in t.corpus && t.corpus[c] in inputs.corpus
            && Get(t.corpus[c].value, SourceRecordId) == Str(c)
            && Attached(t, t.corpus[c]) == {OwnerOf(t, c)}
            && IsLinked(t, t.ViewOf(OwnerOf(t, c)), t.children[c])
  {
    hide ReportOf, ListValue, IndexRows, GroupIdsAttached, ScanGold, CorpusMatches;
    var t := TablesOf(inputs);
    DeclaredExactlyByOwner(inputs, OwnerOf(t, c), c);
    PassedLink(inputs, OwnerOf(t, c), c);
    PassedFilesAreKeyed(inputs);
    IndexMeaning(CHILD_RULE, inputs.children);
    IndexMeaning(RECORD_RULE, inputs.corpus);
    var i :| IdAt(inputs.children, ChildId, i, c) && t.children[c] == inputs.children[i];
    var j :| IdAt(inputs.corpus, SourceRecordId, j, c) && t.corpus[c] == inputs.corpus[j];
    LinkedRowIsAttached(t, t.ViewOf(OwnerOf(t, c)), t.children[c]);
    AttachedOnlyToOwner(inputs, j);
  }

  // ---------------------------------------------------------------- counting the links

  lemma {:induction false} AllFound(children: Index, ids: seq<string>)
    requires forall i :: 0 <= i < |ids| ==> ids[i] in children
    ensures var found := FlatMap((c: string) => Found(children, c), ids);
            |found| == |ids| && forall i :: 0 <= i < |ids| ==> found[i] == children[ids[i]]
  {
    if ids != [] {
      AllFound(children, ids[..|ids| - 1]);
    }
  }

  /** Every child a group declares is linked. */
  lemma AllDeclaredAreLinked(inputs: Inputs, g: string)
    requires ReportOf(inputs).passed && g in TablesOf(inputs).groups
    ensures LinkedCount(TablesOf(inputs), TablesOf(inputs).ViewOf(g)) == |TablesOf(inputs).ViewOf(g).ChildIdList()|
  {
    hide ReportOf, TablesOf, ListValue, IsLinked, FlatMap, Count;
    var t := TablesOf(inputs);
    var view := t.ViewOf(g);
    var ids := view.ChildIdList();
    forall i | 0 <= i < |ids|
      ensures ids[i] in t.children && IsLinked(t, view, t.children[ids[i]])
    {
      PassedDeclaredChild(inputs, g, ids[i]);
      PassedLink(inputs, g, ids[i]);
    }
    AllFound(t.children, ids);
    CountAll((c: JsonlRow) => IsLinked(t, view, c), DeclaredChildren(view));
  }

  /** All declared child ids, group after group. */
  ghost function DeclaredIds(t: Tables, order: seq<string>): seq<string>
    requires forall i :: 0 <= i < |order| ==> order[i] in t.groups
  {
    if order == [] then []
    else DeclaredIds(t, order[..|order| - 1]) + t.ViewOf(order[|order| - 1]).ChildIdList()
  }

  lemma {:induction false} DeclaredIdsMembers(t: Tables, order: seq<string>, c: string)
    requires forall i :: 0 <= i < |order| ==> order[i] in t.groups
    ensures c in DeclaredIds(t, order) <==> exists i :: 0 <= i < |order| && Declares(t, order[i], c)
  {
    if order != [] {
      var rest := order[..|order| - 1];
      DeclaredIdsMembers(t, rest, c);
      assert order == rest + [order[|order| - 1]];
    }
  }

  lemma {:induction false} LinksAreCounted(inputs: Inputs, order: seq<string>)
    requires ReportOf(inputs).passed
    requires NoDuplicates(order) && forall i :: 0 <= i < |order| ==> order[i] in TablesOf(inputs).groups
    ensures var t := TablesOf(inputs);
            && NoDuplicates(DeclaredIds(t, order))
            && ScanLinks(t, order).linked == |DeclaredIds(t, order)|
            && ScanLinks(t, order).candidates == ToSet(order)
  {
    hide ReportOf, TablesOf, ListValue, LinkedCount, GroupLinkErrors;
    if order != [] {
      var t, n := TablesOf(inputs), |order| - 1;
      var rest, g := order[..n], order[n];
      LinksAreCounted(inputs, rest);
      AllDeclaredAreLinked(inputs, g);
      PassedLists(inputs, g);
      SplitLastSet(order);
      forall c | c in DeclaredIds(t, rest)
        ensures c !in t.ViewOf(g).ChildIdList()
      {
        DeclaredIdsMembers(t, rest, c);
        var i :| 0 <= i < |rest| && Declares(t, rest[i], c);
        DeclaredExactlyByOwner(inputs, rest[i], c);
        DeclaredExactlyByOwner(inputs, g, c);
        assert order[i] != g;
      }
      NoDuplicatesConcat(DeclaredIds(t, rest), t.ViewOf(g).ChildIdList());
    }
  }

  /** The declared (group, child) pairs. */
  ghost function DeclaredPairs(t: Tables): set<(string, string)> {
    set g, c | g in t.groups && c in t.ViewOf(g).ChildIdList() :: (g, c)
  }

  /** The positions of corpus rows attached to some registered group. */
  ghost function AttachedRows(inputs: Inputs): set<int> {
    set i | 0 <= i < |inputs.corpus| && IsAttached(TablesOf(inputs), inputs.corpus[i])
  }

  ghost function RecordOf(inputs: Inputs, i: int): string {
    if 0 <= i < |inputs.corpus| && Get(inputs.corpus[i].value, SourceRecordId).Str?
    then Get(inputs.corpus[i].value, SourceRecordId).s else ""
  }

  /** Declared pairs and child rows: each child is paired with its owner and with no other group. */
  lemma DeclaredPairsAreChildren(inputs: Inputs)
    requires ReportOf(inputs).passed
    ensures var t := TablesOf(inputs);
            && DeclaredPairs(t) == (set c | c in t.children :: (OwnerOf(t, c), c))
            && |DeclaredPairs(t)| == |inputs.children|
  {
    hide ReportOf, ListValue, IndexRows, OwnerOf, ScanGold;
    var t := TablesOf(inputs);
    var pairs := set c | c in t.children :: (OwnerOf(t, c), c);
    forall p: (string, string)
      ensures p in DeclaredPairs(t) <==> p in pairs
    {
      DeclaredExactlyByOwner(inputs, p.0, p.1);
      assert p in DeclaredPairs(t) <==> Declares(t, p.0, p.1);
    }
    assert DeclaredPairs(t) == pairs;
    OwnerPairsCardinality(t);
    PassedFilesAreKeyed(inputs);
    KeyedCardinality(CHILD_RULE, inputs.children);
  }

  lemma OwnerPairsCardinality(t: Tables)
    ensures |set c | c in t.children :: (OwnerOf(t, c), c)| == |t.children|
  {
    hide OwnerOf;
    var pairs := set c | c in t.children :: (OwnerOf(t, c), c);
    BijectionCardinality(t.children.Keys, pairs, c requires c in t.children => (OwnerOf(t, c), c));
  }

  lemma AttachedRowIsChild(inputs: Inputs, i: int)
    requires ReportOf(inputs).passed && i in AttachedRows(inputs)
    ensures RecordOf(inputs, i) in TablesOf(inputs).children
    ensures Get(inputs.corpus[i].value, SourceRecordId) == Str(RecordOf(inputs, i))
  {
    AttachedOnlyToOwner(inputs, i);
    hide ReportOf, TablesOf, Attached, OwnerOf;
  }

  lemma AttachedRowAt(inputs: Inputs, i: int)
    requires 0 <= i < |inputs.corpus|
    ensures i in AttachedRows(inputs) <==> Attached(TablesOf(inputs), inputs.corpus[i]) != {}
  {
    hide TablesOf, Attached;
  }

  lemma ChildIsAttachedRow(inputs: Inputs, c: string)
    requires ReportOf(inputs).passed && c in TablesOf(inputs).children
    ensures exists i :: i in AttachedRows(inputs) && RecordOf(inputs, i) == c
  {
    hide ReportOf, TablesOf, Attached, IsLinked, AttachedRows, OwnerOf;
    ChildHasAttachedRow(inputs, c);
    var i :| 0 <= i < |inputs.corpus| && inputs.corpus[i] == TablesOf(inputs).corpus[c];
    AttachedRowAt(inputs, i);
  }

  /** Attached corpus rows and child rows: source_record_id matches them one to one. */
  lemma AttachedRowsAreChildren(inputs: Inputs)
    requires ReportOf(inputs).passed
    ensures (set i | i in AttachedRows(inputs) :: RecordOf(inputs, i)) == TablesOf(inputs).children.Keys
    ensures |AttachedRows(inputs)| == |inputs.children|
  {
    hide ReportOf, IndexRows, AttachedRows, RecordOf, ScanGold;
    PassedFilesAreKeyed(inputs);
    KeyedCardinality(CHILD_RULE, inputs.children);
    var rows, children := AttachedRows(inputs), TablesOf(inputs).children.Keys;
    RecordsAreChildren(inputs);
    AttachedRowsInRange(inputs);
    DistinctRecords(inputs, rows);
    BijectionCardinality(rows, children, i => RecordOf(inputs, i));
  }

  lemma AttachedRowsInRange(inputs: Inputs)
    ensures forall i :: i in AttachedRows(inputs) ==> 0 <= i < |inputs.corpus|
  {
    hide TablesOf, IsAttached;
  }

  lemma RecordsAreChildren(inputs: Inputs)
    requires ReportOf(inputs).passed
    ensures (set i | i in AttachedRows(inputs) :: RecordOf(inputs, i)) == TablesOf(inputs).children.Keys
  {
    hide ReportOf, TablesOf, AttachedRows, RecordOf;
    var records := set i | i in AttachedRows(inputs) :: RecordOf(inputs, i);
    forall c
      ensures c in records <==> c in TablesOf(inputs).children
    {
      if c in records {
        var i :| i in AttachedRows(inputs) && RecordOf(inputs, i) == c;
        AttachedRowIsChild(inputs, i);
      }
      if c in TablesOf(inputs).children {
        ChildIsAttachedRow(inputs, c);
      }
    }
  }

  lemma DistinctRecords(inputs: Inputs, rows: set<int>)
    requires Keyed(inputs.corpus, SourceRecordId)
    requires forall i :: i in rows ==> 0 <= i < |inputs.corpus|
    ensures forall i, j :: i in rows && j in rows && RecordOf(inputs, i) == RecordOf(inputs, j) ==> i == j
  {
    forall i, j | i in rows && j in rows && i < j
      ensures RecordOf(inputs, i) != RecordOf(inputs, j)
    {
      assert Get(inputs.corpus[i].value, SourceRecordId) != Get(inputs.corpus[j].value, SourceRecordId);
    }
  }

  /** On PASS the report's link counters equal the file sizes: nothing declared is left unlinked. */
  lemma LinkCountersAreFileSizes(inputs: Inputs)
    requires ReportOf(inputs).passed
    ensures var counts := ReportOf(inputs).counts;
            && counts.linkedGroupChildren == counts.childRows
            && counts.linkedEvidenceGroups == counts.evidenceGroupRows
  {
    hide ListValue, IndexRows, AllErrors, SortedKeys, ScanLinks, ScanGold, Declares;
    var t := TablesOf(inputs);
    var order := SortedKeys(t.groups.Keys);
    SortedKeysAreKeys(t.groups.Keys);
    LinksAreCounted(inputs, order);
    PassedFilesAreKeyed(inputs);
    KeyedCardinality(GROUP_RULE, inputs.groups);
    KeyedCardinality(CHILD_RULE, inputs.children);
    DeclaredIdsAreChildren(inputs, order);
    NoDuplicatesCardinality(DeclaredIds(t, order));
  }

  lemma DeclaredIdsAreChildren(inputs: Inputs, order: seq<string>)
    requires ReportOf(inputs).passed && order == SortedKeys(TablesOf(inputs).groups.Keys)
    ensures ToSet(DeclaredIds(TablesOf(inputs), order)) == TablesOf(inputs).children.Keys
  {
    hide ListValue, TablesOf, SortedKeys, ReportOf;
    var t := TablesOf(inputs);
    SortedKeysAreKeys(t.groups.Keys);
    var ids := DeclaredIds(t, order);
    forall c
      ensures c in ToSet(ids) <==> c in t.children.Keys
    {
      DeclaredIdsMembers(t, order, c);
      if c in t.children {
        DeclaredExactlyByOwner(inputs, OwnerOf(t, c), c);
      }
      if i :| 0 <= i < |order| && Declares(t, order[i], c) {
        DeclaredExactlyByOwner(inputs, order[i], c);
      }
    }
  }

  ghost function VariantOf(t: Tables, c: string): Json
    requires c in t.children
  {
    Get(t.children[c].value, SourceVariantId)
  }

  /** Inside a group, source variants and declared children are one to one. */
  lemma VariantsMatchChildren(inputs: Inputs, g: string)
    requires ReportOf(inputs).passed && g in TablesOf(inputs).groups
    ensures var t := TablesOf(inputs);
            var view := t.ViewOf(g);
            var ids, variants := view.ChildIdList(), view.VariantIds();
            && (forall c :: c in ids ==> c in t.children && Member(VariantOf(t, c), ToSet(variants)))
            && (forall v :: v in variants ==> exists c :: c in ids && VariantOf(t, c) == Str(v))
            && (forall c, c' :: c in ids && c' in ids && VariantOf(t, c) == VariantOf(t, c') ==> c == c')
  {
    hide ReportOf, TablesOf, ListValue, FlatMap, Member;
    var t := TablesOf(inputs);
    var view := t.ViewOf(g);
    var ids := view.ChildIdList();
    PassedLists(inputs, g);
    forall i | 0 <= i < |ids|
      ensures ids[i] in t.children && VariantOf(t, ids[i]).Str? && Member(VariantOf(t, ids[i]), ToSet(view.VariantIds()))
    {
      PassedDeclaredChild(inputs, g, ids[i]);
      VariantFromLineage(t, view, ids[i]);
    }
    AllFound(t.children, ids);
    PassedCoverage(inputs, g);
    VariantBijection(t, ids, DeclaredChildren(view), view.VariantIds());
  }

  lemma VariantFromLineage(t: Tables, view: View, c: string)
    requires ChildLineage(t, view, c)
    ensures c in t.children && VariantOf(t, c).Str? && Member(VariantOf(t, c), ToSet(view.VariantIds()))
  {
    hide ListValue;
  }

  lemma PassedCoverage(inputs: Inputs, g: string)
    requires ReportOf(inputs).passed && g in TablesOf(inputs).groups
    ensures var view := TablesOf(inputs).ViewOf(g);
            multiset(VariantsOf(DeclaredChildren(view))) == multiset(view.VariantIds())
  {
    hide ReportOf, TablesOf, ListValue, FlatMap, ErrorsBeforeConditions;
    PassedGroup(inputs, g);
    assert CoverageErrors(TablesOf(inputs).ViewOf(g)) == [];
  }

  lemma VariantBijection(t: Tables, ids: seq<string>, declared: seq<JsonlRow>, variants: seq<string>)
    requires |declared| == |ids| && NoDuplicates(variants)
    requires forall i :: 0 <= i < |ids| ==> ids[i] in t.children && declared[i] == t.children[ids[i]]
    requires forall i :: 0 <= i < |ids| ==> VariantOf(t, ids[i]).Str?
    requires multiset(VariantsOf(declared)) == multiset(variants)
    ensures forall v :: v in variants ==> exists c :: c in ids && VariantOf(t, c) == Str(v)
    ensures forall c, c' :: c in ids && c' in ids && VariantOf(t, c) == VariantOf(t, c') ==> c == c'
  {
    assert forall i :: 0 <= i < |ids| ==> Get(declared[i].value, SourceVariantId) == VariantOf(t, ids[i]);
    VariantsInOrder(declared);
    var found := VariantsOf(declared);
    hide VariantsOf, VariantOf;
    PermutationKeepsMembers(found, variants);
    PermutationKeepsDistinctness(found, variants);
    forall v | v in variants
      ensures exists c :: c in ids && VariantOf(t, c) == Str(v)
    {
      var i :| 0 <= i < |found| && found[i] == v;
      assert VariantOf(t, ids[i]) == Str(v);
    }
    forall i, j | 0 <= i < j < |ids|
      ensures VariantOf(t, ids[i]) != VariantOf(t, ids[j])
    {
      assert found[i] != found[j];
    }
  }

  lemma {:induction false} VariantsInOrder(children: seq<JsonlRow>)
    requires forall i :: 0 <= i < |children| ==> Get(children[i].value, SourceVariantId).Str?
    ensures |VariantsOf(children)| == |children|
    ensures forall i :: 0 <= i < |children| ==> Get(children[i].value, SourceVariantId) == Str(VariantsOf(children)[i])
  {
    if children != [] {
      VariantsInOrder(children[..|children| - 1]);
    }
  }

  /** Child rows, declared pairs and attached corpus rows are in three-way bijection, and the report counts it. */
  lemma ThreeWayBijection(inputs: Inputs)
    requires ReportOf(inputs).passed
    ensures var t, counts := TablesOf(inputs), ReportOf(inputs).counts;
            && DeclaredPairs(t) == (set c | c in t.children :: (OwnerOf(t, c), c))
            && (set i | i in AttachedRows(inputs) :: RecordOf(inputs, i)) == t.children.Keys
            && |DeclaredPairs(t)| == |AttachedRows(inputs)| == counts.childRows == counts.linkedGroupChildren
            && counts.linkedEvidenceGroups == counts.evidenceGroupRows
  {
    DeclaredPairsAreChildren(inputs);
    AttachedRowsAreChildren(inputs);
    LinkCountersAreFileSizes(inputs);
    hide TablesOf, AllErrors, DeclaredPairs, AttachedRows, RecordOf, OwnerOf;
  }
}
