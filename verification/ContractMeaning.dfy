/** When the overlay accepts a contract: the relations over the files that hold exactly then. */
module ContractMeaning {
  import opened Collections
  import opened Json
  import opened FieldRelations
  import opened Overlay
  import opened OverlayTheorems
  import opened FaultMeaning

  // ---------------------------------------------------------------- rows by id

  /** The row of a file with that id. */
  ghost predicate IsRow(rows: seq<Row>, field: Field, id: string, row: Row) {
    id != "" && row in rows && Get(row, field) == Str(id)
  }

  lemma IndexedRow(index: Index, rows: seq<Row>, field: Field, id: string)
    requires IndexesAll(index, rows, field)
    ensures id in index ==> IsRow(rows, field, id, index[id])
    ensures forall row :: IsRow(rows, field, id, row) ==> id in index && index[id] == row
  {
    hide Get;
    if id in index {
      var i :| Named(rows, field, i, id);
      assert index[id] == rows[i];
    }
    forall row | IsRow(rows, field, id, row)
      ensures id in index && index[id] == row
    {
      var i :| 0 <= i < |rows| && rows[i] == row;
      assert Named(rows, field, i, id);
    }
  }

  /** The tables of the overlay index the child and corpus files. */
  ghost predicate Indexes(context: Context, inputs: Inputs) {
    && IndexesAll(context.children, inputs.children, ChildId)
    && IndexesAll(context.corpus, inputs.corpus, SourceRecordId)
    && context.hash == inputs.hash
  }

  // ---------------------------------------------------------------- one source child

  /** The child row and its corpus row are there, in every relation they owe. */
  ghost predicate SourceIsSound(inputs: Inputs, group: Row, c: string) {
    exists child, corpus ::
      && IsRow(inputs.children, ChildId, c, child) && IsRow(inputs.corpus, SourceRecordId, c, corpus)
      && (forall fault :: SourceChildRelation(group, child, fault))
      && (forall fault :: SourceCorpusRelation(group, child, corpus, fault))
  }

  /** No fault means that everything holds, when only the listed checks can fail. */
  lemma NoFaultMeans(fault: Option<Fault>, n: nat, at: nat -> Fault, holds: Fault -> bool)
    requires IsFirstFault(fault, n, at, holds)
    requires forall f :: (forall k: nat :: k < n ==> at(k) != f) ==> holds(f)
    ensures fault.None? <==> forall f :: holds(f)
  {
    if fault.None? {
      forall f
        ensures holds(f)
      {
        if k: nat :| k < n && at(k) == f {
        }
      }
    }
  }

  lemma OtherChildFaultsHold(fault: Fault, group: Row, child: Row)
    requires forall k: nat :: k < 10 ==> ChildFaultAt(k) != fault
    ensures SourceChildRelation(group, child, fault)
  {
    hide Get, StrictPages, PagesAmong, SaysChild, TextItems;
    ChildFaultsInOrder();
  }

  lemma ChildRowMeans(group: Row, child: Row)
    ensures ChildRowFault(group, child).None? <==> forall fault :: SourceChildRelation(group, child, fault)
  {
    hide ChildRowFault, SourceChildRelation, IsFirstFault, ChildFaultAt;
    ChildRowFaultIsFirst(group, child);
    forall fault | forall k: nat :: k < 10 ==> ChildFaultAt(k) != fault
      ensures SourceChildRelation(group, child, fault)
    {
      OtherChildFaultsHold(fault, group, child);
    }
    var holds := fault => SourceChildRelation(group, child, fault);
    NoFaultMeans(ChildRowFault(group, child), 10, ChildFaultAt, holds);
    assert forall fault :: holds(fault) <==> SourceChildRelation(group, child, fault);
  }

  lemma OtherCorpusFaultsHold(fault: Fault, group: Row, child: Row, corpus: Row)
    requires forall k: nat :: k < 11 ==> CorpusFaultAt(k) != fault
    ensures SourceCorpusRelation(group, child, corpus, fault)
  {
    hide Get, ExactlyPages;
    CorpusFaultsInOrder();
  }

  lemma CorpusRowMeans(group: Row, child: Row, corpus: Row)
    requires StrictPages(Get(child, PageRefs))
    ensures CorpusRowFault(group, child, corpus).None?
       <==> forall fault :: SourceCorpusRelation(group, child, corpus, fault)
  {
    hide CorpusRowFault, SourceCorpusRelation, IsFirstFault, CorpusFaultAt, StrictPages, Get;
    CorpusRowFaultIsFirst(group, child, corpus);
    forall fault | forall k: nat :: k < 11 ==> CorpusFaultAt(k) != fault
      ensures SourceCorpusRelation(group, child, corpus, fault)
    {
      OtherCorpusFaultsHold(fault, group, child, corpus);
    }
    var holds := fault => SourceCorpusRelation(group, child, corpus, fault);
    NoFaultMeans(CorpusRowFault(group, child, corpus), 11, CorpusFaultAt, holds);
    assert forall fault :: holds(fault) <==> SourceCorpusRelation(group, child, corpus, fault);
  }

  lemma OtherHeadFaultsHold(fault: Fault, group: Row, condition: Row)
    requires forall k: nat :: k < 5 ==> HeadFaultAt(k) != fault
    ensures HeadRelation(group, condition, fault)
  {
    hide Get, StrictPages, PagesAmong, DistinctTexts, Has, UpperHash;
    HeadFaultsInOrder();
  }

  lemma HeadMeans(group: Row, condition: Row)
    ensures LineageHeadFault(group, condition).None? <==> forall fault :: HeadRelation(group, condition, fault)
  {
    hide LineageHeadFault, HeadRelation, IsFirstFault, HeadFaultAt;
    HeadFaultIsFirst(group, condition);
    forall fault | forall k: nat :: k < 5 ==> HeadFaultAt(k) != fault
      ensures HeadRelation(group, condition, fault)
    {
      OtherHeadFaultsHold(fault, group, condition);
    }
    var holds := fault => HeadRelation(group, condition, fault);
    NoFaultMeans(LineageHeadFault(group, condition), 5, HeadFaultAt, holds);
    assert forall fault :: holds(fault) <==> HeadRelation(group, condition, fault);
  }

  lemma ChildMeans(context: Context, inputs: Inputs, group: Row, c: string)
    requires Indexes(context, inputs)
    ensures ChildFault(context, group, c).None? <==> SourceIsSound(inputs, group, c)
  {
    hide IndexesAll, ChildRowFault, CorpusRowFault, SourceChildRelation, SourceCorpusRelation, IsRow, Get, StrictPages;
    IndexedRow(context.children, inputs.children, ChildId, c);
    IndexedRow(context.corpus, inputs.corpus, SourceRecordId, c);
    if c in context.children {
      var child := context.children[c];
      ChildRowMeans(group, child);
      if ChildRowFault(group, child).None? {
        SoundChildHasPages(group, child);
        if c in context.corpus {
          CorpusRowMeans(group, child, context.corpus[c]);
        }
      }
    }
  }

  lemma SoundChildHasPages(group: Row, child: Row)
    requires forall fault :: SourceChildRelation(group, child, fault)
    ensures StrictPages(Get(child, PageRefs))
    ensures TextItems(Get(child, ConsultationConditions))
  {
    hide Get, StrictPages, TextItems;
    assert SourceChildRelation(group, child, CONDITION_CHILD_PAGE_REFS_INVALID);
    assert SourceChildRelation(group, child, CHILD_FREE_TEXT_CONDITION_MISSING);
  }

  // ---------------------------------------------------------------- all source children of a condition

  /** The k-th free text of the child has the digest. */
  ghost predicate IsMatch(context: Context, c: string, digest: string, k: int) {
    && c in context.children && IsTextList(Get(context.children[c], ConsultationConditions))
    && 0 <= k < |Texts(Get(context.children[c], ConsultationConditions))|
    && context.hash(Texts(Get(context.children[c], ConsultationConditions))[k]) == digest
  }

  lemma {:induction false} CountAtMostOne<T>(p: T -> bool, s: seq<T>)
    ensures Count(p, s) <= 1 <==> forall i, j :: 0 <= i < j < |s| && p(s[i]) ==> !p(s[j])
  {
    if s != [] {
      var t := s[1..];
      CountAtMostOne(p, t);
      CountZeroIffNone(p, t);
      assert forall i :: 0 < i < |s| ==> s[i] == t[i - 1];
      if forall i, j :: 0 <= i < j < |s| && p(s[i]) ==> !p(s[j]) {
        forall i, j | 0 <= i < j < |t| && p(t[i])
          ensures !p(t[j])
        {
          assert t[i] == s[i + 1] && t[j] == s[j + 1];
        }
        forall j | 0 <= j < |t| && p(s[0])
          ensures !p(t[j])
        {
          assert t[j] == s[j + 1];
        }
      }
    }
  }

  lemma MatchesMean(context: Context, c: string, digest: string)
    ensures MatchesIn(context, c, digest) == 0 <==> forall k :: !IsMatch(context, c, digest, k)
    ensures MatchesIn(context, c, digest) <= 1
       <==> forall k, l :: IsMatch(context, c, digest, k) && IsMatch(context, c, digest, l) ==> k == l
  {
    hide Texts, IsTextList, Get, Count;
    if c in context.children && IsTextList(Get(context.children[c], ConsultationConditions)) {
      var texts := Texts(Get(context.children[c], ConsultationConditions));
      var p := (s: string) => context.hash(s) == digest;
      CountZeroIffNone(p, texts);
      CountAtMostOne(p, texts);
      forall k
        ensures IsMatch(context, c, digest, k) <==> 0 <= k < |texts| && p(texts[k])
      {
      }
    }
  }

  /** The k-th free text of the a-th source child has the digest. */
  ghost predicate IsMatchAt(context: Context, ids: seq<string>, digest: string, a: int, k: int) {
    0 <= a < |ids| && IsMatch(context, ids[a], digest, k)
  }

  ghost predicate NoMatch(context: Context, ids: seq<string>, digest: string) {
    forall a, k :: !IsMatchAt(context, ids, digest, a, k)
  }

  ghost predicate AtMostOneMatch(context: Context, ids: seq<string>, digest: string) {
    forall a, b, k, l :: IsMatchAt(context, ids, digest, a, k) && IsMatchAt(context, ids, digest, b, l) ==> a == b && k == l
  }

  lemma {:induction false} SelectionSucceeds(context: Context, group: Row, digest: string, ids: seq<string>)
    ensures SelectChildren(context, group, digest, ids).Success?
       <==> forall c :: c in ids ==> ChildFault(context, group, c).None?
  {
    hide ChildFault, MatchesIn, PageKeys;
    if ids != [] {
      var rest, last := ids[..|ids| - 1], ids[|ids| - 1];
      SelectionSucceeds(context, group, digest, rest);
      assert ids == rest + [last];
    }
  }

  /** The a-th child is the first that is not accepted. */
  ghost predicate IsFirstFaulty(context: Context, group: Row, ids: seq<string>, a: int, fault: Fault) {
    && 0 <= a < |ids| && ChildFault(context, group, ids[a]) == Some(fault)
    && forall b :: 0 <= b < a ==> ChildFault(context, group, ids[b]).None?
  }

  /** The children are taken one by one; the first that is not accepted decides. */
  lemma {:induction false} SelectionFault(context: Context, group: Row, digest: string, ids: seq<string>)
    requires SelectChildren(context, group, digest, ids).Failure?
    ensures exists a :: IsFirstFaulty(context, group, ids, a, SelectChildren(context, group, digest, ids).error)
  {
    hide ChildFault, MatchesIn, PageKeys;
    var n := |ids| - 1;
    var rest := ids[..n];
    if SelectChildren(context, group, digest, rest).Failure? {
      SelectionFault(context, group, digest, rest);
      var a :| IsFirstFaulty(context, group, rest, a, SelectChildren(context, group, digest, rest).error);
      assert IsFirstFaulty(context, group, ids, a, SelectChildren(context, group, digest, rest).error);
    } else {
      SelectionSucceeds(context, group, digest, rest);
      assert IsFirstFaulty(context, group, ids, n, SelectChildren(context, group, digest, ids).error);
    }
  }

  lemma MatchSnoc(context: Context, rest: seq<string>, last: string, digest: string)
    ensures NoMatch(context, rest + [last], digest)
       <==> NoMatch(context, rest, digest) && MatchesIn(context, last, digest) == 0
    ensures AtMostOneMatch(context, rest + [last], digest) <==>
            || (AtMostOneMatch(context, rest, digest) && MatchesIn(context, last, digest) == 0)
            || (NoMatch(context, rest, digest) && MatchesIn(context, last, digest) <= 1)
  {
    hide IsMatch, MatchesIn;
    MatchesMean(context, last, digest);
    var ids := rest + [last];
    forall a, k
      ensures IsMatchAt(context, ids, digest, a, k)
         <==> IsMatchAt(context, rest, digest, a, k) || (a == |rest| && IsMatch(context, last, digest, k))
    {
    }
    hide IsMatchAt;
    if AtMostOneMatch(context, ids, digest) && MatchesIn(context, last, digest) != 0 {
      var l :| IsMatch(context, last, digest, l);
      assert IsMatchAt(context, ids, digest, |rest|, l);
      forall a, k
        ensures !IsMatchAt(context, rest, digest, a, k)
      {
        assert IsMatchAt(context, rest, digest, a, k) ==> IsMatchAt(context, ids, digest, a, k);
        RestIsShorter(context, rest, digest, a, k);
      }
      forall k, j | IsMatch(context, last, digest, k) && IsMatch(context, last, digest, j)
        ensures k == j
      {
        assert IsMatchAt(context, ids, digest, |rest|, k) && IsMatchAt(context, ids, digest, |rest|, j);
      }
    }
  }

  lemma RestIsShorter(context: Context, rest: seq<string>, digest: string, a: int, k: int)
    ensures IsMatchAt(context, rest, digest, a, k) ==> a < |rest|
  {
  }

  /** What an accepted selection adds up: its matches and its pages. */
  lemma {:induction false} SelectionMeans(context: Context, group: Row, digest: string, ids: seq<string>)
    requires SelectChildren(context, group, digest, ids).Success?
    ensures var selection := SelectChildren(context, group, digest, ids).value;
            && (selection.matched == 0 <==> NoMatch(context, ids, digest))
            && (selection.matched <= 1 <==> AtMostOneMatch(context, ids, digest))
            && forall key :: key in selection.pages
                        <==> exists c :: c in ids && c in context.children && key in PageKeys(Get(context.children[c], PageRefs))
  {
    hide ChildFault, MatchesIn, PageKeys, NoMatch, AtMostOneMatch;
    if ids == [] {
      NothingMatches(context, digest);
    } else {
      var rest, last := ids[..|ids| - 1], ids[|ids| - 1];
      SelectionMeans(context, group, digest, rest);
      assert ids == rest + [last];
      MatchSnoc(context, rest, last, digest);
      FaultlessChildIsKnown(context, group, last);
    }
  }

  lemma NothingMatches(context: Context, digest: string)
    ensures NoMatch(context, [], digest) && AtMostOneMatch(context, [], digest)
  {
  }

  // ---------------------------------------------------------------- the lineage of a condition

  /** The k-th free text of the child hashes to the digest. */
  ghost predicate HasTextAt(inputs: Inputs, child: Row, k: int, digest: Json) {
    var texts := Get(child, ConsultationConditions);
    texts.Arr? && 0 <= k < |texts.items| && texts.items[k].Str? && Str(inputs.hash(texts.items[k].s)) == digest
  }

  /** The k-th free text of the condition's a-th source child hashes to the condition's digest. */
  ghost predicate IsSourceText(inputs: Inputs, condition: Row, a: int, k: int) {
    var sources := Get(condition, SourceChildIds);
    && sources.Arr? && 0 <= a < |sources.items| && sources.items[a].Str?
    && exists child ::
         IsRow(inputs.children, ChildId, sources.items[a].s, child) && HasTextAt(inputs, child, k, Get(condition, SourceConditionSha256))
  }

  /** The page is on one of the condition's source children. */
  ghost predicate IsSourcePage(inputs: Inputs, condition: Row, page: int) {
    exists c, child ::
      Has(condition, SourceChildIds, c) && IsRow(inputs.children, ChildId, c, child) && HasPage(Get(child, PageRefs), page)
  }

  /** Exactly one free text of the source children is the condition's. */
  ghost predicate HasOneSourceText(inputs: Inputs, condition: Row) {
    && (exists a, k :: IsSourceText(inputs, condition, a, k))
    && forall a, b, k, l :: IsSourceText(inputs, condition, a, k) && IsSourceText(inputs, condition, b, l) ==> a == b && k == l
  }

  ghost predicate LineageIsSound(inputs: Inputs, group: Row, condition: Row) {
    && (forall fault :: HeadRelation(group, condition, fault))
    && (forall c :: Has(condition, SourceChildIds, c) ==> SourceIsSound(inputs, group, c))
    && (forall page :: HasPage(Get(condition, SourcePageRefs), page) ==> IsSourcePage(inputs, condition, page))
    && HasOneSourceText(inputs, condition)
  }

  lemma SourceTextsMean(context: Context, inputs: Inputs, group: Row, condition: Row)
    requires Indexes(context, inputs)
    requires IsTextList(Get(condition, SourceChildIds)) && Get(condition, SourceConditionSha256).Str?
    requires forall c :: Has(condition, SourceChildIds, c) ==> SourceIsSound(inputs, group, c)
    ensures var ids, digest := Texts(Get(condition, SourceChildIds)), Get(condition, SourceConditionSha256).s;
            forall a, k :: IsMatchAt(context, ids, digest, a, k) <==> IsSourceText(inputs, condition, a, k)
  {
    hide Indexes, IsMatch, HasTextAt, IsRow, Get, SourceIsSound, Texts;
    var ids, digest := Texts(Get(condition, SourceChildIds)), Get(condition, SourceConditionSha256).s;
    forall a, k
      ensures IsMatchAt(context, ids, digest, a, k) <==> IsSourceText(inputs, condition, a, k)
    {
      if 0 <= a < |ids| {
        assert Get(condition, SourceChildIds).items[a] == Str(ids[a]);
        assert Has(condition, SourceChildIds, ids[a]);
        SourceTextMeans(context, inputs, group, ids[a], digest, k);
      }
    }
  }

  lemma SourceTextMeans(context: Context, inputs: Inputs, group: Row, c: string, digest: string, k: int)
    requires Indexes(context, inputs) && SourceIsSound(inputs, group, c)
    ensures IsMatch(context, c, digest, k)
       <==> exists child :: IsRow(inputs.children, ChildId, c, child) && HasTextAt(inputs, child, k, Str(digest))
  {
    hide IndexesAll, SourceChildRelation, SourceCorpusRelation, IsRow;
    IndexedRow(context.children, inputs.children, ChildId, c);
    var child, corpus :|
      && IsRow(inputs.children, ChildId, c, child) && IsRow(inputs.corpus, SourceRecordId, c, corpus)
      && (forall fault :: SourceChildRelation(group, child, fault))
      && (forall fault :: SourceCorpusRelation(group, child, corpus, fault));
    assert c in context.children && context.children[c] == child;
    SoundChildHasPages(group, child);
    TextListMeans(Get(child, ConsultationConditions));
    hide TextItems, StrictPages, IsTextList, Get;
    TextAtMeans(context, inputs, child, digest, k);
  }

  lemma TextAtMeans(context: Context, inputs: Inputs, child: Row, digest: string, k: int)
    requires context.hash == inputs.hash && IsTextList(Get(child, ConsultationConditions))
    ensures HasTextAt(inputs, child, k, Str(digest))
       <==> && 0 <= k < |Texts(Get(child, ConsultationConditions))|
            && context.hash(Texts(Get(child, ConsultationConditions))[k]) == digest
  {
    hide Get;
  }

  lemma SourcesAreTexts(condition: Row)
    requires IsTextList(Get(condition, SourceChildIds))
    ensures forall c :: c in Texts(Get(condition, SourceChildIds)) <==> Has(condition, SourceChildIds, c)
  {
    TextsMean(Get(condition, SourceChildIds));
  }

  lemma SourcePagesMean(context: Context, inputs: Inputs, group: Row, condition: Row, page: int)
    requires Indexes(context, inputs) && page >= 1
    requires IsTextList(Get(condition, SourceChildIds)) && Get(condition, SourceConditionSha256).Str?
    requires SelectChildren(context, group, Get(condition, SourceConditionSha256).s, Texts(Get(condition, SourceChildIds))).Success?
    ensures Int(page) in SelectChildren(context, group, Get(condition, SourceConditionSha256).s,
                                        Texts(Get(condition, SourceChildIds))).value.pages
       <==> IsSourcePage(inputs, condition, page)
  {
    hide IndexesAll, SelectChildren, PageKeys, HasPage, IsRow, Texts, IsTextList, Get, Has;
    var ids, digest := Texts(Get(condition, SourceChildIds)), Get(condition, SourceConditionSha256).s;
    SelectionMeans(context, group, digest, ids);
    SourcesAreTexts(condition);
    forall c
      ensures c in context.children && Int(page) in PageKeys(Get(context.children[c], PageRefs))
         <==> exists child :: IsRow(inputs.children, ChildId, c, child) && HasPage(Get(child, PageRefs), page)
    {
      SourcePageMeans(context, inputs, c, page);
    }
  }

  lemma SourcePageMeans(context: Context, inputs: Inputs, c: string, page: int)
    requires Indexes(context, inputs) && page >= 1
    ensures c in context.children && Int(page) in PageKeys(Get(context.children[c], PageRefs))
       <==> exists child :: IsRow(inputs.children, ChildId, c, child) && HasPage(Get(child, PageRefs), page)
  {
    hide IndexesAll, PageKeys, HasPage, IsRow, Get;
    IndexedRow(context.children, inputs.children, ChildId, c);
    if c in context.children {
      PageKeyMeans(Get(context.children[c], PageRefs), page);
      assert IsRow(inputs.children, ChildId, c, context.children[c]);
    }
  }

  /** The lineage of a condition is accepted exactly when it is sound over the files. */
  lemma LineageMeans(context: Context, inputs: Inputs, group: Row, condition: Row)
    requires Indexes(context, inputs)
    ensures LineageFault(context, group, condition).None? <==> LineageIsSound(inputs, group, condition)
  {
    hide LineageHeadFault, HeadRelation, Indexes, SelectChildren, PageKeys, HasPage, Texts, IsTextList, Get, SourceIsSound, Has,
         IsSourcePage, HasOneSourceText;
    HeadMeans(group, condition);
    if LineageHeadFault(group, condition).None? {
      HeadMeansLists(group, condition);
      SoundHead(group, condition);
      TailMeans(context, inputs, group, condition);
    }
  }

  lemma SoundHead(group: Row, condition: Row)
    requires forall fault :: HeadRelation(group, condition, fault)
    ensures StrictPages(Get(condition, SourcePageRefs))
  {
    hide Get, StrictPages;
    assert HeadRelation(group, condition, CONDITION_PAGE_REFS_INVALID);
  }

  /** What is checked after the head: the children, the pages they offer, and the one text. */
  lemma TailMeans(context: Context, inputs: Inputs, group: Row, condition: Row)
    requires Indexes(context, inputs) && LineageHeadFault(group, condition).None?
    requires IsTextList(Get(condition, SourceChildIds)) && Get(condition, SourceConditionSha256).Str?
    requires StrictPages(Get(condition, SourcePageRefs))
    ensures LineageFault(context, group, condition).None? <==>
            && (forall c :: Has(condition, SourceChildIds, c) ==> SourceIsSound(inputs, group, c))
            && (forall page :: HasPage(Get(condition, SourcePageRefs), page) ==> IsSourcePage(inputs, condition, page))
            && HasOneSourceText(inputs, condition)
  {
    hide LineageHeadFault, Indexes, SelectChildren, PageKeys, HasPage, Texts, IsTextList, Get, SourceIsSound, StrictPages, Has,
         IsSourcePage, HasOneSourceText;
    var ids, digest := Texts(Get(condition, SourceChildIds)), Get(condition, SourceConditionSha256).s;
    SelectionSucceeds(context, group, digest, ids);
    SourcesAreTexts(condition);
    forall c
      ensures ChildFault(context, group, c).None? <==> SourceIsSound(inputs, group, c)
    {
      ChildMeans(context, inputs, group, c);
    }
    assert SelectChildren(context, group, digest, ids).Success?
      <==> forall c :: Has(condition, SourceChildIds, c) ==> SourceIsSound(inputs, group, c);
    if SelectChildren(context, group, digest, ids).Success? {
      MatchedOnceMeans(context, inputs, group, condition);
      PagesSelectedMean(context, inputs, group, condition);
    }
  }

  lemma MatchedOnceMeans(context: Context, inputs: Inputs, group: Row, condition: Row)
    requires Indexes(context, inputs)
    requires IsTextList(Get(condition, SourceChildIds)) && Get(condition, SourceConditionSha256).Str?
    requires forall c :: Has(condition, SourceChildIds, c) ==> SourceIsSound(inputs, group, c)
    requires SelectChildren(context, group, Get(condition, SourceConditionSha256).s, Texts(Get(condition, SourceChildIds))).Success?
    ensures SelectChildren(context, group, Get(condition, SourceConditionSha256).s,
                           Texts(Get(condition, SourceChildIds))).value.matched == 1
       <==> HasOneSourceText(inputs, condition)
  {
    hide Indexes, SelectChildren, Texts, IsTextList, Get, SourceIsSound, IsSourceText, IsMatchAt;
    SourceTextsMean(context, inputs, group, condition);
    SelectionMeans(context, group, Get(condition, SourceConditionSha256).s, Texts(Get(condition, SourceChildIds)));
  }

  lemma PagesSelectedMean(context: Context, inputs: Inputs, group: Row, condition: Row)
    requires Indexes(context, inputs) && StrictPages(Get(condition, SourcePageRefs))
    requires IsTextList(Get(condition, SourceChildIds)) && Get(condition, SourceConditionSha256).Str?
    requires SelectChildren(context, group, Get(condition, SourceConditionSha256).s, Texts(Get(condition, SourceChildIds))).Success?
    ensures PageKeys(Get(condition, SourcePageRefs))
              <= SelectChildren(context, group, Get(condition, SourceConditionSha256).s,
                                Texts(Get(condition, SourceChildIds))).value.pages
       <==> forall page :: HasPage(Get(condition, SourcePageRefs), page) ==> IsSourcePage(inputs, condition, page)
  {
    hide Indexes, SelectChildren, PageKeys, HasPage, Texts, IsTextList, Get, StrictPages, IsSourcePage;
    var pages := Get(condition, SourcePageRefs);
    var selected := SelectChildren(context, group, Get(condition, SourceConditionSha256).s, Texts(Get(condition, SourceChildIds))).value.pages;
    if PageKeys(pages) <= selected {
      forall page | HasPage(pages, page)
        ensures IsSourcePage(inputs, condition, page)
      {
        StrictHasPage(pages, page);
        PageKeyMeans(pages, page);
        SourcePagesMean(context, inputs, group, condition, page);
      }
    }
    if forall page :: HasPage(pages, page) ==> IsSourcePage(inputs, condition, page) {
      forall key | key in PageKeys(pages)
        ensures key in selected
      {
        StrictKeysArePages(pages, key);
        PageKeyMeans(pages, key.n);
        SourcePagesMean(context, inputs, group, condition, key.n);
      }
    }
  }
}
