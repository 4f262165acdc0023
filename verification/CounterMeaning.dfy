/** What the report's link and condition counters count. */
module CounterMeaning {
  import opened Collections
  import opened Json
  import opened Sorting
  import opened Compatibility
  import opened CompatibilityTheorems
  import opened FieldRelations
  import opened CheckMeaning
  import opened CaseMeaning
  import opened GroupMeaning
  import opened PassMeaning
  import opened ReportMeaning
  import SM = ScoreMeaning

  // ---------------------------------------------------------------- counting pairs

  /** The pairs of one first part: one for each of the second parts. */
  lemma PairsOfOne<A>(a: A, ks: set<int>, pairs: set<(A, int)>)
    requires forall p :: p in pairs <==> p.0 == a && p.1 in ks
    ensures |pairs| == |ks|
  {
    forall p | p in pairs
      ensures p.1 in ks && (a, p.1) == p
    {
    }
    BijectionCardinality(ks, pairs, (k: int) => (a, k));
  }

  /** The pairs with a first part on the list and a second part taken from that part's set. */
  ghost predicate ArePairs<A(!new)>(seconds: A -> set<int>, firsts: seq<A>, pairs: set<(A, int)>) {
    forall p :: p in pairs <==> p.0 in firsts && p.1 in seconds(p.0)
  }

  lemma PairsGrow<A(!new)>(seconds: A -> set<int>, rest: seq<A>, last: A, pairs: set<(A, int)>)
    returns (before: set<(A, int)>)
    requires last !in rest && ArePairs(seconds, rest + [last], pairs)
    ensures ArePairs(seconds, rest, before) && |pairs| == |before| + |seconds(last)|
  {
    before := set p | p in pairs && p.0 in rest;
    var added := set p | p in pairs && p.0 == last;
    PairsOfOne(last, seconds(last), added);
    assert pairs == before + added && before !! added;
  }

  /** A count over distinct entries is the number of them counted. */
  lemma {:induction false} CountOfDistinct<T>(p: T -> bool, s: seq<T>, found: set<T>)
    requires NoDuplicates(s) && forall x :: x in found <==> x in s && p(x)
    ensures Count(p, s) == |found|
  {
    if s == [] {
      assert found == {};
    } else {
      hide NoDuplicates, Count;
      var rest, last := s[..|s| - 1], s[|s| - 1];
      LastIsNew(s);
      CountOfDistinct(p, rest, found - {last});
      CountStep(p, s, |s| - 1);
      assert s[..|s|] == s;
    }
  }

  lemma LastIsNew<T>(s: seq<T>)
    requires NoDuplicates(s) && s != []
    ensures var rest, last := s[..|s| - 1], s[|s| - 1];
            NoDuplicates(rest) && last !in rest && forall x :: x in s <==> x in rest || x == last
  {
    assert s == s[..|s| - 1] + [s[|s| - 1]];
  }

  // ---------------------------------------------------------------- lists and positions

  /** The field is a list of nonempty texts with this one at that place. */
  ghost predicate ListsAt(row: Row, field: Field, k: int, text: string) {
    var j := Get(row, field);
    TextItems(j) && 0 <= k < |j.items| && j.items[k] == Str(text)
  }

  lemma ListsAtMeans(row: JsonlRow, field: Field, k: int, text: string)
    ensures ListsAt(row.value, field, k, text)
       <==> 0 <= k < |ListValue(row, field)| && ListValue(row, field)[k] == text
  {
    TextListMeans(Get(row.value, field));
  }

  // ---------------------------------------------------------------- linked children

  /** The corpus row of the listed child matches it and has the group's product. */
  ghost predicate IsCandidate(inputs: Inputs, id: string, group: JsonlRow, c: string) {
    exists child, corpus ::
      AreLinked(inputs, id, c, child, corpus) && Get(corpus.value, ExactSalesCode) == Get(group.value, ExactSalesCode)
  }

  /** The group lists, at that place, a child whose corpus row is a candidate for it. */
  ghost predicate IsLinkedAt(inputs: Inputs, id: string, k: int) {
    exists group, c ::
      IsGroup(inputs, group, id) && ListsAt(group.value, ChildIds, k, c) && IsCandidate(inputs, id, group, c)
  }

  ghost predicate IsLinkedGroup(inputs: Inputs, id: string) {
    exists k :: IsLinkedAt(inputs, id, k)
  }

  ghost predicate LinksAreKeyed(inputs: Inputs) {
    Keyed(inputs.groups, EvidenceGroupId) && Keyed(inputs.children, ChildId) && Keyed(inputs.corpus, SourceRecordId)
  }

  /** The child is found in the index and linked. */
  predicate Links(tables: Tables, view: View, c: string) {
    c in view.children && IsLinked(tables, view, view.children[c])
  }

  lemma CandidateMeans(inputs: Inputs, view: View, c: string)
    requires LinksAreKeyed(inputs) && view.children == TablesOf(inputs).children
    ensures Links(TablesOf(inputs), view, c) <==> IsCandidate(inputs, view.id, view.group, c)
  {
    hide Keyed, CorpusErrors, CorpusMatches, CorpusRelation, IndexRows, ScanGold, Get;
    var t := TablesOf(inputs);
    IndexFindsRows(CHILD_RULE, inputs.children);
    IndexFindsRows(RECORD_RULE, inputs.corpus);
    if c in t.children && HasCorpus(t, t.children[c]) {
      var child := t.children[c];
      CorpusMatchMeans(CorpusOf(t, child), child, view.group, view.id);
      assert IsLinked(t, view, child) ==> AreLinked(inputs, view.id, c, child, CorpusOf(t, child));
    }
    forall child, corpus | AreLinked(inputs, view.id, c, child, corpus)
                           && Get(corpus.value, ExactSalesCode) == Get(view.group.value, ExactSalesCode)
      ensures Links(t, view, c)
    {
      assert t.children[c] == child && t.corpus[c] == corpus;
      CorpusMatchMeans(corpus, child, view.group, view.id);
    }
  }

  lemma {:induction false} FoundAreCounted(tables: Tables, view: View, ids: seq<string>)
    ensures Count((child: JsonlRow) => IsLinked(tables, view, child),
                  FlatMap((c: string) => Found(view.children, c), ids))
         == Count((c: string) => Links(tables, view, c), ids)
  {
    hide IsLinked;
    var linked, links := (child: JsonlRow) => IsLinked(tables, view, child), (c: string) => Links(tables, view, c);
    var found := (c: string) => Found(view.children, c);
    if ids == [] {
      FlatMapNone(found);
      CountNone(linked);
      CountNone(links);
    } else {
      var n := |ids| - 1;
      FoundAreCounted(tables, view, ids[..n]);
      FlatMapStep(found, ids, n);
      CountStep(links, ids, n);
      assert ids[..n + 1] == ids;
      CountConcat(linked, FlatMap(found, ids[..n]), found(ids[n]));
      CountOfAtMostOne(linked, found(ids[n]));
    }
  }

  lemma CountOfAtMostOne<T>(p: T -> bool, s: seq<T>)
    requires |s| <= 1
    ensures Count(p, s) == if s != [] && p(s[0]) then 1 else 0
  {
    if s != [] {
      assert s[..0] == [];
    }
  }

  ghost function PlacesOf(tables: Tables, id: string): set<int> {
    if id in tables.groups then
      SM.Positions((c: string) => Links(tables, tables.ViewOf(id), c), tables.ViewOf(id).ChildIdList())
    else {}
  }

  lemma LinkedCountMeans(tables: Tables, id: string)
    requires id in tables.groups
    ensures LinkedCount(tables, tables.ViewOf(id)) == |PlacesOf(tables, id)|
  {
    hide IsLinked, Links, ListValue, Count, FlatMap;
    var view := tables.ViewOf(id);
    FoundAreCounted(tables, view, view.ChildIdList());
    SM.CountIsCardinality((c: string) => Links(tables, view, c), view.ChildIdList());
  }

  lemma PlaceMeans(inputs: Inputs, id: string, k: int)
    requires LinksAreKeyed(inputs)
    ensures k in PlacesOf(TablesOf(inputs), id) <==> IsLinkedAt(inputs, id, k)
  {
    hide LinksAreKeyed, TablesOf, Links, IsCandidate, ListsAt, ListValue;
    var t := TablesOf(inputs);
    KeyedGroupRows(inputs, id);
    if id in t.groups {
      var view := t.ViewOf(id);
      forall c
        ensures ListsAt(view.group.value, ChildIds, k, c) && IsCandidate(inputs, id, view.group, c)
           <==> 0 <= k < |view.ChildIdList()| && view.ChildIdList()[k] == c && Links(t, view, c)
      {
        ListsAtMeans(view.group, ChildIds, k, c);
        KeyedCandidateMeans(inputs, id, c);
      }
    }
  }

  lemma KeyedGroupRows(inputs: Inputs, id: string)
    requires LinksAreKeyed(inputs)
    ensures var groups := TablesOf(inputs).groups;
            && (id in groups ==> IsGroup(inputs, groups[id], id))
            && forall group :: IsGroup(inputs, group, id) ==> id in groups && groups[id] == group
  {
    hide Keyed, TablesOf, IsGroup;
    GroupRows(inputs, id);
  }

  lemma KeyedCandidateMeans(inputs: Inputs, id: string, c: string)
    requires LinksAreKeyed(inputs) && id in TablesOf(inputs).groups
    ensures var view := TablesOf(inputs).ViewOf(id);
            Links(TablesOf(inputs), view, c) <==> IsCandidate(inputs, id, view.group, c)
  {
    hide LinksAreKeyed, Links, IsCandidate, IndexRows, ScanGold;
    CandidateMeans(inputs, TablesOf(inputs).ViewOf(id), c);
  }

  // ---------------------------------------------------------------- the link counters

  lemma {:induction false} LinkedTotal(tables: Tables, order: seq<string>, pairs: set<(string, int)>)
    requires NoDuplicates(order) && forall n :: 0 <= n < |order| ==> order[n] in tables.groups
    requires ArePairs(id => PlacesOf(tables, id), order, pairs)
    ensures ScanLinks(tables, order).linked == |pairs|
  {
    hide LinkedCount, GroupLinkErrors, PlacesOf;
    var places := id => PlacesOf(tables, id);
    if order == [] {
      assert pairs == {};
    } else {
      var rest, last := order[..|order| - 1], order[|order| - 1];
      assert order == rest + [last] && last !in rest;
      var before := PairsGrow(places, rest, last, pairs);
      LinkedTotal(tables, rest, before);
      LinkedCountMeans(tables, last);
    }
  }

  lemma NoPlaces(tables: Tables, id: string)
    requires id !in tables.groups
    ensures PlacesOf(tables, id) == {}
  {
  }

  lemma MemberOf<T>(s: set<T>) returns (x: T)
    requires s != {}
    ensures x in s
  {
    x :| x in s;
  }

  lemma LinkedSomewhere(inputs: Inputs, id: string, places: set<int>)
    requires forall k :: k in places <==> IsLinkedAt(inputs, id, k)
    ensures |places| > 0 <==> IsLinkedGroup(inputs, id)
  {
    hide IsLinkedAt;
    if places != {} {
      var k := MemberOf(places);
      assert IsLinkedAt(inputs, id, k);
    }
  }

  lemma CandidateGroupsMean(inputs: Inputs, id: string)
    requires LinksAreKeyed(inputs)
    ensures id in LinkScanOf(inputs).candidates <==> IsLinkedGroup(inputs, id)
  {
    hide LinksAreKeyed, TablesOf, LinkScanOf, LinkedCount, IsLinkedAt, PlacesOf;
    var t := TablesOf(inputs);
    RegistryLinksMean(inputs);
    forall k
      ensures k in PlacesOf(t, id) <==> IsLinkedAt(inputs, id, k)
    {
      PlaceMeans(inputs, id, k);
    }
    LinkedSomewhere(inputs, id, PlacesOf(t, id));
    if id in t.groups {
      LinkedCountMeans(t, id);
    } else {
      NoPlaces(t, id);
    }
  }

  lemma LinkedReferencesMean(inputs: Inputs, references: References, referenced: set<string>, linked: set<string>)
    requires references.Keys == referenced
    requires forall id :: id in linked <==> id in TablesOf(inputs).groups && id in LinkScanOf(inputs).candidates
    ensures LinkedReferences(inputs, references) == |referenced * linked|
  {
    hide TablesOf, LinkScanOf, Count;
    var holds := (g: string) => g in TablesOf(inputs).groups && g in LinkScanOf(inputs).candidates;
    var keys := SortedKeys(references.Keys);
    SortedKeysAreKeys(references.Keys);
    forall id
      ensures id in referenced * linked <==> id in keys && holds(id)
    {
      assert id in keys <==> id in ToSet(keys);
    }
    CountOfDistinct(holds, keys, referenced * linked);
  }

  /** With distinct ids: the referenced groups that have a candidate, all groups that have one, and every listed child
      whose corpus row is one. */
  lemma LinkCountersMean(inputs: Inputs, required: set<string>, supporting: set<string>, linked: set<string>,
                         places: set<(string, int)>)
    requires LinksAreKeyed(inputs)
    requires forall id :: id in required <==> IsReferenced(inputs, RequiredEvidenceGroupIds, id)
    requires forall id :: id in supporting <==> IsReferenced(inputs, SupportingEvidenceGroupIds, id)
    requires forall id :: id in linked <==> IsLinkedGroup(inputs, id)
    requires forall p :: p in places <==> IsLinkedAt(inputs, p.0, p.1)
    ensures var counts := ReportOf(inputs).counts;
            && counts.linkedRequiredGroups == |required * linked|
            && counts.linkedSupportingGroups == |supporting * linked|
            && counts.linkedEvidenceGroups == |linked|
            && counts.linkedGroupChildren == |places|
  {
    hide LinksAreKeyed, AllErrors, LinkedReferences, GroupScanOf, LinkScanOf, IsReferenced, IndexRows, ScanGold,
         IsLinkedGroup, IsLinkedAt;
    ReferencedSetsMean(inputs, required, supporting);
    LinkedGroupsMean(inputs, linked);
    LinkedReferencesMean(inputs, TablesOf(inputs).gold.required, required, linked);
    LinkedReferencesMean(inputs, TablesOf(inputs).gold.supporting, supporting, linked);
    LinkedPlacesMean(inputs, places);
  }

  lemma ReferencedSetsMean(inputs: Inputs, required: set<string>, supporting: set<string>)
    requires forall id :: id in required <==> IsReferenced(inputs, RequiredEvidenceGroupIds, id)
    requires forall id :: id in supporting <==> IsReferenced(inputs, SupportingEvidenceGroupIds, id)
    ensures TablesOf(inputs).gold.required.Keys == required && TablesOf(inputs).gold.supporting.Keys == supporting
  {
    hide IsReferenced, IndexRows, ScanGold;
    forall id
      ensures id in ScanGold(inputs.gold).required <==> id in required
      ensures id in ScanGold(inputs.gold).supporting <==> id in supporting
    {
      ReferencedGroupsMean(inputs, id);
    }
  }

  lemma LinkedGroupsMean(inputs: Inputs, linked: set<string>)
    requires LinksAreKeyed(inputs) && forall id :: id in linked <==> IsLinkedGroup(inputs, id)
    ensures LinkScanOf(inputs).candidates == linked
    ensures forall id :: id in linked <==> id in TablesOf(inputs).groups && id in LinkScanOf(inputs).candidates
  {
    hide LinksAreKeyed, IsLinkedGroup, LinkScanOf, TablesOf, LinkedCount;
    RegistryLinksMean(inputs);
    var candidates: set<string> := LinkScanOf(inputs).candidates;
    forall id
      ensures id in candidates <==> id in linked
    {
      CandidateGroupsMean(inputs, id);
    }
    assert candidates == linked;
  }

  lemma LinkedPlacesMean(inputs: Inputs, places: set<(string, int)>)
    requires LinksAreKeyed(inputs) && forall p :: p in places <==> IsLinkedAt(inputs, p.0, p.1)
    ensures LinkScanOf(inputs).linked == |places|
  {
    hide LinksAreKeyed, IsLinkedAt, TablesOf, PlacesOf, ScanLinks;
    var t := TablesOf(inputs);
    var order := SortedKeys(t.groups.Keys);
    SortedKeysAreKeys(t.groups.Keys);
    forall p: (string, int)
      ensures p in places <==> p.0 in order && p.1 in PlacesOf(t, p.0)
    {
      PlaceMeans(inputs, p.0, p.1);
      if p.0 !in t.groups {
        NoPlaces(t, p.0);
      }
    }
    LinkedTotal(t, order, places);
  }

  // ---------------------------------------------------------------- the condition references

  /** An active case lists a consultation condition at that place. */
  ghost predicate AsksAt(row: JsonlRow, k: int) {
    IsActiveRow(row) && exists text :: ListsAt(row.value, ConsultationConditionIds, k, text)
  }

  ghost predicate AreAsked(rows: seq<JsonlRow>, asked: set<(int, int)>) {
    forall p :: p in asked <==> 0 <= p.0 < |rows| && AsksAt(rows[p.0], p.1)
  }

  lemma AskedPlaces(row: JsonlRow, k: int)
    ensures AsksAt(row, k) <==> IsActive(row) && 0 <= k < |ConditionReferences(row)|
  {
    hide ListsAt, ListValue;
    var list := ListValue(row, ConsultationConditionIds);
    AbsentIsEmpty(row);
    forall text
      ensures ListsAt(row.value, ConsultationConditionIds, k, text) <==> 0 <= k < |list| && list[k] == text
    {
      ListsAtMeans(row, ConsultationConditionIds, k, text);
    }
    assert 0 <= k < |list| ==> ListsAt(row.value, ConsultationConditionIds, k, list[k]);
  }

  lemma AbsentIsEmpty(row: JsonlRow)
    ensures ConditionsOf(row) == ListValue(row, ConsultationConditionIds)
  {
  }

  ghost function UpTo(n: nat): (ks: set<int>)
    ensures |ks| == n && forall k :: k in ks <==> 0 <= k < n
  {
    if n == 0 then {} else UpTo(n - 1) + {n - 1}
  }

  lemma AskedByOne(row: JsonlRow, n: int, asked: set<(int, int)>)
    requires forall p :: p in asked <==> p.0 == n && AsksAt(row, p.1)
    ensures |asked| == if IsActive(row) then |ConditionReferences(row)| else 0
  {
    hide AsksAt, ConditionReferences, IsActive;
    var ks: set<int> := UpTo(if IsActive(row) then |ConditionReferences(row)| else 0);
    forall k
      ensures k in ks <==> AsksAt(row, k)
    {
      AskedPlaces(row, k);
    }
    PairsOfOne(n, ks, asked);
  }

  lemma AskedSplit(rows: seq<JsonlRow>, asked: set<(int, int)>) returns (before: set<(int, int)>)
    requires AreAsked(rows, asked) && rows != []
    ensures AreAsked(rows[..|rows| - 1], before)
    ensures var last := rows[|rows| - 1];
            |asked| == |before| + if IsActive(last) then |ConditionReferences(last)| else 0
  {
    hide AsksAt, ConditionReferences, IsActive;
    var n := |rows| - 1;
    before := set p | p in asked && p.0 < n;
    var added := set p | p in asked && p.0 == n;
    AskedByOne(rows[n], n, added);
    assert asked == before + added && before !! added;
  }

  lemma {:induction false} AskedTotal(rows: seq<JsonlRow>, asked: set<(int, int)>)
    requires AreAsked(rows, asked)
    ensures |ScanGold(rows).conditions| == |asked|
  {
    hide AsksAt, AddReferences, IsActive, HasOutcome, ProductOf, ListValue, ConditionReferences;
    if rows == [] {
      assert asked == {};
    } else {
      var before := AskedSplit(rows, asked);
      hide AreAsked;
      AskedTotal(rows[..|rows| - 1], before);
    }
  }

  /** Every place of an active case's condition list counts as a reference. */
  lemma ConditionCounterMeans(inputs: Inputs, asked: set<(int, int)>)
    requires AreAsked(inputs.gold, asked)
    ensures ReportOf(inputs).counts.referencedConditions == |asked|
  {
    hide AreAsked, AllErrors, LinkedReferences, GroupScanOf, LinkScanOf, IndexRows;
    AskedTotal(inputs.gold, asked);
  }
}
