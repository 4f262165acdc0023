/** One child per evidence group in a ranking, and the separately computed rank of the expected group. */
module Diversify {
  import opened Collections
  import opened Ranking
  import opened Sorting

  datatype Child = Child(chunkId: string, group: Option<string>)
  {
    /** The group id is present and not empty. */
    predicate Grouped() {
      group.Some? && group.value != ""
    }

    /** `evidence_group_id or "CHILD:" + chunk_id`. */
    function Key(): string {
      if Grouped() then group.value else "CHILD:" + chunkId
    }
  }

  function Keys(children: seq<Child>): set<string> {
    set i | 0 <= i < |children| :: children[i].Key()
  }

  /** The first child of every key, in ranking order. */
  function FirstPerKey(children: seq<Child>): seq<Child> {
    if children == [] then []
    else
      var rest, last := children[..|children| - 1], children[|children| - 1];
      if last.Key() in Keys(rest) then FirstPerKey(rest) else FirstPerKey(rest) + [last]
  }

  lemma FirstPerKeyNone(children: seq<Child>)
    ensures FirstPerKey(children[..0]) == [] && Keys(children[..0]) == {}
  {
  }

  lemma FirstPerKeyStep(children: seq<Child>, i: nat)
    requires i < |children|
    ensures FirstPerKey(children[..i + 1])
         == if children[i].Key() in Keys(children[..i]) then FirstPerKey(children[..i])
            else FirstPerKey(children[..i]) + [children[i]]
    ensures Keys(children[..i + 1]) == Keys(children[..i]) + {children[i].Key()}
  {
    var now := children[..i + 1];
    assert now[..i] == children[..i];
    assert now[i] == children[i];
    forall key | key in Keys(children[..i]) + {children[i].Key()}
      ensures key in Keys(now)
    {
      if key in Keys(children[..i]) {
        var j :| 0 <= j < i && children[..i][j].Key() == key;
        assert now[j].Key() == key;
      } else {
        assert now[i].Key() == key;
      }
    }
    forall key | key in Keys(now)
      ensures key in Keys(children[..i]) + {children[i].Key()}
    {
      var j :| 0 <= j <= i && now[j].Key() == key;
      assert j < i ==> children[..i][j].Key() == key;
    }
  }

  lemma {:induction false} FirstPerKeyPrefix(children: seq<Child>, i: nat)
    requires i <= |children|
    ensures FirstPerKey(children[..i]) <= FirstPerKey(children)
    decreases |children| - i
  {
    if i < |children| {
      FirstPerKeyStep(children, i);
      FirstPerKeyPrefix(children, i + 1);
    } else {
      assert children[..i] == children;
    }
  }

  /** The source's loop: skip a seen key, stop as soon as the length equals topK. */
  method DiversifyGroups(children: seq<Child>, topK: int) returns (selected: seq<Child>)
    ensures selected == StopAt(FirstPerKey(children), topK)
  {
    hide FirstPerKey, Keys;
    selected := [];
    var seen: set<string> := {};
    FirstPerKeyNone(children);
    for i := 0 to |children|
      invariant selected == FirstPerKey(children[..i])
      invariant seen == Keys(children[..i])
      invariant topK >= 1 ==> |selected| < topK
    {
      FirstPerKeyStep(children, i);
      var key := children[i].Key();
      if key in seen {
        assert Keys(children[..i]) + {key} == Keys(children[..i]);
        continue;
      }
      seen := seen + {key};
      selected := selected + [children[i]];
      if |selected| == topK {
        FirstPerKeyPrefix(children, i + 1);
        break;
      }
    }
    assert children[..|children|] == children;
  }

  // ---------------------------------------------------------------- what diversification keeps

  /** The best-ranked child of its key: no earlier child has the same key. */
  ghost predicate IsBest(children: seq<Child>, i: nat) {
    i < |children| && forall j :: 0 <= j < i ==> children[j].Key() != children[i].Key()
  }

  /** The positions, in increasing order, of the children kept. */
  function BestPositions(children: seq<Child>): seq<nat> {
    if children == [] then []
    else
      var n := |children| - 1;
      if children[n].Key() in Keys(children[..n]) then BestPositions(children[..n])
      else BestPositions(children[..n]) + [n]
  }

  /** The kept children are a subsequence of the ranking. */
  lemma {:induction false} KeepsASubsequence(children: seq<Child>)
    ensures var at := BestPositions(children);
            && |at| == |FirstPerKey(children)|
            && (forall i :: 0 <= i < |at| ==> at[i] < |children| && FirstPerKey(children)[i] == children[at[i]])
            && (forall i, j :: 0 <= i < j < |at| ==> at[i] < at[j])
  {
    if children != [] {
      KeepsASubsequence(children[..|children| - 1]);
    }
  }

  /** The kept positions are exactly those whose key is new. */
  lemma {:induction false} KeepsTheBestOfEachKey(children: seq<Child>)
    ensures forall n :: n in BestPositions(children) <==> IsBest(children, n)
  {
    if children != [] {
      var n := |children| - 1;
      var rest := children[..n];
      KeepsTheBestOfEachKey(rest);
      BestIffFresh(children);
      forall m: nat
        ensures m in BestPositions(children) <==> IsBest(children, m)
      {
        if m < n {
          assert forall j :: 0 <= j <= m ==> rest[j] == children[j];
          assert IsBest(children, m) <==> IsBest(rest, m);
        }
      }
    }
  }

  lemma BestIffFresh(children: seq<Child>)
    requires children != []
    ensures IsBest(children, |children| - 1)
            <==> children[|children| - 1].Key() !in Keys(children[..|children| - 1])
  {
    var n := |children| - 1;
    var rest := children[..n];
    if IsBest(children, n) {
      forall j | 0 <= j < |rest|
        ensures rest[j].Key() != children[n].Key()
      {
        assert rest[j] == children[j];
      }
    } else {
      var j :| 0 <= j < n && children[j].Key() == children[n].Key();
      assert rest[j].Key() == children[n].Key();
    }
  }

  /** No two kept children share a key, and every key of the ranking is kept. */
  lemma KeptKeysAreDistinct(children: seq<Child>)
    ensures forall i, j :: 0 <= i < j < |FirstPerKey(children)| ==>
              FirstPerKey(children)[i].Key() != FirstPerKey(children)[j].Key()
    ensures Keys(FirstPerKey(children)) == Keys(children)
  {
    KeepsASubsequence(children);
    KeepsTheBestOfEachKey(children);
    var kept, at := FirstPerKey(children), BestPositions(children);
    forall i, j | 0 <= i < j < |kept|
      ensures kept[i].Key() != kept[j].Key()
    {
      assert at[j] in at;
      assert IsBest(children, at[j]);
    }
    forall key | key in Keys(children)
      ensures key in Keys(kept)
    {
      var m := FirstWithKey(children, key);
      var i :| 0 <= i < |at| && at[i] == m;
      assert kept[i].Key() == key;
    }
    forall key | key in Keys(kept)
      ensures key in Keys(children)
    {
      var i :| 0 <= i < |kept| && kept[i].Key() == key;
      assert children[at[i]].Key() == key;
    }
  }

  lemma FirstWithKey(children: seq<Child>, key: string) returns (m: nat)
    requires key in Keys(children)
    ensures m < |children| && children[m].Key() == key && IsBest(children, m)
  {
    m :| 0 <= m < |children| && children[m].Key() == key;
    while !IsBest(children, m)
      invariant m < |children| && children[m].Key() == key
      decreases m
    {
      var j :| 0 <= j < m && children[j].Key() == key;
      m := j;
    }
  }

  // ---------------------------------------------------------------- the rank of an expected group

  /** The position of the first entry satisfying p. */
  function FirstPosition<T>(p: T -> bool, s: seq<T>): (r: Option<nat>)
    ensures r.Some? ==> r.value < |s| && p(s[r.value]) && forall i :: 0 <= i < r.value ==> !p(s[i])
    ensures r.None? ==> forall i :: 0 <= i < |s| ==> !p(s[i])
  {
    if s == [] then None
    else
      var earlier := FirstPosition(p, s[..|s| - 1]);
      if earlier.Some? then earlier
      else if p(s[|s| - 1]) then Some(|s| - 1)
      else None
  }

  /** The groups of a ranking in order of first appearance; ungrouped children name none. */
  function GroupsInOrder(children: seq<Child>): seq<string> {
    if children == [] then []
    else
      var rest, last := GroupsInOrder(children[..|children| - 1]), children[|children| - 1];
      if last.Grouped() && last.group.value !in rest then rest + [last.group.value] else rest
  }

  lemma GroupsStep(children: seq<Child>, i: nat)
    requires i < |children|
    ensures GroupsInOrder(children[..0]) == []
    ensures GroupsInOrder(children[..i + 1])
         == if children[i].Grouped() && children[i].group.value !in GroupsInOrder(children[..i])
            then GroupsInOrder(children[..i]) + [children[i].group.value]
            else GroupsInOrder(children[..i])
  {
    assert children[..i + 1][..i] == children[..i];
  }

  lemma {:induction false} GroupsPrefix(children: seq<Child>, i: nat)
    requires i <= |children|
    ensures GroupsInOrder(children[..i]) <= GroupsInOrder(children)
    decreases |children| - i
  {
    if i < |children| {
      GroupsStep(children, i);
      GroupsPrefix(children, i + 1);
    } else {
      assert children[..i] == children;
    }
  }

  /** One more than the position of the first expected group among the distinct groups. */
  function UniqueGroupRank(children: seq<Child>, expected: set<string>): Option<nat> {
    var position := FirstPosition((g: string) => g in expected, GroupsInOrder(children));
    if position.Some? then Some(position.value + 1) else None
  }

  /** The diagnostic loop: count distinct groups until the first expected one. */
  method ComputeUniqueGroupRank(children: seq<Child>, expected: set<string>) returns (rank: Option<nat>)
    ensures rank == UniqueGroupRank(children, expected)
  {
    hide GroupsInOrder;
    var seen: set<string> := {};
    rank := None;
    NoGroups(children);
    for i := 0 to |children|
      invariant forall g :: g in seen <==> g in GroupsInOrder(children[..i])
      invariant |seen| == |GroupsInOrder(children[..i])|
      invariant forall g :: g in seen ==> g !in expected
      invariant rank == None
    {
      GroupsStep(children, i);
      if !children[i].Grouped() || children[i].group.value in seen {
        continue;
      }
      var group := children[i].group.value;
      seen := seen + {group};
      if group in expected {
        rank := Some(|seen|);
        GroupsPrefix(children, i + 1);
        FirstInPrefix(expected, GroupsInOrder(children[..i + 1]), GroupsInOrder(children));
        return;
      }
    }
    assert children[..|children|] == children;
  }

  lemma NoGroups(children: seq<Child>)
    ensures GroupsInOrder(children[..0]) == []
  {
  }

  lemma FirstInPrefix(expected: set<string>, prefix: seq<string>, whole: seq<string>)
    requires prefix <= whole && prefix != [] && prefix[|prefix| - 1] in expected
    requires forall i :: 0 <= i < |prefix| - 1 ==> prefix[i] !in expected
    ensures FirstPosition((g: string) => g in expected, whole) == Some(|prefix| - 1)
  {
    var first := FirstPosition((g: string) => g in expected, whole);
    assert whole[|prefix| - 1] in expected;
  }

  // ---------------------------------------------------------------- presence against rank

  /** No ungrouped child's fallback key is also the group id of a grouped one. */
  ghost predicate KeysDoNotCollide(children: seq<Child>) {
    forall i, j :: 0 <= i < |children| && 0 <= j < |children| && children[i].Grouped() && !children[j].Grouped() ==>
      children[i].Key() != children[j].Key()
  }

  predicate Expects(expected: set<string>, child: Child) {
    child.Grouped() && child.group.value in expected
  }

  /** `bool(expected_groups.intersection(returned_groups))`. */
  predicate GroupHit(returned: seq<Child>, expected: set<string>) {
    exists i :: 0 <= i < |returned| && Expects(expected, returned[i])
  }

  /** The groups of the grouped children of a list, repetitions included. */
  function GroupsOf(children: seq<Child>): seq<string> {
    if children == [] then []
    else
      var rest, last := GroupsOf(children[..|children| - 1]), children[|children| - 1];
      if last.Grouped() then rest + [last.group.value] else rest
  }

  lemma GroupsOfSnoc(children: seq<Child>, last: Child)
    ensures GroupsOf(children + [last])
         == if last.Grouped() then GroupsOf(children) + [last.group.value] else GroupsOf(children)
  {
    assert (children + [last])[..|children|] == children;
  }

  lemma {:induction false} GroupsOfMembers(children: seq<Child>)
    ensures forall g :: g in GroupsOf(children) <==>
              exists i :: 0 <= i < |children| && children[i].Grouped() && children[i].group.value == g
  {
    if children != [] {
      var n := |children| - 1;
      var rest := children[..n];
      GroupsOfMembers(rest);
      forall g
        ensures g in GroupsOf(children) <==>
                  exists i :: 0 <= i < |children| && children[i].Grouped() && children[i].group.value == g
      {
        if i :| 0 <= i < |children| && children[i].Grouped() && children[i].group.value == g {
          assert i < n ==> rest[i] == children[i];
        }
        if g in GroupsOf(rest) {
          var i :| 0 <= i < |rest| && rest[i].Grouped() && rest[i].group.value == g;
          assert children[i].Grouped() && children[i].group.value == g;
        }
      }
    }
  }

  /** The first child with this key is an ungrouped one, whose fallback key it is. */
  ghost predicate Claimed(children: seq<Child>, key: string) {
    exists i: nat :: IsBest(children, i) && children[i].Key() == key && !children[i].Grouped()
  }

  /** The children without the grouped ones whose group id an ungrouped child claimed before them. */
  ghost function Unclaimed(children: seq<Child>): seq<Child> {
    if children == [] then []
    else
      var rest, last := children[..|children| - 1], children[|children| - 1];
      if last.Grouped() && Claimed(rest, last.Key()) then Unclaimed(rest) else Unclaimed(rest) + [last]
  }

  lemma NotClaimedByGrouped(children: seq<Child>)
    requires KeysDoNotCollide(children) && children != [] && children[|children| - 1].Grouped()
    ensures !Claimed(children[..|children| - 1], children[|children| - 1].Key())
  {
    var n := |children| - 1;
    var rest, last := children[..n], children[n];
    forall i | 0 <= i < n && !rest[i].Grouped()
      ensures rest[i].Key() != last.Key()
    {
      assert rest[i] == children[i];
    }
  }

  lemma {:induction false} UnclaimedWithoutCollisions(children: seq<Child>)
    requires KeysDoNotCollide(children)
    ensures Unclaimed(children) == children
  {
    hide Claimed;
    if children != [] {
      var n := |children| - 1;
      assert forall i :: 0 <= i < n ==> children[..n][i] == children[i];
      UnclaimedWithoutCollisions(children[..n]);
      if children[n].Grouped() {
        NotClaimedByGrouped(children);
      }
    }
  }

  /** A known key is claimed, or its group is kept. */
  lemma KnownKeyIsClaimedOrKept(children: seq<Child>, key: string)
    requires key in Keys(children)
    ensures Claimed(children, key) || key in GroupsOf(FirstPerKey(children))
  {
    var m := FirstWithKey(children, key);
    KeepsASubsequence(children);
    KeepsTheBestOfEachKey(children);
    var kept, at := FirstPerKey(children), BestPositions(children);
    hide FirstPerKey, BestPositions, Keys;
    if children[m].Grouped() {
      var i :| 0 <= i < |at| && at[i] == m;
      GroupsOfMembers(kept);
      assert kept[i].Grouped() && kept[i].group.value == key;
    }
  }

  /** An unknown key is neither claimed nor a kept group. */
  lemma FreshKeyIsFree(children: seq<Child>, key: string)
    requires key !in Keys(children)
    ensures !Claimed(children, key) && key !in GroupsOf(FirstPerKey(children))
  {
    KeptKeysAreDistinct(children);
    var kept := FirstPerKey(children);
    GroupsOfMembers(kept);
    hide FirstPerKey;
    forall i | 0 <= i < |kept|
      ensures kept[i].Key() != key
    {
      assert kept[i].Key() in Keys(kept);
    }
    forall i | 0 <= i < |children|
      ensures children[i].Key() != key
    {
      assert children[i].Key() in Keys(children);
    }
  }

  lemma GroupsInOrderSnoc(children: seq<Child>, last: Child)
    ensures GroupsInOrder(children + [last])
         == if last.Grouped() && last.group.value !in GroupsInOrder(children)
            then GroupsInOrder(children) + [last.group.value] else GroupsInOrder(children)
  {
    assert (children + [last])[..|children|] == children;
  }

  /** The kept children carry the groups of the unclaimed children, in order of first appearance. */
  lemma {:induction false} KeptGroupsAreGroupsInOrder(children: seq<Child>)
    ensures GroupsOf(FirstPerKey(children)) == GroupsInOrder(Unclaimed(children))
  {
    if children != [] {
      var n := |children| - 1;
      var rest, last := children[..n], children[n];
      KeptGroupsAreGroupsInOrder(rest);
      GroupsOfSnoc(FirstPerKey(rest), last);
      GroupsInOrderSnoc(Unclaimed(rest), last);
      if last.Key() in Keys(rest) {
        KnownKeyIsClaimedOrKept(rest, last.Key());
      } else {
        FreshKeyIsFree(rest, last.Key());
      }
      hide Claimed, Keys, GroupsOf, GroupsInOrder;
    }
  }

  lemma {:induction false} GroupedAndUngrouped(children: seq<Child>)
    ensures |GroupsOf(children)| + Count((c: Child) => !c.Grouped(), children) == |children|
  {
    if children != [] {
      var n := |children| - 1;
      GroupedAndUngrouped(children[..n]);
      CountStep((c: Child) => !c.Grouped(), children, n);
      assert children[..n + 1] == children;
    }
  }

  /** The first expected group of a list stands behind the groups of the children ahead of it. */
  lemma {:induction false} GroupPosition(children: seq<Child>, expected: set<string>)
    ensures FirstPosition((g: string) => g in expected, GroupsOf(children))
         == var m := FirstPosition((c: Child) => Expects(expected, c), children);
            if m.Some? then Some(|GroupsOf(children[..m.value])|) else None
  {
    if children != [] {
      var n := |children| - 1;
      var rest, last := children[..n], children[n];
      var inExpected := (g: string) => g in expected;
      GroupPosition(rest, expected);
      if last.Grouped() {
        FirstPositionSnoc(inExpected, GroupsOf(rest), last.group.value);
      }
      var m := FirstPosition((c: Child) => Expects(expected, c), rest);
      if m.Some? {
        assert rest[..m.value] == children[..m.value];
      }
    }
  }

  lemma FirstPositionSnoc<T>(p: T -> bool, s: seq<T>, last: T)
    ensures FirstPosition(p, s + [last])
         == if FirstPosition(p, s).Some? then FirstPosition(p, s) else if p(last) then Some(|s|) else None
  {
    assert (s + [last])[..|s|] == s;
  }

  /** How many kept children without a group rank ahead of the first expected group. */
  function UngroupedAhead(children: seq<Child>, expected: set<string>): nat {
    var kept := FirstPerKey(children);
    var m := FirstPosition((c: Child) => Expects(expected, c), kept);
    if m.Some? then Count((c: Child) => !c.Grouped(), kept[..m.value]) else 0
  }

  lemma RankOfFirstExpected(children: seq<Child>, expected: set<string>)
    ensures var m := FirstPosition((c: Child) => Expects(expected, c), FirstPerKey(children));
            var rank := UniqueGroupRank(Unclaimed(children), expected);
            && (rank.Some? <==> m.Some?)
            && (m.Some? ==> rank.value + UngroupedAhead(children, expected) == m.value + 1)
  {
    var kept := FirstPerKey(children);
    KeptGroupsAreGroupsInOrder(children);
    GroupPosition(kept, expected);
    var m := FirstPosition((c: Child) => Expects(expected, c), kept);
    if m.Some? {
      GroupedAndUngrouped(kept[..m.value]);
    }
  }

  /**
   * An expected group survives diversification exactly when its unique-group rank among the unclaimed children,
   * plus the ungrouped children kept ahead of it, fits the bound.
   */
  lemma HitIffRankFits(children: seq<Child>, expected: set<string>, topK: int)
    requires topK >= 1
    ensures var rank := UniqueGroupRank(Unclaimed(children), expected);
            GroupHit(StopAt(FirstPerKey(children), topK), expected) <==>
              rank.Some? && rank.value + UngroupedAhead(children, expected) <= topK
  {
    RankOfFirstExpected(children, expected);
    var kept := FirstPerKey(children);
    var m := FirstPosition((c: Child) => Expects(expected, c), kept);
    hide FirstPerKey, UniqueGroupRank, UngroupedAhead, Unclaimed;
    var returned := StopAt(kept, topK);
    if m.Some? && m.value < topK {
      assert Expects(expected, returned[m.value]);
    }
    if GroupHit(returned, expected) {
      var i :| 0 <= i < |returned| && Expects(expected, returned[i]);
      assert Expects(expected, kept[i]);
    }
  }

  /** When every child has a group, presence is exactly "the rank exists and is at most topK". */
  lemma GroupedHitIffRankWithinTopK(children: seq<Child>, expected: set<string>, topK: int)
    requires (forall i :: 0 <= i < |children| ==> children[i].Grouped()) && topK >= 1
    ensures GroupHit(StopAt(FirstPerKey(children), topK), expected) <==>
              UniqueGroupRank(children, expected).Some? && UniqueGroupRank(children, expected).value <= topK
  {
    hide FirstPerKey, UniqueGroupRank, UngroupedAhead, GroupHit, Unclaimed;
    UnclaimedWithoutCollisions(children);
    HitIffRankFits(children, expected, topK);
    NothingUngroupedAhead(children, expected);
  }

  lemma NothingUngroupedAhead(children: seq<Child>, expected: set<string>)
    requires forall i :: 0 <= i < |children| ==> children[i].Grouped()
    ensures UngroupedAhead(children, expected) == 0
  {
    hide FirstPerKey;
    var kept := FirstPerKey(children);
    var m := FirstPosition((c: Child) => Expects(expected, c), kept);
    KeepsASubsequence(children);
    if m.Some? {
      CountZeroIffNone((c: Child) => !c.Grouped(), kept[..m.value]);
    }
  }

  /**
   * The rank the evaluation reports for the returned list is the diagnostic rank of the unclaimed children, which are
   * all children when no group id is an ungrouped child's fallback key.
   */
  lemma ReportedRankIsUniqueRank(children: seq<Child>, expected: set<string>, topK: int)
    requires topK >= 1
    requires GroupHit(StopAt(FirstPerKey(children), topK), expected)
    ensures var position :=
              FirstPosition((g: string) => g in expected, GroupsOf(StopAt(FirstPerKey(children), topK)));
            position.Some? && UniqueGroupRank(Unclaimed(children), expected) == Some(position.value + 1)
    ensures KeysDoNotCollide(children) ==> Unclaimed(children) == children
  {
    hide FirstPerKey, GroupsOf, GroupsInOrder, Unclaimed, KeysDoNotCollide, FirstPosition;
    if KeysDoNotCollide(children) {
      UnclaimedWithoutCollisions(children);
    }
    var kept := FirstPerKey(children);
    var returned := StopAt(kept, topK);
    var expects := (c: Child) => Expects(expected, c);
    KeptGroupsAreGroupsInOrder(children);
    GroupPosition(kept, expected);
    GroupPosition(returned, expected);
    FirstPositionInPrefix(expects, kept, |returned|);
    var m := FirstPosition(expects, kept);
    assert returned[..m.value] == kept[..m.value];
  }

  lemma FirstPositionInPrefix<T>(p: T -> bool, s: seq<T>, k: nat)
    requires k <= |s| && exists i :: 0 <= i < k && p(s[..k][i])
    ensures FirstPosition(p, s[..k]).Some? && FirstPosition(p, s[..k]) == FirstPosition(p, s)
  {
    var prefix := s[..k];
    var first := FirstPosition(p, prefix).value;
    assert p(s[first]);
    assert forall i :: 0 <= i < first ==> prefix[i] == s[i];
  }

  /** An ungrouped child followed by a grouped one. */
  lemma TwoChildren(a: Child, b: Child)
    requires !a.Grouped() && b.Grouped()
    ensures FirstPerKey([a, b]) == if b.Key() == a.Key() then [a] else [a, b]
    ensures GroupsInOrder([a, b]) == [b.group.value]
  {
    var children := [a, b];
    FirstPerKeyNone(children);
    FirstPerKeyStep(children, 0);
    FirstPerKeyStep(children, 1);
    GroupsStep(children, 0);
    GroupsStep(children, 1);
    hide FirstPerKey, GroupsInOrder, Keys;
    assert children[..2] == children;
  }

  /** An ungrouped child ahead takes a place the diagnostic rank does not count. */
  lemma UngroupedChildHidesTheExpectedGroup()
    ensures var children := [Child("c1", None), Child("c2", Some("g"))];
            && KeysDoNotCollide(children)
            && UniqueGroupRank(children, {"g"}) == Some(1)
            && !GroupHit(StopAt(FirstPerKey(children), 1), {"g"})
  {
    hide FirstPerKey, GroupsInOrder;
    var ungrouped, grouped := Child("c1", None), Child("c2", Some("g"));
    assert |ungrouped.Key()| == 8 && |grouped.Key()| == 1;
    TwoChildren(ungrouped, grouped);
    FirstInPrefix({"g"}, ["g"], ["g"]);
  }

  /** A group named like an ungrouped child's fallback key has diagnostic rank 1 and is returned for no bound. */
  lemma ClaimedGroupIsNeverReturned(id: string, other: string, topK: int)
    requires topK >= 1
    ensures var children := [Child(id, None), Child(other, Some("CHILD:" + id))];
            && UniqueGroupRank(children, {"CHILD:" + id}) == Some(1)
            && !GroupHit(StopAt(FirstPerKey(children), topK), {"CHILD:" + id})
  {
    hide FirstPerKey, GroupsInOrder;
    var ungrouped, grouped := Child(id, None), Child(other, Some("CHILD:" + id));
    assert |grouped.group.value| >= 6;
    TwoChildren(ungrouped, grouped);
    FirstInPrefix({grouped.group.value}, [grouped.group.value], [grouped.group.value]);
  }
}
