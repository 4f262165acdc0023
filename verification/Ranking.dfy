/** Turning similarity scores into a ranking: the early-exit loop and the filter-sort-slice. */
module Ranking {
  import opened Collections
  import opened Sorting

  datatype Hit<C> = Hit(chunk: C, score: real)

  // ---------------------------------------------------------------- argsort

  /** An index order that argsort of the negated scores may return: ties in any order. */
  ghost predicate IsArgsort(scores: seq<real>, order: seq<nat>) {
    && |order| == |scores|
    && NoDuplicates(order)
    && (forall i :: 0 <= i < |order| ==> order[i] < |scores|)
    && (forall i, j :: 0 <= i < j < |order| ==> scores[order[i]] >= scores[order[j]])
  }

  function Pair<C>(candidates: seq<C>, scores: seq<real>): (hits: seq<Hit<C>>)
    requires |candidates| == |scores|
    ensures |hits| == |scores|
  {
    seq(|scores|, i requires 0 <= i < |scores| => Hit(candidates[i], scores[i]))
  }

  /** The hits in the order of the indices. */
  function Arrange<T>(s: seq<T>, order: seq<nat>): (r: seq<T>)
    requires forall i :: 0 <= i < |order| ==> order[i] < |s|
    ensures |r| == |order|
    ensures forall i :: 0 <= i < |r| ==> r[i] == s[order[i]]
  {
    seq(|order|, i requires 0 <= i < |order| => s[order[i]])
  }

  function Range(n: nat): seq<nat> {
    seq(n, i => i)
  }

  /** Pigeonhole: as many distinct indices below n as there are name every index. */
  lemma OrderNamesEveryIndex(order: seq<nat>)
    requires NoDuplicates(order) && forall i :: 0 <= i < |order| ==> order[i] < |order|
    ensures multiset(order) == multiset(Range(|order|))
  {
    var range := Range(|order|);
    forall x | x in order
      ensures x in range
    {
      assert range[x] == x;
    }
    CoveringIsPermutation(range, order);
  }

  function Map<A, B>(f: A -> B, s: seq<A>): seq<B> {
    seq(|s|, i requires 0 <= i < |s| => f(s[i]))
  }

  lemma MapConcat<A, B>(f: A -> B, a: seq<A>, b: seq<A>)
    ensures Map(f, a + b) == Map(f, a) + Map(f, b)
  {
  }

  lemma {:induction false} MapOfPermutation<A, B>(f: A -> B, s: seq<A>, t: seq<A>)
    requires multiset(s) == multiset(t)
    ensures multiset(Map(f, s)) == multiset(Map(f, t))
    decreases |s|
  {
    if s == [] {
      PermutationKeepsMembers(s, t);
    } else {
      var j := TakeOut(s, t);
      MapOfPermutation(f, s[1..], t[..j] + t[j + 1..]);
      assert s == [s[0]] + s[1..];
      MapConcat(f, [s[0]], s[1..]);
      MapConcat(f, t[..j], t[j + 1..]);
      MapConcat(f, [s[0]], t[j + 1..]);
      MapConcat(f, t[..j], [s[0]] + t[j + 1..]);
      hide Map;
    }
  }

  /** Arranging by a full order permutes. */
  lemma ArrangeIsPermutation<T>(s: seq<T>, order: seq<nat>)
    requires |order| == |s| && NoDuplicates(order) && forall i :: 0 <= i < |order| ==> order[i] < |s|
    ensures multiset(Arrange(s, order)) == multiset(s)
  {
    if s != [] {
      var at := (i: nat) => if i < |s| then s[i] else s[0];
      OrderNamesEveryIndex(order);
      MapOfPermutation(at, order, Range(|s|));
      assert Map(at, Range(|s|)) == s;
      assert Map(at, order) == Arrange(s, order);
    }
  }

  // ---------------------------------------------------------------- the early-exit loop

  /** What "stop once the length equals topK" leaves: without a positive bound the test never holds. */
  function StopAt<T>(s: seq<T>, topK: int): seq<T> {
    if topK < 1 then s else s[..Min(topK, |s|)]
  }

  function Eligible<C>(hits: seq<Hit<C>>, threshold: real): seq<Hit<C>> {
    Filter((h: Hit<C>) => h.score >= threshold, hits)
  }

  lemma {:induction false} FilterPrefix<T>(p: T -> bool, s: seq<T>, i: nat)
    requires i <= |s|
    ensures Filter(p, s[..i]) <= Filter(p, s)
    decreases |s| - i
  {
    if i < |s| {
      FilterStep(p, s, i);
      FilterPrefix(p, s, i + 1);
    } else {
      assert s[..i] == s;
    }
  }

  /** Descending order, skip below the threshold, stop as soon as the length equals topK. */
  method RankDense<C>(candidates: seq<C>, scores: seq<real>, order: seq<nat>, threshold: real, topK: int)
    returns (ranked: seq<Hit<C>>)
    requires |candidates| == |scores| && IsArgsort(scores, order)
    ensures ranked == StopAt(Eligible(Arrange(Pair(candidates, scores), order), threshold), topK)
  {
    hide Filter;
    ghost var arranged := Arrange(Pair(candidates, scores), order);
    ghost var eligible := (h: Hit<C>) => h.score >= threshold;
    FilterNone(eligible, arranged);
    ranked := [];
    for i := 0 to |order|
      invariant ranked == Filter(eligible, arranged[..i])
      invariant topK >= 1 ==> |ranked| < topK
    {
      FilterStep(eligible, arranged, i);
      var score := scores[order[i]];
      if score < threshold {
        continue;
      }
      ranked := ranked + [Hit(candidates[order[i]], score)];
      if |ranked| == topK {
        FilterPrefix(eligible, arranged, i + 1);
        break;
      }
    }
    assert arranged[..|order|] == arranged;
  }

  // ---------------------------------------------------------------- filter, sort, slice

  /** The sort key `(-score, chunk_id)`. */
  predicate ByScoreThenId<C>(id: C -> string, a: Hit<C>, b: Hit<C>) {
    a.score > b.score || (a.score == b.score && AtMost(id(a.chunk), id(b.chunk)))
  }

  function Order<C>(id: C -> string): (Hit<C>, Hit<C>) -> bool {
    (a: Hit<C>, b: Hit<C>) => ByScoreThenId(id, a, b)
  }

  lemma ByScoreThenIdIsPreorder<C(!new)>(id: C -> string)
    ensures TotalPreorder(Order(id))
  {
    var leq := Order(id);
    forall a, b
      ensures leq(a, b) || leq(b, a)
    {
      AtMostIsTotal(id(a.chunk), id(b.chunk));
    }
    forall a, b, c | leq(a, b) && leq(b, c)
      ensures leq(a, c)
    {
      if a.score == b.score == c.score {
        AtMostIsTransitive(id(a.chunk), id(b.chunk), id(c.chunk));
      }
    }
  }

  /** `s[:k]`: a negative bound counts from the end. */
  function SliceTo<T>(s: seq<T>, k: int): seq<T> {
    if k >= 0 then s[..Min(k, |s|)] else s[..Max(0, |s| + k)]
  }

  /** Keep scores at the threshold or above, sort, slice; a blocked query retrieves nothing. */
  method RetrieveSorted<C>(blocked: bool, id: C -> string, candidates: seq<C>, scores: seq<real>, threshold: real,
                           topK: int)
    returns (scored: seq<Hit<C>>)
    requires |candidates| == |scores|
    ensures blocked ==> scored == []
    ensures !blocked ==>
              scored == SliceTo(StableSort(Order(id), Eligible(Pair(candidates, scores), threshold)), topK)
  {
    hide Filter, StableSort;
    ghost var hits := Pair(candidates, scores);
    ghost var eligible := (h: Hit<C>) => h.score >= threshold;
    scored := [];
    if blocked {
      return;
    }
    FilterNone(eligible, hits);
    for i := 0 to |scores|
      invariant scored == Filter(eligible, hits[..i])
    {
      FilterStep(eligible, hits, i);
      if scores[i] >= threshold {
        scored := scored + [Hit(candidates[i], scores[i])];
      }
    }
    assert hits[..|scores|] == hits;
    scored := StableSort(Order(id), scored);
    scored := SliceTo(scored, topK);
  }

  // ---------------------------------------------------------------- the two agree

  lemma ArrangedIsPermutation<C>(candidates: seq<C>, scores: seq<real>, order: seq<nat>)
    requires |candidates| == |scores| && IsArgsort(scores, order)
    ensures multiset(Arrange(Pair(candidates, scores), order)) == multiset(Pair(candidates, scores))
  {
    ArrangeIsPermutation(Pair(candidates, scores), order);
  }

  lemma {:induction false} FilterConcat<T>(p: T -> bool, a: seq<T>, b: seq<T>)
    ensures Filter(p, a + b) == Filter(p, a) + Filter(p, b)
  {
    if b == [] {
      assert a + b == a;
    } else {
      var rest, last := b[..|b| - 1], b[|b| - 1];
      FilterConcat(p, a, rest);
      FilterSnoc(p, a + rest, last);
      assert a + b == (a + rest) + [last];
    }
  }

  lemma {:induction false} FilterOfPermutation<T>(p: T -> bool, s: seq<T>, t: seq<T>)
    requires multiset(s) == multiset(t)
    ensures multiset(Filter(p, s)) == multiset(Filter(p, t))
    decreases |s|
  {
    if s == [] {
      PermutationKeepsMembers(s, t);
    } else {
      var j := TakeOut(s, t);
      FilterOfPermutation(p, s[1..], t[..j] + t[j + 1..]);
      assert s == [s[0]] + s[1..];
      FilterConcat(p, [s[0]], s[1..]);
      FilterConcat(p, t[..j], t[j + 1..]);
      FilterConcat(p, [s[0]], t[j + 1..]);
      FilterConcat(p, t[..j], [s[0]] + t[j + 1..]);
      hide Filter;
    }
  }

  lemma {:induction false} FilterEntry<T>(p: T -> bool, s: seq<T>, i: nat)
    requires i < |Filter(p, s)|
    ensures Filter(p, s)[i] in s && p(Filter(p, s)[i])
  {
    var rest := s[..|s| - 1];
    if i < |Filter(p, rest)| {
      FilterEntry(p, rest, i);
    }
  }

  lemma {:induction false} FilterKeepsAscending<T>(leq: (T, T) -> bool, p: T -> bool, s: seq<T>)
    requires Ascending(leq, s)
    ensures Ascending(leq, Filter(p, s))
  {
    if s != [] {
      var rest, last := s[..|s| - 1], s[|s| - 1];
      FilterKeepsAscending(leq, p, rest);
      var kept := Filter(p, rest);
      forall i | 0 <= i < |kept|
        ensures leq(kept[i], last)
      {
        FilterEntry(p, rest, i);
        var j :| 0 <= j < |rest| && rest[j] == kept[i];
        assert leq(s[j], s[|s| - 1]);
      }
    }
  }

  /** Distinct chunk ids: no two candidates can tie on both key parts. */
  ghost predicate DistinctIds<C>(id: C -> string, hits: seq<Hit<C>>) {
    forall a, b :: a in hits && b in hits && id(a.chunk) == id(b.chunk) ==> a == b
  }

  lemma DistinctIdsAreAntisymmetric<C>(id: C -> string, hits: seq<Hit<C>>)
    requires DistinctIds(id, hits)
    ensures AntisymmetricOn(Order(id), hits)
  {
    var leq := Order(id);
    forall a, b | a in hits && b in hits && leq(a, b) && leq(b, a)
      ensures a == b
    {
      AtMostIsAntisymmetric(id(a.chunk), id(b.chunk));
    }
  }

  lemma EligibleOfBothAgree<C(!new)>(id: C -> string, hits: seq<Hit<C>>, arranged: seq<Hit<C>>, threshold: real)
    requires DistinctIds(id, hits) && multiset(arranged) == multiset(hits)
    requires Ascending(Order(id), arranged)
    ensures Eligible(arranged, threshold) == StableSort(Order(id), Eligible(hits, threshold))
  {
    var leq := Order(id);
    var p := (h: Hit<C>) => h.score >= threshold;
    ByScoreThenIdIsPreorder(id);
    SortIsAscendingPermutation(leq, hits);
    PermutationKeepsMembers(hits, arranged);
    PermutationKeepsMembers(hits, StableSort(leq, hits));
    assert DistinctIds(id, arranged);
    DistinctIdsAreAntisymmetric(id, arranged);
    AscendingIsUnique(leq, arranged, StableSort(leq, hits));
    FilterCommutesWithSort(leq, p, hits);
    hide Filter, StableSort, Ascending, TotalPreorder, AntisymmetricOn, DistinctIds, Order;
    assert Eligible(arranged, threshold) == Filter(p, StableSort(leq, hits));
  }

  /**
   * With ties broken by chunk id in both, stopping early and slicing a sorted list give the same ranking
   * exactly when the bound is positive or nothing is eligible.
   */
  lemma EarlyExitIsSortAndSlice<C(!new)>(id: C -> string, candidates: seq<C>, scores: seq<real>, order: seq<nat>,
                                         threshold: real, topK: int)
    requires |candidates| == |scores| && IsArgsort(scores, order)
    requires DistinctIds(id, Pair(candidates, scores))
    requires Ascending(Order(id), Arrange(Pair(candidates, scores), order))
    ensures topK >= 1 || Eligible(Pair(candidates, scores), threshold) == [] <==>
              (StopAt(Eligible(Arrange(Pair(candidates, scores), order), threshold), topK)
               == SliceTo(StableSort(Order(id), Eligible(Pair(candidates, scores), threshold)), topK))
  {
    var hits := Pair(candidates, scores);
    var arranged := Arrange(hits, order);
    ArrangedIsPermutation(candidates, scores, order);
    EligibleOfBothAgree(id, hits, arranged, threshold);
    ByScoreThenIdIsPreorder(id);
    var kept := Eligible(hits, threshold);
    SortIsAscendingPermutation(Order(id), kept);
    PermutationKeepsMembers(kept, StableSort(Order(id), kept));
    hide Filter, StableSort, Ascending, TotalPreorder, DistinctIds, Order, Eligible;
  }

  /** With a bound of 0 the loop returns the one eligible candidate, and the slice returns none. */
  lemma BoundOfZeroDiffers<C(!new)>(id: C -> string, candidate: C, score: real, threshold: real)
    requires score >= threshold
    ensures IsArgsort([score], [0])
    ensures StopAt(Eligible(Arrange(Pair([candidate], [score]), [0]), threshold), 0) == [Hit(candidate, score)]
    ensures SliceTo(StableSort(Order(id), Eligible(Pair([candidate], [score]), threshold)), 0) == []
  {
    hide StableSort, Eligible, Filter;
    var hits := [Hit(candidate, score)];
    assert Pair([candidate], [score]) == hits;
    assert Arrange(hits, [0]) == hits;
    OneIsEligible(candidate, score, threshold);
  }

  lemma OneIsEligible<C>(candidate: C, score: real, threshold: real)
    requires score >= threshold
    ensures Eligible([Hit(candidate, score)], threshold) == [Hit(candidate, score)]
  {
    FilterAll((h: Hit<C>) => h.score >= threshold, [Hit(candidate, score)]);
    hide Filter;
  }

  function Scores<C>(hits: seq<Hit<C>>): (r: seq<real>)
    ensures |r| == |hits|
    ensures forall i :: 0 <= i < |r| ==> r[i] == hits[i].score
  {
    seq(|hits|, i requires 0 <= i < |hits| => hits[i].score)
  }

  ghost predicate Descending<C>(hits: seq<Hit<C>>) {
    forall i, j :: 0 <= i < j < |hits| ==> hits[i].score >= hits[j].score
  }

  lemma DescendingScoresAreUnique<C>(s: seq<Hit<C>>, t: seq<Hit<C>>)
    requires Descending(s) && Descending(t) && multiset(s) == multiset(t)
    ensures Scores(s) == Scores(t)
  {
    var score := (h: Hit<C>) => h.score;
    MapOfPermutation(score, s, t);
    assert Map(score, s) == Scores(s) && Map(score, t) == Scores(t);
    AscendingIsUnique((x: real, y: real) => x >= y, Scores(s), Scores(t));
  }

  lemma ArrangedIsDescending<C>(candidates: seq<C>, scores: seq<real>, order: seq<nat>, threshold: real)
    requires |candidates| == |scores| && IsArgsort(scores, order)
    ensures Descending(Arrange(Pair(candidates, scores), order))
    ensures Descending(Eligible(Arrange(Pair(candidates, scores), order), threshold))
  {
    var arranged := Arrange(Pair(candidates, scores), order);
    FilterKeepsAscending((a: Hit<C>, b: Hit<C>) => a.score >= b.score,
                         (h: Hit<C>) => h.score >= threshold, arranged);
  }

  /** Whatever argsort does with ties, the two rankings report the same scores, position by position. */
  lemma SameScoresWhateverTheTies<C(!new)>(id: C -> string, candidates: seq<C>, scores: seq<real>, order: seq<nat>,
                                           threshold: real, topK: int)
    requires |candidates| == |scores| && IsArgsort(scores, order) && topK >= 1
    ensures Scores(StopAt(Eligible(Arrange(Pair(candidates, scores), order), threshold), topK))
         == Scores(SliceTo(StableSort(Order(id), Eligible(Pair(candidates, scores), threshold)), topK))
  {
    var hits := Pair(candidates, scores);
    var arranged := Arrange(hits, order);
    var s, t := Eligible(arranged, threshold), StableSort(Order(id), Eligible(hits, threshold));
    ArrangedIsPermutation(candidates, scores, order);
    ArrangedIsDescending(candidates, scores, order, threshold);
    FilterOfPermutation((h: Hit<C>) => h.score >= threshold, arranged, hits);
    SortedIsDescending(id, Eligible(hits, threshold));
    hide Filter, StableSort, Eligible, Arrange, Pair, Order;
    DescendingScoresAreUnique(s, t);
    var k := Min(topK, |s|);
    PrefixScores(s, k);
    PrefixScores(t, k);
  }

  lemma PrefixScores<C>(hits: seq<Hit<C>>, k: nat)
    requires k <= |hits|
    ensures |Scores(hits)| == |hits| && Scores(hits[..k]) == Scores(hits)[..k]
  {
  }

  lemma SortedIsDescending<C(!new)>(id: C -> string, hits: seq<Hit<C>>)
    ensures Descending(StableSort(Order(id), hits))
    ensures multiset(StableSort(Order(id), hits)) == multiset(hits)
  {
    var t := StableSort(Order(id), hits);
    ByScoreThenIdIsPreorder(id);
    SortIsAscendingPermutation(Order(id), hits);
    hide StableSort;
    assert forall i, j :: 0 <= i < j < |t| ==> Order(id)(t[i], t[j]);
  }

  // ---------------------------------------------------------------- what the ranking contains

  /** In a descending list nothing after position k outscores anything before it. */
  lemma PrefixIsBest<C>(all: seq<Hit<C>>, k: nat)
    requires Descending(all) && k <= |all|
    ensures forall h, o :: h in all[..k] && o in all[k..] ==> o.score <= h.score
  {
    forall h, o | h in all[..k] && o in all[k..]
      ensures o.score <= h.score
    {
      var i :| 0 <= i < k && all[i] == h;
      var j :| k <= j < |all| && all[j] == o;
    }
  }

  /** What remains of a list, as a bag, when its first k entries are taken out of an arrangement of it. */
  lemma RestOfArrangement<T>(all: seq<T>, bag: multiset<T>, k: nat)
    requires multiset(all) == bag && k <= |all|
    ensures multiset(all[..k]) <= bag && bag - multiset(all[..k]) == multiset(all[k..])
    ensures forall o :: o in bag - multiset(all[..k]) <==> o in all[k..]
  {
    assert all == all[..k] + all[k..];
  }

  /** The ranking holds as many eligible candidates as fit, and no omitted one outscores a returned one. */
  lemma RankingIsBest<C>(candidates: seq<C>, scores: seq<real>, order: seq<nat>, threshold: real, topK: int)
    requires |candidates| == |scores| && IsArgsort(scores, order) && topK >= 1
    ensures var eligible := Eligible(Pair(candidates, scores), threshold);
            var ranked := StopAt(Eligible(Arrange(Pair(candidates, scores), order), threshold), topK);
            var omitted := multiset(eligible) - multiset(ranked);
            && |ranked| == Min(topK, |eligible|)
            && multiset(ranked) <= multiset(eligible)
            && forall h, o :: h in ranked && o in omitted ==> o.score <= h.score
  {
    hide Filter, Eligible, Pair, Descending;
    EligibleIsRearranged(candidates, scores, order, threshold);
    var eligible := Eligible(Pair(candidates, scores), threshold);
    var all := Eligible(Arrange(Pair(candidates, scores), order), threshold);
    ArrangedIsDescending(candidates, scores, order, threshold);
    var k := Min(topK, |all|);
    RestOfArrangement(all, multiset(eligible), k);
    PrefixIsBest(all, k);
  }

  lemma EligibleIsRearranged<C>(candidates: seq<C>, scores: seq<real>, order: seq<nat>, threshold: real)
    requires |candidates| == |scores| && IsArgsort(scores, order)
    ensures var eligible := Eligible(Pair(candidates, scores), threshold);
            var all := Eligible(Arrange(Pair(candidates, scores), order), threshold);
            multiset(all) == multiset(eligible) && |all| == |eligible|
  {
    hide Filter, Arrange, Pair;
    var hits := Pair(candidates, scores);
    ArrangedIsPermutation(candidates, scores, order);
    FilterOfPermutation((h: Hit<C>) => h.score >= threshold, Arrange(hits, order), hits);
    PermutationKeepsMembers(Eligible(Arrange(hits, order), threshold), Eligible(hits, threshold));
  }

  lemma {:induction false} EligibleOfDescending<C>(hits: seq<Hit<C>>, threshold: real) returns (n: nat)
    requires Descending(hits)
    ensures n <= |hits| && Eligible(hits, threshold) == hits[..n]
    ensures forall i :: 0 <= i < |hits| ==> (hits[i].score >= threshold <==> i < n)
  {
    if hits == [] {
      n := 0;
    } else {
      var rest, last := hits[..|hits| - 1], hits[|hits| - 1];
      var m := EligibleOfDescending(rest, threshold);
      n := if last.score >= threshold then |hits| else m;
      assert forall i :: 0 <= i < |rest| ==> rest[i] == hits[i] && hits[i].score >= last.score;
    }
  }

  /** Raising the threshold or lowering a positive bound shortens the ranking from its end. */
  lemma StricterRankingIsPrefix<C>(candidates: seq<C>, scores: seq<real>, order: seq<nat>,
                                   threshold: real, topK: int, higher: real, lower: int)
    requires |candidates| == |scores| && IsArgsort(scores, order)
    requires threshold <= higher && 1 <= lower <= topK
    ensures StopAt(Eligible(Arrange(Pair(candidates, scores), order), higher), lower)
         <= StopAt(Eligible(Arrange(Pair(candidates, scores), order), threshold), topK)
  {
    var arranged := Arrange(Pair(candidates, scores), order);
    ArrangedIsDescending(candidates, scores, order, threshold);
    var m := EligibleOfDescending(arranged, threshold);
    var n := EligibleOfDescending(arranged, higher);
    assert n > 0 ==> arranged[n - 1].score >= higher;
  }

  // ---------------------------------------------------------------- what the sorted retrieval returns

  /** A higher score comes first, and among equal scores the smaller chunk id. */
  ghost predicate ComesFirst<C>(id: C -> string, h: Hit<C>, o: Hit<C>) {
    h.score >= o.score && (h.score == o.score ==> AtMost(id(h.chunk), id(o.chunk)))
  }

  lemma EligibleMembers<C>(candidates: seq<C>, scores: seq<real>, threshold: real, h: Hit<C>)
    requires |candidates| == |scores|
    ensures h in Eligible(Pair(candidates, scores), threshold) <==>
              exists i :: 0 <= i < |scores| && scores[i] >= threshold && h == Hit(candidates[i], scores[i])
  {
    var hits := Pair(candidates, scores);
    FilterMembers((h: Hit<C>) => h.score >= threshold, hits);
    hide Filter;
    if h in Eligible(hits, threshold) {
      assert h in hits && h.score >= threshold;
      var i :| 0 <= i < |hits| && hits[i] == h;
      assert scores[i] >= threshold && h == Hit(candidates[i], scores[i]);
    }
    if i :| 0 <= i < |scores| && scores[i] >= threshold && h == Hit(candidates[i], scores[i]) {
      assert hits[i] == h;
    }
  }

  lemma PrefixComesFirst<C>(id: C -> string, all: seq<Hit<C>>, k: nat)
    requires Ascending(Order(id), all) && k <= |all|
    ensures forall i, j :: 0 <= i < j < k ==> ComesFirst(id, all[..k][i], all[..k][j])
    ensures forall h, o :: h in all[..k] && o in all[k..] ==> ComesFirst(id, h, o)
  {
    forall i, j | 0 <= i < j < |all|
      ensures ComesFirst(id, all[i], all[j])
    {
      assert Order(id)(all[i], all[j]);
    }
    forall h, o | h in all[..k] && o in all[k..]
      ensures ComesFirst(id, h, o)
    {
      var i :| 0 <= i < k && all[i] == h;
      var j :| k <= j < |all| && all[j] == o;
    }
  }

  /** As many eligible candidates as the slice leaves, in order of score and then id, before all it leaves out. */
  lemma RetrievalIsOrdered<C(!new)>(id: C -> string, candidates: seq<C>, scores: seq<real>, threshold: real, topK: int)
    requires |candidates| == |scores|
    ensures var eligible := Eligible(Pair(candidates, scores), threshold);
            var retrieved := SliceTo(StableSort(Order(id), eligible), topK);
            var omitted := multiset(eligible) - multiset(retrieved);
            && |retrieved| == (if topK < 0 then Max(|eligible| + topK, 0) else Min(|eligible|, topK))
            && multiset(retrieved) <= multiset(eligible)
            && (forall i, j :: 0 <= i < j < |retrieved| ==> ComesFirst(id, retrieved[i], retrieved[j]))
            && (forall h, o :: h in retrieved && o in omitted ==> ComesFirst(id, h, o))
  {
    hide StableSort, Eligible, Filter, Order, Ascending, ComesFirst;
    var eligible := Eligible(Pair(candidates, scores), threshold);
    var all := StableSort(Order(id), eligible);
    ByScoreThenIdIsPreorder(id);
    SortIsAscendingPermutation(Order(id), eligible);
    hide TotalPreorder;
    PermutationKeepsMembers(eligible, all);
    var k := |SliceTo(all, topK)|;
    assert SliceTo(all, topK) == all[..k];
    RestOfArrangement(all, multiset(eligible), k);
    PrefixComesFirst(id, all, k);
  }
}
