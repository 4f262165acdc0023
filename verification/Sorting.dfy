/** Python's order on strings, sorted key lists, and the stable sort. */
module Sorting {
  import opened Collections

  /** Lexicographic order by code point. */
  predicate AtMost(a: string, b: string) {
    a == "" || (b != "" && (a[0] < b[0] || (a[0] == b[0] && AtMost(a[1..], b[1..]))))
  }

  /** The first difference is at k, and a's character there is the smaller one. */
  ghost predicate SmallerAt(a: string, b: string, k: int) {
    0 <= k < |a| && k < |b| && a[..k] == b[..k] && a[k] as int < b[k] as int
  }

  lemma SmallerAfterFirst(a: string, b: string, k: int)
    requires a != "" && b != "" && a[0] == b[0]
    ensures SmallerAt(a[1..], b[1..], k) <==> k >= 0 && SmallerAt(a, b, k + 1)
  {
    if 0 <= k && k + 1 < |a| && k + 1 < |b| {
      assert a[..k + 1] == [a[0]] + a[1..][..k] && b[..k + 1] == [b[0]] + b[1..][..k];
      assert a[1..][..k] == a[..k + 1][1..] && b[1..][..k] == b[..k + 1][1..];
    }
  }

  lemma SmallerAtFirst(a: string, b: string, k: int)
    requires a != "" && b != "" && a[0] != b[0]
    ensures SmallerAt(a, b, k) <==> k == 0 && a[0] < b[0]
  {
    if 0 < k < |a| && k < |b| {
      assert a[..k][0] == a[0] && b[..k][0] == b[0];
    }
  }

  lemma PrefixAfterFirst(a: string, b: string)
    requires a != "" && b != ""
    ensures a <= b <==> a[0] == b[0] && a[1..] <= b[1..]
  {
    assert a == [a[0]] + a[1..] && b == [b[0]] + b[1..];
  }

  /** A prefix comes first; otherwise the first difference decides, by code point. */
  lemma {:induction false} AtMostMeans(a: string, b: string)
    ensures AtMost(a, b) <==> a <= b || exists k :: SmallerAt(a, b, k)
  {
    if a != "" && b != "" {
      PrefixAfterFirst(a, b);
      if a[0] == b[0] {
        AtMostMeans(a[1..], b[1..]);
        forall k
          ensures SmallerAt(a[1..], b[1..], k) <==> k >= 0 && SmallerAt(a, b, k + 1)
        {
          SmallerAfterFirst(a, b, k);
        }
        if k :| SmallerAt(a, b, k) {
          assert k != 0;
          assert SmallerAt(a[1..], b[1..], k - 1);
        }
      } else {
        SmallerAtFirst(a, b, 0);
        if k :| SmallerAt(a, b, k) {
          SmallerAtFirst(a, b, k);
        }
      }
    }
  }

  predicate Before(a: string, b: string) {
    AtMost(a, b) && a != b
  }

  lemma {:induction false} AtMostIsTotal(a: string, b: string)
    ensures AtMost(a, b) || AtMost(b, a)
  {
    if a != "" && b != "" && a[0] == b[0] {
      AtMostIsTotal(a[1..], b[1..]);
    }
  }

  lemma {:induction false} AtMostIsAntisymmetric(a: string, b: string)
    requires AtMost(a, b) && AtMost(b, a)
    ensures a == b
  {
    if a != "" && b != "" {
      AtMostIsAntisymmetric(a[1..], b[1..]);
      assert a == [a[0]] + a[1..];
      assert b == [b[0]] + b[1..];
    }
  }

  lemma {:induction false} AtMostIsTransitive(a: string, b: string, c: string)
    requires AtMost(a, b) && AtMost(b, c)
    ensures AtMost(a, c)
  {
    if a != "" && a[0] == b[0] == c[0] {
      AtMostIsTransitive(a[1..], b[1..], c[1..]);
    }
  }

  predicate IsLeast(m: string, s: set<string>) {
    m in s && forall x :: x in s ==> AtMost(m, x)
  }

  lemma {:induction false} LeastExists(s: set<string>)
    requires s != {}
    ensures exists m :: IsLeast(m, s)
  {
    var x :| x in s;
    if s == {x} {
      AtMostIsTotal(x, x);
      assert IsLeast(x, s);
    } else {
      var rest := s - {x};
      LeastExists(rest);
      var m :| IsLeast(m, rest);
      AtMostIsTotal(x, m);
      AtMostIsTotal(x, x);
      if AtMost(x, m) {
        forall y | y in s
          ensures AtMost(x, y)
        {
          if y != x {
            AtMostIsTransitive(x, m, y);
          }
        }
        assert IsLeast(x, s);
      } else {
        assert IsLeast(m, s);
      }
    }
  }

  predicate StrictlyAscending(s: seq<string>) {
    forall i, j :: 0 <= i < j < |s| ==> Before(s[i], s[j])
  }

  lemma LeastIsUnique(s: set<string>)
    ensures forall m, m' | IsLeast(m, s) && IsLeast(m', s) :: m == m'
  {
    forall m, m' | IsLeast(m, s) && IsLeast(m', s)
      ensures m == m'
    {
      AtMostIsAntisymmetric(m, m');
    }
  }

  /** `sorted(s)` for a set of strings. */
  function SortedKeys(s: set<string>): (r: seq<string>)
    ensures ToSet(r) == s
    ensures |r| == |s|
    ensures StrictlyAscending(r)
    ensures NoDuplicates(r)
  {
    if s == {} then []
    else
      LeastExists(s);
      LeastIsUnique(s);
      var m :| IsLeast(m, s);
      var rest := SortedKeys(s - {m});
      LeastFirst(m, rest, s);
      [m] + rest
  }

  lemma LeastFirst(m: string, rest: seq<string>, s: set<string>)
    requires IsLeast(m, s) && ToSet(rest) == s - {m}
    requires StrictlyAscending(rest) && NoDuplicates(rest)
    ensures ToSet([m] + rest) == s && StrictlyAscending([m] + rest) && NoDuplicates([m] + rest)
  {
    forall i | 0 <= i < |rest|
      ensures rest[i] in s && Before(m, rest[i])
    {
      assert rest[i] in ToSet(rest);
    }
    forall x
      ensures x in [m] + rest <==> x in s
    {
      assert x in rest <==> x in ToSet(rest);
    }
  }

  // ---------------------------------------------------------------- the stable sort

  /** Inserts after every entry at most the new one. */
  function Insert<T>(leq: (T, T) -> bool, sorted: seq<T>, item: T): seq<T> {
    if sorted == [] then [item]
    else
      var last := sorted[|sorted| - 1];
      if leq(last, item) then sorted + [item] else Insert(leq, sorted[..|sorted| - 1], item) + [last]
  }

  /** `sorted(items)` under `leq`: entries that compare equal keep their order. */
  function StableSort<T>(leq: (T, T) -> bool, items: seq<T>): seq<T> {
    if items == [] then [] else Insert(leq, StableSort(leq, items[..|items| - 1]), items[|items| - 1])
  }

  ghost predicate TotalPreorder<T(!new)>(leq: (T, T) -> bool) {
    && (forall x, y :: leq(x, y) || leq(y, x))
    && (forall x, y, z :: leq(x, y) && leq(y, z) ==> leq(x, z))
  }

  ghost predicate Ascending<T>(leq: (T, T) -> bool, items: seq<T>) {
    forall i, j :: 0 <= i < j < |items| ==> leq(items[i], items[j])
  }

  lemma {:induction false} InsertIsPermutation<T>(leq: (T, T) -> bool, sorted: seq<T>, item: T)
    ensures multiset(Insert(leq, sorted, item)) == multiset(sorted) + multiset{item}
  {
    if sorted != [] {
      var last, rest := sorted[|sorted| - 1], sorted[..|sorted| - 1];
      InsertIsPermutation(leq, rest, item);
      MultisetLast(sorted);
    }
  }

  lemma {:induction false} InsertMembers<T>(leq: (T, T) -> bool, sorted: seq<T>, item: T)
    ensures forall x :: x in Insert(leq, sorted, item) <==> x in sorted || x == item
  {
    if sorted != [] {
      var last, rest := sorted[|sorted| - 1], sorted[..|sorted| - 1];
      InsertMembers(leq, rest, item);
      assert sorted == rest + [last];
    }
  }

  lemma {:induction false} InsertKeepsOrder<T(!new)>(leq: (T, T) -> bool, sorted: seq<T>, item: T)
    requires TotalPreorder(leq) && Ascending(leq, sorted)
    ensures Ascending(leq, Insert(leq, sorted, item))
  {
    if sorted != [] {
      var n := |sorted| - 1;
      var last, rest := sorted[n], sorted[..n];
      assert leq(last, item) || leq(item, last);
      if leq(last, item) {
        forall i | 0 <= i < n
          ensures leq(sorted[i], item)
        {
          assert leq(sorted[i], last);
        }
      } else {
        InsertKeepsOrder(leq, rest, item);
        InsertMembers(leq, rest, item);
        var inner := Insert(leq, rest, item);
        forall i | 0 <= i < |inner|
          ensures leq(inner[i], last)
        {
          assert inner[i] in inner;
          assert inner[i] == item || inner[i] in rest;
        }
      }
    }
  }

  /** The sort is an ascending permutation of its input. */
  lemma {:induction false} SortIsAscendingPermutation<T(!new)>(leq: (T, T) -> bool, items: seq<T>)
    requires TotalPreorder(leq)
    ensures multiset(StableSort(leq, items)) == multiset(items)
    ensures Ascending(leq, StableSort(leq, items))
  {
    if items != [] {
      var rest, last := items[..|items| - 1], items[|items| - 1];
      SortIsAscendingPermutation(leq, rest);
      InsertKeepsOrder(leq, StableSort(leq, rest), last);
      InsertIsPermutation(leq, StableSort(leq, rest), last);
      MultisetLast(items);
    }
  }

  /** Entries that compare equal both ways are equal. */
  ghost predicate AntisymmetricOn<T>(leq: (T, T) -> bool, items: seq<T>) {
    forall x, y :: x in items && y in items && leq(x, y) && leq(y, x) ==> x == y
  }

  lemma LastAgrees<T>(leq: (T, T) -> bool, s: seq<T>, t: seq<T>)
    requires Ascending(leq, s) && Ascending(leq, t) && AntisymmetricOn(leq, s)
    requires multiset(s) == multiset(t) && s != []
    ensures |s| == |t| && s[|s| - 1] == t[|t| - 1]
  {
    PermutationKeepsMembers(s, t);
    var n := |s| - 1;
    assert s[n] in s && t[n] in t;
    var i :| 0 <= i < |t| && t[i] == s[n];
    var j :| 0 <= j < |s| && s[j] == t[n];
    assert i < n ==> leq(t[i], t[n]);
    assert j < n ==> leq(s[j], s[n]);
  }

  /** There is only one ascending arrangement of entries that are never tied. */
  lemma {:induction false} AscendingIsUnique<T>(leq: (T, T) -> bool, s: seq<T>, t: seq<T>)
    requires Ascending(leq, s) && Ascending(leq, t) && AntisymmetricOn(leq, s)
    requires multiset(s) == multiset(t)
    ensures s == t
    decreases |s|
  {
    PermutationKeepsMembers(s, t);
    if s != [] {
      var n := |s| - 1;
      LastAgrees(leq, s, t);
      MultisetLast(s);
      MultisetLast(t);
      MultisetCancel(multiset(s[..n]), multiset(t[..n]), s[n]);
      AscendingIsUnique(leq, s[..n], t[..n]);
      assert s == s[..n] + [s[n]] && t == t[..n] + [t[n]];
    }
  }

  // ---------------------------------------------------------------- filtering

  function Filter<T>(p: T -> bool, s: seq<T>): (r: seq<T>) {
    if s == [] then []
    else Filter(p, s[..|s| - 1]) + if p(s[|s| - 1]) then [s[|s| - 1]] else []
  }

  lemma {:induction false} FilterMembers<T>(p: T -> bool, s: seq<T>)
    ensures forall x :: x in Filter(p, s) <==> x in s && p(x)
    ensures |Filter(p, s)| <= |s|
  {
    if s != [] {
      var rest, last := s[..|s| - 1], s[|s| - 1];
      FilterMembers(p, rest);
      assert s == rest + [last];
    }
  }

  lemma FilterNone<T>(p: T -> bool, s: seq<T>)
    ensures Filter(p, s[..0]) == []
  {
  }

  lemma FilterStep<T>(p: T -> bool, s: seq<T>, i: nat)
    requires i < |s|
    ensures Filter(p, s[..i + 1]) == if p(s[i]) then Filter(p, s[..i]) + [s[i]] else Filter(p, s[..i])
  {
    assert s[..i + 1][..i] == s[..i];
  }

  lemma {:induction false} FilterAll<T>(p: T -> bool, s: seq<T>)
    requires forall i :: 0 <= i < |s| ==> p(s[i])
    ensures Filter(p, s) == s
  {
    if s != [] {
      FilterAll(p, s[..|s| - 1]);
    }
  }

  lemma {:induction false} InsertAtEnd<T>(leq: (T, T) -> bool, sorted: seq<T>, item: T)
    requires forall x :: x in sorted ==> leq(x, item)
    ensures Insert(leq, sorted, item) == sorted + [item]
  {
  }

  lemma FilterSnoc<T>(p: T -> bool, s: seq<T>, x: T)
    ensures Filter(p, s + [x]) == Filter(p, s) + if p(x) then [x] else []
  {
    assert (s + [x])[..|s|] == s;
  }

  lemma InsertBeforeLast<T>(leq: (T, T) -> bool, s: seq<T>, last: T, item: T)
    requires !leq(last, item)
    ensures Insert(leq, s + [last], item) == Insert(leq, s, item) + [last]
  {
    assert (s + [last])[..|s|] == s;
  }

  lemma BelowLast<T(!new)>(leq: (T, T) -> bool, p: T -> bool, sorted: seq<T>, item: T)
    requires TotalPreorder(leq) && Ascending(leq, sorted) && sorted != [] && leq(sorted[|sorted| - 1], item)
    ensures forall x :: x in Filter(p, sorted) ==> leq(x, item)
  {
    FilterMembers(p, sorted);
    forall x | x in sorted
      ensures leq(x, item)
    {
      var i :| 0 <= i < |sorted| && sorted[i] == x;
      assert i < |sorted| - 1 ==> leq(sorted[i], sorted[|sorted| - 1]);
    }
  }

  lemma {:induction false} FilterInsert<T(!new)>(leq: (T, T) -> bool, p: T -> bool, sorted: seq<T>, item: T)
    requires TotalPreorder(leq) && Ascending(leq, sorted)
    ensures Filter(p, Insert(leq, sorted, item))
         == if p(item) then Insert(leq, Filter(p, sorted), item) else Filter(p, sorted)
  {
    if sorted == [] {
      FilterSnoc(p, [], item);
    } else {
      var last, rest := sorted[|sorted| - 1], sorted[..|sorted| - 1];
      assert sorted == rest + [last];
      if leq(last, item) {
        FilterSnoc(p, sorted, item);
        BelowLast(leq, p, sorted, item);
        InsertAtEnd(leq, Filter(p, sorted), item);
      } else {
        FilterInsert(leq, p, rest, item);
        FilterInsertBelow(leq, p, rest, last, item);
      }
    }
  }

  lemma FilterInsertBelow<T(!new)>(leq: (T, T) -> bool, p: T -> bool, rest: seq<T>, last: T, item: T)
    requires !leq(last, item)
    requires Filter(p, Insert(leq, rest, item))
          == if p(item) then Insert(leq, Filter(p, rest), item) else Filter(p, rest)
    ensures Filter(p, Insert(leq, rest + [last], item))
         == if p(item) then Insert(leq, Filter(p, rest + [last]), item) else Filter(p, rest + [last])
  {
    hide Filter, Insert;
    InsertBeforeLast(leq, rest, last, item);
    FilterSnoc(p, Insert(leq, rest, item), last);
    FilterSnoc(p, rest, last);
    InsertBeforeLast(leq, Filter(p, rest), last, item);
    if p(last) {
      assert Filter(p, rest + [last]) == Filter(p, rest) + [last];
    } else {
      assert Filter(p, rest + [last]) == Filter(p, rest);
    }
  }

  /** Filtering before or after the stable sort gives the same list. */
  lemma {:induction false} FilterCommutesWithSort<T(!new)>(leq: (T, T) -> bool, p: T -> bool, items: seq<T>)
    requires TotalPreorder(leq)
    ensures Filter(p, StableSort(leq, items)) == StableSort(leq, Filter(p, items))
  {
    if items != [] {
      var rest, last := items[..|items| - 1], items[|items| - 1];
      FilterCommutesWithSort(leq, p, rest);
      SortIsAscendingPermutation(leq, rest);
      FilterInsert(leq, p, StableSort(leq, rest), last);
      var kept := Filter(p, rest);
      assert (kept + [last])[..|kept|] == kept;
      assert Filter(p, items) == if p(last) then kept + [last] else kept;
      hide Filter, Insert, TotalPreorder, Ascending;
    }
  }

  lemma {:induction false} SortOfTied<T>(leq: (T, T) -> bool, items: seq<T>)
    requires forall x, y :: x in items && y in items ==> leq(x, y)
    ensures StableSort(leq, items) == items
  {
    if items != [] {
      var rest, last := items[..|items| - 1], items[|items| - 1];
      SortOfTied(leq, rest);
      InsertAtEnd(leq, rest, last);
    }
  }

  /** Entries tied with one another keep the order they came in. */
  lemma TiedEntriesKeepTheirOrder<T(!new)>(leq: (T, T) -> bool, p: T -> bool, items: seq<T>)
    requires TotalPreorder(leq)
    requires forall x, y :: x in items && y in items && p(x) && p(y) ==> leq(x, y)
    ensures Filter(p, StableSort(leq, items)) == Filter(p, items)
  {
    hide Filter, StableSort, TotalPreorder;
    FilterCommutesWithSort(leq, p, items);
    FilterMembers(p, items);
    SortOfTied(leq, Filter(p, items));
  }
}
