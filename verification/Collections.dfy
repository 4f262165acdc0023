/** Shared value types and sequence facts. */
module Collections {

  datatype Option<+T> = None | Some(value: T)

  datatype Result<+T, +E> = Success(value: T) | Failure(error: E) {
    predicate IsFailure() {
      Failure?
    }

    function PropagateFailure<U>(): (r: Result<U, E>)
      requires Failure?
    {
      Failure(error)
    }

    function Extract(): T
      requires Success?
    {
      value
    }
  }

  function Min(a: int, b: int): int {
    if a <= b then a else b
  }

  function Max(a: int, b: int): int {
    if a >= b then a else b
  }

  function ToSet<T>(s: seq<T>): set<T> {
    set x | x in s
  }

  predicate NoDuplicates<T(==)>(s: seq<T>) {
    forall i, j :: 0 <= i < j < |s| ==> s[i] != s[j]
  }

  /** A sequence without repetitions has as many entries as distinct entries. */
  lemma {:induction false} NoDuplicatesCardinality<T>(s: seq<T>)
    requires NoDuplicates(s)
    ensures |ToSet(s)| == |s|
  {
    if s == [] {
      assert ToSet(s) == {};
    } else {
      var rest := s[..|s| - 1];
      var last := s[|s| - 1];
      NoDuplicatesCardinality(rest);
      SplitLastSet(s);
      assert last !in rest;
    }
  }

  lemma SplitLastSet<T>(s: seq<T>)
    requires |s| > 0
    ensures ToSet(s) == ToSet(s[..|s| - 1]) + {s[|s| - 1]}
  {
    assert s == s[..|s| - 1] + [s[|s| - 1]];
  }

  lemma ToSetConcat<T>(a: seq<T>, b: seq<T>)
    ensures ToSet(a + b) == ToSet(a) + ToSet(b)
  {
  }

  lemma DisjointMembers<T>(a: seq<T>, b: seq<T>)
    requires ToSet(a) !! ToSet(b)
    ensures forall x :: x in a ==> x !in b
  {
    forall x | x in a
      ensures x !in b
    {
      assert x in ToSet(a);
    }
  }

  lemma NoDuplicatesConcat<T>(a: seq<T>, b: seq<T>)
    requires NoDuplicates(a) && NoDuplicates(b)
    requires forall x :: x in a ==> x !in b
    ensures NoDuplicates(a + b)
  {
    var s := a + b;
    forall i, j | 0 <= i < j < |s|
      ensures s[i] != s[j]
    {
      if i < |a| <= j {
        assert s[i] == a[i] && s[j] == b[j - |a|];
        assert a[i] in a && b[j - |a|] in b;
      } else if j < |a| {
        assert s[i] == a[i] && s[j] == a[j];
      } else {
        assert s[i] == b[i - |a|] && s[j] == b[j - |a|];
      }
    }
  }

  /** Any sequence has at most as many distinct entries as entries. */
  lemma {:induction false} DistinctAtMostLength<T>(s: seq<T>)
    ensures |ToSet(s)| <= |s|
  {
    if s == [] {
      assert ToSet(s) == {};
    } else {
      var rest := s[..|s| - 1];
      DistinctAtMostLength(rest);
      SplitLastSet(s);
    }
  }

  /** Distinctness is exactly "as many distinct entries as entries", the source's `len(set(v)) == len(v)`. */
  lemma DistinctIffCardinality<T>(s: seq<T>)
    ensures NoDuplicates(s) <==> |ToSet(s)| == |s|
  {
    if NoDuplicates(s) {
      NoDuplicatesCardinality(s);
    }
    if |ToSet(s)| == |s| {
      CardinalityMeansNoDuplicates(s);
    }
  }

  lemma {:induction false} CardinalityMeansNoDuplicates<T>(s: seq<T>)
    requires |ToSet(s)| == |s|
    ensures NoDuplicates(s)
  {
    if s != [] {
      var rest := s[..|s| - 1];
      var last := s[|s| - 1];
      SplitLastSet(s);
      DistinctAtMostLength(rest);
      assert last in ToSet(rest) ==> ToSet(s) == ToSet(rest);
      CardinalityMeansNoDuplicates(rest);
      assert last !in ToSet(rest);
    }
  }

  lemma {:induction false} SubsetCardinality<T>(a: set<T>, b: set<T>)
    requires a <= b
    ensures |a| <= |b|
    ensures |a| == |b| ==> a == b
  {
    if a != {} {
      var x :| x in a;
      SubsetCardinality(a - {x}, b - {x});
    }
  }

  // ---------------------------------------------------------------- counting

  function Count<T>(p: T -> bool, s: seq<T>): nat {
    if s == [] then 0 else (if p(s[0]) then 1 else 0) + Count(p, s[1..])
  }

  lemma {:induction false} CountConcat<T>(p: T -> bool, a: seq<T>, b: seq<T>)
    ensures Count(p, a + b) == Count(p, a) + Count(p, b)
  {
    if a == [] {
      assert a + b == b;
    } else {
      CountConcat(p, a[1..], b);
      assert (a + b)[1..] == a[1..] + b;
    }
  }

  lemma CountNone<T>(p: T -> bool)
    ensures forall s: seq<T> :: |s| == 0 ==> Count(p, s) == 0
  {
  }

  lemma CountStep<T>(p: T -> bool, s: seq<T>, i: nat)
    requires i < |s|
    ensures Count(p, s[..i + 1]) == Count(p, s[..i]) + if p(s[i]) then 1 else 0
  {
    CountConcat(p, s[..i], [s[i]]);
    assert s[..i + 1] == s[..i] + [s[i]];
  }

  lemma {:induction false} CountZeroIffNone<T>(p: T -> bool, s: seq<T>)
    ensures Count(p, s) == 0 <==> forall i :: 0 <= i < |s| ==> !p(s[i])
  {
    if s != [] {
      CountZeroIffNone(p, s[1..]);
      assert forall i :: 0 < i < |s| ==> s[i] == s[1..][i - 1];
    }
  }

  lemma {:induction false} CountAtMost<T>(p: T -> bool, q: T -> bool, s: seq<T>)
    requires forall i :: 0 <= i < |s| && p(s[i]) ==> q(s[i])
    ensures Count(p, s) <= Count(q, s)
  {
    if s != [] {
      CountAtMost(p, q, s[1..]);
    }
  }

  lemma MultisetCancel<T>(a: multiset<T>, b: multiset<T>, x: T)
    requires a + multiset{x} == b + multiset{x}
    ensures a == b
  {
    assert a == (a + multiset{x}) - multiset{x};
    assert b == (b + multiset{x}) - multiset{x};
  }

  lemma MultisetLast<T>(s: seq<T>)
    requires s != []
    ensures multiset(s) == multiset(s[..|s| - 1]) + multiset{s[|s| - 1]}
  {
    assert s == s[..|s| - 1] + [s[|s| - 1]];
  }

  lemma MultisetFirst<T>(s: seq<T>)
    requires s != []
    ensures multiset(s) == multiset(s[1..]) + multiset{s[0]}
  {
    assert s == [s[0]] + s[1..];
  }

  lemma MultisetWithout<T>(t: seq<T>, j: nat)
    requires j < |t|
    ensures t == t[..j] + ([t[j]] + t[j + 1..])
    ensures multiset(t) == multiset(t[..j] + t[j + 1..]) + multiset{t[j]}
  {
    assert t == t[..j] + ([t[j]] + t[j + 1..]);
  }

  /** The first entry of one arrangement, found and removed in the other. */
  lemma TakeOut<T>(s: seq<T>, t: seq<T>) returns (j: nat)
    requires s != [] && multiset(s) == multiset(t)
    ensures j < |t| && t[j] == s[0] && t == t[..j] + ([s[0]] + t[j + 1..])
    ensures multiset(t[..j] + t[j + 1..]) == multiset(s[1..])
  {
    PermutationKeepsMembers(s, t);
    assert s[0] in s;
    j :| 0 <= j < |t| && t[j] == s[0];
    MultisetWithout(t, j);
    MultisetFirst(s);
    MultisetCancel(multiset(t[..j] + t[j + 1..]), multiset(s[1..]), s[0]);
  }

  /** Reordering a sequence does not change any count over it. */
  lemma {:induction false} CountOfPermutation<T>(p: T -> bool, s: seq<T>, t: seq<T>)
    requires multiset(s) == multiset(t)
    ensures Count(p, s) == Count(p, t)
    decreases |s|
  {
    if s == [] {
      assert |multiset(t)| == 0;
    } else {
      var j := TakeOut(s, t);
      CountOfPermutation(p, s[1..], t[..j] + t[j + 1..]);
      CountConcat(p, t[..j], t[j + 1..]);
      CountConcat(p, t[..j], [s[0]] + t[j + 1..]);
    }
  }

  lemma PermutationKeepsDistinctness<T>(s: seq<T>, u: seq<T>)
    requires multiset(s) == multiset(u) && NoDuplicates(u)
    ensures NoDuplicates(s)
  {
    PermutationKeepsMembers(s, u);
    DistinctIffCardinality(s);
    DistinctIffCardinality(u);
    assert ToSet(s) == ToSet(u);
  }

  lemma PermutationKeepsMembers<T>(s: seq<T>, t: seq<T>)
    requires multiset(s) == multiset(t)
    ensures |s| == |t|
    ensures forall x :: x in s <==> x in t
  {
    assert |multiset(s)| == |multiset(t)|;
    forall x
      ensures x in s <==> x in t
    {
      assert x in s <==> x in multiset(s);
      assert x in t <==> x in multiset(t);
    }
  }

  lemma {:induction false} OccursOnce<T>(s: seq<T>, x: T)
    requires NoDuplicates(s)
    ensures multiset(s)[x] == if x in s then 1 else 0
  {
    if s != [] {
      var rest, last := s[..|s| - 1], s[|s| - 1];
      OccursOnce(rest, x);
      MultisetLast(s);
      assert s == rest + [last];
    }
  }

  /** Two sequences without repetitions and with the same members are rearrangements of each other. */
  lemma SameMembersArePermuted<T>(s: seq<T>, t: seq<T>)
    requires NoDuplicates(s) && NoDuplicates(t) && forall x :: x in s <==> x in t
    ensures multiset(s) == multiset(t)
  {
    forall x
      ensures multiset(s)[x] == multiset(t)[x]
    {
      OccursOnce(s, x);
      OccursOnce(t, x);
    }
  }

  /** As many entries as there are distinct ones, each of them present: a rearrangement. */
  lemma CoveringIsPermutation<T>(found: seq<T>, wanted: seq<T>)
    requires |found| == |wanted| && NoDuplicates(wanted)
    requires forall x :: x in wanted ==> x in found
    ensures multiset(found) == multiset(wanted)
  {
    NoDuplicatesCardinality(wanted);
    DistinctAtMostLength(found);
    assert ToSet(wanted) <= ToSet(found);
    SubsetCardinality(ToSet(wanted), ToSet(found));
    CardinalityMeansNoDuplicates(found);
    forall x
      ensures x in found <==> x in wanted
    {
      assert x in ToSet(found) <==> x in ToSet(wanted);
    }
    SameMembersArePermuted(found, wanted);
  }

  lemma {:induction false} CountAll<T>(p: T -> bool, s: seq<T>)
    ensures Count(p, s) == |s| <==> forall i :: 0 <= i < |s| ==> p(s[i])
    ensures Count(p, s) <= |s|
  {
    if s != [] {
      CountAll(p, s[1..]);
      assert forall i :: 0 < i < |s| ==> s[i] == s[1..][i - 1];
    }
  }

  /** A bijection between two finite sets makes them equally large. */
  lemma {:induction false} BijectionCardinality<A, B>(s: set<A>, image: set<B>, f: A --> B)
    requires forall x :: x in s ==> f.requires(x) && f(x) in image
    requires forall y :: y in image ==> exists x :: x in s && f(x) == y
    requires forall x, y :: x in s && y in s && f(x) == f(y) ==> x == y
    ensures |image| == |s|
  {
    if s == {} {
      assert image == {};
    } else {
      var x :| x in s;
      BijectionCardinality(s - {x}, image - {f(x)}, f);
    }
  }

  // ---------------------------------------------------------------- loops that append

  /** What a loop over `s` appends when its body appends `f(x)` for each x. */
  function FlatMap<T, R>(f: T -> seq<R>, s: seq<T>): seq<R> {
    if s == [] then [] else FlatMap(f, s[..|s| - 1]) + f(s[|s| - 1])
  }

  lemma FlatMapNone<T, R>(f: T -> seq<R>)
    ensures forall s: seq<T> :: |s| == 0 ==> FlatMap(f, s) == []
  {
  }

  lemma FlatMapStep<T, R>(f: T -> seq<R>, s: seq<T>, i: nat)
    requires i < |s|
    ensures FlatMap(f, s[..i + 1]) == FlatMap(f, s[..i]) + f(s[i])
  {
    assert s[..i + 1][..i] == s[..i];
  }

  lemma {:induction false} FlatMapMember<T, R>(f: T -> seq<R>, s: seq<T>, x: R)
    ensures x in FlatMap(f, s) <==> exists i :: 0 <= i < |s| && x in f(s[i])
  {
    if s != [] {
      var n := |s| - 1;
      FlatMapMember(f, s[..n], x);
      assert forall i :: 0 <= i < n ==> s[..n][i] == s[i];
    }
  }

  lemma {:induction false} FlatMapEmptyIff<T, R>(f: T -> seq<R>, s: seq<T>)
    ensures FlatMap(f, s) == [] <==> forall i :: 0 <= i < |s| ==> f(s[i]) == []
  {
    if s != [] {
      var n := |s| - 1;
      FlatMapEmptyIff(f, s[..n]);
      assert FlatMap(f, s) == FlatMap(f, s[..n]) + f(s[n]);
      assert forall i :: 0 <= i < n ==> s[..n][i] == s[i];
    }
  }
}
