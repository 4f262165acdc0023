/** Sliding token windows, section runs and the chunk profiles built from them. */
module Chunking {
  import opened Collections
  import opened Text

  datatype ChunkError = WindowInvalid | ProfileNotRunnable | StrategyUnsupported

  // ---------------------------------------------------------------- windows

  datatype Window = Window(start: nat, end: nat, text: string)

  /** One window when everything fits, otherwise one more for every started step beyond the first window. */
  function WindowCount(n: nat, size: nat, overlap: nat): (count: nat)
    requires size > overlap
    ensures count >= 1
  {
    if n <= size then 1 else 1 + (n - size + (size - overlap) - 1) / (size - overlap)
  }

  /** Where window i starts. */
  function Start(i: nat, step: nat): nat {
    i * step
  }

  lemma StartStep(i: nat, step: nat)
    ensures Start(0, step) == 0 && Start(i + 1, step) == Start(i, step) + step
  {
    assert (i + 1) * step == i * step + step;
  }

  lemma StartsOrder(i: nat, j: nat, step: nat)
    requires i <= j
    ensures Start(i, step) <= Start(j, step)
  {
    assert j * step == i * step + (j - i) * step;
  }

  function WindowAt(tokens: seq<string>, size: nat, overlap: nat, i: nat): (w: Window)
    requires size > overlap && Start(i, size - overlap) <= |tokens|
    ensures w.start <= w.end <= |tokens|
  {
    var start := Start(i, size - overlap);
    var end := Min(start + size, |tokens|);
    Window(start, end, Join(" ", tokens[start..end]))
  }

  lemma PositiveFactor(q: int, step: nat)
    requires q * step > 0
    ensures q >= 1
  {
  }

  lemma CeilingDivision(n: nat, step: nat)
    requires n > 0 && step > 0
    ensures var q := (n + step - 1) / step; q >= 1 && Start(q - 1, step) < n <= Start(q, step)
  {
    var q, r := (n + step - 1) / step, (n + step - 1) % step;
    assert n + step - 1 == q * step + r;
    PositiveFactor(q, step);
    StartStep(q - 1, step);
  }

  /** The last window starts inside the text and is the first to reach its end. */
  lemma WindowBounds(n: nat, size: nat, overlap: nat, i: nat)
    requires size > overlap
    ensures i < WindowCount(n, size, overlap) ==> Start(i, size - overlap) <= n
    ensures i + 1 < WindowCount(n, size, overlap) ==> Start(i, size - overlap) + size < n
    ensures i + 1 == WindowCount(n, size, overlap) ==> n <= Start(i, size - overlap) + size
  {
    var step := size - overlap;
    StartStep(0, step);
    if n > size {
      var steps := (n - size + step - 1) / step;
      CeilingDivision(n - size, step);
      hide Start;
      if i < steps {
        StartsOrder(i, steps - 1, step);
      } else if i == steps {
        StartStep(steps - 1, step);
      }
    }
  }

  function WindowsOf(tokens: seq<string>, size: nat, overlap: nat): (windows: seq<Window>)
    requires size > overlap
    ensures |windows| == WindowCount(|tokens|, size, overlap)
  {
    seq(WindowCount(|tokens|, size, overlap), i requires 0 <= i < WindowCount(|tokens|, size, overlap) =>
      WindowBounds(|tokens|, size, overlap, i);
      WindowAt(tokens, size, overlap, i))
  }

  lemma WindowsEntry(tokens: seq<string>, size: nat, overlap: nat, i: nat)
    requires size > overlap && i < WindowCount(|tokens|, size, overlap)
    ensures Start(i, size - overlap) <= |tokens|
    ensures WindowsOf(tokens, size, overlap)[i] == WindowAt(tokens, size, overlap, i)
    ensures i + 1 < WindowCount(|tokens|, size, overlap) ==> Start(i, size - overlap) + size < |tokens|
    ensures i + 1 == WindowCount(|tokens|, size, overlap) ==> |tokens| <= Start(i, size - overlap) + size
  {
    hide Start, WindowCount, WindowAt;
    WindowBounds(|tokens|, size, overlap, i);
  }

  /** The source's loop; it always leaves by reaching the end of the tokens, never by running out of starts. */
  method Windows(tokens: seq<string>, size: int, overlap: int) returns (r: Result<seq<Window>, ChunkError>)
    ensures r.Failure? <==> !(size > overlap >= 0)
    ensures r.Success? ==> r.value == WindowsOf(tokens, size, overlap)
  {
    if size <= 0 || overlap < 0 || overlap >= size {
      return Failure(WindowInvalid);
    }
    var step := size - overlap;
    ghost var all := WindowsOf(tokens, size, overlap);
    StartStep(0, step);
    hide Start, WindowsOf;
    if tokens == [] {
      WindowsEntry(tokens, size, overlap, 0);
      assert all == [Window(0, 0, "")];
      return Success([Window(0, 0, "")]);
    }
    hide WindowCount, Join;
    var windows: seq<Window> := [];
    var start := 0;
    while start < |tokens|
      invariant start == Start(|windows|, step)
      invariant |windows| < |all| && windows == all[..|windows|]
      invariant windows == [] || start + overlap < |tokens|
      decreases |tokens| - start
    {
      WindowsEntry(tokens, size, overlap, |windows|);
      StartStep(|windows|, step);
      var end := Min(start + size, |tokens|);
      windows := windows + [Window(start, end, Join(" ", tokens[start..end]))];
      if end == |tokens| {
        assert windows == all;
        return Success(windows);
      }
      start := start + step;
    }
    assert false;
  }

  function Tokens(tokens: seq<string>, w: Window): seq<string>
    requires w.start <= w.end <= |tokens|
  {
    tokens[w.start..w.end]
  }

  /** Window i ends before the text does and shares exactly the overlap with the next one. */
  predicate StepsOn(windows: seq<Window>, i: nat, n: nat, size: nat, overlap: nat)
    requires i + 1 < |windows|
  {
    && windows[i].end < n && windows[i].end == windows[i].start + size
    && windows[i + 1].start + overlap == windows[i].end
  }

  /** Windows start at 0, end at the end, and overlap their neighbours by exactly the overlap. */
  lemma WindowsCoverAndOverlap(tokens: seq<string>, size: nat, overlap: nat)
    requires size > overlap
    ensures var windows := WindowsOf(tokens, size, overlap);
            && windows[0].start == 0 && windows[|windows| - 1].end == |tokens|
            && (forall i :: 0 <= i < |windows| ==> windows[i].start <= windows[i].end <= |tokens|)
            && (forall i :: 0 <= i < |windows| - 1 ==> StepsOn(windows, i, |tokens|, size, overlap))
  {
    hide WindowsOf, WindowCount, Start;
    var windows := WindowsOf(tokens, size, overlap);
    WindowsEntry(tokens, size, overlap, |windows| - 1);
    WindowsEntry(tokens, size, overlap, 0);
    StartStep(0, size - overlap);
    forall i | 0 <= i < |windows|
      ensures windows[i].start <= windows[i].end <= |tokens|
    {
      WindowsEntry(tokens, size, overlap, i);
    }
    forall i | 0 <= i < |windows| - 1
      ensures StepsOn(windows, i, |tokens|, size, overlap)
    {
      WindowsEntry(tokens, size, overlap, i);
      WindowsEntry(tokens, size, overlap, i + 1);
      StartStep(i, size - overlap);
    }
  }

  /** Window 0 followed by the later windows without their first `overlap` tokens. */
  function Rebuild(tokens: seq<string>, windows: seq<Window>, overlap: nat): seq<string>
    requires forall i :: 0 <= i < |windows| ==> windows[i].start <= windows[i].end <= |tokens|
  {
    if windows == [] then []
    else
      var last := Tokens(tokens, windows[|windows| - 1]);
      if |windows| == 1 then last
      else Rebuild(tokens, windows[..|windows| - 1], overlap) + last[Min(overlap, |last|)..]
  }

  lemma ContinueFrom(tokens: seq<string>, start: nat, from: nat, end: nat)
    requires start <= from <= end <= |tokens|
    ensures tokens[..from] + tokens[start..end][from - start..] == tokens[..end]
  {
  }

  lemma RebuildStep(tokens: seq<string>, windows: seq<Window>, overlap: nat, k: nat)
    requires k < |windows|
    requires forall i :: 0 <= i < |windows| ==> windows[i].start <= windows[i].end <= |tokens|
    ensures Rebuild(tokens, windows[..1], overlap) == Tokens(tokens, windows[0])
    ensures k > 0 ==>
              var here := Tokens(tokens, windows[k]);
              Rebuild(tokens, windows[..k + 1], overlap)
              == Rebuild(tokens, windows[..k], overlap) + here[Min(overlap, |here|)..]
  {
    assert windows[..k + 1][..k] == windows[..k];
  }

  lemma {:induction false} RebuiltPrefix(tokens: seq<string>, windows: seq<Window>, overlap: nat, k: nat)
    requires k < |windows| && windows[0].start == 0
    requires forall i :: 0 <= i < |windows| ==> windows[i].start <= windows[i].end <= |tokens|
    requires forall i :: 0 <= i < |windows| - 1 ==>
               windows[i].end == windows[i + 1].start + overlap && windows[i].end <= windows[i + 1].end
    ensures Rebuild(tokens, windows[..k + 1], overlap) == tokens[..windows[k].end]
  {
    hide Rebuild;
    RebuildStep(tokens, windows, overlap, k);
    if k > 0 {
      RebuiltPrefix(tokens, windows, overlap, k - 1);
      var before, here := windows[k - 1], windows[k];
      assert before.end == here.start + overlap && before.end <= here.end;
      ContinueFrom(tokens, here.start, before.end, here.end);
    }
  }

  /** The windows rebuild the tokens. */
  lemma WindowsRebuildTheTokens(tokens: seq<string>, size: nat, overlap: nat)
    requires size > overlap
    ensures forall i :: 0 <= i < WindowCount(|tokens|, size, overlap) ==>
              var w := WindowsOf(tokens, size, overlap)[i]; w.start <= w.end <= |tokens|
    ensures Rebuild(tokens, WindowsOf(tokens, size, overlap), overlap) == tokens
  {
    var windows := WindowsOf(tokens, size, overlap);
    WindowsCoverAndOverlap(tokens, size, overlap);
    hide WindowsOf, WindowCount;
    forall i | 0 <= i < |windows| - 1
      ensures windows[i].end == windows[i + 1].start + overlap && windows[i].end <= windows[i + 1].end
    {
      assert StepsOn(windows, i, |tokens|, size, overlap);
      assert i + 1 < |windows| - 1 ==> StepsOn(windows, i + 1, |tokens|, size, overlap);
    }
    RebuiltPrefix(tokens, windows, overlap, |windows| - 1);
    assert windows[..|windows|] == windows;
    assert tokens[..|tokens|] == tokens;
  }

  // ---------------------------------------------------------------- sections

  datatype Key = Key(document: string, product: string, section: string)

  datatype SourceRow = SourceRow(key: Key, text: string)

  /** The loop body: a row starts a group unless it has the key of the row before it. */
  function AddRow(groups: seq<seq<SourceRow>>, row: SourceRow): seq<seq<SourceRow>>
    requires groups != [] ==> groups[|groups| - 1] != []
  {
    if groups == [] || LastKey(groups) != row.key then groups + [[row]]
    else groups[..|groups| - 1] + [groups[|groups| - 1] + [row]]
  }

  function LastKey(groups: seq<seq<SourceRow>>): Key
    requires groups != [] && groups[|groups| - 1] != []
  {
    var group := groups[|groups| - 1];
    group[|group| - 1].key
  }

  /** Consecutive rows of one section. */
  function SectionGroups(rows: seq<SourceRow>): (groups: seq<seq<SourceRow>>)
    ensures groups != [] ==> groups[|groups| - 1] != []
  {
    if rows == [] then [] else AddRow(SectionGroups(rows[..|rows| - 1]), rows[|rows| - 1])
  }

  method GroupSections(rows: seq<SourceRow>) returns (groups: seq<seq<SourceRow>>)
    ensures groups == SectionGroups(rows)
  {
    groups := [];
    for i := 0 to |rows|
      invariant groups == SectionGroups(rows[..i])
    {
      assert rows[..i + 1][..i] == rows[..i];
      var row := rows[i];
      if groups == [] || LastKey(groups) != row.key {
        groups := groups + [[row]];
      } else {
        groups := groups[..|groups| - 1] + [groups[|groups| - 1] + [row]];
      }
    }
    assert rows[..|rows|] == rows;
  }

  function Flatten<T>(groups: seq<seq<T>>): seq<T> {
    if groups == [] then [] else Flatten(groups[..|groups| - 1]) + groups[|groups| - 1]
  }

  lemma FlattenSnoc<T>(groups: seq<seq<T>>, group: seq<T>)
    ensures Flatten(groups + [group]) == Flatten(groups) + group
  {
    assert (groups + [group])[..|groups|] == groups;
  }

  ghost predicate IsRun(group: seq<SourceRow>) {
    group != [] && forall i :: 0 <= i < |group| ==> group[i].key == group[0].key
  }

  /** Nonempty groups of one key each, neighbours of different keys. */
  ghost predicate AreMaximalRuns(groups: seq<seq<SourceRow>>) {
    && (forall i :: 0 <= i < |groups| ==> IsRun(groups[i]))
    && (forall i, j :: 0 <= i < j < |groups| && j == i + 1 && groups[i] != [] && groups[j] != [] ==>
          groups[i][0].key != groups[j][0].key)
  }

  /** Maximal runs that together are the rows in order. */
  ghost predicate IsDecomposition(groups: seq<seq<SourceRow>>, rows: seq<SourceRow>) {
    AreMaximalRuns(groups) && Flatten(groups) == rows
  }

  lemma SnocRuns(front: seq<seq<SourceRow>>, last: seq<SourceRow>)
    requires AreMaximalRuns(front) && IsRun(last)
    requires front == [] || LastKey(front) != last[0].key
    ensures AreMaximalRuns(front + [last])
  {
    assert front != [] ==> IsRun(front[|front| - 1]);
  }

  lemma FrontRuns(front: seq<seq<SourceRow>>, last: seq<SourceRow>)
    requires AreMaximalRuns(front + [last])
    ensures AreMaximalRuns(front) && IsRun(last)
    ensures front == [] || (front[|front| - 1] != [] && LastKey(front) != last[0].key)
  {
    var groups := front + [last];
    assert groups[|front|] == last;
    assert forall i :: 0 <= i < |front| ==> groups[i] == front[i];
    assert front != [] ==> IsRun(groups[|front| - 1]);
  }

  lemma LengthenRun(run: seq<SourceRow>, row: SourceRow)
    requires IsRun(run)
    ensures IsRun(run + [row]) <==> run[0].key == row.key
    ensures run[|run| - 1].key == run[0].key && (run + [row])[0] == run[0]
  {
    assert (run + [row])[|run|] == row;
    assert forall i :: 0 <= i < |run| ==> (run + [row])[i] == run[i];
  }

  /** One more row keeps a decomposition one. */
  lemma AddRowKeepsDecomposition(groups: seq<seq<SourceRow>>, rows: seq<SourceRow>, row: SourceRow)
    requires IsDecomposition(groups, rows)
    ensures groups != [] ==> groups[|groups| - 1] != []
    ensures IsDecomposition(AddRow(groups, row), rows + [row])
  {
    hide AreMaximalRuns, Flatten;
    if groups == [] {
      SnocRuns(groups, [row]);
      FlattenSnoc(groups, [row]);
    } else {
      var front, last := groups[..|groups| - 1], groups[|groups| - 1];
      assert groups == front + [last];
      FrontRuns(front, last);
      LengthenRun(last, row);
      FlattenSnoc(front, last);
      if LastKey(groups) != row.key {
        SnocRuns(groups, [row]);
        FlattenSnoc(groups, [row]);
      } else {
        SnocRuns(front, last + [row]);
        FlattenSnoc(front, last + [row]);
      }
    }
  }

  lemma FlattenHoldsLast<T>(groups: seq<seq<T>>)
    requires groups != []
    ensures |groups[|groups| - 1]| <= |Flatten(groups)|
  {
  }

  lemma EmptyDecomposition(groups: seq<seq<SourceRow>>)
    ensures IsDecomposition(groups, []) <==> groups == []
  {
    if groups != [] {
      FlattenHoldsLast(groups);
    }
  }

  /** The grouping is a decomposition into maximal runs. */
  lemma {:induction false} GroupsAreMaximalRuns(rows: seq<SourceRow>)
    ensures IsDecomposition(SectionGroups(rows), rows)
  {
    hide IsDecomposition, AddRow;
    EmptyDecomposition([]);
    if rows != [] {
      var n := |rows| - 1;
      GroupsAreMaximalRuns(rows[..n]);
      AddRowKeepsDecomposition(SectionGroups(rows[..n]), rows[..n], rows[n]);
      assert rows == rows[..n] + [rows[n]];
    }
  }

  /** Every nonempty decomposition is one of the rows before the last, with the last row added. */
  lemma LastRowWasAdded(groups: seq<seq<SourceRow>>, rows: seq<SourceRow>)
    returns (before: seq<seq<SourceRow>>)
    requires IsDecomposition(groups, rows) && rows != []
    ensures IsDecomposition(before, rows[..|rows| - 1])
    ensures before != [] ==> before[|before| - 1] != []
    ensures groups == AddRow(before, rows[|rows| - 1])
  {
    var front, last := groups[..|groups| - 1], groups[|groups| - 1];
    assert groups == front + [last];
    FrontRuns(front, last);
    var m := |last| - 1;
    var rest := last[..m];
    assert last == rest + [last[m]];
    FlattenSnoc(front, last);
    assert rows == (Flatten(front) + rest) + [last[m]];
    hide AreMaximalRuns, Flatten;
    if m == 0 {
      before := front;
      assert rest == [];
    } else {
      assert IsRun(rest) by {
        assert forall i :: 0 <= i < m ==> rest[i] == last[i];
      }
      LengthenRun(rest, last[m]);
      SnocRuns(front, rest);
      FlattenSnoc(front, rest);
      before := front + [rest];
    }
  }

  /** There is no other decomposition. */
  lemma {:induction false} DecompositionIsUnique(groups: seq<seq<SourceRow>>, rows: seq<SourceRow>)
    requires IsDecomposition(groups, rows)
    ensures groups == SectionGroups(rows)
    decreases |rows|
  {
    hide IsDecomposition, AddRow;
    EmptyDecomposition(groups);
    if rows != [] {
      var before := LastRowWasAdded(groups, rows);
      DecompositionIsUnique(before, rows[..|rows| - 1]);
    }
  }
}
