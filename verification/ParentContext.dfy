/** What a child chunk carries besides its window: the token span it names and the text of its section. */
module ParentContext {
  import opened Chunking
  import opened Collections
  import opened Profiles
  import opened Text

  // ---------------------------------------------------------------- the chunks of one row

  function WindowTotal(rows: seq<SourceRow>, size: nat, overlap: nat): nat
    requires size > overlap
  {
    if rows == [] then 0
    else
      WindowTotal(rows[..|rows| - 1], size, overlap)
      + WindowCount(|Split(rows[|rows| - 1].text)|, size, overlap)
  }

  /** Row i's bodies start where those of the rows before it end. */
  lemma {:induction false} BodyOfRow(rows: seq<SourceRow>, size: nat, overlap: nat,
                                     context: SourceRow -> Option<string>,
                                     i: nat, w: nat)
    requires size > overlap && i < |rows| && w < WindowCount(|Split(rows[i].text)|, size, overlap)
    ensures var bodies := FlatMap((row: SourceRow) => WindowBodies(row, size, overlap, context(row)), rows);
            && |bodies| == WindowTotal(rows, size, overlap)
            && WindowTotal(rows[..i], size, overlap) + w < |bodies|
            && bodies[WindowTotal(rows[..i], size, overlap) + w]
               == WindowBodies(rows[i], size, overlap, context(rows[i]))[w]
  {
    hide WindowBodies, Split, WindowCount;
    var f := (row: SourceRow) => WindowBodies(row, size, overlap, context(row));
    var n := |rows| - 1;
    BodiesCount(rows[..n], size, overlap, context);
    if i < n {
      BodyOfRow(rows[..n], size, overlap, context, i, w);
      assert rows[..n][..i] == rows[..i];
    }
    assert FlatMap(f, rows) == FlatMap(f, rows[..n]) + f(rows[n]);
  }

  lemma {:induction false} BodiesCount(rows: seq<SourceRow>, size: nat, overlap: nat,
                                       context: SourceRow -> Option<string>)
    requires size > overlap
    ensures |FlatMap((row: SourceRow) => WindowBodies(row, size, overlap, context(row)), rows)|
         == WindowTotal(rows, size, overlap)
  {
    hide WindowBodies, Split, WindowCount;
    if rows != [] {
      BodiesCount(rows[..|rows| - 1], size, overlap, context);
    }
  }

  function ParentChunks(rows: seq<SourceRow>, size: nat, overlap: nat): (chunks: seq<Chunk>)
    requires size > overlap
    ensures Build(rows, true, ParentSection(size, overlap)) == Success(chunks)
  {
    Numbered(ParentBodies(rows, size, overlap))
  }

  /** Each chunk of a row names the source tokens its text consists of and carries the text found under the row's key. */
  lemma ChunkOfRow(rows: seq<SourceRow>, size: nat, overlap: nat, i: nat, w: nat)
    requires size > overlap && i < |rows| && w < WindowCount(|Split(rows[i].text)|, size, overlap)
    ensures var at := WindowTotal(rows[..i], size, overlap) + w;
            && at < |ParentChunks(rows, size, overlap)| == WindowTotal(rows, size, overlap)
            && var chunk := ParentChunks(rows, size, overlap)[at];
            && chunk.index == at + 1
            && chunk.body.product == rows[i].key.product
            && chunk.body.context == ParentText(SectionGroups(rows), rows[i].key)
            && chunk.body.span.Some?
            && var Span(start, end) := chunk.body.span.value;
               start <= end <= |Split(rows[i].text)| && Split(chunk.body.text) == Split(rows[i].text)[start..end]
  {
    hide FlatMap, WindowTotal, Split, WindowCount, SectionGroups, ParentText;
    var groups := SectionGroups(rows);
    BodyOfRow(rows, size, overlap, (row: SourceRow) => ParentText(groups, row.key), i, w);
    SameBodies(rows, size, overlap);
    WindowTextTokens(rows[i].text, size, overlap, w);
  }

  // ---------------------------------------------------------------- which text stands under a key

  ghost predicate Contains(whole: string, part: string) {
    exists before, after: string :: whole == before + part + after
  }

  /** Every part of a joined text is contained in it. */
  lemma {:induction false} JoinContainsParts(separator: string, parts: seq<string>, k: nat)
    requires k < |parts|
    ensures Contains(Join(separator, parts), parts[k])
  {
    var n := |parts| - 1;
    var joined := Join(separator, parts);
    if n == 0 {
      assert joined == "" + parts[k] + "";
    } else if k == n {
      assert joined == (Join(separator, parts[..n]) + separator) + parts[k] + "";
    } else {
      JoinContainsParts(separator, parts[..n], k);
      var before, after: string :| Join(separator, parts[..n]) == before + parts[k] + after;
      assert joined == before + parts[k] + (after + separator + parts[n]);
    }
  }

  /** No later group repeats the key of group g. */
  ghost predicate IsLastOfKey(groups: seq<seq<SourceRow>>, g: nat) {
    && g < |groups| && groups[g] != []
    && forall h :: g < h < |groups| && groups[h] != [] ==> groups[h][0].key != groups[g][0].key
  }

  /** A key's parent text is the text of its last group. */
  lemma {:induction false} ParentTextIsLastGroups(groups: seq<seq<SourceRow>>, g: nat)
    requires IsLastOfKey(groups, g)
    ensures ParentText(groups, groups[g][0].key) == Some(Join(PARAGRAPH, TextsOf(groups[g])))
  {
    var n := |groups| - 1;
    if g < n {
      assert groups[n] != [] ==> groups[n][0].key != groups[g][0].key;
      assert forall h :: g < h < n ==> groups[..n][h] == groups[h];
      ParentTextIsLastGroups(groups[..n], g);
    }
  }

  function KeysOf(rows: seq<SourceRow>): (keys: seq<Key>)
    ensures |keys| == |rows|
    ensures forall i :: 0 <= i < |keys| ==> keys[i] == rows[i].key
  {
    seq(|rows|, i requires 0 <= i < |rows| => rows[i].key)
  }

  /** Equal keys stand together. */
  ghost predicate KeysAreContiguous(keys: seq<Key>) {
    forall i, k, j :: 0 <= i < k < j < |keys| && keys[i] == keys[j] ==> keys[k] == keys[i]
  }

  ghost predicate OneGroupPerKey(groups: seq<seq<SourceRow>>) {
    forall g :: 0 <= g < |groups| ==> IsLastOfKey(groups, g)
  }

  lemma NewKeyKeepsOneGroup(before: seq<seq<SourceRow>>, row: SourceRow)
    requires OneGroupPerKey(before)
    requires forall g :: 0 <= g < |before| ==> before[g] != [] && before[g][0].key != row.key
    ensures OneGroupPerKey(before + [[row]])
  {
    var groups := before + [[row]];
    forall g | 0 <= g < |groups|
      ensures IsLastOfKey(groups, g)
    {
      assert g < |before| ==> groups[g] == before[g] && IsLastOfKey(before, g);
    }
  }

  lemma LongerGroupKeepsOneGroup(before: seq<seq<SourceRow>>, row: SourceRow)
    requires OneGroupPerKey(before) && before != [] && before[|before| - 1] != []
    ensures OneGroupPerKey(before[..|before| - 1] + [before[|before| - 1] + [row]])
  {
    var m := |before| - 1;
    var groups := before[..m] + [before[m] + [row]];
    assert forall g :: 0 <= g < m ==> groups[g] == before[g];
    forall g | 0 <= g < |groups|
      ensures IsLastOfKey(groups, g)
    {
      assert IsLastOfKey(before, g);
      assert groups[g][0] == before[g][0] && groups[m][0] == before[m][0];
    }
  }

  /** Then no key has two groups. */
  lemma {:induction false} ContiguousKeysHaveOneGroup(rows: seq<SourceRow>)
    requires KeysAreContiguous(KeysOf(rows))
    ensures OneGroupPerKey(SectionGroups(rows))
  {
    if rows != [] {
      var n := |rows| - 1;
      var rest, row := rows[..n], rows[n];
      var before, groups := SectionGroups(rest), SectionGroups(rows);
      assert KeysAreContiguous(KeysOf(rest)) by {
        assert forall i :: 0 <= i < n ==> KeysOf(rest)[i] == KeysOf(rows)[i];
      }
      ContiguousKeysHaveOneGroup(rest);
      GroupsAreMaximalRuns(rest);
      assert groups == AddRow(before, row);
      hide SectionGroups, OneGroupPerKey, IsDecomposition, KeysAreContiguous, KeysOf;
      if before == [] || LastKey(before) != row.key {
        forall g | 0 <= g < |before|
          ensures before[g] != [] && before[g][0].key != row.key
        {
          EarlierGroupDiffers(before, rows, g);
        }
        NewKeyKeepsOneGroup(before, row);
      } else {
        LongerGroupKeepsOneGroup(before, row);
      }
    }
  }

  lemma {:induction false} FlattenPosition<T>(groups: seq<seq<T>>, g: nat) returns (i: nat)
    requires g < |groups| && groups[g] != []
    ensures i < |Flatten(groups)| && Flatten(groups)[i] == groups[g][0]
  {
    var n := |groups| - 1;
    if g < n {
      i := FlattenPosition(groups[..n], g);
    } else {
      i := |Flatten(groups[..n])|;
    }
  }

  /** Between an earlier group of the new row's key and the new row stands a row of another key. */
  lemma EarlierGroupDiffers(before: seq<seq<SourceRow>>, rows: seq<SourceRow>, g: nat)
    requires KeysAreContiguous(KeysOf(rows)) && rows != [] && g < |before|
    requires IsDecomposition(before, rows[..|rows| - 1])
    requires before[|before| - 1] != [] && LastKey(before) != rows[|rows| - 1].key
    ensures before[g] != [] && before[g][0].key != rows[|rows| - 1].key
  {
    var n := |rows| - 1;
    assert IsRun(before[g]);
    var i := FlattenPosition(before, g);
    assert rows[..n][i] == rows[i];
    var last := before[|before| - 1];
    assert Flatten(before) == Flatten(before[..|before| - 1]) + last;
    assert rows[..n][n - 1] == last[|last| - 1];
    assert rows[n - 1].key == LastKey(before);
  }

  /** Where every section key is one contiguous run, the text under a row's key holds the row's own text. */
  lemma {:induction false} ContiguousKeyHoldsText(rows: seq<SourceRow>, i: nat)
    requires KeysAreContiguous(KeysOf(rows)) && i < |rows|
    ensures ParentText(SectionGroups(rows), rows[i].key).Some?
    ensures Contains(ParentText(SectionGroups(rows), rows[i].key).value, rows[i].text)
  {
    var groups := SectionGroups(rows);
    GroupsAreMaximalRuns(rows);
    ContiguousKeysHaveOneGroup(rows);
    var g, k := RowIsInAGroup(groups, i);
    assert IsRun(groups[g]);
    assert IsLastOfKey(groups, g);
    hide SectionGroups, Contains;
    ParentTextIsLastGroups(groups, g);
    JoinContainsParts(PARAGRAPH, TextsOf(groups[g]), k);
  }

  /** The last group has the key of the last row. */
  lemma LastGroupHasLastKey(rows: seq<SourceRow>)
    requires rows != []
    ensures var groups := SectionGroups(rows);
            groups != [] && groups[|groups| - 1] != [] && LastKey(groups) == rows[|rows| - 1].key
            && groups[|groups| - 1][0].key == rows[|rows| - 1].key
  {
    GroupsAreMaximalRuns(rows);
    var groups := SectionGroups(rows);
    assert IsRun(groups[|groups| - 1]);
  }

  ghost predicate Lacks(groups: seq<seq<SourceRow>>, key: Key, c: char) {
    ParentText(groups, key).Some? && c !in ParentText(groups, key).value
  }

  lemma NewGroupText(before: seq<seq<SourceRow>>, row: SourceRow, key: Key)
    ensures ParentText(before + [[row]], key) == if row.key == key then Some(row.text) else ParentText(before, key)
  {
    assert (before + [[row]])[..|before|] == before;
    OneRowText(row);
    hide Join;
  }

  lemma LongerGroupText(front: seq<seq<SourceRow>>, last: seq<SourceRow>, row: SourceRow, key: Key)
    requires last != [] && last[0].key == row.key
    ensures var before, groups := ParentText(front + [last], key), ParentText(front + [last + [row]], key);
            if row.key == key then before.Some? && groups == Some(before.value + PARAGRAPH + row.text)
            else groups == before
  {
    assert (front + [last])[..|front|] == front && (front + [last + [row]])[..|front|] == front;
    TextOfLongerGroup(last, row);
    hide Join;
  }

  /** What the next row does to the text under a key. */
  lemma ParentTextStep(rows: seq<SourceRow>, key: Key)
    requires rows != []
    ensures var n := |rows| - 1;
            var before, groups := SectionGroups(rows[..n]), SectionGroups(rows);
            && (rows[n].key != key ==> ParentText(groups, key) == ParentText(before, key))
            && (rows[n].key == key && (n == 0 || rows[n - 1].key != key) ==>
                  ParentText(groups, key) == Some(rows[n].text))
            && (rows[n].key == key && n > 0 && rows[n - 1].key == key ==>
                  && ParentText(before, key).Some?
                  && ParentText(groups, key) == Some(ParentText(before, key).value + PARAGRAPH + rows[n].text))
  {
    hide ParentText, Join;
    var n := |rows| - 1;
    var row := rows[n];
    var before := SectionGroups(rows[..n]);
    if n > 0 {
      LastGroupHasLastKey(rows[..n]);
    }
    assert SectionGroups(rows) == AddRow(before, row);
    assert n == 0 ==> before == [];
    hide SectionGroups;
    if before == [] || LastKey(before) != row.key {
      NewGroupText(before, row, key);
    } else {
      var m := |before| - 1;
      assert before == before[..m] + [before[m]];
      LongerGroupText(before[..m], before[m], row, key);
    }
  }

  lemma OneRowText(row: SourceRow)
    ensures Join(PARAGRAPH, TextsOf([row])) == row.text
  {
    assert TextsOf([row]) == [row.text];
  }

  lemma TextOfLongerGroup(group: seq<SourceRow>, row: SourceRow)
    requires group != []
    ensures Join(PARAGRAPH, TextsOf(group + [row])) == Join(PARAGRAPH, TextsOf(group)) + PARAGRAPH + row.text
  {
    var texts := TextsOf(group + [row]);
    assert texts[..|group|] == TextsOf(group) && texts[|group|] == row.text;
  }

  /** Once another key has come between, a returning key stands for later rows only. */
  lemma {:induction false} ReturningKeyDropsText(rows: seq<SourceRow>, i: nat, k: nat, c: char)
    requires i < k < |rows| && rows[k].key != rows[i].key
    requires c !in PARAGRAPH && forall t :: 0 <= t < |rows| && t != i ==> c !in rows[t].text
    requires exists j :: k < j < |rows| && rows[j].key == rows[i].key
    ensures Lacks(SectionGroups(rows), rows[i].key, c)
  {
    hide SectionGroups, ParentText;
    var n := |rows| - 1;
    var key := rows[i].key;
    ParentTextStep(rows, key);
    if rows[n].key != key {
      var j :| k < j < |rows| && rows[j].key == key;
      assert rows[..n][j].key == key;
      ReturningKeyDropsText(rows[..n], i, k, c);
    } else if rows[n - 1].key == key {
      assert rows[..n][n - 1].key == key && n - 1 > k;
      ReturningKeyDropsText(rows[..n], i, k, c);
    }
  }

  // ---------------------------------------------------------------- contexts that hold the row's text

  /** The chunks from first up to last carry a context that contains the text. */
  ghost predicate ContextsContain(chunks: seq<Chunk>, first: nat, last: nat, text: string) {
    && last <= |chunks|
    && forall at :: first <= at < last ==>
         chunks[at].body.context.Some? && Contains(chunks[at].body.context.value, text)
  }

  /** The context of every chunk of row i contains the row's text. */
  ghost predicate ContextHoldsText(rows: seq<SourceRow>, size: nat, overlap: nat, i: nat)
    requires size > overlap && i < |rows|
  {
    ContextsContain(ParentChunks(rows, size, overlap), WindowTotal(rows[..i], size, overlap),
                    WindowTotal(rows[..i + 1], size, overlap), rows[i].text)
  }

  function WithTexts(keys: seq<Key>, texts: seq<string>): (rows: seq<SourceRow>)
    requires |texts| == |keys|
    ensures |rows| == |keys|
    ensures forall i :: 0 <= i < |rows| ==> rows[i] == SourceRow(keys[i], texts[i])
  {
    seq(|keys|, i requires 0 <= i < |keys| => SourceRow(keys[i], texts[i]))
  }

  /** The rows of these keys keep their texts in their contexts, whatever the texts are. */
  ghost predicate AlwaysHoldTexts(keys: seq<Key>, size: nat, overlap: nat)
    requires size > overlap
  {
    forall texts: seq<string>, i :: |texts| == |keys| && 0 <= i < |keys| ==>
      ContextHoldsText(WithTexts(keys, texts), size, overlap, i)
  }

  /** All chunks of one row share their context. */
  lemma ContextOfRow(rows: seq<SourceRow>, size: nat, overlap: nat, i: nat)
    requires size > overlap && i < |rows|
    ensures var chunks := ParentChunks(rows, size, overlap);
            var first, last := WindowTotal(rows[..i], size, overlap), WindowTotal(rows[..i + 1], size, overlap);
            && first < last <= |chunks|
            && forall at :: first <= at < last ==>
                 chunks[at].body.context == ParentText(SectionGroups(rows), rows[i].key)
  {
    hide ParentChunks, ParentText, SectionGroups, Split, WindowCount;
    WindowTotalStep(rows, size, overlap, i);
    var first, last := WindowTotal(rows[..i], size, overlap), WindowTotal(rows[..i + 1], size, overlap);
    var chunks := ParentChunks(rows, size, overlap);
    forall at | first <= at < last
      ensures at < |chunks| && chunks[at].body.context == ParentText(SectionGroups(rows), rows[i].key)
    {
      ChunkOfRow(rows, size, overlap, i, at - first);
    }
    ChunkOfRow(rows, size, overlap, i, last - 1 - first);
  }

  lemma WindowTotalStep(rows: seq<SourceRow>, size: nat, overlap: nat, i: nat)
    requires size > overlap && i < |rows|
    ensures WindowTotal(rows[..i + 1], size, overlap)
         == WindowTotal(rows[..i], size, overlap) + WindowCount(|Split(rows[i].text)|, size, overlap)
  {
    hide Split, WindowCount;
    assert rows[..i + 1][..i] == rows[..i];
  }

  lemma RowHoldsText(rows: seq<SourceRow>, size: nat, overlap: nat, i: nat)
    requires size > overlap && i < |rows|
    ensures ContextHoldsText(rows, size, overlap, i)
       <==> var parent := ParentText(SectionGroups(rows), rows[i].key);
            parent.Some? && Contains(parent.value, rows[i].text)
  {
    hide ParentChunks, ParentText, SectionGroups, Contains;
    ContextOfRow(rows, size, overlap, i);
    SharedContext(ParentChunks(rows, size, overlap), WindowTotal(rows[..i], size, overlap),
                  WindowTotal(rows[..i + 1], size, overlap), rows[i].text, ParentText(SectionGroups(rows),
                              rows[i].key));
    hide ContextsContain;
  }

  lemma SharedContext(chunks: seq<Chunk>, first: nat, last: nat, text: string, parent: Option<string>)
    requires first < last <= |chunks|
    requires forall at :: first <= at < last ==> chunks[at].body.context == parent
    ensures ContextsContain(chunks, first, last, text) <==> parent.Some? && Contains(parent.value, text)
  {
    hide Contains;
    assert chunks[first].body.context == parent;
  }

  /** A key that returns after another key: with these texts row i's context lacks the row's own. */
  lemma ReturningKeyLosesContext(keys: seq<Key>, size: nat, overlap: nat, i: nat, k: nat, j: nat)
    requires size > overlap
    requires i < k < j < |keys| && keys[i] == keys[j] && keys[k] != keys[i]
    ensures var texts := seq(|keys|, t => if t == i then "x" else "");
            !ContextHoldsText(WithTexts(keys, texts), size, overlap, i)
  {
    hide ContextHoldsText, SectionGroups, ParentText;
    var texts := seq(|keys|, t => if t == i then "x" else "");
    var rows := WithTexts(keys, texts);
    assert rows[j].key == rows[i].key;
    ReturningKeyDropsText(rows, i, k, 'x');
    RowHoldsText(rows, size, overlap, i);
    var parent := ParentText(SectionGroups(rows), rows[i].key);
    if Contains(parent.value, "x") {
      ContainsCharacters(parent.value, "x", 'x');
    }
  }

  /** Contexts hold the texts of their rows, whatever those are, exactly when equal keys stand together. */
  lemma ContextsHoldTextsIffContiguous(keys: seq<Key>, size: nat, overlap: nat)
    requires size > overlap
    ensures AlwaysHoldTexts(keys, size, overlap) <==> KeysAreContiguous(keys)
  {
    hide ContextHoldsText, SectionGroups, ParentText, Contains;
    if KeysAreContiguous(keys) {
      forall texts: seq<string>, i | |texts| == |keys| && 0 <= i < |keys|
        ensures ContextHoldsText(WithTexts(keys, texts), size, overlap, i)
      {
        var rows := WithTexts(keys, texts);
        assert KeysOf(rows) == keys;
        ContiguousKeyHoldsText(rows, i);
        RowHoldsText(rows, size, overlap, i);
      }
    } else {
      var i, k, j :| 0 <= i < k < j < |keys| && keys[i] == keys[j] && keys[k] != keys[i];
      ReturningKeyLosesContext(keys, size, overlap, i, k, j);
    }
  }

  lemma ContainsCharacters(whole: string, part: string, c: char)
    requires Contains(whole, part) && c in part
    ensures c in whole
  {
    var before, after: string :| whole == before + part + after;
  }
}
