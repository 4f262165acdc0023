/** The chunk profiles over source rows, and their token statistics. */
module Profiles {
  import opened Chunking
  import opened Collections
  import opened Reals
  import opened Rounding
  import opened Text

  datatype Strategy =
    | SourcePage
    | FixedTokensPerPage(window: int, overlap: int)
    | ConsecutiveSection
    | ParentSection(window: int, overlap: int)
    | Unsupported

  /** The source tokens a windowed chunk covers. */
  datatype Span = Span(start: nat, end: nat)

  datatype Body = Body(product: string, text: string, context: Option<string>, span: Option<Span>)

  datatype Chunk = Chunk(index: nat, body: Body)

  function Numbered(bodies: seq<Body>): (chunks: seq<Chunk>)
    ensures |chunks| == |bodies|
    ensures forall i :: 0 <= i < |chunks| ==> chunks[i] == Chunk(i + 1, bodies[i])
  {
    seq(|bodies|, i requires 0 <= i < |bodies| => Chunk(i + 1, bodies[i]))
  }

  function TextsOf(rows: seq<SourceRow>): (texts: seq<string>)
    ensures |texts| == |rows|
    ensures forall i :: 0 <= i < |texts| ==> texts[i] == rows[i].text
  {
    seq(|rows|, i requires 0 <= i < |rows| => rows[i].text)
  }

  const PARAGRAPH := "\n\n"

  function PageBodies(row: SourceRow): seq<Body> {
    [Body(row.key.product, row.text, None, None)]
  }

  /** One body per window of the row's tokens. */
  function WindowBodies(row: SourceRow, size: nat, overlap: nat, context: Option<string>): (bodies: seq<Body>)
    requires size > overlap
    ensures |bodies| == WindowCount(|Split(row.text)|, size, overlap)
  {
    var windows := WindowsOf(Split(row.text), size, overlap);
    seq(|windows|, i requires 0 <= i < |windows| =>
      Body(row.key.product, windows[i].text, context, Some(Span(windows[i].start, windows[i].end))))
  }

  function SectionBodies(group: seq<SourceRow>): seq<Body> {
    if group == [] then [] else [Body(group[0].key.product, Join(PARAGRAPH, TextsOf(group)), None, None)]
  }

  /** The text of the last group with this key: a later group of the same key replaces an earlier one. */
  function ParentText(groups: seq<seq<SourceRow>>, key: Key): Option<string> {
    if groups == [] then None
    else
      var last := groups[|groups| - 1];
      if last != [] && last[0].key == key then Some(Join(PARAGRAPH, TextsOf(last)))
      else ParentText(groups[..|groups| - 1], key)
  }

  function FixedBodies(rows: seq<SourceRow>, size: nat, overlap: nat): seq<Body>
    requires size > overlap
  {
    FlatMap((row: SourceRow) => WindowBodies(row, size, overlap, None), rows)
  }

  function ParentBodies(rows: seq<SourceRow>, size: nat, overlap: nat): seq<Body>
    requires size > overlap
  {
    var groups := SectionGroups(rows);
    FlatMap((row: SourceRow) => WindowBodies(row, size, overlap, ParentText(groups, row.key)), rows)
  }

  /** The windowed strategies reject their parameters at the first row, so not at all without rows. */
  function Build(rows: seq<SourceRow>, runnable: bool, strategy: Strategy): Result<seq<Chunk>, ChunkError> {
    if !runnable then Failure(ProfileNotRunnable)
    else
      match strategy
      case SourcePage => Success(Numbered(FlatMap(PageBodies, rows)))
      case FixedTokensPerPage(window, overlap) =>
        if window > overlap >= 0 then Success(Numbered(FixedBodies(rows, window, overlap)))
        else if rows == [] then Success([])
        else Failure(WindowInvalid)
      case ConsecutiveSection => Success(Numbered(FlatMap(SectionBodies, SectionGroups(rows))))
      case ParentSection(window, overlap) =>
        if window > overlap >= 0 then Success(Numbered(ParentBodies(rows, window, overlap)))
        else if rows == [] then Success([])
        else Failure(WindowInvalid)
      case Unsupported => Failure(StrategyUnsupported)
  }

  lemma NumberedSnoc(bodies: seq<Body>, body: Body)
    ensures Numbered(bodies + [body]) == Numbered(bodies) + [Chunk(|bodies| + 1, body)]
  {
  }

  /** Appends one chunk per window of one row. */
  method AppendWindows(chunks: seq<Chunk>, ghost bodies: seq<Body>, row: SourceRow, size: int, overlap: int,
                       context: Option<string>)
    returns (r: Result<seq<Chunk>, ChunkError>)
    requires chunks == Numbered(bodies)
    ensures r.Failure? ==> !(size > overlap >= 0) && r.error == WindowInvalid
    ensures r.Success? ==>
              size > overlap >= 0 && r.value == Numbered(bodies + WindowBodies(row, size, overlap, context))
  {
    var windowing := Windows(Split(row.text), size, overlap);
    if windowing.Failure? {
      return Failure(WindowInvalid);
    }
    var windows, out := windowing.value, chunks;
    ghost var added := WindowBodies(row, size, overlap, context);
    for i := 0 to |windows|
      invariant out == Numbered(bodies + added[..i])
    {
      assert added[..i + 1] == added[..i] + [added[i]];
      assert bodies + added[..i + 1] == (bodies + added[..i]) + [added[i]];
      NumberedSnoc(bodies + added[..i], added[i]);
      var span := Span(windows[i].start, windows[i].end);
      out := out + [Chunk(|out| + 1, Body(row.key.product, windows[i].text, context, Some(span)))];
    }
    assert added[..|windows|] == added;
    r := Success(out);
  }

  method BuildFixed(rows: seq<SourceRow>, size: int, overlap: int) returns (r: Result<seq<Chunk>, ChunkError>)
    ensures r == Build(rows, true, FixedTokensPerPage(size, overlap))
  {
    hide WindowBodies;
    var chunks: seq<Chunk> := [];
    ghost var valid := size > overlap >= 0;
    ghost var bodies: seq<Body> := [];
    for i := 0 to |rows|
      invariant i > 0 ==> valid
      invariant valid ==> bodies == FixedBodies(rows[..i], size, overlap)
      invariant chunks == Numbered(bodies)
      invariant i == 0 ==> bodies == []
    {
      var windowing := AppendWindows(chunks, bodies, rows[i], size, overlap, None);
      if windowing.Failure? {
        return Failure(windowing.error);
      }
      FlatMapStep((row: SourceRow) => WindowBodies(row, size, overlap, None), rows, i);
      bodies := bodies + WindowBodies(rows[i], size, overlap, None);
      chunks := windowing.value;
    }
    assert rows[..|rows|] == rows;
    r := Success(chunks);
  }

  lemma {:induction false} RowIsInAGroup<T>(groups: seq<seq<T>>, i: nat) returns (g: nat, k: nat)
    requires i < |Flatten(groups)|
    ensures g < |groups| && k < |groups[g]| && groups[g][k] == Flatten(groups)[i]
  {
    var n := |groups| - 1;
    var before := Flatten(groups[..n]);
    if i < |before| {
      g, k := RowIsInAGroup(groups[..n], i);
    } else {
      g, k := n, i - |before|;
    }
  }

  lemma {:induction false} ParentExists(groups: seq<seq<SourceRow>>, g: nat)
    requires g < |groups| && groups[g] != []
    ensures ParentText(groups, groups[g][0].key).Some?
  {
    var n := |groups| - 1;
    if g < n {
      ParentExists(groups[..n], g);
    }
  }

  /** The lookup of a row's parent text never misses. */
  lemma EveryRowHasAParent(rows: seq<SourceRow>, i: nat)
    requires i < |rows|
    ensures ParentText(SectionGroups(rows), rows[i].key).Some?
  {
    var groups := SectionGroups(rows);
    GroupsAreMaximalRuns(rows);
    var g, k := RowIsInAGroup(groups, i);
    assert IsRun(groups[g]);
    ParentExists(groups, g);
  }

  lemma GroupsAreNotEmpty(rows: seq<SourceRow>)
    ensures forall i :: 0 <= i < |SectionGroups(rows)| ==> SectionGroups(rows)[i] != []
  {
    GroupsAreMaximalRuns(rows);
    var groups := SectionGroups(rows);
    assert forall i :: 0 <= i < |groups| ==> IsRun(groups[i]);
  }

  method BuildParents(rows: seq<SourceRow>, size: int, overlap: int) returns (r: Result<seq<Chunk>, ChunkError>)
    ensures r == Build(rows, true, ParentSection(size, overlap))
  {
    hide WindowBodies, SectionGroups, ParentText;
    var groups := GroupSections(rows);
    GroupsAreNotEmpty(rows);
    var parents := CollectParents(groups);
    var chunks: seq<Chunk> := [];
    ghost var valid := size > overlap >= 0;
    ghost var bodies: seq<Body> := [];
    for i := 0 to |rows|
      invariant i > 0 ==> valid
      invariant valid ==>
        bodies == FlatMap((row: SourceRow) => WindowBodies(row, size, overlap, ParentText(groups, row.key)), rows[..i])
      invariant chunks == Numbered(bodies)
      invariant i == 0 ==> bodies == []
    {
      var key := rows[i].key;
      EveryRowHasAParent(rows, i);
      var windowing := AppendWindows(chunks, bodies, rows[i], size, overlap, Some(parents[key]));
      if windowing.Failure? {
        return Failure(windowing.error);
      }
      FlatMapStep((row: SourceRow) => WindowBodies(row, size, overlap, ParentText(groups, row.key)), rows, i);
      bodies := bodies + WindowBodies(rows[i], size, overlap, ParentText(groups, key));
      chunks := windowing.value;
    }
    assert rows[..|rows|] == rows;
    r := Success(chunks);
  }

  /** `{key: joined text for group in groups}`. */
  method CollectParents(groups: seq<seq<SourceRow>>) returns (parents: map<Key, string>)
    requires forall i :: 0 <= i < |groups| ==> groups[i] != []
    ensures forall key :: key in parents <==> ParentText(groups, key).Some?
    ensures forall key :: key in parents ==> ParentText(groups, key) == Some(parents[key])
  {
    hide Join, TextsOf;
    parents := map[];
    for i := 0 to |groups|
      invariant forall key :: key in parents <==> ParentText(groups[..i], key).Some?
      invariant forall key :: key in parents ==> ParentText(groups[..i], key) == Some(parents[key])
    {
      assert groups[..i + 1][..i] == groups[..i];
      parents := parents[groups[i][0].key := Join(PARAGRAPH, TextsOf(groups[i]))];
    }
    assert groups[..|groups|] == groups;
  }

  method BuildSections(rows: seq<SourceRow>) returns (chunks: seq<Chunk>)
    ensures chunks == Numbered(FlatMap(SectionBodies, SectionGroups(rows)))
  {
    hide SectionGroups, Join, TextsOf, FlatMap;
    var groups := GroupSections(rows);
    GroupsAreNotEmpty(rows);
    FlatMapNone(SectionBodies);
    chunks := [];
    for i := 0 to |groups|
      invariant chunks == Numbered(FlatMap(SectionBodies, groups[..i]))
    {
      FlatMapStep(SectionBodies, groups, i);
      var body := Body(groups[i][0].key.product, Join(PARAGRAPH, TextsOf(groups[i])), None, None);
      NumberedSnoc(FlatMap(SectionBodies, groups[..i]), body);
      chunks := chunks + [Chunk(|chunks| + 1, body)];
    }
    assert groups[..|groups|] == groups;
  }

  method BuildPages(rows: seq<SourceRow>) returns (chunks: seq<Chunk>)
    ensures chunks == Numbered(FlatMap(PageBodies, rows))
  {
    hide FlatMap;
    FlatMapNone(PageBodies);
    chunks := [];
    for i := 0 to |rows|
      invariant |chunks| == i && chunks == Numbered(FlatMap(PageBodies, rows[..i]))
    {
      FlatMapStep(PageBodies, rows, i);
      var body := Body(rows[i].key.product, rows[i].text, None, None);
      NumberedSnoc(FlatMap(PageBodies, rows[..i]), body);
      chunks := chunks + [Chunk(i + 1, body)];
    }
    assert rows[..|rows|] == rows;
  }

  method BuildProfileChunks(rows: seq<SourceRow>, runnable: bool, strategy: Strategy)
    returns (r: Result<seq<Chunk>, ChunkError>)
    ensures r == Build(rows, runnable, strategy)
  {
    hide FixedBodies, ParentBodies, FlatMap, SectionGroups, Numbered;
    if !runnable {
      return Failure(ProfileNotRunnable);
    }
    match strategy
    case SourcePage =>
      var chunks := BuildPages(rows);
      r := Success(chunks);
    case FixedTokensPerPage(window, overlap) =>
      r := BuildFixed(rows, window, overlap);
    case ConsecutiveSection =>
      var chunks := BuildSections(rows);
      r := Success(chunks);
    case ParentSection(window, overlap) =>
      r := BuildParents(rows, window, overlap);
    case Unsupported =>
      r := Failure(StrategyUnsupported);
  }

  // ---------------------------------------------------------------- token totals

  function TokenTotal(texts: seq<string>): nat {
    if texts == [] then 0 else TokenTotal(texts[..|texts| - 1]) + |Split(texts[|texts| - 1])|
  }

  function BodyTexts(bodies: seq<Body>): (texts: seq<string>)
    ensures |texts| == |bodies|
    ensures forall i :: 0 <= i < |texts| ==> texts[i] == bodies[i].text
  {
    seq(|bodies|, i requires 0 <= i < |bodies| => bodies[i].text)
  }

  lemma {:induction false} TokenTotalConcat(a: seq<string>, b: seq<string>)
    ensures TokenTotal(a + b) == TokenTotal(a) + TokenTotal(b)
  {
    if b == [] {
      assert a + b == a;
    } else {
      TokenTotalConcat(a, b[..|b| - 1]);
      assert (a + b)[..|a + b| - 1] == a + b[..|b| - 1];
    }
  }

  lemma {:induction false} WordsCount(texts: seq<string>)
    ensures |Words(texts)| == TokenTotal(texts)
  {
    if texts != [] {
      WordsCount(texts[..|texts| - 1]);
    }
  }

  /** A window's text splits back into the tokens it covers. */
  lemma WindowTextTokens(text: string, size: nat, overlap: nat, i: nat)
    requires size > overlap && i < WindowCount(|Split(text)|, size, overlap)
    ensures var w := WindowsOf(Split(text), size, overlap)[i];
            w.start <= w.end <= |Split(text)| && Split(w.text) == Split(text)[w.start..w.end]
  {
    var tokens := Split(text);
    SplitYieldsWords(text);
    WindowsEntry(tokens, size, overlap, i);
    var w := WindowAt(tokens, size, overlap, i);
    hide Split, WindowsOf, WindowCount, Start, Join;
    SplitOfJoin(tokens[w.start..w.end]);
  }

  function WindowTexts(text: string, size: nat, overlap: nat): (texts: seq<string>)
    requires size > overlap
    ensures |texts| == WindowCount(|Split(text)|, size, overlap)
    ensures forall i :: 0 <= i < |texts| ==> texts[i] == WindowsOf(Split(text), size, overlap)[i].text
  {
    var windows := WindowsOf(Split(text), size, overlap);
    seq(|windows|, i requires 0 <= i < |windows| => windows[i].text)
  }

  /** The first k windows hold their reach in tokens plus one overlap per join. */
  lemma {:induction false} WindowTokenTotal(text: string, size: nat, overlap: nat, k: nat)
    requires size > overlap && 1 <= k <= WindowCount(|Split(text)|, size, overlap)
    ensures TokenTotal(WindowTexts(text, size, overlap)[..k])
         == WindowsOf(Split(text), size, overlap)[k - 1].end + Start(k - 1, overlap)
  {
    var windows, texts := WindowsOf(Split(text), size, overlap), WindowTexts(text, size, overlap);
    WindowTextTokens(text, size, overlap, k - 1);
    WindowsCoverAndOverlap(Split(text), size, overlap);
    hide WindowsOf, WindowTexts, WindowCount, Split, Start;
    assert texts[..k][..k - 1] == texts[..k - 1];
    if k == 1 {
      StartStep(0, overlap);
      assert TokenTotal(texts[..0]) == 0;
    } else {
      WindowTokenTotal(text, size, overlap, k - 1);
      StartStep(k - 2, overlap);
      assert StepsOn(windows, k - 2, |Split(text)|, size, overlap);
    }
  }

  function BodyTokens(bodies: seq<Body>): nat {
    TokenTotal(BodyTexts(bodies))
  }

  function RowTokens(rows: seq<SourceRow>): nat {
    TokenTotal(TextsOf(rows))
  }

  lemma BodyTokensConcat(a: seq<Body>, b: seq<Body>)
    ensures BodyTokens(a + b) == BodyTokens(a) + BodyTokens(b)
    ensures BodyTokens([]) == 0
  {
    assert BodyTexts(a + b) == BodyTexts(a) + BodyTexts(b);
    TokenTotalConcat(BodyTexts(a), BodyTexts(b));
  }

  lemma RowTokensConcat(a: seq<SourceRow>, b: seq<SourceRow>)
    ensures RowTokens(a + b) == RowTokens(a) + RowTokens(b)
    ensures RowTokens([]) == 0
  {
    assert TextsOf(a + b) == TextsOf(a) + TextsOf(b);
    TokenTotalConcat(TextsOf(a), TextsOf(b));
  }

  lemma OneTextTotal(text: string)
    ensures TokenTotal([text]) == |Split(text)|
  {
    assert [text][..0] == [];
  }

  lemma OneRowTokens(row: SourceRow)
    ensures RowTokens([row]) == |Split(row.text)|
  {
    OneTextTotal(row.text);
    assert TextsOf([row]) == [row.text];
  }

  /** One row: its own tokens, plus the overlap once for every chunk after the first. */
  lemma RowWindowTokens(row: SourceRow, size: nat, overlap: nat, context: Option<string>)
    requires size > overlap
    ensures var bodies := WindowBodies(row, size, overlap, context);
            bodies != [] && BodyTokens(bodies) == RowTokens([row]) + Start(|bodies| - 1, overlap)
  {
    var texts := WindowTexts(row.text, size, overlap);
    var bodies := WindowBodies(row, size, overlap, context);
    assert BodyTexts(bodies) == texts;
    hide WindowBodies, WindowCount, WindowsOf, WindowTexts, Start, Split;
    WindowTokenTotal(row.text, size, overlap, |texts|);
    WindowsCoverAndOverlap(Split(row.text), size, overlap);
    OneRowTokens(row);
    assert texts[..|texts|] == texts;
  }

  lemma StartAdds(a: nat, b: nat, step: nat)
    ensures Start(a + b, step) == Start(a, step) + Start(b, step)
  {
    assert (a + b) * step == a * step + b * step;
  }

  /** Windowed profiles, whatever their context: every chunk beyond one per row repeats exactly the overlap. */
  lemma {:induction false} WindowedTokens(rows: seq<SourceRow>, size: nat, overlap: nat,
                                          context: SourceRow -> Option<string>)
    requires size > overlap
    ensures var bodies := FlatMap((row: SourceRow) => WindowBodies(row, size, overlap, context(row)), rows);
            && |bodies| >= |rows|
            && BodyTokens(bodies) == RowTokens(rows) + Start(|bodies| - |rows|, overlap)
  {
    hide FlatMap, WindowBodies, BodyTokens, RowTokens, Start, WindowCount;
    var f := (row: SourceRow) => WindowBodies(row, size, overlap, context(row));
    if rows == [] {
      FlatMapNone(f);
      BodyTokensConcat([], []);
      RowTokensConcat([], []);
      StartStep(0, overlap);
    } else {
      var n := |rows| - 1;
      WindowedTokens(rows[..n], size, overlap, context);
      RowWindowTokens(rows[n], size, overlap, context(rows[n]));
      FlatMapStep(f, rows, n);
      var before, added := FlatMap(f, rows[..n]), f(rows[n]);
      assert rows[..n + 1] == rows && rows == rows[..n] + [rows[n]];
      BodyTokensConcat(before, added);
      RowTokensConcat(rows[..n], [rows[n]]);
      StartAdds(|before| - n, |added| - 1, overlap);
    }
  }

  /** The joined text of a group has the words of its rows. */
  lemma SectionTokens(group: seq<SourceRow>)
    requires group != []
    ensures BodyTokens(SectionBodies(group)) == RowTokens(group)
  {
    var texts := TextsOf(group);
    var joined := Join(PARAGRAPH, texts);
    assert IsBlank(PARAGRAPH);
    SplitOfBlankJoin(PARAGRAPH, texts);
    WordsCount(texts);
    assert BodyTexts(SectionBodies(group)) == [joined];
    hide Split, Join, IsBlank, TextsOf, Words;
    OneTextTotal(joined);
  }

  lemma {:induction false} SectionedTokens(groups: seq<seq<SourceRow>>)
    requires forall i :: 0 <= i < |groups| ==> groups[i] != []
    ensures BodyTokens(FlatMap(SectionBodies, groups)) == RowTokens(Flatten(groups))
  {
    hide FlatMap, SectionBodies, BodyTokens, RowTokens;
    if groups == [] {
      FlatMapNone(SectionBodies);
      BodyTokensConcat([], []);
      RowTokensConcat([], []);
    } else {
      var n := |groups| - 1;
      SectionedTokens(groups[..n]);
      SectionTokens(groups[n]);
      FlatMapStep(SectionBodies, groups, n);
      assert groups[..n + 1] == groups;
      BodyTokensConcat(FlatMap(SectionBodies, groups[..n]), SectionBodies(groups[n]));
      RowTokensConcat(Flatten(groups[..n]), groups[n]);
    }
  }

  lemma {:induction false} PageTokens(rows: seq<SourceRow>)
    ensures BodyTokens(FlatMap(PageBodies, rows)) == RowTokens(rows)
  {
    hide FlatMap, BodyTokens, RowTokens;
    if rows == [] {
      FlatMapNone(PageBodies);
      BodyTokensConcat([], []);
      RowTokensConcat([], []);
    } else {
      var n := |rows| - 1;
      PageTokens(rows[..n]);
      FlatMapStep(PageBodies, rows, n);
      assert rows[..n + 1] == rows && rows == rows[..n] + [rows[n]];
      BodyTokensConcat(FlatMap(PageBodies, rows[..n]), PageBodies(rows[n]));
      RowTokensConcat(rows[..n], [rows[n]]);
      OnePageTokens(rows[n]);
    }
  }

  lemma OnePageTokens(row: SourceRow)
    ensures BodyTokens(PageBodies(row)) == RowTokens([row])
  {
    assert BodyTexts(PageBodies(row)) == TextsOf([row]);
  }

  // ---------------------------------------------------------------- statistics

  datatype Statistics = Statistics(
    chunkCount: nat,
    byProduct: map<string, nat>,
    averageTokens: real,
    minimumTokens: nat,
    maximumTokens: nat,
    sourceTokens: nat,
    indexedTokens: nat,
    overlapRatio: real,
    contextTokens: nat)

  function Bodies(chunks: seq<Chunk>): (bodies: seq<Body>)
    ensures |bodies| == |chunks|
    ensures forall i :: 0 <= i < |bodies| ==> bodies[i] == chunks[i].body
  {
    seq(|chunks|, i requires 0 <= i < |chunks| => chunks[i].body)
  }

  function OverlapRatio(source: nat, indexed: nat): real {
    if indexed == 0 then 0.0 else RoundTo(Over(Max(0, indexed - source) as real, indexed as real), 6)
  }

  function Lengths(texts: seq<string>): (lengths: seq<nat>)
    ensures |lengths| == |texts|
    ensures forall i :: 0 <= i < |lengths| ==> lengths[i] == |Split(texts[i])|
  {
    seq(|texts|, i requires 0 <= i < |texts| => |Split(texts[i])|)
  }

  /** `min(lengths, default=0)`. */
  function Least(lengths: seq<nat>): (least: nat)
    ensures lengths == [] ==> least == 0
    ensures lengths != [] ==> least in lengths && forall n :: n in lengths ==> least <= n
  {
    if lengths == [] then 0
    else if |lengths| == 1 then lengths[0]
    else
      var rest := Least(lengths[..|lengths| - 1]);
      assert lengths == lengths[..|lengths| - 1] + [lengths[|lengths| - 1]];
      Min(rest, lengths[|lengths| - 1])
  }

  /** `max(lengths, default=0)`. */
  function Greatest(lengths: seq<nat>): (greatest: nat)
    ensures lengths == [] ==> greatest == 0
    ensures lengths != [] ==> greatest in lengths && forall n :: n in lengths ==> n <= greatest
  {
    if lengths == [] then 0
    else if |lengths| == 1 then lengths[0]
    else
      var rest := Greatest(lengths[..|lengths| - 1]);
      assert lengths == lengths[..|lengths| - 1] + [lengths[|lengths| - 1]];
      Max(rest, lengths[|lengths| - 1])
  }

  function AverageTokens(texts: seq<string>): real {
    if texts == [] then 0.0 else RoundTo(Over(TokenTotal(texts) as real, |texts| as real), 3)
  }

  /** A chunk without context counts as one with the empty text. */
  function ContextTexts(bodies: seq<Body>): (texts: seq<string>)
    ensures |texts| == |bodies|
  {
    seq(|bodies|, i requires 0 <= i < |bodies| => if bodies[i].context.Some? then bodies[i].context.value else "")
  }

  function CountOf(chunks: seq<Chunk>, product: string): nat {
    Count((chunk: Chunk) => chunk.body.product == product, chunks)
  }

  method ProfileStatistics(rows: seq<SourceRow>, chunks: seq<Chunk>) returns (s: Statistics)
    ensures s.chunkCount == |chunks|
    ensures s.sourceTokens == RowTokens(rows) && s.indexedTokens == BodyTokens(Bodies(chunks))
    ensures s.overlapRatio == OverlapRatio(s.sourceTokens, s.indexedTokens)
    ensures s.contextTokens == TokenTotal(ContextTexts(Bodies(chunks)))
    ensures s.averageTokens == AverageTokens(BodyTexts(Bodies(chunks)))
    ensures var lengths := Lengths(BodyTexts(Bodies(chunks)));
            s.minimumTokens == Least(lengths) && s.maximumTokens == Greatest(lengths)
    ensures forall product :: (product in s.byProduct <==> CountOf(chunks, product) > 0)
                              && (product in s.byProduct ==> s.byProduct[product] == CountOf(chunks, product))
  {
    var byProduct: map<string, nat> := map[];
    for i := 0 to |chunks|
      invariant forall product :: product in byProduct <==> CountOf(chunks[..i], product) > 0
      invariant forall product :: product in byProduct ==> byProduct[product] == CountOf(chunks[..i], product)
    {
      var product := chunks[i].body.product;
      forall other
        ensures CountOf(chunks[..i + 1], other) == CountOf(chunks[..i], other) + if other == product then 1 else 0
      {
        CountStep((chunk: Chunk) => chunk.body.product == other, chunks, i);
      }
      byProduct := byProduct[product := (if product in byProduct then byProduct[product] else 0) + 1];
    }
    assert chunks[..|chunks|] == chunks;
    var source, indexed := RowTokens(rows), BodyTokens(Bodies(chunks));
    var texts := BodyTexts(Bodies(chunks));
    var lengths := Lengths(texts);
    s := Statistics(|chunks|, byProduct, AverageTokens(texts), Least(lengths), Greatest(lengths), source, indexed,
                    OverlapRatio(source, indexed), TokenTotal(ContextTexts(Bodies(chunks))));
  }

  lemma {:induction false} TotalBetween(texts: seq<string>, low: nat, high: nat)
    requires forall i :: 0 <= i < |texts| ==> low <= |Split(texts[i])| <= high
    ensures |texts| * low <= TokenTotal(texts) <= |texts| * high
  {
    hide Split;
    if texts != [] {
      var n := |texts| - 1;
      TotalBetween(texts[..n], low, high);
      assert (n + 1) * low == n * low + low && (n + 1) * high == n * high + high;
    }
  }

  /** The rounded average lies between the shortest and the longest chunk. */
  lemma AverageIsBetween(texts: seq<string>)
    ensures var lengths := Lengths(texts);
            Least(lengths) as real <= AverageTokens(texts) <= Greatest(lengths) as real
  {
    hide Split, RoundTo, Over, TokenTotal;
    if texts != [] {
      var lengths := Lengths(texts);
      var n, low, high, total := |texts|, Least(lengths), Greatest(lengths), TokenTotal(texts);
      assert forall i :: 0 <= i < n ==> lengths[i] in lengths;
      hide Least, Greatest, Lengths;
      TotalBetween(texts, low, high);
      QuotientBetween(total, n, low, high);
      RoundToIsMonotone(low as real, Over(total as real, n as real), 3);
      RoundToIsMonotone(Over(total as real, n as real), high as real, 3);
      RoundToFixesIntegers(low, 3);
      RoundToFixesIntegers(high, 3);
    }
  }

  lemma QuotientBetween(total: nat, n: nat, low: nat, high: nat)
    requires n > 0 && n * low <= total <= n * high
    ensures low as real <= Over(total as real, n as real) <= high as real
  {
    hide Times, Over;
    OverThenTimes(total as real, n as real);
    IntegerProduct(low, n);
    IntegerProduct(high, n);
    TimesReflectsOrder(low as real, Over(total as real, n as real), n as real);
    TimesReflectsOrder(Over(total as real, n as real), high as real, n as real);
  }

  function SumCounts(products: seq<string>, chunks: seq<Chunk>): nat {
    if products == [] then 0
    else SumCounts(products[..|products| - 1], chunks) + CountOf(chunks, products[|products| - 1])
  }

  /** Over any listing of the products, the counts by product add up to the chunk count. */
  lemma {:induction false} CountsByProductAddUp(products: seq<string>, chunks: seq<Chunk>)
    requires NoDuplicates(products)
    requires forall i :: 0 <= i < |chunks| ==> chunks[i].body.product in products
    ensures SumCounts(products, chunks) == |chunks|
  {
    if chunks == [] {
      NothingCounted(products);
    } else {
      var n := |chunks| - 1;
      CountsByProductAddUp(products, chunks[..n]);
      OneMoreCounted(products, chunks, n);
      assert chunks[..n + 1] == chunks;
    }
  }

  lemma {:induction false} NothingCounted(products: seq<string>)
    ensures SumCounts(products, []) == 0
  {
    if products != [] {
      NothingCounted(products[..|products| - 1]);
    }
  }

  lemma {:induction false} OneMoreCounted(products: seq<string>, chunks: seq<Chunk>, i: nat)
    requires NoDuplicates(products) && i < |chunks|
    ensures SumCounts(products, chunks[..i + 1])
         == SumCounts(products, chunks[..i]) + if chunks[i].body.product in products then 1 else 0
  {
    if products != [] {
      var n := |products| - 1;
      var last := products[n];
      OneMoreCounted(products[..n], chunks, i);
      CountStep((chunk: Chunk) => chunk.body.product == last, chunks, i);
      assert products == products[..n] + [last];
      assert last !in products[..n];
    }
  }

  lemma BodiesOfNumbered(bodies: seq<Body>)
    ensures Bodies(Numbered(bodies)) == bodies
  {
  }

  /** Windowed chunks index the source tokens plus the overlap once per chunk beyond one per row. */
  lemma WindowedProfilesIndexTheOverlap(rows: seq<SourceRow>, size: nat, overlap: nat, withParents: bool)
    requires size > overlap
    ensures var built := Build(rows, true,
                               if withParents then ParentSection(size, overlap) else FixedTokensPerPage(size, overlap));
            && built.Success?
            && |built.value| >= |rows|
            && BodyTokens(Bodies(built.value)) == RowTokens(rows) + (|built.value| - |rows|) * overlap
  {
    var groups := SectionGroups(rows);
    hide FlatMap, WindowBodies, BodyTokens, RowTokens, WindowCount, SectionGroups, ParentText, Numbered, Bodies;
    if withParents {
      WindowedTokens(rows, size, overlap, (row: SourceRow) => ParentText(groups, row.key));
      BodiesOfNumbered(ParentBodies(rows, size, overlap));
      SameBodies(rows, size, overlap);
    } else {
      WindowedTokens(rows, size, overlap, (row: SourceRow) => None);
      BodiesOfNumbered(FixedBodies(rows, size, overlap));
      SameBodies(rows, size, overlap);
    }
  }

  lemma {:induction false} FlatMapAgree<T, R>(f: T -> seq<R>, g: T -> seq<R>, s: seq<T>)
    requires forall x :: f(x) == g(x)
    ensures FlatMap(f, s) == FlatMap(g, s)
  {
    if s != [] {
      FlatMapAgree(f, g, s[..|s| - 1]);
    }
  }

  lemma SameBodies(rows: seq<SourceRow>, size: nat, overlap: nat)
    requires size > overlap
    ensures var none := (row: SourceRow) => None;
            FlatMap((row: SourceRow) => WindowBodies(row, size, overlap, none(row)), rows)
            == FixedBodies(rows, size, overlap)
    ensures var groups := SectionGroups(rows);
            var parent := (row: SourceRow) => ParentText(groups, row.key);
            FlatMap((row: SourceRow) => WindowBodies(row, size, overlap, parent(row)), rows)
            == ParentBodies(rows, size, overlap)
  {
    hide FlatMap, WindowBodies, SectionGroups, ParentText;
    var groups := SectionGroups(rows);
    var none := (row: SourceRow) => None;
    var parent := (row: SourceRow) => ParentText(groups, row.key);
    FlatMapAgree((row: SourceRow) => WindowBodies(row, size, overlap, none(row)),
                 (row: SourceRow) => WindowBodies(row, size, overlap, None), rows);
    FlatMapAgree((row: SourceRow) => WindowBodies(row, size, overlap, parent(row)),
                 (row: SourceRow) => WindowBodies(row, size, overlap, ParentText(groups, row.key)), rows);
  }

  /** Page and section chunks index exactly the source tokens, so their overlap ratio is 0. */
  lemma UnwindowedProfilesIndexTheSource(rows: seq<SourceRow>, bySection: bool)
    ensures var built := Build(rows, true, if bySection then ConsecutiveSection else SourcePage);
            && built.Success?
            && BodyTokens(Bodies(built.value)) == RowTokens(rows)
            && OverlapRatio(RowTokens(rows), BodyTokens(Bodies(built.value))) == 0.0
  {
    hide FlatMap, BodyTokens, RowTokens, SectionGroups, Numbered, Bodies, OverlapRatio, AreMaximalRuns, Flatten;
    GroupsAreMaximalRuns(rows);
    GroupsAreNotEmpty(rows);
    SectionedTokens(SectionGroups(rows));
    PageTokens(rows);
    BodiesOfNumbered(FlatMap(SectionBodies, SectionGroups(rows)));
    BodiesOfNumbered(FlatMap(PageBodies, rows));
    NoOverlap(RowTokens(rows));
  }

  lemma NoOverlap(tokens: nat)
    ensures OverlapRatio(tokens, tokens) == 0.0
  {
    hide Times, Over, RoundTo;
    if tokens > 0 {
      TimesBasics(0.0, tokens as real);
      QuotientIs(0.0, 0.0, tokens as real);
      RoundToFixesIntegers(0, 6);
    }
  }

  /** The ratio is the indexed tokens beyond the source, over the indexed tokens. */
  lemma OverlapRatioIsExact(source: nat, indexed: nat)
    ensures indexed == 0 ==> OverlapRatio(source, indexed) == 0.0
    ensures indexed > 0 ==>
              IsQuotientTo(6, OverlapRatio(source, indexed), Max(0, indexed - source) as real, indexed as real)
  {
    hide IsQuotientTo, RoundTo, Over;
    if indexed > 0 {
      RoundedQuotient(Max(0, indexed - source) as real, indexed as real, 6);
    }
  }

  /** For windowed chunks it is the share of repeated tokens: the overlap once per chunk beyond one per row. */
  lemma WindowedOverlapRatio(rows: seq<SourceRow>, size: nat, overlap: nat, withParents: bool)
    requires size > overlap
    ensures var built := Build(rows, true,
                               if withParents then ParentSection(size, overlap) else FixedTokensPerPage(size, overlap));
            && built.Success?
            && var indexed := BodyTokens(Bodies(built.value));
            && (indexed == 0 ==> OverlapRatio(RowTokens(rows), indexed) == 0.0)
            && (indexed > 0 ==> IsQuotientTo(6, OverlapRatio(RowTokens(rows), indexed),
                                             ((|built.value| - |rows|) * overlap) as real, indexed as real))
  {
    WindowedProfilesIndexTheOverlap(rows, size, overlap, withParents);
    var chunks := Build(rows, true, if withParents then ParentSection(size, overlap) else FixedTokensPerPage(size, overlap)).value;
    hide Build, BodyTokens, RowTokens, Bodies, OverlapRatio, IsQuotientTo;
    OverlapRatioIsExact(RowTokens(rows), BodyTokens(Bodies(chunks)));
    ProductIsNotNegative(|chunks| - |rows|, overlap);
  }

  lemma ProductIsNotNegative(a: nat, b: nat)
    ensures a * b >= 0
  {
  }

  /** The average is the total of the chunk lengths over the number of chunks. */
  lemma AverageIsExact(texts: seq<string>)
    requires texts != []
    ensures IsQuotientTo(3, AverageTokens(texts), TokenTotal(texts) as real, |texts| as real)
  {
    hide IsQuotientTo, RoundTo, Over, TokenTotal;
    RoundedQuotient(TokenTotal(texts) as real, |texts| as real, 3);
  }
}
