/** What a line of a `.env` file means, spelled on its characters. */
module EnvMeaning {
  import opened Collections
  import opened Text
  import opened EnvLoader

  // ---------------------------------------------------------------- whitespace

  /** The whitespace characters by code point. */
  const SPACES: set<int> := {
    9, 10, 11, 12, 13, 28, 29, 30, 31, 32, 133, 160, 5760, 8192, 8193, 8194, 8195, 8196, 8197, 8198, 8199, 8200,
    8201, 8202, 8232, 8233, 8239, 8287, 12288
  }

  lemma SpaceMeans(c: char)
    ensures IsSpace(c) <==> c as int in SPACES
  {
  }

  ghost predicate AllSpace(s: string) {
    forall c :: c in s ==> c as int in SPACES
  }

  /** The text without the whitespace around it. */
  ghost predicate IsTrim(raw: string, body: string) {
    && (exists before, after :: raw == before + body + after && AllSpace(before) && AllSpace(after))
    && (body != "" ==> body[0] as int !in SPACES && body[|body| - 1] as int !in SPACES)
  }

  lemma AllSpaceMeans(s: string)
    ensures IsBlank(s) <==> AllSpace(s)
  {
    hide IsSpace;
    forall c
      ensures IsSpace(c) <==> c as int in SPACES
    {
      SpaceMeans(c);
    }
    if IsBlank(s) {
      forall c | c in s
        ensures c as int in SPACES
      {
        var i :| 0 <= i < |s| && s[i] == c;
      }
    }
    if AllSpace(s) {
      forall i | 0 <= i < |s|
        ensures IsSpace(s[i])
      {
        assert s[i] in s;
      }
    }
  }

  /** The cut leaves blanks before it, or after it. */
  ghost predicate CutsLeft(s: string, n: int) {
    0 <= n <= |s| && IsBlank(s[..n]) && StripLeft(s) == s[n..]
  }

  ghost predicate CutsRight(s: string, n: int) {
    0 <= n <= |s| && IsBlank(s[n..]) && StripRight(s) == s[..n]
  }

  lemma {:induction false} StripLeftCuts(s: string) returns (n: int)
    ensures CutsLeft(s, n)
    ensures StripLeft(s) != "" ==> !IsSpace(StripLeft(s)[0])
  {
    hide IsSpace;
    if s != "" && IsSpace(s[0]) {
      var m := StripLeftCuts(s[1..]);
      n := m + 1;
      assert s[..n] == [s[0]] + s[1..][..m] && s[1..][m..] == s[n..];
    } else {
      n := 0;
      assert s[..0] == "" && s[0..] == s;
    }
  }

  lemma {:induction false} StripRightCuts(s: string) returns (n: int)
    ensures CutsRight(s, n)
    ensures StripRight(s) != "" ==> !IsSpace(StripRight(s)[|StripRight(s)| - 1]) && StripRight(s)[0] == s[0]
  {
    hide IsSpace;
    if s != "" && IsSpace(s[|s| - 1]) {
      var m := |s| - 1;
      n := StripRightCuts(s[..m]);
      assert s[n..] == s[..m][n..] + [s[m]] && s[..m][..n] == s[..n];
    } else {
      n := |s|;
      assert s[n..] == "" && s[..n] == s;
    }
  }

  /** Stripping cuts blanks off both ends. */
  lemma StripCuts(raw: string) returns (m: int, n: int)
    ensures 0 <= m <= n <= |raw| && IsBlank(raw[..m]) && IsBlank(raw[n..]) && Strip(raw) == raw[m..n]
    ensures Strip(raw) != "" ==> !IsSpace(Strip(raw)[0]) && !IsSpace(Strip(raw)[|Strip(raw)| - 1])
  {
    hide IsSpace, StripLeft, StripRight, IsBlank;
    m := StripLeftCuts(raw);
    var left := StripLeft(raw);
    var k := StripRightCuts(left);
    n := m + k;
    assert left[k..] == raw[n..] && left[..k] == raw[m..n];
  }

  lemma StripIsTrim(raw: string)
    ensures IsTrim(raw, Strip(raw))
  {
    hide IsSpace, SPACES, Strip, IsBlank, AllSpace;
    var m, n := StripCuts(raw);
    var body := Strip(raw);
    AllSpaceMeans(raw[..m]);
    AllSpaceMeans(raw[n..]);
    assert raw == raw[..m] + body + raw[n..];
    if body != "" {
      SpaceMeans(body[0]);
      SpaceMeans(body[|body| - 1]);
    }
  }

  /** Where whitespace ends at either edge of a text written as its trim between blanks. */
  lemma EdgesOfTrim(raw: string, before: string, body: string, after: string)
    requires raw == before + body + after && AllSpace(before) && AllSpace(after)
    requires body != "" ==> body[0] as int !in SPACES && body[|body| - 1] as int !in SPACES
    ensures forall i :: 0 <= i < |before| || |before| + |body| <= i < |raw| ==> raw[i] as int in SPACES
    ensures body != "" ==> raw[|before|] as int !in SPACES && raw[|before| + |body| - 1] as int !in SPACES
    ensures body == raw[|before|..|before| + |body|]
  {
    hide SPACES;
    forall i | 0 <= i < |before|
      ensures raw[i] as int in SPACES
    {
      assert raw[i] == before[i] && before[i] in before;
    }
    forall i | |before| + |body| <= i < |raw|
      ensures raw[i] as int in SPACES
    {
      assert raw[i] == after[i - |before| - |body|] && after[i - |before| - |body|] in after;
    }
  }

  /** Two trims of one text are the same. */
  lemma TrimIsUnique(raw: string, body: string, other: string)
    requires IsTrim(raw, body) && IsTrim(raw, other)
    ensures body == other
  {
    hide SPACES;
    var b1, a1 :| raw == b1 + body + a1 && AllSpace(b1) && AllSpace(a1);
    var b2, a2 :| raw == b2 + other + a2 && AllSpace(b2) && AllSpace(a2);
    EdgesOfTrim(raw, b1, body, a1);
    EdgesOfTrim(raw, b2, other, a2);
    hide AllSpace, IsTrim;
    assert body == "" <==> other == "";
    assert body != "" ==> |b1| == |b2| && |b1| + |body| == |b2| + |other|;
  }

  lemma TrimMeans(raw: string, body: string)
    ensures IsTrim(raw, body) <==> body == Strip(raw)
  {
    hide IsTrim, Strip;
    StripIsTrim(raw);
    if IsTrim(raw, body) {
      TrimIsUnique(raw, body, Strip(raw));
    }
  }

  // ---------------------------------------------------------------- keys and values

  /** A letter of the Latin alphabet, or the underscore, by code point. */
  ghost predicate IsLetter(c: char) {
    65 <= c as int <= 90 || 97 <= c as int <= 122 || c as int == 95
  }

  ghost predicate IsFigure(c: char) {
    48 <= c as int <= 57
  }

  /** Letters, figures and underscores, not beginning with a figure. */
  ghost predicate IsName(key: string) {
    key != "" && IsLetter(key[0]) && forall c :: c in key ==> IsLetter(c) || IsFigure(c)
  }

  lemma LetterMeans(c: char)
    ensures StartsKey(c) <==> IsLetter(c)
    ensures ContinuesKey(c) <==> IsLetter(c) || IsFigure(c)
  {
  }

  lemma NameMeans(key: string)
    ensures IsKey(key) <==> IsName(key)
  {
    hide StartsKey, ContinuesKey, IsLetter, IsFigure;
    forall c
      ensures StartsKey(c) <==> IsLetter(c)
      ensures ContinuesKey(c) <==> IsLetter(c) || IsFigure(c)
    {
      LetterMeans(c);
    }
    if IsKey(key) {
      forall c | c in key
        ensures ContinuesKey(c)
      {
        var i :| 0 <= i < |key| && key[i] == c;
      }
    }
    if IsName(key) {
      forall i | 0 <= i < |key|
        ensures ContinuesKey(key[i])
      {
        assert key[i] in key;
      }
    }
  }

  /** The text between two equal quotes. */
  ghost predicate IsQuoted(s: string, inner: string) {
    s == "'" + inner + "'" || s == "\"" + inner + "\""
  }

  /** The value: trimmed, then without the pair of quotes around it, if there is one. */
  ghost predicate IsValue(raw: string, value: string) {
    exists body ::
      IsTrim(raw, body) && (IsQuoted(body, value) || (value == body && !exists inner :: IsQuoted(body, inner)))
  }

  lemma QuotedMeans(body: string, inner: string)
    ensures IsQuoted(body, inner)
       <==> && |body| >= 2 && body[0] == body[|body| - 1] && (body[0] == '\'' || body[0] == '"')
            && inner == body[1..|body| - 1]
  {
    if |body| >= 2 && body[0] == body[|body| - 1] && inner == body[1..|body| - 1] {
      assert body == [body[0]] + inner + [body[|body| - 1]];
    }
  }

  lemma QuotesMean(body: string, value: string)
    ensures IsQuoted(body, value) || (value == body && !exists inner :: IsQuoted(body, inner))
       <==> value == if |body| >= 2 && body[0] == body[|body| - 1] && (body[0] == '\'' || body[0] == '"')
                     then body[1..|body| - 1] else body
  {
    forall inner
      ensures IsQuoted(body, inner)
         <==> && |body| >= 2 && body[0] == body[|body| - 1] && (body[0] == '\'' || body[0] == '"')
              && inner == body[1..|body| - 1]
    {
      QuotedMeans(body, inner);
    }
    hide IsQuoted;
    if |body| >= 2 && body[0] == body[|body| - 1] && (body[0] == '\'' || body[0] == '"') {
      assert IsQuoted(body, body[1..|body| - 1]);
    }
  }

  lemma ValueMeans(raw: string, value: string)
    ensures IsValue(raw, value) <==> value == ParseValue(raw)
  {
    hide IsTrim, IsQuoted, Strip;
    var body := Strip(raw);
    TrimMeans(raw, body);
    forall other
      ensures IsTrim(raw, other) <==> other == body
    {
      TrimMeans(raw, other);
    }
    QuotesMean(body, value);
  }

  // ---------------------------------------------------------------- lines

  /** The parts around the first `=`. */
  ghost predicate Splits(body: string, left: string, right: string) {
    body == left + "=" + right && '=' !in left
  }

  lemma SplitIsFirst(body: string, left: string, right: string)
    requires Splits(body, left, right)
    ensures Separator(body) == |left| < |body| && left == body[..|left|] && right == body[|left| + 1..]
  {
    hide Separator;
    assert body[|left|] == '=';
    assert forall i :: 0 <= i < |left| ==> body[i] == left[i] && left[i] in left;
  }

  lemma SplitsAt(body: string, n: nat)
    requires n < |body| && body[n] == '=' && forall i :: 0 <= i < n ==> body[i] != '='
    ensures Splits(body, body[..n], body[n + 1..])
  {
    var left, right := body[..n], body[n + 1..];
    assert left + "=" + right == body;
    forall i | 0 <= i < |left|
      ensures left[i] != '='
    {
      assert left[i] == body[i];
    }
  }

  lemma SplitMeans(body: string, left: string, right: string)
    ensures Splits(body, left, right)
       <==> Separator(body) < |body| && left == body[..Separator(body)] && right == body[Separator(body) + 1..]
  {
    hide Splits, Separator;
    if Splits(body, left, right) {
      SplitIsFirst(body, left, right);
    }
    if Separator(body) < |body| {
      SplitsAt(body, Separator(body));
    }
  }

  /** The line is blank or a comment, or what is wrong with it, or what it assigns. */
  ghost predicate IsLine(raw: string, line: Line) {
    exists body :: IsTrim(raw, body) &&
      match line
      case Ignored => body == "" || body[0] == '#'
      case Bad(MissingSeparator) => body != "" && body[0] != '#' && '=' !in body
      case Bad(InvalidKey) =>
        body != "" && body[0] != '#'
        && exists left, right, key :: Splits(body, left, right) && IsTrim(left, key) && !IsName(key)
      case Assigns(key, value) =>
        body != "" && body[0] != '#'
        && exists left, right :: Splits(body, left, right) && IsTrim(left, key) && IsName(key) && IsValue(right, value)
  }

  /** Every line means exactly what it is read as. */
  lemma LineMeans(raw: string, line: Line)
    ensures IsLine(raw, line) <==> line == ParseLine(raw)
  {
    hide IsTrim, Strip, IsName, IsKey, IsValue, ParseValue, Splits, Separator;
    var body := Strip(raw);
    forall other
      ensures IsTrim(raw, other) <==> other == body
    {
      TrimMeans(raw, other);
    }
    var n := Separator(body);
    forall left, right
      ensures Splits(body, left, right) <==> n < |body| && left == body[..n] && right == body[n + 1..]
    {
      SplitMeans(body, left, right);
    }
    NoSeparator(body);
    if n < |body| {
      var left, right := body[..n], body[n + 1..];
      forall key
        ensures IsTrim(left, key) <==> key == Strip(left)
      {
        TrimMeans(left, key);
      }
      NameMeans(Strip(left));
      forall value
        ensures IsValue(right, value) <==> value == ParseValue(right)
      {
        ValueMeans(right, value);
      }
      assert Splits(body, left, right);
    }
  }

  lemma {:induction false} NoSeparator(s: string)
    ensures Separator(s) == |s| <==> '=' !in s
  {
    if s != "" && s[0] != '=' {
      NoSeparator(s[1..]);
      assert s == [s[0]] + s[1..];
    }
  }
}
