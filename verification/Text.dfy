/** Python's whitespace, strip, split and join. */
module Text {
  import opened Collections

  /** `str.isspace` for one character. */
  predicate IsSpace(c: char) {
    var n := c as int;
    0x09 <= n <= 0x0d || 0x1c <= n <= 0x20 || n == 0x85 || n == 0xa0 || n == 0x1680 || 0x2000 <= n <= 0x200a
    || n == 0x2028 || n == 0x2029 || n == 0x202f || n == 0x205f || n == 0x3000
  }

  function StripLeft(s: string): string {
    if s != "" && IsSpace(s[0]) then StripLeft(s[1..]) else s
  }

  function StripRight(s: string): string {
    if s != "" && IsSpace(s[|s| - 1]) then StripRight(s[..|s| - 1]) else s
  }

  function Strip(s: string): string {
    StripRight(StripLeft(s))
  }

  /** How many characters the word at the front has. */
  function WordLength(s: string): (n: nat)
    ensures n <= |s|
    ensures forall i :: 0 <= i < n ==> !IsSpace(s[i])
    ensures n < |s| ==> IsSpace(s[n])
  {
    if s == "" || IsSpace(s[0]) then 0 else 1 + WordLength(s[1..])
  }

  /** `s.split()`: the maximal runs of non-whitespace. */
  function Split(s: string): seq<string>
    decreases |s|
  {
    if s == "" then []
    else if IsSpace(s[0]) then Split(s[1..])
    else [s[..WordLength(s)]] + Split(s[WordLength(s)..])
  }

  /** `separator.join(parts)`. */
  function Join(separator: string, parts: seq<string>): string {
    if parts == [] then ""
    else if |parts| == 1 then parts[0]
    else Join(separator, parts[..|parts| - 1]) + separator + parts[|parts| - 1]
  }

  predicate IsWord(s: string) {
    s != "" && forall i :: 0 <= i < |s| ==> !IsSpace(s[i])
  }

  predicate IsBlank(s: string) {
    forall i :: 0 <= i < |s| ==> IsSpace(s[i])
  }

  ghost predicate AreWords(tokens: seq<string>) {
    forall i :: 0 <= i < |tokens| ==> IsWord(tokens[i])
  }

  /** Splitting yields words only. */
  lemma {:induction false} SplitYieldsWords(s: string)
    ensures AreWords(Split(s))
    decreases |s|
  {
    if s != "" {
      if IsSpace(s[0]) {
        SplitYieldsWords(s[1..]);
      } else {
        SplitYieldsWords(s[WordLength(s)..]);
      }
    }
  }

  lemma {:induction false} SkipBlank(blank: string, s: string)
    requires IsBlank(blank)
    ensures Split(blank + s) == Split(s)
  {
    if blank == "" {
      assert blank + s == s;
    } else {
      SkipBlank(blank[1..], s);
      assert (blank + s)[1..] == blank[1..] + s;
    }
  }

  lemma WordLengthIs(s: string, n: nat)
    requires n <= |s| && (forall i :: 0 <= i < n ==> !IsSpace(s[i])) && (n < |s| ==> IsSpace(s[n]))
    ensures WordLength(s) == n
  {
  }

  lemma WordAcross(a: string, blank: string, b: string)
    requires IsBlank(blank) && blank != ""
    ensures WordLength(a + blank + b) == WordLength(a)
  {
    var whole, n := a + blank + b, WordLength(a);
    assert n < |a| ==> whole[n] == a[n];
    assert n == |a| ==> whole[n] == blank[0];
    WordLengthIs(whole, n);
  }

  lemma SplitStep(s: string)
    requires s != ""
    ensures IsSpace(s[0]) ==> Split(s) == Split(s[1..])
    ensures !IsSpace(s[0]) ==> WordLength(s) > 0 && Split(s) == [s[..WordLength(s)]] + Split(s[WordLength(s)..])
  {
  }

  /** The inductive step: the first word, or the first space, of the left side comes off. */
  lemma SplitAcrossStep(a: string, n: nat, blank: string, b: string)
    requires a != "" && n == if IsSpace(a[0]) then 1 else WordLength(a)
    requires n <= |a| && WordLength(a + blank + b) == WordLength(a)
    requires Split(a[n..] + blank + b) == Split(a[n..]) + Split(b)
    ensures Split(a + blank + b) == Split(a) + Split(b)
  {
    hide Split, WordLength, IsSpace;
    var whole := a + blank + b;
    SplitStep(a);
    SplitStep(whole);
    assert whole[0] == a[0];
    assert whole[n..] == a[n..] + blank + b;
    if !IsSpace(a[0]) {
      assert whole[..n] == a[..n];
    }
  }

  /** A nonempty blank separator keeps the words of both sides apart. */
  lemma {:induction false} SplitAcross(a: string, blank: string, b: string)
    requires IsBlank(blank) && blank != ""
    ensures Split(a + blank + b) == Split(a) + Split(b)
    decreases |a|
  {
    if a == "" {
      SkipBlank(blank, b);
      assert a + blank + b == blank + b;
    } else {
      hide Split, IsBlank, IsSpace;
      WordAcross(a, blank, b);
      SplitStep(a);
      var n := if IsSpace(a[0]) then 1 else WordLength(a);
      SplitAcross(a[n..], blank, b);
      SplitAcrossStep(a, n, blank, b);
    }
  }

  lemma SplitWord(word: string)
    requires IsWord(word)
    ensures Split(word) == [word]
  {
    WordLengthIs(word, |word|);
    assert word[..|word|] == word;
  }

  /** Joining words by a space and splitting again restores them. */
  lemma {:induction false} SplitOfJoin(tokens: seq<string>)
    requires AreWords(tokens)
    ensures Split(Join(" ", tokens)) == tokens
  {
    if |tokens| == 1 {
      SplitWord(tokens[0]);
    } else if tokens != [] {
      var n := |tokens| - 1;
      SplitOfJoin(tokens[..n]);
      SplitAcross(Join(" ", tokens[..n]), " ", tokens[n]);
      SplitWord(tokens[n]);
    }
  }

  function Words(texts: seq<string>): seq<string> {
    if texts == [] then [] else Words(texts[..|texts| - 1]) + Split(texts[|texts| - 1])
  }

  /** The words of texts joined by a blank separator are the words of the texts. */
  lemma {:induction false} SplitOfBlankJoin(separator: string, texts: seq<string>)
    requires IsBlank(separator) && separator != ""
    ensures Split(Join(separator, texts)) == Words(texts)
  {
    if |texts| == 1 {
      assert texts[..0] == [];
    } else if texts != [] {
      var n := |texts| - 1;
      SplitOfBlankJoin(separator, texts[..n]);
      SplitAcross(Join(separator, texts[..n]), separator, texts[n]);
    }
  }
}
