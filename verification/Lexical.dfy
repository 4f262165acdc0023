/** The in-memory BM25 index: document frequencies, inverse document frequencies and scores. */
module Lexical {
  import opened Collections
  import opened Reals

  // ---------------------------------------------------------------- terms

  /** One word term and a bigram for every pair of neighbouring characters. */
  function TokenTerms(token: string): seq<string> {
    ["w:" + token]
    + seq(if |token| > 1 then |token| - 1 else 0, i requires 0 <= i < |token| - 1 => "c:" + token[i..i + 2])
  }

  /** The word, then every pair of neighbouring characters; a token of at most one character has no pair. */
  lemma TermsOfToken(token: string)
    ensures |TokenTerms(token)| == Max(1, |token|)
    ensures TokenTerms(token)[0] == ['w', ':'] + token
    ensures forall i :: 0 <= i < |token| - 1 ==> TokenTerms(token)[1 + i] == ['c', ':', token[i], token[i + 1]]
  {
    forall i | 0 <= i < |token| - 1
      ensures TokenTerms(token)[1 + i] == ['c', ':', token[i], token[i + 1]]
    {
      assert token[i..i + 2] == [token[i], token[i + 1]];
    }
  }

  function Terms(tokens: seq<string>): seq<string> {
    FlatMap(TokenTerms, tokens)
  }

  method MixedTerms(tokens: seq<string>) returns (terms: seq<string>)
    ensures terms == Terms(tokens)
  {
    hide FlatMap;
    terms := [];
    FlatMapNone(TokenTerms);
    for i := 0 to |tokens|
      invariant terms == FlatMap(TokenTerms, tokens[..i])
    {
      FlatMapStep(TokenTerms, tokens, i);
      var token := tokens[i];
      ghost var before := terms;
      terms := terms + ["w:" + token];
      if |token| > 1 {
        for j := 0 to |token| - 1
          invariant terms == before + TokenTerms(token)[..1 + j]
        {
          assert TokenTerms(token)[1 + j] == "c:" + token[j..j + 2];
          terms := terms + ["c:" + token[j..j + 2]];
        }
        assert TokenTerms(token)[..|token|] == TokenTerms(token);
      }
    }
    assert tokens[..|tokens|] == tokens;
  }

  function Characters(tokens: seq<string>): nat {
    if tokens == [] then 0 else Characters(tokens[..|tokens| - 1]) + |tokens[|tokens| - 1]|
  }

  predicate IsWordTerm(term: string) {
    |term| >= 2 && term[..2] == "w:"
  }

  /** The words among the terms, without their prefix. */
  function WordsAmong(terms: seq<string>): seq<string> {
    if terms == [] then []
    else
      var last := terms[|terms| - 1];
      WordsAmong(terms[..|terms| - 1]) + if IsWordTerm(last) then [last[2..]] else []
  }

  lemma {:induction false} WordsAmongConcat(a: seq<string>, b: seq<string>)
    ensures WordsAmong(a + b) == WordsAmong(a) + WordsAmong(b)
  {
    if b == [] {
      assert a + b == a;
    } else {
      WordsAmongConcat(a, b[..|b| - 1]);
      assert (a + b)[..|a + b| - 1] == a + b[..|b| - 1];
    }
  }

  lemma WordAndBigramTermsDiffer(word: string, bigram: string)
    ensures IsWordTerm("w:" + word) && ("w:" + word)[2..] == word && !IsWordTerm("c:" + bigram)
  {
    assert ("w:" + word)[..2] == "w:" && ("c:" + bigram)[0] == 'c' && "w:"[0] == 'w';
  }

  lemma {:induction false} NoWordsAmong(terms: seq<string>)
    requires forall i :: 0 <= i < |terms| ==> !IsWordTerm(terms[i])
    ensures WordsAmong(terms) == []
  {
    if terms != [] {
      NoWordsAmong(terms[..|terms| - 1]);
    }
  }

  lemma WordOfToken(token: string)
    ensures WordsAmong(TokenTerms(token)) == [token]
  {
    var terms := TokenTerms(token);
    WordAndBigramTermsDiffer(token, "");
    assert terms == [terms[0]] + terms[1..];
    assert [terms[0]][..0] == [];
    forall i | 0 <= i < |terms[1..]|
      ensures !IsWordTerm(terms[1..][i])
    {
      WordAndBigramTermsDiffer("", token[i..i + 2]);
    }
    NoWordsAmong(terms[1..]);
    WordsAmongConcat([terms[0]], terms[1..]);
  }

  /** The words among a text's terms are its tokens, and there are as many terms as the tokens have characters. */
  lemma {:induction false} TermsCountCharacters(tokens: seq<string>)
    ensures WordsAmong(Terms(tokens)) == tokens
    ensures (forall i :: 0 <= i < |tokens| ==> tokens[i] != "") ==> |Terms(tokens)| == Characters(tokens)
  {
    hide WordsAmong;
    if tokens != [] {
      var n := |tokens| - 1;
      TermsCountCharacters(tokens[..n]);
      WordOfToken(tokens[n]);
      WordsAmongConcat(Terms(tokens[..n]), TokenTerms(tokens[n]));
      assert tokens == tokens[..n] + [tokens[n]];
    } else {
      assert WordsAmong([]) == [] by {
        NoWordsAmong([]);
      }
    }
  }

  /** Different token lists have different terms. */
  lemma TermsDetermineTokens(a: seq<string>, b: seq<string>)
    requires Terms(a) == Terms(b)
    ensures a == b
  {
    hide Terms, WordsAmong;
    TermsCountCharacters(a);
    TermsCountCharacters(b);
  }

  // ---------------------------------------------------------------- corpus statistics

  function DocumentFrequency(documents: seq<seq<string>>, term: string): nat {
    Count((document: seq<string>) => term in document, documents)
  }

  function Vocabulary(documents: seq<seq<string>>): set<string> {
    set i, j | 0 <= i < |documents| && 0 <= j < |documents[i]| :: documents[i][j]
  }

  /** A term of the vocabulary occurs in at least one document and at most in all. */
  lemma DocumentFrequencyInRange(documents: seq<seq<string>>, term: string)
    ensures DocumentFrequency(documents, term) <= |documents|
    ensures DocumentFrequency(documents, term) >= 1 <==> term in Vocabulary(documents)
  {
    var holds := (document: seq<string>) => term in document;
    CountAll(holds, documents);
    CountZeroIffNone(holds, documents);
    if term in Vocabulary(documents) {
      var i, j :| 0 <= i < |documents| && 0 <= j < |documents[i]| && documents[i][j] == term;
      assert holds(documents[i]);
    }
    if DocumentFrequency(documents, term) >= 1 {
      var i :| 0 <= i < |documents| && holds(documents[i]);
      var j :| 0 <= j < |documents[i]| && documents[i][j] == term;
    }
  }

  function TotalLength(documents: seq<seq<string>>): nat {
    if documents == [] then 0 else TotalLength(documents[..|documents| - 1]) + |documents[|documents| - 1]|
  }

  // ---------------------------------------------------------------- the formula

  datatype Parameters = Parameters(k1: real, b: real) {
    predicate Valid() {
      k1 > 0.0 && 0.0 <= b <= 1.0
    }
  }

  /** A strictly increasing function with value 0 at 1, standing for the natural logarithm. */
  ghost predicate IsLog(ln: real -> real) {
    ln(1.0) == 0.0 && forall x, y :: 0.0 < x < y ==> ln(x) < ln(y)
  }

  function InverseFrequency(ln: real -> real, count: nat, frequency: nat): real {
    ln(1.0 + Over(count as real - frequency as real + 0.5, frequency as real + 0.5))
  }

  lemma InverseFrequencyIsPositive(ln: real -> real, count: nat, frequency: nat)
    requires IsLog(ln) && frequency <= count
    ensures InverseFrequency(ln, count, frequency) > 0.0
  {
    hide Over;
    OverSign(count as real - frequency as real + 0.5, frequency as real + 0.5);
  }

  /** `k1 * (1 - b + b * length_ratio)`. */
  function Normalization(p: Parameters, ratio: real): real {
    Times(p.k1, 1.0 - p.b + Times(p.b, ratio))
  }

  lemma NormalizationIsNotNegative(p: Parameters, ratio: real)
    requires p.Valid() && ratio >= 0.0
    ensures Normalization(p, ratio) >= 0.0
  {
    hide Times;
    TimesSign(p.b, ratio);
    TimesSign(p.k1, 1.0 - p.b + Times(p.b, ratio));
  }

  /** What one query occurrence of a term adds to a document in which it occurs `frequency` times. */
  function Unit(p: Parameters, inverse: real, frequency: nat, normalization: real): real
    requires frequency > 0 ==> frequency as real + normalization != 0.0
  {
    if frequency == 0 then 0.0
    else Over(Times(inverse, Times(frequency as real, p.k1 + 1.0)), frequency as real + normalization)
  }

  lemma UnitBounds(p: Parameters, inverse: real, frequency: nat, normalization: real)
    requires p.Valid() && inverse > 0.0 && normalization >= 0.0
    ensures frequency > 0 ==> Unit(p, inverse, frequency, normalization) > 0.0
    ensures Unit(p, inverse, frequency, normalization) <= Times(inverse, p.k1 + 1.0)
  {
    hide Times, Over;
    var weight, f, n := Times(inverse, p.k1 + 1.0), frequency as real, frequency as real + normalization;
    TimesSign(inverse, p.k1 + 1.0);
    if frequency > 0 {
      Reassociate(inverse, f, p.k1 + 1.0);
      TimesSign(weight, f);
      OverSign(Times(weight, f), n);
      TimesKeepsOrder(f, n, weight);
      TimesBasics(weight, f);
      TimesBasics(weight, n);
      OverKeepsOrder(Times(weight, f), Times(weight, n), n);
      QuotientIs(weight, Times(weight, n), n);
    }
  }

  lemma Reassociate(a: real, b: real, c: real)
    ensures Times(a, Times(b, c)) == Times(Times(a, c), b)
  {
  }

  /** At a fixed length, more occurrences never lower the contribution. */
  lemma UnitIsMonotone(p: Parameters, inverse: real, fewer: nat, more: nat, normalization: real)
    requires p.Valid() && inverse > 0.0 && normalization >= 0.0 && fewer <= more
    ensures Unit(p, inverse, fewer, normalization) <= Unit(p, inverse, more, normalization)
  {
    hide Times, Over;
    var weight := Times(inverse, p.k1 + 1.0);
    TimesSign(inverse, p.k1 + 1.0);
    if fewer == 0 {
      UnitBounds(p, inverse, more, normalization);
    } else {
      Reassociate(inverse, fewer as real, p.k1 + 1.0);
      Reassociate(inverse, more as real, p.k1 + 1.0);
      SaturationIsMonotone(weight, fewer as real, more as real, normalization);
    }
  }

  lemma SaturationIsMonotone(weight: real, f: real, g: real, n: real)
    requires weight >= 0.0 && n >= 0.0 && 0.0 < f <= g
    ensures Over(Times(weight, f), f + n) <= Over(Times(weight, g), g + n)
  {
    var x, y := Over(Times(weight, f), f + n), Over(Times(weight, g), g + n);
    OverThenTimes(Times(weight, f), f + n);
    OverThenTimes(Times(weight, g), g + n);
    CrossProducts(weight, f, g, n, x, y);
  }

  lemma CrossProducts(weight: real, f: real, g: real, n: real, x: real, y: real)
    requires weight >= 0.0 && n >= 0.0 && 0.0 < f <= g
    requires Times(x, f + n) == Times(weight, f) && Times(y, g + n) == Times(weight, g)
    ensures x <= y
  {
    hide Times;
    // weight - x and weight - y are what normalization takes away: (weight - x) * (f + n) == weight * n
    TimesOfDifference(weight, x, f + n);
    TimesOfDifference(weight, y, g + n);
    TimesBasics(weight, f + n);
    TimesBasics(weight, g + n);
    TimesBasics(weight, f);
    TimesBasics(weight, g);
    TimesBasics(weight, n);
    TimesOfSum(f, n, weight);
    TimesOfSum(g, n, weight);
    assert Times(weight - x, f + n) == Times(n, weight) == Times(weight - y, g + n);
    TimesSign(n, weight);
    TimesBasics(0.0, g + n);
    TimesReflectsOrder(0.0, weight - y, g + n);
    TimesBasics(weight - y, g + n);
    TimesBasics(weight - y, f + n);
    TimesKeepsOrder(f + n, g + n, weight - y);
    TimesReflectsOrder(weight - y, weight - x, f + n);
  }

  // ---------------------------------------------------------------- sums over query terms

  /** The distinct terms in order of first appearance, a Counter's key order. */
  function Distinct(terms: seq<string>): (r: seq<string>)
    ensures NoDuplicates(r)
    ensures forall t :: t in r <==> t in terms
  {
    if terms == [] then []
    else
      var rest, last := terms[..|terms| - 1], terms[|terms| - 1];
      assert terms == rest + [last];
      if last in rest then Distinct(rest) else Distinct(rest) + [last]
  }

  /** One addition per distinct term, weighted by its count. */
  function GroupedSum(unit: string -> real, terms: seq<string>, counts: multiset<string>): real {
    if terms == [] then 0.0
    else
      var last := terms[|terms| - 1];
      GroupedSum(unit, terms[..|terms| - 1], counts) + Times(unit(last), counts[last] as real)
  }

  /** One addition per occurrence. */
  function FlatSum(unit: string -> real, terms: seq<string>): real {
    if terms == [] then 0.0 else FlatSum(unit, terms[..|terms| - 1]) + unit(terms[|terms| - 1])
  }

  /** One more occurrence of x adds unit(x) when x is among the distinct terms and nothing otherwise. */
  lemma {:induction false} GroupedSumBump(unit: string -> real, terms: seq<string>, counts: multiset<string>, x: string)
    requires NoDuplicates(terms)
    ensures GroupedSum(unit, terms, counts + multiset{x})
         == GroupedSum(unit, terms, counts) + if x in terms then unit(x) else 0.0
  {
    hide Times;
    if terms != [] {
      var rest, last := terms[..|terms| - 1], terms[|terms| - 1];
      assert terms == rest + [last];
      GroupedSumBump(unit, rest, counts, x);
      if last == x {
        assert x !in rest;
        TimesBasics(unit(x), counts[x] as real);
        TimesBasics(unit(x), counts[x] as real + 1.0);
        TimesBasics(1.0, unit(x));
        TimesOfSum(counts[x] as real, 1.0, unit(x));
      }
    }
  }

  /** Adding once per distinct term with its count is adding once per occurrence. */
  lemma {:induction false} GroupedIsFlat(unit: string -> real, terms: seq<string>)
    ensures GroupedSum(unit, Distinct(terms), multiset(terms)) == FlatSum(unit, terms)
  {
    hide Times;
    if terms != [] {
      var rest, last := terms[..|terms| - 1], terms[|terms| - 1];
      GroupedIsFlat(unit, rest);
      MultisetLast(terms);
      GroupedSumBump(unit, Distinct(rest), multiset(rest), last);
      if last !in rest {
        assert Distinct(terms) == Distinct(rest) + [last];
        assert multiset(terms)[last] == 1 by {
          assert last !in multiset(rest);
        }
        TimesBasics(unit(last), 1.0);
        TimesBasics(1.0, unit(last));
      }
    }
  }

  lemma {:induction false} FlatSumConcat(unit: string -> real, a: seq<string>, b: seq<string>)
    ensures FlatSum(unit, a + b) == FlatSum(unit, a) + FlatSum(unit, b)
  {
    if b == [] {
      assert a + b == a;
    } else {
      FlatSumConcat(unit, a, b[..|b| - 1]);
      assert (a + b)[..|a + b| - 1] == a + b[..|b| - 1];
    }
  }

  lemma {:induction false} FlatSumSign(unit: string -> real, terms: seq<string>)
    requires forall t :: unit(t) >= 0.0
    ensures FlatSum(unit, terms) >= 0.0
    ensures FlatSum(unit, terms) > 0.0 <==> exists i :: 0 <= i < |terms| && unit(terms[i]) > 0.0
  {
    if terms != [] {
      var n := |terms| - 1;
      FlatSumSign(unit, terms[..n]);
      if exists i :: 0 <= i < n && unit(terms[..n][i]) > 0.0 {
        var i :| 0 <= i < n && unit(terms[..n][i]) > 0.0;
        assert unit(terms[i]) > 0.0;
      } else {
        assert forall i :: 0 <= i < n ==> terms[i] == terms[..n][i];
      }
    }
  }

  lemma {:induction false} FlatSumAtMost(unit: string -> real, bound: string -> real, terms: seq<string>)
    requires forall t :: unit(t) <= bound(t)
    ensures FlatSum(unit, terms) <= FlatSum(bound, terms)
  {
    if terms != [] {
      FlatSumAtMost(unit, bound, terms[..|terms| - 1]);
    }
  }

  // ---------------------------------------------------------------- the index

  datatype LexicalError = NoDocuments | K1NotPositive | BOutOfRange

  /** The statistics an index over term lists holds. */
  ghost predicate Describes(documents: seq<seq<string>>, ln: real -> real, frequencies: seq<multiset<string>>,
                            lengths: seq<nat>, average: real, inverse: map<string, real>)
  {
    && documents != []
    && |frequencies| == |lengths| == |documents|
    && (forall i :: 0 <= i < |documents| ==> frequencies[i] == multiset(documents[i]) && lengths[i] == |documents[i]|)
    && average == Over(TotalLength(documents) as real, |documents| as real)
    && (forall t :: t in inverse <==> t in Vocabulary(documents))
    && forall t :: t in inverse ==>
         inverse[t] == InverseFrequency(ln, |documents|, DocumentFrequency(documents, t))
  }

  function LengthRatio(length: nat, average: real): real {
    if average != 0.0 then Over(length as real, average) else 0.0
  }

  lemma LengthRatioIsNotNegative(length: nat, average: real)
    requires average >= 0.0
    ensures LengthRatio(length, average) >= 0.0
  {
    hide Over;
    if average != 0.0 {
      OverSign(length as real, average);
    }
  }

  /** Document frequencies, term by term. */
  ghost predicate CountsTerms(counts: map<string, nat>, documents: seq<seq<string>>) {
    && (forall t :: t in counts <==> t in Vocabulary(documents))
    && forall t :: t in counts ==> counts[t] == DocumentFrequency(documents, t)
  }

  lemma VocabularyStep(documents: seq<seq<string>>, i: nat, term: string)
    requires i < |documents|
    ensures term in Vocabulary(documents[..i + 1]) <==> term in Vocabulary(documents[..i]) || term in documents[i]
    ensures DocumentFrequency(documents[..i + 1], term)
         == DocumentFrequency(documents[..i], term) + if term in documents[i] then 1 else 0
    ensures term !in Vocabulary(documents[..i]) ==> DocumentFrequency(documents[..i], term) == 0
  {
    CountStep((document: seq<string>) => term in document, documents, i);
    DocumentFrequencyInRange(documents[..i], term);
    DocumentFrequencyInRange(documents[..i + 1], term);
  }

  /** `document_frequency.update(frequencies.keys())`: one more for every distinct term of the document. */
  method CountDocument(before: map<string, nat>, document: seq<string>) returns (counts: map<string, nat>)
    ensures forall t :: t in counts <==> t in before || t in document
    ensures forall t :: t in counts ==>
              counts[t] == (if t in before then before[t] else 0) + if t in document then 1 else 0
  {
    counts := before;
    var terms := Distinct(document);
    for j := 0 to |terms|
      invariant forall t :: t in counts <==> t in before || t in terms[..j]
      invariant forall t :: t in counts ==>
                  counts[t] == (if t in before then before[t] else 0) + if t in terms[..j] then 1 else 0
    {
      var term := terms[j];
      assert terms[..j + 1] == terms[..j] + [term];
      assert term !in terms[..j];
      counts := counts[term := (if term in counts then counts[term] else 0) + 1];
    }
    assert terms[..|terms|] == terms;
  }

  /** One query occurrence's contribution, term by term, for a document with these statistics. */
  function UnitOf(p: Parameters, frequencies: multiset<string>, length: nat, average: real, inverse: map<string, real>)
    : string -> real
    requires p.Valid() && average >= 0.0
  {
    var normalization := Normalization(p, LengthRatio(length, average));
    LengthRatioIsNotNegative(length, average);
    NormalizationIsNotNegative(p, LengthRatio(length, average));
    (t: string) => Unit(p, if t in inverse then inverse[t] else 0.0, frequencies[t], normalization)
  }

  lemma GroupedSumStep(unit: string -> real, terms: seq<string>, counts: multiset<string>, j: nat)
    requires j < |terms|
    ensures GroupedSum(unit, terms[..0], counts) == 0.0
    ensures GroupedSum(unit, terms[..j + 1], counts)
         == GroupedSum(unit, terms[..j], counts) + Times(unit(terms[j]), counts[terms[j]] as real)
  {
    assert terms[..j + 1][..j] == terms[..j];
  }

  lemma AverageIsNotNegative(total: nat, count: nat)
    requires count > 0
    ensures Over(total as real, count as real) >= 0.0
  {
    OverSign(total as real, count as real);
  }

  function Average(documents: seq<seq<string>>): (r: real)
    requires documents != []
    ensures r >= 0.0
  {
    AverageIsNotNegative(TotalLength(documents), |documents|);
    Over(TotalLength(documents) as real, |documents| as real)
  }

  function InverseOf(documents: seq<seq<string>>, ln: real -> real, term: string): real {
    if term in Vocabulary(documents) then InverseFrequency(ln, |documents|, DocumentFrequency(documents, term)) else 0.0
  }

  function NormalizationOf(p: Parameters, documents: seq<seq<string>>, i: nat): (r: real)
    requires p.Valid() && i < |documents|
    ensures r >= 0.0
  {
    LengthRatioIsNotNegative(|documents[i]|, Average(documents));
    NormalizationIsNotNegative(p, LengthRatio(|documents[i]|, Average(documents)));
    Normalization(p, LengthRatio(|documents[i]|, Average(documents)))
  }

  /** What every occurrence of a term in a query adds to document i, from the documents themselves. */
  function OccurrenceWeight(p: Parameters, documents: seq<seq<string>>, ln: real -> real, i: nat): string -> real
    requires p.Valid() && i < |documents|
  {
    var normalization := NormalizationOf(p, documents, i);
    (t: string) => Unit(p, InverseOf(documents, ln, t), multiset(documents[i])[t], normalization)
  }

  /** The score of document i for a query, both as term lists. */
  function ScoreOf(p: Parameters, documents: seq<seq<string>>, ln: real -> real, i: nat, query: seq<string>): real
    requires p.Valid() && i < |documents|
  {
    FlatSum(OccurrenceWeight(p, documents, ln, i), query)
  }

  lemma {:induction false} FlatSumAgree(unit: string -> real, other: string -> real, terms: seq<string>)
    requires forall t :: unit(t) == other(t)
    ensures FlatSum(unit, terms) == FlatSum(other, terms)
  {
    if terms != [] {
      FlatSumAgree(unit, other, terms[..|terms| - 1]);
    }
  }

  /** The loops over stored statistics compute the score defined from the documents. */
  lemma StoredStatisticsScore(p: Parameters, documents: seq<seq<string>>, ln: real -> real,
                              frequencies: seq<multiset<string>>, lengths: seq<nat>, average: real,
                              inverse: map<string, real>, i: nat, query: seq<string>)
    requires p.Valid() && average >= 0.0 && i < |documents|
    requires Describes(documents, ln, frequencies, lengths, average, inverse)
    ensures GroupedSum(UnitOf(p, frequencies[i], lengths[i], average, inverse), Distinct(query), multiset(query))
         == ScoreOf(p, documents, ln, i, query)
  {
    var unit, weight := UnitOf(p, frequencies[i], lengths[i], average, inverse), OccurrenceWeight(p, documents, ln, i);
    hide Over, Times, Unit, InverseFrequency, DocumentFrequency, Vocabulary, GroupedSum, FlatSum, Normalization;
    assert average == Average(documents);
    forall t
      ensures unit(t) == weight(t)
    {
      assert (if t in inverse then inverse[t] else 0.0) == InverseOf(documents, ln, t);
    }
    GroupedIsFlat(unit, query);
    FlatSumAgree(unit, weight, query);
  }

  class BM25Index {
    const parameters: Parameters
    const frequencies: seq<multiset<string>>
    const lengths: seq<nat>
    const average: real
    const inverse: map<string, real>

    ghost predicate Valid(documents: seq<seq<string>>, ln: real -> real) {
      && parameters.Valid() && average >= 0.0
      && Describes(documents, ln, frequencies, lengths, average, inverse)
    }

    constructor (p: Parameters, documents: seq<seq<string>>, ln: real -> real)
      requires p.Valid() && documents != []
      ensures Valid(documents, ln) && parameters == p
    {
      var counters: seq<multiset<string>> := [];
      var sizes: seq<nat> := [];
      var total: nat := 0;
      var counts: map<string, nat> := map[];
      for i := 0 to |documents|
        invariant |counters| == |sizes| == i
        invariant forall k :: 0 <= k < i ==> counters[k] == multiset(documents[k]) && sizes[k] == |documents[k]|
        invariant total == TotalLength(documents[..i])
        invariant CountsTerms(counts, documents[..i])
      {
        assert documents[..i + 1][..i] == documents[..i];
        counters := counters + [multiset(documents[i])];
        sizes := sizes + [|documents[i]|];
        total := total + |documents[i]|;
        var next := CountDocument(counts, documents[i]);
        forall t
          ensures t in next <==> t in Vocabulary(documents[..i + 1])
          ensures t in next ==> next[t] == DocumentFrequency(documents[..i + 1], t)
        {
          VocabularyStep(documents, i, t);
          hide DocumentFrequency, Vocabulary;
        }
        counts := next;
      }
      assert documents[..|documents|] == documents;
      AverageIsNotNegative(total, |documents|);
      parameters := p;
      frequencies := counters;
      lengths := sizes;
      average := Over(total as real, |documents| as real);
      inverse := map term | term in counts :: InverseFrequency(ln, |documents|, counts[term]);
    }

    /** One score per document, in document order. */
    method Scores(query: seq<string>, ghost documents: seq<seq<string>>, ghost ln: real -> real)
      returns (scores: seq<real>)
      requires Valid(documents, ln)
      ensures |scores| == |documents|
      ensures forall i :: 0 <= i < |scores| ==> scores[i] == ScoreOf(parameters, documents, ln, i, query)
    {
      hide Distinct, GroupedSum, ScoreOf, UnitOf;
      scores := [];
      var terms, counts := Distinct(query), multiset(query);
      for i := 0 to |frequencies|
        invariant |scores| == i
        invariant forall k :: 0 <= k < i ==> scores[k] == ScoreOf(parameters, documents, ln, k, query)
      {
        var score := ScoreDocument(parameters, frequencies[i], lengths[i], average, inverse, terms, counts);
        StoredStatisticsScore(parameters, documents, ln, frequencies, lengths, average, inverse, i, query);
        scores := scores + [score];
      }
    }
  }

  /** The inner loop: a term the document lacks is skipped. */
  method ScoreDocument(p: Parameters, frequencies: multiset<string>, length: nat, average: real,
                       inverse: map<string, real>, terms: seq<string>, counts: multiset<string>)
    returns (score: real)
    requires p.Valid() && average >= 0.0
    ensures score == GroupedSum(UnitOf(p, frequencies, length, average, inverse), terms, counts)
  {
    hide Times, Over, GroupedSum;
    ghost var unit := UnitOf(p, frequencies, length, average, inverse);
    var ratio := LengthRatio(length, average);
    var normalization := Normalization(p, ratio);
    LengthRatioIsNotNegative(length, average);
    NormalizationIsNotNegative(p, ratio);
    score := 0.0;
    GroupedSumNone(unit, terms, counts);
    for j := 0 to |terms|
      invariant score == GroupedSum(unit, terms[..j], counts)
    {
      GroupedSumStep(unit, terms, counts, j);
      var term := terms[j];
      var frequency := frequencies[term];
      if frequency == 0 {
        TimesBasics(0.0, counts[term] as real);
        continue;
      }
      var weight := if term in inverse then inverse[term] else 0.0;
      score := score + Times(Over(Times(weight, Times(frequency as real, p.k1 + 1.0)),
                                  frequency as real + normalization),
                             counts[term] as real);
    }
    assert terms[..|terms|] == terms;
  }

  lemma GroupedSumNone(unit: string -> real, terms: seq<string>, counts: multiset<string>)
    ensures GroupedSum(unit, terms[..0], counts) == 0.0
  {
  }

  /** Building an index rejects an empty corpus and parameters out of range. */
  method BuildIndex(p: Parameters, documents: seq<seq<string>>, ln: real -> real)
    returns (index: Result<BM25Index, LexicalError>)
    ensures index.Success? <==> p.k1 > 0.0 && 0.0 <= p.b && p.b <= 1.0 && documents != []
    ensures index == Failure(K1NotPositive) <==> p.k1 <= 0.0
    ensures index == Failure(BOutOfRange) <==> p.k1 > 0.0 && (p.b < 0.0 || p.b > 1.0)
    ensures index.Success? ==> index.value.Valid(documents, ln) && index.value.parameters == p
  {
    if p.k1 <= 0.0 {
      return Failure(K1NotPositive);
    }
    if !(0.0 <= p.b <= 1.0) {
      return Failure(BOutOfRange);
    }
    if documents == [] {
      return Failure(NoDocuments);
    }
    var built := new BM25Index(p, documents, ln);
    index := Success(built);
  }

  // ---------------------------------------------------------------- what scores mean

  lemma WeightFacts(p: Parameters, documents: seq<seq<string>>, ln: real -> real, i: nat, t: string)
    requires p.Valid() && i < |documents| && IsLog(ln)
    ensures OccurrenceWeight(p, documents, ln, i)(t) >= 0.0
    ensures OccurrenceWeight(p, documents, ln, i)(t) > 0.0 <==> t in documents[i]
    ensures InverseOf(documents, ln, t) >= 0.0
    ensures OccurrenceWeight(p, documents, ln, i)(t) <= Times(InverseOf(documents, ln, t), p.k1 + 1.0)
  {
    var frequency, normalization := multiset(documents[i])[t], NormalizationOf(p, documents, i);
    assert frequency > 0 <==> t in documents[i];
    hide NormalizationOf, InverseFrequency, IsLog, Times, Over;
    DocumentFrequencyInRange(documents, t);
    InVocabulary(documents, i, t);
    TimesBasics(0.0, p.k1 + 1.0);
    hide Vocabulary, DocumentFrequency;
    if t in Vocabulary(documents) {
      InverseFrequencyIsPositive(ln, |documents|, DocumentFrequency(documents, t));
      UnitBounds(p, InverseOf(documents, ln, t), frequency, normalization);
    }
  }

  lemma InVocabulary(documents: seq<seq<string>>, i: nat, t: string)
    requires i < |documents|
    ensures t in documents[i] ==> t in Vocabulary(documents)
  {
    if t in documents[i] {
      var j :| 0 <= j < |documents[i]| && documents[i][j] == t;
    }
  }

  /** A document scores above zero exactly when it shares a term with the query, and never below. */
  lemma ScoreIsPositiveIffTermShared(p: Parameters, documents: seq<seq<string>>, ln: real -> real, i: nat,
                                     query: seq<string>)
    requires p.Valid() && i < |documents| && IsLog(ln)
    ensures ScoreOf(p, documents, ln, i, query) >= 0.0
    ensures ScoreOf(p, documents, ln, i, query) > 0.0 <==>
            exists j :: 0 <= j < |query| && query[j] in documents[i]
  {
    var weight := OccurrenceWeight(p, documents, ln, i);
    forall t
      ensures weight(t) >= 0.0 && (weight(t) > 0.0 <==> t in documents[i])
    {
      WeightFacts(p, documents, ln, i, t);
    }
    hide OccurrenceWeight, FlatSum, IsLog;
    FlatSumSign(weight, query);
  }

  /** The score is at most the query terms' inverse frequencies times k1 + 1, one summand per occurrence. */
  lemma ScoreIsBounded(p: Parameters, documents: seq<seq<string>>, ln: real -> real, i: nat, query: seq<string>)
    requires p.Valid() && i < |documents| && IsLog(ln)
    ensures ScoreOf(p, documents, ln, i, query)
         <= FlatSum((t: string) => Times(InverseOf(documents, ln, t), p.k1 + 1.0), query)
  {
    var weight := OccurrenceWeight(p, documents, ln, i);
    var bound := (t: string) => Times(InverseOf(documents, ln, t), p.k1 + 1.0);
    forall t
      ensures weight(t) <= bound(t)
    {
      WeightFacts(p, documents, ln, i, t);
    }
    hide OccurrenceWeight, FlatSum, IsLog;
    FlatSumAtMost(weight, bound, query);
  }

  /** Scoring a query made of two parts adds up the parts' scores. */
  lemma ScoreIsAdditive(p: Parameters, documents: seq<seq<string>>, ln: real -> real, i: nat,
                        query: seq<string>, more: seq<string>)
    requires p.Valid() && i < |documents|
    ensures ScoreOf(p, documents, ln, i, query + more)
         == ScoreOf(p, documents, ln, i, query) + ScoreOf(p, documents, ln, i, more)
  {
    FlatSumConcat(OccurrenceWeight(p, documents, ln, i), query, more);
  }

  lemma {:induction false} FlatSumOfPermutation(unit: string -> real, terms: seq<string>, shuffled: seq<string>)
    requires multiset(terms) == multiset(shuffled)
    ensures FlatSum(unit, terms) == FlatSum(unit, shuffled)
    decreases |terms|
  {
    if terms == [] {
      PermutationKeepsMembers(terms, shuffled);
    } else {
      var j := TakeOut(terms, shuffled);
      FlatSumOfPermutation(unit, terms[1..], shuffled[..j] + shuffled[j + 1..]);
      assert terms == [terms[0]] + terms[1..];
      FlatSumConcat(unit, [terms[0]], terms[1..]);
      FlatSumConcat(unit, shuffled[..j], shuffled[j + 1..]);
      FlatSumConcat(unit, [terms[0]], shuffled[j + 1..]);
      FlatSumConcat(unit, shuffled[..j], [terms[0]] + shuffled[j + 1..]);
      hide FlatSum;
    }
  }

  /** Only the multiset of query terms matters. */
  lemma ScoreIgnoresTermOrder(p: Parameters, documents: seq<seq<string>>, ln: real -> real, i: nat,
                              query: seq<string>, shuffled: seq<string>)
    requires p.Valid() && i < |documents| && multiset(query) == multiset(shuffled)
    ensures ScoreOf(p, documents, ln, i, query) == ScoreOf(p, documents, ln, i, shuffled)
  {
    FlatSumOfPermutation(OccurrenceWeight(p, documents, ln, i), query, shuffled);
  }
}
