/** How a document's length and a term's rarity enter its score. */
module LexicalLength {
  import opened Reals
  import opened Lexical

  /** Every term of the query is as frequent in one document as in the other. */
  ghost predicate SameFrequencies(documents: seq<seq<string>>, i: nat, j: nat, query: seq<string>)
    requires i < |documents| && j < |documents|
  {
    forall t :: t in query ==> multiset(documents[i])[t] == multiset(documents[j])[t]
  }

  ghost predicate SharesTerm(document: seq<string>, query: seq<string>) {
    exists t :: t in query && t in document
  }

  // ---------------------------------------------------------------- one term

  /** The greater the normalization, the smaller the contribution. */
  lemma UnitFalls(p: Parameters, inverse: real, frequency: nat, less: real, more: real)
    requires p.Valid() && inverse >= 0.0 && 0.0 <= less <= more
    ensures Unit(p, inverse, frequency, more) <= Unit(p, inverse, frequency, less)
    ensures frequency > 0 && inverse > 0.0 && less < more ==>
              Unit(p, inverse, frequency, more) < Unit(p, inverse, frequency, less)
  {
    hide Times, Over;
    if frequency > 0 {
      var f := frequency as real;
      var weight := Times(inverse, Times(f, p.k1 + 1.0));
      TimesSign(f, p.k1 + 1.0);
      TimesSign(inverse, Times(f, p.k1 + 1.0));
      QuotientFalls(weight, f + less, f + more);
    }
  }

  lemma QuotientFalls(a: real, s: real, t: real)
    requires a >= 0.0 && 0.0 < s <= t
    ensures Over(a, t) <= Over(a, s)
    ensures a > 0.0 && s < t ==> Over(a, t) < Over(a, s)
  {
    OverThenTimes(a, s);
    OverThenTimes(a, t);
    OverSign(a, t);
    var x, y := Over(a, s), Over(a, t);
    hide Over;
    TimesSign(y, t - s);
    TimesOfDifference(t, s, y);
    TimesBasics(y, t - s);
    TimesBasics(y, s);
    TimesBasics(y, t);
    // x * s == y * t == y * s + y * (t - s)
    assert Times(x, s) == Times(y, s) + Times(y, t - s);
    hide Times;
    TimesReflectsOrder(y, x, s);
    if a > 0.0 && s < t {
      TimesReflectsStrictOrder(y, x, s);
    }
  }

  lemma TimesReflectsStrictOrder(a: real, b: real, s: real)
    requires Times(a, s) < Times(b, s) && s > 0.0
    ensures a < b
  {
    hide Times;
    TimesReflectsOrder(a, b, s);
  }

  // ---------------------------------------------------------------- b == 0

  lemma {:induction false} FlatSumAgreesOn(unit: string -> real, other: string -> real, terms: seq<string>)
    requires forall t :: t in terms ==> unit(t) == other(t)
    ensures FlatSum(unit, terms) == FlatSum(other, terms)
  {
    if terms != [] {
      FlatSumAgreesOn(unit, other, terms[..|terms| - 1]);
    }
  }

  lemma WithoutLength(p: Parameters, ratio: real)
    requires p.b == 0.0
    ensures Normalization(p, ratio) == p.k1
  {
  }

  /** With b == 0 length plays no part: equally frequent query terms give equal scores. */
  lemma LengthIsIgnored(p: Parameters, documents: seq<seq<string>>, ln: real -> real, i: nat, j: nat,
                        query: seq<string>)
    requires p.Valid() && p.b == 0.0 && i < |documents| && j < |documents|
    requires SameFrequencies(documents, i, j, query)
    ensures ScoreOf(p, documents, ln, i, query) == ScoreOf(p, documents, ln, j, query)
  {
    hide Unit, InverseOf, LengthRatio, Normalization, FlatSum;
    WithoutLength(p, LengthRatio(|documents[i]|, Average(documents)));
    WithoutLength(p, LengthRatio(|documents[j]|, Average(documents)));
    FlatSumAgreesOn(OccurrenceWeight(p, documents, ln, i), OccurrenceWeight(p, documents, ln, j), query);
  }

  // ---------------------------------------------------------------- b > 0

  lemma TotalIsPositive(documents: seq<seq<string>>, i: nat)
    requires i < |documents| && documents[i] != []
    ensures TotalLength(documents) > 0
  {
    if i < |documents| - 1 {
      TotalIsPositive(documents[..|documents| - 1], i);
    }
  }

  lemma AverageIsPositive(documents: seq<seq<string>>, i: nat)
    requires i < |documents| && documents[i] != []
    ensures Average(documents) > 0.0
  {
    hide Over;
    TotalIsPositive(documents, i);
    OverSign(TotalLength(documents) as real, |documents| as real);
  }

  /** With b > 0 a longer document has the greater normalization. */
  lemma NormalizationGrows(p: Parameters, documents: seq<seq<string>>, i: nat, j: nat)
    requires p.Valid() && p.b > 0.0 && i < |documents| && j < |documents|
    requires |documents[i]| < |documents[j]|
    ensures NormalizationOf(p, documents, i) < NormalizationOf(p, documents, j)
  {
    AverageIsPositive(documents, j);
    var average := Average(documents);
    var short, long := |documents[i]| as real, |documents[j]| as real;
    hide TotalLength, Average;
    OverOfDifference(long, short, average);
    OverSign(long - short, average);
    RatioGrows(p, Over(short, average), Over(long, average));
  }

  lemma RatioGrows(p: Parameters, less: real, more: real)
    requires p.Valid() && p.b > 0.0 && less < more
    ensures Normalization(p, less) < Normalization(p, more)
  {
    TimesOfDifference(more, less, p.b);
    TimesBasics(p.b, less);
    TimesBasics(p.b, more);
    TimesSign(more - less, p.b);
    var x, y := 1.0 - p.b + Times(p.b, less), 1.0 - p.b + Times(p.b, more);
    TimesOfDifference(y, x, p.k1);
    TimesBasics(p.k1, x);
    TimesBasics(p.k1, y);
    TimesSign(y - x, p.k1);
    hide Times;
  }

  lemma {:induction false} FlatSumBelow(unit: string -> real, other: string -> real, terms: seq<string>)
    requires forall t :: t in terms ==> unit(t) <= other(t)
    ensures FlatSum(unit, terms) <= FlatSum(other, terms)
    ensures (exists t :: t in terms && unit(t) < other(t)) ==> FlatSum(unit, terms) < FlatSum(other, terms)
  {
    if terms != [] {
      var rest, last := terms[..|terms| - 1], terms[|terms| - 1];
      FlatSumBelow(unit, other, rest);
      assert terms == rest + [last];
    }
  }

  /** One query term: the longer document gains no more from it, and less when the term occurs. */
  lemma LongerGainsLess(p: Parameters, documents: seq<seq<string>>, ln: real -> real, i: nat, j: nat, t: string)
    requires p.Valid() && p.b > 0.0 && IsLog(ln) && i < |documents| && j < |documents|
    requires |documents[i]| < |documents[j]| && multiset(documents[i])[t] == multiset(documents[j])[t]
    ensures OccurrenceWeight(p, documents, ln, j)(t) <= OccurrenceWeight(p, documents, ln, i)(t)
    ensures t in documents[i] ==> OccurrenceWeight(p, documents, ln, j)(t) < OccurrenceWeight(p, documents, ln, i)(t)
  {
    assert t in documents[i] <==> multiset(documents[i])[t] > 0;
    NormalizationGrows(p, documents, i, j);
    WeightFacts(p, documents, ln, i, t);
    ListedTermIsRare(documents, ln, i, t);
    hide NormalizationOf, InverseOf, Unit;
    UnitFalls(p, InverseOf(documents, ln, t), multiset(documents[i])[t],
              NormalizationOf(p, documents, i), NormalizationOf(p, documents, j));
  }

  lemma ListedTermIsRare(documents: seq<seq<string>>, ln: real -> real, i: nat, t: string)
    requires i < |documents| && IsLog(ln)
    ensures t in documents[i] ==> InverseOf(documents, ln, t) > 0.0
  {
    hide InverseFrequency, IsLog;
    InVocabulary(documents, i, t);
    DocumentFrequencyInRange(documents, t);
    if t in Vocabulary(documents) {
      InverseFrequencyIsPositive(ln, |documents|, DocumentFrequency(documents, t));
    }
    hide Vocabulary, DocumentFrequency;
  }

  /** With b > 0 and equally frequent query terms the longer document never scores higher, and lower when a term is shared. */
  lemma LongerScoresLess(p: Parameters, documents: seq<seq<string>>, ln: real -> real, i: nat, j: nat,
                         query: seq<string>)
    requires p.Valid() && p.b > 0.0 && IsLog(ln) && i < |documents| && j < |documents|
    requires |documents[i]| < |documents[j]| && SameFrequencies(documents, i, j, query)
    ensures ScoreOf(p, documents, ln, j, query) <= ScoreOf(p, documents, ln, i, query)
    ensures SharesTerm(documents[i], query) ==> ScoreOf(p, documents, ln, j, query) < ScoreOf(p, documents, ln, i, query)
  {
    var shorter, longer := OccurrenceWeight(p, documents, ln, i), OccurrenceWeight(p, documents, ln, j);
    forall t | t in query
      ensures longer(t) <= shorter(t)
      ensures t in documents[i] ==> longer(t) < shorter(t)
    {
      LongerGainsLess(p, documents, ln, i, j, t);
    }
    hide OccurrenceWeight, FlatSum, IsLog;
    FlatSumBelow(longer, shorter, query);
  }

  // ---------------------------------------------------------------- the exact part of length

  /** What a term adds is idf * f * (k1 + 1) / (f + n). */
  ghost predicate Adds(weight: real, p: Parameters, inverse: real, frequency: nat, n: real) {
    Times(weight, frequency as real + n) == Times(inverse, Times(frequency as real, p.k1 + 1.0))
  }

  lemma UnitAdds(p: Parameters, inverse: real, frequency: nat, n: real)
    requires n >= 0.0
    ensures Adds(Unit(p, inverse, frequency, n), p, inverse, frequency, n)
  {
    hide Times, Over;
    if frequency > 0 {
      OverThenTimes(Times(inverse, Times(frequency as real, p.k1 + 1.0)), frequency as real + n);
    } else {
      TimesBasics(0.0, p.k1 + 1.0);
      TimesBasics(0.0, inverse);
      TimesBasics(inverse, 0.0);
      TimesBasics(0.0, frequency as real + n);
    }
  }

  lemma WeightAdds(p: Parameters, documents: seq<seq<string>>, ln: real -> real, i: nat, t: string)
    requires p.Valid() && i < |documents|
    ensures Adds(OccurrenceWeight(p, documents, ln, i)(t), p, InverseOf(documents, ln, t), multiset(documents[i])[t],
                 NormalizationOf(p, documents, i))
  {
    hide InverseOf, NormalizationOf, Adds, Unit;
    UnitAdds(p, InverseOf(documents, ln, t), multiset(documents[i])[t], NormalizationOf(p, documents, i));
  }

  lemma RatioTimesAverage(documents: seq<seq<string>>, i: nat)
    requires i < |documents| && Average(documents) > 0.0
    ensures Times(LengthRatio(|documents[i]|, Average(documents)), Average(documents)) == |documents[i]| as real
  {
    OverThenTimes(|documents[i]| as real, Average(documents));
  }

  /** A document of average length is normalized by k1, whatever b. */
  lemma AverageLengthIsNeutral(p: Parameters, documents: seq<seq<string>>, ln: real -> real, i: nat, t: string)
    requires p.Valid() && i < |documents| && documents[i] != []
    requires |documents[i]| as real == Average(documents)
    ensures Adds(OccurrenceWeight(p, documents, ln, i)(t), p, InverseOf(documents, ln, t), multiset(documents[i])[t], p.k1)
  {
    hide Average, OccurrenceWeight, Adds, InverseOf, LengthRatio;
    RatioTimesAverage(documents, i);
    WeightAdds(p, documents, ln, i, t);
    RatioIsOne(p, LengthRatio(|documents[i]|, Average(documents)), Average(documents));
  }

  lemma RatioIsOne(p: Parameters, ratio: real, average: real)
    requires average > 0.0 && Times(ratio, average) == average
    ensures Normalization(p, ratio) == p.k1
  {
    assert (ratio - 1.0) * average == 0.0;
    assert ratio == 1.0;
  }

  lemma FullNormalization(p: Parameters, documents: seq<seq<string>>, i: nat)
    requires p.Valid() && p.b == 1.0 && i < |documents| && Average(documents) > 0.0
    ensures Times(NormalizationOf(p, documents, i), Average(documents)) == Times(p.k1, |documents[i]| as real)
  {
    hide Average, LengthRatio;
    RatioTimesAverage(documents, i);
    FullLength(p, LengthRatio(|documents[i]|, Average(documents)), Average(documents), |documents[i]| as real);
  }

  lemma FullLength(p: Parameters, ratio: real, average: real, length: real)
    requires p.b == 1.0 && Times(ratio, average) == length
    ensures Times(Normalization(p, ratio), average) == Times(p.k1, length)
  {
    assert Normalization(p, ratio) == p.k1 * ratio;
    assert p.k1 * ratio * average == p.k1 * (ratio * average);
  }

  /** With b == 1 a document m times as long has its normalization scaled by m. */
  lemma LengthScalesNormalization(p: Parameters, documents: seq<seq<string>>, ln: real -> real, i: nat, j: nat,
                                  m: real, t: string)
    requires p.Valid() && p.b == 1.0 && i < |documents| && j < |documents| && documents[i] != []
    requires |documents[j]| as real == Times(m, |documents[i]| as real)
    ensures exists n ::
              && Times(n, Average(documents)) == Times(p.k1, |documents[i]| as real)
              && Adds(OccurrenceWeight(p, documents, ln, i)(t), p, InverseOf(documents, ln, t), multiset(documents[i])[t], n)
              && Adds(OccurrenceWeight(p, documents, ln, j)(t), p, InverseOf(documents, ln, t), multiset(documents[j])[t], Times(m, n))
  {
    AverageIsPositive(documents, i);
    hide Average, OccurrenceWeight, NormalizationOf, Adds, InverseOf, Times;
    FullNormalization(p, documents, i);
    FullNormalization(p, documents, j);
    WeightAdds(p, documents, ln, i, t);
    WeightAdds(p, documents, ln, j, t);
    var n := NormalizationOf(p, documents, i);
    ScaledBy(NormalizationOf(p, documents, j), n, p.k1, |documents[i]| as real, |documents[j]| as real, m,
             Average(documents));
    assert Times(n, Average(documents)) == Times(p.k1, |documents[i]| as real);
  }

  lemma ScaledBy(x: real, n: real, k1: real, short: real, long: real, m: real, average: real)
    requires average > 0.0 && long == Times(m, short)
    requires Times(x, average) == Times(k1, long) && Times(n, average) == Times(k1, short)
    ensures x == Times(m, n)
  {
    TimesIsAssociative(m, n, average);
    TimesIsAssociative(m, k1, short);
    TimesIsAssociative(k1, m, short);
    TimesBasics(m, k1);
    hide Times;
    assert Times(x, average) == Times(Times(m, n), average);
    TimesReflectsOrder(x, Times(m, n), average);
    TimesReflectsOrder(Times(m, n), x, average);
  }

  lemma TimesIsAssociative(a: real, b: real, c: real)
    ensures Times(Times(a, b), c) == Times(a, Times(b, c))
  {
  }

  // ---------------------------------------------------------------- rarity

  lemma LogGrows(ln: real -> real, x: real, y: real)
    requires IsLog(ln) && 0.0 < x < y
    ensures ln(x) < ln(y)
  {
  }

  lemma RarerIsGreater(count: nat, rare: nat, common: nat)
    requires rare < common <= count
    ensures 0.0 < Over(count as real - common as real + 0.5, common as real + 0.5)
                < Over(count as real - rare as real + 0.5, rare as real + 0.5)
  {
    hide Over;
    var s, r := common as real + 0.5, rare as real + 0.5;
    var a, c := count as real - common as real + 0.5, count as real - rare as real + 0.5;
    OverKeepsOrder(a, c, s);
    QuotientFalls(c, r, s);
    OverSign(a, s);
  }

  /** A rarer term weighs more. */
  lemma RarerWeighsMore(ln: real -> real, count: nat, rare: nat, common: nat)
    requires IsLog(ln) && rare < common <= count
    ensures InverseFrequency(ln, count, common) < InverseFrequency(ln, count, rare)
  {
    hide Over, IsLog;
    RarerIsGreater(count, rare, common);
    var x := 1.0 + Over(count as real - common as real + 0.5, common as real + 0.5);
    var y := 1.0 + Over(count as real - rare as real + 0.5, rare as real + 0.5);
    LogGrows(ln, x, y);
    assert InverseFrequency(ln, count, common) == ln(x);
    assert InverseFrequency(ln, count, rare) == ln(y);
  }

  lemma DoubledQuotient(q: real, top: real, half: real)
    requires Times(q, half) == top
    ensures Times(1.0 + q, 2.0 * half) == 2.0 * (half + top)
  {
  }

  /** In closed form: the logarithm of N + 1 over the term's document count and a half. */
  lemma InverseInClosedForm(ln: real -> real, count: nat, frequency: nat)
    requires frequency <= count
    ensures exists x ::
              Times(x, 2.0 * frequency as real + 1.0) == 2.0 * count as real + 2.0 && InverseFrequency(ln, count, frequency) == ln(x)
  {
    var top, half := count as real - frequency as real + 0.5, frequency as real + 0.5;
    OverThenTimes(top, half);
    DoubledQuotient(Over(top, half), top, half);
    hide Over, Times;
    var x := 1.0 + Over(top, half);
    assert InverseFrequency(ln, count, frequency) == ln(x);
    assert Times(x, 2.0 * frequency as real + 1.0) == 2.0 * count as real + 2.0;
  }
}
