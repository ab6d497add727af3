/** What a BM25 weight rewards: rare terms, repetition up to a point, and short documents. */
module WeightMeaning {
  import opened Prelude
  import opened Sorting
  import opened Bm25

  ghost predicate Increasing(log: real -> real) { forall x, y :: 0.0 < x < y ==> log(x) < log(y) }

  predicate GoodParams(p: Params) { p.k1 > 0.0 && 0.0 <= p.b <= 1.0 }

  // ---- Quotients and products -----------------------------------------------

  lemma TimesMore(a: real, b: real, c: real)
    requires a < b && c > 0.0
    ensures a * c < b * c
  {
  }

  lemma Divided(a: real, c: real)
    requires c > 0.0
    ensures (a / c) * c == a
  {
  }

  lemma Multiplied(a: real, c: real)
    requires c > 0.0
    ensures (a * c) / c == a
  {
  }

  lemma Cancelled(x: real, y: real, c: real)
    requires x * c < y * c && c > 0.0
    ensures x < y
  {
    if y < x { TimesMore(y, x, c); }
  }

  lemma LargerNumerator(a: real, b: real, c: real)
    requires a < b && c > 0.0
    ensures a / c < b / c
  {
    Divided(a, c);
    Divided(b, c);
    Cancelled(a / c, b / c, c);
  }

  lemma LargerDivisor(a: real, c: real, d: real)
    requires a > 0.0 && 0.0 < c < d
    ensures a / d < a / c
  {
    Divided(a, c);
    Divided(a, d);
    PositiveQuotient(a, d);
    TimesMore(c, d, a / d);
    Cancelled(a / d, a / c, c);
  }

  // ---- The weight of a term -------------------------------------------------

  /** A term that `df` of `count` documents hold is worth the logarithm of this quotient. */
  lemma IdfIs(p: Params, count: nat, df: nat)
    requires df <= count
    ensures Idf(p, count, df) == p.log((count as real + 1.0) / (df as real + 0.5))
  {
    var a, c, n := (count - df) as real + 0.5, df as real + 0.5, count as real + 1.0;
    OneMore(a, c, n);
    assert Idf(p, count, df) == p.log(1.0 + a / c);
    SameLog(p.log, 1.0 + a / c, n / c);
  }

  lemma SameLog(log: real -> real, x: real, y: real)
    requires x == y
    ensures log(x) == log(y)
  {
  }

  lemma OneMore(a: real, c: real, n: real)
    requires c > 0.0 && n == a + c
    ensures 1.0 + a / c == n / c
  {
    Divided(a, c);
    Quotient(1.0 + a / c, c, n);
  }

  lemma Quotient(x: real, c: real, n: real)
    requires c > 0.0 && x * c == n
    ensures x == n / c
  {
    Multiplied(x, c);
  }

  lemma RarerIdf(p: Params, count: nat, df: nat, more: nat)
    requires Increasing(p.log) && df < more <= count
    ensures Idf(p, count, df) > Idf(p, count, more)
  {
    IdfIs(p, count, df);
    IdfIs(p, count, more);
    PositiveQuotient(count as real + 1.0, more as real + 0.5);
    LargerDivisor(count as real + 1.0, df as real + 0.5, more as real + 0.5);
  }

  /** What the document and its length make of a term. */
  function Frequency(p: Params, tf: nat, length: nat, scale: real): real
    requires GoodParams(p) && tf > 0 && scale > 0.0
  {
    tf as real * (p.k1 + 1.0) / (tf as real + Normalizer(p, length, scale))
  }

  lemma WeightSplits(p: Params, count: nat, df: nat, qf: nat, tf: nat, length: nat, scale: real)
    requires GoodParams(p) && df <= count && tf > 0 && scale > 0.0
    ensures WeightFrom(p, count, df, qf, tf, length, scale) == Min(qf, 3) as real * Idf(p, count, df) * Frequency(p, tf, length, scale)
  {
    var a, c := Min(qf, 3) as real * Idf(p, count, df), tf as real + Normalizer(p, length, scale);
    Regroup(a, tf as real, p.k1 + 1.0, c);
  }

  lemma Regroup(a: real, t: real, k: real, c: real)
    requires c > 0.0
    ensures a * t * k / c == a * (t * k / c)
  {
    Divided(t * k, c);
    assert a * t * k == (a * (t * k / c)) * c;
    Multiplied(a * (t * k / c), c);
  }

  lemma FrequencyPositive(p: Params, tf: nat, length: nat, scale: real)
    requires GoodParams(p) && tf > 0 && scale > 0.0
    ensures Frequency(p, tf, length, scale) > 0.0
  {
    PositiveProduct(tf as real, p.k1 + 1.0);
    PositiveQuotient(tf as real * (p.k1 + 1.0), tf as real + Normalizer(p, length, scale));
  }

  /** All else equal, the rarer of two terms weighs more. */
  lemma RarerWeighsMore(p: Params, count: nat, df: nat, more: nat, qf: nat, tf: nat, length: nat, scale: real)
    requires GoodParams(p) && Increasing(p.log) && df < more <= count && qf > 0 && tf > 0 && scale > 0.0
    ensures WeightFrom(p, count, df, qf, tf, length, scale) > WeightFrom(p, count, more, qf, tf, length, scale)
  {
    WeightSplits(p, count, df, qf, tf, length, scale);
    WeightSplits(p, count, more, qf, tf, length, scale);
    RarerIdf(p, count, df, more);
    FrequencyPositive(p, tf, length, scale);
    var q, f := Min(qf, 3) as real, Frequency(p, tf, length, scale);
    TimesMore(Idf(p, count, more), Idf(p, count, df), q);
    TimesMore(Idf(p, count, more) * q, Idf(p, count, df) * q, f);
  }

  /** In one document, the rarer of two query terms it holds equally often adds more. */
  lemma RarerTermAddsMore(p: Params, docs: seq<Doc>, query: seq<string>, d: Doc, t: string, u: string)
    requires GoodParams(p) && Increasing(p.log) && docs != [] && t in d.terms && u in d.terms && t in query
    requires Freq(query, t) == Freq(query, u) && Freq(d.terms, t) == Freq(d.terms, u)
    requires |Holders(docs, t)| < |Holders(docs, u)| <= |docs|
    ensures Weight(p, docs, query, d, t) > Weight(p, docs, query, d, u)
  {
    ScalePositive(docs);
    assert multiset(d.terms)[t] > 0 && multiset(query)[t] > 0;
    RarerWeighsMore(p, |docs|, |Holders(docs, t)|, |Holders(docs, u)|, Freq(query, t), Freq(d.terms, t), |d.terms|, Scale(AverageLength(docs)));
  }

  /** A term met once in a document of average length weighs its own worth, as often as the
      query asks for it. */
  lemma OnceInAverage(p: Params, count: nat, df: nat, qf: nat, length: nat, scale: real)
    requires GoodParams(p) && df <= count && length > 0 && scale == length as real
    ensures WeightFrom(p, count, df, qf, 1, length, scale) == Min(qf, 3) as real * Idf(p, count, df)
  {
    WeightSplits(p, count, df, qf, 1, length, scale);
    assert length as real / scale == 1.0;
    assert Normalizer(p, length, scale) == p.k1;
    assert Frequency(p, 1, length, scale) == 1.0;
  }

  /** A longer document needs the term more often: the length counts as much as `b` says. */
  lemma NormalizerGrows(p: Params, length: nat, longer: nat, scale: real)
    requires GoodParams(p) && p.b > 0.0 && length < longer && scale > 0.0
    ensures Normalizer(p, length, scale) < Normalizer(p, longer, scale)
  {
    LargerNumerator(length as real, longer as real, scale);
    Scaled(p.k1, p.b, length as real / scale, longer as real / scale);
    assert Normalizer(p, length, scale) == p.k1 * (1.0 - p.b + p.b * (length as real / scale));
    assert Normalizer(p, longer, scale) == p.k1 * (1.0 - p.b + p.b * (longer as real / scale));
  }

  lemma Scaled(k: real, b: real, x: real, y: real)
    requires k > 0.0 && b > 0.0 && x < y
    ensures k * (1.0 - b + b * x) < k * (1.0 - b + b * y)
  {
    TimesMore(x, y, b);
    TimesMore(1.0 - b + b * x, 1.0 - b + b * y, k);
  }

  lemma LongerWeighsLess(p: Params, count: nat, df: nat, qf: nat, tf: nat, length: nat, longer: nat, scale: real)
    requires GoodParams(p) && p.b > 0.0 && df <= count && Idf(p, count, df) > 0.0 && qf > 0 && tf > 0
    requires length < longer && scale > 0.0
    ensures WeightFrom(p, count, df, qf, tf, longer, scale) < WeightFrom(p, count, df, qf, tf, length, scale)
  {
    FrequencyFalls(p, tf, length, longer, scale);
    FrequencyDecides(p, count, df, qf, tf, longer, tf, length, scale);
  }

  /** The rarity and the query being the same, the frequencies decide. */
  lemma FrequencyDecides(p: Params, count: nat, df: nat, qf: nat, tf: nat, length: nat, more: nat, other: nat, scale: real)
    requires GoodParams(p) && df <= count && Idf(p, count, df) > 0.0 && qf > 0 && tf > 0 && more > 0 && scale > 0.0
    requires Frequency(p, tf, length, scale) < Frequency(p, more, other, scale)
    ensures WeightFrom(p, count, df, qf, tf, length, scale) < WeightFrom(p, count, df, qf, more, other, scale)
  {
    var f, g, worth := Frequency(p, tf, length, scale), Frequency(p, more, other, scale), Worth(p, count, df, qf);
    TimesMore(f, g, worth);
    WorthTimes(p, count, df, qf, tf, length, scale, f, worth);
    WorthTimes(p, count, df, qf, more, other, scale, g, worth);
  }

  /** What a query term is worth before the document is looked at. */
  function Worth(p: Params, count: nat, df: nat, qf: nat): (r: real)
    requires df <= count
    ensures qf > 0 && Idf(p, count, df) > 0.0 ==> r > 0.0
  {
    assert qf > 0 && Idf(p, count, df) > 0.0 ==> Min(qf, 3) as real * Idf(p, count, df) > 0.0 by {
      if qf > 0 && Idf(p, count, df) > 0.0 { PositiveProduct(Min(qf, 3) as real, Idf(p, count, df)); }
    }
    Min(qf, 3) as real * Idf(p, count, df)
  }

  lemma WorthTimes(p: Params, count: nat, df: nat, qf: nat, tf: nat, length: nat, scale: real, f: real, worth: real)
    requires GoodParams(p) && df <= count && tf > 0 && scale > 0.0
    requires worth == Worth(p, count, df, qf) && f == Frequency(p, tf, length, scale)
    ensures WeightFrom(p, count, df, qf, tf, length, scale) == f * worth
  {
    WeightSplits(p, count, df, qf, tf, length, scale);
  }

  lemma FrequencyFalls(p: Params, tf: nat, length: nat, longer: nat, scale: real)
    requires GoodParams(p) && p.b > 0.0 && tf > 0 && length < longer && scale > 0.0
    ensures Frequency(p, tf, longer, scale) < Frequency(p, tf, length, scale)
  {
    NormalizerGrows(p, length, longer, scale);
    var top := tf as real * (p.k1 + 1.0);
    PositiveProduct(tf as real, p.k1 + 1.0);
    LargerDivisor(top, tf as real + Normalizer(p, length, scale), tf as real + Normalizer(p, longer, scale));
  }

  /** Without length normalization the length makes no difference. */
  lemma LengthIgnored(p: Params, count: nat, df: nat, qf: nat, tf: nat, length: nat, other: nat, scale: real)
    requires GoodParams(p) && p.b == 0.0 && df <= count && tf > 0 && scale > 0.0
    ensures WeightFrom(p, count, df, qf, tf, length, scale) == WeightFrom(p, count, df, qf, tf, other, scale)
  {
    assert Normalizer(p, length, scale) == p.k1 == Normalizer(p, other, scale);
  }

  lemma NormalizerPositive(p: Params, length: nat, scale: real)
    requires GoodParams(p) && length > 0 && scale > 0.0
    ensures Normalizer(p, length, scale) > 0.0
  {
    var ratio := length as real / scale;
    PositiveQuotient(length as real, scale);
    if p.b > 0.0 { PositiveProduct(p.b, ratio); }
    PositiveProduct(p.k1, 1.0 - p.b + p.b * ratio);
    assert Normalizer(p, length, scale) == p.k1 * (1.0 - p.b + p.b * ratio);
  }

  /** Repeating a term in a document always adds weight, and never more than `k1` + 1 times
      the worth of one occurrence in all. */
  lemma RepeatsWeighMore(p: Params, count: nat, df: nat, qf: nat, tf: nat, more: nat, length: nat, scale: real)
    requires GoodParams(p) && df <= count && Idf(p, count, df) > 0.0 && qf > 0 && 0 < tf < more <= length && scale > 0.0
    ensures WeightFrom(p, count, df, qf, tf, length, scale) < WeightFrom(p, count, df, qf, more, length, scale)
    ensures WeightFrom(p, count, df, qf, more, length, scale) < Min(qf, 3) as real * Idf(p, count, df) * (p.k1 + 1.0)
  {
    FrequencySaturates(p, tf, more, length, scale);
    FrequencyDecides(p, count, df, qf, tf, length, more, length, scale);
    WeightSplits(p, count, df, qf, more, length, scale);
    PositiveProduct(Min(qf, 3) as real, Idf(p, count, df));
    TimesMore(Frequency(p, more, length, scale), p.k1 + 1.0, Min(qf, 3) as real * Idf(p, count, df));
  }

  lemma FrequencySaturates(p: Params, tf: nat, more: nat, length: nat, scale: real)
    requires GoodParams(p) && 0 < tf < more && length > 0 && scale > 0.0
    ensures Frequency(p, tf, length, scale) < Frequency(p, more, length, scale) < p.k1 + 1.0
  {
    NormalizerPositive(p, length, scale);
    var t, u, k, n := tf as real, more as real, p.k1 + 1.0, Normalizer(p, length, scale);
    Saturates(t, u, k, n);
    assert Frequency(p, tf, length, scale) == t * k / (t + n);
    assert Frequency(p, more, length, scale) == u * k / (u + n);
  }

  lemma Saturates(t: real, u: real, k: real, n: real)
    requires 0.0 < t < u && k > 0.0 && n > 0.0
    ensures t * k / (t + n) < u * k / (u + n) < k
  {
    Remainder(t, k, n);
    Remainder(u, k, n);
    PositiveProduct(k, n);
    LargerDivisor(k * n, t + n, u + n);
    PositiveQuotient(k * n, u + n);
  }

  lemma Remainder(t: real, k: real, n: real)
    requires t > 0.0 && n > 0.0
    ensures t * k / (t + n) == k - k * n / (t + n)
  {
    Divided(k * n, t + n);
    assert (k - k * n / (t + n)) * (t + n) == t * k;
    Multiplied(k - k * n / (t + n), t + n);
  }

  /** A term the query repeats counts once, twice or three times, and no more. */
  lemma QueryRepeatsCapped(p: Params, count: nat, df: nat, qf: nat, tf: nat, length: nat, scale: real)
    requires GoodParams(p) && df <= count && tf > 0 && scale > 0.0
    ensures qf <= 3 ==> WeightFrom(p, count, df, qf, tf, length, scale) == qf as real * WeightFrom(p, count, df, 1, tf, length, scale)
    ensures qf >= 3 ==> WeightFrom(p, count, df, qf, tf, length, scale) == WeightFrom(p, count, df, 3, tf, length, scale)
  {
    WeightSplits(p, count, df, qf, tf, length, scale);
    WeightSplits(p, count, df, 1, tf, length, scale);
    Associate(Min(qf, 3) as real, Idf(p, count, df), Frequency(p, tf, length, scale));
  }

  lemma Associate(a: real, b: real, c: real)
    ensures a * b * c == a * (b * c)
  {
  }

  // ---- The score of a document ----------------------------------------------

  lemma OccursSome(terms: seq<string>, t: string)
    requires t in terms
    ensures 0 < Freq(terms, t) <= |terms|
  {
    assert multiset(terms)[t] > 0;
    FreqFew(terms, t);
  }

  lemma {:induction false} FreqFew(terms: seq<string>, t: string)
    ensures Freq(terms, t) <= |terms|
  {
    if terms != [] {
      assert terms == [terms[0]] + terms[1..];
      FreqFew(terms[1..], t);
    }
  }

  lemma HeldIdf(p: Params, docs: seq<Doc>, t: string)
    requires GoodLog(p.log) && |Holders(docs, t)| <= |docs|
    ensures Idf(p, |docs|, |Holders(docs, t)|) > 0.0
  {
    var df := |Holders(docs, t)|;
    PositiveQuotient((|docs| - df) as real + 0.5, df as real + 0.5);
  }

  /** Of two documents of one length that hold a query term, the one that holds it more often
      gains more from it. */
  lemma OftenerGainsMore(p: Params, docs: seq<Doc>, query: seq<string>, d: Doc, e: Doc, t: string)
    requires GoodParams(p) && GoodLog(p.log) && docs != [] && t in query && t in d.terms && t in e.terms
    requires |d.terms| == |e.terms| && Freq(e.terms, t) < Freq(d.terms, t) && |Holders(docs, t)| <= |docs|
    ensures Weight(p, docs, query, d, t) > Weight(p, docs, query, e, t)
  {
    ScalePositive(docs);
    OccursSome(query, t);
    OccursSome(d.terms, t);
    OccursSome(e.terms, t);
    HeldIdf(p, docs, t);
    RepeatsWeighMore(p, |docs|, |Holders(docs, t)|, Freq(query, t), Freq(e.terms, t), Freq(d.terms, t), |d.terms|, Scale(AverageLength(docs)));
  }

  /** Of two documents that hold a query term equally often, the shorter gains more from it. */
  lemma ShorterGainsMore(p: Params, docs: seq<Doc>, query: seq<string>, d: Doc, e: Doc, t: string)
    requires GoodParams(p) && p.b > 0.0 && GoodLog(p.log) && docs != [] && t in query && t in d.terms && t in e.terms
    requires |d.terms| < |e.terms| && Freq(e.terms, t) == Freq(d.terms, t) && |Holders(docs, t)| <= |docs|
    ensures Weight(p, docs, query, d, t) > Weight(p, docs, query, e, t)
  {
    ScalePositive(docs);
    OccursSome(query, t);
    OccursSome(d.terms, t);
    HeldIdf(p, docs, t);
    LongerWeighsLess(p, |docs|, |Holders(docs, t)|, Freq(query, t), Freq(d.terms, t), |d.terms|, |e.terms|, Scale(AverageLength(docs)));
  }

  /** A query term that a document of average length holds once is worth its own rarity. */
  lemma AverageGainsWorth(p: Params, docs: seq<Doc>, query: seq<string>, d: Doc, t: string)
    requires GoodParams(p) && docs != [] && t in d.terms && Freq(d.terms, t) == 1 && |Holders(docs, t)| <= |docs|
    requires |d.terms| as real == AverageLength(docs)
    ensures Weight(p, docs, query, d, t) == Min(Freq(query, t), 3) as real * Idf(p, |docs|, |Holders(docs, t)|)
  {
    OccursSome(d.terms, t);
    OnceInAverage(p, |docs|, |Holders(docs, t)|, Freq(query, t), |d.terms|, Scale(AverageLength(docs)));
  }

  /** The average length times the number of documents is what all of them hold together. */
  lemma {:induction false} LengthsAddUp(docs: seq<Doc>, more: seq<Doc>)
    ensures docs != [] ==> AverageLength(docs) * |docs| as real == TotalLength(docs) as real
    ensures TotalLength(docs + more) == TotalLength(docs) + TotalLength(more)
    ensures |docs| == 1 ==> TotalLength(docs) == |docs[0].terms|
    decreases |more|
  {
    if docs != [] { Divided(TotalLength(docs) as real, |docs| as real); }
    if more == [] {
      assert docs + more == docs;
    } else {
      var front := more[..|more| - 1];
      assert (docs + more)[..|docs + more| - 1] == docs + front;
      LengthsAddUp(docs, front);
    }
  }

  /** Scores add up over the query terms, and one term scores its weight. */
  lemma {:induction false} ScoreAddsUp(p: Params, docs: seq<Doc>, query: seq<string>, d: Doc, ts: seq<string>, us: seq<string>, t: string)
    requires GoodParams(p) && docs != []
    ensures Score(p, docs, query, d, ts + us) == Score(p, docs, query, d, ts) + Score(p, docs, query, d, us)
    ensures |Holders(docs, t)| <= |docs|
    ensures Score(p, docs, query, d, [t]) == if t in d.terms then Weight(p, docs, query, d, t) else 0.0
    decreases |us|
  {
    HoldersFew(docs, t);
    if us == [] {
      assert ts + us == ts;
    } else {
      var front, last := us[..|us| - 1], us[|us| - 1];
      assert (ts + us)[..|ts + us| - 1] == ts + front && (ts + us)[|ts + us| - 1] == last;
      ScoreAddsUp(p, docs, query, d, ts, front, t);
    }
  }

  // ---- The ranking ----------------------------------------------------------

  /** Of two scored documents the one with the higher score stands first, and of two with the
      same score the one with the lower id. */
  lemma StandsFirst(scores: map<int, real>, hits: seq<Hit>, i: nat, j: nat)
    requires IsRanking(scores, hits) && i < |hits| && j < |hits|
    ensures hits[i].id in scores && hits[j].id in scores
    ensures i < j <==> scores[hits[i].id] > scores[hits[j].id] || (scores[hits[i].id] == scores[hits[j].id] && hits[i].id < hits[j].id)
  {
    if i < j { assert HitLe(hits[i], hits[j]); }
    if j < i { assert HitLe(hits[j], hits[i]); }
  }
}
