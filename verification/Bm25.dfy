/** The in-memory BM25 index: postings filled once, scores accumulated over them, and the
    formula they add up to. `log` is any function that is positive above 1. */
module Bm25 {
  import opened Prelude
  import opened Sorting

  datatype Doc = Doc(id: int, terms: seq<string>)

  datatype Params = Params(k1: real, b: real, log: real -> real)

  ghost predicate GoodLog(log: real -> real) { forall x :: x > 1.0 ==> log(x) > 0.0 }

  ghost predicate DistinctDocs(docs: seq<Doc>) {
    forall i, j :: 0 <= i < j < |docs| ==> docs[i].id != docs[j].id
  }

  // ---- Counting -------------------------------------------------------------

  function Freq(terms: seq<string>, t: string): nat { multiset(terms)[t] }

  /** The distinct terms, in the order they first appear. */
  function Uniq(terms: seq<string>): (r: seq<string>)
    ensures forall t :: t in r <==> t in terms
    ensures forall i, j :: 0 <= i < j < |r| ==> r[i] != r[j]
  {
    if terms == [] then [] else
      var front, last := Uniq(terms[..|terms| - 1]), terms[|terms| - 1];
      assert terms == terms[..|terms| - 1] + [last];
      if last in front then front else front + [last]
  }

  function Holders(docs: seq<Doc>, t: string): seq<Doc> { Filter((d: Doc) => t in d.terms, docs) }

  function TotalLength(docs: seq<Doc>): nat {
    if docs == [] then 0 else TotalLength(docs[..|docs| - 1]) + |docs[|docs| - 1].terms|
  }

  function AverageLength(docs: seq<Doc>): real
    requires docs != []
  {
    TotalLength(docs) as real / |docs| as real
  }

  /** The average as the formula uses it: 1.0 when every document is empty. */
  function Scale(average: real): real { if average == 0.0 then 1.0 else average }

  // ---- The formula ----------------------------------------------------------

  function Idf(p: Params, count: nat, df: nat): real
    requires df <= count
  {
    p.log(1.0 + ((count - df) as real + 0.5) / (df as real + 0.5))
  }

  function Normalizer(p: Params, length: nat, scale: real): (r: real)
    requires p.k1 > 0.0 && 0.0 <= p.b <= 1.0 && scale > 0.0
    ensures r >= 0.0
  {
    var ratio := length as real / scale;
    assert ratio >= 0.0;
    assert p.b * ratio >= 0.0;
    p.k1 * (1.0 - p.b + p.b * ratio)
  }

  ghost predicate Usable(p: Params, docs: seq<Doc>) {
    p.k1 > 0.0 && 0.0 <= p.b <= 1.0 && docs != [] && DistinctDocs(docs)
  }

  /** The contribution of a term with these counts. */
  function WeightFrom(p: Params, count: nat, df: nat, qf: nat, tf: nat, length: nat, scale: real): real
    requires p.k1 > 0.0 && 0.0 <= p.b <= 1.0 && df <= count && tf > 0 && scale > 0.0
  {
    Min(qf, 3) as real * Idf(p, count, df) * tf as real * (p.k1 + 1.0) / (tf as real + Normalizer(p, length, scale))
  }

  /** What one query term contributes to one document that has it. */
  function Weight(p: Params, docs: seq<Doc>, query: seq<string>, d: Doc, t: string): real
    requires p.k1 > 0.0 && 0.0 <= p.b <= 1.0 && docs != [] && t in d.terms && |Holders(docs, t)| <= |docs|
  {
    ScalePositive(docs);
    assert multiset(d.terms)[t] > 0;
    WeightFrom(p, |docs|, |Holders(docs, t)|, Freq(query, t), Freq(d.terms, t), |d.terms|, Scale(AverageLength(docs)))
  }

  lemma ScalePositive(docs: seq<Doc>)
    requires docs != []
    ensures Scale(AverageLength(docs)) > 0.0
  {
  }

  lemma {:induction false} HoldersFew(docs: seq<Doc>, t: string)
    ensures |Holders(docs, t)| <= |docs|
  {
    if docs != [] { HoldersFew(docs[1..], t); }
  }

  /** The direct sum over some query terms. */
  function Score(p: Params, docs: seq<Doc>, query: seq<string>, d: Doc, ts: seq<string>): real
    requires p.k1 > 0.0 && 0.0 <= p.b <= 1.0 && docs != []
  {
    if ts == [] then 0.0 else
      var t := ts[|ts| - 1];
      HoldersFew(docs, t);
      Score(p, docs, query, d, ts[..|ts| - 1]) + if t in d.terms then Weight(p, docs, query, d, t) else 0.0
  }

  predicate Shares(ts: seq<string>, d: Doc) { exists i :: 0 <= i < |ts| && ts[i] in d.terms }

  lemma PositiveProduct(a: real, b: real)
    requires a > 0.0 && b > 0.0
    ensures a * b > 0.0
  {
  }

  lemma PositiveQuotient(a: real, b: real)
    requires a > 0.0 && b > 0.0
    ensures a / b > 0.0
  {
  }

  lemma WeightPositive(p: Params, docs: seq<Doc>, query: seq<string>, d: Doc, t: string)
    requires p.k1 > 0.0 && 0.0 <= p.b <= 1.0 && docs != [] && t in d.terms && |Holders(docs, t)| <= |docs|
    requires GoodLog(p.log) && t in query
    ensures Weight(p, docs, query, d, t) > 0.0
  {
    var tf := Freq(d.terms, t) as real;
    ScalePositive(docs);
    var df := |Holders(docs, t)|;
    assert multiset(query)[t] > 0 && multiset(d.terms)[t] > 0;
    var weight := Min(Freq(query, t), 3) as real;
    PositiveQuotient((|docs| - df) as real + 0.5, df as real + 0.5);
    assert Idf(p, |docs|, df) > 0.0;
    PositiveProduct(weight, Idf(p, |docs|, df));
    PositiveProduct(weight * Idf(p, |docs|, df), tf);
    PositiveProduct(weight * Idf(p, |docs|, df) * tf, p.k1 + 1.0);
    PositiveQuotient(weight * Idf(p, |docs|, df) * tf * (p.k1 + 1.0), tf + Normalizer(p, |d.terms|, Scale(AverageLength(docs))));
  }

  /** A document that shares a term with the query scores above zero, and any other scores
      exactly zero. */
  lemma {:induction false} ScorePositive(p: Params, docs: seq<Doc>, query: seq<string>, d: Doc, ts: seq<string>)
    requires p.k1 > 0.0 && 0.0 <= p.b <= 1.0 && docs != [] && GoodLog(p.log) && forall t :: t in ts ==> t in query
    ensures Score(p, docs, query, d, ts) >= 0.0
    ensures Score(p, docs, query, d, ts) > 0.0 <==> Shares(ts, d)
    decreases |ts|
  {
    if ts != [] {
      var front, t := ts[..|ts| - 1], ts[|ts| - 1];
      ScorePositive(p, docs, query, d, front);
      HoldersFew(docs, t);
      if t in d.terms { WeightPositive(p, docs, query, d, t); }
      if Shares(front, d) {
        var i :| 0 <= i < |front| && front[i] in d.terms;
        assert ts[i] in d.terms;
      }
      if Shares(ts, d) && t !in d.terms {
        var i :| 0 <= i < |ts| && ts[i] in d.terms;
        assert front[i] in d.terms;
      }
    }
  }

  // ---- The index ------------------------------------------------------------

  function EntriesOf(holders: seq<Doc>, t: string): (r: seq<(int, nat)>)
    ensures |r| == |holders| && forall i :: 0 <= i < |r| ==> r[i] == (holders[i].id, Freq(holders[i].terms, t))
  {
    seq(|holders|, i requires 0 <= i < |holders| => (holders[i].id, Freq(holders[i].terms, t)))
  }

  function Listed(postings: map<string, seq<(int, nat)>>, t: string): seq<(int, nat)> {
    if t in postings then postings[t] else []
  }

  /** Each term lists exactly the documents that have it, with how often. */
  ghost predicate Posted(docs: seq<Doc>, postings: map<string, seq<(int, nat)>>) {
    forall t :: Listed(postings, t) == EntriesOf(Holders(docs, t), t)
  }

  lemma OneMoreHolder(docs: seq<Doc>, i: nat, t: string)
    requires i < |docs|
    ensures Holders(docs[..i + 1], t) == Holders(docs[..i], t) + if t in docs[i].terms then [docs[i]] else []
  {
    FilterAppend((d: Doc) => t in d.terms, docs[..i], [docs[i]]);
    assert docs[..i + 1] == docs[..i] + [docs[i]];
  }

  lemma {:induction false} HoldersDistinct(docs: seq<Doc>, t: string)
    requires DistinctDocs(docs)
    ensures DistinctDocs(Holders(docs, t))
    ensures forall d :: d in Holders(docs, t) <==> d in docs && t in d.terms
  {
    forall d ensures d in Holders(docs, t) <==> d in docs && t in d.terms {
      FilterMembers((e: Doc) => t in e.terms, docs, d);
    }
    if docs != [] {
      HoldersDistinct(docs[1..], t);
      assert forall d :: d in docs[1..] ==> d.id != docs[0].id;
    }
  }

  /** The entries of `d` have been added for the terms in `done`. */
  ghost predicate PartlyPosted(before: map<string, seq<(int, nat)>>, postings: map<string, seq<(int, nat)>>, d: Doc,
                               done: seq<string>) {
    forall t :: Listed(postings, t) == if t in done then Listed(before, t) + [(d.id, Freq(d.terms, t))] else Listed(before, t)
  }

  lemma PostTerm(before: map<string, seq<(int, nat)>>, postings: map<string, seq<(int, nat)>>, d: Doc, done: seq<string>, t: string)
    requires PartlyPosted(before, postings, d, done) && t !in done
    ensures PartlyPosted(before, postings[t := Listed(postings, t) + [(d.id, Freq(d.terms, t))]], d, done + [t])
  {
    var now := postings[t := Listed(postings, t) + [(d.id, Freq(d.terms, t))]];
    forall u ensures Listed(now, u) ==
      if u in done + [t] then Listed(before, u) + [(d.id, Freq(d.terms, u))] else Listed(before, u) {}
  }

  lemma DocumentPosted(docs: seq<Doc>, i: nat, before: map<string, seq<(int, nat)>>, postings: map<string, seq<(int, nat)>>)
    requires i < |docs| && Posted(docs[..i], before) && PartlyPosted(before, postings, docs[i], Uniq(docs[i].terms))
    ensures Posted(docs[..i + 1], postings)
  {
    forall t ensures Listed(postings, t) == EntriesOf(Holders(docs[..i + 1], t), t) { OneMoreHolder(docs, i, t); }
  }

  /** The postings of one more document. */
  method PostDocument(docs: seq<Doc>, i: nat, before: map<string, seq<(int, nat)>>) returns (postings: map<string, seq<(int, nat)>>)
    requires i < |docs| && Posted(docs[..i], before)
    ensures Posted(docs[..i + 1], postings)
  {
    postings := before;
    var d := docs[i];
    var terms := Uniq(d.terms);
    for j := 0 to |terms|
      invariant PartlyPosted(before, postings, d, terms[..j])
    {
      assert terms[..j + 1] == terms[..j] + [terms[j]];
      PostTerm(before, postings, d, terms[..j], terms[j]);
      postings := postings[terms[j] := Listed(postings, terms[j]) + [(d.id, Freq(d.terms, terms[j]))]];
    }
    assert terms[..|terms|] == terms;
    DocumentPosted(docs, i, before, postings);
  }

  // ---- Scoring --------------------------------------------------------------

  function ScoreOf(scores: map<int, real>, id: int): real { if id in scores then scores[id] else 0.0 }

  /** `scores` holds the documents that share a term in `ts`, each with its sum over them. */
  ghost predicate Scored(p: Params, docs: seq<Doc>, query: seq<string>, excluded: set<int>, ts: seq<string>, scores: map<int, real>)
    requires p.k1 > 0.0 && 0.0 <= p.b <= 1.0 && docs != []
  {
    && (forall id :: id in scores ==> exists i :: 0 <= i < |docs| && docs[i].id == id)
    && (forall i :: 0 <= i < |docs| ==>
          && (docs[i].id in scores <==> docs[i].id !in excluded && Shares(ts, docs[i]))
          && (docs[i].id in scores ==> scores[docs[i].id] == Score(p, docs, query, docs[i], ts)))
  }

  /** The weights of a term in some of the documents that have it. */
  function WeightsFor(p: Params, docs: seq<Doc>, query: seq<string>, t: string, holders: seq<Doc>): (r: seq<real>)
    requires p.k1 > 0.0 && 0.0 <= p.b <= 1.0 && docs != [] && |Holders(docs, t)| <= |docs|
    requires forall k :: 0 <= k < |holders| ==> t in holders[k].terms
    ensures |r| == |holders|
  {
    if holders == [] then []
    else WeightsFor(p, docs, query, t, holders[..|holders| - 1]) + [Weight(p, docs, query, holders[|holders| - 1], t)]
  }

  function WeightsOf(p: Params, docs: seq<Doc>, query: seq<string>, t: string): (r: seq<real>)
    requires p.k1 > 0.0 && 0.0 <= p.b <= 1.0 && docs != [] && |Holders(docs, t)| <= |docs|
    requires forall k :: 0 <= k < |Holders(docs, t)| ==> t in Holders(docs, t)[k].terms
    ensures |r| == |Holders(docs, t)|
  {
    WeightsFor(p, docs, query, t, Holders(docs, t))
  }

  lemma {:induction false} WeightAt(p: Params, docs: seq<Doc>, query: seq<string>, t: string, holders: seq<Doc>, k: nat)
    requires p.k1 > 0.0 && 0.0 <= p.b <= 1.0 && docs != [] && |Holders(docs, t)| <= |docs|
    requires k < |holders| && forall k :: 0 <= k < |holders| ==> t in holders[k].terms
    ensures WeightsFor(p, docs, query, t, holders)[k] == Weight(p, docs, query, holders[k], t)
    decreases |holders|
  {
    if k < |holders| - 1 { WeightAt(p, docs, query, t, holders[..|holders| - 1], k); }
  }

  lemma WeightIs(p: Params, docs: seq<Doc>, query: seq<string>, t: string, j: nat)
    requires p.k1 > 0.0 && 0.0 <= p.b <= 1.0 && docs != [] && j < |Holders(docs, t)| <= |docs|
    requires forall k :: 0 <= k < |Holders(docs, t)| ==> t in Holders(docs, t)[k].terms
    ensures Freq(Holders(docs, t)[j].terms, t) > 0 && Scale(AverageLength(docs)) > 0.0
    ensures var d := Holders(docs, t)[j];
      WeightsOf(p, docs, query, t)[j] ==
      WeightFrom(p, |docs|, |Holders(docs, t)|, Freq(query, t), Freq(d.terms, t), |d.terms|, Scale(AverageLength(docs)))
  {
    ScalePositive(docs);
    assert multiset(Holders(docs, t)[j].terms)[t] > 0;
    WeightAt(p, docs, query, t, Holders(docs, t), j);
  }

  predicate Touched(h: seq<Doc>, excluded: set<int>, j: nat, id: int)
    requires j <= |h|
  {
    exists k :: 0 <= k < j && h[k].id !in excluded && h[k].id == id
  }

  /** The first `j` holders of a term have been given their weights. */
  ghost predicate Adding(h: seq<Doc>, ws: seq<real>, excluded: set<int>, before: map<int, real>, scores: map<int, real>, j: nat)
    requires j <= |h| == |ws|
  {
    && (forall k :: 0 <= k < j && h[k].id !in excluded ==> h[k].id in scores && scores[h[k].id] == ScoreOf(before, h[k].id) + ws[k])
    && (forall id :: !Touched(h, excluded, j, id) ==> (id in scores <==> id in before) && ScoreOf(scores, id) == ScoreOf(before, id))
  }

  lemma TouchedNext(h: seq<Doc>, excluded: set<int>, j: nat, id: int)
    requires j < |h|
    ensures Touched(h, excluded, j + 1, id) <==> Touched(h, excluded, j, id) || (h[j].id !in excluded && h[j].id == id)
  {
  }

  lemma AddOne(h: seq<Doc>, ws: seq<real>, excluded: set<int>, before: map<int, real>, scores: map<int, real>, now: map<int, real>, j: nat)
    requires j < |h| == |ws| && DistinctDocs(h) && Adding(h, ws, excluded, before, scores, j)
    requires now == if h[j].id in excluded then scores else scores[h[j].id := ScoreOf(scores, h[j].id) + ws[j]]
    ensures Adding(h, ws, excluded, before, now, j + 1)
  {
    assert !Touched(h, excluded, j, h[j].id);
    forall id | !Touched(h, excluded, j + 1, id)
      ensures (id in now <==> id in before) && ScoreOf(now, id) == ScoreOf(before, id)
    {
      TouchedNext(h, excluded, j, id);
    }
  }

  lemma TermAdded(p: Params, docs: seq<Doc>, query: seq<string>, excluded: set<int>, ts: seq<string>, t: string,
                  before: map<int, real>, scores: map<int, real>)
    requires p.k1 > 0.0 && 0.0 <= p.b <= 1.0 && docs != [] && DistinctDocs(docs)
    requires |Holders(docs, t)| <= |docs| && forall k :: 0 <= k < |Holders(docs, t)| ==> t in Holders(docs, t)[k].terms
    requires Scored(p, docs, query, excluded, ts, before)
    requires Adding(Holders(docs, t), WeightsOf(p, docs, query, t), excluded, before, scores, |Holders(docs, t)|)
    ensures Scored(p, docs, query, excluded, ts + [t], scores)
  {
    HoldersDistinct(docs, t);
    forall i | 0 <= i < |docs|
      ensures docs[i].id in scores <==> docs[i].id !in excluded && Shares(ts + [t], docs[i])
      ensures docs[i].id in scores ==> scores[docs[i].id] == Score(p, docs, query, docs[i], ts + [t])
    {
      DocumentScored(p, docs, query, excluded, ts, t, before, scores, i);
    }
    forall id | id in scores ensures exists i :: 0 <= i < |docs| && docs[i].id == id {
      if id !in before {
        var h := Holders(docs, t);
        assert Touched(h, excluded, |h|, id);
        var k :| 0 <= k < |h| && h[k].id !in excluded && h[k].id == id;
        assert h[k] in docs;
      }
    }
  }

  lemma SharesMore(ts: seq<string>, t: string, d: Doc)
    ensures Shares(ts + [t], d) <==> Shares(ts, d) || t in d.terms
  {
    var more := ts + [t];
    if Shares(ts, d) {
      var i :| 0 <= i < |ts| && ts[i] in d.terms;
      assert more[i] in d.terms;
    }
    if t in d.terms { assert more[|ts|] in d.terms; }
    if Shares(more, d) && t !in d.terms {
      var i :| 0 <= i < |more| && more[i] in d.terms;
      assert ts[i] in d.terms;
    }
  }

  lemma DocumentScored(p: Params, docs: seq<Doc>, query: seq<string>, excluded: set<int>, ts: seq<string>, t: string,
                       before: map<int, real>, scores: map<int, real>, i: nat)
    requires p.k1 > 0.0 && 0.0 <= p.b <= 1.0 && docs != [] && DistinctDocs(docs) && i < |docs|
    requires |Holders(docs, t)| <= |docs| && forall k :: 0 <= k < |Holders(docs, t)| ==> t in Holders(docs, t)[k].terms
    requires forall d :: d in Holders(docs, t) <==> d in docs && t in d.terms
    requires Scored(p, docs, query, excluded, ts, before)
    requires Adding(Holders(docs, t), WeightsOf(p, docs, query, t), excluded, before, scores, |Holders(docs, t)|)
    ensures docs[i].id in scores <==> docs[i].id !in excluded && Shares(ts + [t], docs[i])
    ensures docs[i].id in scores ==> scores[docs[i].id] == Score(p, docs, query, docs[i], ts + [t])
  {
    var d, h := docs[i], Holders(docs, t);
    SharesMore(ts, t, d);
    assert (ts + [t])[..|ts|] == ts;
    if !Shares(ts, d) { NotShared(p, docs, query, d, ts); }
    if t in d.terms {
      assert d in h;
      var k :| 0 <= k < |h| && h[k] == d;
      WeightAt(p, docs, query, t, h, k);
    } else {
      forall k | 0 <= k < |h| && h[k].id !in excluded ensures h[k].id != d.id {
        assert h[k] in docs;
        SameDoc(docs, h[k], d);
      }
      assert !Touched(h, excluded, |h|, d.id);
    }
  }

  lemma SameDoc(docs: seq<Doc>, d: Doc, e: Doc)
    requires DistinctDocs(docs) && d in docs && e in docs
    ensures d.id == e.id ==> d == e
  {
    var i :| 0 <= i < |docs| && docs[i] == d;
    var j :| 0 <= j < |docs| && docs[j] == e;
  }

  lemma {:induction false} NotShared(p: Params, docs: seq<Doc>, query: seq<string>, d: Doc, ts: seq<string>)
    requires p.k1 > 0.0 && 0.0 <= p.b <= 1.0 && docs != [] && !Shares(ts, d)
    ensures Score(p, docs, query, d, ts) == 0.0
    decreases |ts|
  {
    if ts != [] {
      var front := ts[..|ts| - 1];
      assert forall i :: 0 <= i < |front| ==> front[i] == ts[i];
      NotShared(p, docs, query, d, front);
    }
  }

  /** The weight of a posting, given what is the same for all postings of a term. */
  function Weigher(p: Params, count: nat, df: nat, qf: nat, lengths: map<int, nat>, scale: real): (int, nat) -> real
    requires p.k1 > 0.0 && 0.0 <= p.b <= 1.0 && df <= count && scale > 0.0
  {
    (id: int, tf: nat) => if id in lengths && tf > 0 then WeightFrom(p, count, df, qf, tf, lengths[id], scale) else 0.0
  }

  /** The postings of a term, in order, skipping excluded documents. */
  method AddPostings(list: seq<(int, nat)>, weigh: (int, nat) -> real, excluded: set<int>, before: map<int, real>,
                     ghost h: seq<Doc>, ghost ws: seq<real>) returns (scores: map<int, real>)
    requires |list| == |h| == |ws| && DistinctDocs(h)
    requires forall j :: 0 <= j < |list| ==> list[j].0 == h[j].id && weigh(list[j].0, list[j].1) == ws[j]
    ensures Adding(h, ws, excluded, before, scores, |h|)
  {
    scores := before;
    for j := 0 to |list|
      invariant Adding(h, ws, excluded, before, scores, j)
    {
      var (id, tf) := list[j];
      ghost var was := scores;
      if id !in excluded {
        scores := scores[id := ScoreOf(scores, id) + weigh(id, tf)];
      }
      AddOne(h, ws, excluded, before, was, scores, j);
    }
  }

  class Index {
    const p: Params
    const count: nat
    var lengths: map<int, nat>
    var average: real
    var postings: map<string, seq<(int, nat)>>
    ghost const docs: seq<Doc>

    ghost predicate Valid() reads this {
      && Usable(p, docs) && count == |docs| && average == AverageLength(docs) && Posted(docs, postings)
      && forall i :: 0 <= i < |docs| ==> docs[i].id in lengths && lengths[docs[i].id] == |docs[i].terms|
    }

    constructor (p: Params, docs: seq<Doc>)
      requires Usable(p, docs)
      ensures Valid() && this.p == p && this.docs == docs
    {
      this.p, this.count, this.docs := p, |docs|, docs;
      lengths, postings := map[], map[];
      average := 0.0;
      new;
      var total := 0;
      for i := 0 to |docs|
        invariant Posted(docs[..i], postings) && total == TotalLength(docs[..i])
        invariant forall j :: 0 <= j < i ==> docs[j].id in lengths && lengths[docs[j].id] == |docs[j].terms|
      {
        assert docs[..i + 1][..i] == docs[..i];
        lengths := lengths[docs[i].id := |docs[i].terms|];
        total := total + |docs[i].terms|;
        postings := PostDocument(docs, i, postings);
      }
      assert docs[..|docs|] == docs;
      average := total as real / |docs| as real;
    }

    /** One query term over its postings. */
    method AddTerm(query: seq<string>, excluded: set<int>, t: string, before: map<int, real>) returns (scores: map<int, real>)
      requires Valid() && Usable(p, docs) && |Holders(docs, t)| <= |docs|
      requires forall k :: 0 <= k < |Holders(docs, t)| ==> t in Holders(docs, t)[k].terms
      ensures Adding(Holders(docs, t), WeightsOf(p, docs, query, t), excluded, before, scores, |Holders(docs, t)|)
    {
      var list := Listed(postings, t);
      var weigh := Weigher(p, count, |list|, Freq(query, t), lengths, Scale(average));
      HoldersDistinct(docs, t);
      forall j | 0 <= j < |list| ensures weigh(list[j].0, list[j].1) == WeightsOf(p, docs, query, t)[j] {
        LengthOf(docs, lengths, Holders(docs, t)[j]);
        WeightIs(p, docs, query, t, j);
      }
      scores := AddPostings(list, weigh, excluded, before, Holders(docs, t), WeightsOf(p, docs, query, t));
    }

    /** `score_documents`: exactly the documents that are not excluded and share a term with
        the query, each with its direct sum. */
    method ScoreDocuments(query: seq<string>, excluded: set<int>) returns (scores: map<int, real>)
      requires Valid() && Usable(p, docs)
      ensures Scored(p, docs, query, excluded, Uniq(query), scores)
    {
      scores := map[];
      var terms := Uniq(query);
      for i := 0 to |terms|
        invariant Scored(p, docs, query, excluded, terms[..i], scores)
      {
        HoldersFew(docs, terms[i]);
        HoldersDistinct(docs, terms[i]);
        ghost var before := scores;
        scores := AddTerm(query, excluded, terms[i], scores);
        TermAdded(p, docs, query, excluded, terms[..i], terms[i], before, scores);
        assert terms[..i + 1] == terms[..i] + [terms[i]];
      }
      assert terms[..|terms|] == terms;
    }
  }

  lemma LengthOf(docs: seq<Doc>, lengths: map<int, nat>, d: Doc)
    requires forall i :: 0 <= i < |docs| ==> docs[i].id in lengths && lengths[docs[i].id] == |docs[i].terms|
    requires d in docs
    ensures d.id in lengths && lengths[d.id] == |d.terms|
  {
  }

  // ---- What the scores mean -------------------------------------------------

  /** A document is scored exactly when it is not excluded and shares a term, its score is
      then positive, and leaving other documents out of the query changes no score. */
  lemma ScoresAreExact(p: Params, docs: seq<Doc>, query: seq<string>, excluded: set<int>, scores: map<int, real>, i: nat)
    requires p.k1 > 0.0 && 0.0 <= p.b <= 1.0 && docs != [] && GoodLog(p.log) && i < |docs|
    requires Scored(p, docs, query, excluded, Uniq(query), scores)
    ensures docs[i].id in scores <==> docs[i].id !in excluded && exists t :: t in query && t in docs[i].terms
    ensures docs[i].id in scores ==> scores[docs[i].id] > 0.0
  {
    ScorePositive(p, docs, query, docs[i], Uniq(query));
    if t :| t in query && t in docs[i].terms {
      var k :| 0 <= k < |Uniq(query)| && Uniq(query)[k] == t;
      assert Uniq(query)[k] in docs[i].terms;
    }
  }

  lemma ExclusionIsLocal(p: Params, docs: seq<Doc>, query: seq<string>, fewer: set<int>, more: set<int>,
                         all: map<int, real>, some: map<int, real>, id: int)
    requires p.k1 > 0.0 && 0.0 <= p.b <= 1.0 && docs != [] && fewer <= more
    requires Scored(p, docs, query, fewer, Uniq(query), all) && Scored(p, docs, query, more, Uniq(query), some)
    ensures id in some <==> id in all && id !in more
    ensures id in some ==> some[id] == all[id]
  {
    if id in all || id in some {
      var i :| 0 <= i < |docs| && docs[i].id == id;
    }
  }

  // ---- Ranking --------------------------------------------------------------

  datatype Hit = Hit(id: int, score: real)

  predicate HitLe(x: Hit, y: Hit) { x.score > y.score || (x.score == y.score && x.id <= y.id) }

  /** Every scored document once, highest score first, ties by id. */
  ghost predicate IsRanking(scores: map<int, real>, hits: seq<Hit>) {
    && Ordered(HitLe, hits)
    && (forall i, j :: 0 <= i < j < |hits| ==> hits[i].id != hits[j].id)
    && (forall i :: 0 <= i < |hits| ==> hits[i].id in scores && hits[i].score == scores[hits[i].id])
    && (forall id :: id in scores ==> exists i :: 0 <= i < |hits| && hits[i].id == id)
  }

  /** `rank_scores`, over the scored ids in any order. */
  method RankScores(scores: map<int, real>) returns (hits: seq<Hit>)
    ensures IsRanking(scores, hits)
  {
    var items: seq<Hit> := [];
    var todo := scores.Keys;
    while todo != {}
      invariant todo <= scores.Keys && Collected(scores, scores.Keys - todo, items)
      decreases |todo|
    {
      ghost var one := Any(todo);
      assert one in todo;
      var id :| id in todo;
      OneMoreHit(scores, scores.Keys - todo, items, id);
      assert scores.Keys - (todo - {id}) == (scores.Keys - todo) + {id};
      items, todo := items + [Hit(id, scores[id])], todo - {id};
    }
    assert scores.Keys - {} == scores.Keys;
    SortedRanking(scores, items);
    hits := Sort(HitLe, items);
  }

  ghost predicate Collected(scores: map<int, real>, done: set<int>, items: seq<Hit>) {
    && (forall i :: 0 <= i < |items| ==> items[i].id in done && items[i].id in scores && items[i].score == scores[items[i].id])
    && (forall i, j :: 0 <= i < j < |items| ==> items[i].id != items[j].id)
    && (forall id :: id in done ==> exists i :: 0 <= i < |items| && items[i].id == id)
  }

  lemma OneMoreHit(scores: map<int, real>, done: set<int>, items: seq<Hit>, id: int)
    requires Collected(scores, done, items) && id !in done && id in scores
    ensures Collected(scores, done + {id}, items + [Hit(id, scores[id])])
  {
    var more := items + [Hit(id, scores[id])];
    assert more[|items|].id == id;
    forall x | x in done + {id} ensures exists i :: 0 <= i < |more| && more[i].id == x {
      if x in done {
        var i :| 0 <= i < |items| && items[i].id == x;
        assert more[i].id == x;
      }
    }
  }

  lemma SortedRanking(scores: map<int, real>, items: seq<Hit>)
    requires Collected(scores, scores.Keys, items)
    ensures IsRanking(scores, Sort(HitLe, items))
  {
    var hits := Sort(HitLe, items);
    HitsLinear(items);
    SortOrders(HitLe, items);
    SortDistinct(HitLe, items);
    forall i, j | 0 <= i < j < |hits| ensures hits[i].id != hits[j].id { TwoHits(items, hits[i], hits[j]); }
    forall id | id in scores ensures exists i :: 0 <= i < |hits| && hits[i].id == id {
      var i :| 0 <= i < |items| && items[i].id == id;
      assert items[i] in hits;
    }
    forall i | 0 <= i < |hits| ensures hits[i].id in scores && hits[i].score == scores[hits[i].id] {
      assert hits[i] in items;
    }
  }

  lemma TwoHits(items: seq<Hit>, x: Hit, y: Hit)
    requires (forall i, j :: 0 <= i < j < |items| ==> items[i].id != items[j].id) && x in items && y in items && x != y
    ensures x.id != y.id
  {
    var i :| 0 <= i < |items| && items[i] == x;
    var j :| 0 <= j < |items| && items[j] == y;
  }

  lemma HitsLinear(items: seq<Hit>)
    requires forall i, j :: 0 <= i < j < |items| ==> items[i].id != items[j].id
    ensures LinearOn(HitLe, items) && Distinct(items)
  {
  }

  /** Building an index fails on a bad parameter or an empty corpus, and on nothing else. */
  method Build(p: Params, docs: seq<Doc>) returns (r: Option<Index>)
    requires DistinctDocs(docs)
    ensures r.Some? <==> p.k1 > 0.0 && 0.0 <= p.b <= 1.0 && docs != []
    ensures r.Some? ==> fresh(r.value) && r.value.Valid() && r.value.p == p && r.value.docs == docs
  {
    if p.k1 <= 0.0 || !(0.0 <= p.b <= 1.0) || docs == [] { return None; }
    var index := new Index(p, docs);
    r := Some(index);
  }
}
