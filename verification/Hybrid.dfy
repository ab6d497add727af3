/** The Hybrid ranker: its lexical pool, the fusion of the two pools and the final order. */
module Hybrid {
  import opened Prelude
  import opened Sorting
  import Bm25

  const POOL := 100
  const RANK_CONSTANT := 10.0
  const DENSE_WEIGHT := 0.25
  const LEXICAL_WEIGHT := 1.0

  // ---- Eligibility ----------------------------------------------------------

  /** `title` is the article's title under the one normalisation both sides use. */
  datatype Article = Article(title: string, fingerprint: Option<string>)

  /** `other` stands for the rules only the database can check. */
  datatype Rules = Rules(corpus: map<int, Article>, blocked: map<int, set<int>>, other: (int, int) -> bool)

  function Blocked(r: Rules, source: int): set<int> { if source in r.blocked then r.blocked[source] else {} }

  /** The shared predicate: neither half of the union offers a target without it. */
  predicate Eligible(r: Rules, source: int, target: int) {
    && source in r.corpus && target in r.corpus && target != source
    && !(r.corpus[source].fingerprint.Some? && r.corpus[source].fingerprint == r.corpus[target].fingerprint)
    && r.corpus[target].title != r.corpus[source].title
    && target !in Blocked(r, source) && r.other(source, target)
  }

  predicate Duplicates(r: Rules, source: int, x: int) {
    && source in r.corpus && x in r.corpus && x != source
    && (r.corpus[x].title == r.corpus[source].title
        || (r.corpus[source].fingerprint.Some? && r.corpus[source].fingerprint.value != ""
            && r.corpus[x].fingerprint == r.corpus[source].fingerprint))
  }

  function Group(groups: map<string, set<int>>, key: string): set<int> { if key in groups then groups[key] else {} }

  predicate HasTitle(r: Rules, x: int, k: string) { x in r.corpus && r.corpus[x].title == k }

  predicate HasFingerprint(r: Rules, x: int, k: string) { x in r.corpus && r.corpus[x].fingerprint == Some(k) && k != "" }

  ghost predicate ByTitle(r: Rules, done: set<int>, groups: map<string, set<int>>) {
    forall k, x :: x in Group(groups, k) <==> x in done && HasTitle(r, x, k)
  }

  ghost predicate ByFingerprint(r: Rules, done: set<int>, groups: map<string, set<int>>) {
    forall k, x :: x in Group(groups, k) <==> x in done && HasFingerprint(r, x, k)
  }

  function AddTo(groups: map<string, set<int>>, key: string, x: int): map<string, set<int>> {
    groups[key := Group(groups, key) + {x}]
  }

  lemma AddedTo(groups: map<string, set<int>>, key: string, x: int)
    ensures forall k, y :: y in Group(AddTo(groups, key, x), k) <==> y in Group(groups, k) || (k == key && y == x)
  {
  }

  lemma OneMoreTitle(r: Rules, done: set<int>, titles: map<string, set<int>>, x: int)
    requires ByTitle(r, done, titles) && x in r.corpus
    ensures ByTitle(r, done + {x}, AddTo(titles, r.corpus[x].title, x))
  {
    AddedTo(titles, r.corpus[x].title, x);
  }

  lemma OneMoreFingerprint(r: Rules, done: set<int>, groups: map<string, set<int>>, x: int)
    requires ByFingerprint(r, done, groups) && x in r.corpus
    ensures var f := r.corpus[x].fingerprint;
            ByFingerprint(r, done + {x}, if f.Some? && f.value != "" then AddTo(groups, f.value, x) else groups)
  {
    var f := r.corpus[x].fingerprint;
    if f.Some? { AddedTo(groups, f.value, x); }
  }

  /** One immutable site snapshot, with its duplicate groups. */
  class Ranker {
    const rules: Rules
    var titles: map<string, set<int>>
    var fingerprints: map<string, set<int>>

    ghost predicate Valid() reads this {
      ByTitle(rules, rules.corpus.Keys, titles) && ByFingerprint(rules, rules.corpus.Keys, fingerprints)
    }

    constructor (rules: Rules)
      ensures Valid() && this.rules == rules
    {
      this.rules := rules;
      titles, fingerprints := map[], map[];
      new;
      var todo := rules.corpus.Keys;
      while todo != {}
        invariant todo <= rules.corpus.Keys
        invariant ByTitle(rules, rules.corpus.Keys - todo, titles)
        invariant ByFingerprint(rules, rules.corpus.Keys - todo, fingerprints)
        decreases |todo|
      {
        ghost var one := Any(todo);
        assert one in todo;
        var x :| x in todo;
        var a := rules.corpus[x];
        OneMoreTitle(rules, rules.corpus.Keys - todo, titles, x);
        OneMoreFingerprint(rules, rules.corpus.Keys - todo, fingerprints, x);
        titles := AddTo(titles, a.title, x);
        if a.fingerprint.Some? && a.fingerprint.value != "" {
          fingerprints := AddTo(fingerprints, a.fingerprint.value, x);
        }
        assert rules.corpus.Keys - (todo - {x}) == (rules.corpus.Keys - todo) + {x};
        todo := todo - {x};
      }
      assert rules.corpus.Keys - {} == rules.corpus.Keys;
    }

    /** `_duplicate_ids` */
    method DuplicateIds(source: int) returns (ids: set<int>)
      requires Valid() && source in rules.corpus
      ensures forall x :: x in ids <==> Duplicates(rules, source, x)
    {
      var a := rules.corpus[source];
      ids := Group(titles, a.title);
      assert forall x :: x in ids <==> HasTitle(rules, x, a.title);
      if a.fingerprint.Some? && a.fingerprint.value != "" {
        var same := Group(fingerprints, a.fingerprint.value);
        assert forall x :: x in same <==> HasFingerprint(rules, x, a.fingerprint.value);
        ids := ids + same;
      }
      ids := ids - {source};
    }

    /** What is left out before the lexical half is scored. */
    method ExcludedIds(source: int) returns (ids: set<int>)
      requires Valid() && source in rules.corpus
      ensures forall x :: x in ids ==> !Eligible(rules, source, x)
      ensures ids >= Blocked(rules, source) + {source}
    {
      var duplicates := DuplicateIds(source);
      ids := Blocked(rules, source) + duplicates + {source};
    }
  }

  // ---- The lexical pool -----------------------------------------------------

  lemma {:induction false} FilterSame<T>(p: T -> bool, q: T -> bool, xs: seq<T>)
    requires forall i :: 0 <= i < |xs| ==> p(xs[i]) == q(xs[i])
    ensures Filter(p, xs) == Filter(q, xs)
  {
    if xs != [] {
      assert forall i :: 0 <= i < |xs[1..]| ==> xs[1..][i] == xs[i + 1];
      FilterSame(p, q, xs[1..]);
    }
  }

  /** Walking the ranking a page at a time, checking each page's targets that the dense half
      has not vouched for, until the pool is full: `dense` are the ids the dense half found. */
  method LexicalPool(rules: Rules, source: int, ranked: seq<int>, dense: set<int>) returns (pool: seq<int>)
    requires forall x :: x in dense ==> Eligible(rules, source, x)
    ensures pool == Take(Filter((x: int) => Eligible(rules, source, x), ranked), POOL)
  {
    var semantic := dense;
    pool := [];
    var start := 0;
    ghost var p := (x: int) => Eligible(rules, source, x);
    while start < |ranked| && |pool| < POOL
      invariant start <= |ranked| && (forall x :: x in semantic ==> p(x))
      invariant pool == Filter(p, ranked[..start])
      decreases |ranked| - start
    {
      var end := Min(start + POOL, |ranked|);
      var page := ranked[start..end];
      semantic := semantic + set x | x in page && x !in semantic && Eligible(rules, source, x);
      FilterSame((x: int) => x in semantic, p, page);
      FilterAppend(p, ranked[..start], page);
      assert ranked[..end] == ranked[..start] + page;
      pool := pool + Filter((x: int) => x in semantic, page);
      start := end;
    }
    FilterAppend(p, ranked[..start], ranked[start..]);
    assert ranked == ranked[..start] + ranked[start..];
    pool := Take(pool, POOL);
  }

  function Ids(hits: seq<Bm25.Hit>): (r: seq<int>)
    ensures |r| == |hits| && forall i :: 0 <= i < |hits| ==> r[i] == hits[i].id
  {
    if hits == [] then [] else [hits[0].id] + Ids(hits[1..])
  }

  lemma {:induction false} FilterIds(p: int -> bool, hits: seq<Bm25.Hit>)
    ensures Filter(p, Ids(hits)) == Ids(Filter((h: Bm25.Hit) => p(h.id), hits))
  {
    if hits != [] {
      FilterIds(p, hits[1..]);
      assert Ids(hits)[1..] == Ids(hits[1..]);
    }
  }

  lemma {:induction false} FilterTwice<T>(p: T -> bool, q: T -> bool, xs: seq<T>)
    requires forall x :: p(x) ==> q(x)
    ensures Filter(p, Filter(q, xs)) == Filter(p, xs)
  {
    if xs != [] {
      FilterTwice(p, q, xs[1..]);
    }
  }

  /** Two rankings of scores that differ only in what is excluded: the smaller is the larger
      without those documents. */
  lemma RankingWithout(all: map<int, real>, some: map<int, real>, excluded: set<int>, full: seq<Bm25.Hit>, hits: seq<Bm25.Hit>)
    requires Bm25.IsRanking(all, full) && Bm25.IsRanking(some, hits)
    requires forall id :: id in some <==> id in all && id !in excluded
    requires forall id :: id in some ==> some[id] == all[id]
    ensures hits == Filter((h: Bm25.Hit) => h.id !in excluded, full)
  {
    var p := (h: Bm25.Hit) => h.id !in excluded;
    var kept := Filter(p, full);
    Bm25.HitsLinear(hits);
    FilterOrdered(Bm25.HitLe, p, full);
    Bm25.HitsLinear(full);
    DistinctMultiset(full);
    DistinctMultiset(hits);
    forall h ensures multiset(hits)[h] == multiset(kept)[h] {
      FilterCount(p, full, h);
      InBoth(all, some, excluded, full, hits, h);
      assert h in multiset(hits) <==> h in hits;
      assert h in multiset(full) <==> h in full;
    }
    assert multiset(hits) == multiset(kept);
    OrderedUnique(Bm25.HitLe, hits, kept);
  }

  lemma InBoth(all: map<int, real>, some: map<int, real>, excluded: set<int>, full: seq<Bm25.Hit>, hits: seq<Bm25.Hit>, h: Bm25.Hit)
    requires Bm25.IsRanking(all, full) && Bm25.IsRanking(some, hits)
    requires forall id :: id in some <==> id in all && id !in excluded
    requires forall id :: id in some ==> some[id] == all[id]
    ensures h in hits <==> h in full && h.id !in excluded
  {
    if h in hits {
      var i :| 0 <= i < |full| && full[i].id == h.id;
      assert full[i] == h;
    }
    if h in full && h.id !in excluded {
      var i :| 0 <= i < |hits| && hits[i].id == h.id;
      assert hits[i] == h;
    }
  }

  /** The lexical pool is the first hundred eligible targets of the whole BM25 ranking: the
      early exclusions and the paging change nothing. */
  lemma PoolIsFiltered(rules: Rules, source: int, all: map<int, real>, some: map<int, real>, excluded: set<int>,
                       full: seq<Bm25.Hit>, hits: seq<Bm25.Hit>)
    requires Bm25.IsRanking(all, full) && Bm25.IsRanking(some, hits)
    requires forall id :: id in some <==> id in all && id !in excluded
    requires forall id :: id in some ==> some[id] == all[id]
    requires forall x :: x in excluded ==> !Eligible(rules, source, x)
    ensures Filter((x: int) => Eligible(rules, source, x), Ids(hits)) == Filter((x: int) => Eligible(rules, source, x), Ids(full))
  {
    var p := (x: int) => Eligible(rules, source, x);
    var q := (x: int) => x !in excluded;
    RankingWithout(all, some, excluded, full, hits);
    FilterIds(q, full);
    FilterSame((h: Bm25.Hit) => h.id !in excluded, (h: Bm25.Hit) => q(h.id), full);
    assert Ids(hits) == Filter(q, Ids(full));
    FilterTwice(p, q, Ids(full));
  }

  /** The lexical half of `HybridRanker.rank`. `all` and `full` are what scoring and ranking
      the whole corpus would have given. */
  method LexicalHalf(ranker: Ranker, index: Bm25.Index, source: int, query: seq<string>, dense: set<int>,
                     ghost all: map<int, real>, ghost full: seq<Bm25.Hit>)
    returns (pool: seq<int>, scores: map<int, real>)
    requires ranker.Valid() && source in ranker.rules.corpus && index.Valid() && Bm25.Usable(index.p, index.docs)
    requires forall x :: x in dense ==> Eligible(ranker.rules, source, x)
    requires Bm25.Scored(index.p, index.docs, query, {}, Bm25.Uniq(query), all) && Bm25.IsRanking(all, full)
    ensures pool == Take(Filter((x: int) => Eligible(ranker.rules, source, x), Ids(full)), POOL)
    ensures forall x :: x in scores ==> x in all && scores[x] == all[x]
    ensures forall x :: x in all && Eligible(ranker.rules, source, x) ==> x in scores
  {
    var excluded := ranker.ExcludedIds(source);
    scores := index.ScoreDocuments(query, excluded);
    forall id ensures id in scores <==> id in all && id !in excluded
              ensures id in scores ==> scores[id] == all[id] {
      Bm25.ExclusionIsLocal(index.p, index.docs, query, {}, excluded, all, scores, id);
    }
    var hits := Bm25.RankScores(scores);
    PoolIsFiltered(ranker.rules, source, all, scores, excluded, full, hits);
    pool := LexicalPool(ranker.rules, source, Ids(hits), dense);
  }

  // ---- Fusion ---------------------------------------------------------------

  /** What one place in a ranking is worth. */
  function Share(weight: real, place: nat): real { weight / (RANK_CONSTANT + place as real) }

  /** What one ranking contributes to an article, over every place it has there. */
  function Contribution(ranking: seq<int>, weight: real, id: int): real {
    if ranking == [] then 0.0 else
      var n := |ranking|;
      Contribution(ranking[..n - 1], weight, id) + if ranking[n - 1] == id then Share(weight, n) else 0.0
  }

  function FusedScore(dense: seq<int>, lexical: seq<int>, id: int): real {
    Contribution(dense, DENSE_WEIGHT, id) + Contribution(lexical, LEXICAL_WEIGHT, id)
  }

  /** The first place of an article in a ranking, counted from 1; 0 when it has none. */
  function Place(ranking: seq<int>, id: int): (r: nat)
    ensures r == 0 <==> id !in ranking
    ensures r > 0 ==> r <= |ranking| && ranking[r - 1] == id && id !in ranking[..r - 1]
  {
    if ranking == [] then 0 else
      var front := ranking[..|ranking| - 1];
      var p := Place(front, id);
      assert ranking == front + [ranking[|ranking| - 1]];
      assert p > 0 ==> ranking[..p - 1] == front[..p - 1];
      if p > 0 then p else if ranking[|ranking| - 1] == id then |ranking| else 0
  }

  function BestPlace(dense: seq<int>, lexical: seq<int>, id: int): nat {
    var d, l := Place(dense, id), Place(lexical, id);
    if d == 0 then l else if l == 0 then d else if d <= l then d else l
  }

  predicate FusedLe(dense: seq<int>, lexical: seq<int>, x: int, y: int) {
    var a, b := FusedScore(dense, lexical, x), FusedScore(dense, lexical, y);
    var p, q := BestPlace(dense, lexical, x), BestPlace(dense, lexical, y);
    a > b || (a == b && (p < q || (p == q && x <= y)))
  }

  /** The union of the two rankings in fused order. */
  ghost predicate IsFused(dense: seq<int>, lexical: seq<int>, fused: seq<int>) {
    && Ordered((x: int, y: int) => FusedLe(dense, lexical, x, y), fused) && Distinct(fused)
    && forall x :: x in fused <==> x in dense || x in lexical
  }

  lemma {:induction false} ContributionIs(ranking: seq<int>, weight: real, id: int)
    requires Distinct(ranking)
    ensures Contribution(ranking, weight, id) ==
      if Place(ranking, id) == 0 then 0.0 else Share(weight, Place(ranking, id))
    decreases |ranking|
  {
    if ranking != [] {
      var n := |ranking|;
      var front := ranking[..n - 1];
      ContributionIs(front, weight, id);
      assert ranking == front + [ranking[n - 1]];
      if ranking[n - 1] == id { assert id !in front; }
    }
  }

  lemma HigherPlaceMore(weight: real, p: nat, q: nat)
    requires weight > 0.0 && 0 < p < q
    ensures Share(weight, p) > Share(weight, q)
  {
    SmallerDivisor(weight, RANK_CONSTANT + p as real, RANK_CONSTANT + q as real);
  }

  lemma SmallerDivisor(w: real, c: real, d: real)
    requires w > 0.0 && 0.0 < c < d
    ensures w / c > w / d
  {
    var x, y := w / c, w / d;
    assert x * c == w && y * d == w;
    assert y > 0.0;
    assert y * c < y * d;
    if x <= y { LessTimes(x, y, c); }
  }

  lemma LessTimes(x: real, y: real, c: real)
    requires x <= y && c > 0.0
    ensures x * c <= y * c
  {
  }

  lemma PlaceGives(weight: real, p: nat)
    requires weight > 0.0 && p > 0
    ensures Share(weight, p) > 0.0
  {
  }

  predicate AtLeastAsHigh(ranking: seq<int>, x: int, y: int) {
    y in ranking ==> x in ranking && Place(ranking, x) <= Place(ranking, y)
  }

  lemma ContributesMore(ranking: seq<int>, weight: real, x: int, y: int)
    requires Distinct(ranking) && weight > 0.0 && x != y && AtLeastAsHigh(ranking, x, y)
    ensures Contribution(ranking, weight, x) >= Contribution(ranking, weight, y)
    ensures y in ranking ==> Contribution(ranking, weight, x) > Contribution(ranking, weight, y)
  {
    ContributionIs(ranking, weight, x);
    ContributionIs(ranking, weight, y);
    if y in ranking {
      assert Place(ranking, x) != Place(ranking, y);
      HigherPlaceMore(weight, Place(ranking, x), Place(ranking, y));
    } else if x in ranking {
      PlaceGives(weight, Place(ranking, x));
    }
  }

  /** An article at least as high as another in every ranking where the other appears comes
      strictly first in fused order. */
  lemma FusionDominates(dense: seq<int>, lexical: seq<int>, x: int, y: int)
    requires Distinct(dense) && Distinct(lexical) && x != y && (y in dense || y in lexical)
    requires AtLeastAsHigh(dense, x, y) && AtLeastAsHigh(lexical, x, y)
    ensures FusedLe(dense, lexical, x, y) && !FusedLe(dense, lexical, y, x)
  {
    ContributesMore(dense, DENSE_WEIGHT, x, y);
    ContributesMore(lexical, LEXICAL_WEIGHT, x, y);
  }

  /** Between a target only BM25 found and one only similarity found, the BM25 place counts
      four times as much. */
  lemma LexicalHeavy(dense: seq<int>, lexical: seq<int>, x: int, y: int)
    requires Distinct(dense) && Distinct(lexical) && x in lexical && x !in dense && y in dense && y !in lexical
    ensures FusedScore(dense, lexical, x) > FusedScore(dense, lexical, y) <==>
      10 + Place(lexical, x) < 4 * (10 + Place(dense, y))
  {
    ContributionIs(dense, DENSE_WEIGHT, x);
    ContributionIs(lexical, LEXICAL_WEIGHT, x);
    ContributionIs(dense, DENSE_WEIGHT, y);
    ContributionIs(lexical, LEXICAL_WEIGHT, y);
    QuarterShare(Place(lexical, x), Place(dense, y));
  }

  lemma QuarterShare(p: nat, q: nat)
    ensures Share(LEXICAL_WEIGHT, p) > Share(DENSE_WEIGHT, q) <==> 10 + p < 4 * (10 + q)
  {
    var c, d := 10.0 + p as real, 10.0 + q as real;
    assert (0.25 / d) * (4.0 * d) == 1.0;
    assert 0.25 / d == 1.0 / (4.0 * d);
    if c < 4.0 * d { SmallerDivisor(1.0, c, 4.0 * d); }
    if c > 4.0 * d { SmallerDivisor(1.0, 4.0 * d, c); }
  }

  method ListOf(s: set<int>) returns (xs: seq<int>)
    ensures Distinct(xs) && forall x :: x in xs <==> x in s
  {
    xs := [];
    var todo := s;
    while todo != {}
      invariant todo <= s && Distinct(xs) && forall x :: x in xs <==> x in s && x !in todo
      decreases |todo|
    {
      ghost var one := Any(todo);
      assert one in todo;
      var x :| x in todo;
      xs, todo := xs + [x], todo - {x};
    }
  }

  function RealOf(m: map<int, real>, id: int): real { if id in m then m[id] else 0.0 }

  function NatOf(m: map<int, nat>, id: int): nat { if id in m then m[id] else 0 }

  /** The lower of two places, when there are two. */
  function Better(p: nat, q: nat, has: bool): nat {
    if !has then q else if q == 0 then p else if p <= q then p else q
  }

  /** The scores and best places once `ranking` has been added to those before. */
  ghost predicate Accumulated(ranking: seq<int>, weight: real, scores0: map<int, real>, best0: map<int, nat>,
                              scores: map<int, real>, best: map<int, nat>) {
    && (forall id :: id in scores <==> id in scores0 || id in ranking)
    && best.Keys == scores.Keys && Summed(ranking, weight, scores0, scores) && Bettered(ranking, best0, best)
  }

  ghost predicate Summed(ranking: seq<int>, weight: real, scores0: map<int, real>, scores: map<int, real>) {
    forall id :: RealOf(scores, id) == RealOf(scores0, id) + Contribution(ranking, weight, id)
  }

  ghost predicate Bettered(ranking: seq<int>, best0: map<int, nat>, best: map<int, nat>) {
    forall id :: NatOf(best, id) == Better(NatOf(best0, id), Place(ranking, id), id in best0)
  }

  lemma PlaceNext(ranking: seq<int>, i: nat, id: int)
    requires i < |ranking|
    ensures Place(ranking[..i + 1], id) == if Place(ranking[..i], id) > 0 then Place(ranking[..i], id) else if ranking[i] == id then i + 1 else 0
    ensures id in ranking[..i + 1] <==> id in ranking[..i] || id == ranking[i]
  {
    assert ranking[..i + 1][..i] == ranking[..i] && ranking[..i + 1] == ranking[..i] + [ranking[i]];
  }

  lemma ContributionNext(ranking: seq<int>, weight: real, i: nat, id: int)
    requires i < |ranking|
    ensures Contribution(ranking[..i + 1], weight, id) ==
      Contribution(ranking[..i], weight, id) + if ranking[i] == id then Share(weight, i + 1) else 0.0
  {
    assert ranking[..i + 1][..i] == ranking[..i];
  }

  lemma SummedNext(ranking: seq<int>, weight: real, scores0: map<int, real>, scores: map<int, real>, now: map<int, real>, i: nat)
    requires i < |ranking| && now == scores[ranking[i] := RealOf(scores, ranking[i]) + Share(weight, i + 1)]
    requires Summed(ranking[..i], weight, scores0, scores)
    ensures Summed(ranking[..i + 1], weight, scores0, now)
  {
    forall id ensures RealOf(now, id) == RealOf(scores0, id) + Contribution(ranking[..i + 1], weight, id) {
      ContributionNext(ranking, weight, i, id);
    }
  }

  lemma BetteredNext(ranking: seq<int>, best0: map<int, nat>, best: map<int, nat>, now: map<int, nat>, i: nat)
    requires i < |ranking| && now == best[ranking[i] := if ranking[i] in best then Min(best[ranking[i]], i + 1) else i + 1]
    requires forall id :: id in best <==> id in best0 || id in ranking[..i]
    requires Bettered(ranking[..i], best0, best)
    ensures Bettered(ranking[..i + 1], best0, now)
  {
    forall id ensures NatOf(now, id) == Better(NatOf(best0, id), Place(ranking[..i + 1], id), id in best0) {
      PlaceNext(ranking, i, id);
    }
  }

  lemma SameKeys(scores: map<int, real>, best: map<int, nat>)
    requires best.Keys == scores.Keys
    ensures forall id :: id in best <==> id in scores
  {
    forall id ensures id in best <==> id in scores {
      assert id in best.Keys <==> id in scores.Keys;
    }
  }

  lemma AccumulateOne(ranking: seq<int>, weight: real, scores0: map<int, real>, best0: map<int, nat>, scores: map<int, real>,
                      best: map<int, nat>, s: map<int, real>, b: map<int, nat>, i: nat)
    requires i < |ranking| && scores0.Keys == best0.Keys && Accumulated(ranking[..i], weight, scores0, best0, scores, best)
    requires s == scores[ranking[i] := RealOf(scores, ranking[i]) + Share(weight, i + 1)]
    requires b == best[ranking[i] := if ranking[i] in best then Min(best[ranking[i]], i + 1) else i + 1]
    ensures Accumulated(ranking[..i + 1], weight, scores0, best0, s, b)
  {
    SummedNext(ranking, weight, scores0, scores, s, i);
    SameKeys(scores0, best0);
    SameKeys(scores, best);
    BetteredNext(ranking, best0, best, b, i);
    forall id ensures id in s <==> id in scores0 || id in ranking[..i + 1] { PlaceNext(ranking, i, id); }
  }

  /** One ranking accumulated into the scores and best places. */
  method Accumulate(ranking: seq<int>, weight: real, scores0: map<int, real>, best0: map<int, nat>)
    returns (scores: map<int, real>, best: map<int, nat>)
    requires scores0.Keys == best0.Keys
    ensures Accumulated(ranking, weight, scores0, best0, scores, best)
  {
    scores, best := scores0, best0;
    NothingAccumulated(ranking, weight, scores0, best0);
    for i := 0 to |ranking|
      invariant Accumulated(ranking[..i], weight, scores0, best0, scores, best)
    {
      var id := ranking[i];
      ghost var s, b := scores, best;
      scores := scores[id := RealOf(scores, id) + Share(weight, i + 1)];
      best := best[id := if id in best then Min(best[id], i + 1) else i + 1];
      AccumulateOne(ranking, weight, scores0, best0, s, b, scores, best, i);
    }
    assert ranking[..|ranking|] == ranking;
  }

  lemma NothingAccumulated(ranking: seq<int>, weight: real, scores0: map<int, real>, best0: map<int, nat>)
    requires scores0.Keys == best0.Keys
    ensures Accumulated(ranking[..0], weight, scores0, best0, scores0, best0)
  {
  }

  predicate MappedLe(scores: map<int, real>, best: map<int, nat>, x: int, y: int) {
    RealOf(scores, x) > RealOf(scores, y)
    || (RealOf(scores, x) == RealOf(scores, y)
        && (NatOf(best, x) < NatOf(best, y) || (NatOf(best, x) == NatOf(best, y) && x <= y)))
  }

  /** `weighted_rrf_scores` without its cut: the whole union in fused order, and its scores. */
  method FuseAll(dense: seq<int>, lexical: seq<int>) returns (fused: seq<int>, scores: map<int, real>)
    ensures IsFused(dense, lexical, fused)
    ensures forall x :: x in scores <==> x in fused
    ensures forall x :: x in scores ==> scores[x] == FusedScore(dense, lexical, x)
  {
    var s1, b1 := Accumulate(dense, DENSE_WEIGHT, map[], map[]);
    var best;
    scores, best := Accumulate(lexical, LEXICAL_WEIGHT, s1, b1);
    var ids := ListOf(scores.Keys);
    forall x ensures RealOf(scores, x) == FusedScore(dense, lexical, x) && NatOf(best, x) == BestPlace(dense, lexical, x) {
      TwoAccumulated(dense, lexical, s1, b1, scores, best, x);
    }
    forall x ensures x in ids <==> x in dense || x in lexical {}
    forall x | x in scores ensures scores[x] == FusedScore(dense, lexical, x) { assert scores[x] == RealOf(scores, x); }
    fused := Sort((x: int, y: int) => MappedLe(scores, best, x, y), ids);
    SortedFused(dense, lexical, scores, best, ids);
  }

  lemma TwoAccumulated(dense: seq<int>, lexical: seq<int>, s1: map<int, real>, b1: map<int, nat>,
                       scores: map<int, real>, best: map<int, nat>, x: int)
    requires Accumulated(dense, DENSE_WEIGHT, map[], map[], s1, b1)
    requires Accumulated(lexical, LEXICAL_WEIGHT, s1, b1, scores, best)
    ensures RealOf(scores, x) == FusedScore(dense, lexical, x) && NatOf(best, x) == BestPlace(dense, lexical, x)
    ensures x in scores <==> x in dense || x in lexical
  {
    assert NatOf(b1, x) == Place(dense, x) && (x in b1 <==> x in dense);
  }

  lemma MappedLinear(scores: map<int, real>, best: map<int, nat>, ids: seq<int>)
    ensures LinearOn((x: int, y: int) => MappedLe(scores, best, x, y), ids)
  {
  }

  lemma SortedFused(dense: seq<int>, lexical: seq<int>, scores: map<int, real>, best: map<int, nat>, ids: seq<int>)
    requires forall x :: RealOf(scores, x) == FusedScore(dense, lexical, x) && NatOf(best, x) == BestPlace(dense, lexical, x)
    requires Distinct(ids) && forall x :: x in ids <==> x in dense || x in lexical
    ensures IsFused(dense, lexical, Sort((x: int, y: int) => MappedLe(scores, best, x, y), ids))
  {
    var le := (x: int, y: int) => MappedLe(scores, best, x, y);
    MappedLinear(scores, best, ids);
    SortOrders(le, ids);
    SortDistinct(le, ids);
    var fused := Sort(le, ids);
    forall i, j | 0 <= i < j < |fused| ensures FusedLe(dense, lexical, fused[i], fused[j]) {
      assert le(fused[i], fused[j]);
      SameOrder(dense, lexical, scores, best, fused[i], fused[j]);
    }
  }

  lemma SameOrder(dense: seq<int>, lexical: seq<int>, scores: map<int, real>, best: map<int, nat>, x: int, y: int)
    requires forall z :: RealOf(scores, z) == FusedScore(dense, lexical, z) && NatOf(best, z) == BestPlace(dense, lexical, z)
    ensures MappedLe(scores, best, x, y) <==> FusedLe(dense, lexical, x, y)
  {
    assert RealOf(scores, x) == FusedScore(dense, lexical, x) && NatOf(best, x) == BestPlace(dense, lexical, x);
    assert RealOf(scores, y) == FusedScore(dense, lexical, y) && NatOf(best, y) == BestPlace(dense, lexical, y);
  }

  // ---- The final order ------------------------------------------------------

  datatype Candidate = Candidate(
    target: int, semantic: real, bm25: real, fusionRank: nat, fusionScore: real, denseRank: Option<nat>, lexicalRank: Option<nat>)

  /** The rank a dictionary filled along a ranking holds for an article: its last place. */
  function LastPlace(ranking: seq<int>, id: int): (r: Option<nat>)
    ensures r.None? <==> id !in ranking
    ensures r.Some? ==> 0 < r.value <= |ranking| && ranking[r.value - 1] == id && id !in ranking[r.value..]
  {
    if ranking == [] then None else
      var n := |ranking|;
      assert ranking == ranking[..n - 1] + [ranking[n - 1]];
      if ranking[n - 1] == id then Some(n) else
        var r := LastPlace(ranking[..n - 1], id);
        assert r.Some? ==> ranking[r.value..] == ranking[..n - 1][r.value..] + [ranking[n - 1]];
        r
  }

  /** A target of the union with its complete rank evidence. */
  function Evidence(dense: seq<int>, lexical: seq<int>, bm25: map<int, real>, semantic: map<int, real>, fused: seq<int>, id: int): Candidate
    requires id in semantic
  {
    Candidate(id, Clamp(semantic[id]), RealOf(bm25, id), Place(fused, id), FusedScore(dense, lexical, id),
              LastPlace(dense, id), LastPlace(lexical, id))
  }

  predicate FinalLe(bm25: map<int, real>, fused: seq<int>, x: int, y: int) {
    RealOf(bm25, x) > RealOf(bm25, y)
    || (RealOf(bm25, x) == RealOf(bm25, y)
        && (Place(fused, x) < Place(fused, y) || (Place(fused, x) == Place(fused, y) && x <= y)))
  }

  function Clamp(x: real): real { if x < 0.0 then 0.0 else if x > 1.0 then 1.0 else x }

  datatype RankError = BadLimit | MissingScores

  /** The union of two pools of at most a hundred, BM25 first, then fusion, then id. */
  ghost predicate IsFinalOrder(dense: seq<int>, lexical: seq<int>, bm25: map<int, real>, fused: seq<int>, order: seq<int>) {
    && IsFused(dense, lexical, fused) && Distinct(order)
    && Ordered((x: int, y: int) => FinalLe(bm25, fused, x, y), order)
    && forall x :: x in order <==> x in dense || x in lexical
  }

  method FinalOrder(dense: seq<int>, lexical: seq<int>, bm25: map<int, real>, fused: seq<int>) returns (order: seq<int>)
    requires IsFused(dense, lexical, fused)
    ensures IsFinalOrder(dense, lexical, bm25, fused, order) && forall x :: x in order <==> x in fused
  {
    var le := (x: int, y: int) => FinalLe(bm25, fused, x, y);
    assert LinearOn(le, fused);
    SortOrders(le, fused);
    SortDistinct(le, fused);
    order := Sort(le, fused);
  }

  function Described(dense: seq<int>, lexical: seq<int>, bm25: map<int, real>, semantic: map<int, real>, fused: seq<int>,
                     scores: map<int, real>, top: seq<int>): (r: seq<Candidate>)
    requires forall i :: 0 <= i < |top| ==> top[i] in semantic && top[i] in scores
    requires forall x :: x in scores ==> scores[x] == FusedScore(dense, lexical, x)
    ensures |r| == |top| && forall i :: 0 <= i < |r| ==> r[i] == Evidence(dense, lexical, bm25, semantic, fused, top[i])
  {
    seq(|top|, i requires 0 <= i < |top| && top[i] in semantic && top[i] in scores =>
      Candidate(top[i], Clamp(semantic[top[i]]), RealOf(bm25, top[i]), Place(fused, top[i]), scores[top[i]],
                LastPlace(dense, top[i]), LastPlace(lexical, top[i])))
  }

  /** `rank_hybrid_candidates`; `order` is the whole union in final order. */
  method RankCandidates(denseIds: seq<int>, lexicalIds: seq<int>, bm25: map<int, real>, semantic: map<int, real>, limit: int)
    returns (r: Result<seq<Candidate>, RankError>, ghost fused: seq<int>, ghost order: seq<int>)
    ensures var dense, lexical := Take(denseIds, POOL), Take(lexicalIds, POOL);
      && (r == Err(BadLimit) <==> limit <= 0)
      && (r == Err(MissingScores) <==> limit > 0 && exists x :: (x in dense || x in lexical) && x !in semantic)
      && (r.Ok? ==>
            && IsFinalOrder(dense, lexical, bm25, fused, order) && |r.value| == Min(limit, |order|)
            && forall i :: 0 <= i < |r.value| ==>
                 && order[i] in semantic
                 && r.value[i] == Evidence(dense, lexical, bm25, semantic, fused, order[i]))
  {
    fused, order := [], [];
    if limit <= 0 { return Err(BadLimit), fused, order; }
    var dense, lexical := Take(denseIds, POOL), Take(lexicalIds, POOL);
    var all, scores := FuseAll(dense, lexical);
    fused := all;
    if exists x :: x in all && x !in semantic { return Err(MissingScores), fused, order; }
    var final := FinalOrder(dense, lexical, bm25, all);
    order := final;
    var top := Take(final, limit);
    forall i | 0 <= i < |top| ensures top[i] in semantic && top[i] in scores {
      assert top[i] == final[i] && final[i] in all;
    }
    r := Ok(Described(dense, lexical, bm25, semantic, all, scores, top));
  }

  /** Fusion is whole: two pools of at most a hundred never exceed what it may return, so the
      cut at two hundred drops nobody. */
  lemma FusionDropsNobody(dense: seq<int>, lexical: seq<int>, fused: seq<int>)
    requires IsFused(dense, lexical, fused) && |dense| <= POOL && |lexical| <= POOL
    ensures |fused| <= 2 * POOL && Take(fused, 2 * POOL) == fused
  {
    DistinctLength(fused);
    assert (set x | x in fused) == (set x | x in dense) + (set x | x in lexical);
    ElementsFew(dense);
    ElementsFew(lexical);
  }

  lemma {:induction false} ElementsFew(xs: seq<int>)
    ensures |set x | x in xs| <= |xs|
  {
    if xs != [] {
      ElementsFew(xs[1..]);
      assert (set x | x in xs) == {xs[0]} + set x | x in xs[1..];
    } else {
      assert (set x | x in xs) == {};
    }
  }
}
