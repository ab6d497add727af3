/** The Hybrid ranking, said of places and scores: what a fused score is, which of two targets
    comes first, what each target reports of itself, and who is offered at all. */
module RankMeaning {
  import opened Prelude
  import opened Sorting
  import Bm25
  import opened Hybrid

  // ---- Fusion ---------------------------------------------------------------

  /** A place in the similarity ranking is worth a quarter of the same place in the BM25
      ranking: 0.25 and 1 over ten more than the place. */
  lemma FusedScoreIs(dense: seq<int>, lexical: seq<int>, id: int)
    requires Distinct(dense) && Distinct(lexical)
    ensures FusedScore(dense, lexical, id) ==
      (if id in dense then 0.25 / (10.0 + Place(dense, id) as real) else 0.0)
      + (if id in lexical then 1.0 / (10.0 + Place(lexical, id) as real) else 0.0)
  {
    ContributionIs(dense, DENSE_WEIGHT, id);
    ContributionIs(lexical, LEXICAL_WEIGHT, id);
  }

  /** The better of an article's places. */
  lemma BestPlaceIs(dense: seq<int>, lexical: seq<int>, id: int)
    requires id in dense || id in lexical
    ensures var best := BestPlace(dense, lexical, id);
      && best > 0 && (best == Place(dense, id) || best == Place(lexical, id))
      && (id in dense ==> best <= Place(dense, id)) && (id in lexical ==> best <= Place(lexical, id))
  {
  }

  /** Which of two targets comes first in fused order: the one with the higher fused score, then
      with the better place in either ranking, then with the lower id. */
  lemma FusedPlaces(dense: seq<int>, lexical: seq<int>, fused: seq<int>, i: nat, j: nat)
    requires IsFused(dense, lexical, fused) && i < |fused| && j < |fused|
    ensures var x, y := fused[i], fused[j];
      i < j <==>
        || FusedScore(dense, lexical, x) > FusedScore(dense, lexical, y)
        || (FusedScore(dense, lexical, x) == FusedScore(dense, lexical, y)
            && (BestPlace(dense, lexical, x) < BestPlace(dense, lexical, y)
                || (BestPlace(dense, lexical, x) == BestPlace(dense, lexical, y) && x < y)))
  {
    if i < j {
      FusedBefore(dense, lexical, fused, i, j);
    } else if j < i {
      FusedBefore(dense, lexical, fused, j, i);
    }
  }

  lemma FusedBefore(dense: seq<int>, lexical: seq<int>, fused: seq<int>, i: nat, j: nat)
    requires IsFused(dense, lexical, fused) && i < j < |fused|
    ensures FusedLe(dense, lexical, fused[i], fused[j]) && fused[i] != fused[j]
  {
  }

  // ---- The final order ------------------------------------------------------

  lemma FinalBefore(dense: seq<int>, lexical: seq<int>, bm25: map<int, real>, fused: seq<int>, order: seq<int>, i: nat, j: nat)
    requires IsFinalOrder(dense, lexical, bm25, fused, order) && i < j < |order|
    ensures FinalLe(bm25, fused, order[i], order[j]) && order[i] != order[j] && order[i] in fused && order[j] in fused
  {
    assert order[i] in order && order[j] in order;
  }

  lemma PlaceIs(ranking: seq<int>, k: nat)
    requires Distinct(ranking) && k < |ranking|
    ensures Place(ranking, ranking[k]) == k + 1
  {
    assert ranking[k] in ranking;
  }

  /** Which of two targets comes first in the end: the one with the higher BM25 score, wherever
      fusion put them; with equal scores, the one fusion put first. */
  lemma FinalPlaces(dense: seq<int>, lexical: seq<int>, bm25: map<int, real>, fused: seq<int>, order: seq<int>,
                    i: nat, j: nat, a: nat, b: nat)
    requires IsFinalOrder(dense, lexical, bm25, fused, order) && i < |order| && j < |order|
    requires a < |fused| && b < |fused| && fused[a] == order[i] && fused[b] == order[j]
    ensures i < j <==> RealOf(bm25, order[i]) > RealOf(bm25, order[j]) || (RealOf(bm25, order[i]) == RealOf(bm25, order[j]) && a < b)
  {
    PlaceIs(fused, a);
    PlaceIs(fused, b);
    if i < j {
      FinalBefore(dense, lexical, bm25, fused, order, i, j);
    } else if j < i {
      FinalBefore(dense, lexical, bm25, fused, order, j, i);
    }
  }

  /** What a candidate reports: its own BM25 score and similarity, and the places it really has
      in fused order and in either pool. */
  lemma EvidenceIsOwn(dense: seq<int>, lexical: seq<int>, bm25: map<int, real>, semantic: map<int, real>, fused: seq<int>, id: int)
    requires id in semantic && id in fused
    ensures var c := Evidence(dense, lexical, bm25, semantic, fused, id);
      && c.target == id && (id in bm25 ==> c.bm25 == bm25[id]) && (id !in bm25 ==> c.bm25 == 0.0)
      && 0 < c.fusionRank <= |fused| && fused[c.fusionRank - 1] == id
      && (c.denseRank.None? <==> id !in dense) && (c.lexicalRank.None? <==> id !in lexical)
      && (c.denseRank.Some? ==> 0 < c.denseRank.value <= |dense| && dense[c.denseRank.value - 1] == id)
      && (c.lexicalRank.Some? ==> 0 < c.lexicalRank.value <= |lexical| && lexical[c.lexicalRank.value - 1] == id)
      && c.fusionScore == FusedScore(dense, lexical, id)
      && (0.0 <= semantic[id] <= 1.0 ==> c.semantic == semantic[id])
      && (semantic[id] <= 0.0 ==> c.semantic == 0.0) && (semantic[id] >= 1.0 ==> c.semantic == 1.0)
  {
    assert Place(fused, id) > 0;
  }

  // ---- Who is offered -------------------------------------------------------

  /** The lexical pool offers a target exactly when it is a different article with a different
      title and different content, is not linked or suggested from the source already, passes
      the database's own rules, and fewer than a hundred such stand before it. */
  lemma PooledExactly(rules: Rules, source: int, ranked: seq<int>, pool: seq<int>, k: nat)
    requires pool == Take(Filter((x: int) => Eligible(rules, source, x), ranked), POOL) && Distinct(ranked) && k < |ranked|
    ensures ranked[k] in pool <==>
      && source in rules.corpus && ranked[k] in rules.corpus && ranked[k] != source
      && rules.corpus[source].title != rules.corpus[ranked[k]].title
      && (rules.corpus[source].fingerprint.Some? ==> rules.corpus[source].fingerprint != rules.corpus[ranked[k]].fingerprint)
      && (source in rules.blocked ==> ranked[k] !in rules.blocked[source]) && rules.other(source, ranked[k])
      && |Filter((x: int) => Eligible(rules, source, x), ranked[..k])| < 100
  {
    TakenExactly((x: int) => Eligible(rules, source, x), ranked, POOL, k);
  }

  lemma TakenExactly(p: int -> bool, xs: seq<int>, n: nat, k: nat)
    requires Distinct(xs) && k < |xs|
    ensures xs[k] in Take(Filter(p, xs), n) <==> p(xs[k]) && |Filter(p, xs[..k])| < n
  {
    var front, back := Filter(p, xs[..k]), Filter(p, xs[k..]);
    FilterAppend(p, xs[..k], xs[k..]);
    assert xs[..k] + xs[k..] == xs && xs[k..][0] == xs[k];
    FilterMembers(p, xs[..k], xs[k]);
    assert xs[k] !in xs[..k];
    FilterMembers(p, xs, xs[k]);
    var taken := Take(Filter(p, xs), n);
    if p(xs[k]) {
      assert (front + back)[|front|] == xs[k];
      if |front| < n {
        assert taken[|front|] == xs[k];
      } else {
        assert taken == front[..n];
      }
    } else {
      forall i | 0 <= i < |taken| ensures taken[i] != xs[k] { assert Filter(p, xs)[i] == taken[i]; }
    }
  }
}
