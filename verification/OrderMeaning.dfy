/** The two adjustments of the candidate order in plain numbers: what an opportunity is worth,
    which candidates it moves, and what an editor's decisions are worth. */
module OrderMeaning {
  import opened Prelude
  import opened Sorting
  import opened CandidateOrdering

  // ---- The graph step -------------------------------------------------------

  predicate Known(g: GraphPolicy, id: int) { id in g.features }

  predicate SaturatedArticle(g: GraphPolicy, id: int) { id in g.features && g.features[id].saturated }

  /** What a candidate may gain: the whole boost for an orphan, 65 percent of it for another
      underlinked article, three quarters of that when the source itself is saturated, and
      nothing below the relevance floor, for a saturated target, or for an unknown one. */
  lemma GainIs(g: GraphPolicy, c: Candidate)
    requires g.boost >= 0.0
    ensures g.mode != Active || c.semantic < g.minimum || !Known(g, c.target) || SaturatedArticle(g, c.target) ==>
      Adjustment(g, c) == 0.0
    ensures g.mode == Active && c.semantic >= g.minimum && Known(g, c.target) && !SaturatedArticle(g, c.target) ==>
      && (!g.features[c.target].orphan && !g.features[c.target].underlinked ==> Adjustment(g, c) == 0.0)
      && (g.features[c.target].orphan && !SaturatedArticle(g, g.source) ==> Adjustment(g, c) == g.boost)
      && (g.features[c.target].orphan && SaturatedArticle(g, g.source) ==> Adjustment(g, c) == g.boost * 0.75)
      && (!g.features[c.target].orphan && g.features[c.target].underlinked && !SaturatedArticle(g, g.source) ==>
            Adjustment(g, c) == g.boost * 0.65)
      && (!g.features[c.target].orphan && g.features[c.target].underlinked && SaturatedArticle(g, g.source) ==>
            Adjustment(g, c) == g.boost * 0.4875)
  {
    AdjustmentBounded(g, c);
  }

  /** The graph step lets a later candidate overtake exactly when it is then the more similar
      of the two, gains included. */
  lemma GraphMovesExactly(policy: Policy, candidates: seq<Candidate>, i: nat, j: nat)
    requires Distinct(candidates) && i < j < |candidates|
    requires policy.hybrid && policy.graph.features != map[] && policy.graph.mode == Active
    ensures Before(Graphed(policy, candidates), candidates[j], candidates[i]) <==>
      candidates[j].semantic + Adjustment(policy.graph, candidates[j]) > candidates[i].semantic + Adjustment(policy.graph, candidates[i])
  {
    LaterFirstExactly(Adjusted(policy.graph, candidates), candidates, i, j);
  }

  /** Without the Hybrid pilot, without a graph, or unless the step is active, the order that
      came in is kept; without a profile, so is the order the graph step left. */
  lemma OrderKept(policy: Policy, candidates: seq<Candidate>)
    ensures !policy.hybrid || policy.graph.features == map[] || policy.graph.mode != Active ==> Graphed(policy, candidates) == candidates
    ensures policy.profile.None? ==> Reviewed(policy, candidates) == candidates
  {
  }

  // ---- Percentages and buckets ----------------------------------------------

  /** A score as whole percent: the nearest one, halves upwards, held between 0 and 100. */
  lemma PercentIs(score: real)
    ensures 0 <= ScorePercent(score) <= 100
    ensures 0.0 <= score <= 1.0 ==> ScorePercent(score) as real - 0.5 <= score * 100.0 < ScorePercent(score) as real + 0.5
    ensures score <= 0.0 ==> ScorePercent(score) == 0
    ensures score >= 1.0 ==> ScorePercent(score) == 100
  {
  }

  /** A candidate passes the minimum exactly when its rounded percentage reaches it. */
  lemma PassesExactly(policy: Policy, candidates: seq<Candidate>, c: Candidate)
    requires 0.0 <= c.semantic <= 1.0 && c in candidates
    ensures c in Eligible(policy, candidates) <==> c.semantic * 100.0 + 0.5 >= policy.minimumPercent as real
  {
    FilterMembers((x: Candidate) => ScorePercent(x.semantic) >= policy.minimumPercent, candidates, c);
    PercentIs(c.semantic);
  }

  /** The five buckets: below 60, then tens, with 100 in the last. */
  lemma BucketIs(percent: int)
    requires 0 <= percent <= 100
    ensures var b := Bucket(percent);
      && b <= percent && (b == 0 <==> percent < 60)
      && (b > 0 ==> b in {60, 70, 80, 90} && (percent < b + 10 || (b == 90 && percent == 100)))
  {
  }

  // ---- The feedback step ----------------------------------------------------

  /** The rate of a tally is its share of accepted decisions; the smoothed acceptance counts
      five more decisions at the site's own rate. */
  lemma AcceptanceIs(p: Profile, c: Candidate)
    ensures var (a, r) := (p.total.accepted as real, p.total.rejected as real);
      Rate(p.total) * (a + r) == a && (a + r == 0.0 ==> Rate(p.total) == 0.5)
    ensures var t := TallyOf(p, c);
      Acceptance(p, c) * (t.accepted as real + t.rejected as real + 5.0) == t.accepted as real + 5.0 * Rate(p.total)
  {
    RateShare(p.total);
    var t := TallyOf(p, c);
    var n := t.accepted as real + t.rejected as real + 5.0;
    assert (t.accepted + t.rejected) as real + 5.0 == n;
    QuotientTimes(t.accepted as real + Rate(p.total) * 5.0, n);
  }

  lemma RateShare(t: Tally)
    ensures Rate(t) * (t.accepted as real + t.rejected as real) == t.accepted as real
  {
    var n := t.accepted as real + t.rejected as real;
    assert (t.accepted + t.rejected) as real == n;
    if t.accepted + t.rejected > 0 { QuotientTimes(t.accepted as real, n); }
  }

  lemma QuotientTimes(a: real, n: real)
    requires n > 0.0
    ensures (a / n) * n == a
  {
  }

  /** The decisions that count for a candidate are those in its own bucket. */
  lemma TallyIsOfBucket(p: Profile, c: Candidate, b: int)
    requires b == Bucket(ScorePercent(c.semantic))
    ensures b in p.buckets ==> TallyOf(p, c) == p.buckets[b]
    ensures b !in p.buckets ==> Acceptance(p, c) == Rate(p.total)
  {
    AcceptanceBetween(p, c);
  }

  /** Whether a lead in acceptance is worth a distance in places, of `n` candidates. */
  predicate LeadWins(w: real, lead: real, distance: nat, n: nat)
    requires n > 1
  {
    w * lead > (1.0 - w) * (distance as real / (n - 1) as real)
  }

  /** In the reviewed order a later candidate overtakes exactly when the weight times its lead
      in acceptance exceeds the rest of the weight times the distance in places, as a share of
      the whole list. */
  lemma ReviewMovesExactly(policy: Policy, candidates: seq<Candidate>, i: nat, j: nat, lead: real)
    requires Distinct(candidates) && i < j < |candidates| && policy.profile.Some?
    requires lead == Acceptance(policy.profile.value, candidates[j]) - Acceptance(policy.profile.value, candidates[i])
    ensures Before(Reviewed(policy, candidates), candidates[j], candidates[i]) <==> LeadWins(policy.weight, lead, j - i, |candidates|)
  {
    OvertakesBy(policy.profile.value, policy.weight, candidates, i, j, lead);
  }

  lemma OvertakesBy(p: Profile, w: real, candidates: seq<Candidate>, i: nat, j: nat, lead: real)
    requires Distinct(candidates) && i < j < |candidates|
    requires lead == Acceptance(p, candidates[j]) - Acceptance(p, candidates[i])
    ensures Before(FeedbackOrder(p, w, candidates), candidates[j], candidates[i]) <==> LeadWins(w, lead, j - i, |candidates|)
  {
    OvertakesExactly(p, w, candidates, i, j);
    DistanceIs(w, lead, i, j, |candidates|);
  }

  lemma DistanceIs(w: real, lead: real, i: nat, j: nat, n: nat)
    requires i < j < n
    ensures Outweighs(w, lead, (j - i) as real / Denominator(n) as real) <==> LeadWins(w, lead, j - i, n)
  {
    assert Denominator(n) == n - 1;
  }
}
