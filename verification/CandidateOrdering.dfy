/** The last reorderings of a source's candidates: the bounded graph adjustment, the bounded
    editorial feedback, and their composition with the filter and the cut. */
module CandidateOrdering {
  import opened Prelude
  import opened Sorting

  datatype Candidate = Candidate(target: int, semantic: real)

  // ---- Sorting by a key -----------------------------------------------------

  /** An item with its sort key and the place it came from. */
  datatype Keyed<T> = Keyed(key: real, place: int, item: T)

  predicate KeyedLe<T>(x: Keyed<T>, y: Keyed<T>) { x.key > y.key || (x.key == y.key && x.place <= y.place) }

  /** Each item with its key, in place. */
  predicate InPlace<T(==)>(keyed: seq<Keyed<T>>, items: seq<T>) {
    |keyed| == |items| && forall i :: 0 <= i < |items| ==> keyed[i].place == i && keyed[i].item == items[i]
  }

  function Items<T>(keyed: seq<Keyed<T>>): (r: seq<T>)
    ensures |r| == |keyed| && forall i :: 0 <= i < |r| ==> r[i] == keyed[i].item
  {
    seq(|keyed|, i requires 0 <= i < |keyed| => keyed[i].item)
  }

  function Reordered<T(!new)>(keyed: seq<Keyed<T>>): seq<T> {
    Items(Sort((x: Keyed<T>, y: Keyed<T>) => KeyedLe(x, y), keyed))
  }

  /** `a` comes before `b` wherever both are. */
  ghost predicate Before<T>(xs: seq<T>, a: T, b: T) {
    forall i, j :: 0 <= i < |xs| && 0 <= j < |xs| && xs[i] == a && xs[j] == b ==> i < j
  }

  lemma KeyedLinear<T(!new)>(keyed: seq<Keyed<T>>, items: seq<T>)
    requires InPlace(keyed, items)
    ensures LinearOn((x: Keyed<T>, y: Keyed<T>) => KeyedLe(x, y), keyed) && Distinct(keyed)
  {
    forall x, y | x in keyed && y in keyed && x.place == y.place ensures x == y {
      var i :| 0 <= i < |keyed| && keyed[i] == x;
      var j :| 0 <= j < |keyed| && keyed[j] == y;
    }
  }

  /** Reordering distinct items loses none and repeats none. */
  lemma ReorderedSame<T(!new)>(keyed: seq<Keyed<T>>, items: seq<T>)
    requires InPlace(keyed, items) && Distinct(items)
    ensures Distinct(Reordered(keyed)) && |Reordered(keyed)| == |items|
    ensures forall x :: x in Reordered(keyed) <==> x in items
  {
    var le := (x: Keyed<T>, y: Keyed<T>) => KeyedLe(x, y);
    var sorted := Sort(le, keyed);
    KeyedLinear(keyed, items);
    SortOrders(le, keyed);
    SortDistinct(le, keyed);
    forall x ensures x in Reordered(keyed) <==> x in items {
      if x in items {
        var i :| 0 <= i < |items| && items[i] == x;
        assert keyed[i] in sorted;
        var k :| 0 <= k < |sorted| && sorted[k] == keyed[i];
        assert Reordered(keyed)[k] == x;
      }
      if x in Reordered(keyed) {
        var k :| 0 <= k < |sorted| && sorted[k].item == x;
        assert sorted[k] in keyed;
      }
    }
    forall i, j | 0 <= i < j < |sorted| ensures sorted[i].item != sorted[j].item {
      assert sorted[i] in keyed && sorted[j] in keyed && sorted[i] != sorted[j];
      ItemsTellApart(keyed, items, sorted[i], sorted[j]);
    }
  }

  lemma ItemsTellApart<T(!new)>(keyed: seq<Keyed<T>>, items: seq<T>, x: Keyed<T>, y: Keyed<T>)
    requires InPlace(keyed, items) && Distinct(items) && x in keyed && y in keyed && x != y
    ensures x.item != y.item
  {
    var i :| 0 <= i < |keyed| && keyed[i] == x;
    var j :| 0 <= j < |keyed| && keyed[j] == y;
  }

  /** The item with the higher key, or with the same key and the earlier place, comes first. */
  lemma HigherKeyFirst<T(!new)>(keyed: seq<Keyed<T>>, items: seq<T>, i: nat, j: nat)
    requires InPlace(keyed, items) && Distinct(items) && i < |items| && j < |items| && i != j
    requires keyed[i].key > keyed[j].key || (keyed[i].key == keyed[j].key && i < j)
    ensures Before(Reordered(keyed), items[i], items[j])
  {
    var le := (x: Keyed<T>, y: Keyed<T>) => KeyedLe(x, y);
    var sorted := Sort(le, keyed);
    KeyedLinear(keyed, items);
    SortOrders(le, keyed);
    forall a, b | 0 <= a < |sorted| && 0 <= b < |sorted| && sorted[a].item == items[i] && sorted[b].item == items[j]
      ensures a < b
    {
      assert sorted[a] in keyed && sorted[b] in keyed;
      SameItem(keyed, items, sorted[a], i);
      SameItem(keyed, items, sorted[b], j);
      StrictlyFirst(le, sorted, a, b);
    }
  }

  lemma StrictlyFirst<T(!new)>(le: (T, T) -> bool, xs: seq<T>, a: int, b: int)
    requires Ordered(le, xs) && 0 <= a < |xs| && 0 <= b < |xs| && !le(xs[b], xs[a]) && xs[a] != xs[b]
    ensures a < b
  {
  }

  lemma SameItem<T(!new)>(keyed: seq<Keyed<T>>, items: seq<T>, x: Keyed<T>, i: nat)
    requires InPlace(keyed, items) && Distinct(items) && x in keyed && i < |items| && x.item == items[i]
    ensures x == keyed[i]
  {
    var k :| 0 <= k < |keyed| && keyed[k] == x;
  }

  lemma NotBoth<T>(xs: seq<T>, a: T, b: T)
    requires a in xs && b in xs && Before(xs, a, b)
    ensures !Before(xs, b, a)
  {
    var i :| 0 <= i < |xs| && xs[i] == a;
    var j :| 0 <= j < |xs| && xs[j] == b;
  }

  /** A later item overtakes exactly when its key is strictly higher. */
  lemma LaterFirstExactly<T(!new)>(keyed: seq<Keyed<T>>, items: seq<T>, i: nat, j: nat)
    requires InPlace(keyed, items) && Distinct(items) && i < j < |items|
    ensures Before(Reordered(keyed), items[j], items[i]) <==> keyed[j].key > keyed[i].key
  {
    if keyed[j].key > keyed[i].key {
      HigherKeyFirst(keyed, items, j, i);
    } else {
      HigherKeyFirst(keyed, items, i, j);
      ReorderedSame(keyed, items);
      NotBoth(Reordered(keyed), items[i], items[j]);
    }
  }

  // ---- The graph step -------------------------------------------------------

  datatype Feature = Feature(orphan: bool, underlinked: bool, saturated: bool)

  datatype Mode = Disabled | Shadow | Active

  datatype GraphPolicy = GraphPolicy(features: map<int, Feature>, source: int, mode: Mode, boost: real, minimum: real)

  /** How much of an opportunity a target is; a saturated target never is one. */
  function Opportunity(g: GraphPolicy, target: int): (r: real)
    ensures 0.0 <= r <= 1.0
  {
    if target !in g.features then 0.0 else
      var f := g.features[target];
      var base := if f.saturated then 0.0 else if f.orphan then 1.0 else if f.underlinked then 0.65 else 0.0;
      if g.source in g.features && g.features[g.source].saturated then base * 0.75 else base
  }

  function Adjustment(g: GraphPolicy, c: Candidate): real {
    if g.mode == Active && c.semantic >= g.minimum then
      var scaled := g.boost * Opportunity(g, c.target);
      if scaled <= g.boost then scaled else g.boost
    else 0.0
  }

  lemma AdjustmentBounded(g: GraphPolicy, c: Candidate)
    requires g.boost >= 0.0
    ensures 0.0 <= Adjustment(g, c) <= g.boost
  {
    Times(g.boost, Opportunity(g, c.target));
  }

  lemma Times(a: real, b: real)
    requires a >= 0.0 && b >= 0.0
    ensures a * b >= 0.0
  {
  }

  function Adjusted(g: GraphPolicy, candidates: seq<Candidate>): (r: seq<Keyed<Candidate>>)
    ensures InPlace(r, candidates)
    ensures forall i :: 0 <= i < |r| ==> r[i].key == candidates[i].semantic + Adjustment(g, candidates[i])
  {
    seq(|candidates|, i requires 0 <= i < |candidates| =>
      Keyed(candidates[i].semantic + Adjustment(g, candidates[i]), i, candidates[i]))
  }

  function GraphOrder(g: GraphPolicy, candidates: seq<Candidate>): seq<Candidate> {
    if g.mode == Active then Reordered(Adjusted(g, candidates)) else candidates
  }

  /** `deterministic_rerank` */
  method DeterministicRerank(g: GraphPolicy, candidates: seq<Candidate>) returns (ordered: seq<Candidate>)
    ensures ordered == GraphOrder(g, candidates)
    ensures g.mode != Active ==> ordered == candidates
  {
    var scored: seq<Keyed<Candidate>> := [];
    for i := 0 to |candidates|
      invariant g.mode == Active ==> scored == Adjusted(g, candidates)[..i]
    {
      var adjustment := Adjustment(g, candidates[i]);
      if g.mode == Active {
        scored := scored + [Keyed(candidates[i].semantic + adjustment, i, candidates[i])];
        assert Adjusted(g, candidates)[..i + 1] == Adjusted(g, candidates)[..i] + [Adjusted(g, candidates)[i]];
      }
    }
    if g.mode != Active { return candidates; }
    assert Adjusted(g, candidates)[..|candidates|] == Adjusted(g, candidates);
    ordered := Reordered(scored);
  }

  /** A candidate more than the boost more similar is never overtaken. */
  lemma NeverOvertaken(g: GraphPolicy, candidates: seq<Candidate>, i: nat, j: nat)
    requires Distinct(candidates) && g.boost >= 0.0 && g.mode == Active && i < |candidates| && j < |candidates| && i != j
    requires candidates[i].semantic > candidates[j].semantic + g.boost
    ensures Before(GraphOrder(g, candidates), candidates[i], candidates[j])
  {
    AdjustmentBounded(g, candidates[i]);
    AdjustmentBounded(g, candidates[j]);
    HigherKeyFirst(Adjusted(g, candidates), candidates, i, j);
  }

  /** A step that changes nothing for two candidates keeps them in order. */
  lemma EqualOpportunityKeepsOrder(g: GraphPolicy, candidates: seq<Candidate>, i: nat, j: nat)
    requires Distinct(candidates) && g.mode == Active && i < j < |candidates|
    requires candidates[i].semantic >= candidates[j].semantic
    requires Adjustment(g, candidates[i]) == Adjustment(g, candidates[j])
    ensures Before(GraphOrder(g, candidates), candidates[i], candidates[j])
  {
    HigherKeyFirst(Adjusted(g, candidates), candidates, i, j);
  }

  predicate Orphaned(g: GraphPolicy, target: int) {
    target in g.features && g.features[target].orphan && !g.features[target].saturated
  }

  lemma OrphansMoreOpportune(g: GraphPolicy, a: int, b: int)
    requires Orphaned(g, a) && !Orphaned(g, b)
    ensures Opportunity(g, a) > Opportunity(g, b)
  {
  }

  /** Among equally similar candidates at or above the relevance floor, orphans come first. */
  lemma OrphansFirst(g: GraphPolicy, candidates: seq<Candidate>, i: nat, j: nat)
    requires Distinct(candidates) && g.boost > 0.0 && g.mode == Active && i < |candidates| && j < |candidates|
    requires candidates[i].semantic == candidates[j].semantic >= g.minimum
    requires Orphaned(g, candidates[i].target) && !Orphaned(g, candidates[j].target)
    ensures Before(GraphOrder(g, candidates), candidates[i], candidates[j])
  {
    OrphansMoreOpportune(g, candidates[i].target, candidates[j].target);
    LargerProduct(g.boost, Opportunity(g, candidates[i].target), Opportunity(g, candidates[j].target));
    LargerProduct(g.boost, 1.0, Opportunity(g, candidates[j].target));
    assert Adjustment(g, candidates[i]) > Adjustment(g, candidates[j]);
    HigherKeyFirst(Adjusted(g, candidates), candidates, i, j);
  }

  lemma LargerProduct(a: real, x: real, y: real)
    requires a > 0.0
    ensures x > y ==> a * x > a * y
    ensures x >= y ==> a * x >= a * y
  {
    if x > y { PositiveProduct(a, x - y); Distribute(a, x, y); }
  }

  lemma PositiveProduct(a: real, b: real)
    requires a > 0.0 && b > 0.0
    ensures a * b > 0.0
  {
  }

  // ---- The feedback step ----------------------------------------------------

  function ScorePercent(score: real): int { Max(0, Min(100, (score * 100.0 + 0.5).Floor)) }

  /** `score_bucket`, by its lower end. */
  function Bucket(percent: int): int {
    if percent < 60 then 0 else if percent < 70 then 60 else if percent < 80 then 70 else if percent < 90 then 80 else 90
  }

  datatype Tally = Tally(accepted: nat, rejected: nat)

  datatype Profile = Profile(total: Tally, buckets: map<int, Tally>)

  function Rate(t: Tally): (r: real)
    ensures 0.0 <= r <= 1.0
  {
    if t.accepted + t.rejected == 0 then 0.5 else t.accepted as real / (t.accepted + t.rejected) as real
  }

  lemma QuotientInUnit(a: real, b: real)
    requires 0.0 <= a <= b && b > 0.0
    ensures 0.0 <= a / b <= 1.0
  {
  }

  function TallyOf(p: Profile, c: Candidate): Tally {
    var b := Bucket(ScorePercent(c.semantic));
    if b in p.buckets then p.buckets[b] else Tally(0, 0)
  }

  /** `_smoothed_acceptance`: five prior observations at the site's own rate. */
  function Acceptance(p: Profile, c: Candidate): (r: real)
    ensures 0.0 <= r <= 1.0
  {
    var t := TallyOf(p, c);
    var prior := Rate(p.total) * 5.0;
    QuotientInUnit(t.accepted as real + prior, (t.accepted + t.rejected) as real + 5.0);
    (t.accepted as real + prior) / ((t.accepted + t.rejected) as real + 5.0)
  }

  /** Smoothing stays between the bucket's own rate and the site's, and is the site's when the
      bucket has seen nothing. */
  lemma AcceptanceBetween(p: Profile, c: Candidate)
    ensures var t := TallyOf(p, c);
      if t.accepted + t.rejected == 0 then Acceptance(p, c) == Rate(p.total)
      else Rate(t) <= Acceptance(p, c) <= Rate(p.total) || Rate(p.total) <= Acceptance(p, c) <= Rate(t)
  {
    var t := TallyOf(p, c);
    var n := (t.accepted + t.rejected) as real;
    if n > 0.0 { WeightedMean(t.accepted as real, n, Rate(p.total)); }
  }

  lemma WeightedMean(a: real, n: real, r: real)
    requires n > 0.0
    ensures var m := (a + r * 5.0) / (n + 5.0); a / n <= m <= r || r <= m <= a / n
  {
    var q, m := a / n, (a + r * 5.0) / (n + 5.0);
    assert q * n == a && m * (n + 5.0) == a + r * 5.0;
    assert (m - q) * (n + 5.0) == (r - q) * 5.0;
    assert (r - m) * (n + 5.0) == (r - q) * n;
    SameSign(m - q, n + 5.0, r - q, 5.0);
    SameSign(r - m, n + 5.0, r - q, n);
  }

  lemma SameSign(x: real, a: real, y: real, b: real)
    requires a > 0.0 && b > 0.0 && x * a == y * b
    ensures x > 0.0 <==> y > 0.0
    ensures x < 0.0 <==> y < 0.0
  {
    if x > 0.0 { PositiveProduct(a, x); }
    if y > 0.0 { PositiveProduct(b, y); }
    if x < 0.0 { PositiveProduct(a, -x); }
    if y < 0.0 { PositiveProduct(b, -y); }
  }

  function Denominator(n: nat): (d: nat)
    ensures d > 0
  {
    if n <= 2 then 1 else n - 1
  }

  /** What place `i` of `n` is worth before anybody's feedback. */
  function Utility(n: nat, i: nat): real { 1.0 - i as real / Denominator(n) as real }

  function Part(weight: real, x: real): real { weight * x }

  function Combined(p: Profile, weight: real, n: nat, i: nat, c: Candidate): real {
    Part(1.0 - weight, Utility(n, i)) + Part(weight, Acceptance(p, c))
  }

  function Utilities(p: Profile, weight: real, candidates: seq<Candidate>): (r: seq<Keyed<Candidate>>)
    ensures InPlace(r, candidates)
    ensures forall i :: 0 <= i < |r| ==> r[i].key == Combined(p, weight, |candidates|, i, candidates[i])
  {
    seq(|candidates|, i requires 0 <= i < |candidates| =>
      Keyed(Combined(p, weight, |candidates|, i, candidates[i]), i, candidates[i]))
  }

  function FeedbackOrder(p: Profile, weight: real, candidates: seq<Candidate>): seq<Candidate> {
    Reordered(Utilities(p, weight, candidates))
  }

  /** `rerank_with_editorial_feedback` */
  method RerankWithFeedback(p: Profile, weight: real, candidates: seq<Candidate>) returns (ordered: seq<Candidate>)
    ensures ordered == FeedbackOrder(p, weight, candidates)
  {
    var scored: seq<Keyed<Candidate>> := [];
    for i := 0 to |candidates|
      invariant scored == Utilities(p, weight, candidates)[..i]
    {
      scored := scored + [Keyed(Combined(p, weight, |candidates|, i, candidates[i]), i, candidates[i])];
      assert Utilities(p, weight, candidates)[..i + 1] == Utilities(p, weight, candidates)[..i] + [Utilities(p, weight, candidates)[i]];
    }
    assert Utilities(p, weight, candidates)[..|candidates|] == Utilities(p, weight, candidates);
    ordered := Reordered(scored);
  }

  /** The lead of an earlier place over a later one, in utility. */
  lemma LeadOf(n: nat, i: nat, j: nat)
    requires i < j
    ensures Utility(n, i) - Utility(n, j) == (j - i) as real / Denominator(n) as real
  {
    Quotients(i as real, j as real, Denominator(n) as real);
  }

  lemma Quotients(i: real, j: real, d: real)
    requires d > 0.0
    ensures j / d - i / d == (j - i) / d
  {
  }

  lemma Spread(w: real, a: real, b: real)
    requires 0.0 <= w && 0.0 <= a <= 1.0 && 0.0 <= b <= 1.0
    ensures Part(w, b) - Part(w, a) <= w
  {
    Times(w, 1.0 - b);
    Distribute(w, 1.0, b);
    Times(w, a);
  }

  /** Feedback of weight `w` never swaps candidates `d` places apart of `n` when
      (1 - w) * d / (n - 1) exceeds `w`. */
  lemma FeedbackIsBounded(p: Profile, w: real, candidates: seq<Candidate>, i: nat, j: nat)
    requires Distinct(candidates) && 0.0 <= w <= 1.0 && i < j < |candidates|
    requires (1.0 - w) * ((j - i) as real / Denominator(|candidates|) as real) > w
    ensures Before(FeedbackOrder(p, w, candidates), candidates[i], candidates[j])
  {
    CombinedLeads(p, w, |candidates|, i, j, candidates[i], candidates[j],
                  (j - i) as real / Denominator(|candidates|) as real);
    HigherKeyFirst(Utilities(p, w, candidates), candidates, i, j);
  }

  /** Whether a lead in acceptance outweighs a distance in places. */
  predicate Outweighs(w: real, gain: real, distance: real) { w * gain > (1.0 - w) * distance }

  /** A later candidate overtakes exactly when its lead in acceptance outweighs the distance. */
  lemma OvertakesExactly(p: Profile, w: real, candidates: seq<Candidate>, i: nat, j: nat)
    requires Distinct(candidates) && i < j < |candidates|
    ensures Before(FeedbackOrder(p, w, candidates), candidates[j], candidates[i]) <==>
      Outweighs(w, Acceptance(p, candidates[j]) - Acceptance(p, candidates[i]), (j - i) as real / Denominator(|candidates|) as real)
  {
    var keyed := Utilities(p, w, candidates);
    LaterFirstExactly(keyed, candidates, i, j);
    CombinedExactly(p, w, |candidates|, i, j, candidates[i], candidates[j], keyed[i].key, keyed[j].key);
  }

  lemma CombinedExactly(p: Profile, w: real, n: nat, i: nat, j: nat, a: Candidate, b: Candidate, x: real, y: real)
    requires i < j && x == Combined(p, w, n, i, a) && y == Combined(p, w, n, j, b)
    ensures y > x <==> Outweighs(w, Acceptance(p, b) - Acceptance(p, a), (j - i) as real / Denominator(n) as real)
  {
    LeadOf(n, i, j);
    PartLead(1.0 - w, Utility(n, i), Utility(n, j), (j - i) as real / Denominator(n) as real);
    PartLead(w, Acceptance(p, b), Acceptance(p, a), Acceptance(p, b) - Acceptance(p, a));
  }

  lemma PartLead(u: real, x: real, y: real, lead: real)
    requires x - y == lead
    ensures Part(u, x) - Part(u, y) == u * lead
  {
    Distribute(u, x, y);
    SameFactor(u, x - y, lead);
  }

  lemma CombinedLeads(p: Profile, w: real, n: nat, i: nat, j: nat, a: Candidate, b: Candidate, lead: real)
    requires 0.0 <= w <= 1.0 && i < j && lead == (j - i) as real / Denominator(n) as real && (1.0 - w) * lead > w
    ensures Combined(p, w, n, i, a) > Combined(p, w, n, j, b)
  {
    LeadOf(n, i, j);
    PartLead(1.0 - w, Utility(n, i), Utility(n, j), lead);
    Spread(w, Acceptance(p, a), Acceptance(p, b));
  }

  lemma SameFactor(u: real, x: real, y: real)
    requires x == y
    ensures u * x == u * y
  {
  }

  lemma Distribute(w: real, x: real, y: real)
    ensures w * (x - y) == w * x - w * y
  {
  }

  // ---- The composition ------------------------------------------------------

  datatype Policy = Policy(
    minimumPercent: int, hybrid: bool, graph: GraphPolicy, profile: Option<Profile>, weight: real)

  function Eligible(policy: Policy, candidates: seq<Candidate>): seq<Candidate> {
    Filter((c: Candidate) => ScorePercent(c.semantic) >= policy.minimumPercent, candidates)
  }

  function Graphed(policy: Policy, candidates: seq<Candidate>): seq<Candidate> {
    if policy.hybrid && policy.graph.features != map[] then GraphOrder(policy.graph, candidates) else candidates
  }

  function Reviewed(policy: Policy, candidates: seq<Candidate>): seq<Candidate> {
    if policy.profile.Some? then FeedbackOrder(policy.profile.value, policy.weight, candidates) else candidates
  }

  /** `order_candidates`, as far as which candidates it returns and in what order. */
  method OrderCandidates(policy: Policy, candidates: seq<Candidate>, remaining: int) returns (r: Option<seq<Candidate>>)
    ensures r.None? <==> remaining < 0
    ensures r.Some? ==> r.value == Take(Reviewed(policy, Graphed(policy, Eligible(policy, candidates))), remaining)
  {
    if remaining < 0 { return None; }
    if candidates == [] || remaining == 0 {
      EmptyOrder(policy);
      return Some([]);
    }
    var ordered: seq<Candidate> := [];
    for i := 0 to |candidates|
      invariant ordered == Eligible(policy, candidates[..i])
    {
      FilterAppend((c: Candidate) => ScorePercent(c.semantic) >= policy.minimumPercent, candidates[..i], [candidates[i]]);
      assert candidates[..i + 1] == candidates[..i] + [candidates[i]];
      if ScorePercent(candidates[i].semantic) >= policy.minimumPercent { ordered := ordered + [candidates[i]]; }
    }
    assert candidates[..|candidates|] == candidates;
    if policy.hybrid && policy.graph.features != map[] {
      ordered := DeterministicRerank(policy.graph, ordered);
    }
    if policy.profile.Some? {
      ordered := RerankWithFeedback(policy.profile.value, policy.weight, ordered);
    }
    r := Some(Take(ordered, remaining));
  }

  lemma NothingReordered<T(!new)>()
    ensures Reordered<T>([]) == []
  {
  }

  lemma EmptyOrder(policy: Policy)
    ensures Reviewed(policy, Graphed(policy, Eligible(policy, []))) == []
  {
    NothingReordered<Candidate>();
    assert Adjusted(policy.graph, []) == [];
    assert Eligible(policy, []) == [];
    assert Graphed(policy, []) == [];
    if policy.profile.Some? { assert Utilities(policy.profile.value, policy.weight, []) == []; }
  }

  lemma {:induction false} FilterDistinct<T(!new)>(p: T -> bool, xs: seq<T>)
    requires Distinct(xs)
    ensures Distinct(Filter(p, xs))
  {
    if xs != [] {
      var rest := Filter(p, xs[1..]);
      FilterDistinct(p, xs[1..]);
      forall j | 0 <= j < |rest| ensures rest[j] != xs[0] {
        FilterMembers(p, xs[1..], rest[j]);
        var k :| 0 <= k < |xs[1..]| && xs[1..][k] == rest[j];
        assert xs[k + 1] == rest[j];
      }
    }
  }

  lemma GraphedSame(policy: Policy, xs: seq<Candidate>)
    requires Distinct(xs)
    ensures Distinct(Graphed(policy, xs)) && |Graphed(policy, xs)| == |xs|
    ensures forall x :: x in Graphed(policy, xs) <==> x in xs
  {
    ReorderedSame(Adjusted(policy.graph, xs), xs);
  }

  lemma ReviewedSame(policy: Policy, xs: seq<Candidate>)
    requires Distinct(xs)
    ensures Distinct(Reviewed(policy, xs)) && |Reviewed(policy, xs)| == |xs|
    ensures forall x :: x in Reviewed(policy, xs) <==> x in xs
  {
    if policy.profile.Some? { ReorderedSame(Utilities(policy.profile.value, policy.weight, xs), xs); }
  }

  /** The final ordering is a selection without repetition of the eligible input, as long as
      the room and the input allow. */
  lemma SelectionOfEligible(policy: Policy, candidates: seq<Candidate>, remaining: nat)
    requires Distinct(candidates)
    ensures var out := Take(Reviewed(policy, Graphed(policy, Eligible(policy, candidates))), remaining);
      && Distinct(out) && |out| == Min(remaining, |Eligible(policy, candidates)|)
      && forall c :: c in out ==> c in candidates && ScorePercent(c.semantic) >= policy.minimumPercent
  {
    var p := (c: Candidate) => ScorePercent(c.semantic) >= policy.minimumPercent;
    var eligible := Eligible(policy, candidates);
    FilterDistinct(p, candidates);
    GraphedSame(policy, eligible);
    ReviewedSame(policy, Graphed(policy, eligible));
    var all := Reviewed(policy, Graphed(policy, eligible));
    var out := Take(all, remaining);
    forall c | c in out ensures c in candidates && p(c) {
      assert c in all;
      FilterMembers(p, candidates, c);
    }
  }
}
