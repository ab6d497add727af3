/** What the numbers and lists of the link graph mean, said of the links themselves. */
module GraphMeaning {
  import opened Prelude
  import opened Sorting
  import opened LinkGraph

  /** The articles that link to `v`, and the articles `v` links to. */
  function Sources(edges: seq<Edge>, v: int): set<int> { set e | e in edges && e.1 == v :: e.0 }

  function Targets(edges: seq<Edge>, v: int): set<int> { set e | e in edges && e.0 == v :: e.1 }

  lemma {:induction false} InCountIsSources(edges: seq<Edge>, v: int)
    requires Distinct(edges)
    ensures InCount(edges, v) == |Sources(edges, v)|
    decreases |edges|
  {
    if edges == [] {
      assert Sources(edges, v) == {};
    } else {
      var front, last := edges[..|edges| - 1], edges[|edges| - 1];
      assert edges == front + [last] && last !in front;
      InCountIsSources(front, v);
      if last.1 == v {
        assert Sources(edges, v) == Sources(front, v) + {last.0};
        forall e | e in front && e.1 == v ensures e.0 != last.0 {
          assert e != last;
        }
      } else {
        assert Sources(edges, v) == Sources(front, v);
      }
    }
  }

  lemma {:induction false} OutCountIsTargets(edges: seq<Edge>, v: int)
    requires Distinct(edges)
    ensures OutCount(edges, v) == |Targets(edges, v)|
    decreases |edges|
  {
    if edges == [] {
      assert Targets(edges, v) == {};
    } else {
      var front, last := edges[..|edges| - 1], edges[|edges| - 1];
      assert edges == front + [last] && last !in front;
      OutCountIsTargets(front, v);
      if last.0 == v {
        assert Targets(edges, v) == Targets(front, v) + {last.1};
        forall e | e in front && e.0 == v ensures e.1 != last.1 {
          assert e != last;
        }
      } else {
        assert Targets(edges, v) == Targets(front, v);
      }
    }
  }

  /** A link between two different articles of the site. */
  predicate Inside(ids: seq<int>, e: Edge) { e.0 in ids && e.1 in ids && e.0 != e.1 }

  /** The articles of the site that link to `v`. */
  function Linking(ids: seq<int>, edges: seq<Edge>, v: int): set<int> { set e | e in edges && Inside(ids, e) && e.1 == v :: e.0 }

  function LinkedFrom(ids: seq<int>, edges: seq<Edge>, v: int): set<int> { set e | e in edges && Inside(ids, e) && e.0 == v :: e.1 }

  /** Every article has one feature row, in order of id. */
  lemma FeaturesInOrder(th: Thresholds, ids: seq<int>, edges: seq<Edge>)
    requires Distinct(ids)
    ensures var f := Compute(th, ids, edges).features;
      && |f| == |ids| && (forall i, j :: 0 <= i < j < |f| ==> f[i].id < f[j].id)
      && (forall i :: 0 <= i < |f| ==> f[i].id in ids)
      && (forall v :: v in ids ==> exists i :: 0 <= i < |f| && f[i].id == v)
  {
    var f, sorted := Compute(th, ids, edges).features, Sort(IdLe, ids);
    SortedIds(ids);
    IdsLinear(ids);
    SortOrders(IdLe, ids);
    forall v | v in ids ensures exists i :: 0 <= i < |f| && f[i].id == v {
      var i :| 0 <= i < |sorted| && sorted[i] == v;
      assert f[i].id == v;
    }
  }

  /** A feature row counts the articles that link to its article and those it links to, each
      once however often the link occurs; the labels compare those counts with the thresholds,
      and an orphan is an article nothing links to. */
  lemma FeatureMeans(th: Thresholds, ids: seq<int>, edges: seq<Edge>, i: nat)
    requires Distinct(ids) && i < |ids|
    ensures var f := Compute(th, ids, edges).features[i];
      && f.inDegree == |Linking(ids, edges, f.id)| && f.outDegree == |LinkedFrom(ids, edges, f.id)|
      && (f.orphan <==> forall e :: e in edges && e.1 == f.id ==> !Inside(ids, e))
      && (f.underlinked <==> |Linking(ids, edges, f.id)| <= th.underlinked)
      && (f.saturated <==> |Linking(ids, edges, f.id)| >= th.saturated)
      && (f.hub <==> |LinkedFrom(ids, edges, f.id)| >= th.hub)
  {
    var v, unique := Compute(th, ids, edges).features[i].id, UniqueEdges(ids, edges);
    UniqueMembers(ids, edges);
    InCountIsSources(unique, v);
    OutCountIsTargets(unique, v);
    assert Sources(unique, v) == Linking(ids, edges, v);
    assert Targets(unique, v) == LinkedFrom(ids, edges, v);
    if e :| e in edges && e.1 == v && Inside(ids, e) {
      assert e.0 in Linking(ids, edges, v);
    } else {
      assert Linking(ids, edges, v) == {};
    }
  }

  /** The links of a computed graph: those between different articles of the site, each once,
      in order of source and then of target. */
  lemma EdgesExactly(th: Thresholds, ids: seq<int>, edges: seq<Edge>, e: Edge, i: nat, j: nat)
    ensures var links := Compute(th, ids, edges).edges;
      && (e in links <==> e in edges && Inside(ids, e))
      && (i < j < |links| ==> links[i].0 < links[j].0 || (links[i].0 == links[j].0 && links[i].1 < links[j].1))
  {
    UniqueMembers(ids, edges);
  }

  /** A proposal is a duplicate when the link is there already, or is one of the site and was
      proposed before; it is invalid when it is not there and could not be. */
  lemma KindExactly(ids: seq<int>, current: seq<Edge>, before: seq<Edge>, e: Edge)
    ensures KindOf(ids, current, before, e).Duplicate? <==> e in current || (e in before && Inside(ids, e))
    ensures KindOf(ids, current, before, e).Invalid? <==> e !in current && !Inside(ids, e)
    ensures KindOf(ids, current, before, e).New? <==> e !in current && e !in before && Inside(ids, e)
  {
  }

  /** What was applied of the first proposals stays first: the list grows in proposal order. */
  lemma {:induction false} AppliedGrows(ids: seq<int>, current: seq<Edge>, proposed: seq<Edge>, k: nat)
    requires k <= |proposed|
    ensures Applied(ids, current, proposed[..k]) <= Applied(ids, current, proposed)
    decreases |proposed|
  {
    if k == |proposed| {
      assert proposed[..k] == proposed;
    } else {
      var front := proposed[..|proposed| - 1];
      assert front[..k] == proposed[..k];
      AppliedGrows(ids, current, front, k);
    }
  }

  /** What a simulation reports, on a computed graph. */
  ghost predicate IsSimulation(th: Thresholds, g: Computation, applied: seq<Edge>, after: Computation) {
    && (exists ids, edges :: Distinct(ids) && g == Compute(th, ids, edges))
    && (forall e :: e in applied ==> Inside(IdsOf(g.features), e) && e !in g.edges) && Distinct(applied)
    && after == Compute(th, IdsOf(g.features), g.edges + applied)
  }

  lemma {:induction false} ChangedMembers(p: (Feature, Feature) -> bool, before: seq<Feature>, after: seq<Feature>, v: int)
    requires |before| == |after|
    ensures v in Changed(p, before, after) <==> ChangesAt(p, before, after, v)
    decreases |before|
  {
    if before != [] {
      var n := |before| - 1;
      ChangedMembers(p, before[..n], after[..n], v);
      ChangedNext(p, before, after, v);
    }
  }

  ghost predicate ChangesAt(p: (Feature, Feature) -> bool, before: seq<Feature>, after: seq<Feature>, v: int)
    requires |before| == |after|
  {
    exists i :: 0 <= i < |before| && before[i].id == v && p(before[i], after[i])
  }

  lemma ChangedNext(p: (Feature, Feature) -> bool, before: seq<Feature>, after: seq<Feature>, v: int)
    requires |before| == |after| > 0
    ensures var n := |before| - 1;
      ChangesAt(p, before, after, v) <==> ChangesAt(p, before[..n], after[..n], v) || (before[n].id == v && p(before[n], after[n]))
  {
    var n := |before| - 1;
    if i :| 0 <= i < n && before[..n][i].id == v && p(before[..n][i], after[..n][i]) {
      assert before[i].id == v && p(before[i], after[i]);
    }
    if i :| 0 <= i < |before| && before[i].id == v && p(before[i], after[i]) {
      if i < n { assert before[..n][i].id == v && p(before[..n][i], after[..n][i]); }
    }
  }

  /** One feature row, said of the links it was made from. */
  ghost predicate Describes(th: Thresholds, f: Feature, incoming: nat) {
    f.inDegree == incoming && (f.orphan <==> incoming == 0) && (f.saturated <==> incoming >= th.saturated)
  }

  lemma RowDescribes(th: Thresholds, unique: seq<Edge>, sorted: seq<int>, i: nat)
    requires i < |sorted|
    ensures FeaturesOf(th, unique, sorted)[i].id == sorted[i]
    ensures Describes(th, FeaturesOf(th, unique, sorted)[i], InCount(unique, sorted[i]))
  {
  }

  lemma LinksUsable(ids: seq<int>, edges: seq<Edge>, unique: seq<Edge>, sorted: seq<int>)
    requires unique == UniqueEdges(ids, edges) && sorted == Sort(IdLe, ids)
    ensures Distinct(unique) && forall e :: e in unique ==> Usable(sorted, e)
  {
    UniqueMembers(ids, edges);
    SameElements(sorted, ids);
  }

  /** A computed graph, written over its ids in order. */
  ghost predicate InOrder(th: Thresholds, g: Computation, sorted: seq<int>) {
    && Distinct(g.edges) && (forall e :: e in g.edges ==> Usable(sorted, e))
    && IdsOf(g.features) == sorted && g.features == FeaturesOf(th, g.edges, sorted) && Sort(IdLe, sorted) == sorted
  }

  lemma ComputedInOrder(th: Thresholds, ids: seq<int>, edges: seq<Edge>)
    ensures InOrder(th, Compute(th, ids, edges), Sort(IdLe, ids))
  {
    IdsOfFeatures(th, UniqueEdges(ids, edges), Sort(IdLe, ids));
    SortAgain(ids);
    LinksUsable(ids, edges, UniqueEdges(ids, edges), Sort(IdLe, ids));
  }

  /** The features before and after, and the incoming links of one article. */
  lemma SimulatedFeatures(th: Thresholds, g: Computation, applied: seq<Edge>, after: Computation, i: nat)
    requires IsSimulation(th, g, applied, after) && i < |g.features|
    ensures |after.features| == |g.features| && after.features[i].id == g.features[i].id
    ensures Describes(th, g.features[i], |Sources(g.edges, g.features[i].id)|)
    ensures Describes(th, after.features[i], |Sources(g.edges, g.features[i].id)| + |Sources(applied, g.features[i].id)|)
  {
    var ids, edges :| Distinct(ids) && g == Compute(th, ids, edges);
    ComputedInOrder(th, ids, edges);
    SimulatedInOrder(th, g, applied, after, Sort(IdLe, ids), i);
  }

  lemma SimulatedInOrder(th: Thresholds, g: Computation, applied: seq<Edge>, after: Computation, sorted: seq<int>, i: nat)
    requires InOrder(th, g, sorted) && i < |g.features| && Distinct(applied)
    requires forall e :: e in applied ==> Inside(IdsOf(g.features), e) && e !in g.edges
    requires after == Compute(th, IdsOf(g.features), g.edges + applied)
    ensures |after.features| == |g.features| && after.features[i].id == g.features[i].id
    ensures Describes(th, g.features[i], |Sources(g.edges, g.features[i].id)|)
    ensures Describes(th, after.features[i], |Sources(g.edges, g.features[i].id)| + |Sources(applied, g.features[i].id)|)
  {
    SimulatedRows(th, g, applied, after, sorted, i);
  }

  lemma SimulatedRows(th: Thresholds, g: Computation, applied: seq<Edge>, after: Computation, sorted: seq<int>, i: nat)
    requires g.features == FeaturesOf(th, g.edges, sorted) && i < |sorted| && Distinct(g.edges) && Distinct(applied)
    requires after.features == FeaturesOf(th, UniqueEdges(sorted, g.edges + applied), sorted)
    requires forall e :: e in g.edges ==> Usable(sorted, e)
    requires forall e :: e in applied ==> Usable(sorted, e) && e !in g.edges
    ensures |after.features| == |g.features| && after.features[i].id == g.features[i].id
    ensures Describes(th, g.features[i], |Sources(g.edges, g.features[i].id)|)
    ensures Describes(th, after.features[i], |Sources(g.edges, g.features[i].id)| + |Sources(applied, g.features[i].id)|)
  {
    RowDescribes(th, g.edges, sorted, i);
    RowDescribes(th, UniqueEdges(sorted, g.edges + applied), sorted, i);
    InCountIsSources(g.edges, sorted[i]);
    InCountIsSources(applied, sorted[i]);
    DegreesAfter(sorted, g.edges, applied, sorted[i]);
  }

  lemma NoSource(edges: seq<Edge>, v: int)
    ensures |Sources(edges, v)| == 0 <==> forall e :: e in edges ==> e.1 != v
  {
    if e :| e in edges && e.1 == v { assert e.0 in Sources(edges, v); } else { assert Sources(edges, v) == {}; }
  }

  /** An article is newly connected exactly when nothing linked to it and an applied proposal
      does now. */
  lemma NewlyConnectedExactly(th: Thresholds, g: Computation, applied: seq<Edge>, after: Computation, v: int)
    requires IsSimulation(th, g, applied, after) && |after.features| == |g.features|
    ensures v in Changed(Connected, g.features, after.features) <==>
      && v in IdsOf(g.features) && (forall e :: e in g.edges ==> e.1 != v) && exists e :: e in applied && e.1 == v
  {
    ChangedMembers(Connected, g.features, after.features, v);
    NoSource(g.edges, v);
    NoSource(applied, v);
    forall i | 0 <= i < |g.features| && g.features[i].id == v
      ensures Connected(g.features[i], after.features[i]) <==> |Sources(g.edges, v)| == 0 && |Sources(applied, v)| > 0
    {
      SimulatedFeatures(th, g, applied, after, i);
    }
    if v in IdsOf(g.features) {
      var i :| 0 <= i < |g.features| && IdsOf(g.features)[i] == v;
      assert g.features[i].id == v;
    }
    if i :| 0 <= i < |g.features| && g.features[i].id == v { assert IdsOf(g.features)[i] == v; }
  }

  /** An article is newly saturated exactly when its links were below the threshold and the
      applied proposals take it there. */
  lemma NewlySaturatedExactly(th: Thresholds, g: Computation, applied: seq<Edge>, after: Computation, v: int)
    requires IsSimulation(th, g, applied, after) && |after.features| == |g.features|
    ensures v in Changed(BecomesSaturated, g.features, after.features) <==>
      v in IdsOf(g.features) && |Sources(g.edges, v)| < th.saturated <= |Sources(g.edges, v)| + |Sources(applied, v)|
  {
    ChangedMembers(BecomesSaturated, g.features, after.features, v);
    forall i | 0 <= i < |g.features| && g.features[i].id == v
      ensures BecomesSaturated(g.features[i], after.features[i])
              <==> |Sources(g.edges, v)| < th.saturated <= |Sources(g.edges, v)| + |Sources(applied, v)|
    {
      SimulatedFeatures(th, g, applied, after, i);
    }
    if v in IdsOf(g.features) {
      var i :| 0 <= i < |g.features| && IdsOf(g.features)[i] == v;
      assert g.features[i].id == v;
    }
    if i :| 0 <= i < |g.features| && g.features[i].id == v { assert IdsOf(g.features)[i] == v; }
  }
}
