/** The site's link graph, its degrees, and the simulation of proposed links. */
module LinkGraph {
  import opened Prelude
  import opened Sorting

  type Edge = (int, int)

  datatype Thresholds = Thresholds(underlinked: nat, hub: nat, saturated: nat)

  datatype Feature = Feature(
    id: int, inDegree: nat, outDegree: nat, orphan: bool, underlinked: bool, hub: bool, saturated: bool)

  datatype Computation = Computation(features: seq<Feature>, edges: seq<Edge>)

  predicate Usable(ids: seq<int>, e: Edge) { e.0 in ids && e.1 in ids && e.0 != e.1 }

  predicate EdgeLe(x: Edge, y: Edge) { x.0 < y.0 || (x.0 == y.0 && x.1 <= y.1) }

  predicate IdLe(x: int, y: int) { x <= y }

  /** Each edge once, at its first place. */
  function Dedup(edges: seq<Edge>): (r: seq<Edge>)
    ensures forall e :: e in r <==> e in edges
    ensures forall i, j :: 0 <= i < j < |r| ==> r[i] != r[j]
  {
    if edges == [] then [] else
      var front, last := Dedup(edges[..|edges| - 1]), edges[|edges| - 1];
      assert edges == edges[..|edges| - 1] + [last];
      if last in front then front else front + [last]
  }

  /** The edges that count: known endpoints, no self-links, each once, in order. */
  function UniqueEdges(ids: seq<int>, edges: seq<Edge>): seq<Edge> {
    Sort(EdgeLe, Dedup(Filter((e: Edge) => Usable(ids, e), edges)))
  }

  function InCount(edges: seq<Edge>, v: int): nat {
    if edges == [] then 0 else InCount(edges[..|edges| - 1], v) + if edges[|edges| - 1].1 == v then 1 else 0
  }

  function OutCount(edges: seq<Edge>, v: int): nat {
    if edges == [] then 0 else OutCount(edges[..|edges| - 1], v) + if edges[|edges| - 1].0 == v then 1 else 0
  }

  function FeatureOf(th: Thresholds, edges: seq<Edge>, v: int): Feature {
    var incoming, outgoing := InCount(edges, v), OutCount(edges, v);
    Feature(v, incoming, outgoing, incoming == 0, incoming <= th.underlinked, outgoing >= th.hub, incoming >= th.saturated)
  }

  function FeaturesOf(th: Thresholds, edges: seq<Edge>, ids: seq<int>): (r: seq<Feature>)
    ensures |r| == |ids| && forall i :: 0 <= i < |ids| ==> r[i] == FeatureOf(th, edges, ids[i])
  {
    if ids == [] then [] else FeaturesOf(th, edges, ids[..|ids| - 1]) + [FeatureOf(th, edges, ids[|ids| - 1])]
  }

  function Compute(th: Thresholds, ids: seq<int>, edges: seq<Edge>): Computation {
    var unique := UniqueEdges(ids, edges);
    Computation(FeaturesOf(th, unique, Sort(IdLe, ids)), unique)
  }

  function CountOf(counter: map<int, nat>, v: int): nat { if v in counter then counter[v] else 0 }

  method CountDegrees(edges: seq<Edge>) returns (inDegree: map<int, nat>, outDegree: map<int, nat>)
    ensures forall v :: CountOf(inDegree, v) == InCount(edges, v) && CountOf(outDegree, v) == OutCount(edges, v)
  {
    inDegree, outDegree := map[], map[];
    for i := 0 to |edges|
      invariant forall v :: CountOf(inDegree, v) == InCount(edges[..i], v) && CountOf(outDegree, v) == OutCount(edges[..i], v)
    {
      assert edges[..i + 1][..i] == edges[..i];
      outDegree := outDegree[edges[i].0 := CountOf(outDegree, edges[i].0) + 1];
      inDegree := inDegree[edges[i].1 := CountOf(inDegree, edges[i].1) + 1];
    }
    assert edges[..|edges|] == edges;
  }

  method BuildFeatures(th: Thresholds, unique: seq<Edge>, ids: seq<int>, inDegree: map<int, nat>, outDegree: map<int, nat>)
    returns (features: seq<Feature>)
    requires forall v :: CountOf(inDegree, v) == InCount(unique, v) && CountOf(outDegree, v) == OutCount(unique, v)
    ensures features == FeaturesOf(th, unique, ids)
  {
    features := [];
    for i := 0 to |ids|
      invariant features == FeaturesOf(th, unique, ids[..i])
    {
      assert ids[..i + 1][..i] == ids[..i];
      var incoming, outgoing := CountOf(inDegree, ids[i]), CountOf(outDegree, ids[i]);
      features := features + [Feature(ids[i], incoming, outgoing, incoming == 0, incoming <= th.underlinked,
                                      outgoing >= th.hub, incoming >= th.saturated)];
    }
    assert ids[..|ids|] == ids;
  }

  /** `compute_graph` */
  method ComputeGraph(th: Thresholds, ids: seq<int>, edges: seq<Edge>) returns (r: Computation)
    ensures r == Compute(th, ids, edges)
  {
    var unique := UniqueEdges(ids, edges);
    var inDegree, outDegree := CountDegrees(unique);
    var features := BuildFeatures(th, unique, Sort(IdLe, ids), inDegree, outDegree);
    r := Computation(features, unique);
  }

  // ---- Edges and degrees ----------------------------------------------------

  lemma EdgesLinear(edges: seq<Edge>)
    ensures LinearOn(EdgeLe, edges)
  {
  }

  lemma UniqueMembers(ids: seq<int>, edges: seq<Edge>)
    ensures forall e :: e in UniqueEdges(ids, edges) <==> e in edges && Usable(ids, e)
    ensures Distinct(UniqueEdges(ids, edges)) && Ordered(EdgeLe, UniqueEdges(ids, edges))
  {
    var kept := Filter((e: Edge) => Usable(ids, e), edges);
    forall e ensures e in kept <==> e in edges && Usable(ids, e) { FilterMembers((x: Edge) => Usable(ids, x), edges, e); }
    EdgesLinear(Dedup(kept));
    SortOrders(EdgeLe, Dedup(kept));
    SortDistinct(EdgeLe, Dedup(kept));
  }

  function SumIn(edges: seq<Edge>, ids: seq<int>): nat {
    if ids == [] then 0 else SumIn(edges, ids[..|ids| - 1]) + InCount(edges, ids[|ids| - 1])
  }

  function SumOut(edges: seq<Edge>, ids: seq<int>): nat {
    if ids == [] then 0 else SumOut(edges, ids[..|ids| - 1]) + OutCount(edges, ids[|ids| - 1])
  }

  lemma {:induction false} SumOneEdge(edges: seq<Edge>, e: Edge, ids: seq<int>)
    requires Distinct(ids)
    ensures SumIn(edges + [e], ids) == SumIn(edges, ids) + if e.1 in ids then 1 else 0
    ensures SumOut(edges + [e], ids) == SumOut(edges, ids) + if e.0 in ids then 1 else 0
    decreases |ids|
  {
    assert (edges + [e])[..|edges|] == edges;
    if ids != [] {
      var front, last := ids[..|ids| - 1], ids[|ids| - 1];
      SumOneEdge(edges, e, front);
      assert ids == front + [last];
      assert last !in front;
    }
  }

  lemma {:induction false} SumNone(ids: seq<int>)
    ensures SumIn([], ids) == 0 && SumOut([], ids) == 0
    decreases |ids|
  {
    if ids != [] { SumNone(ids[..|ids| - 1]); }
  }

  /** Degrees add up to the number of edges, both ways. */
  lemma {:induction false} DegreeSums(edges: seq<Edge>, ids: seq<int>)
    requires Distinct(ids) && forall e :: e in edges ==> e.0 in ids && e.1 in ids
    ensures SumIn(edges, ids) == |edges| == SumOut(edges, ids)
    decreases |edges|
  {
    if edges == [] {
      SumNone(ids);
    } else {
      var front, last := edges[..|edges| - 1], edges[|edges| - 1];
      assert edges == front + [last];
      DegreeSums(front, ids);
      SumOneEdge(front, last, ids);
    }
  }

  /** A node has at most as many incoming edges as there are other nodes. */
  lemma {:induction false} InDegreeBound(edges: seq<Edge>, v: int, others: set<int>)
    requires Distinct(edges) && forall e :: e in edges && e.1 == v ==> e.0 in others
    ensures InCount(edges, v) <= |others|
    decreases |edges|
  {
    if edges != [] {
      var front, last := edges[..|edges| - 1], edges[|edges| - 1];
      assert edges == front + [last] && last !in front;
      if last.1 == v {
        InDegreeBound(front, v, others - {last.0});
      } else {
        InDegreeBound(front, v, others);
      }
    }
  }

  lemma {:induction false} OutDegreeBound(edges: seq<Edge>, v: int, others: set<int>)
    requires Distinct(edges) && forall e :: e in edges && e.0 == v ==> e.1 in others
    ensures OutCount(edges, v) <= |others|
    decreases |edges|
  {
    if edges != [] {
      var front, last := edges[..|edges| - 1], edges[|edges| - 1];
      assert edges == front + [last] && last !in front;
      if last.0 == v {
        OutDegreeBound(front, v, others - {last.1});
      } else {
        OutDegreeBound(front, v, others);
      }
    }
  }

  function TotalIn(features: seq<Feature>): nat {
    if features == [] then 0 else TotalIn(features[..|features| - 1]) + features[|features| - 1].inDegree
  }

  function TotalOut(features: seq<Feature>): nat {
    if features == [] then 0 else TotalOut(features[..|features| - 1]) + features[|features| - 1].outDegree
  }

  lemma {:induction false} TotalsAreSums(th: Thresholds, edges: seq<Edge>, ids: seq<int>)
    ensures TotalIn(FeaturesOf(th, edges, ids)) == SumIn(edges, ids)
    ensures TotalOut(FeaturesOf(th, edges, ids)) == SumOut(edges, ids)
    decreases |ids|
  {
    if ids != [] {
      var front := ids[..|ids| - 1];
      TotalsAreSums(th, edges, front);
      var features := FeaturesOf(th, edges, ids);
      assert features[..|features| - 1] == FeaturesOf(th, edges, front);
    }
  }

  lemma DegreeBounds(edges: seq<Edge>, ids: seq<int>, v: int)
    requires Distinct(ids) && Distinct(edges) && v in ids && forall e :: e in edges ==> Usable(ids, e)
    ensures InCount(edges, v) <= |ids| - 1 && OutCount(edges, v) <= |ids| - 1
  {
    DistinctLength(ids);
    var others := (set x | x in ids) - {v};
    InDegreeBound(edges, v, others);
    OutDegreeBound(edges, v, others);
  }

  lemma SortedIds(ids: seq<int>)
    requires Distinct(ids)
    ensures Distinct(Sort(IdLe, ids)) && |Sort(IdLe, ids)| == |ids| && forall x :: x in Sort(IdLe, ids) <==> x in ids
  {
    SortDistinct(IdLe, ids);
    SameElements(Sort(IdLe, ids), ids);
  }

  /** The features of a computed graph: their in-degrees and their out-degrees each add up to
      its links, and no degree exceeds the number of other articles. */
  lemma ComputedGraph(th: Thresholds, ids: seq<int>, edges: seq<Edge>, i: nat)
    requires Distinct(ids) && i < |ids|
    ensures var g := Compute(th, ids, edges);
      && TotalIn(g.features) == |g.edges| == TotalOut(g.features) && |g.features| == |ids|
      && g.features[i].inDegree <= |ids| - 1 && g.features[i].outDegree <= |ids| - 1
  {
    var unique, sorted := UniqueEdges(ids, edges), Sort(IdLe, ids);
    UniqueMembers(ids, edges);
    SortedIds(ids);
    UsableAmong(ids, sorted, unique);
    DegreeSums(unique, sorted);
    TotalsAreSums(th, unique, sorted);
    DegreeBounds(unique, sorted, sorted[i]);
  }

  lemma UsableAmong(ids: seq<int>, sorted: seq<int>, edges: seq<Edge>)
    requires forall x :: x in sorted <==> x in ids
    ensures (forall e :: e in edges ==> Usable(ids, e)) ==> forall e :: e in edges ==> Usable(sorted, e)
  {
  }

  // ---- Simulation -----------------------------------------------------------

  /** The proposals that would be new links, in order. */
  function Applied(ids: seq<int>, current: seq<Edge>, proposed: seq<Edge>): (r: seq<Edge>)
    ensures forall e :: e in r <==> e in proposed && e !in current && Usable(ids, e)
    ensures Distinct(r)
  {
    if proposed == [] then [] else
      var front, e := Applied(ids, current, proposed[..|proposed| - 1]), proposed[|proposed| - 1];
      assert proposed == proposed[..|proposed| - 1] + [e];
      if e in current || e in front || !Usable(ids, e) then front else front + [e]
  }

  datatype Kind = New | Duplicate | Invalid

  /** What a proposal counts as. */
  function KindOf(ids: seq<int>, current: seq<Edge>, before: seq<Edge>, e: Edge): Kind {
    if e in current || e in Applied(ids, current, before) then Duplicate
    else if !Usable(ids, e) then Invalid else New
  }

  function CountKind(ids: seq<int>, current: seq<Edge>, proposed: seq<Edge>, kind: Kind): nat {
    if proposed == [] then 0 else
      var front, e := proposed[..|proposed| - 1], proposed[|proposed| - 1];
      CountKind(ids, current, front, kind) + if KindOf(ids, current, front, e) == kind then 1 else 0
  }

  /** The proposals set aside as duplicates, in order. */
  function Duplicates(ids: seq<int>, current: seq<Edge>, proposed: seq<Edge>): (r: seq<Edge>)
    ensures |r| == CountKind(ids, current, proposed, Duplicate)
  {
    if proposed == [] then [] else
      var front, e := proposed[..|proposed| - 1], proposed[|proposed| - 1];
      Duplicates(ids, current, front) + if KindOf(ids, current, front, e) == Duplicate then [e] else []
  }

  /** Every proposal is exactly one of new, duplicate and invalid. */
  lemma {:induction false} KindsAddUp(ids: seq<int>, current: seq<Edge>, proposed: seq<Edge>)
    ensures CountKind(ids, current, proposed, New) == |Applied(ids, current, proposed)|
    ensures CountKind(ids, current, proposed, New) + CountKind(ids, current, proposed, Duplicate)
            + CountKind(ids, current, proposed, Invalid) == |proposed|
    decreases |proposed|
  {
    if proposed != [] { KindsAddUp(ids, current, proposed[..|proposed| - 1]); }
  }

  function IdsOf(features: seq<Feature>): (r: seq<int>)
    ensures |r| == |features| && forall i :: 0 <= i < |features| ==> r[i] == features[i].id
  {
    if features == [] then [] else IdsOf(features[..|features| - 1]) + [features[|features| - 1].id]
  }

  function Where(p: Feature -> bool, features: seq<Feature>): nat { |Filter(p, features)| }

  datatype Simulation = Simulation(
    applied: seq<Edge>, duplicates: seq<Edge>, after: Computation, newlyConnected: seq<int>, newlySaturated: seq<int>)

  /** The ids, in feature order, whose two features satisfy `p`. */
  function Changed(p: (Feature, Feature) -> bool, before: seq<Feature>, after: seq<Feature>): seq<int>
    requires |before| == |after|
  {
    if before == [] then [] else
      var n := |before| - 1;
      Changed(p, before[..n], after[..n]) + if p(before[n], after[n]) then [before[n].id] else []
  }

  predicate Connected(x: Feature, y: Feature) { x.orphan && !y.orphan }

  predicate BecomesSaturated(x: Feature, y: Feature) { !x.saturated && y.saturated }

  method Sift(ids: seq<int>, current: seq<Edge>, proposed: seq<Edge>) returns (applied: seq<Edge>, duplicates: seq<Edge>)
    ensures applied == Applied(ids, current, proposed) && duplicates == Duplicates(ids, current, proposed)
  {
    applied, duplicates := [], [];
    for i := 0 to |proposed|
      invariant applied == Applied(ids, current, proposed[..i]) && duplicates == Duplicates(ids, current, proposed[..i])
    {
      assert proposed[..i + 1][..i] == proposed[..i] && proposed[..i + 1] == proposed[..i] + [proposed[i]];
      var e := proposed[i];
      if e in current || e in applied {
        duplicates := duplicates + [e];
        continue;
      }
      if !Usable(ids, e) {
        continue;
      }
      applied := applied + [e];
    }
    assert proposed[..|proposed|] == proposed;
  }

  /** `simulate_graph`, up to its warnings. */
  method Simulate(th: Thresholds, g: Computation, proposed: seq<Edge>) returns (r: Simulation)
    ensures r.applied == Applied(IdsOf(g.features), g.edges, proposed)
    ensures r.duplicates == Duplicates(IdsOf(g.features), g.edges, proposed)
    ensures r.after == Compute(th, IdsOf(g.features), g.edges + r.applied)
    ensures r.newlyConnected == Changed(Connected, g.features, r.after.features)
    ensures r.newlySaturated == Changed(BecomesSaturated, g.features, r.after.features)
  {
    var ids := IdsOf(g.features);
    var applied, duplicates := Sift(ids, g.edges, proposed);
    var after := ComputeGraph(th, ids, g.edges + applied);
    r := Simulation(applied, duplicates, after, Changed(Connected, g.features, after.features),
                    Changed(BecomesSaturated, g.features, after.features));
  }

  // ---- What a simulation conserves ------------------------------------------

  lemma SameMembers<T(!new)>(xs: seq<T>, ys: seq<T>)
    requires Distinct(xs) && Distinct(ys) && forall x :: x in xs <==> x in ys
    ensures multiset(xs) == multiset(ys) && |xs| == |ys|
  {
    DistinctMultiset(xs);
    DistinctMultiset(ys);
    forall x ensures multiset(xs)[x] == multiset(ys)[x] {
      assert x in multiset(xs) <==> x in xs;
      assert x in multiset(ys) <==> x in ys;
    }
    assert |multiset(xs)| == |xs| && |multiset(ys)| == |ys|;
  }

  lemma {:induction false} InCountIsFilter(edges: seq<Edge>, v: int)
    ensures InCount(edges, v) == |Filter((e: Edge) => e.1 == v, edges)|
    decreases |edges|
  {
    if edges != [] {
      var front, last := edges[..|edges| - 1], edges[|edges| - 1];
      assert edges == front + [last];
      FilterAppend((e: Edge) => e.1 == v, front, [last]);
      InCountIsFilter(front, v);
    }
  }

  lemma {:induction false} OutCountIsFilter(edges: seq<Edge>, v: int)
    ensures OutCount(edges, v) == |Filter((e: Edge) => e.0 == v, edges)|
    decreases |edges|
  {
    if edges != [] {
      var front, last := edges[..|edges| - 1], edges[|edges| - 1];
      assert edges == front + [last];
      FilterAppend((e: Edge) => e.0 == v, front, [last]);
      OutCountIsFilter(front, v);
    }
  }

  /** Filtering rearranged input keeps as many. */
  lemma FilterRearranged<T(!new)>(p: T -> bool, xs: seq<T>, ys: seq<T>)
    requires multiset(xs) == multiset(ys)
    ensures |Filter(p, xs)| == |Filter(p, ys)|
  {
    forall x ensures multiset(Filter(p, xs))[x] == multiset(Filter(p, ys))[x] {
      FilterCount(p, xs, x);
      FilterCount(p, ys, x);
    }
    assert multiset(Filter(p, xs)) == multiset(Filter(p, ys));
    assert |multiset(Filter(p, xs))| == |Filter(p, xs)| && |multiset(Filter(p, ys))| == |Filter(p, ys)|;
  }

  /** The links after are the links before and the applied ones, none lost and none twice. */
  lemma EdgesAfter(ids: seq<int>, current: seq<Edge>, applied: seq<Edge>)
    requires Distinct(current) && Distinct(applied)
    requires forall e :: e in current ==> Usable(ids, e)
    requires forall e :: e in applied ==> Usable(ids, e) && e !in current
    ensures multiset(UniqueEdges(ids, current + applied)) == multiset(current + applied)
    ensures |UniqueEdges(ids, current + applied)| == |current| + |applied|
  {
    UniqueMembers(ids, current + applied);
    forall i, j | 0 <= i < j < |current + applied| ensures (current + applied)[i] != (current + applied)[j] {
      if i < |current| <= j { assert current[i] in current && applied[j - |current|] in applied; }
    }
    SameMembers(UniqueEdges(ids, current + applied), current + applied);
  }

  lemma DegreesAfter(ids: seq<int>, current: seq<Edge>, applied: seq<Edge>, v: int)
    requires Distinct(current) && Distinct(applied)
    requires forall e :: e in current ==> Usable(ids, e)
    requires forall e :: e in applied ==> Usable(ids, e) && e !in current
    ensures InCount(UniqueEdges(ids, current + applied), v) == InCount(current, v) + InCount(applied, v)
    ensures OutCount(UniqueEdges(ids, current + applied), v) == OutCount(current, v) + OutCount(applied, v)
  {
    var after := UniqueEdges(ids, current + applied);
    EdgesAfter(ids, current, applied);
    InCountIsFilter(after, v);
    InCountIsFilter(current, v);
    InCountIsFilter(applied, v);
    FilterRearranged((e: Edge) => e.1 == v, after, current + applied);
    FilterAppend((e: Edge) => e.1 == v, current, applied);
    OutCountIsFilter(after, v);
    OutCountIsFilter(current, v);
    OutCountIsFilter(applied, v);
    FilterRearranged((e: Edge) => e.0 == v, after, current + applied);
    FilterAppend((e: Edge) => e.0 == v, current, applied);
  }

  lemma {:induction false} IdsOfFeatures(th: Thresholds, edges: seq<Edge>, ids: seq<int>)
    ensures IdsOf(FeaturesOf(th, edges, ids)) == ids
  {
    assert |IdsOf(FeaturesOf(th, edges, ids))| == |ids|;
  }

  lemma IdsLinear(ids: seq<int>)
    ensures LinearOn(IdLe, ids)
  {
  }

  lemma SortAgain(ids: seq<int>)
    ensures Sort(IdLe, Sort(IdLe, ids)) == Sort(IdLe, ids)
  {
    IdsLinear(ids);
    SortOrders(IdLe, ids);
    IdsLinear(Sort(IdLe, ids));
    SortOrders(IdLe, Sort(IdLe, ids));
    OrderedUnique(IdLe, Sort(IdLe, Sort(IdLe, ids)), Sort(IdLe, ids));
  }

  lemma FilterNext(p: Feature -> bool, features: seq<Feature>)
    requires features != []
    ensures |Filter(p, features)| == |Filter(p, features[..|features| - 1])| + if p(features[|features| - 1]) then 1 else 0
  {
    var front, last := features[..|features| - 1], features[|features| - 1];
    assert features == front + [last];
    FilterAppend(p, front, [last]);
  }

  /** Counting what changed: articles stop being orphans and start being saturated, never the
      other way. */
  lemma {:induction false} ChangesAddUp(before: seq<Feature>, after: seq<Feature>)
    requires |before| == |after|
    requires forall i :: 0 <= i < |before| ==> (after[i].orphan ==> before[i].orphan) && (before[i].saturated ==> after[i].saturated)
    ensures Where((f: Feature) => f.orphan, before) == Where((f: Feature) => f.orphan, after) + |Changed(Connected, before, after)|
    ensures Where((f: Feature) => f.saturated, after) == Where((f: Feature) => f.saturated, before) + |Changed(BecomesSaturated, before, after)|
    decreases |before|
  {
    if before != [] {
      var n := |before| - 1;
      ChangesAddUp(before[..n], after[..n]);
      FilterNext((f: Feature) => f.orphan, before);
      FilterNext((f: Feature) => f.orphan, after);
      FilterNext((f: Feature) => f.saturated, before);
      FilterNext((f: Feature) => f.saturated, after);
    }
  }

  /** A simulation on a computed graph: the links grow by exactly the applied proposals, the
      orphans fall by exactly the newly connected, and the saturated rise by exactly the newly
      saturated. */
  lemma SimulationConserves(th: Thresholds, ids: seq<int>, edges: seq<Edge>, proposed: seq<Edge>)
    requires Distinct(ids)
    ensures var g := Compute(th, ids, edges);
      var applied := Applied(IdsOf(g.features), g.edges, proposed);
      var after := Compute(th, IdsOf(g.features), g.edges + applied);
      && |after.features| == |g.features| && |after.edges| == |g.edges| + |applied|
      && Where((f: Feature) => f.orphan, g.features)
         == Where((f: Feature) => f.orphan, after.features) + |Changed(Connected, g.features, after.features)|
      && Where((f: Feature) => f.saturated, after.features)
         == Where((f: Feature) => f.saturated, g.features) + |Changed(BecomesSaturated, g.features, after.features)|
  {
    var g, sorted := Compute(th, ids, edges), Sort(IdLe, ids);
    IdsOfFeatures(th, g.edges, sorted);
    SortAgain(ids);
    UniqueMembers(ids, edges);
    SameElements(sorted, ids);
    var applied := Applied(sorted, g.edges, proposed);
    var after := Compute(th, sorted, g.edges + applied);
    EdgesAfter(sorted, g.edges, applied);
    forall i | 0 <= i < |sorted|
      ensures after.features[i].orphan ==> g.features[i].orphan
      ensures g.features[i].saturated ==> after.features[i].saturated
    {
      DegreesAfter(sorted, g.edges, applied, sorted[i]);
    }
    ChangesAddUp(g.features, after.features);
  }

  // ---- Order of the proposals -----------------------------------------------

  lemma {:induction false} InvalidAreUnusable(ids: seq<int>, current: seq<Edge>, proposed: seq<Edge>)
    requires forall e :: e in current ==> Usable(ids, e)
    ensures CountKind(ids, current, proposed, Invalid) == |Filter((e: Edge) => !Usable(ids, e), proposed)|
    decreases |proposed|
  {
    if proposed != [] {
      var front, last := proposed[..|proposed| - 1], proposed[|proposed| - 1];
      assert proposed == front + [last];
      InvalidAreUnusable(ids, current, front);
      FilterAppend((e: Edge) => !Usable(ids, e), front, [last]);
    }
  }

  /** The same proposals in another order make the same graph and the same counts. */
  lemma OrderDoesNotMatter(th: Thresholds, ids: seq<int>, current: seq<Edge>, xs: seq<Edge>, ys: seq<Edge>)
    requires multiset(xs) == multiset(ys) && forall e :: e in current ==> Usable(ids, e)
    ensures Compute(th, ids, current + Applied(ids, current, xs)) == Compute(th, ids, current + Applied(ids, current, ys))
    ensures forall kind :: CountKind(ids, current, xs, kind) == CountKind(ids, current, ys, kind)
  {
    var a, b := Applied(ids, current, xs), Applied(ids, current, ys);
    SameElements(xs, ys);
    SameMembers(a, b);
    UniqueMembers(ids, current + a);
    UniqueMembers(ids, current + b);
    SameMembers(UniqueEdges(ids, current + a), UniqueEdges(ids, current + b));
    EdgesLinear(UniqueEdges(ids, current + a));
    OrderedUnique(EdgeLe, UniqueEdges(ids, current + a), UniqueEdges(ids, current + b));
    SameKinds(ids, current, xs, ys);
  }

  lemma SameKinds(ids: seq<int>, current: seq<Edge>, xs: seq<Edge>, ys: seq<Edge>)
    requires multiset(xs) == multiset(ys) && forall e :: e in current ==> Usable(ids, e)
    ensures forall kind :: CountKind(ids, current, xs, kind) == CountKind(ids, current, ys, kind)
  {
    KindsAddUp(ids, current, xs);
    KindsAddUp(ids, current, ys);
    SameElements(xs, ys);
    SameMembers(Applied(ids, current, xs), Applied(ids, current, ys));
    InvalidAreUnusable(ids, current, xs);
    InvalidAreUnusable(ids, current, ys);
    FilterRearranged((e: Edge) => !Usable(ids, e), xs, ys);
    assert |multiset(xs)| == |xs| && |multiset(ys)| == |ys|;
    forall kind ensures CountKind(ids, current, xs, kind) == CountKind(ids, current, ys, kind) {
      match kind case New => case Duplicate => case Invalid =>
    }
  }
}
