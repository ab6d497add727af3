/** `grouped_batch`: which selected suggestions one preparation takes, grouped by source
    article and ordered. */
module GroupedBatch {
  import opened Prelude
  import opened Sorting

  /** A selected suggestion that no approved plan has taken; `target` is None for a link to an
      outside page. */
  datatype Selected = Selected(id: int, source: int, target: Option<int>, score: real, bm25: real)

  /** The same as the query returns it, with whether the opposite link is already published. */
  datatype Row = Row(id: int, source: int, target: Option<int>, score: real, bm25: real, reverseApplied: bool)

  /** The EXISTS subquery: an applied suggestion runs from this one's target to its source. */
  predicate ReversePublished(s: Selected, applied: set<(int, int)>) {
    s.target.Some? && (s.target.value, s.source) in applied
  }

  function Flagged(s: Selected, applied: set<(int, int)>): Row {
    Row(s.id, s.source, s.target, s.score, s.bm25, ReversePublished(s, applied))
  }

  /** The rows of the query; `applied` are the (source, target) pairs of applied suggestions. */
  function Query(selected: seq<Selected>, applied: set<(int, int)>): (r: seq<Row>)
    ensures |r| == |selected| && forall i :: 0 <= i < |r| ==> r[i] == Flagged(selected[i], applied)
  {
    seq(|selected|, i requires 0 <= i < |selected| => Flagged(selected[i], applied))
  }

  type Pair = set<Option<int>>

  function PairOf(r: Row): Pair { {Some(r.source), r.target} }

  predicate Opposite(r: Row, q: Row) { r.target == Some(q.source) && q.target == Some(r.source) }

  ghost predicate DistinctIds(rows: seq<Row>) {
    forall i, j :: 0 <= i < j < |rows| ==> rows[i].id != rows[j].id
  }

  /** `_direction_rank` and `_publication_rank`. */
  predicate DirectionLe(r: Row, q: Row) { r.score > q.score || (r.score == q.score && r.id <= q.id) }

  predicate PublicationLe(r: Row, q: Row) {
    || r.bm25 > q.bm25
    || (r.bm25 == q.bm25 && (r.score > q.score || (r.score == q.score && r.id <= q.id)))
  }

  function Live(rows: seq<Row>): seq<Row> { Filter((r: Row) => !r.reverseApplied, rows) }

  function OfPair(rows: seq<Row>, p: Pair): seq<Row> { Filter((r: Row) => PairOf(r) == p, rows) }

  /** The row of a pair that ranks first. */
  function Winner(rows: seq<Row>): (r: Row)
    requires rows != []
    ensures r in rows && forall q :: q in rows ==> DirectionLe(r, q)
  {
    if |rows| == 1 then rows[0] else
      var w := Winner(rows[1..]);
      assert rows == [rows[0]] + rows[1..];
      if DirectionLe(rows[0], w) then rows[0] else w
  }

  predicate OneWay(rows: seq<Row>) {
    forall r, q :: r in rows && q in rows ==> r.source == q.source
  }

  predicate KeptOf(pairRows: seq<Row>, r: Row) {
    r in pairRows && (OneWay(pairRows) || r.source == Winner(pairRows).source)
  }

  /** The rows that survive reciprocal suppression. */
  predicate Kept(rows: seq<Row>, r: Row) { KeptOf(OfPair(Live(rows), PairOf(r)), r) }

  predicate Wanted(only: Option<set<int>>, id: int) { only.None? || id in only.value }

  lemma LiveMember(rows: seq<Row>, r: Row)
    ensures r in Live(rows) <==> r in rows && !r.reverseApplied
  {
    FilterMembers((q: Row) => !q.reverseApplied, rows, r);
  }

  lemma PairMember(rows: seq<Row>, p: Pair, r: Row)
    ensures r in OfPair(rows, p) <==> r in rows && PairOf(r) == p
  {
    FilterMembers((q: Row) => PairOf(q) == p, rows, r);
  }

  /** Rows of one pair point the same way or the opposite way. */
  lemma SamePair(r: Row, q: Row)
    requires PairOf(r) == PairOf(q) && r.source != q.source
    ensures Opposite(r, q)
  {
    assert Some(r.source) in PairOf(q) && Some(q.source) in PairOf(r);
  }

  /** A batch never holds both directions of a pair of different articles. */
  lemma NeverBothWays(rows: seq<Row>, r: Row, q: Row)
    requires Kept(rows, r) && Kept(rows, q) && Opposite(r, q)
    ensures r.source == q.source == r.target.value
  {
    assert PairOf(r) == PairOf(q);
  }

  lemma KeptLives(rows: seq<Row>, r: Row)
    requires Kept(rows, r)
    ensures r in rows && !r.reverseApplied
  {
    PairMember(Live(rows), PairOf(r), r);
    LiveMember(rows, r);
  }

  /** Nor a link whose reverse is published: no applied suggestion runs the other way. */
  lemma NoReverseOfApplied(selected: seq<Selected>, applied: set<(int, int)>, r: Row)
    requires Kept(Query(selected, applied), r)
    ensures r.target.Some? ==> (r.target.value, r.source) !in applied
    ensures exists i :: 0 <= i < |selected| && r == Flagged(selected[i], applied)
  {
    var rows := Query(selected, applied);
    KeptLives(rows, r);
    var i :| 0 <= i < |rows| && rows[i] == r;
    assert r == Flagged(selected[i], applied);
  }

  /** The suggestions reported as superseded are exactly the wanted ones whose reverse is
      published. */
  lemma SupersededExactly(selected: seq<Selected>, applied: set<(int, int)>, only: Option<set<int>>, id: int)
    ensures id in IdsOf(Filter((r: Row) => r.reverseApplied && Wanted(only, r.id), Query(selected, applied))) <==>
      Wanted(only, id) && exists i :: 0 <= i < |selected| && selected[i].id == id && ReversePublished(selected[i], applied)
  {
    var rows := Query(selected, applied);
    var p := (r: Row) => r.reverseApplied && Wanted(only, r.id);
    var gone := Filter(p, rows);
    if id in IdsOf(gone) {
      var k :| 0 <= k < |gone| && gone[k].id == id;
      FilterMembers(p, rows, gone[k]);
      var i :| 0 <= i < |rows| && rows[i] == gone[k];
      assert selected[i].id == id;
    }
    if i :| 0 <= i < |selected| && selected[i].id == id && ReversePublished(selected[i], applied) && Wanted(only, id) {
      assert rows[i] in rows;
      FilterMembers(p, rows, rows[i]);
      var k :| 0 <= k < |gone| && gone[k] == rows[i];
      assert IdsOf(gone)[k] == id;
    }
  }

  /** Whatever is dropped for its direction leaves the opposite direction in the batch. */
  lemma DroppedHasKeptReverse(rows: seq<Row>, r: Row) returns (q: Row)
    requires r in rows && !r.reverseApplied && !Kept(rows, r)
    ensures Kept(rows, q) && Opposite(r, q) && DirectionLe(q, r)
  {
    LiveMember(rows, r);
    PairMember(Live(rows), PairOf(r), r);
    q := Winner(OfPair(Live(rows), PairOf(r)));
    PairMember(Live(rows), PairOf(r), q);
    SamePair(r, q);
  }

  // ---- Groups ---------------------------------------------------------------

  datatype Group = Group(source: int, ids: seq<int>)

  predicate Chosen(rows: seq<Row>, only: Option<set<int>>, r: Row) { Kept(rows, r) && Wanted(only, r.id) }

  function OfSource(rows: seq<Row>, only: Option<set<int>>, among: seq<Row>, source: int): seq<Row> {
    Filter((r: Row) => Chosen(rows, only, r) && r.source == source, among)
  }

  function RowsOf(rows: seq<Row>, only: Option<set<int>>, source: int): seq<Row> {
    OfSource(rows, only, Live(rows), source)
  }

  function Ranked(rows: seq<Row>, only: Option<set<int>>, source: int): seq<Row> {
    Sort(PublicationLe, RowsOf(rows, only, source))
  }

  function IdsOf(rows: seq<Row>): (r: seq<int>)
    ensures |r| == |rows| && forall i :: 0 <= i < |rows| ==> r[i] == rows[i].id
  {
    seq(|rows|, i requires 0 <= i < |rows| => rows[i].id)
  }

  lemma RowsOfMember(rows: seq<Row>, only: Option<set<int>>, source: int, r: Row)
    ensures r in RowsOf(rows, only, source) <==> Chosen(rows, only, r) && r.source == source
    ensures r in Ranked(rows, only, source) <==> r in RowsOf(rows, only, source)
  {
    FilterMembers((q: Row) => Chosen(rows, only, q) && q.source == source, Live(rows), r);
    SameElements(Ranked(rows, only, source), RowsOf(rows, only, source));
    if Kept(rows, r) {
      KeptLives(rows, r);
      LiveMember(rows, r);
    }
  }

  /** What `grouped_batch` promises of its groups. */
  ghost predicate AreGroups(rows: seq<Row>, only: Option<set<int>>, groups: seq<Group>) {
    && (forall i :: 0 <= i < |groups| ==>
          && RowsOf(rows, only, groups[i].source) != []
          && groups[i].ids == IdsOf(Ranked(rows, only, groups[i].source)))
    && (forall i, j :: 0 <= i < j < |groups| ==> groups[i].source != groups[j].source && BestFirst(rows, only, groups[i].source, groups[j].source))
    && (forall r :: Chosen(rows, only, r) ==> exists i :: 0 <= i < |groups| && groups[i].source == r.source)
  }

  /** Articles in order of the score of their first suggestion, then of their id. */
  predicate BestFirst(rows: seq<Row>, only: Option<set<int>>, a: int, b: int) {
    var x, y := Ranked(rows, only, a), Ranked(rows, only, b);
    x != [] && y != [] && (x[0].score > y[0].score || (x[0].score == y[0].score && a <= b))
  }

  predicate InBatch(groups: seq<Group>, id: int) {
    exists i :: 0 <= i < |groups| && id in groups[i].ids
  }

  lemma InBatchIsChosen(rows: seq<Row>, only: Option<set<int>>, groups: seq<Group>, id: int) returns (r: Row)
    requires AreGroups(rows, only, groups) && InBatch(groups, id)
    ensures Chosen(rows, only, r) && r.id == id
  {
    var i :| 0 <= i < |groups| && id in groups[i].ids;
    var ranked := Ranked(rows, only, groups[i].source);
    var k :| 0 <= k < |ranked| && ranked[k].id == id;
    r := ranked[k];
    RowsOfMember(rows, only, groups[i].source, r);
  }

  lemma ChosenIsInBatch(rows: seq<Row>, only: Option<set<int>>, groups: seq<Group>, r: Row)
    requires AreGroups(rows, only, groups) && Chosen(rows, only, r)
    ensures InBatch(groups, r.id)
  {
    var i :| 0 <= i < |groups| && groups[i].source == r.source;
    RowsOfMember(rows, only, r.source, r);
    var ranked := Ranked(rows, only, r.source);
    var k :| 0 <= k < |ranked| && ranked[k] == r;
    assert groups[i].ids[k] == r.id;
  }

  /** The batch holds exactly the ids of the rows chosen. */
  lemma BatchIsChosen(rows: seq<Row>, only: Option<set<int>>, groups: seq<Group>, id: int)
    requires AreGroups(rows, only, groups)
    ensures InBatch(groups, id) <==> exists r :: Chosen(rows, only, r) && r.id == id
  {
    if InBatch(groups, id) { var r := InBatchIsChosen(rows, only, groups, id); }
    if r :| Chosen(rows, only, r) && r.id == id { ChosenIsInBatch(rows, only, groups, r); }
  }

  /** Naming suggestions narrows the batch to exactly those of the full batch. */
  lemma NarrowingIsIntersection(rows: seq<Row>, only: set<int>, full: seq<Group>, narrow: seq<Group>, id: int)
    requires AreGroups(rows, None, full) && AreGroups(rows, Some(only), narrow)
    ensures InBatch(narrow, id) <==> InBatch(full, id) && id in only
  {
    BatchIsChosen(rows, None, full, id);
    BatchIsChosen(rows, Some(only), narrow, id);
    if r :| Chosen(rows, None, r) && r.id == id {
      if id in only { assert Chosen(rows, Some(only), r); }
    }
    if r :| Chosen(rows, Some(only), r) && r.id == id { assert Chosen(rows, None, r); }
  }

  lemma PublicationLinear(rows: seq<Row>)
    requires DistinctIds(rows)
    ensures LinearOn(PublicationLe, rows)
  {
  }

  lemma {:induction false} FilterDistinctIds(p: Row -> bool, rows: seq<Row>)
    requires DistinctIds(rows)
    ensures DistinctIds(Filter(p, rows))
  {
    if rows != [] {
      FilterDistinctIds(p, rows[1..]);
      forall q | q in Filter(p, rows[1..]) ensures q.id != rows[0].id { FilterMembers(p, rows[1..], q); }
    }
  }

  /** Inside a group the order is that of the publication rank, and no id appears twice. */
  lemma GroupsRanked(rows: seq<Row>, only: Option<set<int>>, source: int)
    requires DistinctIds(rows)
    ensures Ordered(PublicationLe, Ranked(rows, only, source)) && Distinct(IdsOf(Ranked(rows, only, source)))
  {
    FilterDistinctIds((r: Row) => !r.reverseApplied, rows);
    FilterDistinctIds((r: Row) => Chosen(rows, only, r) && r.source == source, Live(rows));
    var mine := RowsOf(rows, only, source);
    PublicationLinear(mine);
    SortOrders(PublicationLe, mine);
    SortDistinct(PublicationLe, mine);
    var ranked := Ranked(rows, only, source);
    forall i, j | 0 <= i < j < |ranked| ensures ranked[i].id != ranked[j].id {
      assert ranked[i] in mine && ranked[j] in mine && ranked[i] != ranked[j];
    }
  }

  // ---- The loops ------------------------------------------------------------

  method Superseded(rows: seq<Row>, only: Option<set<int>>) returns (ids: seq<int>, live: seq<Row>)
    ensures ids == IdsOf(Filter((r: Row) => r.reverseApplied && Wanted(only, r.id), rows))
    ensures live == Live(rows)
  {
    ids, live := [], [];
    for i := 0 to |rows|
      invariant ids == IdsOf(Filter((r: Row) => r.reverseApplied && Wanted(only, r.id), rows[..i]))
      invariant live == Live(rows[..i])
    {
      FilterAppend((r: Row) => r.reverseApplied && Wanted(only, r.id), rows[..i], [rows[i]]);
      FilterAppend((r: Row) => !r.reverseApplied, rows[..i], [rows[i]]);
      assert rows[..i + 1] == rows[..i] + [rows[i]];
      if rows[i].reverseApplied {
        if Wanted(only, rows[i].id) { ids := ids + [rows[i].id]; }
      } else {
        live := live + [rows[i]];
      }
    }
    assert rows[..|rows|] == rows;
  }

  ghost predicate ByPair(live: seq<Row>, byPair: map<Pair, seq<Row>>) {
    && (forall p :: p in byPair ==> byPair[p] == OfPair(live, p) && byPair[p] != [])
    && (forall r :: r in live ==> PairOf(r) in byPair)
  }

  method CollectPairs(live: seq<Row>) returns (byPair: map<Pair, seq<Row>>)
    ensures ByPair(live, byPair)
  {
    byPair := map[];
    for i := 0 to |live|
      invariant ByPair(live[..i], byPair)
      invariant forall p :: p !in byPair ==> OfPair(live[..i], p) == []
    {
      var row := live[i];
      var p := PairOf(row);
      forall q ensures OfPair(live[..i + 1], q) == if q == p then OfPair(live[..i], q) + [row] else OfPair(live[..i], q) {
        FilterAppend((r: Row) => PairOf(r) == q, live[..i], [row]);
        assert live[..i + 1] == live[..i] + [row];
      }
      byPair := byPair[p := (if p in byPair then byPair[p] else []) + [row]];
      assert live[..i + 1] == live[..i] + [row];
    }
    assert live[..|live|] == live;
  }

  ghost predicate KeptIds(live: seq<Row>, pairs: set<Pair>, kept: set<int>) {
    forall r :: r in live ==> (r.id in kept <==> PairOf(r) in pairs && KeptOf(OfPair(live, PairOf(r)), r))
  }

  lemma OneMorePair(live: seq<Row>, done: set<Pair>, kept: set<int>, p: Pair, more: set<int>)
    requires DistinctIds(live) && KeptIds(live, done, kept) && p !in done
    requires forall id :: id in more <==> exists r :: r in OfPair(live, p) && KeptOf(OfPair(live, p), r) && r.id == id
    ensures KeptIds(live, done + {p}, kept + more)
  {
    forall r | r in live
      ensures r.id in kept + more <==> PairOf(r) in done + {p} && KeptOf(OfPair(live, PairOf(r)), r)
    {
      PairMember(live, p, r);
      if r.id in more {
        var q :| q in OfPair(live, p) && KeptOf(OfPair(live, p), q) && q.id == r.id;
        PairMember(live, p, q);
        SameRow(live, r, q);
      }
    }
  }

  lemma SameRow(rows: seq<Row>, r: Row, q: Row)
    requires DistinctIds(rows) && r in rows && q in rows && r.id == q.id
    ensures r == q
  {
    var i :| 0 <= i < |rows| && rows[i] == r;
    var j :| 0 <= j < |rows| && rows[j] == q;
  }

  method KeepOneWay(live: seq<Row>, byPair: map<Pair, seq<Row>>) returns (kept: set<int>)
    requires DistinctIds(live) && ByPair(live, byPair)
    ensures forall r :: r in live ==> (r.id in kept <==> KeptOf(OfPair(live, PairOf(r)), r))
  {
    kept := {};
    var todo := byPair.Keys;
    while todo != {}
      invariant todo <= byPair.Keys && KeptIds(live, byPair.Keys - todo, kept)
      decreases |todo|
    {
      var p :| p in todo;
      var pairRows := byPair[p];
      var more: set<int>;
      if OneWay(pairRows) {
        more := set r | r in pairRows :: r.id;
      } else {
        var winner := Winner(pairRows).source;
        more := set r | r in pairRows && r.source == winner :: r.id;
      }
      OneMorePair(live, byPair.Keys - todo, kept, p, more);
      assert byPair.Keys - (todo - {p}) == (byPair.Keys - todo) + {p};
      kept, todo := kept + more, todo - {p};
    }
  }

  ghost predicate BySource(rows: seq<Row>, only: Option<set<int>>, live: seq<Row>, bySource: map<int, seq<Row>>) {
    forall k ::
      && (k in bySource <==> OfSource(rows, only, live, k) != [])
      && (k in bySource ==> bySource[k] == OfSource(rows, only, live, k))
  }

  method CollectSources(rows: seq<Row>, only: Option<set<int>>, live: seq<Row>, kept: set<int>) returns (bySource: map<int, seq<Row>>)
    requires live == Live(rows) && forall r :: r in live ==> (r.id in kept <==> Kept(rows, r))
    ensures BySource(rows, only, live, bySource)
  {
    bySource := map[];
    for i := 0 to |live|
      invariant BySource(rows, only, live[..i], bySource)
    {
      var row := live[i];
      forall k ensures OfSource(rows, only, live[..i + 1], k) ==
        OfSource(rows, only, live[..i], k) + (if Chosen(rows, only, row) && row.source == k then [row] else [])
      {
        FilterAppend((r: Row) => Chosen(rows, only, r) && r.source == k, live[..i], [row]);
        assert live[..i + 1] == live[..i] + [row];
      }
      if row.id in kept && Wanted(only, row.id) {
        bySource := bySource[row.source := (if row.source in bySource then bySource[row.source] else []) + [row]];
      }
    }
    assert live[..|live|] == live;
  }

  datatype Scored = Scored(group: Group, score: real)

  predicate ScoredLe(x: Scored, y: Scored) {
    x.score > y.score || (x.score == y.score && x.group.source <= y.group.source)
  }

  /** The group of one source, with the score of its first suggestion. */
  ghost predicate IsScored(rows: seq<Row>, only: Option<set<int>>, x: Scored) {
    var ranked := Ranked(rows, only, x.group.source);
    RowsOf(rows, only, x.group.source) != [] && ranked != [] && x.group.ids == IdsOf(ranked) && x.score == ranked[0].score
  }

  ghost predicate AreScored(rows: seq<Row>, only: Option<set<int>>, scored: seq<Scored>, sources: set<int>) {
    && (forall i :: 0 <= i < |scored| ==> IsScored(rows, only, scored[i]) && scored[i].group.source in sources)
    && (forall i, j :: 0 <= i < j < |scored| ==> scored[i].group.source != scored[j].group.source)
    && (forall k :: k in sources ==> exists i :: 0 <= i < |scored| && scored[i].group.source == k)
  }

  method ScoreGroups(rows: seq<Row>, only: Option<set<int>>, bySource: map<int, seq<Row>>) returns (scored: seq<Scored>)
    requires BySource(rows, only, Live(rows), bySource)
    ensures AreScored(rows, only, scored, bySource.Keys)
  {
    scored := [];
    var todo := bySource.Keys;
    while todo != {}
      invariant todo <= bySource.Keys && AreScored(rows, only, scored, bySource.Keys - todo)
      decreases |todo|
    {
      ghost var one := Any(todo);
      assert one in todo;
      var k :| k in todo;
      var ranked := Sort(PublicationLe, bySource[k]);
      assert ranked == Ranked(rows, only, k);
      var x := Scored(Group(k, IdsOf(ranked)), ranked[0].score);
      OneMoreScored(rows, only, scored, bySource.Keys - todo, x);
      assert bySource.Keys - (todo - {k}) == (bySource.Keys - todo) + {k};
      scored, todo := scored + [x], todo - {k};
    }
    assert bySource.Keys - {} == bySource.Keys;
  }

  lemma OneMoreScored(rows: seq<Row>, only: Option<set<int>>, scored: seq<Scored>, sources: set<int>, x: Scored)
    requires AreScored(rows, only, scored, sources) && IsScored(rows, only, x) && x.group.source !in sources
    ensures AreScored(rows, only, scored + [x], sources + {x.group.source})
  {
    var more := scored + [x];
    assert more[|scored|] == x;
    forall i | 0 <= i < |more| ensures IsScored(rows, only, more[i]) && more[i].group.source in sources + {x.group.source} {
      if i < |scored| { assert more[i] == scored[i]; }
    }
    forall k | k in sources + {x.group.source} ensures exists i :: 0 <= i < |more| && more[i].group.source == k {
      if k in sources {
        var i :| 0 <= i < |scored| && scored[i].group.source == k;
        assert more[i].group.source == k;
      }
    }
  }

  function GroupsOf(scored: seq<Scored>): (r: seq<Group>)
    ensures |r| == |scored| && forall i :: 0 <= i < |scored| ==> r[i] == scored[i].group
  {
    seq(|scored|, i requires 0 <= i < |scored| => scored[i].group)
  }

  lemma SourcesDistinct(rows: seq<Row>, only: Option<set<int>>, scored: seq<Scored>, sources: set<int>)
    requires AreScored(rows, only, scored, sources)
    ensures LinearOn(ScoredLe, scored) && Distinct(scored)
  {
    forall x, y | x in scored && y in scored && ScoredLe(x, y) && ScoredLe(y, x) ensures x == y {
      var i :| 0 <= i < |scored| && scored[i] == x;
      var j :| 0 <= j < |scored| && scored[j] == y;
    }
  }

  lemma ScoredAfterSort(rows: seq<Row>, only: Option<set<int>>, scored: seq<Scored>, sources: set<int>)
    requires AreScored(rows, only, scored, sources)
    ensures AreScored(rows, only, Sort(ScoredLe, scored), sources) && Ordered(ScoredLe, Sort(ScoredLe, scored))
  {
    var sorted := Sort(ScoredLe, scored);
    SourcesDistinct(rows, only, scored, sources);
    SortOrders(ScoredLe, scored);
    SortDistinct(ScoredLe, scored);
    forall i | 0 <= i < |sorted| ensures IsScored(rows, only, sorted[i]) && sorted[i].group.source in sources {
      assert sorted[i] in scored;
    }
    forall i, j | 0 <= i < j < |sorted| ensures sorted[i].group.source != sorted[j].group.source {
      TwoScored(rows, only, scored, sources, sorted[i], sorted[j]);
    }
    forall k | k in sources ensures exists i :: 0 <= i < |sorted| && sorted[i].group.source == k {
      var i :| 0 <= i < |scored| && scored[i].group.source == k;
      assert scored[i] in sorted;
    }
  }

  lemma TwoScored(rows: seq<Row>, only: Option<set<int>>, scored: seq<Scored>, sources: set<int>, x: Scored, y: Scored)
    requires AreScored(rows, only, scored, sources) && x in scored && y in scored && x != y
    ensures x.group.source != y.group.source
  {
    var i :| 0 <= i < |scored| && scored[i] == x;
    var j :| 0 <= j < |scored| && scored[j] == y;
  }

  lemma HasGroup(rows: seq<Row>, only: Option<set<int>>, sorted: seq<Scored>, sources: set<int>, r: Row)
    requires Chosen(rows, only, r) && AreScored(rows, only, sorted, sources)
    requires RowsOf(rows, only, r.source) != [] ==> r.source in sources
    ensures exists i :: 0 <= i < |sorted| && GroupsOf(sorted)[i].source == r.source
  {
    RowsOfMember(rows, only, r.source, r);
    var i :| 0 <= i < |sorted| && sorted[i].group.source == r.source;
    assert GroupsOf(sorted)[i].source == r.source;
  }

  lemma InOrder(rows: seq<Row>, only: Option<set<int>>, x: Scored, y: Scored)
    requires IsScored(rows, only, x) && IsScored(rows, only, y) && ScoredLe(x, y)
    ensures BestFirst(rows, only, x.group.source, y.group.source)
  {
  }

  lemma ScoredGroups(rows: seq<Row>, only: Option<set<int>>, sorted: seq<Scored>, sources: set<int>, groups: seq<Group>)
    requires AreScored(rows, only, sorted, sources) && Ordered(ScoredLe, sorted) && groups == GroupsOf(sorted)
    requires forall r :: Chosen(rows, only, r) ==> exists i :: 0 <= i < |groups| && groups[i].source == r.source
    ensures AreGroups(rows, only, groups)
  {
    forall i, j | 0 <= i < j < |groups| ensures BestFirst(rows, only, groups[i].source, groups[j].source) {
      InOrder(rows, only, sorted[i], sorted[j]);
    }
  }

  /** Sorting the scored groups gives the groups promised. */
  lemma SortedAreGroups(rows: seq<Row>, only: Option<set<int>>, scored: seq<Scored>, sources: set<int>)
    requires AreScored(rows, only, scored, sources)
    requires forall k :: k in sources <==> RowsOf(rows, only, k) != []
    ensures AreGroups(rows, only, GroupsOf(Sort(ScoredLe, scored)))
  {
    ScoredAfterSort(rows, only, scored, sources);
    var sorted := Sort(ScoredLe, scored);
    forall r | Chosen(rows, only, r) ensures exists i :: 0 <= i < |sorted| && GroupsOf(sorted)[i].source == r.source {
      HasGroup(rows, only, sorted, sources, r);
    }
    ScoredGroups(rows, only, sorted, sources, GroupsOf(sorted));
  }

  /** `grouped_batch` */
  method Batch(selected: seq<Selected>, applied: set<(int, int)>, only: Option<set<int>>)
    returns (groups: seq<Group>, superseded: seq<int>)
    requires forall i, j :: 0 <= i < j < |selected| ==> selected[i].id != selected[j].id
    ensures AreGroups(Query(selected, applied), only, groups)
    ensures superseded == IdsOf(Filter((r: Row) => r.reverseApplied && Wanted(only, r.id), Query(selected, applied)))
  {
    var rows := Query(selected, applied);
    var live: seq<Row>;
    superseded, live := Superseded(rows, only);
    FilterDistinctIds((r: Row) => !r.reverseApplied, rows);
    var byPair := CollectPairs(live);
    var kept := KeepOneWay(live, byPair);
    var bySource := CollectSources(rows, only, live, kept);
    var scored := ScoreGroups(rows, only, bySource);
    SortedAreGroups(rows, only, scored, bySource.Keys);
    groups := GroupsOf(Sort(ScoredLe, scored));
  }
}
