/** The three orders of a batch, said of scores and ids: which direction of a pair is kept,
    which link of an article comes first, and which article. */
module BatchMeaning {
  import opened Prelude
  import opened Sorting
  import opened GroupedBatch

  predicate Alive(rows: seq<Row>, r: Row) { r in rows && !r.reverseApplied }

  predicate SameWay(r: Row, w: Row) { w.source == r.source && w.target == r.target }

  predicate OtherWay(r: Row, q: Row) { Opposite(r, q) && q.source != r.source }

  /** The stronger of two links, however they point: the higher score, then the lower id. */
  predicate Beats(w: Row, q: Row) { w.score > q.score || (w.score == q.score && w.id < q.id) }

  /** Some row that points as `r` does beats every row that points the other way. */
  ghost predicate StrongerWay(rows: seq<Row>, r: Row, w: Row) {
    Alive(rows, w) && SameWay(r, w) && forall q :: Alive(rows, q) && OtherWay(r, q) ==> Beats(w, q)
  }

  lemma OfOnePair(rows: seq<Row>, r: Row, q: Row)
    ensures q in OfPair(Live(rows), PairOf(r)) <==> Alive(rows, q) && (SameWay(r, q) || Opposite(r, q))
  {
    PairMember(Live(rows), PairOf(r), q);
    LiveMember(rows, q);
    if PairOf(q) == PairOf(r) {
      if q.source != r.source {
        SamePair(r, q);
      } else {
        SameTarget(r, q);
      }
    } else {
      assert Opposite(r, q) ==> PairOf(q) == PairOf(r);
    }
  }

  lemma SameTarget(r: Row, q: Row)
    requires PairOf(r) == PairOf(q) && r.source == q.source
    ensures r.target == q.target
  {
    assert r.target in PairOf(q) && q.target in PairOf(r);
  }

  /** A live link is kept exactly when its direction is the stronger one, or the only one. */
  lemma DirectionExactly(rows: seq<Row>, r: Row)
    requires DistinctIds(rows) && Alive(rows, r)
    ensures Kept(rows, r) <==> exists w :: StrongerWay(rows, r, w)
  {
    var pairRows := OfPair(Live(rows), PairOf(r));
    OfOnePair(rows, r, r);
    var v := Winner(pairRows);
    OfOnePair(rows, r, v);
    if Kept(rows, r) {
      var w := if OneWay(pairRows) then r else v;
      forall q | Alive(rows, q) && OtherWay(r, q) ensures Beats(w, q) {
        OfOnePair(rows, r, q);
        if w.id == q.id { SameRow(rows, w, q); }
      }
      assert StrongerWay(rows, r, w);
    }
    if w :| StrongerWay(rows, r, w) {
      OfOnePair(rows, r, w);
      StrongerWins(rows, r, w, v);
    }
  }

  lemma StrongerWins(rows: seq<Row>, r: Row, w: Row, v: Row)
    requires StrongerWay(rows, r, w) && Alive(rows, v) && DirectionLe(v, w)
    ensures !OtherWay(r, v)
  {
  }

  lemma RowAt(rows: seq<Row>, only: Option<set<int>>, groups: seq<Group>, i: nat, a: nat, r: Row)
    requires DistinctIds(rows) && AreGroups(rows, only, groups) && i < |groups| && a < |groups[i].ids|
    requires r in rows && r.id == groups[i].ids[a]
    ensures a < |Ranked(rows, only, groups[i].source)| && Ranked(rows, only, groups[i].source)[a] == r && r.source == groups[i].source
  {
    var q := Ranked(rows, only, groups[i].source)[a];
    RowsOfMember(rows, only, groups[i].source, q);
    KeptLives(rows, q);
    SameRow(rows, q, r);
  }

  lemma RowPlaces(rows: seq<Row>, only: Option<set<int>>, groups: seq<Group>, i: nat, a: nat, b: nat, r: Row, q: Row)
    requires DistinctIds(rows) && AreGroups(rows, only, groups) && i < |groups| && a < |groups[i].ids| && b < |groups[i].ids|
    requires r in rows && q in rows && r.id == groups[i].ids[a] && q.id == groups[i].ids[b]
    ensures a < b <==>
      || r.bm25 > q.bm25
      || (r.bm25 == q.bm25 && r.score > q.score)
      || (r.bm25 == q.bm25 && r.score == q.score && r.id < q.id)
  {
    RowAt(rows, only, groups, i, a, r);
    RowAt(rows, only, groups, i, b, q);
    GroupsRanked(rows, only, groups[i].source);
    TwoPlaces(Ranked(rows, only, groups[i].source), a, b);
  }

  lemma TwoPlaces(ranked: seq<Row>, a: nat, b: nat)
    requires Ordered(PublicationLe, ranked) && Distinct(IdsOf(ranked)) && a < |ranked| && b < |ranked|
    ensures a < b <==> PublicationLe(ranked[a], ranked[b]) && ranked[a].id != ranked[b].id
  {
    if a != b { assert IdsOf(ranked)[a] != IdsOf(ranked)[b]; }
  }

  lemma GroupPlaces(rows: seq<Row>, only: Option<set<int>>, groups: seq<Group>, i: nat, j: nat, r: Row, q: Row)
    requires DistinctIds(rows) && AreGroups(rows, only, groups) && i < |groups| && j < |groups| && i != j
    requires r in rows && groups[i].ids != [] && r.id == groups[i].ids[0]
    requires q in rows && groups[j].ids != [] && q.id == groups[j].ids[0]
    ensures i < j <==> r.score > q.score || (r.score == q.score && r.source < q.source)
  {
    RowAt(rows, only, groups, i, 0, r);
    RowAt(rows, only, groups, j, 0, q);
    if i < j {
      assert BestFirst(rows, only, groups[i].source, groups[j].source);
    } else {
      assert BestFirst(rows, only, groups[j].source, groups[i].source);
    }
  }

  // ---- The suggestions themselves -------------------------------------------

  predicate DistinctSelected(selected: seq<Selected>) {
    forall i, j :: 0 <= i < j < |selected| ==> selected[i].id != selected[j].id
  }

  /** Selected, and no link runs the other way already. */
  predicate Standing(selected: seq<Selected>, applied: set<(int, int)>, s: Selected) {
    s in selected && (s.target.Some? ==> (s.target.value, s.source) !in applied)
  }

  predicate PointsAs(s: Selected, w: Selected) { w.source == s.source && w.target == s.target }

  predicate PointsBack(s: Selected, t: Selected) {
    s.target == Some(t.source) && t.target == Some(s.source) && t.source != s.source
  }

  predicate Outranks(w: Selected, t: Selected) { w.score > t.score || (w.score == t.score && w.id < t.id) }

  /** `w` points as `s` does and outranks everything that points back. */
  ghost predicate Carries(selected: seq<Selected>, applied: set<(int, int)>, s: Selected, w: Selected) {
    && Standing(selected, applied, w) && PointsAs(s, w)
    && forall t :: Standing(selected, applied, t) && PointsBack(s, t) ==> Outranks(w, t)
  }

  lemma RowOf(selected: seq<Selected>, applied: set<(int, int)>, s: Selected)
    requires s in selected
    ensures Flagged(s, applied) in Query(selected, applied)
    ensures Alive(Query(selected, applied), Flagged(s, applied)) <==> Standing(selected, applied, s)
  {
    var i :| 0 <= i < |selected| && selected[i] == s;
    assert Query(selected, applied)[i] == Flagged(s, applied);
  }

  lemma SelectedOf(selected: seq<Selected>, applied: set<(int, int)>, r: Row) returns (s: Selected)
    requires r in Query(selected, applied)
    ensures s in selected && r == Flagged(s, applied)
  {
    var i :| 0 <= i < |selected| && Query(selected, applied)[i] == r;
    s := selected[i];
  }

  lemma RowsDistinct(selected: seq<Selected>, applied: set<(int, int)>)
    requires DistinctSelected(selected)
    ensures DistinctIds(Query(selected, applied))
  {
  }

  lemma CarriesIsStronger(selected: seq<Selected>, applied: set<(int, int)>, s: Selected, w: Selected)
    requires s in selected && w in selected
    ensures StrongerWay(Query(selected, applied), Flagged(s, applied), Flagged(w, applied)) <==> Carries(selected, applied, s, w)
  {
    var rows, r, v := Query(selected, applied), Flagged(s, applied), Flagged(w, applied);
    RowOf(selected, applied, w);
    if Carries(selected, applied, s, w) {
      forall q | Alive(rows, q) && OtherWay(r, q) ensures Beats(v, q) {
        var t := SelectedOf(selected, applied, q);
        RowOf(selected, applied, t);
        assert Standing(selected, applied, t) && PointsBack(s, t);
      }
    }
    if StrongerWay(rows, r, v) {
      forall t | Standing(selected, applied, t) && PointsBack(s, t) ensures Outranks(w, t) {
        RowOf(selected, applied, t);
        assert Alive(rows, Flagged(t, applied)) && OtherWay(r, Flagged(t, applied));
      }
    }
  }

  /** A selected link is in the batch exactly when it is asked for, no published link runs the
      other way, and its direction carries: some selected link that points its way has a higher
      score, or the same and a lower id, than every one that points back. */
  lemma BatchExactly(selected: seq<Selected>, applied: set<(int, int)>, only: Option<set<int>>, groups: seq<Group>, s: Selected)
    requires DistinctSelected(selected) && AreGroups(Query(selected, applied), only, groups) && s in selected
    ensures InBatch(groups, s.id) <==>
      && (only.Some? ==> s.id in only.value) && Standing(selected, applied, s)
      && exists w :: Carries(selected, applied, s, w)
  {
    var rows, r := Query(selected, applied), Flagged(s, applied);
    RowsDistinct(selected, applied);
    RowOf(selected, applied, s);
    BatchIsChosen(rows, only, groups, s.id);
    forall q | Chosen(rows, only, q) && q.id == s.id ensures q == r {
      KeptLives(rows, q);
      SameRow(rows, q, r);
    }
    if Kept(rows, r) { KeptLives(rows, r); }
    if Standing(selected, applied, s) {
      DirectionExactly(rows, r);
      CarriedExactly(selected, applied, s);
    }
  }

  lemma CarriedExactly(selected: seq<Selected>, applied: set<(int, int)>, s: Selected)
    requires s in selected
    ensures (exists v :: StrongerWay(Query(selected, applied), Flagged(s, applied), v)) <==> exists w :: Carries(selected, applied, s, w)
  {
    if v :| StrongerWay(Query(selected, applied), Flagged(s, applied), v) {
      var w := SelectedOf(selected, applied, v);
      CarriesIsStronger(selected, applied, s, w);
    }
    if w :| Carries(selected, applied, s, w) { CarriesIsStronger(selected, applied, s, w); }
  }

  /** Inside an article the higher BM25 score comes first, whatever the similarity; then the
      higher similarity, then the lower id. */
  lemma LinkPlaces(selected: seq<Selected>, applied: set<(int, int)>, only: Option<set<int>>, groups: seq<Group>,
                   i: nat, a: nat, b: nat, s: Selected, t: Selected)
    requires DistinctSelected(selected) && AreGroups(Query(selected, applied), only, groups)
    requires i < |groups| && a < |groups[i].ids| && b < |groups[i].ids|
    requires s in selected && t in selected && s.id == groups[i].ids[a] && t.id == groups[i].ids[b]
    ensures a < b <==>
      || s.bm25 > t.bm25
      || (s.bm25 == t.bm25 && s.score > t.score)
      || (s.bm25 == t.bm25 && s.score == t.score && s.id < t.id)
  {
    RowsDistinct(selected, applied);
    RowOf(selected, applied, s);
    RowOf(selected, applied, t);
    RowPlaces(Query(selected, applied), only, groups, i, a, b, Flagged(s, applied), Flagged(t, applied));
  }

  /** Articles come in order of the similarity of their first link, then of their id. */
  lemma ArticlePlaces(selected: seq<Selected>, applied: set<(int, int)>, only: Option<set<int>>, groups: seq<Group>,
                      i: nat, j: nat, s: Selected, t: Selected)
    requires DistinctSelected(selected) && AreGroups(Query(selected, applied), only, groups)
    requires i < |groups| && j < |groups| && i != j
    requires s in selected && groups[i].ids != [] && s.id == groups[i].ids[0]
    requires t in selected && groups[j].ids != [] && t.id == groups[j].ids[0]
    ensures i < j <==> s.score > t.score || (s.score == t.score && s.source < t.source)
  {
    RowsDistinct(selected, applied);
    RowOf(selected, applied, s);
    RowOf(selected, applied, t);
    GroupPlaces(Query(selected, applied), only, groups, i, j, Flagged(s, applied), Flagged(t, applied));
  }
}
