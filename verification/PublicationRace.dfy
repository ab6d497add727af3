/** Retiring a plan reads its status without a lock and writes it in a later transaction.
    A run in which the two straddle another worker's commit. */
module PublicationRace {
  import opened Prelude
  import opened PlanArtifact
  import opened PublicationTables
  import opened PublicationProtocol
  import opened PublicationInvariant
  import opened PublicationSafety

  /** A plan of site 1, article 1 for suggestion 7, with an edit that is neither side of it. */
  ghost predicate Example(art: Artifact, edited: string) {
    && Storable(art)
    && art.siteId == 1 && art.sourceId == 1 && art.originalHtml != art.updatedHtml
    && edited != art.originalHtml && edited != art.updatedHtml
    && Listed(art) == {7} && ReadItems(art.items) == Some([ItemRef(7, "block")])
  }

  lemma ExampleExists() returns (art: Artifact, edited: string)
    ensures Example(art, edited)
  {
    var link := LinkItem(7, "https://target.example/", None, "block");
    art := Artifact(1, 1, "https://source.example/", "old", "newer", SnapshotItems([link]));
    edited := "other one";
    SnapshotRoundTrip([link]);
    assert Refs([link]) == [ItemRef(7, "block")];
    assert Listed(art) == {7};
    assert |art.originalHtml| == 3 && |art.updatedHtml| == 5 && |edited| == 9;
  }

  ghost predicate Start(w: World, art: Artifact) {
    && w.db.plans == map[] && w.db.suggestions == map[7 := Suggestion(1, Selected, None, 0, None)]
    && w.live == map[1 := art.originalHtml] && w.workers == map[1 := Idle, 2 := Idle] && w.limit == 3
    && w.signed == map[] && w.posts == [] && w.charges == map[]
  }

  ghost function ThePlan(hash: Hash, art: Artifact, status: PlanStatus): Plan {
    Plan(art, status, hash(art), if status == Prepared then None else Some(hash(art)))
  }

  /** The plan's status, its suggestion's status and plan, the live post, the two workers. */
  ghost predicate At(w: World, plan: Plan, status: SuggestionStatus, bound: Option<int>, live: string,
                     one: Phase, two: Phase) {
    && w.db.plans == map[1 := plan]
    && w.db.suggestions.Keys == {7} && w.db.suggestions[7].status == status
    && w.db.suggestions[7].planId == bound
    && w.live == map[1 := live] && w.workers == map[1 := one, 2 := two]
  }

  lemma Prepares(w: World, art: Artifact, edited: string)
    requires Example(art, edited) && Start(w, art)
    ensures var st := PrepareStep(1, art, {7}, None);
            Enabled(w, st) && At(Next(w, st), ThePlan(w.hash, art, Prepared), Selected, None, art.originalHtml, Idle, Idle)
  {
    assert Free(w.db, 7);
    assert !OtherActive(w.db, 1, None);
  }

  lemma MayApprove(w: World, art: Artifact, edited: string)
    requires Example(art, edited)
    requires At(w, ThePlan(w.hash, art, Prepared), Selected, None, art.originalHtml, Idle, Idle)
    ensures Approvable(w.db, w.hash, 1, map[1 := w.hash(art)])
  {
    var shown := map[1 := w.hash(art)];
    assert 1 in shown;
    assert PlanApprovable(w.db, w.hash, 1, 1, shown[1]);
    forall p, s | p in shown && s in Listed(w.db.plans[p].artifact) ensures Free(w.db, s) { assert s == 7; }
  }

  lemma Approves(w: World, art: Artifact, edited: string)
    requires Example(art, edited)
    requires At(w, ThePlan(w.hash, art, Prepared), Selected, None, art.originalHtml, Idle, Idle)
    ensures var st := ApproveStep(1, map[1 := w.hash(art)]);
            Enabled(w, st) && At(Next(w, st), ThePlan(w.hash, art, Approved), Selected, Some(1), art.originalHtml, Idle, Idle)
  {
    var shown := map[1 := w.hash(art)];
    MayApprove(w, art, edited);
    ApproveChanges(w.hash, w.db, 1, shown);
    var after := Bind(w.db, shown.Keys);
    assert Lists(w.db, 1, 7);
    assert Rebound(w.db, after, shown.Keys, 7);
    assert after.plans == map[1 := ThePlan(w.hash, art, Approved)];
  }

  lemma BoundRow(w: World, plan: Plan, live: string, one: Phase, two: Phase)
    requires At(w, plan, Selected, Some(1), live, one, two)
    ensures BoundTo(w.db, 1) == {7}
  {
  }

  lemma HoldsAfterLock(w: World, art: Artifact, edited: string, one: Phase, two: Phase)
    requires Example(art, edited)
    requires At(w, ThePlan(w.hash, art, Approved), Selected, Some(1), art.originalHtml, one, two)
    ensures AfterLock(w, 1) == Holding(1, art, {7})
  {
    BoundRow(w, ThePlan(w.hash, art, Approved), art.originalHtml, one, two);
  }

  lemma LockGives(w: World, k: int, ph: Phase)
    requires AfterLock(w, 1) == ph && k in w.workers && w.workers[k].Idle?
    requires forall l :: l in w.workers ==> !Holds(w.workers[l])
    ensures Enabled(w, Lock(k, 1)) && Next(w, Lock(k, 1)) == w.(workers := w.workers[k := ph])
  {
  }

  lemma LocksFirst(w: World, art: Artifact, edited: string)
    requires Example(art, edited)
    requires At(w, ThePlan(w.hash, art, Approved), Selected, Some(1), art.originalHtml, Idle, Idle)
    ensures Enabled(w, Lock(1, 1))
    ensures At(Next(w, Lock(1, 1)), ThePlan(w.hash, art, Approved), Selected, Some(1), art.originalHtml,
               Holding(1, art, {7}), Idle)
  {
    HoldsAfterLock(w, art, edited, Idle, Idle);
    LockGives(w, 1, Holding(1, art, {7}));
  }

  lemma LocksSecond(w: World, art: Artifact, edited: string)
    requires Example(art, edited)
    requires At(w, ThePlan(w.hash, art, Approved), Selected, Some(1), art.originalHtml, StaleWrite(1), Idle)
    ensures Enabled(w, Lock(2, 1))
    ensures At(Next(w, Lock(2, 1)), ThePlan(w.hash, art, Approved), Selected, Some(1), art.originalHtml,
               StaleWrite(1), Holding(1, art, {7}))
  {
    HoldsAfterLock(w, art, edited, StaleWrite(1), Idle);
    LockGives(w, 2, Holding(1, art, {7}));
  }

  lemma Edited(w: World, plan: Plan, live: string, html: string, one: Phase, two: Phase)
    requires At(w, plan, Selected, Some(1), live, one, two)
    ensures Enabled(w, OutsideEdit(1, html))
    ensures At(Next(w, OutsideEdit(1, html)), plan, Selected, Some(1), html, one, two)
  {
  }

  lemma FindsItEdited(w: World, art: Artifact, edited: string)
    requires Example(art, edited)
    requires At(w, ThePlan(w.hash, art, Approved), Selected, Some(1), edited, Holding(1, art, {7}), Idle)
    ensures Enabled(w, ReadPost(1))
    ensures At(Next(w, ReadPost(1)), ThePlan(w.hash, art, Approved), Selected, Some(1), edited, StaleCheck(1), Idle)
  {
  }

  lemma FindsItApproved(w: World, art: Artifact, live: string)
    requires At(w, ThePlan(w.hash, art, Approved), Selected, Some(1), live, StaleCheck(1), Idle)
    ensures Enabled(w, CheckStatus(1))
    ensures At(Next(w, CheckStatus(1)), ThePlan(w.hash, art, Approved), Selected, Some(1), live, StaleWrite(1), Idle)
  {
  }

  lemma FindsItUnedited(w: World, art: Artifact, edited: string)
    requires Example(art, edited)
    requires At(w, ThePlan(w.hash, art, Approved), Selected, Some(1), art.originalHtml, StaleWrite(1), Holding(1, art, {7}))
    ensures Enabled(w, ReadPost(2))
    ensures At(Next(w, ReadPost(2)), ThePlan(w.hash, art, Approved), Selected, Some(1), art.originalHtml,
               StaleWrite(1), Ready(1, art, {7}, art.originalHtml))
  {
  }

  lemma Publishes(w: World, art: Artifact, edited: string)
    requires Example(art, edited)
    requires At(w, ThePlan(w.hash, art, Approved), Selected, Some(1), art.originalHtml,
                StaleWrite(1), Ready(1, art, {7}, art.originalHtml))
    ensures Enabled(w, PostOk(2))
    ensures At(Next(w, PostOk(2)), ThePlan(w.hash, art, Approved), Selected, Some(1), art.updatedHtml,
               StaleWrite(1), Written(1, art, {7}))
  {
  }

  lemma LinksRow(db: Tables, plan: Plan)
    requires db.plans == map[1 := plan] && db.suggestions.Keys == {7}
    ensures var after := Apply(db, 1, {7}, [ItemRef(7, "block")]);
            && after.plans == map[1 := plan.(status := Applied)] && after.suggestions.Keys == {7}
            && after.suggestions[7].status == Linked
            && after.suggestions[7].planId == db.suggestions[7].planId
  {
    var items := [ItemRef(7, "block")];
    assert items[0].suggestionId == 7;
    LinkAllRow(db.suggestions, {7}, items, 7);
  }

  lemma Commits(w: World, art: Artifact, edited: string)
    requires Example(art, edited)
    requires At(w, ThePlan(w.hash, art, Approved), Selected, Some(1), art.updatedHtml, StaleWrite(1), Written(1, art, {7}))
    ensures Enabled(w, Commit(2))
    ensures At(Next(w, Commit(2)), ThePlan(w.hash, art, Applied), Linked, Some(1), art.updatedHtml, StaleWrite(1), Idle)
  {
    LinksRow(w.db, ThePlan(w.hash, art, Approved));
    assert CommitNext(w, 2).db == Apply(w.db, 1, {7}, [ItemRef(7, "block")]);
  }

  lemma WritesLate(w: World, art: Artifact)
    requires At(w, ThePlan(w.hash, art, Applied), Linked, Some(1), art.updatedHtml, StaleWrite(1), Idle)
    ensures Enabled(w, Retire(1)) && Overwrites(w, Retire(1)) && LinkedOk(w)
    ensures At(Next(w, Retire(1)), ThePlan(w.hash, art, Stale), Linked, None, art.updatedHtml, Idle, Idle)
    ensures !LinkedOk(Next(w, Retire(1)))
  {
  }

  lemma Extend(w: World, steps: seq<Step>, st: Step) returns (more: seq<Step>, now: World)
    requires Runs(w, steps) && Enabled(End(w, steps), st)
    ensures Runs(w, more) && now == End(w, more) == Next(End(w, steps), st)
  {
    RunOneMore(w, steps, st);
    more, now := steps + [st], Next(End(w, steps), st);
  }

  lemma Begins() returns (w: World, steps: seq<Step>, art: Artifact, edited: string)
    ensures Init(w) && Example(art, edited) && Runs(w, steps)
    ensures At(End(w, steps), ThePlan(End(w, steps).hash, art, Approved), Selected, Some(1), art.originalHtml, Idle, Idle)
  {
    art, edited := ExampleExists();
    w := World(Tables(map[], map[7 := Suggestion(1, Selected, None, 0, None)]), map[1 := art.originalHtml],
               map[1 := Idle, 2 := Idle], 3, ComputePlanHash, map[], [], map[]);
    PlanHashIsCollisionFree();
    assert Start(w, art) && Init(w);
    steps := [];
    var now := w;
    Prepares(now, art, edited);
    steps, now := Extend(w, steps, PrepareStep(1, art, {7}, None));
    Approves(now, art, edited);
    steps, now := Extend(w, steps, ApproveStep(1, map[1 := w.hash(art)]));
  }

  /** Worker 1 finds the post edited, reads the plan as approved, and is about to write that
      it is stale when the edit is undone. */
  lemma WaitsToWrite() returns (w: World, steps: seq<Step>, art: Artifact, edited: string)
    ensures Init(w) && Example(art, edited) && Runs(w, steps)
    ensures At(End(w, steps), ThePlan(End(w, steps).hash, art, Approved), Selected, Some(1), art.originalHtml, StaleWrite(1), Idle)
  {
    w, steps, art, edited := Begins();
    var now := End(w, steps);
    var hash := now.hash;
    LocksFirst(now, art, edited);
    steps, now := Extend(w, steps, Lock(1, 1));
    Edited(now, ThePlan(hash, art, Approved), art.originalHtml, edited, Holding(1, art, {7}), Idle);
    steps, now := Extend(w, steps, OutsideEdit(1, edited));
    FindsItEdited(now, art, edited);
    steps, now := Extend(w, steps, ReadPost(1));
    FindsItApproved(now, art, edited);
    steps, now := Extend(w, steps, CheckStatus(1));
    Edited(now, ThePlan(hash, art, Approved), edited, art.originalHtml, StaleWrite(1), Idle);
    steps, now := Extend(w, steps, OutsideEdit(1, art.originalHtml));
  }

  /** Worker 1 finds the post edited and reads the plan as approved; the edit is undone and
      worker 2 publishes and commits; worker 1's write then marks the applied plan stale and
      cuts the written link loose. */
  lemma RaceOverwritesAnApplied() returns (w: World, steps: seq<Step>, last: Step)
    ensures Init(w) && Runs(w, steps) && Enabled(End(w, steps), last)
    ensures Overwrites(End(w, steps), last)
    ensures LinkedOk(End(w, steps)) && !LinkedOk(Next(End(w, steps), last))
    ensures var before, after := End(w, steps).db.plans, Next(End(w, steps), last).db.plans;
            1 in before && before[1].status == Applied && 1 in after && after[1].status == Stale
  {
    var art: Artifact, edited: string;
    w, steps, art, edited := WaitsToWrite();
    var now := End(w, steps);
    LocksSecond(now, art, edited);
    steps, now := Extend(w, steps, Lock(2, 1));
    FindsItUnedited(now, art, edited);
    steps, now := Extend(w, steps, ReadPost(2));
    Publishes(now, art, edited);
    steps, now := Extend(w, steps, PostOk(2));
    Commits(now, art, edited);
    steps, now := Extend(w, steps, Commit(2));
    WritesLate(now, art);
    last := Retire(1);
  }
}
