/** When preparing and approving must refuse, and what they do otherwise: said of the rows
    before and after, with nothing of how the transactions decide. */
module PublicationDecisions {
  import opened Prelude
  import opened PlanArtifact
  import opened PublicationTables
  import opened PublicationProtocol
  import opened PublicationInvariant

  // ---- Preparation ----------------------------------------------------------

  /** Selected by an editor and part of no approved plan. */
  predicate Available(db: Tables, s: int) {
    s in db.suggestions && db.suggestions[s].status == Selected && db.suggestions[s].planId.None?
  }

  /** Some plan of this status covers the article. */
  ghost predicate Covers(db: Tables, p: int, article: int, status: PlanStatus) {
    p in db.plans && db.plans[p].status == status && db.plans[p].artifact.sourceId == article
  }

  ghost predicate IsPrepareStep(w: World, st: Step) { st.PrepareStep? && Enabled(w, st) }

  /** A plan that preparation stored lists only suggestions that were selected and unbound just
      before, carries the hash of its own artifact, and replaces what it found. */
  lemma PreparedFromSelected(w: World, st: Step, s: int)
    requires IsPrepareStep(w, st) && st.plan in Next(w, st).db.plans && s in Listed(Next(w, st).db.plans[st.plan].artifact)
    ensures Available(w.db, s)
  {
    assert s in st.wanted;
  }

  /** Nothing is prepared for an article that has an approved plan. */
  lemma NothingBesideApproved(w: World, st: Step, p: int)
    requires IsPrepareStep(w, st) && Covers(w.db, p, st.art.sourceId, Approved)
    ensures Next(w, st).db == w.db
  {
    assert Active(w.db.plans[p]);
  }

  /** Preparing the same artifact again leaves the plan an operator may be looking at. */
  lemma SameHashKept(w: World, st: Step)
    requires IsPrepareStep(w, st) && st.existing.Some? && w.db.plans[st.existing.value].planHash == w.hash(st.art)
    ensures Next(w, st).db == w.db
  {
  }

  /** What must hold for preparation to store a plan; `existing` is the active plan it found. */
  ghost predicate MayStore(db: Tables, hash: Hash, art: Artifact, wanted: set<int>, existing: Option<int>) {
    && (forall s :: s in wanted ==> Available(db, s))
    && (forall p :: !Covers(db, p, art.sourceId, Approved))
    && (forall p :: Covers(db, p, art.sourceId, Prepared) ==> existing == Some(p))
    && (existing.Some? ==> existing.value in db.plans && db.plans[existing.value].planHash != hash(art))
  }

  /** Preparation stores a new plan exactly when nothing stands against it; then the plan it
      found is superseded, and no other plan and no suggestion changes. */
  lemma StoresExactly(w: World, id: int, art: Artifact, wanted: set<int>, existing: Option<int>)
    requires id !in w.db.plans
    requires existing.Some? ==> existing.value in w.db.plans && Active(w.db.plans[existing.value])
                                && w.db.plans[existing.value].artifact.sourceId == art.sourceId
    ensures var r := Prepare(w.db, w.hash, id, art, wanted, existing);
      && ((r.Ok? && id in r.value.plans) <==> MayStore(w.db, w.hash, art, wanted, existing))
      && (r.Ok? && id in r.value.plans ==>
            && r.value.plans[id] == Plan(art, Prepared, w.hash(art), None) && r.value.suggestions == w.db.suggestions
            && r.value.plans.Keys == w.db.plans.Keys + {id}
            && forall p :: p in w.db.plans ==>
                 r.value.plans[p] == if existing == Some(p) then w.db.plans[p].(status := Superseded) else w.db.plans[p])
      && (r.Ok? && id !in r.value.plans ==> r.value == w.db)
  {
    if OtherActive(w.db, art.sourceId, existing) {
      var p :| p in w.db.plans && Active(w.db.plans[p]) && w.db.plans[p].artifact.sourceId == art.sourceId && existing != Some(p);
      assert Covers(w.db, p, art.sourceId, w.db.plans[p].status);
    } else {
      forall p | Covers(w.db, p, art.sourceId, Approved) || Covers(w.db, p, art.sourceId, Prepared) ensures existing == Some(p) {
        assert Active(w.db.plans[p]);
      }
      if existing.Some? { assert Covers(w.db, existing.value, art.sourceId, w.db.plans[existing.value].status); }
    }
  }

  // ---- Approval -------------------------------------------------------------

  /** What one named plan must be for an approval that names it with this hash. */
  ghost predicate MaySign(db: Tables, hash: Hash, siteId: int, p: int, shown: Digest) {
    && p in db.plans && db.plans[p].status == Prepared && db.plans[p].artifact.siteId == siteId
    && hash(db.plans[p].artifact) == db.plans[p].planHash == shown
    && (db.plans[p].approvedHash.Some? ==> db.plans[p].approvedHash.value == shown)
    && ReadItems(db.plans[p].artifact.items).Some?
    && forall s :: s in Listed(db.plans[p].artifact) ==> Available(db, s)
  }

  /** An approval goes through exactly when it names some plan and every plan it names is a
      prepared plan of its own site with the hash that was shown, intact, listing only
      suggestions that are still selected and unbound. */
  lemma ApprovesExactly(w: World, siteId: int, shown: map<int, Digest>)
    ensures Enabled(w, ApproveStep(siteId, shown)) <==>
      (exists p :: p in shown) && forall p :: p in shown ==> MaySign(w.db, w.hash, siteId, p, shown[p])
  {
    if exists p :: p in shown { var p :| p in shown; assert shown != map[]; }
    if shown != map[] { assert shown.Keys != {}; var p :| p in shown.Keys; assert p in shown; }
    if forall p :: p in shown ==> MaySign(w.db, w.hash, siteId, p, shown[p]) {
      forall p, s | p in shown && s in Listed(w.db.plans[p].artifact) ensures Free(w.db, s) {
        assert MaySign(w.db, w.hash, siteId, p, shown[p]) && Available(w.db, s);
      }
      forall p | p in shown ensures PlanApprovable(w.db, w.hash, siteId, p, shown[p]) {
        assert MaySign(w.db, w.hash, siteId, p, shown[p]);
      }
    }
    if Enabled(w, ApproveStep(siteId, shown)) {
      forall p | p in shown ensures MaySign(w.db, w.hash, siteId, p, shown[p]) {
        assert PlanApprovable(w.db, w.hash, siteId, p, shown[p]);
        forall s | s in Listed(w.db.plans[p].artifact) ensures Available(w.db, s) { assert Free(w.db, s); }
      }
    }
  }

  // ---- The queue, crawls and failed attempts --------------------------------

  /** A crawl or policy update expires exactly the named rows that are still open. */
  lemma ExpiresExactly(w: World, ids: set<int>, s: int)
    requires Enabled(w, ExpireStep(ids)) && s in w.db.suggestions
    ensures var was, n := w.db.suggestions[s], Next(w, ExpireStep(ids)).db;
      && n.plans == w.db.plans && s in n.suggestions
      && n.suggestions[s] == if s in ids && was.status in {Pending, Selected} then was.(status := Expired) else was
  {
  }

  /** A decision in the queue gives one row its new status and a clean failure history. */
  lemma ReviewsExactly(w: World, s: int, status: SuggestionStatus, t: int)
    requires Enabled(w, ReviewStep(s, status)) && t in w.db.suggestions
    ensures var was, n := w.db.suggestions[t], Next(w, ReviewStep(s, status)).db;
      && n.plans == w.db.plans && t in n.suggestions
      && n.suggestions[t] == if t == s then was.(status := status, attempts := 0, planId := None) else was
  {
  }

  /** A failed attempt counts once against each locked row that is still selected, and takes
      exactly those out of publication that reach the limit. */
  lemma ChargesExactly(w: World, k: int, s: int)
    requires Inv(w) && Enabled(w, Charge(k)) && s in w.db.suggestions
    ensures var was, now := w.db.suggestions[s], Next(w, Charge(k)).db.suggestions[s];
      if s in w.workers[k].rows && was.status == Selected then
        && now.attempts == was.attempts + 1 && now.planId == was.planId
        && (now.status == Quarantined <==> was.attempts + 1 >= w.limit)
        && (now.status == Selected <==> was.attempts + 1 < w.limit)
      else now == was
  {
  }

  // ---- Endings --------------------------------------------------------------

  /** Retiring a plan changes its own status and the rows bound to it: a stale plan gives its
      rows back, still selected, and a failed plan takes them with it. */
  lemma RetiresExactly(w: World, k: int, s: int)
    requires Enabled(w, Retire(k)) && s in w.db.suggestions
    ensures var plan, was, db := w.workers[k].plan, w.db.suggestions[s], Next(w, Retire(k)).db;
      && db.plans == w.db.plans[plan := w.db.plans[plan].(status := if w.workers[k].StaleWrite? then Stale else Failed)]
      && s in db.suggestions
      && db.suggestions[s] ==
         if was.planId != Some(plan) then was
         else if w.workers[k].StaleWrite? then was.(planId := None)
         else was.(status := Quarantined)
  {
  }

  /** The commit of a written plan: the plan is applied, and each locked row it lists is linked
      with the outcome of the last item that names it. */
  lemma CommitsExactly(w: World, k: int, s: int)
    requires Enabled(w, Commit(k)) && s in w.db.suggestions
    ensures var ph, was, db := w.workers[k], w.db.suggestions[s], Next(w, Commit(k)).db;
      && db.plans == w.db.plans[ph.plan := w.db.plans[ph.plan].(status := Applied)]
      && s in db.suggestions
      && db.suggestions[s] ==
         if s in ph.rows && s in Listed(ph.art)
         then was.(status := Linked, attempts := 0, outcome := LastOutcome(ReadItems(ph.art.items).value, s))
         else was
  {
    var items := ReadItems(w.workers[k].art.items).value;
    LinkAllRow(w.db.suggestions, w.workers[k].rows, items, s);
    ListedIsNamed(w.workers[k].art, items, s);
  }

  lemma ListedIsNamed(art: Artifact, items: seq<ItemRef>, s: int)
    requires ReadItems(art.items) == Some(items)
    ensures s in Listed(art) <==> LastOutcome(items, s).Some?
  {
    if s in Listed(art) {
      var r :| r in items && r.suggestionId == s;
    }
  }
}
