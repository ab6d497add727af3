/** What every step of the publication protocol keeps. */
module PublicationInvariant {
  import opened Prelude
  import opened PlanArtifact
  import opened PublicationTables
  import opened PublicationProtocol

  /** At most one prepared or approved plan per source article. */
  ghost predicate OneActive(plans: map<int, Plan>) {
    forall p, q | p in plans && q in plans && Active(plans[p]) && Active(plans[q])
                  && plans[p].artifact.sourceId == plans[q].artifact.sourceId :: p == q
  }

  /** A plan beyond preparation carries the hash of exactly one artifact, the one that was
      approved; a plan nobody approved carries none. */
  ghost predicate SignedOk(hash: Hash, plans: map<int, Plan>, signed: map<int, Artifact>) {
    && (forall p :: p in signed ==>
          && p in plans
          && plans[p].approvedHash == Some(hash(signed[p]))
          && plans[p].artifact.sourceId == signed[p].sourceId && Storable(signed[p])
          && ReadItems(signed[p].items).Some?)
    && (forall p :: p in plans ==>
          (p in signed <==> plans[p].status != Prepared && plans[p].status != Superseded))
    && (forall p :: p in plans && p !in signed ==> plans[p].approvedHash == None)
    && (forall p :: p in plans ==> Storable(plans[p].artifact))
  }

  /** What a worker that holds the locks knows. */
  ghost predicate HolderOk(hash: Hash, db: Tables, signed: map<int, Artifact>, ph: Phase) {
    Holds(ph) ==>
      && ph.plan in db.plans && ph.plan in signed
      && db.plans[ph.plan].status == Approved
      && db.plans[ph.plan].artifact == ph.art == signed[ph.plan]
      && db.plans[ph.plan].planHash == hash(ph.art)
      && ph.rows == BoundTo(db, ph.plan)
      && (forall s :: s in ph.rows ==> db.suggestions[s].status == Selected)
      && (ph.Ready? ==> ph.read == ph.art.originalHtml && ph.read != ph.art.updatedHtml)
  }

  ghost predicate HoldersOk(hash: Hash, db: Tables, signed: map<int, Artifact>, workers: map<int, Phase>) {
    forall k :: k in workers ==> HolderOk(hash, db, signed, workers[k])
  }

  /** The advisory lock: one holder per article. */
  ghost predicate Exclusive(workers: map<int, Phase>) {
    forall k, l | k in workers && l in workers && k != l && Holds(workers[k]) && Holds(workers[l]) ::
      workers[k].art.sourceId != workers[l].art.sourceId
  }

  /** A bound suggestion is listed in its plan, and that plan is approved, applied or
      failed; while it is still selected the plan is still approved. */
  ghost predicate BoundOk(db: Tables, signed: map<int, Artifact>) {
    forall s :: s in db.suggestions && db.suggestions[s].planId.Some? ==>
      var p := db.suggestions[s].planId.value;
      && p in db.plans && p in signed && s in Listed(signed[p])
      && db.plans[p].status in {Approved, Applied, Failed}
      && (db.suggestions[s].status == Selected ==> db.plans[p].status == Approved)
  }

  /** Every POST sent the body of the artifact its plan's approver signed, over exactly the
      content that artifact was prepared from. */
  ghost predicate PostOf(e: Post, signed: map<int, Artifact>) {
    && e.plan in signed
    && e.body == signed[e.plan].updatedHtml
    && e.read == signed[e.plan].originalHtml
    && e.article == signed[e.plan].sourceId
    && e.read != e.body
  }

  ghost predicate PostsOk(posts: seq<Post>, signed: map<int, Artifact>) {
    forall i :: 0 <= i < |posts| ==> PostOf(posts[i], signed)
  }

  /** A worker that goes on after its rollback names an approved plan, and the rows it will
      charge include every row still bound to it. */
  ghost predicate AfterwardsOk(db: Tables, signed: map<int, Artifact>, workers: map<int, Phase>) {
    forall k :: k in workers && !workers[k].Idle? && !Holds(workers[k]) ==>
      && workers[k].plan in db.plans && workers[k].plan in signed
      && (workers[k].Charging? ==> BoundTo(db, workers[k].plan) <= workers[k].rows)
  }

  /** Failed attempts are bounded row by row and plan by plan. */
  ghost predicate ChargesOk(db: Tables, charges: map<int, nat>, limit: nat, signed: map<int, Artifact>) {
    && limit >= 1
    && (forall s :: s in db.suggestions && db.suggestions[s].status == Selected ==>
          db.suggestions[s].attempts < limit)
    && (forall p :: p in charges ==> p in signed && charges[p] <= limit)
    && (forall s | s in db.suggestions && db.suggestions[s].status == Selected
                   && db.suggestions[s].planId.Some? && db.suggestions[s].planId.value in charges ::
          charges[db.suggestions[s].planId.value] <= db.suggestions[s].attempts)
  }

  ghost predicate Inv(w: World) {
    && CollisionFree(w.hash)
    && OneActive(w.db.plans)
    && SignedOk(w.hash, w.db.plans, w.signed)
    && HoldersOk(w.hash, w.db, w.signed, w.workers)
    && Exclusive(w.workers)
    && BoundOk(w.db, w.signed)
    && PostsOk(w.posts, w.signed)
    && AfterwardsOk(w.db, w.signed, w.workers)
    && ChargesOk(w.db, w.charges, w.limit, w.signed)
  }

  lemma InitInv(w: World)
    requires Init(w)
    ensures Inv(w)
  {
  }

  /** Binding depends on the plan columns of the suggestions only. */
  lemma SameBound(db: Tables, after: Tables, p: int)
    requires db.suggestions.Keys == after.suggestions.Keys
    requires forall s :: s in db.suggestions ==> db.suggestions[s].planId == after.suggestions[s].planId
    ensures BoundTo(db, p) == BoundTo(after, p)
  {
    forall s ensures s in BoundTo(db, p) <==> s in BoundTo(after, p) {
      assert s in db.suggestions <==> s in db.suggestions.Keys;
    }
  }

  // ---- Queue decisions, crawls, outside edits -------------------------------

  lemma KeepReview(w: World, s: int, status: SuggestionStatus)
    requires Inv(w) && ReviewEnabled(w, s, status)
    ensures Inv(Next(w, ReviewStep(s, status)))
  {
    var n := Next(w, ReviewStep(s, status));
    forall k | k in w.workers && Holds(w.workers[k]) ensures HolderOk(w.hash, n.db, n.signed, w.workers[k]) {
      assert s !in w.workers[k].rows;
    }
  }

  lemma KeepExpire(w: World, ids: set<int>)
    requires Inv(w) && Enabled(w, ExpireStep(ids))
    ensures Inv(Next(w, ExpireStep(ids)))
  {
    var n := Next(w, ExpireStep(ids));
    forall p ensures BoundTo(n.db, p) == BoundTo(w.db, p) { SameBound(w.db, n.db, p); }
    forall k | k in w.workers && Holds(w.workers[k]) ensures HolderOk(w.hash, n.db, n.signed, w.workers[k]) {
      forall s | s in w.workers[k].rows ensures n.db.suggestions[s].status == Selected {
        assert s !in ids;
      }
    }
  }

  lemma KeepTamper(w: World, p: int, art: Artifact, planHash: Digest)
    requires Inv(w) && TamperEnabled(w, p, art)
    ensures Inv(Next(w, Tamper(p, art, planHash)))
  {
    var n := Next(w, Tamper(p, art, planHash));
    forall q ensures BoundTo(n.db, q) == BoundTo(w.db, q) {}
  }

  // ---- Preparation and approval ---------------------------------------------

  /** The committed effect of a preparation that stored something new. */
  ghost predicate Prepared1(hash: Hash, before: Tables, after: Tables, p: int, art: Artifact, existing: Option<int>) {
    && p !in before.plans && Storable(art)
    && after.suggestions == before.suggestions
    && after.plans.Keys == before.plans.Keys + {p}
    && after.plans[p] == Plan(art, Prepared, hash(art), None)
    && (existing.Some? ==> existing.value in before.plans && before.plans[existing.value].status == Prepared)
    && (forall q | q in before.plans && Active(before.plans[q])
                   && before.plans[q].artifact.sourceId == art.sourceId :: existing == Some(q))
    && (forall q :: q in before.plans ==>
          after.plans[q] == if existing == Some(q) then before.plans[q].(status := Superseded)
                            else before.plans[q])
  }

  lemma PrepareChanges(w: World, p: int, art: Artifact, wanted: set<int>, existing: Option<int>)
    requires PrepareEnabled(w, p, art, wanted, existing)
    ensures var d := Prepare(w.db, w.hash, p, art, wanted, existing).value;
            d == w.db || Prepared1(w.hash, w.db, d, p, art, existing)
  {
    var d := Prepare(w.db, w.hash, p, art, wanted, existing).value;
    if d != w.db {
      assert !OtherActive(w.db, art.sourceId, existing);
    }
  }

  lemma PreparedOneActive(hash: Hash, before: Tables, after: Tables, p: int, art: Artifact, existing: Option<int>)
    requires OneActive(before.plans) && Prepared1(hash, before, after, p, art, existing)
    ensures OneActive(after.plans)
  {
    forall q, r | q in after.plans && r in after.plans && Active(after.plans[q]) && Active(after.plans[r])
                  && after.plans[q].artifact.sourceId == after.plans[r].artifact.sourceId
      ensures q == r
    {
      if q != p && r != p { assert q in before.plans && r in before.plans; }
    }
  }

  lemma PreparedSigned(hash: Hash, before: Tables, after: Tables, signed: map<int, Artifact>, p: int, art: Artifact, existing: Option<int>)
    requires SignedOk(hash, before.plans, signed) && Prepared1(hash, before, after, p, art, existing)
    ensures SignedOk(hash, after.plans, signed)
  {
    forall q | q in signed ensures q in after.plans && after.plans[q] == before.plans[q] {
      assert q in before.plans;
    }
    forall q | q in after.plans
      ensures q in signed <==> after.plans[q].status != Prepared && after.plans[q].status != Superseded
      ensures q !in signed ==> after.plans[q].approvedHash == None
    {
      assert q == p || q in before.plans;
    }
  }

  lemma PreparedKeeps(w: World, d: Tables, p: int, art: Artifact, existing: Option<int>)
    requires Inv(w) && Prepared1(w.hash, w.db, d, p, art, existing)
    ensures Inv(w.(db := d))
  {
    PreparedOneActive(w.hash, w.db, d, p, art, existing);
    PreparedSigned(w.hash, w.db, d, w.signed, p, art, existing);
    forall q ensures BoundTo(d, q) == BoundTo(w.db, q) { SameBound(w.db, d, q); }
    forall k | k in w.workers ensures HolderOk(w.hash, d, w.signed, w.workers[k]) {
      assert HolderOk(w.hash, w.db, w.signed, w.workers[k]);
    }
  }

  lemma KeepPrepare(w: World, p: int, art: Artifact, wanted: set<int>, existing: Option<int>)
    requires Inv(w) && PrepareEnabled(w, p, art, wanted, existing)
    ensures Inv(Next(w, PrepareStep(p, art, wanted, existing)))
  {
    var d := Prepare(w.db, w.hash, p, art, wanted, existing).value;
    PrepareChanges(w, p, art, wanted, existing);
    if d != w.db { PreparedKeeps(w, d, p, art, existing); }
    assert Next(w, PrepareStep(p, art, wanted, existing)) == w.(db := d);
  }

  /** The committed effect of an approval. */
  ghost predicate Approved1(hash: Hash, before: Tables, after: Tables, shown: set<int>) {
    && shown <= before.plans.Keys == after.plans.Keys
    && before.suggestions.Keys == after.suggestions.Keys
    && (forall p :: p in shown ==>
          && before.plans[p].status == Prepared
          && before.plans[p].planHash == hash(before.plans[p].artifact)
          && ReadItems(before.plans[p].artifact.items).Some?
          && after.plans[p] == before.plans[p].(status := Approved, approvedHash := Some(before.plans[p].planHash)))
    && (forall p :: p in before.plans && p !in shown ==> after.plans[p] == before.plans[p])
    && (forall s :: s in before.suggestions ==> Rebound(before, after, shown, s))
  }

  ghost predicate Rebound(before: Tables, after: Tables, shown: set<int>, s: int)
    requires s in before.suggestions && s in after.suggestions
  {
    var was, now := before.suggestions[s], after.suggestions[s];
    if now == was then forall p :: p in shown ==> !Lists(before, p, s)
    else
      && was.status == Selected && was.planId == None && now.planId.Some?
      && now == was.(planId := now.planId)
      && now.planId.value in shown && Lists(before, now.planId.value, s)
  }

  lemma ApproveChanges(hash: Hash, db: Tables, siteId: int, shown: map<int, Digest>)
    requires Approvable(db, hash, siteId, shown)
    ensures shown.Keys <= db.plans.Keys
    ensures Approved1(hash, db, Bind(db, shown.Keys), shown.Keys)
  {
    forall p | p in shown ensures p in db.plans {}
    var after := Bind(db, shown.Keys);
    forall s | s in db.suggestions ensures Rebound(db, after, shown.Keys, s) {
      var listing := Listing(db, shown.Keys, s);
      var owner := Owner(db, shown.Keys, s);
      if owner.Some? {
        assert owner.value in listing;
        assert Free(db, s);
      } else {
        forall p | p in shown ensures !Lists(db, p, s) { assert p !in listing; }
      }
    }
  }

  ghost function Sign(before: Tables, signed: map<int, Artifact>, shown: set<int>): map<int, Artifact>
    requires shown <= before.plans.Keys
  {
    map p | p in signed.Keys + shown :: if p in shown then before.plans[p].artifact else signed[p]
  }

  lemma ApprovedSigned(hash: Hash, before: Tables, after: Tables, signed: map<int, Artifact>, shown: set<int>)
    requires SignedOk(hash, before.plans, signed) && Approved1(hash, before, after, shown)
    ensures SignedOk(hash, after.plans, Sign(before, signed, shown))
    ensures forall p :: p in signed ==> p !in shown && p in Sign(before, signed, shown)
                                        && Sign(before, signed, shown)[p] == signed[p]
  {
  }

  lemma ApprovedBound(hash: Hash, before: Tables, after: Tables, signed: map<int, Artifact>, shown: set<int>)
    requires SignedOk(hash, before.plans, signed) && BoundOk(before, signed) && Approved1(hash, before, after, shown)
    ensures BoundOk(after, Sign(before, signed, shown))
  {
    ApprovedSigned(hash, before, after, signed, shown);
    forall s | s in after.suggestions && after.suggestions[s].planId.Some?
      ensures var p := after.suggestions[s].planId.value;
        && p in after.plans && p in Sign(before, signed, shown) && s in Listed(Sign(before, signed, shown)[p])
        && after.plans[p].status in {Approved, Applied, Failed}
        && (after.suggestions[s].status == Selected ==> after.plans[p].status == Approved)
    {
      assert Rebound(before, after, shown, s);
    }
  }

  lemma ApprovedRows(hash: Hash, before: Tables, after: Tables, shown: set<int>, q: int)
    requires Approved1(hash, before, after, shown) && q !in shown
    ensures BoundTo(after, q) == BoundTo(before, q)
  {
    forall s ensures s in BoundTo(after, q) <==> s in BoundTo(before, q) {
      if s in before.suggestions { assert Rebound(before, after, shown, s); }
    }
  }

  lemma ApprovedCharges(hash: Hash, before: Tables, after: Tables, w: World, shown: set<int>)
    requires Inv(w) && w.db == before && hash == w.hash && Approved1(hash, before, after, shown)
    ensures ChargesOk(after, w.charges, w.limit, Sign(before, w.signed, shown))
  {
    ApprovedSigned(hash, before, after, w.signed, shown);
    forall s | s in after.suggestions
      ensures after.suggestions[s].status == before.suggestions[s].status
      ensures after.suggestions[s].attempts == before.suggestions[s].attempts
      ensures after.suggestions[s] == before.suggestions[s]
              || (after.suggestions[s].planId.Some? && after.suggestions[s].planId.value !in w.charges)
    {
      assert Rebound(before, after, shown, s);
    }
  }

  lemma ApprovedKeeps(w: World, after: Tables, shown: set<int>)
    requires Inv(w) && Approved1(w.hash, w.db, after, shown)
    ensures Inv(w.(db := after, signed := Sign(w.db, w.signed, shown)))
  {
    var signed := Sign(w.db, w.signed, shown);
    ApprovedSigned(w.hash, w.db, after, w.signed, shown);
    ApprovedBound(w.hash, w.db, after, w.signed, shown);
    ApprovedCharges(w.hash, w.db, after, w, shown);
    forall k | k in w.workers ensures HolderOk(w.hash, after, signed, w.workers[k]) {
      assert HolderOk(w.hash, w.db, w.signed, w.workers[k]);
      if Holds(w.workers[k]) {
        ApprovedRows(w.hash, w.db, after, shown, w.workers[k].plan);
        forall s | s in w.workers[k].rows ensures after.suggestions[s].status == Selected {
          assert Rebound(w.db, after, shown, s);
        }
      }
    }
    forall k | k in w.workers && !w.workers[k].Idle? && !Holds(w.workers[k])
      ensures w.workers[k].Charging? ==> BoundTo(after, w.workers[k].plan) <= w.workers[k].rows
    {
      ApprovedRows(w.hash, w.db, after, shown, w.workers[k].plan);
    }
    assert OneActive(after.plans);
  }

  lemma KeepApprove(w: World, siteId: int, shown: map<int, Digest>)
    requires Inv(w) && Approvable(w.db, w.hash, siteId, shown)
    ensures Inv(Next(w, ApproveStep(siteId, shown)))
  {
    ApproveChanges(w.hash, w.db, siteId, shown);
    ApprovedKeeps(w, Bind(w.db, shown.Keys), shown.Keys);
    assert Next(w, ApproveStep(siteId, shown)).signed == Sign(w.db, w.signed, shown.Keys);
  }

  // ---- Workers --------------------------------------------------------------

  lemma KeepLock(w: World, k: int, plan: int)
    requires Inv(w) && LockEnabled(w, k, plan)
    ensures Inv(Next(w, Lock(k, plan)))
  {
    var n := Next(w, Lock(k, plan));
    if n.workers[k].Holding? {
      assert w.hash(w.db.plans[plan].artifact) == w.hash(w.signed[plan]);
      assert HolderOk(w.hash, n.db, n.signed, n.workers[k]);
    }
  }

  lemma KeepRead(w: World, k: int)
    requires Inv(w) && Enabled(w, ReadPost(k))
    ensures Inv(Next(w, ReadPost(k)))
  {
    var n := Next(w, ReadPost(k));
    assert HolderOk(w.hash, w.db, w.signed, w.workers[k]);
    assert HolderOk(w.hash, n.db, n.signed, n.workers[k]);
  }

  lemma KeepSend(w: World, k: int, landed: bool)
    requires Inv(w) && k in w.workers && w.workers[k].Ready?
    ensures PostsOk(Send(w, k, landed).posts, w.signed)
  {
    assert HolderOk(w.hash, w.db, w.signed, w.workers[k]);
  }

  lemma KeepPostOk(w: World, k: int)
    requires Inv(w) && Enabled(w, PostOk(k))
    ensures Inv(Next(w, PostOk(k)))
  {
    var n := Next(w, PostOk(k));
    KeepSend(w, k, true);
    assert HolderOk(w.hash, w.db, w.signed, w.workers[k]);
    assert HolderOk(w.hash, n.db, n.signed, n.workers[k]);
  }

  lemma KeepConnectorError(w: World, k: int, landed: bool)
    requires Inv(w) && Enabled(w, ConnectorError(k, landed))
    ensures Inv(Next(w, ConnectorError(k, landed)))
  {
    if w.workers[k].Ready? { KeepSend(w, k, landed); }
    assert HolderOk(w.hash, w.db, w.signed, w.workers[k]);
  }

  lemma KeepPhase(w: World, k: int, ph: Phase)
    requires Inv(w) && k in w.workers && !Holds(ph)
    requires ph.Idle? || (ph.plan in w.db.plans && ph.plan in w.signed && !ph.Charging?)
    ensures Inv(SetPhase(w, k, ph))
  {
  }

  /** A transaction that leaves every binding and every other plan alone. */
  ghost predicate SameShape(before: Tables, after: Tables) {
    && before.plans.Keys == after.plans.Keys
    && before.suggestions.Keys == after.suggestions.Keys
    && (forall s :: s in before.suggestions ==> after.suggestions[s].planId == before.suggestions[s].planId)
  }

  lemma SameShapeBound(before: Tables, after: Tables)
    requires SameShape(before, after)
    ensures forall p :: BoundTo(after, p) == BoundTo(before, p)
  {
    forall p ensures BoundTo(after, p) == BoundTo(before, p) { SameBound(before, after, p); }
  }

  /** A signed plan may end in any way without touching the other plans. */
  lemma EndedPlan(hash: Hash, before: map<int, Plan>, signed: map<int, Artifact>, p: int, status: PlanStatus)
    requires OneActive(before) && SignedOk(hash, before, signed) && p in signed
    requires status in {Applied, Stale, Failed}
    ensures OneActive(before[p := before[p].(status := status)])
    ensures SignedOk(hash, before[p := before[p].(status := status)], signed)
  {
  }

  /** The committed effect of a written plan. */
  ghost predicate Committed1(before: Tables, after: Tables, plan: int, rows: set<int>) {
    && SameShape(before, after) && plan in before.plans
    && after.plans == before.plans[plan := before.plans[plan].(status := Applied)]
    && (forall s :: s in before.suggestions ==>
          if s in rows then after.suggestions[s].status == Linked else after.suggestions[s] == before.suggestions[s])
  }

  lemma CommitChanges(w: World, k: int)
    requires Inv(w) && CommitEnabled(w, k)
    ensures Committed1(w.db, CommitNext(w, k).db, w.workers[k].plan, w.workers[k].rows)
  {
    var ph := w.workers[k];
    var items := ReadItems(ph.art.items).value;
    assert HolderOk(w.hash, w.db, w.signed, ph);
    forall s | s in w.db.suggestions
      ensures var now := CommitNext(w, k).db.suggestions[s];
              && now.planId == w.db.suggestions[s].planId
              && if s in ph.rows then now.status == Linked else now == w.db.suggestions[s]
    {
      LinkAllRow(w.db.suggestions, ph.rows, items, s);
      if s in ph.rows {
        assert s in Listed(w.signed[ph.plan]);
        var r :| r in items && r.suggestionId == s;
        var i :| 0 <= i < |items| && items[i] == r;
      }
    }
  }

  lemma CommittedRows(w: World, k: int, after: Tables)
    requires Inv(w) && k in w.workers && w.workers[k].Written?
    requires Committed1(w.db, after, w.workers[k].plan, w.workers[k].rows)
    ensures BoundOk(after, w.signed) && ChargesOk(after, w.charges, w.limit, w.signed)
  {
    assert HolderOk(w.hash, w.db, w.signed, w.workers[k]);
    forall s | s in after.suggestions && after.suggestions[s].planId.Some?
      ensures after.suggestions[s].status == Selected ==>
                after.suggestions[s] == w.db.suggestions[s] && !Bound(w.db.suggestions[s], w.workers[k].plan)
    {
      assert s in w.workers[k].rows <==> Bound(w.db.suggestions[s], w.workers[k].plan);
    }
  }

  lemma CommittedHolders(w: World, k: int, after: Tables, l: int)
    requires Inv(w) && k in w.workers && w.workers[k].Written? && l in w.workers && l != k
    requires Committed1(w.db, after, w.workers[k].plan, w.workers[k].rows)
    ensures HolderOk(w.hash, after, w.signed, w.workers[l])
  {
    SameShapeBound(w.db, after);
    assert HolderOk(w.hash, w.db, w.signed, w.workers[k]) && HolderOk(w.hash, w.db, w.signed, w.workers[l]);
  }

  lemma CommittedKeeps(w: World, k: int, after: Tables)
    requires Inv(w) && k in w.workers && w.workers[k].Written?
    requires Committed1(w.db, after, w.workers[k].plan, w.workers[k].rows)
    ensures Inv(w.(db := after, workers := w.workers[k := Idle]))
  {
    assert HolderOk(w.hash, w.db, w.signed, w.workers[k]);
    SameShapeBound(w.db, after);
    EndedPlan(w.hash, w.db.plans, w.signed, w.workers[k].plan, Applied);
    CommittedRows(w, k, after);
    var workers := w.workers[k := Idle];
    forall l | l in workers ensures HolderOk(w.hash, after, w.signed, workers[l]) {
      if l != k { CommittedHolders(w, k, after, l); }
    }
    assert AfterwardsOk(after, w.signed, workers);
  }

  lemma KeepCommit(w: World, k: int)
    requires Inv(w) && CommitEnabled(w, k)
    ensures Inv(Next(w, Commit(k)))
  {
    CommitChanges(w, k);
    CommittedKeeps(w, k, CommitNext(w, k).db);
  }

  /** The committed effect of a charged failure. */
  ghost predicate Charged1(before: Tables, after: Tables, rows: set<int>, limit: nat) {
    && SameShape(before, after) && after.plans == before.plans
    && (forall s :: s in before.suggestions ==>
          after.suggestions[s] == if Charged(before, rows, s) then ChargeOne(before.suggestions[s], limit)
                                  else before.suggestions[s])
  }

  lemma ChargedCharges(w: World, k: int, after: Tables)
    requires Inv(w) && ChargeEnabled(w, k) && Charged1(w.db, after, w.workers[k].rows, w.limit)
    ensures ChargesOk(after, ChargeNext(w, k).charges, w.limit, w.signed)
  {
    var ph := w.workers[k];
    var charges := ChargeNext(w, k).charges;
    if ChargesPlan(w, ph.plan, ph.rows) {
      var s :| s in ph.rows && Charged(w.db, ph.rows, s) && Bound(w.db.suggestions[s], ph.plan);
      assert ChargesOf(w, ph.plan) <= w.db.suggestions[s].attempts < w.limit;
    }
    forall s | s in after.suggestions && after.suggestions[s].status == Selected
      ensures after.suggestions[s].attempts < w.limit
      ensures after.suggestions[s].planId.Some? && after.suggestions[s].planId.value in charges ==>
                charges[after.suggestions[s].planId.value] <= after.suggestions[s].attempts
    {
      if Bound(w.db.suggestions[s], ph.plan) {
        assert s in BoundTo(w.db, ph.plan);
        assert Charged(w.db, ph.rows, s);
      }
    }
  }

  lemma ChargedHolders(w: World, k: int, after: Tables, l: int)
    requires Inv(w) && ChargeEnabled(w, k) && Charged1(w.db, after, w.workers[k].rows, w.limit)
    requires l in w.workers
    ensures HolderOk(w.hash, after, w.signed, w.workers[l])
  {
    SameShapeBound(w.db, after);
    assert HolderOk(w.hash, w.db, w.signed, w.workers[l]);
    if Holds(w.workers[l]) {
      forall s | s in w.workers[l].rows ensures after.suggestions[s] == w.db.suggestions[s] {
        if s in w.workers[k].rows { assert RowHeld(w, s); }
      }
    }
  }

  lemma ChargedKeeps(w: World, k: int, after: Tables, ph: Phase, charges: map<int, nat>)
    requires Inv(w) && ChargeEnabled(w, k) && Charged1(w.db, after, w.workers[k].rows, w.limit)
    requires ChargesOk(after, charges, w.limit, w.signed)
    requires ph.Idle? || ph == FailCheck(w.workers[k].plan)
    ensures Inv(w.(db := after, charges := charges, workers := w.workers[k := ph]))
  {
    SameShapeBound(w.db, after);
    var workers := w.workers[k := ph];
    forall l | l in workers ensures HolderOk(w.hash, after, w.signed, workers[l]) {
      if l != k { ChargedHolders(w, k, after, l); }
    }
    assert BoundOk(after, w.signed);
    assert AfterwardsOk(after, w.signed, workers);
  }

  lemma ChargeChanges(w: World, k: int)
    requires ChargeEnabled(w, k)
    ensures var n := Next(w, Charge(k));
            && Charged1(w.db, n.db, w.workers[k].rows, w.limit)
            && n.charges == ChargeNext(w, k).charges
            && k in n.workers && (n.workers[k].Idle? || n.workers[k] == FailCheck(w.workers[k].plan))
            && n == w.(db := n.db, charges := n.charges, workers := w.workers[k := n.workers[k]])
  {
  }

  lemma KeepCharge(w: World, k: int)
    requires Inv(w) && ChargeEnabled(w, k)
    ensures Inv(Next(w, Charge(k)))
  {
    var n := Next(w, Charge(k));
    ChargeChanges(w, k);
    ChargedCharges(w, k, n.db);
    ChargedKeeps(w, k, n.db, n.workers[k], n.charges);
  }

  /** The committed effect of retiring a plan. */
  ghost predicate Retired1(before: Tables, after: Tables, p: int, status: PlanStatus) {
    && before.suggestions.Keys == after.suggestions.Keys && p in before.plans
    && status in {Stale, Failed}
    && after.plans == before.plans[p := before.plans[p].(status := status)]
    && (forall s :: s in before.suggestions ==>
          after.suggestions[s] ==
          if !Bound(before.suggestions[s], p) then before.suggestions[s]
          else if status == Stale then before.suggestions[s].(planId := None)
          else before.suggestions[s].(status := Quarantined))
  }

  lemma RetiredRows(before: Tables, after: Tables, p: int, status: PlanStatus)
    requires Retired1(before, after, p, status)
    ensures forall q :: q != p ==> BoundTo(after, q) == BoundTo(before, q)
    ensures BoundTo(after, p) <= BoundTo(before, p)
  {
    forall q | q != p ensures BoundTo(after, q) == BoundTo(before, q) {
      forall s ensures s in BoundTo(after, q) <==> s in BoundTo(before, q) {
        assert s in before.suggestions <==> s in before.suggestions.Keys;
      }
    }
    forall s | s in BoundTo(after, p) ensures s in BoundTo(before, p) {
      assert s in before.suggestions <==> s in before.suggestions.Keys;
    }
  }

  lemma RetiredHolder(w: World, after: Tables, p: int, status: PlanStatus, l: int)
    requires Inv(w) && Retired1(w.db, after, p, status) && !PlanHeld(w, p) && l in w.workers
    ensures HolderOk(w.hash, after, w.signed, w.workers[l])
  {
    RetiredRows(w.db, after, p, status);
    assert HolderOk(w.hash, w.db, w.signed, w.workers[l]);
    if Holds(w.workers[l]) {
      assert w.workers[l].plan != p;
      forall s | s in w.workers[l].rows ensures after.suggestions[s] == w.db.suggestions[s] {
        assert s in BoundTo(w.db, w.workers[l].plan);
      }
    }
  }

  lemma RetiredSuggestions(w: World, after: Tables, p: int, status: PlanStatus)
    requires Inv(w) && Retired1(w.db, after, p, status) && p in w.signed
    ensures BoundOk(after, w.signed) && ChargesOk(after, w.charges, w.limit, w.signed)
  {
    forall s | s in after.suggestions
      ensures after.suggestions[s].status == Selected ==> after.suggestions[s].attempts < w.limit
      ensures after.suggestions[s].planId.Some? ==> after.suggestions[s].planId == w.db.suggestions[s].planId
      ensures after.suggestions[s].planId.Some? && after.suggestions[s].status == Selected ==>
                after.suggestions[s] == w.db.suggestions[s] && !Bound(w.db.suggestions[s], p)
      ensures after.suggestions[s].planId == Some(p) ==> status == Failed
    {
    }
  }

  lemma RetiredKeeps(w: World, k: int, after: Tables, p: int, status: PlanStatus)
    requires Inv(w) && Retired1(w.db, after, p, status) && !PlanHeld(w, p)
    requires k in w.workers && p in w.signed
    ensures Inv(w.(db := after, workers := w.workers[k := Idle]))
  {
    RetiredRows(w.db, after, p, status);
    EndedPlan(w.hash, w.db.plans, w.signed, p, status);
    RetiredSuggestions(w, after, p, status);
    var workers := w.workers[k := Idle];
    forall l | l in workers ensures HolderOk(w.hash, after, w.signed, workers[l]) {
      if l != k { RetiredHolder(w, after, p, status, l); }
    }
    assert AfterwardsOk(after, w.signed, workers) by {
      forall l | l in workers && !workers[l].Idle? && !Holds(workers[l])
        ensures workers[l].Charging? ==> BoundTo(after, workers[l].plan) <= workers[l].rows
      {
        assert BoundTo(after, workers[l].plan) <= BoundTo(w.db, workers[l].plan);
      }
    }
  }

  lemma RetireChanges(w: World, k: int)
    requires RetireEnabled(w, k)
    ensures var n := Next(w, Retire(k));
            && Retired1(w.db, n.db, w.workers[k].plan, if w.workers[k].StaleWrite? then Stale else Failed)
            && n == w.(db := n.db, workers := w.workers[k := Idle])
  {
  }

  lemma KeepRetire(w: World, k: int)
    requires Inv(w) && RetireEnabled(w, k)
    ensures Inv(Next(w, Retire(k)))
  {
    RetireChanges(w, k);
    RetiredKeeps(w, k, Next(w, Retire(k)).db, w.workers[k].plan,
                 if w.workers[k].StaleWrite? then Stale else Failed);
  }

  // ---- Every step, every run ------------------------------------------------

  lemma KeepStep(w: World, st: Step)
    requires Inv(w) && Enabled(w, st)
    ensures Inv(Next(w, st))
  {
    match st
    case ReviewStep(s, status) => KeepReview(w, s, status);
    case ExpireStep(ids) => KeepExpire(w, ids);
    case OutsideEdit(_, _) =>
    case Tamper(p, art, planHash) => KeepTamper(w, p, art, planHash);
    case PrepareStep(p, art, wanted, existing) => KeepPrepare(w, p, art, wanted, existing);
    case ApproveStep(siteId, shown) => KeepApprove(w, siteId, shown);
    case Lock(k, plan) => KeepLock(w, k, plan);
    case ReadPost(k) => KeepRead(w, k);
    case PostOk(k) => KeepPostOk(w, k);
    case ConnectorError(k, landed) => KeepConnectorError(w, k, landed);
    case Commit(k) => KeepCommit(w, k);
    case Abort(k) => KeepPhase(w, k, Idle);
    case Charge(k) => KeepCharge(w, k);
    case CheckStatus(k) => KeepPhase(w, k, AfterCheck(w, w.workers[k]));
    case Retire(k) => KeepRetire(w, k);
  }

  /** The invariant holds after every run, in every interleaving. */
  lemma {:induction false} KeepRun(w: World, steps: seq<Step>)
    requires Inv(w) && Runs(w, steps)
    ensures Inv(End(w, steps))
    decreases |steps|
  {
    if steps != [] {
      KeepStep(w, steps[0]);
      KeepRun(Next(w, steps[0]), steps[1..]);
    }
  }
}
