/** What a visit to a plan, and a whole job, come to: said of plan statuses, rows and live
    posts before and after. */
module PublicationOutcomes {
  import opened Prelude
  import opened PlanArtifact
  import opened PublicationTables
  import opened PublicationProtocol
  import opened PublicationWorker
  import Progress = PublicationProgress

  predicate HasStatus(db: Tables, plan: int, status: PlanStatus) { plan in db.plans && db.plans[plan].status == status }

  // ---- How one visit counts -------------------------------------------------

  /** The items of a plan count as applied exactly when the approved plan ended applied, as
      failed exactly when it is still approved or ended failed, and as skipped when there was
      no approved plan to publish or it ended stale. */
  lemma KindMeans(db: Tables, live: map<int, string>, limit: nat, hash: Hash, plan: int, fault: Fault)
    ensures var v := Visit(db, live, limit, hash, plan, fault);
      && (v.kind == Progress.Applied <==> HasStatus(db, plan, Approved) && HasStatus(v.db, plan, Applied))
      && (v.kind == Progress.Failed <==>
            HasStatus(db, plan, Approved) && (HasStatus(v.db, plan, Approved) || HasStatus(v.db, plan, Failed)))
      && (v.kind == Progress.Skipped <==> !HasStatus(db, plan, Approved) || HasStatus(v.db, plan, Stale))
  {
  }

  // ---- What one visit does --------------------------------------------------

  /** An approved plan that nobody rewrote, whose rows are all still selected and whose article
      is there. */
  ghost predicate Publishable(db: Tables, live: map<int, string>, hash: Hash, plan: int) {
    && HasStatus(db, plan, Approved)
    && (forall s :: s in db.suggestions && db.suggestions[s].planId == Some(plan) ==> db.suggestions[s].status == Selected)
    && hash(db.plans[plan].artifact) == db.plans[plan].planHash
    && (db.plans[plan].approvedHash.Some? ==> db.plans[plan].approvedHash.value == db.plans[plan].planHash)
    && db.plans[plan].artifact.sourceId in live
  }

  lemma PublishableFound(db: Tables, live: map<int, string>, hash: Hash, plan: int)
    ensures Publishable(db, live, hash, plan) <==> Findings(db, live, hash, plan).Ours?
    ensures Findings(db, live, hash, plan).Ours? ==> Findings(db, live, hash, plan).rows == BoundTo(db, plan)
  {
    if Publishable(db, live, hash, plan) {
      forall s | s in BoundTo(db, plan) ensures db.suggestions[s].status == Selected {}
    }
    if Findings(db, live, hash, plan).Ours? {
      forall s | s in db.suggestions && db.suggestions[s].planId == Some(plan) ensures db.suggestions[s].status == Selected {
        assert s in BoundTo(db, plan);
      }
    }
  }

  /** Only a publishable plan is read or sent. Otherwise no post changes, and an approved plan
      ends stale when one of its rows was retired and failed when it cannot be trusted. */
  lemma UnpublishableIsRetired(db: Tables, live: map<int, string>, limit: nat, hash: Hash, plan: int, fault: Fault)
    requires !Publishable(db, live, hash, plan)
    ensures var v := Visit(db, live, limit, hash, plan, fault);
      && v.live == live
      && (!HasStatus(db, plan, Approved) ==> v.db == db)
      && (HasStatus(db, plan, Approved) ==>
            if exists s :: s in db.suggestions && db.suggestions[s].planId == Some(plan) && db.suggestions[s].status != Selected
            then HasStatus(v.db, plan, Stale) else HasStatus(v.db, plan, Failed))
  {
    PublishableFound(db, live, hash, plan);
    if HasStatus(db, plan, Approved) {
      if s :| s in db.suggestions && db.suggestions[s].planId == Some(plan) && db.suggestions[s].status != Selected {
        assert s in BoundTo(db, plan);
      }
    }
  }

  /** What the live post and the fault make of a publishable plan: an unreadable or refusing
      site leaves the post alone and the plan to be tried again or failed; a post that already
      is the approved edit is finalized without another write; a post that is neither that
      nor the approved original ends the plan stale; and the approved original is replaced
      by the approved edit, also when its reply is lost. */
  lemma VisitDecides(db: Tables, live: map<int, string>, limit: nat, hash: Hash, plan: int, fault: Fault)
    requires Publishable(db, live, hash, plan) && ReadItems(db.plans[plan].artifact.items).Some?
    ensures var v, art := Visit(db, live, limit, hash, plan, fault), db.plans[plan].artifact;
      var content, written := live[art.sourceId], live[art.sourceId := art.updatedHtml];
      if fault.ReadFails? then
        v.live == live && (HasStatus(v.db, plan, Approved) || HasStatus(v.db, plan, Failed))
      else if content == art.updatedHtml then
        v.live == live && HasStatus(v.db, plan, if fault.CommitFails? then Approved else Applied)
      else if content != art.originalHtml then
        v.live == live && HasStatus(v.db, plan, Stale)
      else match fault
        case PostRefused => v.live == live && (HasStatus(v.db, plan, Approved) || HasStatus(v.db, plan, Failed))
        case ReplyLost => v.live == written && (HasStatus(v.db, plan, Approved) || HasStatus(v.db, plan, Failed))
        case CommitFails => v.live == written && v.db == db
        case _ => v.live == written && HasStatus(v.db, plan, Applied)
  {
    PublishableFound(db, live, hash, plan);
    assert BoundTo(db, plan) == Findings(db, live, hash, plan).rows;
  }

  /** A connector error charges every row of the plan once; the plan fails exactly when that
      leaves it no row to try again with, and then all of its rows fail with it. */
  lemma FailsTogether(db: Tables, live: map<int, string>, limit: nat, hash: Hash, plan: int, fault: Fault)
    requires Publishable(db, live, hash, plan)
    requires fault.ReadFails? ||
      (live[db.plans[plan].artifact.sourceId] == db.plans[plan].artifact.originalHtml != db.plans[plan].artifact.updatedHtml
       && (fault.PostRefused? || fault.ReplyLost?))
    ensures var v := Visit(db, live, limit, hash, plan, fault);
      && (HasStatus(v.db, plan, Failed) <==>
            && BoundTo(db, plan) != {}
            && forall s :: s in BoundTo(db, plan) ==> s in v.db.suggestions && v.db.suggestions[s].status == Quarantined)
      && (forall s :: s in BoundTo(db, plan) ==>
            s in v.db.suggestions && v.db.suggestions[s].attempts == db.suggestions[s].attempts + 1
            && v.db.suggestions[s].planId == Some(plan))
  {
    PublishableFound(db, live, hash, plan);
    var rows := BoundTo(db, plan);
    var gone := QuarantinedBy(db, rows, limit);
    assert gone <= rows;
    if gone == rows {
    } else {
      SmallerInside(gone, rows);
      var s :| s in rows && s !in gone;
      assert ChargeAll(db, rows, limit).suggestions[s].status == Selected;
    }
  }

  lemma SmallerInside(xs: set<int>, ys: set<int>)
    requires xs <= ys && xs != ys
    ensures |xs| < |ys|
  {
    assert xs + (ys - xs) == ys && xs + {} == xs;
    assert ys - xs != {};
  }

  lemma OtherRow(db: Tables, live: map<int, string>, limit: nat, hash: Hash, plan: int, fault: Fault, s: int)
    requires s in db.suggestions && db.suggestions[s].planId != Some(plan)
    ensures var v := Visit(db, live, limit, hash, plan, fault); s in v.db.suggestions && v.db.suggestions[s] == db.suggestions[s]
  {
    assert s !in BoundTo(db, plan);
    if Findings(db, live, hash, plan).Ours? && ReadItems(db.plans[plan].artifact.items).Some? {
      LinkAllRow(db.suggestions, BoundTo(db, plan), Items(db.plans[plan].artifact), s);
    }
  }

  lemma OtherPlansAndPosts(db: Tables, live: map<int, string>, limit: nat, hash: Hash, plan: int, fault: Fault)
    ensures var v := Visit(db, live, limit, hash, plan, fault);
      && v.db.plans.Keys == db.plans.Keys
      && (forall q :: q in db.plans && q != plan ==> v.db.plans[q] == db.plans[q])
      && (forall a :: a in live && (plan !in db.plans || a != db.plans[plan].artifact.sourceId) ==> a in v.live && v.live[a] == live[a])
  {
  }

  /** A visit touches its own plan, its rows and its article only. */
  lemma OthersUntouched(db: Tables, live: map<int, string>, limit: nat, hash: Hash, plan: int, fault: Fault)
    ensures var v := Visit(db, live, limit, hash, plan, fault);
      && v.db.plans.Keys == db.plans.Keys
      && (forall q :: q in db.plans && q != plan ==> v.db.plans[q] == db.plans[q])
      && (forall s :: s in db.suggestions && db.suggestions[s].planId != Some(plan) ==>
            s in v.db.suggestions && v.db.suggestions[s] == db.suggestions[s])
      && (forall a :: a in live && (plan !in db.plans || a != db.plans[plan].artifact.sourceId) ==> a in v.live && v.live[a] == live[a])
  {
    OtherPlansAndPosts(db, live, limit, hash, plan, fault);
    forall s | s in db.suggestions && db.suggestions[s].planId != Some(plan)
      ensures var v := Visit(db, live, limit, hash, plan, fault); s in v.db.suggestions && v.db.suggestions[s] == db.suggestions[s]
    {
      OtherRow(db, live, limit, hash, plan, fault, s);
    }
  }

  // ---- A whole job ----------------------------------------------------------

  /** The batch is read from the approved plans by id, so no plan is in it twice. */
  predicate DistinctPlans(batch: seq<(int, nat)>) {
    forall i, j :: 0 <= i < j < |batch| ==> batch[i].0 != batch[j].0
  }

  /** A plan keeps its row until the job comes to it, and again from then on. */
  lemma {:induction false} OnlyItsVisit(db: Tables, live: map<int, string>, limit: nat, hash: Hash,
                                        batch: seq<(int, nat)>, faults: seq<Fault>, plan: int)
    requires |faults| == |batch| && forall i :: 0 <= i < |batch| ==> batch[i].0 != plan
    ensures var j := VisitAll(db, live, limit, hash, batch, faults);
            (plan in j.db.plans <==> plan in db.plans) && (plan in db.plans ==> j.db.plans[plan] == db.plans[plan])
    decreases |batch|
  {
    if batch != [] {
      var n := |batch| - 1;
      OnlyItsVisit(db, live, limit, hash, batch[..n], faults[..n], plan);
      var before := VisitAll(db, live, limit, hash, batch[..n], faults[..n]);
      OthersUntouched(before.db, before.live, limit, hash, batch[n].0, faults[n]);
    }
  }

  /** The plan of the batch's entry `i` was approved when the job began and ended with one of
      these statuses. */
  predicate Ended(db: Tables, after: Tables, batch: seq<(int, nat)>, i: int, ends: set<PlanStatus>) {
    && 0 <= i < |batch| && HasStatus(db, batch[i].0, Approved)
    && batch[i].0 in after.plans && after.plans[batch[i].0].status in ends
  }

  /** The items of the batch whose plan was approved and ended so. */
  function ItemsEnded(db: Tables, after: Tables, batch: seq<(int, nat)>, ends: set<PlanStatus>): nat
    decreases |batch|
  {
    if batch == [] then 0 else
      var n := |batch| - 1;
      ItemsEnded(db, after, batch[..n], ends) + if Ended(db, after, batch, n, ends) then batch[n].1 else 0
  }

  lemma {:induction false} SameEnds(db: Tables, after: Tables, later: Tables, batch: seq<(int, nat)>, ends: set<PlanStatus>)
    requires forall i :: 0 <= i < |batch| ==> (batch[i].0 in later.plans <==> batch[i].0 in after.plans)
    requires forall i :: 0 <= i < |batch| && batch[i].0 in after.plans ==> later.plans[batch[i].0] == after.plans[batch[i].0]
    ensures ItemsEnded(db, later, batch, ends) == ItemsEnded(db, after, batch, ends)
    decreases |batch|
  {
    if batch != [] { SameEnds(db, after, later, batch[..|batch| - 1], ends); }
  }

  /** The statuses in which a plan's items count as this event. */
  function EndsOf(e: Progress.Event): set<PlanStatus> {
    match e case Applied => {Applied} case Failed => {Approved, Failed} case Skipped => {Stale}
  }

  /** The visit to a plan that nothing touched before counts by how the plan ended. */
  lemma VisitEnds(db: Tables, before: Tables, live: map<int, string>, limit: nat, hash: Hash, batch: seq<(int, nat)>, i: int,
                  fault: Fault, e: Progress.Event)
    requires 0 <= i < |batch| && e != Progress.Skipped
    requires batch[i].0 in before.plans <==> batch[i].0 in db.plans
    requires batch[i].0 in db.plans ==> before.plans[batch[i].0] == db.plans[batch[i].0]
    ensures var v := Visit(before, live, limit, hash, batch[i].0, fault);
            v.kind == e <==> Ended(db, v.db, batch, i, EndsOf(e))
  {
    KindMeans(before, live, limit, hash, batch[i].0, fault);
    OthersUntouched(before, live, limit, hash, batch[i].0, fault);
  }

  lemma OneMoreEnded(db: Tables, before: Tables, after: Tables, batch: seq<(int, nat)>, n: nat, ends: set<PlanStatus>)
    requires |batch| == n + 1 && DistinctPlans(batch) && before.plans.Keys == after.plans.Keys
    requires forall q :: q in before.plans && q != batch[n].0 ==> after.plans[q] == before.plans[q]
    ensures ItemsEnded(db, after, batch, ends) ==
            ItemsEnded(db, before, batch[..n], ends) + if Ended(db, after, batch, n, ends) then batch[n].1 else 0
  {
    forall i | 0 <= i < n ensures batch[..n][i].0 != batch[n].0 {}
    forall q ensures q in before.plans <==> q in after.plans { assert q in before.plans.Keys <==> q in after.plans.Keys; }
    SameEnds(db, before, after, batch[..n], ends);
  }

  /** How many items a whole job counts as applied, and as failed: those of the plans that were
      approved when it began and ended so. */
  lemma {:induction false} JobCounts(db: Tables, live: map<int, string>, limit: nat, hash: Hash, batch: seq<(int, nat)>,
                                     faults: seq<Fault>, e: Progress.Event)
    requires |faults| == |batch| && DistinctPlans(batch) && e != Progress.Skipped
    ensures var j := VisitAll(db, live, limit, hash, batch, faults);
            Progress.Occurs(j.events, e) == ItemsEnded(db, j.db, batch, EndsOf(e))
    decreases |batch|
  {
    if batch != [] {
      var n := |batch| - 1;
      var before := VisitAll(db, live, limit, hash, batch[..n], faults[..n]);
      var v := Visit(before.db, before.live, limit, hash, batch[n].0, faults[n]);
      JobCounts(db, live, limit, hash, batch[..n], faults[..n], e);
      OnlyItsVisit(db, live, limit, hash, batch[..n], faults[..n], batch[n].0);
      OthersUntouched(before.db, before.live, limit, hash, batch[n].0, faults[n]);
      VisitEnds(db, before.db, before.live, limit, hash, batch, n, faults[n], e);
      OneMoreEnded(db, before.db, v.db, batch, n, EndsOf(e));
      Progress.OccursAppended(before.events, Repeat(v.kind, batch[n].1), e);
      RepeatOccurs(v.kind, batch[n].1, e);
    }
  }

  lemma {:induction false} RepeatOccurs(kind: Progress.Event, n: nat, e: Progress.Event)
    ensures Progress.Occurs(Repeat(kind, n), e) == if kind == e then n else 0
  {
    if n > 0 {
      RepeatOccurs(kind, n - 1, e);
      assert Repeat(kind, n)[..n - 1] == Repeat(kind, n - 1);
    }
  }

  lemma {:induction false} NoItems(db: Tables, after: Tables, batch: seq<(int, nat)>, ends: set<PlanStatus>)
    ensures ItemsEnded(db, after, batch, ends) == 0 <==>
      forall i :: 0 <= i < |batch| && batch[i].1 > 0 ==> !Ended(db, after, batch, i, ends)
    decreases |batch|
  {
    if batch != [] {
      var n := |batch| - 1;
      NoItems(db, after, batch[..n], ends);
      assert forall i :: 0 <= i < n ==> Ended(db, after, batch[..n], i, ends) == Ended(db, after, batch, i, ends);
    }
  }

  /** A job counts no failure exactly when no plan with items that was approved when it began is
      still approved or ended failed. */
  lemma SucceedsExactly(db: Tables, live: map<int, string>, limit: nat, hash: Hash, batch: seq<(int, nat)>, faults: seq<Fault>)
    requires |faults| == |batch| && DistinctPlans(batch)
    ensures var j := VisitAll(db, live, limit, hash, batch, faults);
      Progress.Failed !in j.events <==>
      forall i :: 0 <= i < |batch| && batch[i].1 > 0 ==> !Ended(db, j.db, batch, i, {Approved, Failed})
  {
    var j := VisitAll(db, live, limit, hash, batch, faults);
    JobCounts(db, live, limit, hash, batch, faults, Progress.Failed);
    Progress.OccursIn(j.events, Progress.Failed);
    NoItems(db, j.db, batch, {Approved, Failed});
  }
}
