/** The publication job over its approved plans, row by row and request by request.

    Every transaction and request below is one step of the protocol, so a whole job is a
    run of it; `trace` records which. */
module PublicationWorker {
  import opened Prelude
  import opened PlanArtifact
  import opened PublicationTables
  import opened PublicationProtocol
  import Json = CanonicalJson
  import Progress = PublicationProgress

  const ME := 1

  /** What goes wrong while one plan is being published. */
  datatype Fault = NoFault | ReadFails | PostRefused | ReplyLost | CommitFails

  datatype Found = Gone | RowsRetired | Untrusted | Ours(rows: set<int>)

  datatype Edit = WrittenNow | AlreadyApplied | StaleArticle | ConnectorFailed

  class Worker {
    var plans: map<int, Plan>
    var suggestions: map<int, Suggestion>
    var live: map<int, string>
    var progress: Progress.Progress
    const limit: nat
    const hash: Hash

    ghost var start: World
    ghost var trace: seq<Step>
    ghost var phase: Phase
    ghost var posts: seq<Post>
    ghost var signed: map<int, Artifact>
    ghost var charges: map<int, nat>

    function Db(): Tables reads this { Tables(plans, suggestions) }

    ghost function View(): World reads this {
      World(Db(), live, map[ME := phase], limit, hash, signed, posts, charges)
    }

    ghost predicate Valid() reads this {
      Runs(start, trace) && View() == End(start, trace)
    }

    /** The state has become what one protocol step makes of it. */
    ghost method Took(was: World, st: Step)
      requires Runs(start, trace) && was == End(start, trace) && Enabled(was, st) && View() == Next(was, st)
      modifies this`trace
      ensures Valid() && trace == old(trace) + [st]
    {
      RunOneMore(start, trace, st);
      trace := trace + [st];
    }

    // ---- Transactions -------------------------------------------------------

    method LockPlan(plan: int) returns (found: Found)
      requires Valid() && phase == Idle
      modifies this`trace, this`phase
      ensures Valid() && start == old(start) && trace == old(trace) + [Lock(ME, plan)]
      ensures found == Findings(Db(), live, hash, plan)
      ensures match found
        case Gone => phase == Idle
        case RowsRetired => phase == StaleCheck(plan)
        case Untrusted => phase == FailCheck(plan)
        case Ours(rows) => phase == Holding(plan, plans[plan].artifact, rows)
    {
      ghost var was := View();
      if plan !in plans || plans[plan].status != Approved {
        found := Gone;
      } else {
        var rows := BoundTo(Db(), plan);
        var p := plans[plan];
        if exists s :: s in rows && suggestions[s].status != Selected {
          found := RowsRetired;
        } else if !Intact(hash, p.artifact, p.planHash, p.approvedHash) || p.artifact.sourceId !in live {
          found := Untrusted;
        } else {
          found := Ours(rows);
        }
      }
      phase := AfterLock(was, plan);
      Took(was, Lock(ME, plan));
    }

    /** The read before the write, and what the comparison says. */
    method ReadLive(plan: int, rows: set<int>) returns (content: string)
      requires Valid() && plan in plans && phase == Holding(plan, plans[plan].artifact, rows)
      requires plans[plan].artifact.sourceId in live
      modifies this`trace, this`phase
      ensures Valid() && start == old(start) && trace == old(trace) + [ReadPost(ME)]
      ensures content == live[plans[plan].artifact.sourceId] && phase == AfterRead(old(phase), content)
    {
      RunOneMore(start, trace, ReadPost(ME));
      content := live[plans[plan].artifact.sourceId];
      phase, trace := AfterRead(phase, content), trace + [ReadPost(ME)];
    }

    /** One POST of the approved body. A lost reply stores it and raises all the same. */
    method SendPost(plan: int, rows: set<int>, ghost read: string, fault: Fault) returns (ok: bool)
      requires Valid() && plan in plans && phase == Ready(plan, plans[plan].artifact, rows, read)
      modifies this`trace, this`phase, this`live, this`posts
      ensures Valid() && start == old(start)
      ensures ok <==> !fault.PostRefused? && !fault.ReplyLost?
      ensures posts == old(posts) + [Post(plan, plans[plan].artifact.sourceId, read,
                                          plans[plan].artifact.updatedHtml, !fault.PostRefused?)]
      ensures live == if fault.PostRefused? then old(live)
                      else old(live)[plans[plan].artifact.sourceId := plans[plan].artifact.updatedHtml]
      ensures phase == if ok then Written(plan, plans[plan].artifact, rows) else Charging(plan, rows)
    {
      var art := plans[plan].artifact;
      ok := !fault.PostRefused? && !fault.ReplyLost?;
      ghost var was := View();
      if !fault.PostRefused? {
        live := live[art.sourceId := art.updatedHtml];
      }
      posts := posts + [Post(plan, art.sourceId, read, art.updatedHtml, !fault.PostRefused?)];
      phase := if ok then Written(plan, art, rows) else Charging(plan, rows);
      SentIs(was, plan, art, rows, read, !fault.PostRefused?, View());
      Took(was, if ok then PostOk(ME) else ConnectorError(ME, !fault.PostRefused?));
    }

    /** `apply_planned_edit`: read, compare, and POST the approved body if the post is still
        what was approved. */
    method ApplyPlannedEdit(plan: int, rows: set<int>, fault: Fault) returns (edit: Edit)
      requires Valid() && plan in plans && phase == Holding(plan, plans[plan].artifact, rows)
      requires plans[plan].artifact.sourceId in live
      modifies this`trace, this`phase, this`live, this`posts
      ensures Valid() && start == old(start)
      ensures var art := plans[plan].artifact;
              edit == Outcome(art, old(live)[art.sourceId], fault)
              && live == LiveAfter(old(live), art, fault)
      ensures edit != WrittenNow && edit != ConnectorFailed ==> posts == old(posts)
      ensures phase == match edit
                       case StaleArticle => StaleCheck(plan)
                       case ConnectorFailed => Charging(plan, rows)
                       case _ => Written(plan, plans[plan].artifact, rows)
    {
      if fault.ReadFails? {
        RunOneMore(start, trace, ConnectorError(ME, false));
        phase, trace := Charging(plan, rows), trace + [ConnectorError(ME, false)];
        return ConnectorFailed;
      }
      var content := ReadLive(plan, rows);
      if content == plans[plan].artifact.updatedHtml {
        return AlreadyApplied;
      }
      if content != plans[plan].artifact.originalHtml {
        return StaleArticle;
      }
      var ok := SendPost(plan, rows, content, fault);
      edit := if ok then WrittenNow else ConnectorFailed;
    }

    /** The commit of a written plan: every listed row that is still there is marked linked,
        with the outcome the operator was shown. */
    method CommitPlan(plan: int, rows: set<int>)
      requires Valid() && plan in plans && phase == Written(plan, plans[plan].artifact, rows)
      requires ReadItems(plans[plan].artifact.items).Some?
      modifies this`trace, this`phase, this`plans, this`suggestions
      ensures Valid() && start == old(start) && phase == Idle
      ensures trace == old(trace) + [Commit(ME)]
      ensures plan in old(plans) && Db() == Apply(old(Db()), plan, rows, Items(old(plans)[plan].artifact))
    {
      ghost var was := View();
      var items := Items(plans[plan].artifact);
      var i := 0;
      while i < |items|
        modifies this`suggestions
        invariant 0 <= i <= |items|
        invariant suggestions == LinkAll(was.db.suggestions, rows, items[..i])
      {
        var item := items[i];
        if item.suggestionId in rows && item.suggestionId in suggestions {
          suggestions := suggestions[item.suggestionId :=
            suggestions[item.suggestionId].(status := Linked, attempts := 0, outcome := Some(item.outcome))];
        }
        assert items[..i + 1][..i] == items[..i];
        i := i + 1;
      }
      assert items[..i] == items;
      plans := plans[plan := plans[plan].(status := Applied)];
      phase := Idle;
      CommittedIs(was, plan, rows, View());
      Took(was, Commit(ME));
    }

    /** Rolling back, or dying: the locks go and nothing was committed. */
    method Rollback()
      requires Valid()
      modifies this`trace, this`phase
      ensures Valid() && start == old(start) && phase == Idle && trace == old(trace) + [Abort(ME)]
    {
      RunOneMore(start, trace, Abort(ME));
      phase, trace := Idle, trace + [Abort(ME)];
    }

    /** `_record_attempt_failure`: two updates, one to count and one to quarantine. */
    method RecordAttemptFailure(plan: int, rows: set<int>) returns (exhausted: bool)
      requires Valid() && phase == Charging(plan, rows)
      modifies this`trace, this`phase, this`suggestions, this`charges
      ensures Valid() && start == old(start) && trace == old(trace) + [Charge(ME)]
      ensures Db() == ChargeAll(old(Db()), rows, limit)
      ensures exhausted <==> rows != {} && |QuarantinedBy(old(Db()), rows, limit)| >= |rows|
      ensures phase == if exhausted then FailCheck(plan) else Idle
    {
      ghost var was := View();
      suggestions := CountAttempts(suggestions, rows);
      var overdue := Overdue(suggestions, rows, limit);
      suggestions := Quarantine(suggestions, overdue);
      TwoUpdatesChargeOnce(was.db, rows, limit);
      exhausted := rows != {} && |overdue| >= |rows|;
      charges := ChargesAfter(was, plan, rows);
      phase := if exhausted then FailCheck(plan) else Idle;
      ChargedIs(was, plan, rows, View());
      Took(was, Charge(ME));
    }

    /** Reading the status again after a rollback. */
    method CheckAgain(plan: int, stale: bool) returns (approved: bool)
      requires Valid() && phase == if stale then StaleCheck(plan) else FailCheck(plan)
      modifies this`trace, this`phase
      ensures Valid() && start == old(start) && trace == old(trace) + [CheckStatus(ME)]
      ensures approved <==> plan in plans && plans[plan].status == Approved
      ensures phase == if !approved then Idle else if stale then StaleWrite(plan) else FailWrite(plan)
    {
      RunOneMore(start, trace, CheckStatus(ME));
      approved := plan in plans && plans[plan].status == Approved;
      phase, trace := AfterCheck(View(), phase), trace + [CheckStatus(ME)];
    }

    method WriteRetired(plan: int, stale: bool)
      requires Valid() && plan in plans && phase == if stale then StaleWrite(plan) else FailWrite(plan)
      modifies this`trace, this`phase, this`plans, this`suggestions
      ensures Valid() && start == old(start) && phase == Idle && trace == old(trace) + [Retire(ME)]
      ensures Db() == if stale then MarkStale(old(Db()), plan) else FailPlan(old(Db()), plan)
    {
      ghost var was := View();
      plans := plans[plan := plans[plan].(status := if stale then Stale else Failed)];
      suggestions := if stale then Unbind(suggestions, plan) else FailBound(suggestions, plan);
      phase := Idle;
      RetiredIs(was, plan, stale, View());
      Took(was, Retire(ME));
    }

    /** `_handle_stale_plan` and `_fail_plan`: retire the plan if it is still approved. */
    method RetirePlan(plan: int, stale: bool)
      requires Valid() && phase == if stale then StaleCheck(plan) else FailCheck(plan)
      modifies this`trace, this`phase, this`plans, this`suggestions
      ensures Valid() && start == old(start) && phase == Idle
      ensures Db() == if plan !in old(plans) || old(plans)[plan].status != Approved then old(Db())
                      else if stale then MarkStale(old(Db()), plan) else FailPlan(old(Db()), plan)
    {
      var approved := CheckAgain(plan, stale);
      if approved { WriteRetired(plan, stale); }
    }

    // ---- Jobs ---------------------------------------------------------------

    /** Everything that happens once the locks are held and the artifact is trusted. */
    method PublishHeld(plan: int, rows: set<int>, fault: Fault) returns (kind: Progress.Event)
      requires Valid() && plan in plans && plans[plan].status == Approved
      requires phase == Holding(plan, plans[plan].artifact, rows) && plans[plan].artifact.sourceId in live
      modifies this`trace, this`phase, this`plans, this`suggestions, this`live, this`posts, this`charges
      ensures Valid() && start == old(start) && phase == Idle
      ensures Visited(Db(), live, kind) == VisitHeld(old(Db()), old(live), limit, plan, rows, fault)
    {
      var edit := ApplyPlannedEdit(plan, rows, fault);
      if edit.StaleArticle? {
        RetirePlan(plan, true);
        kind := Progress.Skipped;
      } else if edit.ConnectorFailed? {
        var exhausted := RecordAttemptFailure(plan, rows);
        if exhausted { RetirePlan(plan, false); }
        kind := Progress.Failed;
      } else if fault.CommitFails? || ReadItems(plans[plan].artifact.items).None? {
        Rollback();
        kind := Progress.Failed;
      } else {
        CommitPlan(plan, rows);
        kind := Progress.Applied;
      }
    }

    method RecordItems(kind: Progress.Event, n: nat)
      modifies this`progress
      ensures progress == Progress.RecordAll(old(progress), Repeat(kind, n))
    {
      for i := 0 to n
        invariant progress == Progress.RecordAll(old(progress), Repeat(kind, i))
      {
        RepeatOneMore(old(progress), kind, i);
        progress := Progress.Record(progress, kind);
      }
    }

    /** One iteration of the plan loop. */
    method PublishOne(plan: int, items: nat, fault: Fault) returns (kind: Progress.Event)
      requires Valid() && phase == Idle
      modifies this`trace, this`phase, this`plans, this`suggestions, this`live, this`posts, this`charges, this`progress
      ensures Valid() && start == old(start) && phase == Idle
      ensures Visited(Db(), live, kind) == Visit(old(Db()), old(live), limit, hash, plan, fault)
      ensures progress == Progress.RecordAll(old(progress), Repeat(kind, items))
    {
      var found := LockPlan(plan);
      match found {
        case Gone => kind := Progress.Skipped;
        case RowsRetired => RetirePlan(plan, true); kind := Progress.Skipped;
        case Untrusted => RetirePlan(plan, false); kind := Progress.Failed;
        case Ours(rows) => kind := PublishHeld(plan, rows, fault);
      }
      RecordItems(kind, items);
    }

    /** The plan loop: the plans are visited in order, each finding what the ones before it left. */
    method PublishEach(batch: seq<(int, nat)>, faults: seq<Fault>) returns (ghost events: seq<Progress.Event>)
      requires Valid() && phase == Idle && |faults| == |batch|
      modifies this
      ensures Valid() && start == old(start) && phase == Idle && |events| == BatchSize(batch)
      ensures Job(Db(), live, events) == VisitAll(old(Db()), old(live), limit, hash, batch, faults)
      ensures progress == Progress.RecordAll(old(progress), events)
    {
      events := [];
      for i := 0 to |batch|
        invariant Valid() && start == old(start) && phase == Idle
        invariant |events| == BatchSize(batch[..i])
        invariant Job(Db(), live, events) == VisitAll(old(Db()), old(live), limit, hash, batch[..i], faults[..i])
        invariant progress == Progress.RecordAll(old(progress), events)
      {
        var kind := PublishOne(batch[i].0, batch[i].1, faults[i]);
        RecordAllAppend(old(progress), events, Repeat(kind, batch[i].1));
        events := events + Repeat(kind, batch[i].1);
        VisitOneMore(old(Db()), old(live), limit, hash, batch, faults, i);
      }
      assert batch[..|batch|] == batch && faults[..|batch|] == faults;
    }

    /** `_publish_approved_plans`: the counters are those of one possible attempt, and the job
        succeeds exactly when no item failed. */
    method PublishApproved(batch: seq<(int, nat)>, faults: seq<Fault>, previous: Option<Progress.Progress>)
      returns (ok: bool, ghost events: seq<Progress.Event>)
      requires Valid() && phase == Idle && |faults| == |batch|
      modifies this
      ensures Valid() && start == old(start) && phase == Idle
      ensures Job(Db(), live, events) == VisitAll(old(Db()), old(live), limit, hash, batch, faults)
      ensures |events| == BatchSize(batch) && (ok <==> Progress.Failed !in events)
      ensures var attempt := Progress.Attempt(BatchSize(batch), events,
                                              if ok then Progress.Completed else Progress.Unmarked);
              Progress.Possible(attempt) && progress == Progress.RunAttempt(previous, attempt)
    {
      progress := Progress.Begin(previous, BatchSize(batch));
      ghost var begun := progress;
      events := PublishEach(batch, faults);
      FailuresCounted(begun, events);
      ok := Progress.Count(progress, "attempt_failed", 0) == 0;
      if ok { progress := Progress.CompleteSuccess(progress); }
    }
  }

  function BatchSize(batch: seq<(int, nat)>): nat {
    if batch == [] then 0 else BatchSize(batch[..|batch| - 1]) + batch[|batch| - 1].1
  }

  lemma {:induction false} FailuresCounted(p: Progress.Progress, events: seq<Progress.Event>)
    requires "attempt_failed" in p && p["attempt_failed"] == Json.JInt(0)
    ensures var r := Progress.RecordAll(p, events);
      Progress.Count(r, "attempt_failed", 0) == 0 <==> Progress.Failed !in events
    decreases |events|
  {
    if events != [] {
      var front := events[..|events| - 1];
      FailuresCounted(p, front);
      assert events == front + [events[|events| - 1]];
    }
  }

  // ---- Jobs -----------------------------------------------------------------

  /** What one visit makes of a plan: the tables, the live posts, and how its items count. */
  datatype Visited = Visited(db: Tables, live: map<int, string>, kind: Progress.Event)

  function AfterCharge(db: Tables, plan: int, rows: set<int>, limit: nat): Tables
    requires plan in db.plans
  {
    var charged := ChargeAll(db, rows, limit);
    if rows != {} && |QuarantinedBy(db, rows, limit)| >= |rows| then FailPlan(charged, plan) else charged
  }

  /** What locking a plan shows. */
  function Findings(db: Tables, live: map<int, string>, hash: Hash, plan: int): (r: Found)
    ensures r.Ours? ==> && plan in db.plans && db.plans[plan].status == Approved && r.rows == BoundTo(db, plan)
                        && Intact(hash, db.plans[plan].artifact, db.plans[plan].planHash, db.plans[plan].approvedHash)
                        && db.plans[plan].artifact.sourceId in live
                        && forall s :: s in r.rows ==> db.suggestions[s].status == Selected
  {
    if plan !in db.plans || db.plans[plan].status != Approved then Gone else
      var p := db.plans[plan];
      var rows := BoundTo(db, plan);
      if exists s :: s in rows && db.suggestions[s].status != Selected then RowsRetired
      else if !Intact(hash, p.artifact, p.planHash, p.approvedHash) || p.artifact.sourceId !in live then Untrusted
      else Ours(rows)
  }

  /** The connector's answer, from what it reads and what goes wrong. */
  function Outcome(art: Artifact, content: string, fault: Fault): Edit {
    if fault.ReadFails? then ConnectorFailed
    else if content == art.updatedHtml then AlreadyApplied
    else if content != art.originalHtml then StaleArticle
    else if fault.PostRefused? || fault.ReplyLost? then ConnectorFailed
    else WrittenNow
  }

  /** The live posts after that answer: a write whose reply was lost is there all the same. */
  function LiveAfter(live: map<int, string>, art: Artifact, fault: Fault): map<int, string>
    requires art.sourceId in live
  {
    if live[art.sourceId] == art.originalHtml && !fault.ReadFails? && !fault.PostRefused?
    then live[art.sourceId := art.updatedHtml] else live
  }

  function VisitHeld(db: Tables, live: map<int, string>, limit: nat, plan: int, rows: set<int>, fault: Fault): Visited
    requires plan in db.plans && db.plans[plan].artifact.sourceId in live
  {
    var art := db.plans[plan].artifact;
    var after := LiveAfter(live, art, fault);
    match Outcome(art, live[art.sourceId], fault)
    case StaleArticle => Visited(MarkStale(db, plan), live, Progress.Skipped)
    case ConnectorFailed => Visited(AfterCharge(db, plan, rows, limit), after, Progress.Failed)
    case _ =>
      if fault.CommitFails? || ReadItems(art.items).None? then Visited(db, after, Progress.Failed)
      else Visited(Apply(db, plan, rows, Items(art)), after, Progress.Applied)
  }

  function Visit(db: Tables, live: map<int, string>, limit: nat, hash: Hash, plan: int, fault: Fault): Visited {
    match Findings(db, live, hash, plan)
    case Gone => Visited(db, live, Progress.Skipped)
    case RowsRetired => Visited(MarkStale(db, plan), live, Progress.Skipped)
    case Untrusted => Visited(FailPlan(db, plan), live, Progress.Failed)
    case Ours(rows) => VisitHeld(db, live, limit, plan, rows, fault)
  }

  /** What a whole job makes of the tables and the live posts, and how its items count. */
  datatype Job = Job(db: Tables, live: map<int, string>, events: seq<Progress.Event>)

  function VisitAll(db: Tables, live: map<int, string>, limit: nat, hash: Hash, batch: seq<(int, nat)>, faults: seq<Fault>): Job
    requires |faults| == |batch|
    decreases |batch|
  {
    if batch == [] then Job(db, live, []) else
      var n := |batch| - 1;
      var before := VisitAll(db, live, limit, hash, batch[..n], faults[..n]);
      var v := Visit(before.db, before.live, limit, hash, batch[n].0, faults[n]);
      Job(v.db, v.live, before.events + Repeat(v.kind, batch[n].1))
  }

  lemma VisitOneMore(db: Tables, live: map<int, string>, limit: nat, hash: Hash, batch: seq<(int, nat)>, faults: seq<Fault>, i: nat)
    requires i < |batch| == |faults|
    ensures BatchSize(batch[..i + 1]) == BatchSize(batch[..i]) + batch[i].1
    ensures var before := VisitAll(db, live, limit, hash, batch[..i], faults[..i]);
            var v := Visit(before.db, before.live, limit, hash, batch[i].0, faults[i]);
            VisitAll(db, live, limit, hash, batch[..i + 1], faults[..i + 1]) ==
            Job(v.db, v.live, before.events + Repeat(v.kind, batch[i].1))
  {
    assert batch[..i + 1][..i] == batch[..i] && faults[..i + 1][..i] == faults[..i];
  }

  function Repeat(kind: Progress.Event, n: nat): (r: seq<Progress.Event>)
    ensures |r| == n && forall i :: 0 <= i < n ==> r[i] == kind
  {
    if n == 0 then [] else Repeat(kind, n - 1) + [kind]
  }

  lemma RepeatOneMore(p: Progress.Progress, kind: Progress.Event, i: nat)
    ensures Progress.RecordAll(p, Repeat(kind, i + 1)) == Progress.Record(Progress.RecordAll(p, Repeat(kind, i)), kind)
  {
    var more := Repeat(kind, i + 1);
    assert more[..i] == Repeat(kind, i) && more[i] == kind;
  }

  lemma {:induction false} RecordAllAppend(p: Progress.Progress, es: seq<Progress.Event>, fs: seq<Progress.Event>)
    ensures Progress.RecordAll(p, es + fs) == Progress.RecordAll(Progress.RecordAll(p, es), fs)
    decreases |fs|
  {
    if fs == [] {
      assert es + fs == es;
    } else {
      var front, last := fs[..|fs| - 1], fs[|fs| - 1];
      RecordAllAppend(p, es, front);
      assert (es + fs)[..|es + fs| - 1] == es + front && (es + fs)[|es + fs| - 1] == last;
      assert Progress.RecordAll(p, es + fs) == Progress.Record(Progress.RecordAll(p, es + front), last);
    }
  }

  // ---- Updates --------------------------------------------------------------

  function CountAttempts(suggestions: map<int, Suggestion>, rows: set<int>): map<int, Suggestion> {
    map s | s in suggestions ::
      if s in rows && suggestions[s].status == Selected
      then suggestions[s].(attempts := suggestions[s].attempts + 1) else suggestions[s]
  }

  function Overdue(suggestions: map<int, Suggestion>, rows: set<int>, limit: nat): set<int> {
    set s | s in suggestions && s in rows && suggestions[s].status == Selected && suggestions[s].attempts >= limit
  }

  function Quarantine(suggestions: map<int, Suggestion>, overdue: set<int>): map<int, Suggestion> {
    map s | s in suggestions :: if s in overdue then suggestions[s].(status := Quarantined) else suggestions[s]
  }

  function Unbind(suggestions: map<int, Suggestion>, plan: int): map<int, Suggestion> {
    map s | s in suggestions ::
      if suggestions[s].planId == Some(plan) then suggestions[s].(planId := None) else suggestions[s]
  }

  function FailBound(suggestions: map<int, Suggestion>, plan: int): map<int, Suggestion> {
    map s | s in suggestions ::
      if suggestions[s].planId == Some(plan) then suggestions[s].(status := Quarantined) else suggestions[s]
  }

  /** Counting first and quarantining second is one charge, and the second statement's row
      count is the number of rows that charge quarantined. */
  lemma TwoUpdatesChargeOnce(db: Tables, rows: set<int>, limit: nat)
    ensures var counted := CountAttempts(db.suggestions, rows);
      && Overdue(counted, rows, limit) == QuarantinedBy(db, rows, limit)
      && Quarantine(counted, Overdue(counted, rows, limit)) == ChargeAll(db, rows, limit).suggestions
  {
    var counted := CountAttempts(db.suggestions, rows);
    var overdue := Overdue(counted, rows, limit);
    forall s ensures s in overdue <==> s in QuarantinedBy(db, rows, limit) {}
    assert overdue == QuarantinedBy(db, rows, limit);
    forall s | s in db.suggestions
      ensures Quarantine(counted, overdue)[s] == ChargeAll(db, rows, limit).suggestions[s] {}
  }

  lemma SentIs(w: World, plan: int, art: Artifact, rows: set<int>, read: string, landed: bool, n: World)
    requires w.workers == map[ME := Ready(plan, art, rows, read)]
    requires n.workers.Keys == {ME}
    requires n.workers[ME] == Written(plan, art, rows) || n.workers[ME] == Charging(plan, rows)
    requires n.workers[ME].Written? ==> landed
    requires n == w.(live := if landed then w.live[art.sourceId := art.updatedHtml] else w.live,
                     posts := w.posts + [Post(plan, art.sourceId, read, art.updatedHtml, landed)],
                     workers := n.workers)
    ensures var st := if n.workers[ME].Written? then PostOk(ME) else ConnectorError(ME, landed);
            Enabled(w, st) && n == Next(w, st)
  {
    assert n.workers == w.workers[ME := n.workers[ME]];
  }

  lemma CommittedIs(w: World, plan: int, rows: set<int>, n: World)
    requires plan in w.db.plans && w.workers == map[ME := Written(plan, w.db.plans[plan].artifact, rows)]
    requires ReadItems(w.db.plans[plan].artifact.items).Some?
    requires n == w.(db := Apply(w.db, plan, rows, Items(w.db.plans[plan].artifact)), workers := map[ME := Idle])
    ensures Enabled(w, Commit(ME)) && n == Next(w, Commit(ME))
  {
    assert n.workers == w.workers[ME := Idle];
  }

  ghost function ChargesAfter(w: World, plan: int, rows: set<int>): map<int, nat> {
    if ChargesPlan(w, plan, rows) then w.charges[plan := ChargesOf(w, plan) + 1] else w.charges
  }

  lemma ChargedIs(w: World, plan: int, rows: set<int>, n: World)
    requires w.workers == map[ME := Charging(plan, rows)]
    requires n == w.(db := ChargeAll(w.db, rows, w.limit), charges := ChargesAfter(w, plan, rows),
                     workers := map[ME := if Exhausted(w, rows) then FailCheck(plan) else Idle])
    ensures Enabled(w, Charge(ME)) && n == Next(w, Charge(ME))
  {
    NothingHeld(w);
    assert n.workers == w.workers[ME := if Exhausted(w, rows) then FailCheck(plan) else Idle];
  }

  lemma RetireUpdates(db: Tables, plan: int)
    requires plan in db.plans
    ensures Unbind(db.suggestions, plan) == MarkStale(db, plan).suggestions
    ensures FailBound(db.suggestions, plan) == FailPlan(db, plan).suggestions
  {
    var stale, failed := MarkStale(db, plan).suggestions, FailPlan(db, plan).suggestions;
    assert Unbind(db.suggestions, plan).Keys == stale.Keys && FailBound(db.suggestions, plan).Keys == failed.Keys;
    forall s | s in db.suggestions
      ensures Unbind(db.suggestions, plan)[s] == stale[s] && FailBound(db.suggestions, plan)[s] == failed[s] {}
  }

  lemma RetiredIs(w: World, plan: int, stale: bool, n: World)
    requires plan in w.db.plans && w.workers == map[ME := if stale then StaleWrite(plan) else FailWrite(plan)]
    requires n == w.(db := SetStatus(w.db, plan, if stale then Stale else Failed).(
                       suggestions := if stale then Unbind(w.db.suggestions, plan) else FailBound(w.db.suggestions, plan)),
                     workers := map[ME := Idle])
    ensures n.db == if stale then MarkStale(w.db, plan) else FailPlan(w.db, plan)
    ensures Enabled(w, Retire(ME)) && n == Next(w, Retire(ME))
  {
    NothingHeld(w);
    RetireUpdates(w.db, plan);
    assert n.workers == w.workers[ME := Idle];
  }

  lemma NothingHeld(w: World)
    requires w.workers.Keys == {ME} && !Holds(w.workers[ME])
    ensures forall s :: !RowHeld(w, s)
    ensures forall p :: !PlanHeld(w, p)
  {
  }

  function Items(art: Artifact): seq<ItemRef> {
    match ReadItems(art.items) case None => [] case Some(refs) => refs
  }
}
