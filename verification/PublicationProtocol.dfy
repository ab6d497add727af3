/** Preparation, approval, any number of publication workers, decisions in the suggestion
    queue, crawls and outside edits, one committed transaction or one remote request at a
    time.

    A worker holds the article's advisory lock and its row locks from `Lock` until it
    commits, rolls back or dies. Retiring a plan happens after the rollback: the status is
    read without a row lock (`CheckStatus`) and written by a later transaction (`Retire`). */
module PublicationProtocol {
  import opened Prelude
  import opened PlanArtifact
  import opened PublicationTables

  datatype Phase =
    | Idle
    | Holding(plan: int, art: Artifact, rows: set<int>)
    | Ready(plan: int, art: Artifact, rows: set<int>, read: string)
    | Written(plan: int, art: Artifact, rows: set<int>)
    | Charging(plan: int, rows: set<int>)
    | StaleCheck(plan: int)
    | StaleWrite(plan: int)
    | FailCheck(plan: int)
    | FailWrite(plan: int)

  /** One POST: what the worker had read, what it sent, and whether the site stored it. */
  datatype Post = Post(plan: int, article: int, read: string, body: string, landed: bool)

  /** `signed` and `charges` are history: the artifact each approval named, and how many
      failed attempts each plan has been charged with. */
  datatype World = World(
    db: Tables, live: map<int, string>, workers: map<int, Phase>, limit: nat, hash: Hash,
    signed: map<int, Artifact>, posts: seq<Post>, charges: map<int, nat>)

  datatype Step =
    | ReviewStep(s: int, status: SuggestionStatus)
    | ExpireStep(ids: set<int>)
    | OutsideEdit(article: int, html: string)
    | Tamper(plan: int, art: Artifact, planHash: Digest)
    | PrepareStep(plan: int, art: Artifact, wanted: set<int>, existing: Option<int>)
    | ApproveStep(siteId: int, shown: map<int, Digest>)
    | Lock(k: int, plan: int)
    | ReadPost(k: int)
    | PostOk(k: int)
    | ConnectorError(k: int, landed: bool)
    | Commit(k: int)
    | Abort(k: int)
    | Charge(k: int)
    | CheckStatus(k: int)
    | Retire(k: int)

  predicate Holds(ph: Phase) { ph.Holding? || ph.Ready? || ph.Written? }

  predicate RowHeld(w: World, s: int) {
    exists k :: k in w.workers && Holds(w.workers[k]) && s in w.workers[k].rows
  }

  predicate PlanHeld(w: World, p: int) {
    exists k :: k in w.workers && Holds(w.workers[k]) && w.workers[k].plan == p
  }

  /** Somebody's advisory lock on the source article. */
  predicate ArticleHeld(w: World, article: int) {
    exists k :: k in w.workers && Holds(w.workers[k]) && w.workers[k].art.sourceId == article
  }

  function ChargesOf(w: World, p: int): nat { if p in w.charges then w.charges[p] else 0 }

  function SetPhase(w: World, k: int, ph: Phase): World { w.(workers := w.workers[k := ph]) }

  // ---- The environment ------------------------------------------------------

  predicate ReviewEnabled(w: World, s: int, status: SuggestionStatus) {
    && s in w.db.suggestions && !RowHeld(w, s)
    && w.db.suggestions[s].status !in {Linked, Expired}
    && status in {Pending, Selected, Rejected}
  }

  /** An UPDATE that rewrites a stored artifact and its own hash column. */
  ghost predicate TamperEnabled(w: World, p: int, art: Artifact) {
    && p in w.db.plans && !PlanHeld(w, p) && Storable(art)
    && art.siteId == w.db.plans[p].artifact.siteId
    && art.sourceId == w.db.plans[p].artifact.sourceId
  }

  ghost predicate PrepareEnabled(w: World, p: int, art: Artifact, wanted: set<int>, existing: Option<int>) {
    && p !in w.db.plans && Storable(art)
    && (existing.Some? ==>
          && existing.value in w.db.plans && Active(w.db.plans[existing.value])
          && w.db.plans[existing.value].artifact.sourceId == art.sourceId)
    && Prepare(w.db, w.hash, p, art, wanted, existing).Ok?
    && wanted == Listed(art)
    && (forall s :: s in wanted ==> s in w.db.suggestions && w.db.suggestions[s].sourceId == art.sourceId)
  }

  ghost function ApproveNext(w: World, shown: map<int, Digest>): World
    requires shown.Keys <= w.db.plans.Keys
  {
    w.(db := Bind(w.db, shown.Keys),
       signed := map p | p in w.signed.Keys + shown.Keys ::
         if p in shown then w.db.plans[p].artifact else w.signed[p])
  }

  // ---- A worker -------------------------------------------------------------

  /** What the worker decides once it holds the article lock, the plan row and its
      suggestions. */
  function AfterLock(w: World, plan: int): Phase {
    if plan !in w.db.plans || w.db.plans[plan].status != Approved then Idle else
      var p := w.db.plans[plan];
      var rows := BoundTo(w.db, plan);
      if exists s :: s in rows && w.db.suggestions[s].status != Selected then StaleCheck(plan)
      else if !Intact(w.hash, p.artifact, p.planHash, p.approvedHash) || p.artifact.sourceId !in w.live
      then FailCheck(plan)
      else Holding(plan, p.artifact, rows)
  }

  predicate LockEnabled(w: World, k: int, plan: int) {
    && k in w.workers && w.workers[k].Idle?
    && (plan in w.db.plans ==> !ArticleHeld(w, w.db.plans[plan].artifact.sourceId))
  }

  /** `apply_planned_edit` up to its decision. */
  function AfterRead(ph: Phase, live: string): Phase
    requires ph.Holding?
  {
    if live == ph.art.updatedHtml then Written(ph.plan, ph.art, ph.rows)
    else if live != ph.art.originalHtml then StaleCheck(ph.plan)
    else Ready(ph.plan, ph.art, ph.rows, live)
  }

  /** One POST of the approved body by the worker that is ready to send it. */
  function Send(w: World, k: int, landed: bool): World
    requires k in w.workers && w.workers[k].Ready?
  {
    var ph := w.workers[k];
    w.(live := if landed then w.live[ph.art.sourceId := ph.art.updatedHtml] else w.live,
       posts := w.posts + [Post(ph.plan, ph.art.sourceId, ph.read, ph.art.updatedHtml, landed)])
  }

  predicate ChargeEnabled(w: World, k: int) {
    && k in w.workers && w.workers[k].Charging?
    && (forall s :: s in w.workers[k].rows ==> !RowHeld(w, s))
  }

  /** Whether this charge counts against the plan: it reaches one of its own rows. */
  predicate ChargesPlan(w: World, plan: int, rows: set<int>) {
    exists s :: s in rows && Charged(w.db, rows, s) && Bound(w.db.suggestions[s], plan)
  }

  predicate Exhausted(w: World, rows: set<int>) {
    rows != {} && |QuarantinedBy(w.db, rows, w.limit)| >= |rows|
  }

  function ChargeNext(w: World, k: int): World
    requires ChargeEnabled(w, k)
  {
    var ph := w.workers[k];
    w.(db := ChargeAll(w.db, ph.rows, w.limit),
       charges := if ChargesPlan(w, ph.plan, ph.rows)
                  then w.charges[ph.plan := ChargesOf(w, ph.plan) + 1] else w.charges,
       workers := w.workers[k := if Exhausted(w, ph.rows) then FailCheck(ph.plan) else Idle])
  }

  function AfterCheck(w: World, ph: Phase): Phase
    requires ph.StaleCheck? || ph.FailCheck?
  {
    if ph.plan in w.db.plans && w.db.plans[ph.plan].status == Approved
    then if ph.StaleCheck? then StaleWrite(ph.plan) else FailWrite(ph.plan)
    else Idle
  }

  predicate Writing(ph: Phase) { ph.StaleWrite? || ph.FailWrite? }

  predicate RetireEnabled(w: World, k: int) {
    && k in w.workers && Writing(w.workers[k])
    && w.workers[k].plan in w.db.plans && !PlanHeld(w, w.workers[k].plan)
  }

  function RetireNext(w: World, k: int): World
    requires RetireEnabled(w, k)
  {
    var p := w.workers[k].plan;
    w.(db := if w.workers[k].StaleWrite? then MarkStale(w.db, p) else FailPlan(w.db, p),
       workers := w.workers[k := Idle])
  }

  predicate CommitEnabled(w: World, k: int) {
    && k in w.workers && w.workers[k].Written? && w.workers[k].plan in w.db.plans
    && ReadItems(w.workers[k].art.items).Some?
  }

  function CommitNext(w: World, k: int): World
    requires CommitEnabled(w, k)
  {
    var ph := w.workers[k];
    w.(db := Apply(w.db, ph.plan, ph.rows, ReadItems(ph.art.items).value),
       workers := w.workers[k := Idle])
  }

  // ---- Runs -----------------------------------------------------------------

  ghost predicate Enabled(w: World, st: Step) {
    match st
    case ReviewStep(s, status) => ReviewEnabled(w, s, status)
    case ExpireStep(ids) => forall s :: s in ids ==> !RowHeld(w, s)
    case OutsideEdit(article, _) => article in w.live
    case Tamper(p, art, _) => TamperEnabled(w, p, art)
    case PrepareStep(p, art, wanted, existing) => PrepareEnabled(w, p, art, wanted, existing)
    case ApproveStep(siteId, shown) => Approvable(w.db, w.hash, siteId, shown)
    case Lock(k, plan) => LockEnabled(w, k, plan)
    case ReadPost(k) => k in w.workers && w.workers[k].Holding? && w.workers[k].art.sourceId in w.live
    case PostOk(k) => k in w.workers && w.workers[k].Ready?
    case ConnectorError(k, landed) =>
      k in w.workers && (w.workers[k].Ready? || (w.workers[k].Holding? && !landed))
    case Commit(k) => CommitEnabled(w, k)
    case Abort(k) => k in w.workers
    case Charge(k) => ChargeEnabled(w, k)
    case CheckStatus(k) => k in w.workers && (w.workers[k].StaleCheck? || w.workers[k].FailCheck?)
    case Retire(k) => RetireEnabled(w, k)
  }

  ghost function Next(w: World, st: Step): World
    requires Enabled(w, st)
  {
    match st
    case ReviewStep(s, status) => w.(db := Review(w.db, s, status))
    case ExpireStep(ids) => w.(db := Expire(w.db, ids))
    case OutsideEdit(article, html) => w.(live := w.live[article := html])
    case Tamper(p, art, planHash) =>
      w.(db := w.db.(plans := w.db.plans[p := w.db.plans[p].(artifact := art, planHash := planHash)]))
    case PrepareStep(p, art, wanted, existing) => w.(db := Prepare(w.db, w.hash, p, art, wanted, existing).value)
    case ApproveStep(_, shown) =>
      assert forall p :: p in shown ==> p in w.db.plans;
      ApproveNext(w, shown)
    case Lock(k, plan) => SetPhase(w, k, AfterLock(w, plan))
    case ReadPost(k) => SetPhase(w, k, AfterRead(w.workers[k], w.live[w.workers[k].art.sourceId]))
    case PostOk(k) =>
      SetPhase(Send(w, k, true), k, Written(w.workers[k].plan, w.workers[k].art, w.workers[k].rows))
    case ConnectorError(k, landed) =>
      var tried := if w.workers[k].Ready? then Send(w, k, landed) else w;
      SetPhase(tried, k, Charging(w.workers[k].plan, w.workers[k].rows))
    case Commit(k) => CommitNext(w, k)
    case Abort(k) => SetPhase(w, k, Idle)
    case Charge(k) => ChargeNext(w, k)
    case CheckStatus(k) => SetPhase(w, k, AfterCheck(w, w.workers[k]))
    case Retire(k) => RetireNext(w, k)
  }

  ghost predicate Runs(w: World, steps: seq<Step>)
    decreases |steps|
  {
    steps == [] || (Enabled(w, steps[0]) && Runs(Next(w, steps[0]), steps[1..]))
  }

  ghost function End(w: World, steps: seq<Step>): World
    requires Runs(w, steps)
    decreases |steps|
  {
    if steps == [] then w else End(Next(w, steps[0]), steps[1..])
  }

  lemma {:induction false} RunOneMore(w: World, steps: seq<Step>, st: Step)
    requires Runs(w, steps) && Enabled(End(w, steps), st)
    ensures Runs(w, steps + [st]) && End(w, steps + [st]) == Next(End(w, steps), st)
    decreases |steps|
  {
    if steps == [] {
      assert (steps + [st])[1..] == [];
      assert steps + [st] == [st];
      assert Runs(Next(w, st), []);
    } else {
      RunOneMore(Next(w, steps[0]), steps[1..], st);
      assert (steps + [st])[1..] == steps[1..] + [st];
    }
  }

  /** No plans yet, nothing in flight, and suggestions nobody has published. */
  ghost predicate Init(w: World) {
    && w.db.plans == map[] && w.signed == map[] && w.posts == [] && w.charges == map[]
    && w.limit >= 1 && CollisionFree(w.hash)
    && (forall k :: k in w.workers ==> w.workers[k] == Idle)
    && (forall s :: s in w.db.suggestions ==>
          && w.db.suggestions[s].planId == None && w.db.suggestions[s].attempts == 0
          && w.db.suggestions[s].status in {Pending, Selected, Rejected, Expired})
  }
}
