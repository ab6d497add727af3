/** The plan and suggestion tables, and what each transaction does to them. */
module PublicationTables {
  import opened Prelude
  import opened PlanArtifact

  datatype PlanStatus = Prepared | Approved | Applied | Stale | Superseded | Failed

  datatype Plan = Plan(
    artifact: Artifact, status: PlanStatus, planHash: Digest, approvedHash: Option<Digest>)

  /** `Selected` is the column value 'approved': an editor wants the link, and nobody has
      seen the edit yet. `Linked` is 'applied' and `Quarantined` is 'failed'. */
  datatype SuggestionStatus = Pending | Selected | Rejected | Expired | Linked | Quarantined

  datatype Suggestion = Suggestion(
    sourceId: int, status: SuggestionStatus, planId: Option<int>, attempts: nat,
    outcome: Option<string>)

  datatype Tables = Tables(plans: map<int, Plan>, suggestions: map<int, Suggestion>)

  predicate Active(p: Plan) { p.status == Prepared || p.status == Approved }

  predicate Terminal(s: PlanStatus) { s == Applied || s == Stale || s == Superseded || s == Failed }

  predicate Bound(s: Suggestion, plan: int) { s.planId == Some(plan) }

  function BoundTo(db: Tables, plan: int): set<int> {
    set s | s in db.suggestions && Bound(db.suggestions[s], plan)
  }

  /** Selected and not yet part of an approved plan. */
  predicate Free(db: Tables, s: int) {
    s in db.suggestions && db.suggestions[s].status == Selected && db.suggestions[s].planId == None
  }

  function SetStatus(db: Tables, plan: int, status: PlanStatus): Tables
    requires plan in db.plans
  {
    db.(plans := db.plans[plan := db.plans[plan].(status := status)])
  }

  // ---- Preparation ----------------------------------------------------------

  datatype PrepareError = ApprovedPlanCovers | SelectionChanged | ConcurrentPreparation

  predicate OtherActive(db: Tables, sourceId: int, existing: Option<int>) {
    exists p :: p in db.plans && Active(db.plans[p]) && db.plans[p].artifact.sourceId == sourceId
                && existing != Some(p)
  }

  /** The end of `_prepare_one`. `existing` is the active plan its locked read found; an
      active plan it did not find makes the unique index refuse the insert. */
  function Prepare(db: Tables, hash: Hash, id: int, art: Artifact, wanted: set<int>, existing: Option<int>)
    : Result<Tables, PrepareError>
    requires existing.Some? ==> existing.value in db.plans
  {
    if existing.Some? && db.plans[existing.value].status == Approved then Err(ApprovedPlanCovers)
    else if exists s :: s in wanted && !Free(db, s) then Err(SelectionChanged)
    else if existing.Some? && db.plans[existing.value].planHash == hash(art) then Ok(db)
    else if OtherActive(db, art.sourceId, existing) then Err(ConcurrentPreparation)
    else
      var cleared := if existing.Some? then SetStatus(db, existing.value, Superseded) else db;
      Ok(cleared.(plans := cleared.plans[id := Plan(art, Prepared, hash(art), None)]))
  }

  // ---- Approval -------------------------------------------------------------

  /** One named plan is what the operator's screen showed. */
  predicate PlanApprovable(db: Tables, hash: Hash, siteId: int, plan: int, shown: Digest) {
    && plan in db.plans
    && db.plans[plan].artifact.siteId == siteId
    && db.plans[plan].status == Prepared
    && db.plans[plan].planHash == shown
    && Intact(hash, db.plans[plan].artifact, db.plans[plan].planHash, db.plans[plan].approvedHash)
    && ReadItems(db.plans[plan].artifact.items).Some?
  }

  predicate Approvable(db: Tables, hash: Hash, siteId: int, wanted: map<int, Digest>) {
    && wanted != map[]
    && (forall p :: p in wanted ==> PlanApprovable(db, hash, siteId, p, wanted[p]))
    && (forall p, s :: p in wanted && s in Listed(db.plans[p].artifact) ==> Free(db, s))
  }

  predicate Lists(db: Tables, p: int, s: int) { p in db.plans && s in Listed(db.plans[p].artifact) }

  function Listing(db: Tables, wanted: set<int>, s: int): set<int> {
    set p | p in wanted && Lists(db, p, s)
  }

  /** The plan a listed suggestion is bound to: the last named one that lists it. */
  ghost function Owner(db: Tables, wanted: set<int>, s: int): Option<int> {
    Greatest(Listing(db, wanted, s))
  }

  ghost function Bind(db: Tables, wanted: set<int>): Tables
    requires wanted <= db.plans.Keys
  {
    db.(
    plans := map p | p in db.plans ::
      if p in wanted
      then db.plans[p].(status := Approved, approvedHash := Some(db.plans[p].planHash))
      else db.plans[p],
    suggestions := map s | s in db.suggestions ::
      if Owner(db, wanted, s).Some?
      then db.suggestions[s].(planId := Owner(db, wanted, s))
      else db.suggestions[s])
  }

  // ---- Publication ----------------------------------------------------------

  /** `mark_stale`: the plan is retired and its suggestions go back to being selected. */
  function MarkStale(db: Tables, plan: int): Tables
    requires plan in db.plans
  {
    SetStatus(db, plan, Stale).(suggestions := map s | s in db.suggestions ::
      if Bound(db.suggestions[s], plan) then db.suggestions[s].(planId := None)
      else db.suggestions[s])
  }

  /** `_fail_plan`: the plan and its suggestions fail together, links kept for the audit. */
  function FailPlan(db: Tables, plan: int): Tables
    requires plan in db.plans
  {
    SetStatus(db, plan, Failed).(suggestions := map s | s in db.suggestions ::
      if Bound(db.suggestions[s], plan) then db.suggestions[s].(status := Quarantined)
      else db.suggestions[s])
  }

  predicate Charged(db: Tables, ids: set<int>, s: int) {
    s in ids && s in db.suggestions && db.suggestions[s].status == Selected
  }

  function ChargeOne(s: Suggestion, limit: nat): Suggestion {
    s.(attempts := s.attempts + 1,
       status := if s.attempts + 1 >= limit then Quarantined else s.status)
  }

  /** `_record_attempt_failure`. */
  function ChargeAll(db: Tables, ids: set<int>, limit: nat): Tables {
    db.(suggestions := map s | s in db.suggestions ::
      if Charged(db, ids, s) then ChargeOne(db.suggestions[s], limit) else db.suggestions[s])
  }

  /** How many rows that charge quarantines. */
  function QuarantinedBy(db: Tables, ids: set<int>, limit: nat): set<int> {
    set s | s in db.suggestions && Charged(db, ids, s) && db.suggestions[s].attempts + 1 >= limit
  }

  /** `record_publication_applied` for one listed row, when that row was locked. */
  function LinkOne(suggestions: map<int, Suggestion>, rows: set<int>, item: ItemRef): map<int, Suggestion> {
    if item.suggestionId in rows && item.suggestionId in suggestions then
      suggestions[item.suggestionId :=
        suggestions[item.suggestionId].(status := Linked, attempts := 0, outcome := Some(item.outcome))]
    else suggestions
  }

  function LinkAll(suggestions: map<int, Suggestion>, rows: set<int>, items: seq<ItemRef>)
    : (r: map<int, Suggestion>)
    ensures r.Keys == suggestions.Keys
    decreases |items|
  {
    if items == [] then suggestions
    else LinkOne(LinkAll(suggestions, rows, items[..|items| - 1]), rows, items[|items| - 1])
  }

  /** The commit of a written plan: every listed row that is present gets its outcome. */
  function Apply(db: Tables, plan: int, rows: set<int>, items: seq<ItemRef>): Tables
    requires plan in db.plans
  {
    SetStatus(db, plan, Applied).(suggestions := LinkAll(db.suggestions, rows, items))
  }

  /** Item `i` is the last of the list that names this suggestion. */
  predicate LastNaming(items: seq<ItemRef>, s: int, i: int) {
    0 <= i < |items| && items[i].suggestionId == s && forall j :: i < j < |items| ==> items[j].suggestionId != s
  }

  /** The outcome recorded for a suggestion: that of the last item that names it. */
  function LastOutcome(items: seq<ItemRef>, s: int): (r: Option<string>)
    ensures r.None? <==> forall i :: 0 <= i < |items| ==> items[i].suggestionId != s
    ensures r.Some? ==> exists i :: LastNaming(items, s, i) && r == Some(items[i].outcome)
  {
    if items == [] then None else
      var n := |items| - 1;
      assert items[n].suggestionId == s ==> LastNaming(items, s, n);
      assert forall i :: LastNaming(items[..n], s, i) && items[n].suggestionId != s ==> LastNaming(items, s, i);
      if items[n].suggestionId == s then Some(items[n].outcome) else LastOutcome(items[..n], s)
  }

  /** A row that is listed and locked is marked linked, with that outcome; every other row
      stays as it is. */
  lemma {:induction false} LinkAllRow(suggestions: map<int, Suggestion>, rows: set<int>, items: seq<ItemRef>, s: int)
    requires s in suggestions
    ensures LinkAll(suggestions, rows, items)[s] ==
      if s in rows && LastOutcome(items, s).Some?
      then suggestions[s].(status := Linked, attempts := 0, outcome := LastOutcome(items, s))
      else suggestions[s]
    decreases |items|
  {
    if items != [] { LinkAllRow(suggestions, rows, items[..|items| - 1], s); }
  }

  /** Any crawl or policy update: pending and selected rows may expire. */
  function Expire(db: Tables, ids: set<int>): Tables {
    db.(suggestions := map s | s in db.suggestions ::
      if s in ids && (db.suggestions[s].status == Pending || db.suggestions[s].status == Selected)
      then db.suggestions[s].(status := Expired) else db.suggestions[s])
  }

  /** A decision in the suggestion queue: the failure history and any surviving plan link are cleared. */
  function Review(db: Tables, s: int, status: SuggestionStatus): Tables
    requires s in db.suggestions
  {
    db.(suggestions := db.suggestions[s :=
      db.suggestions[s].(status := status, attempts := 0, planId := None)])
  }
}
