/** The promises of immutable publication, over every run and every interleaving. */
module PublicationSafety {
  import opened Prelude
  import opened PlanArtifact
  import opened PublicationTables
  import opened PublicationProtocol
  import opened PublicationInvariant

  lemma ReachableInv(w0: World, steps: seq<Step>)
    requires Init(w0) && Runs(w0, steps)
    ensures Inv(End(w0, steps))
  {
    InitInv(w0);
    KeepRun(w0, steps);
  }

  // ---- What a step may change -----------------------------------------------

  /** How one step may move one plan. */
  predicate MayMove(w: World, st: Step, p: int, was: PlanStatus, now: PlanStatus) {
    || now == was
    || (st.PrepareStep? && was == Prepared && now == Superseded)
    || (st.ApproveStep? && p in st.shown && was == Prepared && now == Approved)
    || (st.Commit? && st.k in w.workers && w.workers[st.k].Written? && w.workers[st.k].plan == p
        && was == Approved && now == Applied)
    || (st.Retire? && RetireEnabled(w, st.k) && w.workers[st.k].plan == p
        && now == if w.workers[st.k].StaleWrite? then Stale else Failed)
  }

  ghost predicate PlanEffects(w: World, st: Step, n: World) {
    && (forall p :: p in w.db.plans ==>
          && p in n.db.plans
          && n.db.plans[p].artifact.sourceId == w.db.plans[p].artifact.sourceId
          && (!st.Tamper? ==> n.db.plans[p].artifact == w.db.plans[p].artifact)
          && MayMove(w, st, p, w.db.plans[p].status, n.db.plans[p].status))
    && (forall p :: p in n.db.plans && p !in w.db.plans ==>
          st.PrepareStep? && p == st.plan && n.db.plans[p].artifact == st.art
          && n.db.plans[p].status == Prepared && st.wanted == Listed(st.art))
  }

  lemma ApproveEffects(w: World, st: Step)
    requires Inv(w) && Enabled(w, st) && st.ApproveStep?
    ensures PlanEffects(w, st, Next(w, st))
  {
    ApproveChanges(w.hash, w.db, st.siteId, st.shown);
  }

  lemma PrepareEffects(w: World, st: Step)
    requires Inv(w) && Enabled(w, st) && st.PrepareStep?
    ensures PlanEffects(w, st, Next(w, st))
  {
    PrepareChanges(w, st.plan, st.art, st.wanted, st.existing);
  }

  lemma CommitEffects(w: World, st: Step)
    requires Inv(w) && Enabled(w, st) && st.Commit?
    ensures PlanEffects(w, st, Next(w, st))
  {
    assert HolderOk(w.hash, w.db, w.signed, w.workers[st.k]);
  }

  lemma RetireEffects(w: World, st: Step)
    requires Inv(w) && Enabled(w, st) && st.Retire?
    ensures PlanEffects(w, st, Next(w, st))
  {
    RetireChanges(w, st.k);
  }

  lemma StepEffects(w: World, st: Step)
    requires Inv(w) && Enabled(w, st)
    ensures PlanEffects(w, st, Next(w, st))
  {
    match st
    case ApproveStep(_, _) => ApproveEffects(w, st);
    case PrepareStep(_, _, _, _) => PrepareEffects(w, st);
    case Commit(_) => CommitEffects(w, st);
    case Retire(_) => RetireEffects(w, st);
    case _ => OtherEffects(w, st);
  }

  lemma OtherEffects(w: World, st: Step)
    requires Inv(w) && Enabled(w, st) && !st.ApproveStep? && !st.PrepareStep? && !st.Commit? && !st.Retire?
    ensures PlanEffects(w, st, Next(w, st))
  {
  }

  // ---- What is sent ---------------------------------------------------------

  /** The only step that sends anything sends the stored body of an approved plan whose
      artifact still hashes to the approved hash, over what that worker read. */
  lemma EveryPostIsApproved(w0: World, steps: seq<Step>, st: Step)
    requires Init(w0) && Runs(w0, steps) && Enabled(End(w0, steps), st)
    ensures var w, n := End(w0, steps), Next(End(w0, steps), st);
            n.posts == w.posts ||
            (exists k, e ::
               && k in w.workers && w.workers[k].Ready? && n.posts == w.posts + [e]
               && e.plan == w.workers[k].plan && e.plan in w.db.plans && e.plan in w.signed
               && (var p := w.db.plans[e.plan];
                   && p.status == Approved
                   && p.approvedHash == Some(w.hash(w.signed[e.plan]))
                   && Intact(w.hash, p.artifact, p.planHash, p.approvedHash)
                   && e.body == p.artifact.updatedHtml == w.signed[e.plan].updatedHtml
                   && e.read == p.artifact.originalHtml == w.workers[k].read))
  {
    var w, n := End(w0, steps), Next(End(w0, steps), st);
    ReachableInv(w0, steps);
    if n.posts != w.posts {
      var k := st.k;
      assert HolderOk(w.hash, w.db, w.signed, w.workers[k]);
      var e := n.posts[|w.posts|];
      assert n.posts == w.posts + [e];
    }
  }

  /** Every POST ever made, by any worker, was the signed body over the signed original. */
  lemma EveryPostWasSigned(w0: World, steps: seq<Step>, i: nat)
    requires Init(w0) && Runs(w0, steps) && i < |End(w0, steps).posts|
    ensures PostOf(End(w0, steps).posts[i], End(w0, steps).signed)
  {
    ReachableInv(w0, steps);
  }

  /** What is signed is what the operator's screen showed, and no later step, not even a
      rewritten row, changes it. */
  lemma SignedForGood(w: World, st: Step)
    requires Inv(w) && Enabled(w, st)
    ensures forall p :: p in w.signed ==> p in Next(w, st).signed && Next(w, st).signed[p] == w.signed[p]
    ensures forall p :: p in Next(w, st).signed && p !in w.signed ==>
              st.ApproveStep? && p in st.shown && w.hash(Next(w, st).signed[p]) == st.shown[p]
  {
    forall p | st.ApproveStep? && p in st.shown
      ensures p !in w.signed && w.hash(w.db.plans[p].artifact) == st.shown[p]
    {
      assert PlanApprovable(w.db, w.hash, st.siteId, p, st.shown[p]);
    }
  }

  /** The artifact an approval binds is the only one with the hash that was shown. */
  lemma ApprovalNamesOneArtifact(w: World, st: Step, p: int, a: Artifact)
    requires Inv(w) && Enabled(w, st) && st.ApproveStep? && p in st.shown && Storable(a)
    ensures p in Next(w, st).signed
    ensures w.hash(a) == st.shown[p] <==> a == Next(w, st).signed[p]
  {
    assert PlanApprovable(w.db, w.hash, st.siteId, p, st.shown[p]);
  }

  /** Without a rewritten row, no step changes an artifact. */
  lemma ArtifactsNeverChange(w: World, st: Step, p: int)
    requires Inv(w) && Enabled(w, st) && !st.Tamper? && p in w.db.plans
    ensures p in Next(w, st).db.plans && Next(w, st).db.plans[p].artifact == w.db.plans[p].artifact
  {
    StepEffects(w, st);
  }

  // ---- How often ------------------------------------------------------------

  /** The POSTs of one plan that the site stored. */
  function Landed(posts: seq<Post>, p: int): nat {
    if posts == [] then 0
    else Landed(posts[..|posts| - 1], p) + if posts[|posts| - 1].plan == p && posts[|posts| - 1].landed then 1 else 0
  }

  lemma {:induction false} LandedNone(posts: seq<Post>, p: int)
    requires forall i :: 0 <= i < |posts| ==> posts[i].plan != p
    ensures Landed(posts, p) == 0
  {
    if posts != [] { LandedNone(posts[..|posts| - 1], p); }
  }

  /** The state of one article that nobody else edits. */
  ghost predicate QuietOk(w: World, a: int) {
    && (forall k | k in w.workers && w.workers[k].Ready? && w.workers[k].art.sourceId == a ::
          a in w.live && w.live[a] == w.workers[k].read)
    && (forall k | k in w.workers && w.workers[k].Written? && w.workers[k].art.sourceId == a ::
          a in w.live && w.live[a] == w.workers[k].art.updatedHtml)
    && (forall p | p in w.signed && w.signed[p].sourceId == a :: Landed(w.posts, p) <= 1)
    && (forall p | p in w.signed && w.signed[p].sourceId == a && p in w.db.plans
                   && w.db.plans[p].status == Approved && Landed(w.posts, p) == 1 ::
          a in w.live && w.live[a] == w.signed[p].updatedHtml)
  }

  predicate Edits(st: Step, a: int) { st.OutsideEdit? && st.article == a }

  predicate Untouched(steps: seq<Step>, a: int) {
    steps == [] || (!Edits(steps[0], a) && Untouched(steps[1..], a))
  }

  lemma SendQuiet(w: World, k: int, landed: bool, a: int)
    requires Inv(w) && QuietOk(w, a) && k in w.workers && w.workers[k].Ready?
    ensures var n := Send(w, k, landed);
            && (forall p | p in w.signed && w.signed[p].sourceId == a :: Landed(n.posts, p) <= 1)
            && (forall p | p in w.signed && w.signed[p].sourceId == a && p in w.db.plans
                           && w.db.plans[p].status == Approved && Landed(n.posts, p) == 1 ::
                  a in n.live && n.live[a] == w.signed[p].updatedHtml)
  {
    var n := Send(w, k, landed);
    var ph := w.workers[k];
    assert HolderOk(w.hash, w.db, w.signed, ph);
    assert n.posts[..|n.posts| - 1] == w.posts;
    forall p | p in w.signed && w.signed[p].sourceId == a
      ensures Landed(n.posts, p) <= 1
      ensures p in w.db.plans && w.db.plans[p].status == Approved && Landed(n.posts, p) == 1 ==>
                a in n.live && n.live[a] == w.signed[p].updatedHtml
    {
      if p in w.db.plans && w.db.plans[p].status == Approved && ph.art.sourceId == a {
        assert Active(w.db.plans[p]) && Active(w.db.plans[ph.plan]);
        assert p == ph.plan;
      }
    }
  }

  lemma SendElsewhere(w: World, k: int, landed: bool, l: int)
    requires Inv(w) && k in w.workers && w.workers[k].Ready? && l in w.workers && l != k && Holds(w.workers[l])
    ensures w.workers[l].art.sourceId in w.live ==>
              && w.workers[l].art.sourceId in Send(w, k, landed).live
              && Send(w, k, landed).live[w.workers[l].art.sourceId] == w.live[w.workers[l].art.sourceId]
  {
    assert w.workers[l].art.sourceId != w.workers[k].art.sourceId;
  }

  lemma KeepQuietSend(w: World, k: int, landed: bool, ph: Phase, a: int)
    requires Inv(w) && QuietOk(w, a) && k in w.workers && w.workers[k].Ready?
    requires ph.Charging? || (ph.Written? && landed && ph.art == w.workers[k].art)
    ensures QuietOk(SetPhase(Send(w, k, landed), k, ph), a)
  {
    SendQuiet(w, k, landed, a);
    forall l | l in w.workers && l != k && Holds(w.workers[l]) { SendElsewhere(w, k, landed, l); }
  }

  lemma NewlySignedUnsent(w: World, st: Step, p: int)
    requires Inv(w) && Enabled(w, st) && p in Next(w, st).signed && p !in w.signed
    ensures Landed(w.posts, p) == 0
  {
    forall i | 0 <= i < |w.posts| ensures w.posts[i].plan != p { assert PostOf(w.posts[i], w.signed); }
    LandedNone(w.posts, p);
  }

  /** A change that sends nothing, approves nothing twice and leaves the article alone. */
  ghost predicate QuietChange(w: World, n: World, a: int) {
    && n.posts == w.posts
    && (a in w.live ==> a in n.live && n.live[a] == w.live[a])
    && (forall p :: p in n.signed ==>
          (p in w.signed && n.signed[p] == w.signed[p]) || Landed(w.posts, p) == 0)
    && (forall p | p in w.signed && p in n.db.plans && n.db.plans[p].status == Approved ::
          p in w.db.plans && w.db.plans[p].status == Approved)
    && (forall k | k in n.workers && (n.workers[k].Ready? || n.workers[k].Written?) && n.workers[k].art.sourceId == a ::
          (k in w.workers && n.workers[k] == w.workers[k]) ||
          (a in w.live && w.live[a] == if n.workers[k].Ready? then n.workers[k].read else n.workers[k].art.updatedHtml))
  }

  lemma QuietFrame(w: World, n: World, a: int)
    requires QuietOk(w, a) && QuietChange(w, n, a)
    ensures QuietOk(n, a)
  {
  }

  predicate Quietly(w: World, st: Step, a: int)
    requires Enabled(w, st)
  {
    !Edits(st, a) && !st.PostOk? && (st.ConnectorError? ==> !w.workers[st.k].Ready?)
  }

  lemma OtherStepsSendNothing(w: World, st: Step, a: int)
    requires Enabled(w, st) && Quietly(w, st, a)
    ensures Next(w, st).posts == w.posts
    ensures a in w.live ==> a in Next(w, st).live && Next(w, st).live[a] == w.live[a]
  {
  }

  lemma OtherStepsReadNothingElse(w: World, st: Step, a: int, k: int)
    requires Enabled(w, st) && Quietly(w, st, a) && k in Next(w, st).workers
    requires var ph := Next(w, st).workers[k]; (ph.Ready? || ph.Written?) && ph.art.sourceId == a
    ensures k in w.workers
    ensures var ph := Next(w, st).workers[k];
            ph == w.workers[k] ||
            (a in w.live && w.live[a] == if ph.Ready? then ph.read else ph.art.updatedHtml)
  {
  }

  lemma SignedWasApproved(w: World, st: Step, p: int)
    requires Inv(w) && Enabled(w, st) && p in w.signed
    requires p in Next(w, st).db.plans && Next(w, st).db.plans[p].status == Approved
    ensures p in w.db.plans && w.db.plans[p].status == Approved
  {
    StepEffects(w, st);
  }

  lemma OtherStepsAreQuiet(w: World, st: Step, a: int)
    requires Inv(w) && Enabled(w, st) && Quietly(w, st, a)
    ensures QuietChange(w, Next(w, st), a)
  {
    var n := Next(w, st);
    OtherStepsSendNothing(w, st, a);
    SignedForGood(w, st);
    forall p | p in n.signed && p !in w.signed ensures Landed(w.posts, p) == 0 { NewlySignedUnsent(w, st, p); }
    forall p | p in w.signed && p in n.db.plans && n.db.plans[p].status == Approved
      ensures p in w.db.plans && w.db.plans[p].status == Approved
    {
      SignedWasApproved(w, st, p);
    }
    forall k | k in n.workers && (n.workers[k].Ready? || n.workers[k].Written?) && n.workers[k].art.sourceId == a
      ensures (k in w.workers && n.workers[k] == w.workers[k]) ||
              (a in w.live && w.live[a] == if n.workers[k].Ready? then n.workers[k].read else n.workers[k].art.updatedHtml)
    {
      OtherStepsReadNothingElse(w, st, a, k);
    }
  }

  lemma KeepQuiet(w: World, st: Step, a: int)
    requires Inv(w) && QuietOk(w, a) && Enabled(w, st) && !Edits(st, a)
    ensures QuietOk(Next(w, st), a)
  {
    if st.PostOk? {
      var ph := w.workers[st.k];
      KeepQuietSend(w, st.k, true, Written(ph.plan, ph.art, ph.rows), a);
    } else if st.ConnectorError? && w.workers[st.k].Ready? {
      KeepQuietSend(w, st.k, st.landed, Charging(w.workers[st.k].plan, w.workers[st.k].rows), a);
    } else {
      OtherStepsAreQuiet(w, st, a);
      QuietFrame(w, Next(w, st), a);
    }
  }

  /** If nobody else edits the article, each of its plans changes it at most once, over any
      crashes, failed commits, lost replies, retries and number of workers. */
  lemma {:induction false} QuietRun(w0: World, steps: seq<Step>, a: int)
    requires Inv(w0) && QuietOk(w0, a) && Runs(w0, steps) && Untouched(steps, a)
    ensures QuietOk(End(w0, steps), a)
    decreases |steps|
  {
    if steps != [] {
      KeepStep(w0, steps[0]);
      KeepQuiet(w0, steps[0], a);
      QuietRun(Next(w0, steps[0]), steps[1..], a);
    }
  }

  lemma AtMostOneWrite(w0: World, steps: seq<Step>, p: int)
    requires Init(w0) && Runs(w0, steps) && p in End(w0, steps).signed
    requires Untouched(steps, End(w0, steps).signed[p].sourceId)
    ensures Landed(End(w0, steps).posts, p) <= 1
  {
    InitInv(w0);
    QuietRun(w0, steps, End(w0, steps).signed[p].sourceId);
  }

  /** ... and a plan that becomes applied has its approved content live at that moment. */
  lemma AppliedIsLive(w0: World, steps: seq<Step>, k: int)
    requires Init(w0) && Runs(w0, steps) && CommitEnabled(End(w0, steps), k)
    requires Untouched(steps, End(w0, steps).workers[k].art.sourceId)
    ensures var w := End(w0, steps);
            var n, p := Next(w, Commit(k)), w.workers[k].plan;
            && p in n.db.plans && n.db.plans[p].status == Applied
            && p in w.signed && n.db.plans[p].artifact == w.signed[p]
            && w.signed[p].sourceId in n.live
            && n.live[w.signed[p].sourceId] == w.signed[p].updatedHtml
  {
    InitInv(w0);
    ReachableInv(w0, steps);
    var w := End(w0, steps);
    QuietRun(w0, steps, w.workers[k].art.sourceId);
    assert HolderOk(w.hash, w.db, w.signed, w.workers[k]);
  }

  // ---- Endings --------------------------------------------------------------

  /** A retiring write that lands on a plan another worker ended differently meanwhile. */
  predicate Overwrites(w: World, st: Step) {
    && st.Retire? && RetireEnabled(w, st.k)
    && Terminal(w.db.plans[w.workers[st.k].plan].status)
    && w.db.plans[w.workers[st.k].plan].status != if w.workers[st.k].StaleWrite? then Stale else Failed
  }

  ghost predicate KeepsEndings(w: World, n: World) {
    forall p :: p in w.db.plans && Terminal(w.db.plans[p].status) ==>
      p in n.db.plans && n.db.plans[p].status == w.db.plans[p].status
  }

  /** Terminal statuses are absorbing exactly when no retiring write finds the plan already
      ended: the status was read without a lock and is not compared again. */
  lemma EndingsAreFinal(w: World, st: Step)
    requires Inv(w) && Enabled(w, st)
    ensures KeepsEndings(w, Next(w, st)) <==> !Overwrites(w, st)
  {
    StepEffects(w, st);
    if Overwrites(w, st) {
      RetireChanges(w, st.k);
      var p := w.workers[st.k].plan;
      assert Terminal(w.db.plans[p].status) && Next(w, st).db.plans[p].status != w.db.plans[p].status;
    }
  }

  /** A plan never becomes publishable again once it has stopped being so. */
  lemma NeverApprovedAgain(w: World, st: Step, p: int)
    requires Inv(w) && Enabled(w, st) && p in w.db.plans
    requires w.db.plans[p].status != Prepared && w.db.plans[p].status != Approved
    ensures p in Next(w, st).db.plans && !Active(Next(w, st).db.plans[p])
  {
    StepEffects(w, st);
  }

  /** A link recorded as written belongs to an applied plan. */
  ghost predicate LinkedOk(w: World) {
    forall s :: s in w.db.suggestions && w.db.suggestions[s].status == Linked ==>
      && w.db.suggestions[s].planId.Some?
      && w.db.suggestions[s].planId.value in w.db.plans
      && w.db.plans[w.db.suggestions[s].planId.value].status == Applied
  }

  /** A step that is neither a commit nor a retirement creates no written link and unbinds
      none. */
  ghost predicate LinksKept(w: World, n: World) {
    forall s :: s in n.db.suggestions && n.db.suggestions[s].status == Linked ==>
      && s in w.db.suggestions && w.db.suggestions[s].status == Linked
      && n.db.suggestions[s].planId == w.db.suggestions[s].planId
  }

  lemma ApprovalKeepsLinks(w: World, siteId: int, shown: map<int, Digest>)
    requires Inv(w) && Enabled(w, ApproveStep(siteId, shown))
    ensures LinksKept(w, Next(w, ApproveStep(siteId, shown)))
  {
    ApproveChanges(w.hash, w.db, siteId, shown);
    forall s | s in w.db.suggestions ensures Rebound(w.db, Next(w, ApproveStep(siteId, shown)).db, shown.Keys, s) {}
  }

  lemma OtherStepsKeepLinks(w: World, st: Step)
    requires Inv(w) && Enabled(w, st) && !st.Commit? && !st.Retire?
    ensures LinksKept(w, Next(w, st))
  {
    match st
    case PrepareStep(p, art, wanted, existing) => PrepareChanges(w, p, art, wanted, existing);
    case ApproveStep(siteId, shown) => ApprovalKeepsLinks(w, siteId, shown);
    case Charge(k) => ChargeChanges(w, k);
    case _ =>
  }

  lemma CommitKeepsLinked(w: World, k: int)
    requires Inv(w) && LinkedOk(w) && CommitEnabled(w, k)
    ensures LinkedOk(Next(w, Commit(k)))
  {
    CommitChanges(w, k);
    assert HolderOk(w.hash, w.db, w.signed, w.workers[k]);
  }

  lemma RetireKeepsLinked(w: World, k: int)
    requires Inv(w) && LinkedOk(w) && RetireEnabled(w, k) && !Overwrites(w, Retire(k))
    ensures LinkedOk(Next(w, Retire(k)))
  {
    RetireChanges(w, k);
    assert w.db.plans[w.workers[k].plan].status != Applied;
  }

  lemma KeepLinked(w: World, st: Step)
    requires Inv(w) && LinkedOk(w) && Enabled(w, st) && !Overwrites(w, st)
    ensures LinkedOk(Next(w, st))
  {
    if st.Commit? { CommitKeepsLinked(w, st.k); }
    else if st.Retire? { RetireKeepsLinked(w, st.k); }
    else {
      OtherStepsKeepLinks(w, st);
      StepEffects(w, st);
    }
  }

  /** No plan is handled by two workers at once. */
  ghost predicate Serial(w: World) {
    forall k, l | k in w.workers && l in w.workers && !w.workers[k].Idle? && !w.workers[l].Idle?
                  && w.workers[k].plan == w.workers[l].plan :: k == l
  }

  predicate WorksFor(w: World, k: int, site: int) {
    && k in w.workers && !w.workers[k].Idle?
    && w.workers[k].plan in w.db.plans && w.db.plans[w.workers[k].plan].artifact.siteId == site
  }

  /** One publication job per site, any number of sites at once: what the job queue arranges. */
  ghost predicate OneJobPerSite(w: World) {
    forall k, l, site | WorksFor(w, k, site) && WorksFor(w, l, site) :: k == l
  }

  lemma HandlesAPlan(w: World, k: int)
    requires Inv(w) && k in w.workers && !w.workers[k].Idle?
    ensures w.workers[k].plan in w.db.plans
  {
    if Holds(w.workers[k]) { assert HolderOk(w.hash, w.db, w.signed, w.workers[k]); }
  }

  /** A job only handles plans of its own site. */
  lemma SitesApart(w: World)
    requires Inv(w) && OneJobPerSite(w)
    ensures Serial(w)
  {
    forall k, l | k in w.workers && l in w.workers && !w.workers[k].Idle? && !w.workers[l].Idle?
                  && w.workers[k].plan == w.workers[l].plan ensures k == l
    {
      HandlesAPlan(w, k);
      var site := w.db.plans[w.workers[k].plan].artifact.siteId;
      assert WorksFor(w, k, site) && WorksFor(w, l, site);
    }
  }

  ghost predicate SerialRun(w: World, steps: seq<Step>)
    requires Runs(w, steps)
    decreases |steps|
  {
    Serial(w) && (steps == [] || SerialRun(Next(w, steps[0]), steps[1..]))
  }

  ghost predicate QueuedRun(w: World, steps: seq<Step>)
    requires Runs(w, steps)
    decreases |steps|
  {
    OneJobPerSite(w) && (steps == [] || QueuedRun(Next(w, steps[0]), steps[1..]))
  }

  ghost predicate FreshWriters(w: World) {
    forall k :: k in w.workers && Writing(w.workers[k]) ==>
      w.workers[k].plan in w.db.plans && w.db.plans[w.workers[k].plan].status == Approved
  }

  lemma WriterEffects(w: World, st: Step, k: int)
    requires Enabled(w, st) && k in Next(w, st).workers && Writing(Next(w, st).workers[k])
    ensures k in w.workers && !w.workers[k].Idle?
    ensures w.workers[k] != Next(w, st).workers[k] ==>
              && Next(w, st).db == w.db && Next(w, st).workers[k].plan in w.db.plans
              && w.db.plans[Next(w, st).workers[k].plan].status == Approved
  {
  }

  lemma KeepFresh(w: World, st: Step)
    requires Inv(w) && Serial(w) && FreshWriters(w) && Enabled(w, st)
    ensures FreshWriters(Next(w, st)) && !Overwrites(w, st)
  {
    var n := Next(w, st);
    StepEffects(w, st);
    forall k | k in n.workers && Writing(n.workers[k])
      ensures n.workers[k].plan in n.db.plans && n.db.plans[n.workers[k].plan].status == Approved
    {
      WriterEffects(w, st, k);
    }
  }

  /** While no plan is handled by two workers at once, endings are final over the whole run,
      and every link recorded as written belongs to an applied plan. */
  lemma {:induction false} SerialEndings(w: World, steps: seq<Step>)
    requires Inv(w) && LinkedOk(w) && FreshWriters(w) && Runs(w, steps) && SerialRun(w, steps)
    ensures KeepsEndings(w, End(w, steps)) && LinkedOk(End(w, steps)) && FreshWriters(End(w, steps))
    decreases |steps|
  {
    if steps != [] {
      var n := Next(w, steps[0]);
      KeepFresh(w, steps[0]);
      KeepStep(w, steps[0]);
      KeepLinked(w, steps[0]);
      EndingsAreFinal(w, steps[0]);
      SerialEndings(n, steps[1..]);
    }
  }

  lemma {:induction false} QueuedIsSerial(w: World, steps: seq<Step>)
    requires Inv(w) && Runs(w, steps) && QueuedRun(w, steps)
    ensures SerialRun(w, steps)
    decreases |steps|
  {
    SitesApart(w);
    if steps != [] {
      KeepStep(w, steps[0]);
      QueuedIsSerial(Next(w, steps[0]), steps[1..]);
    }
  }

  /** From the start, with one publication job per site and any number of sites: a plan that
      ended during the first part of a run stays as it ended throughout the rest, and every
      written link belongs to an applied plan. */
  lemma QueuedEndings(w0: World, steps: seq<Step>, more: seq<Step>)
    requires Init(w0) && Runs(w0, steps) && QueuedRun(w0, steps)
    requires Runs(End(w0, steps), more) && QueuedRun(End(w0, steps), more)
    ensures KeepsEndings(End(w0, steps), End(End(w0, steps), more))
    ensures LinkedOk(End(w0, steps)) && LinkedOk(End(End(w0, steps), more))
  {
    InitInv(w0);
    QueuedIsSerial(w0, steps);
    SerialEndings(w0, steps);
    ReachableInv(w0, steps);
    QueuedIsSerial(End(w0, steps), more);
    SerialEndings(End(w0, steps), more);
  }

  // ---- Ownership ------------------------------------------------------------

  /** Every listed suggestion belongs to the article of the plan that lists it. */
  ghost predicate ListedOk(w: World) {
    forall p :: p in w.db.plans ==> ListsOwn(w.db, w.db.plans[p].artifact)
  }

  ghost predicate SourcesKept(w: World, n: World) {
    && n.db.suggestions.Keys == w.db.suggestions.Keys
    && (forall s :: s in w.db.suggestions ==> n.db.suggestions[s].sourceId == w.db.suggestions[s].sourceId)
  }

  lemma SourcesNeverChange(w: World, st: Step)
    requires Inv(w) && Enabled(w, st)
    ensures SourcesKept(w, Next(w, st))
  {
    var n := Next(w, st);
    match st
    case PrepareStep(p, art, wanted, existing) => PrepareChanges(w, p, art, wanted, existing);
    case ApproveStep(siteId, shown) =>
      ApproveChanges(w.hash, w.db, siteId, shown);
      forall s | s in w.db.suggestions ensures Rebound(w.db, n.db, shown.Keys, s) {}
    case Commit(k) =>
      forall s | s in w.db.suggestions ensures n.db.suggestions[s].sourceId == w.db.suggestions[s].sourceId {
        LinkAllRow(w.db.suggestions, w.workers[k].rows, ReadItems(w.workers[k].art.items).value, s);
      }
    case _ =>
  }

  ghost predicate ListsOwn(db: Tables, art: Artifact) {
    forall s :: s in Listed(art) ==> s in db.suggestions && db.suggestions[s].sourceId == art.sourceId
  }

  lemma KeepListed(w: World, st: Step)
    requires Inv(w) && ListedOk(w) && Enabled(w, st) && !st.Tamper?
    ensures ListedOk(Next(w, st))
  {
    var n := Next(w, st);
    SourcesNeverChange(w, st);
    StepEffects(w, st);
    forall p | p in n.db.plans ensures ListsOwn(n.db, n.db.plans[p].artifact) {
      if p in w.db.plans {
        assert ListsOwn(w.db, w.db.plans[p].artifact);
      } else {
        assert PrepareEnabled(w, st.plan, st.art, st.wanted, st.existing);
      }
    }
  }

  predicate Untampered(steps: seq<Step>) {
    steps == [] || (!steps[0].Tamper? && Untampered(steps[1..]))
  }

  lemma {:induction false} ListedRun(w: World, steps: seq<Step>)
    requires Inv(w) && ListedOk(w) && Runs(w, steps) && Untampered(steps)
    ensures ListedOk(End(w, steps))
    decreases |steps|
  {
    if steps != [] {
      KeepStep(w, steps[0]);
      KeepListed(w, steps[0]);
      ListedRun(Next(w, steps[0]), steps[1..]);
    }
  }

  ghost predicate DisjointLists(plans: map<int, Plan>) {
    forall p, q, s | p in plans && q in plans && p != q && Active(plans[p]) && Active(plans[q])
                     && s in Listed(plans[p].artifact) :: s !in Listed(plans[q].artifact)
  }

  lemma SharedListing(w: World, p: int, q: int, s: int)
    requires ListedOk(w) && p in w.db.plans && q in w.db.plans
    requires s in Listed(w.db.plans[p].artifact) && s in Listed(w.db.plans[q].artifact)
    ensures w.db.plans[p].artifact.sourceId == w.db.plans[q].artifact.sourceId
  {
    assert ListsOwn(w.db, w.db.plans[p].artifact) && ListsOwn(w.db, w.db.plans[q].artifact);
  }

  lemma ListsAreDisjoint(w: World)
    requires OneActive(w.db.plans) && ListedOk(w)
    ensures DisjointLists(w.db.plans)
  {
    var plans := w.db.plans;
    forall p, q, s | p in plans && q in plans && p != q && Active(plans[p]) && Active(plans[q])
                     && s in Listed(plans[p].artifact)
      ensures s !in Listed(plans[q].artifact)
    {
      if s in Listed(plans[q].artifact) { SharedListing(w, p, q, s); }
    }
  }

  /** One active plan per article, no suggestion in two active plans, and every bound
      suggestion listed in a plan that is approved, applied or failed. */
  lemma Ownership(w0: World, steps: seq<Step>)
    requires Init(w0) && Runs(w0, steps) && Untampered(steps)
    ensures var w := End(w0, steps);
            OneActive(w.db.plans) && BoundOk(w.db, w.signed) && DisjointLists(w.db.plans)
  {
    InitInv(w0);
    ReachableInv(w0, steps);
    ListedRun(w0, steps);
    ListsAreDisjoint(End(w0, steps));
  }

  // ---- Retries --------------------------------------------------------------

  /** A plan is charged at most `limit` times; at the limit, whatever its rows had been
      charged before, the next visit retires it instead of trying again. */
  lemma RetriesAreBounded(w0: World, steps: seq<Step>, p: int)
    requires Init(w0) && Runs(w0, steps)
    ensures var w := End(w0, steps);
            && ChargesOf(w, p) <= w.limit
            && ((ChargesOf(w, p) == w.limit && p in w.db.plans && w.db.plans[p].status == Approved
                 && BoundTo(w.db, p) != {}) ==> AfterLock(w, p) == StaleCheck(p))
  {
    var w := End(w0, steps);
    ReachableInv(w0, steps);
    if ChargesOf(w, p) == w.limit && BoundTo(w.db, p) != {} {
      var s := Any(BoundTo(w.db, p));
      assert w.db.suggestions[s].planId == Some(p);
      assert w.db.suggestions[s].status != Selected;
    }
  }
}
