# LinkMesh: a verified model

LinkMesh proposes internal links between the articles of a site, lets an editor select and
approve them, and writes them into WordPress posts. This project models the parts of it where
a mistake would reach a published page or lose an editorial decision, and proves what they
promise. `dafny verify dfyconfig.toml` checks everything.

## What is modelled

**Immutable publication.** A preparation freezes an edit (original post, updated post, listed
links) and its hash; an approval binds a person to exactly that artifact; workers publish it.
`CanonicalJson` and `PlanArtifact` model the serialization the hash covers and prove that it
tells any two artifacts apart. `PublicationTables` has the database transactions and
`PublicationProtocol` the state machine: any number of workers that lock, read, POST, commit,
die or lose a reply, together with decisions in the suggestion queue, crawls, approvals, outside
edits of the post and rewritten rows. `PublicationInvariant` proves the invariant step by step,
`PublicationSafety` what follows over every run and interleaving, and `PublicationRace` gives
the one run in which the code does less than its documentation says. `PublicationProgress`
has the job counters across retries and kills. `PublicationWorker` is the worker itself as a
class: its methods update the tables, the live posts and the counters the way
`app/tasks/publication.py` does, and each is proved to be a sequence of protocol steps, so the
theorems apply to it. `PublicationOutcomes` says what a visit and a whole job come to, and
`PublicationDecisions` when preparing and approving must refuse, both from the rows before and
after alone; `ArtifactMeaning` does the same for the hashed text.

**The HTML splice engine.** `HtmlScanner` matches tags and comments character by character;
`ProseRegions` is the one-pass scan for places where a link may go; `LinkSplice` proves what
one inserted link does to a rescan, as an if-and-only-if over all content; `InTextMarks`,
`LinkPlacement`, `LinkBatch` and `LinkIntegrity` follow a whole list of suggestions: undo,
one link per target, the cap, the gap, and that no later link cuts an earlier one.
`LinkRendering` says in the text itself what each suggestion adds and where, and `ProseMeaning`
what counts as prose in markup as people write it.

**Crawl promotion.** `CrawlTables`, `ArticleStore`, `CrawlSnapshot`, `CrawlRun` and
`CrawlView`: identity matching with its URL swap, the staged snapshot and its phase flags, and
the whole ingestion transaction, which replaces the active view of one site or changes
nothing. `BfsFrontier` is the fallback crawler, and `FrontierMeaning` says what it fetches in
routes of clicks.

**Retrieval, ranking and the link graph.** `GroupedBatch`, `Bm25`, `Hybrid`, `LinkGraph` and
`CandidateOrdering`: each loop is proved against a direct definition, and the definition
against the property that makes it worth having. `BatchMeaning`, `WeightMeaning`,
`RankMeaning`, `GraphMeaning` and `OrderMeaning` state those properties in plain numbers:
which of two comes first, what weighs more, what each count counts. `Sorting` models Python's
`sorted` with a unique tiebreak; `Prelude` holds small helpers.

## What turned out not to hold

Two promises fail on some inputs. The code is modelled as it is, each failure has a concrete
witness, and each promise is proved exactly where it holds.

- Terminal plan statuses are described as final, but `_handle_stale_plan` and `_fail_plan`
  read the status without a lock and write it in a later transaction. `EndingsAreFinal`
  gives the exact condition and `RaceOverwritesAnApplied` a run. `SerialEndings` gives the
  guarantee over whole runs in which no plan is handled by two workers at once, and
  `QueuedEndings` the same for one publication job per site, as the job queue arranges, with
  any number of sites publishing at once.
- A rescan after a splice does not always find the old prose moved along: a `<name` that
  nothing closes before the link can swallow its opening tag. `RescanExact` gives the exact
  condition, and `LinkInsideLink` two suggestions of which the second nests in the first when
  the distance guard is off. With the guard on, `GapKept` holds for every post.

## Reading the model

Floating-point scores are real numbers and `log` is any function that is positive above 1,
and increasing where the rarity of terms is compared. SHA-256 is an injective abstract function of the payload text. Text is a sequence of
characters. A transaction is a step that commits whole or not at all; the network, clocks and
the database's own choices are parameters. In `PublicationTables`, `Selected` is the column
value `approved`, `Linked` is `applied` and `Quarantined` is `failed`. Where the design
document says that a plan without changes causes no request, the code still reads the post,
and the model follows the code.

## Model

| member | source | states |
|---|---|---|
| `CanonicalJson.ParsePrint` | app/services/publication_plan_service.py:388-393 | a decoder for RFC 8259 text undoes the printer on every value, and leaves the text that follows it |
| `CanonicalJson.DecodePayload` | app/services/publication_plan_service.py:380-394 | decoding a payload gives the hashed value back with its dictionary keys sorted |
| `CanonicalJson.CanonSound` | app/services/publication_plan_service.py:383-384 | two values that differ only in dictionary insertion order have one canonical form |
| `CanonicalJson.CanonComplete` | app/services/publication_plan_service.py:383-384 | one canonical form means the same value up to insertion order: sorting merges nothing else |
| `CanonicalJson.PayloadInjective` | app/services/publication_plan_service.py:363-367 | two payloads are equal if and only if the values are the same: a changed character, an extra key or a reordered item always shows |
| `PlanArtifact.CanonIdempotent` | app/services/publication_plan_service.py:388-393 | canonical form is stable, so an artifact stored canonically is hashed as stored |
| `PlanArtifact.HashBinds` | app/services/publication_plan_service.py:360-394 | two stored artifacts have one plan hash if and only if they are the same artifact |
| `PlanArtifact.PlanHashIsCollisionFree` | app/services/publication_plan_service.py:360-394 | the plan hash meets the collision-freedom every protocol theorem asks of its hash parameter |
| `PlanArtifact.SnapshotRoundTrip` | app/services/publication_plan_service.py:420-436 | the suggestion ids and outcomes that publication reads from a snapshot are those preparation recorded, in rendering order |
| `ArtifactMeaning.PlainTextKept` | app/services/publication_plan_service.py:388-393 | text stands in the payload as itself, in any alphabet, if and only if it holds no quote, no backslash and no control character |
| `ArtifactMeaning.KeysInOrder` | app/services/publication_plan_service.py:388-393 | the keys of every hashed dictionary come in code-point order |
| `ArtifactMeaning.PayloadFields` | app/services/publication_plan_service.py:360-377 | decoding the hashed text of an artifact finds each column under its own name, and schema version 1 |
| `ArtifactMeaning.SnapshotFields` | app/services/publication_plan_service.py:420-436 | the record of each link holds its place in rendering order, its suggestion, target, anchor and outcome |
| `ArtifactMeaning.ItemsExactly` | app/tasks/publication.py:324-340 | publication reads one suggestion and outcome off each record, in order; an empty column lists nothing, and anything but a list of such records is refused |
| `ArtifactMeaning.IntactExactly` | app/services/publication_plan_service.py:397-414 | a plan passes the hash check if and only if its artifact is the one it was stored with and, once approved, the one that was approved |
| `PublicationTables.LastOutcome` | app/tasks/publication.py:323-340 | the outcome recorded for a suggestion is that of the last listed item that names it, and there is one exactly when it is listed |
| `PublicationTables.LinkAllRow` | app/tasks/publication.py:323-340 | finalizing a plan marks exactly the rows that are both listed and locked, with that outcome and their attempts reset, and leaves every other row alone |
| `PublicationInvariant.InitInv` | app/tasks/publication.py:226-354 | the invariant holds before anything is prepared |
| `PublicationInvariant.KeepPrepare` | app/services/publication_plan_service.py:547-688 | every preparation that goes through keeps the invariant, above all one active plan per article |
| `PublicationDecisions.PreparedFromSelected` | app/services/publication_plan_service.py:637-658 | every suggestion that a newly stored plan lists was selected and unbound just before |
| `PublicationDecisions.NothingBesideApproved` | app/services/publication_plan_service.py:622-635 | nothing is prepared for an article that has an approved plan |
| `PublicationDecisions.SameHashKept` | app/services/publication_plan_service.py:660-664 | preparing the same artifact again changes nothing |
| `PublicationDecisions.StoresExactly` | app/services/publication_plan_service.py:617-688 | preparation stores a plan if and only if all wanted suggestions are selected and unbound, no approved plan covers the article, the only active plan is the one it found, and that has another hash; then exactly that plan is superseded and nothing else changes |
| `PublicationInvariant.ApproveChanges` | app/services/publication_plan_service.py:730-784 | what an approval does: it signs every named plan and binds every selected, unattached suggestion they list to a named plan that lists it; nothing else changes |
| `PublicationDecisions.ApprovesExactly` | app/services/publication_plan_service.py:709-774 | an approval goes through if and only if it names a plan and every plan it names is a prepared plan of that site with the hash that was shown, intact, listing only suggestions still selected and unbound |
| `PublicationInvariant.KeepApprove` | app/services/publication_plan_service.py:694-787 | an approval keeps the invariant |
| `PublicationInvariant.KeepTamper` | app/services/publication_plan_service.py:397-414 | rewriting a stored artifact together with its own hash keeps the invariant: nobody holding the lock is affected |
| `PublicationInvariant.KeepLock` | app/tasks/publication.py:236-298 | after lock and re-read, whoever goes on to WordPress holds an approved plan whose stored artifact is the signed one and whose rows are all selected |
| `PublicationInvariant.KeepRead` | app/connectors/wordpress.py:957-964 | the read and comparison keep the invariant; a worker is ready to write only over exactly the approved original |
| `PublicationInvariant.KeepPostOk` | app/connectors/wordpress.py:966-969 | a successful POST keeps the invariant, including the history of POSTs |
| `PublicationInvariant.KeepConnectorError` | app/tasks/publication.py:313-318 | a failed read, a refused POST and a lost reply keep the invariant |
| `PublicationInvariant.KeepCommit` | app/tasks/publication.py:320-344 | the commit of a written plan keeps the invariant |
| `PublicationInvariant.KeepCharge` | app/tasks/publication.py:508-566 | charging an attempt keeps the invariant, including the bound that ties charges to row counters |
| `PublicationInvariant.KeepRetire` | app/tasks/publication.py:433-505 | marking a plan stale or failed keeps the invariant even when it lands after another worker ended the plan |
| `PublicationInvariant.KeepExpire` | app/tasks/publication.py:271-288 | a crawl or policy update that expires suggestions keeps the invariant |
| `PublicationInvariant.KeepReview` | app/models/suggestion.py:161-175 | selecting a failed or pending row again (attempts reset, plan link cleared) keeps the invariant |
| `PublicationDecisions.CommitsExactly` | app/tasks/publication.py:320-344 | the commit of a written plan marks the plan applied and exactly its locked and listed rows linked, each with the outcome of the last item that names it |
| `PublicationDecisions.ChargesExactly` | app/tasks/publication.py:508-566 | a failed attempt counts once against each locked row that is still selected and quarantines exactly those that reach the limit |
| `PublicationDecisions.RetiresExactly` | app/tasks/publication.py:433-505 | a stale plan gives its rows back still selected, a failed plan takes them with it, and no other row or plan changes |
| `PublicationDecisions.ExpiresExactly` | app/tasks/publication.py:271-288 | a crawl or policy update expires exactly the named rows that are pending or selected |
| `PublicationDecisions.ReviewsExactly` | app/models/suggestion.py:161-175 | a decision in the suggestion queue gives one row its new status, clears its failure history and plan link, and changes nothing else |
| `PublicationInvariant.KeepStep` | app/tasks/publication.py:226-405 | every step of every actor keeps the invariant |
| `PublicationInvariant.KeepRun` | app/tasks/publication.py:226-405 | the invariant holds after every run, in every interleaving of any number of workers, crashes and outside edits |
| `PublicationSafety.EveryPostIsApproved` | app/tasks/publication.py:290-305 | in every reachable state, the only step that sends anything sends the stored body of an approved plan that still hashes to its approved hash, and only over the approved original that this worker itself read |
| `PublicationSafety.EveryPostWasSigned` | app/connectors/wordpress.py:934-969 | every POST ever made carries the signed body over the signed original of its plan |
| `PublicationSafety.SignedForGood` | app/services/publication_plan_service.py:779-784 | what an approval binds is the artifact with the hash shown on screen, and no later step changes it |
| `PublicationSafety.ApprovalNamesOneArtifact` | app/services/publication_plan_service.py:738-746 | the artifact an approval binds is the only one with the hash the operator was shown |
| `PublicationSafety.StepEffects` | app/tasks/publication.py:226-405 | a plan changes status only along prepared to approved or superseded and approved to applied, stale or failed, apart from the one late retiring write |
| `PublicationSafety.ArtifactsNeverChange` | app/services/publication_plan_service.py:360-377 | no step of the system itself changes a stored artifact |
| `PublicationSafety.QuietRun` | app/connectors/wordpress.py:950-952 | if nobody else edits the article, each of its plans lands on it at most once and stays live while approved, over any crashes, lost replies and retries |
| `PublicationSafety.AtMostOneWrite` | app/connectors/wordpress.py:950-959 | from the initial state, a plan causes at most one content-changing POST if nobody else edits its article |
| `PublicationSafety.AppliedIsLive` | app/tasks/publication.py:341-344 | at the moment a plan becomes applied, the live post is its approved content, if nobody else edits the article |
| `PublicationSafety.EndingsAreFinal` | app/tasks/publication.py:448-450 | a step keeps every terminal status if and only if it is not a retiring write on a plan that another worker ended differently since its unlocked status check |
| `PublicationSafety.NeverApprovedAgain` | app/tasks/publication.py:253-260 | a plan that has stopped being prepared or approved never is either again |
| `PublicationSafety.KeepLinked` | app/tasks/publication.py:323-344 | except for that one late write, every step keeps: a link recorded as written belongs to an applied plan |
| `PublicationSafety.SerialEndings` | app/tasks/publication.py:433-505 | over every run in which no plan is handled by two workers at once, terminal statuses are final and written links belong to applied plans |
| `PublicationSafety.SitesApart` | app/services/job_service.py:167-194 | one publication job per site, over any number of sites, never has two workers on one plan |
| `PublicationSafety.QueuedEndings` | app/services/job_service.py:167-194 | so from the start, with one publication job per site and any number of sites at once, a plan that has ended stays as it ended and written links belong to applied plans |
| `PublicationSafety.ListedRun` | app/services/publication_plan_service.py:637-658 | over runs without rewritten rows, every suggestion a plan lists belongs to that plan's source article |
| `PublicationSafety.ListsAreDisjoint` | app/services/publication_plan_service.py:619-688 | so no suggestion is listed in two active plans |
| `PublicationSafety.Ownership` | app/services/publication_plan_service.py:694-787 | in every reachable state: one active plan per article, active plans list disjoint suggestions, every bound suggestion is listed in an approved, applied or failed plan |
| `PublicationSafety.RetriesAreBounded` | app/tasks/publication.py:508-566 | a plan is charged at most the configured number of attempts, and at that number its next visit retires it, whatever its rows had been charged under earlier plans |
| `PublicationRace.RaceOverwritesAnApplied` | app/tasks/publication.py:448-450 | a concrete run of two workers in which a late stale mark overwrites an applied plan and cuts its written link loose |
| `PublicationWorker.Worker.LockPlan` | app/tasks/publication.py:236-298 | one lock and re-read is one protocol step, with the four findings the code distinguishes |
| `PublicationWorker.Worker.ReadLive` | app/connectors/wordpress.py:957-964 | the read before the write, and what it decides |
| `PublicationWorker.Worker.SendPost` | app/connectors/wordpress.py:966-967 | one POST of the approved body: what is stored, what is recorded and what the worker knows, for success, refusal and a lost reply |
| `PublicationWorker.Worker.ApplyPlannedEdit` | app/connectors/wordpress.py:934-969 | written, already applied, stale or connector error, exactly as the live content and the fault decide; nothing is sent unless the edit was written or failed |
| `PublicationWorker.Worker.CommitPlan` | app/tasks/publication.py:320-344 | the loop over the items leaves the tables as one protocol commit does |
| `PublicationWorker.Worker.Rollback` | app/tasks/publication.py:366-367 | a rollback or death releases everything and commits nothing |
| `PublicationWorker.Worker.RecordAttemptFailure` | app/tasks/publication.py:508-566 | two UPDATE statements charge and quarantine exactly as one protocol charge, and the returned count says whether the plan is exhausted |
| `PublicationWorker.Worker.CheckAgain` | app/tasks/publication.py:448-449 | the status read after the rollback |
| `PublicationWorker.Worker.WriteRetired` | app/tasks/publication.py:477-487 | the retiring write and what it does to the bound rows |
| `PublicationWorker.Worker.RetirePlan` | app/tasks/publication.py:433-505 | check and write together, for stale and for failed |
| `PublicationWorker.Worker.PublishHeld` | app/tasks/publication.py:300-398 | everything after the locks, step by step, comes to the specified visit: tables, live posts and how the items count, which `KindMeans` and `VisitDecides` describe |
| `PublicationWorker.Worker.PublishOne` | app/tasks/publication.py:226-404 | one plan of the loop equals one visit, and the counters move by its item count as `KindMeans` says |
| `PublicationWorker.Worker.PublishEach` | app/tasks/publication.py:226-404 | the plan loop visits the plans in order, each finding the tables and posts the ones before it left, and records the items of each |
| `PublicationWorker.Worker.PublishApproved` | app/tasks/publication.py:208-414 | a whole job visits its plans in order; its counters are those of one possible attempt, and it succeeds exactly when no item failed, which `SucceedsExactly` puts in plan statuses |
| `PublicationOutcomes.KindMeans` | app/tasks/publication.py:253-405 | the items of a plan count as applied if and only if the approved plan ended applied, as failed if and only if it is still approved or ended failed, and as skipped if and only if it was not approved or ended stale |
| `PublicationOutcomes.UnpublishableIsRetired` | app/tasks/publication.py:253-298 | an approved plan with a retired row ends stale, one that cannot be trusted or whose article is gone ends failed, a plan that is not approved stays as it is, and in all of them no post changes |
| `PublicationOutcomes.VisitDecides` | app/tasks/publication.py:300-398 | for a publishable plan and every live content and fault: what the post holds afterwards and the status the plan ends in |
| `PublicationOutcomes.FailsTogether` | app/tasks/publication.py:508-566 | after a connector error every row of the plan has one more attempt, and the plan fails if and only if all of its rows are quarantined by then |
| `PublicationOutcomes.OthersUntouched` | app/tasks/publication.py:226-405 | a visit changes its own plan, its own rows and its own article only |
| `PublicationOutcomes.JobCounts` | app/tasks/publication.py:208-414 | a job counts as applied, and as failed, exactly the items of the plans that were approved when it began and ended so |
| `PublicationOutcomes.SucceedsExactly` | app/tasks/publication.py:406-413 | a job succeeds if and only if no plan with items that was approved when it began is still approved or ended failed |
| `PublicationWorker.TwoUpdatesChargeOnce` | app/tasks/publication.py:521-542 | counting first and quarantining second is one charge, and the second row count is the number quarantined |
| `PublicationWorker.RetireUpdates` | app/tasks/publication.py:477-487 | the bulk updates of a retirement are the table transactions of the protocol |
| `PublicationWorker.FailuresCounted` | app/tasks/publication.py:406-412 | the job reports failure exactly when some item failed in this attempt |
| `PublicationProgress.MarkFailure` | app/services/publication_progress.py:103-121 | the key-by-key marking computes the failure mark; progress of another stage is left alone |
| `PublicationProgress.AttemptKeeps` | app/services/publication_progress.py:32-121 | whatever row it starts from, older rows without an attempt counter included, one attempt never lowers applied, total or attempt failures (by how much they grow, `AttemptCounts` says), ends with applied + attempt failed within total, and balances after success or terminal marking |
| `PublicationProgress.AttemptCounts` | app/services/publication_progress.py:32-87 | after an attempt, applied has grown by exactly its applied items and attempt failures by exactly its failed items; total is the larger of the old total and what could be applied |
| `PublicationProgress.AttemptReports` | app/services/publication_progress.py:64-121 | what the row shows of the latest attempt: failed, skipped and the failure state, for every ending |
| `PublicationProgress.StoredCounts` | app/services/publication_progress.py:32-121 | over all attempts, the stored applied and attempt failures are those of the first row plus all that happened since |
| `PublicationProgress.CountersNeverDecrease` | app/services/publication_progress.py:32-121 | from any stored row, over any sequence of attempts, each killable at any checkpoint, the stored counters only grow |
| `PublicationProgress.TerminalBalances` | app/services/publication_progress.py:110-121 | a terminal mark makes applied + failed + skipped = total if and only if applied + attempt failed was within total |
| `PublicationProgress.TerminalIdempotent` | app/services/publication_progress.py:103-121 | marking a job terminal a second time changes nothing, whatever its counters |
| `HtmlScanner.NextGt` | app/connectors/wordpress.py:81 | where a tag ends: the first closing bracket after its name |
| `HtmlScanner.NextArrow` | app/connectors/wordpress.py:81 | where a comment ends: the first arrow at or after its opening |
| `HtmlScanner.MatchIsLocal` | app/connectors/wordpress.py:81 | whether and how far the tag pattern matches depends only on the characters matched |
| `HtmlScanner.LastIndex` | app/connectors/wordpress.py:212-217 | a closing tag pops to the last open element of its name |
| `HtmlScanner.ReachFrom` | app/connectors/wordpress.py:186-224 | a scan can be taken up again wherever it arrives, with the open elements it has there |
| `HtmlScanner.ReachNext` | app/connectors/wordpress.py:186-224 | a scan steps over a whole match and arrives nowhere inside it |
| `ProseRegions.NextMatch` | app/connectors/wordpress.py:203-207 | the next tag or comment, with none in between |
| `ProseRegions.UnlistedIsCount` | app/connectors/wordpress.py:186-224 | the blocked counter is zero if and only if every open element is in the list of elements a link may sit in |
| `ProseRegions.Track` | app/connectors/wordpress.py:208-220 | the stack and the counter updated in step always agree |
| `ProseRegions.AddRegion` | app/connectors/wordpress.py:204-206 | a region is recorded exactly for a non-empty gap where a link may go |
| `ProseRegions.Scan` | app/connectors/wordpress.py:186-224 | the one-pass scan yields exactly the tag-free positions whose open elements are all listed, with none open or a text element among them |
| `ProseRegions.Regions` | app/connectors/wordpress.py:186-224 | the same for raw content |
| `ProseRegions.InOneRegionIsProse` | app/connectors/wordpress.py:264-283 | a span lies in one region if and only if all its positions are prose |
| `ProseRegions.RegionsUnique` | app/connectors/wordpress.py:186-224 | so there is only one list of regions for a text |
| `ProseMeaning.AllowedIsBodyCopy` | app/connectors/wordpress.py:186-224 | where a link may go: no element open but the listed structure and inline formatting, and a paragraph, list item or definition among them unless none is open |
| `ProseMeaning.WordsAreProse` | app/connectors/wordpress.py:186-224 | in markup written as words, tags and comments in turn, words are prose if and only if the elements opened and not closed before them are such |
| `ProseMeaning.DirectText` | app/connectors/wordpress.py:186-224 | inside one element, its words are prose if and only if it is a paragraph, list item or definition, or has no content of its own |
| `ProseMeaning.InsideParagraph` | app/connectors/wordpress.py:186-224 | inside an element of a paragraph, the words are prose if and only if that element may be open around body copy: never in a link, a heading or a script |
| `ProseMeaning.AfterElement` | app/connectors/wordpress.py:208-220 | after an element is closed, words are prose as if it had not been there |
| `ProseMeaning.AfterComment` | app/connectors/wordpress.py:203-210 | a comment is never prose, whatever it holds, and opens nothing |
| `LinkSplice.Escape` | app/connectors/wordpress.py:844-858 | an escaped href or anchor holds no bracket and no quote |
| `LinkSplice.FirstDangling` | app/connectors/wordpress.py:81 | where, in the linked words, a tag is first left open |
| `LinkSplice.SpliceKeepsProse` | app/connectors/wordpress.py:823-859 | where no tag is left open, rescanning after a splice gives the old prose with the linked words cut out and the rest moved along |
| `LinkSplice.DanglingBreaks` | app/connectors/wordpress.py:823-859 | a tag left open before the link always breaks that |
| `LinkSplice.RescanExact` | app/connectors/wordpress.py:823-859 | for all content and every prose span: the rescan gives the old prose, cut and moved, if and only if no open tag precedes the link and one left open by its own words leaves the rest prose |
| `InTextMarks.MarkListFindsAll` | app/connectors/wordpress.py:246-261 | the marker search finds every marker |
| `InTextMarks.MarkListLength` | app/connectors/wordpress.py:845 | counting markers without overlap counts every one |
| `InTextMarks.OpenHoldsOneMark` | app/connectors/wordpress.py:91 | the opening tag of our link holds exactly one marker, whatever its escaped href |
| `InTextMarks.BlockHoldsNoMark` | app/connectors/wordpress.py:95 | the appended paragraph holds none |
| `LinkPlacement.FindAnchor` | app/connectors/wordpress.py:264-283 | the search over regions computes the specified choice |
| `LinkPlacement.AnchorSpanExact` | app/connectors/wordpress.py:264-283 | a span is chosen if and only if it is the one match of the anchor that is prose throughout and touches no shortcode |
| `LinkPlacement.Outcomes` | app/connectors/wordpress.py:920-932 | outcomes match suggestions one to one |
| `LinkPlacement.PreviewLinks` | app/connectors/wordpress.py:908-932 | the fold over the suggestions: no suggestion, an unreadable post, and otherwise the specified content and outcomes, which `RendersEach` describes in the text |
| `LinkRendering.RendersEach` | app/connectors/wordpress.py:908-932 | each suggestion in turn makes of the post exactly what its outcome tells: nothing; one match of its anchor wrapped in a marked link to its escaped target; or an appended paragraph whose one link has its escaped target as href and its escaped anchor, or title when it has none, as words |
| `LinkRendering.ParagraphHref` | app/connectors/wordpress.py:858-859 | the appended paragraph holds exactly one href, the one it was given |
| `LinkRendering.OpenTagHref` | app/connectors/wordpress.py:851-857 | so does the tag of a link in the prose |
| `LinkRendering.EscapeReadsBack` | app/connectors/wordpress.py:844-858 | resolving the character references of an escaped href or anchor gives the original |
| `LinkRendering.InTextExactly` | app/connectors/wordpress.py:844-859 | a suggestion is linked in the prose at a span if and only if its target is not in the post, it has an anchor, the post is under the cap, the span is the only usable match, and it is far enough from every marker |
| `LinkRendering.CrowdsExactly` | app/connectors/wordpress.py:246-261 | a span is far enough from the markers if and only if each is at least the gap before its start or after its end |
| `LinkRendering.ShortcodesCover` | app/connectors/wordpress.py:275-282 | a position is inside a shortcode if and only if some bracket at or before it, not closed before it, is closed at it or later |
| `LinkPlacement.PresentExactly` | app/connectors/wordpress.py:922-931 | a suggestion is already present if and only if the post linked its target or an earlier suggestion of the list asked for it |
| `LinkPlacement.OneLinkPerTarget` | app/connectors/wordpress.py:922-931 | each target gains at most one link, and none when it was linked already |
| `LinkPlacement.UndoRestores` | app/connectors/wordpress.py:823-932 | taking the recorded insertions back, last first, gives the original post, for every list |
| `LinkBatch.InTextCap` | app/connectors/wordpress.py:845-859 | after any list, in-text links are at most the larger of what the post had and the configured cap |
| `LinkBatch.TagIsNotProse` | app/connectors/wordpress.py:186-224 | no position of a complete tag is prose, whatever surrounds it |
| `LinkBatch.ProseMissesTag` | app/connectors/wordpress.py:264-283 | so a later anchor lies wholly before or wholly after any tag placed earlier |
| `LinkBatch.GapKept` | app/connectors/wordpress.py:246-261 | every in-text link placed by a rendering stands in the final content with its whole opening tag, at least the configured distance from every other marker there |
| `LinkIntegrity.LinksStand` | app/connectors/wordpress.py:908-932 | on content without tags left open, every placed link is intact in the final post and outside all prose: no later link lands in it or across it |
| `LinkIntegrity.AppendedProse` | app/connectors/wordpress.py:858-859 | appending a paragraph makes no old position prose that was not |
| `LinkIntegrity.LinkInsideLink` | app/connectors/wordpress.py:908-932 | two suggestions and a post with an unclosed tag for which, with the distance guard off, the second link is placed inside the first |
| `CrawlTables.UpsertKeepsUnique` | app/services/ingestion_service.py:264-310 | an upsert keeps URLs unique and external ids unique per site |
| `CrawlTables.UpsertIdentity` | app/services/ingestion_service.py:267-308 | an article goes to the row with its external id wherever that row was, else to the row at its URL, else to a new one; the row takes the article and keeps an id the article does not name |
| `CrawlTables.RowKept` | app/services/ingestion_service.py:264-310 | the row of an earlier article is unchanged by each later upsert that does not borrow it |
| `CrawlTables.ReplayedIs` | app/services/ingestion_service.py:264-310 | the URLs of a site and their external ids after each article follow from the table before the crawl and the feed alone, whatever ids the database draws |
| `CrawlTables.RowsDistinct` | app/services/ingestion_service.py:264-310 | a crawl of distinct articles ends in distinct rows if and only if, replaying the feed on those URLs, no article without an external id finds its URL on a row that a later article claims by external id |
| `CrawlTables.UniformLendsNothing` | app/services/ingestion_service.py:268-283 | a feed whose articles all carry external ids, or none, meets that condition from any table |
| `CrawlTables.UntouchedRow` | app/services/ingestion_service.py:264-310 | a row no article was put in keeps its run mark, content and external id, and rows of other sites keep everything |
| `CrawlTables.AllLinksPairs` | app/services/crawl_snapshot.py:283-310 | the links found are exactly the non-self pairs that some outbound link resolves to |
| `CrawlTables.FirstAnchor` | app/services/crawl_snapshot.py:297-308 | a link carries the anchor of the first outbound link that leads to its target, on the first crawled page that has one |
| `CrawlView.TargetExactly` | app/services/crawl_snapshot.py:300-305 | an outbound link leads to the last crawled article with the key of its URL, else to the last with the key of what the site resolves it to, else nowhere |
| `ArticleStore.Store.SwapUrls` | app/services/ingestion_service.py:291-297 | the URL swap through a parked URL exchanges the two URLs and meets both unique constraints at every flush |
| `ArticleStore.Store.UpsertArticle` | app/services/ingestion_service.py:264-310 | identity by external id first, URL second, displacement, update or insert |
| `ArticleStore.Store.Reconcile` | app/services/crawl_snapshot.py:158-215 | the sequence of UPDATE statements computes the reconciled articles, suggestions and links, which `ActiveExactly`, `SuggestionsExactly` and `LinksExactly` describe |
| `ArticleStore.TwoUpdatesReconcile` | app/services/crawl_snapshot.py:158-215 | activating seen rows and deactivating the others is one reconciliation, and retires the same articles |
| `CrawlSnapshot.Snapshot.MarkDirty` | app/services/crawl_snapshot.py:249-253 | anything staged voids both earlier checks; a promoted snapshot takes nothing more |
| `CrawlSnapshot.Snapshot.StageArticle` | app/services/crawl_snapshot.py:269-274 | what staging records |
| `CrawlSnapshot.Snapshot.ValidateCompleteness` | app/services/crawl_snapshot.py:276-281 | refused, and the check not passed, exactly when the crawl is not complete |
| `CrawlSnapshot.CompleteExactly` | app/services/crawl_snapshot.py:276-281 | a crawl is complete if and only if it found something and at least the configured share of the last successful count |
| `CrawlSnapshot.Snapshot.ResolveLinks` | app/services/crawl_snapshot.py:283-310 | every resolved pair is written once with its first anchor, or nothing after promotion |
| `CrawlSnapshot.Snapshot.Promote` | app/services/crawl_snapshot.py:312-321 | promotion happens once, only after both checks, and is one reconciliation; otherwise nothing changes |
| `CrawlRun.TakeIn` | app/services/ingestion_service.py:343-464 | the loop over the feed stages each article in order, and fails exactly when a limit is passed |
| `CrawlRun.RunIngestion` | app/services/ingestion_service.py:343-464 | a run either reconciles the tables with everything it staged, with the effects the `CrawlView` rows state, or leaves articles, links and suggestions exactly as they were |
| `CrawlView.ActiveExactly` | app/services/crawl_snapshot.py:158-215 | after a successful run the active articles of the site are exactly the rows the crawl put its articles in |
| `CrawlView.CarriesArticle` | app/services/ingestion_service.py:264-310 | each crawled article has one active row of its own, with its URL, content and external id, under that condition on table and feed |
| `CrawlView.OneRowEach` | app/services/ingestion_service.py:343-464 | from any old table, a feed of distinct articles with external ids throughout or not at all ends in exactly one active row per article, carrying it, and no other active row of the site |
| `CrawlView.OtherSitesKept` | app/services/crawl_snapshot.py:158-215 | articles of other sites are untouched |
| `CrawlView.LinksExactly` | app/services/crawl_snapshot.py:158-215 | the active links from the site are exactly the resolved pairs of this crawl, each with its first anchor; links it no longer has stay on record inactive, and links of other sites are untouched |
| `CrawlView.NoOpenSuggestionOnRetired` | app/services/crawl_snapshot.py:158-215 | no pending or selected suggestion touches a retired article |
| `CrawlView.SuggestionsExactly` | app/services/crawl_snapshot.py:186-196 | a suggestion that was neither pending nor selected is exactly as it was; an open one expires if and only if its source or target was retired |
| `CrawlView.RetiredExactly` | app/services/crawl_snapshot.py:158-185 | the articles a run retires are exactly those the site had and the crawl did not find |
| `CrawlView.RetiredKeepsContent` | app/services/crawl_snapshot.py:177-185 | a retired article is inactive and keeps its content, external id and run mark |
| `CrawlView.UrlIndexIsLast` | app/services/crawl_snapshot.py:269-274 | a comparison key stands for the last staged article that has it |
| `CrawlView.OneRowForTwo` | app/services/ingestion_service.py:264-310 | the condition is needed: a mixed feed, which no connector delivers, would put two articles in one row |
| `BfsFrontier.QueueLinks` | app/connectors/html_crawler.py:462-509 | all links of a page, offered in order against the queue bound |
| `BfsFrontier.TurnKeeps` | app/connectors/html_crawler.py:462-509 | one turn of the loop keeps the frontier invariant and sees one more URL |
| `BfsFrontier.NoRoom` | app/connectors/html_crawler.py:462-509 | a link cut off for lack of room proves that more URLs are within reach than may be queued |
| `BfsFrontier.AllSeen` | app/connectors/html_crawler.py:462-509 | with the queue empty and nothing cut off, the URLs seen are exactly those within the depth limit, each at its least hop count |
| `BfsFrontier.Finished` | app/connectors/html_crawler.py:462-509 | something was cut off if and only if the reach exceeds the bound; otherwise the pages fetched are complete |
| `BfsFrontier.FetchAll` | app/connectors/html_crawler.py:462-509 | the crawl ends; no URL is fetched twice, too far out or against robots; never more than the bound; complete exactly as above; an error if and only if the article cap is passed |
| `FrontierMeaning.WithinIsReachable` | app/connectors/html_crawler.py:462-509 | a URL is within so many hops if and only if a route of at most that many clicks leads to it, each on a page robots may read, through the canonical form of one of its links |
| `FrontierMeaning.FetchedIsReachable` | app/connectors/html_crawler.py:462-509 | no page is fetched twice, and each one fetched may be read by robots and lies on a route of as many clicks as recorded, within the limit |
| `FrontierMeaning.CompleteExactly` | app/connectors/html_crawler.py:462-509 | a complete crawl fetched exactly the pages that robots may read and some route within the limit leads to, each at the length of its shortest route |
| `GroupedBatch.KeepOneWay` | app/services/publication_plan_service.py:195-204 | the kept ids are exactly those of the winning direction of their pair |
| `GroupedBatch.NeverBothWays` | app/services/publication_plan_service.py:152-162 | a batch never holds both directions of a pair of different articles |
| `BatchMeaning.DirectionExactly` | app/services/publication_plan_service.py:119-204 | a link is kept if and only if its direction is the stronger: some row that points its way has a higher score, or the same and a lower id, than every row that points the other way |
| `BatchMeaning.BatchExactly` | app/services/publication_plan_service.py:119-217 | a selected suggestion is in the batch if and only if it is asked for, no applied suggestion runs the other way, and some selected one that points its way has a higher score, or the same and a lower id, than every one that points back |
| `GroupedBatch.NoReverseOfApplied` | app/services/publication_plan_service.py:163-189 | nor a link whose reverse is an applied suggestion |
| `GroupedBatch.SupersededExactly` | app/services/publication_plan_service.py:171-188 | the ids reported as superseded are exactly the wanted ones whose reverse is applied |
| `GroupedBatch.DroppedHasKeptReverse` | app/services/publication_plan_service.py:198-204 | whatever is dropped for its direction leaves a better-ranked opposite direction in the batch |
| `GroupedBatch.BatchIsChosen` | app/services/publication_plan_service.py:206-217 | the batch holds exactly the ids of the chosen rows |
| `GroupedBatch.NarrowingIsIntersection` | app/services/publication_plan_service.py:137-144 | naming suggestions gives exactly the full batch intersected with them |
| `GroupedBatch.GroupsRanked` | app/services/publication_plan_service.py:110-112 | inside a group the order is the publication rank and no id repeats |
| `BatchMeaning.LinkPlaces` | app/services/publication_plan_service.py:110-112 | of two links of one article the one with the higher BM25 score comes first, whatever the similarity, then the more similar, then the lower id |
| `BatchMeaning.ArticlePlaces` | app/services/publication_plan_service.py:211-217 | of two articles the one whose first link is more similar comes first, then the lower id |
| `GroupedBatch.Batch` | app/services/publication_plan_service.py:126-217 | the loops compute those groups, best first, and the superseded ids narrowed the same way |
| `Bm25.Build` | app/ml/lexical.py:57-81 | construction fails on a bad parameter or an empty corpus and on nothing else |
| `Bm25.Index.constructor` | app/ml/lexical.py:57-81 | the postings of each term are its documents with their frequencies, in corpus order; lengths and average are those of the corpus |
| `Bm25.AddPostings` | app/ml/lexical.py:108-120 | one pass over a posting list adds each document's weight and skips the excluded |
| `Bm25.Index.AddTerm` | app/ml/lexical.py:99-120 | one query term adds its direct weight to exactly the documents that hold it |
| `Bm25.Index.ScoreDocuments` | app/ml/lexical.py:83-122 | the accumulated score of every non-excluded document is the direct sum over distinct query terms, and absent for the others |
| `Bm25.ScorePositive` | app/ml/lexical.py:83-122 | a document that shares a term scores above zero, any other exactly zero |
| `Bm25.ScoresAreExact` | app/ml/lexical.py:83-122 | a document is scored if and only if it is not excluded and shares a term, and its score is positive |
| `Bm25.ExclusionIsLocal` | app/ml/lexical.py:83-122 | excluding more documents removes them and changes no other score |
| `Bm25.RankScores` | app/ml/lexical.py:138-145 | every scored id once, highest first, ties by id |
| `WeightMeaning.StandsFirst` | app/ml/lexical.py:138-145 | of two scored documents the one with the higher score stands first, and of two equal ones the lower id |
| `WeightMeaning.IdfIs` | app/ml/lexical.py:103-106 | a term that df of n documents hold is worth the logarithm of (n + 1) / (df + 0.5) |
| `WeightMeaning.RarerTermAddsMore` | app/ml/lexical.py:103-120 | with an increasing logarithm, the rarer of two query terms a document holds equally often adds more |
| `WeightMeaning.OftenerGainsMore` | app/ml/lexical.py:108-120 | of two documents of one length, the one that holds a query term more often gains more from it |
| `WeightMeaning.ShorterGainsMore` | app/ml/lexical.py:111-120 | of two documents that hold a query term equally often, the shorter gains more, unless b is zero |
| `WeightMeaning.RepeatsWeighMore` | app/ml/lexical.py:111-120 | repetition in a document always adds, and never reaches k1 + 1 times the worth of the term |
| `WeightMeaning.QueryRepeatsCapped` | app/ml/lexical.py:107 | a term the query repeats counts once, twice or three times, and no more |
| `WeightMeaning.AverageGainsWorth` | app/ml/lexical.py:98-120 | a query term that a document of average length holds once is worth its own rarity, times the capped query count |
| `WeightMeaning.ScoreAddsUp` | app/ml/lexical.py:99-120 | scores add up over any split of the query terms, and one term scores its weight |
| `Hybrid.Ranker.DuplicateIds` | app/ml/hybrid.py:364-370 | the group lookups give exactly the other articles with the same normalized title or fingerprint |
| `Hybrid.Ranker.ExcludedIds` | app/ml/hybrid.py:403-410 | what is excluded early is never eligible |
| `Hybrid.LexicalPool` | app/ml/hybrid.py:415-443 | walking pages with the eligibility check gives the first hundred eligible targets of the ranking |
| `Hybrid.PoolIsFiltered` | app/ml/hybrid.py:403-443 | excluding before scoring and filtering after it give the same eligible ranking |
| `RankMeaning.PooledExactly` | app/ml/hybrid.py:403-443 | a target of the ranking is pooled if and only if it is another article with another title and other content, not linked or suggested already, admitted by the database, and fewer than a hundred such stand before it |
| `Hybrid.LexicalHalf` | app/ml/hybrid.py:403-443 | so the pool is the first hundred eligible targets of the full BM25 ranking, with their full-corpus scores |
| `Hybrid.FuseAll` | app/ml/hybrid.py:143-169 | every member of the union once with its fused score, ordered by that, best place and id |
| `RankMeaning.FusedScoreIs` | app/ml/hybrid.py:154-160 | a fused score is 0.25 over ten plus the similarity place and 1 over ten plus the BM25 place, as far as there are such places |
| `RankMeaning.FusedPlaces` | app/ml/hybrid.py:161-168 | of two targets the one with the higher fused score comes first, then the better best place, then the lower id |
| `Hybrid.FusionDominates` | app/ml/hybrid.py:143-169 | a target at least as high wherever another appears comes strictly before it |
| `Hybrid.LexicalHeavy` | app/ml/hybrid.py:154-160 | a target only BM25 found outscores one only similarity found if and only if 10 + its place is less than four times 10 + the other place |
| `Hybrid.FusionDropsNobody` | app/ml/hybrid.py:168 | the cut at two hundred never drops a member of two pools of at most a hundred |
| `Hybrid.RankCandidates` | app/ml/hybrid.py:185-234 | the two errors, and otherwise the first of the union by BM25, fusion rank and id, each with its clamped similarity, BM25 score, fusion rank and score, and its rank in either pool |
| `RankMeaning.FinalPlaces` | app/ml/hybrid.py:215-222 | of two candidates the one with the higher BM25 score comes first wherever fusion put them, and of two equal ones the one fusion put first |
| `RankMeaning.EvidenceIsOwn` | app/ml/hybrid.py:223-234 | a candidate reports its own scores and the places it really holds in fused order and in either pool, and its similarity held between zero and one |
| `LinkGraph.ComputeGraph` | app/services/graph_service.py:130-186 | the counting loops compute the specified features and edges |
| `GraphMeaning.FeaturesInOrder` | app/services/graph_service.py:160-176 | every article has one feature row, in order of id |
| `GraphMeaning.FeatureMeans` | app/services/graph_service.py:142-176 | a feature row counts the distinct articles that link to its article and those it links to, and its labels compare those counts with the thresholds; an orphan is an article nothing links to |
| `GraphMeaning.EdgesExactly` | app/services/graph_service.py:142-149 | the links of a graph are those between different articles of the site, each once, by source and then target |
| `LinkGraph.ComputedGraph` | app/services/graph_service.py:130-186 | in-degrees and out-degrees each add up to the number of links, and no degree exceeds the number of other articles |
| `LinkGraph.Sift` | app/services/graph_service.py:450-462 | the proposals kept and the duplicates set aside, both in order |
| `LinkGraph.KindsAddUp` | app/services/graph_service.py:450-462 | every proposal is exactly one of applied, duplicate and invalid |
| `GraphMeaning.KindExactly` | app/services/graph_service.py:450-462 | a proposal is a duplicate if and only if the link is there or was proposed before, invalid if and only if it is not there and could not be, and applied otherwise |
| `GraphMeaning.AppliedGrows` | app/services/graph_service.py:450-462 | what was applied of the first proposals stays first |
| `LinkGraph.Simulate` | app/services/graph_service.py:442-480 | the simulation is the graph computed with the applied proposals added, with the articles it newly connects and saturates |
| `GraphMeaning.NewlyConnectedExactly` | app/services/graph_service.py:470-475 | an article is newly connected if and only if nothing linked to it and an applied proposal does |
| `GraphMeaning.NewlySaturatedExactly` | app/services/graph_service.py:476-480 | an article is newly saturated if and only if its links were below the threshold and the applied proposals take it there |
| `LinkGraph.EdgesAfter` | app/services/graph_service.py:468 | the links after are the links before and the applied ones, none lost and none twice |
| `LinkGraph.DegreesAfter` | app/services/graph_service.py:468 | each article's degrees grow by exactly its applied proposals |
| `LinkGraph.SimulationConserves` | app/services/graph_service.py:429-518 | links grow by the applied, orphans fall by exactly the newly connected, saturated rise by exactly the newly saturated |
| `LinkGraph.OrderDoesNotMatter` | app/services/graph_service.py:442-518 | the same proposals in any order give the same graph and the same counts |
| `CandidateOrdering.ReorderedSame` | app/ml/candidate_ordering.py:103-195 | a stable reordering of distinct candidates loses none and repeats none |
| `CandidateOrdering.Opportunity` | app/services/graph_service.py:383-395 | an opportunity is between zero and one, and none for a saturated target |
| `OrderMeaning.GainIs` | app/services/graph_service.py:383-400 | what a candidate gains: the boost for an orphan, 65 percent of it for another underlinked article, three quarters of either from a saturated source, and nothing below the floor, for a saturated target or for an unknown one |
| `OrderMeaning.GraphMovesExactly` | app/services/graph_service.py:396-420 | a later candidate overtakes an earlier one if and only if it is more similar, gains included |
| `CandidateOrdering.DeterministicRerank` | app/services/graph_service.py:355-426 | the loop computes the bounded reordering; every mode but active keeps the incoming order |
| `CandidateOrdering.NeverOvertaken` | app/services/graph_service.py:396-420 | a candidate more than the boost more similar is never overtaken |
| `CandidateOrdering.OrphansFirst` | app/services/graph_service.py:383-400 | among equally similar candidates at or above the relevance floor, an unsaturated orphan comes before anything that is not one |
| `CandidateOrdering.EqualOpportunityKeepsOrder` | app/services/graph_service.py:355-426 | two candidates with the same adjustment keep their relevance order |
| `CandidateOrdering.Acceptance` | app/services/editorial_feedback.py:107-118 | the smoothed acceptance is between zero and one, also for an empty bucket |
| `CandidateOrdering.AcceptanceBetween` | app/services/editorial_feedback.py:111-118 | the smoothed acceptance lies between the rate of the bucket and the rate of the site, and is the site rate when the bucket is empty |
| `OrderMeaning.AcceptanceIs` | app/services/editorial_feedback.py:50-118 | the rate is the share of accepted decisions, or one half of none; the smoothed acceptance is the share with five more decisions at the rate of the site |
| `OrderMeaning.TallyIsOfBucket` | app/services/editorial_feedback.py:107-118 | the decisions that count are those in the bucket of the candidate's own percentage |
| `OrderMeaning.BucketIs` | app/services/editorial_feedback.py:20-29 | the five buckets: below 60, then tens, with 100 in the last |
| `OrderMeaning.PercentIs` | app/services/editorial_feedback.py:16-17 | a score as percent is the nearest whole number, halves upwards, held between 0 and 100 |
| `CandidateOrdering.RerankWithFeedback` | app/services/editorial_feedback.py:121-161 | the loop and sort compute the specified order |
| `CandidateOrdering.FeedbackIsBounded` | app/services/editorial_feedback.py:129-136 | weight w never swaps candidates d places apart of n when (1 - w) d / (n - 1) exceeds w |
| `CandidateOrdering.OvertakesExactly` | app/services/editorial_feedback.py:129-136 | a later candidate overtakes an earlier one if and only if w times its lead in acceptance exceeds (1 - w) d / (n - 1) |
| `CandidateOrdering.OrderCandidates` | app/ml/candidate_ordering.py:103-195 | filter, graph step, feedback step and cut, in that order, and the one error |
| `OrderMeaning.PassesExactly` | app/ml/candidate_ordering.py:103-195 | a candidate passes the minimum if and only if its rounded percentage reaches it |
| `OrderMeaning.OrderKept` | app/ml/candidate_ordering.py:103-195 | without the Hybrid pilot, a graph or the active mode, and without a profile, the incoming order is kept |
| `OrderMeaning.ReviewMovesExactly` | app/services/editorial_feedback.py:121-161 | in the reviewed order a later candidate overtakes if and only if its weighted lead in acceptance exceeds the weighted distance in places |
| `CandidateOrdering.SelectionOfEligible` | app/ml/candidate_ordering.py:103-195 | the result is a selection without repetition of the candidates at or above the minimum score, as many as fit |

## Left out

- The window between the worker's last read and its POST against an outside editor, which the code documents as not closable: write safety is stated relative to what the worker read. A POST that reaches the site after its own timeout was handled is not modelled either.
- PublicationSafety.AtMostOneWrite: assumes that nobody else edits the article, because an outside editor who restores the approved original makes a second write right.
- PublicationSafety.RetriesAreBounded: speaks of plans whose suggestion rows are present; a plan whose rows were all deleted has nothing to charge.
- PublicationSafety.EveryPostIsApproved: trusts the status, approved-hash and id columns; the adversary of the model rewrites artifacts and their own hash column only.
- PublicationWorker.Worker.PublishApproved: one worker without interleaving; interleavings are the protocol's. Outcome tallies, alerts, events, the request delay and failure texts are not modelled, and durable tallies across reused sessions are outside it.
- The suggestion queue: the model lets an editor re-select any row that is not held, linked or expired, which is more than the queue allows, so nothing relies on its own guards.
- Deletion of articles, plans and suggestion rows while plans exist, except that a source article may be missing from the live posts.
- The UTF-8 step between payload text and hashed bytes, surrogates, and floating-point values inside items.
- LinkPlacement.AnchorSpanExact: the anchor regular expression is any finder of ordered, disjoint, non-empty spans.
- LinkPlacement.PresentExactly: which hrefs a post holds is an abstract set; parsing it with lxml is not modelled.
- HtmlScanner.MatchIsLocal: tag names are compared after lower-casing ASCII letters only.
- Shortcodes that span an inserted href, transport retries, and the warning about a stripped marker.
- ArticleStore.Store.UpsertArticle: the advisory lock of the site is not modelled, and the crawled URL is assumed not to use the parking scheme `linkmesh://`.
- ArticleStore.Store.Reconcile: taxonomies are not modelled, so neither is the deletion of stale taxonomy links.
- CrawlRun.TakeIn: taxonomies and the de-duplication of content-pool feeds by URL are not modelled.
- CrawlRun.RunIngestion: URL normalization and link resolution are abstract functions; diagnostics, run bookkeeping, progress rows, the deadline and imports are not modelled.
- BfsFrontier.FetchAll: a page is a fixed function of its URL; the sitemap path, the wall-clock budget and diagnostics are not modelled. The depth check on a popped entry can never fire and is not repeated.
- GroupedBatch.Batch: claims within one batch only; reverses bound to plans of other batches are not visible to it, as in the code. Expiring the superseded rows is not modelled.
- Bm25.Index.ScoreDocuments: tokenization is not modelled, and rounding is ignored, so scores that differ only by rounding order may differ here.
- Hybrid.LexicalHalf: the blocked targets in memory and in the database are those of one state; eligibility rules that only the database can check are one abstract predicate. A source outside the corpus, the baseline comparison and tokenization are not modelled.
- LinkGraph.ComputeGraph: the two degree scores rounded to six digits are not modelled.
- LinkGraph.Simulate: target concentration and warnings are not modelled.
- LinkGraph.SimulationConserves: for computations made by `compute_graph` with the thresholds of the simulation; a computation rebuilt from a stored snapshot pairs stored features with current edges.
- CandidateOrdering.DeterministicRerank: the explanatory metadata per candidate is not modelled.
- CandidateOrdering.RerankWithFeedback: the reported components per candidate are not modelled, nor is loading the feedback profile.
- CandidateOrdering.OrderCandidates: which candidates and in what order; the version strings and components attached to each are not modelled.
- Telegram, API keys, dashboard login, embeddings, SQL text, migrations, exports and evaluation metrics: plumbing, or easy members only.
