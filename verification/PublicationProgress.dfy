/** The counters of one publication job, carried in its progress dictionary through
    retries, worker deaths and terminal marking. */
module PublicationProgress {
  import opened Prelude
  import opened CanonicalJson

  type Progress = map<string, Json>

  const STAGE := "publishing"

  /** A stored counter; anything that is not a natural number reads as the default. */
  function Count(p: Progress, key: string, default: nat): nat {
    if key in p && p[key].JInt? && p[key].n >= 0 then p[key].n else default
  }

  predicate Publishing(p: Progress) { "stage" in p && p["stage"] == JString(STAGE) }

  function Begin(previous: Option<Progress>, batchSize: nat): Progress {
    var p := if previous.Some? && Publishing(previous.value) then previous.value else map[];
    var applied := Count(p, "applied", 0);
    map[
      "stage" := JString(STAGE),
      "applied" := JInt(applied),
      "failed" := JInt(0),
      "skipped" := JInt(Count(p, "skipped", 0)),
      "total" := JInt(Max(Count(p, "total", 0), applied + batchSize)),
      "attempt_skipped" := JInt(0),
      "attempt_failed" := JInt(0),
      "attempt_failures" := JInt(Count(p, "attempt_failures", Count(p, "failed", 0))),
      "failure_state" := JNull]
  }

  function RecordApplied(p: Progress): Progress {
    p["applied" := JInt(Count(p, "applied", 0) + 1)]
  }

  function RecordSkip(p: Progress): Progress {
    var skipped := Count(p, "attempt_skipped", 0) + 1;
    p["skipped" := JInt(Max(Count(p, "skipped", 0), skipped))]["attempt_skipped" := JInt(skipped)]
  }

  function RecordFailure(p: Progress): Progress {
    var failed := Count(p, "attempt_failed", 0) + 1;
    p["failed" := JInt(failed)]["attempt_failed" := JInt(failed)]
     ["attempt_failures" := JInt(Count(p, "attempt_failures", 0) + 1)]
  }

  function CompleteSuccess(p: Progress): Progress {
    var applied := Count(p, "applied", 0);
    var total := Max(Count(p, "total", 0), applied);
    p["failed" := JInt(0)]["skipped" := JInt(Max(total - applied, 0))]["total" := JInt(total)]
     ["attempt_failed" := JInt(0)]["failure_state" := JNull]
  }

  /** What `mark_publication_failure` means; None leaves the stored progress alone. */
  function FailureMark(p: Progress, terminal: bool): Option<Progress> {
    if !Publishing(p) then None else
      var failed := Count(p, "attempt_failed", Count(p, "failed", 0));
      var total, applied := Count(p, "total", 0), Count(p, "applied", 0);
      var attemptFailed := Count(p, "attempt_failed", 0);
      var left := Max(Max(total - applied - Count(p, "skipped", 0), attemptFailed), 0);
      var marked := p["failure_state" := JString(if terminal then "terminal" else "retrying")];
      Some(if terminal
           then marked["failed" := JInt(left)]["skipped" := JInt(Max(total - applied - left, 0))]
           else marked["failed" := JInt(failed)])
  }

  /** `mark_publication_failure`, key by key on a local copy. */
  method MarkFailure(p: Progress, terminal: bool) returns (r: Option<Progress>)
    ensures r == FailureMark(p, terminal)
  {
    if !Publishing(p) {
      return None;
    }
    var updated := p["failed" := JInt(Count(p, "attempt_failed", Count(p, "failed", 0)))];
    updated := updated["failure_state" := JString(if terminal then "terminal" else "retrying")];
    if terminal {
      var total := Count(updated, "total", 0);
      var applied := Count(updated, "applied", 0);
      var skipped := Count(updated, "skipped", 0);
      var attemptFailed := Count(updated, "attempt_failed", 0);
      updated := updated["failed" := JInt(Max(Max(total - applied - skipped, attemptFailed), 0))];
      updated := updated["skipped" := JInt(Max(total - applied - Count(updated, "failed", 0), 0))];
    }
    assert updated == FailureMark(p, terminal).value;
    r := Some(updated);
  }

  // ---- Attempts, retries and kills ------------------------------------------

  datatype Event = Applied | Skipped | Failed

  /** How an attempt ended: killed between two checkpoints, marked by whoever noticed, or
      completed. */
  datatype Ending = Unmarked | Retrying | Terminal | Completed

  /** One attempt up to its last durable checkpoint. */
  datatype Attempt = Attempt(batch: nat, events: seq<Event>, ending: Ending)

  function Record(p: Progress, e: Event): Progress {
    match e
    case Applied => RecordApplied(p)
    case Skipped => RecordSkip(p)
    case Failed => RecordFailure(p)
  }

  function RecordAll(p: Progress, events: seq<Event>): Progress
    decreases |events|
  {
    if events == [] then p else Record(RecordAll(p, events[..|events| - 1]), events[|events| - 1])
  }

  /** An item is handled at most once; success handled them all and none failed. */
  predicate Possible(a: Attempt) {
    && |a.events| <= a.batch
    && (a.ending.Completed? ==> |a.events| == a.batch && Failed !in a.events)
  }

  function Finish(p: Progress, ending: Ending): Progress {
    match ending
    case Unmarked => p
    case Retrying => var m := FailureMark(p, false); if m.Some? then m.value else p
    case Terminal => var m := FailureMark(p, true); if m.Some? then m.value else p
    case Completed => CompleteSuccess(p)
  }

  function RunAttempt(previous: Option<Progress>, a: Attempt): Progress {
    Finish(RecordAll(Begin(previous, a.batch), a.events), a.ending)
  }

  /** The stored progress after these attempts, whatever row the first one found. */
  function Stored(first: Option<Progress>, attempts: seq<Attempt>): Option<Progress>
    decreases |attempts|
  {
    if attempts == [] then first
    else Some(RunAttempt(Stored(first, attempts[..|attempts| - 1]), attempts[|attempts| - 1]))
  }

  /** What a stored row says about publication; a row of another stage says nothing. */
  function Counted(p: Option<Progress>): Progress {
    if p.Some? && Publishing(p.value) then p.value else map[]
  }

  function AppliedOf(p: Option<Progress>): nat { Count(Counted(p), "applied", 0) }
  function TotalOf(p: Option<Progress>): nat { Count(Counted(p), "total", 0) }

  /** On older rows `failed` was the only failure counter. */
  function FailuresOf(p: Option<Progress>): nat {
    Count(Counted(p), "attempt_failures", Count(Counted(p), "failed", 0))
  }

  // ---- What the counters count ----------------------------------------------

  /** How often something happened. */
  function Occurs(events: seq<Event>, e: Event): nat
    decreases |events|
  {
    if events == [] then 0 else
      Occurs(events[..|events| - 1], e) + if events[|events| - 1] == e then 1 else 0
  }

  lemma {:induction false} OccursIn(events: seq<Event>, e: Event)
    ensures Occurs(events, e) == 0 <==> e !in events
    decreases |events|
  {
    if events != [] {
      var front := events[..|events| - 1];
      OccursIn(front, e);
      assert events == front + [events[|events| - 1]];
    }
  }

  lemma {:induction false} OccursFew(events: seq<Event>)
    ensures Occurs(events, Applied) + Occurs(events, Failed) + Occurs(events, Skipped) == |events|
    decreases |events|
  {
    if events != [] { OccursFew(events[..|events| - 1]); }
  }

  lemma {:induction false} OccursAppended(es: seq<Event>, fs: seq<Event>, e: Event)
    ensures Occurs(es + fs, e) == Occurs(es, e) + Occurs(fs, e)
    decreases |fs|
  {
    if fs == [] {
      assert es + fs == es;
    } else {
      var n := |fs| - 1;
      OccursAppended(es, fs[..n], e);
      assert (es + fs)[..|es + fs| - 1] == es + fs[..n] && (es + fs)[|es + fs| - 1] == fs[n];
    }
  }

  /** What the durable row says between attempts. */
  ghost predicate Consistent(p: Progress) {
    && Publishing(p) && "attempt_failures" in p && p["attempt_failures"].JInt? && p["attempt_failures"].n >= 0
    && Count(p, "applied", 0) + Count(p, "attempt_failed", 0) <= Count(p, "total", 0)
  }

  /** Each event leaves room for the rest of its batch. */
  lemma {:induction false} RecordAllKeeps(p: Progress, events: seq<Event>, room: nat)
    requires Consistent(p)
    requires Count(p, "applied", 0) + Count(p, "attempt_failed", 0) + room <= Count(p, "total", 0)
    requires |events| <= room
    ensures var r := RecordAll(p, events);
      && Consistent(r)
      && Count(r, "total", 0) == Count(p, "total", 0)
      && Count(r, "applied", 0) >= Count(p, "applied", 0)
      && Count(r, "attempt_failures", 0) >= Count(p, "attempt_failures", 0)
      && Count(r, "applied", 0) + Count(r, "attempt_failed", 0) + (room - |events|) <= Count(r, "total", 0)
    decreases |events|
  {
    if events != [] {
      RecordAllKeeps(p, events[..|events| - 1], room);
    }
  }

  lemma FinishKeeps(p: Progress, ending: Ending)
    requires Consistent(p)
    ensures var r := Finish(p, ending);
      && Consistent(r)
      && Count(r, "applied", 0) >= Count(p, "applied", 0)
      && Count(r, "total", 0) >= Count(p, "total", 0)
      && Count(r, "attempt_failures", 0) >= Count(p, "attempt_failures", 0)
      && (ending.Completed? || ending.Terminal? ==>
            Count(r, "applied", 0) + Count(r, "failed", 0) + Count(r, "skipped", 0) == Count(r, "total", 0))
  {
  }

  /** Whatever row it starts from, one more attempt, however it ends, never takes back an
      applied link, the total or a recorded failure, and leaves a consistent row. */
  lemma AttemptKeeps(previous: Option<Progress>, a: Attempt)
    requires Possible(a)
    ensures var r := RunAttempt(previous, a);
      && Consistent(r)
      && AppliedOf(Some(r)) >= AppliedOf(previous)
      && TotalOf(Some(r)) >= TotalOf(previous)
      && FailuresOf(Some(r)) >= FailuresOf(previous)
      && (a.ending.Completed? || a.ending.Terminal? ==>
            Count(r, "applied", 0) + Count(r, "failed", 0) + Count(r, "skipped", 0) == Count(r, "total", 0))
  {
    RecordAllKeeps(Begin(previous, a.batch), a.events, a.batch);
    FinishKeeps(RecordAll(Begin(previous, a.batch), a.events), a.ending);
  }

  /** While the items of an attempt are recorded, the counters say how many there were of each
      kind; skips are taken together with earlier ones, the larger number of the two. */
  lemma {:induction false} RecordAllCounts(p: Progress, events: seq<Event>)
    requires Consistent(p) && Count(p, "attempt_failed", 0) == 0 && Count(p, "attempt_skipped", 0) == 0 && Count(p, "failed", 0) == 0
    requires "attempt_failed" in p && p["attempt_failed"].JInt? && p["attempt_failed"].n >= 0
    ensures var r := RecordAll(p, events);
      && Publishing(r)
      && Count(r, "applied", 0) == Count(p, "applied", 0) + Occurs(events, Applied)
      && Count(r, "attempt_failures", 0) == Count(p, "attempt_failures", 0) + Occurs(events, Failed)
      && Count(r, "failed", 0) == Count(r, "attempt_failed", 0) == Occurs(events, Failed)
      && Count(r, "skipped", 0) == Max(Count(p, "skipped", 0), Occurs(events, Skipped))
      && Count(r, "attempt_skipped", 0) == Occurs(events, Skipped)
      && Count(r, "total", 0) == Count(p, "total", 0)
      && "attempt_failures" in r && r["attempt_failures"].JInt? && r["attempt_failures"].n >= 0
      && "attempt_failed" in r && r["attempt_failed"].JInt? && r["attempt_failed"].n >= 0
    decreases |events|
  {
    if events != [] { RecordAllCounts(p, events[..|events| - 1]); }
  }

  lemma BeginCounts(previous: Option<Progress>, batch: nat)
    ensures var b := Begin(previous, batch);
      && Consistent(b) && Count(b, "attempt_failed", 0) == 0 && Count(b, "attempt_skipped", 0) == 0 && Count(b, "failed", 0) == 0
      && "attempt_failed" in b && b["attempt_failed"].JInt? && b["attempt_failed"].n >= 0
      && Count(b, "applied", 0) == AppliedOf(previous) && Count(b, "attempt_failures", 0) == FailuresOf(previous)
      && Count(b, "skipped", 0) == Count(Counted(previous), "skipped", 0)
      && Count(b, "total", 0) == Max(TotalOf(previous), AppliedOf(previous) + batch)
  {
  }

  /** What one attempt adds: every applied item and every failure, once; the total only to
      make room for its batch. */
  lemma AttemptCounts(previous: Option<Progress>, a: Attempt)
    requires Possible(a)
    ensures var r := RunAttempt(previous, a);
      && AppliedOf(Some(r)) == AppliedOf(previous) + Occurs(a.events, Applied)
      && FailuresOf(Some(r)) == FailuresOf(previous) + Occurs(a.events, Failed)
      && TotalOf(Some(r)) == Max(TotalOf(previous), AppliedOf(previous) + a.batch)
  {
    var begun := Begin(previous, a.batch);
    BeginCounts(previous, a.batch);
    RecordAllCounts(begun, a.events);
    RecordAllKeeps(begun, a.events, a.batch);
    FinishLeaves(RecordAll(begun, a.events), a.ending);
  }

  lemma FinishLeaves(p: Progress, ending: Ending)
    requires Consistent(p)
    ensures var r := Finish(p, ending);
      && Publishing(r) && Count(r, "applied", 0) == Count(p, "applied", 0) && Count(r, "total", 0) == Count(p, "total", 0)
      && "attempt_failures" in r && r["attempt_failures"] == p["attempt_failures"]
  {
  }

  /** What a row reports of the latest attempt. While it may be retried, `failed` is the
      failures of this attempt alone; a terminal mark widens it to every item that was neither
      applied nor skipped; success leaves none, and everything not applied was skipped. */
  predicate Reports(r: Progress, ending: Ending, total: nat, applied: nat, failed: nat, skipped: nat) {
    match ending
    case Terminal =>
      && Count(r, "failed", 0) == Max(total - applied - skipped, failed)
      && Count(r, "skipped", 0) == total - applied - Count(r, "failed", 0)
      && "failure_state" in r && r["failure_state"] == JString("terminal")
    case Completed =>
      && Count(r, "failed", 0) == 0 && Count(r, "skipped", 0) == total - applied
      && "failure_state" in r && r["failure_state"] == JNull
    case Retrying =>
      && Count(r, "failed", 0) == failed && Count(r, "skipped", 0) == skipped
      && "failure_state" in r && r["failure_state"] == JString("retrying")
    case Unmarked =>
      Count(r, "failed", 0) == failed && Count(r, "skipped", 0) == skipped
  }

  lemma FinishReports(p: Progress, ending: Ending, failed: nat, skipped: nat)
    requires Consistent(p) && "attempt_failed" in p && p["attempt_failed"].JInt? && p["attempt_failed"].n >= 0
    requires Count(p, "failed", 0) == Count(p, "attempt_failed", 0) == failed && Count(p, "skipped", 0) == skipped
    ensures Reports(Finish(p, ending), ending, Count(p, "total", 0), Count(p, "applied", 0), failed, skipped)
  {
  }

  lemma AttemptReports(previous: Option<Progress>, a: Attempt)
    requires Possible(a)
    ensures var r := RunAttempt(previous, a);
      Reports(r, a.ending, TotalOf(Some(r)), AppliedOf(Some(r)), Occurs(a.events, Failed),
              Max(Count(Counted(previous), "skipped", 0), Occurs(a.events, Skipped)))
  {
    var begun := Begin(previous, a.batch);
    BeginCounts(previous, a.batch);
    RecordAllCounts(begun, a.events);
    RecordAllKeeps(begun, a.events, a.batch);
    var done := RecordAll(begun, a.events);
    FinishLeaves(done, a.ending);
    FinishReports(done, a.ending, Occurs(a.events, Failed), Max(Count(Counted(previous), "skipped", 0), Occurs(a.events, Skipped)));
  }

  function OccursInAll(attempts: seq<Attempt>, e: Event): nat
    decreases |attempts|
  {
    if attempts == [] then 0
    else OccursInAll(attempts[..|attempts| - 1], e) + Occurs(attempts[|attempts| - 1].events, e)
  }

  /** Over all attempts, however each of them ended, the stored counters are those of the first
      row and everything applied, and everything that failed, since. */
  lemma {:induction false} StoredCounts(first: Option<Progress>, attempts: seq<Attempt>)
    requires forall i :: 0 <= i < |attempts| ==> Possible(attempts[i])
    ensures AppliedOf(Stored(first, attempts)) == AppliedOf(first) + OccursInAll(attempts, Applied)
    ensures FailuresOf(Stored(first, attempts)) == FailuresOf(first) + OccursInAll(attempts, Failed)
    decreases |attempts|
  {
    if attempts != [] {
      var n := |attempts| - 1;
      StoredCounts(first, attempts[..n]);
      AttemptCounts(Stored(first, attempts[..n]), attempts[n]);
    }
  }

  /** From any stored row, over any sequence of attempts, each killable at any checkpoint, the
      committed counters only grow. */
  lemma {:induction false} CountersNeverDecrease(first: Option<Progress>, attempts: seq<Attempt>, n: nat)
    requires forall i :: 0 <= i < |attempts| ==> Possible(attempts[i])
    requires n <= |attempts|
    ensures AppliedOf(Stored(first, attempts[..n])) <= AppliedOf(Stored(first, attempts))
    ensures TotalOf(Stored(first, attempts[..n])) <= TotalOf(Stored(first, attempts))
    ensures FailuresOf(Stored(first, attempts[..n])) <= FailuresOf(Stored(first, attempts))
    decreases |attempts| - n
  {
    if n == |attempts| {
      assert attempts[..n] == attempts;
    } else {
      CountersNeverDecrease(first, attempts, n + 1);
      assert attempts[..n + 1][..n] == attempts[..n];
      AttemptKeeps(Stored(first, attempts[..n]), attempts[n]);
    }
  }

  /** A terminal mark accounts for every item exactly when no more was applied or failed than
      the total it was given. */
  lemma TerminalBalances(p: Progress)
    requires Publishing(p)
    ensures var r := FailureMark(p, true).value;
      Count(r, "applied", 0) + Count(r, "failed", 0) + Count(r, "skipped", 0) == Count(r, "total", 0)
      <==> Count(p, "applied", 0) + Count(p, "attempt_failed", 0) <= Count(p, "total", 0)
  {
  }

  /** Marking a job terminal twice changes nothing the second time. */
  lemma TerminalIdempotent(p: Progress)
    requires Publishing(p)
    ensures FailureMark(FailureMark(p, true).value, true) == FailureMark(p, true)
  {
    var r := FailureMark(p, true).value;
    assert Count(r, "attempt_failed", 0) == Count(p, "attempt_failed", 0);
    assert Count(r, "applied", 0) == Count(p, "applied", 0) && Count(r, "total", 0) == Count(p, "total", 0);
    assert FailureMark(r, true).value == r;
  }
}
