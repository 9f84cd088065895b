/** Bounded relaunch of an item whose launch failed: at most three retries, each
    with a backoff that the lease protocol enforces. */
module Relaunch {
  import opened Common
  import opened QueueTypes
  import opened WorkerLease
  import opened LeaseTraces
  import opened LeaseHolding

  /** `WEB_QUEUE_RETRY_DELAYS`. */
  const RETRY_DELAYS: seq<U64> := [60, 300, 600]

  datatype Launch = Launch(status: string, attempts: int, nextAttemptAt: Option<U64>, runStatus: string)

  datatype Outcome = RecoveryScheduled | LaunchFailed

  /** A negative count does not convert to an index and reads as exhausted. */
  predicate RetriesLeft(attempts: int) {
    0 <= attempts < |RETRY_DELAYS|
  }

  function FailLaunch(attempts: int): Launch {
    Launch("failed", attempts, None, "failed")
  }

  /** `launcherMissing` is a remote-native item without a usable launcher. */
  function BoundedRelaunch(launcherMissing: bool, attempts: int, now: U64): (Launch, Outcome) {
    if launcherMissing || !RetriesLeft(attempts) then (FailLaunch(attempts), LaunchFailed)
    else (Launch("waiting", attempts + 1, Some(SaturatingAddU64(now, RETRY_DELAYS[attempts])), "running"),
          RecoveryScheduled)
  }

  class Store {
    var launch: Launch

    constructor (launch: Launch)
      ensures this.launch == launch
    {
      this.launch := launch;
    }

    /** Either the item waits with one more attempt and a retry time one, five or ten
        minutes ahead, on a running run, or item and run have both failed for good. */
    method RelaunchItem(launcherMissing: bool, attempts: int, now: U64) returns (outcome: Outcome)
      modifies this
      ensures (launch, outcome) == BoundedRelaunch(launcherMissing, attempts, now)
      ensures outcome.RecoveryScheduled? ==>
        && !launcherMissing && 0 <= attempts < 3 && launch.attempts == attempts + 1
        && launch.status == "waiting" && launch.runStatus == "running"
        && launch.nextAttemptAt ==
             Some(SaturatingAddU64(now, if attempts == 0 then 60 else if attempts == 1 then 300 else 600))
      ensures outcome.LaunchFailed? ==>
        && (launcherMissing || attempts < 0 || attempts >= 3) && launch.attempts == attempts
        && launch.status == launch.runStatus == "failed" && launch.nextAttemptAt.None?
    {
      if launcherMissing {
        launch := launch.(status := "failed", attempts := attempts, nextAttemptAt := None);
        launch := launch.(runStatus := "failed");
        return LaunchFailed;
      }
      if RetriesLeft(attempts) {
        var delay := RETRY_DELAYS[attempts];
        launch := launch.(status := "waiting", attempts := attempts + 1,
                          nextAttemptAt := Some(SaturatingAddU64(now, delay)));
        launch := launch.(runStatus := "running");
        return RecoveryScheduled;
      }
      launch := launch.(status := "failed", attempts := attempts, nextAttemptAt := None);
      launch := launch.(runStatus := "failed");
      outcome := LaunchFailed;
    }
  }

  // ---- Runs of relaunches ----

  /** `Retry` relaunches with the item's stored attempts; `Other` is any write that
      leaves the attempts alone, such as a wake, a lease or an agent change. */
  datatype Event =
    | Retry(launcherMissing: bool, now: U64)
    | Other(status: string, nextAttemptAt: Option<U64>, runStatus: string)

  function StateAt(start: Launch, evs: seq<Event>, k: nat): Launch
    requires k <= |evs|
  {
    if k == 0 then start else
    var l := StateAt(start, evs, k - 1);
    match evs[k - 1]
    case Retry(launcherMissing, now) => BoundedRelaunch(launcherMissing, l.attempts, now).0
    case Other(status, nextAttemptAt, runStatus) => Launch(status, l.attempts, nextAttemptAt, runStatus)
  }

  predicate SchedulesAt(start: Launch, evs: seq<Event>, k: nat)
    requires k < |evs|
  {
    evs[k].Retry? && BoundedRelaunch(evs[k].launcherMissing, StateAt(start, evs, k).attempts, evs[k].now).1 == RecoveryScheduled
  }

  function ScheduledCount(start: Launch, evs: seq<Event>, k: nat): nat
    requires k <= |evs|
  {
    if k == 0 then 0 else ScheduledCount(start, evs, k - 1) + if SchedulesAt(start, evs, k - 1) then 1 else 0
  }

  /** From zero, the stored attempts count the relaunches scheduled, there are never
      more than three, and a further retry fails item and run. */
  lemma {:induction false} AtMostThreeRelaunches(start: Launch, evs: seq<Event>, k: nat)
    requires k <= |evs| && start.attempts == 0
    ensures StateAt(start, evs, k).attempts == ScheduledCount(start, evs, k) <= 3
    ensures k < |evs| && evs[k].Retry? && ScheduledCount(start, evs, k) == 3 ==>
      StateAt(start, evs, k + 1).status == "failed" && StateAt(start, evs, k + 1).runStatus == "failed"
  {
    if k > 0 {
      AtMostThreeRelaunches(start, evs, k - 1);
    }
  }

  // ---- The backoff is enforced ----

  ghost predicate Touches(e: LeaseTraces.Event, item: string) {
    (e.UpdateItem? || e.InsertItem? || e.DeleteItem?) && e.itemId == item
  }

  lemma StepSparesItem(s: LeaseDb, e: LeaseTraces.Event, item: string)
    requires item in s.items && !Touches(e, item)
    ensures item in LeaseTraces.Step(s, e).0.items && LeaseTraces.Step(s, e).0.items[item] == s.items[item]
  {
  }

  lemma {:induction false} UntouchedItemStays(db: LeaseDb, evs: seq<LeaseTraces.Event>, a: nat, c: nat, item: string)
    requires a <= c <= |evs| && item in LeaseTraces.StateAt(db, evs, a).items
    requires forall k :: a <= k < c ==> !Touches(evs[k], item)
    ensures item in LeaseTraces.StateAt(db, evs, c).items
    ensures LeaseTraces.StateAt(db, evs, c).items[item] == LeaseTraces.StateAt(db, evs, a).items[item]
    decreases c
  {
    hide LeaseTraces.Step;
    if a < c {
      UntouchedItemStays(db, evs, a, c - 1, item);
      StepSparesItem(LeaseTraces.StateAt(db, evs, c - 1), evs[c - 1], item);
    }
  }

  /** The event gives the item another retry time, or inserts the item anew. */
  ghost predicate RewritesRetryTime(s: LeaseDb, e: LeaseTraces.Event, item: string) {
    || (e.UpdateItem? && e.itemId == item && ItemOf(s, e.runId, item).Some?
        && e.nextAttemptAt != s.items[item].nextAttemptAt)
    || (e.InsertItem? && e.itemId == item && item !in s.items)
  }

  ghost predicate RetryTimeKept(db: LeaseDb, evs: seq<LeaseTraces.Event>, a: nat, c: nat, item: string)
    requires c <= |evs|
  {
    forall k :: a <= k < c ==> !RewritesRetryTime(LeaseTraces.StateAt(db, evs, k), evs[k], item)
  }

  /** The item is gone, or still has the run and retry time. */
  ghost predicate Deferred(s: LeaseDb, item: string, runId: string, retryAt: nat) {
    item in s.items ==> s.items[item].runId == runId && s.items[item].nextAttemptAt == Some(retryAt)
  }

  lemma StepKeepsRetryTime(s: LeaseDb, e: LeaseTraces.Event, item: string, runId: string, retryAt: nat)
    requires Deferred(s, item, runId, retryAt) && !RewritesRetryTime(s, e, item)
    ensures Deferred(LeaseTraces.Step(s, e).0, item, runId, retryAt)
  {
  }

  lemma {:induction false} RetryTimeStays(
    db: LeaseDb, evs: seq<LeaseTraces.Event>, a: nat, c: nat, item: string, runId: string, retryAt: nat)
    requires a <= c <= |evs| && Deferred(LeaseTraces.StateAt(db, evs, a), item, runId, retryAt)
    requires RetryTimeKept(db, evs, a, c, item)
    ensures Deferred(LeaseTraces.StateAt(db, evs, c), item, runId, retryAt)
    decreases c
  {
    hide LeaseTraces.Step, Deferred, RewritesRetryTime;
    if a < c {
      RetryTimeStays(db, evs, a, c - 1, item, runId, retryAt);
      StepKeepsRetryTime(LeaseTraces.StateAt(db, evs, c - 1), evs[c - 1], item, runId, retryAt);
    }
  }

  /** Once event a has scheduled a relaunch, no acquire of the item succeeds before the
      retry time until a statement rewrites that time: writes that keep it, leases,
      recoveries and even the item's deletion do not let a worker in early. */
  lemma BackoffIsEnforced(db: LeaseDb, evs: seq<LeaseTraces.Event>, a: nat, c: nat, item: string,
                          attempts: int, launcherMissing: bool)
    requires a < c < |evs| && evs[a].UpdateItem? && evs[a].itemId == item
    requires ItemOf(LeaseTraces.StateAt(db, evs, a), evs[a].runId, item).Some?
    requires
      var (scheduled, outcome) := BoundedRelaunch(launcherMissing, attempts, evs[a].now);
      outcome == RecoveryScheduled && evs[a].status == scheduled.status && evs[a].nextAttemptAt == scheduled.nextAttemptAt
    requires RetryTimeKept(db, evs, a + 1, c, item)
    requires evs[c].Acquire? && evs[c].itemId == item
    requires evs[c].now < SaturatingAddU64(evs[a].now, RETRY_DELAYS[attempts])
    ensures !AcquiresAt(db, evs, c, item)
    ensures LeaseTraces.StateAt(db, evs, c + 1) == LeaseTraces.StateAt(db, evs, c)
    ensures
      var s := LeaseTraces.StateAt(db, evs, c);
      !IsBlank(evs[c].ownerId) && ItemOf(s, evs[c].runId, item).Some?
        && !ItemStatusFromDb(s.items[item].status).IsTerminal()
      ==> ReplyAt(db, evs, c) == AcquireReply(Ok(Retryable(SaturatingAddU64(evs[a].now, RETRY_DELAYS[attempts]))))
  {
    var retryAt := SaturatingAddU64(evs[a].now, RETRY_DELAYS[attempts]);
    assert Deferred(LeaseTraces.StateAt(db, evs, a + 1), item, evs[a].runId, retryAt);
    RetryTimeStays(db, evs, a + 1, c, item, evs[a].runId, retryAt);
  }

  /** And the backoff ends: while the item stays unfinished and nobody else's ownership
      of it runs, a named worker acquires it exactly from the retry time on. */
  lemma BackoffEnds(db: LeaseDb, evs: seq<LeaseTraces.Event>, a: nat, c: nat, item: string, attempts: int)
    requires Valid(db) && a < c < |evs| && evs[a].UpdateItem? && evs[a].itemId == item
    requires ItemOf(LeaseTraces.StateAt(db, evs, a), evs[a].runId, item).Some?
    requires
      var (scheduled, outcome) := BoundedRelaunch(false, attempts, evs[a].now);
      outcome == RecoveryScheduled && evs[a].nextAttemptAt == scheduled.nextAttemptAt
    requires RetryTimeKept(db, evs, a + 1, c, item)
    requires evs[c].Acquire? && evs[c].itemId == item && evs[c].runId == evs[a].runId && !IsBlank(evs[c].ownerId)
    requires evs[c].now <= I64_MAX && SaturatingAddU64(evs[c].now, evs[c].ttl) <= I64_MAX
    requires
      var s := LeaseTraces.StateAt(db, evs, c);
      item in s.items && Open(s.items[item].status) && !HeldPast(s, item, evs[c].now)
    ensures
      var delay := if attempts == 0 then 60 else if attempts == 1 then 300 else 600;
      AcquiresAt(db, evs, c, item) <==> evs[c].now >= SaturatingAddU64(evs[a].now, delay)
  {
    hide LeaseTraces.Step, HeldPast, RetryTimeKept, Open, BoundedRelaunch;
    DelayOf(attempts, evs[a].now);
    var retryAt := SaturatingAddU64(evs[a].now, if attempts == 0 then 60 else if attempts == 1 then 300 else 600);
    ScheduledIsDeferred(LeaseTraces.StateAt(db, evs, a), evs[a], item, retryAt);
    RetryTimeStays(db, evs, a + 1, c, item, evs[a].runId, retryAt);
    ReachableValid(db, evs, c);
    AcquireFromRetryTime(LeaseTraces.StateAt(db, evs, c), evs[c], retryAt);
  }

  lemma DelayOf(attempts: int, now: U64)
    requires BoundedRelaunch(false, attempts, now).1 == RecoveryScheduled
    ensures BoundedRelaunch(false, attempts, now).0.nextAttemptAt ==
      Some(SaturatingAddU64(now, if attempts == 0 then 60 else if attempts == 1 then 300 else 600))
  {
  }

  lemma AcquireFromRetryTime(s: LeaseDb, e: LeaseTraces.Event, retryAt: nat)
    requires Valid(s) && e.Acquire? && !IsBlank(e.ownerId)
    requires e.now <= I64_MAX && SaturatingAddU64(e.now, e.ttl) <= I64_MAX
    requires e.itemId in s.items && Deferred(s, e.itemId, e.runId, retryAt)
    requires Open(s.items[e.itemId].status) && !HeldPast(s, e.itemId, e.now)
    ensures Acquires(e, LeaseTraces.Step(s, e).1, e.itemId) <==> e.now >= retryAt
  {
    hide AcquireStep, HeldPast, SaturatingAddU64, Open;
    AcquireGrantedIff(s, e.runId, e.itemId, e.ownerId, e.now, e.ttl);
    AcquireReplies(s, e);
  }

  lemma ScheduledIsDeferred(s: LeaseDb, e: LeaseTraces.Event, item: string, retryAt: nat)
    requires e.UpdateItem? && e.itemId == item && ItemOf(s, e.runId, item).Some? && e.nextAttemptAt == Some(retryAt)
    ensures Deferred(LeaseTraces.Step(s, e).0, item, e.runId, retryAt)
  {
  }

  lemma AcquireReplies(s: LeaseDb, e: LeaseTraces.Event)
    requires e.Acquire?
    ensures LeaseTraces.Step(s, e).1 == AcquireReply(AcquireStep(s, e.runId, e.itemId, e.ownerId, e.now, e.ttl).1)
  {
  }
}
