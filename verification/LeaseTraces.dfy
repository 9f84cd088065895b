/** Whole runs of the lease protocol: any interleaving of any number of workers,
    recoveries and item writers, as a list of events over one database. */
module LeaseTraces {
  import opened Common
  import opened QueueTypes
  import opened WorkerLease

  /** `UpdateItem` stands for every writer of an item's status and retry time.
      Every event carries the clock reading of its transaction. */
  datatype Event =
    | Acquire(now: U64, runId: string, itemId: string, ownerId: string, ttl: U64)
    | Heartbeat(now: U64, lease: Lease, ttl: U64)
    | Release(now: U64, lease: Lease)
    | RecoverStale(now: U64, runId: string)
    | UpdateItem(now: U64, runId: string, itemId: string, status: string, nextAttemptAt: Option<nat>)
    | InsertItem(now: U64, itemId: string, item: ItemRow)
    | DeleteItem(now: U64, itemId: string)

  datatype Reply =
    | AcquireReply(acquired: Result<AcquireOutcome, LeaseError>)
    | HandleReply(accepted: Result<bool, LeaseError>)
    | CountReply(count: Result<nat, LeaseError>)
    | Done

  /** Deleting an item deletes its lease row with it (foreign-key cascade). */
  function Step(db: LeaseDb, e: Event): (LeaseDb, Reply) {
    match e
    case Acquire(now, runId, itemId, ownerId, ttl) =>
      var (db', r) := AcquireStep(db, runId, itemId, ownerId, now, ttl);
      (db', AcquireReply(r))
    case Heartbeat(now, lease, ttl) =>
      var (db', r) := HeartbeatStep(db, lease, now, ttl);
      (db', HandleReply(r))
    case Release(now, lease) =>
      var (db', r) := ReleaseStep(db, lease, now);
      (db', HandleReply(r))
    case RecoverStale(now, runId) =>
      var (db', r) := RecoverStep(db, runId, now);
      (db', CountReply(r))
    case UpdateItem(_, runId, itemId, status, nextAttemptAt) =>
      if ItemOf(db, runId, itemId).None? then (db, Done)
      else (db.(items := db.items[itemId := ItemRow(runId, status, nextAttemptAt)]), Done)
    case InsertItem(_, itemId, item) =>
      if itemId in db.items then (db, Done) else (db.(items := db.items[itemId := item]), Done)
    case DeleteItem(_, itemId) =>
      (LeaseDb(db.items - {itemId}, db.leases - {itemId}), Done)
  }

  /** The database before event number k. */
  function StateAt(db: LeaseDb, evs: seq<Event>, k: nat): LeaseDb
    requires k <= |evs|
  {
    if k == 0 then db else Step(StateAt(db, evs, k - 1), evs[k - 1]).0
  }

  function ReplyAt(db: LeaseDb, evs: seq<Event>, k: nat): Reply
    requires k < |evs|
  {
    Step(StateAt(db, evs, k), evs[k]).1
  }

  predicate Acquires(e: Event, reply: Reply, item: string) {
    e.Acquire? && e.itemId == item && reply.AcquireReply? && reply.acquired.Ok? && reply.acquired.value.Acquired?
  }

  /** Event k is a successful acquire of the item. */
  predicate AcquiresAt(db: LeaseDb, evs: seq<Event>, k: nat, item: string)
    requires k < |evs|
  {
    Acquires(evs[k], ReplyAt(db, evs, k), item)
  }

  function HandleAt(db: LeaseDb, evs: seq<Event>, k: nat, item: string): Lease
    requires k < |evs| && AcquiresAt(db, evs, k, item)
  {
    ReplyAt(db, evs, k).acquired.value.lease
  }

  /** The clock never runs backwards. */
  ghost predicate MonotoneClock(evs: seq<Event>) {
    forall i, j :: 0 <= i <= j < |evs| ==> evs[i].now <= evs[j].now
  }

  /** The item exists throughout, starts without a lease row and is not deleted:
      one item lifetime. */
  ghost predicate Lifetime(db: LeaseDb, evs: seq<Event>, item: string) {
    && Valid(db) && item in db.items && item !in db.leases
    && (forall k :: 0 <= k < |evs| ==> evs[k].DeleteItem? ==> evs[k].itemId != item)
    && |evs| <= I64_MAX
  }

  // ---- Reachable states ----

  lemma StepKeepsValid(db: LeaseDb, e: Event)
    requires Valid(db)
    ensures Valid(Step(db, e).0)
  {
  }

  lemma {:induction false} ReachableValid(db: LeaseDb, evs: seq<Event>, k: nat)
    requires Valid(db) && k <= |evs|
    ensures Valid(StateAt(db, evs, k))
  {
    if k > 0 {
      ReachableValid(db, evs, k - 1);
      StepKeepsValid(StateAt(db, evs, k - 1), evs[k - 1]);
    }
  }

  predicate Deletes(e: Event, item: string) {
    e.DeleteItem? && e.itemId == item
  }

  /** One step moves an item's epoch only by acquiring it, and then by one. */
  lemma StepMovesEpoch(db: LeaseDb, e: Event, item: string)
    requires Valid(db) && item in db.items && !Deletes(e, item)
    ensures
      var (db', reply) := Step(db, e);
      && item in db'.items && db'.items[item].runId == db.items[item].runId
      && (item in db'.leases <==> item in db.leases || Acquires(e, reply, item))
      && (Acquires(e, reply, item) ==>
            && reply.acquired.value.lease.itemId == item
            && reply.acquired.value.lease.leaseEpoch == db'.leases[item].leaseEpoch
            && reply.acquired.value.lease.expiresAt >= e.now
            && db'.leases[item].expiresAt == Some(reply.acquired.value.lease.expiresAt)
            && db'.leases[item].leaseEpoch ==
               if item in db.leases then SaturatingIncI64(db.leases[item].leaseEpoch) else 1)
      && (!Acquires(e, reply, item) && item in db.leases ==>
            db'.leases[item].leaseEpoch == db.leases[item].leaseEpoch)
  {
  }

  // ---- Epochs count acquisitions ----

  function AcquireCount(db: LeaseDb, evs: seq<Event>, k: nat, item: string): nat
    requires k <= |evs|
  {
    if k == 0 then 0
    else AcquireCount(db, evs, k - 1, item) + if AcquiresAt(db, evs, k - 1, item) then 1 else 0
  }

  /** Within one lifetime the stored epoch is exactly the number of successful
      acquisitions so far, so no epoch is ever handed out twice. */
  lemma {:induction false} EpochCountsAcquisitions(db: LeaseDb, evs: seq<Event>, k: nat, item: string)
    requires Lifetime(db, evs, item) && k <= |evs|
    ensures
      var s := StateAt(db, evs, k);
      && item in s.items
      && s.items[item].runId == db.items[item].runId
      && AcquireCount(db, evs, k, item) <= k
      && (item in s.leases <==> AcquireCount(db, evs, k, item) > 0)
      && (item in s.leases ==> s.leases[item].leaseEpoch == AcquireCount(db, evs, k, item))
  {
    if k > 0 {
      hide Step;
      EpochCountsAcquisitions(db, evs, k - 1, item);
      ReachableValid(db, evs, k - 1);
      StepMovesEpoch(StateAt(db, evs, k - 1), evs[k - 1], item);
    }
  }

  lemma AcquiredEpoch(db: LeaseDb, evs: seq<Event>, k: nat, item: string)
    requires Lifetime(db, evs, item) && k < |evs| && AcquiresAt(db, evs, k, item)
    ensures HandleAt(db, evs, k, item).leaseEpoch == AcquireCount(db, evs, k, item) + 1
    ensures HandleAt(db, evs, k, item).itemId == item
  {
    hide Step;
    EpochCountsAcquisitions(db, evs, k, item);
    EpochCountsAcquisitions(db, evs, k + 1, item);
    ReachableValid(db, evs, k);
    StepMovesEpoch(StateAt(db, evs, k), evs[k], item);
  }

  lemma {:induction false} AcquireCountMonotone(db: LeaseDb, evs: seq<Event>, j: nat, k: nat, item: string)
    requires j <= k <= |evs|
    ensures AcquireCount(db, evs, j, item) <= AcquireCount(db, evs, k, item)
    decreases k
  {
    if j < k {
      AcquireCountMonotone(db, evs, j, k - 1, item);
    }
  }

  // ---- Fencing ----

  predicate Uses(e: Event, item: string) {
    (e.Heartbeat? || e.Release?) && e.lease.itemId == item
  }

  lemma OutdatedHandleRejected(db: LeaseDb, e: Event, item: string)
    requires Uses(e, item) && item in db.leases && e.lease.leaseEpoch != db.leases[item].leaseEpoch
    ensures Step(db, e).0 == db && Step(db, e).1.HandleReply? && Step(db, e).1.accepted != Ok(true)
  {
  }

  /** Every later acquisition gets a strictly larger epoch, and from then on no
      heartbeat or release with an older handle is ever accepted or changes
      anything, whatever else happens in between. */
  lemma Fencing(db: LeaseDb, evs: seq<Event>, a: nat, b: nat, c: nat, item: string)
    requires Lifetime(db, evs, item) && a < b < c < |evs|
    requires AcquiresAt(db, evs, a, item) && AcquiresAt(db, evs, b, item)
    ensures HandleAt(db, evs, a, item).leaseEpoch < HandleAt(db, evs, b, item).leaseEpoch
    ensures Uses(evs[c], item) && evs[c].lease.leaseEpoch < HandleAt(db, evs, b, item).leaseEpoch
            ==> ReplyAt(db, evs, c).HandleReply? && ReplyAt(db, evs, c).accepted != Ok(true)
                && StateAt(db, evs, c + 1) == StateAt(db, evs, c)
  {
    hide Step;
    AcquiredEpoch(db, evs, a, item);
    AcquiredEpoch(db, evs, b, item);
    AcquireCountMonotone(db, evs, a + 1, b, item);
    AcquireCountMonotone(db, evs, b + 1, c, item);
    EpochCountsAcquisitions(db, evs, c, item);
    if Uses(evs[c], item) && evs[c].lease.leaseEpoch < HandleAt(db, evs, b, item).leaseEpoch {
      OutdatedHandleRejected(StateAt(db, evs, c), evs[c], item);
    }
  }

  // ---- Ownership periods never overlap ----

  /** What a holder learns from one of its own replies: a granted acquire or
      heartbeat promises an expiry, an accepted release ends the promise, and
      every other reply leaves it standing. */
  function Learn(before: Option<nat>, e: Event, reply: Reply, item: string, epoch: int): Option<nat> {
    if Acquires(e, reply, item) && reply.acquired.value.lease.leaseEpoch == epoch then
      Some(reply.acquired.value.lease.expiresAt)
    else if Uses(e, item) && e.lease.leaseEpoch == epoch && reply == HandleReply(Ok(true)) then
      if e.Heartbeat? then Some(SaturatingAddU64(e.now, e.ttl)) else None
    else before
  }

  /** What the holder of an epoch may believe before event k, from its own
      replies alone: until when it owns the item. */
  function Belief(db: LeaseDb, evs: seq<Event>, k: nat, item: string, epoch: int): Option<nat>
    requires k <= |evs|
  {
    if k == 0 then None
    else Learn(Belief(db, evs, k - 1, item, epoch), evs[k - 1], ReplyAt(db, evs, k - 1), item, epoch)
  }

  /** A belief is either the expiry stored for the current epoch or already past. */
  ghost predicate Backed(s: LeaseDb, item: string, epoch: int, belief: Option<nat>, clock: nat) {
    belief.None? || belief.value <= clock
    || (item in s.leases && s.leases[item].leaseEpoch == epoch && s.leases[item].expiresAt == belief)
  }

  lemma StepKeepsBacking(db: LeaseDb, e: Event, item: string, epoch: int, belief: Option<nat>)
    requires Valid(db) && item in db.items && !Deletes(e, item)
    requires item in db.leases ==> db.leases[item].leaseEpoch < I64_MAX
    requires Backed(db, item, epoch, belief, e.now)
    ensures
      var (db', reply) := Step(db, e);
      && Backed(db', item, epoch, Learn(belief, e, reply, item, epoch), e.now)
      && (Acquires(e, reply, item) && reply.acquired.value.lease.leaseEpoch != epoch ==>
            belief.None? || belief.value <= e.now)
  {
  }

  lemma {:induction false} BeliefsAreBacked(db: LeaseDb, evs: seq<Event>, k: nat, item: string, epoch: int)
    requires Lifetime(db, evs, item) && MonotoneClock(evs) && k < |evs|
    ensures Backed(StateAt(db, evs, k), item, epoch, Belief(db, evs, k, item, epoch), evs[k].now)
  {
    if k > 0 {
      hide Step;
      BeliefsAreBacked(db, evs, k - 1, item, epoch);
      ReachableValid(db, evs, k - 1);
      EpochCountsAcquisitions(db, evs, k - 1, item);
      StepKeepsBacking(StateAt(db, evs, k - 1), evs[k - 1], item, epoch, Belief(db, evs, k - 1, item, epoch));
      assert evs[k - 1].now <= evs[k].now;
    }
  }

  /** When an epoch is acquired, every other holder's last granted expiry has
      passed: nobody is overtaken before the time it was promised. */
  lemma AcquisitionWaitsOut(db: LeaseDb, evs: seq<Event>, k: nat, item: string, epoch: int)
    requires Lifetime(db, evs, item) && MonotoneClock(evs) && k < |evs|
    requires AcquiresAt(db, evs, k, item)
    ensures HandleAt(db, evs, k, item).leaseEpoch != epoch
            ==> Belief(db, evs, k, item, epoch).None? || Belief(db, evs, k, item, epoch).value <= evs[k].now
  {
    hide Step;
    BeliefsAreBacked(db, evs, k, item, epoch);
    ReachableValid(db, evs, k);
    EpochCountsAcquisitions(db, evs, k, item);
    StepKeepsBacking(StateAt(db, evs, k), evs[k], item, epoch, Belief(db, evs, k, item, epoch));
  }

  /** At any moment at most one holder of the item may believe it owns it. */
  lemma MutualExclusion(db: LeaseDb, evs: seq<Event>, k: nat, item: string, e1: int, e2: int)
    requires Lifetime(db, evs, item) && MonotoneClock(evs) && k < |evs| && e1 != e2
    ensures
      var b1, b2 := Belief(db, evs, k, item, e1), Belief(db, evs, k, item, e2);
      !(b1.Some? && evs[k].now < b1.value && b2.Some? && evs[k].now < b2.value)
  {
    BeliefsAreBacked(db, evs, k, item, e1);
    BeliefsAreBacked(db, evs, k, item, e2);
  }

  // ---- Lease accounting ----

  /** The event takes an expired ownership of the item away: the item inspects
      stale and is then recovered or acquired. */
  predicate TakesExpired(s: LeaseDb, e: Event, item: string) {
    && item in s.items
    && Inspect(s, s.items[item].runId, item, e.now).Stale?
    && match Step(s, e).1
       case CountReply(count) => count.Ok? && e.runId == s.items[item].runId
       case AcquireReply(_) => Acquires(e, Step(s, e).1, item)
       case _ => false
  }

  function TakenCount(db: LeaseDb, evs: seq<Event>, k: nat, item: string): nat
    requires k <= |evs|
  {
    if k == 0 then 0
    else TakenCount(db, evs, k - 1, item) + if TakesExpired(StateAt(db, evs, k - 1), evs[k - 1], item) then 1 else 0
  }

  function RecoveriesOf(s: LeaseDb, item: string): nat {
    if item in s.leases then s.leases[item].recoveryCount else 0
  }

  lemma StepCountsTaken(s: LeaseDb, e: Event, item: string)
    requires Valid(s) && item in s.items && !Deletes(e, item)
    ensures RecoveriesOf(Step(s, e).0, item) == RecoveriesOf(s, item) + if TakesExpired(s, e, item) then 1 else 0
  {
    StatusTextAgrees(s.items[item].status);
    if e.RecoverStale? {
      RecoverHitsAreInspectedStale(s, e.runId, e.now, item);
    }
  }

  /** The stored recovery count is the number of expired ownerships taken away,
      each once, whether by recovery or by the acquire that found it. */
  lemma {:induction false} RecoveryCountIsTaken(db: LeaseDb, evs: seq<Event>, k: nat, item: string)
    requires Lifetime(db, evs, item) && k <= |evs|
    ensures TakenCount(db, evs, k, item) == RecoveriesOf(StateAt(db, evs, k), item)
  {
    if k > 0 {
      hide Step, TakesExpired;
      RecoveryCountIsTaken(db, evs, k - 1, item);
      ReachableValid(db, evs, k - 1);
      EpochCountsAcquisitions(db, evs, k - 1, item);
      StepCountsTaken(StateAt(db, evs, k - 1), evs[k - 1], item);
    }
  }
}
