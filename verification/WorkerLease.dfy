/** The fenced worker lease of one queue item: what each statement of the
    lease protocol does to the item and lease tables, and what it replies.
    Every function here is one SQL transaction of the store. */
module WorkerLease {
  import opened Common
  import opened QueueTypes

  datatype ItemRow = ItemRow(runId: string, status: string, nextAttemptAt: Option<nat>)

  datatype LeaseRow = LeaseRow(
    runId: string,
    ownerId: Option<string>,
    leaseEpoch: int,
    heartbeatAt: nat,
    expiresAt: Option<nat>,
    releasedAt: Option<nat>,
    recoveryCount: nat)

  /** The handle a worker keeps after a successful acquire. */
  datatype Lease = Lease(
    runId: string,
    itemId: string,
    ownerId: string,
    leaseEpoch: int,
    acquiredAt: nat,
    expiresAt: nat,
    recoveredStale: bool)

  datatype LeaseDb = LeaseDb(items: map<string, ItemRow>, leases: map<string, LeaseRow>)

  datatype AcquireOutcome =
    | Acquired(lease: Lease)
    | Busy(ownerId: string, leaseEpoch: int, expiresAt: nat)
    | Retryable(nextAttemptAt: nat)
    | Terminal(status: QueueItemStatus)
    | Missing

  datatype LeaseState =
    | MissingItem
    | Unowned(leaseEpoch: int)
    | Active(ownerId: string, leaseEpoch: int, expiresAt: nat)
    | Stale(ownerId: string, leaseEpoch: int, expiresAt: nat)
    | Deferred(nextAttemptAt: nat)
    | Finished(status: QueueItemStatus)

  datatype LeaseError = EmptyOwner | IntegerOutOfRange

  /** Foreign keys of the lease table, and owner and expiry set together. */
  ghost predicate Valid(db: LeaseDb) {
    forall i :: i in db.leases ==>
      && i in db.items && db.leases[i].runId == db.items[i].runId
      && (db.leases[i].ownerId.Some? <==> db.leases[i].expiresAt.Some?)
  }

  // ---- Row lookups ----

  function ItemOf(db: LeaseDb, runId: string, itemId: string): Option<ItemRow> {
    if itemId in db.items && db.items[itemId].runId == runId then Some(db.items[itemId]) else None
  }

  function RowOf(db: LeaseDb, runId: string, itemId: string): Option<LeaseRow> {
    if itemId in db.leases && db.leases[itemId].runId == runId then Some(db.leases[itemId]) else None
  }

  predicate DeferredPast(item: ItemRow, now: nat) {
    item.nextAttemptAt.Some? && item.nextAttemptAt.value > now
  }

  predicate RowActive(row: LeaseRow, now: nat) {
    row.ownerId.Some? && row.expiresAt.Some? && row.expiresAt.value > now
  }

  predicate RowExpired(row: LeaseRow, now: nat) {
    row.ownerId.Some? && (row.expiresAt.None? || row.expiresAt.value <= now)
  }

  // ---- Acquire ----

  function AcquireStep(db: LeaseDb, runId: string, itemId: string, ownerId: string, now: U64, ttl: U64)
    : (LeaseDb, Result<AcquireOutcome, LeaseError>)
  {
    if IsBlank(ownerId) then (db, Err(EmptyOwner)) else
    var item := ItemOf(db, runId, itemId);
    if item.None? then (db, Ok(Missing)) else
    var status := ItemStatusFromDb(item.value.status);
    if status.IsTerminal() then (db, Ok(Terminal(status))) else
    if DeferredPast(item.value, now) then (db, Ok(Retryable(item.value.nextAttemptAt.value))) else
    var existing := RowOf(db, runId, itemId);
    if existing.Some? && RowActive(existing.value, now) then
      (db, Ok(Busy(existing.value.ownerId.value, existing.value.leaseEpoch, existing.value.expiresAt.value)))
    else
      var recovered := existing.Some? && RowExpired(existing.value, now);
      var epoch := if existing.Some? then SaturatingIncI64(existing.value.leaseEpoch) else 1;
      var expiresAt := SaturatingAddU64(now, ttl);
      if !Storable(now) || !Storable(expiresAt) then (db, Err(IntegerOutOfRange)) else
      var oldCount := if itemId in db.leases then db.leases[itemId].recoveryCount else 0;
      var row := LeaseRow(runId, Some(ownerId), epoch, now, Some(expiresAt), None,
                          oldCount + if recovered then 1 else 0);
      (db.(leases := db.leases[itemId := row]),
       Ok(Acquired(Lease(runId, itemId, ownerId, epoch, now, expiresAt, recovered))))
  }

  // ---- Heartbeat and release ----

  predicate HandleMatches(db: LeaseDb, lease: Lease) {
    && lease.itemId in db.leases
    && db.leases[lease.itemId].runId == lease.runId
    && db.leases[lease.itemId].leaseEpoch == lease.leaseEpoch
  }

  predicate HeartbeatHits(db: LeaseDb, lease: Lease) {
    && HandleMatches(db, lease)
    && (db.leases[lease.itemId].ownerId == Some(lease.ownerId) || db.leases[lease.itemId].ownerId.None?)
    && lease.itemId in db.items
    && db.items[lease.itemId].runId == lease.runId
    && !SqlTerminal(db.items[lease.itemId].status)
  }

  function HeartbeatStep(db: LeaseDb, lease: Lease, now: U64, ttl: U64): (LeaseDb, Result<bool, LeaseError>) {
    var expiresAt := SaturatingAddU64(now, ttl);
    if !Storable(now) || !Storable(expiresAt) then (db, Err(IntegerOutOfRange)) else
    if !HeartbeatHits(db, lease) then (db, Ok(false)) else
    var row := db.leases[lease.itemId].(
        ownerId := Some(lease.ownerId), heartbeatAt := now, expiresAt := Some(expiresAt), releasedAt := None);
    (db.(leases := db.leases[lease.itemId := row]), Ok(true))
  }

  predicate ReleaseHits(db: LeaseDb, lease: Lease) {
    HandleMatches(db, lease) && db.leases[lease.itemId].ownerId == Some(lease.ownerId)
  }

  function ReleaseStep(db: LeaseDb, lease: Lease, now: U64): (LeaseDb, Result<bool, LeaseError>) {
    if !Storable(now) then (db, Err(IntegerOutOfRange)) else
    if !ReleaseHits(db, lease) then (db, Ok(false)) else
    var row := db.leases[lease.itemId].(ownerId := None, expiresAt := None, releasedAt := Some(now));
    (db.(leases := db.leases[lease.itemId := row]), Ok(true))
  }

  // ---- Stale recovery ----

  predicate RecoverHits(db: LeaseDb, runId: string, now: nat, itemId: string) {
    && itemId in db.leases
    && db.leases[itemId].runId == runId
    && db.leases[itemId].ownerId.Some?
    && db.leases[itemId].expiresAt.Some?
    && db.leases[itemId].expiresAt.value <= now
    && itemId in db.items
    && db.items[itemId].runId == runId
    && !SqlTerminal(db.items[itemId].status)
    && !DeferredPast(db.items[itemId], now)
  }

  function RecoverIds(db: LeaseDb, runId: string, now: nat): set<string> {
    set i | i in db.leases && RecoverHits(db, runId, now, i)
  }

  function RecoveredRow(row: LeaseRow, now: nat): LeaseRow {
    row.(ownerId := None, expiresAt := None, releasedAt := Some(now), recoveryCount := row.recoveryCount + 1)
  }

  function RecoverStep(db: LeaseDb, runId: string, now: U64): (LeaseDb, Result<nat, LeaseError>) {
    if !Storable(now) then (db, Err(IntegerOutOfRange)) else
    var leases := map i | i in db.leases ::
      if RecoverHits(db, runId, now, i) then RecoveredRow(db.leases[i], now) else db.leases[i];
    (db.(leases := leases), Ok(|RecoverIds(db, runId, now)|))
  }

  // ---- Read-only views ----

  function Inspect(db: LeaseDb, runId: string, itemId: string, now: nat): LeaseState {
    var item := ItemOf(db, runId, itemId);
    if item.None? then MissingItem else
    var status := ItemStatusFromDb(item.value.status);
    if status.IsTerminal() then Finished(status) else
    if DeferredPast(item.value, now) then Deferred(item.value.nextAttemptAt.value) else
    var lease := RowOf(db, runId, itemId);
    if lease.None? then Unowned(0) else
    if lease.value.ownerId.None? then Unowned(lease.value.leaseEpoch) else
    var expiresAt := if lease.value.expiresAt.Some? then lease.value.expiresAt.value else now;
    if expiresAt > now then Active(lease.value.ownerId.value, lease.value.leaseEpoch, expiresAt)
    else Stale(lease.value.ownerId.value, lease.value.leaseEpoch, expiresAt)
  }

  function ActiveIds(db: LeaseDb, runId: string, now: nat): set<string> {
    set i | i in db.leases
         && db.leases[i].runId == runId
         && RowActive(db.leases[i], now)
         && i in db.items && db.items[i].runId == runId
         && !SqlTerminal(db.items[i].status)
         && !DeferredPast(db.items[i], now)
  }

  /** Releasing is not final: the very same handle is accepted again by its next
      heartbeat exactly when the item is still unfinished. Only a new epoch fences. */
  lemma ReleasedHandleResumes(db: LeaseDb, lease: Lease, released: U64, now: U64, ttl: U64)
    requires Valid(db) && ReleaseStep(db, lease, released).1 == Ok(true)
    requires Storable(now) && Storable(SaturatingAddU64(now, ttl))
    ensures
      var db' := ReleaseStep(db, lease, released).0;
      && !RowActive(db'.leases[lease.itemId], now)
      && (HeartbeatStep(db', lease, now, ttl).1 == Ok(true)
          <==> !ItemStatusFromDb(db.items[lease.itemId].status).IsTerminal())
  {
    StatusTextAgrees(db.items[lease.itemId].status);
  }

  // ---- The views agree ----

  /** What inspect says decides what acquire does, and the converse: the two
      classify every database, item and time the same way. */
  lemma AcquireFollowsInspect(db: LeaseDb, runId: string, itemId: string, ownerId: string, now: U64, ttl: U64)
    requires !IsBlank(ownerId) && Storable(SaturatingAddU64(now, ttl))
    ensures
      var seen := Inspect(db, runId, itemId, now);
      var (db', reply) := AcquireStep(db, runId, itemId, ownerId, now, ttl);
      && reply.Ok?
      && (seen.MissingItem? <==> reply.value.Missing?)
      && (seen.Finished? <==> reply.value.Terminal?)
      && (seen.Finished? ==> reply.value == Terminal(seen.status))
      && (seen.Deferred? <==> reply.value.Retryable?)
      && (seen.Deferred? ==> reply.value == Retryable(seen.nextAttemptAt))
      && (seen.Active? <==> reply.value.Busy?)
      && (seen.Active? ==> reply.value == Busy(seen.ownerId, seen.leaseEpoch, seen.expiresAt))
      && (seen.Unowned? || seen.Stale? <==> reply.value.Acquired?)
      && (reply.value.Acquired? ==>
            && reply.value.lease.leaseEpoch == SaturatingIncI64(seen.leaseEpoch)
            && reply.value.lease.recoveredStale == seen.Stale?
            && Inspect(db', runId, itemId, now) ==
               if ttl == 0 then Stale(ownerId, reply.value.lease.leaseEpoch, now)
               else Active(ownerId, reply.value.lease.leaseEpoch, SaturatingAddU64(now, ttl)))
      && (!reply.value.Acquired? ==> db' == db)
  {
    StatusTextAgrees(if itemId in db.items then db.items[itemId].status else "");
  }

  /** The bulk query returns exactly the items that inspect calls active. */
  lemma ActiveIdsAreInspectedActive(db: LeaseDb, runId: string, now: nat, itemId: string)
    ensures itemId in ActiveIds(db, runId, now) <==> Inspect(db, runId, itemId, now).Active?
  {
    StatusTextAgrees(if itemId in db.items then db.items[itemId].status else "");
  }

  lemma RecoverHitsAreInspectedStale(db: LeaseDb, runId: string, now: nat, itemId: string)
    requires Valid(db)
    ensures RecoverHits(db, runId, now, itemId) <==> Inspect(db, runId, itemId, now).Stale?
  {
    StatusTextAgrees(if itemId in db.items then db.items[itemId].status else "");
  }

  /** Recovery changes exactly the items inspected stale, reports how many
      there were, leaves their epochs alone and leaves none of them stale. */
  lemma RecoverClearsExactlyStale(db: LeaseDb, runId: string, now: U64)
    requires Valid(db) && Storable(now)
    ensures
      var (db', reply) := RecoverStep(db, runId, now);
      && Valid(db') && db'.items == db.items && db'.leases.Keys == db.leases.Keys
      && reply == Ok(|set i | i in db.items && Inspect(db, runId, i, now).Stale?|)
      && (forall i :: i in db.leases ==>
            if Inspect(db, runId, i, now).Stale? then
              && Inspect(db', runId, i, now) == Unowned(db.leases[i].leaseEpoch)
              && db'.leases[i] == db.leases[i].(ownerId := None, expiresAt := None, releasedAt := Some(now),
                                                recoveryCount := db.leases[i].recoveryCount + 1)
            else db'.leases[i] == db.leases[i])
      && (forall i :: !Inspect(db', runId, i, now).Stale?)
  {
    var (db', reply) := RecoverStep(db, runId, now);
    forall i
      ensures RecoverHits(db, runId, now, i) <==> Inspect(db, runId, i, now).Stale?
      ensures Inspect(db, runId, i, now).Stale? ==> i in db.items && i in db.leases
      ensures !Inspect(db', runId, i, now).Stale?
    {
      RecoverHitsAreInspectedStale(db, runId, now, i);
    }
    assert RecoverIds(db, runId, now) == set i | i in db.items && Inspect(db, runId, i, now).Stale?;
  }
}
