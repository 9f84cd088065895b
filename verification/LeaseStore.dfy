/** The lease statements as methods over the item and lease tables they update. */
module LeaseStore {
  import opened Common
  import opened QueueTypes
  import opened WorkerLease
  import opened LeaseHolding

  class Store {
    var items: map<string, ItemRow>
    var leases: map<string, LeaseRow>

    ghost function Db(): LeaseDb
      reads this
    {
      LeaseDb(items, leases)
    }

    constructor ()
      ensures Db() == LeaseDb(map[], map[]) && Valid(Db())
    {
      items := map[];
      leases := map[];
    }

    method Acquire(runId: string, itemId: string, ownerId: string, now: U64, ttl: U64)
      returns (reply: Result<AcquireOutcome, LeaseError>)
      modifies this`leases
      ensures (Db(), reply) == AcquireStep(old(Db()), runId, itemId, ownerId, now, ttl)
      ensures old(Valid(Db())) ==> Valid(Db())
    {
      if IsBlank(ownerId) {
        return Err(EmptyOwner);
      }
      if itemId !in items || items[itemId].runId != runId {
        return Ok(Missing);
      }
      var item := items[itemId];
      var status := ItemStatusFromDb(item.status);
      if status.IsTerminal() {
        return Ok(Terminal(status));
      }
      if item.nextAttemptAt.Some? && item.nextAttemptAt.value > now {
        return Ok(Retryable(item.nextAttemptAt.value));
      }
      var epoch, recovered := 1, false;
      if itemId in leases && leases[itemId].runId == runId {
        var lease := leases[itemId];
        if lease.ownerId.Some? && lease.expiresAt.Some? && lease.expiresAt.value > now {
          return Ok(Busy(lease.ownerId.value, lease.leaseEpoch, lease.expiresAt.value));
        }
        recovered := lease.ownerId.Some? && (lease.expiresAt.None? || lease.expiresAt.value <= now);
        epoch := SaturatingIncI64(lease.leaseEpoch);
      }
      var expiresAt := SaturatingAddU64(now, ttl);
      if !Storable(now) || !Storable(expiresAt) {
        return Err(IntegerOutOfRange);
      }
      var count := if recovered then 1 else 0;
      if itemId in leases {
        count := leases[itemId].recoveryCount + count;
      }
      leases := leases[itemId := LeaseRow(runId, Some(ownerId), epoch, now, Some(expiresAt), None, count)];
      reply := Ok(Acquired(Lease(runId, itemId, ownerId, epoch, now, expiresAt, recovered)));
    }

    method Heartbeat(lease: Lease, now: U64, ttl: U64) returns (reply: Result<bool, LeaseError>)
      modifies this`leases
      ensures (Db(), reply) == HeartbeatStep(old(Db()), lease, now, ttl)
      ensures old(Valid(Db())) ==> Valid(Db())
      ensures now <= I64_MAX && SaturatingAddU64(now, ttl) <= I64_MAX ==>
        reply == Ok(old(Holds(Db(), lease)) && Open(old(items)[lease.itemId].status))
    {
      var expiresAt := SaturatingAddU64(now, ttl);
      if !Storable(now) || !Storable(expiresAt) {
        return Err(IntegerOutOfRange);
      }
      var id := lease.itemId;
      if id !in leases || leases[id].runId != lease.runId || leases[id].leaseEpoch != lease.leaseEpoch {
        return Ok(false);
      }
      var row := leases[id];
      if row.ownerId.Some? && row.ownerId.value != lease.ownerId {
        return Ok(false);
      }
      if id !in items || items[id].runId != lease.runId || SqlTerminal(items[id].status) {
        return Ok(false);
      }
      leases := leases[id := row.(ownerId := Some(lease.ownerId), heartbeatAt := now,
                                  expiresAt := Some(expiresAt), releasedAt := None)];
      reply := Ok(true);
    }

    method Release(lease: Lease, now: U64) returns (reply: Result<bool, LeaseError>)
      modifies this`leases
      ensures (Db(), reply) == ReleaseStep(old(Db()), lease, now)
      ensures old(Valid(Db())) ==> Valid(Db())
    {
      if !Storable(now) {
        return Err(IntegerOutOfRange);
      }
      var id := lease.itemId;
      if id !in leases || leases[id].runId != lease.runId || leases[id].leaseEpoch != lease.leaseEpoch
         || leases[id].ownerId != Some(lease.ownerId) {
        return Ok(false);
      }
      leases := leases[id := leases[id].(ownerId := None, expiresAt := None, releasedAt := Some(now))];
      reply := Ok(true);
    }

    /** Changes exactly the rows whose item inspects stale, and counts them. */
    method RecoverStale(runId: string, now: U64) returns (reply: Result<nat, LeaseError>)
      requires Valid(Db())
      modifies this`leases
      ensures (Db(), reply) == RecoverStep(old(Db()), runId, now)
      ensures Valid(Db())
      ensures Storable(now) ==>
        reply == Ok(|set i | i in old(items) && Inspect(old(Db()), runId, i, now).Stale?|)
      ensures Storable(now) ==> forall i :: !Inspect(Db(), runId, i, now).Stale?
    {
      hide Inspect;
      if !Storable(now) {
        return Err(IntegerOutOfRange);
      }
      ghost var before := Db();
      var hits := set i | i in leases
                       && leases[i].runId == runId
                       && leases[i].ownerId.Some? && leases[i].expiresAt.Some? && leases[i].expiresAt.value <= now
                       && i in items && items[i].runId == runId
                       && !SqlTerminal(items[i].status)
                       && (items[i].nextAttemptAt.None? || items[i].nextAttemptAt.value <= now);
      assert hits == RecoverIds(before, runId, now);
      leases := map i | i in leases ::
        if i in hits then
          leases[i].(ownerId := None, expiresAt := None, releasedAt := Some(now),
                     recoveryCount := leases[i].recoveryCount + 1)
        else leases[i];
      assert leases == RecoverStep(before, runId, now).0.leases;
      reply := Ok(|hits|);
      assert (Db(), reply) == RecoverStep(before, runId, now);
      RecoverClearsExactlyStale(before, runId, now);
    }

    method InspectLease(runId: string, itemId: string, now: U64) returns (state: LeaseState)
      ensures state == Inspect(Db(), runId, itemId, now)
    {
      if itemId !in items || items[itemId].runId != runId {
        return MissingItem;
      }
      var status := ItemStatusFromDb(items[itemId].status);
      if status.IsTerminal() {
        return Finished(status);
      }
      if items[itemId].nextAttemptAt.Some? && items[itemId].nextAttemptAt.value > now {
        return Deferred(items[itemId].nextAttemptAt.value);
      }
      if itemId !in leases || leases[itemId].runId != runId {
        return Unowned(0);
      }
      var lease := leases[itemId];
      match lease.ownerId
      case None =>
        return Unowned(lease.leaseEpoch);
      case Some(owner) =>
        var expiresAt := if lease.expiresAt.Some? then lease.expiresAt.value else now;
        if expiresAt > now {
          return Active(owner, lease.leaseEpoch, expiresAt);
        }
        return Stale(owner, lease.leaseEpoch, expiresAt);
    }

    /** The join that lists the active leases, proved against single-item inspection. */
    method ActiveLeaseIds(runId: string, now: U64) returns (ids: set<string>)
      ensures forall i :: i in ids <==> InspectActive(runId, i, now)
    {
      ids := set i | i in leases
                  && leases[i].runId == runId
                  && leases[i].ownerId.Some? && leases[i].expiresAt.Some? && leases[i].expiresAt.value > now
                  && i in items && items[i].runId == runId
                  && !SqlTerminal(items[i].status)
                  && (items[i].nextAttemptAt.None? || items[i].nextAttemptAt.value <= now);
      forall i
        ensures i in ids <==> InspectActive(runId, i, now)
      {
        ActiveIdsAreInspectedActive(Db(), runId, now, i);
      }
    }

    ghost predicate InspectActive(runId: string, itemId: string, now: nat)
      reads this
    {
      Inspect(Db(), runId, itemId, now).Active?
    }
  }
}
