/** What the columns of an item and its lease row decide, and what a worker that holds
    a handle can rely on over a whole run. */
module LeaseHolding {
  import opened Common
  import opened QueueTypes
  import opened WorkerLease
  import opened LeaseTraces

  ghost predicate Open(status: string) {
    status != "success" && status != "failed" && status != "blocked"
  }

  /** The item is in the run, unfinished, and not deferred beyond `now`. */
  ghost predicate Workable(db: LeaseDb, runId: string, itemId: string, now: nat) {
    && itemId in db.items && db.items[itemId].runId == runId && Open(db.items[itemId].status)
    && (db.items[itemId].nextAttemptAt.None? || db.items[itemId].nextAttemptAt.value <= now)
  }

  /** Somebody's ownership of the item has not expired. */
  ghost predicate HeldPast(db: LeaseDb, itemId: string, now: nat) {
    && itemId in db.leases && db.leases[itemId].ownerId.Some?
    && db.leases[itemId].expiresAt.Some? && now < db.leases[itemId].expiresAt.value
  }

  // ---- Reading the columns ----

  /** What inspection reports, in terms of the stored columns alone. */
  lemma InspectReadsColumns(db: LeaseDb, runId: string, itemId: string, now: nat)
    requires Valid(db)
    ensures
      var state := Inspect(db, runId, itemId, now);
      && (state.MissingItem? <==> !(itemId in db.items && db.items[itemId].runId == runId))
      && (state.Finished? <==>
            itemId in db.items && db.items[itemId].runId == runId && !Open(db.items[itemId].status))
      && (state.Finished? ==> state.status.AsStr() == db.items[itemId].status)
      && (state.Deferred? <==>
            && itemId in db.items && db.items[itemId].runId == runId && Open(db.items[itemId].status)
            && db.items[itemId].nextAttemptAt.Some? && now < db.items[itemId].nextAttemptAt.value)
      && (state.Deferred? ==> Some(state.nextAttemptAt) == db.items[itemId].nextAttemptAt)
      && (state.Active? <==> Workable(db, runId, itemId, now) && HeldPast(db, itemId, now))
      && (state.Stale? <==>
            && Workable(db, runId, itemId, now) && !HeldPast(db, itemId, now)
            && itemId in db.leases && db.leases[itemId].ownerId.Some?)
      && (state.Active? || state.Stale? ==>
            && Some(state.ownerId) == db.leases[itemId].ownerId && state.leaseEpoch == db.leases[itemId].leaseEpoch
            && Some(state.expiresAt) == db.leases[itemId].expiresAt)
      && (state.Unowned? ==> state.leaseEpoch == if itemId in db.leases then db.leases[itemId].leaseEpoch else 0)
  {
    StatusTextAgrees(if itemId in db.items then db.items[itemId].status else "");
  }

  /** An acquire with a nonblank owner is granted exactly when the item can be worked on
      and nobody's ownership still runs. It then writes this row and no other. */
  lemma AcquireGrantedIff(db: LeaseDb, runId: string, itemId: string, ownerId: string, now: U64, ttl: U64)
    requires Valid(db) && !IsBlank(ownerId) && now <= I64_MAX && SaturatingAddU64(now, ttl) <= I64_MAX
    ensures
      var (db', reply) := AcquireStep(db, runId, itemId, ownerId, now, ttl);
      && (reply.Ok? && reply.value.Acquired? <==> Workable(db, runId, itemId, now) && !HeldPast(db, itemId, now))
      && (reply.Ok? && reply.value.Acquired? ==>
            var known := itemId in db.leases;
            var stale := known && db.leases[itemId].ownerId.Some?;
            var epoch := if known then SaturatingIncI64(db.leases[itemId].leaseEpoch) else 1;
            && reply.value.lease == Lease(runId, itemId, ownerId, epoch, now, now + ttl, stale)
            && db' == db.(leases := db.leases[itemId := LeaseRow(
                 runId, Some(ownerId), epoch, now, Some(now + ttl), None,
                 (if known then db.leases[itemId].recoveryCount else 0) + if stale then 1 else 0)]))
  {
    StatusTextAgrees(if itemId in db.items then db.items[itemId].status else "");
  }

  // ---- Holding a handle ----

  /** The row still has the handle's epoch and run, and no other owner. */
  ghost predicate Holds(s: LeaseDb, handle: Lease) {
    && handle.itemId in s.leases && handle.itemId in s.items
    && s.items[handle.itemId].runId == handle.runId && s.leases[handle.itemId].runId == handle.runId
    && s.leases[handle.itemId].leaseEpoch == handle.leaseEpoch
    && (s.leases[handle.itemId].ownerId == Some(handle.ownerId) || s.leases[handle.itemId].ownerId.None?)
  }

  /** Nobody but its owner sends heartbeats with the handle's epoch. */
  ghost predicate Disciplined(e: Event, handle: Lease) {
    e.Heartbeat? && e.lease.itemId == handle.itemId && e.lease.leaseEpoch == handle.leaseEpoch
    ==> e.lease.ownerId == handle.ownerId
  }

  lemma StepKeepsHolding(s: LeaseDb, e: Event, handle: Lease)
    requires Holds(s, handle) && Disciplined(e, handle)
    requires !Deletes(e, handle.itemId) && !Acquires(e, Step(s, e).1, handle.itemId)
    ensures Holds(Step(s, e).0, handle)
  {
  }

  /** The handle that an acquisition returns carries its run, item, owner and times, and
      the row holds for it. */
  lemma AcquiredHolds(db: LeaseDb, evs: seq<Event>, a: nat, item: string)
    requires Lifetime(db, evs, item) && a < |evs| && AcquiresAt(db, evs, a, item)
    ensures
      var handle, row := HandleAt(db, evs, a, item), StateAt(db, evs, a + 1).leases;
      && handle.itemId == item && handle.runId == evs[a].runId && handle.ownerId == evs[a].ownerId
      && handle.acquiredAt == evs[a].now && handle.expiresAt == SaturatingAddU64(evs[a].now, evs[a].ttl)
      && item in row && row[item].ownerId == Some(handle.ownerId) && row[item].expiresAt == Some(handle.expiresAt)
      && Holds(StateAt(db, evs, a + 1), handle)
  {
    EpochCountsAcquisitions(db, evs, a, item);
  }

  ghost predicate AllDisciplined(evs: seq<Event>, a: nat, c: nat, handle: Lease)
    requires c <= |evs|
  {
    forall k :: a < k < c ==> Disciplined(evs[k], handle)
  }

  ghost predicate NoneAcquired(db: LeaseDb, evs: seq<Event>, a: nat, c: nat, item: string)
    requires c <= |evs|
  {
    forall k :: a < k < c ==> !AcquiresAt(db, evs, k, item)
  }

  lemma {:induction false} HoldingLasts(db: LeaseDb, evs: seq<Event>, a: nat, c: nat, item: string)
    requires Lifetime(db, evs, item) && a < c <= |evs| && AcquiresAt(db, evs, a, item)
    requires NoneAcquired(db, evs, a, c, item) && AllDisciplined(evs, a, c, HandleAt(db, evs, a, item))
    ensures HandleAt(db, evs, a, item).itemId == item
    ensures Holds(StateAt(db, evs, c), HandleAt(db, evs, a, item))
    decreases c
  {
    hide Step, Disciplined, Holds;
    AcquiredHolds(db, evs, a, item);
    if a + 1 < c {
      HoldingLasts(db, evs, a, c - 1, item);
      assert !AcquiresAt(db, evs, c - 1, item) && Disciplined(evs[c - 1], HandleAt(db, evs, a, item));
      StepKeepsHolding(StateAt(db, evs, c - 1), evs[c - 1], HandleAt(db, evs, a, item));
    }
  }

  /** A heartbeat with the handle of event a is accepted exactly when the item is still
      unfinished and nobody has acquired it since; released, recovered or expired in the
      meantime makes no difference. It then owns the item again until `now + ttl`. */
  lemma HeartbeatAcceptedIff(db: LeaseDb, evs: seq<Event>, a: nat, c: nat, item: string)
    requires Lifetime(db, evs, item) && a < c < |evs| && AcquiresAt(db, evs, a, item)
    requires AllDisciplined(evs, a, c, HandleAt(db, evs, a, item))
    requires evs[c].Heartbeat? && evs[c].lease == HandleAt(db, evs, a, item)
    requires evs[c].now <= I64_MAX && SaturatingAddU64(evs[c].now, evs[c].ttl) <= I64_MAX
    ensures item in StateAt(db, evs, c).items && item in StateAt(db, evs, c).leases
    ensures ReplyAt(db, evs, c) == HandleReply(Ok(
      Open(StateAt(db, evs, c).items[item].status) && NoneAcquired(db, evs, a, c, item)))
    ensures
      var s, next := StateAt(db, evs, c), StateAt(db, evs, c + 1);
      if ReplyAt(db, evs, c) == HandleReply(Ok(true)) then
        next == s.(leases := s.leases[item := s.leases[item].(
          ownerId := Some(evs[a].ownerId), heartbeatAt := evs[c].now,
          expiresAt := Some(evs[c].now + evs[c].ttl), releasedAt := None)])
      else next == s
  {
    hide Step, Holds, AllDisciplined, Lifetime, AcquiresAt, HandleAt, SaturatingAddU64;
    RowExists(db, evs, a, c, item);
    if NoneAcquired(db, evs, a, c, item) {
      HeldHandleAccepted(db, evs, a, c, item);
    } else {
      OvertakenHandleRefused(db, evs, a, c, item);
    }
  }

  lemma RowExists(db: LeaseDb, evs: seq<Event>, a: nat, c: nat, item: string)
    requires Lifetime(db, evs, item) && a < c < |evs| && AcquiresAt(db, evs, a, item)
    ensures item in StateAt(db, evs, c).items && item in StateAt(db, evs, c).leases
  {
    hide Step;
    EpochCountsAcquisitions(db, evs, c, item);
    AcquireCountMonotone(db, evs, a + 1, c, item);
  }

  lemma OvertakenHandleRefused(db: LeaseDb, evs: seq<Event>, a: nat, c: nat, item: string)
    requires Lifetime(db, evs, item) && a < c < |evs| && AcquiresAt(db, evs, a, item)
    requires !NoneAcquired(db, evs, a, c, item)
    requires evs[c].Heartbeat? && evs[c].lease == HandleAt(db, evs, a, item)
    requires evs[c].now <= I64_MAX && SaturatingAddU64(evs[c].now, evs[c].ttl) <= I64_MAX
    ensures ReplyAt(db, evs, c) == HandleReply(Ok(false))
    ensures StateAt(db, evs, c + 1) == StateAt(db, evs, c)
  {
    hide Step;
    var b :| a < b < c && AcquiresAt(db, evs, b, item);
    AcquiredEpoch(db, evs, a, item);
    Fencing(db, evs, a, b, c, item);
    assert Uses(evs[c], item);
    HeartbeatReplies(StateAt(db, evs, c), evs[c]);
  }

  lemma HeldHandleAccepted(db: LeaseDb, evs: seq<Event>, a: nat, c: nat, item: string)
    requires Lifetime(db, evs, item) && a < c < |evs| && AcquiresAt(db, evs, a, item)
    requires NoneAcquired(db, evs, a, c, item)
    requires AllDisciplined(evs, a, c, HandleAt(db, evs, a, item))
    requires evs[c].Heartbeat? && evs[c].lease == HandleAt(db, evs, a, item)
    requires evs[c].now <= I64_MAX && SaturatingAddU64(evs[c].now, evs[c].ttl) <= I64_MAX
    ensures item in StateAt(db, evs, c).items && item in StateAt(db, evs, c).leases
    ensures ReplyAt(db, evs, c) == HandleReply(Ok(Open(StateAt(db, evs, c).items[item].status)))
    ensures
      var s, next := StateAt(db, evs, c), StateAt(db, evs, c + 1);
      if Open(s.items[item].status) then
        next == s.(leases := s.leases[item := s.leases[item].(
          ownerId := Some(evs[a].ownerId), heartbeatAt := evs[c].now,
          expiresAt := Some(evs[c].now + evs[c].ttl), releasedAt := None)])
      else next == s
  {
    hide Step, AllDisciplined, NoneAcquired, Lifetime;
    HoldingLasts(db, evs, a, c, item);
    AcquiredHolds(db, evs, a, item);
    HeldHeartbeat(StateAt(db, evs, c), evs[c]);
    HeartbeatReplies(StateAt(db, evs, c), evs[c]);
  }

  lemma HeartbeatReplies(s: LeaseDb, e: Event)
    requires e.Heartbeat? && e.now <= I64_MAX && SaturatingAddU64(e.now, e.ttl) <= I64_MAX
    ensures Step(s, e).1 == HandleReply(Ok(true)) || (Step(s, e).1 == HandleReply(Ok(false)) && Step(s, e).0 == s)
  {
  }

  lemma HeldHeartbeat(s: LeaseDb, e: Event)
    requires e.Heartbeat? && Holds(s, e.lease) && e.now <= I64_MAX && SaturatingAddU64(e.now, e.ttl) <= I64_MAX
    ensures Step(s, e).1 == HandleReply(Ok(Open(s.items[e.lease.itemId].status)))
    ensures Open(s.items[e.lease.itemId].status) ==>
      Step(s, e).0 == s.(leases := s.leases[e.lease.itemId := s.leases[e.lease.itemId].(
          ownerId := Some(e.lease.ownerId), heartbeatAt := e.now,
          expiresAt := Some(e.now + e.ttl), releasedAt := None)])
  {
  }

  // ---- Giving a handle back ----

  /** The row belongs to the handle's owner. */
  ghost predicate Owns(s: LeaseDb, handle: Lease) {
    Holds(s, handle) && s.leases[handle.itemId].ownerId == Some(handle.ownerId)
  }

  /** The event ends the ownership: an accepted release, or a recovery that takes it. */
  ghost predicate Ends(s: LeaseDb, e: Event, handle: Lease) {
    || (e.Release? && e.lease.itemId == handle.itemId && Step(s, e).1 == HandleReply(Ok(true)))
    || TakesExpired(s, e, handle.itemId)
  }

  lemma StepKeepsOwning(s: LeaseDb, e: Event, handle: Lease)
    requires Valid(s) && Owns(s, handle) && Disciplined(e, handle)
    requires !Deletes(e, handle.itemId) && !Acquires(e, Step(s, e).1, handle.itemId) && !Ends(s, e, handle)
    ensures Owns(Step(s, e).0, handle)
  {
    if e.RecoverStale? {
      RecoverHitsAreInspectedStale(s, e.runId, e.now, handle.itemId);
    }
  }

  lemma {:induction false} OwningLasts(db: LeaseDb, evs: seq<Event>, a: nat, c: nat, item: string)
    requires Lifetime(db, evs, item) && a < c <= |evs| && AcquiresAt(db, evs, a, item)
    requires NoneAcquired(db, evs, a, c, item)
    requires AllDisciplined(evs, a, c, HandleAt(db, evs, a, item))
    requires forall k :: a < k < c ==> !Ends(StateAt(db, evs, k), evs[k], HandleAt(db, evs, a, item))
    ensures HandleAt(db, evs, a, item).itemId == item
    ensures Owns(StateAt(db, evs, c), HandleAt(db, evs, a, item))
    decreases c
  {
    hide Step, Disciplined, Holds, Ends;
    AcquiredHolds(db, evs, a, item);
    if a + 1 < c {
      OwningLasts(db, evs, a, c - 1, item);
      ReachableValid(db, evs, c - 1);
      assert !AcquiresAt(db, evs, c - 1, item) && Disciplined(evs[c - 1], HandleAt(db, evs, a, item));
      StepKeepsOwning(StateAt(db, evs, c - 1), evs[c - 1], HandleAt(db, evs, a, item));
    }
  }

  /** A holder whose ownership nobody ended can give it back, whatever the item's status,
      and the row is then free: ownerless, without expiry, at the same epoch. */
  lemma ReleaseAccepted(db: LeaseDb, evs: seq<Event>, a: nat, c: nat, item: string)
    requires Lifetime(db, evs, item) && a < c < |evs| && AcquiresAt(db, evs, a, item)
    requires NoneAcquired(db, evs, a, c, item)
    requires AllDisciplined(evs, a, c, HandleAt(db, evs, a, item))
    requires forall k :: a < k < c ==> !Ends(StateAt(db, evs, k), evs[k], HandleAt(db, evs, a, item))
    requires evs[c].Release? && evs[c].lease == HandleAt(db, evs, a, item) && evs[c].now <= I64_MAX
    ensures item in StateAt(db, evs, c).leases
    ensures ReplyAt(db, evs, c) == HandleReply(Ok(true))
    ensures
      var s := StateAt(db, evs, c);
      StateAt(db, evs, c + 1) == s.(leases := s.leases[item := s.leases[item].(
        ownerId := None, expiresAt := None, releasedAt := Some(evs[c].now))])
  {
    OwningLasts(db, evs, a, c, item);
    OwnedRelease(StateAt(db, evs, c), evs[c]);
    hide Step, Owns;
  }

  lemma OwnedRelease(s: LeaseDb, e: Event)
    requires e.Release? && Owns(s, e.lease) && e.now <= I64_MAX
    ensures Step(s, e).1 == HandleReply(Ok(true))
    ensures e.lease.itemId in s.leases
    ensures Step(s, e).0 == s.(leases := s.leases[e.lease.itemId := s.leases[e.lease.itemId].(
        ownerId := None, expiresAt := None, releasedAt := Some(e.now))])
  {
  }

  /** Only the stored owner can release, and only with the stored epoch: any other
      handle's release is refused without effect. */
  lemma ReleaseNeedsOwner(s: LeaseDb, lease: Lease, now: U64)
    ensures ReleaseStep(s, lease, now).1 == Ok(true) ==>
      && lease.itemId in s.leases && s.leases[lease.itemId].ownerId == Some(lease.ownerId)
      && s.leases[lease.itemId].leaseEpoch == lease.leaseEpoch && s.leases[lease.itemId].runId == lease.runId
    ensures ReleaseStep(s, lease, now).1 != Ok(true) ==> ReleaseStep(s, lease, now).0 == s
  {
  }
}
