/** The item row and its attempt ledger, with the methods that write both. */
module LedgerStore {
  import opened Common
  import opened QueueTypes
  import opened AttemptLedger

  class Store {
    var item: Item
    var rows: map<int, Attempt>

    ghost function Db(): Ledger
      reads this
    {
      Ledger(item, rows)
    }

    constructor (item: Item)
      ensures Db() == Write(Ledger(item, map[]), item)
    {
      this.item := item;
      rows := Sync(map[], item);
    }

    /** Insert or update the row of the given item's iteration. */
    method SyncAttempt(held: Item)
      modifies this`rows
      ensures rows == Sync(old(rows), held)
      ensures held.recoveryAttempts < I64_MAX ==> Shows(old(rows), rows, held)
    {
      hide Shows;
      if held.recoveryAttempts < I64_MAX {
        SyncShows(rows, held);
      }
      var status := ItemStatusFromDb(held.status);
      var failure: Option<string> := None;
      if status.IsFailedOrBlocked() {
        var message := TrimEnd(TrimStart(held.message));
        if message != "" {
          failure := Some(message);
        }
      }
      var finished := if status.IsTerminal() then Some(held.updatedAt) else None;
      var key := Iteration(held);
      if key !in rows {
        rows := rows[key := Attempt(held.status, failure, held.agentId, held.startedAt, finished)];
      } else {
        var row := rows[key];
        row := row.(status := held.status, failureMessage := failure);
        if held.agentId.Some? {
          row := row.(agentId := held.agentId);
        }
        if finished.Some? {
          row := row.(finishedAt := finished);
        }
        rows := rows[key := row];
      }
    }

    method FinishAttempt(failure: string, now: nat)
      modifies this`rows
      ensures rows == Finish(old(rows), item, failure, now)
    {
      var key := Iteration(item);
      var row := Attempt("failed", Some(failure), item.agentId, item.startedAt, Some(now));
      if key in rows {
        row := row.(startedAt := rows[key].startedAt);
        if item.agentId.None? {
          row := row.(agentId := rows[key].agentId);
        }
      }
      rows := rows[key := row];
    }

    method UpdateItem(status: string, message: string, agentId: Option<string>, attempts: int,
                      nextAttemptAt: Option<nat>, now: nat)
      modifies this
      ensures Db() == Apply(old(Db()), Update(status, message, agentId, attempts, nextAttemptAt, now), item, 0)
      ensures item.status == status && item.message == message && item.attempts == attempts
      ensures item.nextAttemptAt == nextAttemptAt && item.updatedAt == now
      ensures item.agentId == if agentId.Some? then agentId else old(item).agentId
      ensures item.recoveryAttempts == old(item).recoveryAttempts && item.startedAt == old(item).startedAt
      ensures old(item).recoveryAttempts < I64_MAX ==> Shows(old(rows), rows, item)
    {
      item := item.(status := status, message := message, attempts := attempts,
                    nextAttemptAt := nextAttemptAt, updatedAt := now);
      if agentId.Some? {
        item := item.(agentId := agentId);
      }
      SyncAttempt(item);
      if item.recoveryAttempts < I64_MAX {
        SyncShows(old(rows), item);
      }
    }

    /** Close the current iteration as failed, then put the item at the next one. */
    method ScheduleItemRecovery(message: string, failure: string, recoveryAttempts: int, now: nat)
      modifies this
      ensures Db() == ScheduleRecovery(old(Db()), message, failure, recoveryAttempts, now)
    {
      FinishAttempt(failure, now);
      item := item.(status := "pending", message := message, agentId := None, recoveryAttempts := recoveryAttempts,
                    nextAttemptAt := None, updatedAt := now);
      SyncAttempt(item);
    }

    /** Project the caller's snapshot, then count the ledger. */
    method IterationsStartedBy(snapshot: Item) returns (started: int)
      modifies this`rows
      ensures rows == Sync(old(rows), snapshot)
      ensures started == IterationsStarted(rows, snapshot)
    {
      SyncAttempt(snapshot);
      started := |rows|;
      if Iteration(snapshot) > started {
        started := Iteration(snapshot);
      }
    }

    /** Automatic recovery of a failed item, whatever iteration the item is at and however
        stale the caller's snapshot is: refused once three iterations have started;
        otherwise the item's iteration is closed and the one after the newest opened. */
    method ScheduleAutoRecovery(snapshot: Item, message: string, failure: string, now: nat) returns (scheduled: bool)
      requires exists n :: Numbered(Db(), n) && 0 <= snapshot.recoveryAttempts < n
      modifies this
      ensures scheduled <==> |old(rows)| < MAX_ITERATIONS
      ensures Numbered(Db(), |old(rows)| + if scheduled then 1 else 0)
      ensures !scheduled ==> item == old(item) && rows == Sync(old(rows), snapshot)
      ensures scheduled ==>
        var closed := Iteration(old(item));
        && item.recoveryAttempts == |old(rows)| && item.status == "pending" && item.agentId.None?
        && ClosedAs(rows, closed, failure, now)
        && |old(rows)| + 1 in rows && rows[|old(rows)| + 1].status == "pending"
        && forall key :: key in old(rows) && key != closed && key != Iteration(snapshot) ==>
             key in rows && rows[key] == old(rows)[key]
    {
      hide Sync, ScheduleRecovery, ClosedAs;
      ghost var n :| Numbered(Db(), n) && 0 <= snapshot.recoveryAttempts < n;
      RowCount(rows, n);
      SyncKeepsNumbering(rows, snapshot, n);
      SyncWritesOne(rows, snapshot);
      var started := IterationsStartedBy(snapshot);
      RowCount(rows, n);
      if started >= MAX_ITERATIONS {
        return false;
      }
      RecoveryOpensNext(Db(), n, message, failure, now);
      ScheduleItemRecovery(message, failure, started, now);
      scheduled := true;
    }
  }
}
