/** The attempt ledger of one queue item: one row per semantic iteration, written
    by every status change, and the automatic recovery that opens new iterations. */
module AttemptLedger {
  import opened Common
  import opened QueueTypes

  /** `WEB_QUEUE_SEMANTIC_ITERATIONS_PER_ITEM`. */
  const MAX_ITERATIONS: int := 3

  datatype Item = Item(
    status: string,
    message: string,
    agentId: Option<string>,
    attempts: int,
    recoveryAttempts: int,
    nextAttemptAt: Option<nat>,
    startedAt: nat,
    updatedAt: nat)

  datatype Attempt = Attempt(
    status: string,
    failureMessage: Option<string>,
    agentId: Option<string>,
    startedAt: nat,
    finishedAt: Option<nat>)

  datatype Ledger = Ledger(item: Item, rows: map<int, Attempt>)

  /** `recovery_attempts.max(0).saturating_add(1)`. */
  function Iteration(item: Item): int {
    SaturatingIncI64(if item.recoveryAttempts < 0 then 0 else item.recoveryAttempts)
  }

  function TrimStart(s: string): string {
    if s != [] && IsWhitespace(s[0]) then TrimStart(s[1..]) else s
  }

  function TrimEnd(s: string): string {
    if s != [] && IsWhitespace(s[|s| - 1]) then TrimEnd(s[..|s| - 1]) else s
  }

  function Put(rows: map<int, Attempt>, key: int, row: Attempt): map<int, Attempt> {
    rows[key := row]
  }

  /** Project an item, as some caller holds it, onto the row of its iteration. */
  function Sync(rows: map<int, Attempt>, item: Item): map<int, Attempt> {
    var status := ItemStatusFromDb(item.status);
    var message := TrimEnd(TrimStart(item.message));
    var failure := if status.IsFailedOrBlocked() && message != "" then Some(message) else None;
    var finished := if status.IsTerminal() then Some(item.updatedAt) else None;
    var key := Iteration(item);
    Put(rows, key,
      if key in rows then
        Attempt(item.status, failure, item.agentId.OrElse(rows[key].agentId), rows[key].startedAt,
                finished.OrElse(rows[key].finishedAt))
      else Attempt(item.status, failure, item.agentId, item.startedAt, finished))
  }

  /** Close the row of the item's iteration as failed. */
  function Finish(rows: map<int, Attempt>, item: Item, failure: string, now: nat): map<int, Attempt> {
    var key := Iteration(item);
    Put(rows, key,
      if key in rows then
        Attempt("failed", Some(failure), item.agentId.OrElse(rows[key].agentId), rows[key].startedAt, Some(now))
      else Attempt("failed", Some(failure), item.agentId, item.startedAt, Some(now)))
  }

  /** Every writer below updates the stored item and then projects it. */
  function Write(l: Ledger, item: Item): Ledger {
    Ledger(item, Sync(l.rows, item))
  }

  function ScheduleRecovery(l: Ledger, message: string, failure: string, recoveryAttempts: int, now: nat): Ledger {
    var closed := Finish(l.rows, l.item, failure, now);
    Write(Ledger(l.item, closed),
      l.item.(status := "pending", message := message, agentId := None, recoveryAttempts := recoveryAttempts,
              nextAttemptAt := None, updatedAt := now))
  }

  /** `web_queue_item_semantic_iterations_started`, after its own projection. */
  function IterationsStarted(rows: map<int, Attempt>, snapshot: Item): int {
    if |rows| > Iteration(snapshot) then |rows| else Iteration(snapshot)
  }

  // ---- What a projection shows ----

  /** The text without the blanks at both ends. */
  ghost predicate IsTrimmed(text: string, message: string) {
    && (exists i, j :: 0 <= i <= j <= |message| && text == message[i..j] && IsBlank(message[..i]) && IsBlank(message[j..]))
    && (text != "" ==> !IsWhitespace(text[0]) && !IsWhitespace(text[|text| - 1]))
  }

  lemma {:induction false} TrimStartCuts(s: string) returns (i: nat)
    ensures i <= |s| && TrimStart(s) == s[i..] && IsBlank(s[..i])
    ensures TrimStart(s) != "" ==> !IsWhitespace(TrimStart(s)[0])
  {
    if s != [] && IsWhitespace(s[0]) {
      var rest := TrimStartCuts(s[1..]);
      i := rest + 1;
      assert forall k :: 0 < k < i ==> s[..i][k] == s[1..][..rest][k - 1];
    } else {
      i := 0;
    }
  }

  lemma {:induction false} TrimEndCuts(s: string) returns (j: nat)
    ensures j <= |s| && TrimEnd(s) == s[..j] && IsBlank(s[j..])
    ensures TrimEnd(s) != "" ==> !IsWhitespace(TrimEnd(s)[|TrimEnd(s)| - 1])
  {
    var n := |s|;
    if s != [] && IsWhitespace(s[n - 1]) {
      j := TrimEndCuts(s[..n - 1]);
      assert s[..n - 1][..j] == s[..j];
      assert forall k :: 0 <= k < n - 1 - j ==> s[j..][k] == s[..n - 1][j..][k];
    } else {
      j := n;
    }
  }

  lemma TrimIsTrimmed(message: string)
    ensures IsTrimmed(TrimEnd(TrimStart(message)), message)
  {
    var i := TrimStartCuts(message);
    var start := TrimStart(message);
    var j := TrimEndCuts(start);
    assert start[..j] == message[i..i + j] && start[j..] == message[i + j..];
    if j > 0 {
      assert start[..j][0] == start[0];
    }
  }

  /** The row of the item's iteration shows the item: its status, the trimmed message of a
      failure, the finish of a terminal status, the agent it has or had, and the start the
      row was opened with. No other row differs. */
  ghost predicate Shows(before: map<int, Attempt>, after: map<int, Attempt>, item: Item) {
    var key := if item.recoveryAttempts <= 0 then 1 else item.recoveryAttempts + 1;
    && after.Keys == before.Keys + {key}
    && (forall k :: k in before && k != key ==> after[k] == before[k])
    && var row := after[key];
    && row.status == item.status
    && (item.status == "failed" || item.status == "blocked" ==>
          exists text :: IsTrimmed(text, item.message) && row.failureMessage == if text == "" then None else Some(text))
    && (item.status != "failed" && item.status != "blocked" ==> row.failureMessage.None?)
    && row.finishedAt == (if item.status == "success" || item.status == "failed" || item.status == "blocked"
                          then Some(item.updatedAt) else if key in before then before[key].finishedAt else None)
    && row.agentId == (if item.agentId.Some? then item.agentId else if key in before then before[key].agentId else None)
    && row.startedAt == (if key in before then before[key].startedAt else item.startedAt)
  }

  lemma SyncShows(rows: map<int, Attempt>, item: Item)
    requires item.recoveryAttempts < I64_MAX
    ensures Shows(rows, Sync(rows, item), item)
  {
    TrimIsTrimmed(item.message);
    var text := TrimEnd(TrimStart(item.message));
    assert IsTrimmed(text, item.message);
    hide IsTrimmed, TrimEnd, TrimStart;
  }

  // ---- Runs ----

  /** `Rewrite` stands for the statements that change the item and leave the ledger
      alone: continuing a stopped queue and waking its retries.
      `Started` counts iterations with the item as it was before event number
      `snapshot`, however stale; `Recover` is the recovery that follows the count
      taken by event number `count`, whatever happened in between. */
  datatype Event =
    | Update(status: string, message: string, agentId: Option<string>, attempts: int, nextAttemptAt: Option<nat>, now: nat)
    | Relaunch(message: string, attempts: int, nextAttemptAt: Option<nat>, waiting: bool, now: nat)
    | SetAgent(agent: string, now: nat)
    | Rewrite(status: string, message: string, agentId: Option<string>, nextAttemptAt: Option<nat>, now: nat)
    | Started(snapshot: nat)
    | Recover(count: nat, message: string, failure: string, now: nat)

  ghost predicate WellFormed(evs: seq<Event>) {
    forall k :: 0 <= k < |evs| ==>
      && (evs[k].Started? ==> evs[k].snapshot <= k)
      && (evs[k].Recover? ==> evs[k].count < k && evs[evs[k].count].Started?)
  }

  /** One event, given the snapshot a count uses and the count a recovery follows. */
  function Apply(l: Ledger, e: Event, snapshot: Item, started: int): Ledger {
    match e
    case Update(status, message, agentId, attempts, nextAttemptAt, now) =>
      Write(l, l.item.(status := status, message := message, agentId := agentId.OrElse(l.item.agentId),
                       attempts := attempts, nextAttemptAt := nextAttemptAt, updatedAt := now))
    case Relaunch(message, attempts, nextAttemptAt, waiting, now) =>
      Write(l, l.item.(status := if waiting then "waiting" else "pending", message := message, agentId := None,
                       attempts := attempts, nextAttemptAt := nextAttemptAt, updatedAt := now))
    case SetAgent(agent, now) =>
      Write(l, l.item.(agentId := Some(agent), updatedAt := now))
    case Rewrite(status, message, agentId, nextAttemptAt, now) =>
      l.(item := l.item.(status := status, message := message, agentId := agentId,
                         nextAttemptAt := nextAttemptAt, updatedAt := now))
    case Started(_) =>
      Ledger(l.item, Sync(l.rows, snapshot))
    case Recover(_, message, failure, now) =>
      if started >= MAX_ITERATIONS then l else ScheduleRecovery(l, message, failure, started, now)
  }

  /** What each writer stores in the item, column by column, and that the item's row then
      shows it. A rewrite shows nothing, and a count shows the snapshot. */
  lemma WritersStore(l: Ledger, e: Event, snapshot: Item, started: int)
    requires l.item.recoveryAttempts < I64_MAX && snapshot.recoveryAttempts < I64_MAX
    ensures
      var item, after := l.item, Apply(l, e, snapshot, started);
      match e
      case Update(status, message, agentId, attempts, nextAttemptAt, now) =>
        && after.item == Item(status, message, if agentId.Some? then agentId else item.agentId, attempts,
                              item.recoveryAttempts, nextAttemptAt, item.startedAt, now)
        && Shows(l.rows, after.rows, after.item)
      case Relaunch(message, attempts, nextAttemptAt, waiting, now) =>
        && after.item == Item(if waiting then "waiting" else "pending", message, None, attempts,
                              item.recoveryAttempts, nextAttemptAt, item.startedAt, now)
        && Shows(l.rows, after.rows, after.item)
      case SetAgent(agent, now) =>
        && after.item == item.(agentId := Some(agent), updatedAt := now)
        && Shows(l.rows, after.rows, after.item)
      case Rewrite(status, message, agentId, nextAttemptAt, now) =>
        && after.item == item.(status := status, message := message, agentId := agentId,
                               nextAttemptAt := nextAttemptAt, updatedAt := now)
        && after.rows == l.rows
      case Started(_) =>
        after.item == item && Shows(l.rows, after.rows, snapshot)
      case Recover(_, message, failure, now) =>
        if started >= 3 then after == l
        else after.item == Item("pending", message, None, item.attempts, started, None, item.startedAt, now)
  {
    hide Sync, Shows, Finish;
    if e.Started? {
      SyncShows(l.rows, snapshot);
    } else if !e.Recover? && !e.Rewrite? {
      SyncShows(l.rows, Apply(l, e, snapshot, started).item);
    }
  }

  /** The ledger before event number k, from an item freshly inserted. */
  function StateAt(item: Item, evs: seq<Event>, k: nat): Ledger
    requires WellFormed(evs) && k <= |evs|
    decreases k, 1
  {
    if k == 0 then Write(Ledger(item, map[]), item) else
    var e := evs[k - 1];
    Apply(StateAt(item, evs, k - 1), e,
          if e.Started? then StateAt(item, evs, e.snapshot).item else item,
          if e.Recover? then CountAt(item, evs, e.count) else 0)
  }

  /** What the count taken by event number k returned. */
  function CountAt(item: Item, evs: seq<Event>, k: nat): int
    requires WellFormed(evs) && k < |evs| && evs[k].Started?
    decreases k, 2
  {
    var snapshot := StateAt(item, evs, evs[k].snapshot).item;
    IterationsStarted(Sync(StateAt(item, evs, k).rows, snapshot), snapshot)
  }

  /** The ledger holds exactly the iterations 1 to n, and the item is at one of them. */
  ghost predicate Numbered(l: Ledger, n: int) {
    && 1 <= n <= MAX_ITERATIONS
    && (forall key :: key in l.rows <==> 1 <= key <= n)
    && 0 <= l.item.recoveryAttempts < n
  }

  lemma {:induction false} RowCount(rows: map<int, Attempt>, n: nat)
    requires forall key :: key in rows <==> 1 <= key <= n
    ensures |rows| == n
  {
    if n == 0 {
      assert rows == map[];
    } else {
      var rest := rows - {n};
      RowCount(rest, n - 1);
      assert rows.Keys == rest.Keys + {n};
    }
  }

  lemma SyncKeepsNumbering(rows: map<int, Attempt>, item: Item, n: int)
    requires forall key :: key in rows <==> 1 <= key <= n
    requires 0 <= item.recoveryAttempts <= n <= MAX_ITERATIONS
    ensures forall key :: key in Sync(rows, item) <==> 1 <= key <= if item.recoveryAttempts == n then n + 1 else n
  {
  }

  lemma SyncWritesOne(rows: map<int, Attempt>, item: Item)
    ensures forall key :: key in rows && key != Iteration(item) ==>
      key in Sync(rows, item) && Sync(rows, item)[key] == rows[key]
  {
  }

  /** A recovery that acts on the number of rows closes the item's iteration and opens
      the one after the newest. */
  lemma RecoveryOpensNext(l: Ledger, n: int, message: string, failure: string, now: nat)
    requires Numbered(l, n) && n < MAX_ITERATIONS
    ensures
      var after := ScheduleRecovery(l, message, failure, n, now);
      && Numbered(after, n + 1) && after.item.recoveryAttempts == n
      && after.item.status == "pending" && after.item.agentId.None?
      && after.rows[n + 1].status == "pending"
      && ClosedAs(after.rows, Iteration(l.item), failure, now)
      && forall key :: key in l.rows && key != Iteration(l.item) ==> after.rows[key] == l.rows[key]
  {
    var closed := Finish(l.rows, l.item, failure, now);
    assert closed.Keys == l.rows.Keys;
    SyncKeepsNumbering(closed, l.item.(recoveryAttempts := n), n);
  }

  ghost predicate ClosedAs(rows: map<int, Attempt>, key: int, failure: string, now: nat) {
    key in rows && rows[key].status == "failed" && rows[key].failureMessage == Some(failure)
    && rows[key].finishedAt == Some(now)
  }

  lemma ApplyKeepsNumbering(l: Ledger, e: Event, snapshot: Item, started: int, n: int) returns (n': int)
    requires Numbered(l, n)
    requires e.Started? ==> 0 <= snapshot.recoveryAttempts < n
    requires e.Recover? ==> 1 <= started <= n
    ensures Numbered(Apply(l, e, snapshot, started), n')
    ensures n' == if e.Recover? && started == n < MAX_ITERATIONS then n + 1 else n
    ensures e.Recover? && started < MAX_ITERATIONS ==> Apply(l, e, snapshot, started).item.recoveryAttempts == started
    ensures !e.Recover? || started >= MAX_ITERATIONS ==>
      Apply(l, e, snapshot, started).item.recoveryAttempts == l.item.recoveryAttempts
  {
    n' := if e.Recover? && started == n < MAX_ITERATIONS then n + 1 else n;
    var after := Apply(l, e, snapshot, started);
    if e.Started? {
      SyncKeepsNumbering(l.rows, snapshot, n);
    } else if e.Recover? {
      if started < MAX_ITERATIONS {
        var closed := Finish(l.rows, l.item, e.failure, e.now);
        assert closed.Keys == l.rows.Keys;
        SyncKeepsNumbering(closed, after.item, n);
      }
    } else if !e.Rewrite? {
      SyncKeepsNumbering(l.rows, after.item, n);
    }
  }

  /** Under every interleaving of counts, stale snapshots and delayed recoveries
      the ledger holds exactly the iterations 1 to n for some n of at most three. */
  lemma {:induction false} AtMostThreeIterations(item: Item, evs: seq<Event>, k: nat) returns (n: int)
    requires WellFormed(evs) && k <= |evs| && item.recoveryAttempts == 0
    ensures Numbered(StateAt(item, evs, k), n)
    ensures n == |StateAt(item, evs, k).rows| <= 3
    decreases k, 3
  {
    hide Apply;
    if k == 0 {
      n := 1;
    } else {
      n := AtMostThreeIterations(item, evs, k - 1);
      var e := evs[k - 1];
      var snapshot, started := item, 0;
      if e.Started? {
        var m := RowsNeverFall(item, evs, e.snapshot, k - 1);
        snapshot := StateAt(item, evs, e.snapshot).item;
      } else if e.Recover? {
        CountIsRows(item, evs, e.count);
        var m := RowsNeverFall(item, evs, e.count, k - 1);
        started := CountAt(item, evs, e.count);
      }
      n := ApplyKeepsNumbering(StateAt(item, evs, k - 1), e, snapshot, started, n);
    }
    RowCount(StateAt(item, evs, k).rows, n);
  }

  lemma {:induction false} RowsNeverFall(item: Item, evs: seq<Event>, j: nat, k: nat) returns (m: int)
    requires WellFormed(evs) && j <= k <= |evs| && item.recoveryAttempts == 0
    ensures Numbered(StateAt(item, evs, j), m)
    ensures m == |StateAt(item, evs, j).rows| <= |StateAt(item, evs, k).rows|
    decreases k, 4, k - j
  {
    hide Apply;
    m := AtMostThreeIterations(item, evs, j);
    if j < k {
      var m' := RowsNeverFall(item, evs, j, k - 1);
      RowsGrow(item, evs, k - 1);
    }
  }

  lemma RowsGrow(item: Item, evs: seq<Event>, k: nat)
    requires WellFormed(evs) && k < |evs| && item.recoveryAttempts == 0
    ensures |StateAt(item, evs, k).rows| <= |StateAt(item, evs, k + 1).rows|
    decreases k + 1, 1
  {
    var before, after := StateAt(item, evs, k).rows, StateAt(item, evs, k + 1).rows;
    assert before.Keys <= after.Keys;
    KeysBound(before, after);
  }

  lemma KeysBound(a: map<int, Attempt>, b: map<int, Attempt>)
    requires a.Keys <= b.Keys
    ensures |a| <= |b|
  {
    var extra := b.Keys - a.Keys;
    assert b.Keys == a.Keys + extra;
  }

  /** The count ignores how stale the caller's snapshot is: it is the number of
      iterations ever started, before and after the count's own projection. */
  lemma CountIsRows(item: Item, evs: seq<Event>, k: nat)
    requires WellFormed(evs) && k < |evs| && evs[k].Started? && item.recoveryAttempts == 0
    ensures CountAt(item, evs, k) == |StateAt(item, evs, k).rows|
    decreases k, 5
  {
    hide Apply;
    var n := AtMostThreeIterations(item, evs, k);
    var m := RowsNeverFall(item, evs, evs[k].snapshot, k);
    var snapshot := StateAt(item, evs, evs[k].snapshot).item;
    SyncKeepsNumbering(StateAt(item, evs, k).rows, snapshot, n);
    RowCount(Sync(StateAt(item, evs, k).rows, snapshot), n);
  }

  // ---- Recoveries that raise the iteration by one ----

  /** Event k is a recovery that the cap lets through. */
  predicate Recovers(item: Item, evs: seq<Event>, k: nat)
    requires WellFormed(evs) && k < |evs|
  {
    evs[k].Recover? && CountAt(item, evs, evs[k].count) < MAX_ITERATIONS
  }

  function RecoveriesAt(item: Item, evs: seq<Event>, k: nat): int
    requires WellFormed(evs) && k <= |evs|
  {
    StateAt(item, evs, k).item.recoveryAttempts
  }

  ghost predicate RaisesAt(item: Item, evs: seq<Event>, k: nat)
    requires WellFormed(evs) && k < |evs|
  {
    Recovers(item, evs, k) ==> CountAt(item, evs, evs[k].count) == RecoveriesAt(item, evs, k) + 1
  }

  /** Among the first n events each recovery raises `recovery_attempts` by one. */
  ghost predicate RaisesByOne(item: Item, evs: seq<Event>, n: nat)
    requires WellFormed(evs) && n <= |evs|
  {
    forall k :: 0 <= k < n ==> RaisesAt(item, evs, k)
  }

  /** No other recovery gets in between event k and the count it acts on. */
  ghost predicate ActsOnFreshCount(item: Item, evs: seq<Event>, k: nat)
    requires WellFormed(evs) && k < |evs|
  {
    Recovers(item, evs, k) ==> forall j :: evs[k].count < j < k ==> !Recovers(item, evs, j)
  }

  /** The outside facts one step depends on. */
  lemma StepInputs(item: Item, evs: seq<Event>, k: nat) returns (snapshot: Item, started: int, n: int)
    requires WellFormed(evs) && k < |evs| && item.recoveryAttempts == 0
    ensures StateAt(item, evs, k + 1) == Apply(StateAt(item, evs, k), evs[k], snapshot, started)
    ensures Numbered(StateAt(item, evs, k), n) && n == |StateAt(item, evs, k).rows|
    ensures evs[k].Started? ==>
      snapshot == StateAt(item, evs, evs[k].snapshot).item && 0 <= snapshot.recoveryAttempts < n
    ensures evs[k].Recover? ==>
      started == CountAt(item, evs, evs[k].count) == |StateAt(item, evs, evs[k].count).rows| && 1 <= started <= n
    ensures !evs[k].Recover? ==> started == 0
  {
    hide Apply;
    n := AtMostThreeIterations(item, evs, k);
    snapshot, started := item, 0;
    if evs[k].Started? {
      var m := RowsNeverFall(item, evs, evs[k].snapshot, k);
      snapshot := StateAt(item, evs, evs[k].snapshot).item;
    } else if evs[k].Recover? {
      CountIsRows(item, evs, evs[k].count);
      var m := RowsNeverFall(item, evs, evs[k].count, k);
      started := CountAt(item, evs, evs[k].count);
    }
  }

  /** Then the item is always at its newest iteration: the ledger keys are exactly
      1 to recovery_attempts + 1, and the count is the current iteration, whatever
      is written between a count and the recovery that follows it. */
  lemma {:induction false} LedgerMatchesItem(item: Item, evs: seq<Event>, k: nat)
    requires WellFormed(evs) && k <= |evs| && item.recoveryAttempts == 0 && RaisesByOne(item, evs, k)
    ensures
      var l := StateAt(item, evs, k);
      && |l.rows| == l.item.recoveryAttempts + 1 == Iteration(l.item)
      && (forall key :: key in l.rows <==> 1 <= key <= l.item.recoveryAttempts + 1)
    ensures k < |evs| && evs[k].Started? ==> CountAt(item, evs, k) == Iteration(StateAt(item, evs, k).item)
    decreases k
  {
    hide Apply, StateAt, CountAt;
    var n := AtMostThreeIterations(item, evs, k);
    if k < |evs| && evs[k].Started? {
      CountIsRows(item, evs, k);
    }
    if k == 0 {
      InitialRecoveries(item, evs);
    } else {
      LedgerMatchesItem(item, evs, k - 1);
      assert RaisesAt(item, evs, k - 1);
      var snapshot, started, before := StepInputs(item, evs, k - 1);
      var after := ApplyKeepsNumbering(StateAt(item, evs, k - 1), evs[k - 1], snapshot, started, before);
      RowCount(StateAt(item, evs, k).rows, after);
    }
  }

  lemma InitialRecoveries(item: Item, evs: seq<Event>)
    requires WellFormed(evs)
    ensures StateAt(item, evs, 0).item == item && |StateAt(item, evs, 0).rows| == 1
  {
  }

  lemma StepMovesRecoveries(item: Item, evs: seq<Event>, k: nat)
    requires WellFormed(evs) && k < |evs| && item.recoveryAttempts == 0
    ensures RecoveriesAt(item, evs, k + 1) ==
      if Recovers(item, evs, k) then CountAt(item, evs, evs[k].count) else RecoveriesAt(item, evs, k)
  {
    hide Apply, StateAt, CountAt;
    var snapshot, started, n := StepInputs(item, evs, k);
    var after := ApplyKeepsNumbering(StateAt(item, evs, k), evs[k], snapshot, started, n);
  }

  /** The recoveries between two moments are the difference of the stored attempts. */
  lemma {:induction false} RecoveriesRise(item: Item, evs: seq<Event>, j: nat, k: nat)
    requires WellFormed(evs) && j <= k <= |evs| && item.recoveryAttempts == 0 && RaisesByOne(item, evs, k)
    ensures RecoveriesAt(item, evs, j) <= RecoveriesAt(item, evs, k)
    ensures RecoveriesAt(item, evs, j) == RecoveriesAt(item, evs, k)
       <==> forall i :: j <= i < k ==> !Recovers(item, evs, i)
    decreases k
  {
    hide RecoveriesAt, Recovers, CountAt;
    if j < k {
      RecoveriesRise(item, evs, j, k - 1);
      assert RaisesAt(item, evs, k - 1);
      StepMovesRecoveries(item, evs, k - 1);
    }
  }

  /** Every recovery raises the attempts by one exactly when none acts on a count
      that another recovery has overtaken. */
  lemma {:induction false} RaisesByOneIff(item: Item, evs: seq<Event>, n: nat)
    requires WellFormed(evs) && n <= |evs| && item.recoveryAttempts == 0
    ensures RaisesByOne(item, evs, n) <==> forall k :: 0 <= k < n ==> ActsOnFreshCount(item, evs, k)
  {
    hide RecoveriesAt, Recovers, CountAt;
    if n > 0 {
      RaisesByOneIff(item, evs, n - 1);
      if RaisesByOne(item, evs, n - 1) {
        FreshCountIsCurrent(item, evs, n - 1);
      }
    }
  }

  lemma FreshCountIsCurrent(item: Item, evs: seq<Event>, k: nat)
    requires WellFormed(evs) && k < |evs| && item.recoveryAttempts == 0 && RaisesByOne(item, evs, k)
    ensures RaisesAt(item, evs, k) <==> ActsOnFreshCount(item, evs, k)
  {
    hide StateAt, CountAt;
    if Recovers(item, evs, k) {
      var c := evs[k].count;
      LedgerMatchesItem(item, evs, c);
      RecoveriesRise(item, evs, c, k);
      assert !Recovers(item, evs, c);
    }
  }

  // ---- Closed iterations ----

  /** An event writes only the rows of the iterations it works on. */
  lemma ApplyWritesOnly(l: Ledger, e: Event, snapshot: Item, started: int, key: int)
    requires key in l.rows && key != Iteration(l.item)
    requires e.Started? ==> key != Iteration(snapshot)
    requires e.Recover? ==> started >= MAX_ITERATIONS || started < 0 || key != started + 1
    requires started < I64_MAX && (started < 0 ==> key != 1)
    ensures key in Apply(l, e, snapshot, started).rows && Apply(l, e, snapshot, started).rows[key] == l.rows[key]
  {
  }

  function SnapshotAt(item: Item, evs: seq<Event>, j: nat): Item
    requires WellFormed(evs) && j < |evs| && evs[j].Started?
  {
    StateAt(item, evs, evs[j].snapshot).item
  }

  /** Event j counts with a snapshot that is still at the given iteration. */
  predicate CountsFrom(item: Item, evs: seq<Event>, j: nat, iteration: int)
    requires WellFormed(evs) && j < |evs|
  {
    evs[j].Started? && Iteration(SnapshotAt(item, evs, j)) == iteration
  }

  /** The row an iteration has before event k, if nothing but such counts writes it. */
  function RowAfterCounts(item: Item, evs: seq<Event>, row: Attempt, iteration: int, j: nat, k: nat): Attempt
    requires WellFormed(evs) && j <= k <= |evs|
    decreases k
  {
    if j == k then row
    else
      var before := RowAfterCounts(item, evs, row, iteration, j, k - 1);
      if CountsFrom(item, evs, k - 1, iteration)
      then Sync(map[iteration := before], SnapshotAt(item, evs, k - 1))[iteration] else before
  }

  /** A recovery closes the current iteration as failed. From then on every write and
      recovery leaves that row alone; only a count whose snapshot is still at the closed
      iteration projects that snapshot onto it. */
  lemma {:induction false} ClosedRow(item: Item, evs: seq<Event>, r: nat, k: nat)
    requires WellFormed(evs) && item.recoveryAttempts == 0 && r < k <= |evs|
    requires RaisesByOne(item, evs, k) && Recovers(item, evs, r)
    ensures
      var closed := Iteration(StateAt(item, evs, r).item);
      var before := StateAt(item, evs, r).rows;
      && closed in before && closed in StateAt(item, evs, k).rows
      && StateAt(item, evs, k).rows[closed] ==
           RowAfterCounts(item, evs, FailedRow(before[closed], StateAt(item, evs, r).item, evs[r].failure, evs[r].now),
                          closed, r + 1, k)
      && StateAt(item, evs, k).item.recoveryAttempts >= closed
    decreases k
  {
    hide Apply, StateAt, CountAt, Sync, FailedRow;
    var closed := Iteration(StateAt(item, evs, r).item);
    LedgerMatchesItem(item, evs, r);
    if k == r + 1 {
      RecoveryCloses(item, evs, r);
    } else {
      ClosedRow(item, evs, r, k - 1);
      LedgerMatchesItem(item, evs, k - 1);
      assert RaisesAt(item, evs, k - 1);
      var snapshot, started, n := StepInputs(item, evs, k - 1);
      if CountsFrom(item, evs, k - 1, closed) {
        CountProjects(StateAt(item, evs, k - 1), evs[k - 1], snapshot, closed);
      } else {
        ApplyWritesOnly(StateAt(item, evs, k - 1), evs[k - 1], snapshot, started, closed);
      }
      StepMovesRecoveries(item, evs, k - 1);
    }
  }

  lemma CountProjects(l: Ledger, e: Event, snapshot: Item, iteration: int)
    requires e.Started? && iteration in l.rows && Iteration(snapshot) == iteration
    ensures iteration in Apply(l, e, snapshot, 0).rows
    ensures Apply(l, e, snapshot, 0).rows[iteration] == Sync(map[iteration := l.rows[iteration]], snapshot)[iteration]
  {
  }

  /** The row of an iteration closed by a recovery. */
  function FailedRow(row: Attempt, item: Item, failure: string, now: nat): Attempt {
    Attempt("failed", Some(failure), item.agentId.OrElse(row.agentId), row.startedAt, Some(now))
  }

  lemma RecoveryCloses(item: Item, evs: seq<Event>, r: nat)
    requires WellFormed(evs) && item.recoveryAttempts == 0 && r < |evs|
    requires RaisesByOne(item, evs, r + 1) && Recovers(item, evs, r)
    ensures
      var l, after := StateAt(item, evs, r), StateAt(item, evs, r + 1);
      var closed := Iteration(l.item);
      && closed in l.rows && closed in after.rows
      && after.rows[closed] == FailedRow(l.rows[closed], l.item, evs[r].failure, evs[r].now)
      && after.item.recoveryAttempts == closed
  {
    hide StateAt, CountAt;
    LedgerMatchesItem(item, evs, r);
    assert RaisesAt(item, evs, r);
    var snapshot, started, n := StepInputs(item, evs, r);
  }

  /** So the closed row stays exactly as the recovery left it as long as no count uses
      a snapshot from that iteration; snapshots taken after the recovery never do. */
  lemma {:induction false} ClosedIterationStays(item: Item, evs: seq<Event>, r: nat, k: nat)
    requires WellFormed(evs) && item.recoveryAttempts == 0 && r < k <= |evs|
    requires RaisesByOne(item, evs, k) && Recovers(item, evs, r)
    requires forall j :: r < j < k ==> !CountsFrom(item, evs, j, Iteration(StateAt(item, evs, r).item))
    ensures
      var l := StateAt(item, evs, r);
      var closed := Iteration(l.item);
      && closed in l.rows && closed in StateAt(item, evs, k).rows
      && StateAt(item, evs, k).rows[closed] == FailedRow(l.rows[closed], l.item, evs[r].failure, evs[r].now)
  {
    hide StateAt, CountsFrom, CountAt;
    ClosedRow(item, evs, r, k);
    NoCountNoChange(item, evs, RowClosedAt(item, evs, r), Iteration(StateAt(item, evs, r).item), r + 1, k);
  }

  function RowClosedAt(item: Item, evs: seq<Event>, r: nat): Attempt
    requires WellFormed(evs) && r < |evs| && evs[r].Recover?
    requires Iteration(StateAt(item, evs, r).item) in StateAt(item, evs, r).rows
  {
    var l := StateAt(item, evs, r);
    FailedRow(l.rows[Iteration(l.item)], l.item, evs[r].failure, evs[r].now)
  }

  lemma {:induction false} NoCountNoChange(item: Item, evs: seq<Event>, row: Attempt, iteration: int, j: nat, k: nat)
    requires WellFormed(evs) && j <= k <= |evs|
    requires forall i :: j <= i < k ==> !CountsFrom(item, evs, i, iteration)
    ensures RowAfterCounts(item, evs, row, iteration, j, k) == row
    decreases k
  {
    if j < k {
      NoCountNoChange(item, evs, row, iteration, j, k - 1);
    }
  }

  lemma LaterSnapshotsAreHarmless(item: Item, evs: seq<Event>, r: nat, j: nat)
    requires WellFormed(evs) && item.recoveryAttempts == 0 && r < j < |evs|
    requires RaisesByOne(item, evs, j) && Recovers(item, evs, r)
    ensures evs[j].Started? && evs[j].snapshot > r ==> !CountsFrom(item, evs, j, Iteration(StateAt(item, evs, r).item))
  {
    if evs[j].Started? && evs[j].snapshot > r {
      hide StateAt, CountAt;
      ClosedRow(item, evs, r, evs[j].snapshot);
      LedgerMatchesItem(item, evs, evs[j].snapshot);
    }
  }

  // ---- When a closed row does not stay failed ----

  ghost predicate IsLastCount(item: Item, evs: seq<Event>, iteration: int, i: nat, k: nat)
    requires WellFormed(evs) && i < k <= |evs|
  {
    CountsFrom(item, evs, i, iteration) && forall later :: i < later < k ==> !CountsFrom(item, evs, later, iteration)
  }

  /** The last count between j and k from a snapshot of the iteration, if there is one,
      saw the item failed. */
  ghost predicate LastCountSawFailed(item: Item, evs: seq<Event>, iteration: int, j: nat, k: nat)
    requires WellFormed(evs) && k <= |evs|
  {
    forall i :: j <= i < k && IsLastCount(item, evs, iteration, i, k) ==> SnapshotAt(item, evs, i).status == "failed"
  }

  lemma LastCountStep(item: Item, evs: seq<Event>, iteration: int, j: nat, k: nat)
    requires WellFormed(evs) && j < k <= |evs|
    ensures LastCountSawFailed(item, evs, iteration, j, k) <==>
      if CountsFrom(item, evs, k - 1, iteration) then SnapshotAt(item, evs, k - 1).status == "failed"
      else LastCountSawFailed(item, evs, iteration, j, k - 1)
  {
    hide SnapshotAt;
    if CountsFrom(item, evs, k - 1, iteration) {
      assert IsLastCount(item, evs, iteration, k - 1, k);
    } else {
      forall i | j <= i < k - 1
        ensures IsLastCount(item, evs, iteration, i, k) <==> IsLastCount(item, evs, iteration, i, k - 1)
      {
      }
    }
  }

  lemma {:induction false} RowFailedIff(item: Item, evs: seq<Event>, row: Attempt, iteration: int, j: nat, k: nat)
    requires WellFormed(evs) && j <= k <= |evs| && row.status == "failed"
    ensures RowAfterCounts(item, evs, row, iteration, j, k).status == "failed"
       <==> LastCountSawFailed(item, evs, iteration, j, k)
    decreases k
  {
    hide CountsFrom, LastCountSawFailed;
    if j == k {
      NoCountsYet(item, evs, iteration, j);
    } else {
      RowFailedIff(item, evs, row, iteration, j, k - 1);
      LastCountStep(item, evs, iteration, j, k);
      if CountsFrom(item, evs, k - 1, iteration) {
        CountsFromSnapshot(item, evs, k - 1, iteration);
      }
    }
  }

  lemma NoCountsYet(item: Item, evs: seq<Event>, iteration: int, j: nat)
    requires WellFormed(evs) && j <= |evs|
    ensures LastCountSawFailed(item, evs, iteration, j, j)
  {
  }

  lemma CountsFromSnapshot(item: Item, evs: seq<Event>, j: nat, iteration: int)
    requires WellFormed(evs) && j < |evs| && CountsFrom(item, evs, j, iteration)
    ensures Iteration(SnapshotAt(item, evs, j)) == iteration
  {
  }

  /** A closed iteration's row is still failed exactly when the last count made from a
      snapshot of that iteration, if any, saw the item failed. */
  lemma ClosedRowFailedIff(item: Item, evs: seq<Event>, r: nat, k: nat)
    requires WellFormed(evs) && item.recoveryAttempts == 0 && r < k <= |evs|
    requires RaisesByOne(item, evs, k) && Recovers(item, evs, r)
    ensures
      var closed := Iteration(StateAt(item, evs, r).item);
      && closed in StateAt(item, evs, k).rows
      && (StateAt(item, evs, k).rows[closed].status == "failed"
          <==> LastCountSawFailed(item, evs, closed, r + 1, k))
  {
    hide StateAt, CountAt, RowAfterCounts;
    ClosedRow(item, evs, r, k);
    RowFailedIff(item, evs, RowClosedAt(item, evs, r), Iteration(StateAt(item, evs, r).item), r + 1, k);
  }

  /** What a count from a snapshot of a closed iteration makes of its row: the snapshot's
      status and message, with the finish time kept unless the snapshot is terminal. */
  lemma StaleCountRewritesRow(rows: map<int, Attempt>, snapshot: Item)
    requires Iteration(snapshot) in rows && rows[Iteration(snapshot)].status == "failed"
    ensures
      var before, row := rows[Iteration(snapshot)], Sync(rows, snapshot)[Iteration(snapshot)];
      && row.status == snapshot.status && row.startedAt == before.startedAt
      && (!ItemStatusFromDb(snapshot.status).IsTerminal() ==>
            row.status != "failed" && row.failureMessage.None? && row.finishedAt == before.finishedAt)
      && (ItemStatusFromDb(snapshot.status).IsTerminal() ==> row.finishedAt == Some(snapshot.updatedAt))
    ensures forall key :: key in rows && key != Iteration(snapshot) ==> Sync(rows, snapshot)[key] == rows[key]
  {
    StatusTextAgrees(snapshot.status);
  }

  // ---- Two histories in which it does not ----

  /** A running item is counted, recovered, and counted again by a worker that still
      holds the first snapshot: the closed row of iteration 1 is running again. */
  lemma StaleCountHistory(item: Item, failure: string, now: nat)
    requires item.recoveryAttempts == 0 && item.status == "running"
    ensures
      var evs := [Started(0), Recover(0, "", failure, now), Started(0)];
      && WellFormed(evs) && RaisesByOne(item, evs, 3) && Recovers(item, evs, 1)
      && 1 in StateAt(item, evs, 2).rows && StateAt(item, evs, 2).rows[1].status == "failed"
      && 1 in StateAt(item, evs, 3).rows && StateAt(item, evs, 3).rows[1].status == "running"
      && StateAt(item, evs, 3).rows[1].finishedAt == Some(now)
  {
    var evs := [Started(0), Recover(0, "", failure, now), Started(0)];
    CountIsRows(item, evs, 0);
    InitialRecoveries(item, evs);
    assert StateAt(item, evs, 1).item == item;
    assert StateAt(item, evs, 2) == ScheduleRecovery(StateAt(item, evs, 1), "", failure, 1, now);
  }

  function Overtaken(failure: string, now: nat): seq<Event> {
    [Started(0), Started(0), Recover(0, "", failure, now), Started(3), Recover(3, "", failure, now),
     Recover(1, "", failure, now)]
  }

  /** Two workers count at iteration 1. One recovers, counts at iteration 2 and recovers
      again; then the other acts on its old count. The item falls back from iteration 3
      to 2, whose closed row is pending again. */
  lemma OvertakenRecoveryHistory(item: Item, failure: string, now: nat)
    requires item.recoveryAttempts == 0
    ensures
      var evs := Overtaken(failure, now);
      && WellFormed(evs) && RaisesByOne(item, evs, 5) && !RaisesByOne(item, evs, 6)
      && RecoveriesAt(item, evs, 5) == 2 && RecoveriesAt(item, evs, 6) == 1
      && 2 in StateAt(item, evs, 5).rows && StateAt(item, evs, 5).rows[2].status == "failed"
      && 2 in StateAt(item, evs, 6).rows && StateAt(item, evs, 6).rows[2].status == "pending"
  {
    hide StateAt, CountAt, RecoveriesAt;
    var evs := Overtaken(failure, now);
    OvertakenCounts(item, failure, now);
    RecoveriesAreItems(item, evs);
    RecoveryCloses(item, evs, 4);
    var snapshot, started, n := StepInputs(item, evs, 5);
    assert started == 1;
  }

  lemma RecoveriesAreItems(item: Item, evs: seq<Event>)
    requires WellFormed(evs)
    ensures forall k :: 0 <= k <= |evs| ==> RecoveriesAt(item, evs, k) == StateAt(item, evs, k).item.recoveryAttempts
  {
  }

  lemma OvertakenCounts(item: Item, failure: string, now: nat)
    requires item.recoveryAttempts == 0
    ensures
      var evs := Overtaken(failure, now);
      && WellFormed(evs) && RaisesByOne(item, evs, 5) && !RaisesByOne(item, evs, 6)
      && CountAt(item, evs, 0) == CountAt(item, evs, 1) == 1 && CountAt(item, evs, 3) == 2
      && RecoveriesAt(item, evs, 4) == 1 && RecoveriesAt(item, evs, 5) == 2 && RecoveriesAt(item, evs, 6) == 1
  {
    hide StateAt, CountAt, RecoveriesAt;
    var evs := Overtaken(failure, now);
    RecoveriesAreItems(item, evs);
    InitialRecoveries(item, evs);
    StepMovesRecoveries(item, evs, 0);
    StepMovesRecoveries(item, evs, 1);
    LedgerMatchesItem(item, evs, 0);
    LedgerMatchesItem(item, evs, 1);
    StepMovesRecoveries(item, evs, 2);
    LedgerMatchesItem(item, evs, 3);
    StepMovesRecoveries(item, evs, 3);
    StepMovesRecoveries(item, evs, 4);
    StepMovesRecoveries(item, evs, 5);
    assert !RaisesAt(item, evs, 5);
  }
}
