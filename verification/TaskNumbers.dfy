/** What the sequence operations do, read off the stored columns: which number a task
    gets, what the counter becomes, what is refused, and what stays as it was. */
module TaskNumbers {
  import opened Common
  import opened Ordering
  import opened TaskSequences
  import opened SequenceHistory

  ghost predicate IsTaskSource(source: string) {
    source != "agent" && source != "codex-session"
  }

  // ---- One upsert ----

  /** The record names a repository other than the stored one. */
  ghost predicate Moves(db: TaskDb, id: string, record: Task) {
    && id in db.tasks && record.repoRoot.Some? && db.tasks[id].repoRoot.Some?
    && record.repoRoot.value != db.tasks[id].repoRoot.value
  }

  ghost predicate HasNumber(db: TaskDb, id: string) {
    id in db.tasks && db.tasks[id].sequence.Some?
  }

  /** The number a counter that does not exist yet would start from: one more than every
      number the repository's tasks hold, and 1 if they hold none. */
  ghost predicate StartsAt(db: TaskDb, repo: string, n: nat) {
    && (forall id, q: nat :: Holds(db, id, repo, q) && IsTaskSource(db.tasks[id].source) ==> q < n)
    && (n == 1 || (n >= 1 && exists id :: Holds(db, id, repo, n - 1) && IsTaskSource(db.tasks[id].source)))
  }

  /** The row an upsert stores, column by column: the creation time never changes, a
      missing repository is filled from the stored row, and the number is none for other
      sources, the stored one unless the task moves, else the record's own, else the
      repository's counter, if there is a nonblank repository. */
  lemma UpsertStores(db: TaskDb, id: string, record: Task)
    requires UpsertStep(db, id, record).Ok?
    ensures
      var next := UpsertStep(db, id, record).value;
      && next.tasks.Keys == db.tasks.Keys + {id}
      && (forall other :: other in db.tasks && other != id ==> next.tasks[other] == db.tasks[other])
      && var row := next.tasks[id];
      && row.source == record.source
      && row.createdAt == (if id in db.tasks then db.tasks[id].createdAt else record.createdAt)
      && row.repoRoot == (if record.repoRoot.None? && id in db.tasks then db.tasks[id].repoRoot else record.repoRoot)
      && (!IsTaskSource(record.source) ==> row.sequence.None?)
      && (IsTaskSource(record.source) && HasNumber(db, id) && !Moves(db, id, record) ==>
            row.sequence == db.tasks[id].sequence)
      && (IsTaskSource(record.source) && (!HasNumber(db, id) || Moves(db, id, record)) ==>
            if record.sequence.Some? then row.sequence == record.sequence
            else if row.repoRoot.None? || IsBlank(row.repoRoot.value) then row.sequence.None?
            else row.sequence.Some? && TakenFrom(db, row.repoRoot.value, row.sequence.value))
  {
    TakenNumber(db, TargetRepo(db, id, record).OrElse(Some("")).value);
  }

  /** The number is the counter's, or where a missing counter would start. */
  ghost predicate TakenFrom(db: TaskDb, repo: string, q: nat) {
    q < I64_MAX && if repo in db.counters then db.counters[repo] == q else StartsAt(db, repo, q)
  }

  lemma TakenNumber(db: TaskDb, repo: string)
    ensures Allocate(db, repo).Ok? ==> TakenFrom(db, repo, Allocate(db, repo).value.1)
  {
    if Allocate(db, repo).Ok? && repo !in db.counters {
      var numbers := StoredSequences(db, repo);
      var q := Allocate(db, repo).value.1;
      assert q == MaxSequence(db, repo) + 1;
      forall id, p | Holds(db, id, repo, p) && IsTaskSource(db.tasks[id].source)
        ensures p < q
      {
        assert p in numbers;
      }
      if q != 1 {
        var id :| id in db.tasks && db.tasks[id].repoRoot == Some(repo) && UsesSequence(db.tasks[id].source)
          && db.tasks[id].sequence.Some? && db.tasks[id].sequence.value == q - 1;
        assert Holds(db, id, repo, q - 1);
      }
    }
  }

  /** The counters an upsert leaves: the stored number's repository has the larger of its
      counter and one past the number, and every other counter is as it was. */
  lemma UpsertCounts(db: TaskDb, id: string, record: Task)
    requires UpsertStep(db, id, record).Ok?
    ensures
      var next := UpsertStep(db, id, record).value;
      var row := next.tasks[id];
      if row.sequence.None? || row.repoRoot.None? || IsBlank(row.repoRoot.value) then next.counters == db.counters
      else
        var repo, past := row.repoRoot.value, if row.sequence.value == I64_MAX then I64_MAX else row.sequence.value + 1;
        next.counters == db.counters[repo := if repo in db.counters && db.counters[repo] > past then db.counters[repo] else past]
  {
  }

  /** When an upsert is refused, on any reachable tables: a number to be taken from the
      counter only at the 64-bit limit, a given or homeless number only beyond that limit
      or when another task of the repository holds it, and everything else never. */
  lemma UpsertRefusedIff(db: TaskDb, id: string, record: Task)
    requires Good(db)
    ensures
      var repo := if record.repoRoot.None? && id in db.tasks then db.tasks[id].repoRoot else record.repoRoot;
      var keeps := HasNumber(db, id) && !Moves(db, id, record);
      var given := if keeps then db.tasks[id].sequence else record.sequence;
      UpsertStep(db, id, record).Err? <==>
        && IsTaskSource(record.source)
        && if given.Some? then
             || given.value > I64_MAX
             || (repo.Some? && exists other :: other != id && Holds(db, other, repo.value, given.value))
           else
             repo.Some? && !IsBlank(repo.value) && forall q: nat :: !TakenFrom(db, repo.value, q)
  {
    var repo := TargetRepo(db, id, record);
    var keeps := HasNumber(db, id) && !Moves(db, id, record);
    var given := if keeps then db.tasks[id].sequence else record.sequence;
    assert given == KeptSequence(db, id, record).OrElse(record.sequence);
    if IsTaskSource(record.source) {
      if given.Some? {
        GivenNumberRefusedIff(db, id, record, given.value);
      } else if repo.Some? && !IsBlank(repo.value) {
        assert Allocating(db, id, record);
        AllocatingUpsertSucceeds(db, id, record);
        TakenIff(db, repo.value);
      }
    }
  }

  lemma GivenNumberRefusedIff(db: TaskDb, id: string, record: Task, q: nat)
    requires IsTaskSource(record.source) && KeptSequence(db, id, record).OrElse(record.sequence) == Some(q)
    ensures
      var repo := TargetRepo(db, id, record);
      UpsertStep(db, id, record).Err? <==>
        q > I64_MAX || (repo.Some? && exists other :: other != id && Holds(db, other, repo.value, q))
  {
    var repo := TargetRepo(db, id, record);
    assert ChooseSequence(db, id, record) == Ok((db, Some(q)));
    var advanced := Advance(db, repo, Some(q));
    assert advanced.tasks == db.tasks;
    var task := Task(record.source, Some(q), repo, if id in db.tasks then db.tasks[id].createdAt else record.createdAt);
    ClashIff(advanced, id, task);
    assert forall other :: repo.Some? ==> (Holds(advanced, other, repo.value, q) <==> Holds(db, other, repo.value, q));
  }

  lemma ClashIff(db: TaskDb, id: string, task: Task)
    ensures Clashes(db, id, task) <==>
      task.repoRoot.Some? && task.sequence.Some?
      && exists other :: other != id && Holds(db, other, task.repoRoot.value, task.sequence.value)
  {
    if task.repoRoot.Some? && task.sequence.Some? {
      if other :| other != id && Holds(db, other, task.repoRoot.value, task.sequence.value) {
        assert db.tasks[other].repoRoot == task.repoRoot && db.tasks[other].sequence == task.sequence;
      } else if Clashes(db, id, task) {
        var other :| other in db.tasks && other != id
          && db.tasks[other].repoRoot == task.repoRoot && db.tasks[other].sequence == task.sequence;
        assert Holds(db, other, task.repoRoot.value, task.sequence.value);
      }
    }
  }

  lemma TakenIff(db: TaskDb, repo: string)
    requires Good(db)
    ensures CounterFor(db, repo) < I64_MAX <==> exists q: nat :: TakenFrom(db, repo, q)
  {
    TakenNumber(db, repo);
    if CounterFor(db, repo) < I64_MAX {
      assert Allocate(db, repo).Ok?;
      assert TakenFrom(db, repo, Allocate(db, repo).value.1);
    } else if q: nat :| TakenFrom(db, repo, q) {
      if repo !in db.counters {
        var id :| id in db.tasks && db.tasks[id].repoRoot == Some(repo) && UsesSequence(db.tasks[id].source)
          && db.tasks[id].sequence.Some? && db.tasks[id].sequence.value == MaxSequence(db, repo);
        assert Holds(db, id, repo, MaxSequence(db, repo));
      }
    }
  }

  // ---- Numbers in a row ----

  /** Task number k of a fresh list: new ids of one repository, without numbers of their own. */
  ghost predicate NewTasks(db: TaskDb, ids: seq<string>, records: seq<Task>, repo: string) {
    && |ids| == |records|
    && (forall i, j :: 0 <= i < j < |ids| ==> ids[i] != ids[j])
    && (forall k :: 0 <= k < |ids| ==> NewTask(db, ids[k], records[k], repo))
  }

  ghost predicate NewTask(db: TaskDb, id: string, record: Task, repo: string) {
    id !in db.tasks && IsTaskSource(record.source) && record.repoRoot == Some(repo) && record.sequence.None?
  }

  function Upserts(ids: seq<string>, records: seq<Task>): seq<Op>
    requires |ids| == |records|
  {
    seq(|ids|, k requires 0 <= k < |ids| => Upsert(ids[k], records[k]))
  }

  /** Upserts of new tasks one after the other get consecutive numbers from the counter
      on, and from 1 on in a repository without a counter. */
  lemma {:induction false} NewTasksCountUp(db: TaskDb, ids: seq<string>, records: seq<Task>, repo: string, k: nat)
    requires Good(db) && !IsBlank(repo) && NewTasks(db, ids, records, repo) && k <= |ids|
    requires FirstNumber(db, repo) + |ids| <= I64_MAX
    ensures CountedUp(db, StateAt(db, Upserts(ids, records), k), ids, repo, k)
  {
    hide Step, CountedUp;
    if k == 0 {
      NothingCounted(db, ids, repo);
    } else {
      NewTasksCountUp(db, ids, records, repo, k - 1);
      OneCountedMore(db, StateAt(db, Upserts(ids, records), k - 1), ids, records, repo, k - 1);
    }
  }

  function FirstNumber(db: TaskDb, repo: string): int {
    if repo in db.counters then db.counters[repo] else 1
  }

  /** The first k tasks are stored with consecutive numbers, and the counter is past them. */
  ghost predicate CountedUp(db: TaskDb, s: TaskDb, ids: seq<string>, repo: string, k: nat)
    requires k <= |ids|
  {
    && Good(s) && FirstNumber(s, repo) == FirstNumber(db, repo) + k && (k > 0 ==> repo in s.counters)
    && (forall id :: id in s.tasks <==> id in db.tasks || id in ids[..k])
    && InARow(s, ids[..k], repo, FirstNumber(db, repo))
  }

  ghost predicate InARow(s: TaskDb, ids: seq<string>, repo: string, start: int) {
    start >= 0 && forall i :: 0 <= i < |ids| ==> Holds(s, ids[i], repo, start + i)
  }

  lemma OneMoreInARow(s: TaskDb, next: TaskDb, ids: seq<string>, id: string, repo: string, start: int)
    requires InARow(s, ids, repo, start) && id !in ids
    requires id in next.tasks && next.tasks == s.tasks[id := next.tasks[id]] && Holds(next, id, repo, start + |ids|)
    ensures InARow(next, ids + [id], repo, start)
  {
    forall i | 0 <= i < |ids|
      ensures Holds(next, ids[i], repo, start + i)
    {
      assert Holds(s, ids[i], repo, start + i);
    }
  }

  lemma NothingCounted(db: TaskDb, ids: seq<string>, repo: string)
    requires Good(db)
    ensures CountedUp(db, db, ids, repo, 0)
  {
  }

  lemma OneCountedMore(db: TaskDb, s: TaskDb, ids: seq<string>, records: seq<Task>, repo: string, k: nat)
    requires Good(db) && !IsBlank(repo) && NewTasks(db, ids, records, repo) && k < |ids|
    requires FirstNumber(db, repo) + |ids| <= I64_MAX && CountedUp(db, s, ids, repo, k)
    ensures CountedUp(db, Step(s, Upsert(ids[k], records[k])), ids, repo, k + 1)
  {
    hide Step, Good;
    var id, record := ids[k], records[k];
    assert NewTask(db, id, record, repo);
    assert forall i :: 0 <= i < k ==> ids[i] != id;
    CounterIsNat(db, repo);
    NewTaskNumbered(s, id, record, repo, FirstNumber(s, repo));
    StoredAfter(db, s, Step(s, Upsert(id, record)), ids, repo, k);
  }

  lemma StoredAfter(db: TaskDb, s: TaskDb, next: TaskDb, ids: seq<string>, repo: string, k: nat)
    requires k < |ids| && CountedUp(db, s, ids, repo, k) && forall i :: 0 <= i < k ==> ids[i] != ids[k]
    requires ids[k] in next.tasks && next.tasks == s.tasks[ids[k] := next.tasks[ids[k]]]
    requires Good(next) && repo in next.counters && next.counters[repo] == FirstNumber(s, repo) + 1
    requires FirstNumber(s, repo) >= 0 && Holds(next, ids[k], repo, FirstNumber(s, repo))
    ensures CountedUp(db, next, ids, repo, k + 1)
  {
    hide Good, Holds, InARow;
    assert ids[..k + 1] == ids[..k] + [ids[k]];
    OneMoreInARow(s, next, ids[..k], ids[k], repo, FirstNumber(db, repo));
    assert forall id :: id in next.tasks <==> id in s.tasks || id == ids[k];
  }

  lemma CounterIsNat(db: TaskDb, repo: string)
    requires Good(db)
    ensures FirstNumber(db, repo) >= 0
  {
  }

  /** One upsert of a new task. */
  lemma NewTaskNumbered(db: TaskDb, id: string, record: Task, repo: string, q: nat)
    requires Good(db) && !IsBlank(repo) && NewTask(db, id, record, repo)
    requires q == if repo in db.counters then db.counters[repo] else 1
    requires q < I64_MAX
    ensures
      var next := Step(db, Upsert(id, record));
      && Good(next) && Holds(next, id, repo, q)
      && next.counters == db.counters[repo := q + 1]
      && next.tasks == db.tasks[id := Task(record.source, Some(q), Some(repo), record.createdAt)]
  {
    assert Allocating(db, id, record);
    if repo !in db.counters {
      NoCounterNoNumbers(db, repo);
    }
    AllocatingUpsertSucceeds(db, id, record);
    UpsertKeepsGood(db, id, record);
  }

  lemma NoCounterNoNumbers(db: TaskDb, repo: string)
    requires Good(db) && !IsBlank(repo) && repo !in db.counters
    ensures CounterFor(db, repo) == 1
  {
    if n :| n in StoredSequences(db, repo) {
      var id :| id in db.tasks && db.tasks[id].repoRoot == Some(repo) && db.tasks[id].sequence == Some(n);
      assert Holds(db, id, repo, n);
    }
  }

  // ---- Deletion ----

  /** A deletion removes that row and nothing else, and leaves every counter, so the
      deleted task's number is not given out again. */
  lemma DeleteRemovesOne(db: TaskDb, id: string)
    ensures DeleteStep(db, id).Ok? <==> id in db.tasks
    ensures
      var next := Step(db, Delete(id));
      && next.counters == db.counters && next.tasks.Keys == db.tasks.Keys - {id}
      && forall other :: other in db.tasks && other != id ==> next.tasks[other] == db.tasks[other]
  {
  }

  // ---- Start-up ----

  /** The tasks of a repository that a start-up newly numbers. */
  ghost function Waiting(db: TaskDb, repo: string): set<string> {
    set id | id in db.tasks && db.tasks[id].repoRoot == Some(repo) && IsTaskSource(db.tasks[id].source)
             && db.tasks[id].sequence.None?
  }

  ghost predicate HasTask(db: TaskDb, repo: string) {
    exists id :: id in db.tasks && db.tasks[id].repoRoot == Some(repo) && IsTaskSource(db.tasks[id].source)
  }

  /** Rows of a repository's task sources. */
  ghost function RowIds(db: TaskDb, rows: seq<SortKey>, repo: string): set<string> {
    set row | row in rows && row.group == repo && row.id in db.tasks && IsTaskSource(db.tasks[row.id].source) :: row.id
  }

  lemma {:induction false} BackfillMovesCounter(db: TaskDb, rows: seq<SortKey>, repo: string)
    requires Fits(db) && OnlyTasksNumbered(db) && Covered(db) && RowsFor(db, rows) && Backfill(db, rows).1
    ensures
      var after := Backfill(db, rows).0;
      if repo in db.counters then repo in after.counters && after.counters[repo] == db.counters[repo] + |RowIds(db, rows, repo)|
      else repo !in after.counters
    decreases |rows|
  {
    hide Fits, OnlyTasksNumbered, Covered;
    if rows == [] {
      assert RowIds(db, rows, repo) == {};
    } else if !UsesSequence(db.tasks[rows[0].id].source) {
      FirstRowSkipped(db, rows);
      BackfillMovesCounter(db, rows[1..], repo);
      assert RowIds(db, rows, repo) == RowIds(db, rows[1..], repo);
    } else {
      FirstRowNumbered(db, rows);
      var next := NumberRow(db, rows[0]);
      BackfillMovesCounter(next, rows[1..], repo);
      RowIdsFirst(db, next, rows, repo);
    }
  }

  lemma RowIdsFirst(db: TaskDb, next: TaskDb, rows: seq<SortKey>, repo: string)
    requires rows != [] && RowsFor(db, rows) && IsTaskSource(db.tasks[rows[0].id].source)
    requires next.tasks.Keys == db.tasks.Keys
    requires forall id :: id in db.tasks ==> next.tasks[id].source == db.tasks[id].source
    ensures |RowIds(db, rows, repo)| == |RowIds(next, rows[1..], repo)| + if rows[0].group == repo then 1 else 0
  {
    var rest := rows[1..];
    assert rows == [rows[0]] + rest;
    assert forall row :: row in rest ==> row.id != rows[0].id;
    if rows[0].group == repo {
      assert RowIds(db, rows, repo) == RowIds(next, rest, repo) + {rows[0].id};
    } else {
      assert RowIds(db, rows, repo) == RowIds(next, rest, repo);
    }
  }

  lemma SeededCounterStarts(db: TaskDb, repo: string, n: nat)
    requires StartsAt(db, repo, n)
    ensures MaxSequence(db, repo) + 1 == n
  {
    var numbers := StoredSequences(db, repo);
    forall q | q in numbers
      ensures q < n
    {
      var id :| id in db.tasks && db.tasks[id].repoRoot == Some(repo) && UsesSequence(db.tasks[id].source)
        && db.tasks[id].sequence == Some(q);
      assert Holds(db, id, repo, q);
    }
    if n > 1 {
      var id :| Holds(db, id, repo, n - 1) && IsTaskSource(db.tasks[id].source);
      assert n - 1 in numbers;
    }
  }

  /** Start-up sets the counter of every repository with task sources to the larger of
      its old value and the first free number, plus one for each task it newly numbers,
      and leaves all other counters alone. */
  lemma RestartCounts(db: TaskDb, repo: string, n: nat)
    requires Fits(db) && InitStep(db).1 && !IsSqlBlank(repo) && StartsAt(db, repo, n)
    ensures
      var after := InitStep(db).0;
      if HasTask(db, repo) then
        && repo in after.counters
        && after.counters[repo] ==
             (if repo in db.counters && db.counters[repo] > n then db.counters[repo] else n) + |Waiting(db, repo)|
      else (repo in after.counters <==> repo in db.counters)
           && (repo in db.counters ==> after.counters[repo] == db.counters[repo])
  {
    var scrubbed := Scrub(db);
    var seeded := Seed(scrubbed).value;
    var rows := BackfillRows(seeded);
    SeededState(db, repo, n);
    hide Seed, Scrub, BackfillRows, Backfill, Fits, OnlyTasksNumbered, Covered, RowsFor;
    BackfillMovesCounter(seeded, rows, repo);
  }

  lemma SeededState(db: TaskDb, repo: string, n: nat)
    requires Fits(db) && Seed(Scrub(db)).Ok? && !IsSqlBlank(repo) && StartsAt(db, repo, n)
    ensures
      var seeded := Seed(Scrub(db)).value;
      && Fits(seeded) && OnlyTasksNumbered(seeded) && Covered(seeded) && RowsFor(seeded, BackfillRows(seeded))
      && RowIds(seeded, BackfillRows(seeded), repo) == Waiting(db, repo)
      && if HasTask(db, repo) then
        && repo in seeded.counters
        && seeded.counters[repo] == if repo in db.counters && db.counters[repo] > n then db.counters[repo] else n
      else (repo in seeded.counters <==> repo in db.counters)
           && (repo in db.counters ==> seeded.counters[repo] == db.counters[repo])
           && Waiting(db, repo) == {}
  {
    var scrubbed := Scrub(db);
    ScrubFits(db);
    SeedCovers(scrubbed);
    SeedListsRows(scrubbed);
    ScrubStarts(db, repo, n);
    SeededCounterStarts(scrubbed, repo, n);
    WaitingListed(db, repo);
    SeedReposListed(db, repo);
    hide Fits, OnlyTasksNumbered, Covered, RowsFor, BackfillRows, Scrub, MaxSequence, StartsAt, RowIds, SeedRepos;
  }

  lemma ScrubStarts(db: TaskDb, repo: string, n: nat)
    requires StartsAt(db, repo, n)
    ensures StartsAt(Scrub(db), repo, n) && Scrub(db).counters == db.counters
  {
    forall id, q: nat | Holds(Scrub(db), id, repo, q) && IsTaskSource(Scrub(db).tasks[id].source)
      ensures q < n
    {
      assert Holds(db, id, repo, q);
    }
    if n > 1 {
      var id :| Holds(db, id, repo, n - 1) && IsTaskSource(db.tasks[id].source);
      assert Holds(Scrub(db), id, repo, n - 1);
    }
  }

  lemma SeedReposListed(db: TaskDb, repo: string)
    requires !IsSqlBlank(repo)
    ensures repo in SeedRepos(Scrub(db)) <==> HasTask(db, repo)
  {
    if id :| id in db.tasks && db.tasks[id].repoRoot == Some(repo) && IsTaskSource(db.tasks[id].source) {
      assert Scrub(db).tasks[id].repoRoot.value == repo;
    }
  }

  lemma WaitingListed(db: TaskDb, repo: string)
    requires Seed(Scrub(db)).Ok? && !IsSqlBlank(repo)
    ensures RowIds(Seed(Scrub(db)).value, BackfillRows(Seed(Scrub(db)).value), repo) == Waiting(db, repo)
  {
    var seeded := Seed(Scrub(db)).value;
    assert seeded.tasks == Scrub(db).tasks;
    BackfillRowsListed(seeded);
    hide Seed, BackfillRows;
    forall id
      ensures id in RowIds(seeded, BackfillRows(seeded), repo) <==> id in Waiting(db, repo)
    {
      if id in Waiting(db, repo) {
        assert Unnumbered(seeded, id);
        assert BackfillKey(seeded, id) in BackfillRows(seeded);
      }
      if id in RowIds(seeded, BackfillRows(seeded), repo) {
        var row :| row in BackfillRows(seeded) && row.group == repo && row.id == id;
        assert Unnumbered(seeded, id) && row == BackfillKey(seeded, id);
      }
    }
  }

  /** So the numbers a start-up hands out in a repository are exactly the next ones: as
      many as there are waiting tasks, starting at that counter. */
  lemma RestartNumbersAreNext(db: TaskDb, repo: string, n: nat, id: string)
    requires Fits(db) && InitStep(db).1 && !IsSqlBlank(repo) && StartsAt(db, repo, n) && id in Waiting(db, repo)
    ensures
      var first := if repo in db.counters && db.counters[repo] > n then db.counters[repo] else n;
      var after := InitStep(db).0;
      && id in after.tasks && after.tasks[id].sequence.Some?
      && first <= after.tasks[id].sequence.value < first + |Waiting(db, repo)|
  {
    RestartCounts(db, repo, n);
    RestartFits(db);
    RestartNumbersEveryTask(db, id);
    SeededState(db, repo, n);
    var seeded := Seed(Scrub(db)).value;
    BackfillOnlyAdds(seeded, BackfillRows(seeded));
    WaitingStaysUnnumbered(db, repo, id);
    assert TaskCovered(InitStep(db).0, InitStep(db).0.tasks[id]);
    hide Seed, Scrub, BackfillRows, Backfill, Fits, OnlyTasksNumbered, Good;
  }

  lemma WaitingStaysUnnumbered(db: TaskDb, repo: string, id: string)
    requires Seed(Scrub(db)).Ok? && id in Waiting(db, repo)
    ensures id in Seed(Scrub(db)).value.tasks && Seed(Scrub(db)).value.tasks[id] == db.tasks[id]
  {
  }

  /** There is a number left for every waiting task of the repository. */
  ghost predicate HasRoom(db: TaskDb, rows: seq<SortKey>, repo: string) {
    repo in db.counters ==> db.counters[repo] + |RowIds(db, rows, repo)| <= I64_MAX
  }

  lemma {:induction false} BackfillFinishes(db: TaskDb, rows: seq<SortKey>)
    requires Fits(db) && OnlyTasksNumbered(db) && Covered(db) && RowsFor(db, rows)
    requires forall repo :: HasRoom(db, rows, repo)
    ensures Backfill(db, rows).1
    decreases |rows|
  {
    hide Fits, OnlyTasksNumbered, Covered, RowsFor;
    if rows != [] {
      var row, rest := rows[0], rows[1..];
      RowsForFirst(db, rows);
      if !UsesSequence(db.tasks[row.id].source) {
        FirstRowSkipped(db, rows);
        forall repo
          ensures HasRoom(db, rest, repo)
        {
          assert HasRoom(db, rows, repo);
          assert RowIds(db, rows, repo) == RowIds(db, rest, repo);
        }
        BackfillFinishes(db, rest);
      } else {
        assert HasRoom(db, rows, row.group);
        AllocationHasRoom(db, rows);
        var next := NumberRow(db, row);
        NumberOneRow(db, row, next);
        RowsForRest(db, next, rows);
        forall repo
          ensures HasRoom(next, rest, repo)
        {
          assert HasRoom(db, rows, repo);
          RowIdsFirst(db, next, rows, repo);
          NumberedCounter(db, row, repo);
        }
        BackfillFinishes(next, rest);
      }
    }
  }

  lemma RowsForFirst(db: TaskDb, rows: seq<SortKey>)
    requires RowsFor(db, rows) && rows != []
    ensures RowFor(db, rows[0]) && rows[0].id in db.tasks
  {
  }

  lemma AllocationHasRoom(db: TaskDb, rows: seq<SortKey>)
    requires Fits(db) && OnlyTasksNumbered(db) && Covered(db) && RowsFor(db, rows) && rows != []
    requires IsTaskSource(db.tasks[rows[0].id].source) && HasRoom(db, rows, rows[0].group)
    ensures rows[0].group in db.counters && Allocate(db, rows[0].group).Ok?
  {
    RowIdsFirst(db, db, rows, rows[0].group);
    assert RowFor(db, rows[0]) && TaskCovered(db, db.tasks[rows[0].id]);
  }

  lemma NumberedCounter(db: TaskDb, row: SortKey, repo: string)
    requires row.id in db.tasks && Allocate(db, row.group).Ok? && row.group in db.counters
    ensures
      var next := NumberRow(db, row);
      && next.tasks.Keys == db.tasks.Keys
      && (forall id :: id in db.tasks ==> next.tasks[id].source == db.tasks[id].source)
      && next.counters.Keys == db.counters.Keys
      && (repo in db.counters ==> next.counters[repo] == db.counters[repo] + if repo == row.group then 1 else 0)
  {
  }

  lemma RestartNeedsRoom(db: TaskDb)
    requires Fits(db)
    ensures InitStep(db).1 <==>
      Seed(Scrub(db)).Ok? && forall repo :: HasRoom(Seed(Scrub(db)).value, BackfillRows(Seed(Scrub(db)).value), repo)
  {
    if Seed(Scrub(db)).Ok? {
      var seeded := Seed(Scrub(db)).value;
      var rows := BackfillRows(seeded);
      ScrubFits(db);
      SeedCovers(Scrub(db));
      SeedListsRows(Scrub(db));
      hide Seed, Scrub, BackfillRows, Covered, OnlyTasksNumbered, RowsFor, Backfill;
      if forall repo :: HasRoom(seeded, rows, repo) {
        BackfillFinishes(seeded, rows);
      }
      if Backfill(seeded, rows).1 {
        BackfillOnlyAdds(seeded, rows);
        forall repo
          ensures HasRoom(seeded, rows, repo)
        {
          BackfillMovesCounter(seeded, rows, repo);
        }
      }
    }
  }

  /** Every waiting task of the repository can have a number below the 64-bit limit. */
  ghost predicate NumbersLeft(db: TaskDb, repo: string) {
    forall n: nat :: StartsAt(db, repo, n) ==>
      n <= I64_MAX
      && (if repo in db.counters && db.counters[repo] > n then db.counters[repo] else n) + |Waiting(db, repo)| <= I64_MAX
  }

  /** Start-up completes exactly when each repository with task sources has numbers left
      for all its waiting tasks. */
  lemma RestartSucceedsIff(db: TaskDb)
    requires Fits(db)
    ensures InitStep(db).1 <==> forall repo :: !IsSqlBlank(repo) && HasTask(db, repo) ==> NumbersLeft(db, repo)
  {
    hide NumbersLeft, HasTask, IsSqlBlank, HasRoom;
    RestartNeedsRoom(db);
    if forall repo :: !IsSqlBlank(repo) && HasTask(db, repo) ==> NumbersLeft(db, repo) {
      SeedNeedsRoom(db);
    }
    if Seed(Scrub(db)).Ok? {
      forall repo
        ensures HasRoom(Seed(Scrub(db)).value, BackfillRows(Seed(Scrub(db)).value), repo)
           <==> (!IsSqlBlank(repo) && HasTask(db, repo) ==> NumbersLeft(db, repo))
      {
        RoomIsNumbersLeft(db, repo);
      }
    }
    hide Seed, Scrub, BackfillRows, InitStep, Fits;
  }

  lemma StartExists(db: TaskDb, repo: string)
    ensures StartsAt(db, repo, MaxSequence(db, repo) + 1)
  {
    var numbers := StoredSequences(db, repo);
    var m := MaxSequence(db, repo);
    forall id, q: nat | Holds(db, id, repo, q) && IsTaskSource(db.tasks[id].source)
      ensures q < m + 1
    {
      assert q in numbers;
    }
    if m > 0 {
      assert m in numbers;
      var id :| id in db.tasks && db.tasks[id].repoRoot == Some(repo) && UsesSequence(db.tasks[id].source)
        && db.tasks[id].sequence == Some(m);
      assert Holds(db, id, repo, m);
    }
  }

  lemma ScrubKeepsMax(db: TaskDb, repo: string)
    ensures MaxSequence(Scrub(db), repo) == MaxSequence(db, repo)
  {
    StartExists(db, repo);
    ScrubStarts(db, repo, MaxSequence(db, repo) + 1);
    SeededCounterStarts(Scrub(db), repo, MaxSequence(db, repo) + 1);
  }

  lemma SeedNeedsRoom(db: TaskDb)
    requires forall repo :: !IsSqlBlank(repo) && HasTask(db, repo) ==> NumbersLeft(db, repo)
    ensures Seed(Scrub(db)).Ok?
  {
    hide Scrub, MaxSequence, HasTask, StartsAt, IsSqlBlank, Waiting;
    forall repo | repo in SeedRepos(Scrub(db))
      ensures MaxSequence(Scrub(db), repo) < I64_MAX
    {
      SeedReposNonblank(Scrub(db), repo);
      SeedReposListed(db, repo);
      ScrubKeepsMax(db, repo);
      StartExists(db, repo);
      assert NumbersLeft(db, repo);
    }
  }

  lemma SeedReposNonblank(db: TaskDb, repo: string)
    requires repo in SeedRepos(db)
    ensures !IsSqlBlank(repo)
  {
  }

  lemma RoomIsNumbersLeft(db: TaskDb, repo: string)
    requires Fits(db) && Seed(Scrub(db)).Ok?
    ensures HasRoom(Seed(Scrub(db)).value, BackfillRows(Seed(Scrub(db)).value), repo)
       <==> (!IsSqlBlank(repo) && HasTask(db, repo) ==> NumbersLeft(db, repo))
  {
    hide Seed, Scrub, BackfillRows, StartsAt, Waiting, RowIds, MaxSequence, HasRoom, NumbersLeft, HasTask, IsSqlBlank;
    hide Covered, OnlyTasksNumbered, RowsFor, Fits;
    var seeded := Seed(Scrub(db)).value;
    if IsSqlBlank(repo) {
      BlankHasRoom(db, repo);
    } else {
      var n := MaxSequence(db, repo) + 1;
      StartExists(db, repo);
      SeededState(db, repo, n);
      StartIsUnique(db, repo, n);
      SeededNumberFits(db, repo, n);
      RoomMeans(db, seeded, BackfillRows(seeded), repo, n);
    }
  }

  lemma RoomMeans(db: TaskDb, seeded: TaskDb, rows: seq<SortKey>, repo: string, n: nat)
    requires RowIds(seeded, rows, repo) == Waiting(db, repo)
    requires StartsAt(db, repo, n) && forall m: nat :: StartsAt(db, repo, m) ==> m == n
    requires HasTask(db, repo) ==>
      && n <= I64_MAX && repo in seeded.counters
      && seeded.counters[repo] == if repo in db.counters && db.counters[repo] > n then db.counters[repo] else n
    requires !HasTask(db, repo) ==> Waiting(db, repo) == {}
    requires repo in seeded.counters ==> seeded.counters[repo] <= I64_MAX
    ensures HasRoom(seeded, rows, repo) <==> (HasTask(db, repo) ==> NumbersLeft(db, repo))
  {
    hide RowIds, Waiting, StartsAt, HasTask;
  }

  lemma StartIsUnique(db: TaskDb, repo: string, n: nat)
    requires StartsAt(db, repo, n)
    ensures forall m: nat :: StartsAt(db, repo, m) ==> m == n
  {
    SeededCounterStarts(db, repo, n);
    forall m: nat | StartsAt(db, repo, m)
      ensures m == n
    {
      SeededCounterStarts(db, repo, m);
    }
  }

  lemma SeededNumberFits(db: TaskDb, repo: string, n: nat)
    requires Fits(db) && Seed(Scrub(db)).Ok? && !IsSqlBlank(repo) && StartsAt(db, repo, n)
    ensures HasTask(db, repo) ==> n <= I64_MAX
    ensures repo in Seed(Scrub(db)).value.counters ==> Seed(Scrub(db)).value.counters[repo] <= I64_MAX
  {
    ScrubStarts(db, repo, n);
    SeededCounterStarts(Scrub(db), repo, n);
    SeedReposListed(db, repo);
    ScrubFits(db);
    SeedCovers(Scrub(db));
  }

  lemma BlankHasRoom(db: TaskDb, repo: string)
    requires Fits(db) && Seed(Scrub(db)).Ok? && IsSqlBlank(repo)
    ensures HasRoom(Seed(Scrub(db)).value, BackfillRows(Seed(Scrub(db)).value), repo)
  {
    var seeded := Seed(Scrub(db)).value;
    ScrubFits(db);
    SeedCovers(Scrub(db));
    BackfillRowsListed(seeded);
    hide Seed, Scrub, BackfillRows, Covered, OnlyTasksNumbered;
    forall row | row in BackfillRows(seeded)
      ensures row.group != repo
    {
      var i :| 0 <= i < |BackfillRows(seeded)| && BackfillRows(seeded)[i] == row;
      assert Unnumbered(seeded, row.id) && row == BackfillKey(seeded, row.id);
    }
    assert RowIds(seeded, BackfillRows(seeded), repo) == {};
  }
}
