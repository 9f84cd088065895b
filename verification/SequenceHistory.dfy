/** The promises of task numbering over whole runs: a number taken from the
    counter was never used before in its repository, not even by a deleted task,
    and start-up numbers every task that needs a number, once. */
module SequenceHistory {
  import opened Common
  import opened Ordering
  import opened TaskSequences

  /** `Restart` is a new process opening the database. */
  datatype Op =
    | Upsert(id: string, record: Task)
    | Delete(id: string)
    | Restart

  /** A failed upsert or delete is rolled back. */
  function Step(db: TaskDb, op: Op): TaskDb {
    match op
    case Upsert(id, record) =>
      (match UpsertStep(db, id, record)
       case Ok(db') => db'
       case Err(_) => db)
    case Delete(id) =>
      (match DeleteStep(db, id)
       case Ok(db') => db'
       case Err(_) => db)
    case Restart => InitStep(db).0
  }

  function StateAt(db: TaskDb, ops: seq<Op>, k: nat): TaskDb
    requires k <= |ops|
  {
    if k == 0 then db else Step(StateAt(db, ops, k - 1), ops[k - 1])
  }

  ghost predicate Holds(db: TaskDb, id: string, repo: string, sequence: nat) {
    id in db.tasks && db.tasks[id].repoRoot == Some(repo) && db.tasks[id].sequence == Some(sequence)
  }

  ghost predicate Stored(db: TaskDb, repo: string, sequence: nat) {
    exists id :: Holds(db, id, repo, sequence)
  }

  /** The counter has passed the number; at the 64-bit limit the counter is stuck
      and hands out nothing more. */
  ghost predicate Passed(db: TaskDb, repo: string, sequence: nat) {
    repo in db.counters && (sequence < db.counters[repo] || db.counters[repo] == I64_MAX)
  }

  /** What the columns and the unique index guarantee on their own. */
  ghost predicate Fits(db: TaskDb) {
    && (forall r :: r in db.counters ==> 0 <= db.counters[r] <= I64_MAX)
    && (forall id :: id in db.tasks && db.tasks[id].sequence.Some? ==> db.tasks[id].sequence.value <= I64_MAX)
    && (forall a, b, r, q :: Holds(db, a, r, q) && Holds(db, b, r, q) ==> a == b)
  }

  ghost predicate OnlyTasksNumbered(db: TaskDb) {
    forall id :: id in db.tasks && db.tasks[id].sequence.Some? ==> UsesSequence(db.tasks[id].source)
  }

  /** The state every initialised database stays in: only task sources hold a
      number, and each nonblank repository's counter has passed all of them. */
  ghost predicate Good(db: TaskDb) {
    && Fits(db) && OnlyTasksNumbered(db)
    && (forall id, r, q :: Holds(db, id, r, q) && !IsBlank(r) ==> Passed(db, r, q))
  }

  /** Counters are never removed and never move backwards. */
  ghost predicate Grows(before: TaskDb, after: TaskDb) {
    forall r :: r in before.counters ==> r in after.counters && before.counters[r] <= after.counters[r]
  }

  // ---- Upsert ----

  /** For a nonblank repository the allocator's number is held by no task, and the
      counter it leaves behind has passed it. */
  lemma AllocateIsFresh(db: TaskDb, repo: string)
    requires Good(db) && !IsBlank(repo) && Allocate(db, repo).Ok?
    ensures
      var (db', q) := Allocate(db, repo).value;
      && db'.tasks == db.tasks && Grows(db, db') && Passed(db', repo, q) && q < I64_MAX
      && q == CounterFor(db, repo) && !Stored(db, repo, q)
  {
  }

  lemma AdvanceKeepsGood(db: TaskDb, repo: Option<string>, sequence: Option<nat>)
    requires Good(db)
    ensures Good(Advance(db, repo, sequence)) && Grows(db, Advance(db, repo, sequence))
    ensures Advance(db, repo, sequence).tasks == db.tasks
    ensures repo.Some? && !IsBlank(repo.value) && sequence.Some? && sequence.value <= I64_MAX
            ==> Passed(Advance(db, repo, sequence), repo.value, sequence.value)
  {
    assert forall a, r, q :: Holds(Advance(db, repo, sequence), a, r, q) <==> Holds(db, a, r, q);
  }

  lemma ChooseKeepsGood(db: TaskDb, id: string, record: Task)
    requires Good(db) && ChooseSequence(db, id, record).Ok?
    ensures
      var (chosen, sequence) := ChooseSequence(db, id, record).value;
      && Good(chosen) && Grows(db, chosen) && chosen.tasks == db.tasks
      && (sequence.Some? ==> UsesSequence(record.source))
  {
    var (chosen, sequence) := ChooseSequence(db, id, record).value;
    assert forall a, r, q :: Holds(chosen, a, r, q) <==> Holds(db, a, r, q);
  }

  lemma PutKeepsGood(db: TaskDb, id: string, task: Task)
    requires Good(db) && !Clashes(db, id, task)
    requires task.sequence.Some? ==> task.sequence.value <= I64_MAX && UsesSequence(task.source)
    requires task.sequence.Some? && task.repoRoot.Some? && !IsBlank(task.repoRoot.value) ==>
      Passed(db, task.repoRoot.value, task.sequence.value)
    ensures Good(db.(tasks := db.tasks[id := task]))
  {
    var db' := db.(tasks := db.tasks[id := task]);
    assert forall a, r, q :: a != id ==> (Holds(db', a, r, q) <==> Holds(db, a, r, q));
    forall a, r, q | a != id && Holds(db', a, r, q)
      ensures !Holds(db', id, r, q)
    {
      assert Holds(db, a, r, q);
    }
  }

  lemma UpsertKeepsGood(db: TaskDb, id: string, record: Task)
    requires Good(db) && UpsertStep(db, id, record).Ok?
    ensures Good(UpsertStep(db, id, record).value)
    ensures Grows(db, UpsertStep(db, id, record).value)
  {
    var (chosen, sequence) := ChooseSequence(db, id, record).value;
    var advanced := Advance(chosen, TargetRepo(db, id, record), sequence);
    var db' := UpsertStep(db, id, record).value;
    hide ChooseSequence, Advance, Good, TargetRepo, Clashes;
    ChooseKeepsGood(db, id, record);
    AdvanceKeepsGood(chosen, TargetRepo(db, id, record), sequence);
    PutKeepsGood(advanced, id, db'.tasks[id]);
  }

  /** Without a kept or explicit number, an upsert fails only at the 64-bit limit;
      the unique index can never refuse what the counter hands out. */
  lemma AllocatingUpsertSucceeds(db: TaskDb, id: string, record: Task)
    requires Good(db) && Allocating(db, id, record)
    ensures
      var repo := TargetRepo(db, id, record).value;
      if CounterFor(db, repo) < I64_MAX then
        && UpsertStep(db, id, record).Ok?
        && Holds(UpsertStep(db, id, record).value, id, repo, CounterFor(db, repo))
      else UpsertStep(db, id, record) == Err(SequenceOverflow)
  {
    var repo := TargetRepo(db, id, record).value;
    if Allocate(db, repo).Ok? {
      AllocateIsFresh(db, repo);
      assert forall a :: a in db.tasks ==> !Holds(db, a, repo, CounterFor(db, repo));
    }
  }

  // ---- Start-up ----

  /** After seeding, the counter of every repository that SQL calls nonblank
      exists and lies strictly above the numbers of its task sources. */
  ghost predicate Covered(db: TaskDb) {
    forall id :: id in db.tasks ==> TaskCovered(db, db.tasks[id])
  }

  ghost predicate TaskCovered(db: TaskDb, task: Task) {
    UsesSequence(task.source) && task.repoRoot.Some? && !IsSqlBlank(task.repoRoot.value) ==>
      && task.repoRoot.value in db.counters && 1 <= db.counters[task.repoRoot.value]
      && (task.sequence.Some? ==> task.sequence.value < db.counters[task.repoRoot.value])
  }

  ghost predicate RowsFor(db: TaskDb, rows: seq<SortKey>) {
    && (forall i, j :: 0 <= i < j < |rows| ==> rows[i].id != rows[j].id)
    && (forall i :: 0 <= i < |rows| ==> RowFor(db, rows[i]))
  }

  ghost predicate RowFor(db: TaskDb, row: SortKey) {
    && row.id in db.tasks && db.tasks[row.id].repoRoot == Some(row.group)
    && db.tasks[row.id].sequence.None? && !IsSqlBlank(row.group)
  }

  /** The task had no number and now has one the counter had not passed. */
  ghost predicate NewlyNumbered(before: TaskDb, after: TaskDb, id: string)
    requires id in before.tasks && id in after.tasks
  {
    var task, numbered := before.tasks[id], after.tasks[id];
    && task.sequence.None? && UsesSequence(task.source) && numbered.sequence.Some?
    && numbered == task.(sequence := numbered.sequence)
    && task.repoRoot.Some? && task.repoRoot.value in before.counters
    && before.counters[task.repoRoot.value] <= numbered.sequence.value < I64_MAX
  }

  ghost predicate OnlyNewNumbers(before: TaskDb, after: TaskDb) {
    && after.tasks.Keys == before.tasks.Keys && Grows(before, after)
    && (forall id :: id in before.tasks ==> after.tasks[id] == before.tasks[id] || NewlyNumbered(before, after, id))
  }

  lemma NumberKeepsFits(db: TaskDb, row: SortKey, next: TaskDb)
    requires Fits(db) && Covered(db) && RowFor(db, row)
    requires UsesSequence(db.tasks[row.id].source) && Allocate(db, row.group).Ok?
    requires
      var (counted, q) := Allocate(db, row.group).value;
      next == counted.(tasks := counted.tasks[row.id := counted.tasks[row.id].(sequence := Some(q))])
    requires !Stored(db, row.group, Allocate(db, row.group).value.1)
    ensures Fits(next)
  {
    var q := Allocate(db, row.group).value.1;
    assert row.group in db.counters by {
      assert TaskCovered(db, db.tasks[row.id]);
    }
    forall a, r, p | a != row.id && Holds(next, a, r, p)
      ensures Holds(db, a, r, p) && !Holds(next, row.id, r, p)
    {
      assert Holds(db, a, r, p);
    }
  }

  lemma CoveredHasNot(db: TaskDb, row: SortKey)
    requires OnlyTasksNumbered(db) && Covered(db) && RowFor(db, row)
    requires UsesSequence(db.tasks[row.id].source) && Allocate(db, row.group).Ok?
    ensures row.group in db.counters && !Stored(db, row.group, Allocate(db, row.group).value.1)
  {
    assert TaskCovered(db, db.tasks[row.id]);
    forall id
      ensures !Holds(db, id, row.group, Allocate(db, row.group).value.1)
    {
      assert id in db.tasks ==> TaskCovered(db, db.tasks[id]);
    }
  }

  lemma NumberOneRow(db: TaskDb, row: SortKey, next: TaskDb)
    requires Fits(db) && OnlyTasksNumbered(db) && Covered(db) && RowFor(db, row)
    requires UsesSequence(db.tasks[row.id].source) && Allocate(db, row.group).Ok?
    requires
      var (counted, q) := Allocate(db, row.group).value;
      next == counted.(tasks := counted.tasks[row.id := counted.tasks[row.id].(sequence := Some(q))])
    ensures Fits(next) && OnlyTasksNumbered(next) && Covered(next)
    ensures OnlyNewNumbers(db, next) && NewlyNumbered(db, next, row.id)
    ensures next.counters.Keys == db.counters.Keys
    ensures next.tasks[row.id].sequence.value + 1 == next.counters[row.group]
    ensures forall id :: id in db.tasks && id != row.id ==> next.tasks[id] == db.tasks[id]
  {
    CoveredHasNot(db, row);
    NumberKeepsFits(db, row, next);
    assert 0 <= db.counters[row.group] <= I64_MAX;
    hide Fits, Stored;
  }

  function NumberRow(db: TaskDb, row: SortKey): TaskDb
    requires row.id in db.tasks && Allocate(db, row.group).Ok?
  {
    var (counted, q) := Allocate(db, row.group).value;
    counted.(tasks := counted.tasks[row.id := counted.tasks[row.id].(sequence := Some(q))])
  }

  lemma NewNumbersCompose(a: TaskDb, b: TaskDb, c: TaskDb)
    requires OnlyNewNumbers(a, b) && OnlyNewNumbers(b, c) && a.counters.Keys == b.counters.Keys
    ensures OnlyNewNumbers(a, c)
  {
  }

  lemma RowsForRest(db: TaskDb, next: TaskDb, rows: seq<SortKey>)
    requires rows != [] && RowsFor(db, rows) && next.tasks.Keys == db.tasks.Keys
    requires forall id :: id in db.tasks && id != rows[0].id ==> next.tasks[id] == db.tasks[id]
    ensures RowsFor(next, rows[1..])
  {
    var rest := rows[1..];
    forall i | 0 <= i < |rest| ensures RowFor(next, rest[i]) {
      assert RowFor(db, rows[i + 1]);
    }
  }

  /** Backfill, even cut short by a failure, only adds numbers that no counter
      had passed, and touches no task outside its rows. */
  lemma {:induction false} BackfillOnlyAdds(db: TaskDb, rows: seq<SortKey>)
    requires Fits(db) && OnlyTasksNumbered(db) && Covered(db) && RowsFor(db, rows)
    ensures
      var (after, ok) := Backfill(db, rows);
      && Fits(after) && OnlyTasksNumbered(after) && Covered(after) && OnlyNewNumbers(db, after)
      && (forall id :: id in db.tasks && (forall i :: 0 <= i < |rows| ==> rows[i].id != id) ==>
            after.tasks[id] == db.tasks[id])
    decreases |rows|
  {
    if rows != [] {
      var row, rest := rows[0], rows[1..];
      assert forall i :: 0 <= i < |rest| ==> rest[i] == rows[i + 1];
      if !UsesSequence(db.tasks[row.id].source) {
        BackfillOnlyAdds(db, rest);
      } else if Allocate(db, row.group).Ok? {
        var next := NumberRow(db, row);
        hide Allocate, Fits, OnlyTasksNumbered, Covered, RowsFor, NewlyNumbered;
        NumberOneRow(db, row, next);
        RowsForRest(db, next, rows);
        BackfillOnlyAdds(next, rest);
        NewNumbersCompose(db, next, Backfill(next, rest).0);
      }
    }
  }

  /** One productive turn of the backfill loop, in the terms the row lemmas use. */
  lemma FirstRowNumbered(db: TaskDb, rows: seq<SortKey>)
    requires Fits(db) && OnlyTasksNumbered(db) && Covered(db) && RowsFor(db, rows)
    requires rows != [] && UsesSequence(db.tasks[rows[0].id].source) && Backfill(db, rows).1
    ensures Allocate(db, rows[0].group).Ok?
    ensures
      var next := NumberRow(db, rows[0]);
      var after := Backfill(db, rows).0;
      && Fits(next) && OnlyTasksNumbered(next) && Covered(next) && RowsFor(next, rows[1..])
      && Backfill(db, rows) == Backfill(next, rows[1..])
      && OnlyNewNumbers(db, next) && OnlyNewNumbers(next, after)
      && NewlyNumbered(db, next, rows[0].id)
      && after.tasks[rows[0].id] == next.tasks[rows[0].id]
      && after.tasks[rows[0].id].sequence.value < next.counters[rows[0].group]
      && (forall i :: 0 < i < |rows| ==> rows[i].id in db.tasks && next.tasks[rows[i].id] == db.tasks[rows[i].id])
  {
    hide Fits, OnlyTasksNumbered, Covered, NewlyNumbered;
    var row, rest := rows[0], rows[1..];
    assert forall x :: 0 <= x < |rest| ==> rest[x] == rows[x + 1];
    var next := NumberRow(db, row);
    NumberOneRow(db, row, next);
    RowsForRest(db, next, rows);
    BackfillOnlyAdds(next, rest);
  }

  lemma FirstRowSkipped(db: TaskDb, rows: seq<SortKey>)
    requires RowsFor(db, rows) && rows != [] && !UsesSequence(db.tasks[rows[0].id].source)
    ensures RowsFor(db, rows[1..]) && Backfill(db, rows) == Backfill(db, rows[1..])
  {
  }

  /** A finished backfill has numbered every task source among its rows. */
  lemma {:induction false} BackfillNumbersRow(db: TaskDb, rows: seq<SortKey>, i: nat)
    requires Fits(db) && OnlyTasksNumbered(db) && Covered(db) && RowsFor(db, rows)
    requires i < |rows| && Backfill(db, rows).1 && UsesSequence(db.tasks[rows[i].id].source)
    ensures Backfill(db, rows).0.tasks.Keys == db.tasks.Keys
    ensures NewlyNumbered(db, Backfill(db, rows).0, rows[i].id)
    decreases |rows|
  {
    if !UsesSequence(db.tasks[rows[0].id].source) {
      FirstRowSkipped(db, rows);
      BackfillNumbersRow(db, rows[1..], i - 1);
    } else {
      FirstRowNumbered(db, rows);
      hide Allocate, Fits, OnlyTasksNumbered, Covered, RowsFor, Backfill, NumberRow;
      if i > 0 {
        BackfillNumbersRow(NumberRow(db, rows[0]), rows[1..], i - 1);
      }
    }
  }

  /** The first row's number stays below every later one of its repository. */
  lemma FirstNumberIsLowest(db: TaskDb, rows: seq<SortKey>, j: nat)
    requires Fits(db) && OnlyTasksNumbered(db) && Covered(db) && RowsFor(db, rows)
    requires 0 < j < |rows| && Backfill(db, rows).1 && rows[0].group == rows[j].group
    requires UsesSequence(db.tasks[rows[0].id].source) && UsesSequence(db.tasks[rows[j].id].source)
    ensures NumbersRise(db, Backfill(db, rows).0, rows[0].id, rows[j].id)
  {
    assert RowFor(db, rows[j]);
    FirstRowNumbered(db, rows);
    var next := NumberRow(db, rows[0]);
    hide Allocate, Fits, OnlyTasksNumbered, Covered, RowsFor, RowFor, Backfill, NumberRow;
    BackfillNumbersRow(next, rows[1..], j - 1);
    assert next.tasks[rows[j].id].repoRoot == Some(rows[0].group);
  }

  ghost predicate NumbersRise(before: TaskDb, after: TaskDb, a: string, b: string) {
    && after.tasks.Keys == before.tasks.Keys && a in after.tasks && b in after.tasks
    && after.tasks[a].sequence.Some? && after.tasks[b].sequence.Some?
    && after.tasks[a].sequence.value < after.tasks[b].sequence.value
  }

  /** Numbers rise along the rows of one repository. */
  lemma {:induction false} BackfillNumbersRise(db: TaskDb, rows: seq<SortKey>, i: nat, j: nat)
    requires Fits(db) && OnlyTasksNumbered(db) && Covered(db) && RowsFor(db, rows)
    requires i < j < |rows| && Backfill(db, rows).1 && rows[i].group == rows[j].group
    requires UsesSequence(db.tasks[rows[i].id].source) && UsesSequence(db.tasks[rows[j].id].source)
    ensures NumbersRise(db, Backfill(db, rows).0, rows[i].id, rows[j].id)
    decreases |rows|
  {
    hide Allocate, Fits, OnlyTasksNumbered, Covered, Backfill, NewlyNumbered;
    if i == 0 {
      FirstNumberIsLowest(db, rows, j);
    } else if !UsesSequence(db.tasks[rows[0].id].source) {
      FirstRowSkipped(db, rows);
      BackfillNumbersRise(db, rows[1..], i - 1, j - 1);
    } else {
      FirstRowNumbered(db, rows);
      BackfillNumbersRise(NumberRow(db, rows[0]), rows[1..], i - 1, j - 1);
    }
  }

  // ---- Restart ----

  /** The backfill query lists every unnumbered task of a nonblank repository
      once, by repository, creation time and id. */
  lemma BackfillRowsListed(db: TaskDb)
    ensures
      var rows := BackfillRows(db);
      && (forall i :: 0 <= i < |rows| ==> Unnumbered(db, rows[i].id) && rows[i] == BackfillKey(db, rows[i].id))
      && (forall id :: Unnumbered(db, id) ==> BackfillKey(db, id) in rows)
      && (forall i, j :: 0 <= i < j < |rows| ==> rows[i].id != rows[j].id && KeyLe(rows[i], rows[j]))
  {
    var keys := set id | id in db.tasks && Unnumbered(db, id) :: BackfillKey(db, id);
    SortedIsOrdered(keys);
    var rows := BackfillRows(db);
    forall i | 0 <= i < |rows|
      ensures Unnumbered(db, rows[i].id) && rows[i] == BackfillKey(db, rows[i].id)
    {
      assert rows[i] in keys;
    }
    forall id | Unnumbered(db, id)
      ensures BackfillKey(db, id) in rows
    {
      assert BackfillKey(db, id) in keys;
    }
  }

  lemma ScrubFits(db: TaskDb)
    requires Fits(db)
    ensures Fits(Scrub(db)) && OnlyTasksNumbered(Scrub(db))
    ensures OnlyTasksNumbered(db) ==> Scrub(db) == db
  {
    assert forall a, r, q :: Holds(Scrub(db), a, r, q) ==> Holds(db, a, r, q);
    if OnlyTasksNumbered(db) {
      assert Scrub(db).tasks == db.tasks;
    }
  }

  lemma SeedCovers(db: TaskDb)
    requires Fits(db) && OnlyTasksNumbered(db) && Seed(db).Ok?
    ensures
      var seeded := Seed(db).value;
      Fits(seeded) && OnlyTasksNumbered(seeded) && Covered(seeded) && Grows(db, seeded) && seeded.tasks == db.tasks
  {
    var seeded := Seed(db).value;
    assert forall a, r, q :: Holds(seeded, a, r, q) <==> Holds(db, a, r, q);
    forall id | id in db.tasks
      ensures TaskCovered(seeded, db.tasks[id])
    {
      var task := db.tasks[id];
      if UsesSequence(task.source) && task.repoRoot.Some? && !IsSqlBlank(task.repoRoot.value) {
        assert task.repoRoot.value in SeedRepos(db);
        assert task.sequence.Some? ==> task.sequence.value in StoredSequences(db, task.repoRoot.value);
      }
    }
  }

  lemma SeedListsRows(db: TaskDb)
    requires Seed(db).Ok?
    ensures RowsFor(Seed(db).value, BackfillRows(Seed(db).value))
  {
    var seeded := Seed(db).value;
    BackfillRowsListed(seeded);
    forall i | 0 <= i < |BackfillRows(seeded)|
      ensures RowFor(seeded, BackfillRows(seeded)[i])
    {
      var id := BackfillRows(seeded)[i].id;
      assert UsesSequence(db.tasks[id].source) ==> db.tasks[id].repoRoot.value in SeedRepos(db);
    }
  }

  lemma RestartKeepsGood(db: TaskDb)
    requires Good(db)
    ensures Good(InitStep(db).0) && Grows(db, InitStep(db).0)
    ensures InitStep(db).0.tasks.Keys == db.tasks.Keys
    ensures forall id :: id in db.tasks ==>
      InitStep(db).0.tasks[id] == db.tasks[id]
      || (Seed(db).Ok? && Grows(db, Seed(db).value) && Seed(db).value.tasks == db.tasks
          && NewlyNumbered(Seed(db).value, InitStep(db).0, id))
  {
    hide Seed, Scrub, Backfill, BackfillRows, NewlyNumbered, RowsFor;
    ScrubFits(db);
    if Seed(db).Ok? {
      var seeded := Seed(db).value;
      SeedCovers(db);
      SeedListsRows(db);
      BackfillOnlyAdds(seeded, BackfillRows(seeded));
      CoveredIsGood(InitStep(db).0);
    }
  }

  /** From any tables the schema allows: once seeding succeeds the reachable-state
      invariant holds, even if the backfill stops early; if seeding fails, nothing but
      the scrub has happened. */
  lemma RestartFits(db: TaskDb)
    requires Fits(db)
    ensures
      var (after, ok) := InitStep(db);
      && after.tasks.Keys == db.tasks.Keys && Fits(after) && OnlyTasksNumbered(after)
      && (ok ==> Seed(Scrub(db)).Ok?)
      && (if Seed(Scrub(db)).Ok? then Covered(after) && Good(after) else after == Scrub(db))
  {
    hide Fits, OnlyTasksNumbered, Covered, Good, Scrub, Seed, Backfill, BackfillRows, RowsFor;
    var scrubbed := Scrub(db);
    ScrubFits(db);
    ScrubKeepsIds(db);
    if Seed(scrubbed).Ok? {
      SeedCovers(scrubbed);
      SeedListsRows(scrubbed);
      BackfillOnlyAdds(Seed(scrubbed).value, BackfillRows(Seed(scrubbed).value));
      CoveredIsGood(InitStep(db).0);
    }
  }

  lemma ScrubKeepsIds(db: TaskDb)
    ensures Scrub(db).tasks.Keys == db.tasks.Keys
  {
  }

  ghost predicate PassedAll(db: TaskDb) {
    forall id, r, q :: Holds(db, id, r, q) && !IsBlank(r) ==> Passed(db, r, q)
  }

  /** Start-up establishes the invariant exactly when no task source of a nonblank
      repository holds the largest 64-bit number, or the counters had already passed
      every number that the scrub leaves. */
  lemma RestartGoodIff(db: TaskDb)
    requires Fits(db)
    ensures Good(InitStep(db).0) <==>
      || (forall repo :: repo in SeedRepos(Scrub(db)) ==> MaxSequence(Scrub(db), repo) < I64_MAX)
      || PassedAll(Scrub(db))
  {
    RestartFits(db);
    hide Fits, OnlyTasksNumbered, Covered, Backfill, BackfillRows, Scrub, SeedRepos, MaxSequence;
  }

  /** One task holding the largest number of a repository without a counter: start-up
      fails in seeding and leaves the number unpassed. */
  lemma SeedingCanFail(repo: string, id: string)
    requires !IsBlank(repo)
    ensures
      var db := TaskDb(map[id := Task("task", Some(I64_MAX), Some(repo), 0)], map[]);
      Fits(db) && InitStep(db) == (db, false) && !Good(db)
  {
    var db := TaskDb(map[id := Task("task", Some(I64_MAX), Some(repo), 0)], map[]);
    assert Scrub(db).tasks == db.tasks;
    assert Holds(db, id, repo, I64_MAX) && !Passed(db, repo, I64_MAX);
    NotSqlBlank(repo);
    assert repo == db.tasks[id].repoRoot.value && repo in SeedRepos(db);
    assert I64_MAX in StoredSequences(db, repo);
  }

  lemma NotSqlBlank(s: string)
    requires !IsBlank(s)
    ensures !IsSqlBlank(s)
  {
  }

  lemma CoveredIsGood(db: TaskDb)
    requires Fits(db) && OnlyTasksNumbered(db) && Covered(db)
    ensures Good(db)
  {
    forall id, r, q | Holds(db, id, r, q) && !IsBlank(r)
      ensures Passed(db, r, q)
    {
      assert TaskCovered(db, db.tasks[id]);
    }
  }

  lemma RowIndex(db: TaskDb, id: string) returns (i: nat)
    requires Unnumbered(db, id)
    ensures i < |BackfillRows(db)| && BackfillRows(db)[i] == BackfillKey(db, id)
  {
    BackfillRowsListed(db);
    i :| 0 <= i < |BackfillRows(db)| && BackfillRows(db)[i] == BackfillKey(db, id);
  }

  /** A successful start-up, on any database that fits its columns, leaves every
      task source of a nonblank repository numbered and no other source; old
      numbers of task sources stay, and the result is good. */
  lemma RestartNumbersEveryTask(db: TaskDb, id: string)
    requires Fits(db) && InitStep(db).1 && id in db.tasks
    ensures
      var after := InitStep(db).0;
      var task := db.tasks[id];
      && Good(after) && id in after.tasks
      && after.tasks[id] == task.(sequence := after.tasks[id].sequence)
      && (!UsesSequence(task.source) ==> after.tasks[id] == task.(sequence := None))
      && (UsesSequence(task.source) && task.sequence.Some? ==> after.tasks[id] == task)
      && (UsesSequence(task.source) && task.repoRoot.Some? && !IsSqlBlank(task.repoRoot.value) ==>
            after.tasks[id].sequence.Some?)
  {
    RestartFits(db);
    CoveredIsGood(InitStep(db).0);
    ScrubFits(db);
    var scrubbed := Scrub(db);
    var task := db.tasks[id];
    assert scrubbed.tasks[id] == if UsesSequence(task.source) then task else task.(sequence := None);
    var seeded := Seed(scrubbed).value;
    SeedCovers(scrubbed);
    SeedListsRows(scrubbed);
    hide Fits, OnlyTasksNumbered, Covered, RowsFor, Backfill, BackfillRows, Seed, Scrub, Good;
    BackfillOnlyAdds(seeded, BackfillRows(seeded));
    if Unnumbered(seeded, id) && UsesSequence(task.source) {
      var i := RowIndex(seeded, id);
      BackfillNumbersRow(seeded, BackfillRows(seeded), i);
    }
  }

  lemma RowIndicesInOrder(db: TaskDb, a: string, b: string, i: nat, j: nat)
    requires Unnumbered(db, a) && Unnumbered(db, b) && a != b
    requires i < |BackfillRows(db)| && BackfillRows(db)[i] == BackfillKey(db, a)
    requires j < |BackfillRows(db)| && BackfillRows(db)[j] == BackfillKey(db, b)
    requires KeyLe(BackfillKey(db, a), BackfillKey(db, b))
    ensures i < j
  {
    BackfillRowsListed(db);
    KeyLeTotal(BackfillKey(db, a), BackfillKey(db, b));
  }

  /** Of two tasks of one repository, backfill numbers the earlier one lower. */
  lemma BackfillFollowsOrder(db: TaskDb, a: string, b: string)
    requires Fits(db) && OnlyTasksNumbered(db) && Covered(db) && RowsFor(db, BackfillRows(db))
    requires Backfill(db, BackfillRows(db)).1
    requires Unnumbered(db, a) && Unnumbered(db, b) && a != b && db.tasks[a].repoRoot == db.tasks[b].repoRoot
    requires UsesSequence(db.tasks[a].source) && UsesSequence(db.tasks[b].source)
    requires KeyLe(BackfillKey(db, a), BackfillKey(db, b))
    ensures
      var after := Backfill(db, BackfillRows(db)).0;
      && a in after.tasks && b in after.tasks
      && after.tasks[a].sequence.Some? && after.tasks[b].sequence.Some?
      && after.tasks[a].sequence.value < after.tasks[b].sequence.value
  {
    var i := RowIndex(db, a);
    var j := RowIndex(db, b);
    RowIndicesInOrder(db, a, b, i, j);
    BackfillNumbersRise(db, BackfillRows(db), i, j);
  }

  /** A number already held lies below every number backfill adds beside it. */
  lemma BackfillStaysAbove(db: TaskDb, a: string, b: string)
    requires Fits(db) && OnlyTasksNumbered(db) && Covered(db) && RowsFor(db, BackfillRows(db))
    requires Backfill(db, BackfillRows(db)).1
    requires Unnumbered(db, b) && UsesSequence(db.tasks[b].source)
    requires a in db.tasks && db.tasks[a].sequence.Some? && db.tasks[a].repoRoot == db.tasks[b].repoRoot
    ensures
      var after := Backfill(db, BackfillRows(db)).0;
      && a in after.tasks && b in after.tasks
      && after.tasks[a].sequence == db.tasks[a].sequence && after.tasks[b].sequence.Some?
      && after.tasks[a].sequence.value < after.tasks[b].sequence.value
  {
    var j := RowIndex(db, b);
    assert Holds(db, a, db.tasks[a].repoRoot.value, db.tasks[a].sequence.value);
    BackfillNumbersRow(db, BackfillRows(db), j);
    BackfillOnlyAdds(db, BackfillRows(db));
  }

  /** New numbers lie above every number their repository already held, and rise
      with creation time and then id. */
  lemma RestartNumbersInOrder(db: TaskDb, a: string, b: string)
    requires Fits(db) && InitStep(db).1 && a in db.tasks && b in db.tasks && a != b
    requires UsesSequence(db.tasks[a].source) && UsesSequence(db.tasks[b].source)
    requires db.tasks[a].repoRoot.Some? && db.tasks[a].repoRoot == db.tasks[b].repoRoot
    requires !IsSqlBlank(db.tasks[a].repoRoot.value)
    requires db.tasks[b].sequence.None?
    requires db.tasks[a].sequence.Some?
             || db.tasks[a].createdAt < db.tasks[b].createdAt
             || (db.tasks[a].createdAt == db.tasks[b].createdAt && StringLe(a, b))
    ensures
      var after := InitStep(db).0;
      && a in after.tasks && b in after.tasks
      && after.tasks[a].sequence.Some? && after.tasks[b].sequence.Some?
      && after.tasks[a].sequence.value < after.tasks[b].sequence.value
  {
    ScrubFits(db);
    var scrubbed := Scrub(db);
    assert scrubbed.tasks[a] == db.tasks[a] && scrubbed.tasks[b] == db.tasks[b];
    var seeded := Seed(scrubbed).value;
    SeedCovers(scrubbed);
    SeedListsRows(scrubbed);
    hide Fits, OnlyTasksNumbered, Covered, RowsFor, Backfill, BackfillRows, Seed, Scrub;
    if db.tasks[a].sequence.Some? {
      BackfillStaysAbove(seeded, a, b);
    } else {
      BackfillFollowsOrder(seeded, a, b);
    }
  }

  lemma SeedAgainIsSilent(db: TaskDb)
    requires Fits(db) && OnlyTasksNumbered(db) && Covered(db)
    ensures Seed(db) == Ok(db)
  {
    forall r | r in SeedRepos(db)
      ensures r in db.counters && MaxSequence(db, r) < db.counters[r]
    {
      var id :| id in db.tasks && db.tasks[id].repoRoot == Some(r) && !IsSqlBlank(r) && UsesSequence(db.tasks[id].source);
      assert TaskCovered(db, db.tasks[id]);
    }
    assert Seed(db).value.counters == db.counters;
  }

  lemma {:induction false} BackfillSkipsOthers(db: TaskDb, rows: seq<SortKey>)
    requires forall i :: 0 <= i < |rows| ==> rows[i].id in db.tasks && !UsesSequence(db.tasks[rows[i].id].source)
    ensures Backfill(db, rows) == (db, true)
    decreases |rows|
  {
    if rows != [] {
      BackfillSkipsOthers(db, rows[1..]);
    }
  }

  /** Starting up again changes nothing. */
  lemma RestartIsIdempotent(db: TaskDb)
    requires Fits(db) && InitStep(db).1
    ensures InitStep(InitStep(db).0) == (InitStep(db).0, true)
  {
    var after := InitStep(db).0;
    RestartFits(db);
    forall id | Unnumbered(after, id)
      ensures !UsesSequence(after.tasks[id].source)
    {
      RestartNumbersEveryTask(db, id);
    }
    ScrubFits(after);
    SeedAgainIsSilent(after);
    BackfillRowsListed(after);
    BackfillSkipsOthers(after, BackfillRows(after));
  }

  // ---- Whole runs ----

  lemma StepKeepsGood(db: TaskDb, op: Op)
    requires Good(db)
    ensures Good(Step(db, op)) && Grows(db, Step(db, op))
  {
    match op
    case Upsert(id, record) =>
      if UpsertStep(db, id, record).Ok? {
        UpsertKeepsGood(db, id, record);
      }
    case Delete(id) =>
      assert forall a, r, q :: Holds(Step(db, op), a, r, q) ==> Holds(db, a, r, q);
    case Restart =>
      RestartKeepsGood(db);
  }

  lemma {:induction false} CountersOnlyGrow(db: TaskDb, ops: seq<Op>, j: nat, k: nat)
    requires Good(db) && j <= k <= |ops|
    ensures Good(StateAt(db, ops, j)) && Good(StateAt(db, ops, k))
    ensures Grows(StateAt(db, ops, j), StateAt(db, ops, k))
    decreases k
  {
    if k > 0 {
      hide Step, Good;
      if j < k {
        CountersOnlyGrow(db, ops, j, k - 1);
      } else {
        CountersOnlyGrow(db, ops, k - 1, k - 1);
      }
      StepKeepsGood(StateAt(db, ops, k - 1), ops[k - 1]);
    }
  }

  /** The counter has passed every number the repository ever stored, whatever
      upserts, moves, explicit numbers, deletions and restarts came between. */
  lemma CounterPassesHistory(db: TaskDb, ops: seq<Op>, j: nat, k: nat, repo: string, sequence: nat)
    requires Good(db) && j <= k <= |ops| && !IsBlank(repo)
    requires Stored(StateAt(db, ops, j), repo, sequence)
    ensures Passed(StateAt(db, ops, k), repo, sequence)
  {
    CountersOnlyGrow(db, ops, j, k);
  }

  /** Operation k takes this number from the counter: an upsert on the allocating
      branch, or the backfill of a restart. */
  ghost predicate TakesNumber(db: TaskDb, op: Op, id: string, repo: string, sequence: nat) {
    && Holds(Step(db, op), id, repo, sequence)
    && match op
       case Upsert(target, record) => target == id && Allocating(db, id, record) && UpsertStep(db, id, record).Ok?
       case Restart => id in db.tasks && db.tasks[id].sequence.None?
       case Delete(_) => false
  }

  lemma TakenIsNotPassed(db: TaskDb, op: Op, id: string, repo: string, sequence: nat)
    requires Good(db) && !IsBlank(repo) && TakesNumber(db, op, id, repo, sequence)
    ensures !Passed(db, repo, sequence)
  {
    match op
    case Upsert(_, record) =>
      AllocatingUpsertSucceeds(db, id, record);
    case Restart =>
      RestartKeepsGood(db);
  }

  /** No reuse: a number taken from the counter was never stored before in its
      repository, by any task, deleted ones included. */
  lemma NoReuse(db: TaskDb, ops: seq<Op>, j: nat, k: nat, id: string, repo: string, sequence: nat)
    requires Good(db) && j <= k < |ops| && !IsBlank(repo)
    requires TakesNumber(StateAt(db, ops, k), ops[k], id, repo, sequence)
    ensures !Stored(StateAt(db, ops, j), repo, sequence)
  {
    CountersOnlyGrow(db, ops, k, k);
    TakenIsNotPassed(StateAt(db, ops, k), ops[k], id, repo, sequence);
    if Stored(StateAt(db, ops, j), repo, sequence) {
      CounterPassesHistory(db, ops, j, k, repo, sequence);
    }
  }
}
