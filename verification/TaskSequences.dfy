/** Per-repository task numbers: the counter allocator, the upsert and delete
    statements that use it, and the scrub, seed and backfill of start-up. */
module TaskSequences {
  import opened Common
  import opened Ordering

  datatype Task = Task(source: string, sequence: Option<nat>, repoRoot: Option<string>, createdAt: nat)

  datatype TaskDb = TaskDb(tasks: map<string, Task>, counters: map<string, int>)

  datatype TaskError = SequenceOverflow | UniqueViolation | UnknownTask

  predicate UsesSequence(source: string) {
    source != "agent" && source != "codex-session"
  }

  // ---- Counters ----

  function StoredSequences(db: TaskDb, repo: string): set<nat> {
    set id | id in db.tasks && db.tasks[id].repoRoot == Some(repo) && UsesSequence(db.tasks[id].source)
             && db.tasks[id].sequence.Some? :: db.tasks[id].sequence.value
  }

  function MaxSequence(db: TaskDb, repo: string): nat {
    MaxOrZero(StoredSequences(db, repo))
  }

  /** `i64::try_from(sequence.saturating_add(1)).unwrap_or(i64::MAX)`. */
  function NextAfter(sequence: nat): int {
    if sequence >= I64_MAX then I64_MAX else sequence + 1
  }

  /** The counter an allocation starts from: the stored one, or one more than the
      largest number the repository holds. */
  function CounterFor(db: TaskDb, repo: string): int {
    if repo in db.counters then db.counters[repo] else NextAfter(MaxSequence(db, repo))
  }

  /** Incrementing the largest 64-bit integer leaves SQLite with a float, which
      the caller cannot read back: the allocation fails. */
  function Allocate(db: TaskDb, repo: string): Result<(TaskDb, nat), TaskError> {
    var next := CounterFor(db, repo);
    if next >= I64_MAX || next < 0 then Err(SequenceOverflow)
    else Ok((db.(counters := db.counters[repo := next + 1]), next))
  }

  function Advance(db: TaskDb, repo: Option<string>, sequence: Option<nat>): TaskDb {
    if repo.None? || sequence.None? || IsBlank(repo.value) then db else
    var next := NextAfter(sequence.value);
    var kept := if repo.value in db.counters && db.counters[repo.value] > next then db.counters[repo.value] else next;
    db.(counters := db.counters[repo.value := kept])
  }

  // ---- Upsert and delete ----

  function TargetRepo(db: TaskDb, id: string, record: Task): Option<string> {
    if record.repoRoot.Some? || id !in db.tasks then record.repoRoot else db.tasks[id].repoRoot
  }

  /** A stored number is kept unless the record names a different repository. */
  function KeptSequence(db: TaskDb, id: string, record: Task): Option<nat> {
    if id !in db.tasks then None else
    var stored := db.tasks[id];
    if record.repoRoot.Some? && stored.repoRoot.Some? && record.repoRoot != stored.repoRoot then None else stored.sequence
  }

  /** The branch that takes a new number from the counter. */
  predicate Allocating(db: TaskDb, id: string, record: Task) {
    && UsesSequence(record.source)
    && KeptSequence(db, id, record).None?
    && record.sequence.None?
    && TargetRepo(db, id, record).Some?
    && !IsBlank(TargetRepo(db, id, record).value)
  }

  function ChooseSequence(db: TaskDb, id: string, record: Task): Result<(TaskDb, Option<nat>), TaskError> {
    if !UsesSequence(record.source) then Ok((db, None)) else
    var kept := KeptSequence(db, id, record);
    if kept.Some? then Ok((db, kept)) else
    if record.sequence.Some? then Ok((db, record.sequence)) else
    if !Allocating(db, id, record) then Ok((db, None)) else
    match Allocate(db, TargetRepo(db, id, record).value)
    case Err(e) => Err(e)
    case Ok((counted, sequence)) => Ok((counted, Some(sequence)))
  }

  /** The partial unique index on (repo_root, sequence). */
  predicate Clashes(db: TaskDb, id: string, task: Task) {
    task.repoRoot.Some? && task.sequence.Some? &&
    exists other :: other in db.tasks && other != id
      && db.tasks[other].repoRoot == task.repoRoot && db.tasks[other].sequence == task.sequence
  }

  function UpsertStep(db: TaskDb, id: string, record: Task): Result<TaskDb, TaskError> {
    var repo := TargetRepo(db, id, record);
    match ChooseSequence(db, id, record)
    case Err(e) => Err(e)
    case Ok((chosen, sequence)) =>
      var advanced := Advance(chosen, repo, sequence);
      var createdAt := if id in db.tasks then db.tasks[id].createdAt else record.createdAt;
      var task := Task(record.source, sequence, repo, createdAt);
      if sequence.Some? && sequence.value > I64_MAX then Err(SequenceOverflow)
      else if Clashes(advanced, id, task) then Err(UniqueViolation)
      else Ok(advanced.(tasks := advanced.tasks[id := task]))
  }

  function DeleteStep(db: TaskDb, id: string): Result<TaskDb, TaskError> {
    if id in db.tasks then Ok(db.(tasks := db.tasks - {id})) else Err(UnknownTask)
  }

  // ---- Start-up: scrub, seed, backfill ----

  function Scrub(db: TaskDb): TaskDb {
    db.(tasks := map id | id in db.tasks ::
      if UsesSequence(db.tasks[id].source) then db.tasks[id] else db.tasks[id].(sequence := None))
  }

  function SeedRepos(db: TaskDb): set<string> {
    set id | id in db.tasks && db.tasks[id].repoRoot.Some? && !IsSqlBlank(db.tasks[id].repoRoot.value)
             && UsesSequence(db.tasks[id].source) :: db.tasks[id].repoRoot.value
  }

  function SeededCounter(db: TaskDb, repo: string): int {
    var next := MaxSequence(db, repo) + 1;
    if repo in db.counters && db.counters[repo] > next then db.counters[repo] else next
  }

  function Seed(db: TaskDb): Result<TaskDb, TaskError> {
    if exists repo :: repo in SeedRepos(db) && MaxSequence(db, repo) >= I64_MAX then Err(SequenceOverflow)
    else Ok(db.(counters := map repo | repo in db.counters.Keys + SeedRepos(db) ::
      if repo in SeedRepos(db) then SeededCounter(db, repo) else db.counters[repo]))
  }

  /** Tasks the backfill query selects: a nonblank repository and no number. */
  predicate Unnumbered(db: TaskDb, id: string) {
    && id in db.tasks
    && db.tasks[id].repoRoot.Some? && !IsSqlBlank(db.tasks[id].repoRoot.value)
    && db.tasks[id].sequence.None?
  }

  function BackfillKey(db: TaskDb, id: string): SortKey
    requires Unnumbered(db, id)
  {
    SortKey(db.tasks[id].repoRoot.value, 0, db.tasks[id].createdAt, id)
  }

  function BackfillRows(db: TaskDb): seq<SortKey> {
    Sorted(set id | id in db.tasks && Unnumbered(db, id) :: BackfillKey(db, id))
  }

  /** Numbers the listed rows in order; a failure keeps what was done before it. */
  function Backfill(db: TaskDb, rows: seq<SortKey>): (TaskDb, bool)
    decreases |rows|
  {
    if rows == [] then (db, true) else
    var id := rows[0].id;
    if id !in db.tasks || !UsesSequence(db.tasks[id].source) then Backfill(db, rows[1..]) else
    match Allocate(db, rows[0].group)
    case Err(_) => (db, false)
    case Ok((counted, sequence)) =>
      Backfill(counted.(tasks := counted.tasks[id := counted.tasks[id].(sequence := Some(sequence))]), rows[1..])
  }

  /** Start-up is not one transaction: on a failure the finished part stays. */
  function InitStep(db: TaskDb): (TaskDb, bool) {
    var scrubbed := Scrub(db);
    match Seed(scrubbed)
    case Err(_) => (scrubbed, false)
    case Ok(seeded) => Backfill(seeded, BackfillRows(seeded))
  }
}
