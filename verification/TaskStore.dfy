/** The task tables and the methods that update them: the upsert and delete
    transactions, and the scrub, seed and backfill loops of start-up. */
module TaskStore {
  import opened Common
  import opened Ordering
  import opened TaskSequences
  import opened SequenceHistory
  import opened TaskNumbers

  class Store {
    var tasks: map<string, Task>
    var counters: map<string, int>

    ghost function Db(): TaskDb
      reads this
    {
      TaskDb(tasks, counters)
    }

    constructor ()
      ensures Db() == TaskDb(map[], map[]) && Good(Db())
    {
      tasks := map[];
      counters := map[];
    }

    /** Insert the counter if missing, then increment it and return what it was. */
    method AllocateTaskSequence(repo: string) returns (r: Result<nat, TaskError>)
      modifies this`counters
      ensures match Allocate(old(Db()), repo)
        case Ok((db, q)) => r == Ok(q) && Db() == db
        case Err(e) => r == Err(e) && (repo in old(counters) ==> Db() == old(Db()))
      ensures old(counters).Keys <= counters.Keys
      ensures r.Ok? ==> TakenFrom(old(Db()), repo, r.value) && counters == old(counters)[repo := r.value + 1]
    {
      TakenNumber(Db(), repo);
      if repo !in counters {
        counters := counters[repo := NextAfter(MaxSequence(TaskDb(tasks, counters), repo))];
      }
      var next := counters[repo];
      if next >= I64_MAX || next < 0 {
        return Err(SequenceOverflow);
      }
      counters := counters[repo := next + 1];
      r := Ok(next);
    }

    method AdvanceTaskSequenceCounter(repo: Option<string>, sequence: Option<nat>)
      modifies this`counters
      ensures Db() == Advance(old(Db()), repo, sequence)
    {
      if repo.Some? && sequence.Some? && !IsBlank(repo.value) {
        var next := NextAfter(sequence.value);
        if repo.value in counters && counters[repo.value] > next {
          next := counters[repo.value];
        }
        counters := counters[repo.value := next];
      }
    }

    /** Keep the stored number unless the task moves, else take the record's own,
        else allocate one for a nonblank repository. */
    method TaskRecordSequenceForUpsert(id: string, record: Task) returns (r: Result<Option<nat>, TaskError>)
      modifies this`counters
      ensures match ChooseSequence(old(Db()), id, record)
        case Ok((db, sequence)) => r == Ok(sequence) && Db() == db
        case Err(e) => r == Err(e)
    {
      if !UsesSequence(record.source) {
        return Ok(None);
      }
      if id in tasks {
        var existing := tasks[id];
        var moved := record.repoRoot.Some? && existing.repoRoot.Some? && record.repoRoot != existing.repoRoot;
        if !moved && existing.sequence.Some? {
          return Ok(existing.sequence);
        }
      }
      if record.sequence.Some? {
        return Ok(record.sequence);
      }
      var repo := record.repoRoot;
      if repo.None? && id in tasks {
        repo := tasks[id].repoRoot;
      }
      if repo.None? || IsBlank(repo.value) {
        return Ok(None);
      }
      var taken := AllocateTaskSequence(repo.value);
      r := if taken.Ok? then Ok(Some(taken.value)) else Err(taken.error);
    }

    /** One transaction: any failure leaves both tables as they were. A good
        database stays good, and a task that takes its number from the counter
        is refused only at the 64-bit limit. */
    method UpsertTask(id: string, record: Task) returns (r: Result<Task, TaskError>)
      modifies this
      ensures match UpsertStep(old(Db()), id, record)
        case Ok(db) => Db() == db && r == Ok(db.tasks[id])
        case Err(e) => Db() == old(Db()) && r == Err(e)
      ensures old(Good(Db())) ==> Good(Db()) && Grows(old(Db()), Db())
      ensures old(Good(Db())) && old(Allocating(Db(), id, record)) && r.Err? ==> r == Err(SequenceOverflow)
    {
      hide Good, Grows, Allocating, ChooseSequence, Advance, Clashes, CounterFor;
      ghost var before := Db();
      if Good(before) {
        StepKeepsGood(before, Upsert(id, record));
        if Allocating(before, id, record) {
          AllocatingUpsertSucceeds(before, id, record);
        }
      }
      var savedTasks, savedCounters := tasks, counters;
      var repo := TargetRepo(TaskDb(tasks, counters), id, record);
      var createdAt := if id in tasks then tasks[id].createdAt else record.createdAt;
      var chosen := TaskRecordSequenceForUpsert(id, record);
      if chosen.Err? {
        tasks, counters := savedTasks, savedCounters;
        return Err(chosen.error);
      }
      AdvanceTaskSequenceCounter(repo, chosen.value);
      var task := Task(record.source, chosen.value, repo, createdAt);
      if chosen.value.Some? && chosen.value.value > I64_MAX {
        tasks, counters := savedTasks, savedCounters;
        return Err(SequenceOverflow);
      }
      if Clashes(TaskDb(tasks, counters), id, task) {
        tasks, counters := savedTasks, savedCounters;
        return Err(UniqueViolation);
      }
      tasks := tasks[id := task];
      r := Ok(task);
    }

    method DeleteTask(id: string) returns (r: Result<(), TaskError>)
      modifies this`tasks
      ensures Db() == Step(old(Db()), Delete(id))
      ensures r.Ok? <==> id in old(tasks)
      ensures id !in tasks
      ensures old(Good(Db())) ==> Good(Db())
    {
      ghost var before := Db();
      if Good(before) {
        StepKeepsGood(before, Delete(id));
      }
      if id !in tasks {
        return Err(UnknownTask);
      }
      tasks := tasks - {id};
      r := Ok(());
    }

    /** Raise the counter of every repository that has task sources. */
    method SeedTaskSequenceCounters() returns (ok: bool)
      modifies this`counters
      ensures ok <==> Seed(old(Db())).Ok?
      ensures Db() == if ok then Seed(old(Db())).value else old(Db())
    {
      hide MaxSequence, SeededSoFar, SeededCounter;
      var db := TaskDb(tasks, counters);
      if exists repo :: repo in SeedRepos(db) && MaxSequence(db, repo) >= I64_MAX {
        return false;
      }
      var rows := map repo | repo in SeedRepos(db) :: MaxSequence(db, repo) + 1;
      var todo := rows.Keys;
      NothingSeeded(db, rows.Keys);
      while todo != {}
        invariant tasks == db.tasks
        invariant todo <= rows.Keys
        invariant SeededSoFar(db, counters, rows.Keys, todo)
        decreases todo
      {
        var repo :| repo in todo;
        var next := rows[repo];
        SeedOne(db, counters, rows.Keys, todo, repo);
        if repo in counters && counters[repo] > next {
          next := counters[repo];
        }
        counters := counters[repo := next];
        todo := todo - {repo};
      }
      assert rows.Keys == SeedRepos(db);
      AllSeeded(db, counters);
      ok := true;
    }

    /** Number the rows of the query in order, stopping at the first failure. */
    method BackfillTaskSequences() returns (ok: bool)
      requires Covered(Db())
      modifies this
      ensures (Db(), ok) == Backfill(old(Db()), BackfillRows(old(Db())))
    {
      hide Allocate, BackfillRows;
      RowsAreCovered(Db());
      var rows := BackfillRows(TaskDb(tasks, counters));
      var i := 0;
      while i < |rows|
        invariant i <= |rows|
        invariant Backfill(Db(), rows[i..]) == Backfill(old(Db()), rows)
        invariant forall j :: i <= j < |rows| ==> rows[j].id in tasks
        invariant forall j :: i <= j < |rows| && UsesSequence(tasks[rows[j].id].source) ==> rows[j].group in counters
      {
        assert rows[i..][1..] == rows[i + 1..];
        var id := rows[i].id;
        if UsesSequence(tasks[id].source) {
          var taken := AllocateTaskSequence(rows[i].group);
          if taken.Err? {
            return false;
          }
          tasks := tasks[id := tasks[id].(sequence := Some(taken.value))];
        }
        i := i + 1;
      }
      ok := true;
    }

    /** The sequence part of opening the database in a new process. */
    method InitializeSequences() returns (ok: bool)
      requires SequenceHistory.Fits(Db())
      modifies this
      ensures (Db(), ok) == InitStep(old(Db()))
      ensures ok ==> Good(Db()) && InitStep(Db()) == (Db(), true)
    {
      hide Good, Fits, OnlyTasksNumbered, Covered, BackfillRows, Seed, Scrub, Backfill;
      ghost var before := Db();
      ScrubFits(before);
      if Seed(Scrub(before)).Ok? {
        SeedCovers(Scrub(before));
      }
      if InitStep(before).1 {
        RestartFits(before);
        CoveredIsGood(InitStep(before).0);
        RestartIsIdempotent(before);
      }
      ScrubNonTaskSequences();
      ok := SeedTaskSequenceCounters();
      if ok {
        ok := BackfillTaskSequences();
      }
    }

    method ScrubNonTaskSequences()
      modifies this`tasks
      ensures Db() == Scrub(old(Db()))
    {
      tasks := map id | id in tasks ::
        if UsesSequence(tasks[id].source) then tasks[id] else tasks[id].(sequence := None);
    }
  }

  /** The rows outside `todo` have their seeded counter, every other counter is as it was. */
  ghost predicate SeededSoFar(db: TaskDb, counters: map<string, int>, repos: set<string>, todo: set<string>) {
    && counters.Keys == db.counters.Keys + (repos - todo)
    && forall repo :: repo in counters ==>
         counters[repo] == if repo in repos && repo !in todo then SeededCounter(db, repo) else db.counters[repo]
  }

  lemma NothingSeeded(db: TaskDb, repos: set<string>)
    ensures SeededSoFar(db, db.counters, repos, repos)
  {
  }

  lemma SeedOne(db: TaskDb, counters: map<string, int>, repos: set<string>, todo: set<string>, repo: string)
    requires SeededSoFar(db, counters, repos, todo) && repo in todo && todo <= repos
    ensures
      var next := MaxSequence(db, repo) + 1;
      var value := if repo in counters && counters[repo] > next then counters[repo] else next;
      SeededSoFar(db, counters[repo := value], repos, todo - {repo})
  {
    hide MaxSequence;
    assert repo in counters ==> counters[repo] == db.counters[repo];
    assert repos - (todo - {repo}) == (repos - todo) + {repo};
  }

  lemma AllSeeded(db: TaskDb, counters: map<string, int>)
    requires SeededSoFar(db, counters, SeedRepos(db), {}) && Seed(db).Ok?
    ensures counters == Seed(db).value.counters
  {
    hide MaxSequence, SeededCounter;
  }

  lemma RowsAreCovered(db: TaskDb)
    requires Covered(db)
    ensures forall j :: 0 <= j < |BackfillRows(db)| ==>
      && BackfillRows(db)[j].id in db.tasks
      && (UsesSequence(db.tasks[BackfillRows(db)[j].id].source) ==> BackfillRows(db)[j].group in db.counters)
  {
    BackfillRowsListed(db);
    forall j | 0 <= j < |BackfillRows(db)|
      ensures BackfillRows(db)[j].id in db.tasks
      ensures UsesSequence(db.tasks[BackfillRows(db)[j].id].source) ==> BackfillRows(db)[j].group in db.counters
    {
      assert TaskCovered(db, db.tasks[BackfillRows(db)[j].id]);
    }
  }
}
