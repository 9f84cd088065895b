/** The queue tables and the methods that update them, statement by statement. */
module QueueStore {
  import opened Common
  import opened Ordering
  import opened QueueTabs
  import opened TabHistory
  import opened TabEffects

  function DedupKeys(db: QueueDb): set<SortKey> {
    set t | t in db.tabs && db.tabs[t].runId.Some? :: DedupKey(db, t)
  }

  /** In the repair query a row is a duplicate exactly when an earlier row has its run. */
  lemma DuplicateRows(db: QueueDb, i: nat)
    requires i < |Sorted(DedupKeys(db))|
    ensures
      var rows := Sorted(DedupKeys(db));
      && rows[i].id in db.tabs && db.tabs[rows[i].id].runId == Some(rows[i].group)
      && (Duplicate(db, rows[i].id) <==> Repeats(rows, i))
  {
    var rows := Sorted(DedupKeys(db));
    SortedIsOrdered(DedupKeys(db));
    assert rows[i] in DedupKeys(db);
    var t := rows[i].id;
    if Duplicate(db, t) {
      var u :| u in db.tabs && u != t && db.tabs[u].runId == db.tabs[t].runId && KeyLe(DedupKey(db, u), DedupKey(db, t));
      assert DedupKey(db, u) in DedupKeys(db);
      var j :| 0 <= j < |rows| && rows[j] == DedupKey(db, u);
      KeyLeTotal(rows[i], rows[j]);
      assert j < i;
    }
    if j :| 0 <= j < i && rows[j].group == rows[i].group {
      assert rows[j] in DedupKeys(db) && rows[j] != rows[i];
    }
  }

  /** On any tables, even damaged ones, the repair leaves each run that a tab
      showed on exactly one of the tabs that showed it. */
  lemma RepairKeepsOneTab(db: QueueDb, t: string)
    requires t in db.tabs && db.tabs[t].runId.Some?
    ensures
      var after := Deduplicated(db);
      && NoSharedRun(after) && after.tabs.Keys == db.tabs.Keys
      && (exists u :: u in after.tabs && after.tabs[u] == db.tabs[u] && after.tabs[u].runId == db.tabs[t].runId)
  {
    var same := set u | u in db.tabs && db.tabs[u].runId == db.tabs[t].runId :: DedupKey(db, u);
    assert DedupKey(db, t) in same;
    var first := First(same);
    assert first.id in db.tabs && db.tabs[first.id].runId == db.tabs[t].runId;
    forall u | u in db.tabs && u != first.id && db.tabs[u].runId == db.tabs[t].runId
      ensures !KeyLe(DedupKey(db, u), first)
    {
      assert DedupKey(db, u) in same;
      KeyLeTotal(DedupKey(db, u), first);
    }
    assert !Duplicate(db, first.id);
    assert Deduplicated(db).tabs[first.id] == db.tabs[first.id];
    RepairSeparates(db);
  }

  lemma RepairSeparates(db: QueueDb)
    ensures NoSharedRun(Deduplicated(db))
  {
    forall t, u | t in db.tabs && u in db.tabs && t != u && db.tabs[t].runId.Some? && db.tabs[t].runId == db.tabs[u].runId
      ensures Duplicate(db, t) || Duplicate(db, u)
    {
      KeyLeTotal(DedupKey(db, t), DedupKey(db, u));
    }
  }

  /** Row i has the run of an earlier row. */
  ghost predicate Repeats(rows: seq<SortKey>, i: nat)
    requires i < |rows|
  {
    exists j :: 0 <= j < i && rows[j].group == rows[i].group
  }

  ghost predicate RepeatedTab(rows: seq<SortKey>, t: string) {
    exists i :: 0 <= i < |rows| && rows[i].id == t && Repeats(rows, i)
  }

  /** Walk the rows in query order, remember the runs seen, collect the repeats. */
  method DuplicateTabIds(rows: seq<SortKey>) returns (duplicates: set<string>)
    ensures forall t :: t in duplicates <==> RepeatedTab(rows, t)
  {
    var seen: set<string> := {};
    duplicates := {};
    for i := 0 to |rows|
      invariant forall r :: r in seen <==> exists j :: 0 <= j < i && rows[j].group == r
      invariant forall t :: t in duplicates <==> exists j :: 0 <= j < i && rows[j].id == t && Repeats(rows, j)
    {
      if rows[i].group in seen {
        duplicates := duplicates + {rows[i].id};
      } else {
        seen := seen + {rows[i].group};
      }
    }
  }

  lemma RepeatsAreDuplicates(db: QueueDb)
    ensures forall t :: t in db.tabs ==> (RepeatedTab(Sorted(DedupKeys(db)), t) <==> Duplicate(db, t))
  {
    var rows := Sorted(DedupKeys(db));
    forall t | t in db.tabs
      ensures RepeatedTab(rows, t) <==> Duplicate(db, t)
    {
      if i :| 0 <= i < |rows| && rows[i].id == t && Repeats(rows, i) {
        DuplicateRows(db, i);
      } else if db.tabs[t].runId.Some? {
        assert DedupKey(db, t) in DedupKeys(db);
        var j :| 0 <= j < |rows| && rows[j] == DedupKey(db, t);
        DuplicateRows(db, j);
      }
    }
  }

  class Store {
    var tabs: map<string, Tab>
    var runs: map<string, Run>
    var items: map<string, Item>

    ghost function Db(): QueueDb
      reads this
    {
      QueueDb(tabs, runs, items)
    }

    constructor ()
      ensures Db() == EMPTY
    {
      tabs, runs, items := map[], map[], map[];
    }

    method DeduplicateTabRuns()
      modifies this`tabs
      ensures Db() == Deduplicated(old(Db()))
    {
      hide Duplicate, RepeatedTab;
      var db := QueueDb(tabs, runs, items);
      var duplicates := DuplicateTabIds(Sorted(DedupKeys(db)));
      RepeatsAreDuplicates(db);
      assert forall t :: t in db.tabs ==> (t in duplicates <==> Duplicate(db, t));
      tabs := map t | t in tabs :: if t in duplicates then tabs[t].(runId := None) else tabs[t];
      assert tabs == Deduplicated(db).tabs;
    }

    method EnsureDefaultTab(now: nat) returns (r: Result<(), QueueError>)
      modifies this`tabs
      ensures match EnsureDefault(old(Db()), now)
        case Ok(db) => r.Ok? && Db() == db
        case Err(e) => r == Err(e) && Db() == old(Db())
    {
      var db := QueueDb(tabs, runs, items);
      if !HasDefault(db) {
        if DEFAULT_TAB in tabs || HasActive(db) {
          return Err(ConstraintViolation);
        }
        tabs := tabs[DEFAULT_TAB := Tab(LatestRun(db), true, true, now)];
      } else if !HasActive(db) {
        NonemptyFallback(db);
        var fallback := First(FallbackKeys(db)).id;
        tabs := map t | t in tabs :: tabs[t].(active := t == fallback);
      }
      DeduplicateTabRuns();
      r := Ok(());
    }

    // Each method below is one transaction: its failure restores the tables.

    method CreateAndActivateTab(tab: string, now: nat) returns (r: Result<(), QueueError>)
      modifies this`tabs
      ensures r.Ok? <==> CreateAndActivate(old(Db()), tab, now).Ok?
      ensures Db() == Step(old(Db()), Create(tab, now))
      ensures old(Sound(Db())) ==> (r.Ok? <==> tab !in old(tabs))
      ensures old(Sound(Db())) && r.Ok? ==> tab in tabs && tabs[tab] == Tab(None, false, true, now)
    {
      hide Sound, EnsureDefault;
      if Sound(Db()) {
        CreateAddsActiveTab(Db(), tab, now);
      }
      var saved := tabs;
      r := EnsureDefaultTab(now);
      if r.Err? {
        return;
      }
      if tab in tabs {
        tabs := saved;
        return Err(ConstraintViolation);
      }
      tabs := tabs[tab := Tab(None, false, false, now)];
      tabs := map t | t in tabs :: tabs[t].(active := t == tab);
    }

    method ActivateTab(tab: string, now: nat) returns (r: Result<(), QueueError>)
      modifies this`tabs
      ensures r.Ok? <==> Activate(old(Db()), tab, now).Ok?
      ensures Db() == Step(old(Db()), Select(tab, now))
      ensures old(Sound(Db())) ==> (r.Ok? <==> tab in old(tabs)) && (r.Ok? ==> IsTheActive(Db(), tab))
    {
      hide Sound, EnsureDefault, IsTheActive;
      if Sound(Db()) {
        SelectActivates(Db(), tab, now);
      }
      var saved := tabs;
      r := EnsureDefaultTab(now);
      if r.Err? {
        return;
      }
      if tab !in tabs {
        tabs := saved;
        return Err(UnknownTab);
      }
      tabs := map t | t in tabs :: tabs[t].(active := t == tab);
    }

    method RemoveQueueTab(tab: string, now: nat) returns (r: Result<(), QueueError>)
      modifies this`tabs
      ensures r.Ok? <==> DeleteTab(old(Db()), tab, now).Ok?
      ensures Db() == Step(old(Db()), RemoveTab(tab, now))
      ensures old(Sound(Db())) ==> (r.Ok? <==> tab in old(tabs) && tab != DEFAULT_TAB)
      ensures r.Ok? ==> tab !in tabs
    {
      hide Sound, EnsureDefault;
      if Sound(Db()) {
        RemoveTabHandsOver(Db(), tab, now);
      }
      var saved := tabs;
      r := EnsureDefaultTab(now);
      if r.Err? {
        return;
      }
      if tab !in tabs || tabs[tab].isDefault {
        r := Err(if tab in tabs then DefaultTab else UnknownTab);
        tabs := saved;
        return;
      }
      var wasActive := tabs[tab].active;
      tabs := tabs - {tab};
      if wasActive {
        if tabs == map[] {
          tabs := saved;
          return Err(UnknownTab);
        }
        NonemptyFallback(QueueDb(tabs, runs, items));
        var fallback := First(FallbackKeys(QueueDb(tabs, runs, items))).id;
        tabs := map t | t in tabs :: tabs[t].(active := t == fallback);
      }
    }

    /** Insert the rows one by one, stopping at the first constraint violation. */
    method InsertQueueItems(rows: seq<NewItem>) returns (r: Result<(), QueueError>)
      modifies this`items
      ensures match InsertItems(old(Db()), rows)
        case Ok(db) => r.Ok? && Db() == db
        case Err(e) => r == Err(e)
    {
      var i := 0;
      while i < |rows|
        invariant i <= |rows|
        invariant InsertItems(Db(), rows[i..]) == InsertItems(old(Db()), rows)
      {
        assert rows[i..][1..] == rows[i + 1..];
        if !CanInsert(QueueDb(tabs, runs, items), rows[i]) {
          return Err(ConstraintViolation);
        }
        items := items[rows[i].id := rows[i].item];
        i := i + 1;
      }
      r := Ok(());
    }

    /** Append to an existing run and move its update time; all or nothing. */
    method AppendQueueItems(run: string, rows: seq<NewItem>, now: nat) returns (r: Result<(), QueueError>)
      modifies this
      ensures r.Ok? <==> Append(old(Db()), run, rows, now).Ok?
      ensures Db() == Step(old(Db()), Add(run, rows, now))
      ensures old(Sound(Db())) ==> Sound(Db())
    {
      hide Sound, InsertItems;
      ghost var before := Db();
      if Sound(before) {
        StepKeepsSound(before, Add(run, rows, now));
      }
      if rows == [] {
        return Ok(());
      }
      if run !in runs {
        return Err(UnknownRun);
      }
      var savedItems := items;
      r := InsertQueueItems(rows);
      if r.Err? {
        items := savedItems;
        return;
      }
      InsertKeepsTabs(before, rows);
      runs := runs[run := runs[run].(updatedAt := now)];
    }

    /** Rewrite the plans of the run's items one by one; all or nothing. */
    method UpdateItemPlans(run: string, plans: seq<Plan>, now: nat) returns (r: Result<(), QueueError>)
      modifies this
      ensures r.Ok? <==> Replan(old(Db()), run, plans, now).Ok?
      ensures Db() == Step(old(Db()), Rearrange(run, plans, now))
      ensures old(Sound(Db())) ==> Sound(Db())
    {
      hide Sound;
      ghost var before := Db();
      if Sound(before) {
        StepKeepsSound(before, Rearrange(run, plans, now));
      }
      if plans == [] {
        return Ok(());
      }
      var savedItems := items;
      for i := 0 to |plans|
        invariant tabs == before.tabs && runs == before.runs
        invariant UpdatePlans(items, run, plans[i..]) == UpdatePlans(before.items, run, plans)
      {
        assert plans[i..][1..] == plans[i + 1..];
        var plan := plans[i];
        if plan.id in items && items[plan.id].runId == run {
          if PositionTaken(items, run, plan) {
            items := savedItems;
            return Err(ConstraintViolation);
          }
          items := items[plan.id := items[plan.id].(position := plan.position, dependsOn := plan.dependsOn)];
        }
      }
      if run in runs {
        runs := runs[run := runs[run].(updatedAt := now)];
      }
      r := Ok(());
    }

    /** Give the run to the tab, then take it from every other tab. */
    method AssignRunToTab(tab: string, run: string)
      requires tab in tabs
      modifies this`tabs
      ensures Db() == AssignRun(old(Db()), tab, run)
    {
      tabs := tabs[tab := tabs[tab].(runId := Some(run))];
      tabs := map t | t in tabs ::
        if t != tab && tabs[t].runId == Some(run) then tabs[t].(runId := None) else tabs[t];
    }

    method ReplaceQueue(target: Option<string>, run: string, meta: Run, rows: seq<NewItem>, now: nat)
      returns (r: Result<(), QueueError>)
      modifies this
      ensures r.Ok? <==> Replace(old(Db()), target, run, meta, rows, now).Ok?
      ensures Db() == Step(old(Db()), Put(target, run, meta, rows, now))
      ensures old(Sound(Db())) ==> Sound(Db())
      ensures old(Sound(Db())) && CarryRun(rows, run) && r.Ok? ==>
        target.OrElse(ActiveTab(old(Db()))).Some? &&
        Db() == Replaced(old(Db()), target.OrElse(ActiveTab(old(Db()))).value, run, meta, rows)
    {
      hide EnsureDefault, InsertItems, AssignRun, DropRun, Sweep, Sound, Replaced, CarryRun, ActiveTab, References;
      ghost var before := Db();
      if Sound(before) {
        StepKeepsSound(before, Put(target, run, meta, rows, now));
        if CarryRun(rows, run) {
          ReplaceIsMapUpdate(before, target, run, meta, rows, now);
        }
      }
      var savedTabs, savedRuns, savedItems := tabs, runs, items;
      r := EnsureDefaultTab(now);
      if r.Err? {
        return;
      }
      var tab := if target.Some? then target else ActiveTab(QueueDb(tabs, runs, items));
      if tab.None? || tab.value !in tabs {
        tabs := savedTabs;
        return Err(UnknownTab);
      }
      var previous := tabs[tab.value].runId;
      items := ItemsOutside(items, run);
      runs := runs[run := meta];
      r := InsertQueueItems(rows);
      if r.Err? {
        tabs, runs, items := savedTabs, savedRuns, savedItems;
        return;
      }
      InsertKeepsTabs(QueueDb(tabs, runs, ItemsOutside(savedItems, run)), rows);
      AssignRunToTab(tab.value, run);
      if previous.Some? && previous.value != run && !References(QueueDb(tabs, runs, items), previous.value) {
        DropQueueRun(previous.value);
      }
      var kept := Sweep(QueueDb(tabs, runs, items));
      SweepKeepsTabs(QueueDb(tabs, runs, items));
      runs, items := kept.runs, kept.items;
    }

    method DropQueueRun(run: string)
      modifies this
      ensures Db() == DropRun(old(Db()), run)
    {
      items := ItemsOutside(items, run);
      runs := runs - {run};
      tabs := WithoutRun(tabs, run);
    }

    /** Deletes the item, removes it from every dependency list of its run, and
        deletes the run with its last item. */
    method DeleteItemIfExists(run: string, item: string) returns (deleted: Option<Item>)
      modifies this
      ensures Db() == DeleteItem(old(Db()), run, item)
      ensures deleted == if item in old(items) && old(items)[item].runId == run then Some(old(items)[item]) else None
      ensures old(Sound(Db())) ==> Sound(Db())
    {
      hide Sound, DropRun;
      ghost var before := Db();
      if Sound(before) {
        StepKeepsSound(before, RemoveItem(run, item));
      }
      deleted := None;
      if item in items && items[item].runId == run {
        deleted := Some(items[item]);
        items := items - {item};
        RemoveDependencyReferences(run, item);
        assert items == WithoutItem(before, run, item).items;
      }
      if !exists i :: i in items && items[i].runId == run {
        DropQueueRun(run);
      }
    }

    /** Visit the rows of the run and rewrite those whose list mentions the item. */
    method RemoveDependencyReferences(run: string, deleted: string)
      modifies this`items
      ensures items == map i | i in old(items) ::
        if old(items)[i].runId == run then old(items)[i].(dependsOn := Retain(old(items)[i].dependsOn, deleted))
        else old(items)[i]
    {
      ghost var before := items;
      var rows := set i | i in items && items[i].runId == run;
      while rows != {}
        invariant items.Keys == before.Keys
        invariant rows <= items.Keys
        invariant forall i :: i in rows ==> items[i] == before[i] && before[i].runId == run
        invariant forall i :: i in items && i !in rows ==>
          items[i] == if before[i].runId == run then before[i].(dependsOn := Retain(before[i].dependsOn, deleted)) else before[i]
        decreases rows
      {
        var id :| id in rows;
        var kept := RetainOthers(items[id].dependsOn, deleted);
        if |kept| != |items[id].dependsOn| {
          items := items[id := items[id].(dependsOn := kept)];
        } else {
          RetainAll(items[id].dependsOn, deleted);
        }
        rows := rows - {id};
      }
    }
  }

  lemma InsertKeepsTabs(db: QueueDb, rows: seq<NewItem>)
    ensures InsertItems(db, rows).Ok? ==>
      InsertItems(db, rows).value.tabs == db.tabs && InsertItems(db, rows).value.runs == db.runs
    decreases |rows|
  {
    if rows != [] && CanInsert(db, rows[0]) {
      InsertKeepsTabs(db.(items := db.items[rows[0].id := rows[0].item]), rows[1..]);
    }
  }

  method RetainOthers(deps: seq<string>, deleted: string) returns (kept: seq<string>)
    ensures kept == Retain(deps, deleted)
  {
    kept := [];
    for i := 0 to |deps|
      invariant kept + Retain(deps[i..], deleted) == Retain(deps, deleted)
    {
      assert deps[i..][1..] == deps[i + 1..];
      if deps[i] != deleted {
        kept := kept + [deps[i]];
      }
    }
  }

  lemma {:induction false} RetainAll(deps: seq<string>, deleted: string)
    ensures |Retain(deps, deleted)| <= |deps|
    ensures |Retain(deps, deleted)| == |deps| ==> Retain(deps, deleted) == deps
  {
    if deps != [] {
      RetainAll(deps[1..], deleted);
    }
  }
}
