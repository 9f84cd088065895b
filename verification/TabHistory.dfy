/** What every run of tab, run and item operations keeps, and what replacing and
    deleting mean for the tables as a whole. */
module TabHistory {
  import opened Common
  import opened Ordering
  import opened QueueTabs
  import opened QueueGraph

  /** `Touch` stands for the statements that write only status, message or stop flag
      of a run. */
  datatype Op =
    | Ensure(now: nat)
    | Create(tab: string, now: nat)
    | Select(tab: string, now: nat)
    | RemoveTab(tab: string, now: nat)
    | Put(target: Option<string>, run: string, meta: Run, rows: seq<NewItem>, now: nat)
    | Add(run: string, rows: seq<NewItem>, now: nat)
    | Rearrange(run: string, plans: seq<Plan>, now: nat)
    | Touch(run: string, now: nat)
    | RemoveRun(run: string)
    | RemoveItem(run: string, item: string)

  function Attempt(db: QueueDb, op: Op): Result<QueueDb, QueueError> {
    match op
    case Ensure(now) => EnsureDefault(db, now)
    case Create(tab, now) => CreateAndActivate(db, tab, now)
    case Select(tab, now) => Activate(db, tab, now)
    case RemoveTab(tab, now) => DeleteTab(db, tab, now)
    case Put(target, run, meta, rows, now) => Replace(db, target, run, meta, rows, now)
    case Add(run, rows, now) => Append(db, run, rows, now)
    case Rearrange(run, plans, now) => Replan(db, run, plans, now)
    case Touch(run, now) => Ok(Touched(db, run, now))
    case RemoveRun(run) => Ok(DropRun(db, run))
    case RemoveItem(run, item) => Ok(DeleteItem(db, run, item))
  }

  /** A failed transaction is rolled back. */
  function Step(db: QueueDb, op: Op): QueueDb {
    var r := Attempt(db, op);
    if r.Ok? then r.value else db
  }

  function StateAt(db: QueueDb, ops: seq<Op>, k: nat): QueueDb
    requires k <= |ops|
  {
    if k == 0 then db else Step(StateAt(db, ops, k - 1), ops[k - 1])
  }

  const EMPTY := QueueDb(map[], map[], map[])

  ghost predicate OneDefault(db: QueueDb) {
    DEFAULT_TAB in db.tabs && forall t :: t in db.tabs ==> (db.tabs[t].isDefault <==> t == DEFAULT_TAB)
  }

  ghost predicate IsTheActive(db: QueueDb, a: string) {
    a in db.tabs && forall t :: t in db.tabs ==> (db.tabs[t].active <==> t == a)
  }

  ghost predicate OneActive(db: QueueDb) {
    exists a :: IsTheActive(db, a)
  }

  ghost predicate NoSharedRun(db: QueueDb) {
    forall t, u :: t in db.tabs && u in db.tabs && t != u && db.tabs[t].runId.Some? ==>
      db.tabs[t].runId != db.tabs[u].runId
  }

  /** Foreign keys: tabs and items point at runs that exist. */
  ghost predicate Linked(db: QueueDb) {
    && (forall t :: t in db.tabs && db.tabs[t].runId.Some? ==> db.tabs[t].runId.value in db.runs)
    && (forall i :: i in db.items ==> db.items[i].runId in db.runs)
  }

  /** The unique keys (run, position) and (run, slug). */
  ghost predicate UniqueItems(items: map<string, Item>) {
    forall i, j :: i in items && j in items && i != j && items[i].runId == items[j].runId ==>
      items[i].position != items[j].position && items[i].slug != items[j].slug
  }

  ghost predicate Keyed(db: QueueDb) {
    Linked(db) && UniqueItems(db.items)
  }

  /** Exactly one default tab, exactly one active tab, no run on two tabs, no tab
      or item pointing at a missing run. */
  ghost predicate Sound(db: QueueDb) {
    OneDefault(db) && OneActive(db) && NoSharedRun(db) && Keyed(db)
  }

  // ---- Every transaction keeps the invariant ----

  lemma SoundIsSettled(db: QueueDb, now: nat)
    requires Sound(db)
    ensures EnsureDefault(db, now) == Ok(db)
  {
    assert db.tabs[DEFAULT_TAB].isDefault;
    var a :| IsTheActive(db, a);
    assert db.tabs[a].active;
    assert Deduplicated(db).tabs == db.tabs;
  }

  lemma EmptyGetsDefault(now: nat)
    ensures EnsureDefault(EMPTY, now) == Ok(QueueDb(map[DEFAULT_TAB := Tab(None, true, true, now)], map[], map[]))
    ensures Sound(EnsureDefault(EMPTY, now).value)
  {
    var tab := Tab(None, true, true, now);
    var db := QueueDb(map[DEFAULT_TAB := tab], map[], map[]);
    assert Deduplicated(db).tabs == db.tabs;
    assert IsTheActive(db, DEFAULT_TAB);
  }

  lemma ActivatedIsSound(db: QueueDb, tab: string)
    requires OneDefault(db) && NoSharedRun(db) && Keyed(db) && tab in db.tabs
    ensures Sound(db.(tabs := Activated(db.tabs, tab)))
  {
    assert IsTheActive(db.(tabs := Activated(db.tabs, tab)), tab);
  }

  lemma CreateKeepsSound(db: QueueDb, tab: string, now: nat)
    requires Sound(db) && CreateAndActivate(db, tab, now).Ok?
    ensures Sound(CreateAndActivate(db, tab, now).value)
  {
    SoundIsSettled(db, now);
    ActivatedIsSound(db.(tabs := db.tabs[tab := Tab(None, false, false, now)]), tab);
  }

  lemma DeleteTabKeepsSound(db: QueueDb, tab: string, now: nat)
    requires Sound(db) && DeleteTab(db, tab, now).Ok?
    ensures Sound(DeleteTab(db, tab, now).value)
  {
    SoundIsSettled(db, now);
    var rest := db.(tabs := db.tabs - {tab});
    var a :| IsTheActive(db, a);
    if db.tabs[tab].active {
      var fallback := First(FallbackKeys(rest));
      assert fallback.id in rest.tabs;
      ActivatedIsSound(rest, fallback.id);
    } else {
      assert IsTheActive(rest, a);
    }
  }

  /** Changing only which run tabs point at, without sharing, keeps soundness. */
  lemma RelinkedIsSound(db: QueueDb, db': QueueDb)
    requires Sound(db) && NoSharedRun(db') && Keyed(db')
    requires db'.tabs.Keys == db.tabs.Keys
    requires forall t :: t in db.tabs ==> db'.tabs[t] == db.tabs[t].(runId := db'.tabs[t].runId)
    ensures Sound(db')
  {
    var a :| IsTheActive(db, a);
    assert IsTheActive(db', a);
  }

  lemma UniqueShrinks(before: map<string, Item>, after: map<string, Item>)
    requires UniqueItems(before)
    requires forall i :: i in after ==> i in before && after[i] == before[i]
    ensures UniqueItems(after)
  {
  }

  lemma DropRunKeepsSound(db: QueueDb, run: string)
    requires Sound(db)
    ensures Sound(DropRun(db, run))
  {
    UniqueShrinks(db.items, DropRun(db, run).items);
    hide UniqueItems;
    RelinkedIsSound(db, DropRun(db, run));
  }

  lemma DeleteItemKeepsSound(db: QueueDb, run: string, item: string)
    requires Sound(db)
    ensures Sound(DeleteItem(db, run, item))
  {
    if item in db.items && db.items[item].runId == run {
      RelinkedIsSound(db, WithoutItem(db, run, item));
      DropRunKeepsSound(WithoutItem(db, run, item), run);
    } else {
      DropRunKeepsSound(db, run);
    }
  }

  lemma {:induction false} InsertKeepsKeyed(db: QueueDb, rows: seq<NewItem>)
    requires Keyed(db) && InsertItems(db, rows).Ok?
    ensures
      var db' := InsertItems(db, rows).value;
      && Keyed(db') && db'.tabs == db.tabs && db'.runs == db.runs
      && (forall i :: i in db.items ==> i in db'.items && db'.items[i] == db.items[i])
    decreases |rows|
  {
    if rows != [] {
      InsertKeepsKeyed(db.(items := db.items[rows[0].id := rows[0].item]), rows[1..]);
    }
  }

  lemma AssignKeepsLinks(db: QueueDb, tab: string, run: string)
    requires NoSharedRun(db) && Linked(db) && run in db.runs
    ensures NoSharedRun(AssignRun(db, tab, run)) && Linked(AssignRun(db, tab, run))
  {
    AssignSeparates(db, tab, run);
    hide NoSharedRun;
  }

  lemma AssignSeparates(db: QueueDb, tab: string, run: string)
    requires NoSharedRun(db)
    ensures NoSharedRun(AssignRun(db, tab, run))
  {
    var db' := AssignRun(db, tab, run);
    forall t, u | t in db'.tabs && u in db'.tabs && t != u && db'.tabs[t].runId.Some?
      ensures db'.tabs[t].runId != db'.tabs[u].runId
    {
      assert t in db.tabs && u in db.tabs;
    }
  }

  lemma AssignKeepsSound(db: QueueDb, tab: string, run: string)
    requires Sound(db) && run in db.runs
    ensures Sound(AssignRun(db, tab, run))
  {
    AssignKeepsLinks(db, tab, run);
    hide UniqueItems, NoSharedRun, Linked;
    RelinkedIsSound(db, AssignRun(db, tab, run));
  }

  lemma SweepKeepsSound(db: QueueDb)
    requires Sound(db)
    ensures Sound(Sweep(db))
  {
    UniqueShrinks(db.items, Sweep(db).items);
    hide UniqueItems;
    RelinkedIsSound(db, Sweep(db));
  }

  /** A sound database knows its active tab. */
  lemma ActiveTabFound(db: QueueDb)
    requires Sound(db)
    ensures ActiveTab(db).Some? && IsTheActive(db, ActiveTab(db).value)
  {
    var a :| IsTheActive(db, a);
    var keys := set t | t in db.tabs && db.tabs[t].active :: SortKey("", 0, 0, t);
    assert SortKey("", 0, 0, a) in keys;
    assert forall k :: k in keys ==> k.id == a;
  }

  lemma ReplaceKeepsSound(db: QueueDb, target: Option<string>, run: string, meta: Run, rows: seq<NewItem>, now: nat)
    requires Sound(db) && Replace(db, target, run, meta, rows, now).Ok?
    ensures Sound(Replace(db, target, run, meta, rows, now).value)
  {
    SoundIsSettled(db, now);
    ActiveTabFound(db);
    var tab := target.OrElse(ActiveTab(db)).value;
    var cleared := db.(items := ItemsOutside(db.items, run), runs := db.runs[run := meta]);
    UniqueShrinks(db.items, cleared.items);
    assert Linked(cleared);
    InsertKeepsKeyed(cleared, rows);
    var filled := InsertItems(cleared, rows).value;
    hide EnsureDefault, InsertItems, Sweep, DropRun, AssignRun, UniqueItems, Linked;
    RelinkedIsSound(db, filled);
    AssignKeepsSound(filled, tab, run);
    var linked := AssignRun(filled, tab, run);
    var previous := db.tabs[tab].runId;
    if previous.Some? && previous.value != run && !References(linked, previous.value) {
      DropRunKeepsSound(linked, previous.value);
      SweepKeepsSound(DropRun(linked, previous.value));
    } else {
      SweepKeepsSound(linked);
    }
  }

  lemma TouchKeepsSound(db: QueueDb, run: string, now: nat)
    requires Sound(db)
    ensures Sound(Touched(db, run, now))
  {
    hide UniqueItems;
    RelinkedIsSound(db, Touched(db, run, now));
  }

  lemma AppendKeepsSound(db: QueueDb, run: string, rows: seq<NewItem>, now: nat)
    requires Sound(db) && Append(db, run, rows, now).Ok?
    ensures Sound(Append(db, run, rows, now).value)
  {
    if rows != [] {
      InsertKeepsKeyed(db, rows);
      hide Keyed, InsertItems, Touched;
      RelinkedIsSound(db, InsertItems(db, rows).value);
      TouchKeepsSound(InsertItems(db, rows).value, run, now);
    }
  }

  /** The last plan that names the item. */
  function LastPlan(plans: seq<Plan>, id: string): Option<Plan> {
    if plans == [] then None
    else LastPlan(plans[1..], id).OrElse(if plans[0].id == id then Some(plans[0]) else None)
  }

  function Planned(item: Item, run: string, plan: Option<Plan>): Item {
    if item.runId == run && plan.Some?
    then item.(position := plan.value.position, dependsOn := plan.value.dependsOn) else item
  }

  /** A rewrite of plans gives each item of the run the place and dependencies of the
      last plan that names it, changes nothing else, and keeps positions distinct. */
  lemma {:induction false} UpdatePlansMeans(items: map<string, Item>, run: string, plans: seq<Plan>)
    requires UniqueItems(items) && UpdatePlans(items, run, plans).Ok?
    ensures
      var after := UpdatePlans(items, run, plans).value;
      && UniqueItems(after) && after.Keys == items.Keys
      && forall i :: i in items ==> after[i] == Planned(items[i], run, LastPlan(plans, i))
    decreases |plans|
  {
    if plans != [] {
      hide UniqueItems, PositionTaken;
      var plan := plans[0];
      if plan.id in items && items[plan.id].runId == run {
        var next := items[plan.id := items[plan.id].(position := plan.position, dependsOn := plan.dependsOn)];
        PlacedStaysUnique(items, run, plan);
        UpdatePlansMeans(next, run, plans[1..]);
      } else {
        UpdatePlansMeans(items, run, plans[1..]);
      }
    }
  }

  lemma PlacedStaysUnique(items: map<string, Item>, run: string, plan: Plan)
    requires UniqueItems(items) && plan.id in items && items[plan.id].runId == run && !PositionTaken(items, run, plan)
    ensures UniqueItems(items[plan.id := items[plan.id].(position := plan.position, dependsOn := plan.dependsOn)])
  {
  }

  lemma ReplanKeepsSound(db: QueueDb, run: string, plans: seq<Plan>, now: nat)
    requires Sound(db) && Replan(db, run, plans, now).Ok?
    ensures Sound(Replan(db, run, plans, now).value)
  {
    if plans != [] {
      UpdatePlansMeans(db.items, run, plans);
      var items := UpdatePlans(db.items, run, plans).value;
      hide UniqueItems, UpdatePlans, LastPlan, Touched;
      RelinkedIsSound(db, db.(items := items));
      TouchKeepsSound(db.(items := items), run, now);
    }
  }

  lemma {:induction false} NothingToPlan(run: string, plans: seq<Plan>)
    ensures UpdatePlans(map[], run, plans) == Ok(map[])
    decreases |plans|
  {
    if plans != [] {
      NothingToPlan(run, plans[1..]);
    }
  }

  lemma StepKeepsSound(db: QueueDb, op: Op)
    requires Sound(db)
    ensures Sound(Step(db, op))
  {
    if Attempt(db, op).Ok? {
      match op
      case Ensure(now) =>
        SoundIsSettled(db, now);
      case Create(tab, now) =>
        CreateKeepsSound(db, tab, now);
      case Select(tab, now) =>
        SoundIsSettled(db, now);
        ActivatedIsSound(db, tab);
      case RemoveTab(tab, now) =>
        DeleteTabKeepsSound(db, tab, now);
      case Put(target, run, meta, rows, now) =>
        ReplaceKeepsSound(db, target, run, meta, rows, now);
      case Add(run, rows, now) =>
        AppendKeepsSound(db, run, rows, now);
      case Rearrange(run, plans, now) =>
        ReplanKeepsSound(db, run, plans, now);
      case Touch(run, now) =>
        TouchKeepsSound(db, run, now);
      case RemoveRun(run) =>
        DropRunKeepsSound(db, run);
      case RemoveItem(run, item) =>
        DeleteItemKeepsSound(db, run, item);
    }
  }

  /** An operation on the empty database first creates the default tab, if it
      gets that far, and then acts as on any sound database. */
  lemma EmptyStep(op: Op)
    ensures Step(EMPTY, op) == EMPTY || Sound(Step(EMPTY, op))
  {
    var now := match op
      case Ensure(n) => n case Create(_, n) => n case Select(_, n) => n case RemoveTab(_, n) => n
      case Put(_, _, _, _, n) => n case Add(_, _, n) => n
      case Rearrange(_, _, n) => n case Touch(_, n) => n case RemoveRun(_) => 0 case RemoveItem(_, _) => 0;
    EmptyGetsDefault(now);
    var first := EnsureDefault(EMPTY, now).value;
    SoundIsSettled(first, now);
    if op.Add? {
      assert InsertItems(EMPTY, op.rows).Ok? ==> op.rows == [];
    } else if op.Rearrange? {
      NothingToPlan(op.run, op.plans);
    } else if op.Touch? {
      assert Touched(EMPTY, op.run, op.now) == EMPTY;
    } else if op.RemoveRun? || op.RemoveItem? {
      assert DropRun(EMPTY, op.run) == EMPTY;
    } else {
      assert Attempt(EMPTY, op) == Attempt(first, op);
      StepKeepsSound(first, op);
    }
  }

  /** From an empty database, after any operations whatsoever, the tables are
      still empty or hold exactly one default and one active tab, no run on two
      tabs, and no dangling tab or item. */
  lemma {:induction false} ReachableIsSound(ops: seq<Op>, k: nat)
    requires k <= |ops|
    ensures StateAt(EMPTY, ops, k) == EMPTY || Sound(StateAt(EMPTY, ops, k))
  {
    if k > 0 {
      hide Step, Sound;
      ReachableIsSound(ops, k - 1);
      if StateAt(EMPTY, ops, k - 1) == EMPTY {
        EmptyStep(ops[k - 1]);
      } else {
        StepKeepsSound(StateAt(EMPTY, ops, k - 1), ops[k - 1]);
      }
    }
  }

  // ---- Replace is a simple map update ----

  function RowMap(rows: seq<NewItem>): map<string, Item> {
    if rows == [] then map[] else RowMap(rows[1..])[rows[0].id := rows[0].item]
  }

  ghost predicate CarryRun(rows: seq<NewItem>, run: string) {
    forall k :: 0 <= k < |rows| ==> rows[k].item.runId == run
  }

  /** The rows clash neither with stored rows nor with each other. */
  ghost predicate FreshRows(items: map<string, Item>, run: string, rows: seq<NewItem>) {
    && (forall k :: 0 <= k < |rows| ==> FreshRow(items, run, rows[k]))
    && (forall j, k :: 0 <= j < k < |rows| ==> RowsDiffer(rows[j], rows[k]))
  }

  ghost predicate FreshRow(items: map<string, Item>, run: string, row: NewItem) {
    && row.id !in items
    && forall i :: i in items && items[i].runId == run ==>
         items[i].position != row.item.position && items[i].slug != row.item.slug
  }

  ghost predicate RowsDiffer(a: NewItem, b: NewItem) {
    a.id != b.id && a.item.position != b.item.position && a.item.slug != b.item.slug
  }

  lemma FreshRowsSplit(items: map<string, Item>, run: string, rows: seq<NewItem>)
    requires rows != [] && CarryRun(rows, run)
    ensures FreshRows(items, run, rows)
       <==> FreshRow(items, run, rows[0]) && FreshRows(items[rows[0].id := rows[0].item], run, rows[1..])
  {
    var row, rest := rows[0], rows[1..];
    var more := items[row.id := row.item];
    assert forall k :: 0 <= k < |rest| ==> rest[k] == rows[k + 1];
    if FreshRow(items, run, row) {
      assert forall k :: 0 <= k < |rest| ==>
        (FreshRow(more, run, rest[k]) <==> FreshRow(items, run, rest[k]) && RowsDiffer(row, rest[k])) by {
        forall k | 0 <= k < |rest|
          ensures FreshRow(more, run, rest[k]) <==> FreshRow(items, run, rest[k]) && RowsDiffer(row, rest[k])
        {
          assert more[row.id] == row.item;
          assert forall i :: i in items ==> i in more && more[i] == items[i];
        }
      }
      if FreshRows(more, run, rest) {
        forall j, k | 0 <= j < k < |rows|
          ensures RowsDiffer(rows[j], rows[k])
        {
          assert RowsDiffer(row, rest[k - 1]);
          if j > 0 {
            assert RowsDiffer(rest[j - 1], rest[k - 1]);
          }
        }
        forall k | 0 <= k < |rows|
          ensures FreshRow(items, run, rows[k])
        {
          if k > 0 {
            assert FreshRow(more, run, rest[k - 1]);
          }
        }
      }
    }
  }

  /** The inserts succeed exactly when the rows are fresh, and then add just them. */
  lemma {:induction false} InsertSucceedsIff(db: QueueDb, run: string, rows: seq<NewItem>)
    requires run in db.runs && CarryRun(rows, run)
    ensures InsertItems(db, rows).Ok? <==> FreshRows(db.items, run, rows)
    ensures InsertItems(db, rows).Ok? ==>
      InsertItems(db, rows).value == db.(items := db.items + RowMap(rows))
      && (forall i :: i in RowMap(rows) ==> i !in db.items && RowMap(rows)[i].runId == run)
    decreases |rows|
  {
    if rows == [] {
      assert db.items + RowMap(rows) == db.items;
    } else {
      hide FreshRows, FreshRow, CanInsert, RowMap;
      var next := db.(items := db.items[rows[0].id := rows[0].item]);
      FreshCanInsert(db, run, rows[0]);
      FreshRowsSplit(db.items, run, rows);
      InsertSucceedsIff(next, run, rows[1..]);
      RowMapFirst(next.items, db.items, rows);
    }
  }

  lemma FreshCanInsert(db: QueueDb, run: string, row: NewItem)
    requires run in db.runs && row.item.runId == run
    ensures CanInsert(db, row) <==> FreshRow(db.items, run, row)
    ensures CanInsert(db, row) ==> row.id !in db.items
  {
  }

  lemma RowMapFirst(next: map<string, Item>, items: map<string, Item>, rows: seq<NewItem>)
    requires rows != [] && next == items[rows[0].id := rows[0].item]
    ensures (forall i :: i in RowMap(rows[1..]) ==> i !in next) ==>
      && next + RowMap(rows[1..]) == items + RowMap(rows)
      && forall i :: i in RowMap(rows) ==>
           RowMap(rows)[i] == if i == rows[0].id then rows[0].item else RowMap(rows[1..])[i]
    ensures forall i :: i in RowMap(rows) <==> i == rows[0].id || i in RowMap(rows[1..])
  {
  }

  predicate Shown(tabs: map<string, Tab>, run: string) {
    exists t :: t in tabs && tabs[t].runId == Some(run)
  }

  /** What replacing means: the target tab shows the run with exactly the rows,
      no other tab shows it, and only runs on show survive, with their items. */
  function Replaced(db: QueueDb, tab: string, run: string, meta: Run, rows: seq<NewItem>): QueueDb {
    var tabs := AssignRun(db, tab, run).tabs;
    QueueDb(tabs,
      (map r | r in db.runs && r != run && Shown(tabs, r) :: db.runs[r])[run := meta],
      (map i | i in db.items && db.items[i].runId != run && Shown(tabs, db.items[i].runId) :: db.items[i]) + RowMap(rows))
  }

  /** Dropping a run nobody shows before the sweep does not change the outcome. */
  lemma SweepAbsorbsDrop(db: QueueDb, run: string)
    requires !References(db, run)
    ensures Sweep(DropRun(db, run)) == Sweep(db)
  {
    var dropped := DropRun(db, run);
    assert dropped.tabs == db.tabs;
    assert Sweep(dropped).items == Sweep(db).items;
    assert Sweep(dropped).runs == Sweep(db).runs;
  }

  lemma SweptItems(db: QueueDb, tabs: map<string, Tab>, runs: map<string, Run>, run: string, rows: map<string, Item>)
    requires Shown(tabs, run) && forall i :: i in rows ==> rows[i].runId == run
    ensures Sweep(QueueDb(tabs, runs, ItemsOutside(db.items, run) + rows)).items
         == (map i | i in db.items && db.items[i].runId != run && Shown(tabs, db.items[i].runId) :: db.items[i]) + rows
  {
    var filled := QueueDb(tabs, runs, ItemsOutside(db.items, run) + rows);
    forall r
      ensures References(filled, r) <==> Shown(tabs, r)
    {
    }
  }

  lemma SweptRuns(db: QueueDb, tabs: map<string, Tab>, items: map<string, Item>, run: string, meta: Run)
    requires Shown(tabs, run)
    ensures Sweep(QueueDb(tabs, db.runs[run := meta], items)).runs
         == (map r | r in db.runs && r != run && Shown(tabs, r) :: db.runs[r])[run := meta]
  {
    var filled := QueueDb(tabs, db.runs[run := meta], items);
    forall r
      ensures References(filled, r) <==> Shown(tabs, r)
    {
    }
  }

  lemma SweptIsReplaced(db: QueueDb, tab: string, run: string, meta: Run, rows: seq<NewItem>)
    requires tab in db.tabs && CarryRun(rows, run)
    ensures
      var filled := db.(items := ItemsOutside(db.items, run) + RowMap(rows), runs := db.runs[run := meta]);
      Sweep(AssignRun(filled, tab, run)) == Replaced(db, tab, run, meta, rows)
  {
    var items := ItemsOutside(db.items, run) + RowMap(rows);
    var filled := db.(items := items, runs := db.runs[run := meta]);
    var tabs := AssignRun(db, tab, run).tabs;
    assert AssignRun(filled, tab, run) == QueueDb(tabs, db.runs[run := meta], items);
    assert tabs[tab].runId == Some(run);
    RowMapCarries(rows, run);
    hide Sweep, Shown, RowMap, ItemsOutside;
    ShownBy(tabs, tab, run);
    SweptItems(db, tabs, db.runs[run := meta], run, RowMap(rows));
    SweptRuns(db, tabs, items, run, meta);
    SweepKeepsTabs(QueueDb(tabs, db.runs[run := meta], items));
  }

  lemma ShownBy(tabs: map<string, Tab>, tab: string, run: string)
    requires tab in tabs && tabs[tab].runId == Some(run)
    ensures Shown(tabs, run)
  {
  }

  lemma SweepKeepsTabs(db: QueueDb)
    ensures Sweep(db).tabs == db.tabs
  {
  }

  /** Replacing refines the map update, and is refused exactly when the tab is
      unknown or an item id, position or slug is taken. Without a named tab it
      acts on the active one. */
  lemma ReplaceIsMapUpdate(db: QueueDb, target: Option<string>, run: string, meta: Run, rows: seq<NewItem>, now: nat)
    requires Sound(db) && CarryRun(rows, run)
    ensures
      var tab := target.OrElse(ActiveTab(db));
      var result := Replace(db, target, run, meta, rows, now);
      && tab.Some? && (target.None? ==> IsTheActive(db, tab.value))
      && (result.Ok? <==> tab.value in db.tabs && FreshRows(ItemsOutside(db.items, run), run, rows))
      && (result.Ok? ==> result.value == Replaced(db, tab.value, run, meta, rows))
  {
    SoundIsSettled(db, now);
    ActiveTabFound(db);
    var tab := target.OrElse(ActiveTab(db)).value;
    hide Sound, FreshRows, EnsureDefault, Sweep, DropRun, AssignRun, RowMap, ActiveTab;
    if tab in db.tabs {
      var cleared := db.(items := ItemsOutside(db.items, run), runs := db.runs[run := meta]);
      InsertSucceedsIff(cleared, run, rows);
      if InsertItems(cleared, rows).Ok? {
        var linked := AssignRun(InsertItems(cleared, rows).value, tab, run);
        var previous := db.tabs[tab].runId;
        if previous.Some? && previous.value != run && !References(linked, previous.value) {
          SweepAbsorbsDrop(linked, previous.value);
        }
        SweptIsReplaced(db, tab, run, meta, rows);
      }
    }
  }

  function ItemsOf(db: QueueDb, run: string): map<string, Item> {
    map i | i in db.items && db.items[i].runId == run :: db.items[i]
  }

  lemma {:induction false} RowMapCarries(rows: seq<NewItem>, run: string)
    requires CarryRun(rows, run)
    ensures forall i :: i in RowMap(rows) ==> RowMap(rows)[i].runId == run
  {
    if rows != [] {
      RowMapCarries(rows[1..], run);
    }
  }

  lemma ReplacedItemsOf(db: QueueDb, tab: string, run: string, meta: Run, rows: seq<NewItem>)
    requires CarryRun(rows, run)
    ensures ItemsOf(Replaced(db, tab, run, meta, rows), run) == RowMap(rows)
  {
    RowMapCarries(rows, run);
    hide RowMap, Shown, AssignRun;
  }

  /** Rows that clash with nothing outside the run replace no item of another run. */
  lemma FreshRowMap(items: map<string, Item>, run: string, rows: seq<NewItem>)
    requires CarryRun(rows, run) && FreshRows(ItemsOutside(items, run), run, rows)
    ensures forall i :: i in RowMap(rows) ==>
      RowMap(rows)[i].runId == run && (i in items ==> items[i].runId == run)
  {
    var db := QueueDb(map[], map[run := Run(0)], ItemsOutside(items, run));
    InsertSucceedsIff(db, run, rows);
    hide FreshRows, RowMap, InsertItems;
    assert forall i :: i in items && items[i].runId != run ==> i in db.items;
  }

  lemma ReplacedKeepsItemsOf(db: QueueDb, tab: string, run: string, meta: Run, rows: seq<NewItem>, r: string)
    requires CarryRun(rows, run) && FreshRows(ItemsOutside(db.items, run), run, rows)
    requires r != run && Shown(AssignRun(db, tab, run).tabs, r)
    ensures ItemsOf(Replaced(db, tab, run, meta, rows), r) == ItemsOf(db, r)
  {
    hide FreshRows, RowMap, Shown, AssignRun;
    FreshRowMap(db.items, run, rows);
  }

  /** The update seen from the tabs: the target shows the run with exactly the
      rows, every other tab keeps its run and that run's items, unless it showed
      the replaced run, and nothing is left that no tab shows. */
  lemma ReplacedSeenFromTabs(db: QueueDb, tab: string, run: string, meta: Run, rows: seq<NewItem>)
    requires Sound(db) && tab in db.tabs && CarryRun(rows, run)
    requires FreshRows(ItemsOutside(db.items, run), run, rows)
    ensures
      var db' := Replaced(db, tab, run, meta, rows);
      && db'.tabs.Keys == db.tabs.Keys
      && db'.tabs[tab].runId == Some(run) && db'.runs[run] == meta && ItemsOf(db', run) == RowMap(rows)
      && (forall t :: t in db.tabs && t != tab ==>
            db'.tabs[t].runId == if db.tabs[t].runId == Some(run) then None else db.tabs[t].runId)
      && (forall t :: t in db'.tabs && t != tab && db'.tabs[t].runId.Some? ==>
            var r := db'.tabs[t].runId.value;
            r in db.runs && db'.runs[r] == db.runs[r] && ItemsOf(db', r) == ItemsOf(db, r))
      && (forall r :: r in db'.runs ==> Shown(db'.tabs, r))
      && (forall i :: i in db'.items ==> Shown(db'.tabs, db'.items[i].runId))
  {
    var db' := Replaced(db, tab, run, meta, rows);
    ReplacedItemsOf(db, tab, run, meta, rows);
    RowMapCarries(rows, run);
    hide FreshRows, ItemsOf;
    assert db'.tabs[tab].runId == Some(run);
    forall t | t in db'.tabs && t != tab && db'.tabs[t].runId.Some?
      ensures ItemsOf(db', db'.tabs[t].runId.value) == ItemsOf(db, db'.tabs[t].runId.value)
    {
      assert Shown(db'.tabs, db'.tabs[t].runId.value);
      ReplacedKeepsItemsOf(db, tab, run, meta, rows, db'.tabs[t].runId.value);
    }
  }

  // ---- Deleting an item cleans its run's dependency graph ----

  /** Positions from k on whose dependency survives. */
  function KeptFrom(deps: seq<string>, deleted: string, k: nat): seq<nat>
    requires k <= |deps|
    decreases |deps| - k
  {
    if k == |deps| then [] else
    (if deps[k] == deleted then [] else [k]) + KeptFrom(deps, deleted, k + 1)
  }

  /** The surviving dependencies are the others, in order and as often as before. */
  lemma RetainKeepsTheRest(deps: seq<string>, deleted: string)
    ensures
      var kept, left := KeptFrom(deps, deleted, 0), Retain(deps, deleted);
      && |left| == |kept|
      && (forall j :: 0 <= j < |kept| ==> 0 <= kept[j] < |deps| && left[j] == deps[kept[j]])
      && (forall i, j :: 0 <= i < j < |kept| ==> kept[i] < kept[j])
      && (forall i :: i in kept <==> 0 <= i < |deps| && deps[i] != deleted)
  {
    assert deps[0..] == deps;
    RetainedAt(deps, deleted, 0);
    KeptRise(deps, deleted, 0);
    KeptMembers(deps, deleted, 0);
  }

  lemma {:induction false} RetainedAt(deps: seq<string>, deleted: string, k: nat)
    requires k <= |deps|
    ensures
      var kept, left := KeptFrom(deps, deleted, k), Retain(deps[k..], deleted);
      && |left| == |kept|
      && (forall j :: 0 <= j < |kept| ==> k <= kept[j] < |deps| && left[j] == deps[kept[j]])
    decreases |deps| - k
  {
    if k < |deps| {
      RetainedAt(deps, deleted, k + 1);
      assert deps[k..][1..] == deps[k + 1..];
    }
  }

  lemma {:induction false} KeptMembers(deps: seq<string>, deleted: string, k: nat)
    requires k <= |deps|
    ensures forall i :: i in KeptFrom(deps, deleted, k) <==> k <= i < |deps| && deps[i] != deleted
    decreases |deps| - k
  {
    if k < |deps| {
      KeptMembers(deps, deleted, k + 1);
      var head := if deps[k] == deleted then [] else [k];
      assert forall i :: i in head + KeptFrom(deps, deleted, k + 1) <==> i in head || i in KeptFrom(deps, deleted, k + 1);
    }
  }

  lemma {:induction false} KeptRise(deps: seq<string>, deleted: string, k: nat)
    requires k <= |deps|
    ensures forall i, j :: 0 <= i < j < |KeptFrom(deps, deleted, k)| ==>
      KeptFrom(deps, deleted, k)[i] < KeptFrom(deps, deleted, k)[j]
    decreases |deps| - k
  {
    if k < |deps| {
      var rest := KeptFrom(deps, deleted, k + 1);
      KeptRise(deps, deleted, k + 1);
      KeptMembers(deps, deleted, k + 1);
      assert forall j :: 0 <= j < |rest| ==> rest[j] in rest;
    }
  }

  function RunGraph(db: QueueDb, run: string): Graph {
    map i | i in db.items && db.items[i].runId == run :: db.items[i].dependsOn
  }

  lemma {:induction false} RetainMembers(deps: seq<string>, deleted: string)
    ensures forall d :: d in Retain(deps, deleted) <==> d in deps && d != deleted
  {
    if deps != [] {
      RetainMembers(deps[1..], deleted);
      assert forall d :: d in deps <==> d == deps[0] || d in deps[1..];
    }
  }

  lemma DropIfEmptyKeepsGraphs(db: QueueDb, run: string)
    ensures forall r :: RunGraph(DropIfEmpty(db, run), r) == RunGraph(db, r)
    ensures run in db.runs ==> (run in DropIfEmpty(db, run).runs <==> RunGraph(db, run) != map[])
  {
    if i :| i in db.items && db.items[i].runId == run {
      assert i in RunGraph(db, run);
    } else {
      assert RunGraph(db, run) == map[];
    }
  }

  /** The item disappears as a node and as a dependency, and nothing else changes. */
  lemma DeleteItemGraph(db: QueueDb, run: string, item: string)
    requires item in db.items && db.items[item].runId == run
    ensures
      var before, after := RunGraph(db, run), RunGraph(DeleteItem(db, run, item), run);
      && after.Keys == before.Keys - {item}
      && (forall a :: a in after ==> after[a] == Retain(before[a], item))
      && (forall a, b :: Edge(after, a, b) <==> Edge(before, a, b) && a != item && b != item)
  {
    var db' := WithoutItem(db, run, item);
    DropIfEmptyKeepsGraphs(db', run);
    hide DropIfEmpty;
    var before, after := RunGraph(db, run), RunGraph(db', run);
    forall a | a in after
      ensures after[a] == Retain(before[a], item) && forall b :: b in after[a] <==> b in before[a] && b != item
    {
      RetainMembers(before[a], item);
    }
  }

  lemma DeleteItemSparesOtherRuns(db: QueueDb, run: string, item: string, other: string)
    requires other != run
    ensures RunGraph(DeleteItem(db, run, item), other) == RunGraph(db, other)
  {
    DropIfEmptyKeepsGraphs(WithoutItem(db, run, item), run);
    DropIfEmptyKeepsGraphs(db, run);
    hide DropIfEmpty, Retain;
    if item in db.items && db.items[item].runId == run {
      assert RunGraph(WithoutItem(db, run, item), other) == RunGraph(db, other);
    }
  }

  /** So a closed graph stays closed and an acyclic one acyclic, and the run goes
      exactly when its last item does. */
  lemma DeleteItemKeepsGraph(db: QueueDb, run: string, item: string)
    requires item in db.items && db.items[item].runId == run
    ensures
      var db' := DeleteItem(db, run, item);
      && (Closed(RunGraph(db, run)) ==> Closed(RunGraph(db', run)))
      && (Acyclic(RunGraph(db, run)) ==> Acyclic(RunGraph(db', run)))
      && (run in db.runs ==> (run in db'.runs <==> RunGraph(db', run) != map[]))
      && (forall a :: !Edge(RunGraph(db', run), a, item))
  {
    var db' := DeleteItem(db, run, item);
    DeleteItemGraph(db, run, item);
    var before, after := RunGraph(db, run), RunGraph(db', run);
    forall p | IsCycle(after, p)
      ensures IsCycle(before, p)
    {
      assert forall i :: 0 <= i < |p| - 1 ==> Edge(after, p[i], p[i + 1]);
    }
    DropIfEmptyKeepsGraphs(WithoutItem(db, run, item), run);
  }
}
