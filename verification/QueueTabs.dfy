/** Queue tabs, runs and items: every transaction that creates, assigns, replaces
    or deletes them, with the foreign keys and unique indexes of the schema. */
module QueueTabs {
  import opened Common
  import opened Ordering

  datatype Tab = Tab(runId: Option<string>, isDefault: bool, active: bool, createdAt: nat)
  datatype Run = Run(updatedAt: nat)
  datatype Item = Item(runId: string, position: int, slug: string, dependsOn: seq<string>)
  datatype NewItem = NewItem(id: string, item: Item)

  datatype QueueDb = QueueDb(tabs: map<string, Tab>, runs: map<string, Run>, items: map<string, Item>)

  datatype QueueError = UnknownTab | UnknownRun | DefaultTab | ConstraintViolation

  const DEFAULT_TAB := "default"

  // ---- The default and the active tab ----

  predicate HasDefault(db: QueueDb) {
    exists t :: t in db.tabs && db.tabs[t].isDefault
  }

  predicate HasActive(db: QueueDb) {
    exists t :: t in db.tabs && db.tabs[t].active
  }

  /** `order by updated_at_unix desc limit 1`; ties are broken by id. */
  function LatestRun(db: QueueDb): Option<string> {
    var keys := set r | r in db.runs :: RunKey(db, r);
    if keys == {} then None else Some(First(keys).id)
  }

  function RunKey(db: QueueDb, r: string): SortKey
    requires r in db.runs
  {
    SortKey("", 0, 0 - db.runs[r].updatedAt, r)
  }

  function FallbackKey(db: QueueDb, t: string): SortKey
    requires t in db.tabs
  {
    SortKey("", (if db.tabs[t].runId.Some? then 0 else 2) + (if db.tabs[t].isDefault then 0 else 1),
            db.tabs[t].createdAt, t)
  }

  function FallbackKeys(db: QueueDb): (keys: set<SortKey>)
    ensures forall t :: t in db.tabs ==> FallbackKey(db, t) in keys
    ensures forall k :: k in keys ==> k.id in db.tabs && k == FallbackKey(db, k.id)
  {
    set t | t in db.tabs :: FallbackKey(db, t)
  }

  function Activated(tabs: map<string, Tab>, tab: string): map<string, Tab> {
    map t | t in tabs :: tabs[t].(active := t == tab)
  }

  lemma NonemptyFallback(db: QueueDb)
    requires db.tabs != map[]
    ensures FallbackKeys(db) != {}
  {
    var t :| t in db.tabs;
    assert FallbackKey(db, t) in FallbackKeys(db);
  }

  /** The tab that takes over: one with a run first, then the default, then age. */
  function ActivateFallback(db: QueueDb): Result<QueueDb, QueueError> {
    if db.tabs == map[] then Err(UnknownTab) else
    NonemptyFallback(db);
    Ok(db.(tabs := Activated(db.tabs, First(FallbackKeys(db)).id)))
  }

  function DedupKey(db: QueueDb, t: string): SortKey
    requires t in db.tabs && db.tabs[t].runId.Some?
  {
    SortKey(db.tabs[t].runId.value, if db.tabs[t].isDefault then 0 else 1, db.tabs[t].createdAt, t)
  }

  /** Another tab of the same run comes first in the repair query. */
  predicate Duplicate(db: QueueDb, t: string)
    requires t in db.tabs
  {
    db.tabs[t].runId.Some? &&
    exists u :: u in db.tabs && u != t && db.tabs[u].runId == db.tabs[t].runId && KeyLe(DedupKey(db, u), DedupKey(db, t))
  }

  function Deduplicated(db: QueueDb): QueueDb {
    db.(tabs := map t | t in db.tabs ::
      if Duplicate(db, t) then db.tabs[t].(runId := None) else db.tabs[t])
  }

  function EnsureDefault(db: QueueDb, now: nat): Result<QueueDb, QueueError> {
    if HasDefault(db) then
      if HasActive(db) then Ok(Deduplicated(db)) else
      (match ActivateFallback(db)
       case Err(e) => Err(e)
       case Ok(db') => Ok(Deduplicated(db')))
    else if DEFAULT_TAB in db.tabs || HasActive(db) then Err(ConstraintViolation)
    else Ok(Deduplicated(db.(tabs := db.tabs[DEFAULT_TAB := Tab(LatestRun(db), true, true, now)])))
  }

  // ---- Tabs ----

  function CreateAndActivate(db: QueueDb, tab: string, now: nat): Result<QueueDb, QueueError> {
    match EnsureDefault(db, now)
    case Err(e) => Err(e)
    case Ok(db) =>
      if tab in db.tabs then Err(ConstraintViolation)
      else Ok(db.(tabs := Activated(db.tabs[tab := Tab(None, false, false, now)], tab)))
  }

  function Activate(db: QueueDb, tab: string, now: nat): Result<QueueDb, QueueError> {
    match EnsureDefault(db, now)
    case Err(e) => Err(e)
    case Ok(db) => if tab !in db.tabs then Err(UnknownTab) else Ok(db.(tabs := Activated(db.tabs, tab)))
  }

  function DeleteTab(db: QueueDb, tab: string, now: nat): Result<QueueDb, QueueError> {
    match EnsureDefault(db, now)
    case Err(e) => Err(e)
    case Ok(db) =>
      if tab !in db.tabs then Err(UnknownTab)
      else if db.tabs[tab].isDefault then Err(DefaultTab)
      else
        var rest := db.(tabs := db.tabs - {tab});
        if db.tabs[tab].active then ActivateFallback(rest) else Ok(rest)
  }

  // ---- Runs and items ----

  predicate References(db: QueueDb, run: string) {
    exists t :: t in db.tabs && db.tabs[t].runId == Some(run)
  }

  function WithoutRun(tabs: map<string, Tab>, run: string): map<string, Tab> {
    map t | t in tabs :: if tabs[t].runId == Some(run) then tabs[t].(runId := None) else tabs[t]
  }

  function ItemsOutside(items: map<string, Item>, run: string): map<string, Item> {
    map i | i in items && items[i].runId != run :: items[i]
  }

  /** Deleting a run cascades to its items and clears it from tabs. */
  function DropRun(db: QueueDb, run: string): QueueDb {
    QueueDb(WithoutRun(db.tabs, run), db.runs - {run}, ItemsOutside(db.items, run))
  }

  /** Primary key, foreign key and the two unique keys of an item row. */
  predicate CanInsert(db: QueueDb, row: NewItem) {
    && row.id !in db.items
    && row.item.runId in db.runs
    && forall i :: i in db.items && db.items[i].runId == row.item.runId ==>
         db.items[i].position != row.item.position && db.items[i].slug != row.item.slug
  }

  function InsertItems(db: QueueDb, rows: seq<NewItem>): Result<QueueDb, QueueError>
    decreases |rows|
  {
    if rows == [] then Ok(db)
    else if !CanInsert(db, rows[0]) then Err(ConstraintViolation)
    else InsertItems(db.(items := db.items[rows[0].id := rows[0].item]), rows[1..])
  }

  /** The target tab gets the run and every other tab loses it. */
  function AssignRun(db: QueueDb, tab: string, run: string): QueueDb {
    db.(tabs := map t | t in db.tabs ::
      if t == tab then db.tabs[t].(runId := Some(run))
      else if db.tabs[t].runId == Some(run) then db.tabs[t].(runId := None)
      else db.tabs[t])
  }

  function ActiveTab(db: QueueDb): Option<string> {
    var keys := set t | t in db.tabs && db.tabs[t].active :: SortKey("", 0, 0, t);
    if keys == {} then None else Some(First(keys).id)
  }

  /** Delete every item and run that no tab references. */
  function Sweep(db: QueueDb): QueueDb {
    var items := map i | i in db.items && References(db, db.items[i].runId) :: db.items[i];
    var runs := map r | r in db.runs && References(db, r) :: db.runs[r];
    QueueDb(db.tabs, runs, items)
  }

  function Replace(db: QueueDb, target: Option<string>, run: string, meta: Run, rows: seq<NewItem>, now: nat)
    : Result<QueueDb, QueueError>
  {
    match EnsureDefault(db, now)
    case Err(e) => Err(e)
    case Ok(db) =>
      var tab := target.OrElse(ActiveTab(db));
      if tab.None? || tab.value !in db.tabs then Err(UnknownTab) else
      var previous := db.tabs[tab.value].runId;
      var cleared := db.(items := ItemsOutside(db.items, run), runs := db.runs[run := meta]);
      match InsertItems(cleared, rows)
      case Err(e) => Err(e)
      case Ok(filled) =>
        var linked := AssignRun(filled, tab.value, run);
        var dropped :=
          if previous.Some? && previous.value != run && !References(linked, previous.value)
          then DropRun(linked, previous.value) else linked;
        Ok(Sweep(dropped))
  }

  /** Every statement that writes a run row also moves its update time. */
  function Touched(db: QueueDb, run: string, now: nat): QueueDb {
    if run in db.runs then db.(runs := db.runs[run := db.runs[run].(updatedAt := now)]) else db
  }

  function Append(db: QueueDb, run: string, rows: seq<NewItem>, now: nat): Result<QueueDb, QueueError> {
    if rows == [] then Ok(db)
    else if run !in db.runs then Err(UnknownRun)
    else match InsertItems(db, rows)
      case Err(e) => Err(e)
      case Ok(filled) => Ok(Touched(filled, run, now))
  }

  /** A new place and new dependencies for an item. */
  datatype Plan = Plan(id: string, position: int, dependsOn: seq<string>)

  predicate PositionTaken(items: map<string, Item>, run: string, plan: Plan) {
    exists i :: i in items && i != plan.id && items[i].runId == run && items[i].position == plan.position
  }

  /** One update per plan, in order; the unique index is checked after each. */
  function UpdatePlans(items: map<string, Item>, run: string, plans: seq<Plan>): Result<map<string, Item>, QueueError>
    decreases |plans|
  {
    if plans == [] then Ok(items)
    else
      var plan := plans[0];
      if plan.id !in items || items[plan.id].runId != run then UpdatePlans(items, run, plans[1..])
      else if PositionTaken(items, run, plan) then Err(ConstraintViolation)
      else UpdatePlans(
        items[plan.id := items[plan.id].(position := plan.position, dependsOn := plan.dependsOn)], run, plans[1..])
  }

  function Replan(db: QueueDb, run: string, plans: seq<Plan>, now: nat): Result<QueueDb, QueueError> {
    if plans == [] then Ok(db)
    else match UpdatePlans(db.items, run, plans)
      case Err(e) => Err(e)
      case Ok(items) => Ok(Touched(db.(items := items), run, now))
  }

  /** The dependencies without those on the deleted item. */
  function Retain(deps: seq<string>, deleted: string): seq<string> {
    if deps == [] then []
    else if deps[0] == deleted then Retain(deps[1..], deleted)
    else [deps[0]] + Retain(deps[1..], deleted)
  }

  function DropIfEmpty(db: QueueDb, run: string): QueueDb {
    if exists i :: i in db.items && db.items[i].runId == run then db else DropRun(db, run)
  }

  /** The item row goes, and with it every reference from its run. */
  function WithoutItem(db: QueueDb, run: string, item: string): QueueDb {
    db.(items := map i | i in db.items && i != item ::
      if db.items[i].runId == run then db.items[i].(dependsOn := Retain(db.items[i].dependsOn, item)) else db.items[i])
  }

  function DeleteItem(db: QueueDb, run: string, item: string): QueueDb {
    if item !in db.items || db.items[item].runId != run then DropIfEmpty(db, run)
    else DropIfEmpty(WithoutItem(db, run, item), run)
  }
}
