/** What each tab, run and item operation does to sound tables, column by column: when
    it succeeds, what it changes, and what it leaves alone. */
module TabEffects {
  import opened Common
  import opened Ordering
  import opened QueueTabs
  import opened TabHistory

  /** The two tabs differ at most in which of them is active. */
  ghost predicate SameButActive(a: Tab, b: Tab) {
    a.runId == b.runId && a.isDefault == b.isDefault && a.createdAt == b.createdAt
  }

  /** The named tab is active, every other is not, and nothing else differs. */
  ghost predicate OnlyActivates(before: map<string, Tab>, after: map<string, Tab>, tab: string) {
    && after.Keys == before.Keys
    && forall t :: t in before ==> SameButActive(before[t], after[t]) && (after[t].active <==> t == tab)
  }

  // ---- Selecting, creating and deleting tabs ----

  /** Selecting succeeds exactly for an existing tab, makes it the active one and
      changes nothing else. */
  lemma SelectActivates(db: QueueDb, tab: string, now: nat)
    requires Sound(db)
    ensures Attempt(db, Select(tab, now)).Ok? <==> tab in db.tabs
    ensures
      var after := Step(db, Select(tab, now));
      && after.runs == db.runs && after.items == db.items
      && if tab in db.tabs then IsTheActive(after, tab) && OnlyActivates(db.tabs, after.tabs, tab) else after == db
  {
    SoundIsSettled(db, now);
  }

  /** Creating succeeds exactly for a new id, and adds an empty, active tab. */
  lemma CreateAddsActiveTab(db: QueueDb, tab: string, now: nat)
    requires Sound(db)
    ensures Attempt(db, Create(tab, now)).Ok? <==> tab !in db.tabs
    ensures
      var after := Step(db, Create(tab, now));
      && after.runs == db.runs && after.items == db.items
      && if tab in db.tabs then after == db
         else
           && after.tabs.Keys == db.tabs.Keys + {tab} && after.tabs[tab] == Tab(None, false, true, now)
           && forall t :: t in db.tabs ==> SameButActive(db.tabs[t], after.tabs[t]) && !after.tabs[t].active
  {
    SoundIsSettled(db, now);
  }

  /** Tab a takes over before tab b: the one with a run, else the default one, else the
      older one, else the one whose id sorts first. */
  ghost predicate TakesOver(tabs: map<string, Tab>, a: string, b: string)
    requires a in tabs && b in tabs
  {
    if tabs[a].runId.Some? != tabs[b].runId.Some? then tabs[a].runId.Some?
    else if tabs[a].isDefault != tabs[b].isDefault then tabs[a].isDefault
    else if tabs[a].createdAt != tabs[b].createdAt then tabs[a].createdAt < tabs[b].createdAt
    else StringLe(a, b)
  }

  lemma FallbackOrder(db: QueueDb, a: string, b: string)
    requires a in db.tabs && b in db.tabs
    ensures KeyLe(FallbackKey(db, a), FallbackKey(db, b)) <==> TakesOver(db.tabs, a, b)
  {
  }

  /** Deleting succeeds exactly for an existing tab other than the default one. The tab
      goes; if it was the active one, the first tab in the take-over order becomes active. */
  lemma RemoveTabHandsOver(db: QueueDb, tab: string, now: nat)
    requires Sound(db)
    ensures Attempt(db, RemoveTab(tab, now)).Ok? <==> tab in db.tabs && tab != DEFAULT_TAB
    ensures
      var after := Step(db, RemoveTab(tab, now));
      && after.runs == db.runs && after.items == db.items
      && if tab !in db.tabs || tab == DEFAULT_TAB then after == db
         else if !db.tabs[tab].active then after.tabs == db.tabs - {tab}
         else HandedOver(db.tabs - {tab}, after.tabs)
  {
    SoundIsSettled(db, now);
    if tab in db.tabs && tab != DEFAULT_TAB {
      var rest := db.(tabs := db.tabs - {tab});
      assert DEFAULT_TAB in rest.tabs;
      hide Sound, EnsureDefault, ActivateFallback, HandedOver;
      FallbackHandsOver(rest);
    }
  }

  /** The first tab in the take-over order is the active one. */
  ghost predicate HandedOver(before: map<string, Tab>, after: map<string, Tab>) {
    exists next :: next in before && OnlyActivates(before, after, next)
      && forall t :: t in before ==> TakesOver(before, next, t)
  }

  lemma FallbackHandsOver(rest: QueueDb)
    requires rest.tabs != map[]
    ensures ActivateFallback(rest).Ok?
    ensures
      var after := ActivateFallback(rest).value;
      after.runs == rest.runs && after.items == rest.items && HandedOver(rest.tabs, after.tabs)
  {
    NonemptyFallback(rest);
    var next := First(FallbackKeys(rest)).id;
    forall t | t in rest.tabs
      ensures TakesOver(rest.tabs, next, t)
    {
      assert FallbackKey(rest, t) in FallbackKeys(rest);
      FallbackOrder(rest, next, t);
    }
    assert OnlyActivates(rest.tabs, Activated(rest.tabs, next), next);
  }

  ghost predicate IsLatestRun(db: QueueDb, run: string) {
    run in db.runs && forall r :: r in db.runs ==> db.runs[r].updatedAt <= db.runs[run].updatedAt
  }

  /** Without any tab the default one is created, active, and shows a run with the
      latest update time if there are runs at all. */
  lemma FirstTabShowsLatestRun(db: QueueDb, now: nat)
    requires db.tabs == map[]
    ensures EnsureDefault(db, now).Ok?
    ensures
      var after := EnsureDefault(db, now).value;
      && after.runs == db.runs && after.items == db.items && after.tabs.Keys == {DEFAULT_TAB}
      && var tab := after.tabs[DEFAULT_TAB];
      && tab.isDefault && tab.active && tab.createdAt == now
      && (tab.runId.None? <==> db.runs == map[])
      && (tab.runId.Some? ==> IsLatestRun(db, tab.runId.value))
  {
    var latest := LatestRun(db);
    var keys := set r | r in db.runs :: RunKey(db, r);
    assert forall r :: r in db.runs ==> RunKey(db, r) in keys;
    var tabs := map[DEFAULT_TAB := Tab(latest, true, true, now)];
    assert Deduplicated(db.(tabs := tabs)).tabs == tabs;
  }

  /** With a default tab but no active one, the first tab in the take-over order becomes
      active before the repair. */
  lemma FallbackBecomesActive(db: QueueDb, now: nat)
    requires exists t :: t in db.tabs && db.tabs[t].isDefault
    requires forall t :: t in db.tabs ==> !db.tabs[t].active
    ensures EnsureDefault(db, now).Ok?
    ensures exists tabs :: HandedOver(db.tabs, tabs) && EnsureDefault(db, now).value == Deduplicated(db.(tabs := tabs))
  {
    FallbackHandsOver(db);
    hide HandedOver, Deduplicated, ActivateFallback;
    var tabs := ActivateFallback(db).value.tabs;
    assert HandedOver(db.tabs, tabs) && EnsureDefault(db, now).value == Deduplicated(db.(tabs := tabs));
  }

  /** When several tabs show one run, the repair leaves it with the default tab if that is
      one of them, else with the oldest, and clears the others; no other column changes. */
  lemma RepairKeepsFirst(db: QueueDb, t: string)
    requires t in db.tabs
    ensures
      var after := Deduplicated(db);
      && after.runs == db.runs && after.items == db.items && after.tabs.Keys == db.tabs.Keys
      && after.tabs[t] == db.tabs[t].(runId := after.tabs[t].runId)
      && after.tabs[t].runId ==
           if exists u :: u in db.tabs && u != t && db.tabs[u].runId == db.tabs[t].runId && ShownBefore(db.tabs, u, t)
           then None else db.tabs[t].runId
  {
    forall u | u in db.tabs && db.tabs[t].runId.Some? && db.tabs[u].runId == db.tabs[t].runId
      ensures KeyLe(DedupKey(db, u), DedupKey(db, t)) <==> ShownBefore(db.tabs, u, t)
    {
    }
  }

  /** Between two tabs with one run: the default one, else the older, else the smaller id. */
  ghost predicate ShownBefore(tabs: map<string, Tab>, u: string, t: string)
    requires u in tabs && t in tabs
  {
    if tabs[u].isDefault != tabs[t].isDefault then tabs[u].isDefault
    else if tabs[u].createdAt != tabs[t].createdAt then tabs[u].createdAt < tabs[t].createdAt
    else StringLe(u, t)
  }

  // ---- Runs and items ----

  /** Exactly the given rows are new, and each is stored as given. */
  ghost predicate AddsRows(before: map<string, Item>, after: map<string, Item>, rows: seq<NewItem>) {
    && (forall i :: i in after <==> i in before || exists k :: 0 <= k < |rows| && rows[k].id == i)
    && (forall i :: i in before ==> after[i] == before[i])
    && (forall k :: 0 <= k < |rows| ==> rows[k].id in after && after[rows[k].id] == rows[k].item)
  }

  lemma {:induction false} RowMapHoldsRows(rows: seq<NewItem>)
    requires forall j, k :: 0 <= j < k < |rows| ==> rows[j].id != rows[k].id
    ensures forall i :: i in RowMap(rows) <==> exists k :: 0 <= k < |rows| && rows[k].id == i
    ensures forall k :: 0 <= k < |rows| ==> rows[k].id in RowMap(rows) && RowMap(rows)[rows[k].id] == rows[k].item
  {
    if rows != [] {
      var rest := rows[1..];
      assert forall k :: 0 <= k < |rest| ==> rest[k] == rows[k + 1];
      RowMapHoldsRows(rest);
      forall i
        ensures i in RowMap(rows) <==> exists k :: 0 <= k < |rows| && rows[k].id == i
      {
        if k :| 0 <= k < |rows| && rows[k].id == i {
          assert k > 0 ==> rest[k - 1].id == i;
        }
        if i in RowMap(rest) {
          var k :| 0 <= k < |rest| && rest[k].id == i;
          assert rows[k + 1].id == i;
        }
      }
      forall k | 0 <= k < |rows|
        ensures rows[k].id in RowMap(rows) && RowMap(rows)[rows[k].id] == rows[k].item
      {
        assert k > 0 ==> rest[k - 1] == rows[k];
      }
    }
  }

  /** Appending rows of an existing run succeeds exactly when none of their keys is taken.
      It adds just those rows and moves the run's update time; an empty list does nothing. */
  lemma AppendAddsRows(db: QueueDb, run: string, rows: seq<NewItem>, now: nat)
    requires CarryRun(rows, run)
    ensures Attempt(db, Add(run, rows, now)).Ok? <==>
      rows == [] || (run in db.runs && FreshRows(db.items, run, rows))
    ensures
      var after := Step(db, Add(run, rows, now));
      if rows == [] || Attempt(db, Add(run, rows, now)).Err? then after == db
      else after.tabs == db.tabs && AddsRows(db.items, after.items, rows)
           && run in db.runs && after.runs == db.runs[run := Run(now)]
  {
    if rows != [] && run in db.runs {
      InsertSucceedsIff(db, run, rows);
      if InsertItems(db, rows).Ok? {
        FreshRowsAdded(db.items, run, rows);
      }
      hide InsertItems, FreshRows, RowMap, AddsRows;
    }
  }

  lemma FreshRowsAdded(items: map<string, Item>, run: string, rows: seq<NewItem>)
    requires FreshRows(items, run, rows) && forall i :: i in RowMap(rows) ==> i !in items
    ensures AddsRows(items, items + RowMap(rows), rows)
  {
    RowMapHoldsRows(rows);
    hide RowMap, FreshRows;
  }

  /** Deleting a run removes it and its items, clears it from tabs, and leaves every other
      run, item and tab column alone. */
  lemma RemoveRunDetaches(db: QueueDb, run: string)
    ensures
      var after := Step(db, RemoveRun(run));
      && after.runs == db.runs - {run}
      && (forall i :: i in after.items <==> i in db.items && db.items[i].runId != run)
      && (forall i :: i in after.items ==> after.items[i] == db.items[i])
      && after.tabs.Keys == db.tabs.Keys
      && (forall t :: t in db.tabs ==>
            after.tabs[t] == db.tabs[t].(runId := if db.tabs[t].runId == Some(run) then None else db.tabs[t].runId))
  {
  }

  /** The other items of the run remain. */
  ghost predicate HasOtherItems(db: QueueDb, run: string, item: string) {
    exists i :: i in db.items && i != item && db.items[i].runId == run
  }

  /** Deleting an item of a run leaves every other item in place with at most its
      dependencies changed, and those only within the run. Tabs and runs change only if it
      was the last item: then the run is deleted. An unknown item deletes an empty run. */
  lemma RemoveItemLeavesRest(db: QueueDb, run: string, item: string)
    ensures
      var known := item in db.items && db.items[item].runId == run;
      var after := Step(db, RemoveItem(run, item));
      && after.items.Keys == db.items.Keys - (if known then {item} else {})
      && (forall i :: i in after.items ==>
            && after.items[i] == db.items[i].(dependsOn := after.items[i].dependsOn)
            && (!known || db.items[i].runId != run ==> after.items[i] == db.items[i]))
      && if HasOtherItems(db, run, item) then after.runs == db.runs && after.tabs == db.tabs
         else after.runs == db.runs - {run} && after.tabs == Step(db, RemoveRun(run)).tabs
  {
    if item in db.items && db.items[item].runId == run {
      WithoutItemRows(db, run, item);
      hide WithoutItem, HasOtherItems;
      EmptyRunGoes(WithoutItem(db, run, item), run);
    } else {
      assert HasOtherItems(db, run, item) <==> exists i :: i in db.items && db.items[i].runId == run;
      EmptyRunGoes(db, run);
    }
  }

  lemma EmptyRunGoes(db: QueueDb, run: string)
    ensures
      var after := DropIfEmpty(db, run);
      && after.items == db.items
      && if exists i :: i in db.items && db.items[i].runId == run then after == db
         else after.runs == db.runs - {run} && after.tabs == WithoutRun(db.tabs, run)
  {
  }

  lemma WithoutItemRows(db: QueueDb, run: string, item: string)
    ensures
      var less := WithoutItem(db, run, item);
      && less.tabs == db.tabs && less.runs == db.runs && less.items.Keys == db.items.Keys - {item}
      && (forall i :: i in less.items ==>
            && less.items[i] == db.items[i].(dependsOn := less.items[i].dependsOn)
            && (db.items[i].runId != run ==> less.items[i] == db.items[i]))
      && (HasOtherItems(db, run, item) <==> exists i :: i in less.items && less.items[i].runId == run)
  {
    var less := WithoutItem(db, run, item);
    if i :| i in db.items && i != item && db.items[i].runId == run {
      assert i in less.items && less.items[i].runId == run;
    }
  }

  /** Writing a run's own columns moves its update time and nothing else. */
  lemma TouchMovesTime(db: QueueDb, run: string, now: nat)
    ensures
      var after := Step(db, Touch(run, now));
      && after.tabs == db.tabs && after.items == db.items
      && after.runs == if run in db.runs then db.runs[run := Run(now)] else db.runs
  {
  }

  /** Where item i of the run stands after the first k plans. */
  function PlaceAfter(items: map<string, Item>, run: string, plans: seq<Plan>, k: nat, i: string): int
    requires k <= |plans| && i in items
  {
    Planned(items[i], run, LastPlan(plans[..k], i)).position
  }

  /** Plan k finds its place free: no other item of the run stands there by then. */
  ghost predicate PlaceFree(items: map<string, Item>, run: string, plans: seq<Plan>, k: nat)
    requires k < |plans|
  {
    plans[k].id in items && items[plans[k].id].runId == run ==>
      forall i :: i in items && i != plans[k].id && items[i].runId == run ==>
        PlaceAfter(items, run, plans, k, i) != plans[k].position
  }

  /** A rewrite of plans is accepted exactly when each plan in turn finds its place free:
      exchanging two places directly is refused. */
  lemma {:induction false} UpdatePlansAcceptedIff(items: map<string, Item>, run: string, plans: seq<Plan>)
    ensures UpdatePlans(items, run, plans).Ok? <==> forall k :: 0 <= k < |plans| ==> PlaceFree(items, run, plans, k)
    decreases |plans|
  {
    if plans != [] {
      var plan, rest := plans[0], plans[1..];
      FirstPlaceFree(items, run, plans);
      if plan.id in items && items[plan.id].runId == run {
        var next := items[plan.id := items[plan.id].(position := plan.position, dependsOn := plan.dependsOn)];
        forall k | 0 <= k < |rest|
          ensures PlaceFree(next, run, rest, k) <==> PlaceFree(items, run, plans, k + 1)
        {
          LaterPlaceFree(items, next, run, plans, k);
        }
        hide PlaceFree, PositionTaken;
        UpdatePlansAcceptedIff(next, run, rest);
        ShiftedFree(items, next, run, plans);
      } else {
        forall k | 0 <= k < |rest|
          ensures PlaceFree(items, run, rest, k) <==> PlaceFree(items, run, plans, k + 1)
        {
          LaterPlaceFree(items, items, run, plans, k);
        }
        hide PlaceFree, PositionTaken;
        UpdatePlansAcceptedIff(items, run, rest);
        ShiftedFree(items, items, run, plans);
      }
    }
  }

  lemma ShiftedFree(items: map<string, Item>, next: map<string, Item>, run: string, plans: seq<Plan>)
    requires plans != []
    requires forall k :: 0 <= k < |plans| - 1 ==> (PlaceFree(next, run, plans[1..], k) <==> PlaceFree(items, run, plans, k + 1))
    ensures (forall k :: 0 <= k < |plans| ==> PlaceFree(items, run, plans, k)) <==>
      PlaceFree(items, run, plans, 0) && forall k :: 0 <= k < |plans| - 1 ==> PlaceFree(next, run, plans[1..], k)
  {
    hide PlaceFree;
    if PlaceFree(items, run, plans, 0) && forall k :: 0 <= k < |plans| - 1 ==> PlaceFree(next, run, plans[1..], k) {
      forall k | 0 <= k < |plans|
        ensures PlaceFree(items, run, plans, k)
      {
        assert k > 0 ==> PlaceFree(next, run, plans[1..], k - 1);
      }
    }
    if forall k :: 0 <= k < |plans| ==> PlaceFree(items, run, plans, k) {
      forall k | 0 <= k < |plans| - 1
        ensures PlaceFree(next, run, plans[1..], k)
      {
        assert PlaceFree(items, run, plans, k + 1);
      }
    }
  }

  lemma FirstPlaceFree(items: map<string, Item>, run: string, plans: seq<Plan>)
    requires plans != []
    ensures PlaceFree(items, run, plans, 0) <==>
      !(plans[0].id in items && items[plans[0].id].runId == run && PositionTaken(items, run, plans[0]))
  {
    assert plans[..0] == [];
    assert forall i :: i in items ==> PlaceAfter(items, run, plans, 0, i) == items[i].position;
  }

  lemma LaterPlaceFree(items: map<string, Item>, next: map<string, Item>, run: string, plans: seq<Plan>, k: nat)
    requires plans != [] && k + 1 < |plans|
    requires
      var plan := plans[0];
      next == if plan.id in items && items[plan.id].runId == run
              then items[plan.id := items[plan.id].(position := plan.position, dependsOn := plan.dependsOn)] else items
    ensures PlaceFree(next, run, plans[1..], k) <==> PlaceFree(items, run, plans, k + 1)
  {
    assert next.Keys == items.Keys && forall i :: i in items ==> next[i].runId == items[i].runId;
    assert plans[1..][k] == plans[k + 1];
    forall i | i in items
      ensures PlaceAfter(next, run, plans[1..], k, i) == PlaceAfter(items, run, plans, k + 1, i)
    {
      assert plans[..k + 1][1..] == plans[1..][..k];
    }
  }

  /** A successful rewrite of plans moves the run's update time and, beside items, nothing
      else; a refused one changes nothing. */
  lemma RearrangeTouchesRun(db: QueueDb, run: string, plans: seq<Plan>, now: nat)
    ensures
      var after := Step(db, Rearrange(run, plans, now));
      && after.tabs == db.tabs
      && if plans == [] || Attempt(db, Rearrange(run, plans, now)).Err? then after == db
         else after.runs == if run in db.runs then db.runs[run := Run(now)] else db.runs
  {
  }

  /** Replacing a queue changes which run tabs show and no other tab column, stores each
      given row, and keeps the replaced run's record as given. */
  lemma ReplaceStoresRows(db: QueueDb, tab: string, run: string, meta: Run, rows: seq<NewItem>, now: nat)
    requires Sound(db) && CarryRun(rows, run) && Attempt(db, Put(Some(tab), run, meta, rows, now)).Ok?
    ensures
      var after := Step(db, Put(Some(tab), run, meta, rows, now));
      && after.tabs.Keys == db.tabs.Keys
      && (forall t :: t in db.tabs ==> after.tabs[t] == db.tabs[t].(runId := after.tabs[t].runId))
      && run in after.runs && after.runs[run] == meta
      && (forall k :: 0 <= k < |rows| ==> rows[k].id in after.items && after.items[rows[k].id] == rows[k].item)
      && (forall i :: i in after.items && after.items[i].runId == run ==> exists k :: 0 <= k < |rows| && rows[k].id == i)
  {
    ReplaceIsMapUpdate(db, Some(tab), run, meta, rows, now);
    RowMapHoldsRows(rows);
    ReplacedColumns(db, tab, run, meta, rows);
    hide Replace, FreshRows, RowMap, Sound, Replaced;
  }

  lemma ReplacedColumns(db: QueueDb, tab: string, run: string, meta: Run, rows: seq<NewItem>)
    ensures
      var after := Replaced(db, tab, run, meta, rows);
      && after.tabs.Keys == db.tabs.Keys
      && (forall t :: t in db.tabs ==> after.tabs[t] == db.tabs[t].(runId := after.tabs[t].runId))
      && run in after.runs && after.runs[run] == meta
      && (forall i :: i in RowMap(rows) ==> i in after.items && after.items[i] == RowMap(rows)[i])
      && (forall i :: i in after.items && after.items[i].runId == run ==> i in RowMap(rows))
  {
    hide RowMap, Shown;
  }
}
