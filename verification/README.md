# Verified model of the task queue's durable state

Q-COLD keeps its task records, task queues and worker leases in one SQLite
database that many processes share. This project models the public functions of
that layer as atomic steps over a few small tables (maps keyed by the primary
key), and proves what holds after any interleaving of any number of them. Most of
these functions are one transaction; the item updates, recoveries, relaunches and
agent changes at src/state.rs:1094-1217, the wake of retries at src/state.rs:763-790
and the listing of tabs are several statements that commit one by one, and the
iteration count at src/state.rs:1300-1307 uses two connections. They
too are modelled as atomic, while an automatic recovery and the count it acts on
stay two separate steps. Beside the store the project models the self-contained
algorithms whose correctness is not visible in their bodies.

Each stateful part comes in three layers:

* a *specification* of every transaction as a function from tables to tables
  (`WorkerLease`, `TaskSequences`, `QueueTabs`, `AttemptLedger`);
* a *class* whose methods update the tables statement by statement and are proved
  equal to that specification (`LeaseStore`, `TaskStore`, `QueueStore`,
  `LedgerStore`, and the `Store` of `Relaunch` and `RemoteRecords`);
* *histories*: lists of operations or events, with the theorems about all of them
  (`LeaseTraces`, `SequenceHistory`, `TabHistory`, and the runs in `AttemptLedger`
  and `Relaunch`).

Beside these stand theorems that read each specification back in terms of stored
columns alone, without its helper functions: when an operation succeeds, what it
writes, what it leaves alone, and what a caller can rely on later (`LeaseHolding`,
`TaskNumbers`, `TabEffects`, `WordShapes`, and lemmas of the other modules).

| file | what it covers |
|---|---|
| `Common.dfy`, `Ordering.dfy`, `QueueTypes.dfy` | machine limits, text predicates, `order by` as a sorted list, item statuses |
| `WorkerLease.dfy`, `LeaseStore.dfy`, `LeaseTraces.dfy`, `LeaseHolding.dfy` | the fenced worker lease |
| `TaskSequences.dfy`, `TaskStore.dfy`, `SequenceHistory.dfy`, `TaskNumbers.dfy` | per-repository task numbers |
| `QueueTabs.dfy`, `QueueStore.dfy`, `TabHistory.dfy`, `TabEffects.dfy` | tabs, runs and items |
| `QueueGraph.dfy` | dependency graphs: normalisation, cycles, waves |
| `AttemptLedger.dfy`, `LedgerStore.dfy` | semantic iterations and automatic recovery |
| `Relaunch.dfy` | bounded relaunch with backoff |
| `RemoteRecords.dfy` | import of remote task reports |
| `CivilDate.dfy`, `Rfc3339.dfy` | civil-date arithmetic and timestamp parsing |
| `ShellWords.dfy`, `WordShapes.dfy` | shell quoting and splitting |
| `GuardedOutput.dfy` | the output guard's readers and its decision |
| `ToolOutputStats.dfy` | tool-output telemetry |

## Where the code differs from what one might expect

* Releasing a lease is not final. The same handle's next heartbeat takes the row
  back as long as the item is unfinished (`ReleasedHandleResumes`). What fences a
  worker off is the next acquisition's epoch, and `Fencing` rests on that alone.
* Splitting a joined command line gives the arguments back exactly when none is
  empty and none contains a backslash (`RoundTripIff`). The splitter itself reads
  every nonempty word if it is spelled with backslashes (`EscapedArgumentsReadBack`).
* A rewrite of queue plans is checked plan by plan: it is refused when a plan's place
  is still taken by an item whose own plan comes later (`UpdatePlansAcceptedIff`).
* Reports about one task converge exactly when one terminal report dominates, or
  when there is no terminal report and all show the same version (`ConvergesIff`);
  ties between different terminal statuses, and open reports created after the last
  closing, make the outcome depend on the order of arrival.
* Counting iterations with a snapshot taken before the item's last recovery puts the
  snapshot's status back on the closed ledger row (`StaleCountHistory`). The row is
  still failed exactly when the last such count, if any, saw the item failed
  (`ClosedRowFailedIff`); the cap of three iterations survives in any case.
* A recovery that acts on a count another recovery has overtaken takes the item back
  an iteration and reopens its closed row (`OvertakenRecoveryHistory`). Every
  recovery moves the item one iteration on exactly when none is overtaken
  (`RaisesByOneIff`).
* Start-up does not protect a repository in which a task already holds the largest
  64-bit number: seeding fails there (`SeedingCanFail`, `RestartGoodIff`).
* The timestamp parser accepts days that a month does not have and reads them as
  days of the next month (`ImpossibleDayRollsOver`).
* A task that was numbered without a repository keeps its number when an import gives
  it one, and the import fails exactly when that number is taken there
  (`ImportNumbers`).

## Model

| member | source | states |
|---|---|---|
| QueueTypes.StatusTextAgrees | src/state/queue_types.rs:152-187 | the terminal statuses listed inside the lease SQL are the ones the status type calls terminal, for every stored text |
| Common.StringLeMeans | src/state/db.rs:960 | text is ordered by its first different character, and a prefix comes first |
| LeaseTraces.Fencing | src/state.rs:829-976 | over any interleaving within one item lifetime, a later acquisition has a strictly larger epoch, and from then on every heartbeat or release with an older epoch is refused and changes nothing |
| LeaseTraces.EpochCountsAcquisitions | src/state.rs:876-903 | the stored epoch is the number of successful acquisitions of the item so far |
| LeaseTraces.AcquiredEpoch | src/state.rs:876-917 | the handle an acquisition returns carries that count, so no two handles share an epoch |
| LeaseTraces.StepMovesEpoch | src/state.rs:829-1005 | no operation but a successful acquire creates a lease row or moves its epoch |
| LeaseTraces.OutdatedHandleRejected | src/state.rs:936-944 | a handle whose epoch is not the stored one is refused without effect |
| LeaseTraces.AcquisitionWaitsOut | src/state.rs:863-903 | under a nondecreasing clock, when an epoch is acquired every other handle's last granted expiry has passed, or that handle was released |
| LeaseTraces.MutualExclusion | src/state.rs:854-956 | at no moment do two handles of one item both have a granted, unexpired, unreleased ownership |
| LeaseTraces.BeliefsAreBacked | src/state.rs:927-1001 | what a holder infers from its own replies is either past or is the expiry stored for its epoch |
| LeaseTraces.StepKeepsBacking | src/state.rs:829-1005 | the per-step form of the above, for every kind of event |
| LeaseTraces.RecoveryCountIsTaken | src/state.rs:873-903 | `recovery_count` is the number of expired ownerships taken away, each counted once, whether recovery or an acquire took it |
| LeaseTraces.StepCountsTaken | src/state.rs:982-1005 | one step raises the count by one exactly when it takes an ownership that inspects stale |
| LeaseTraces.ReachableValid | src/state.rs:863-1005 | in every reachable state a lease row has an owner exactly when it has an expiry |
| LeaseHolding.HeartbeatAcceptedIff | src/state.rs:927-956 | the heartbeat of an acquired handle is accepted exactly when the item is unfinished and nobody has acquired it since, whether it was released, recovered or expired meanwhile; it then stores owner, time and `now + ttl`, and a refused one stores nothing |
| LeaseHolding.AcquiredHolds | src/state.rs:881-917 | the handle an acquire returns names the run, item, owner and times of the call, and the row belongs to it |
| LeaseHolding.HoldingLasts | src/state.rs:829-1005 | until the next acquisition the row keeps the handle's epoch and run and has no other owner |
| LeaseHolding.ReleaseAccepted | src/state.rs:958-976 | a holder whose ownership no release or recovery ended can release it, whatever the item's status, and leaves the row ownerless at the same epoch |
| LeaseHolding.ReleaseNeedsOwner | src/state.rs:961-974 | a release with another owner, epoch or run is refused without effect |
| LeaseHolding.InspectReadsColumns | src/state.rs:1052-1092 | each inspection result as a condition on the stored columns and the time |
| LeaseHolding.AcquireGrantedIff | src/state.rs:829-918 | an acquire is granted exactly when the item is in the run, unfinished, not deferred beyond now, and no ownership of it still runs; the handle, the new row and that no other row changes |
| WorkerLease.AcquireFollowsInspect | src/state.rs:829-918 | acquire's outcome and inspect's classify every state alike: same fields when busy, epoch plus one and the recovered flag exactly for stale when acquired, no change otherwise |
| WorkerLease.ActiveIdsAreInspectedActive | src/state.rs:1018-1043 | the bulk query returns exactly the items that inspect calls active |
| WorkerLease.RecoverHitsAreInspectedStale | src/state.rs:986-998 | the recovery statement's `where` clause selects exactly the items that inspect calls stale |
| WorkerLease.RecoverClearsExactlyStale | src/state.rs:982-1005 | recovery changes exactly the stale items, returns their number, keeps their epochs and leaves none stale |
| WorkerLease.ReleasedHandleResumes | src/state.rs:936-976 | a released handle's heartbeat is accepted again exactly when the item is unfinished |
| LeaseStore.Store.Acquire | src/state.rs:829-918 | the transaction's whole effect and reply, with the owner/expiry invariant kept |
| LeaseStore.Store.Heartbeat | src/state.rs:927-956 | the conditional update: accepted exactly for the stored epoch and run, by the owner or on an ownerless row, of an unfinished item |
| LeaseStore.Store.Release | src/state.rs:958-976 | clears owner and expiry only for the stored owner and epoch |
| LeaseStore.Store.RecoverStale | src/state.rs:982-1005 | returns the number of items inspected stale before and leaves none |
| LeaseStore.Store.InspectLease | src/state.rs:1052-1092 | the order of the checks: missing, finished, deferred, then the lease row |
| LeaseStore.Store.ActiveLeaseIds | src/state.rs:1018-1043 | the join returns the items that single-item inspection calls active |
| SequenceHistory.NoReuse | src/state/db.rs:792-852 | over every run of upserts, moves, explicit numbers, deletes and restarts, a number taken from a nonblank repository's counter was never stored there before, deleted tasks included |
| SequenceHistory.CounterPassesHistory | src/state/db.rs:836-852 | the counter has passed every number the repository ever stored |
| SequenceHistory.CountersOnlyGrow | src/state/db.rs:792-885 | counters are never removed and never fall, and every reachable state is good |
| SequenceHistory.StepKeepsGood | src/state.rs:1387-1494 | each operation keeps the unique index, numbers only on task sources, and counters past all numbers |
| SequenceHistory.UpsertKeepsGood | src/state.rs:1387-1480 | the same for an upsert on any of its branches |
| SequenceHistory.AllocatingUpsertSucceeds | src/state/db.rs:815-834 | an upsert that takes its number from the counter is refused only at the 64-bit limit; the unique index never refuses it |
| SequenceHistory.AllocateIsFresh | src/state/db.rs:792-813 | the allocated number is held by no task and the counter it leaves has passed it |
| SequenceHistory.TakenIsNotPassed | src/state/db.rs:792-813 | a number an operation takes is one the counter had not passed |
| SequenceHistory.RestartNumbersEveryTask | src/state/db.rs:942-989 | after scrub, seed and backfill every task source with a repository that SQL calls nonblank has a number, kept if it had one |
| SequenceHistory.RestartNumbersInOrder | src/state/db.rs:954-989 | new numbers exceed all old ones of the repository and rise in creation-time-then-id order |
| SequenceHistory.RestartIsIdempotent | src/state/db.rs:301-314 | a second start-up changes nothing |
| SequenceHistory.RestartKeepsGood | src/state/db.rs:301-314 | start-up keeps the reachable-state invariant and changes only tasks it newly numbers |
| SequenceHistory.RestartFits | src/state/db.rs:854-989 | from any tables the schema allows, start-up establishes that invariant once seeding succeeds, even if the backfill stops early; if seeding fails only the scrub has happened |
| SequenceHistory.RestartGoodIff | src/state/db.rs:854-989 | start-up establishes the invariant exactly when no seeded repository holds the largest 64-bit number, or the counters had already passed every number the scrub leaves |
| SequenceHistory.SeedingCanFail | src/state/db.rs:855-871 | a task with the largest number in a repository without a counter makes start-up fail and leaves the number unpassed |
| SequenceHistory.BackfillOnlyAdds | src/state/db.rs:954-989 | backfill, even cut short, only adds numbers no counter had passed and touches no other task |
| SequenceHistory.BackfillNumbersRow | src/state/db.rs:973-987 | a completed backfill has numbered every task source it selected |
| SequenceHistory.BackfillNumbersRise | src/state/db.rs:954-989 | numbers rise along the rows of one repository |
| SequenceHistory.BackfillRowsListed | src/state/db.rs:954-972 | the query's rows are exactly the unnumbered tasks of nonblank repositories, each once, in order |
| TaskNumbers.UpsertStores | src/state.rs:1387-1480 | every column an upsert stores: creation time kept, repository filled in, and the number by source, stored number, move, explicit number and counter, in that order |
| TaskNumbers.UpsertCounts | src/state.rs:1482-1494 | the stored number's repository gets the larger of its counter and one past the number, and no other counter changes |
| TaskNumbers.UpsertRefusedIff | src/state/db.rs:815-834 | exactly when an upsert is refused on reachable tables: no number left to take, or a kept or given number beyond the limit or held by another task of the repository |
| TaskNumbers.TakenNumber | src/state/db.rs:792-813 | an allocated number is the counter's, or one past every number held where there is no counter, and 1 where none is held |
| TaskNumbers.NewTaskNumbered | src/state/db.rs:792-813 | one new task in a repository stores the counter's number, 1 without a counter, and leaves the counter one past it |
| TaskNumbers.NewTasksCountUp | src/state/db.rs:792-813 | new tasks in a row get consecutive numbers, 1 to k in a new repository |
| TaskNumbers.DeleteRemovesOne | src/state.rs:1622-1643 | a deletion removes its row alone and leaves every counter |
| TaskNumbers.BackfillMovesCounter | src/state/db.rs:973-987 | a completed backfill moves each counter by the number of that repository's tasks it numbered |
| TaskNumbers.RestartCounts | src/state/db.rs:854-989 | start-up leaves each counter at the larger of its old value and the first free number, plus one for each task it newly numbered |
| TaskNumbers.RestartNumbersAreNext | src/state/db.rs:854-989 | the numbers start-up hands out in a repository are the next ones without a gap |
| TaskNumbers.RestartSucceedsIff | src/state/db.rs:854-989 | start-up completes exactly when each repository has numbers left for its waiting tasks |
| TaskStore.Store.AllocateTaskSequence | src/state/db.rs:792-813 | the number is the counter's, or one past every number held and at least 1 without a counter, and the counter ends one past it; fails at the 64-bit limit |
| TaskStore.Store.AdvanceTaskSequenceCounter | src/state/db.rs:836-852 | the counter becomes the larger of itself and one past the number, for nonblank repositories only |
| TaskStore.Store.TaskRecordSequenceForUpsert | src/state/db.rs:815-834 | a stored number is kept unless the repository changes, then the record's own is used, then the counter's |
| TaskStore.Store.UpsertTask | src/state.rs:1387-1480 | the transaction as a whole, rolled back on failure, keeping the reachable-state invariant |
| TaskStore.Store.DeleteTask | src/state.rs:1622-1643 | deletes the row, refuses an unknown id, leaves the counters alone |
| TaskStore.Store.SeedTaskSequenceCounters | src/state/db.rs:854-885 | the loop raises each repository's counter past its largest number and never lowers one |
| TaskStore.Store.BackfillTaskSequences | src/state/db.rs:954-989 | the loop over the query's rows, stopping at the first failed allocation |
| TaskStore.Store.ScrubNonTaskSequences | src/state/db.rs:942-952 | agent and session records lose their number and nothing else changes |
| TaskStore.Store.InitializeSequences | src/state/db.rs:301-314 | a successful start-up leaves the reachable-state invariant, and repeating it is silent |
| TabHistory.ReachableIsSound | src/state/queue_tabs.rs:45-341 | from an empty database every run of operations leaves it empty or with exactly one default tab, one active tab, no run on two tabs, no dangling tab or item, unique positions and slugs |
| TabHistory.StepKeepsSound | src/state/queue_tabs.rs:102-341 | each operation, successful or rolled back, keeps that invariant |
| TabHistory.EmptyStep | src/state/db.rs:650-692 | the first effective operation on an empty database establishes it |
| TabHistory.SoundIsSettled | src/state/db.rs:650-692 | on sound tables ensuring the default tab changes nothing |
| TabHistory.EmptyGetsDefault | src/state/db.rs:650-692 | an empty database gets one active default tab without a run |
| TabHistory.CreateKeepsSound | src/state/queue_tabs.rs:102-135 | creating and activating a tab keeps the invariant |
| TabHistory.DeleteTabKeepsSound | src/state/queue_tabs.rs:209-244 | deleting the active tab hands over to exactly one other tab |
| TabHistory.DropRunKeepsSound | src/state/queue_tabs.rs:246-281 | deleting a run with its items detaches it from every tab |
| TabHistory.DeleteItemKeepsSound | src/state/queue_tabs.rs:288-341 | deleting an item keeps the invariant |
| TabHistory.ReplaceKeepsSound | src/state.rs:273-341 | replacing a queue keeps the invariant |
| TabHistory.AppendKeepsSound | src/state.rs:389-461 | appending items to a run keeps the invariant |
| TabHistory.UpdatePlansMeans | src/state.rs:463-498 | a rewrite of plans gives each item of the run the place and dependencies of the last plan naming it, changes nothing else, and keeps positions distinct |
| TabHistory.ReplanKeepsSound | src/state.rs:463-513 | a rewrite of plans keeps the invariant |
| TabHistory.TouchKeepsSound | src/state.rs:692-761 | the statements that write only a run's own columns keep the invariant |
| TabHistory.ActiveTabFound | src/state/db.rs:736-761 | the query for the active tab finds the only one |
| TabHistory.ReplaceIsMapUpdate | src/state.rs:273-341 | replacing equals a simple map update of tabs, runs and items, and is refused exactly when the tab is unknown or a given item id, position or slug is taken |
| TabHistory.ReplacedSeenFromTabs | src/state.rs:273-341 | afterwards the target tab shows the run with exactly the given items, any other tab loses that run, all other tabs keep run and items, and nothing is left that no tab shows |
| TabHistory.InsertSucceedsIff | src/state.rs:287-330 | the inserts succeed exactly when the rows clash neither with stored rows nor with each other, and then add just those rows |
| TabHistory.SweptIsReplaced | src/state/queue_tabs.rs:360-380 | assigning and then sweeping unreferenced runs and items gives that map update |
| TabHistory.SweepAbsorbsDrop | src/state/queue_tabs.rs:343-380 | dropping the tab's previous run first makes no difference to the sweep |
| TabHistory.RetainKeepsTheRest | src/state/db.rs:1201-1209 | the dependencies left are all those on other items, in their order and as often as before |
| TabHistory.DeleteItemGraph | src/state/queue_tabs.rs:288-325 | the run's dependency graph loses the item as node and as target and nothing else |
| TabHistory.DeleteItemKeepsGraph | src/state/queue_tabs.rs:288-341 | a closed graph stays closed, an acyclic one acyclic, and the run goes exactly when it is empty |
| TabHistory.DeleteItemSparesOtherRuns | src/state/db.rs:1186-1219 | no other run's dependencies change |
| TabEffects.SelectActivates | src/state/queue_tabs.rs:137-165 | selecting succeeds exactly for an existing tab, makes it the only active one and changes no other column |
| TabEffects.CreateAddsActiveTab | src/state/queue_tabs.rs:102-135 | creating succeeds exactly for a new id and adds an empty active tab; the others only stop being active |
| TabEffects.RemoveTabHandsOver | src/state/queue_tabs.rs:209-244 | deleting succeeds exactly for a tab other than the default one; the successor of an active tab is the one with a run, else the default, else the oldest, else the smallest id |
| TabEffects.FirstTabShowsLatestRun | src/state/db.rs:650-703 | the first default tab shows a run with the latest update time |
| TabEffects.FallbackBecomesActive | src/state/db.rs:650-721 | with a default but no active tab, the same order decides which becomes active |
| TabEffects.RepairKeepsFirst | src/state/queue_tabs.rs:45-84 | of several tabs with one run the default one, else the oldest, else the smallest id keeps it, and no other column changes |
| TabEffects.AppendAddsRows | src/state.rs:389-461 | appending succeeds exactly for an existing run and free keys, stores each row as given and moves the run's update time |
| TabEffects.UpdatePlansAcceptedIff | src/state.rs:463-498 | a rewrite of plans is accepted exactly when each plan in turn finds its place free of the run's other items |
| TabEffects.RearrangeTouchesRun | src/state.rs:499-513 | an accepted rewrite moves the run's update time; tabs never change |
| TabEffects.TouchMovesTime | src/state.rs:692-761 | writing a run's own columns moves its update time and nothing else |
| TabEffects.RemoveRunDetaches | src/state/queue_tabs.rs:246-281 | deleting a run removes it and its items, clears it from tabs and leaves all else |
| TabEffects.RemoveItemLeavesRest | src/state/queue_tabs.rs:288-341 | deleting an item changes at most dependencies of its run's other items; tabs and runs change only if none is left |
| TabEffects.ReplaceStoresRows | src/state.rs:273-341 | replacing stores each given row and the run's record, and changes no tab column but the run |
| QueueStore.RepairKeepsOneTab | src/state/queue_tabs.rs:45-84 | on any tables, even damaged ones, the repair leaves each shown run on exactly one of the tabs that showed it |
| QueueStore.RepairSeparates | src/state/queue_tabs.rs:45-84 | after the repair no two tabs share a run |
| QueueStore.DuplicateRows | src/state/queue_tabs.rs:45-84 | a row of the repair query is a repeat exactly when an earlier tab in its order has the same run |
| QueueStore.DuplicateTabIds | src/state/queue_tabs.rs:45-84 | the loop with its set of seen runs collects exactly the tabs whose run stands on an earlier row |
| QueueStore.Store.DeduplicateTabRuns | src/state/queue_tabs.rs:45-84 | the loop's updates clear exactly those tabs |
| QueueStore.Store.EnsureDefaultTab | src/state/db.rs:650-721 | creates the default tab with the latest run, or activates the fallback tab, then repairs |
| QueueStore.Store.CreateAndActivateTab | src/state/queue_tabs.rs:102-135 | the new tab is the only active one; an existing id is refused |
| QueueStore.Store.ActivateTab | src/state/queue_tabs.rs:137-165 | on sound tables succeeds exactly for an existing tab, which is then the only active one |
| QueueStore.Store.RemoveQueueTab | src/state/queue_tabs.rs:209-244 | the default tab is refused; deleting the active tab activates the fallback |
| QueueStore.Store.InsertQueueItems | src/state.rs:409-447 | inserts in order until a key is taken |
| QueueStore.Store.AppendQueueItems | src/state.rs:389-461 | an unknown run is refused; otherwise all rows are inserted and the run's update time moves, or nothing changes |
| QueueStore.Store.UpdateItemPlans | src/state.rs:463-513 | the loop of plan updates in one transaction, rolled back when a position is taken |
| QueueStore.Store.AssignRunToTab | src/state/queue_tabs.rs:183-207 | the tab gets the run and every other tab loses it |
| QueueStore.Store.ReplaceQueue | src/state.rs:273-341 | the transaction as a whole, rolled back on failure |
| QueueStore.Store.DropQueueRun | src/state/queue_tabs.rs:246-281 | the run, its items and its place on tabs are gone |
| QueueStore.Store.DeleteItemIfExists | src/state/queue_tabs.rs:288-341 | returns the deleted row, cleans references, and drops the run if empty |
| QueueStore.Store.RemoveDependencyReferences | src/state/db.rs:1186-1219 | the loop rewrites exactly the rows of the run that mention the item |
| QueueStore.RetainOthers | src/state/db.rs:1201-1209 | the filter over one dependency list |
| QueueGraph.DependencyGraphCycle | src/webapp/queue_graph.rs:304-347 | the search reports a cycle exactly when the graph has one, and what it reports is a cycle of the graph |
| QueueGraph.Visit | src/webapp/queue_graph.rs:319-347 | one depth-first visit either closes a real cycle or extends a topological order of what it visited |
| QueueGraph.VisitDependencies | src/webapp/queue_graph.rs:337-343 | the loop over one node's dependencies |
| QueueGraph.TopologicalIsAcyclic | src/webapp/queue_graph.rs:304-317 | a graph whose nodes have a topological order has no cycle |
| QueueGraph.WaveIndex | src/webapp/queue_graph.rs:362-379 | the memoised recursion returns a wave consistent with everything memoised before |
| QueueGraph.DependencyWaves | src/webapp/queue_graph.rs:362-379 | the maximum over the dependencies' waves, plus one |
| QueueGraph.WaveIndices | src/webapp/queue_graph.rs:349-360 | every item gets a wave |
| QueueGraph.WaveIsLongestChain | src/webapp/queue_graph.rs:362-379 | an item's wave is the length of its longest dependency chain |
| QueueGraph.BuildReferences | src/webapp/queue_graph.rs:231-239 | a reference resolves to the item with that id, otherwise to the first item with that slug |
| QueueGraph.NormalizeItem | src/webapp/queue_graph.rs:240-251 | one item's loop with its set of seen targets |
| QueueGraph.NormalizeKeepsTargets | src/webapp/queue_graph.rs:253-302 | the kept dependencies are distinct and are exactly the other items that a nonblank reference resolves to |
| QueueGraph.NormalizeKeepsOrder | src/webapp/queue_graph.rs:240-251 | the kept dependencies stand in the order of the first reference to each |
| QueueGraph.ResolveMeans | src/webapp/queue_graph.rs:231-239 | a text resolves to exactly the item with that id, or, if there is none, the first with that slug |
| QueueGraph.NormalizedDependsIff | src/webapp/queue_graph.rs:227-302 | an item's normalised dependencies are exactly the other items that its nonblank references mean, and nothing else about it changes |
| QueueGraph.WavesFollowReferences | src/webapp/queue_graph.rs:349-379 | an item that refers to another is on a later wave |
| QueueGraph.FinishNode | src/webapp/queue_graph.rs:344-346 | marking a node visited after its dependencies extends the topological order |
| QueueGraph.NormalizedIsClosed | src/webapp/queue_graph.rs:227-302 | after normalisation every dependency is an item of the run, and never the item itself |
| QueueGraph.NormalizedIsFixpoint | src/webapp/queue_graph.rs:227-302 | normalising again changes nothing |
| QueueGraph.NormalizeGraph | src/webapp/queue_graph.rs:157-198 | a graph run is refused for a cycle exactly when its normalised graph is cyclic, and otherwise every item has its wave |
| AttemptLedger.AtMostThreeIterations | src/webapp/queue_worker_recovery.rs:60-80 | under every interleaving of writes, counts with stale snapshots and delayed recoveries the ledger holds exactly iterations 1 to n, n at most three |
| AttemptLedger.SyncShows | src/state.rs:1835-1889 | a projection leaves the iteration's row with the item's status, the trimmed message of a failure, the finish time of a terminal status, and the agent and start it had, and no other row changed |
| AttemptLedger.TrimIsTrimmed | src/state.rs:1846-1850 | the failure text is the message without the blanks at both ends |
| AttemptLedger.WritersStore | src/state.rs:1094-1217 | every column that updates, relaunches, agent changes, recoveries and unprojected writes leave in the item |
| AttemptLedger.CountIsRows | src/state.rs:1300-1307 | the count of started iterations is the number of ledger rows, however stale the snapshot |
| AttemptLedger.RowsNeverFall | src/state.rs:1835-1938 | the ledger never loses an iteration |
| AttemptLedger.LedgerMatchesItem | src/state.rs:1824-1942 | if each recovery raises `recovery_attempts` by one, whatever is written between a count and its recovery, the keys are exactly 1 to `recovery_attempts` + 1 and the count is the current iteration |
| AttemptLedger.RaisesByOneIff | src/webapp/queue_worker_recovery.rs:60-80 | each recovery raises `recovery_attempts` by one exactly when no other recovery comes between it and the count it acts on |
| AttemptLedger.RecoveriesRise | src/state.rs:1127-1155 | the stored attempts never fall and stay the same exactly while nothing recovers |
| AttemptLedger.ClosedRow | src/state.rs:1127-1155 | after a recovery the closed iteration's row is the failed one with every later count from a snapshot of that iteration projected onto it, and nothing else ever writes it |
| AttemptLedger.ClosedIterationStays | src/state.rs:1127-1155 | without such counts no later write, count or recovery alters any modelled column of the closed row |
| AttemptLedger.LaterSnapshotsAreHarmless | src/state.rs:1300-1307 | a snapshot taken after the recovery is never at the closed iteration |
| AttemptLedger.ClosedRowFailedIff | src/state.rs:1300-1307 | the closed row is still failed exactly when the last count from a snapshot of that iteration, if any, saw the item failed |
| AttemptLedger.RecoveryCloses | src/state.rs:1891-1938 | the row a recovery closes holds its failure message and finish time and keeps its start time |
| AttemptLedger.RecoveryOpensNext | src/state.rs:1127-1155 | a recovery that acts on the number of rows closes the item's iteration, opens the one after the newest, and leaves all other rows alone |
| AttemptLedger.StaleCountRewritesRow | src/state.rs:1846-1885 | such a count puts the snapshot's status on the row, with the finish time kept unless the snapshot is terminal, and touches no other row |
| AttemptLedger.StaleCountHistory | src/state.rs:1300-1307 | a history in which a closed row is running again: count, recovery, count with the first snapshot |
| AttemptLedger.OvertakenRecoveryHistory | src/webapp/queue_worker_recovery.rs:65-78 | a history in which a recovery on an overtaken count takes the item from iteration 3 back to 2 and reopens that row |
| LedgerStore.Store.SyncAttempt | src/state.rs:1835-1889 | insert or update of the iteration's row: start time kept, agent and finish time kept when the item has none |
| LedgerStore.Store.FinishAttempt | src/state.rs:1891-1938 | the iteration's row becomes failed with the given message and time |
| LedgerStore.Store.UpdateItem | src/state.rs:1094-1125 | the item has the given status, message, attempts and retry time and the given agent or its old one; the row of its iteration shows it and no other row changes |
| LedgerStore.Store.ScheduleItemRecovery | src/state.rs:1127-1155 | closes the current iteration before opening the next |
| LedgerStore.Store.IterationsStartedBy | src/state.rs:1300-1307 | projects the snapshot, then counts |
| LedgerStore.Store.ScheduleAutoRecovery | src/webapp/queue_worker_recovery.rs:60-80 | from any item and snapshot a history can lead to, recovery is refused exactly when three iterations have started, and otherwise closes the item's iteration and opens the one after the newest |
| Relaunch.AtMostThreeRelaunches | src/webapp/queue_worker_closeout.rs:136-190 | from zero the stored attempts count the scheduled relaunches, there are never more than three, and the next call fails item and run |
| Relaunch.BackoffIsEnforced | src/state.rs:854-859 | after a relaunch is scheduled no acquire of the item succeeds before its retry time unless some statement gives the item another retry time or inserts it anew; writes that keep the time do not help |
| Relaunch.BackoffEnds | src/state.rs:854-917 | while the item stays unfinished and unheld, a named worker acquires it exactly from the retry time on: one, five or ten minutes after the relaunch |
| Relaunch.RetryTimeStays | src/state.rs:829-1203 | over any events that do not rewrite it, the item's retry time stays, or the item is gone |
| Relaunch.UntouchedItemStays | src/state.rs:829-1005 | no lease operation writes an item row |
| Relaunch.Store.RelaunchItem | src/webapp/queue_worker_closeout.rs:136-190 | either one more attempt, a retry time one to ten minutes ahead and a running run, or item and run failed for good, which happens exactly without a launcher or with the attempts used up |
| RemoteRecords.ConvergesIff | src/app/remote_task_records.rs:611-622 | for a task that is new or open, all orders of its reports end alike exactly when one terminal report is latest, ties agree with it and no open report was created after it, or there is no terminal report and all show the same status and time |
| RemoteRecords.SettledEndsThere | src/app/remote_task_records.rs:510-522 | a dominating report's status and time win wherever it stands and however often reports repeat |
| RemoteRecords.NoTerminalEndsWithLast | src/app/remote_task_records.rs:510-522 | without terminal reports the last report is shown |
| RemoteRecords.ImportsAgree | src/app/remote_task_records.rs:91-111 | two imports that bring a task the same reports in any order and repetition end with the same status and time |
| RemoteRecords.SyncFoldsEachTask | src/app/remote_task_records.rs:91-111 | an import shows for each task the fold of that task's own selected reports, and imported plus skipped is the number received |
| RemoteRecords.ImportCountsWanted | src/app/remote_task_records.rs:91-111 | imported is the number of task-flow reports from the wanted repository, and the rest are skipped |
| RemoteRecords.ImportTakesWanted | src/app/remote_task_records.rs:91-111 | exactly the tasks that wanted reports are about gain a record or change |
| RemoteRecords.ImportStores | src/app/remote_task_records.rs:488-525 | every column one report leaves: title, source, description, folder, agent, repository, creation time, status and update time |
| RemoteRecords.ImportMarks | src/app/remote_task_records.rs:542-609 | the import's own metadata entries |
| RemoteRecords.ImportCompletes | src/app/remote_task_records.rs:91-111 | an import always completes while the local counter has a number left for each report and no stored number is without a repository |
| RemoteRecords.SyncKeepsMetadata | src/app/remote_task_records.rs:526-565 | apart from the import's own keys no metadata entry is lost, and each holds what the latest report with that key said |
| RemoteRecords.ImportNumbers | src/app/remote_task_records.rs:566-568 | an imported task keeps its local number; otherwise it takes the local counter's, which no task holds; it is refused only at the counter's limit or when a number stored without a repository is taken |
| RemoteRecords.CanonicalRecord | src/app/remote_task_records.rs:483-570 | the record edited in place equals the declarative merge of report and local record |
| RemoteRecords.FillMissing | src/app/remote_task_records.rs:532-540 | local entries fill only keys the report lacks |
| RemoteRecords.Store.SyncReports | src/app/remote_task_records.rs:91-111 | the import loop with its two filters; the first failing upsert ends it and what was stored stays |
| CivilDate.SuccessorIsNextNumber | src/app/codex_sessions.rs:736-744 | each valid date's successor, by the Gregorian rules, has exactly the next day number |
| CivilDate.EpochIsDayZero | src/app/codex_sessions.rs:736-744 | 1970-01-01 is day zero |
| CivilDate.DaysAreStrictlyMonotone | src/app/codex_sessions.rs:736-744 | a date is earlier exactly when its number is smaller, for all valid dates of any year |
| CivilDate.CountingIsInverse | src/app/codex_sessions.rs:736-744 | the date reached by counting n days from the epoch has number n |
| CivilDate.NumberedByCounting | src/app/codex_sessions.rs:736-744 | every valid date from 1970 on is the one reached by counting its number of days |
| CivilDate.ClosedForm | src/app/codex_sessions.rs:736-744 | the era arithmetic with truncating division equals a count of leap years and month lengths |
| Rfc3339.LayoutReadsBack | src/app/codex_sessions.rs:704-734 | a timestamp in the layout of section 5.6 of RFC 3339 is parsed into its fields |
| Rfc3339.AcceptedShape | src/app/codex_sessions.rs:704-734 | whatever is accepted has a `T`, ends in `Z`, and has all fields in range and no day before the epoch |
| Rfc3339.TimestampReadsBack | src/app/codex_sessions.rs:704-734 | a valid UTC timestamp, with or without a fraction, is read as its seconds since the epoch, and refused exactly when it is before 1970 |
| Rfc3339.ParsedOrderIsTimeOrder | src/app/codex_sessions.rs:704-734 | outside leap seconds timestamps are read in strictly increasing order of time, and equal only for the same instant |
| Rfc3339.ImpossibleDayRollsOver | src/app/codex_sessions.rs:720-724 | a day the month does not have is read as a day of the next month |
| ShellWords.RoundTripIff | src/agents/render_state_tests.rs:314-355 | splitting a joined command gives back the arguments exactly when none is empty and none contains a backslash |
| ShellWords.SplitWords | src/agents/render_state_tests.rs:325-355 | the loop over its four variables computes the splitter's word list, which never contains an empty word |
| ShellWords.ScanJoined | src/agents/render_state_tests.rs:318-355 | joined arguments are read one after the other, whatever words came before |
| ShellWords.ScanLosesBackslashes | src/agents/render_state_tests.rs:331-338 | a text with a backslash yields strictly fewer backslashes than it has |
| WordShapes.LineReadsBack | src/agents/render_state_tests.rs:325-355 | every line of words spelled from bare, escaped and quoted pieces, separated by blanks, is read as the words' meanings, without those that mean nothing |
| WordShapes.EscapedArgumentsReadBack | src/agents/render_state_tests.rs:331-338 | with a backslash before every character all nonempty arguments are read back, backslashes included |
| GuardedOutput.ReadGuarded | src/lib.rs:852-890 | however the stream is cut into reads, the excess flag is set exactly when the whole stream is over a limit; the kept bytes are the prefix of bytes read up to the limit; without excess everything is returned with exact counts; at most one buffer is read past the limit |
| GuardedOutput.CountNewlines | src/lib.rs:869-873 | the inner loop adds the newlines of one buffer |
| GuardedOutput.LinesCountStarts | src/lib.rs:892-901 | the line count is the number of positions where a line begins |
| GuardedOutput.LinesGrow | src/lib.rs:882-886 | reading on never lowers the line count, so stopping early is safe |
| GuardedOutput.VerdictIsAboutWholeStreams | src/lib.rs:789-825 | for every interleaving of the two readers, the shared flag and the kill, the command is blocked exactly when both whole streams together are over a limit, and otherwise both are passed on complete |
| GuardedOutput.StepConsistent | src/lib.rs:789-890 | each event keeps readers, pending bytes and flag consistent with what the command would have written |
| GuardedOutput.ReachableConsistent | src/lib.rs:789-890 | the same for every reachable state |
| ToolOutputStats.AfterIsWhole | src/app/codex_metadata.rs:230-243 | after any sequence of samples the kept ones are the first five of the stable descending sort of all, and the totals are sums over all and over the large ones |
| ToolOutputStats.KeptAreLargest | src/app/codex_metadata.rs:238-241 | five samples are kept, or all if fewer, in descending order, and no other is larger than a kept one |
| ToolOutputStats.LargeAreCounted | src/app/codex_metadata.rs:232-237 | large calls are the outputs of at least 5000 tokens |
| ToolOutputStats.SampleOfLine | src/app/codex_sessions.rs:179-200 | the k-th sample is that of the k-th output inside the window that states its size |
| ToolOutputStats.CommandIsLatestCall | src/app/codex_sessions.rs:370-392 | a sample names the latest earlier call with its id, and is unknown without one |
| ToolOutputStats.InsertIntoPrefix | src/app/codex_metadata.rs:238-241 | forgetting all but the first five before adding a sample loses nothing of the first five after it |
| ToolOutputStats.StableSortIsStable | src/app/codex_metadata.rs:239-240 | the sort descends and keeps the order among equal token counts |
| ToolOutputStats.StableSortIsUnique | src/app/codex_metadata.rs:239-240 | those two properties determine the sorted list |
| ToolOutputStats.Stats.AddSample | src/app/codex_metadata.rs:231-242 | the five fields after one sample |
| ToolOutputStats.Stats.CollectToolOutput | src/app/codex_sessions.rs:356-393 | a call is remembered in or outside the window; an output counts only inside it and is attributed to its remembered call |
| ToolOutputStats.Stats.CollectSession | src/app/codex_sessions.rs:179-200 | a session's lines add exactly its counted outputs, each with the latest call of its id, to what earlier sessions left |

## Left out

- Locking: each transaction is one atomic step. Busy timeouts, retries on a locked database and the states between the separately committed statements of one function are not modelled.
- Table sets: leases, tasks, tabs and the attempt ledger are separate stores. A delete's cascade from item to lease row is an event of `LeaseTraces`, not a consequence of `QueueStore`.
- Item rewrites: `LeaseTraces` has one event for every statement that writes an item's status or retry time (update, relaunch, recovery, wake, continue), and `AttemptLedger` one for those that leave the ledger alone (wake, continue); which items each of them selects is not part of it.
- Counter repair: the one-off migration at src/state/db.rs:900-929 resets history claims; histories start after it.
- Lease lifetimes: an item that is deleted and inserted again starts over at epoch one; the lease theorems are about one lifetime of at most 2^63 - 1 events.
- Descriptive columns: prompts, labels, messages of runs, log paths, agent commands, bundle paths and topics carry no logic.
- QueueTabs.LatestRun: two runs with the same update time are ordered by id, where SQL leaves the order open.
- TaskStore.Store.AllocateTaskSequence: when a number cannot be read back at the 64-bit limit the function fails without counting; SQLite's conversion of the counter to a float is not followed further, and neither is the counter row inserted before the failure, because every caller that commits has that row already.
- TaskStore.Store.BackfillTaskSequences: requires seeded counters, as start-up provides.
- TaskStore.Store.UpsertTask: creation times above the signed 64-bit range, which fail to bind, are not modelled.
- LedgerStore.Store.UpdateItem: the retry time's range is not checked.
- Relaunch.Store.RelaunchItem: the texts of the messages and the error for a retry time beyond the signed 64-bit range are not modelled; a missing launcher is a parameter.
- QueueGraph.NormalizeGraph: diagnostics, plan metadata and wave-conflict warnings are not modelled, nor is the check for blank or repeated ids that runs first.
- RemoteRecords.CanonicalRecord: metadata is an object already parsed; text that is not an object counts as none, as in the code.
- RemoteRecords.Store.SyncReports: fetching and parsing the reports, and the lock retries of the upsert, are outside.
- CivilDate.DaysAreStrictlyMonotone: years are unbounded integers; overflow for years beyond about 10^16 is not modelled.
- GuardedOutput.ReadGuarded: byte and line counts are unbounded, where the program's are machine words.
- GuardedOutput.VerdictIsAboutWholeStreams: assumes no read fails; exit codes and the message are left out.
- ToolOutputStats.Stats.AddSample: totals are unbounded, where the program's are 64-bit.
- ToolOutputStats.Stats.CollectSession: lines are already decoded; the token-usage totals of the same loop are plain sums.
- Queue admission, the status reducer, the conditions of stop and continue requests, agents, events, topics and terminal metadata: simple updates or decisions over the same tables that would add easy members.
- Processes, git, terminals, HTTP, rendering and command-line parsing: input and output.
