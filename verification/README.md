# Verification of the tq action queue

A Dafny model of the queue behind `tq`: projects, tasks, actions, dependency edges, schedules, the
trigger-maintained counts and search tables, the event log, and the worker loop on top of them. The
command to verify it is `dafny verify dfyconfig.toml` (Dafny 4.11).

The state of the database is one value, `Types.Store`. Every store operation is a function on that value
that returns the new store and an answer; on an error it returns the old store, so each operation is one
atomic step. `DatabaseObject.DB` is the database as an object with one field per table: its methods run
the loops, triggers and rollbacks of the program and are proved to produce exactly the state and answer of
the corresponding function; every operation of the store interface keeps `Valid()`, which is the invariant
below with the current count trigger installed, and only the parts of operations (row writes, event emission,
rollback, transaction bodies, the shared rollback to pending) run in between. `WorkerService` does the same for the loops of the worker. Everything promised
about the queue is then proved about the functions. For each operation one lemma, its name ending in `Columns`, `Attempt`,
`Reaped` or `Iff`, says in terms of the stored columns, and of no other operation, when it is accepted and what it writes.

- `types.dfy`, `sets.dfy`, `metadata.dfy`: rows, ids in order, and how Go and SQLite read metadata.
- `graph.dfy`, `dependencies.dfy`: reachability, cycles, edge batches, the dispatch gate.
- `rows.dfy`, `history.dfy`: row writes with their triggers, the invariants, the replayed event log.
- `actions.dfy`, `bulk.dfy`, `tables.dfy`: the operations, single and bulk.
- `drain.dfy`: claims in order, no deadlock, topological drain, what a drain finishes from any state.
- `dispatch.dfy`, `reaper.dfy`, `schedules.dfy`, `firing.dfy`, `worker.dfy`: the worker.
- `runs.dfy`, `gates.dfy`, `limits.dfy`: every operation as a step, what holds after any sequence of steps, which
  steps close a gate, break a slot cap or give a schedule a second active action.
- `retry.dfy`, `migrate.dfy`: transactions under lock failures, and the repair of derived tables.
- `database.dfy`, `service.dfy`: the imperative side.

The invariant `History.Inv` says: counts equal a recount, search rows equal a projection, references are
sound, ids are below their counters, action edges are acyclic, and the log of every action is an unbroken
legal history that ends in its status. `History.Evolves` says what one step may do to the rest.

The clock, worker launches, job state files, the cron library and injected failures are parameters, given
as functions so that every behaviour of theirs is covered. Durations and clocks are nanoseconds, stored
timestamps whole seconds. Error and reason texts are shortened to fixed strings.

Where the code and its documentation disagree the model follows the code:

- The state machine in README.md:118 and the guard in cmd/cancel.go:41 let a failed action be cancelled.
  `markTerminal` turns that into a no-op that reports success (`Actions.CancelEffectiveIff`).
- db/action.go:463-468 and docs/dispatch.md say running rows with the legacy mode are left alone by the
  migration. The statement in db/db.go:348-353 has no status filter (`Migrate.RowUntouchedIff`).
- db/action.go:947-949 says BulkMarkDone mirrors MarkDone, and db/action.go:1007-1021 stops keeping results at the
  first row whose metadata does not parse (`Bulk.UnkeptOutputStopsOthers`, `Bulk.BulkDoneIsFold`).
- docs/dispatch.md:32 says an action that would exceed its cap goes back to pending. dispatch/execute.go logs a failing
  MarkFailed and goes on, which can leave an unadmitted action running (`Dispatch.AttemptWithinCapIff`), and an empty `mode` is admitted but
  counted in no pool (`Dispatch.EmptyModeUncounted`).
- db/db.go:439-441 relies on the triggers once the counts table has rows. A migration that stops between
  recreating the trigger and the rebuild leaves drifted counts for good (`Migrate.InterruptedRebuildStays`).
- `ResetToPending` accepts every status; only the command guards it (`Actions.RawResetLegalIff`).
- An unreadable metadata text on one running or active row fails the counting and listing queries, so it
  stops admission, reaping, or the schedule check as a whole; the model keeps that.

## Model

| member | source | states |
|---|---|---|
| `Graph.ActionReachable` | db/action_dependency.go:148-171 | the deduplicating worklist query terminates on every finite edge set and answers true iff a path of action edges leads from start to target |
| `Graph.NewEdgeAcyclicIff` | db/action_dependency.go:148-151 | adding an edge to an acyclic graph closes a cycle exactly when its owner was already reachable from the blocker |
| `Graph.SubsetAcyclic` | db/action_dependency.go:185-188 | deleting edges never creates a cycle |
| `Graph.ReachesWithNewEdge` | db/action_dependency.go:148-163 | what becomes reachable when one edge is added, both directions |
| `Dependencies.GateAgreesWithListing` | db/action_dependency.go:49-70 | in every database state the NOT EXISTS gate admits an action iff each dependency the listing shows is satisfied |
| `Dependencies.ListingShows` | db/action_dependency.go:233-282 | the listing has an entry for exactly the stored dependencies, each with the status text of its blocker, empty when the blocker is gone |
| `Dependencies.EarlierEdgeHarmless` | db/action_dependency.go:107-142 | an edge added earlier in the same batch changes the verdict on no later edge of the batch |
| `Dependencies.InsertDepsExact` | db/action_dependency.go:92-146 | a batch is accepted iff every edge alone would be, and then adds exactly the requested edges, duplicates ignored |
| `Dependencies.BatchAcceptedIff` | db/action_dependency.go:107-146 | a batch is refused exactly when a blocker is missing or the graph with all its edges would have a cycle |
| `Dependencies.CircularIff` | db/action_dependency.go:113-125 | an edge is refused as circular exactly when it would close a cycle on top of the edges so far |
| `Dependencies.FirstRefusal` | db/action_dependency.go:107-142 | a refused batch answers with the reason of its first edge that is refused on its own: the owner itself, a missing blocker, a cycle, or an unknown kind |
| `Dependencies.AddDepsExact` | db/action_dependency.go:72-90 | adding is all or nothing: the requested edges and no others, or an unchanged store |
| `Dependencies.ReplaceDepsExact` | db/action_dependency.go:173-209 | a replace is accepted exactly when the blockers exist and the graph with the new edges in place of the owner's old ones is acyclic; it then leaves exactly the requested edges on the owner and writes nothing else but the log, and a refused one changes nothing |
| `Dependencies.ReplaceDepsAnnounced` | db/action_dependency.go:173-209 | a replace announces what it cleared, then what it added |
| `Dependencies.AddDepsAdvances` | db/action_dependency.go:75-90 | adding edges keeps every invariant and edits only the owner's edges |
| `Dependencies.ReplaceDepsAdvances` | db/action_dependency.go:173-209 | replacing edges keeps every invariant and edits only the owner's edges |
| `Dependencies.ClearDepsAdvances` | db/action_dependency.go:211-231 | clearing edges keeps every invariant |
| `Rows.InsertRowCore` | db/schema.sql:75-81 | the insert triggers keep counts equal to a recount and search rows equal to a projection |
| `Rows.PutRowCore` | db/schema.sql:83-92 | status changes and task reassignments keep counts and search rows exact |
| `Rows.DeleteRowCore` | db/schema.sql:61-66 | deleting an action keeps counts exact and leaves no edge to or from it |
| `Rows.DeleteTaskRowCore` | db/schema.sql:54-59 | deleting a task with no rows left under it purges its edges and counts and keeps every invariant |
| `History.MoveReplays` | db/action.go:330-332 | a status written together with its announcing event keeps the log of every action an unbroken legal history |
| `History.MoveAdvances` | db/action.go:236-238 | an announced transition of one row keeps every invariant and never leaves `done` |
| `Actions.LegalChangesHappen` | README.md:97-130 | every status change the replayed history accepts is made by one of the operations, so the history is no wider than the queue |
| `Actions.InsertActionOkIff` | db/action.go:133-178 | inserting with dependencies succeeds iff status and task are valid and every blocker exists; a new action is never circular |
| `Actions.InsertActionColumns` | db/action.go:133-178 | an accepted insert writes one row under the returned id with the title, task, metadata, status, dispatch_after and work dir asked for and no result or timestamps, adds exactly the requested edges and announces both; a refused one writes nothing |
| `Actions.MergeMetadataColumns` | db/action.go:611-636 | a merge succeeds exactly on an existing row whose metadata is an object or empty, and overlays the updates on that one column |
| `Actions.MarkTerminalColumns` | db/action.go:288-334 | a mark of an active action writes its status, the result text and the completion second and no other column; on a finished one it writes nothing but a lost done output |
| `Actions.DoneKeepsOutput` | db/action.go:288-358 | a non-empty result ends as the result, or beside the failure under successful_result with every other key kept; refused only for metadata that does not parse |
| `Actions.CancelEffectiveIff` | db/action.go:300-303 | the cancel command changes something exactly on pending, running and dispatched actions; on a failed one it reports success and does nothing |
| `Actions.DeferWindow` | db/action.go:557-567 | the stored second is later than the current one and within a second of the requested delay |
| `Actions.DeferExact` | db/action.go:557-567 | a whole-second delay is stored to the second; a fractional one as the first second after the delay |
| `Actions.MarkDispatchedColumns` | db/action.go:360-383 | handing over to the remote side succeeds exactly on a running action and writes its status only |
| `Actions.DeferColumns` | db/action.go:557-609 | a deferral succeeds exactly on a running action; it clears the start second and stores the second to wait for |
| `Actions.ResetColumns` | cmd/reset.go:17-36 | the guarded reset succeeds exactly on failed and cancelled actions; it clears the start second and dispatch_after and keeps result and completion second |
| `Actions.RawResetLegalIff` | db/action.go:548-609 | the unguarded store reset keeps the history legal exactly from running, failed and cancelled |
| `Actions.CliResetAdvances` | cmd/reset.go:17-36 | the guarded reset keeps every invariant and keeps `done` absorbing |
| `Actions.MarkTerminalAdvances` | db/action.go:288-334 | a terminal mark keeps every invariant; no event is emitted for a no-op |
| `Actions.UpdateActionAdvances` | db/action.go:680-766 | amending and reassigning an action keeps counts, search rows and history exact |
| `Actions.UpdateActionColumns` | db/action.go:680-766 | exactly when an amendment is accepted; title, task, work dir and result are then each the given value if one was given and the old one otherwise, metadata is the old object overlaid with the new keys, every other column and row is kept, and a refused one writes nothing |
| `Bulk.BulkFailedIsFold` | db/action.go:902-945 | BulkMarkFailed equals MarkFailed applied to each update in order, event log included |
| `Bulk.BulkDoneIsFold` | db/action.go:947-1023 | BulkMarkDone leaves the tables, and the log of every action, that MarkDone in order leaves exactly when every open row of the batch is named before the first lost output that cannot be stored; both succeed exactly when there is no such output |
| `Bulk.BulkMissingUnchanged` | db/action.go:918-921 | with any id missing a bulk mark changes nothing |
| `Bulk.MergeCommutes` | db/action.go:970-1021 | marking other rows commutes with merging metadata into a terminal row |
| `Bulk.BulkDoneKeepsOutput` | db/action.go:950-1023 | every row after a bulk mark, in success and in error: done rows stay, open rows are done with their first output, failed and cancelled rows keep the last non-empty output reported before the first one that cannot be stored; success exactly when there is none |
| `Bulk.UnkeptOutputStopsOthers` | db/action.go:1007-1021 | inputs on which both promises fail: one row with unparsable metadata makes the batch drop the output of a later failed row that MarkDone alone keeps, and finish an open row that the updates in order do not reach |
| `Bulk.BulkMergeAdvances` | db/action.go:638-678 | a bulk merge keeps every invariant, whether it commits or not |
| `Bulk.MergeBatchOk` | db/action.go:648-668 | a bulk merge into existing rows with parsable metadata commits |
| `Bulk.BulkMergeIsFold` | db/action.go:638-678 | a bulk merge equals the single merges in order, log included, when all succeed; otherwise it answers with their first error and changes nothing |
| `Tables.CloseGuardExact` | db/task.go:111-132 | closing a task is refused exactly when it has an enabled schedule or a pending, running or dispatched action, although the guard reads only the counts table |
| `Tables.UpdateTaskColumns` | db/task.go:110-200 | exactly when a task update is accepted, the close guard read off schedules and actions; each column is then the given value or the old one, metadata overlaid, a given status announced with its reason |
| `Tables.ProjectColumns` | db/project.go:54-74 | project names are unique, a new project is focused, the focus switch writes that column of one row |
| `Tables.InsertTaskColumns` | db/task.go:74-95 | a task is created open under an existing project with the columns asked for |
| `Tables.CascadeExact` | db/project.go:82-100 | a cascading delete removes exactly the project's rows and the edges touching them, and keeps every invariant |
| `Tables.CascadeRowByRow` | db/project.go:82-100 | row by row: a task goes iff it is of the project, an action or schedule iff its task goes, an edge iff one of its ends goes; every other row is unchanged |
| `Tables.DeleteProjectIff` | db/project.go:76-121 | without the cascade exactly a project without tasks is deleted, and nothing else with it |
| `Tables.InsertScheduleColumns` | db/schedule.go:29-52 | a schedule is created enabled and never run, with the columns asked for, exactly on an open task |
| `Tables.SetScheduleEnabledColumns` | db/schedule.go:86-100 | enabling is refused exactly for a missing schedule or a closed task; only that column is written |
| `Tables.UpdateScheduleColumns` | db/schedule.go:102-152 | exactly when a schedule update is accepted; given columns replaced, the run columns and the enabled flag kept |
| `Tables.DeleteScheduleColumns` | db/schedule.go:345-356 | deleting a schedule is refused exactly when it is missing and writes nothing else |
| `Tables.LastRunCounts` | db/schedule.go:272-299 | of several run updates the last one naming a schedule decides its last_run_at and last_error |
| `Tables.UnnamedKept` | db/schedule.go:272-299 | a schedule that no run update names keeps its row |
| `Tables.RunsAnnounced` | db/schedule.go:272-299 | each run update is announced, in order, after the rows are written |
| `Tables.CascadeKeepsGates` | db/project.go:76-121 | no gate of a surviving action closes because a project was deleted |
| `Tables.UpdateTaskFieldsAdvances` | db/task.go:110-200 | a task update is all or nothing and keeps every invariant |
| `Tables.BulkInsertScheduledAdvances` | db/schedule.go:180-267 | inserting scheduled actions with their run updates keeps every invariant |
| `Drain.NextPendingLeast` | db/action.go:199-241 | NextPending claims the least eligible id, and nothing exactly when CountPendingByDispatch counts nothing |
| `Drain.NextPendingColumns` | db/action.go:199-241 | the claimed action is the least one that is pending, due, in a focused project, with every action it waits for done and every task done or archived; nothing is claimed iff there is none; only its status and start second are written |
| `Drain.PostponedWaits` | db/action.go:211-213 | a new action is never claimed before its dispatch_after |
| `Drain.ClaimAllExact` | db/action.go:199-241 | at a fixed clock repeated claims return exactly the counted actions in increasing id order |
| `Drain.RowLeavesEligible` | db/action_dependency.go:49-59 | claiming or deferring an action removes it from the eligible set and adds nothing to it |
| `Drain.OpenGateBelow` | db/action_dependency.go:49-59 | following unsatisfied edges from a pending action always reaches one whose gate is open |
| `Drain.SomethingEligible` | db/action.go:205-216 | no deadlock: while every action is pending or done and one is pending, something is eligible |
| `Drain.TopologicalDrain` | db/action.go:199-241 | NextPending then MarkDone, repeated with any clock readings and any outputs, runs once per pending action, finishes all of them with the outputs reported, and claims each only after its blockers |
| `Drain.DrainsUnblocked` | db/action.go:199-241 | from any valid state, claims falling within one second, the drain finishes exactly the actions from which no action that cannot be claimed is reachable along unmet dependencies, each once, after its blockers, with the output reported |
| `Dispatch.AttemptRow` | dispatch/execute.go:180-300 | one attempt defers its action exactly when it is runnable, not remote and its pool has no room, and otherwise writes exactly the executed row |
| `Dispatch.UnrunnableAttempt` | dispatch/execute.go:181-209 | metadata that cannot be run fails the action, whatever the pools hold and whether or not a pool is asked |
| `Dispatch.RemoteAttempt` | dispatch/execute.go:274-300 | a remote action is launched without asking a pool, its session recorded and its status dispatched, or failed with the worker's reason, each write possibly failing |
| `Dispatch.UnadmittedAttempt` | dispatch/execute.go:227-248 | a background action whose pool has no free slot, or cannot be counted, is pending again for 30 seconds; failed when that write fails |
| `Dispatch.AdmittedAttempt` | dispatch/execute.go:249-265 | with a free slot, or without an admission check, it is launched and its handle recorded, or failed with the worker's reason |
| `Dispatch.TickWindow` | dispatch/queue_worker.go:278-284 | a tick looks at the 16 least eligible actions, or at all when there are fewer |
| `Dispatch.DispatchRefines` | dispatch/queue_worker.go:280-333 | the bounded loop refines: among the first 16 eligible actions in id order, those before the first takeable one are deferred, that one is executed or failed, all else is unchanged; dispatched iff there is one |
| `Dispatch.AttemptWithinCapIff` | dispatch/execute.go:180-300 | one attempt, whatever reads and writes fail in it, ends with a pool above both its old size and its cap exactly when MarkFailed fails on a pooled action that cannot run, or cannot be deferred, while the pool has no room |
| `Dispatch.SpillAtCap` | dispatch/execute.go:189-194 | such an attempt: a pool exactly at its cap ends one above it |
| `Dispatch.TickWithinCapIff` | dispatch/queue_worker.go:280-333 | from any state, at any clock and under any failures, a tick ends above max(count before, cap) exactly when the attempt that ends it does |
| `Dispatch.TickWithinCap` | dispatch/queue_worker.go:280-333 | while MarkFailed writes succeed, whatever else fails, a tick ends within max(count before, cap) in both pools |
| `Dispatch.PoolMatchesMode` | db/action.go:463-475 | a runnable background action is counted in the pool asked to admit it exactly when its mode is not the empty string, and in no other |
| `Dispatch.EmptyModeUncounted` | dispatch/execute.go:165 | an action with an empty mode is launched into a full interactive pool and counted in neither pool |
| `Reaper.AgeTestsAgree` | db/action.go:503-510 | the SQL cutoff on the truncated clock and the Go age test agree on whole-second start times |
| `Reaper.LiveInteractiveKept` | dispatch/queue_worker.go:211-238 | through any sequence of reap passes, at any clocks and with any failing writes, a running action that is not noninteractive stays running while its job is live, nothing but a session id being recorded on it |
| `Reaper.BatchesDisjoint` | dispatch/queue_worker.go:161-256 | the done batch and the failure batch never share an action |
| `Reaper.ReapExact` | dispatch/queue_worker.go:96-264 | a reap pass changes only running non-cloud actions and gives each the single outcome fixed by its job, age and mode and by which of the four writes fail; an unreadable running row stops both listings |
| `Reaper.DoneJobReaped` | dispatch/queue_worker.go:200-213 | a done job makes its action done with the output of the job as result, its session id recorded, whatever its age |
| `Reaper.FailedJobReaped` | dispatch/queue_worker.go:214-222 | a failed job fails its action with its detail, else its output, else the fixed text |
| `Reaper.OtherStateReaped` | dispatch/queue_worker.go:223-238 | any other state fails the action exactly when its mode is noninteractive and it started at least the hard timeout ago |
| `Reaper.MissingJobReaped` | dispatch/queue_worker.go:178-189 | a missing job fails its action exactly when it started at least the grace period ago |
| `Reaper.UnreadJobKept` | dispatch/queue_worker.go:190-198 | a job file that cannot be read or decoded leaves the action running |
| `Reaper.JoblessReaped` | dispatch/queue_worker.go:104-124 | a running local action without a job handle fails as orphaned exactly when the grace period is over; every row that runs no job and is no orphan is unchanged |
| `Reaper.ReapShrinksPools` | dispatch/queue_worker.go:96-102 | reaping never adds to a slot pool |
| `Reaper.ReapAdvances` | dispatch/queue_worker.go:96-102 | a reap pass keeps every invariant |
| `Metadata.ScheduleStampRoundTrip` | dispatch/schedule.go:165 | the id stamped as text into an action casts back to the same schedule id |
| `Metadata.ScheduleRefReads` | db/schedule.go:304-343 | a schedule id in metadata is read as SQL casts it: a number as itself, text by its leading integer, absent or null as none |
| `Metadata.RunnableIff` | dispatch/execute.go:188-209 | an action can run exactly when its metadata is an object with an instruction that is not blank, a mode that is absent, empty or one of the three, and no argument managed by tq and no tq mode as permission mode |
| `Metadata.MergeOverlays` | db/task.go:204-221 | a merge is possible exactly into an object or empty text; keys of the update win and every other key stays |
| `Schedules.CheckSchedulesExact` | dispatch/schedule.go:33-108 | whichever of the three reads and two writes fail, a check inserts one pending action per schedule whose firing takes effect and nothing else, and last_run_at advances exactly for those schedules and for those whose error was recorded; it succeeds exactly when the listing did and every decision took effect |
| `Schedules.CheckFiresIff` | dispatch/schedule.go:112-196 | a check gives a schedule exactly one new action, with its title, task, instruction and id, iff it is enabled, its task is open, its cron parses, the occurrence after its last run (its creation when there is none) has come, none of its actions is active, its metadata is valid once stamped, and the reads and writes before the insert succeed; an error is recorded under the same conditions when the metadata is not valid; every other schedule and action keeps its row |
| `Schedules.CheckOkIff` | dispatch/schedule.go:33-108 | a check reports an error exactly when a read it needs fails, or a write it has something to write for |
| `Schedules.BulkInsertColumns` | db/schedule.go:180-267 | exactly when a batch is refused; each accepted row stands under the next id with the columns asked for |
| `Schedules.BulkInsertAnnounced` | db/schedule.go:180-267 | an accepted batch announces each new action and then each run, in order |
| `Schedules.BulkInsertExact` | db/schedule.go:180-267 | an accepted batch inserts its rows under consecutive ids together with all its run updates |
| `Schedules.FireSpec` | dispatch/schedule.go:121-192 | a schedule fires only when enabled, due and without an active action, for an existing task, with its own id in the metadata |
| `Schedules.CheckSchedulesAdvances` | dispatch/schedule.go:33-108 | a schedule check keeps every invariant |
| `Firing.CheckKeepsOneActive` | dispatch/schedule.go:150-153 | a check never gives a schedule a second active action |
| `Firing.DueIffOccurrence` | dispatch/schedule.go:136-148 | a schedule is due exactly when an occurrence lies after its base and no later than now |
| `Firing.RunsSeparated` | dispatch/schedule.go:112-196 | any two runs of an unedited schedule have an occurrence between them |
| `Firing.FiringBound` | dispatch/schedule.go:112-196 | an unedited schedule never runs more often than its expression occurs between its base and its last run |
| `Firing.StaysDue` | dispatch/schedule.go:145-153 | a due schedule that does not run, because an action is active or a write fails, stays due at every later check until it runs or is edited |
| `Firing.DueAgainIff` | dispatch/schedule.go:145-148 | after a run the schedule is due again at the same clock exactly when Next did not move past it |
| `WorkerLoop.CapsHoldIff` | dispatch/queue_worker.go:60-93 | over runs of worker ticks, reports and manual dispatches under any failures, from a state within both caps, every boundary is within them exactly when no turn spills |
| `WorkerLoop.CapsHold` | dispatch/queue_worker.go:60-93 | while MarkFailed writes succeed, every sequence of worker ticks and terminal reports stays within both caps |
| `WorkerLoop.OneActiveHolds` | dispatch/queue_worker.go:60-93 | in every run of ticks, manual dispatches and terminal reports a schedule has at most one active action |
| `WorkerLoop.LiveThroughTicks` | dispatch/queue_worker.go:60-93 | no number of worker ticks ends a running interactive action whose job is live |
| `WorkerLoop.TickAdvances` | dispatch/queue_worker.go:75-84 | one pass of reap, schedule check and dispatch keeps every invariant |
| `WorkerLoop.FiredThenClaimed` | dispatch/queue_worker.go:75-84 | schedules are checked before the dispatch of the same pass: with nothing else pending, the first action a pass inserts is claimed in it |
| `WorkerLoop.FinishedJobFreesSchedule` | dispatch/queue_worker.go:75-84 | jobs are reaped before schedules are checked: a due schedule held only by actions whose jobs report done runs in the same pass |
| `RunsOfSteps.StepAdvances` | db/interfaces.go:9-48 | every operation on the modelled tables, the manual claim, Migrate and the turns of the worker included and the unguarded reset excepted, keeps all invariants, only appends to the log, leaves `done` only by deletion, and writes no edges or task statuses but those it names |
| `RunsOfSteps.ReachableInv` | db/schema.sql:21-99 | after any sequence of operations: acyclic edges between existing rows, counts equal to a recount and never negative, search rows equal to a projection, and each action's log a legal history ending in its status |
| `RunsOfSteps.DoneAbsorbing` | cmd/reset.go:26-28 | `done` is absorbing until deletion under every step of worker and command line |
| `Gates.StepClosesGateIff` | db/action_dependency.go:26-30 | among all steps that do not edit an action's own edges, exactly the committed task updates that reopen a task it waits for close its open gate |
| `Gates.OpenThroughoutIff` | db/action_dependency.go:49-59 | over any run that does not edit the action's edges, its gate is open in every state exactly when no step reopens a task it waits for |
| `Gates.GateStaysOpen` | db/action_dependency.go:26-30 | an action waiting only for actions keeps an open gate until its own edges are edited, blockers being deleted included |
| `Gates.TaskGateMayClose` | db/task.go:110-200 | a reachable state in which reopening a task closes an open gate |
| `Limits.StepWithinCapsIff` | db/action.go:463-475 | exactly which operations take the running counts over their caps: inserts as running, claims, manual dispatches and merges into a pool without room, and worker turns that spill |
| `Limits.AlwaysWithinCapsIff` | db/action.go:463-475 | over any run of operations every state is within the caps exactly when no step is one of those |
| `Limits.StepOneActiveIff` | dispatch/schedule.go:150-153 | exactly which operations give a schedule a second active action: inserts, resets, merges and amendments that name a schedule with an active action; never a turn of the worker |
| `Limits.AlwaysOneActiveIff` | dispatch/schedule.go:150-153 | over any run of operations every schedule has at most one active action exactly when no step is one of those |
| `Retry.WithTxRetry` | db/retry.go:39-76 | for every pattern of failures: exactly the lock failures within 3 seconds are repeated, up to the eighth attempt, so the result is nil iff some attempt k < 8 commits after only such failures, and any other failure or a cancelled context is returned at once; the body's effect exactly once or not at all, results of the committed attempt only, sleeps exactly the delays between attempts and under 772.5 ms |
| `Retry.RetryableIff` | db/retry.go:27-37 | an error is a lock failure exactly when its text, or that of an error it wraps at any depth, contains one of the three phrases in any case |
| `Retry.NominalTable` | db/retry.go:78-81 | the nominal delays are 5, 10, 20, 40, 80, 160 ms and then 200 ms |
| `Retry.NextPendingRetried` | db/action.go:199-241 | NextPending under retry is one NextPending or nothing |
| `Retry.BulkMarkFailedRetried` | db/action.go:905-945 | BulkMarkFailed under retry is one BulkMarkFailed or nothing; events of the committed attempt only |
| `Retry.MarkTerminalRetried` | db/action.go:288-334 | markTerminal under retry, the transaction that keeps a lost result included, is one terminal mark or nothing |
| `Retry.BulkMarkDoneRetried` | db/action.go:950-1023 | BulkMarkDone under retry without an error is one BulkMarkDone; with one, nothing happened or the batch was committed and announced once and a prefix of the lost results is kept |
| `Retry.MergeMetadataRetried` | db/action.go:611-636 | a metadata merge under retry is one merge or nothing |
| `Retry.DelayBound` | db/retry.go:78-83 | one backoff delay is positive, at least half and below one and a half times its nominal value |
| `Migrate.CountsRestoredIff` | db/db.go:328-336 | Migrate leaves exact counts exactly when it saw the stale trigger, an empty table, or exact counts |
| `Migrate.MigratedInvIff` | db/db.go:105-343 | Migrate yields a database that satisfies every invariant exactly when the base tables and log are sound, the counts are rebuilt or were exact, and the search rows found are right or replaced |
| `Migrate.MigrateAdvances` | db/db.go:105-343 | on a valid database Migrate keeps every invariant and the log, whatever trigger it finds |
| `Migrate.StaleTriggerDriftsIff` | db/task_action_counts_test.go:454-463 | under the old trigger exact counts survive an UPDATE exactly when it changes the status or keeps the task |
| `Migrate.InterruptedRebuildStays` | db/db.go:105-113 | drifted counts of a migration interrupted after the schema step are repaired by no number of later Migrates |
| `Migrate.InterruptedRebuildReached` | db/task_action_counts_test.go:466-495 | such a database, with sound base tables and log: one action reassigned between two tasks under the old trigger |
| `Migrate.SearchCompletedIff` | db/db.go:377-404 | Migrate completes a partial search index exactly when each row it found belongs to an existing row and is right, or the legacy rewrite replaces it |
| `Migrate.MigrateIdempotent` | db/db.go:328-343 | running Migrate again changes nothing |
| `Migrate.ModernizeKeepsPools` | db/db.go:345-356 | rewriting the legacy mode moves no action between slot pools |
| `Migrate.RowUntouchedIff` | db/db.go:345-356 | a row, running or not, is left alone exactly when it does not carry the legacy mode; one that does changes its mode to interactive and no other metadata key or column |
| `Migrate.ScheduleUntouchedIff` | db/db.go:345-356 | schedules are rewritten in the same way |
| `DatabaseObject.DB.InsertActionRow` | db/schema.sql:75-81 | an INSERT with its count and search triggers |
| `DatabaseObject.DB.UpdateActionRow` | db/schema.sql:83-92 | an UPDATE with its count and search triggers |
| `DatabaseObject.DB.DeleteActionRow` | db/schema.sql:94-99 | a DELETE with its count, purge and search triggers and the edge cascade |
| `DatabaseObject.DB.RemoveTaskRow` | db/schema.sql:54-73 | a task DELETE with its purge and search triggers and the counts cascade |
| `DatabaseObject.DB.InsertActionDependenciesTx` | db/action_dependency.go:92-146 | the validating insert loop answers and inserts as the edge-by-edge specification does |
| `DatabaseObject.DB.AddActionDependencies` | db/action_dependency.go:75-90 | the transaction with its rollback and event |
| `DatabaseObject.DB.ReplaceActionDependencies` | db/action_dependency.go:173-209 | delete, reinsert, roll back on error, and the two events |
| `DatabaseObject.DB.ClearActionDependencies` | db/action_dependency.go:211-231 | the owner waits for nothing afterwards and its gate is open, every other action waits for what it waited for, and the database stays valid |
| `DatabaseObject.DB.InsertActionWithDependencies` | db/action.go:133-178 | row and edges in one transaction: the row column by column as asked, under the next id, and exactly the requested edges; nothing on error |
| `DatabaseObject.DB.NextPendingAction` | db/action.go:199-241 | claim of the least eligible id with its event |
| `DatabaseObject.DB.ClaimPendingAction` | db/action.go:243-274 | succeeds exactly on a pending action, whatever its gate, time and focus; writes that one row and keeps counts, search rows and history exact, or changes nothing |
| `DatabaseObject.DB.FinishActionRow` | db/action.go:304-307 | the terminal UPDATE and what its triggers do to the counts and the search row, as one change of the tables |
| `DatabaseObject.DB.MarkTerminalAction` | db/action.go:288-334 | compare-and-set terminal mark, lost results preserved |
| `DatabaseObject.DB.PreserveSuccessfulResult` | db/action.go:348-358 | which lost results are kept |
| `DatabaseObject.DB.MarkDispatchedAction` | db/action.go:360-383 | running to dispatched, otherwise an error |
| `DatabaseObject.DB.MoveToPending` | db/action.go:572-609 | the shared rollback to pending |
| `DatabaseObject.DB.DeferAction` | db/action.go:557-567 | deferral with the rounded second |
| `DatabaseObject.DB.ResetCommand` | cmd/reset.go:17-36 | succeeds exactly from failed and cancelled, so `done` stays done; rewrites only the status and the two timestamps of one row, keeping every invariant, or changes nothing |
| `DatabaseObject.DB.CancelCommand` | cmd/cancel.go:30-60 | changes the database exactly when the action was active, then leaving it cancelled with the reason, and keeps every invariant |
| `DatabaseObject.DB.MergeActionMetadata` | db/action.go:611-636 | shallow merge of metadata with its event |
| `DatabaseObject.DB.AmendAction` | db/action.go:680-766 | accepted exactly when the new task is open, the status allows the fields given, metadata parses and a field is given; writes each given column of one row and no other, moves the counts with a reassigned action, keeps every invariant, and changes nothing on error |
| `DatabaseObject.DB.BulkMarkFailedActions` | db/action.go:905-945 | the batch loop, rollback on a missing id, events after the commit |
| `DatabaseObject.DB.MarkDoneTx` | db/action.go:967-997 | the transaction finishes the open rows in order, returns the transitions to announce and the updates that lost, and leaves every table as it was when an id is missing |
| `DatabaseObject.DB.BulkMarkDoneActions` | db/action.go:950-1023 | the batch loop, events after the commit, then the lost results |
| `DatabaseObject.DB.BulkMergeMetadata` | db/action.go:638-678 | the merge loop with rollback |
| `DatabaseObject.DB.UpdateTask` | db/task.go:110-200 | refuses to close exactly a task with an enabled schedule or an active action; all changes or none; every invariant kept |
| `DatabaseObject.DB.DeleteProjectRows` | db/project.go:76-121 | the ordered deletes, row triggers firing for each row |
| `DatabaseObject.DB.BulkUpdateScheduleRuns` | db/schedule.go:272-299 | run updates in order, events after |
| `DatabaseObject.DB.BulkInsertScheduledActions` | db/schedule.go:180-267 | checks, inserts and run updates, events after |
| `DatabaseObject.DB.MigrateTables` | db/db.go:105-113 | leaves a valid database exactly when the one it found was repairable |
| `DatabaseObject.DB.RebuildTaskActionCounts` | db/db.go:426-437 | the counts equal a recount of the actions, whatever they were before |
| `DatabaseObject.DB.BackfillTaskActionCounts` | db/db.go:439-457 | the counts are exact afterwards exactly when the table was empty or exact already |
| `DatabaseObject.DB.BackfillSearchIndexes` | db/db.go:377-404 | the indexes are complete afterwards exactly when the rows they held agreed with their tables |
| `WorkerService.FailAction` | dispatch/execute.go:183-186 | MarkFailed with its error logged and ignored: the terminal mark, or an unchanged store |
| `WorkerService.Execute` | dispatch/execute.go:180-225 | validation, mode, and the two launch paths |
| `WorkerService.DeferOrFailAction` | dispatch/execute.go:227-236 | defer, or fail when the deferral fails |
| `WorkerService.DispatchOne` | dispatch/queue_worker.go:280-333 | the claim, count, defer loop with its bound of 16 |
| `WorkerService.ReapOrphanActions` | dispatch/queue_worker.go:104-124 | the orphan batch |
| `WorkerService.SortJobs` | dispatch/queue_worker.go:161-239 | the loop that sorts listed jobs: a done entry carries the job's output, a failure entry its detail, output or fixed text or the reason of an expired age, a merge the session id; each exactly when its condition holds |
| `WorkerService.ReapBgActions` | dispatch/queue_worker.go:151-256 | merges, then dones, then failures |
| `WorkerService.DecideOne` | dispatch/schedule.go:116-192 | the branches of one decision in order: skipped exactly when not due, not enabled, closed, unparsable or held by an active action; fired exactly when otherwise valid, with the row it asks for |
| `WorkerService.DecideSchedules` | dispatch/schedule.go:112-196 | the loop that appends decisions |
| `WorkerService.SplitDecisions` | dispatch/schedule.go:66-82 | the loop that splits decisions into the two batches |
| `WorkerService.CheckAllSchedules` | dispatch/schedule.go:33-108 | listing, decisions, error updates, then inserts |
| `WorkerService.RunTick` | dispatch/queue_worker.go:75-84 | one pass of the worker loop, keeping the invariant |

## Left out

- events_fts and its insert trigger: an index over an append-only log that no modelled operation reads.
- The tmux, created_at and updated_at columns and project working directories: no modelled branch reads them.
- Event insert failures: an event is appended whenever its operation commits.
- Races between separate transactions: a guard and the write it guards, the read and the compare-and-set of
  `movePending`, and two workers at once are one atomic step each, so the branches taken when a row changes
  in between (`rowsAffected == 0`) do not occur.
- Retry around every single operation: `Retry.WithTxRetry` covers any transaction body, and five operations are
  tied to it; the other methods of `DB` show the attempt that commits.
- ResumeAction is an insert whose metadata is computed from the parent; the steps cover it as an insert.
- An action status string outside the valid set is one case (`None`), a task status string likewise (`Unknown`).
- Literal JSON `null` as a whole metadata text, non-integer JSON numbers, and signs or spaces in front of a
  hand-written textual schedule id.
- Unicode white space in an instruction: blank means ASCII white space. Letters beyond ASCII whose upper case is an
  ASCII letter, in the text of a database error.
- Work-directory resolution and its correction of the task row before a launch, prompt rendering, and what the
  launched worker does.
- A missing job-state reader, which skips the second half of a reap pass.
- SetWorkDir, the worker heartbeat and settings writes: they touch no modelled column.
- Heartbeats, poll intervals and defaults of the worker configuration, settings, search queries, listings other
  than the dependency listing, the terminal interface and the command-line wiring.
- Column migrations and the rewrite of the default-mode setting.
- The listing order of the dependencies of one action: the listing is a set.
- Firing.FiringBound: assumes the cron library returns the least later occurrence; `Firing.DueAgainIff` says what
  the check does when it does not move forward.
- Dispatch.DispatchRefines: assumes a fixed clock and no failing call during the tick; the cap bounds
  (`Dispatch.TickWithinCapIff`) need neither.
- Drain.DrainsUnblocked: all claims fall within one second, so that being due does not change during the drain.
