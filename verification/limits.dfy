/** Over every operation of the queue: which steps break the slot caps, and which give a schedule two active actions. */
module Limits {
  import opened Types
  import opened Metadata
  import opened Sets
  import opened Rows
  import opened History
  import opened Dependencies
  import opened Actions
  import opened Bulk
  import opened Tables
  import opened Dispatch
  import opened Schedules
  import opened Firing
  import opened WorkerLoop
  import opened RunsOfSteps
  import M = Migrate

  // ----- steps that leave active rows alone -----

  /** Every action active after the step was active before with the same metadata, and is not newly running. */
  ghost predicate Quiet(s: Store, s': Store) {
    forall i | i in s'.actions && IsActive(s'.actions[i].status) ::
      && i in s.actions && IsActive(s.actions[i].status) && s'.actions[i].meta == s.actions[i].meta
      && (s'.actions[i].status == Running ==> s.actions[i].status == Running)
  }

  lemma QuietKeeps(s: Store, s': Store, caps: Caps)
    requires Quiet(s, s')
    ensures WithinCaps(s, caps) ==> WithinCaps(s', caps)
    ensures OneActive(s) ==> OneActive(s')
  {
    hide InPool, ScheduleRef;
    forall pool ensures |RunningIn(s', pool)| <= |RunningIn(s, pool)| {
      forall i | i in RunningIn(s', pool) ensures i in RunningIn(s, pool) {
        assert IsActive(s'.actions[i].status);
      }
      SubsetSize(RunningIn(s', pool), RunningIn(s, pool));
    }
    assert LinksShrink(s, s');
    if OneActive(s) {
      LinksShrinkKeeps(s, s');
    }
  }

  predicate IsQuietStep(step: Step) {
    || (IsProjectStep(step) && !step.DoMigrate?) || (IsScheduleStep(step) && !step.DoBulkInsert?)
    || step.DoAddDeps? || step.DoReplaceDeps? || step.DoClearDeps?
    || step.DoMark? || step.DoDispatched? || step.DoDefer? || step.DoBulkDone? || step.DoBulkFailed?
  }

  lemma SameActionsQuiet(s: Store, s': Store)
    requires s'.actions == s.actions
    ensures Quiet(s, s')
  {
  }

  lemma DeleteQuiet(s: Store, p: int, cascade: bool)
    requires Inv(s)
    ensures Quiet(s, DeleteProject(s, p, cascade).0)
  {
    if p in s.projects && cascade {
      CascadeExact(s, p);
    }
    hide Inv, CascadeRows;
  }

  lemma ProjectStepQuiet(s: Store, step: Step)
    requires Inv(s) && IsProjectStep(step) && !step.DoMigrate?
    ensures Quiet(s, ApplyProject(s, step))
  {
    hide Inv, Quiet, DeleteProject, EnabledScheduleIds, ActiveCount, TaskEvents, TaskRow, Merge;
    if step.DoDeleteProject? {
      DeleteQuiet(s, step.project, step.cascade);
    } else {
      SameActionsQuiet(s, ApplyProject(s, step));
    }
  }

  lemma ScheduleStepQuiet(s: Store, step: Step)
    requires IsScheduleStep(step) && !step.DoBulkInsert?
    ensures Quiet(s, ApplySchedule(s, step))
  {
    hide Quiet, AttachRefusal, ApplyRuns, RanEvents, BulkInsertScheduled;
    SameActionsQuiet(s, ApplySchedule(s, step));
  }

  lemma EdgesQuiet(s: Store, id: int, deps: seq<Dep>)
    ensures Quiet(s, AddDeps(s, id, deps).0) && Quiet(s, ReplaceDeps(s, id, deps).0) && Quiet(s, ClearDeps(s, id))
  {
    hide Quiet, InsertDeps, EdgesOf;
    InsertDepsExact(s, id, deps);
    ReplaceDepsExact(s, id, deps);
    ClearDepsExact(s, id);
    SameActionsQuiet(s, AddDeps(s, id, deps).0);
    SameActionsQuiet(s, ReplaceDeps(s, id, deps).0);
    SameActionsQuiet(s, ClearDeps(s, id));
  }

  lemma MarkQuiet(s: Store, id: int, st: Status, result: string, now: int)
    requires IsTerminal(st)
    ensures Quiet(s, MarkTerminal(s, id, st, result, now).0)
  {
    ReportRows(s, id, st, result, now);
    hide MarkTerminal;
  }

  lemma MovesQuiet(s: Store, id: int, now: int, retryAfter: int)
    ensures Quiet(s, MarkDispatched(s, id).0) && Quiet(s, DeferToPending(s, id, now, retryAfter).0)
  {
    hide DeferUntil;
  }

  lemma {:induction false} ActiveUnmarked(a: Action, id: int, us: seq<Mark>, now: int)
    ensures IsActive(RowAfterMarks(a, id, us, Failed, now).status) ==> RowAfterMarks(a, id, us, Failed, now) == a
    decreases |us|
  {
    if us != [] {
      ActiveUnmarked(if us[0].id == id then FailedRow(a, us[0].text, now) else a, id, us[1..], now);
    }
  }

  lemma ActiveUnsettled(a: Action, id: int, us: seq<Mark>, now: int)
    ensures IsActive(SettledRow(a, id, us, now).status) ==> SettledRow(a, id, us, now) == a
  {
  }

  lemma BulkDoneQuiet(s: Store, us: seq<Mark>, now: int)
    ensures Quiet(s, BulkMarkDone(s, us, now).0)
  {
    hide BulkMarkDone, SettledRow, FirstUnkept;
    if AllExist(s, us) {
      BulkDoneKeepsOutput(s, us, now);
      forall id, vs | id in s.actions && IsActive(SettledRow(s.actions[id], id, vs, now).status)
        ensures SettledRow(s.actions[id], id, vs, now) == s.actions[id]
      {
        ActiveUnsettled(s.actions[id], id, vs, now);
      }
    } else {
      BulkMissingUnchanged(s, us, now);
    }
  }

  lemma BulkFailedQuiet(s: Store, us: seq<Mark>, now: int)
    ensures Quiet(s, BulkMarkFailed(s, us, now).0)
  {
    hide BulkMarkFailed, RowAfterMarks;
    if AllExist(s, us) {
      BulkFailedRows(s, us, now);
      forall id | id in s.actions && IsActive(RowAfterMarks(s.actions[id], id, us, Failed, now).status)
        ensures RowAfterMarks(s.actions[id], id, us, Failed, now) == s.actions[id]
      {
        ActiveUnmarked(s.actions[id], id, us, now);
      }
    } else {
      BulkMissingUnchanged(s, us, now);
    }
  }

  lemma QuietStep(s: Store, step: Step)
    requires Inv(s) && WellFormed(step) && IsQuietStep(step)
    ensures Quiet(s, Apply(s, step))
  {
    hide Inv, Quiet, ApplyProject, ApplySchedule, AddDeps, ReplaceDeps, ClearDeps, MarkTerminal, MarkDispatched,
         DeferToPending, BulkMarkDone, BulkMarkFailed;
    if IsProjectStep(step) {
      ProjectStepQuiet(s, step);
    } else if IsScheduleStep(step) {
      ScheduleStepQuiet(s, step);
    } else {
      match step {
        case DoAddDeps(id, deps) => EdgesQuiet(s, id, deps);
        case DoReplaceDeps(id, deps) => EdgesQuiet(s, id, deps);
        case DoClearDeps(id) => EdgesQuiet(s, id, []);
        case DoMark(id, st, result, now) => MarkQuiet(s, id, st, result, now);
        case DoDispatched(id) => MovesQuiet(s, id, 0, 0);
        case DoDefer(id, now, retryAfter) => MovesQuiet(s, id, now, retryAfter);
        case DoBulkDone(us, now) => BulkDoneQuiet(s, us, now);
        case DoBulkFailed(us, now) => BulkFailedQuiet(s, us, now);
      }
    }
  }

  // ----- slot caps -----

  predicate Full(s: Store, caps: Caps, pool: Pool) {
    |RunningIn(s, pool)| + 1 > Cap(caps, pool)
  }

  ghost predicate FullFor(s: Store, caps: Caps, meta: Meta) {
    exists pool :: InPool(meta, pool) && Full(s, caps, pool)
  }

  /** The running actions that a bulk merge leaves in a pool. */
  function MergedInto(s: Store, ms: seq<MetaUpdate>, pool: Pool): set<int> {
    set id | id in s.actions && s.actions[id].status == Running && InPool(MetaAfter(s.actions[id].meta, id, ms), pool)
  }

  /** The ids a batch of inserts adds to a pool. */
  function InsertedInto(s: Store, specs: seq<ActionSpec>, pool: Pool): set<int> {
    set i | 0 <= i < |specs| && specs[i].status == Some(Running) && InPool(specs[i].meta, pool) :: s.next.action + i
  }

  /**
    The steps that break the caps, from the state before: an action inserted as running, claimed or
    dispatched by hand, or moved by a merge, into a pool without room for it; and turns of the worker
    that spill.
   */
  ghost predicate StepSpills(s: Store, caps: Caps, step: Step) {
    match step
    case DoInsertAction(spec, deps) =>
      InsertAction(s, spec, deps).1.Ok? && spec.status == Some(Running) && FullFor(s, caps, spec.meta)
    case DoNextPending(now) =>
      EligibleIds(s, now) != {} && FullFor(s, caps, s.actions[Min(EligibleIds(s, now))].meta)
    case DoClaim(id, _) =>
      id in s.actions && s.actions[id].status == Pending && FullFor(s, caps, s.actions[id].meta)
    case DoMerge(id, updates) =>
      && id in s.actions && s.actions[id].status == Running && Merge(s.actions[id].meta, updates).Some?
      && exists pool :: InPool(Merge(s.actions[id].meta, updates).value, pool) && !InPool(s.actions[id].meta, pool)
                        && Full(s, caps, pool)
    case DoBulkMerge(ms) => MergeBatch(s, ms).Ok? && exists pool :: |MergedInto(s, ms, pool)| > Cap(caps, pool)
    case DoBulkInsert(specs, runs) =>
      && BulkInsertScheduled(s, specs, runs).1.Ok?
      && exists pool :: |RunningIn(s, pool)| + |InsertedInto(s, specs, pool)| > Cap(caps, pool)
    case DoTurn(config, turn) => TurnSpills(s, config, turn)
    case _ => false
  }

  /** A row that becomes running breaks the caps exactly when a pool of its metadata is full. */
  lemma NewRunningIff(s: Store, s': Store, caps: Caps, id: int, row: Action)
    requires WithinCaps(s, caps) && (id in s.actions ==> s.actions[id].status != Running)
    requires s'.actions == s.actions[id := row]
    ensures WithinCaps(s', caps) <==> !(row.status == Running && FullFor(s, caps, row.meta))
  {
    hide InPool, RunningIn;
    forall pool ensures |RunningIn(s', pool)|
        == |RunningIn(s, pool)| + (if row.status == Running && InPool(row.meta, pool) then 1 else 0)
    {
      OneMoreRunning(s, s', id, row, pool);
    }
  }

  lemma InsertedRow(s: Store, spec: ActionSpec, deps: seq<Dep>)
    ensures
      var (s', r) := InsertAction(s, spec, deps);
      && (r.Err? ==> s' == s)
      && (r.Ok? ==> spec.status.Some? && s'.actions == s.actions[s.next.action := NewRow(spec, spec.status.value)])
  {
    hide InsertDeps;
    if spec.status.Some? {
      InsertDepsExact(InsertRow(s, NewRow(spec, spec.status.value)), s.next.action, deps);
    }
  }

  lemma FreshId(s: Store)
    requires Inv(s)
    ensures s.next.action !in s.actions
  {
  }

  lemma MergedRow(s: Store, id: int, updates: Object)
    ensures
      var (s', r) := MergeMetadata(s, id, updates);
      && (r.Ok? <==> id in s.actions && Merge(s.actions[id].meta, updates).Some?) && (r.Err? ==> s' == s)
      && (r.Ok? ==> s'.actions == s.actions[id := s.actions[id].(meta := Merge(s.actions[id].meta, updates).value)])
  {
    hide Merge;
  }

  /** What a pool gains when a running action's metadata changes. */
  function Gain(was: Meta, now: Meta, pool: Pool): int {
    (if InPool(now, pool) then 1 else 0) - (if InPool(was, pool) then 1 else 0)
  }

  lemma MergeWithinCapsIff(s: Store, caps: Caps, id: int, updates: Object)
    requires WithinCaps(s, caps)
    ensures WithinCaps(MergeMetadata(s, id, updates).0, caps) <==> !StepSpills(s, caps, DoMerge(id, updates))
  {
    hide InPool, MergeMetadata, Merge;
    MergedRow(s, id, updates);
    var s' := MergeMetadata(s, id, updates).0;
    if id in s.actions && Merge(s.actions[id].meta, updates).Some? {
      var was, meta := s.actions[id].meta, Merge(s.actions[id].meta, updates).value;
      forall pool ensures |RunningIn(s', pool)|
                       == |RunningIn(s, pool)| + (if s.actions[id].status != Running then 0
                                                  else Gain(was, meta, pool))
      {
        MovedRunning(s, s', id, meta, pool);
      }
      assert forall pool :: |RunningIn(s, pool)| <= Cap(caps, pool);
      hide RunningIn;
    }
  }

  lemma MovedRunning(s: Store, s': Store, id: int, meta: Meta, pool: Pool)
    requires id in s.actions && s'.actions == s.actions[id := s.actions[id].(meta := meta)]
    ensures |RunningIn(s', pool)|
         == |RunningIn(s, pool)| + (if s.actions[id].status != Running then 0
                                    else Gain(s.actions[id].meta, meta, pool))
  {
    hide InPool, RunningIn;
    var before, after := RunningIn(s, pool), RunningIn(s', pool);
    forall i ensures i in before - {id} <==> i in after - {id} {
      RunningMember(s, pool, i);
      RunningMember(s', pool, i);
    }
    assert before - {id} == after - {id};
    RunningMember(s, pool, id);
    RunningMember(s', pool, id);
    RemoveSize(before, id);
    RemoveSize(after, id);
  }

  lemma BulkMergeWithinCapsIff(s: Store, caps: Caps, ms: seq<MetaUpdate>)
    requires WithinCaps(s, caps)
    ensures WithinCaps(BulkMerge(s, ms).0, caps) <==> !StepSpills(s, caps, DoBulkMerge(ms))
  {
    hide MergeBatch, InPool, MetaAfter;
    if MergeBatch(s, ms).Ok? {
      MergeBatchRows(s, ms);
      var s' := BulkMerge(s, ms).0;
      forall pool ensures RunningIn(s', pool) == MergedInto(s, ms, pool) {
      }
      hide RunningIn, MergedInto;
    }
  }

  lemma BulkInsertWithinCapsIff(s: Store, caps: Caps, specs: seq<ActionSpec>, runs: seq<RunUpdate>)
    requires Inv(s) && WithinCaps(s, caps)
    ensures WithinCaps(BulkInsertScheduled(s, specs, runs).0, caps) <==> !StepSpills(s, caps, DoBulkInsert(specs, runs))
  {
    hide Core, Replays;
    var (s', r) := BulkInsertScheduled(s, specs, runs);
    if r.Ok? {
      BulkInsertedRows(s, specs, runs);
      hide BulkInsertScheduled, InPool;
      forall pool ensures |RunningIn(s', pool)| == |RunningIn(s, pool)| + |InsertedInto(s, specs, pool)| {
        InsertedRunning(s, s', specs, pool);
      }
      hide RunningIn, InsertedInto;
    } else {
      hide RunningIn;
    }
  }

  /** The rows after an accepted batch of inserts. */
  ghost predicate RowsAppended(s: Store, s': Store, specs: seq<ActionSpec>) {
    && (forall id :: id in s'.actions <==> id in s.actions || s.next.action <= id < s.next.action + |specs|)
    && (forall id | id in s.actions :: id < s.next.action && s'.actions[id] == s.actions[id])
    && (forall i | 0 <= i < |specs| ::
          && s.next.action + i in s'.actions && specs[i].status.Some?
          && s'.actions[s.next.action + i] == NewRow(specs[i], specs[i].status.value))
  }

  lemma BulkInsertedRows(s: Store, specs: seq<ActionSpec>, runs: seq<RunUpdate>)
    requires Inv(s) && BulkInsertScheduled(s, specs, runs).1.Ok?
    ensures RowsAppended(s, BulkInsertScheduled(s, specs, runs).0, specs)
  {
    hide Inv, InsertRows, CreatedEvents, RanEvents, ApplyRuns;
    NextAbove(s);
    if specs != [] {
      InsertRowsExact(s, specs);
      var s1, s' := InsertRows(s, specs), BulkInsertScheduled(s, specs, runs).0;
      assert s'.actions == s1.actions;
      forall i | 0 <= i < |specs|
        ensures s.next.action + i in s'.actions && specs[i].status.Some?
             && s'.actions[s.next.action + i] == NewRow(specs[i], specs[i].status.value)
      {
        assert RowOf(s1.actions, specs, s.next.action, s.next.action + i);
      }
      forall id ensures id in s'.actions <==> id in s.actions || s.next.action <= id < s.next.action + |specs| {
        if s.next.action <= id < s.next.action + |specs| {
          assert RowOf(s1.actions, specs, s.next.action, id);
        }
      }
    }
  }

  lemma InsertedRunning(s: Store, s': Store, specs: seq<ActionSpec>, pool: Pool)
    requires RowsAppended(s, s', specs)
    ensures |RunningIn(s', pool)| == |RunningIn(s, pool)| + |InsertedInto(s, specs, pool)|
  {
    hide InPool, RunningIn, InsertedInto, RowsAppended;
    var before, added, after := RunningIn(s, pool), InsertedInto(s, specs, pool), RunningIn(s', pool);
    forall id ensures (id in after <==> id in before || id in added) && !(id in before && id in added) {
      InsertedMember(s, s', specs, pool, id);
    }
    assert after == before + added;
    assert before !! added;
  }

  lemma InsertedMember(s: Store, s': Store, specs: seq<ActionSpec>, pool: Pool, id: int)
    requires RowsAppended(s, s', specs)
    ensures id in RunningIn(s', pool) <==> id in RunningIn(s, pool) || id in InsertedInto(s, specs, pool)
    ensures !(id in RunningIn(s, pool) && id in InsertedInto(s, specs, pool))
  {
    hide InPool;
    RunningMember(s, pool, id);
    RunningMember(s', pool, id);
    if s.next.action <= id < s.next.action + |specs| {
      var i := id - s.next.action;
      assert s'.actions[s.next.action + i] == NewRow(specs[i], specs[i].status.value);
    }
  }

  lemma RunningUnamended(s: Store, id: int, c: ActionChanges)
    ensures
      var s' := UpdateAction(s, id, c).0;
      && s'.actions.Keys == s.actions.Keys
      && forall i | i in s.actions :: s'.actions[i].status == s.actions[i].status
                                      && (s.actions[i].status == Running ==> s'.actions[i] == s.actions[i])
  {
    hide UpdateAction, Overlaid;
    UpdateActionColumns(s, id, c);
  }

  /** A step that leaves every running row alone and makes none running. */
  lemma RunningKept(s: Store, s': Store, caps: Caps)
    requires forall i | i in s'.actions && s'.actions[i].status == Running ::
               i in s.actions && s.actions[i].status == Running && s'.actions[i].meta == s.actions[i].meta
    ensures WithinCaps(s, caps) ==> WithinCaps(s', caps)
  {
    hide InPool;
    forall pool ensures |RunningIn(s', pool)| <= |RunningIn(s, pool)| {
      forall i | i in RunningIn(s', pool) ensures i in RunningIn(s, pool) {
      }
      SubsetSize(RunningIn(s', pool), RunningIn(s, pool));
    }
  }

  lemma ResetRow(s: Store, id: int)
    ensures
      var (s', r) := CliReset(s, id);
      && (r.Ok? <==> id in s.actions && (s.actions[id].status == Failed || s.actions[id].status == Cancelled))
      && (r.Err? ==> s' == s)
      && (r.Ok? ==> s'.actions == s.actions[id := s.actions[id].(status := Pending, startedAt := None,
          dispatchAfter := None)])
  {
  }

  lemma MigrateWithinCaps(s: Store, trigger: M.Trigger, caps: Caps)
    ensures WithinCaps(M.Migrated(M.Database(s, trigger)).store, caps) <==> WithinCaps(s, caps)
  {
    var s' := M.Migrated(M.Database(s, trigger)).store;
    M.MigratedTables(M.Database(s, trigger));
    hide M.Migrated, M.ModernizeActions, InPool;
    forall pool ensures RunningIn(s', pool) == RunningIn(s, pool) {
      M.ModernizeKeepsPools(s, pool);
      assert RunningIn(s', pool) == RunningIn(M.ModernizeActions(s), pool);
    }
  }

  lemma ClaimWithinCapsIff(s: Store, caps: Caps, id: int, now: int)
    requires WithinCaps(s, caps) && id in s.actions && s.actions[id].status == Pending
    ensures WithinCaps(Claim(s, id, now), caps) <==> !FullFor(s, caps, s.actions[id].meta)
  {
    ClaimRow(s, id, now);
    hide Claim, WithinCaps, FullFor;
    NewRunningIff(s, Claim(s, id, now), caps, id, ClaimedRow(s.actions[id], now));
  }

  lemma InsertWithinCapsIff(s: Store, caps: Caps, spec: ActionSpec, deps: seq<Dep>)
    requires Inv(s) && WithinCaps(s, caps)
    ensures WithinCaps(InsertAction(s, spec, deps).0, caps) <==> !StepSpills(s, caps, DoInsertAction(spec, deps))
  {
    FreshId(s);
    InsertedRow(s, spec, deps);
    hide Inv, InsertAction, WithinCaps, FullFor;
    var (s', r) := InsertAction(s, spec, deps);
    if r.Ok? {
      NewRunningIff(s, s', caps, s.next.action, NewRow(spec, spec.status.value));
    }
  }

  /** From a state within both caps, a step ends within them exactly when it does not spill. */
  lemma StepWithinCapsIff(s: Store, caps: Caps, step: Step)
    requires Inv(s) && WellFormed(step) && WithinCaps(s, caps) && (step.DoTurn? ==> step.config.caps == caps)
    ensures WithinCaps(Apply(s, step), caps) <==> !StepSpills(s, caps, step)
  {
    hide Apply, WithinCaps, OneActive, Quiet, Inv, WellFormed;
    if IsQuietStep(step) {
      QuietStep(s, step);
      QuietKeeps(s, Apply(s, step), caps);
    } else {
      LoudStepWithinCapsIff(s, caps, step);
    }
  }

  lemma LoudStepWithinCapsIff(s: Store, caps: Caps, step: Step)
    requires Inv(s) && WellFormed(step) && WithinCaps(s, caps) && (step.DoTurn? ==> step.config.caps == caps)
    requires !IsQuietStep(step)
    ensures WithinCaps(Apply(s, step), caps) <==> !StepSpills(s, caps, step)
  {
    hide Inv, WithinCaps, FullFor, Full, InsertAction, UpdateAction, NextPending, Claim, CliReset, MergeMetadata,
         BulkMerge, BulkInsertScheduled, TakeTurn, M.Migrated, MergedInto, InsertedInto, TurnSpills, EligibleIds,
         InPool, MergeBatch, Merge;
    match step {
      case DoInsertAction(spec, deps) => InsertWithinCapsIff(s, caps, spec, deps);
      case DoUpdateAction(id, c) =>
        RunningUnamended(s, id, c);
        RunningKept(s, UpdateAction(s, id, c).0, caps);
      case DoNextPending(now) =>
        NextClaims(s, now);
        if EligibleIds(s, now) != {} {
          ClaimWithinCapsIff(s, caps, Min(EligibleIds(s, now)), now);
        }
      case DoClaim(id, now) =>
        if id in s.actions && s.actions[id].status == Pending {
          ClaimWithinCapsIff(s, caps, id, now);
        }
      case DoReset(id) =>
        ResetRow(s, id);
        RunningKept(s, CliReset(s, id).0, caps);
      case DoMerge(id, updates) => MergeWithinCapsIff(s, caps, id, updates);
      case DoBulkMerge(ms) => BulkMergeWithinCapsIff(s, caps, ms);
      case DoBulkInsert(specs, runs) => BulkInsertWithinCapsIff(s, caps, specs, runs);
      case DoMigrate(trigger) => MigrateWithinCaps(s, trigger, caps);
      case DoTurn(config, turn) => TurnWithinCapsIff(s, config, turn);
    }
  }

  lemma NextClaims(s: Store, now: int)
    ensures EligibleIds(s, now) == {} ==> NextPending(s, now).0 == s
    ensures
      EligibleIds(s, now) != {} ==>
        var id := Min(EligibleIds(s, now));
        id in s.actions && s.actions[id].status == Pending && NextPending(s, now).0 == Claim(s, id, now)
  {
    hide Claim;
  }

  // ----- one active action per schedule -----

  /** Schedule c has an active action other than id. */
  ghost predicate Taken(s: Store, c: int, id: int) {
    exists a :: a in ActiveOf(s, c) && a != id
  }

  /** An active row with this metadata under this id would be a second one of its schedule. */
  ghost predicate Doubles(s: Store, id: int, meta: Meta) {
    ScheduleRef(meta).Some? && Taken(s, ScheduleRef(meta).value, id)
  }

  /** Two updates leave two active actions with the same schedule. */
  ghost predicate MergesCollide(s: Store, ms: seq<MetaUpdate>) {
    exists a, b | a in s.actions && b in s.actions && a != b ::
      && IsActive(s.actions[a].status) && IsActive(s.actions[b].status)
      && ScheduleRef(MetaAfter(s.actions[a].meta, a, ms)).Some?
      && ScheduleRef(MetaAfter(s.actions[a].meta, a, ms)) == ScheduleRef(MetaAfter(s.actions[b].meta, b, ms))
  }

  predicate ActiveSpec(c: ActionSpec) {
    c.status.Some? && IsActive(c.status.value) && ScheduleRef(c.meta).Some?
  }

  /** A batch of inserts repeats a schedule, or names one that already has an active action. */
  ghost predicate InsertsCollide(s: Store, specs: seq<ActionSpec>) {
    exists i | 0 <= i < |specs| ::
      && ActiveSpec(specs[i])
      && (ActiveOf(s, ScheduleRef(specs[i].meta).value) != {}
          || exists j | 0 <= j < |specs| ::
               j != i && ActiveSpec(specs[j]) && ScheduleRef(specs[j].meta) == ScheduleRef(specs[i].meta))
  }

  /**
    The steps that give a schedule a second active action, from the state before: inserting or reactivating
    an action that names it, or writing its id into the metadata of an active one, while another is
    active. The turns of the worker are not among them.
   */
  ghost predicate StepDoubles(s: Store, step: Step) {
    match step
    case DoInsertAction(spec, deps) =>
      InsertAction(s, spec, deps).1.Ok? && IsActive(spec.status.value) && Doubles(s, s.next.action, spec.meta)
    case DoUpdateAction(id, c) =>
      && UpdateAction(s, id, c).1.Ok? && s.actions[id].status == Pending
      && Doubles(s, id, MergedMeta(s.actions[id], c.meta).value)
    case DoReset(id) => CliReset(s, id).1.Ok? && Doubles(s, id, s.actions[id].meta)
    case DoMerge(id, updates) =>
      && id in s.actions && IsActive(s.actions[id].status) && Merge(s.actions[id].meta, updates).Some?
      && Doubles(s, id, Merge(s.actions[id].meta, updates).value)
    case DoBulkMerge(ms) => MergeBatch(s, ms).Ok? && MergesCollide(s, ms)
    case DoBulkInsert(specs, runs) => BulkInsertScheduled(s, specs, runs).1.Ok? && InsertsCollide(s, specs)
    case _ => false
  }

  /** Writing one row doubles a schedule exactly when the row is active and its schedule is taken. */
  lemma OneRowDoublesIff(s: Store, s': Store, id: int, row: Action)
    requires OneActive(s) && s'.actions == s.actions[id := row]
    ensures OneActive(s') <==> !(IsActive(row.status) && Doubles(s, id, row.meta))
  {
    hide ScheduleRef;
    forall c: int, a | a != id ensures a in ActiveOf(s', c) <==> a in ActiveOf(s, c) {
    }
    if IsActive(row.status) && ScheduleRef(row.meta).Some? {
      var c := ScheduleRef(row.meta).value;
      assert id in ActiveOf(s', c);
      if Taken(s, c, id) {
        var a :| a in ActiveOf(s, c) && a != id;
        assert a in ActiveOf(s', c);
      }
    }
  }

  lemma AmendedMeta(s: Store, id: int, c: ActionChanges)
    ensures
      var (s', r) := UpdateAction(s, id, c);
      && (r.Err? ==> s' == s)
      && (r.Ok? ==>
            && id in s.actions && MergedMeta(s.actions[id], c.meta).Some? && id in s'.actions
            && s'.actions == s.actions[id := s'.actions[id]]
            && s'.actions[id].status == s.actions[id].status
            && s'.actions[id].meta == MergedMeta(s.actions[id], c.meta).value
            && (IsActive(s.actions[id].status) ==> s.actions[id].status == Pending))
  {
    hide MergedMeta, ActionRow;
    FieldsGiven(c);
    hide FieldCount;
  }

  lemma ActiveMember(s: Store, c: int, a: int)
    ensures a in ActiveOf(s, c) <==>
              a in s.actions && IsActive(s.actions[a].status) && ScheduleRef(s.actions[a].meta) == Some(c)
  {
  }

  lemma MergesDoubleIff(s: Store, ms: seq<MetaUpdate>)
    requires OneActive(s)
    ensures OneActive(BulkMerge(s, ms).0) <==> !StepDoubles(s, DoBulkMerge(ms))
  {
    hide MergeBatch, ScheduleRef, MetaAfter, ActiveOf;
    if MergeBatch(s, ms).Ok? {
      MergeBatchRows(s, ms);
      var s' := BulkMerge(s, ms).0;
      forall c: int, a ensures a in ActiveOf(s', c) <==>
                                 a in s.actions && IsActive(s.actions[a].status)
                                 && ScheduleRef(MetaAfter(s.actions[a].meta, a, ms)) == Some(c)
      {
        ActiveMember(s', c, a);
      }
      if MergesCollide(s, ms) {
        var a, b :| a in s.actions && b in s.actions && a != b
          && IsActive(s.actions[a].status) && IsActive(s.actions[b].status)
          && ScheduleRef(MetaAfter(s.actions[a].meta, a, ms)).Some?
          && ScheduleRef(MetaAfter(s.actions[a].meta, a, ms)) == ScheduleRef(MetaAfter(s.actions[b].meta, b, ms));
        var c := ScheduleRef(MetaAfter(s.actions[a].meta, a, ms)).value;
        assert a in ActiveOf(s', c) && b in ActiveOf(s', c);
      } else {
        forall c: int, a, b | a in ActiveOf(s', c) && b in ActiveOf(s', c) ensures a == b {
          var ra, rb := ScheduleRef(MetaAfter(s.actions[a].meta, a, ms)),
              ScheduleRef(MetaAfter(s.actions[b].meta, b, ms));
          assert ra == Some(c) == rb;
        }
      }
    }
  }

  lemma InsertedActive(s: Store, s': Store, specs: seq<ActionSpec>, c: int, a: int)
    requires RowsAppended(s, s', specs)
    ensures a in ActiveOf(s', c) <==>
              a in ActiveOf(s, c)
              || (s.next.action <= a < s.next.action + |specs| && ActiveSpec(specs[a - s.next.action])
                  && ScheduleRef(specs[a - s.next.action].meta) == Some(c))
  {
    hide ScheduleRef;
    if s.next.action <= a < s.next.action + |specs| {
      assert s'.actions[s.next.action + (a - s.next.action)]
          == NewRow(specs[a - s.next.action], specs[a - s.next.action].status.value);
    }
  }

  lemma InsertsDoubleIff(s: Store, s': Store, specs: seq<ActionSpec>)
    requires OneActive(s) && RowsAppended(s, s', specs)
    ensures OneActive(s') <==> !InsertsCollide(s, specs)
  {
    hide ScheduleRef, RowsAppended;
    var first := s.next.action;
    forall c: int, a ensures a in ActiveOf(s', c) <==>
              a in ActiveOf(s, c)
              || (first <= a < first + |specs| && ActiveSpec(specs[a - first])
                  && ScheduleRef(specs[a - first].meta) == Some(c))
    {
      InsertedActive(s, s', specs, c, a);
    }
    OldIds(s, s', specs);
    hide ActiveOf, ActiveSpec;
    if InsertsCollide(s, specs) {
      CollisionSeen(s, s', specs);
    } else {
      forall c: int, a, b | a in ActiveOf(s', c) && b in ActiveOf(s', c) ensures a == b {
        assert a - first < 0 || b - first < 0 || a == b || a - first != b - first;
      }
    }
  }

  lemma OldIds(s: Store, s': Store, specs: seq<ActionSpec>)
    requires RowsAppended(s, s', specs)
    ensures forall c: int, a | a in ActiveOf(s, c) :: a < s.next.action
  {
  }

  lemma CollisionSeen(s: Store, s': Store, specs: seq<ActionSpec>)
    requires InsertsCollide(s, specs)
    requires forall c: int, a | a in ActiveOf(s, c) :: a < s.next.action && a in ActiveOf(s', c)
    requires forall c: int, i | 0 <= i < |specs| && ActiveSpec(specs[i]) && ScheduleRef(specs[i].meta) == Some(c) ::
               s.next.action + i in ActiveOf(s', c)
    ensures !OneActive(s')
  {
    hide ScheduleRef, ActiveOf;
    var i :| 0 <= i < |specs| && ActiveSpec(specs[i])
      && (ActiveOf(s, ScheduleRef(specs[i].meta).value) != {}
          || exists j | 0 <= j < |specs| ::
               j != i && ActiveSpec(specs[j]) && ScheduleRef(specs[j].meta) == ScheduleRef(specs[i].meta));
    var c := ScheduleRef(specs[i].meta).value;
    assert s.next.action + i in ActiveOf(s', c);
    if ActiveOf(s, c) != {} {
      var a := Member(ActiveOf(s, c));
      assert a in ActiveOf(s', c) && a != s.next.action + i;
    } else {
      var j :| 0 <= j < |specs| && j != i && ActiveSpec(specs[j])
          && ScheduleRef(specs[j].meta) == ScheduleRef(specs[i].meta);
      assert s.next.action + j in ActiveOf(s', c) && s.next.action + j != s.next.action + i;
    }
  }

  lemma MigrateKeepsLinks(s: Store, trigger: M.Trigger)
    ensures LinksShrink(s, M.Migrated(M.Database(s, trigger)).store)
  {
    hide M.Migrated, ScheduleRef, M.Modernized;
    M.MigratedTables(M.Database(s, trigger));
    forall meta: Meta ensures ScheduleRef(M.Modernized(meta)) == ScheduleRef(meta) {
      ModernizedRef(meta);
    }
  }

  lemma ModernizedRef(meta: Meta)
    ensures ScheduleRef(M.Modernized(meta)) == ScheduleRef(meta)
  {
    hide DigitsValue, LeadingDigits;
    assert "mode"[0] != "schedule_id"[0];
  }

  lemma TurnKeepsOneActive(s: Store, config: Config, turn: Turn)
    requires Inv(s) && OneActive(s) && Proper(turn)
    ensures OneActive(TakeTurn(s, config, turn))
  {
    assert [turn][1..] == [];
    OneActiveHolds(s, config, [turn]);
    hide OneActive, Inv, TakeTurn;
    assert TakeTurns(s, config, [turn]) == TakeTurn(s, config, turn);
  }

  /** From a state with at most one active action per schedule, a step ends in one exactly when it doubles none. */
  lemma StepOneActiveIff(s: Store, step: Step)
    requires Inv(s) && WellFormed(step) && OneActive(s)
    ensures OneActive(Apply(s, step)) <==> !StepDoubles(s, step)
  {
    hide Apply, WithinCaps, OneActive, Quiet, Inv, WellFormed;
    if IsQuietStep(step) {
      QuietStep(s, step);
      QuietKeeps(s, Apply(s, step), Caps(0, 0));
    } else {
      LoudStepOneActiveIff(s, step);
    }
  }

  lemma LoudStepOneActiveIff(s: Store, step: Step)
    requires Inv(s) && WellFormed(step) && OneActive(s) && !IsQuietStep(step)
    ensures OneActive(Apply(s, step)) <==> !StepDoubles(s, step)
  {
    hide Inv, OneActive, Doubles, InsertAction, UpdateAction, NextPending, Claim, CliReset, MergeMetadata, BulkMerge,
         LinksShrink, BulkInsertScheduled, TakeTurn, M.Migrated, InsertsCollide, EligibleIds, MergeBatch, Merge,
         MergedMeta, RowsAppended;
    match step {
      case DoInsertAction(spec, deps) =>
        InsertedRow(s, spec, deps);
        var (s', r) := InsertAction(s, spec, deps);
        if r.Ok? {
          OneRowDoublesIff(s, s', s.next.action, NewRow(spec, spec.status.value));
        }
      case DoUpdateAction(id, c) =>
        AmendedMeta(s, id, c);
        var (s', r) := UpdateAction(s, id, c);
        if r.Ok? {
          OneRowDoublesIff(s, s', id, s'.actions[id]);
        }
      case DoNextPending(now) =>
        NextClaims(s, now);
        if EligibleIds(s, now) != {} {
          ClaimLinks(s, Min(EligibleIds(s, now)), now);
          LinksShrinkKeeps(s, Apply(s, step));
        }
      case DoClaim(id, now) =>
        if id in s.actions && s.actions[id].status == Pending {
          ClaimLinks(s, id, now);
          LinksShrinkKeeps(s, Apply(s, step));
        }
      case DoReset(id) =>
        ResetRow(s, id);
        var (s', r) := CliReset(s, id);
        if r.Ok? {
          OneRowDoublesIff(s, s', id, s'.actions[id]);
        }
      case DoMerge(id, updates) =>
        MergedRow(s, id, updates);
        var (s', r) := MergeMetadata(s, id, updates);
        if r.Ok? {
          OneRowDoublesIff(s, s', id, s'.actions[id]);
        }
      case DoBulkMerge(ms) => MergesDoubleIff(s, ms);
      case DoBulkInsert(specs, runs) =>
        if BulkInsertScheduled(s, specs, runs).1.Ok? {
          BulkInsertedRows(s, specs, runs);
          InsertsDoubleIff(s, BulkInsertScheduled(s, specs, runs).0, specs);
        } else {
          RefusedInserts(s, specs, runs);
        }
      case DoMigrate(trigger) =>
        MigrateKeepsLinks(s, trigger);
        LinksShrinkKeeps(s, Apply(s, step));
      case DoTurn(config, turn) => TurnKeepsOneActive(s, config, turn);
    }
  }

  lemma RefusedInserts(s: Store, specs: seq<ActionSpec>, runs: seq<RunUpdate>)
    ensures BulkInsertScheduled(s, specs, runs).1.Err? ==> BulkInsertScheduled(s, specs, runs).0 == s
  {
  }

  // ----- whole runs -----

  /** Every turn of the run is one of a worker with these caps. */
  ghost predicate OneWorker(caps: Caps, steps: seq<Step>) {
    forall step | step in steps :: step.DoTurn? ==> step.config.caps == caps
  }

  ghost predicate NeverSpilled(s: Store, caps: Caps, steps: seq<Step>)
    decreases |steps|
  {
    steps != [] ==> !StepSpills(s, caps, steps[0]) && NeverSpilled(Apply(s, steps[0]), caps, steps[1..])
  }

  ghost predicate AlwaysWithinCaps(s: Store, caps: Caps, steps: seq<Step>)
    decreases |steps|
  {
    WithinCaps(s, caps) && (steps != [] ==> AlwaysWithinCaps(Apply(s, steps[0]), caps, steps[1..]))
  }

  ghost predicate NeverDoubled(s: Store, steps: seq<Step>)
    decreases |steps|
  {
    steps != [] ==> !StepDoubles(s, steps[0]) && NeverDoubled(Apply(s, steps[0]), steps[1..])
  }

  ghost predicate AlwaysOneActive(s: Store, steps: seq<Step>)
    decreases |steps|
  {
    OneActive(s) && (steps != [] ==> AlwaysOneActive(Apply(s, steps[0]), steps[1..]))
  }

  lemma {:induction false} AlwaysWithinCapsIff(s: Store, caps: Caps, steps: seq<Step>)
    requires Inv(s) && AllWellFormed(steps) && OneWorker(caps, steps) && WithinCaps(s, caps)
    ensures AlwaysWithinCaps(s, caps, steps) <==> NeverSpilled(s, caps, steps)
    decreases |steps|
  {
    hide Inv, Evolves, Apply, WellFormed, AllWellFormed, WithinCaps, StepSpills;
    if steps != [] {
      WellFormedTail(steps);
      assert steps[0] in steps && forall step | step in steps[1..] :: step in steps;
      StepAdvances(s, steps[0]);
      StepWithinCapsIff(s, caps, steps[0]);
      if !StepSpills(s, caps, steps[0]) {
        AlwaysWithinCapsIff(Apply(s, steps[0]), caps, steps[1..]);
      } else {
        assert !AlwaysWithinCaps(Apply(s, steps[0]), caps, steps[1..]);
      }
    }
  }

  lemma {:induction false} AlwaysOneActiveIff(s: Store, steps: seq<Step>)
    requires Inv(s) && AllWellFormed(steps) && OneActive(s)
    ensures AlwaysOneActive(s, steps) <==> NeverDoubled(s, steps)
    decreases |steps|
  {
    hide Inv, Evolves, Apply, WellFormed, AllWellFormed, OneActive, StepDoubles;
    if steps != [] {
      WellFormedTail(steps);
      StepAdvances(s, steps[0]);
      StepOneActiveIff(s, steps[0]);
      if !StepDoubles(s, steps[0]) {
        AlwaysOneActiveIff(Apply(s, steps[0]), steps[1..]);
      } else {
        assert !AlwaysOneActive(Apply(s, steps[0]), steps[1..]);
      }
    }
  }
}
