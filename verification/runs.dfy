/** Every operation as one step, and what holds after any sequence of them. */
module RunsOfSteps {
  import opened Types
  import opened Graph
  import opened Rows
  import opened History
  import opened Dependencies
  import opened Actions
  import opened Bulk
  import opened Tables
  import opened WorkerLoop
  import M = Migrate

  datatype Step =
    | DoInsertProject(name: string)
    | DoSetDispatchEnabled(project: int, enabled: bool)
    | DoDeleteProject(project: int, cascade: bool)
    | DoInsertTask(project: int, title: string, meta: Meta, workDir: string)
    | DoUpdateTask(task: int, taskChanges: TaskChanges)
    | DoInsertAction(spec: ActionSpec, deps: seq<Dep>)
    | DoUpdateAction(id: int, changes: ActionChanges)
    | DoAddDeps(id: int, deps: seq<Dep>)
    | DoReplaceDeps(id: int, deps: seq<Dep>)
    | DoClearDeps(id: int)
    | DoNextPending(now: int)
    | DoClaim(id: int, now: int)
    | DoMark(id: int, status: Status, result: string, now: int)
    | DoDispatched(id: int)
    | DoDefer(id: int, now: int, retryAfter: int)
    | DoReset(id: int)
    | DoMerge(id: int, updates: Object)
    | DoBulkMerge(merges: seq<MetaUpdate>)
    | DoBulkDone(marks: seq<Mark>, now: int)
    | DoBulkFailed(marks: seq<Mark>, now: int)
    | DoInsertSchedule(schedule: ScheduleSpec, now: int)
    | DoEnableSchedule(scheduleId: int, enabled: bool)
    | DoUpdateSchedule(scheduleId: int, scheduleChanges: ScheduleChanges)
    | DoDeleteSchedule(scheduleId: int)
    | DoBulkInsert(specs: seq<ActionSpec>, runs: seq<RunUpdate>)
    | DoBulkRuns(runs: seq<RunUpdate>)
    | DoTaskNote(task: int)
    | DoMigrate(trigger: M.Trigger)
    | DoTurn(config: Config, turn: Turn)

  /** A terminal mark asks for a terminal status. */
  predicate WellFormed(step: Step) {
    && (step.DoMark? ==> IsTerminal(step.status))
    && (step.DoTurn? ==> Proper(step.turn))
  }

  /** Steps that write projects and tasks, or the whole database. */
  predicate IsProjectStep(step: Step) {
    step.DoInsertProject? || step.DoSetDispatchEnabled? || step.DoDeleteProject? || step.DoInsertTask?
        || step.DoUpdateTask? || step.DoTaskNote? || step.DoMigrate?
  }

  function ApplyProject(s: Store, step: Step): Store
    requires IsProjectStep(step)
  {
    match step
    case DoInsertProject(name) => InsertProject(s, name).0
    case DoSetDispatchEnabled(p, enabled) => SetDispatchEnabled(s, p, enabled).0
    case DoDeleteProject(p, cascade) => DeleteProject(s, p, cascade).0
    case DoInsertTask(p, title, meta, workDir) => InsertTask(s, p, title, meta, workDir).0
    case DoUpdateTask(t, c) => UpdateTaskFields(s, t, c).0
    case DoTaskNote(t) => if t in s.tasks then Emit(s, Note("task", t, "task.note")) else s
    case DoMigrate(trigger) => M.Migrated(M.Database(s, trigger)).store
  }

  /** Steps of schedules and their actions. */
  predicate IsScheduleStep(step: Step) {
    step.DoInsertSchedule? || step.DoEnableSchedule? || step.DoUpdateSchedule? || step.DoDeleteSchedule?
        || step.DoBulkInsert? || step.DoBulkRuns?
  }

  function ApplySchedule(s: Store, step: Step): Store
    requires IsScheduleStep(step)
  {
    match step
    case DoInsertSchedule(c, now) => InsertSchedule(s, c, now).0
    case DoEnableSchedule(c, enabled) => SetScheduleEnabled(s, c, enabled).0
    case DoUpdateSchedule(c, changes) => UpdateSchedule(s, c, changes).0
    case DoDeleteSchedule(c) => DeleteSchedule(s, c).0
    case DoBulkInsert(specs, runs) => BulkInsertScheduled(s, specs, runs).0
    case DoBulkRuns(us) => BulkUpdateRuns(s, us)
  }

  /** Steps that write one action with its edges. */
  predicate IsEdgeStep(step: Step) {
    step.DoInsertAction? || step.DoUpdateAction? || step.DoAddDeps? || step.DoReplaceDeps? || step.DoClearDeps?
  }

  ghost function ApplyEdge(s: Store, step: Step): Store
    requires IsEdgeStep(step)
  {
    match step
    case DoInsertAction(spec, deps) => InsertAction(s, spec, deps).0
    case DoUpdateAction(id, c) => UpdateAction(s, id, c).0
    case DoAddDeps(id, deps) => AddDeps(s, id, deps).0
    case DoReplaceDeps(id, deps) => ReplaceDeps(s, id, deps).0
    case DoClearDeps(id) => ClearDeps(s, id)
  }

  /** Steps that write the status or metadata of one action. */
  predicate IsStatusStep(step: Step) {
    step.DoNextPending? || step.DoClaim? || step.DoMark? || step.DoDispatched? || step.DoDefer? || step.DoReset?
        || step.DoMerge?
  }

  function ApplyStatus(s: Store, step: Step): Store
    requires IsStatusStep(step)
  {
    match step
    case DoNextPending(now) => NextPending(s, now).0
    case DoClaim(id, now) => ClaimPending(s, id, now).0
    case DoMark(id, st, result, now) => MarkTerminal(s, id, st, result, now).0
    case DoDispatched(id) => MarkDispatched(s, id).0
    case DoDefer(id, now, retryAfter) => DeferToPending(s, id, now, retryAfter).0
    case DoReset(id) => CliReset(s, id).0
    case DoMerge(id, updates) => MergeMetadata(s, id, updates).0
  }

  /** Steps that write many actions. */
  predicate IsBatchStep(step: Step) {
    step.DoBulkMerge? || step.DoBulkDone? || step.DoBulkFailed? || step.DoTurn?
  }

  function ApplyBatch(s: Store, step: Step): Store
    requires IsBatchStep(step)
  {
    match step
    case DoBulkMerge(ms) => BulkMerge(s, ms).0
    case DoBulkDone(us, now) => BulkMarkDone(s, us, now).0
    case DoBulkFailed(us, now) => BulkMarkFailed(s, us, now).0
    case DoTurn(config, turn) => TakeTurn(s, config, turn)
  }

  ghost function Apply(s: Store, step: Step): Store {
    if IsProjectStep(step) then ApplyProject(s, step)
    else if IsScheduleStep(step) then ApplySchedule(s, step)
    else if IsEdgeStep(step) then ApplyEdge(s, step)
    else if IsStatusStep(step) then ApplyStatus(s, step)
    else ApplyBatch(s, step)
  }

  /** The actions whose own dependency edges a step may edit, and the tasks whose status it may write. */
  function Edited(step: Step): Edits {
    if step.DoAddDeps? || step.DoReplaceDeps? || step.DoClearDeps? then Edits({step.id}, {})
    else if step.DoUpdateTask? then Edits({}, {step.task})
    else NO_EDITS
  }

  lemma SelfAdvances(s: Store)
    requires Inv(s)
    ensures Advances(s, s, NO_EDITS)
  {
    EvolvesSelf(s, NO_EDITS);
  }

  lemma ProjectStepAdvances(s: Store, step: Step)
    requires Inv(s) && WellFormed(step) && IsProjectStep(step)
    ensures Advances(s, ApplyProject(s, step), Edited(step))
  {
    hide Inv, Advances, InsertProject, SetDispatchEnabled, DeleteProject, InsertTask, UpdateTaskFields, M.Migrated;
    match step {
      case DoInsertProject(name) => InsertProjectAdvances(s, name);
      case DoSetDispatchEnabled(p, enabled) => SetDispatchEnabledAdvances(s, p, enabled);
      case DoDeleteProject(p, cascade) => DeleteProjectAdvances(s, p, cascade);
      case DoInsertTask(p, title, meta, workDir) => InsertTaskAdvances(s, p, title, meta, workDir);
      case DoUpdateTask(t, c) => UpdateTaskFieldsAdvances(s, t, c);
      case DoTaskNote(t) =>
        SilentAdvances(s, Note("task", t, "task.note"), NO_EDITS);
        SelfAdvances(s);
      case DoMigrate(trigger) => M.MigrateAdvances(s, trigger);
    }
  }

  lemma ScheduleStepAdvances(s: Store, step: Step)
    requires Inv(s) && WellFormed(step) && IsScheduleStep(step)
    ensures Advances(s, ApplySchedule(s, step), Edited(step))
  {
    hide Inv, Advances, InsertSchedule, SetScheduleEnabled, UpdateSchedule, DeleteSchedule, BulkInsertScheduled,
         BulkUpdateRuns;
    match step {
      case DoInsertSchedule(c, now) => InsertScheduleAdvances(s, c, now);
      case DoEnableSchedule(c, enabled) => SetScheduleEnabledAdvances(s, c, enabled);
      case DoUpdateSchedule(c, changes) => UpdateScheduleAdvances(s, c, changes);
      case DoDeleteSchedule(c) => DeleteScheduleAdvances(s, c);
      case DoBulkInsert(specs, runs) => BulkInsertScheduledAdvances(s, specs, runs);
      case DoBulkRuns(us) => BulkUpdateRunsAdvances(s, us);
    }
  }

  lemma EdgeStepAdvances(s: Store, step: Step)
    requires Inv(s) && WellFormed(step) && IsEdgeStep(step)
    ensures Advances(s, ApplyEdge(s, step), Edited(step))
  {
    hide Inv, Advances, InsertAction, UpdateAction, AddDeps, ReplaceDeps, ClearDeps;
    match step {
      case DoInsertAction(spec, deps) => InsertActionAdvances(s, spec, deps);
      case DoUpdateAction(id, c) => UpdateActionAdvances(s, id, c);
      case DoAddDeps(id, deps) => AddDepsAdvances(s, id, deps);
      case DoReplaceDeps(id, deps) => ReplaceDepsAdvances(s, id, deps);
      case DoClearDeps(id) => ClearDepsAdvances(s, id);
    }
  }

  lemma StatusStepAdvances(s: Store, step: Step)
    requires Inv(s) && WellFormed(step) && IsStatusStep(step)
    ensures Advances(s, ApplyStatus(s, step), Edited(step))
  {
    hide Inv, Advances, NextPending, ClaimPending, MarkTerminal, MarkDispatched, DeferToPending, CliReset,
         MergeMetadata, IsTerminal;
    match step {
      case DoNextPending(now) => NextPendingAdvances(s, now);
      case DoClaim(id, now) => ClaimPendingAdvances(s, id, now);
      case DoMark(id, st, result, now) => MarkTerminalAdvances(s, id, st, result, now);
      case DoDispatched(id) => MarkDispatchedAdvances(s, id);
      case DoDefer(id, now, retryAfter) => DeferAdvances(s, id, now, retryAfter);
      case DoReset(id) => CliResetAdvances(s, id);
      case DoMerge(id, updates) => MergeMetadataAdvances(s, id, updates);
    }
  }

  lemma BatchStepAdvances(s: Store, step: Step)
    requires Inv(s) && WellFormed(step) && IsBatchStep(step)
    ensures Advances(s, ApplyBatch(s, step), Edited(step))
  {
    hide Inv, Advances, BulkMerge, BulkMarkDone, BulkMarkFailed, TakeTurn, Proper;
    match step {
      case DoBulkMerge(ms) => BulkMergeAdvances(s, ms);
      case DoBulkDone(us, now) => BulkMarkDoneAdvances(s, us, now);
      case DoBulkFailed(us, now) => BulkMarkFailedAdvances(s, us, now);
      case DoTurn(config, turn) => TurnAdvances(s, config, turn);
    }
  }

  /** Every step keeps the invariant, appends to the log, keeps `done` absorbing and edits only what it names. */
  lemma StepAdvances(s: Store, step: Step)
    requires Inv(s) && WellFormed(step)
    ensures Advances(s, Apply(s, step), Edited(step))
  {
    hide Inv, Advances, WellFormed, Edited, ApplyProject, ApplySchedule, ApplyEdge, ApplyStatus, ApplyBatch;
    if IsProjectStep(step) {
      ProjectStepAdvances(s, step);
    } else if IsScheduleStep(step) {
      ScheduleStepAdvances(s, step);
    } else if IsEdgeStep(step) {
      EdgeStepAdvances(s, step);
    } else if IsStatusStep(step) {
      StatusStepAdvances(s, step);
    } else {
      BatchStepAdvances(s, step);
    }
  }

  ghost function Run(s: Store, steps: seq<Step>): Store
    decreases |steps|
  {
    if steps == [] then s else Run(Apply(s, steps[0]), steps[1..])
  }

  ghost predicate AllWellFormed(steps: seq<Step>) {
    forall step | step in steps :: WellFormed(step)
  }

  lemma WellFormedTail(steps: seq<Step>)
    requires AllWellFormed(steps) && steps != []
    ensures WellFormed(steps[0]) && AllWellFormed(steps[1..])
  {
  }

  lemma {:induction false} RunKeepsInv(s: Store, steps: seq<Step>)
    requires Inv(s) && AllWellFormed(steps)
    ensures Inv(Run(s, steps))
    decreases |steps|
  {
    hide Core, Replays, Evolves, Apply, WellFormed, AllWellFormed;
    if steps != [] {
      WellFormedTail(steps);
      StepAdvances(s, steps[0]);
      RunKeepsInv(Apply(s, steps[0]), steps[1..]);
    }
  }

  /**
    After every sequence of operations on a new database: the action edges are acyclic and refer to
    existing rows, the counts table equals a recount, the search rows equal a projection, and the event
    log of every action is a legal history that ends in its status.
   */
  lemma ReachableInv(steps: seq<Step>)
    requires AllWellFormed(steps)
    ensures
      var s := Run(EMPTY, steps);
      && Acyclic(s.edges)
      && (forall e | e in s.edges ::
            && e.owner in s.actions && (e.kind == OnAction || e.kind == OnTask)
            && (e.kind == OnAction ==> e.id in s.actions) && (e.kind == OnTask ==> e.id in s.tasks))
      && (forall t: int, st: Status ::
            CountAt(s.counts, t, st) == |set id | id in s.actions && s.actions[id].taskId == t
                                                  && s.actions[id].status == st|)
      && s.actionSearch.Keys == s.actions.Keys && s.taskSearch.Keys == s.tasks.Keys
      && (forall id | id in s.actions :: s.actionSearch[id] == SearchRow(
            title := s.actions[id].title, meta := s.actions[id].meta,
            result := if s.actions[id].result.Some? then s.actions[id].result.value else ""))
      && (forall t | t in s.tasks :: s.taskSearch[t] == SearchRow(
            title := s.tasks[t].title, meta := s.tasks[t].meta, result := ""))
      && forall id | id in s.actions :: Replay(s.events, id) == At(s.actions[id].status)
  {
    EmptyInv();
    RunKeepsInv(EMPTY, steps);
    hide Run, Acyclic;
    var s := Run(EMPTY, steps);
    assert forall e | e in s.edges :: EdgeSound(s.actions, s.tasks, e);
    forall t: int, st: Status
      ensures CountAt(s.counts, t, st) == |set id | id in s.actions && s.actions[id].taskId == t
                                                    && s.actions[id].status == st|
    {
      assert CountAt(s.counts, t, st) == Tally(s.actions, t, st);
    }
  }

  // ----- done is absorbing -----

  /** Whether an action exists in every state of a run. */
  ghost predicate Survives(s: Store, steps: seq<Step>, id: int)
    decreases |steps|
  {
    id in s.actions && (steps != [] ==> Survives(Apply(s, steps[0]), steps[1..], id))
  }

  /** `done` is left only by deletion, under every step of the worker and the command line. */
  lemma {:induction false} DoneAbsorbing(s: Store, steps: seq<Step>, id: int)
    requires Inv(s) && AllWellFormed(steps) && Survives(s, steps, id) && s.actions[id].status == Done
    ensures id in Run(s, steps).actions && Run(s, steps).actions[id].status == Done
    decreases |steps|
  {
    if steps != [] {
      hide Core, Replays, Apply, WellFormed, AllWellFormed;
      WellFormedTail(steps);
      StepAdvances(s, steps[0]);
      DoneAbsorbing(Apply(s, steps[0]), steps[1..], id);
    }
  }
}
