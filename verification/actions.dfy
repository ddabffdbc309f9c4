/** The action state machine: insertion, claims, terminal marks, deferral, reset and amendment of one action. */
module Actions {
  import opened Types
  import opened Metadata
  import opened Sets
  import opened Rows
  import opened History
  import opened Dependencies

  // ----- insertion -----

  function NewRow(spec: ActionSpec, st: Status): Action {
    Action(spec.title, spec.taskId, spec.meta, st, None, spec.dispatchAfter, spec.workDir, None, None)
  }

  ghost function InsertAction(s: Store, spec: ActionSpec, deps: seq<Dep>): (Store, Res<int>) {
    if spec.status.None? then (s, Err(InvalidStatus))
    else if spec.taskId !in s.tasks then (s, Err(ForeignKey))
    else
      var id := s.next.action;
      match InsertDeps(InsertRow(s, NewRow(spec, spec.status.value)), id, deps)
      case Err(e) => (s, Err(e))
      case Ok(s') => (EmitAdded(Emit(s', Created(id, spec.status.value)), id, |deps|), Ok(id))
  }

  lemma OwnEdges(id: int, deps: seq<Dep>)
    ensures forall e | e in EdgesFor(id, deps) :: e.owner == id
  {
  }

  lemma InsertActionAdvances(s: Store, spec: ActionSpec, deps: seq<Dep>)
    requires Inv(s)
    ensures Advances(s, InsertAction(s, spec, deps).0, NO_EDITS)
  {
    hide Core, Replays, Evolves, InsertDeps;
    EvolvesSelf(s, NO_EDITS);
    if InsertAction(s, spec, deps).1.Ok? {
      var id, row := s.next.action, NewRow(spec, spec.status.value);
      var s1 := InsertRow(s, row);
      InsertRowCore(s, row);
      InsertDepsExact(s1, id, deps);
      InsertDepsCore(s1, id, deps);
      OwnEdges(id, deps);
      var s2 := InsertDeps(s1, id, deps).value;
      InsertAdvances(s, row, s2);
      var s3 := Emit(s2, Created(id, row.status));
      SilentAdvances(s3, DependenciesAdded(id, |deps|), NO_EDITS);
      AdvancesTransitive(s, s3, EmitAdded(s3, id, |deps|), NO_EDITS);
    }
  }

  /** A new action is refused for its blockers only when one is missing, of no known kind, or the action itself. */
  lemma InsertActionOkIff(s: Store, spec: ActionSpec, deps: seq<Dep>)
    requires Inv(s)
    ensures InsertAction(s, spec, deps).1.Ok?
       <==> && spec.status.Some? && spec.taskId in s.tasks
            && forall d | d in deps :: BlockerExists(s, d)
  {
    if spec.status.Some? && spec.taskId in s.tasks {
      var id, s1 := s.next.action, InsertRow(s, NewRow(spec, spec.status.value));
      InsertDepsExact(s1, id, deps);
      assert forall e | e in s.edges :: EdgeSound(s.actions, s.tasks, e);
      forall d | d in deps ensures Acceptable(s1, id, d) <==> BlockerExists(s, d) {
        NewOwnerNeverCircular(s1, id, d);
      }
    }
  }

  /**
    An accepted insert writes one row under the returned id, column by column as asked and with no result or
    timestamps, adds the requested edges and no others, and announces both; a refused one writes nothing.
   */
  lemma InsertActionColumns(s: Store, spec: ActionSpec, deps: seq<Dep>)
    ensures
      var (s', r) := InsertAction(s, spec, deps);
      && (r.Err? ==> s' == s)
      && (r.Ok? ==>
            && r.value == s.next.action && s'.next == s.next.(action := r.value + 1) && spec.status.Some?
            && s'.actions
                == s.actions[r.value := Action(
                     title := spec.title, taskId := spec.taskId, meta := spec.meta, status := spec.status.value,
                     result := None, dispatchAfter := spec.dispatchAfter, workDir := spec.workDir,
                     startedAt := None, completedAt := None)]
            && s'.edges == s.edges + (set d | d in deps :: Edge(r.value, d.kind, d.id))
            && s'.projects == s.projects && s'.tasks == s.tasks && s'.schedules == s.schedules
            && s'.events == s.events + [Created(r.value, spec.status.value)]
                            + (if deps == [] then [] else [DependenciesAdded(r.value, |deps|)]))
  {
    if InsertAction(s, spec, deps).1.Ok? {
      var id, s1 := s.next.action, InsertRow(s, NewRow(spec, spec.status.value));
      InsertDepsExact(s1, id, deps);
      assert EdgesFor(id, deps) == set d | d in deps :: Edge(id, d.kind, d.id);
    }
  }

  // ----- claims -----

  /** The WHERE clause of NextPending. */
  predicate Eligible(s: Store, now: int, id: int) {
    && id in s.actions
    && var a := s.actions[id];
    && a.status == Pending
    && a.taskId in s.tasks && s.tasks[a.taskId].projectId in s.projects
    && s.projects[s.tasks[a.taskId].projectId].dispatchEnabled
    && (a.dispatchAfter.None? || a.dispatchAfter.value <= Sec(now))
    && GateOpen(s, id)
  }

  function EligibleIds(s: Store, now: int): set<int> {
    set id | id in s.actions && Eligible(s, now, id)
  }

  function Claim(s: Store, id: int, now: int): Store
    requires id in s.actions
  {
    Emit(PutRow(s, id, s.actions[id].(status := Running, startedAt := Some(Sec(now))), false), Claimed(id))
  }

  /** Least eligible id, claimed; None when nothing is eligible. */
  function NextPending(s: Store, now: int): (Store, Option<int>) {
    var ids := EligibleIds(s, now);
    if ids == {} then (s, None) else (Claim(s, Min(ids), now), Some(Min(ids)))
  }

  /** The manual claim: no gate, no clock, no focus check. */
  function ClaimPending(s: Store, id: int, now: int): (Store, Res<()>) {
    if id !in s.actions then (s, Err(NotFound(id)))
    else if s.actions[id].status != Pending then (s, Err(WrongStatus(s.actions[id].status)))
    else (Claim(s, id, now), Ok(()))
  }

  /** CountPendingByDispatch. */
  function Dispatchable(s: Store, now: int): nat {
    |EligibleIds(s, now)|
  }

  lemma ClaimAdvances(s: Store, id: int, now: int)
    requires Inv(s) && id in s.actions && s.actions[id].status == Pending
    ensures Advances(s, Claim(s, id, now), NO_EDITS)
  {
    MoveAdvances(s, id, s.actions[id].(status := Running, startedAt := Some(Sec(now))), false, Claimed(id));
  }

  lemma ClaimPendingAdvances(s: Store, id: int, now: int)
    requires Inv(s)
    ensures Advances(s, ClaimPending(s, id, now).0, NO_EDITS)
  {
    if ClaimPending(s, id, now).1.Ok? {
      ClaimAdvances(s, id, now);
    }
  }

  lemma NextPendingAdvances(s: Store, now: int)
    requires Inv(s)
    ensures Advances(s, NextPending(s, now).0, NO_EDITS)
  {
    if EligibleIds(s, now) != {} {
      ClaimAdvances(s, Min(EligibleIds(s, now)), now);
    }
  }

  // ----- metadata -----

  /** after is was with the keys of updates laid over it; empty text counts as an object without keys. */
  ghost predicate Overlaid(was: Meta, updates: Object, after: Meta) {
    && (was.Obj? || was.Blank?) && after.Obj?
    && (forall k | k in updates :: k in after.m && after.m[k] == updates[k])
    && (forall k | k !in updates :: k in after.m <==> was.Obj? && k in was.m)
    && (forall k | k !in updates && k in after.m && was.Obj? :: after.m[k] == was.m[k])
  }

  function MergeMetadata(s: Store, id: int, updates: Object): (Store, Res<()>) {
    if id !in s.actions then (s, Err(NotFound(id)))
    else match Merge(s.actions[id].meta, updates)
      case None => (s, Err(BadMetadata))
      case Some(m) => (Emit(PutRow(s, id, s.actions[id].(meta := m), true), MetadataMerged(id, updates.Keys)), Ok(()))
  }

  /** A merge succeeds exactly on a row whose metadata is an object or empty, and overlays the updates on it. */
  lemma MergeMetadataColumns(s: Store, id: int, updates: Object)
    ensures
      var (s', r) := MergeMetadata(s, id, updates);
      && (r.Ok? <==> id in s.actions && (s.actions[id].meta.Obj? || s.actions[id].meta.Blank?))
      && (r.Err? ==> s' == s)
      && (r.Ok? ==>
            && id in s'.actions && s'.actions == s.actions[id := s.actions[id].(meta := s'.actions[id].meta)]
            && Overlaid(s.actions[id].meta, updates, s'.actions[id].meta)
            && s' == s.(actions := s'.actions, actionSearch := s'.actionSearch, events := s'.events)
            && s'.events == s.events + [MetadataMerged(id, updates.Keys)])
  {
  }

  lemma MergeMetadataAdvances(s: Store, id: int, updates: Object)
    requires Inv(s)
    ensures Advances(s, MergeMetadata(s, id, updates).0, NO_EDITS)
  {
    if MergeMetadata(s, id, updates).1.Ok? {
      var a := s.actions[id].(meta := Merge(s.actions[id].meta, updates).value);
      AmendAdvances(s, id, a, true, MetadataMerged(id, updates.Keys));
    }
  }

  // ----- terminal marks -----

  const SUCCESSFUL_RESULT := "successful_result"

  predicate KeepsLostResult(attempted: Status, result: string, observed: Status) {
    attempted == Done && result != "" && (observed == Failed || observed == Cancelled)
  }

  /** preserveSuccessfulResultOnRaceLoss. */
  function PreserveResult(s: Store, id: int, attempted: Status, result: string, observed: Status): (Store, Res<()>) {
    if KeepsLostResult(attempted, result, observed) then
      MergeMetadata(s, id, map[SUCCESSFUL_RESULT := JStr(result)])
    else (s, Ok(()))
  }

  function FinishedRow(a: Action, st: Status, result: string, now: int): Action {
    a.(status := st, result := Some(result), completedAt := Some(Sec(now)))
  }

  function Finish(s: Store, id: int, st: Status, result: string, now: int): Store
    requires id in s.actions
  {
    PutRow(s, id, FinishedRow(s.actions[id], st, result, now), true)
  }

  /** markTerminal with st = Done, Failed or Cancelled. */
  function MarkTerminal(s: Store, id: int, st: Status, result: string, now: int): (Store, Res<()>) {
    if id !in s.actions then (s, Err(NotFound(id)))
    else
      var from := s.actions[id].status;
      if IsTerminal(from) then PreserveResult(s, id, st, result, from)
      else (Emit(Finish(s, id, st, result, now), StatusChanged(id, from, st, Some(result), None)), Ok(()))
  }

  /**
    A terminal mark finishes an active action: status, result text and completion second, every other column
    kept. On one already finished it writes nothing, unless it reports the output of a done action that
    failed or was cancelled meanwhile.
   */
  lemma MarkTerminalColumns(s: Store, id: int, st: Status, result: string, now: int)
    ensures
      var (s', r) := MarkTerminal(s, id, st, result, now);
      && (id !in s.actions ==> s' == s && r == Err(NotFound(id)))
      && (id in s.actions && s.actions[id].status in {Pending, Running, Dispatched} ==>
            && r == Ok(())
            && s'.actions == s.actions[id := s.actions[id].(status := st, result := Some(result),
                                                            completedAt := Some(now / 1_000_000_000))]
            && s'.events == s.events + [StatusChanged(id, s.actions[id].status, st, Some(result), None)]
            && s' == s.(actions := s'.actions, counts := s'.counts, actionSearch := s'.actionSearch,
                        events := s'.events))
      && (id in s.actions && s.actions[id].status in {Done, Failed, Cancelled} ==>
            st != Done || result == "" || s.actions[id].status == Done ==> s' == s && r == Ok(()))
  {
  }

  lemma PreserveAdvances(s: Store, id: int, attempted: Status, result: string, observed: Status)
    requires Inv(s)
    ensures Advances(s, PreserveResult(s, id, attempted, result, observed).0, NO_EDITS)
  {
    hide Inv, MergeMetadata;
    EvolvesSelf(s, NO_EDITS);
    MergeMetadataAdvances(s, id, map[SUCCESSFUL_RESULT := JStr(result)]);
  }

  lemma MarkTerminalAdvances(s: Store, id: int, st: Status, result: string, now: int)
    requires Inv(s) && IsTerminal(st)
    ensures Advances(s, MarkTerminal(s, id, st, result, now).0, NO_EDITS)
  {
    if id in s.actions {
      var a := s.actions[id];
      if IsTerminal(a.status) {
        MergeMetadataAdvances(s, id, map[SUCCESSFUL_RESULT := JStr(result)]);
      } else {
        MoveAdvances(s, id, FinishedRow(a, st, result, now), true, StatusChanged(id, a.status, st, Some(result), None));
      }
    }
  }

  /** What a done mark does to one row. */
  function DoneRow(a: Action, result: string, now: int): Action {
    if !IsTerminal(a.status) then FinishedRow(a, Done, result, now)
    else if KeepsLostResult(Done, result, a.status) && GoParse(a.meta).Some? then
      a.(meta := Obj(GoParse(a.meta).value[SUCCESSFUL_RESULT := JStr(result)]))
    else a
  }

  /** What a failed mark does to one row. */
  function FailedRow(a: Action, reason: string, now: int): Action {
    if IsTerminal(a.status) then a else FinishedRow(a, Failed, reason, now)
  }

  /**
    No worker output is lost: a non-empty result ends as the action's result, or, when the action had
    already failed or been cancelled, under successful_result with every other metadata key and column
    kept. The one refusal is metadata that does not parse.
   */
  lemma DoneKeepsOutput(s: Store, id: int, result: string, now: int)
    requires id in s.actions && result != ""
    ensures
      var (s', r) := MarkTerminal(s, id, Done, result, now);
      var was, row := s.actions[id], s'.actions[id];
      && (r.Err? <==> (was.status == Failed || was.status == Cancelled) && GoParse(was.meta).None?)
      && (r.Err? ==> s' == s)
      && (forall i | i in s.actions && i != id :: i in s'.actions && s'.actions[i] == s.actions[i])
      && (r.Ok? ==>
            || (was.status == Done && row == was)
            || (IsActive(was.status) && row.status == Done && row.result == Some(result) && row.meta == was.meta)
            || (&& (was.status == Failed || was.status == Cancelled)
                && row == was.(meta := row.meta) && row.meta.Obj?
                && "successful_result" in row.meta.m && row.meta.m["successful_result"] == JStr(result)
                && (var keys := GoParse(was.meta).value;
                    && keys.Keys - {"successful_result"} == row.meta.m.Keys - {"successful_result"}
                    && forall k | k in keys && k != "successful_result" :: row.meta.m[k] == keys[k])))
  {
  }

  /** `tq action cancel`: rejects done and cancelled, then marks cancelled. */
  function CliCancel(s: Store, id: int, reason: string, now: int): (Store, Res<()>) {
    if id !in s.actions then (s, Err(NotFound(id)))
    else if s.actions[id].status == Done || s.actions[id].status == Cancelled then
      (s, Err(WrongStatus(s.actions[id].status)))
    else MarkTerminal(s, id, Cancelled, reason, now)
  }

  /** The command succeeds on a failed action but cancels nothing: it has an effect exactly on active actions. */
  lemma CancelEffectiveIff(s: Store, id: int, reason: string, now: int)
    requires id in s.actions
    ensures
      var (s', r) := CliCancel(s, id, reason, now);
      && (s' != s <==> IsActive(s.actions[id].status))
      && (s' != s ==> s'.actions == s.actions[id := s.actions[id].(status := Cancelled, result := Some(reason),
                                                                    completedAt := Some(Sec(now)))])
      && (r.Err? <==> s.actions[id].status == Done || s.actions[id].status == Cancelled)
      && (s.actions[id].status == Failed ==> r.Ok? && s' == s)
  {
  }

  lemma CliCancelAdvances(s: Store, id: int, reason: string, now: int)
    requires Inv(s)
    ensures Advances(s, CliCancel(s, id, reason, now).0, NO_EDITS)
  {
    hide Inv, MarkTerminal;
    EvolvesSelf(s, NO_EDITS);
    MarkTerminalAdvances(s, id, Cancelled, reason, now);
  }

  // ----- dispatch and rollback -----

  function MarkDispatched(s: Store, id: int): (Store, Res<()>) {
    if id in s.actions && s.actions[id].status == Running then
      (Emit(PutRow(s, id, s.actions[id].(status := Dispatched), false),
            StatusChanged(id, Running, Dispatched, None, None)), Ok(()))
    else (s, Err(NotRunning(id)))
  }

  /** movePending: roll back to pending, from any status unless one is required. */
  function MovePending(s: Store, id: int, after: Option<int>, required: Option<Status>): (Store, Res<()>) {
    if id !in s.actions then (s, Err(NotFound(id)))
    else
      var a := s.actions[id];
      if required.Some? && a.status != required.value then (s, Err(WrongStatus(a.status)))
      else (Emit(PutRow(s, id, a.(status := Pending, startedAt := None, dispatchAfter := after), false),
                 StatusChanged(id, a.status, Pending, None, after)), Ok(()))
  }

  /** The second a deferred action becomes eligible again: truncated, then rounded up for sub-second delays. */
  function DeferUntil(now: int, retryAfter: int): int {
    Sec(now + retryAfter) + (if retryAfter > 0 && retryAfter % SECOND != 0 then 1 else 0)
  }

  /** The stored second is strictly later than the current one and within a second of the requested delay. */
  lemma DeferWindow(now: int, retryAfter: int)
    requires retryAfter > 0
    ensures DeferUntil(now, retryAfter) > Sec(now)
    ensures retryAfter - SECOND < DeferUntil(now, retryAfter) * SECOND - now <= retryAfter + SECOND
  {
  }

  /** A whole-second delay is kept to the second; otherwise the stored second is the first one after the delay. */
  lemma DeferExact(now: int, retryAfter: int)
    ensures retryAfter % SECOND == 0 ==> DeferUntil(now, retryAfter) == Sec(now) + retryAfter / SECOND
    ensures retryAfter > 0 && retryAfter % SECOND != 0 ==>
              (DeferUntil(now, retryAfter) - 1) * SECOND <= now + retryAfter < DeferUntil(now, retryAfter) * SECOND
    ensures retryAfter <= 0 ==> DeferUntil(now, retryAfter) == Sec(now + retryAfter)
  {
  }

  function DeferToPending(s: Store, id: int, now: int, retryAfter: int): (Store, Res<()>) {
    MovePending(s, id, Some(DeferUntil(now, retryAfter)), Some(Running))
  }

  /** ResetToPending as the store offers it: any source status. */
  function ResetToPending(s: Store, id: int): (Store, Res<()>) {
    MovePending(s, id, None, None)
  }

  /** `tq action reset`: the guard that keeps `done` absorbing, then the store call, as one step. */
  function CliReset(s: Store, id: int): (Store, Res<()>) {
    if id !in s.actions then (s, Err(NotFound(id)))
    else if s.actions[id].status != Failed && s.actions[id].status != Cancelled then
      (s, Err(WrongStatus(s.actions[id].status)))
    else ResetToPending(s, id)
  }

  lemma MarkDispatchedColumns(s: Store, id: int)
    ensures
      var (s', r) := MarkDispatched(s, id);
      && (r.Ok? <==> id in s.actions && s.actions[id].status == Running)
      && (r.Ok? ==> RowMoved(s, s', id, s.actions[id].(status := Dispatched)))
      && (r.Ok? ==> s'.events == s.events + [StatusChanged(id, Running, Dispatched, None, None)])
      && (r.Err? ==> s' == s)
  {
  }

  lemma DeferColumns(s: Store, id: int, now: int, retryAfter: int)
    ensures
      var (s', r) := DeferToPending(s, id, now, retryAfter);
      && (r.Ok? <==> id in s.actions && s.actions[id].status == Running)
      && (r.Ok? ==>
            var after := Some(DeferUntil(now, retryAfter));
            && RowMoved(s, s', id, s.actions[id].(status := Pending, startedAt := None, dispatchAfter := after))
            && s'.events == s.events + [StatusChanged(id, Running, Pending, None, after)])
      && (r.Err? ==> s' == s)
  {
  }

  lemma ResetColumns(s: Store, id: int)
    ensures
      var (s', r) := CliReset(s, id);
      && (r.Ok? <==> id in s.actions && s.actions[id].status in {Failed, Cancelled})
      && (r.Ok? ==>
            && RowMoved(s, s', id, s.actions[id].(status := Pending, startedAt := None, dispatchAfter := None))
            && s'.events == s.events + [StatusChanged(id, s.actions[id].status, Pending, None, None)])
      && (r.Err? ==> s' == s)
  {
  }

  /** One row is rewritten; search rows, edges and the other tables stay. */
  ghost predicate RowMoved(s: Store, s': Store, id: int, row: Action) {
    s'.actions == s.actions[id := row] && s' == s.(actions := s'.actions, counts := s'.counts, events := s'.events)
  }

  lemma MarkDispatchedAdvances(s: Store, id: int)
    requires Inv(s)
    ensures Advances(s, MarkDispatched(s, id).0, NO_EDITS)
  {
    if MarkDispatched(s, id).1.Ok? {
      MoveAdvances(s, id, s.actions[id].(status := Dispatched), false,
          StatusChanged(id, Running, Dispatched, None, None));
    }
  }

  lemma MovePendingAdvances(s: Store, id: int, after: Option<int>, required: Option<Status>)
    requires Inv(s) && id in s.actions && Legal(s.actions[id].status, Pending)
    ensures Advances(s, MovePending(s, id, after, required).0, NO_EDITS)
  {
    var a := s.actions[id];
    MoveAdvances(s, id, a.(status := Pending, startedAt := None, dispatchAfter := after), false,
                 StatusChanged(id, a.status, Pending, None, after));
  }

  lemma DeferAdvances(s: Store, id: int, now: int, retryAfter: int)
    requires Inv(s)
    ensures Advances(s, DeferToPending(s, id, now, retryAfter).0, NO_EDITS)
  {
    if DeferToPending(s, id, now, retryAfter).1.Ok? {
      MovePendingAdvances(s, id, Some(DeferUntil(now, retryAfter)), Some(Running));
    }
  }

  lemma CliResetAdvances(s: Store, id: int)
    requires Inv(s)
    ensures Advances(s, CliReset(s, id).0, NO_EDITS)
  {
    if CliReset(s, id).1.Ok? {
      MovePendingAdvances(s, id, None, None);
    }
  }

  /** The store call alone keeps the history legal exactly when the action is running, failed or cancelled. */
  lemma RawResetLegalIff(s: Store, id: int)
    requires Inv(s) && id in s.actions
    ensures Advances(s, ResetToPending(s, id).0, NO_EDITS)
       <==> s.actions[id].status in {Running, Failed, Cancelled}
  {
    hide Core, Evolves, Replays;
    if s.actions[id].status in {Running, Failed, Cancelled} {
      MovePendingAdvances(s, id, None, None);
    } else {
      IllegalResetBreaks(s, id);
    }
  }

  lemma IllegalResetBreaks(s: Store, id: int)
    requires Inv(s) && id in s.actions && s.actions[id].status !in {Running, Failed, Cancelled}
    ensures var s' := ResetToPending(s, id).0; !Replays(s'.actions, s'.events, s'.next.action)
  {
    hide Core, Recount;
    var a, s' := s.actions[id], ResetToPending(s, id).0;
    ReplayAppend(s.events, StatusChanged(id, a.status, Pending, None, None), id);
    assert Replay(s'.events, id) == Broken;
  }

  /** Each status change the history allows is made by an operation: it allows no more than the queue does. */
  lemma LegalChangesHappen(s: Store, id: int, to: Status)
    requires id in s.actions && Legal(s.actions[id].status, to)
    ensures
      || (to in {Done, Failed, Cancelled} && id in MarkTerminal(s, id, to, "", 0).0.actions
          && MarkTerminal(s, id, to, "", 0).0.actions[id].status == to)
      || (to == Dispatched && id in MarkDispatched(s, id).0.actions
          && MarkDispatched(s, id).0.actions[id].status == to)
      || (to == Pending && s.actions[id].status == Running && id in DeferToPending(s, id, 0, 0).0.actions
          && DeferToPending(s, id, 0, 0).0.actions[id].status == to)
      || (to == Pending && s.actions[id].status != Running && id in CliReset(s, id).0.actions
          && CliReset(s, id).0.actions[id].status == to)
  {
  }

  // ----- amendment -----

  datatype ActionChanges = ActionChanges(
    title: Option<string>, taskId: Option<int>, meta: Option<Meta>, workDir: Option<string>, result: Option<string>)

  function Or<T>(change: Option<T>, was: T): T {
    if change.Some? then change.value else was
  }

  function FieldCount(c: ActionChanges): nat {
    (if c.title.Some? then 1 else 0) + (if c.taskId.Some? then 1 else 0) + (if c.meta.Some? then 1 else 0)
    + (if c.workDir.Some? then 1 else 0) + (if c.result.Some? then 1 else 0)
  }

  function AmendedRow(a: Action, c: ActionChanges, meta: Meta): Action {
    a.(title := Or(c.title, a.title), taskId := Or(c.taskId, a.taskId), meta := meta,
       workDir := Or(c.workDir, a.workDir), result := if c.result.Some? then c.result else a.result)
  }

  /** The merged metadata column; None when either side is not an object. New metadata may not be empty text. */
  function MergedMeta(a: Action, change: Option<Meta>): Option<Meta> {
    match change
    case None => Some(a.meta)
    case Some(m) => if m.Obj? then Merge(a.meta, m.m) else None
  }

  function UpdateAction(s: Store, id: int, c: ActionChanges): (Store, Res<()>) {
    if c.taskId.Some? && c.taskId.value !in s.tasks then (s, Err(NotFound(c.taskId.value)))
    else if c.taskId.Some? && IsClosed(s.tasks[c.taskId.value].status) then (s, Err(TaskClosed))
    else if id !in s.actions then (s, Err(NotFound(id)))
    else
      var a := s.actions[id];
      if (c.title.Some? || c.taskId.Some? || c.workDir.Some?) && a.status != Pending && a.status != Failed then
        (s, Err(WrongStatus(a.status)))
      else if (c.meta.Some? || c.result.Some?) && !IsAmendable(a.status) then (s, Err(WrongStatus(a.status)))
      else match MergedMeta(a, c.meta)
        case None => (s, Err(BadMetadata))
        case Some(m) =>
          if FieldCount(c) == 0 then (s, Err(NoFields))
          else (Emit(PutRow(s, id, AmendedRow(a, c, m), c.title.Some? || c.meta.Some? || c.result.Some?),
                     Updated(id, FieldCount(c))), Ok(()))
  }

  lemma AmendedHome(s: Store, id: int, c: ActionChanges)
    requires Core(s)
    ensures UpdateAction(s, id, c).1.Ok? ==> Or(c.taskId, s.actions[id].taskId) in s.tasks
  {
  }

  lemma UpdateActionAdvances(s: Store, id: int, c: ActionChanges)
    requires Inv(s)
    ensures Advances(s, UpdateAction(s, id, c).0, NO_EDITS)
  {
    hide Core, Replays, PutRow;
    EvolvesSelf(s, NO_EDITS);
    AmendedHome(s, id, c);
    if UpdateAction(s, id, c).1.Ok? {
      var a := s.actions[id];
      var row := AmendedRow(a, c, MergedMeta(a, c.meta).value);
      var text := c.title.Some? || c.meta.Some? || c.result.Some?;
      AmendAdvances(s, id, row, text, Updated(id, FieldCount(c)));
    }
  }

  /**
    An amendment is accepted exactly when the new task, if any, is open, the status allows the fields given,
    metadata on both sides is an object, and some field is given. It then writes the given values and the
    overlaid metadata and no other column or row; a refused one writes nothing.
   */
  lemma UpdateActionColumns(s: Store, id: int, c: ActionChanges)
    ensures
      var (s', r) := UpdateAction(s, id, c);
      && (r.Ok? <==> AmendmentAllowed(s, id, c))
      && (r.Err? ==> s' == s)
      && (r.Ok? ==>
            && s'.actions.Keys == s.actions.Keys && Amended(s.actions[id], s'.actions[id], c)
            && (forall i | i in s.actions && i != id :: s'.actions[i] == s.actions[i])
            && s' == s.(actions := s'.actions, counts := s'.counts, actionSearch := s'.actionSearch,
                        events := s'.events)
            && s'.events == s.events + [Updated(id, FieldCount(c))])
  {
    hide FieldCount, MergedMeta, AmendedRow, Amended;
    FieldsGiven(c);
    if id in s.actions {
      AmendedColumns(s.actions[id], c);
    }
  }

  lemma FieldsGiven(c: ActionChanges)
    ensures FieldCount(c) > 0 <==> c.title.Some? || c.taskId.Some? || c.meta.Some? || c.workDir.Some? || c.result.Some?
  {
  }

  lemma AmendedColumns(a: Action, c: ActionChanges)
    ensures MergedMeta(a, c.meta).Some? <==> (c.meta.Some? ==> c.meta.value.Obj? && (a.meta.Obj? || a.meta.Blank?))
    ensures MergedMeta(a, c.meta).Some? ==> Amended(a, AmendedRow(a, c, MergedMeta(a, c.meta).value), c)
  {
  }

  ghost predicate AmendmentAllowed(s: Store, id: int, c: ActionChanges) {
    && (c.taskId.Some? ==> c.taskId.value in s.tasks && s.tasks[c.taskId.value].status == Open)
    && id in s.actions
    && (c.title.Some? || c.taskId.Some? || c.workDir.Some? ==> s.actions[id].status in {Pending, Failed})
    && (c.meta.Some? || c.result.Some? ==> s.actions[id].status in {Pending, Done, Failed, Cancelled})
    && (c.meta.Some? ==> c.meta.value.Obj? && (s.actions[id].meta.Obj? || s.actions[id].meta.Blank?))
    && (c.title.Some? || c.taskId.Some? || c.meta.Some? || c.workDir.Some? || c.result.Some?)
  }

  lemma AllowedExists(s: Store, id: int, c: ActionChanges)
    ensures AmendmentAllowed(s, id, c) ==> id in s.actions
  {
  }

  /** Column by column: each given value, and the old one where none is given. */
  ghost predicate Amended(was: Action, now: Action, c: ActionChanges) {
    && now.title == (if c.title.Some? then c.title.value else was.title)
    && now.taskId == (if c.taskId.Some? then c.taskId.value else was.taskId)
    && now.workDir == (if c.workDir.Some? then c.workDir.value else was.workDir)
    && now.result == (if c.result.Some? then Some(c.result.value) else was.result)
    && (c.meta.None? ==> now.meta == was.meta)
    && (c.meta.Some? ==> c.meta.value.Obj? && Overlaid(was.meta, c.meta.value.m, now.meta))
    && now.status == was.status && now.dispatchAfter == was.dispatchAfter
    && now.startedAt == was.startedAt && now.completedAt == was.completedAt
  }
}
