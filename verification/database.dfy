/**
  The database as an object: its tables are fields, its operations write them row by row and roll back on
  error. Every method is tied to the operation on values that it implements.
 */
module DatabaseObject {
  import opened Types
  import opened Metadata
  import opened Sets
  import opened Graph
  import opened Rows
  import opened History
  import opened Dependencies
  import opened Actions
  import opened Bulk
  import opened Tables
  import M = Migrate

  class DB {
    var projects: map<int, Project>
    var tasks: map<int, Task>
    var actions: map<int, Action>
    var schedules: map<int, Schedule>
    var edges: set<Edge>
    var counts: Counts
    var actionSearch: map<int, SearchRow>
    var taskSearch: map<int, SearchRow>
    var events: seq<Event>
    var next: Ids
    var countTrigger: M.Trigger

    function Snapshot(): Store
      reads this
    {
      Store(projects, tasks, actions, schedules, edges, counts, actionSearch, taskSearch, events, next)
    }

    /** The current trigger is installed, and tables and log satisfy the invariant. Every public method keeps it. */
    ghost predicate Valid()
      reads this
    {
      countTrigger == M.Current && Inv(Snapshot())
    }

    constructor ()
      ensures Valid() && Snapshot() == EMPTY
    {
      projects, tasks, actions, schedules, edges := map[], map[], map[], map[], {};
      counts, actionSearch, taskSearch, events, next := map[], map[], map[], [], Ids(1, 1, 1, 1);
      countTrigger := M.Current;
      new;
      EmptyInv();
    }

    /** Rolls a transaction back. */
    method Restore(s: Store)
      modifies this
      ensures Snapshot() == s && countTrigger == old(countTrigger)
    {
      projects, tasks, actions, schedules, edges := s.projects, s.tasks, s.actions, s.schedules, s.edges;
      counts, actionSearch, taskSearch, events, next := s.counts, s.actionSearch, s.taskSearch, s.events, s.next;
    }

    // ----- parts of operations: rollback, events, row writes and their triggers -----

    // These, and the methods named Tx or Rows, run inside the operations below and may pass through states
    // that are not valid; every operation of the interface starts and ends in a valid one.

    method EmitEvent(e: Event)
      modifies `events
      ensures Snapshot() == Emit(old(Snapshot()), e)
    {
      events := events + [e];
    }

    method EmitEvents(es: seq<Event>)
      modifies `events
      ensures Snapshot() == EmitAll(old(Snapshot()), es)
    {
      var i := 0;
      while i < |es|
        invariant 0 <= i <= |es|
        invariant events == old(events) + es[..i]
      {
        EmitEvent(es[i]);
        i := i + 1;
      }
      assert es[..|es|] == es;
    }

    method InsertActionRow(a: Action) returns (id: int)
      modifies this
      ensures id == old(next.action) && Snapshot() == InsertRow(old(Snapshot()), a)
      ensures countTrigger == old(countTrigger)
    {
      id := next.action;
      actions := actions[id := a];
      next := next.(action := id + 1);
      counts := counts[(a.taskId, a.status) := CountAt(counts, a.taskId, a.status) + 1];
      actionSearch := actionSearch[id := ActionRow(a)];
    }

    method UpdateActionRow(id: int, a: Action, text: bool)
      requires countTrigger == M.Current && id in actions
      modifies this
      ensures Snapshot() == PutRow(old(Snapshot()), id, a, text)
      ensures countTrigger == old(countTrigger)
    {
      var was := actions[id];
      actions := actions[id := a];
      if was.taskId != a.taskId || was.status != a.status {
        if (was.taskId, was.status) in counts {
          counts := counts[(was.taskId, was.status) := counts[(was.taskId, was.status)] - 1];
        }
        counts := counts[(a.taskId, a.status) := CountAt(counts, a.taskId, a.status) + 1];
      }
      if text {
        actionSearch := actionSearch - {id};
        actionSearch := actionSearch[id := ActionRow(a)];
        assert actionSearch == old(actionSearch)[id := ActionRow(a)];
      }
    }

    method DeleteActionRow(id: int)
      requires id in actions
      modifies this
      ensures Snapshot() == DeleteRow(old(Snapshot()), id)
      ensures countTrigger == old(countTrigger)
    {
      var was := actions[id];
      actions := actions - {id};
      edges := set e | e in edges && e.owner != id;
      edges := set e | e in edges && !(e.kind == OnAction && e.id == id);
      assert edges == DeleteRow(old(Snapshot()), id).edges;
      if (was.taskId, was.status) in counts {
        counts := counts[(was.taskId, was.status) := counts[(was.taskId, was.status)] - 1];
      }
      actionSearch := actionSearch - {id};
    }

    method RemoveTaskRow(t: int)
      requires t in tasks
      modifies this
      ensures Snapshot() == DeleteTaskRow(old(Snapshot()), t)
      ensures countTrigger == old(countTrigger)
    {
      tasks := tasks - {t};
      counts := map k | k in counts && k.0 != t :: counts[k];
      edges := set e | e in edges && !(e.kind == OnTask && e.id == t);
      taskSearch := taskSearch - {t};
    }

    // ----- dependencies -----

    /** Validates and inserts edge after edge; on error the edges inserted so far are still there. */
    method InsertActionDependenciesTx(owner: int, deps: seq<Dep>, checkActionExists: bool) returns (err: Option<Error>)
      modifies `edges
      ensures deps != [] && checkActionExists && owner !in actions ==>
          err == Some(NotFound(owner)) && edges == old(edges)
      ensures deps == [] || !checkActionExists || owner in actions ==>
                match InsertDeps(old(Snapshot()), owner, deps)
                case Ok(s) => err == None && Snapshot() == s
                case Err(e) => err == Some(e)
    {
      if deps == [] {
        return None;
      }
      if checkActionExists && owner !in actions {
        return Some(NotFound(owner));
      }
      var i := 0;
      while i < |deps|
        invariant 0 <= i <= |deps|
        invariant InsertDeps(Snapshot(), owner, deps[i..]) == InsertDeps(old(Snapshot()), owner, deps)
      {
        var d := deps[i];
        match d.kind {
          case OnAction =>
            if d.id == owner {
              return Some(SelfDependency);
            }
            if d.id !in actions {
              return Some(MissingBlocker(d.id));
            }
            var cyclic := ActionReachable(edges, d.id, owner);
            if cyclic {
              return Some(Circular(d.id));
            }
          case OnTask =>
            if d.id !in tasks {
              return Some(MissingBlocker(d.id));
            }
          case OnOther(_) =>
            return Some(InvalidDepType);
        }
        assert deps[i..][1..] == deps[i + 1..];
        edges := edges + {EdgeFor(owner, d)};
        i := i + 1;
      }
      return None;
    }

    method AddActionDependencies(owner: int, deps: seq<Dep>) returns (r: Res<()>)
      requires Valid()
      modifies this
      ensures Valid() && Evolves(old(Snapshot()), Snapshot(), Edits({owner}, {}))
      ensures (Snapshot(), r) == AddDeps(old(Snapshot()), owner, deps)
    {
      hide Inv, Evolves;
      AddDepsAdvances(Snapshot(), owner, deps);
      if deps == [] {
        return Ok(());
      }
      var saved := Snapshot();
      var err := InsertActionDependenciesTx(owner, deps, true);
      if err.Some? {
        Restore(saved);
        return Err(err.value);
      }
      EmitEvent(DependenciesAdded(owner, |deps|));
      return Ok(());
    }

    method ReplaceActionDependencies(owner: int, deps: seq<Dep>) returns (r: Res<()>)
      requires Valid()
      modifies this
      ensures Valid() && Evolves(old(Snapshot()), Snapshot(), Edits({owner}, {}))
      ensures (Snapshot(), r) == ReplaceDeps(old(Snapshot()), owner, deps)
    {
      hide Inv, Evolves;
      ReplaceDepsAdvances(Snapshot(), owner, deps);
      if owner !in actions {
        return Err(NotFound(owner));
      }
      var saved := Snapshot();
      var own := set e | e in edges && e.owner == owner;
      assert own == EdgesOf(saved, owner);
      edges := edges - own;
      var err := InsertActionDependenciesTx(owner, deps, false);
      if err.Some? {
        Restore(saved);
        return Err(err.value);
      }
      if |own| > 0 {
        EmitEvent(DependenciesCleared(owner, |own|));
      }
      if |deps| > 0 {
        EmitEvent(DependenciesAdded(owner, |deps|));
      }
      return Ok(());
    }

    method ClearActionDependencies(owner: int)
      requires Valid()
      modifies this
      ensures Valid() && Evolves(old(Snapshot()), Snapshot(), Edits({owner}, {}))
      ensures Snapshot() == ClearDeps(old(Snapshot()), owner)
      ensures EdgesOf(Snapshot(), owner) == {} && GateOpen(Snapshot(), owner)
      ensures forall id | id != owner :: EdgesOf(Snapshot(), id) == EdgesOf(old(Snapshot()), id)
    {
      hide Inv, Evolves;
      ClearDepsAdvances(Snapshot(), owner);
      ClearDepsExact(Snapshot(), owner);
      var own := set e | e in edges && e.owner == owner;
      assert own == EdgesOf(Snapshot(), owner);
      edges := edges - own;
      if |own| > 0 {
        EmitEvent(DependenciesCleared(owner, |own|));
      }
    }

    // ----- single actions -----

    method InsertActionWithDependencies(spec: ActionSpec, deps: seq<Dep>) returns (r: Res<int>)
      requires Valid()
      modifies this
      ensures Valid() && Evolves(old(Snapshot()), Snapshot(), NO_EDITS)
      ensures (Snapshot(), r) == InsertAction(old(Snapshot()), spec, deps)
      ensures r.Ok? ==>
                && r.value == old(next).action && spec.status.Some?
                && actions == old(actions)[r.value := Action(
                     title := spec.title, taskId := spec.taskId, meta := spec.meta, status := spec.status.value,
                     result := None, dispatchAfter := spec.dispatchAfter, workDir := spec.workDir,
                     startedAt := None, completedAt := None)]
                && edges == old(edges) + (set d | d in deps :: Edge(r.value, d.kind, d.id))
      ensures r.Err? ==> Snapshot() == old(Snapshot())
    {
      hide Inv, Evolves;
      InsertActionAdvances(Snapshot(), spec, deps);
      InsertActionColumns(Snapshot(), spec, deps);
      if spec.status.None? {
        return Err(InvalidStatus);
      }
      if spec.taskId !in tasks {
        return Err(ForeignKey);
      }
      var saved := Snapshot();
      var id := InsertActionRow(NewRow(spec, spec.status.value));
      var err := InsertActionDependenciesTx(id, deps, false);
      if err.Some? {
        Restore(saved);
        return Err(err.value);
      }
      EmitEvent(Created(id, spec.status.value));
      if |deps| > 0 {
        EmitEvent(DependenciesAdded(id, |deps|));
      }
      return Ok(id);
    }

    method NextPendingAction(now: int) returns (id: Option<int>)
      requires Valid()
      modifies this
      ensures Valid() && Evolves(old(Snapshot()), Snapshot(), NO_EDITS)
      ensures (Snapshot(), id) == NextPending(old(Snapshot()), now)
    {
      hide Inv, Evolves;
      NextPendingAdvances(Snapshot(), now);
      var ids := EligibleIds(Snapshot(), now);
      if ids == {} {
        return None;
      }
      var least := Min(ids);
      UpdateActionRow(least, actions[least].(status := Running, startedAt := Some(Sec(now))), false);
      EmitEvent(Claimed(least));
      return Some(least);
    }

    method ClaimPendingAction(id: int, now: int) returns (r: Res<()>)
      requires Valid()
      modifies this
      ensures Valid() && Evolves(old(Snapshot()), Snapshot(), NO_EDITS)
      ensures (Snapshot(), r) == ClaimPending(old(Snapshot()), id, now)
      ensures r.Ok? <==> id in old(actions) && old(actions)[id].status == Pending
      ensures r.Ok? ==> actions == old(actions)[id := old(actions)[id].(status := Running, startedAt := Some(Sec(now)))]
      ensures r.Err? ==> Snapshot() == old(Snapshot())
    {
      hide Inv, Evolves;
      ClaimPendingAdvances(Snapshot(), id, now);
      if id !in actions {
        return Err(NotFound(id));
      }
      if actions[id].status != Pending {
        return Err(WrongStatus(actions[id].status));
      }
      UpdateActionRow(id, actions[id].(status := Running, startedAt := Some(Sec(now))), false);
      EmitEvent(Claimed(id));
      return Ok(());
    }

    method MergeActionMetadata(id: int, updates: Object) returns (r: Res<()>)
      requires Valid()
      modifies this
      ensures Valid() && Evolves(old(Snapshot()), Snapshot(), NO_EDITS)
      ensures (Snapshot(), r) == MergeMetadata(old(Snapshot()), id, updates)
    {
      hide Inv, Evolves;
      MergeMetadataAdvances(Snapshot(), id, updates);
      if id !in actions {
        return Err(NotFound(id));
      }
      var merged := Merge(actions[id].meta, updates);
      if merged.None? {
        return Err(BadMetadata);
      }
      UpdateActionRow(id, actions[id].(meta := merged.value), true);
      EmitEvent(MetadataMerged(id, updates.Keys));
      return Ok(());
    }

    method PreserveSuccessfulResult(id: int, attempted: Status, result: string, observed: Status) returns (r: Res<()>)
      requires Valid()
      modifies this
      ensures Valid() && Evolves(old(Snapshot()), Snapshot(), NO_EDITS)
      ensures (Snapshot(), r) == PreserveResult(old(Snapshot()), id, attempted, result, observed)
    {
      hide Inv, Evolves;
      PreserveAdvances(Snapshot(), id, attempted, result, observed);
      if attempted != Done || result == "" {
        return Ok(());
      }
      if !IsTerminal(observed) || observed == Done {
        return Ok(());
      }
      r := MergeActionMetadata(id, map[SUCCESSFUL_RESULT := JStr(result)]);
    }

    /** The UPDATE every terminal transition shares. */
    method FinishActionRow(id: int, st: Status, result: string, now: int)
      requires countTrigger == M.Current && id in actions
      modifies this
      ensures Snapshot() == Finish(old(Snapshot()), id, st, result, now) && countTrigger == old(countTrigger)
    {
      UpdateActionRow(id, actions[id].(status := st, result := Some(result), completedAt := Some(Sec(now))), true);
    }

    method MarkTerminalAction(id: int, st: Status, result: string, now: int) returns (r: Res<()>)
      requires Valid() && IsTerminal(st)
      modifies this
      ensures Valid() && Evolves(old(Snapshot()), Snapshot(), NO_EDITS)
      ensures (Snapshot(), r) == MarkTerminal(old(Snapshot()), id, st, result, now)
    {
      hide Inv, Evolves;
      MarkTerminalAdvances(Snapshot(), id, st, result, now);
      if id !in actions {
        return Err(NotFound(id));
      }
      var from := actions[id].status;
      if IsTerminal(from) {
        r := PreserveSuccessfulResult(id, st, result, from);
        return;
      }
      FinishActionRow(id, st, result, now);
      EmitEvent(StatusChanged(id, from, st, Some(result), None));
      return Ok(());
    }

    method MarkDispatchedAction(id: int) returns (r: Res<()>)
      requires Valid()
      modifies this
      ensures Valid() && Evolves(old(Snapshot()), Snapshot(), NO_EDITS)
      ensures (Snapshot(), r) == MarkDispatched(old(Snapshot()), id)
    {
      hide Inv, Evolves;
      MarkDispatchedAdvances(Snapshot(), id);
      if id !in actions || actions[id].status != Running {
        return Err(NotRunning(id));
      }
      UpdateActionRow(id, actions[id].(status := Dispatched), false);
      EmitEvent(StatusChanged(id, Running, Dispatched, None, None));
      return Ok(());
    }

    method MoveToPending(id: int, after: Option<int>, required: Option<Status>) returns (r: Res<()>)
      requires countTrigger == M.Current
      modifies this
      ensures (Snapshot(), r) == MovePending(old(Snapshot()), id, after, required) && countTrigger == old(countTrigger)
    {
      if id !in actions {
        return Err(NotFound(id));
      }
      var from := actions[id].status;
      if required.Some? && from != required.value {
        return Err(WrongStatus(from));
      }
      UpdateActionRow(id, actions[id].(status := Pending, startedAt := None, dispatchAfter := after), false);
      EmitEvent(StatusChanged(id, from, Pending, None, after));
      return Ok(());
    }

    method DeferAction(id: int, now: int, retryAfter: int) returns (r: Res<()>)
      requires Valid()
      modifies this
      ensures Valid() && Evolves(old(Snapshot()), Snapshot(), NO_EDITS)
      ensures (Snapshot(), r) == DeferToPending(old(Snapshot()), id, now, retryAfter)
    {
      hide Inv, Evolves;
      DeferAdvances(Snapshot(), id, now, retryAfter);
      var second := Sec(now + retryAfter);
      if retryAfter > 0 && retryAfter % SECOND != 0 {
        second := second + 1;
      }
      r := MoveToPending(id, Some(second), Some(Running));
    }

    /** The `reset` command: read, reject by status, then reset. */
    method ResetCommand(id: int) returns (r: Res<()>)
      requires Valid()
      modifies this
      ensures Valid() && Evolves(old(Snapshot()), Snapshot(), NO_EDITS)
      ensures (Snapshot(), r) == CliReset(old(Snapshot()), id)
      ensures r.Ok? <==> id in old(actions) && old(actions)[id].status in {Failed, Cancelled}
      ensures r.Ok? ==> actions == old(actions)[id := old(actions)[id].(status := Pending, startedAt := None,
          dispatchAfter := None)]
      ensures r.Err? ==> Snapshot() == old(Snapshot())
    {
      hide Inv, Evolves;
      CliResetAdvances(Snapshot(), id);
      if id !in actions {
        return Err(NotFound(id));
      }
      var st := actions[id].status;
      if st == Pending || st == Done {
        return Err(WrongStatus(st));
      }
      if st == Running || st == Dispatched {
        return Err(WrongStatus(st));
      }
      r := MoveToPending(id, None, None);
    }

    /** The SET list built field by field. */
    method BuildChanges(was: Action, c: ActionChanges) returns (a: Action, fields: nat, ok: bool)
      ensures ok <==> MergedMeta(was, c.meta).Some?
      ensures ok ==> a == AmendedRow(was, c, MergedMeta(was, c.meta).value) && fields == FieldCount(c)
    {
      a, fields, ok := was, 0, true;
      if c.title.Some? {
        a, fields := a.(title := c.title.value), fields + 1;
      }
      if c.taskId.Some? {
        a, fields := a.(taskId := c.taskId.value), fields + 1;
      }
      if c.meta.Some? {
        var merged := MergedMeta(was, c.meta);
        if merged.None? {
          return a, fields, false;
        }
        a, fields := a.(meta := merged.value), fields + 1;
      }
      if c.workDir.Some? {
        a, fields := a.(workDir := c.workDir.value), fields + 1;
      }
      if c.result.Some? {
        a, fields := a.(result := c.result), fields + 1;
      }
    }

    /** The `cancel` command. */
    method CancelCommand(id: int, reason: string, now: int) returns (r: Res<()>)
      requires Valid()
      modifies this
      ensures Valid() && Evolves(old(Snapshot()), Snapshot(), NO_EDITS)
      ensures (Snapshot(), r) == CliCancel(old(Snapshot()), id, reason, now)
      ensures Snapshot() != old(Snapshot()) <==> id in old(actions) && IsActive(old(actions)[id].status)
      ensures Snapshot() != old(Snapshot()) ==>
          id in actions && actions[id].status == Cancelled && actions[id].result == Some(reason)
    {
      hide Inv, Evolves;
      CliCancelAdvances(Snapshot(), id, reason, now);
      if id !in actions {
        return Err(NotFound(id));
      }
      var st := actions[id].status;
      if st == Done || st == Cancelled {
        return Err(WrongStatus(st));
      }
      r := MarkTerminalAction(id, Cancelled, reason, now);
    }

    /** The transaction of UpdateAction, entered once the new task is known to be open. */
    method AmendActionTx(id: int, c: ActionChanges) returns (r: Res<()>)
      requires countTrigger == M.Current
      requires c.taskId.Some? ==> c.taskId.value in tasks && !IsClosed(tasks[c.taskId.value].status)
      modifies this
      ensures (Snapshot(), r) == UpdateAction(old(Snapshot()), id, c) && countTrigger == old(countTrigger)
    {
      hide PutRow, AmendedRow, MergedMeta, FieldCount;
      if id !in actions {
        return Err(NotFound(id));
      }
      var st := actions[id].status;
      if (c.title.Some? || c.taskId.Some? || c.workDir.Some?) && st != Pending && st != Failed {
        return Err(WrongStatus(st));
      }
      if c.meta.Some? && !IsAmendable(st) {
        return Err(WrongStatus(st));
      }
      if c.result.Some? && !IsAmendable(st) {
        return Err(WrongStatus(st));
      }
      var a, fields, ok := BuildChanges(actions[id], c);
      if !ok {
        return Err(BadMetadata);
      }
      if fields == 0 {
        return Err(NoFields);
      }
      UpdateActionRow(id, a, c.title.Some? || c.meta.Some? || c.result.Some?);
      EmitEvent(Updated(id, fields));
      return Ok(());
    }

    method AmendAction(id: int, c: ActionChanges) returns (r: Res<()>)
      requires Valid()
      modifies this
      ensures Valid() && Evolves(old(Snapshot()), Snapshot(), NO_EDITS)
      ensures (Snapshot(), r) == UpdateAction(old(Snapshot()), id, c)
      ensures r.Ok? <==> AmendmentAllowed(old(Snapshot()), id, c)
      ensures r.Ok? ==> id in old(actions) && id in actions && Amended(old(actions)[id], actions[id], c)
      ensures r.Err? ==> Snapshot() == old(Snapshot())
      ensures actions.Keys == old(actions).Keys
      ensures forall i | i in actions && i != id :: actions[i] == old(actions)[i]
    {
      hide Inv, Evolves, AmendmentAllowed, Amended;
      UpdateActionAdvances(Snapshot(), id, c);
      UpdateActionColumns(Snapshot(), id, c);
      AllowedExists(Snapshot(), id, c);
      if c.taskId.Some? {
        if c.taskId.value !in tasks {
          return Err(NotFound(c.taskId.value));
        }
        if IsClosed(tasks[c.taskId.value].status) {
          return Err(TaskClosed);
        }
      }
      hide UpdateAction;
      r := AmendActionTx(id, c);
    }

    // ----- bulk operations -----

    method BulkMarkFailedActions(us: seq<Mark>, now: int) returns (r: Res<()>)
      requires Valid()
      modifies this
      ensures Valid() && Evolves(old(Snapshot()), Snapshot(), NO_EDITS)
      ensures (Snapshot(), r) == BulkMarkFailed(old(Snapshot()), us, now)
    {
      hide Finish, FirstMissing, MarkBatch, Inv, Evolves;
      BulkMarkFailedAdvances(Snapshot(), us, now);
      var saved := Snapshot();
      var done: seq<Event> := [];
      var i := 0;
      while i < |us|
        invariant 0 <= i <= |us|
        invariant countTrigger == old(countTrigger) && FirstMissing(Snapshot(), us[i..]) == FirstMissing(saved, us)
        invariant AllExist(saved, us) ==>
                    var b, rest := MarkBatch(saved, us, Failed, now), MarkBatch(Snapshot(), us[i..], Failed, now);
                    b.store == rest.store && b.events == done + rest.events
      {
        var u := us[i];
        if u.id !in actions {
          BatchStop(Snapshot(), us, i);
          Restore(saved);
          return Err(NotFound(u.id));
        }
        BatchStep(Snapshot(), us, i, Failed, now);
        var from := actions[u.id].status;
        if !IsTerminal(from) {
          FinishActionRow(u.id, Failed, u.text, now);
          done := done + [StatusChanged(u.id, from, Failed, Some(u.text), None)];
        }
        i := i + 1;
      }
      BatchEnd(Snapshot(), us, Failed, now);
      assert done + [] == done;
      EmitEvents(done);
      return Ok(());
    }

    /** The transaction of BulkMarkDone: rows finished, transitions to announce, updates that lost their race. */
    method MarkDoneTx(us: seq<Mark>, now: int) returns (err: Option<Error>, done: seq<Event>, lost: seq<Lost>)
      requires countTrigger == M.Current
      modifies this
      ensures FirstMissing(old(Snapshot()), us).Some? ==>
                err == Some(NotFound(FirstMissing(old(Snapshot()), us).value)) && Snapshot() == old(Snapshot())
      ensures FirstMissing(old(Snapshot()), us).None? ==>
                err == None && Batch(Snapshot(), done, lost) == MarkBatch(old(Snapshot()), us, Done, now)
      ensures countTrigger == old(countTrigger)
    {
      hide Finish, FirstMissing, MarkBatch;
      var saved := Snapshot();
      err, done, lost := None, [], [];
      var i := 0;
      while i < |us|
        invariant 0 <= i <= |us|
        invariant countTrigger == old(countTrigger) && FirstMissing(Snapshot(), us[i..]) == FirstMissing(saved, us)
        invariant AllExist(saved, us) ==>
                    var b, rest := MarkBatch(saved, us, Done, now), MarkBatch(Snapshot(), us[i..], Done, now);
                    b.store == rest.store && b.events == done + rest.events && b.lost == lost + rest.lost
      {
        var u := us[i];
        if u.id !in actions {
          BatchStop(Snapshot(), us, i);
          Restore(saved);
          return Some(NotFound(u.id)), [], [];
        }
        BatchStep(Snapshot(), us, i, Done, now);
        var from := actions[u.id].status;
        if IsTerminal(from) {
          lost := lost + [Lost(u.id, u.text, from)];
        } else {
          FinishActionRow(u.id, Done, u.text, now);
          done := done + [StatusChanged(u.id, from, Done, Some(u.text), None)];
        }
        i := i + 1;
      }
      BatchEnd(Snapshot(), us, Done, now);
    }

    method PreserveLostResults(lost: seq<Lost>) returns (r: Res<()>)
      requires Valid()
      modifies this
      ensures Valid() && Evolves(old(Snapshot()), Snapshot(), NO_EDITS)
      ensures (Snapshot(), r) == PreserveLost(old(Snapshot()), lost)
    {
      hide Inv, Evolves;
      PreserveLostAdvances(Snapshot(), lost);
      var i := 0;
      while i < |lost|
        invariant 0 <= i <= |lost|
        invariant Valid() && PreserveLost(Snapshot(), lost[i..]) == PreserveLost(old(Snapshot()), lost)
      {
        var l := lost[i];
        assert lost[i..][0] == l && lost[i..][1..] == lost[i + 1..];
        r := PreserveSuccessfulResult(l.id, Done, l.result, l.observed);
        if r.Err? {
          return;
        }
        i := i + 1;
      }
      return Ok(());
    }

    method BulkMarkDoneActions(us: seq<Mark>, now: int) returns (r: Res<()>)
      requires Valid()
      modifies this
      ensures Valid() && Evolves(old(Snapshot()), Snapshot(), NO_EDITS)
      ensures (Snapshot(), r) == BulkMarkDone(old(Snapshot()), us, now)
    {
      hide Inv, Evolves;
      BulkMarkDoneAdvances(Snapshot(), us, now);
      var err, done, lost := MarkDoneTx(us, now);
      if err.Some? {
        return Err(err.value);
      }
      MarkBatchAdvances(old(Snapshot()), us, Done, now);
      EmitEvents(done);
      r := PreserveLostResults(lost);
    }

    method BulkMergeMetadata(ms: seq<MetaUpdate>) returns (r: Res<()>)
      requires Valid()
      modifies this
      ensures Valid() && Evolves(old(Snapshot()), Snapshot(), NO_EDITS)
      ensures (Snapshot(), r) == BulkMerge(old(Snapshot()), ms)
    {
      hide Inv, Evolves;
      BulkMergeAdvances(Snapshot(), ms);
      var saved := Snapshot();
      var done: seq<Event> := [];
      var i := 0;
      while i < |ms|
        invariant 0 <= i <= |ms| && countTrigger == old(countTrigger)
        invariant match MergeBatch(saved, ms)
                  case Err(e) => MergeBatch(Snapshot(), ms[i..]) == Err(e)
                  case Ok(b) =>
                    && MergeBatch(Snapshot(), ms[i..]).Ok?
                    && b.0 == MergeBatch(Snapshot(), ms[i..]).value.0
                    && b.1 == done + MergeBatch(Snapshot(), ms[i..]).value.1
      {
        var m := ms[i];
        assert ms[i..][0] == m && ms[i..][1..] == ms[i + 1..];
        if m.updates != map[] {
          if m.id !in actions {
            Restore(saved);
            return Err(NotFound(m.id));
          }
          var merged := Merge(actions[m.id].meta, m.updates);
          if merged.None? {
            Restore(saved);
            return Err(BadMetadata);
          }
          UpdateActionRow(m.id, actions[m.id].(meta := merged.value), true);
          done := done + [MetadataMerged(m.id, m.updates.Keys)];
        }
        i := i + 1;
      }
      assert ms[i..] == [] && done + [] == done;
      EmitEvents(done);
      return Ok(());
    }

    // ----- tasks, projects, schedules -----

    /** The transaction of UpdateTaskFields, entered once the close guard has let the change through. */
    method UpdateTaskTx(id: int, c: TaskChanges) returns (r: Res<()>)
      requires CloseRefusal(Snapshot(), id, c).None?
      modifies this
      ensures (Snapshot(), r) == UpdateTaskFields(old(Snapshot()), id, c) && countTrigger == old(countTrigger)
    {
      hide TaskEvents, TaskRow, ChangedTask, Merge, CloseRefusal;
      if id !in tasks {
        return Err(NotFound(id));
      }
      var t := tasks[id];
      var meta := t.meta;
      if c.meta.Some? {
        var merged := Merge(t.meta, c.meta.value);
        if merged.None? {
          return Err(BadMetadata);
        }
        meta := merged.value;
      }
      if c.projectId.None? && c.workDir.None? && c.meta.None? && c.status.Unchanged? {
        return Ok(());
      }
      if c.projectId.Some? && c.projectId.value !in projects {
        return Err(ForeignKey);
      }
      tasks := tasks[id := ChangedTask(t, c, meta)];
      if c.meta.Some? {
        taskSearch := (taskSearch - {id})[id := TaskRow(tasks[id])];
        assert taskSearch == old(taskSearch)[id := TaskRow(tasks[id])];
      }
      EmitEvents(TaskEvents(id, t, c));
      return Ok(());
    }

    method UpdateTask(id: int, c: TaskChanges) returns (r: Res<()>)
      requires Valid()
      modifies this
      ensures Valid() && Evolves(old(Snapshot()), Snapshot(), Edits({}, {id}))
      ensures (Snapshot(), r) == UpdateTaskFields(old(Snapshot()), id, c)
      ensures c.status.To? && IsClosed(c.status.status) ==>
                (r in {Err(EnabledSchedules), Err(ActiveActions)}
                 <==> ((exists k :: k in EnabledScheduleIds(old(Snapshot()), id))
                       || HasActiveAction(old(Snapshot()), id)))
      ensures r.Err? ==> Snapshot() == old(Snapshot())
    {
      hide Inv, Evolves, UpdateTaskFields, EnabledScheduleIds, ActiveCount, HasActiveAction;
      UpdateTaskFieldsAdvances(Snapshot(), id, c);
      RefusedUpdate(Snapshot(), id, c);
      if c.status.To? && IsClosed(c.status.status) {
        CloseGuardExact(Snapshot(), id, c);
      }
      if c.status.Unknown? {
        return Err(InvalidStatus);
      }
      if c.status.To? && IsClosed(c.status.status) {
        if EnabledScheduleIds(Snapshot(), id) != {} {
          return Err(EnabledSchedules);
        }
        if ActiveCount(Snapshot(), id) > 0 {
          return Err(ActiveActions);
        }
      }
      r := UpdateTaskTx(id, c);
    }

    /** DELETE FROM actions over a set of ids, row by row. */
    method DeleteActionRows(ids: set<int>)
      requires ids <= actions.Keys
      modifies this
      ensures Snapshot() == DeleteRows(old(Snapshot()), ids)
      ensures countTrigger == old(countTrigger)
    {
      var left := ids;
      while left != {}
        invariant left <= actions.Keys && countTrigger == old(countTrigger)
        invariant DeleteRows(Snapshot(), left) == DeleteRows(old(Snapshot()), ids)
        decreases |left|
      {
        var id := Min(left);
        DeleteActionRow(id);
        left := left - {id};
      }
    }

    method DeleteTasks(ts: set<int>)
      requires ts <= tasks.Keys
      modifies this
      ensures Snapshot() == DeleteTaskRows(old(Snapshot()), ts)
      ensures countTrigger == old(countTrigger)
    {
      var left := ts;
      while left != {}
        invariant left <= tasks.Keys && countTrigger == old(countTrigger)
        invariant DeleteTaskRows(Snapshot(), left) == DeleteTaskRows(old(Snapshot()), ts)
        decreases |left|
      {
        var t := Min(left);
        RemoveTaskRow(t);
        left := left - {t};
      }
    }

    method DeleteProjectRows(p: int, cascade: bool) returns (r: Res<()>)
      requires Valid()
      modifies this
      ensures Valid() && Evolves(old(Snapshot()), Snapshot(), NO_EDITS)
      ensures (Snapshot(), r) == DeleteProject(old(Snapshot()), p, cascade)
    {
      hide Inv, Evolves, DeleteRows, DeleteTaskRows;
      DeleteProjectAdvances(Snapshot(), p, cascade);
      if p !in projects {
        return Err(NotFound(p));
      }
      var ts := TasksOf(Snapshot(), p);
      if cascade {
        var ids := ActionsUnder(Snapshot(), ts);
        DeleteRowsFrame(Snapshot(), ids);
        DeleteActionRows(ids);
        schedules := schedules - SchedulesUnder(Snapshot(), ts);
        DeleteTasks(ts);
        projects := projects - {p};
      } else {
        if ts != {} {
          return Err(ProjectNotEmpty);
        }
        projects := projects - {p};
      }
      EmitEvent(Note("project", p, "project.deleted"));
      return Ok(());
    }

    method ApplyRunUpdates(us: seq<RunUpdate>)
      modifies `schedules
      ensures schedules == ApplyRuns(old(schedules), us)
    {
      var i := 0;
      while i < |us|
        invariant 0 <= i <= |us|
        invariant ApplyRuns(schedules, us[i..]) == ApplyRuns(old(schedules), us)
      {
        var u := us[i];
        assert us[i..][0] == u && us[i..][1..] == us[i + 1..];
        if u.id in schedules {
          schedules := schedules[u.id := schedules[u.id].(
            lastRunAt := Some(u.lastRunAt), lastError := if u.lastError == "" then None else Some(u.lastError))];
        }
        i := i + 1;
      }
    }

    method BulkUpdateScheduleRuns(us: seq<RunUpdate>)
      requires Valid()
      modifies this
      ensures Valid() && Evolves(old(Snapshot()), Snapshot(), NO_EDITS)
      ensures Snapshot() == BulkUpdateRuns(old(Snapshot()), us)
    {
      hide Inv, Evolves;
      BulkUpdateRunsAdvances(Snapshot(), us);
      ApplyRunUpdates(us);
      EmitEvents(RanEvents(us));
    }

    method InsertActionRows(specs: seq<ActionSpec>)
      requires forall c | c in specs :: c.status.Some?
      modifies this
      ensures Snapshot() == InsertRows(old(Snapshot()), specs) && countTrigger == old(countTrigger)
    {
      var i := 0;
      while i < |specs|
        invariant 0 <= i <= |specs|
        invariant countTrigger == old(countTrigger) && forall c | c in specs[i..] :: c.status.Some?
        invariant InsertRows(Snapshot(), specs[i..]) == InsertRows(old(Snapshot()), specs)
      {
        assert specs[i] in specs[i..] && specs[i..][0] == specs[i] && specs[i..][1..] == specs[i + 1..];
        var id := InsertActionRow(NewRow(specs[i], specs[i].status.value));
        i := i + 1;
      }
    }

    method BulkInsertScheduledActions(specs: seq<ActionSpec>, runs: seq<RunUpdate>) returns (r: Res<()>)
      requires Valid()
      modifies this
      ensures Valid() && Evolves(old(Snapshot()), Snapshot(), NO_EDITS)
      ensures (Snapshot(), r) == BulkInsertScheduled(old(Snapshot()), specs, runs)
    {
      hide Inv, Evolves;
      BulkInsertScheduledAdvances(Snapshot(), specs, runs);
      if |specs| != |runs| {
        return Err(LengthMismatch);
      }
      if |specs| == 0 {
        return Ok(());
      }
      if exists c | c in specs :: c.status.None? {
        return Err(InvalidStatus);
      }
      if exists c | c in specs :: c.taskId !in tasks {
        return Err(ForeignKey);
      }
      var first := next.action;
      InsertRowsSilent(Snapshot(), specs);
      InsertActionRows(specs);
      ApplyRunUpdates(runs);
      EmitEvents(CreatedEvents(first, specs));
      EmitEvents(RanEvents(runs));
      assert events == old(events) + (CreatedEvents(first, specs) + RanEvents(runs));
      return Ok(());
    }

    // ----- migration -----

    method RebuildTaskActionCounts()
      modifies `counts
      ensures Snapshot() == M.Rebuild(old(Snapshot())) && CountsExact(counts, actions)
    {
      M.RecountedExact(actions);
      counts := map[];
      counts := M.Recounted(actions);
    }

    method BackfillTaskActionCounts()
      modifies `counts
      ensures Snapshot() == M.BackfillCounts(old(Snapshot()))
      ensures CountsExact(counts, actions) <==> old(counts) == map[] || CountsExact(old(counts), actions)
    {
      M.RecountedExact(actions);
      if counts != map[] {
        return;
      }
      counts := M.Recounted(actions);
    }

    method BackfillSearchIndexes()
      modifies this
      ensures Snapshot() == M.BackfillSearch(old(Snapshot())) && countTrigger == old(countTrigger)
      ensures ActionsIndexed(actionSearch, actions) <==> M.Agrees(old(actionSearch), actions)
      ensures TasksIndexed(taskSearch, tasks) <==> M.TasksAgree(old(taskSearch), tasks)
    {
      M.BackfillIndexesIff(actionSearch, actions);
      M.BackfillIndexesTasksIff(taskSearch, tasks);
      hide ActionsIndexed, TasksIndexed, M.Agrees, M.TasksAgree;
      taskSearch := taskSearch + map t | t in tasks && t !in taskSearch :: TaskRow(tasks[t]);
      actionSearch := actionSearch + map id | id in actions && id !in actionSearch :: ActionRow(actions[id]);
    }

    method RewriteLegacyModes()
      modifies this
      ensures Snapshot() == M.ModernizeActions(old(Snapshot())) && countTrigger == old(countTrigger)
    {
      actionSearch := actionSearch + M.RewrittenRows(Snapshot());
      actions := map id | id in actions :: actions[id].(meta := M.Modernized(actions[id].meta));
      schedules := map c | c in schedules :: schedules[c].(meta := M.Modernized(schedules[c].meta));
    }

    /** Drops the stale trigger, recreates the schema, then repairs the derived tables in order. */
    method MigrateTables()
      modifies this
      ensures M.Database(Snapshot(), countTrigger) == M.Migrated(M.Database(old(Snapshot()), old(countTrigger)))
      ensures Valid() <==> M.Repairable(M.Database(old(Snapshot()), old(countTrigger)))
    {
      hide M.ModernizeActions, M.Rebuild, M.BackfillCounts, M.BackfillSearch, Inv, M.Repairable, CountsExact,
           ActionsIndexed, TasksIndexed, M.Agrees, M.TasksAgree;
      M.MigratedInvIff(M.Database(Snapshot(), countTrigger));
      var stale := countTrigger == M.Stale;
      if stale {
        countTrigger := M.Missing;
      }
      countTrigger := M.Current;
      RewriteLegacyModes();
      if stale {
        RebuildTaskActionCounts();
      }
      BackfillTaskActionCounts();
      BackfillSearchIndexes();
    }
  }

  lemma {:induction false} SameMissing(s: Store, t: Store, us: seq<Mark>)
    requires s.actions.Keys == t.actions.Keys
    ensures FirstMissing(s, us) == FirstMissing(t, us)
  {
    if us != [] {
      SameMissing(s, t, us[1..]);
    }
  }

  /** One round of a bulk mark: what the batch from i on owes to row i and what to the rows after it. */
  lemma BatchStep(s: Store, us: seq<Mark>, i: nat, st: Status, now: int)
    requires i < |us| && us[i].id in s.actions
    ensures
      var u, from := us[i], s.actions[us[i].id].status;
      var s1 := if IsTerminal(from) then s else Finish(s, u.id, st, u.text, now);
      && FirstMissing(s, us[i..]) == FirstMissing(s1, us[i + 1..])
      && (FirstMissing(s, us[i..]).None? ==>
            var b, rest := MarkBatch(s, us[i..], st, now), MarkBatch(s1, us[i + 1..], st, now);
            && b.store == rest.store
            && b.events == (if IsTerminal(from) then []
                else [StatusChanged(u.id, from, st, Some(u.text), None)]) + rest.events
            && b.lost == (if IsTerminal(from) then [Lost(u.id, u.text, from)] else []) + rest.lost)
  {
    hide PutRow;
    var u := us[i];
    assert us[i..][0] == u && us[i..][1..] == us[i + 1..];
    if !IsTerminal(s.actions[u.id].status) {
      FinishKeys(s, u.id, st, u.text, now);
      SameMissing(s, Finish(s, u.id, st, u.text, now), us[i + 1..]);
    }
  }

  lemma BatchStop(s: Store, us: seq<Mark>, i: nat)
    requires i < |us| && us[i].id !in s.actions
    ensures FirstMissing(s, us[i..]) == Some(us[i].id)
  {
    assert us[i..][0] == us[i];
  }

  lemma BatchEnd(s: Store, us: seq<Mark>, st: Status, now: int)
    ensures FirstMissing(s, us[|us|..]) == None && MarkBatch(s, us[|us|..], st, now) == Batch(s, [], [])
  {
    assert us[|us|..] == [];
  }

  lemma FinishKeys(s: Store, id: int, st: Status, text: string, now: int)
    requires id in s.actions
    ensures Finish(s, id, st, text, now).actions.Keys == s.actions.Keys
  {
  }
}
