/** Which steps close an open gate, and how long a gate stays open. */
module Gates {
  import opened Types
  import opened Metadata
  import opened Rows
  import opened History
  import opened Dependencies
  import opened Actions
  import opened Tables
  import opened RunsOfSteps
  import M = Migrate

  // ----- the one step that closes a gate -----

  /** The metadata of the task and the new project let the update commit. */
  predicate Committable(s: Store, t: int, c: TaskChanges) {
    && t in s.tasks && (c.meta.Some? ==> GoParse(s.tasks[t].meta).Some?)
    && (c.projectId.Some? ==> c.projectId.value in s.projects)
  }

  /** The step is a task update that commits and reopens a task the action waits for. */
  predicate Reopens(s: Store, step: Step, id: int) {
    && step.DoUpdateTask? && Edge(id, OnTask, step.task) in s.edges
    && step.taskChanges.status == To(Open) && Committable(s, step.task, step.taskChanges)
  }

  lemma UpdatedStatuses(s: Store, t: int, c: TaskChanges)
    ensures
      var s' := UpdateTaskFields(s, t, c).0;
      && s'.edges == s.edges && s'.actions == s.actions && s'.tasks.Keys == s.tasks.Keys
      && (forall u | u in s.tasks && u != t :: s'.tasks[u] == s.tasks[u])
      && (Committable(s, t, c) && c.status == To(Open) ==> s'.tasks[t].status == Open)
      && (t in s.tasks && s'.tasks[t].status != s.tasks[t].status ==>
          Committable(s, t, c) && c.status == To(s'.tasks[t].status))
  {
    hide EnabledScheduleIds, ActiveCount, TaskEvents, TaskRow, Merge, GoParse;
    var s' := UpdateTaskFields(s, t, c).0;
    if t in s.tasks {
      MergeParses(s.tasks[t].meta, c);
    }
    if s' != s {
      assert s'.tasks == s.tasks[t := s'.tasks[t]];
    }
  }

  lemma MergeParses(meta: Meta, c: TaskChanges)
    ensures c.meta.Some? ==> (Merge(meta, c.meta.value).Some? <==> GoParse(meta).Some?)
  {
  }

  lemma UpdateClosesIff(s: Store, t: int, c: TaskChanges, id: int)
    requires GateOpen(s, id)
    ensures !GateOpen(UpdateTaskFields(s, t, c).0, id) <==> Reopens(s, DoUpdateTask(t, c), id)
  {
    UpdatedStatuses(s, t, c);
    hide UpdateTaskFields;
    var s' := UpdateTaskFields(s, t, c).0;
    assert EdgesOf(s', id) == EdgesOf(s, id);
    if Reopens(s, DoUpdateTask(t, c), id) {
      assert Edge(id, OnTask, t) in EdgesOf(s', id);
    } else {
      forall e | e in EdgesOf(s', id) ensures Satisfied(s', e) {
        assert e in EdgesOf(s, id) && Satisfied(s, e);
        assert e == Edge(id, e.kind, e.id);
      }
    }
  }

  /**
    An open gate is closed by exactly one kind of step besides edits of the action's own edges: a task
    update that reopens a task it waits for. Action blockers cannot close it, because `done` is absorbing
    and deletion purges edges.
   */
  lemma StepClosesGateIff(s: Store, step: Step, id: int)
    requires Inv(s) && WellFormed(step) && GateOpen(s, id)
    requires id in s.actions && id in Apply(s, step).actions && id !in Edited(step).owners
    ensures !GateOpen(Apply(s, step), id) <==> Reopens(s, step, id)
  {
    hide Core, Replays, GateOpen, UpdateTaskFields;
    if step.DoUpdateTask? {
      UpdateClosesIff(s, step.task, step.taskChanges, id);
    } else {
      hide Apply, Evolves;
      StepAdvances(s, step);
      GateClosesOnlyByReopening(s, Apply(s, step), Edited(step), id);
    }
  }

  // ----- whole runs -----

  ghost predicate LeavesEdgesAlone(steps: seq<Step>, id: int) {
    forall step | step in steps :: id !in Edited(step).owners
  }

  ghost predicate NeverReopened(s: Store, steps: seq<Step>, id: int)
    decreases |steps|
  {
    steps != [] ==> !Reopens(s, steps[0], id) && NeverReopened(Apply(s, steps[0]), steps[1..], id)
  }

  ghost predicate OpenThroughout(s: Store, steps: seq<Step>, id: int)
    decreases |steps|
  {
    GateOpen(s, id) && (steps != [] ==> OpenThroughout(Apply(s, steps[0]), steps[1..], id))
  }

  /**
    Over any run that does not edit the action's edges, its gate is open in every state exactly when no step
    reopens a task it waits for.
   */
  lemma {:induction false} OpenThroughoutIff(s: Store, steps: seq<Step>, id: int)
    requires Inv(s) && AllWellFormed(steps) && Survives(s, steps, id) && LeavesEdgesAlone(steps, id) && GateOpen(s, id)
    ensures OpenThroughout(s, steps, id) <==> NeverReopened(s, steps, id)
    ensures OpenThroughout(s, steps, id) ==> GateOpen(Run(s, steps), id)
    decreases |steps|
  {
    hide Core, Replays, Evolves, Apply, WellFormed, AllWellFormed, GateOpen, Reopens;
    if steps != [] {
      WellFormedTail(steps);
      assert steps[0] in steps && forall step | step in steps[1..] :: step in steps;
      StepAdvances(s, steps[0]);
      StepClosesGateIff(s, steps[0], id);
      if !Reopens(s, steps[0], id) {
        OpenThroughoutIff(Apply(s, steps[0]), steps[1..], id);
      } else {
        ClosedNotThroughout(Apply(s, steps[0]), steps[1..], id);
      }
    }
  }

  lemma ClosedNotThroughout(s: Store, steps: seq<Step>, id: int)
    requires !GateOpen(s, id)
    ensures !OpenThroughout(s, steps, id)
  {
  }

  lemma {:induction false} ActionEdgesNeverReopened(s: Store, steps: seq<Step>, id: int)
    requires Inv(s) && AllWellFormed(steps) && Survives(s, steps, id) && LeavesEdgesAlone(steps, id)
    requires forall e | e in EdgesOf(s, id) :: e.kind == OnAction
    ensures NeverReopened(s, steps, id)
    decreases |steps|
  {
    hide Core, Replays, Apply, WellFormed, AllWellFormed;
    if steps != [] {
      WellFormedTail(steps);
      assert steps[0] in steps && forall step | step in steps[1..] :: step in steps;
      StepAdvances(s, steps[0]);
      IssuedBelow(s, id);
      assert Reopens(s, steps[0], id) ==> Edge(id, OnTask, steps[0].task) in EdgesOf(s, id);
      forall e | e in EdgesOf(Apply(s, steps[0]), id) ensures e in EdgesOf(s, id) {
      }
      ActionEdgesNeverReopened(Apply(s, steps[0]), steps[1..], id);
    }
  }

  lemma IssuedBelow(s: Store, id: int)
    requires Inv(s) && id in s.actions
    ensures id < s.next.action
  {
  }

  /**
    An action that waits only for actions and whose gate is open keeps it open for the rest of its life,
    blockers being deleted included, until its own edges are edited.
   */
  lemma GateStaysOpen(s: Store, steps: seq<Step>, id: int)
    requires Inv(s) && AllWellFormed(steps) && Survives(s, steps, id) && LeavesEdgesAlone(steps, id)
    requires GateOpen(s, id) && forall e | e in EdgesOf(s, id) :: e.kind == OnAction
    ensures GateOpen(Run(s, steps), id)
  {
    hide Inv, Apply, GateOpen, AllWellFormed, LeavesEdgesAlone;
    ActionEdgesNeverReopened(s, steps, id);
    OpenThroughoutIff(s, steps, id);
  }

  const CLOSE := TaskChanges(None, None, None, To(TaskDone), "")
  const WAITING := ActionSpec("a", 1, Obj(map[]), Some(Pending), None, "")

  lemma ClosedTaskReached(s2: Store)
    requires s2 == Apply(Apply(EMPTY, DoInsertProject("p")), DoInsertTask(1, "t", Obj(map[]), ""))
    ensures
      var s3 := Apply(s2, DoUpdateTask(1, CLOSE));
      && s3.tasks == map[1 := Task(1, "t", Obj(map[]), TaskDone, "")] && s3.projects == map[1 := Project("p", true)]
      && s3.schedules == map[] && s3.actions == map[] && s3.edges == {} && s3.next.action == 1
  {
    var s1 := Apply(EMPTY, DoInsertProject("p"));
    assert s1.projects == map[1 := Project("p", true)];
    assert s2.tasks == map[1 := Task(1, "t", Obj(map[]), Open, "")];
    assert EnabledScheduleIds(s2, 1) == {};
  }

  lemma WaitingActionReached(s: Store)
    requires s.actions == map[] && s.edges == {} && s.next.action == 1 && 1 in s.tasks
    ensures
      var s' := Apply(s, DoInsertAction(WAITING, [Dep(OnTask, 1)]));
      && s'.edges == {Edge(1, OnTask, 1)} && 1 in s'.actions
      && s'.tasks == s.tasks && s'.schedules == s.schedules && s'.projects == s.projects
  {
    var inserted, d := InsertRow(s, NewRow(WAITING, Pending)), Dep(OnTask, 1);
    assert InsertDeps(AddEdge(inserted, 1, d), 1, [d][1..]).Ok?;
    assert InsertDeps(inserted, 1, [d]) == Ok(AddEdge(inserted, 1, d));
  }

  lemma ReopenCloses(s: Store)
    requires s.edges == {Edge(1, OnTask, 1)} && s.tasks == map[1 := Task(1, "t", Obj(map[]), TaskDone, "")]
    ensures GateOpen(s, 1) && !GateOpen(Apply(s, DoUpdateTask(1, CLOSE.(status := To(Open)))), 1)
  {
    var s' := Apply(s, DoUpdateTask(1, CLOSE.(status := To(Open))));
    assert Edge(1, OnTask, 1) in EdgesOf(s', 1) && s'.tasks[1].status == Open;
  }

  /**
    A task blocker can be reopened, so for task edges the same is false: a reachable state and a step that
    closes a gate.
   */
  lemma TaskGateMayClose() returns (steps: seq<Step>, reopen: Step)
    ensures AllWellFormed(steps) && WellFormed(reopen) && Edited(reopen) == Edits({}, {1})
    ensures
      var s := Run(EMPTY, steps);
      1 in s.actions && GateOpen(s, 1) && !GateOpen(Apply(s, reopen), 1)
  {
    hide Apply, GateOpen;
    var a, b := DoInsertProject("p"), DoInsertTask(1, "t", Obj(map[]), "");
    var c, d := DoUpdateTask(1, CLOSE), DoInsertAction(WAITING, [Dep(OnTask, 1)]);
    steps, reopen := [a, b, c, d], DoUpdateTask(1, CLOSE.(status := To(Open)));
    var s1 := Apply(EMPTY, a);
    var s2 := Apply(s1, b);
    var s3 := Apply(s2, c);
    var s4 := Apply(s3, d);
    ClosedTaskReached(s2);
    WaitingActionReached(s3);
    ReopenCloses(s4);
    assert Run(s4, [d][1..]) == s4;
    assert Run(s2, [c, d]) == Run(s3, [c, d][1..]);
    assert [c, d][1..] == [d] && [b, c, d][1..] == [c, d] && steps[1..] == [b, c, d];
    assert Run(EMPTY, steps) == Run(s1, [b, c, d]) == Run(s2, [c, d]) == Run(s3, [d]) == s4;
  }
}
