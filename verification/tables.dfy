/** Projects, tasks and schedules: row operations, the close guard and the project cascade. */
module Tables {
  import opened Types
  import opened Metadata
  import opened Sets
  import opened Rows
  import opened History
  import opened Dependencies
  import opened Actions
  import opened Bulk

  // ----- projects -----

  function InsertProject(s: Store, name: string): (Store, Res<int>) {
    var id := s.next.project;
    if exists p | p in s.projects :: s.projects[p].name == name then (s, Err(NameTaken))
    else (Emit(s.(projects := s.projects[id := Project(name, true)], next := s.next.(project := id + 1)),
               Note("project", id, "project.created")), Ok(id))
  }

  function SetDispatchEnabled(s: Store, id: int, enabled: bool): (Store, Res<()>) {
    if id !in s.projects then (s, Err(NotFound(id)))
    else (Emit(s.(projects := s.projects[id := s.projects[id].(dispatchEnabled := enabled)]),
               Note("project", id, "project.dispatch_changed")), Ok(()))
  }

  /** Names are unique, a new project starts focused, and the focus switch writes that column of one row. */
  lemma ProjectColumns(s: Store, name: string, p: int, enabled: bool)
    ensures
      var (s', r) := InsertProject(s, name);
      && (r.Ok? <==> forall q | q in s.projects :: s.projects[q].name != name)
      && (r.Ok? ==>
            && r.value == s.next.project && s'.next == s.next.(project := r.value + 1)
            && s'.projects == s.projects[r.value := Project(name := name, dispatchEnabled := true)]
            && s' == s.(projects := s'.projects, next := s'.next,
                        events := s.events + [Note("project", r.value, "project.created")]))
      && (r.Err? ==> s' == s)
    ensures
      var (s', r) := SetDispatchEnabled(s, p, enabled);
      && (r.Ok? <==> p in s.projects)
      && (r.Ok? ==>
            && s'.projects == s.projects[p := Project(name := s.projects[p].name, dispatchEnabled := enabled)]
            && s' == s.(projects := s'.projects,
                        events := s.events + [Note("project", p, "project.dispatch_changed")]))
      && (r.Err? ==> s' == s)
  {
  }

  lemma InsertProjectAdvances(s: Store, name: string)
    requires Inv(s)
    ensures Advances(s, InsertProject(s, name).0, NO_EDITS)
  {
    hide Core, Replays;
    InsertProjectCore(s, name);
    SilentReplays(s.actions, s.events, s.next.action, Note("project", s.next.project, "project.created"));
  }

  lemma InsertProjectCore(s: Store, name: string)
    requires Core(s)
    ensures Core(InsertProject(s, name).0)
  {
    hide CountsExact, ActionsIndexed, TasksIndexed, EdgesSound;
  }

  lemma SetDispatchEnabledAdvances(s: Store, id: int, enabled: bool)
    requires Inv(s)
    ensures Advances(s, SetDispatchEnabled(s, id, enabled).0, NO_EDITS)
  {
  }

  // ----- tasks -----

  function InsertTask(s: Store, projectId: int, title: string, meta: Meta, workDir: string): (Store, Res<int>) {
    if projectId !in s.projects then (s, Err(ForeignKey))
    else
      var id, row := s.next.task, Task(projectId, title, meta, Open, workDir);
      (Emit(s.(tasks := s.tasks[id := row], taskSearch := s.taskSearch[id := TaskRow(row)],
               next := s.next.(task := id + 1)),
            Note("task", id, "task.created")), Ok(id))
  }

  /** A task is created open under an existing project, with its search row. */
  lemma InsertTaskColumns(s: Store, projectId: int, title: string, meta: Meta, workDir: string)
    ensures
      var (s', r) := InsertTask(s, projectId, title, meta, workDir);
      && (r.Ok? <==> projectId in s.projects)
      && (r.Ok? ==>
            && r.value == s.next.task && s'.next == s.next.(task := r.value + 1)
            && s'.tasks == s.tasks[r.value := Task(projectId := projectId, title := title, meta := meta,
                                                   status := Open, workDir := workDir)]
            && s'.taskSearch == s.taskSearch[r.value := SearchRow(title := title, result := "", meta := meta)]
            && s' == s.(tasks := s'.tasks, taskSearch := s'.taskSearch, next := s'.next,
                        events := s.events + [Note("task", r.value, "task.created")]))
      && (r.Err? ==> s' == s)
  {
  }

  lemma InsertTaskAdvances(s: Store, projectId: int, title: string, meta: Meta, workDir: string)
    requires Inv(s)
    ensures Advances(s, InsertTask(s, projectId, title, meta, workDir).0, NO_EDITS)
  {
    hide Core, Replays;
    InsertTaskCore(s, projectId, title, meta, workDir);
    FreshTask(s);
    SilentReplays(s.actions, s.events, s.next.action, Note("task", s.next.task, "task.created"));
  }

  lemma FreshTask(s: Store)
    requires Core(s)
    ensures s.next.task !in s.tasks
  {
  }

  lemma InsertTaskCore(s: Store, projectId: int, title: string, meta: Meta, workDir: string)
    requires Core(s)
    ensures Core(InsertTask(s, projectId, title, meta, workDir).0)
  {
    hide CountsExact, ActionsIndexed, TaskRow;
  }

  datatype NewStatus = Unchanged | To(status: TaskStatus) | Unknown

  datatype TaskChanges = TaskChanges(
    projectId: Option<int>, workDir: Option<string>, meta: Option<Object>, status: NewStatus, reason: string)

  function EnabledScheduleIds(s: Store, t: int): set<int> {
    set c | c in s.schedules && s.schedules[c].taskId == t && s.schedules[c].enabled
  }

  /** GetTaskActionCount over the three active statuses. */
  function ActiveCount(s: Store, t: int): int {
    CountAt(s.counts, t, Pending) + CountAt(s.counts, t, Running) + CountAt(s.counts, t, Dispatched)
  }

  /** The guard in front of closing a task. */
  function CloseRefusal(s: Store, t: int, c: TaskChanges): Option<Error> {
    if c.status.Unknown? then Some(InvalidStatus)
    else if c.status.To? && IsClosed(c.status.status) then
      if EnabledScheduleIds(s, t) != {} then Some(EnabledSchedules)
      else if ActiveCount(s, t) > 0 then Some(ActiveActions)
      else None
    else None
  }

  function ChangedTask(t: Task, c: TaskChanges, meta: Meta): Task {
    t.(projectId := Or(c.projectId, t.projectId), workDir := Or(c.workDir, t.workDir), meta := meta,
       status := if c.status.To? then c.status.status else t.status)
  }

  /** The events of one committed task update, in order. */
  function TaskEvents(id: int, t: Task, c: TaskChanges): seq<Event> {
    (if c.projectId.Some? then [Note("task", id, "task.project_changed")] else [])
    + (if c.workDir.Some? then [Note("task", id, "task.workdir_changed")] else [])
    + (if c.meta.Some? then [Note("task", id, "task.metadata_merged")] else [])
    + (if c.status.To? then [TaskStatusChanged(id, t.status, c.status.status, c.reason)] else [])
  }

  /** UPDATE tasks ... WHERE id = ?. `text` says whether metadata is in the SET list. */
  function PutTask(s: Store, id: int, t: Task, text: bool): Store {
    s.(tasks := s.tasks[id := t], taskSearch := if text then s.taskSearch[id := TaskRow(t)] else s.taskSearch)
  }

  function UpdateTaskFields(s: Store, id: int, c: TaskChanges): (Store, Res<()>) {
    match CloseRefusal(s, id, c)
    case Some(e) => (s, Err(e))
    case None =>
      if id !in s.tasks then (s, Err(NotFound(id)))
      else
        var t := s.tasks[id];
        var meta := if c.meta.Some? then Merge(t.meta, c.meta.value) else Some(t.meta);
        if meta.None? then (s, Err(BadMetadata))
        else if c.projectId.None? && c.workDir.None? && c.meta.None? && c.status.Unchanged? then (s, Ok(()))
        else if c.projectId.Some? && c.projectId.value !in s.projects then (s, Err(ForeignKey))
        else
          var row := ChangedTask(t, c, meta.value);
          (EmitAll(PutTask(s, id, row, c.meta.Some?), TaskEvents(id, t, c)), Ok(()))
  }

  lemma PutTaskCore(s: Store, id: int, t: Task, text: bool)
    requires Core(s) && id in s.tasks && t.projectId in s.projects
    requires text || TaskRow(t) == TaskRow(s.tasks[id])
    ensures Core(PutTask(s, id, t, text))
  {
  }

  lemma {:induction false} SilentsReplay(actions: map<int, Action>, log: seq<Event>, nextAction: int,
        events: seq<Event>)
    requires Replays(actions, log, nextAction) && forall e | e in events :: Silent(e)
    ensures Replays(actions, log + events, nextAction)
    decreases |events|
  {
    if events == [] {
      assert log + events == log;
    } else {
      assert events[0] in events && forall e | e in events[1..] :: e in events;
      SilentReplays(actions, log, nextAction, events[0]);
      SilentsReplay(actions, log + [events[0]], nextAction, events[1..]);
      assert log + events == log + [events[0]] + events[1..];
    }
  }

  lemma UpdateTaskFieldsAdvances(s: Store, id: int, c: TaskChanges)
    requires Inv(s)
    ensures Advances(s, UpdateTaskFields(s, id, c).0, Edits({}, {id}))
  {
    var s' := UpdateTaskFields(s, id, c).0;
    if s' != s {
      var events := TaskEvents(id, s.tasks[id], c);
      var meta := if c.meta.Some? then Merge(s.tasks[id].meta, c.meta.value).value else s.tasks[id].meta;
      var s1 := PutTask(s, id, ChangedTask(s.tasks[id], c, meta), c.meta.Some?);
      PutTaskCore(s, id, ChangedTask(s.tasks[id], c, meta), c.meta.Some?);
      SilentsReplay(s.actions, s.events, s.next.action, events);
      LoggedAdvances(s, s1, events, Edits({}, {id}));
    }
  }

  lemma RefusedUpdate(s: Store, id: int, c: TaskChanges)
    ensures UpdateTaskFields(s, id, c).1.Err? ==> UpdateTaskFields(s, id, c).0 == s
    ensures CloseRefusal(s, id, c).Some? ==> UpdateTaskFields(s, id, c) == (s, Err(CloseRefusal(s, id, c).value))
  {
    hide CloseRefusal;
  }

  ghost predicate HasActiveAction(s: Store, t: int) {
    exists id :: id in s.actions && s.actions[id].taskId == t && IsActive(s.actions[id].status)
  }

  /**
    Closing a task is refused exactly when it has an enabled schedule or an action that is pending,
    running or dispatched, although the guard only reads the counts table.
   */
  lemma CloseGuardExact(s: Store, id: int, c: TaskChanges)
    requires Inv(s) && c.status.To? && IsClosed(c.status.status)
    ensures UpdateTaskFields(s, id, c).1 in {Err(EnabledSchedules), Err(ActiveActions)}
       <==> (exists k :: k in EnabledScheduleIds(s, id)) || HasActiveAction(s, id)
    ensures UpdateTaskFields(s, id, c).1.Err? ==> UpdateTaskFields(s, id, c).0 == s
  {
    forall st: Status ensures CountAt(s.counts, id, st) == |Members(s.actions, id, st)| {
      assert CountAt(s.counts, id, st) == Tally(s.actions, id, st);
    }
    if ActiveCount(s, id) > 0 {
      var st := if CountAt(s.counts, id, Pending) > 0 then Pending
          else if CountAt(s.counts, id, Running) > 0 then Running else Dispatched;
      assert |Members(s.actions, id, st)| > 0;
      var a := Member(Members(s.actions, id, st));
      assert HasActiveAction(s, id);
    }
    if EnabledScheduleIds(s, id) != {} {
      var k := Member(EnabledScheduleIds(s, id));
    }
    if HasActiveAction(s, id) {
      var a :| a in s.actions && s.actions[a].taskId == id && IsActive(s.actions[a].status);
      assert a in Members(s.actions, id, s.actions[a].status);
    }
  }

  /** Nothing stands against the change of a task, as far as the rows show. */
  ghost predicate TaskChangeAllowed(s: Store, id: int, c: TaskChanges) {
    && !c.status.Unknown?
    && (c.status == To(TaskDone) || c.status == To(Archived) ==>
          && (forall k | k in s.schedules :: !(s.schedules[k].taskId == id && s.schedules[k].enabled))
          && (forall a | a in s.actions && s.actions[a].taskId == id ::
                s.actions[a].status !in {Pending, Running, Dispatched}))
    && id in s.tasks
    && (c.meta.Some? ==> s.tasks[id].meta.Obj? || s.tasks[id].meta.Blank?)
    && (c.projectId.Some? ==> c.projectId.value in s.projects)
  }

  /** Column by column: each given value, and the old one where none is given. */
  ghost predicate TaskAmended(was: Task, now: Task, c: TaskChanges) {
    && now.projectId == (if c.projectId.Some? then c.projectId.value else was.projectId)
    && now.workDir == (if c.workDir.Some? then c.workDir.value else was.workDir)
    && now.status == (if c.status.To? then c.status.status else was.status)
    && (c.meta.None? ==> now.meta == was.meta)
    && (c.meta.Some? ==> Overlaid(was.meta, c.meta.value, now.meta))
    && now.title == was.title
  }

  /**
    A task update is accepted exactly when nothing stands against it; it then writes the given columns of
    one row, and announces a given status with its reason. A refused one writes nothing.
   */
  lemma UpdateTaskColumns(s: Store, id: int, c: TaskChanges)
    requires Inv(s)
    ensures
      var (s', r) := UpdateTaskFields(s, id, c);
      && (r.Ok? <==> TaskChangeAllowed(s, id, c))
      && (r.Err? ==> s' == s)
      && (r.Ok? && id in s.tasks ==>
            && s'.tasks.Keys == s.tasks.Keys && TaskAmended(s.tasks[id], s'.tasks[id], c)
            && (forall t | t in s.tasks && t != id :: s'.tasks[t] == s.tasks[t])
            && s' == s.(tasks := s'.tasks, taskSearch := s'.taskSearch, events := s'.events)
            && s.events <= s'.events
            && (c.status.To? ==>
                  s'.events != [] && s'.events[|s'.events| - 1]
                      == TaskStatusChanged(id, s.tasks[id].status, c.status.status, c.reason)))
  {
    hide Inv, CloseRefusal, UpdateTaskFields, TaskAmended;
    CloseRefusalIff(s, id, c);
    TaskChangeIff(s, id, c);
    RefusedUpdate(s, id, c);
    if UpdateTaskFields(s, id, c).1.Ok? {
      TaskWrites(s, id, c);
    }
  }

  lemma TaskChangeIff(s: Store, id: int, c: TaskChanges)
    ensures UpdateTaskFields(s, id, c).1.Ok? <==>
              && CloseRefusal(s, id, c).None? && id in s.tasks
              && (c.meta.Some? ==> s.tasks[id].meta.Obj? || s.tasks[id].meta.Blank?)
              && (c.projectId.Some? ==> c.projectId.value in s.projects)
  {
    hide CloseRefusal, ChangedTask, TaskEvents, TaskRow;
  }

  lemma TaskWrites(s: Store, id: int, c: TaskChanges)
    requires UpdateTaskFields(s, id, c).1.Ok?
    ensures
      var s' := UpdateTaskFields(s, id, c).0;
      && id in s.tasks && s'.tasks.Keys == s.tasks.Keys && TaskAmended(s.tasks[id], s'.tasks[id], c)
      && (forall t | t in s.tasks && t != id :: s'.tasks[t] == s.tasks[t])
      && s' == s.(tasks := s'.tasks, taskSearch := s'.taskSearch, events := s'.events)
      && s.events <= s'.events
      && (c.status.To? ==>
            s'.events != [] && s'.events[|s'.events| - 1]
                == TaskStatusChanged(id, s.tasks[id].status, c.status.status, c.reason))
  {
    hide CloseRefusal, Merge, ChangedTask, TaskAmended, TaskEvents, TaskRow;
    ChangedColumns(s, id, c);
    if c.status.To? {
      StatusAnnounced(id, s.tasks[id], c);
    }
  }

  lemma StatusAnnounced(id: int, t: Task, c: TaskChanges)
    requires c.status.To?
    ensures
      var events := TaskEvents(id, t, c);
      events != [] && events[|events| - 1] == TaskStatusChanged(id, t.status, c.status.status, c.reason)
  {
  }

  lemma CloseRefusalIff(s: Store, id: int, c: TaskChanges)
    requires Inv(s)
    ensures CloseRefusal(s, id, c).None? <==>
              && !c.status.Unknown?
              && (c.status == To(TaskDone) || c.status == To(Archived) ==>
                    && (forall k | k in s.schedules :: !(s.schedules[k].taskId == id && s.schedules[k].enabled))
                    && (forall a | a in s.actions && s.actions[a].taskId == id ::
                          s.actions[a].status !in {Pending, Running, Dispatched}))
  {
    if c.status.To? && IsClosed(c.status.status) {
      CloseGuardExact(s, id, c);
      RefusedUpdate(s, id, c);
      hide Inv, CloseRefusal, UpdateTaskFields;
      forall k | k in s.schedules && s.schedules[k].taskId == id && s.schedules[k].enabled
        ensures k in EnabledScheduleIds(s, id)
      {
      }
      assert HasActiveAction(s, id) <==>
          exists a :: a in s.actions && s.actions[a].taskId == id
              && s.actions[a].status in {Pending, Running, Dispatched};
      NoOtherRefusal(s, id, c);
    }
  }

  lemma NoOtherRefusal(s: Store, id: int, c: TaskChanges)
    requires c.status.To? && IsClosed(c.status.status)
    ensures UpdateTaskFields(s, id, c).1 in {Err(EnabledSchedules), Err(ActiveActions)}
       <==> CloseRefusal(s, id, c).Some?
  {
  }

  lemma ChangedColumns(s: Store, id: int, c: TaskChanges)
    ensures
      id in s.tasks ==>
        var t := s.tasks[id];
        && (c.meta.Some? ==> (Merge(t.meta, c.meta.value).Some? <==> t.meta.Obj? || t.meta.Blank?))
        && (c.meta.Some? && Merge(t.meta, c.meta.value).Some? ==>
              TaskAmended(t, ChangedTask(t, c, Merge(t.meta, c.meta.value).value), c))
        && (c.meta.None? ==> TaskAmended(t, ChangedTask(t, c, t.meta), c))
        && (c.projectId.None? && c.workDir.None? && c.meta.None? && c.status.Unchanged? ==>
              ChangedTask(t, c, t.meta) == t)
  {
  }

  // ----- project deletion -----

  /** DELETE over a set of action rows; the row triggers fire for each. */
  function DeleteRows(s: Store, ids: set<int>): Store
    requires ids <= s.actions.Keys
    decreases |ids|
  {
    if ids == {} then s else DeleteRows(DeleteRow(s, Min(ids)), ids - {Min(ids)})
  }

  function DeleteTaskRows(s: Store, ts: set<int>): Store
    requires ts <= s.tasks.Keys
    decreases |ts|
  {
    if ts == {} then s else DeleteTaskRows(DeleteTaskRow(s, Min(ts)), ts - {Min(ts)})
  }

  function TasksOf(s: Store, p: int): set<int> {
    set t | t in s.tasks && s.tasks[t].projectId == p
  }

  function ActionsUnder(s: Store, ts: set<int>): set<int> {
    set id | id in s.actions && s.actions[id].taskId in ts
  }

  function SchedulesUnder(s: Store, ts: set<int>): set<int> {
    set c | c in s.schedules && s.schedules[c].taskId in ts
  }

  function CascadeRows(s: Store, p: int): Store {
    var ts := TasksOf(s, p);
    var s1 := DeleteRows(s, ActionsUnder(s, ts));
    DeleteRowsFrame(s, ActionsUnder(s, ts));
    var s2 := s1.(schedules := s1.schedules - SchedulesUnder(s1, ts));
    var s3 := DeleteTaskRows(s2, ts);
    s3.(projects := s3.projects - {p})
  }

  function DeleteProject(s: Store, p: int, cascade: bool): (Store, Res<()>) {
    if p !in s.projects then (s, Err(NotFound(p)))
    else if cascade then (Emit(CascadeRows(s, p), Note("project", p, "project.deleted")), Ok(()))
    else if TasksOf(s, p) != {} then (s, Err(ProjectNotEmpty))
    else (Emit(s.(projects := s.projects - {p}), Note("project", p, "project.deleted")), Ok(()))
  }

  lemma {:induction false} DeleteRowsFrame(s: Store, ids: set<int>)
    requires ids <= s.actions.Keys
    ensures DeleteRows(s, ids).tasks == s.tasks && DeleteRows(s, ids).schedules == s.schedules
    decreases |ids|
  {
    if ids != {} {
      DeleteRowsFrame(DeleteRow(s, Min(ids)), ids - {Min(ids)});
    }
  }

  predicate Touches(e: Edge, ids: set<int>, ts: set<int>) {
    e.owner in ids || (e.kind == OnAction && e.id in ids) || (e.kind == OnTask && e.id in ts)
  }

  lemma {:induction false} DeleteRowsCore(s: Store, ids: set<int>)
    requires Core(s) && ids <= s.actions.Keys
    ensures Core(DeleteRows(s, ids))
    decreases |ids|
  {
    hide Core;
    if ids != {} {
      DeleteRowCore(s, Min(ids));
      DeleteRowsCore(DeleteRow(s, Min(ids)), ids - {Min(ids)});
    }
  }

  lemma {:induction false} DeleteRowsExact(s: Store, ids: set<int>)
    requires ids <= s.actions.Keys
    ensures
      var s' := DeleteRows(s, ids);
      && s'.actions == s.actions - ids
      && s'.edges == (set e | e in s.edges && !Touches(e, ids, {}))
      && s'.projects == s.projects && s'.tasks == s.tasks && s'.schedules == s.schedules
      && s'.events == s.events && s'.next == s.next
    decreases |ids|
  {
    if ids != {} {
      var s1, rest := DeleteRow(s, Min(ids)), ids - {Min(ids)};
      DeleteRowsExact(s1, rest);
      assert s.actions - ids == s1.actions - rest;
    }
  }

  lemma {:induction false} DeleteTaskRowsCore(s: Store, ts: set<int>)
    requires Core(s) && ts <= s.tasks.Keys
    requires forall id | id in s.actions :: s.actions[id].taskId !in ts
    requires forall c | c in s.schedules :: s.schedules[c].taskId !in ts
    ensures Core(DeleteTaskRows(s, ts))
    decreases |ts|
  {
    hide Core;
    if ts != {} {
      DeleteTaskRowCore(s, Min(ts));
      DeleteTaskRowsCore(DeleteTaskRow(s, Min(ts)), ts - {Min(ts)});
    }
  }

  lemma {:induction false} DeleteTaskRowsExact(s: Store, ts: set<int>)
    requires ts <= s.tasks.Keys
    ensures
      var s' := DeleteTaskRows(s, ts);
      && s'.tasks == s.tasks - ts
      && s'.edges == (set e | e in s.edges && !Touches(e, {}, ts))
      && s'.actions == s.actions && s'.projects == s.projects && s'.schedules == s.schedules
      && s'.events == s.events && s'.next == s.next
    decreases |ts|
  {
    if ts != {} {
      var s1, rest := DeleteTaskRow(s, Min(ts)), ts - {Min(ts)};
      DeleteTaskRowsExact(s1, rest);
      assert s.tasks - ts == s1.tasks - rest;
    }
  }

  /**
    A cascading delete removes exactly the project, its tasks, their schedules and actions, and the edges
    touching any of them.
   */
  lemma CascadeExact(s: Store, p: int)
    requires Inv(s) && p in s.projects
    ensures Core(CascadeRows(s, p))
    ensures
      var s', ts := CascadeRows(s, p), TasksOf(s, p);
      var ids := ActionsUnder(s, ts);
      && s'.projects == s.projects - {p} && s'.tasks == s.tasks - ts
      && s'.actions == s.actions - ids && s'.schedules == s.schedules - SchedulesUnder(s, ts)
      && s'.edges == (set e | e in s.edges && !Touches(e, ids, ts))
      && s'.events == s.events && s'.next == s.next
  {
    hide Core, Replays, DeleteRows, DeleteTaskRows;
    var ts := TasksOf(s, p);
    var ids := ActionsUnder(s, ts);
    DeleteRowsCore(s, ids);
    DeleteRowsExact(s, ids);
    var s1 := DeleteRows(s, ids);
    DropSchedulesCore(s1, SchedulesUnder(s1, ts));
    var s2 := s1.(schedules := s1.schedules - SchedulesUnder(s1, ts));
    DeleteTaskRowsCore(s2, ts);
    DeleteTaskRowsExact(s2, ts);
    DropProjectCore(DeleteTaskRows(s2, ts), p);
  }

  /**
    Row by row: exactly the tasks of the project go, with them exactly the actions and schedules under such
    a task, and exactly the edges with an end among what went.
   */
  lemma CascadeRowByRow(s: Store, p: int)
    requires Inv(s) && p in s.projects
    ensures
      var s' := CascadeRows(s, p);
      && (forall q :: q in s'.projects <==> q in s.projects && q != p)
      && (forall t :: t in s'.tasks <==> t in s.tasks && s.tasks[t].projectId != p)
      && (forall id :: id in s'.actions <==>
            id in s.actions && s.actions[id].taskId in s.tasks && s.tasks[s.actions[id].taskId].projectId != p)
      && (forall c :: c in s'.schedules <==>
            c in s.schedules && s.schedules[c].taskId in s.tasks && s.tasks[s.schedules[c].taskId].projectId != p)
      && (forall e :: e in s'.edges <==>
            && e in s.edges && e.owner in s'.actions
            && (e.kind == OnAction ==> e.id in s'.actions) && (e.kind == OnTask ==> e.id in s'.tasks))
      && (forall q | q in s'.projects :: s'.projects[q] == s.projects[q])
      && (forall t | t in s'.tasks :: s'.tasks[t] == s.tasks[t])
      && (forall id | id in s'.actions :: s'.actions[id] == s.actions[id])
      && (forall c | c in s'.schedules :: s'.schedules[c] == s.schedules[c])
  {
    CascadeExact(s, p);
    Homes(s);
    hide Inv, Core, CascadeRows;
    var s', ts := CascadeRows(s, p), TasksOf(s, p);
    assert s'.actions == s.actions - ActionsUnder(s, ts);
    assert forall e | e in s.edges :: EdgeSound(s.actions, s.tasks, e);
  }

  lemma Homes(s: Store)
    requires Inv(s)
    ensures forall id | id in s.actions :: s.actions[id].taskId in s.tasks
    ensures forall c | c in s.schedules :: s.schedules[c].taskId in s.tasks
    ensures forall e | e in s.edges :: EdgeSound(s.actions, s.tasks, e)
  {
  }

  /** Without the cascade only an empty project is deleted. */
  lemma DeleteProjectIff(s: Store, p: int, cascade: bool)
    ensures
      var (s', r) := DeleteProject(s, p, cascade);
      && (r.Ok? <==> p in s.projects && (cascade || forall t | t in s.tasks :: s.tasks[t].projectId != p))
      && (r.Err? ==> s' == s)
      && (r.Ok? && !cascade ==>
            s' == s.(projects := s.projects - {p}, events := s.events + [Note("project", p, "project.deleted")]))
      && (r.Ok? && cascade ==> s' == Emit(CascadeRows(s, p), Note("project", p, "project.deleted")))
  {
    hide CascadeRows;
    assert forall t | t in s.tasks :: t in TasksOf(s, p) <==> s.tasks[t].projectId == p;
    if TasksOf(s, p) != {} {
      var t := Member(TasksOf(s, p));
    }
  }

  lemma DropSchedulesCore(s: Store, cs: set<int>)
    requires Core(s)
    ensures Core(s.(schedules := s.schedules - cs))
  {
  }

  lemma DropProjectCore(s: Store, p: int)
    requires Core(s) && forall t | t in s.tasks :: s.tasks[t].projectId != p
    ensures Core(s.(projects := s.projects - {p}))
  {
  }

  lemma DeleteProjectAdvances(s: Store, p: int, cascade: bool)
    requires Inv(s)
    ensures Advances(s, DeleteProject(s, p, cascade).0, NO_EDITS)
  {
    var e := Note("project", p, "project.deleted");
    if p in s.projects && cascade {
      CascadeExact(s, p);
      SilentReplays(s.actions, s.events, s.next.action, e);
      var s1 := CascadeRows(s, p);
      assert Replays(s1.actions, s.events + [e], s1.next.action);
      hide Core, CascadeRows, Replays;
      LoggedAdvances(s, s1, [e], NO_EDITS);
    } else if DeleteProject(s, p, cascade).1.Ok? {
      assert forall t | t in s.tasks :: t !in TasksOf(s, p);
      SilentReplays(s.actions, s.events, s.next.action, e);
    }
  }

  /** No gate of a surviving action closes because a project was deleted. */
  lemma CascadeKeepsGates(s: Store, p: int, cascade: bool, id: int)
    requires Inv(s) && GateOpen(s, id) && id in DeleteProject(s, p, cascade).0.actions
    ensures GateOpen(DeleteProject(s, p, cascade).0, id)
  {
    if p in s.projects && cascade {
      CascadeExact(s, p);
    }
    hide Inv, CascadeRows;
    var s' := DeleteProject(s, p, cascade).0;
    forall e | e in EdgesOf(s', id) ensures Satisfied(s', e) {
      assert e in EdgesOf(s, id);
    }
  }

  // ----- schedules -----

  datatype ScheduleSpec = ScheduleSpec(taskId: int, instruction: string, title: string, cron: string, meta: Meta)

  /** EnsureTaskOpenForAttach. */
  function AttachRefusal(s: Store, t: int): Option<Error> {
    if t !in s.tasks then Some(NotFound(t)) else if IsClosed(s.tasks[t].status) then Some(TaskClosed) else None
  }

  function InsertSchedule(s: Store, c: ScheduleSpec, now: int): (Store, Res<int>) {
    match AttachRefusal(s, c.taskId)
    case Some(e) => (s, Err(e))
    case None =>
      var id := s.next.schedule;
      var row := Schedule(c.taskId, c.instruction, c.title, c.cron, c.meta, true, None, None, Sec(now));
      (Emit(s.(schedules := s.schedules[id := row], next := s.next.(schedule := id + 1)),
            Note("schedule", id, "schedule.created")), Ok(id))
  }

  function SetScheduleEnabled(s: Store, id: int, enabled: bool): (Store, Res<()>) {
    if id !in s.schedules then (s, if enabled then Err(NotFound(id)) else Ok(()))
    else if enabled && AttachRefusal(s, s.schedules[id].taskId).Some? then
      (s, Err(AttachRefusal(s, s.schedules[id].taskId).value))
    else (s.(schedules := s.schedules[id := s.schedules[id].(enabled := enabled)]), Ok(()))
  }

  datatype ScheduleChanges = ScheduleChanges(
    title: Option<string>, cron: Option<string>, meta: Option<Meta>, instruction: Option<string>, taskId: Option<int>)

  function UpdateSchedule(s: Store, id: int, c: ScheduleChanges): (Store, Res<()>) {
    if c.taskId.Some? && AttachRefusal(s, c.taskId.value).Some? then (s, Err(AttachRefusal(s, c.taskId.value).value))
    else if c == ScheduleChanges(None, None, None, None, None) then (s, Err(NoFields))
    else
      var s1 := if id !in s.schedules then s else
        var k := s.schedules[id];
        s.(schedules := s.schedules[id := k.(title := Or(c.title, k.title), cron := Or(c.cron, k.cron),
             meta := Or(c.meta, k.meta), instruction := Or(c.instruction, k.instruction),
                 taskId := Or(c.taskId, k.taskId))]);
      (Emit(s1, Note("schedule", id, "schedule.updated")), Ok(()))
  }

  function DeleteSchedule(s: Store, id: int): (Store, Res<()>) {
    if id !in s.schedules then (s, Err(NotFound(id)))
    else (Emit(s.(schedules := s.schedules - {id}), Note("schedule", id, "schedule.deleted")), Ok(()))
  }

  /** The task exists and is not closed. */
  predicate TakesSchedules(s: Store, t: int) {
    t in s.tasks && s.tasks[t].status == Open
  }

  /** A schedule is created enabled and never run, on an open task only. */
  lemma InsertScheduleColumns(s: Store, c: ScheduleSpec, now: int)
    ensures
      var (s', r) := InsertSchedule(s, c, now);
      && (r.Ok? <==> TakesSchedules(s, c.taskId))
      && (r.Ok? ==>
            && r.value == s.next.schedule && s'.next == s.next.(schedule := r.value + 1)
            && s'.schedules == s.schedules[r.value := Schedule(
                 taskId := c.taskId, instruction := c.instruction, title := c.title, cron := c.cron, meta := c.meta,
                 enabled := true, lastRunAt := None, lastError := None, createdAt := now / 1_000_000_000)]
            && s' == s.(schedules := s'.schedules, next := s'.next,
                        events := s.events + [Note("schedule", r.value, "schedule.created")]))
      && (r.Err? ==> s' == s)
  {
  }

  /** Enabling asks for an existing schedule of an open task, disabling for nothing; both write that column only. */
  lemma SetScheduleEnabledColumns(s: Store, id: int, enabled: bool)
    ensures
      var (s', r) := SetScheduleEnabled(s, id, enabled);
      && (r.Ok? <==> (enabled ==> id in s.schedules && TakesSchedules(s, s.schedules[id].taskId)))
      && s' == (if r.Ok? && id in s.schedules then
                  s.(schedules := s.schedules[id := s.schedules[id].(enabled := enabled)]) else s)
  {
  }

  /** An update may move a schedule to an open task only and keeps its run columns; a missing row is no error. */
  lemma UpdateScheduleColumns(s: Store, id: int, u: ScheduleChanges)
    ensures
      var (s', r) := UpdateSchedule(s, id, u);
      && (r.Ok? <==>
            && (u.taskId.Some? ==> TakesSchedules(s, u.taskId.value))
            && (u.title.Some? || u.cron.Some? || u.meta.Some? || u.instruction.Some? || u.taskId.Some?))
      && (r.Err? ==> s' == s)
      && (r.Ok? ==>
            && s'.schedules.Keys == s.schedules.Keys
            && (forall k | k in s.schedules && k != id :: s'.schedules[k] == s.schedules[k])
            && (id in s.schedules ==> ScheduleAmended(s.schedules[id], s'.schedules[id], u))
            && s' == s.(schedules := s'.schedules,
                        events := s.events + [Note("schedule", id, "schedule.updated")]))
  {
    hide AttachRefusal, TakesSchedules;
    if u.taskId.Some? {
      RefusalIff(s, u.taskId.value);
    }
  }

  lemma RefusalIff(s: Store, t: int)
    ensures AttachRefusal(s, t).None? <==> TakesSchedules(s, t)
  {
  }

  lemma DeleteScheduleColumns(s: Store, id: int)
    ensures
      var (s', r) := DeleteSchedule(s, id);
      && (r.Ok? <==> id in s.schedules)
      && s' == (if r.Ok? then
                  s.(schedules := s.schedules - {id},
                     events := s.events + [Note("schedule", id, "schedule.deleted")]) else s)
  {
  }

  ghost predicate ScheduleAmended(was: Schedule, now: Schedule, u: ScheduleChanges) {
    now == Schedule(
      taskId := if u.taskId.Some? then u.taskId.value else was.taskId,
      instruction := if u.instruction.Some? then u.instruction.value else was.instruction,
      title := if u.title.Some? then u.title.value else was.title,
      cron := if u.cron.Some? then u.cron.value else was.cron,
      meta := if u.meta.Some? then u.meta.value else was.meta,
      enabled := was.enabled, lastRunAt := was.lastRunAt, lastError := was.lastError, createdAt := was.createdAt)
  }

  /** A step that writes only rows of schedules and appends silent events. */
  lemma SchedulesAdvance(s: Store, s': Store, events: seq<Event>)
    requires Inv(s) && s' == s.(schedules := s'.schedules, events := s.events + events, next := s'.next)
    requires s'.next == s.next.(schedule := s'.next.schedule) && s.next.schedule <= s'.next.schedule
    requires forall e | e in events :: Silent(e)
    requires forall c | c in s'.schedules :: s'.schedules[c].taskId in s.tasks && 0 <= c < s'.next.schedule
    ensures Advances(s, s', NO_EDITS)
  {
    SilentsReplay(s.actions, s.events, s.next.action, events);
  }

  lemma InsertScheduleAdvances(s: Store, c: ScheduleSpec, now: int)
    requires Inv(s)
    ensures Advances(s, InsertSchedule(s, c, now).0, NO_EDITS)
  {
  }

  lemma SetScheduleEnabledAdvances(s: Store, id: int, enabled: bool)
    requires Inv(s)
    ensures Advances(s, SetScheduleEnabled(s, id, enabled).0, NO_EDITS)
  {
  }

  lemma UpdateScheduleAdvances(s: Store, id: int, c: ScheduleChanges)
    requires Inv(s)
    ensures Advances(s, UpdateSchedule(s, id, c).0, NO_EDITS)
  {
    if UpdateSchedule(s, id, c).1.Ok? {
      SchedulesAdvance(s, UpdateSchedule(s, id, c).0, [Note("schedule", id, "schedule.updated")]);
    }
  }

  lemma DeleteScheduleAdvances(s: Store, id: int)
    requires Inv(s)
    ensures Advances(s, DeleteSchedule(s, id).0, NO_EDITS)
  {
  }

  // ----- schedule runs -----

  datatype RunUpdate = RunUpdate(id: int, lastRunAt: int, lastError: string)

  /** UPDATE schedules SET last_run_at = ?, last_error = NULLIF(?, '') WHERE id = ?; a missing row is no error. */
  function ApplyRun(schedules: map<int, Schedule>, u: RunUpdate): map<int, Schedule> {
    if u.id !in schedules then schedules
    else schedules[u.id := schedules[u.id].(lastRunAt := Some(u.lastRunAt),
                                            lastError := if u.lastError == "" then None else Some(u.lastError))]
  }

  function ApplyRuns(schedules: map<int, Schedule>, us: seq<RunUpdate>): map<int, Schedule> {
    if us == [] then schedules else ApplyRuns(ApplyRun(schedules, us[0]), us[1..])
  }

  function RanEvents(us: seq<RunUpdate>): seq<Event> {
    seq(|us|, i requires 0 <= i < |us| => ScheduleRan(us[i].id, us[i].lastRunAt, us[i].lastError))
  }

  function BulkUpdateRuns(s: Store, us: seq<RunUpdate>): Store {
    EmitAll(s.(schedules := ApplyRuns(s.schedules, us)), RanEvents(us))
  }

  /** The multi-row INSERT: consecutive ids from the counter. */
  function InsertRows(s: Store, specs: seq<ActionSpec>): Store
    requires forall c | c in specs :: c.status.Some?
    decreases |specs|
  {
    if specs == [] then s
    else
      assert specs[0] in specs && forall c | c in specs[1..] :: c in specs;
      InsertRows(InsertRow(s, NewRow(specs[0], specs[0].status.value)), specs[1..])
  }

  function CreatedEvents(first: int, specs: seq<ActionSpec>): seq<Event>
    requires forall c | c in specs :: c.status.Some?
  {
    seq(|specs|, i requires 0 <= i < |specs| => assert specs[i] in specs; Created(first + i, specs[i].status.value))
  }

  function BulkInsertScheduled(s: Store, specs: seq<ActionSpec>, runs: seq<RunUpdate>): (Store, Res<()>) {
    if |specs| != |runs| then (s, Err(LengthMismatch))
    else if specs == [] then (s, Ok(()))
    else if exists c | c in specs :: c.status.None? then (s, Err(InvalidStatus))
    else if exists c | c in specs :: c.taskId !in s.tasks then (s, Err(ForeignKey))
    else
      var s1 := InsertRows(s, specs);
      (EmitAll(s1.(schedules := ApplyRuns(s1.schedules, runs)),
          CreatedEvents(s.next.action, specs) + RanEvents(runs)), Ok(()))
  }

  lemma {:induction false} InsertRowsSilent(s: Store, specs: seq<ActionSpec>)
    requires forall c | c in specs :: c.status.Some?
    ensures InsertRows(s, specs).events == s.events
    decreases |specs|
  {
    if specs != [] {
      assert specs[0] in specs && forall c | c in specs[1..] :: c in specs;
      InsertRowsSilent(InsertRow(s, NewRow(specs[0], specs[0].status.value)), specs[1..]);
    }
  }

  lemma {:induction false} ApplyRunsKeeps(schedules: map<int, Schedule>, us: seq<RunUpdate>)
    ensures ApplyRuns(schedules, us).Keys == schedules.Keys
    ensures forall c | c in schedules ::
              ApplyRuns(schedules, us)[c] == schedules[c].(lastRunAt := ApplyRuns(schedules, us)[c].lastRunAt,
                                                           lastError := ApplyRuns(schedules, us)[c].lastError)
    decreases |us|
  {
    if us != [] {
      ApplyRunsKeeps(ApplyRun(schedules, us[0]), us[1..]);
    }
  }

  lemma {:induction false} UnnamedKept(schedules: map<int, Schedule>, us: seq<RunUpdate>, c: int)
    requires c in schedules && forall u | u in us :: u.id != c
    ensures c in ApplyRuns(schedules, us) && ApplyRuns(schedules, us)[c] == schedules[c]
    decreases |us|
  {
    if us != [] {
      assert us[0] in us && forall u | u in us[1..] :: u in us;
      UnnamedKept(ApplyRun(schedules, us[0]), us[1..], c);
    }
  }

  /** The last update naming a schedule decides its run columns; one that none names keeps its row (`UnnamedKept`). */
  lemma {:induction false} LastRunCounts(schedules: map<int, Schedule>, us: seq<RunUpdate>, c: int, i: nat)
    requires c in schedules && i < |us| && us[i].id == c && forall j | i < j < |us| :: us[j].id != c
    ensures c in ApplyRuns(schedules, us)
    ensures ApplyRuns(schedules, us)[c] == schedules[c].(
              lastRunAt := Some(us[i].lastRunAt),
              lastError := if us[i].lastError == "" then None else Some(us[i].lastError))
    decreases |us|
  {
    var after, rest := ApplyRun(schedules, us[0]), us[1..];
    if i == 0 {
      forall u | u in rest ensures u.id != c {
        var j :| 0 <= j < |rest| && rest[j] == u;
        assert us[j + 1] == u;
      }
      UnnamedKept(after, rest, c);
    } else {
      LastRunCounts(after, rest, c, i - 1);
    }
  }

  /** Every run update is announced, in order, after the rows are written; nothing else changes. */
  lemma RunsAnnounced(s: Store, us: seq<RunUpdate>)
    ensures
      var s' := BulkUpdateRuns(s, us);
      && s' == s.(schedules := ApplyRuns(s.schedules, us), events := s'.events)
      && s.events <= s'.events && |s'.events| == |s.events| + |us|
      && forall i | 0 <= i < |us| ::
           s'.events[|s.events| + i] == ScheduleRan(us[i].id, us[i].lastRunAt, us[i].lastError)
  {
    hide ApplyRuns;
  }

  lemma BulkUpdateRunsAdvances(s: Store, us: seq<RunUpdate>)
    requires Inv(s)
    ensures Advances(s, BulkUpdateRuns(s, us), NO_EDITS)
  {
    ApplyRunsKeeps(s.schedules, us);
    SchedulesAdvance(s, BulkUpdateRuns(s, us), RanEvents(us));
  }

  lemma InsertRowKeeps(s: Store, row: Action, log: seq<Event>)
    requires Core(s) && Replays(s.actions, log, s.next.action) && row.taskId in s.tasks
    ensures
      var s1 := InsertRow(s, row);
      && Core(s1) && Replays(s1.actions, log + [Created(s.next.action, row.status)], s1.next.action)
      && Evolves(s, s1, NO_EDITS) && s1.events == s.events && s1.schedules == s.schedules && s1.tasks == s.tasks
      && s1.next == s.next.(action := s.next.action + 1)
  {
    InsertRowCore(s, row);
    InsertReplays(s.(events := log), row);
  }

  lemma {:induction false} InsertRowsKeeps(s: Store, specs: seq<ActionSpec>, log: seq<Event>)
    requires Core(s) && Replays(s.actions, log, s.next.action)
    requires forall c | c in specs :: c.status.Some? && c.taskId in s.tasks
    ensures
      var s' := InsertRows(s, specs);
      && Core(s') && Replays(s'.actions, log + CreatedEvents(s.next.action, specs), s'.next.action)
      && Evolves(s, s', NO_EDITS) && s'.events == s.events && s'.schedules == s.schedules && s'.tasks == s.tasks
      && s'.next == s.next.(action := s.next.action + |specs|)
    decreases |specs|
  {
    hide Core, Replays, Evolves, InsertRow;
    if specs == [] {
      EvolvesSelf(s, NO_EDITS);
      assert log + CreatedEvents(s.next.action, specs) == log;
    } else {
      assert specs[0] in specs && forall c | c in specs[1..] :: c in specs;
      var row := NewRow(specs[0], specs[0].status.value);
      var s1, e := InsertRow(s, row), Created(s.next.action, row.status);
      InsertRowKeeps(s, row, log);
      InsertRowsKeeps(s1, specs[1..], log + [e]);
      CoreEvolvesTransitive(s, s1, InsertRows(s1, specs[1..]), NO_EDITS);
      assert log + [e] + CreatedEvents(s1.next.action, specs[1..]) == log + CreatedEvents(s.next.action, specs);
    }
  }

  lemma RunsLast(s: Store, created: seq<Event>, runs: seq<RunUpdate>)
    ensures BulkUpdateRuns(EmitAll(s, created), runs)
         == EmitAll(s.(schedules := ApplyRuns(s.schedules, runs)), created + RanEvents(runs))
  {
    hide ApplyRuns, RanEvents;
    assert s.events + created + RanEvents(runs) == s.events + (created + RanEvents(runs));
  }

  lemma BulkInsertScheduledAdvances(s: Store, specs: seq<ActionSpec>, runs: seq<RunUpdate>)
    requires Inv(s)
    ensures Advances(s, BulkInsertScheduled(s, specs, runs).0, NO_EDITS)
  {
    hide Core, Replays, Evolves, InsertRows, BulkUpdateRuns;
    EvolvesSelf(s, NO_EDITS);
    var (s', r) := BulkInsertScheduled(s, specs, runs);
    if r.Ok? && specs != [] {
      InsertRowsKeeps(s, specs, s.events);
      var s1 := InsertRows(s, specs);
      var s2 := EmitAll(s1, CreatedEvents(s.next.action, specs));
      LoggedAdvances(s, s1, CreatedEvents(s.next.action, specs), NO_EDITS);
      BulkUpdateRunsAdvances(s2, runs);
      RunsLast(s1, CreatedEvents(s.next.action, specs), runs);
      AdvancesTransitive(s, s2, s', NO_EDITS);
    }
  }
}
