/**
  Single-row writes together with the triggers and foreign-key cascades that fire on them, and the
  invariants those triggers exist to keep.
 */
module Rows {
  import opened Types
  import opened Graph

  // ----- task_action_counts -----

  /** The stored count; a missing row reads as 0. */
  function CountAt(counts: Counts, t: int, st: Status): int {
    if (t, st) in counts then counts[(t, st)] else 0
  }

  function Increment(counts: Counts, t: int, st: Status): Counts {
    counts[(t, st) := CountAt(counts, t, st) + 1]
  }

  /** An UPDATE: it touches the row only if the row is there. */
  function Decrement(counts: Counts, t: int, st: Status): Counts {
    if (t, st) in counts then counts[(t, st) := counts[(t, st)] - 1] else counts
  }

  /** trg_actions_count_update. */
  function Recount(counts: Counts, was: Action, now: Action): Counts {
    if was.taskId != now.taskId || was.status != now.status then
      Increment(Decrement(counts, was.taskId, was.status), now.taskId, now.status)
    else counts
  }

  /** What the counts are meant to be. */
  function Members(actions: map<int, Action>, t: int, st: Status): set<int> {
    set id | id in actions && actions[id].taskId == t && actions[id].status == st
  }

  function Tally(actions: map<int, Action>, t: int, st: Status): nat {
    |Members(actions, t, st)|
  }

  // ----- search rows -----

  function ActionRow(a: Action): SearchRow {
    SearchRow(a.title, if a.result.Some? then a.result.value else "", a.meta)
  }

  function TaskRow(t: Task): SearchRow {
    SearchRow(t.title, "", t.meta)
  }

  // ----- row writes -----

  function Emit(s: Store, e: Event): Store {
    s.(events := s.events + [e])
  }

  /** INSERT INTO actions. */
  function InsertRow(s: Store, a: Action): Store {
    s.(actions := s.actions[s.next.action := a],
       counts := Increment(s.counts, a.taskId, a.status),
       actionSearch := s.actionSearch[s.next.action := ActionRow(a)],
       next := s.next.(action := s.next.action + 1))
  }

  /** UPDATE actions ... WHERE id = ?. `text` says whether title, result or metadata is in the SET list. */
  function PutRow(s: Store, id: int, a: Action, text: bool): Store
    requires id in s.actions
  {
    s.(actions := s.actions[id := a],
       counts := Recount(s.counts, s.actions[id], a),
       actionSearch := if text then s.actionSearch[id := ActionRow(a)] else s.actionSearch)
  }

  /** DELETE FROM actions WHERE id = ?, with the count, purge and search triggers and the cascade on action_id. */
  function DeleteRow(s: Store, id: int): Store
    requires id in s.actions
  {
    var a := s.actions[id];
    s.(actions := s.actions - {id},
       counts := Decrement(s.counts, a.taskId, a.status),
       actionSearch := s.actionSearch - {id},
       edges := set e | e in s.edges && e.owner != id && !(e.kind == OnAction && e.id == id))
  }

  /** DELETE FROM tasks WHERE id = ?, with the purge and search triggers and the cascade on task_action_counts. */
  function DeleteTaskRow(s: Store, t: int): Store
    requires t in s.tasks
  {
    s.(tasks := s.tasks - {t},
       counts := map k | k in s.counts && k.0 != t :: s.counts[k],
       taskSearch := s.taskSearch - {t},
       edges := set e | e in s.edges && !(e.kind == OnTask && e.id == t))
  }

  // ----- invariants -----

  ghost predicate CountsExact(counts: Counts, actions: map<int, Action>) {
    forall t: int, st: Status :: CountAt(counts, t, st) == Tally(actions, t, st)
  }

  ghost predicate ActionsIndexed(search: map<int, SearchRow>, actions: map<int, Action>) {
    search.Keys == actions.Keys && forall id | id in actions :: search[id] == ActionRow(actions[id])
  }

  ghost predicate TasksIndexed(search: map<int, SearchRow>, tasks: map<int, Task>) {
    search.Keys == tasks.Keys && forall t | t in tasks :: search[t] == TaskRow(tasks[t])
  }

  /** Owner and blocker of an edge both exist; the kind passes the CHECK constraint. */
  predicate EdgeSound(actions: map<int, Action>, tasks: map<int, Task>, e: Edge) {
    && e.owner in actions
    && match e.kind
       case OnAction => e.id in actions
       case OnTask => e.id in tasks
       case OnOther(_) => false
  }

  ghost predicate EdgesSound(edges: set<Edge>, actions: map<int, Action>, tasks: map<int, Task>) {
    forall e | e in edges :: EdgeSound(actions, tasks, e)
  }

  ghost predicate TasksHomed(tasks: map<int, Task>, projects: map<int, Project>) {
    forall t | t in tasks :: tasks[t].projectId in projects
  }

  ghost predicate ActionsHomed(actions: map<int, Action>, tasks: map<int, Task>) {
    forall id | id in actions :: actions[id].taskId in tasks
  }

  ghost predicate SchedulesHomed(schedules: map<int, Schedule>, tasks: map<int, Task>) {
    forall c | c in schedules :: schedules[c].taskId in tasks
  }

  ghost predicate CountsHomed(counts: Counts, tasks: map<int, Task>) {
    forall k | k in counts :: k.0 in tasks
  }

  ghost predicate References(s: Store) {
    && TasksHomed(s.tasks, s.projects)
    && ActionsHomed(s.actions, s.tasks)
    && SchedulesHomed(s.schedules, s.tasks)
    && CountsHomed(s.counts, s.tasks)
    && EdgesSound(s.edges, s.actions, s.tasks)
  }

  /** Ids come from a counter that has already passed them. */
  ghost predicate Issued<T>(rows: map<int, T>, next: nat) {
    forall id | id in rows :: 0 <= id < next
  }

  ghost predicate IdsBelowNext(s: Store) {
    && Issued(s.projects, s.next.project)
    && Issued(s.tasks, s.next.task)
    && Issued(s.actions, s.next.action)
    && Issued(s.schedules, s.next.schedule)
  }

  /** Everything the store keeps apart from the event log. */
  ghost predicate Core(s: Store) {
    && CountsExact(s.counts, s.actions)
    && ActionsIndexed(s.actionSearch, s.actions)
    && TasksIndexed(s.taskSearch, s.tasks)
    && References(s)
    && IdsBelowNext(s)
    && Acyclic(s.edges)
  }

  lemma MembersPut(actions: map<int, Action>, id: int, a: Action, t: int, st: Status)
    ensures Members(actions[id := a], t, st)
         == Members(actions, t, st) - {id} + (if a.taskId == t && a.status == st then {id} else {})
  {
  }

  lemma TallyPut(actions: map<int, Action>, id: int, a: Action, t: int, st: Status)
    ensures Tally(actions[id := a], t, st)
         == Tally(actions, t, st)
            - (if id in actions && actions[id].taskId == t && actions[id].status == st then 1 else 0)
            + (if a.taskId == t && a.status == st then 1 else 0)
  {
    MembersPut(actions, id, a, t, st);
    var kept := Members(actions, t, st) - {id};
    assert id !in actions ==> kept == Members(actions, t, st);
  }

  lemma TallyDelete(actions: map<int, Action>, id: int, t: int, st: Status)
    requires id in actions
    ensures Tally(actions - {id}, t, st)
         == Tally(actions, t, st) - (if actions[id].taskId == t && actions[id].status == st then 1 else 0)
  {
    assert Members(actions - {id}, t, st) == Members(actions, t, st) - {id};
  }

  lemma InsertRowCore(s: Store, a: Action)
    requires Core(s) && a.taskId in s.tasks
    ensures Core(InsertRow(s, a))
  {
    var s' := InsertRow(s, a);
    forall t: int, st: Status ensures CountAt(s'.counts, t, st) == Tally(s'.actions, t, st) {
      TallyPut(s.actions, s.next.action, a, t, st);
    }
  }

  lemma PutRowCounts(s: Store, id: int, a: Action, text: bool)
    requires CountsExact(s.counts, s.actions) && id in s.actions
    ensures CountsExact(PutRow(s, id, a, text).counts, PutRow(s, id, a, text).actions)
  {
    var s', was := PutRow(s, id, a, text), s.actions[id];
    assert id in Members(s.actions, was.taskId, was.status);
    assert CountAt(s.counts, was.taskId, was.status) == Tally(s.actions, was.taskId, was.status);
    forall t: int, st: Status ensures CountAt(s'.counts, t, st) == Tally(s'.actions, t, st) {
      TallyPut(s.actions, id, a, t, st);
    }
  }

  /** The count and search triggers follow any UPDATE whose text columns change only when they are in the SET list. */
  lemma PutRowCore(s: Store, id: int, a: Action, text: bool)
    requires Core(s) && id in s.actions && a.taskId in s.tasks
    requires text || ActionRow(a) == ActionRow(s.actions[id])
    ensures Core(PutRow(s, id, a, text))
  {
    PutRowCounts(s, id, a, text);
  }

  lemma DeleteRowCore(s: Store, id: int)
    requires Core(s) && id in s.actions
    ensures Core(DeleteRow(s, id))
  {
    var s', was := DeleteRow(s, id), s.actions[id];
    assert id in Members(s.actions, was.taskId, was.status);
    assert CountAt(s.counts, was.taskId, was.status) == Tally(s.actions, was.taskId, was.status);
    forall t: int, st: Status ensures CountAt(s'.counts, t, st) == Tally(s'.actions, t, st) {
      TallyDelete(s.actions, id, t, st);
    }
    SubsetAcyclic(s'.edges, s.edges);
  }

  lemma DeleteTaskRowCore(s: Store, t: int)
    requires Core(s) && t in s.tasks
    requires forall id | id in s.actions :: s.actions[id].taskId != t
    requires forall c | c in s.schedules :: s.schedules[c].taskId != t
    ensures Core(DeleteTaskRow(s, t))
  {
    var s' := DeleteTaskRow(s, t);
    forall u: int, st: Status ensures CountAt(s'.counts, u, st) == Tally(s'.actions, u, st) {
      if u == t {
        assert forall id :: id !in Members(s.actions, u, st);
        assert Members(s.actions, u, st) == {};
      }
    }
    SubsetAcyclic(s'.edges, s.edges);
  }
}
