/** The append-only event log read back as a state machine, and what every step of the queue keeps. */
module History {
  import opened Types
  import opened Rows

  datatype Replayed = Absent | At(status: Status) | Broken

  /** The status changes the queue may make, other than a claim. */
  predicate Legal(from: Status, to: Status) {
    match from
    case Pending => IsTerminal(to)
    case Running => !to.Running?
    case Dispatched => IsTerminal(to)
    case Done => false
    case Failed => to.Pending?
    case Cancelled => to.Pending?
  }

  /** Reading one event; an event that does not continue the history so far breaks it. */
  function ReadEvent(r: Replayed, e: Event, id: int): Replayed {
    match e
    case Created(i, st) => if i != id then r else if r == Absent then At(st) else Broken
    case Claimed(i) => if i != id then r else if r == At(Pending) then At(Running) else Broken
    case StatusChanged(i, from, to, _, _) =>
      if i != id then r else if r == At(from) && Legal(from, to) then At(to) else Broken
    case _ => r
  }

  function Replay(events: seq<Event>, id: int): Replayed {
    if events == [] then Absent
    else ReadEvent(Replay(events[..|events| - 1], id), events[|events| - 1], id)
  }

  lemma ReplayAppend(events: seq<Event>, e: Event, id: int)
    ensures Replay(events + [e], id) == ReadEvent(Replay(events, id), e, id)
  {
  }

  /** The log of every existing action is an unbroken legal history that ends in its stored status. */
  ghost predicate Replays(actions: map<int, Action>, events: seq<Event>, nextAction: int) {
    && (forall id | id in actions :: Replay(events, id) == At(actions[id].status))
    && (forall id | id >= nextAction :: Replay(events, id) == Absent)
  }

  ghost predicate Inv(s: Store) {
    Core(s) && Replays(s.actions, s.events, s.next.action)
  }

  /** The empty database satisfies the invariant. */
  lemma EmptyInv()
    ensures Inv(EMPTY)
  {
  }

  /** An event about no action's status. */
  predicate Silent(e: Event) {
    !e.Created? && !e.Claimed? && !e.StatusChanged?
  }

  /** An event about the status of one existing action. */
  predicate Announces(e: Event, id: int) {
    (e.Claimed? || e.StatusChanged?) && e.id == id
  }

  lemma SilentReplays(actions: map<int, Action>, events: seq<Event>, nextAction: int, e: Event)
    requires Replays(actions, events, nextAction) && Silent(e)
    ensures Replays(actions, events + [e], nextAction)
  {
  }

  /** Writing a row together with the event that announces its new status. */
  lemma MoveReplays(actions: map<int, Action>, events: seq<Event>, nextAction: int, id: int, a: Action, e: Event)
    requires Replays(actions, events, nextAction) && id in actions && id < nextAction
    requires ReadEvent(At(actions[id].status), e, id) == At(a.status)
    requires Announces(e, id)
    ensures Replays(actions[id := a], events + [e], nextAction)
  {
    forall i ensures Replay(events + [e], i) == if i == id then At(a.status) else Replay(events, i) {
      ReplayAppend(events, e, i);
    }
  }

  lemma InsertReplays(s: Store, a: Action)
    requires Replays(s.actions, s.events, s.next.action)
    ensures Replays(s.actions[s.next.action := a], s.events + [Created(s.next.action, a.status)], s.next.action + 1)
  {
    forall i ensures Replay(s.events + [Created(s.next.action, a.status)], i)
                  == if i == s.next.action then At(a.status) else Replay(s.events, i)
    {
      ReplayAppend(s.events, Created(s.next.action, a.status), i);
    }
  }

  // ----- what one step may do to the rest -----

  /** What a step may edit besides rows of actions: dependency edges by owner, and statuses of tasks. */
  datatype Edits = Edits(owners: set<int>, tasks: set<int>)

  const NO_EDITS := Edits({}, {})

  /**
    s' comes from s by a step that gives new edges and new task statuses only where `edited` says: the log
    grows, ids are never reused, `done` is left only by deletion.
   */
  ghost predicate Evolves(s: Store, s': Store, edited: Edits) {
    && s.events <= s'.events
    && s.next.action <= s'.next.action
    && s.next.schedule <= s'.next.schedule
    && s.next.task <= s'.next.task
    && (forall id | id in s'.actions :: id in s.actions || id >= s.next.action)
    && (forall id | id in s.actions && id in s'.actions && s.actions[id].status.Done? :: s'.actions[id].status.Done?)
    && (forall e | e in s'.edges :: e in s.edges || e.owner in edited.owners || e.owner >= s.next.action)
    && TasksEvolve(s, s', edited.tasks)
  }

  ghost predicate TasksEvolve(s: Store, s': Store, edited: set<int>) {
    && (forall t | t in s'.tasks :: t in s.tasks || t >= s.next.task)
    && (forall t | t in s.tasks && t in s'.tasks && t !in edited :: s'.tasks[t].status == s.tasks[t].status)
  }

  ghost predicate Advances(s: Store, s': Store, edited: Edits) {
    Inv(s') && Evolves(s, s', edited)
  }

  lemma EvolvesSelf(s: Store, edited: Edits)
    ensures Evolves(s, s, edited)
  {
  }

  lemma AdvancesTransitive(s: Store, s1: Store, s2: Store, edited: Edits)
    requires Inv(s) && Advances(s, s1, edited) && Advances(s1, s2, edited)
    ensures Advances(s, s2, edited)
  {
  }

  /** An announced status change of one row. */
  lemma MoveAdvances(s: Store, id: int, a: Action, text: bool, e: Event)
    requires Inv(s) && id in s.actions && a.taskId in s.tasks
    requires text || ActionRow(a) == ActionRow(s.actions[id])
    requires ReadEvent(At(s.actions[id].status), e, id) == At(a.status) && !s.actions[id].status.Done?
    requires Announces(e, id)
    ensures Advances(s, Emit(PutRow(s, id, a, text), e), NO_EDITS)
  {
    PutRowCore(s, id, a, text);
    MoveReplays(s.actions, s.events, s.next.action, id, a, e);
  }

  /** A change of columns other than status, announced by a silent event. */
  lemma AmendAdvances(s: Store, id: int, a: Action, text: bool, e: Event)
    requires Inv(s) && id in s.actions && a.taskId in s.tasks && a.status == s.actions[id].status && Silent(e)
    requires text || ActionRow(a) == ActionRow(s.actions[id])
    ensures Advances(s, Emit(PutRow(s, id, a, text), e), NO_EDITS)
  {
    PutRowCore(s, id, a, text);
    SilentReplays(s.actions, s.events, s.next.action, e);
    var s' := Emit(PutRow(s, id, a, text), e);
    assert Replays(s.actions, s'.events, s.next.action);
  }

  /** A new row with the event that announces it, after any edges were added to the new id. */
  lemma InsertAdvances(s: Store, a: Action, s1: Store)
    requires Inv(s) && Core(s1)
    requires s1 == InsertRow(s, a).(edges := s1.edges)
    requires forall e | e in s1.edges :: e in s.edges || e.owner == s.next.action
    ensures Advances(s, Emit(s1, Created(s.next.action, a.status)), NO_EDITS)
  {
  }

  lemma SilentAdvances(s: Store, e: Event, edited: Edits)
    requires Inv(s) && Silent(e)
    ensures Advances(s, Emit(s, e), edited)
  {
  }
}
