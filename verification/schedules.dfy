/** The schedule check of one tick: decisions, their two bulk writes, and how often a schedule can fire. */
module Schedules {
  import opened Types
  import opened Metadata
  import opened Sets
  import opened Rows
  import opened History
  import opened Actions
  import opened Tables

  /** The cron library: whether an expression parses, and the time Next returns after a given second. */
  datatype Cron = Cron(parses: string -> bool, next: (string, int) -> int)

  const NO_PARSE := "parse metadata"
  const NOT_VALID := "invalid metadata"

  // ----- active actions -----

  /** Active actions that name a schedule in their metadata. */
  function ActiveOf(s: Store, c: int): set<int> {
    set id | id in s.actions && IsActive(s.actions[id].status) && ScheduleRef(s.actions[id].meta) == Some(c)
  }

  /** json_extract fails HasActiveActionsForSchedules on an active row whose metadata is not JSON. */
  predicate AllActiveReadable(s: Store) {
    forall id | id in s.actions && IsActive(s.actions[id].status) :: SqlReadable(s.actions[id].meta)
  }

  // ----- decisions -----

  datatype Decision = Skip | RecordError(text: string) | Fire(spec: ActionSpec)

  /** The second a schedule counts from. */
  function Base(c: Schedule): int {
    if c.lastRunAt.Some? then c.lastRunAt.value else c.createdAt
  }

  predicate Due(cron: Cron, c: Schedule, now: int) {
    now >= cron.next(c.cron, Base(c)) * SECOND
  }

  predicate Ready(s: Store, cron: Cron, c: Schedule, now: int) {
    && c.enabled && c.taskId in s.tasks && !IsClosed(s.tasks[c.taskId].status)
    && cron.parses(c.cron) && Due(cron, c, now)
  }

  function StampedMeta(c: Schedule, id: nat): Option<Object> {
    match GoParse(c.meta)
    case None => None
    case Some(m) => Some(m["instruction" := JStr(c.instruction)]["schedule_id" := JStr(Decimal(id))])
  }

  function Decide(s: Store, cron: Cron, id: int, now: int): Decision {
    if id !in s.schedules || id < 0 then Skip
    else
      var c := s.schedules[id];
      if !Ready(s, cron, c, now) || ActiveOf(s, id) != {} then Skip
      else match StampedMeta(c, id)
        case None => RecordError(NO_PARSE)
        case Some(m) =>
          if !ValidMetadata(m) then RecordError(NOT_VALID)
          else Fire(ActionSpec(c.title, c.taskId, Obj(m), Some(Pending), None, ""))
  }

  /** ORDER BY id DESC. */
  function Descending(ids: set<int>): seq<int>
    decreases |ids|
  {
    if ids == {} then [] else Descending(ids - {Min(ids)}) + [Min(ids)]
  }

  function Fired(s: Store, cron: Cron, now: int, ids: seq<int>): seq<int> {
    if ids == [] then []
    else (if Decide(s, cron, ids[0], now).Fire? then [ids[0]] else []) + Fired(s, cron, now, ids[1..])
  }

  function Errored(s: Store, cron: Cron, now: int, ids: seq<int>): seq<int> {
    if ids == [] then []
    else (if Decide(s, cron, ids[0], now).RecordError? then [ids[0]] else []) + Errored(s, cron, now, ids[1..])
  }

  function Specs(s: Store, cron: Cron, now: int, fired: seq<int>): seq<ActionSpec>
    requires forall id | id in fired :: Decide(s, cron, id, now).Fire?
  {
    seq(|fired|, i requires 0 <= i < |fired| => assert fired[i] in fired; Decide(s, cron, fired[i], now).spec)
  }

  function ErrorText(d: Decision): string {
    if d.RecordError? then d.text else ""
  }

  function RunsFor(s: Store, cron: Cron, now: int, ids: seq<int>): seq<RunUpdate> {
    if ids == [] then []
    else [RunUpdate(ids[0], Sec(now), ErrorText(Decide(s, cron, ids[0], now)))] + RunsFor(s, cron, now, ids[1..])
  }

  lemma {:induction false} FiredExact(s: Store, cron: Cron, now: int, ids: seq<int>)
    ensures forall id :: id in Fired(s, cron, now, ids) <==> id in ids && Decide(s, cron, id, now).Fire?
    ensures forall id :: id in Errored(s, cron, now, ids) <==> id in ids && Decide(s, cron, id, now).RecordError?
    decreases |ids|
  {
    if ids != [] {
      FiredExact(s, cron, now, ids[1..]);
    }
  }

  predicate Distinct(ids: seq<int>) {
    forall i, j | 0 <= i < j < |ids| :: ids[i] != ids[j]
  }

  lemma {:induction false} FiredDistinct(s: Store, cron: Cron, now: int, ids: seq<int>)
    requires Distinct(ids)
    ensures Distinct(Fired(s, cron, now, ids)) && Distinct(Errored(s, cron, now, ids))
    decreases |ids|
  {
    if ids != [] {
      FiredDistinct(s, cron, now, ids[1..]);
      FiredExact(s, cron, now, ids[1..]);
      assert ids[0] !in ids[1..];
    }
  }

  lemma {:induction false} DescendingLists(ids: set<int>)
    ensures Distinct(Descending(ids)) && forall x :: x in Descending(ids) <==> x in ids
    decreases |ids|
  {
    if ids != {} {
      DescendingLists(ids - {Min(ids)});
      var rest := Descending(ids - {Min(ids)});
      forall i | 0 <= i < |rest| ensures rest[i] != Min(ids) {
        assert rest[i] in rest;
      }
    }
  }

  lemma SpecsSound(s: Store, cron: Cron, now: int, fired: seq<int>)
    requires forall id | id in fired :: Decide(s, cron, id, now).Fire?
    ensures |Specs(s, cron, now, fired)| == |fired|
    ensures forall c | c in Specs(s, cron, now, fired) :: c.status == Some(Pending) && c.taskId in s.tasks
  {
  }

  lemma FireSpec(s: Store, cron: Cron, id: int, now: int)
    requires Decide(s, cron, id, now).Fire?
    ensures
      var spec := Decide(s, cron, id, now).spec;
      && spec.status == Some(Pending) && spec.taskId in s.tasks && spec.meta.Obj? && ScheduleRef(spec.meta) == Some(id)
      && id in s.schedules && ActiveOf(s, id) == {} && s.schedules[id].enabled && Due(cron, s.schedules[id], now)
  {
    var m := GoParse(s.schedules[id].meta).value["instruction" := JStr(s.schedules[id].instruction)];
    ScheduleStampRoundTrip(m, id);
  }

  /** Which calls of a check fail: the schedule listing, one of the two prefetches, the two writes. */
  datatype CheckFaults = CheckFaults(listFails: bool, prefetchFails: bool, recordFails: bool, insertFails: bool)

  /** The three reads before any decision. */
  predicate ReadsSucceed(s: Store, f: CheckFaults) {
    !f.listFails && !f.prefetchFails && AllActiveReadable(s)
  }

  /** One schedule check. Errors are recorded before, and independently of, the inserts. */
  function CheckSchedules(s: Store, cron: Cron, now: int, f: CheckFaults): (Store, Res<()>) {
    if f.listFails then (s, Err(QueryFailed))
    else if forall c | c in s.schedules :: !s.schedules[c].enabled then (s, Ok(()))
    else if f.prefetchFails || !AllActiveReadable(s) then (s, Err(QueryFailed))
    else
      var ids := Descending(s.schedules.Keys);
      var errored, fired := Errored(s, cron, now, ids), Fired(s, cron, now, ids);
      FiredExact(s, cron, now, ids);
      if errored != [] && f.recordFails then (s, Err(QueryFailed))
      else
        var s1 := BulkUpdateRuns(s, RunsFor(s, cron, now, errored));
        if fired != [] && f.insertFails then (s1, Err(QueryFailed))
        else BulkInsertScheduled(s1, Specs(s, cron, now, fired), RunsFor(s, cron, now, fired))
  }

  lemma CheckSchedulesAdvances(s: Store, cron: Cron, now: int, f: CheckFaults)
    requires Inv(s)
    ensures Advances(s, CheckSchedules(s, cron, now, f).0, NO_EDITS)
  {
    hide Core, Replays, Evolves, BulkUpdateRuns, BulkInsertScheduled, Decide, AllActiveReadable;
    EvolvesSelf(s, NO_EDITS);
    if (exists c :: c in s.schedules && s.schedules[c].enabled) && AllActiveReadable(s) {
      var ids := Descending(s.schedules.Keys);
      var errored, fired := Errored(s, cron, now, ids), Fired(s, cron, now, ids);
      FiredExact(s, cron, now, ids);
      var runs := RunsFor(s, cron, now, errored);
      BulkUpdateRunsAdvances(s, runs);
      var s1 := BulkUpdateRuns(s, runs);
      var specs, ran := Specs(s, cron, now, fired), RunsFor(s, cron, now, fired);
      BulkInsertScheduledAdvances(s1, specs, ran);
      AdvancesTransitive(s, s1, BulkInsertScheduled(s1, specs, ran).0, NO_EDITS);
    }
  }

  // ----- exactness -----

  predicate SomeError(s: Store, cron: Cron, now: int) {
    exists c :: c in s.schedules && Decide(s, cron, c, now).RecordError?
  }

  /**
    What becomes of a decision: nothing if a read before it fails or its own write does; a
    failure to record the errors of other schedules also stops the inserts.
   */
  function Effect(s: Store, cron: Cron, id: int, now: int, f: CheckFaults): Decision {
    var d := Decide(s, cron, id, now);
    if !ReadsSucceed(s, f) || (d.RecordError? && f.recordFails)
       || (d.Fire? && (f.insertFails || (f.recordFails && SomeError(s, cron, now)))) then Skip
    else d
  }

  function RanRow(c: Schedule, d: Decision, now: int): Schedule {
    match d
    case Skip => c
    case RecordError(text) => c.(lastRunAt := Some(Sec(now)), lastError := Some(text))
    case Fire(_) => c.(lastRunAt := Some(Sec(now)), lastError := None)
  }

  lemma {:induction false} RunsApplied(schedules: map<int, Schedule>, s: Store, cron: Cron, now: int, ids: seq<int>)
    requires Distinct(ids)
    requires forall id | id in ids :: Decide(s, cron, id, now) != Skip
    ensures
      var after := ApplyRuns(schedules, RunsFor(s, cron, now, ids));
      && after.Keys == schedules.Keys
      && forall c | c in schedules ::
           after[c] == if c in ids then RanRow(schedules[c], Decide(s, cron, c, now), now) else schedules[c]
    decreases |ids|
  {
    hide Decide;
    if ids != [] {
      var u := RunUpdate(ids[0], Sec(now), ErrorText(Decide(s, cron, ids[0], now)));
      assert RunsFor(s, cron, now, ids)[1..] == RunsFor(s, cron, now, ids[1..]);
      assert ids[0] in ids && ids[0] !in ids[1..] && forall id | id in ids[1..] :: id in ids;
      ErrorsNonEmpty(s, cron, ids[0], now);
      RunsApplied(ApplyRun(schedules, u), s, cron, now, ids[1..]);
    }
  }

  lemma ErrorsNonEmpty(s: Store, cron: Cron, id: int, now: int)
    ensures Decide(s, cron, id, now).RecordError? ==> Decide(s, cron, id, now).text != ""
  {
  }

  /** Row id is the one specs asks for, the first spec standing at id first. */
  predicate RowOf(actions: map<int, Action>, specs: seq<ActionSpec>, first: int, id: int)
    requires first <= id < first + |specs|
  {
    var c := specs[id - first];
    id in actions && c.status.Some? && actions[id] == NewRow(c, c.status.value)
  }

  /** s' is s with the rows of specs inserted under consecutive ids. */
  ghost predicate Inserted(s: Store, s': Store, specs: seq<ActionSpec>) {
    var first := s.next.action;
    && s'.next == s.next.(action := first + |specs|)
    && (forall id | first <= id < first + |specs| :: RowOf(s'.actions, specs, first, id))
    && (forall id | id in s.actions && id < first :: id in s'.actions && s'.actions[id] == s.actions[id])
    && (forall id | id in s'.actions :: id in s.actions || first <= id < first + |specs|)
    && (forall id | id in s.actions :: id in s'.actions)
    && s'.schedules == s.schedules && s'.tasks == s.tasks && s'.projects == s.projects && s'.edges == s.edges
  }

  lemma PrependInserted(s: Store, s': Store, specs: seq<ActionSpec>)
    requires specs != [] && specs[0].status.Some?
    requires Inserted(InsertRow(s, NewRow(specs[0], specs[0].status.value)), s', specs[1..])
    ensures Inserted(s, s', specs)
  {
    var first := s.next.action;
    var s1 := InsertRow(s, NewRow(specs[0], specs[0].status.value));
    assert first in s1.actions && first < s1.next.action;
    forall id | first <= id < first + |specs| ensures RowOf(s'.actions, specs, first, id) {
      if id > first {
        assert RowOf(s'.actions, specs[1..], first + 1, id);
      }
    }
  }

  lemma {:induction false} InsertRowsExact(s: Store, specs: seq<ActionSpec>)
    requires forall c | c in specs :: c.status.Some?
    ensures Inserted(s, InsertRows(s, specs), specs)
    decreases |specs|
  {
    if specs != [] {
      hide Inserted;
      assert specs[0] in specs && forall c | c in specs[1..] :: c in specs;
      InsertRowsExact(InsertRow(s, NewRow(specs[0], specs[0].status.value)), specs[1..]);
      PrependInserted(s, InsertRows(s, specs), specs);
    }
  }

  /** The insert and the run updates of one accepted batch. */
  lemma BulkInsertExact(s: Store, specs: seq<ActionSpec>, runs: seq<RunUpdate>)
    requires |specs| == |runs| && forall c | c in specs :: c.status == Some(Pending) && c.taskId in s.tasks
    ensures BulkInsertScheduled(s, specs, runs).1.Ok?
    ensures
      var s' := BulkInsertScheduled(s, specs, runs).0;
      s'.schedules == ApplyRuns(s.schedules, runs) && Inserted(s, s'.(schedules := s.schedules), specs)
  {
    InsertRowsExact(s, specs);
    assert specs == [] ==> runs == [];
  }

  /**
    A batch is refused for a length mismatch, an invalid status or a missing task, and then writes nothing;
    otherwise each row stands under the next id, column by column as asked.
   */
  lemma BulkInsertColumns(s: Store, specs: seq<ActionSpec>, runs: seq<RunUpdate>)
    ensures
      var (s', r) := BulkInsertScheduled(s, specs, runs);
      && (r.Ok? <==>
            |specs| == |runs| && forall i | 0 <= i < |specs| :: specs[i].status.Some? && specs[i].taskId in s.tasks)
      && (r.Err? ==> s' == s)
      && (r.Ok? ==>
            && s'.next == s.next.(action := s.next.action + |specs|)
            && s'.schedules == ApplyRuns(s.schedules, runs)
            && (forall id | id in s.actions && id < s.next.action ::
                  id in s'.actions && s'.actions[id] == s.actions[id])
            && (forall i | 0 <= i < |specs| :: WrittenAs(s'.actions, s.next.action + i, specs[i]))
            && forall id | id in s'.actions :: id in s.actions || s.next.action <= id < s.next.action + |specs|)
  {
    hide InsertRows, Inserted, ApplyRuns;
    assert (forall i | 0 <= i < |specs| :: specs[i].status.Some? && specs[i].taskId in s.tasks)
        <==> forall c | c in specs :: c.status.Some? && c.taskId in s.tasks;
    if BulkInsertScheduled(s, specs, runs).1.Ok? {
      assert specs == [] ==> runs == [];
      assert ApplyRuns(s.schedules, []) == s.schedules by {
        NoRuns(s.schedules);
      }
      InsertRowsExact(s, specs);
      InsertedColumns(s, InsertRows(s, specs), specs);
    }
  }

  /** An accepted batch announces each new action, then each run, in order. */
  lemma BulkInsertAnnounced(s: Store, specs: seq<ActionSpec>, runs: seq<RunUpdate>)
    requires BulkInsertScheduled(s, specs, runs).1.Ok? && forall c | c in specs :: c.status.Some?
    ensures
      var log, n := BulkInsertScheduled(s, specs, runs).0.events, |s.events|;
      && s.events <= log && |log| == n + |specs| + |runs|
      && (forall i | 0 <= i < |specs| :: log[n + i] == Created(s.next.action + i, specs[i].status.value))
      && forall i | 0 <= i < |runs| ::
           log[n + |specs| + i] == ScheduleRan(runs[i].id, runs[i].lastRunAt, runs[i].lastError)
  {
    hide InsertRows, ApplyRuns;
    InsertRowsSilent(s, specs);
    assert forall i | 0 <= i < |specs| :: specs[i] in specs;
  }

  lemma NoRuns(schedules: map<int, Schedule>)
    ensures ApplyRuns(schedules, []) == schedules
  {
  }

  ghost predicate WrittenAs(actions: map<int, Action>, id: int, c: ActionSpec) {
    && id in actions && c.status.Some?
    && actions[id] == Action(
         title := c.title, taskId := c.taskId, meta := c.meta, status := c.status.value, result := None,
         dispatchAfter := c.dispatchAfter, workDir := c.workDir, startedAt := None, completedAt := None)
  }

  lemma InsertedColumns(s: Store, s': Store, specs: seq<ActionSpec>)
    requires Inserted(s, s', specs)
    ensures s'.next == s.next.(action := s.next.action + |specs|) && s'.schedules == s.schedules
    ensures forall id | id in s.actions && id < s.next.action :: id in s'.actions && s'.actions[id] == s.actions[id]
    ensures forall i | 0 <= i < |specs| :: WrittenAs(s'.actions, s.next.action + i, specs[i])
    ensures forall id | id in s'.actions :: id in s.actions || s.next.action <= id < s.next.action + |specs|
  {
    forall i | 0 <= i < |specs| ensures WrittenAs(s'.actions, s.next.action + i, specs[i]) {
      assert RowOf(s'.actions, specs, s.next.action, s.next.action + i);
    }
  }

  /** The store after the check, relative to the schedules whose action was inserted. */
  ghost predicate Checked(s: Store, s': Store, cron: Cron, now: int, f: CheckFaults, fired: seq<int>) {
    && Distinct(fired) && (forall c :: c in fired <==> Effect(s, cron, c, now, f).Fire?)
    && s'.projects == s.projects && s'.tasks == s.tasks && s'.edges == s.edges
    && s'.schedules.Keys == s.schedules.Keys
    && (forall c | c in s.schedules :: s'.schedules[c] == RanRow(s.schedules[c], Effect(s, cron, c, now, f), now))
    && s'.next == s.next.(action := s.next.action + |fired|)
    && (forall id :: id in s'.actions <==> id in s.actions || s.next.action <= id < s.next.action + |fired|)
    && (forall id | id in s.actions :: s'.actions[id] == s.actions[id])
    && FiredRows(s, s', cron, now, fired)
  }

  /** The i-th schedule that fired owns the i-th new row. */
  ghost predicate FiredRows(s: Store, s': Store, cron: Cron, now: int, fired: seq<int>) {
    forall id | s.next.action <= id < s.next.action + |fired| ::
      && id in s'.actions && Decide(s, cron, fired[id - s.next.action], now).Fire?
      && s'.actions[id] == NewRow(Decide(s, cron, fired[id - s.next.action], now).spec, Pending)
  }

  /**
    A check inserts one pending action for each decision to fire that takes effect and nothing else, and
    advances last_run_at of exactly the schedules with such an action or a recorded error, whichever
    reads and writes fail. It reports success exactly when every decision took effect.
   */
  lemma CheckSchedulesExact(s: Store, cron: Cron, now: int, f: CheckFaults) returns (fired: seq<int>)
    requires Inv(s)
    ensures
      var (s', r) := CheckSchedules(s, cron, now, f);
      && Checked(s, s', cron, now, f, fired)
      && (r.Ok? <==> !f.listFails
                     && ((forall c | c in s.schedules :: !s.schedules[c].enabled)
                         || (ReadsSucceed(s, f) && forall c :: Effect(s, cron, c, now, f) == Decide(s, cron, c, now))))
  {
    hide Inv, AllActiveReadable, Decide, Checked, BulkUpdateRuns, BulkInsertScheduled, RunsFor, Specs, Effect,
         Errored, Fired, Descending;
    DecideScheduled(s, cron, now);
    NextAbove(s);
    UnreadNothing(s, cron, now, f);
    fired := [];
    if (forall c | c in s.schedules :: !s.schedules[c].enabled) || !ReadsSucceed(s, f) {
      CheckedNothing(s, cron, now, f);
    } else {
      var ids := Descending(s.schedules.Keys);
      DescendingLists(s.schedules.Keys);
      FiredExact(s, cron, now, ids);
      EffectsOf(s, cron, now, f, ids);
      var errored, all := Errored(s, cron, now, ids), Fired(s, cron, now, ids);
      if errored != [] && f.recordFails {
        CheckedNothing(s, cron, now, f);
        assert errored[0] in errored && Effect(s, cron, errored[0], now, f) != Decide(s, cron, errored[0], now);
      } else if all != [] && f.insertFails {
        CheckedErrors(s, cron, now, f, ids);
        assert all[0] in all && Effect(s, cron, all[0], now, f) != Decide(s, cron, all[0], now);
      } else {
        fired := all;
        CheckedByFired(s, cron, now, f, ids);
        assert errored != [] ==> errored[0] in errored;
        assert all != [] ==> all[0] in all;
        forall c ensures Effect(s, cron, c, now, f) == Decide(s, cron, c, now) {
          assert c in errored || c in all || (c !in errored && c !in all);
        }
      }
    }
  }

  lemma UnreadNothing(s: Store, cron: Cron, now: int, f: CheckFaults)
    ensures forall c | !ReadsSucceed(s, f) || Decide(s, cron, c, now) == Skip :: Effect(s, cron, c, now, f) == Skip
  {
    hide Decide, AllActiveReadable;
  }

  /** The two failing writes in terms of the batches they would have written. */
  lemma EffectsOf(s: Store, cron: Cron, now: int, f: CheckFaults, ids: seq<int>)
    requires ReadsSucceed(s, f) && forall id :: id in ids <==> id in s.schedules
    ensures
      var errored, fired := Errored(s, cron, now, ids), Fired(s, cron, now, ids);
      && (SomeError(s, cron, now) <==> errored != [])
      && (forall c | c in errored :: Effect(s, cron, c, now, f) == if f.recordFails then Skip
          else Decide(s, cron, c, now))
      && (forall c | c in fired :: Effect(s, cron, c, now, f)
            == if f.insertFails || (f.recordFails && errored != []) then Skip else Decide(s, cron, c, now))
      && (forall c | c !in errored && c !in fired :: Effect(s, cron, c, now, f) == Skip == Decide(s, cron, c, now))
  {
    FiredExact(s, cron, now, ids);
    DecideScheduled(s, cron, now);
    hide Decide, AllActiveReadable;
    var errored := Errored(s, cron, now, ids);
    if errored != [] {
      var c := errored[0];
      assert c in Errored(s, cron, now, ids);
      assert c in s.schedules && Decide(s, cron, c, now).RecordError?;
    }
    if SomeError(s, cron, now) {
      var c :| c in s.schedules && Decide(s, cron, c, now).RecordError?;
      assert c in errored;
    }
  }

  lemma CheckedNothing(s: Store, cron: Cron, now: int, f: CheckFaults)
    requires forall c :: Effect(s, cron, c, now, f) == Skip
    requires forall id | id in s.actions :: id < s.next.action
    ensures Checked(s, s, cron, now, f, [])
  {
    hide Effect;
  }

  /** The errors are recorded, the inserts are not made. */
  lemma CheckedErrors(s: Store, cron: Cron, now: int, f: CheckFaults, ids: seq<int>)
    requires ids == Descending(s.schedules.Keys) && ReadsSucceed(s, f)
    requires f.insertFails && (f.recordFails ==> Errored(s, cron, now, ids) == [])
    requires forall id | id in s.actions :: id < s.next.action
    ensures Checked(s, BulkUpdateRuns(s, RunsFor(s, cron, now, Errored(s, cron, now, ids))), cron, now, f, [])
  {
    hide Decide, AllActiveReadable, RanRow, Effect, Errored, Fired, RunsFor, ApplyRuns, Checked;
    var errored := Errored(s, cron, now, ids);
    DescendingLists(s.schedules.Keys);
    FiredExact(s, cron, now, ids);
    FiredDistinct(s, cron, now, ids);
    EffectsOf(s, cron, now, f, ids);
    RunsApplied(s.schedules, s, cron, now, errored);
    SkippedUntouched();
    CheckedRuns(s, BulkUpdateRuns(s, RunsFor(s, cron, now, errored)), cron, now, f);
  }

  lemma CheckedRuns(s: Store, s': Store, cron: Cron, now: int, f: CheckFaults)
    requires s' == s.(schedules := s'.schedules, events := s'.events) && s'.schedules.Keys == s.schedules.Keys
    requires forall c :: !Effect(s, cron, c, now, f).Fire?
    requires forall c | c in s.schedules :: s'.schedules[c] == RanRow(s.schedules[c], Effect(s, cron, c, now, f), now)
    requires forall id | id in s.actions :: id < s.next.action
    ensures Checked(s, s', cron, now, f, [])
  {
    hide Effect, RanRow;
  }

  lemma NextAbove(s: Store)
    requires Inv(s)
    ensures forall id | id in s.actions :: id < s.next.action
  {
  }

  lemma DecideScheduled(s: Store, cron: Cron, now: int)
    ensures forall c | Decide(s, cron, c, now) != Skip :: c in s.schedules && s.schedules[c].enabled
  {
  }

  /** The store between the two writes. */
  lemma ErrorsRecorded(s: Store, cron: Cron, now: int, ids: seq<int>)
    requires Distinct(ids)
    ensures
      var errored := Errored(s, cron, now, ids);
      var s1 := BulkUpdateRuns(s, RunsFor(s, cron, now, errored));
      && s1 == s.(schedules := s1.schedules, events := s1.events) && s1.schedules.Keys == s.schedules.Keys
      && forall c | c in s.schedules ::
           s1.schedules[c] == if c in errored then RanRow(s.schedules[c], Decide(s, cron, c, now), now)
               else s.schedules[c]
  {
    hide Decide, RanRow, Errored, RunsFor, ApplyRuns, Distinct, BulkUpdateRuns;
    var errored := Errored(s, cron, now, ids);
    FiredExact(s, cron, now, ids);
    FiredDistinct(s, cron, now, ids);
    RunsOnly(s, RunsFor(s, cron, now, errored));
    RunsApplied(s.schedules, s, cron, now, errored);
  }

  lemma FiresInserted(s: Store, s1: Store, cron: Cron, now: int, ids: seq<int>)
    requires Distinct(ids) && s1.tasks == s.tasks
    ensures forall c | c in Fired(s, cron, now, ids) :: Decide(s, cron, c, now).Fire?
    ensures
      var fired := Fired(s, cron, now, ids);
      var (s', r) := BulkInsertScheduled(s1, Specs(s, cron, now, fired), RunsFor(s, cron, now, fired));
      && r.Ok? && Inserted(s1, s'.(schedules := s1.schedules), Specs(s, cron, now, fired))
      && s'.schedules.Keys == s1.schedules.Keys
      && forall c | c in s1.schedules ::
           s'.schedules[c] == if c in fired then RanRow(s1.schedules[c], Decide(s, cron, c, now), now)
               else s1.schedules[c]
  {
    hide Decide, RanRow, Fired, RunsFor, ApplyRuns, Distinct, BulkInsertScheduled, Specs, Inserted;
    var fired := Fired(s, cron, now, ids);
    FiredExact(s, cron, now, ids);
    FiredDistinct(s, cron, now, ids);
    SpecsSound(s, cron, now, fired);
    RunsForLength(s, cron, now, fired);
    RunsApplied(s1.schedules, s, cron, now, fired);
    BulkInsertExact(s1, Specs(s, cron, now, fired), RunsFor(s, cron, now, fired));
  }

  lemma CheckedByFired(s: Store, cron: Cron, now: int, f: CheckFaults, ids: seq<int>)
    requires ids == Descending(s.schedules.Keys)
    requires forall id | id in s.actions :: id < s.next.action
    requires (exists c :: c in s.schedules && s.schedules[c].enabled) && ReadsSucceed(s, f)
    requires f.recordFails ==> Errored(s, cron, now, ids) == []
    requires f.insertFails ==> Fired(s, cron, now, ids) == []
    ensures CheckSchedules(s, cron, now, f).1.Ok?
    ensures Checked(s, CheckSchedules(s, cron, now, f).0, cron, now, f, Fired(s, cron, now, ids))
  {
    hide Decide, AllActiveReadable, RanRow, BulkInsertScheduled, Inserted, Checked, Effect, Errored, Fired, RunsFor,
         ApplyRuns, Specs, CheckSchedules, BulkUpdateRuns, Distinct, Descending, ReadsSucceed;
    var errored, fired := Errored(s, cron, now, ids), Fired(s, cron, now, ids);
    DescendingLists(s.schedules.Keys);
    EffectsOf(s, cron, now, f, ids);
    FiredExact(s, cron, now, ids);
    FiredDistinct(s, cron, now, ids);
    ErrorsRecorded(s, cron, now, ids);
    var s1 := BulkUpdateRuns(s, RunsFor(s, cron, now, errored));
    FiresInserted(s, s1, cron, now, ids);
    CheckInserts(s, cron, now, f, ids);
    RanBoth(s, s1.schedules, CheckSchedules(s, cron, now, f).0.schedules, cron, now, f, errored, fired);
    CheckedFromInserted(s, s1, CheckSchedules(s, cron, now, f).0, cron, now, f, fired);
  }

  lemma RunsOnly(s: Store, us: seq<RunUpdate>)
    ensures BulkUpdateRuns(s, us).schedules == ApplyRuns(s.schedules, us)
    ensures BulkUpdateRuns(s, us) == s.(schedules := BulkUpdateRuns(s, us).schedules,
        events := BulkUpdateRuns(s, us).events)
  {
  }

  lemma CheckInserts(s: Store, cron: Cron, now: int, f: CheckFaults, ids: seq<int>)
    requires ids == Descending(s.schedules.Keys)
    requires (exists c :: c in s.schedules && s.schedules[c].enabled) && ReadsSucceed(s, f)
    requires f.recordFails ==> Errored(s, cron, now, ids) == []
    requires f.insertFails ==> Fired(s, cron, now, ids) == []
    requires forall c | c in Fired(s, cron, now, ids) :: Decide(s, cron, c, now).Fire?
    ensures
      var errored, fired := Errored(s, cron, now, ids), Fired(s, cron, now, ids);
      CheckSchedules(s, cron, now, f)
      == BulkInsertScheduled(BulkUpdateRuns(s, RunsFor(s, cron, now, errored)), Specs(s, cron, now, fired),
          RunsFor(s, cron, now, fired))
  {
    hide Decide, AllActiveReadable, BulkInsertScheduled, Errored, Fired, RunsFor, Specs, BulkUpdateRuns;
  }

  /** The two run updates touch different schedules. */
  lemma RanBoth(s: Store, after: map<int, Schedule>, last: map<int, Schedule>, cron: Cron, now: int,
              f: CheckFaults, errored: seq<int>, fired: seq<int>)
    requires after.Keys == s.schedules.Keys && last.Keys == s.schedules.Keys
    requires forall c | c in s.schedules ::
               after[c] == if c in errored then RanRow(s.schedules[c], Decide(s, cron, c, now), now) else s.schedules[c]
    requires forall c | c in s.schedules ::
               last[c] == if c in fired then RanRow(after[c], Decide(s, cron, c, now), now) else after[c]
    requires forall c | c in errored || c in fired :: Effect(s, cron, c, now, f) == Decide(s, cron, c, now)
    requires forall c | c in errored :: c !in fired
    requires forall c | c !in errored && c !in fired :: Effect(s, cron, c, now, f) == Skip
    ensures forall c | c in s.schedules :: last[c] == RanRow(s.schedules[c], Effect(s, cron, c, now, f), now)
  {
    SkippedUntouched();
    hide Decide, Effect, RanRow;
  }

  lemma CheckedFromInserted(s: Store, s1: Store, s': Store, cron: Cron, now: int, f: CheckFaults, fired: seq<int>)
    requires Distinct(fired) && (forall c :: c in fired <==> Effect(s, cron, c, now, f).Fire?)
    requires forall c | c in fired :: Decide(s, cron, c, now).Fire?
    requires forall id | id in s.actions :: id < s.next.action
    requires s1 == s.(schedules := s1.schedules, events := s1.events)
    requires Inserted(s1, s'.(schedules := s1.schedules), Specs(s, cron, now, fired))
    requires s'.schedules.Keys == s.schedules.Keys
    requires forall c | c in s.schedules :: s'.schedules[c] == RanRow(s.schedules[c], Effect(s, cron, c, now, f), now)
    ensures Checked(s, s', cron, now, f, fired)
  {
    hide Decide, RanRow, Distinct, Effect;
    InsertedFired(s, s1, s', cron, now, fired);
  }

  lemma InsertedFired(s: Store, s1: Store, s': Store, cron: Cron, now: int, fired: seq<int>)
    requires forall c | c in fired :: Decide(s, cron, c, now).Fire?
    requires s1.next == s.next && Inserted(s1, s'.(schedules := s1.schedules), Specs(s, cron, now, fired))
    ensures FiredRows(s, s', cron, now, fired)
  {
    hide Decide;
    var specs, first := Specs(s, cron, now, fired), s.next.action;
    SpecsSound(s, cron, now, fired);
    forall id | first <= id < first + |fired|
      ensures id in s'.actions && Decide(s, cron, fired[id - first], now).Fire?
           && s'.actions[id] == NewRow(Decide(s, cron, fired[id - first], now).spec, Pending)
    {
      assert fired[id - first] in fired;
      assert specs[id - first] in specs;
      assert RowOf(s'.actions, specs, first, id);
    }
  }

  lemma {:induction false} RunsForLength(s: Store, cron: Cron, now: int, ids: seq<int>)
    ensures |RunsFor(s, cron, now, ids)| == |ids|
    decreases |ids|
  {
    if ids != [] {
      RunsForLength(s, cron, now, ids[1..]);
    }
  }

  lemma SkippedUntouched()
    ensures forall c: Schedule, now: int :: RanRow(c, Skip, now) == c
  {
  }

  // ----- a check, schedule by schedule -----

  /** The schedule is enabled, its task open, its next run due, and none of its actions active. */
  ghost predicate RunDue(s: Store, cron: Cron, c: int, now: int) {
    && c in s.schedules
    && var k := s.schedules[c];
    && k.enabled && k.taskId in s.tasks && s.tasks[k.taskId].status == Open && cron.parses(k.cron)
    && cron.next(k.cron, if k.lastRunAt.Some? then k.lastRunAt.value else k.createdAt) * 1_000_000_000 <= now
    && forall id | id in s.actions && s.actions[id].status in {Pending, Running, Dispatched} ::
         ScheduleRef(s.actions[id].meta) != Some(c)
  }

  /** Its metadata is an object or empty, its instruction is not blank, and its mode is one tq knows or none. */
  ghost predicate Stampable(k: Schedule) {
    && (k.meta.Obj? || k.meta.Blank?)
    && (exists ch | ch in k.instruction :: !(ch == ' ' || '\t' <= ch <= '\r'))
    && (k.meta.Obj? && "mode" in k.meta.m ==>
          k.meta.m["mode"] in {JStr(""), JStr("interactive"), JStr("noninteractive"), JStr("remote")})
  }

  /** A pending action of schedule c: its title, task and instruction, its metadata kept, its id stamped. */
  ghost predicate ActionFor(k: Schedule, c: int, a: Action) {
    && a == Action(title := k.title, taskId := k.taskId, meta := a.meta, status := Pending, result := None,
                   dispatchAfter := None, workDir := "", startedAt := None, completedAt := None)
    && a.meta.Obj? && "schedule_id" in a.meta.m && a.meta.m["schedule_id"].JStr?
    && ScheduleRef(a.meta) == Some(c)
    && Overlaid(k.meta, map["instruction" := JStr(k.instruction), "schedule_id" := a.meta.m["schedule_id"]], a.meta)
  }

  lemma ValidSpelled(s: string)
    ensures IsBlankText(s) <==> !exists ch | ch in s :: !(ch == ' ' || '\t' <= ch <= '\r')
  {
  }

  lemma StampSpelled(k: Schedule, id: nat)
    ensures StampedMeta(k, id).Some? <==> k.meta.Obj? || k.meta.Blank?
    ensures StampedMeta(k, id).Some? ==> (ValidMetadata(StampedMeta(k, id).value) <==> Stampable(k))
    ensures StampedMeta(k, id).Some? ==>
        ActionFor(k, id, NewRow(ActionSpec(k.title, k.taskId, Obj(StampedMeta(k, id).value), Some(Pending), None, ""),
                                Pending))
  {
    assert "instruction"[0] != "schedule_id"[0] && "mode"[0] != "schedule_id"[0] && "mode"[0] != "instruction"[0];
    ValidSpelled(k.instruction);
    if StampedMeta(k, id).Some? {
      ScheduleStampRoundTrip(GoParse(k.meta).value["instruction" := JStr(k.instruction)], id);
    }
    hide IsBlankText, ScheduleRef, Decimal;
  }

  lemma RunDueIff(s: Store, cron: Cron, c: int, now: int)
    requires c in s.schedules
    ensures RunDue(s, cron, c, now) <==> Ready(s, cron, s.schedules[c], now) && ActiveOf(s, c) == {}
  {
    hide ScheduleRef;
    if ActiveOf(s, c) != {} {
      var a := Member(ActiveOf(s, c));
      assert a in s.actions && s.actions[a].status in {Pending, Running, Dispatched};
    } else {
      forall id | id in s.actions && s.actions[id].status in {Pending, Running, Dispatched}
        ensures ScheduleRef(s.actions[id].meta) != Some(c)
      {
        assert id !in ActiveOf(s, c);
      }
    }
  }

  /** The three answers of the decision, each with its exact condition. */
  lemma DecideSpelled(s: Store, cron: Cron, c: int, now: int)
    requires c in s.schedules && c >= 0
    ensures
      var d, k := Decide(s, cron, c, now), s.schedules[c];
      && (d == Skip <==> !RunDue(s, cron, c, now))
      && (d.Fire? <==> RunDue(s, cron, c, now) && Stampable(k))
      && (d.RecordError? ==>
            d.text == if k.meta.Obj? || k.meta.Blank? then "invalid metadata" else "parse metadata")
      && (d.Fire? ==> d.spec.status == Some(Pending) && ActionFor(k, c, NewRow(d.spec, Pending)))
  {
    RunDueIff(s, cron, c, now);
    StampSpelled(s.schedules[c], c);
    hide RunDue, Ready, ActiveOf, StampedMeta, ValidMetadata, ActionFor;
    assert Stampable(s.schedules[c]) ==> s.schedules[c].meta.Obj? || s.schedules[c].meta.Blank?;
  }

  ghost predicate Fires(s: Store, cron: Cron, c: int, now: int) {
    RunDue(s, cron, c, now) && Stampable(s.schedules[c])
  }

  ghost predicate Errs(s: Store, cron: Cron, c: int, now: int) {
    RunDue(s, cron, c, now) && !Stampable(s.schedules[c])
  }

  /** The reads of the check succeed, no active row making one of its queries fail. */
  predicate Readable(s: Store, f: CheckFaults) {
    && !f.listFails && !f.prefetchFails
    && forall id | id in s.actions && s.actions[id].status in {Pending, Running, Dispatched} ::
         s.actions[id].meta.Obj? || s.actions[id].meta.NonObject?
  }

  ghost predicate Records(s: Store, f: CheckFaults) {
    Readable(s, f) && !f.recordFails
  }

  ghost predicate Inserts(s: Store, cron: Cron, now: int, f: CheckFaults) {
    Readable(s, f) && !f.insertFails && (f.recordFails ==> forall c :: !Errs(s, cron, c, now))
  }

  lemma EffectSpelled(s: Store, cron: Cron, c: int, now: int, f: CheckFaults)
    requires forall k | k in s.schedules :: k >= 0
    ensures Effect(s, cron, c, now, f).Fire? <==> Fires(s, cron, c, now) && Inserts(s, cron, now, f)
    ensures Effect(s, cron, c, now, f).RecordError? <==> Errs(s, cron, c, now) && Records(s, f)
    ensures Effect(s, cron, c, now, f) != Skip ==> Effect(s, cron, c, now, f) == Decide(s, cron, c, now)
  {
    hide RunDue, Stampable, ActionFor, Decide;
    forall k | k in s.schedules ensures Decide(s, cron, k, now).RecordError? <==> Errs(s, cron, k, now) {
      DecideSpelled(s, cron, k, now);
    }
    assert SomeError(s, cron, now) <==> exists k :: Errs(s, cron, k, now) by {
      ErrsScheduled(s, cron, now);
    }
    DecideScheduled(s, cron, now);
    if c in s.schedules {
      DecideSpelled(s, cron, c, now);
    } else {
      UnscheduledQuiet(s, cron, c, now);
    }
  }

  lemma ErrsScheduled(s: Store, cron: Cron, now: int)
    ensures forall c | Errs(s, cron, c, now) :: c in s.schedules
  {
  }

  lemma UnscheduledQuiet(s: Store, cron: Cron, c: int, now: int)
    requires c !in s.schedules
    ensures !RunDue(s, cron, c, now)
  {
  }

  /** Row id is new and is an action of schedule c. */
  ghost predicate NewFor(s: Store, s': Store, c: int, id: int) {
    c in s.schedules && id in s'.actions && id !in s.actions && ActionFor(s.schedules[c], c, s'.actions[id])
  }

  /**
    A check, schedule by schedule. A schedule gets a new action, and exactly one, if and only if it is
    enabled, its task is open, its cron parses, the next occurrence after its last run (its creation when
    there is none) has come, none of its actions is active, its metadata is valid once stamped, and the
    reads and writes before the insert succeed; its last run is then now and its last error cleared. The
    error is recorded under the same conditions when the metadata is not valid. Every other schedule and
    every old action keeps its row, and there is no other new action.
   */
  lemma CheckFiresIff(s: Store, cron: Cron, now: int, f: CheckFaults)
    requires Inv(s)
    ensures
      var s' := CheckSchedules(s, cron, now, f).0;
      && (forall c :: (exists id :: NewFor(s, s', c, id)) <==> Fires(s, cron, c, now) && Inserts(s, cron, now, f))
      && (forall c, i, j | NewFor(s, s', c, i) && NewFor(s, s', c, j) :: i == j)
      && (forall id | id in s'.actions && id !in s.actions :: exists c :: NewFor(s, s', c, id))
      && (forall id | id in s.actions :: id in s'.actions && s'.actions[id] == s.actions[id])
      && s'.schedules.Keys == s.schedules.Keys
      && forall c | c in s.schedules ::
           s'.schedules[c] == RowAfterCheck(s.schedules[c], Fires(s, cron, c, now) && Inserts(s, cron, now, f),
                                            Errs(s, cron, c, now) && Records(s, f), now)
  {
    var fired := CheckSchedulesExact(s, cron, now, f);
    var s' := CheckSchedules(s, cron, now, f).0;
    SchedulesIssued(s);
    hide Inv, CheckSchedules, Effect, Fires, Errs, Inserts, Records, Distinct, RanRow, FiredRows, NewFor;
    forall c ensures c in fired <==> Fires(s, cron, c, now) && Inserts(s, cron, now, f) {
      EffectSpelled(s, cron, c, now, f);
    }
    forall i | 0 <= i < |fired| ensures NewFor(s, s', fired[i], s.next.action + i) {
      assert fired[i] in fired;
      FiredIsNew(s, s', cron, now, f, fired, i);
    }
    forall c, id | NewFor(s, s', c, id)
      ensures 0 <= id - s.next.action < |fired| && fired[id - s.next.action] == c
    {
      NewIsFired(s, s', cron, now, f, fired, c, id);
    }
    forall c, i, j | NewFor(s, s', c, i) && NewFor(s, s', c, j) ensures i == j {
      SameIndex(fired, i - s.next.action, j - s.next.action);
    }
    forall id | id in s'.actions && id !in s.actions ensures exists c :: NewFor(s, s', c, id) {
      assert NewFor(s, s', fired[id - s.next.action], s.next.action + (id - s.next.action));
    }
    forall c | (exists id :: NewFor(s, s', c, id)) ensures c in fired {
      var id :| NewFor(s, s', c, id);
      assert fired[id - s.next.action] in fired;
    }
    forall c | c in s.schedules
      ensures s'.schedules[c] == RowAfterCheck(s.schedules[c], Fires(s, cron, c, now) && Inserts(s, cron, now, f),
                                               Errs(s, cron, c, now) && Records(s, f), now)
    {
      RanSpelled(s, cron, c, now, f);
    }
  }

  function RowAfterCheck(k: Schedule, fires: bool, errs: bool, now: int): Schedule {
    if fires then k.(lastRunAt := Some(now / 1_000_000_000), lastError := None)
    else if errs then
      k.(lastRunAt := Some(now / 1_000_000_000),
         lastError := Some(if k.meta.Obj? || k.meta.Blank? then "invalid metadata" else "parse metadata"))
    else k
  }

  lemma RanSpelled(s: Store, cron: Cron, c: int, now: int, f: CheckFaults)
    requires c in s.schedules && forall k | k in s.schedules :: k >= 0
    ensures RanRow(s.schedules[c], Effect(s, cron, c, now, f), now)
         == RowAfterCheck(s.schedules[c], Fires(s, cron, c, now) && Inserts(s, cron, now, f),
                          Errs(s, cron, c, now) && Records(s, f), now)
  {
    EffectSpelled(s, cron, c, now, f);
    DecideSpelled(s, cron, c, now);
    hide Effect, Decide, Inserts, Records, RunDue, Stampable, ActionFor;
  }

  lemma SchedulesIssued(s: Store)
    requires Inv(s)
    ensures forall k | k in s.schedules :: k >= 0
    ensures forall id | id in s.actions :: id < s.next.action
  {
  }

  lemma FiredIsNew(s: Store, s': Store, cron: Cron, now: int, f: CheckFaults, fired: seq<int>, i: int)
    requires Checked(s, s', cron, now, f, fired) && 0 <= i < |fired|
    requires forall k | k in s.schedules :: k >= 0
    requires forall id | id in s.actions :: id < s.next.action
    ensures NewFor(s, s', fired[i], s.next.action + i)
  {
    hide RanRow, Distinct, Effect, Decide, ActionFor, RunDue, Stampable;
    var c, id := fired[i], s.next.action + i;
    DecideScheduled(s, cron, now);
    assert fired[id - s.next.action] == c;
    assert id in s'.actions && Decide(s, cron, fired[id - s.next.action], now).Fire?;
    DecideSpelled(s, cron, c, now);
  }

  lemma NewIsFired(s: Store, s': Store, cron: Cron, now: int, f: CheckFaults, fired: seq<int>, c: int, id: int)
    requires Checked(s, s', cron, now, f, fired) && NewFor(s, s', c, id)
    requires forall i | 0 <= i < |fired| :: NewFor(s, s', fired[i], s.next.action + i)
    ensures 0 <= id - s.next.action < |fired| && fired[id - s.next.action] == c
  {
    hide RanRow, Distinct, Effect, Decide, FiredRows, ScheduleRef;
    assert NewFor(s, s', fired[id - s.next.action], s.next.action + (id - s.next.action));
  }

  lemma SameIndex(fired: seq<int>, i: int, j: int)
    requires Distinct(fired) && 0 <= i < |fired| && 0 <= j < |fired| && fired[i] == fired[j]
    ensures i == j
  {
  }

  /** A check reports an error exactly when a read it needs fails, or a write it has something to write for. */
  lemma CheckOkIff(s: Store, cron: Cron, now: int, f: CheckFaults)
    requires Inv(s)
    ensures CheckSchedules(s, cron, now, f).1.Ok? <==>
              && !f.listFails
              && ((forall c | c in s.schedules :: !s.schedules[c].enabled)
                  || (&& Readable(s, f)
                      && (f.recordFails ==> forall c :: !Errs(s, cron, c, now))
                      && (f.insertFails ==> forall c :: !Fires(s, cron, c, now))))
  {
    hide Inv, CheckSchedules, Effect, Fires, Errs, Decide, Checked, IsActive, SqlReadable;
    var fired := CheckSchedulesExact(s, cron, now, f);
    SchedulesIssued(s);
    ReadableIff(s, f);
    hide AllActiveReadable, Readable, ReadsSucceed;
    DecideScheduled(s, cron, now);
    forall c
      ensures Effect(s, cron, c, now, f) == Decide(s, cron, c, now) <==>
                && (Fires(s, cron, c, now) ==> Inserts(s, cron, now, f))
                && (Errs(s, cron, c, now) ==> Records(s, f))
    {
      EffectSpelled(s, cron, c, now, f);
      DecisionKind(s, cron, c, now);
    }
  }

  lemma ReadableIff(s: Store, f: CheckFaults)
    ensures ReadsSucceed(s, f) <==> Readable(s, f)
  {
  }

  lemma DecisionKind(s: Store, cron: Cron, c: int, now: int)
    requires forall k | k in s.schedules :: k >= 0
    ensures Decide(s, cron, c, now).Fire? <==> Fires(s, cron, c, now)
    ensures Decide(s, cron, c, now).RecordError? <==> Errs(s, cron, c, now)
  {
    hide RunDue, Stampable, ActionFor;
    if c in s.schedules {
      DecideSpelled(s, cron, c, now);
    } else {
      UnscheduledQuiet(s, cron, c, now);
    }
  }
}
