/** The repairs Migrate makes to the derived tables. */
module Migrate {
  import opened Types
  import opened Metadata
  import opened Graph
  import opened Rows
  import opened History
  import opened Dispatch

  /** The UPDATE trigger of task_action_counts as an existing database may have it. */
  datatype Trigger = Missing | Stale | Current

  /** A database before or after migration; a table that does not exist yet reads as empty. */
  datatype Database = Database(store: Store, trigger: Trigger)

  // ----- the counts table -----

  function Groups(actions: map<int, Action>): set<(int, Status)> {
    set id | id in actions :: (actions[id].taskId, actions[id].status)
  }

  /** INSERT ... SELECT task_id, status, COUNT(*) FROM actions GROUP BY task_id, status. */
  function Recounted(actions: map<int, Action>): Counts {
    map k | k in Groups(actions) :: Tally(actions, k.0, k.1)
  }

  lemma RecountedExact(actions: map<int, Action>)
    ensures CountsExact(Recounted(actions), actions)
  {
    forall t: int, st: Status ensures CountAt(Recounted(actions), t, st) == Tally(actions, t, st) {
      if (t, st) !in Groups(actions) {
        forall id ensures id !in Members(actions, t, st) {
        }
        assert Members(actions, t, st) == {};
      }
    }
  }

  function Rebuild(s: Store): Store {
    s.(counts := Recounted(s.actions))
  }

  /** Idempotent first fill: skipped as soon as the table has a row. */
  function BackfillCounts(s: Store): Store {
    if s.counts != map[] then s else Rebuild(s)
  }

  // ----- the legacy mode -----

  predicate IsLegacy(meta: Meta) {
    SqlExtract(meta, "mode") == Some(JStr(LEGACY_BG))
  }

  /** json_set(metadata, '$.mode', 'interactive') on text that still says experimental_bg. */
  function Modernized(meta: Meta): Meta {
    if IsLegacy(meta) then Obj(meta.m["mode" := JStr(INTERACTIVE)]) else meta
  }

  /** The search rows the UPDATE trigger rewrites. */
  function RewrittenRows(s: Store): map<int, SearchRow> {
    map id | id in s.actions && IsLegacy(s.actions[id].meta) ::
        ActionRow(s.actions[id].(meta := Modernized(s.actions[id].meta)))
  }

  /** The rewrite of actions, whatever their status, and of schedules. */
  function ModernizeActions(s: Store): Store {
    s.(actions := map id | id in s.actions :: s.actions[id].(meta := Modernized(s.actions[id].meta)),
       actionSearch := s.actionSearch + RewrittenRows(s),
       schedules := map c | c in s.schedules :: s.schedules[c].(meta := Modernized(s.schedules[c].meta)))
  }

  /** Rewriting the legacy mode moves no action between slot pools. */
  lemma ModernizeKeepsPools(s: Store, pool: Pool)
    ensures RunningIn(ModernizeActions(s), pool) == RunningIn(s, pool)
  {
    forall id | id in s.actions
      ensures InPool(Modernized(s.actions[id].meta), pool) == InPool(s.actions[id].meta, pool)
    {
      assert LEGACY_BG[0] != INTERACTIVE[0] && NONINTERACTIVE[0] != INTERACTIVE[0] && NONINTERACTIVE[0] != LEGACY_BG[0];
    }
  }

  predicate SaysLegacy(meta: Meta) {
    meta.Obj? && "mode" in meta.m && meta.m["mode"] == JStr("experimental_bg")
  }

  /** The rewritten metadata: mode interactive, every other key kept. */
  ghost predicate Rewritten(was: Meta, now: Meta) {
    was.Obj? && now.Obj? && now.m.Keys == was.m.Keys && "mode" in now.m && now.m["mode"] == JStr("interactive")
        && forall k | k in was.m && k != "mode" :: now.m[k] == was.m[k]
  }

  /**
    The rewrite looks at no status: a row, running or not, is left alone exactly when it does not carry the
    legacy mode; one that does changes its mode and no other metadata key or column.
   */
  lemma RowUntouchedIff(s: Store, id: int)
    requires id in s.actions
    ensures
      var was, now := s.actions[id], ModernizeActions(s).actions[id];
      && (now == was <==> !SaysLegacy(was.meta))
      && (SaysLegacy(was.meta) ==> Rewritten(was.meta, now.meta) && now == was.(meta := now.meta))
  {
    LegacyTexts();
  }

  lemma LegacyTexts()
    ensures LEGACY_BG == "experimental_bg" != "interactive" == INTERACTIVE
  {
    assert LEGACY_BG[0] != INTERACTIVE[0];
  }

  /** Schedules are rewritten in the same way. */
  lemma ScheduleUntouchedIff(s: Store, c: int)
    requires c in s.schedules
    ensures
      var was, now := s.schedules[c], ModernizeActions(s).schedules[c];
      && (now == was <==> !SaysLegacy(was.meta))
      && (SaysLegacy(was.meta) ==> Rewritten(was.meta, now.meta) && now == was.(meta := now.meta))
  {
    LegacyTexts();
  }

  // ----- the search tables -----

  function MissingTasks(search: map<int, SearchRow>, tasks: map<int, Task>): map<int, SearchRow> {
    map t | t in tasks && t !in search :: TaskRow(tasks[t])
  }

  function MissingActions(search: map<int, SearchRow>, actions: map<int, Action>): map<int, SearchRow> {
    map id | id in actions && id !in search :: ActionRow(actions[id])
  }

  /** Rows whose id is not yet indexed are added; existing index rows are left as they are. */
  function BackfillSearch(s: Store): Store {
    s.(taskSearch := s.taskSearch + MissingTasks(s.taskSearch, s.tasks),
       actionSearch := s.actionSearch + MissingActions(s.actionSearch, s.actions))
  }

  /** Partial: rows may be missing, none is dangling, and none is wrong but those the legacy rewrite replaces. */
  ghost predicate Completable(search: map<int, SearchRow>, actions: map<int, Action>) {
    forall id | id in search :: id in actions && (IsLegacy(actions[id].meta) || search[id] == ActionRow(actions[id]))
  }

  /** A partial index that agrees with the table: some rows missing, none wrong, none dangling. */
  ghost predicate Agrees(search: map<int, SearchRow>, actions: map<int, Action>) {
    forall id | id in search :: id in actions && search[id] == ActionRow(actions[id])
  }

  ghost predicate TasksAgree(search: map<int, SearchRow>, tasks: map<int, Task>) {
    forall t | t in search :: t in tasks && search[t] == TaskRow(tasks[t])
  }

  // ----- Migrate -----

  /**
    The order matters: the stale trigger is dropped before the schema recreates it, the rebuild precedes the
    backfills.
   */
  function Migrated(d: Database): Database {
    var s1 := ModernizeActions(d.store);
    var s2 := if d.trigger == Stale then Rebuild(s1) else s1;
    Database(BackfillSearch(BackfillCounts(s2)), Current)
  }

  lemma ModernizeKeepsTallies(s: Store, t: int, st: Status)
    ensures Tally(ModernizeActions(s).actions, t, st) == Tally(s.actions, t, st)
  {
    assert Members(ModernizeActions(s).actions, t, st) == Members(s.actions, t, st);
  }

  lemma ModernizeKeepsExactness(s: Store)
    ensures CountsExact(ModernizeActions(s).counts, ModernizeActions(s).actions) <==> CountsExact(s.counts, s.actions)
  {
    forall t: int, st: Status ensures Tally(ModernizeActions(s).actions, t, st) == Tally(s.actions, t, st) {
      ModernizeKeepsTallies(s, t, st);
    }
  }

  /**
    Migrate leaves exact counts exactly when it saw the stale trigger, an empty table, or counts that were
    exact already.
   */
  lemma CountsRestoredIff(d: Database)
    ensures
      var s' := Migrated(d).store;
      (d.trigger == Stale || d.store.counts == map[] || CountsExact(d.store.counts, d.store.actions))
      <==> CountsExact(s'.counts, s'.actions)
  {
    var s1 := ModernizeActions(d.store);
    RecountedExact(s1.actions);
    ModernizeKeepsExactness(d.store);
  }

  lemma BackfillIndexesIff(search: map<int, SearchRow>, actions: map<int, Action>)
    ensures ActionsIndexed(search + MissingActions(search, actions), actions)
       <==> Agrees(search, actions)
  {
    var full := search + MissingActions(search, actions);
    assert full.Keys == search.Keys + actions.Keys;
    forall id | id in search ensures full[id] == search[id] && id in full.Keys {
    }
    if Agrees(search, actions) {
      forall id | id in search.Keys ensures id in actions.Keys {
        assert id in search;
      }
      assert full.Keys == actions.Keys;
    }
  }

  lemma BackfillIndexesTasksIff(search: map<int, SearchRow>, tasks: map<int, Task>)
    ensures TasksIndexed(search + MissingTasks(search, tasks), tasks)
       <==> TasksAgree(search, tasks)
  {
    var full := search + MissingTasks(search, tasks);
    assert full.Keys == search.Keys + tasks.Keys;
    forall t | t in search ensures full[t] == search[t] && t in full.Keys {
    }
    if TasksAgree(search, tasks) {
      forall t | t in search.Keys ensures t in tasks.Keys {
        assert t in search;
      }
      assert full.Keys == tasks.Keys;
    }
  }

  lemma ModernizedIndexIff(s: Store)
    ensures Agrees(ModernizeActions(s).actionSearch, ModernizeActions(s).actions)
       <==> Completable(s.actionSearch, s.actions)
  {
    var s1 := ModernizeActions(s);
    assert s1.actions.Keys == s.actions.Keys;
    hide ActionRow;
    forall id | id in s.actions ensures s1.actions[id] == s.actions[id].(meta := Modernized(s.actions[id].meta)) {
    }
    forall id | id in s.actions && IsLegacy(s.actions[id].meta)
      ensures id in s1.actionSearch && s1.actionSearch[id] == ActionRow(s1.actions[id])
    {
      assert id in RewrittenRows(s);
    }
    forall id | id in s.actionSearch && !(id in s.actions && IsLegacy(s.actions[id].meta))
      ensures id in s1.actionSearch && s1.actionSearch[id] == s.actionSearch[id]
    {
      assert id !in RewrittenRows(s);
    }
    forall id | id in s1.actionSearch
      ensures id in s.actionSearch || (id in s.actions && IsLegacy(s.actions[id].meta))
    {
    }
  }

  /**
    Migrate completes a search index exactly when the rows it found refer to existing rows and are right,
    legacy ones excepted.
   */
  lemma SearchCompletedIff(d: Database)
    ensures
      var s, s' := d.store, Migrated(d).store;
      && (ActionsIndexed(s'.actionSearch, s'.actions) <==> Completable(s.actionSearch, s.actions))
      && (TasksIndexed(s'.taskSearch, s'.tasks) <==> TasksAgree(s.taskSearch, s.tasks))
  {
    hide ActionsIndexed, TasksIndexed, Agrees, TasksAgree, Completable, ModernizeActions;
    MigratedTables(d);
    var s1 := ModernizeActions(d.store);
    BackfillIndexesIff(s1.actionSearch, s1.actions);
    BackfillIndexesTasksIff(d.store.taskSearch, d.store.tasks);
    ModernizedIndexIff(d.store);
  }

  lemma MigratedTables(d: Database)
    ensures
      var s1, s' := ModernizeActions(d.store), Migrated(d).store;
      && s'.actions == s1.actions && s'.schedules == s1.schedules && s'.tasks == d.store.tasks
      && s'.actionSearch == s1.actionSearch + MissingActions(s1.actionSearch, s1.actions)
      && s'.taskSearch == d.store.taskSearch + MissingTasks(d.store.taskSearch, d.store.tasks)
  {
    hide ModernizeActions, Rebuild, BackfillCounts, MissingTasks, MissingActions;
    var s1 := ModernizeActions(d.store);
    ModernizeKeepsTasks(d.store);
    CountRepairsOnlyCounts(s1);
    CountRepairsOnlyCounts(Rebuild(s1));
  }

  lemma CountRepairsOnlyCounts(s: Store)
    ensures Rebuild(s) == s.(counts := Rebuild(s).counts)
    ensures BackfillCounts(s) == s.(counts := BackfillCounts(s).counts)
  {
  }

  lemma ModernizeKeepsTasks(s: Store)
    ensures ModernizeActions(s).tasks == s.tasks && ModernizeActions(s).taskSearch == s.taskSearch
  {
  }

  lemma ModernizeTwice(s: Store)
    requires forall id | id in s.actions :: !IsLegacy(s.actions[id].meta)
    requires forall c | c in s.schedules :: !IsLegacy(s.schedules[c].meta)
    ensures ModernizeActions(s) == s
  {
    var m := ModernizeActions(s);
    assert m.actions.Keys == s.actions.Keys && m.schedules.Keys == s.schedules.Keys;
    forall id | id in s.actions ensures m.actions[id] == s.actions[id] {
    }
    forall c | c in s.schedules ensures m.schedules[c] == s.schedules[c] {
    }
    assert m.actions == s.actions && m.schedules == s.schedules;
    assert forall id :: id !in RewrittenRows(s);
    assert m.actionSearch == s.actionSearch;
  }

  lemma ModernizedNotLegacy(s: Store)
    ensures forall id | id in ModernizeActions(s).actions :: !IsLegacy(ModernizeActions(s).actions[id].meta)
    ensures forall c | c in ModernizeActions(s).schedules :: !IsLegacy(ModernizeActions(s).schedules[c].meta)
  {
  }

  lemma BackfillsTwice(s: Store)
    ensures BackfillCounts(BackfillCounts(s)) == BackfillCounts(s)
    ensures BackfillSearch(BackfillSearch(s)) == BackfillSearch(s)
  {
    hide Recounted, MissingTasks, MissingActions;
    NothingMissing(s.taskSearch, s.tasks, s.actionSearch, s.actions);
  }

  /** A backfilled index is missing nothing, so a second backfill adds nothing. */
  lemma NothingMissing(seen: map<int, SearchRow>, tasks: map<int, Task>, found: map<int, SearchRow>,
        actions: map<int, Action>)
    ensures
      var ft, fa := seen + MissingTasks(seen, tasks), found + MissingActions(found, actions);
      ft + MissingTasks(ft, tasks) == ft && fa + MissingActions(fa, actions) == fa
  {
    hide TaskRow, ActionRow;
  }

  /** Running Migrate again changes nothing. */
  lemma MigrateIdempotent(d: Database)
    ensures Migrated(Migrated(d)) == Migrated(d)
  {
    hide ModernizeActions, BackfillCounts, BackfillSearch;
    var s1 := ModernizeActions(d.store);
    ModernizedNotLegacy(d.store);
    MigratedTables(d);
    var s2 := if d.trigger == Stale then Rebuild(s1) else s1;
    var s3 := BackfillCounts(s2);
    ModernizeTwice(BackfillSearch(s3));
    BackfillsTwice(s2);
    BackfillsTwice(s3);
    BackfillsCommute(s3);
  }

  lemma BackfillsCommute(s: Store)
    requires BackfillCounts(s) == s
    ensures BackfillCounts(BackfillSearch(s)) == BackfillSearch(s)
  {
    hide Recounted;
  }

  // ----- interrupted migrations -----

  function MigratedTimes(d: Database, n: nat): Database
    decreases n
  {
    if n == 0 then d else MigratedTimes(Migrated(d), n - 1)
  }

  lemma {:induction false} MigrateSettles(d: Database, n: nat)
    requires n > 0
    ensures MigratedTimes(d, n) == Migrated(d)
    decreases n
  {
    hide Migrated;
    if n > 1 {
      MigrateIdempotent(d);
      MigrateSettles(Migrated(d), n - 1);
    }
  }

  /**
    An interrupted migration is not repaired later: once the schema has recreated the trigger, drifted
    counts that were not yet rebuilt stay drifted through any number of further Migrates.
   */
  lemma InterruptedRebuildStays(d: Database, n: nat)
    requires d.trigger == Stale && d.store.counts != map[] && !CountsExact(d.store.counts, d.store.actions)
    ensures
      var resumed := MigratedTimes(d.(trigger := Current), n).store;
      !CountsExact(resumed.counts, resumed.actions)
  {
    if n > 0 {
      MigrateSettles(d.(trigger := Current), n);
      CountsRestoredIff(d.(trigger := Current));
    }
  }

  /** The stale trigger fires on status changes only. */
  function StaleRecount(counts: Counts, was: Action, now: Action): Counts {
    if was.status == now.status then counts
    else Increment(Decrement(counts, was.taskId, was.status), now.taskId, now.status)
  }

  /** Under the stale trigger exact counts survive an UPDATE exactly when it changes the status or keeps the task. */
  lemma StaleTriggerDriftsIff(counts: Counts, actions: map<int, Action>, id: int, a: Action)
    requires CountsExact(counts, actions) && id in actions
    ensures CountsExact(StaleRecount(counts, actions[id], a), actions[id := a])
       <==> a.status != actions[id].status || a.taskId == actions[id].taskId
  {
    var was, after := actions[id], StaleRecount(counts, actions[id], a);
    assert id in Members(actions, was.taskId, was.status);
    assert CountAt(counts, was.taskId, was.status) == Tally(actions, was.taskId, was.status);
    if a.status != was.status || a.taskId == was.taskId {
      forall t: int, st: Status ensures CountAt(after, t, st) == Tally(actions[id := a], t, st) {
        TallyPut(actions, id, a, t, st);
      }
    } else {
      TallyPut(actions, id, a, was.taskId, was.status);
      assert CountAt(after, was.taskId, was.status) != Tally(actions[id := a], was.taskId, was.status);
    }
  }

  // ----- what Migrate makes of a whole database -----

  /** The invariant without the derived tables. */
  ghost predicate BaseSound(s: Store) {
    && TasksHomed(s.tasks, s.projects) && ActionsHomed(s.actions, s.tasks) && SchedulesHomed(s.schedules, s.tasks)
    && EdgesSound(s.edges, s.actions, s.tasks) && IdsBelowNext(s) && Acyclic(s.edges)
    && Replays(s.actions, s.events, s.next.action)
  }

  const REASSIGNED := Action("a", 2, Obj(map[]), Pending, None, None, "", None, None)

  /** One action inserted under task 1 and amended to task 2, its counts kept by the stale trigger. */
  const DRIFTED := EMPTY.(
    projects := map[1 := Project("p", true)],
    tasks := map[1 := Task(1, "t", Obj(map[]), Open, ""), 2 := Task(1, "u", Obj(map[]), Open, "")],
    actions := map[1 := REASSIGNED],
    counts := StaleRecount(map[(1, Pending) := 1], REASSIGNED.(taskId := 1), REASSIGNED),
    events := [Created(1, Pending), Updated(1, 1)],
    next := Ids(2, 3, 2, 1))

  /** A database the code can meet: sound base tables and log, drifted only through the stale trigger. */
  lemma InterruptedRebuildReached()
    ensures BaseSound(DRIFTED) && CountsHomed(DRIFTED.counts, DRIFTED.tasks)
    ensures DRIFTED.counts != map[] && !CountsExact(DRIFTED.counts, DRIFTED.actions)
    ensures forall n: nat ::
              var resumed := MigratedTimes(Database(DRIFTED, Current), n).store;
              !CountsExact(resumed.counts, resumed.actions)
  {
    var was, actions, counts: Counts := REASSIGNED.(taskId := 1), map[1 := REASSIGNED.(taskId := 1)],
        map[(1, Pending) := 1];
    forall t: int, st: Status ensures CountAt(counts, t, st) == Tally(actions, t, st) {
      assert Members(actions, t, st) == if t == 1 && st == Pending then {1} else {};
    }
    StaleTriggerDriftsIff(counts, actions, 1, REASSIGNED);
    assert actions[1 := REASSIGNED] == DRIFTED.actions;
    assert (1, Pending) in counts;
    DriftedSound();
    forall n: nat ensures !CountsExact(MigratedTimes(Database(DRIFTED, Current), n).store.counts,
                                       MigratedTimes(Database(DRIFTED, Current), n).store.actions)
    {
      InterruptedRebuildStays(Database(DRIFTED, Stale), n);
    }
  }

  lemma DriftedSound()
    ensures BaseSound(DRIFTED)
  {
    var first, second := Created(1, Pending), Updated(1, 1);
    assert DRIFTED.events == [] + [first] + [second];
    forall id ensures Replay(DRIFTED.events, id) == if id == 1 then At(Pending) else Absent {
      ReplayAppend([], first, id);
      ReplayAppend([first], second, id);
      assert [] + [first] == [first] && [first] + [second] == DRIFTED.events;
    }
  }

  lemma MigratedRows(d: Database)
    ensures
      var s, s' := d.store, Migrated(d).store;
      && s'.projects == s.projects && s'.tasks == s.tasks && s'.edges == s.edges && s'.events == s.events
          && s'.next == s.next
      && s'.actions.Keys == s.actions.Keys && s'.schedules.Keys == s.schedules.Keys
      && (forall id | id in s.actions ::
            s'.actions[id].status == s.actions[id].status && s'.actions[id].taskId == s.actions[id].taskId)
      && (forall c | c in s.schedules :: s'.schedules[c].taskId == s.schedules[c].taskId)
  {
    hide ModernizeActions, Rebuild, BackfillCounts, MissingTasks, MissingActions;
    var s1 := ModernizeActions(d.store);
    ModernizedRows(d.store);
    CountRepairsOnlyCounts(s1);
    CountRepairsOnlyCounts(Rebuild(s1));
  }

  lemma ModernizedRows(s: Store)
    ensures
      var s' := ModernizeActions(s);
      && s' == s.(actions := s'.actions, actionSearch := s'.actionSearch, schedules := s'.schedules)
      && s'.actions.Keys == s.actions.Keys && s'.schedules.Keys == s.schedules.Keys
      && (forall id | id in s.actions ::
            s'.actions[id].status == s.actions[id].status && s'.actions[id].taskId == s.actions[id].taskId)
      && (forall c | c in s.schedules :: s'.schedules[c].taskId == s.schedules[c].taskId)
  {
    hide RewrittenRows, Modernized;
  }

  lemma MigrateKeepsBase(d: Database)
    ensures BaseSound(Migrated(d).store) <==> BaseSound(d.store)
  {
    hide Migrated;
    MigratedRows(d);
    var s, s' := d.store, Migrated(d).store;
    assert forall id :: id in s'.actions.Keys <==> id in s.actions.Keys;
    assert forall c :: c in s'.schedules.Keys <==> c in s.schedules.Keys;
    assert forall e :: EdgeSound(s'.actions, s'.tasks, e) <==> EdgeSound(s.actions, s.tasks, e);
    hide Acyclic, Replay;
  }

  /** The counts Migrate leaves refer to existing tasks. */
  lemma CountsHomedIff(d: Database)
    requires ActionsHomed(d.store.actions, d.store.tasks)
    ensures CountsHomed(Migrated(d).store.counts, d.store.tasks)
       <==> d.trigger == Stale || d.store.counts == map[] || CountsHomed(d.store.counts, d.store.tasks)
  {
    var s1 := ModernizeActions(d.store);
    forall k | k in Recounted(s1.actions) ensures k.0 in d.store.tasks {
      var id :| id in s1.actions && k == (s1.actions[id].taskId, s1.actions[id].status);
      assert d.store.actions[id].taskId in d.store.tasks;
    }
    hide Recounted, ModernizeActions;
  }

  /**
    Sound base tables and log, counts that will be rebuilt or are exact, and search indexes without wrong or
    dangling rows.
   */
  ghost predicate Repairable(d: Database) {
    var s := d.store;
    && BaseSound(s)
    && (d.trigger == Stale || s.counts == map[] || (CountsExact(s.counts, s.actions) && CountsHomed(s.counts, s.tasks)))
    && Completable(s.actionSearch, s.actions) && TasksAgree(s.taskSearch, s.tasks)
  }

  /** Migrate turns exactly the repairable databases into ones that satisfy the invariant. */
  lemma MigratedInvIff(d: Database)
    ensures Inv(Migrated(d).store) <==> Repairable(d)
  {
    hide Migrated, BaseSound, CountsExact, CountsHomed, ActionsIndexed, TasksIndexed, Completable, TasksAgree;
    MigrateKeepsBase(d);
    CountsRestoredIff(d);
    SearchCompletedIff(d);
    InvParts(Migrated(d).store);
    MigratedRows(d);
    if BaseSound(d.store) {
      BaseHomed(d.store);
      CountsHomedIff(d);
    }
  }

  lemma InvParts(s: Store)
    ensures Inv(s) <==> BaseSound(s) && CountsExact(s.counts, s.actions) && CountsHomed(s.counts, s.tasks)
                        && ActionsIndexed(s.actionSearch, s.actions) && TasksIndexed(s.taskSearch, s.tasks)
  {
  }

  lemma BaseHomed(s: Store)
    requires BaseSound(s)
    ensures ActionsHomed(s.actions, s.tasks)
  {
  }

  /** On a valid database Migrate keeps every invariant, whatever trigger it finds. */
  lemma MigrateAdvances(s: Store, trigger: Trigger)
    requires Inv(s)
    ensures Advances(s, Migrated(Database(s, trigger)).store, NO_EDITS)
  {
    hide Inv, Evolves, Repairable, Migrated;
    SoundRepairable(s, trigger);
    MigratedInvIff(Database(s, trigger));
    MigrateEvolves(s, trigger);
  }

  lemma SoundRepairable(s: Store, trigger: Trigger)
    requires Inv(s)
    ensures Repairable(Database(s, trigger))
  {
    hide CountsExact, CountsHomed, BaseSound, ActionsIndexed, TasksIndexed, Completable, TasksAgree;
    InvParts(s);
    IndexedAgrees(s);
  }

  lemma MigrateEvolves(s: Store, trigger: Trigger)
    ensures Evolves(s, Migrated(Database(s, trigger)).store, NO_EDITS)
  {
    hide Migrated;
    MigratedRows(Database(s, trigger));
  }

  lemma IndexedAgrees(s: Store)
    requires ActionsIndexed(s.actionSearch, s.actions) && TasksIndexed(s.taskSearch, s.tasks)
    ensures Completable(s.actionSearch, s.actions) && TasksAgree(s.taskSearch, s.tasks)
  {
    assert forall id :: id in s.actionSearch.Keys <==> id in s.actions.Keys;
    assert forall t :: t in s.taskSearch.Keys <==> t in s.tasks.Keys;
  }
}
