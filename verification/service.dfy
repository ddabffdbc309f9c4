/** The worker's loops over the database object. */
module WorkerService {
  import opened Types
  import opened Metadata
  import opened Sets
  import opened Rows
  import opened History
  import opened Actions
  import opened Bulk
  import opened Tables
  import opened Dispatch
  import opened Reaper
  import opened Schedules
  import opened WorkerLoop
  import opened DatabaseObject

  // ----- execution -----

  /** MarkFailed as the executor calls it: a failing write is logged and ignored. */
  method FailAction(db: DB, id: int, reason: string, t: Attempt)
    requires db.Valid()
    modifies db
    ensures db.Valid()
    ensures db.Snapshot() == Fail(old(db.Snapshot()), id, reason, t)
  {
    if !t.faults.mark {
      var r := db.MarkTerminalAction(id, Failed, reason, t.actAt);
    }
  }

  /** MergeActionMetadata as the executor calls it. */
  method StampAction(db: DB, id: int, key: string, handle: string, t: Attempt)
    requires db.Valid()
    modifies db
    ensures db.Valid()
    ensures db.Snapshot() == Stamp(old(db.Snapshot()), id, key, handle, t)
  {
    if !t.faults.merge {
      var r := db.MergeActionMetadata(id, map[key := JStr(handle)]);
    }
  }

  method DeferOrFailAction(db: DB, id: int, t: Attempt) returns (x: Execution)
    requires db.Valid()
    modifies db
    ensures db.Valid()
    ensures (db.Snapshot(), x) == DeferOrFail(old(db.Snapshot()), id, t)
  {
    var failed := t.faults.defer;
    if !failed {
      var r := db.DeferAction(id, t.actAt, DEFER_BACKOFF);
      failed := r.Err?;
    }
    if failed {
      FailAction(db, id, DEFER_FAILED, t);
      return ActionFailed;
    }
    return Deferred;
  }

  /** Runs one claimed action; `caps` is None when no admission callback is given. */
  method Execute(db: DB, caps: Option<Caps>, id: int, t: Attempt) returns (x: Execution)
    requires id in db.actions
    requires db.Valid()
    modifies db
    ensures db.Valid()
    ensures (db.Snapshot(), x) == ExecuteAction(old(db.Snapshot()), caps, id, t)
  {
    hide Inv, Evolves, Fail, Stamp;
    var meta := db.actions[id].meta;
    var parsed := GoParse(meta);
    if parsed.None? || !ValidMetadata(parsed.value) || !ValidClaudeArgs(ClaudeArgs(parsed.value)) {
      FailAction(db, id, BAD_METADATA, t);
      return Rejected;
    }
    var mode := ModeOf(parsed.value);
    if mode == REMOTE {
      match t.launch {
        case LaunchFailed(reason) =>
          FailAction(db, id, reason, t);
          return ActionFailed;
        case Started(handle) =>
          StampAction(db, id, REMOTE_SESSION, handle, t);
          if !t.faults.dispatched {
            var r := db.MarkDispatchedAction(id);
          }
          return Launched;
      }
    }
    if caps.Some? && !Admits(db.Snapshot(), caps.value, PoolOf(mode), t.faults.count) {
      x := DeferOrFailAction(db, id, t);
      return;
    }
    match t.launch {
      case LaunchFailed(reason) =>
        FailAction(db, id, reason, t);
        return ActionFailed;
      case Started(handle) =>
        StampAction(db, id, DAEMON_SHORT, handle, t);
        return Launched;
    }
  }

  /** One attempt of the tick. */
  lemma DispatchStep(s: Store, caps: Caps, env: nat -> Attempt, n: nat)
    ensures n >= MAX_ATTEMPTS ==> DispatchFrom(s, caps, env, n) == (s, false, false)
    ensures n < MAX_ATTEMPTS && env(n).faults.claim ==> DispatchFrom(s, caps, env, n) == (s, false, true)
    ensures
      n < MAX_ATTEMPTS && !env(n).faults.claim ==>
        var (s1, next) := NextPending(s, env(n).claimAt);
        && (next.None? ==> DispatchFrom(s, caps, env, n) == (s1, false, false))
        && (next.Some? ==>
              && next.value in s1.actions
              && var (s2, x) := ExecuteAction(s1, Some(caps), next.value, env(n));
              DispatchFrom(s, caps, env, n) == if x == Deferred then DispatchFrom(s2, caps, env, n + 1)
                  else (s2, true, x == Rejected))
  {
    hide ExecuteAction, Claim, EligibleIds;
    if EligibleIds(s, env(n).claimAt) != {} {
      LeastPending(s, env(n).claimAt);
    }
  }

  /** One dispatch tick: claim, count, defer and go on, for at most MAX_ATTEMPTS attempts. */
  method DispatchOne(db: DB, caps: Caps, env: nat -> Attempt) returns (dispatched: bool, failed: bool)
    requires db.Valid()
    modifies db
    ensures db.Valid()
    ensures (db.Snapshot(), dispatched, failed) == DispatchFrom(old(db.Snapshot()), caps, env, 0)
  {
    hide Inv, Evolves, DispatchFrom, ExecuteAction, NextPending;
    var attempt := 0;
    while attempt < MAX_ATTEMPTS
      invariant 0 <= attempt <= MAX_ATTEMPTS && db.Valid()
      invariant DispatchFrom(db.Snapshot(), caps, env, attempt) == DispatchFrom(old(db.Snapshot()), caps, env, 0)
    {
      DispatchStep(db.Snapshot(), caps, env, attempt);
      if env(attempt).faults.claim {
        return false, true;
      }
      var next := db.NextPendingAction(env(attempt).claimAt);
      if next.None? {
        return false, false;
      }
      var x := Execute(db, Some(caps), next.value, env(attempt));
      if x != Deferred {
        return true, x == Rejected;
      }
      attempt := attempt + 1;
    }
    DispatchStep(db.Snapshot(), caps, env, attempt);
    return false, false;
  }

  // ----- reaping -----

  method ReapOrphanActions(db: DB, cfg: ReapConfig, env: ReapEnv)
    requires db.Valid()
    modifies db
    ensures db.Valid()
    ensures db.Snapshot() == ReapOrphans(old(db.Snapshot()), cfg, env)
  {
    var listed := Orphans(db.Snapshot(), cfg.grace, env.listed);
    if listed.None? {
      return;
    }
    var ids := listed.value;
    var failures: seq<Mark> := [];
    var i := 0;
    while i < |ids|
      invariant 0 <= i <= |ids|
      invariant failures + Marks(ids[i..], _ => Some(ORPHANED)) == Marks(ids, _ => Some(ORPHANED))
    {
      failures := failures + [Mark(ids[i], ORPHANED)];
      assert ids[i..][0] == ids[i] && ids[i..][1..] == ids[i + 1..];
      i := i + 1;
    }
    assert ids[i..] == [] && failures + [] == failures;
    if !env.orphans.fails {
      var r := db.BulkMarkFailedActions(failures, env.orphans.at);
    }
  }

  lemma NoMarks(pick: int -> Option<string>, update: int -> Option<Object>)
    ensures Marks([], pick) == [] && Updates([], update) == []
  {
  }

  /** What the listing from i on contributes to a batch: row i first. */
  lemma NextMarks(ids: seq<int>, i: nat, pick: int -> Option<string>, update: int -> Option<Object>)
    requires i < |ids|
    ensures Marks(ids[i..], pick)
         == (if pick(ids[i]).Some? then [Mark(ids[i], pick(ids[i]).value)] else []) + Marks(ids[i + 1..], pick)
    ensures Updates(ids[i..], update)
         == (if update(ids[i]).Some? then [MetaUpdate(ids[i], update(ids[i]).value)] else [])
            + Updates(ids[i + 1..], update)
  {
    assert ids[i..][0] == ids[i] && ids[i..][1..] == ids[i + 1..];
  }

  /** The loop of reapBg: reads each listed job and sorts its action into the three batches. */
  method SortJobs(s: Store, cfg: ReapConfig, now: int, jobs: string -> Job, ids: seq<int>)
    returns (dones: seq<Mark>, failures: seq<Mark>, merges: seq<MetaUpdate>)
    requires forall id | id in ids :: id in s.actions
    ensures dones == Marks(ids, DonePick(s, cfg, now, jobs))
    ensures failures == Marks(ids, FailPick(s, cfg, now, jobs))
    ensures merges == Updates(ids, SessionPick(s, jobs))
    ensures forall id, text :: Mark(id, text) in dones <==> id in ids && DoneEntry(s.actions[id], jobs, text)
    ensures forall id, text :: Mark(id, text) in failures <==>
              id in ids && FailureEntry(s.actions[id], cfg, now, jobs, text)
    ensures forall id, u :: MetaUpdate(id, u) in merges <==> id in ids && SessionEntry(s.actions[id], jobs, u)
  {
    hide Verdict, SessionUpdate, Marks, Updates, DoneEntry, FailureEntry, SessionEntry;
    BatchEntries(s, cfg, now, jobs, ids);
    dones, failures, merges := [], [], [];
    NoMarks(DonePick(s, cfg, now, jobs), SessionPick(s, jobs));
    NoMarks(FailPick(s, cfg, now, jobs), SessionPick(s, jobs));
    var i := 0;
    while i < |ids|
      invariant 0 <= i <= |ids|
      invariant dones + Marks(ids[i..], DonePick(s, cfg, now, jobs)) == Marks(ids, DonePick(s, cfg, now, jobs))
      invariant failures + Marks(ids[i..], FailPick(s, cfg, now, jobs)) == Marks(ids, FailPick(s, cfg, now, jobs))
      invariant merges + Updates(ids[i..], SessionPick(s, jobs)) == Updates(ids, SessionPick(s, jobs))
    {
      var id := ids[i];
      NextMarks(ids, i, DonePick(s, cfg, now, jobs), SessionPick(s, jobs));
      NextMarks(ids, i, FailPick(s, cfg, now, jobs), SessionPick(s, jobs));
      var done, fail, merge := SortJob(s.actions[id], cfg, now, jobs);
      if merge.Some? {
        merges := merges + [MetaUpdate(id, merge.value)];
      }
      if done.Some? {
        dones := dones + [Mark(id, done.value)];
      }
      if fail.Some? {
        failures := failures + [Mark(id, fail.value)];
      }
      i := i + 1;
    }
    assert ids[i..] == [] && dones + [] == dones && failures + [] == failures && merges + [] == merges;
  }

  /** One round of the loop. */
  method SortJob(a: Action, cfg: ReapConfig, now: int, jobs: string -> Job)
    returns (done: Option<string>, fail: Option<string>, merge: Option<Object>)
    ensures merge == SessionUpdate(a, jobs)
    ensures done == match Verdict(cfg, now, a, jobs) case FinishWith(result) => Some(result) case _ => None
    ensures fail == match Verdict(cfg, now, a, jobs) case FailWith(reason) => Some(reason) case _ => None
  {
    done, fail, merge := None, None, None;
    var parsed := GoParse(a.meta);
    if parsed.None? {
      return;
    }
    var short := StringAt(parsed.value, DAEMON_SHORT);
    if short == "" {
      return;
    }
    var job := jobs(short);
    if job.Missing? {
      if OlderThan(a, now, cfg.grace) {
        fail := Some(JOB_MISSING);
      }
      return;
    }
    if !job.State? {
      return;
    }
    if job.sessionId != "" && StringAt(parsed.value, SESSION) == "" {
      merge := Some(map[SESSION := JStr(job.sessionId)]);
    }
    if job.state == "done" {
      done := Some(job.result);
    } else if job.state == "failed" {
      var text := job.detail;
      if text == "" {
        text := job.result;
      }
      if text == "" {
        text := JOB_FAILED;
      }
      fail := Some(text);
    } else {
      if StringAt(parsed.value, "mode") != NONINTERACTIVE {
        return;
      }
      if !OlderThan(a, now, cfg.hardTimeout) {
        return;
      }
      fail := Some(HARD_TIMEOUT);
    }
  }

  method ReapBgActions(db: DB, cfg: ReapConfig, env: ReapEnv, jobs: string -> Job)
    requires db.Valid()
    modifies db
    ensures db.Valid()
    ensures db.Snapshot() == ReapJobs(old(db.Snapshot()), cfg, env, jobs)
  {
    var listed := WithDaemon(db.Snapshot());
    if listed.None? {
      return;
    }
    AscendingLists(set id | id in db.actions && HasDaemon(db.actions[id]));
    var dones, failures, merges := SortJobs(db.Snapshot(), cfg, env.judged, jobs, listed.value);
    hide Marks, Updates, BulkMarkDone, BulkMarkFailed, BulkMerge;
    if !env.sessions.fails {
      var r := db.BulkMergeMetadata(merges);
    }
    if !env.dones.fails {
      var r := db.BulkMarkDoneActions(dones, env.dones.at);
    }
    if !env.failures.fails {
      var r := db.BulkMarkFailedActions(failures, env.failures.at);
    }
  }

  // ----- schedules -----

  function Decisions(s: Store, cron: Cron, now: int, ids: seq<int>): seq<(int, Decision)> {
    if ids == [] then []
    else (if Decide(s, cron, ids[0], now) == Skip then [] else [(ids[0], Decide(s, cron, ids[0], now))])
         + Decisions(s, cron, now, ids[1..])
  }

  /** One round of decideSchedules. */
  method DecideOne(s: Store, cron: Cron, id: int, now: int) returns (d: Decision)
    requires id in s.schedules && id >= 0
    ensures d == Decide(s, cron, id, now)
    ensures d == Skip <==> !RunDue(s, cron, id, now)
    ensures d.Fire? <==> Fires(s, cron, id, now)
    ensures d.Fire? ==> d.spec.status == Some(Pending) && ActionFor(s.schedules[id], id, NewRow(d.spec, Pending))
  {
    DecideSpelled(s, cron, id, now);
    hide RunDue, Stampable, ActionFor;
    var c := s.schedules[id];
    if !c.enabled {
      return Skip;
    }
    if c.taskId !in s.tasks {
      return Skip;
    }
    if IsClosed(s.tasks[c.taskId].status) {
      return Skip;
    }
    if !cron.parses(c.cron) {
      return Skip;
    }
    var base := c.createdAt;
    if c.lastRunAt.Some? {
      base := c.lastRunAt.value;
    }
    if now < cron.next(c.cron, base) * SECOND {
      return Skip;
    }
    if ActiveOf(s, id) != {} {
      return Skip;
    }
    var parsed := GoParse(c.meta);
    if parsed.None? {
      return RecordError(NO_PARSE);
    }
    var m := parsed.value["instruction" := JStr(c.instruction)];
    m := m["schedule_id" := JStr(Decimal(id))];
    if !ValidMetadata(m) {
      return RecordError(NOT_VALID);
    }
    return Fire(ActionSpec(c.title, c.taskId, Obj(m), Some(Pending), None, ""));
  }

  method DecideSchedules(s: Store, cron: Cron, now: int, ids: seq<int>) returns (out: seq<(int, Decision)>)
    requires forall id | id in ids :: id in s.schedules && id >= 0
    ensures out == Decisions(s, cron, now, ids)
  {
    hide Decide, RunDue, Fires, ActionFor;
    out := [];
    var i := 0;
    while i < |ids|
      invariant 0 <= i <= |ids|
      invariant out + Decisions(s, cron, now, ids[i..]) == Decisions(s, cron, now, ids)
    {
      var d := DecideOne(s, cron, ids[i], now);
      assert ids[i..][0] == ids[i] && ids[i..][1..] == ids[i + 1..];
      if d != Skip {
        out := out + [(ids[i], d)];
      }
      i := i + 1;
    }
    assert ids[i..] == [] && out + [] == out;
  }

  function ErrorRuns(ds: seq<(int, Decision)>, now: int): seq<RunUpdate> {
    if ds == [] then []
    else (if ds[0].1.RecordError? then [RunUpdate(ds[0].0, Sec(now), ds[0].1.text)] else []) + ErrorRuns(ds[1..], now)
  }

  function FireSpecs(ds: seq<(int, Decision)>): seq<ActionSpec> {
    if ds == [] then [] else (if ds[0].1.Fire? then [ds[0].1.spec] else []) + FireSpecs(ds[1..])
  }

  function FireRuns(ds: seq<(int, Decision)>, now: int): seq<RunUpdate> {
    if ds == [] then []
    else (if ds[0].1.Fire? then [RunUpdate(ds[0].0, Sec(now), "")] else []) + FireRuns(ds[1..], now)
  }

  /** The batches split from the decisions are those of the schedules that erred and fired, in listing order. */
  lemma {:induction false} ErrorRunsMatch(s: Store, cron: Cron, now: int, ids: seq<int>)
    ensures ErrorRuns(Decisions(s, cron, now, ids), now) == RunsFor(s, cron, now, Errored(s, cron, now, ids))
    decreases |ids|
  {
    hide Decide;
    if ids != [] {
      var d, rest := Decide(s, cron, ids[0], now), Decisions(s, cron, now, ids[1..]);
      ErrorRunsMatch(s, cron, now, ids[1..]);
      if d.RecordError? {
        assert Errored(s, cron, now, ids)[1..] == Errored(s, cron, now, ids[1..]);
      } else {
        assert Errored(s, cron, now, ids) == Errored(s, cron, now, ids[1..]);
      }
      if d != Skip {
        assert Decisions(s, cron, now, ids)[1..] == rest;
      } else {
        assert Decisions(s, cron, now, ids) == rest;
      }
    }
  }

  lemma {:induction false} FireRunsMatch(s: Store, cron: Cron, now: int, ids: seq<int>)
    ensures FireRuns(Decisions(s, cron, now, ids), now) == RunsFor(s, cron, now, Fired(s, cron, now, ids))
    decreases |ids|
  {
    hide Decide;
    if ids != [] {
      var d, rest := Decide(s, cron, ids[0], now), Decisions(s, cron, now, ids[1..]);
      FireRunsMatch(s, cron, now, ids[1..]);
      if d.Fire? {
        assert Fired(s, cron, now, ids)[1..] == Fired(s, cron, now, ids[1..]);
      } else {
        assert Fired(s, cron, now, ids) == Fired(s, cron, now, ids[1..]);
      }
      if d != Skip {
        assert Decisions(s, cron, now, ids)[1..] == rest;
      } else {
        assert Decisions(s, cron, now, ids) == rest;
      }
    }
  }

  lemma {:induction false} FireSpecsMatch(s: Store, cron: Cron, now: int, ids: seq<int>)
    requires forall id | id in Fired(s, cron, now, ids) :: Decide(s, cron, id, now).Fire?
    ensures FireSpecs(Decisions(s, cron, now, ids)) == Specs(s, cron, now, Fired(s, cron, now, ids))
    decreases |ids|
  {
    hide Decide;
    if ids != [] {
      var d, rest := Decide(s, cron, ids[0], now), Decisions(s, cron, now, ids[1..]);
      FiredExact(s, cron, now, ids[1..]);
      FireSpecsMatch(s, cron, now, ids[1..]);
      if d.Fire? {
        assert Fired(s, cron, now, ids)[1..] == Fired(s, cron, now, ids[1..]);
      } else {
        assert Fired(s, cron, now, ids) == Fired(s, cron, now, ids[1..]);
      }
      if d != Skip {
        assert Decisions(s, cron, now, ids)[1..] == rest;
      } else {
        assert Decisions(s, cron, now, ids) == rest;
      }
    }
  }

  method SplitDecisions(ds: seq<(int, Decision)>, now: int)
    returns (errors: seq<RunUpdate>, specs: seq<ActionSpec>, runs: seq<RunUpdate>)
    ensures errors == ErrorRuns(ds, now) && specs == FireSpecs(ds) && runs == FireRuns(ds, now)
  {
    errors, specs, runs := [], [], [];
    var i := 0;
    while i < |ds|
      invariant 0 <= i <= |ds|
      invariant errors + ErrorRuns(ds[i..], now) == ErrorRuns(ds, now)
      invariant specs + FireSpecs(ds[i..]) == FireSpecs(ds)
      invariant runs + FireRuns(ds[i..], now) == FireRuns(ds, now)
    {
      var d := ds[i];
      assert ds[i..][0] == d && ds[i..][1..] == ds[i + 1..];
      if d.1.RecordError? {
        errors := errors + [RunUpdate(d.0, Sec(now), d.1.text)];
      }
      if d.1.Fire? {
        specs := specs + [d.1.spec];
        runs := runs + [RunUpdate(d.0, Sec(now), "")];
      }
      i := i + 1;
    }
    assert ds[i..] == [] && errors + [] == errors && specs + [] == specs && runs + [] == runs;
  }

  method CheckAllSchedules(db: DB, cron: Cron, now: int, f: CheckFaults) returns (r: Res<()>)
    requires db.Valid()
    modifies db
    ensures db.Valid()
    ensures (db.Snapshot(), r) == CheckSchedules(old(db.Snapshot()), cron, now, f)
  {
    hide Inv, Evolves, Decide, BulkUpdateRuns, BulkInsertScheduled, RunsFor, Specs, Fired, Errored, AllActiveReadable;
    if f.listFails {
      return Err(QueryFailed);
    }
    if forall c | c in db.schedules :: !db.schedules[c].enabled {
      return Ok(());
    }
    if f.prefetchFails || !AllActiveReadable(db.Snapshot()) {
      return Err(QueryFailed);
    }
    var s := db.Snapshot();
    var ids := Descending(s.schedules.Keys);
    DescendingLists(s.schedules.Keys);
    FiredExact(s, cron, now, ids);
    IssuedSchedules(s);
    var ds := DecideSchedules(s, cron, now, ids);
    var errors, specs, runs := SplitDecisions(ds, now);
    ErrorRunsMatch(s, cron, now, ids);
    FireRunsMatch(s, cron, now, ids);
    FireSpecsMatch(s, cron, now, ids);
    RunsForLength(s, cron, now, Errored(s, cron, now, ids));
    SpecsSound(s, cron, now, Fired(s, cron, now, ids));
    if errors != [] && f.recordFails {
      return Err(QueryFailed);
    }
    db.BulkUpdateScheduleRuns(errors);
    if specs != [] && f.insertFails {
      return Err(QueryFailed);
    }
    r := db.BulkInsertScheduledActions(specs, runs);
  }

  // ----- the tick -----

  /** One pass of the worker loop: reap, check schedules, dispatch. Errors of the check are logged and ignored. */
  method RunTick(db: DB, c: Config, e: TickEnv) returns (dispatched: bool)
    requires db.Valid()
    modifies db
    ensures db.Valid() && db.Snapshot() == Tick(old(db.Snapshot()), c, e)
  {
    hide Core, Replays, Evolves, ReapOrphans, ReapJobs, CheckSchedules, DispatchFrom;
    ghost var s := db.Snapshot();
    TickAdvances(s, c, e);
    ReapAdvances(s, c.reap, e.reaping, e.jobs);
    ReapOrphanActions(db, c.reap, e.reaping);
    ReapBgActions(db, c.reap, e.reaping, e.jobs);
    IssuedSchedules(db.Snapshot());
    var r := CheckAllSchedules(db, c.cron, e.checkAt, e.checkFaults);
    var failed;
    dispatched, failed := DispatchOne(db, c.caps, e.attempts);
  }

  lemma IssuedSchedules(s: Store)
    requires Inv(s)
    ensures forall c | c in s.schedules :: c >= 0
  {
  }
}
