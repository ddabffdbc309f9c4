/** The worker loop: reap, check schedules, dispatch one; and what holds at every tick boundary. */
module WorkerLoop {
  import opened Types
  import opened Metadata
  import opened Sets
  import opened Rows
  import opened History
  import opened Dependencies
  import opened Actions
  import opened Bulk
  import opened Dispatch
  import opened Reaper
  import opened Schedules
  import opened Firing

  datatype Config = Config(caps: Caps, reap: ReapConfig, cron: Cron)

  /** Everything outside the store that one tick meets. */
  datatype TickEnv = TickEnv(reaping: ReapEnv, jobs: string -> Job, checkAt: int, checkFaults: CheckFaults,
      attempts: nat -> Attempt)

  function Tick(s: Store, c: Config, e: TickEnv): Store {
    var s1 := Reap(s, c.reap, e.reaping, e.jobs);
    var s2 := CheckSchedules(s1, c.cron, e.checkAt, e.checkFaults).0;
    DispatchFrom(s2, c.caps, e.attempts, 0).0
  }

  lemma TickAdvances(s: Store, c: Config, e: TickEnv)
    requires Inv(s)
    ensures Advances(s, Tick(s, c, e), NO_EDITS)
  {
    hide Core, Replays, Evolves, Reap, CheckSchedules, DispatchFrom;
    ReapAdvances(s, c.reap, e.reaping, e.jobs);
    var s1 := Reap(s, c.reap, e.reaping, e.jobs);
    CheckSchedulesAdvances(s1, c.cron, e.checkAt, e.checkFaults);
    var s2 := CheckSchedules(s1, c.cron, e.checkAt, e.checkFaults).0;
    DispatchAdvances(s2, c.caps, e.attempts, 0);
    AdvancesTransitive(s, s1, s2, NO_EDITS);
    AdvancesTransitive(s, s2, Tick(s, c, e), NO_EDITS);
  }

  /** What may happen to the queue between two boundaries. */
  datatype Turn =
    | WorkerTick(env: TickEnv)
    | Report(id: int, status: Status, result: string, at: int)
    | ManualDispatch(id: int, attempt: Attempt)

  /** `tq action dispatch`: the manual claim and an execution without admission checks. */
  function DispatchById(s: Store, id: int, t: Attempt): Store {
    var (s1, r) := ClaimPending(s, id, t.claimAt);
    if r.Err? then s1 else ExecuteAction(s1, None, id, t).0
  }

  function TakeTurn(s: Store, c: Config, t: Turn): Store {
    match t
    case WorkerTick(e) => Tick(s, c, e)
    case Report(id, st, result, at) => MarkTerminal(s, id, st, result, at).0
    case ManualDispatch(id, a) => DispatchById(s, id, a)
  }

  function TakeTurns(s: Store, c: Config, ts: seq<Turn>): Store
    decreases |ts|
  {
    if ts == [] then s else TakeTurns(TakeTurn(s, c, ts[0]), c, ts[1..])
  }

  predicate Proper(t: Turn) {
    t.Report? ==> IsTerminal(t.status)
  }

  // ----- slot caps over whole runs -----

  ghost predicate WithinCaps(s: Store, caps: Caps) {
    forall pool :: |RunningIn(s, pool)| <= Cap(caps, pool)
  }

  /** A step that makes no action running and moves none between pools. */
  ghost predicate PoolsShrink(s: Store, s': Store) {
    forall pool :: RunningIn(s', pool) <= RunningIn(s, pool)
  }

  /** A terminal report changes no row that is active after it. */
  lemma ReportRows(s: Store, id: int, st: Status, result: string, at: int)
    requires IsTerminal(st)
    ensures
      var s' := MarkTerminal(s, id, st, result, at).0;
      forall i | i in s'.actions && IsActive(s'.actions[i].status) :: i in s.actions && s'.actions[i] == s.actions[i]
  {
    MarkOthers(s, id, st, result, at);
  }

  lemma ReportShrinksPools(s: Store, id: int, st: Status, result: string, at: int)
    requires IsTerminal(st)
    ensures PoolsShrink(s, MarkTerminal(s, id, st, result, at).0)
  {
    hide MarkTerminal, InPool;
    ReportRows(s, id, st, result, at);
    var s' := MarkTerminal(s, id, st, result, at).0;
    assert forall i | i in s'.actions && s'.actions[i].status == Running ::
        i in s.actions && s'.actions[i] == s.actions[i];
  }

  lemma CheckShrinksPools(s: Store, cron: Cron, now: int, f: CheckFaults)
    requires Inv(s)
    ensures PoolsShrink(s, CheckSchedules(s, cron, now, f).0)
  {
    hide Inv, CheckSchedules, Decide, Effect, InPool, RanRow, Distinct;
    var fired := CheckSchedulesExact(s, cron, now, f);
    var s' := CheckSchedules(s, cron, now, f).0;
    assert forall i | i in s'.actions && s'.actions[i].status == Running ::
        i in s.actions && s'.actions[i] == s.actions[i];
  }

  lemma TurnAdvances(s: Store, c: Config, t: Turn)
    requires Inv(s) && Proper(t)
    ensures Advances(s, TakeTurn(s, c, t), NO_EDITS)
  {
    hide Core, Replays, Evolves, Tick, MarkTerminal, Claim, ExecuteAction;
    EvolvesSelf(s, NO_EDITS);
    match t {
      case WorkerTick(e) => TickAdvances(s, c, e);
      case Report(id, st, result, at) => MarkTerminalAdvances(s, id, st, result, at);
      case ManualDispatch(id, a) =>
        if ClaimPending(s, id, a.claimAt).1.Ok? {
          ClaimAdvances(s, id, a.claimAt);
          var s1 := Claim(s, id, a.claimAt);
          ClaimRow(s, id, a.claimAt);
          ExecuteActionAdvances(s1, None, id, a);
          AdvancesTransitive(s, s1, ExecuteAction(s1, None, id, a).0, NO_EDITS);
        }
    }
  }

  /** The dispatch part of the tick spills into one of the pools. */
  ghost predicate WorkerSpills(s: Store, c: Config, e: TickEnv) {
    var s2 := CheckSchedules(Reap(s, c.reap, e.reaping, e.jobs), c.cron, e.checkAt, e.checkFaults).0;
    exists pool :: TickSpills(s2, c.caps, e.attempts, 0, pool)
  }

  /** A manual dispatch asks no pool: the claimed row stays running in one that has no room for it. */
  ghost predicate ManualSpills(s: Store, caps: Caps, id: int, t: Attempt) {
    && id in s.actions && s.actions[id].status == Pending
    && var meta := s.actions[id].meta;
    && (t.faults.mark || (Runnable(meta) && t.launch.Started?))
    && exists pool :: InPool(meta, pool) && |RunningIn(s, pool)| + 1 > Cap(caps, pool)
  }

  ghost predicate TurnSpills(s: Store, c: Config, t: Turn) {
    match t
    case WorkerTick(e) => WorkerSpills(s, c, e)
    case Report(_, _, _, _) => false
    case ManualDispatch(id, a) => ManualSpills(s, c.caps, id, a)
  }

  lemma TickWithinCapsIff(s: Store, c: Config, e: TickEnv)
    requires Inv(s) && WithinCaps(s, c.caps)
    ensures WithinCaps(Tick(s, c, e), c.caps) <==> !WorkerSpills(s, c, e)
  {
    hide Core, Replays, Evolves, Reap, CheckSchedules, DispatchFrom, RunningIn, InPool, TickSpills;
    var s1 := Reap(s, c.reap, e.reaping, e.jobs);
    ReapAdvances(s, c.reap, e.reaping, e.jobs);
    CheckShrinksPools(s1, c.cron, e.checkAt, e.checkFaults);
    var s2 := CheckSchedules(s1, c.cron, e.checkAt, e.checkFaults).0;
    forall pool
      ensures |RunningIn(Tick(s, c, e), pool)| > Cap(c.caps, pool) <==> TickSpills(s2, c.caps, e.attempts, 0, pool)
    {
      ReapShrinksPools(s, c.reap, e.reaping, e.jobs, pool);
      SubsetSize(RunningIn(s2, pool), RunningIn(s1, pool));
      TickWithinCapIff(s2, c.caps, e.attempts, 0, pool);
    }
  }

  lemma ManualWithinCapsIff(s: Store, caps: Caps, id: int, t: Attempt)
    requires WithinCaps(s, caps)
    ensures WithinCaps(DispatchById(s, id, t), caps) <==> !ManualSpills(s, caps, id, t)
  {
    hide Claim, ExecuteAction, RunningIn, InPool, Runnable;
    if ClaimPending(s, id, t.claimAt).1.Ok? {
      var s1, meta := Claim(s, id, t.claimAt), s.actions[id].meta;
      ClaimRow(s, id, t.claimAt);
      var row := ManualShape(s1, id, t);
      var s' := ExecuteAction(s1, None, id, t).0;
      forall pool ensures |RunningIn(s', pool)|
                       == |RunningIn(s, pool)| + (if row.status == Running && InPool(meta, pool) then 1 else 0)
      {
        OneMoreRunning(s, s', id, row, pool);
        if Runnable(meta) && InPool(meta, pool) {
          PooledRunnable(meta, pool);
        }
      }
      forall pool | InPool(meta, pool)
        ensures row.status == Running <==> t.faults.mark || (Runnable(meta) && t.launch.Started?)
      {
        if Runnable(meta) {
          PooledRunnable(meta, pool);
        }
      }
    }
  }

  /** What a manual execution leaves of the claimed row. */
  lemma ManualShape(s: Store, id: int, t: Attempt) returns (row: Action)
    requires id in s.actions && s.actions[id].status == Running
    ensures OnlyRow(s, ExecuteAction(s, None, id, t).0, id, row)
    ensures forall pool :: InPool(row.meta, pool) == InPool(s.actions[id].meta, pool)
    ensures !IsRemote(s.actions[id].meta) ==>
              (row.status == Running <==> t.faults.mark || (Runnable(s.actions[id].meta) && t.launch.Started?))
  {
    row := ExecutionShape(s, None, id, t);
    hide Claim, InPool, Runnable, DeferToPending, MarkDispatched, ModeOf, Fail, Stamp;
    var s' := ExecuteAction(s, None, id, t).0;
    assert s'.actions[id] == row;
    FailRow(s, id, BAD_METADATA, t);
    if Runnable(s.actions[id].meta) && !IsRemote(s.actions[id].meta) {
      RunnableParses(s.actions[id].meta);
      match t.launch {
        case LaunchFailed(reason) =>
          FailRow(s, id, reason, t);
          assert s' == Fail(s, id, reason, t);
        case Started(handle) =>
          StampRow(s, id, DAEMON_SHORT, handle, t);
          assert s' == Stamp(s, id, DAEMON_SHORT, handle, t);
      }
    }
  }

  ghost predicate NeverSpills(s: Store, c: Config, ts: seq<Turn>)
    decreases |ts|
  {
    ts != [] ==> !TurnSpills(s, c, ts[0]) && NeverSpills(TakeTurn(s, c, ts[0]), c, ts[1..])
  }

  ghost predicate CapsThroughout(s: Store, c: Config, ts: seq<Turn>)
    decreases |ts|
  {
    WithinCaps(s, c.caps) && (ts != [] ==> CapsThroughout(TakeTurn(s, c, ts[0]), c, ts[1..]))
  }

  lemma TurnWithinCapsIff(s: Store, c: Config, t: Turn)
    requires Inv(s) && WithinCaps(s, c.caps) && Proper(t)
    ensures WithinCaps(TakeTurn(s, c, t), c.caps) <==> !TurnSpills(s, c, t)
  {
    hide Inv, Evolves, MarkTerminal, Tick, DispatchById, RunningIn, WorkerSpills, ManualSpills;
    match t {
      case WorkerTick(e) => TickWithinCapsIff(s, c, e);
      case ManualDispatch(id, a) => ManualWithinCapsIff(s, c.caps, id, a);
      case Report(id, st, result, at) =>
        ReportShrinksPools(s, id, st, result, at);
        forall pool ensures |RunningIn(TakeTurn(s, c, t), pool)| <= Cap(c.caps, pool) {
          SubsetSize(RunningIn(TakeTurn(s, c, t), pool), RunningIn(s, pool));
        }
    }
  }

  /**
    Slot caps over whole runs of ticks, reports and manual dispatches, whatever fails: from a state within
    both caps, every boundary is within them exactly when no turn spills.
   */
  lemma {:induction false} CapsHoldIff(s: Store, c: Config, ts: seq<Turn>)
    requires Inv(s) && WithinCaps(s, c.caps) && forall t | t in ts :: Proper(t)
    ensures CapsThroughout(s, c, ts) <==> NeverSpills(s, c, ts)
    decreases |ts|
  {
    hide Inv, Evolves, WithinCaps, TakeTurn, TurnSpills;
    if ts != [] {
      assert ts[0] in ts && forall t | t in ts[1..] :: t in ts;
      TurnAdvances(s, c, ts[0]);
      TurnWithinCapsIff(s, c, ts[0]);
      if !TurnSpills(s, c, ts[0]) {
        CapsHoldIff(TakeTurn(s, c, ts[0]), c, ts[1..]);
      } else {
        OverNotThroughout(TakeTurn(s, c, ts[0]), c, ts[1..]);
      }
    }
  }

  lemma OverNotThroughout(s: Store, c: Config, ts: seq<Turn>)
    requires !WithinCaps(s, c.caps)
    ensures !CapsThroughout(s, c, ts)
  {
  }

  /** A worker whose MarkFailed writes succeed, nobody dispatching by hand. */
  ghost predicate NoMarkFails(t: Turn) {
    !t.ManualDispatch? && (t.WorkerTick? ==> forall n :: !t.env.attempts(n).faults.mark)
  }

  /**
    From a state within both caps, ticks and reports keep both running counts within their caps as long as
    MarkFailed writes succeed.
   */
  lemma {:induction false} CapsHold(s: Store, c: Config, ts: seq<Turn>)
    requires Inv(s) && WithinCaps(s, c.caps)
    requires forall t | t in ts :: Proper(t) && NoMarkFails(t)
    ensures Inv(TakeTurns(s, c, ts)) && WithinCaps(TakeTurns(s, c, ts), c.caps)
    decreases |ts|
  {
    hide Core, Replays, Evolves, RunningIn, TakeTurn, TurnSpills;
    if ts != [] {
      assert ts[0] in ts && forall t | t in ts[1..] :: t in ts;
      TurnAdvances(s, c, ts[0]);
      TurnWithinCapsIff(s, c, ts[0]);
      NoSpill(s, c, ts[0]);
      CapsHold(TakeTurn(s, c, ts[0]), c, ts[1..]);
    }
  }

  lemma NoSpill(s: Store, c: Config, t: Turn)
    requires NoMarkFails(t)
    ensures !TurnSpills(s, c, t)
  {
    hide CheckSchedules, Reap, DispatchFrom, TickSpills;
    if t.WorkerTick? {
      var e := t.env;
      var s2 := CheckSchedules(Reap(s, c.reap, e.reaping, e.jobs), c.cron, e.checkAt, e.checkFaults).0;
      forall pool ensures !TickSpills(s2, c.caps, e.attempts, 0, pool) {
        TickWithinCap(s2, c.caps, e.attempts, 0, pool);
      }
    }
  }

  // ----- one active action per schedule over whole runs -----

  lemma OnlyRowLinks(s: Store, s': Store, id: int, row: Action)
    requires id in s.actions && OnlyRow(s, s', id, row)
    requires IsActive(row.status) ==>
        IsActive(s.actions[id].status) && ScheduleRef(row.meta) == ScheduleRef(s.actions[id].meta)
    ensures LinksShrink(s, s')
  {
  }

  lemma ClaimLinks(s: Store, id: int, now: int)
    requires id in s.actions && s.actions[id].status == Pending
    ensures LinksShrink(s, Claim(s, id, now))
  {
  }

  lemma ReportLinks(s: Store, id: int, st: Status, result: string, at: int)
    requires IsTerminal(st)
    ensures LinksShrink(s, MarkTerminal(s, id, st, result, at).0)
  {
    hide MarkTerminal, ScheduleRef;
    ReportRows(s, id, st, result, at);
  }

  lemma ReapLinks(s: Store, cfg: ReapConfig, env: ReapEnv, jobs: string -> Job)
    ensures LinksShrink(s, Reap(s, cfg, env, jobs))
  {
    var s' := Reap(s, cfg, env, jobs);
    ReapExact(s, cfg, env, jobs);
    hide Reap, Verdict, AllRunningReadable, ScheduleRef, SessionUpdate;
    forall id | id in s'.actions && IsActive(s'.actions[id].status)
      ensures id in s.actions && IsActive(s.actions[id].status)
          && ScheduleRef(s'.actions[id].meta) == ScheduleRef(s.actions[id].meta)
    {
      if HasDaemon(s.actions[id]) {
        SessionKeepsSchedule(s.actions[id], jobs);
      }
    }
  }

  lemma SessionKeepsSchedule(a: Action, jobs: string -> Job)
    requires HasDaemon(a)
    ensures ScheduleRef(SessionRow(a, jobs).meta) == ScheduleRef(a.meta)
  {
  }

  lemma {:induction false} DispatchLinks(s: Store, caps: Caps, env: nat -> Attempt, n: nat)
    requires OneActive(s)
    ensures OneActive(DispatchFrom(s, caps, env, n).0)
    decreases MAX_ATTEMPTS - n
  {
    hide ExecuteAction, OneActive, LinksShrink, Claim, EligibleIds, ScheduleRef;
    if n < MAX_ATTEMPTS && !env(n).faults.claim && EligibleIds(s, env(n).claimAt) != {} {
      var id := Min(EligibleIds(s, env(n).claimAt));
      LeastPending(s, env(n).claimAt);
      var s1 := Claim(s, id, env(n).claimAt);
      ClaimLinks(s, id, env(n).claimAt);
      LinksShrinkKeeps(s, s1);
      ClaimRow(s, id, env(n).claimAt);
      var row := ExecutionShape(s1, Some(caps), id, env(n));
      var (s2, x) := ExecuteAction(s1, Some(caps), id, env(n));
      OnlyRowLinks(s1, s2, id, row);
      LinksShrinkKeeps(s1, s2);
      if x == Deferred {
        DispatchLinks(s2, caps, env, n + 1);
      }
    }
  }

  lemma TickOneActive(s: Store, c: Config, e: TickEnv)
    requires Inv(s) && OneActive(s)
    ensures OneActive(Tick(s, c, e))
  {
    hide Core, Replays, Evolves, Reap, CheckSchedules, DispatchFrom, OneActive, LinksShrink;
    ReapAdvances(s, c.reap, e.reaping, e.jobs);
    ReapLinks(s, c.reap, e.reaping, e.jobs);
    var s1 := Reap(s, c.reap, e.reaping, e.jobs);
    LinksShrinkKeeps(s, s1);
    CheckKeepsOneActive(s1, c.cron, e.checkAt, e.checkFaults);
    DispatchLinks(CheckSchedules(s1, c.cron, e.checkAt, e.checkFaults).0, c.caps, e.attempts, 0);
  }

  lemma ManualOneActive(s: Store, id: int, t: Attempt)
    requires OneActive(s)
    ensures OneActive(DispatchById(s, id, t))
  {
    hide OneActive, LinksShrink, Claim, ExecuteAction;
    if ClaimPending(s, id, t.claimAt).1.Ok? {
      var s1 := Claim(s, id, t.claimAt);
      ClaimLinks(s, id, t.claimAt);
      LinksShrinkKeeps(s, s1);
      ClaimRow(s, id, t.claimAt);
      var row := ExecutionShape(s1, None, id, t);
      var s2 := ExecuteAction(s1, None, id, t).0;
      OnlyRowLinks(s1, s2, id, row);
      LinksShrinkKeeps(s1, s2);
    }
  }

  /**
    In every run of worker ticks, manual dispatches and terminal reports, a schedule never has two active
    actions at once.
   */
  lemma {:induction false} OneActiveHolds(s: Store, c: Config, ts: seq<Turn>)
    requires Inv(s) && OneActive(s) && forall t | t in ts :: Proper(t)
    ensures Inv(TakeTurns(s, c, ts)) && OneActive(TakeTurns(s, c, ts))
    decreases |ts|
  {
    hide Core, Replays, Evolves, OneActive, LinksShrink, MarkTerminal, Tick, DispatchById;
    if ts != [] {
      assert ts[0] in ts && forall t | t in ts[1..] :: t in ts;
      TurnAdvances(s, c, ts[0]);
      match ts[0] {
        case WorkerTick(e) => TickOneActive(s, c, e);
        case Report(id, st, result, at) =>
          ReportLinks(s, id, st, result, at);
          LinksShrinkKeeps(s, TakeTurn(s, c, ts[0]));
        case ManualDispatch(id, a) => ManualOneActive(s, id, a);
      }
      OneActiveHolds(TakeTurn(s, c, ts[0]), c, ts[1..]);
    }
  }

  // ----- live interactive actions over whole ticks -----

  /** A dispatch tick writes pending rows only. */
  lemma {:induction false} DispatchKeepsClaimed(s: Store, caps: Caps, env: nat -> Attempt, n: nat, id: int)
    requires id in s.actions && s.actions[id].status != Pending
    ensures id in DispatchFrom(s, caps, env, n).0.actions
        && DispatchFrom(s, caps, env, n).0.actions[id] == s.actions[id]
    decreases MAX_ATTEMPTS - n
  {
    hide ExecuteAction, Claim, EligibleIds;
    if n < MAX_ATTEMPTS && !env(n).faults.claim && EligibleIds(s, env(n).claimAt) != {} {
      var next := Min(EligibleIds(s, env(n).claimAt));
      LeastPending(s, env(n).claimAt);
      var s1 := Claim(s, next, env(n).claimAt);
      ClaimRow(s, next, env(n).claimAt);
      var row := ExecutionShape(s1, Some(caps), next, env(n));
      var (s2, x) := ExecuteAction(s1, Some(caps), next, env(n));
      if x == Deferred {
        DispatchKeepsClaimed(s2, caps, env, n + 1, id);
      }
    }
  }

  function Ticks(s: Store, c: Config, es: seq<TickEnv>): Store
    decreases |es|
  {
    if es == [] then s else Ticks(Tick(s, c, es[0]), c, es[1..])
  }

  /** No number of worker ticks, at any clock, ends a live interactive action. */
  lemma {:induction false} LiveThroughTicks(s: Store, c: Config, es: seq<TickEnv>, id: int)
    requires Inv(s) && id in s.actions && RunsInteractively(s.actions[id])
    requires forall e | e in es :: JobLive(e.jobs(ShortOf(s.actions[id].meta)))
    ensures id in Ticks(s, c, es).actions && SameButSession(s.actions[id], Ticks(s, c, es).actions[id])
    decreases |es|
  {
    hide Inv, Tick, RunsInteractively, JobLive, ShortOf;
    if es == [] {
      SameAsItself(s.actions[id]);
    } else {
      assert es[0] in es && forall e | e in es[1..] :: e in es;
      LiveTick(s, c, es[0], id);
      TickAdvances(s, c, es[0]);
      LiveThroughTicks(Tick(s, c, es[0]), c, es[1..], id);
    }
  }

  lemma LiveTick(s: Store, c: Config, e: TickEnv, id: int)
    requires Inv(s) && id in s.actions && RunsInteractively(s.actions[id])
        && JobLive(e.jobs(ShortOf(s.actions[id].meta)))
    ensures
      var s' := Tick(s, c, e);
      id in s'.actions && SameButSession(s.actions[id], s'.actions[id]) && RunsInteractively(s'.actions[id])
      && ShortOf(s'.actions[id].meta) == ShortOf(s.actions[id].meta)
  {
    hide Inv, Reap, CheckSchedules, DispatchFrom, JobLive, ShortOf, SameButSession;
    LivePass(s, c.reap, e.reaping, e.jobs, id);
    ReapAdvances(s, c.reap, e.reaping, e.jobs);
    var s1 := Reap(s, c.reap, e.reaping, e.jobs);
    var fired := CheckSchedulesExact(s1, c.cron, e.checkAt, e.checkFaults);
    var s2 := CheckSchedules(s1, c.cron, e.checkAt, e.checkFaults).0;
    DispatchKeepsClaimed(s2, c.caps, e.attempts, 0, id);
  }

  // ----- the order of one pass -----

  /** Pending and never deferred. */
  predicate Fresh(a: Action) {
    a.status == Pending && a.dispatchAfter.None?
  }

  /** A dispatch tick writes rows of actions only, and takes back to pending only with a time to wait for. */
  lemma {:induction false} DispatchNeverFreshens(s: Store, caps: Caps, env: nat -> Attempt, n: nat)
    ensures
      var s' := DispatchFrom(s, caps, env, n).0;
      && s'.schedules == s.schedules && s'.actions.Keys == s.actions.Keys
      && forall id | id in s.actions && !Fresh(s.actions[id]) :: !Fresh(s'.actions[id])
    decreases MAX_ATTEMPTS - n
  {
    hide ExecuteAction, Claim, EligibleIds;
    if n < MAX_ATTEMPTS && !env(n).faults.claim && EligibleIds(s, env(n).claimAt) != {} {
      var next := Min(EligibleIds(s, env(n).claimAt));
      LeastPending(s, env(n).claimAt);
      var s1 := Claim(s, next, env(n).claimAt);
      ClaimRow(s, next, env(n).claimAt);
      var row := ExecutionShape(s1, Some(caps), next, env(n));
      var (s2, x) := ExecuteAction(s1, Some(caps), next, env(n));
      if x == Deferred {
        DispatchNeverFreshens(s2, caps, env, n + 1);
      }
    }
  }

  lemma ReapMakesNonePending(s: Store, cfg: ReapConfig, env: ReapEnv, jobs: string -> Job)
    ensures
      var s' := Reap(s, cfg, env, jobs);
      forall id | id in s'.actions && s'.actions[id].status == Pending ::
        id in s.actions && s.actions[id].status == Pending
  {
    ReapExact(s, cfg, env, jobs);
    hide Reap, Verdict, SessionUpdate, AllRunningReadable;
  }

  /** What a check inserts can be claimed at once in focused projects: nothing waits for a new action's gate. */
  lemma FiredEligible(s: Store, cron: Cron, now: int, f: CheckFaults, id: int, clock: int)
    requires Inv(s) && (forall p | p in s.projects :: s.projects[p].dispatchEnabled)
    requires id in CheckSchedules(s, cron, now, f).0.actions && id !in s.actions
    ensures id in EligibleIds(CheckSchedules(s, cron, now, f).0, clock)
    ensures s.next.action <= id && s.next.action in CheckSchedules(s, cron, now, f).0.actions
  {
    CheckFiresIff(s, cron, now, f);
    CheckSchedulesAdvances(s, cron, now, f);
    var fired := CheckSchedulesExact(s, cron, now, f);
    var s2 := CheckSchedules(s, cron, now, f).0;
    var c :| NewFor(s, s2, c, id);
    hide CheckSchedules, Decide, Effect, RanRow, Fires, Errs, ScheduleRef, FiredRows, Distinct;
    UnownedEdges(s, s2, id);
    TaskHome(s2, id);
    assert s2.actions[id].status == Pending && s2.actions[id].dispatchAfter.None?;
    assert Eligible(s2, clock, id);
  }

  lemma UnownedEdges(s: Store, s2: Store, id: int)
    requires Inv(s) && s2.edges == s.edges && id !in s.actions
    ensures GateOpen(s2, id)
  {
    assert forall e | e in s.edges :: EdgeSound(s.actions, s.tasks, e);
  }

  lemma TaskHome(s: Store, id: int)
    requires Inv(s) && id in s.actions
    ensures s.actions[id].taskId in s.tasks && s.tasks[s.actions[id].taskId].projectId in s.projects
  {
  }

  lemma CheckKeepsRows(s: Store, cron: Cron, now: int, f: CheckFaults)
    requires Inv(s)
    ensures
      var s2 := CheckSchedules(s, cron, now, f).0;
      && s.actions.Keys <= s2.actions.Keys
      && forall id | id in s.actions :: s2.actions[id] == s.actions[id]
  {
    CheckFiresIff(s, cron, now, f);
    var s2 := CheckSchedules(s, cron, now, f).0;
    forall id | id in s.actions.Keys ensures id in s2.actions {
      assert id in s.actions;
    }
  }

  /** With nothing else pending, the first action a check inserts is the next to be claimed. */
  lemma FirstOfFired(s: Store, cron: Cron, now: int, f: CheckFaults, clock: int)
    requires Inv(s) && (forall id | id in s.actions :: s.actions[id].status != Pending)
    requires forall p | p in s.projects :: s.projects[p].dispatchEnabled
    ensures
      var s2, first := CheckSchedules(s, cron, now, f).0, s.next.action;
      s2.actions.Keys != s.actions.Keys ==>
        first in s2.actions && first in EligibleIds(s2, clock) && forall i | i in EligibleIds(s2, clock) :: first <= i
  {
    hide Inv, CheckSchedules, EligibleIds;
    CheckKeepsRows(s, cron, now, f);
    NextUnused(s);
    var s2, first := CheckSchedules(s, cron, now, f).0, s.next.action;
    if s2.actions.Keys != s.actions.Keys {
      assert s2.actions.Keys == s.actions.Keys + (s2.actions.Keys - s.actions.Keys);
      var id := Member(s2.actions.Keys - s.actions.Keys);
      FiredEligible(s, cron, now, f, id, clock);
      FiredEligible(s, cron, now, f, first, clock);
      forall i: int ensures i in EligibleIds(s2, clock) ==> first <= i {
        if i in EligibleIds(s2, clock) {
          EligiblePending(s2, clock, i);
          if i !in s.actions {
            FiredEligible(s, cron, now, f, i, clock);
          }
        }
      }
    }
  }

  /**
    Schedules are checked before the dispatch of the same pass: when nothing else is pending in focused
    projects, the first action a pass inserts is also claimed by it.
   */
  lemma FiredThenClaimed(s: Store, c: Config, e: TickEnv)
    requires Inv(s) && (forall id | id in s.actions :: s.actions[id].status != Pending)
    requires (forall p | p in s.projects :: s.projects[p].dispatchEnabled) && !e.attempts(0).faults.claim
    ensures
      var s' := Tick(s, c, e);
      s'.actions.Keys != s.actions.Keys ==> s.next.action in s'.actions && !Fresh(s'.actions[s.next.action])
  {
    hide Inv, Evolves, Reap, CheckSchedules, DispatchFrom, Fresh, EligibleIds, ReapedRow;
    var s1 := Reap(s, c.reap, e.reaping, e.jobs);
    ReapExact(s, c.reap, e.reaping, e.jobs);
    ReapAdvances(s, c.reap, e.reaping, e.jobs);
    ReapMakesNonePending(s, c.reap, e.reaping, e.jobs);
    FirstOfFired(s1, c.cron, e.checkAt, e.checkFaults, e.attempts(0).claimAt);
    var s2 := CheckSchedules(s1, c.cron, e.checkAt, e.checkFaults).0;
    DispatchNeverFreshens(s2, c.caps, e.attempts, 0);
    if s2.actions.Keys != s1.actions.Keys {
      FirstClaimed(s2, c.caps, e.attempts, s1.next.action);
    }
  }

  lemma NextUnused(s: Store)
    requires Inv(s)
    ensures s.next.action !in s.actions
  {
  }

  lemma EligiblePending(s: Store, now: int, id: int)
    requires id in EligibleIds(s, now)
    ensures id in s.actions && s.actions[id].status == Pending
  {
  }

  lemma FirstClaimed(s: Store, caps: Caps, env: nat -> Attempt, id: int)
    requires id in EligibleIds(s, env(0).claimAt) && forall i | i in EligibleIds(s, env(0).claimAt) :: id <= i
    requires !env(0).faults.claim && id in s.actions
    ensures id in DispatchFrom(s, caps, env, 0).0.actions && !Fresh(DispatchFrom(s, caps, env, 0).0.actions[id])
  {
    hide ExecuteAction, Claim, EligibleIds;
    LeastPending(s, env(0).claimAt);
    assert Min(EligibleIds(s, env(0).claimAt)) == id;
    var s1 := Claim(s, id, env(0).claimAt);
    ClaimRow(s, id, env(0).claimAt);
    var row := ExecutionShape(s1, Some(caps), id, env(0));
    var (s2, x) := ExecuteAction(s1, Some(caps), id, env(0));
    DispatchNeverFreshens(s2, caps, env, 1);
  }

  lemma ReapKeepsReadable(s: Store, cfg: ReapConfig, env: ReapEnv, jobs: string -> Job, f: CheckFaults)
    requires Readable(s, f)
    ensures Readable(Reap(s, cfg, env, jobs), f)
  {
    ReapExact(s, cfg, env, jobs);
    hide Reap, Verdict, SessionUpdate;
  }

  lemma ListableWhenReadable(s: Store, f: CheckFaults)
    requires Readable(s, f)
    ensures Listable(s)
  {
  }

  /**
    Finished jobs are reaped before the schedules are checked: a due schedule whose only active actions run
    jobs that report done runs in the same pass.
   */
  lemma FinishedJobFreesSchedule(s: Store, c: Config, e: TickEnv, k: int)
    requires Inv(s) && Readable(s, e.checkFaults) && !e.checkFaults.insertFails && !e.checkFaults.recordFails
    requires !e.reaping.dones.fails && k in s.schedules && Stampable(s.schedules[k])
    requires RunDue(s.(actions := map[]), c.cron, k, e.checkAt)
    requires forall id | id in s.actions && IsActive(s.actions[id].status)
                         && ScheduleRef(s.actions[id].meta) == Some(k) ::
               exists short :: RunsJob(s.actions[id], short) && e.jobs(short).State? && e.jobs(short).state == "done"
    ensures
      var s' := Tick(s, c, e);
      && k in s'.schedules
      && s'.schedules[k] == s.schedules[k].(lastRunAt := Some(e.checkAt / 1_000_000_000), lastError := None)
  {
    hide Inv, Evolves, Reap, DispatchFrom, CheckSchedules, ScheduleRef, Stampable, ReapedRow, NewFor, RunsJob,
         WithSession, Readable, AllRunningReadable;
    var s1 := Reap(s, c.reap, e.reaping, e.jobs);
    ReapExact(s, c.reap, e.reaping, e.jobs);
    ReapLinks(s, c.reap, e.reaping, e.jobs);
    ReapKeepsReadable(s, c.reap, e.reaping, e.jobs, e.checkFaults);
    ReapAdvances(s, c.reap, e.reaping, e.jobs);
    ListableWhenReadable(s, e.checkFaults);
    forall id | id in s1.actions && s1.actions[id].status in {Pending, Running, Dispatched}
      ensures ScheduleRef(s1.actions[id].meta) != Some(k)
    {
      if ScheduleRef(s1.actions[id].meta) == Some(k) {
        var short :| RunsJob(s.actions[id], short) && e.jobs(short).State? && e.jobs(short).state == "done";
        DoneJobReaped(s, c.reap, e.reaping, e.jobs, id, short);
      }
    }
    CheckFiresIff(s1, c.cron, e.checkAt, e.checkFaults);
    DispatchNeverFreshens(CheckSchedules(s1, c.cron, e.checkAt, e.checkFaults).0, c.caps, e.attempts, 0);
  }
}
