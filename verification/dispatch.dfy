/** Executing a claimed action, the two slot pools, and one dispatch tick of the worker. */
module Dispatch {
  import opened Types
  import opened Metadata
  import opened Sets
  import opened Rows
  import opened History
  import opened Actions
  import opened Drain

  /** What the external worker answers. */
  datatype Launch = Started(handle: string) | LaunchFailed(reason: string)

  /** Which reads and writes of one attempt fail; only the failure of the claim is more than logged. */
  datatype Faults = Faults(claim: bool, count: bool, defer: bool, mark: bool, merge: bool, dispatched: bool)

  const NO_FAULTS := Faults(false, false, false, false, false, false)

  /** The clock readings, the worker's answer and the failures met by one attempt. */
  datatype Attempt = Attempt(claimAt: int, actAt: int, launch: Launch, faults: Faults)

  datatype Caps = Caps(interactive: int, nonInteractive: int)

  datatype Execution = Launched | ActionFailed | Rejected | Deferred

  const DEFER_BACKOFF := 30 * SECOND
  const MAX_ATTEMPTS := 16

  const DAEMON_SHORT := "daemon_short"
  const REMOTE_SESSION := "remote_session"
  const BAD_METADATA := "invalid action metadata"
  const DEFER_FAILED := "defer to pending failed"

  // ----- slot pools -----

  function RunningIn(s: Store, pool: Pool): set<int> {
    set id | id in s.actions && s.actions[id].status == Running && InPool(s.actions[id].meta, pool)
  }

  predicate AllRunningReadable(s: Store) {
    forall id | id in s.actions && s.actions[id].status == Running :: SqlReadable(s.actions[id].meta)
  }

  /**
    CountRunningInteractive and CountRunningNonInteractive; json_extract fails the query on an unreadable
    running row.
   */
  function CountRunning(s: Store, pool: Pool): Option<nat> {
    if AllRunningReadable(s) then Some(|RunningIn(s, pool)|) else None
  }

  function Cap(caps: Caps, pool: Pool): int {
    match pool
    case InteractivePool => caps.interactive
    case NonInteractivePool => caps.nonInteractive
  }

  function PoolOf(mode: string): Pool {
    if mode == NONINTERACTIVE then NonInteractivePool else InteractivePool
  }

  /** The admission callback, run after the claim: over the cap, or unable to count, means no. */
  predicate Admits(s: Store, caps: Caps, pool: Pool, countFails: bool) {
    && !countFails && CountRunning(s, pool).Some?
    && CountRunning(s, pool).value <= Cap(caps, pool)
  }

  // ----- ExecuteAction -----

  /** MarkFailed; when the write fails the row stays as it is. */
  function Fail(s: Store, id: int, reason: string, t: Attempt): Store {
    if t.faults.mark then s else MarkTerminal(s, id, Failed, reason, t.actAt).0
  }

  /** Records what was launched; a failure is logged. */
  function Stamp(s: Store, id: int, key: string, handle: string, t: Attempt): Store {
    if t.faults.merge then s else MergeMetadata(s, id, map[key := JStr(handle)]).0
  }

  function DeferOrFail(s: Store, id: int, t: Attempt): (Store, Execution) {
    if t.faults.defer then (Fail(s, id, DEFER_FAILED, t), ActionFailed)
    else
      var (s', r) := DeferToPending(s, id, t.actAt, DEFER_BACKOFF);
      if r.Ok? then (s', Deferred) else (Fail(s, id, DEFER_FAILED, t), ActionFailed)
  }

  function ExecuteViaBg(s: Store, caps: Option<Caps>, id: int, pool: Pool, t: Attempt): (Store, Execution) {
    if caps.Some? && !Admits(s, caps.value, pool, t.faults.count) then DeferOrFail(s, id, t)
    else match t.launch
      case LaunchFailed(reason) => (Fail(s, id, reason, t), ActionFailed)
      case Started(handle) => (Stamp(s, id, DAEMON_SHORT, handle, t), Launched)
  }

  function ExecuteRemote(s: Store, id: int, t: Attempt): (Store, Execution) {
    match t.launch
    case LaunchFailed(reason) => (Fail(s, id, reason, t), ActionFailed)
    case Started(handle) =>
      var s1 := Stamp(s, id, REMOTE_SESSION, handle, t);
      (if t.faults.dispatched then s1 else MarkDispatched(s1, id).0, Launched)
  }

  /** A claimed action is rejected, sent to the remote worker, or run in the background if its pool admits it. */
  function ExecuteAction(s: Store, caps: Option<Caps>, id: int, t: Attempt): (Store, Execution)
    requires id in s.actions
  {
    var meta := s.actions[id].meta;
    if !Runnable(meta) then (Fail(s, id, BAD_METADATA, t), Rejected)
    else
      var mode := ModeOf(GoParse(meta).value);
      if mode == REMOTE then ExecuteRemote(s, id, t)
      else ExecuteViaBg(s, caps, id, PoolOf(mode), t)
  }

  lemma FailAdvances(s: Store, id: int, reason: string, t: Attempt)
    requires Inv(s)
    ensures Advances(s, Fail(s, id, reason, t), NO_EDITS)
  {
    hide Inv, MarkTerminal;
    EvolvesSelf(s, NO_EDITS);
    MarkTerminalAdvances(s, id, Failed, reason, t.actAt);
  }

  lemma StampAdvances(s: Store, id: int, key: string, handle: string, t: Attempt)
    requires Inv(s)
    ensures Advances(s, Stamp(s, id, key, handle, t), NO_EDITS)
  {
    hide Inv, MergeMetadata;
    EvolvesSelf(s, NO_EDITS);
    MergeMetadataAdvances(s, id, map[key := JStr(handle)]);
  }

  lemma ExecuteRemoteAdvances(s: Store, id: int, t: Attempt)
    requires Inv(s)
    ensures Advances(s, ExecuteRemote(s, id, t).0, NO_EDITS)
  {
    hide Inv, Evolves, Fail, Stamp, MarkDispatched;
    match t.launch {
      case LaunchFailed(reason) => FailAdvances(s, id, reason, t);
      case Started(handle) =>
        StampAdvances(s, id, REMOTE_SESSION, handle, t);
        var s1 := Stamp(s, id, REMOTE_SESSION, handle, t);
        MarkDispatchedAdvances(s1, id);
        AdvancesTransitive(s, s1, MarkDispatched(s1, id).0, NO_EDITS);
    }
  }

  lemma DeferOrFailAdvances(s: Store, id: int, t: Attempt)
    requires Inv(s)
    ensures Advances(s, DeferOrFail(s, id, t).0, NO_EDITS)
  {
    hide Inv, Evolves, Fail, DeferToPending;
    FailAdvances(s, id, DEFER_FAILED, t);
    DeferAdvances(s, id, t.actAt, DEFER_BACKOFF);
  }

  lemma ExecuteActionAdvances(s: Store, caps: Option<Caps>, id: int, t: Attempt)
    requires Inv(s) && id in s.actions
    ensures Advances(s, ExecuteAction(s, caps, id, t).0, NO_EDITS)
  {
    hide Advances, Inv, Fail, Stamp, DeferOrFail, ExecuteRemote, Runnable, Admits;
    FailAdvances(s, id, BAD_METADATA, t);
    ExecuteRemoteAdvances(s, id, t);
    DeferOrFailAdvances(s, id, t);
    match t.launch {
      case LaunchFailed(reason) => FailAdvances(s, id, reason, t);
      case Started(handle) => StampAdvances(s, id, DAEMON_SHORT, handle, t);
    }
  }

  // ----- one dispatch tick -----

  /** dispatchOne from its n-th attempt: the store, whether something was dispatched, whether an error is returned. */
  function DispatchFrom(s: Store, caps: Caps, env: nat -> Attempt, n: nat): (Store, bool, bool)
    decreases MAX_ATTEMPTS - n
  {
    if n >= MAX_ATTEMPTS then (s, false, false)
    else if env(n).faults.claim then (s, false, true)
    else
      var (s1, next) := NextPending(s, env(n).claimAt);
      if next.None? then (s1, false, false)
      else
        var (s2, x) := ExecuteAction(s1, Some(caps), next.value, env(n));
        if x == Deferred then DispatchFrom(s2, caps, env, n + 1) else (s2, true, x == Rejected)
  }

  lemma {:induction false} DispatchAdvances(s: Store, caps: Caps, env: nat -> Attempt, n: nat)
    requires Inv(s)
    ensures Advances(s, DispatchFrom(s, caps, env, n).0, NO_EDITS)
    decreases MAX_ATTEMPTS - n
  {
    hide Core, Replays, Evolves, ExecuteAction;
    EvolvesSelf(s, NO_EDITS);
    if n < MAX_ATTEMPTS && !env(n).faults.claim {
      NextPendingAdvances(s, env(n).claimAt);
      var (s1, next) := NextPending(s, env(n).claimAt);
      if next.Some? {
        ExecuteActionAdvances(s1, Some(caps), next.value, env(n));
        var (s2, x) := ExecuteAction(s1, Some(caps), next.value, env(n));
        AdvancesTransitive(s, s1, s2, NO_EDITS);
        if x == Deferred {
          DispatchAdvances(s2, caps, env, n + 1);
          AdvancesTransitive(s, s2, DispatchFrom(s2, caps, env, n + 1).0, NO_EDITS);
        }
      }
    }
  }

  // ----- the simple specification -----

  function ClaimedRow(a: Action, now: int): Action {
    a.(status := Running, startedAt := Some(Sec(now)))
  }

  function DeferredRow(a: Action, now: int): Action {
    a.(status := Pending, startedAt := None, dispatchAfter := Some(DeferUntil(now, DEFER_BACKOFF)))
  }

  predicate IsRemote(meta: Meta) {
    Runnable(meta) && ModeOf(GoParse(meta).value) == REMOTE
  }

  function ExecutedRow(a: Action, now: int, launch: Launch): Action {
    var c := ClaimedRow(a, now);
    if !Runnable(a.meta) then FinishedRow(c, Failed, BAD_METADATA, now)
    else match launch
      case LaunchFailed(reason) => FinishedRow(c, Failed, reason, now)
      case Started(handle) =>
        var m := GoParse(a.meta).value;
        if IsRemote(a.meta) then c.(status := Dispatched, meta := Obj(m[REMOTE_SESSION := JStr(handle)]))
        else c.(meta := Obj(m[DAEMON_SHORT := JStr(handle)]))
  }

  /** Whether the pool of a background action still admits it once it is itself counted. */
  predicate HasRoom(s: Store, caps: Caps, meta: Meta)
    requires Runnable(meta)
  {
    var pool := PoolOf(ModeOf(GoParse(meta).value));
    && AllRunningReadable(s)
    && |RunningIn(s, pool)| + (if InPool(meta, pool) then 1 else 0) <= Cap(caps, pool)
  }

  /** The tick stops at this action instead of deferring it. */
  predicate Takes(s: Store, caps: Caps, id: int) {
    && id in s.actions
    && var meta := s.actions[id].meta;
    !Runnable(meta) || IsRemote(meta) || HasRoom(s, caps, meta)
  }

  /** Index of the first action the tick takes; the length of the list when there is none. */
  function FirstTaken(s: Store, caps: Caps, ids: seq<int>): (k: nat)
    ensures k <= |ids|
    ensures forall i | 0 <= i < k :: !Takes(s, caps, ids[i])
    ensures k < |ids| ==> Takes(s, caps, ids[k])
  {
    if ids == [] || Takes(s, caps, ids[0]) then 0
    else 1 + FirstTaken(s, caps, ids[1..])
  }

  ghost predicate Calm(env: nat -> Attempt, now: int) {
    forall n :: env(n).claimAt == now && env(n).actAt == now && env(n).faults == NO_FAULTS
  }

  ghost predicate OnlyRow(s: Store, s': Store, id: int, a: Action) {
    && s'.actions == s.actions[id := a]
    && s'.projects == s.projects && s'.tasks == s.tasks && s'.schedules == s.schedules && s'.edges == s.edges
  }

  lemma ClaimRow(s: Store, id: int, now: int)
    requires id in s.actions
    ensures OnlyRow(s, Claim(s, id, now), id, ClaimedRow(s.actions[id], now))
  {
  }

  /** Writing one row that was not running adds it to the pool of its metadata if it is running now. */
  lemma OneMoreRunning(s: Store, s': Store, id: int, row: Action, pool: Pool)
    requires (id in s.actions ==> s.actions[id].status != Running) && s'.actions == s.actions[id := row]
    ensures RunningIn(s', pool)
         == RunningIn(s, pool) + (if row.status == Running && InPool(row.meta, pool) then {id} else {})
    ensures |RunningIn(s', pool)|
         == |RunningIn(s, pool)| + (if row.status == Running && InPool(row.meta, pool) then 1 else 0)
  {
    hide InPool, RunningIn;
    var before, after := RunningIn(s, pool), RunningIn(s', pool);
    forall i ensures i in after - {id} <==> i in before {
      RunningMember(s, pool, i);
      RunningMember(s', pool, i);
    }
    assert after - {id} == before;
    RunningMember(s', pool, id);
    RemoveSize(after, id);
  }

  lemma RunningMember(s: Store, pool: Pool, i: int)
    ensures i in RunningIn(s, pool)
       <==> i in s.actions && s.actions[i].status == Running && InPool(s.actions[i].meta, pool)
  {
  }

  lemma ClaimCounts(s: Store, id: int, now: int, pool: Pool)
    requires id in s.actions && s.actions[id].status == Pending
    ensures
      var s1, meta := Claim(s, id, now), s.actions[id].meta;
      && AllRunningReadable(s1) == (AllRunningReadable(s) && SqlReadable(meta))
      && RunningIn(s1, pool) == RunningIn(s, pool) + (if InPool(meta, pool) then {id} else {})
      && |RunningIn(s1, pool)| == |RunningIn(s, pool)| + (if InPool(meta, pool) then 1 else 0)
  {
    hide Claim, InPool, SqlReadable, RunningIn;
    var s1, row := Claim(s, id, now), ClaimedRow(s.actions[id], now);
    ClaimRow(s, id, now);
    OneMoreRunning(s, s1, id, row, pool);
    assert s1.actions[id] == row;
    assert forall i | i in s.actions && i != id :: s1.actions[i] == s.actions[i];
  }

  /** The empty string parses but has no instruction, so what runs is a stored object. */
  lemma RunnableParses(meta: Meta)
    requires Runnable(meta)
    ensures meta.Obj? && SqlReadable(meta)
  {
  }

  lemma FailRow(s: Store, id: int, reason: string, t: Attempt)
    requires id in s.actions && !IsTerminal(s.actions[id].status)
    ensures OnlyRow(s, Fail(s, id, reason, t), id,
                    if t.faults.mark then s.actions[id] else FinishedRow(s.actions[id], Failed, reason, t.actAt))
  {
  }

  lemma DeferRow(s: Store, id: int, now: int)
    requires id in s.actions && s.actions[id].status == Running
    ensures DeferToPending(s, id, now, DEFER_BACKOFF).1.Ok?
    ensures OnlyRow(s, DeferToPending(s, id, now, DEFER_BACKOFF).0, id, DeferredRow(s.actions[id], now))
  {
  }

  function StampedRow(a: Action, key: string, handle: string, t: Attempt): Action
    requires GoParse(a.meta).Some?
  {
    if t.faults.merge then a else a.(meta := Obj(GoParse(a.meta).value[key := JStr(handle)]))
  }

  lemma StampRow(s: Store, id: int, key: string, handle: string, t: Attempt)
    requires id in s.actions && GoParse(s.actions[id].meta).Some?
    ensures OnlyRow(s, Stamp(s, id, key, handle, t), id, StampedRow(s.actions[id], key, handle, t))
  {
    var m := GoParse(s.actions[id].meta).value;
    assert m + map[key := JStr(handle)] == m[key := JStr(handle)];
  }

  lemma RemoteRow(s: Store, id: int, handle: string, t: Attempt)
    requires id in s.actions && s.actions[id].status == Running && GoParse(s.actions[id].meta).Some?
    ensures
      var s1 := Stamp(s, id, REMOTE_SESSION, handle, t);
      var row := StampedRow(s.actions[id], REMOTE_SESSION, handle, t);
      OnlyRow(s, if t.faults.dispatched then s1 else MarkDispatched(s1, id).0, id,
              if t.faults.dispatched then row else row.(status := Dispatched))
  {
    StampRow(s, id, REMOTE_SESSION, handle, t);
    hide Stamp;
  }

  /** One attempt on a claimed action, in a calm environment. */
  lemma AttemptRow(s: Store, caps: Caps, id: int, t: Attempt)
    requires id in s.actions && s.actions[id].status == Pending
    requires t.claimAt == t.actAt && t.faults == NO_FAULTS
    ensures
      var (s', x) := ExecuteAction(Claim(s, id, t.claimAt), Some(caps), id, t);
      && (x == Deferred <==> !Takes(s, caps, id))
      && OnlyRow(s, s', id, if Takes(s, caps, id) then ExecutedRow(s.actions[id], t.claimAt, t.launch)
                            else DeferredRow(s.actions[id], t.claimAt))
  {
    hide Claim, Fail, DeferToPending, Stamp, MarkDispatched, Runnable, RunningIn, ModeOf, AllRunningReadable, InPool;
    var a := s.actions[id];
    var s1 := Claim(s, id, t.claimAt);
    ClaimRow(s, id, t.claimAt);
    FailRow(s1, id, BAD_METADATA, t);
    DeferRow(s1, id, t.actAt);
    if Runnable(a.meta) {
      RunnableParses(a.meta);
      ClaimCounts(s, id, t.claimAt, PoolOf(ModeOf(GoParse(a.meta).value)));
      match t.launch {
        case LaunchFailed(reason) => FailRow(s1, id, reason, t);
        case Started(handle) =>
          StampRow(s1, id, DAEMON_SHORT, handle, t);
          RemoteRow(s1, id, handle, t);
      }
    }
  }

  /** Deferring an action changes neither who else is eligible nor whom the tick would take. */
  lemma DeferralStep(s: Store, caps: Caps, id: int, now: int, s': Store)
    requires id in s.actions && s.actions[id].status == Pending && OnlyRow(s, s', id, DeferredRow(s.actions[id], now))
    ensures EligibleIds(s', now) == EligibleIds(s, now) - {id}
    ensures forall j | j in s.actions && j != id :: Takes(s', caps, j) == Takes(s, caps, j)
  {
    DeferWindow(now, DEFER_BACKOFF);
    RowLeavesEligible(s, s', id, DeferredRow(s.actions[id], now), now);
    assert RunningIn(s', InteractivePool) == RunningIn(s, InteractivePool);
    assert RunningIn(s', NonInteractivePool) == RunningIn(s, NonInteractivePool);
    assert AllRunningReadable(s') == AllRunningReadable(s) by {
      assert forall i | i in s.actions && i != id :: s'.actions[i] == s.actions[i];
    }
    hide Runnable, InPool, ModeOf, RunningIn, AllRunningReadable;
  }

  lemma TakenCongruent(s: Store, s': Store, caps: Caps, ids: seq<int>)
    requires forall id | id in ids :: Takes(s', caps, id) == Takes(s, caps, id)
    ensures FirstTaken(s', caps, ids) == FirstTaken(s, caps, ids)
  {
  }

  /** What the tick leaves behind: deferred before k, executed at k, untouched elsewhere. */
  ghost predicate TickOutcome(s: Store, s': Store, ids: seq<int>, k: nat, now: int, launch: Launch) {
    && s'.actions.Keys == s.actions.Keys
    && s'.projects == s.projects && s'.tasks == s.tasks && s'.schedules == s.schedules && s'.edges == s.edges
    && (forall i | 0 <= i < k && i < |ids| && ids[i] in s.actions ::
        s'.actions[ids[i]] == DeferredRow(s.actions[ids[i]], now))
    && (k < |ids| && ids[k] in s.actions ==> s'.actions[ids[k]] == ExecutedRow(s.actions[ids[k]], now, launch))
    && (forall id | id in s.actions && (forall i | 0 <= i <= k && i < |ids| :: ids[i] != id) ::
        s'.actions[id] == s.actions[id])
  }

  /** The eligible actions the attempts n, n+1, ... of one tick can see. */
  function Window(s: Store, now: int, n: nat): (ids: seq<int>)
    requires n <= MAX_ATTEMPTS
  {
    var all := Ascending(EligibleIds(s, now));
    if |all| <= MAX_ATTEMPTS - n then all else all[..MAX_ATTEMPTS - n]
  }

  lemma WindowEligible(s: Store, now: int, n: nat)
    requires n <= MAX_ATTEMPTS
    ensures forall id | id in Window(s, now, n) :: id in EligibleIds(s, now)
    ensures Increasing(Window(s, now, n))
  {
    AscendingLists(EligibleIds(s, now));
  }

  /** The tail of the window is the window of the next attempt. */
  lemma WindowTail(s: Store, s': Store, now: int, n: nat)
    requires n < MAX_ATTEMPTS && EligibleIds(s, now) != {}
    requires EligibleIds(s', now) == EligibleIds(s, now) - {Min(EligibleIds(s, now))}
    ensures Window(s, now, n) == [Min(EligibleIds(s, now))] + Window(s', now, n + 1)
  {
  }

  /** Prepending one deferral to the outcome of the remaining attempts. */
  lemma PrependDeferral(s: Store, s1: Store, s': Store, id: int, rest: seq<int>, k: nat, now: int, launch: Launch)
    requires id in s.actions && OnlyRow(s, s1, id, DeferredRow(s.actions[id], now))
    requires TickOutcome(s1, s', rest, k, now, launch)
    requires id !in rest && k <= |rest|
    ensures TickOutcome(s, s', [id] + rest, k + 1, now, launch)
  {
    hide DeferredRow, ExecutedRow;
    var ids := [id] + rest;
    assert s'.actions[id] == s1.actions[id];
    forall i | 0 <= i < k + 1 && i < |ids| && ids[i] in s.actions
      ensures s'.actions[ids[i]] == DeferredRow(s.actions[ids[i]], now)
    {
      if i > 0 {
        assert ids[i] == rest[i - 1] && rest[i - 1] in rest;
      }
    }
    if k + 1 < |ids| {
      assert ids[k + 1] == rest[k] && rest[k] in rest;
    }
    forall x | x in s.actions && (forall i | 0 <= i <= k + 1 && i < |ids| :: ids[i] != x)
      ensures s'.actions[x] == s.actions[x]
    {
      assert ids[0] != x;
      forall i | 0 <= i <= k && i < |rest| ensures rest[i] != x {
        assert ids[i + 1] != x;
      }
    }
  }

  ghost predicate Refines(s: Store, caps: Caps, env: nat -> Attempt, now: int, n: nat)
    requires n <= MAX_ATTEMPTS
  {
    var ids := Window(s, now, n);
    var k := FirstTaken(s, caps, ids);
    var (s', dispatched, failed) := DispatchFrom(s, caps, env, n);
    && Increasing(ids) && (forall id | id in ids :: id in EligibleIds(s, now))
    && TickOutcome(s, s', ids, k, now, env(n + k).launch)
    && (dispatched <==> k < |ids|)
    && (failed <==> k < |ids| && !Runnable(s.actions[ids[k]].meta))
  }

  /** The attempt deferred its action, and the remaining attempts refine the specification. */
  lemma RefinesAfterDeferral(s: Store, s1: Store, caps: Caps, env: nat -> Attempt, now: int, n: nat)
    requires n < MAX_ATTEMPTS && Calm(env, now) && EligibleIds(s, now) != {}
    requires !Takes(s, caps, Min(EligibleIds(s, now)))
    requires ExecuteAction(Claim(s, Min(EligibleIds(s, now)), now), Some(caps), Min(EligibleIds(s, now)), env(n))
        == (s1, Deferred)
    requires OnlyRow(s, s1, Min(EligibleIds(s, now)), DeferredRow(s.actions[Min(EligibleIds(s, now))], now))
    requires Refines(s1, caps, env, now, n + 1)
    ensures Refines(s, caps, env, now, n)
  {
    hide Runnable, Takes, ExecuteAction, TickOutcome, DeferredRow, ExecutedRow, Window, Claim;
    var id := Min(EligibleIds(s, now));
    DeferralStep(s, caps, id, now, s1);
    WindowTail(s, s1, now, n);
    WindowEligible(s, now, n);
    WindowEligible(s1, now, n + 1);
    var rest := Window(s1, now, n + 1);
    assert ([id] + rest)[1..] == rest;
    TakenCongruent(s, s1, caps, rest);
    var k := FirstTaken(s, caps, rest);
    PrependDeferral(s, s1, DispatchFrom(s1, caps, env, n + 1).0, id, rest, k, now, env(n + 1 + k).launch);
    assert FirstTaken(s, caps, [id] + rest) == k + 1;
    assert DispatchFrom(s, caps, env, n) == DispatchFrom(s1, caps, env, n + 1);
    assert k < |rest| ==>
        ([id] + rest)[k + 1] == rest[k] && rest[k] in rest && s1.actions[rest[k]] == s.actions[rest[k]];
  }

  lemma LeastPending(s: Store, now: int)
    requires EligibleIds(s, now) != {}
    ensures Min(EligibleIds(s, now)) in s.actions && s.actions[Min(EligibleIds(s, now))].status == Pending
    ensures Min(EligibleIds(s, now)) in Claim(s, Min(EligibleIds(s, now)), now).actions
  {
  }

  lemma RefinesWhenTaken(s: Store, caps: Caps, env: nat -> Attempt, now: int, n: nat)
    requires n < MAX_ATTEMPTS && Calm(env, now) && EligibleIds(s, now) != {}
    requires Takes(s, caps, Min(EligibleIds(s, now)))
    ensures Refines(s, caps, env, now, n)
  {
    hide Runnable, Takes, ExecuteAction, TickOutcome, ExecutedRow, Window, Claim;
    var id := Min(EligibleIds(s, now));
    AttemptRow(s, caps, id, env(n));
    RejectedIff(s, caps, id, env(n));
    FirstInWindow(s, now, n);
    WindowEligible(s, now, n);
    TakenFirst(s, DispatchFrom(s, caps, env, n).0, Window(s, now, n), now, env(n).launch);
  }

  /**
    The bounded claim-count-defer loop refines a simple specification. With the clock fixed and no
    outside failure, let k be the first of the next MAX_ATTEMPTS - n eligible actions that is remote,
    not runnable, or has room in its pool: the actions before k are deferred, k is executed or failed,
    every other row is unchanged; without such a k all of them are deferred and nothing is dispatched.
   */
  lemma {:induction false} DispatchRefines(s: Store, caps: Caps, env: nat -> Attempt, now: int, n: nat)
    requires n <= MAX_ATTEMPTS && Calm(env, now)
    ensures Refines(s, caps, env, now, n)
    decreases MAX_ATTEMPTS - n
  {
    hide Refines, Takes, ExecuteAction, OnlyRow, Claim, DispatchFrom, EligibleIds;
    if n == MAX_ATTEMPTS || EligibleIds(s, now) == {} {
      RefinesAtEnd(s, caps, env, now, n);
    } else {
      var id := Min(EligibleIds(s, now));
      LeastPending(s, now);
      AttemptRow(s, caps, id, env(n));
      if Takes(s, caps, id) {
        RefinesWhenTaken(s, caps, env, now, n);
      } else {
        var s1 := ExecuteAction(Claim(s, id, now), Some(caps), id, env(n)).0;
        DispatchRefines(s1, caps, env, now, n + 1);
        RefinesAfterDeferral(s, s1, caps, env, now, n);
      }
    }
  }

  lemma RefinesAtEnd(s: Store, caps: Caps, env: nat -> Attempt, now: int, n: nat)
    requires n <= MAX_ATTEMPTS && Calm(env, now) && (n == MAX_ATTEMPTS || EligibleIds(s, now) == {})
    ensures Refines(s, caps, env, now, n)
  {
  }

  lemma TakenFirst(s: Store, s': Store, ids: seq<int>, now: int, launch: Launch)
    requires ids != [] && ids[0] in s.actions
    requires OnlyRow(s, s', ids[0], ExecutedRow(s.actions[ids[0]], now, launch))
    ensures TickOutcome(s, s', ids, 0, now, launch)
  {
  }

  lemma FirstInWindow(s: Store, now: int, n: nat)
    requires n < MAX_ATTEMPTS && EligibleIds(s, now) != {}
    ensures Window(s, now, n) != [] && Window(s, now, n)[0] == Min(EligibleIds(s, now))
  {
  }

  lemma RejectedIff(s: Store, caps: Caps, id: int, t: Attempt)
    requires id in s.actions
    ensures ExecuteAction(Claim(s, id, t.claimAt), Some(caps), id, t).1 == Rejected <==> !Runnable(s.actions[id].meta)
  {
  }

  // ----- slot caps -----

  /** The pool of a background mode admits the claimed action. */
  predicate Admitted(s: Store, caps: Caps, meta: Meta, t: Attempt)
    requires Runnable(meta)
  {
    Admits(s, caps, PoolOf(ModeOf(GoParse(meta).value)), t.faults.count)
  }

  /** MarkFailed fails on an action no pool admitted, so its row is left running. */
  predicate LeftUnadmitted(s: Store, caps: Caps, id: int, t: Attempt)
    requires id in s.actions
  {
    var meta := s.actions[id].meta;
    && t.faults.mark
    && (!Runnable(meta) || (!IsRemote(meta) && t.faults.defer && !Admitted(s, caps, meta, t)))
  }

  /** What one attempt leaves of the claimed row. */
  lemma ExecutionShape(s: Store, caps: Option<Caps>, id: int, t: Attempt) returns (row: Action)
    requires id in s.actions && s.actions[id].status == Running
    ensures OnlyRow(s, ExecuteAction(s, caps, id, t).0, id, row)
    ensures ScheduleRef(row.meta) == ScheduleRef(s.actions[id].meta)
    ensures forall pool :: InPool(row.meta, pool) == InPool(s.actions[id].meta, pool)
    ensures caps.Some? && LeftUnadmitted(s, caps.value, id, t) ==> row == s.actions[id]
    ensures caps.Some? && row.status == Running && !LeftUnadmitted(s, caps.value, id, t) ==>
              Runnable(s.actions[id].meta)
                  && (IsRemote(s.actions[id].meta) || Admitted(s, caps.value, s.actions[id].meta, t))
    ensures ExecuteAction(s, caps, id, t).1 == Deferred ==> row.status == Pending
    ensures row.status == Pending ==> row.dispatchAfter.Some?
  {
    hide Fail, DeferToPending, Stamp, MarkDispatched, Runnable, RunningIn, ModeOf, AllRunningReadable, InPool,
         ScheduleRef, Admits;
    var a := s.actions[id];
    FailRow(s, id, BAD_METADATA, t);
    FailRow(s, id, DEFER_FAILED, t);
    DeferRow(s, id, t.actAt);
    if !Runnable(a.meta) {
      row := FailedOrKept(a, BAD_METADATA, t);
    } else {
      RunnableParses(a.meta);
      var mode := ModeOf(GoParse(a.meta).value);
      if mode != REMOTE && caps.Some? && !Admits(s, caps.value, PoolOf(mode), t.faults.count) {
        row := if t.faults.defer then FailedOrKept(a, DEFER_FAILED, t) else DeferredRow(a, t.actAt);
      } else {
        match t.launch {
          case LaunchFailed(reason) =>
            FailRow(s, id, reason, t);
            row := FailedOrKept(a, reason, t);
          case Started(handle) =>
            StampRow(s, id, DAEMON_SHORT, handle, t);
            RemoteRow(s, id, handle, t);
            StampKeeps(a, handle, t);
            row := StampedRow(a, if mode == REMOTE then REMOTE_SESSION else DAEMON_SHORT, handle, t);
            if mode == REMOTE && !t.faults.dispatched {
              row := row.(status := Dispatched);
            }
        }
      }
    }
  }

  function FailedOrKept(a: Action, reason: string, t: Attempt): Action {
    if t.faults.mark then a else FinishedRow(a, Failed, reason, t.actAt)
  }

  lemma StampKeeps(a: Action, handle: string, t: Attempt)
    requires a.meta.Obj?
    ensures forall key | key in {DAEMON_SHORT, REMOTE_SESSION} ::
              var row := StampedRow(a, key, handle, t);
              && row.status == a.status && ScheduleRef(row.meta) == ScheduleRef(a.meta)
              && forall pool :: InPool(row.meta, pool) == InPool(a.meta, pool)
  {
    assert DAEMON_SHORT[0] != "mode"[0] && DAEMON_SHORT[0] != "schedule_id"[0];
    assert REMOTE_SESSION[0] != "mode"[0] && REMOTE_SESSION[0] != "schedule_id"[0];
    hide DigitsValue, LeadingDigits, AllDigits;
  }

  /** A runnable background action counts against the pool that is asked to admit it, except under an empty mode. */
  lemma PoolMatchesMode(m: Object)
    requires Runnable(Obj(m)) && !IsRemote(Obj(m))
    ensures InPool(Obj(m), PoolOf(ModeOf(m))) <==> !("mode" in m && m["mode"] == JStr(""))
    ensures forall pool | InPool(Obj(m), pool) :: pool == PoolOf(ModeOf(m))
  {
    assert LEGACY_BG[0] != INTERACTIVE[0] && NONINTERACTIVE[0] != INTERACTIVE[0] && REMOTE[0] != INTERACTIVE[0];
  }

  lemma PooledRunnable(meta: Meta, pool: Pool)
    requires Runnable(meta) && InPool(meta, pool)
    ensures !IsRemote(meta) && PoolOf(ModeOf(GoParse(meta).value)) == pool
  {
    RunnableParses(meta);
    if IsRemote(meta) {
      RemoteUnpooled(meta.m, pool);
    } else {
      PoolMatchesMode(meta.m);
    }
  }

  lemma RemoteUnpooled(m: Object, pool: Pool)
    requires IsRemote(Obj(m))
    ensures !InPool(Obj(m), pool)
  {
    assert REMOTE[0] != INTERACTIVE[0] && REMOTE[0] != NONINTERACTIVE[0] && REMOTE[0] != LEGACY_BG[0];
  }

  /** The attempt ends with the pool above both its old size and its cap. */
  ghost predicate Overfills(s: Store, s': Store, caps: Caps, pool: Pool) {
    |RunningIn(s', pool)| > |RunningIn(s, pool)| && |RunningIn(s', pool)| > Cap(caps, pool)
  }

  /**
    The one way to overfill a pool: it has no room, and MarkFailed fails on an action that cannot run or be
    deferred.
   */
  predicate Spills(s: Store, caps: Caps, id: int, t: Attempt, pool: Pool) {
    && id in s.actions
    && var meta := s.actions[id].meta;
    && t.faults.mark && (!Runnable(meta) || t.faults.defer)
    && InPool(meta, pool) && |RunningIn(s, pool)| + 1 > Cap(caps, pool)
  }

  /** One attempt, whatever fails around it, overfills a pool exactly when it spills into it. */
  lemma AttemptWithinCapIff(s: Store, caps: Caps, id: int, t: Attempt, pool: Pool)
    requires id in s.actions && s.actions[id].status == Pending
    ensures
      var (s', x) := ExecuteAction(Claim(s, id, t.claimAt), Some(caps), id, t);
      && (Overfills(s, s', caps, pool) <==> Spills(s, caps, id, t, pool))
      && (x == Deferred ==> RunningIn(s', pool) == RunningIn(s, pool))
  {
    hide ExecuteAction, Claim, InPool, Runnable, ModeOf, AllRunningReadable, RunningIn, LeftUnadmitted, Admitted;
    var s1, meta := Claim(s, id, t.claimAt), s.actions[id].meta;
    ClaimRow(s, id, t.claimAt);
    var row := ExecutionShape(s1, Some(caps), id, t);
    var s' := ExecuteAction(s1, Some(caps), id, t).0;
    assert s'.actions == s.actions[id := row];
    OneMoreRunning(s, s', id, row, pool);
    if InPool(meta, pool) {
      StaysRunningIff(s, caps, id, t, pool, row);
    }
  }

  /** A pooled row without room is left running exactly when MarkFailed fails on it. */
  lemma StaysRunningIff(s: Store, caps: Caps, id: int, t: Attempt, pool: Pool, row: Action)
    requires id in s.actions && s.actions[id].status == Pending && InPool(s.actions[id].meta, pool)
    requires
      var s1, meta := Claim(s, id, t.claimAt), s.actions[id].meta;
      && id in s1.actions
      && (LeftUnadmitted(s1, caps, id, t) ==> row == s1.actions[id])
      && (row.status == Running && !LeftUnadmitted(s1, caps, id, t) ==>
            Runnable(s1.actions[id].meta)
                && (IsRemote(s1.actions[id].meta) || Admitted(s1, caps, s1.actions[id].meta, t)))
    ensures |RunningIn(s, pool)| + 1 > Cap(caps, pool) ==>
              (row.status == Running <==> t.faults.mark && (!Runnable(s.actions[id].meta) || t.faults.defer))
  {
    hide Claim, InPool, Runnable, ModeOf, AllRunningReadable, RunningIn;
    var meta := s.actions[id].meta;
    ClaimRow(s, id, t.claimAt);
    ClaimCounts(s, id, t.claimAt, pool);
    assert Claim(s, id, t.claimAt).actions[id] == ClaimedRow(s.actions[id], t.claimAt);
    if Runnable(meta) {
      PooledRunnable(meta, pool);
    }
  }

  /** Where a tick spills: at the attempt that ends it, after every earlier one was deferred. */
  predicate TickSpills(s: Store, caps: Caps, env: nat -> Attempt, n: nat, pool: Pool)
    decreases MAX_ATTEMPTS - n
  {
    && n < MAX_ATTEMPTS && !env(n).faults.claim && EligibleIds(s, env(n).claimAt) != {}
    && var id := Min(EligibleIds(s, env(n).claimAt));
    && var (s1, x) := ExecuteAction(Claim(s, id, env(n).claimAt), Some(caps), id, env(n));
    if x == Deferred then TickSpills(s1, caps, env, n + 1, pool) else Spills(s, caps, id, env(n), pool)
  }

  /**
    From any state and under any clock and failures a tick ends above max(count before, cap) in a pool
    exactly when it spills.
   */
  lemma {:induction false} TickWithinCapIff(s: Store, caps: Caps, env: nat -> Attempt, n: nat, pool: Pool)
    ensures Overfills(s, DispatchFrom(s, caps, env, n).0, caps, pool) <==> TickSpills(s, caps, env, n, pool)
    decreases MAX_ATTEMPTS - n
  {
    hide ExecuteAction, RunningIn, Claim, EligibleIds, Spills;
    if n < MAX_ATTEMPTS && !env(n).faults.claim && EligibleIds(s, env(n).claimAt) != {} {
      var id := Min(EligibleIds(s, env(n).claimAt));
      LeastPending(s, env(n).claimAt);
      AttemptWithinCapIff(s, caps, id, env(n), pool);
      var (s1, x) := ExecuteAction(Claim(s, id, env(n).claimAt), Some(caps), id, env(n));
      if x == Deferred {
        TickWithinCapIff(s1, caps, env, n + 1, pool);
      }
    }
  }

  /** Without a failing MarkFailed no tick overfills a pool, whatever else fails. */
  lemma {:induction false} TickWithinCap(s: Store, caps: Caps, env: nat -> Attempt, n: nat, pool: Pool)
    requires forall k :: !env(k).faults.mark
    ensures !TickSpills(s, caps, env, n, pool)
    ensures
      var s' := DispatchFrom(s, caps, env, n).0;
      |RunningIn(s', pool)| <= |RunningIn(s, pool)| || |RunningIn(s', pool)| <= Cap(caps, pool)
    decreases MAX_ATTEMPTS - n
  {
    hide ExecuteAction, RunningIn, Claim, EligibleIds;
    TickWithinCapIff(s, caps, env, n, pool);
    if n < MAX_ATTEMPTS && !env(n).faults.claim && EligibleIds(s, env(n).claimAt) != {} {
      var id := Min(EligibleIds(s, env(n).claimAt));
      LeastPending(s, env(n).claimAt);
      var (s1, x) := ExecuteAction(Claim(s, id, env(n).claimAt), Some(caps), id, env(n));
      if x == Deferred {
        TickWithinCap(s1, caps, env, n + 1, pool);
      }
    }
  }

  /**
    A pool at its cap and an action without an instruction whose failure cannot be written: the pool ends
    over its cap.
   */
  lemma SpillAtCap(s: Store, id: int, t: Attempt)
    requires id in s.actions && s.actions[id].status == Pending && s.actions[id].meta == Obj(map[]) && t.faults.mark
    ensures
      var full := |RunningIn(s, InteractivePool)|;
      var s' := ExecuteAction(Claim(s, id, t.claimAt), Some(Caps(full, 0)), id, t).0;
      |RunningIn(s', InteractivePool)| == full + 1
  {
    hide ExecuteAction, Claim;
    var caps := Caps(|RunningIn(s, InteractivePool)|, 0);
    assert !Runnable(Obj(map[])) && InPool(Obj(map[]), InteractivePool);
    ClaimRow(s, id, t.claimAt);
    ClaimCounts(s, id, t.claimAt, InteractivePool);
    var s1 := Claim(s, id, t.claimAt);
    var row := ExecutionShape(s1, Some(caps), id, t);
    assert ExecuteAction(s1, Some(caps), id, t).0.actions == s1.actions;
  }

  /**
    An empty mode passes validation and runs interactively, but is counted in neither pool: a full pool
    grows unseen.
   */
  lemma EmptyModeUncounted(s: Store, caps: Caps, id: int, t: Attempt)
    requires id in s.actions && s.actions[id].status == Pending
    requires Runnable(s.actions[id].meta) && s.actions[id].meta.Obj?
    requires "mode" in s.actions[id].meta.m && s.actions[id].meta.m["mode"] == JStr("")
    requires AllRunningReadable(s) && |RunningIn(s, InteractivePool)| <= caps.interactive
    requires t.launch.Started? && t.faults == NO_FAULTS
    ensures
      var (s', x) := ExecuteAction(Claim(s, id, t.claimAt), Some(caps), id, t);
      && x == Launched && id in s'.actions && s'.actions[id].status == Running
      && forall pool :: RunningIn(s', pool) == RunningIn(s, pool) && id !in RunningIn(s', pool)
  {
    hide Claim, Fail, DeferToPending, Stamp, MarkDispatched, Runnable, InPool, ModeOf, AllRunningReadable, RunningIn;
    var m, s1 := s.actions[id].meta.m, Claim(s, id, t.claimAt);
    EmptyModeUnpooled(m);
    ClaimRow(s, id, t.claimAt);
    ClaimCounts(s, id, t.claimAt, InteractivePool);
    StampRow(s1, id, DAEMON_SHORT, t.launch.handle, t);
    StampKeeps(s1.actions[id], t.launch.handle, t);
    var s' := ExecuteAction(s1, Some(caps), id, t).0;
    forall pool ensures RunningIn(s', pool) == RunningIn(s, pool) && id !in RunningIn(s', pool) {
      OneMoreRunning(s, s', id, s'.actions[id], pool);
      RunningMember(s', pool, id);
    }
  }

  lemma EmptyModeUnpooled(m: Object)
    requires "mode" in m && m["mode"] == JStr("")
    ensures ModeOf(m) == INTERACTIVE != REMOTE && PoolOf(INTERACTIVE) == InteractivePool
    ensures forall pool :: !InPool(Obj(m), pool)
  {
    assert INTERACTIVE[0] != REMOTE[0] && INTERACTIVE[0] != NONINTERACTIVE[0];
    assert |INTERACTIVE| > 0 && |NONINTERACTIVE| > 0 && |LEGACY_BG| > 0;
  }

  // ----- one attempt, case by case -----

  /** The row while its action is executed. */
  function InHand(a: Action, t: Attempt): Action {
    a.(status := Running, startedAt := Some(t.claimAt / 1_000_000_000))
  }

  /** The row failed with a text; it stays running when MarkFailed fails. */
  function GivenUp(a: Action, text: string, t: Attempt): Action {
    if t.faults.mark then InHand(a, t)
    else InHand(a, t).(status := Failed, result := Some(text), completedAt := Some(t.actAt / 1_000_000_000))
  }

  /** The row once launched, the worker's handle under its key unless that write fails. */
  function HandedOver(a: Action, key: string, handle: string, t: Attempt): Action
    requires a.meta.Obj?
  {
    if t.faults.merge then InHand(a, t) else InHand(a, t).(meta := Obj(a.meta.m[key := JStr(handle)]))
  }

  function NonInteractiveRunning(s: Store): set<int> {
    set i | i in s.actions && s.actions[i].status == Running && s.actions[i].meta.Obj?
            && "mode" in s.actions[i].meta.m && s.actions[i].meta.m["mode"] == JStr("noninteractive")
  }

  function InteractiveRunning(s: Store): set<int> {
    set i | i in s.actions && s.actions[i].status == Running && CountsInteractive(s.actions[i].meta)
  }

  /** No mode, a null mode, interactive, or its name in older databases. */
  predicate CountsInteractive(meta: Meta) {
    meta.NonObject?
    || (meta.Obj? && ("mode" !in meta.m || meta.m["mode"] in {JNull, JStr("interactive"), JStr("experimental_bg")}))
  }

  /** The limit of its pool leaves room for the action, which counts itself unless its mode is the empty string. */
  predicate FreeSlot(s: Store, caps: Caps, m: Object) {
    if "mode" in m && m["mode"] == JStr("noninteractive") then |NonInteractiveRunning(s)| < caps.nonInteractive
    else if "mode" in m && m["mode"] == JStr("") then |InteractiveRunning(s)| <= caps.interactive
    else |InteractiveRunning(s)| < caps.interactive
  }

  predicate RunningReadable(s: Store) {
    forall i | i in s.actions && s.actions[i].status == Running ::
      s.actions[i].meta.Obj? || s.actions[i].meta.NonObject?
  }

  lemma PoolsSpelled(s: Store)
    ensures RunningIn(s, NonInteractivePool) == NonInteractiveRunning(s)
    ensures RunningIn(s, InteractivePool) == InteractiveRunning(s)
    ensures AllRunningReadable(s) <==> RunningReadable(s)
  {
    forall i | i in s.actions
      ensures InPool(s.actions[i].meta, InteractivePool) <==> CountsInteractive(s.actions[i].meta)
      ensures InPool(s.actions[i].meta, NonInteractivePool) <==>
                s.actions[i].meta.Obj? && "mode" in s.actions[i].meta.m
                && s.actions[i].meta.m["mode"] == JStr("noninteractive")
    {
    }
  }

  predicate SaysRemote(m: Object) {
    "mode" in m && m["mode"] == JStr("remote")
  }

  lemma ModesSpelled(m: Object)
    requires Runnable(Obj(m))
    ensures ModeOf(m) == REMOTE <==> SaysRemote(m)
    ensures PoolOf(ModeOf(m)) == NonInteractivePool <==> "mode" in m && m["mode"] == JStr("noninteractive")
    ensures !SaysRemote(m) ==> (InPool(Obj(m), PoolOf(ModeOf(m))) <==> !("mode" in m && m["mode"] == JStr("")))
  {
    assert REMOTE[0] != INTERACTIVE[0] && NONINTERACTIVE[0] != INTERACTIVE[0];
    if !SaysRemote(m) {
      PoolMatchesMode(m);
    }
  }

  /** The pool asked after the claim admits the action exactly when it had a free slot before. */
  lemma AdmitsIff(s: Store, caps: Caps, id: int, t: Attempt)
    requires id in s.actions && s.actions[id].status == Pending
    requires Runnable(s.actions[id].meta) && s.actions[id].meta.Obj? && !SaysRemote(s.actions[id].meta.m)
    ensures
      var m := s.actions[id].meta.m;
      (Admits(Claim(s, id, t.claimAt), caps, PoolOf(ModeOf(m)), t.faults.count)
       <==> !t.faults.count && RunningReadable(s) && FreeSlot(s, caps, m))
  {
    var m := s.actions[id].meta.m;
    ModesSpelled(m);
    PoolsSpelled(s);
    ClaimCounts(s, id, t.claimAt, PoolOf(ModeOf(m)));
    hide Runnable, Claim, ModeOf, InPool, RunningIn, AllRunningReadable, RunningReadable, InteractiveRunning,
         NonInteractiveRunning;
  }

  /** Metadata that cannot be run fails the action, whatever the pools hold. */
  lemma UnrunnableAttempt(s: Store, caps: Option<Caps>, id: int, t: Attempt)
    requires id in s.actions && s.actions[id].status == Pending && !Runnable(s.actions[id].meta)
    ensures
      var (s', x) := ExecuteAction(Claim(s, id, t.claimAt), caps, id, t);
      x == Rejected && OnlyRow(s, s', id, GivenUp(s.actions[id], "invalid action metadata", t))
  {
    ClaimRow(s, id, t.claimAt);
    FailRow(Claim(s, id, t.claimAt), id, BAD_METADATA, t);
    hide Claim, Fail, Runnable;
  }

  /** A remote action asks no pool: it is handed over and marked dispatched, or failed with the worker's reason. */
  lemma RemoteAttempt(s: Store, caps: Option<Caps>, id: int, t: Attempt)
    requires id in s.actions && s.actions[id].status == Pending
    requires Runnable(s.actions[id].meta) && s.actions[id].meta.Obj? && SaysRemote(s.actions[id].meta.m)
    ensures
      var (s', x) := ExecuteAction(Claim(s, id, t.claimAt), caps, id, t);
      match t.launch
      case LaunchFailed(reason) => x == ActionFailed && OnlyRow(s, s', id, GivenUp(s.actions[id], reason, t))
      case Started(handle) =>
        && x == Launched
        && OnlyRow(s, s', id, HandedOver(s.actions[id], "remote_session", handle, t).(
             status := if t.faults.dispatched then Running else Dispatched))
  {
    hide Claim, Fail, Runnable, ModeOf, Stamp, MarkDispatched, SaysRemote, PoolOf, Admits;
    var s1 := Claim(s, id, t.claimAt);
    ModesSpelled(s.actions[id].meta.m);
    ClaimRow(s, id, t.claimAt);
    match t.launch {
      case LaunchFailed(reason) => FailRow(s1, id, reason, t);
      case Started(handle) => RemoteRow(s1, id, handle, t);
    }
  }

  /**
    A background action without a free slot, or when the slots cannot be counted, goes back to pending for
    30 seconds; if that write fails it is failed.
   */
  lemma UnadmittedAttempt(s: Store, caps: Caps, id: int, t: Attempt)
    requires id in s.actions && s.actions[id].status == Pending
    requires Runnable(s.actions[id].meta) && s.actions[id].meta.Obj? && !SaysRemote(s.actions[id].meta.m)
    requires t.faults.count || !RunningReadable(s) || !FreeSlot(s, caps, s.actions[id].meta.m)
    ensures
      var (s', x) := ExecuteAction(Claim(s, id, t.claimAt), Some(caps), id, t);
      if t.faults.defer then
        x == ActionFailed && OnlyRow(s, s', id, GivenUp(s.actions[id], "defer to pending failed", t))
      else
        && x == Deferred
        && OnlyRow(s, s', id, s.actions[id].(status := Pending, startedAt := None,
                                             dispatchAfter := Some(t.actAt / 1_000_000_000 + 30)))
  {
    var s1 := Claim(s, id, t.claimAt);
    ModesSpelled(s.actions[id].meta.m);
    AdmitsIff(s, caps, id, t);
    ClaimRow(s, id, t.claimAt);
    FailRow(s1, id, DEFER_FAILED, t);
    DeferRow(s1, id, t.actAt);
    hide Claim, Fail, Runnable, ModeOf, DeferToPending, SaysRemote, FreeSlot, RunningReadable, Admits;
  }

  /** With a free slot, or none asked for, it is launched, or failed with the worker's reason. */
  lemma AdmittedAttempt(s: Store, caps: Option<Caps>, id: int, t: Attempt)
    requires id in s.actions && s.actions[id].status == Pending
    requires Runnable(s.actions[id].meta) && s.actions[id].meta.Obj? && !SaysRemote(s.actions[id].meta.m)
    requires caps.Some? ==>
               !t.faults.count && RunningReadable(s) && FreeSlot(s, caps.value, s.actions[id].meta.m)
    ensures
      var (s', x) := ExecuteAction(Claim(s, id, t.claimAt), caps, id, t);
      match t.launch
      case LaunchFailed(reason) => x == ActionFailed && OnlyRow(s, s', id, GivenUp(s.actions[id], reason, t))
      case Started(handle) =>
        x == Launched && OnlyRow(s, s', id, HandedOver(s.actions[id], "daemon_short", handle, t))
  {
    var s1 := Claim(s, id, t.claimAt);
    ModesSpelled(s.actions[id].meta.m);
    if caps.Some? {
      AdmitsIff(s, caps.value, id, t);
    }
    ClaimRow(s, id, t.claimAt);
    match t.launch {
      case LaunchFailed(reason) => FailRow(s1, id, reason, t);
      case Started(handle) => StampRow(s1, id, DAEMON_SHORT, handle, t);
    }
    hide Claim, Fail, Runnable, ModeOf, Stamp, SaysRemote, FreeSlot, RunningReadable, Admits;
  }

  /** A tick looks at the 16 least eligible actions. */
  lemma TickWindow(s: Store, now: int)
    ensures
      var all, seen := Ascending(EligibleIds(s, now)), Window(s, now, 0);
      seen <= all && |seen| == if |EligibleIds(s, now)| < 16 then |EligibleIds(s, now)| else 16
  {
    AscendingLists(EligibleIds(s, now));
  }
}
