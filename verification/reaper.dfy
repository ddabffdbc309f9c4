/** The worker's reap pass over running actions. */
module Reaper {
  import opened Types
  import opened Metadata
  import opened Sets
  import opened Rows
  import opened History
  import opened Actions
  import opened Bulk
  import opened Dispatch

  /** What reading state.json of a background job yields. */
  datatype Job =
    | Missing
    | Unreadable
    | Undecodable
    | State(state: string, sessionId: string, result: string, detail: string)

  datatype ReapConfig = ReapConfig(grace: int, hardTimeout: int)

  /** One of the pass's own transactions: the clock it reads, and whether it fails as a whole. */
  datatype Write = Write(at: int, fails: bool)

  /** The clock when orphans are listed and when job ages are judged, and the four writes in their order. */
  datatype ReapEnv = ReapEnv(listed: int, judged: int, orphans: Write, sessions: Write, dones: Write, failures: Write)

  const SESSION := "claude_session_id"
  const ORPHANED := "orphaned"
  const JOB_MISSING := "daemon job dir missing"
  const JOB_FAILED := "bg session reported state=failed"
  const HARD_TIMEOUT := "bg hard timeout elapsed"

  // ----- which rows are listed -----

  predicate LocalRunning(a: Action) {
    a.status == Running && !IsCloud(a.meta)
  }

  predicate IsOrphan(a: Action, grace: int, now: int) {
    && LocalRunning(a) && SqlExtract(a.meta, DAEMON_SHORT).None?
    && a.startedAt.Some? && a.startedAt.value <= Sec(now - grace)
  }

  predicate HasDaemon(a: Action) {
    LocalRunning(a) && SqlExtract(a.meta, DAEMON_SHORT).Some?
  }

  /** ListRunningOrphans; the query fails on an unreadable running row. */
  function Orphans(s: Store, grace: int, now: int): Option<seq<int>> {
    if !AllRunningReadable(s) then None
    else Some(Ascending(set id | id in s.actions && IsOrphan(s.actions[id], grace, now)))
  }

  function WithDaemon(s: Store): Option<seq<int>> {
    if AllRunningReadable(s) then Some(Ascending(set id | id in s.actions && HasDaemon(s.actions[id]))) else None
  }

  // ----- the verdict on one listed row -----

  datatype Outcome = Keep | FinishWith(result: string) | FailWith(reason: string)

  /** Go's age test, in nanoseconds. */
  predicate OlderThan(a: Action, now: int, age: int) {
    a.startedAt.Some? && now - a.startedAt.value * SECOND >= age
  }

  /** SQL's cutoff on the truncated clock and Go's age test agree, start times being whole seconds. */
  lemma AgeTestsAgree(a: Action, now: int, age: int)
    requires a.startedAt.Some?
    ensures a.startedAt.value <= Sec(now - age) <==> OlderThan(a, now, age)
  {
  }

  function FailureText(j: Job): string
    requires j.State?
  {
    if j.detail != "" then j.detail else if j.result != "" then j.result else JOB_FAILED
  }

  function Verdict(cfg: ReapConfig, now: int, a: Action, jobs: string -> Job): Outcome {
    if GoParse(a.meta).None? || StringAt(GoParse(a.meta).value, DAEMON_SHORT) == "" then Keep
    else
      var m := GoParse(a.meta).value;
      match jobs(StringAt(m, DAEMON_SHORT))
      case Missing => if OlderThan(a, now, cfg.grace) then FailWith(JOB_MISSING) else Keep
      case Unreadable => Keep
      case Undecodable => Keep
      case State(state, sessionId, result, detail) =>
        if state == "done" then FinishWith(result)
        else if state == "failed" then FailWith(FailureText(State(state, sessionId, result, detail)))
        else if StringAt(m, "mode") == NONINTERACTIVE && OlderThan(a, now, cfg.hardTimeout) then FailWith(HARD_TIMEOUT)
        else Keep
  }

  /** The session id to record, when the job reports one and the row has none. */
  function SessionUpdate(a: Action, jobs: string -> Job): Option<Object> {
    if GoParse(a.meta).None? || StringAt(GoParse(a.meta).value, DAEMON_SHORT) == "" then None
    else
      var m := GoParse(a.meta).value;
      var j := jobs(StringAt(m, DAEMON_SHORT));
      if j.State? && j.sessionId != "" && StringAt(m, SESSION) == "" then Some(map[SESSION := JStr(j.sessionId)])
      else None
  }

  /** A live job of an action that is not noninteractive is never failed, at any clock; a done job beats any timeout. */
  lemma VerdictOnLive(cfg: ReapConfig, now: int, a: Action, jobs: string -> Job)
    requires GoParse(a.meta).Some? && jobs(StringAt(GoParse(a.meta).value, DAEMON_SHORT)).State?
    ensures
      var m := GoParse(a.meta).value;
      var j := jobs(StringAt(m, DAEMON_SHORT));
      && (j.state != "done" && j.state != "failed" && StringAt(m, "mode") != NONINTERACTIVE ==>
          Verdict(cfg, now, a, jobs) == Keep)
      && (j.state == "done" ==> !Verdict(cfg, now, a, jobs).FailWith?)
      && (Verdict(cfg, now, a, jobs) == FailWith(HARD_TIMEOUT) && j.state != "failed" ==>
            StringAt(m, "mode") == NONINTERACTIVE && OlderThan(a, now, cfg.hardTimeout))
  {
  }

  // ----- the batches -----

  /** The marks a choice function asks for, in listing order. */
  function Marks(ids: seq<int>, pick: int -> Option<string>): seq<Mark> {
    if ids == [] then []
    else (if pick(ids[0]).Some? then [Mark(ids[0], pick(ids[0]).value)] else []) + Marks(ids[1..], pick)
  }

  function Updates(ids: seq<int>, pick: int -> Option<Object>): seq<MetaUpdate> {
    if ids == [] then []
    else (if pick(ids[0]).Some? then [MetaUpdate(ids[0], pick(ids[0]).value)] else []) + Updates(ids[1..], pick)
  }

  function DonePick(s: Store, cfg: ReapConfig, now: int, jobs: string -> Job): int -> Option<string> {
    id => if id in s.actions && Verdict(cfg, now, s.actions[id], jobs).FinishWith? then
            Some(Verdict(cfg, now, s.actions[id], jobs).result) else None
  }

  function FailPick(s: Store, cfg: ReapConfig, now: int, jobs: string -> Job): int -> Option<string> {
    id => if id in s.actions && Verdict(cfg, now, s.actions[id], jobs).FailWith? then
            Some(Verdict(cfg, now, s.actions[id], jobs).reason) else None
  }

  function SessionPick(s: Store, jobs: string -> Job): int -> Option<Object> {
    id => if id in s.actions then SessionUpdate(s.actions[id], jobs) else None
  }

  function ReapOrphans(s: Store, cfg: ReapConfig, env: ReapEnv): Store {
    match Orphans(s, cfg.grace, env.listed)
    case None => s
    case Some(ids) =>
      if env.orphans.fails then s else BulkMarkFailed(s, Marks(ids, _ => Some(ORPHANED)), env.orphans.at).0
  }

  /**
    Session ids first, then the finished, then the failed; a write that fails is logged and the next one
    still runs.
   */
  function ReapJobs(s: Store, cfg: ReapConfig, env: ReapEnv, jobs: string -> Job): Store {
    match WithDaemon(s)
    case None => s
    case Some(ids) =>
      var s1 := if env.sessions.fails then s else BulkMerge(s, Updates(ids, SessionPick(s, jobs))).0;
      var dones := Marks(ids, DonePick(s, cfg, env.judged, jobs));
      var failures := Marks(ids, FailPick(s, cfg, env.judged, jobs));
      var s2 := if env.dones.fails then s1 else BulkMarkDone(s1, dones, env.dones.at).0;
      if env.failures.fails then s2 else BulkMarkFailed(s2, failures, env.failures.at).0
  }

  function Reap(s: Store, cfg: ReapConfig, env: ReapEnv, jobs: string -> Job): Store {
    ReapJobs(ReapOrphans(s, cfg, env), cfg, env, jobs)
  }

  lemma ReapOrphansAdvances(s: Store, cfg: ReapConfig, env: ReapEnv)
    requires Inv(s)
    ensures Advances(s, ReapOrphans(s, cfg, env), NO_EDITS)
  {
    hide Inv, Evolves, BulkMarkFailed;
    EvolvesSelf(s, NO_EDITS);
    if Orphans(s, cfg.grace, env.listed).Some? {
      BulkMarkFailedAdvances(s, Marks(Orphans(s, cfg.grace, env.listed).value, _ => Some(ORPHANED)), env.orphans.at);
    }
  }

  lemma ReapJobsAdvances(s: Store, cfg: ReapConfig, env: ReapEnv, jobs: string -> Job)
    requires Inv(s)
    ensures Advances(s, ReapJobs(s, cfg, env, jobs), NO_EDITS)
  {
    hide Core, Replays, Evolves, BulkMerge, BulkMarkDone, BulkMarkFailed, Verdict, AllRunningReadable;
    EvolvesSelf(s, NO_EDITS);
    if WithDaemon(s).Some? {
      var ids := WithDaemon(s).value;
      var us, ds := Updates(ids, SessionPick(s, jobs)), Marks(ids, DonePick(s, cfg, env.judged, jobs));
      var fs := Marks(ids, FailPick(s, cfg, env.judged, jobs));
      BulkMergeAdvances(s, us);
      var s1 := if env.sessions.fails then s else BulkMerge(s, us).0;
      EvolvesSelf(s1, NO_EDITS);
      BulkMarkDoneAdvances(s1, ds, env.dones.at);
      var s2 := if env.dones.fails then s1 else BulkMarkDone(s1, ds, env.dones.at).0;
      EvolvesSelf(s2, NO_EDITS);
      BulkMarkFailedAdvances(s2, fs, env.failures.at);
      AdvancesTransitive(s, s1, s2, NO_EDITS);
      AdvancesTransitive(s, s2, ReapJobs(s, cfg, env, jobs), NO_EDITS);
    }
  }

  lemma ReapAdvances(s: Store, cfg: ReapConfig, env: ReapEnv, jobs: string -> Job)
    requires Inv(s)
    ensures Advances(s, Reap(s, cfg, env, jobs), NO_EDITS)
  {
    hide Core, Replays, Evolves, ReapOrphans, ReapJobs;
    var s0 := ReapOrphans(s, cfg, env);
    ReapOrphansAdvances(s, cfg, env);
    ReapJobsAdvances(s0, cfg, env, jobs);
    AdvancesTransitive(s, s0, Reap(s, cfg, env, jobs), NO_EDITS);
  }

  // ----- exactness -----

  lemma {:induction false} MarksIds(ids: seq<int>, pick: int -> Option<string>)
    ensures forall u | u in Marks(ids, pick) :: u.id in ids && pick(u.id) == Some(u.text)
    decreases |ids|
  {
    if ids != [] {
      MarksIds(ids[1..], pick);
    }
  }

  /** The done batch and the failure batch never share an action. */
  lemma BatchesDisjoint(s: Store, cfg: ReapConfig, now: int, jobs: string -> Job, ids: seq<int>)
    ensures forall d, f | d in Marks(ids, DonePick(s, cfg, now, jobs))
        && f in Marks(ids, FailPick(s, cfg, now, jobs)) :: d.id != f.id
  {
    MarksIds(ids, DonePick(s, cfg, now, jobs));
    MarksIds(ids, FailPick(s, cfg, now, jobs));
  }

  lemma {:induction false} MarksMiss(a: Action, id: int, ids: seq<int>, pick: int -> Option<string>, st: Status,
        now: int)
    requires id !in ids
    ensures RowAfterMarks(a, id, Marks(ids, pick), st, now) == a
    decreases |ids|
  {
    if ids != [] {
      var rest := Marks(ids[1..], pick);
      MarksMiss(a, id, ids[1..], pick, st, now);
      if pick(ids[0]).Some? {
        assert Marks(ids, pick)[1..] == rest;
      } else {
        assert Marks(ids, pick) == rest;
      }
    }
  }

  /** Listed ids being distinct, each row gets at most its own mark. */
  lemma {:induction false} MarksHit(a: Action, id: int, ids: seq<int>, pick: int -> Option<string>, st: Status,
        now: int)
    requires Increasing(ids)
    ensures RowAfterMarks(a, id, Marks(ids, pick), st, now)
         == if id in ids && pick(id).Some? then RowAfterMark(a, st, pick(id).value, now) else a
    decreases |ids|
  {
    if ids != [] {
      var rest := Marks(ids[1..], pick);
      var a1 := if pick(ids[0]).Some? && ids[0] == id then RowAfterMark(a, st, pick(id).value, now) else a;
      assert RowAfterMarks(a, id, Marks(ids, pick), st, now) == RowAfterMarks(a1, id, rest, st, now) by {
        if pick(ids[0]).Some? {
          assert Marks(ids, pick)[1..] == rest;
        } else {
          assert Marks(ids, pick) == rest;
        }
      }
      if ids[0] == id {
        assert id !in ids[1..];
        MarksMiss(a1, id, ids[1..], pick, st, now);
      } else {
        MarksHit(a, id, ids[1..], pick, st, now);
      }
    }
  }

  lemma {:induction false} UpdatesMiss(meta: Meta, id: int, ids: seq<int>, pick: int -> Option<Object>)
    requires id !in ids
    ensures MetaAfter(meta, id, Updates(ids, pick)) == meta
    decreases |ids|
  {
    if ids != [] {
      UpdatesMiss(meta, id, ids[1..], pick);
      if pick(ids[0]).Some? {
        assert Updates(ids, pick)[1..] == Updates(ids[1..], pick);
      } else {
        assert Updates(ids, pick) == Updates(ids[1..], pick);
      }
    }
  }

  lemma {:induction false} UpdatesHit(meta: Meta, id: int, ids: seq<int>, pick: int -> Option<Object>)
    requires Increasing(ids) && GoParse(meta).Some? && pick(id) != Some(map[])
    ensures MetaAfter(meta, id, Updates(ids, pick))
         == if id in ids && pick(id).Some? then Obj(GoParse(meta).value + pick(id).value) else meta
    decreases |ids|
  {
    if ids != [] {
      var rest := Updates(ids[1..], pick);
      if pick(ids[0]).Some? {
        assert Updates(ids, pick)[1..] == rest;
      } else {
        assert Updates(ids, pick) == rest;
      }
      if ids[0] == id {
        assert id !in ids[1..];
        UpdatesMiss(meta, id, ids[1..], pick);
        if pick(id).Some? {
          UpdatesMiss(Obj(GoParse(meta).value + pick(id).value), id, ids[1..], pick);
        }
      } else {
        UpdatesHit(meta, id, ids[1..], pick);
      }
    }
  }

  function SessionRow(a: Action, jobs: string -> Job): Action {
    if SessionUpdate(a, jobs).Some? then a.(meta := Obj(GoParse(a.meta).value + SessionUpdate(a, jobs).value)) else a
  }

  function JobRow(a: Action, cfg: ReapConfig, env: ReapEnv, jobs: string -> Job): Action {
    if !HasDaemon(a) then a
    else
      var a1 := if env.sessions.fails then a else SessionRow(a, jobs);
      match Verdict(cfg, env.judged, a, jobs)
      case Keep => a1
      case FinishWith(result) => if env.dones.fails then a1 else FinishedRow(a1, Done, result, env.dones.at)
      case FailWith(reason) => if env.failures.fails then a1 else FinishedRow(a1, Failed, reason, env.failures.at)
  }

  /** The single outcome of one row, fixed by its status, age, mode and job and by which writes fail. */
  function ReapedRow(a: Action, cfg: ReapConfig, env: ReapEnv, jobs: string -> Job): Action {
    if !LocalRunning(a) then a
    else if HasDaemon(a) then JobRow(a, cfg, env, jobs)
    else if OlderThan(a, env.listed, cfg.grace) && !env.orphans.fails then
        FinishedRow(a, Failed, ORPHANED, env.orphans.at)
    else a
  }

  function OrphanRow(a: Action, cfg: ReapConfig, env: ReapEnv): Action {
    if IsOrphan(a, cfg.grace, env.listed) && !env.orphans.fails then FinishedRow(a, Failed, ORPHANED, env.orphans.at)
    else a
  }

  lemma ReapOrphansExact(s: Store, cfg: ReapConfig, env: ReapEnv)
    requires AllRunningReadable(s)
    ensures
      var s' := ReapOrphans(s, cfg, env);
      OnlyActionsDiffer(s, s') && forall id | id in s.actions :: s'.actions[id] == OrphanRow(s.actions[id], cfg, env)
  {
    hide Marks, BulkMarkFailed, AllRunningReadable, Ascending, RowAfterMarks;
    var orphans := set id | id in s.actions && IsOrphan(s.actions[id], cfg.grace, env.listed);
    var ids, pick := Ascending(orphans), _ => Some(ORPHANED);
    AscendingLists(orphans);
    MarksIds(ids, pick);
    BulkFailedRows(s, Marks(ids, pick), env.orphans.at);
    forall id | id in s.actions ensures ReapOrphans(s, cfg, env).actions[id] == OrphanRow(s.actions[id], cfg, env) {
      MarksHit(s.actions[id], id, ids, pick, Failed, env.orphans.at);
      assert id in ids <==> IsOrphan(s.actions[id], cfg.grace, env.listed);
    }
  }

  lemma {:induction false} UpdatesIds(ids: seq<int>, pick: int -> Option<Object>)
    ensures forall u | u in Updates(ids, pick) :: u.id in ids
    decreases |ids|
  {
    if ids != [] {
      UpdatesIds(ids[1..], pick);
    }
  }

  /** Recording session ids always commits and touches only the listed rows. */
  lemma SessionsExact(s: Store, ids: seq<int>, jobs: string -> Job)
    requires Increasing(ids) && forall id | id in ids :: id in s.actions && HasDaemon(s.actions[id])
    ensures
      var s1 := BulkMerge(s, Updates(ids, SessionPick(s, jobs))).0;
      OnlyActionsDiffer(s, s1) && forall id | id in s.actions ::
        s1.actions[id] == if id in ids then SessionRow(s.actions[id], jobs) else s.actions[id]
  {
    var pick := SessionPick(s, jobs);
    var us := Updates(ids, pick);
    UpdatesIds(ids, pick);
    forall u | u in us ensures u.id in s.actions && GoParse(s.actions[u.id].meta).Some? {
      assert HasDaemon(s.actions[u.id]);
    }
    MergeBatchOk(s, us);
    MergeBatchRows(s, us);
    forall id | id in s.actions
      ensures MetaAfter(s.actions[id].meta, id, us)
           == if id in ids then SessionRow(s.actions[id], jobs).meta else s.actions[id].meta
    {
      if id in ids {
        assert SessionUpdate(s.actions[id], jobs).Some? ==> SESSION in SessionUpdate(s.actions[id], jobs).value;
        UpdatesHit(s.actions[id].meta, id, ids, pick);
      } else {
        UpdatesMiss(s.actions[id].meta, id, ids, pick);
      }
    }
  }

  /** Marks of distinct listed running rows, row by row. */
  lemma MarksExact(s: Store, ids: seq<int>, pick: int -> Option<string>, st: Status, now: int)
    requires st == Done || st == Failed
    requires Increasing(ids) && forall id | id in ids :: id in s.actions
    requires st == Done ==> forall id | id in ids :: !IsTerminal(s.actions[id].status)
    ensures
      var us := Marks(ids, pick);
      var s' := if st == Done then BulkMarkDone(s, us, now).0 else BulkMarkFailed(s, us, now).0;
      OnlyActionsDiffer(s, s') && forall id | id in s.actions ::
        s'.actions[id] == if id in ids && pick(id).Some? then RowAfterMark(s.actions[id], st, pick(id).value, now)
                          else s.actions[id]
  {
    var us := Marks(ids, pick);
    MarksIds(ids, pick);
    assert AllExist(s, us);
    if st == Done {
      BulkDoneRows(s, us, now);
    } else {
      BulkFailedRows(s, us, now);
    }
    forall id | id in s.actions
      ensures RowAfterMarks(s.actions[id], id, us, st, now)
           == if id in ids && pick(id).Some? then RowAfterMark(s.actions[id], st, pick(id).value, now)
               else s.actions[id]
    {
      MarksHit(s.actions[id], id, ids, pick, st, now);
    }
  }

  /** One of the two mark transactions, which may fail. */
  lemma MarksWritten(s: Store, ids: seq<int>, pick: int -> Option<string>, st: Status, w: Write)
    requires st == Done || st == Failed
    requires Increasing(ids) && forall id | id in ids :: id in s.actions
    requires st == Done ==> forall id | id in ids :: !IsTerminal(s.actions[id].status)
    ensures
      var us := Marks(ids, pick);
      var s' := if w.fails then s else if st == Done then BulkMarkDone(s, us, w.at).0
          else BulkMarkFailed(s, us, w.at).0;
      OnlyActionsDiffer(s, s') && forall id | id in s.actions ::
        s'.actions[id] == if id in ids then PickedRow(s.actions[id], pick(id), st, w) else s.actions[id]
  {
    MarksExact(s, ids, pick, st, w.at);
  }

  function PickedRow(a: Action, picked: Option<string>, st: Status, w: Write): Action {
    if picked.Some? && !w.fails then RowAfterMark(a, st, picked.value, w.at) else a
  }

  /** The three writes one after the other on one listed row. */
  lemma JobRowInSteps(s: Store, cfg: ReapConfig, env: ReapEnv, jobs: string -> Job, id: int)
    requires id in s.actions && HasDaemon(s.actions[id])
    ensures
      var a1 := if env.sessions.fails then s.actions[id] else SessionRow(s.actions[id], jobs);
      var a2 := PickedRow(a1, DonePick(s, cfg, env.judged, jobs)(id), Done, env.dones);
      PickedRow(a2, FailPick(s, cfg, env.judged, jobs)(id), Failed, env.failures)
          == JobRow(s.actions[id], cfg, env, jobs)
  {
    hide Verdict, SessionUpdate;
  }

  lemma OnlySelf(s: Store)
    ensures OnlyActionsDiffer(s, s)
  {
  }

  lemma OnlyChain(s: Store, s1: Store, s2: Store)
    requires OnlyActionsDiffer(s, s1)
    ensures s1.actions.Keys == s.actions.Keys
    ensures s1 == s2 || OnlyActionsDiffer(s1, s2) ==> OnlyActionsDiffer(s, s2) && s2.actions.Keys == s.actions.Keys
  {
  }

  lemma UnlistedKept(s: Store, cfg: ReapConfig, env: ReapEnv, jobs: string -> Job)
    ensures forall id | id in s.actions && !HasDaemon(s.actions[id]) ::
        JobRow(s.actions[id], cfg, env, jobs) == s.actions[id]
  {
  }

  lemma ReapJobsExact(s: Store, cfg: ReapConfig, env: ReapEnv, jobs: string -> Job)
    requires AllRunningReadable(s)
    ensures
      var s' := ReapJobs(s, cfg, env, jobs);
      OnlyActionsDiffer(s, s') && forall id | id in s.actions :: s'.actions[id] == JobRow(s.actions[id], cfg, env, jobs)
  {
    hide BulkMerge, BulkMarkDone, BulkMarkFailed, Marks, Updates, HasDaemon, Verdict, SessionRow, Ascending,
         AllRunningReadable, PickedRow, JobRow, OnlyActionsDiffer, DonePick, FailPick, SessionPick;
    OnlySelf(s);
    var listed := set id | id in s.actions && HasDaemon(s.actions[id]);
    var ids := Ascending(listed);
    AscendingLists(listed);
    DaemonRunning(s, jobs);
    SessionsExact(s, ids, jobs);
    var s1 := if env.sessions.fails then s else BulkMerge(s, Updates(ids, SessionPick(s, jobs))).0;
    var done, failed := DonePick(s, cfg, env.judged, jobs), FailPick(s, cfg, env.judged, jobs);
    MarksWritten(s1, ids, done, Done, env.dones);
    var s2 := if env.dones.fails then s1 else BulkMarkDone(s1, Marks(ids, done), env.dones.at).0;
    MarksWritten(s2, ids, failed, Failed, env.failures);
    var s3 := ReapJobs(s, cfg, env, jobs);
    OnlyChain(s, s1, s2);
    OnlyChain(s, s2, s3);
    UnlistedKept(s, cfg, env, jobs);
    forall id | id in s.actions
      ensures ReapJobs(s, cfg, env, jobs).actions[id] == JobRow(s.actions[id], cfg, env, jobs)
    {
      if id in listed {
        JobRowInSteps(s, cfg, env, jobs, id);
      }
    }
  }

  lemma DaemonRunning(s: Store, jobs: string -> Job)
    ensures forall id | id in s.actions && HasDaemon(s.actions[id]) ::
              s.actions[id].status == Running && SessionRow(s.actions[id], jobs).status == Running
  {
  }

  /**
    One reap pass writes only running actions that do not run in the cloud, and gives each the single
    outcome of ReapedRow. With an unreadable running row both listings fail and nothing is reaped.
   */
  lemma ReapExact(s: Store, cfg: ReapConfig, env: ReapEnv, jobs: string -> Job)
    ensures
      var s' := Reap(s, cfg, env, jobs);
      && OnlyActionsDiffer(s, s')
      && forall id | id in s.actions ::
           s'.actions[id] == if AllRunningReadable(s) then ReapedRow(s.actions[id], cfg, env, jobs) else s.actions[id]
  {
    hide ReapJobs, ReapOrphans, Verdict, SessionUpdate, InPool;
    if AllRunningReadable(s) {
      ReapOrphansExact(s, cfg, env);
      var s1 := ReapOrphans(s, cfg, env);
      assert AllRunningReadable(s1) by {
        forall id | id in s1.actions && s1.actions[id].status == Running ensures SqlReadable(s1.actions[id].meta) {
          assert s1.actions[id] == OrphanRow(s.actions[id], cfg, env);
        }
      }
      ReapJobsExact(s1, cfg, env, jobs);
      forall id | id in s.actions
        ensures JobRow(OrphanRow(s.actions[id], cfg, env), cfg, env, jobs) == ReapedRow(s.actions[id], cfg, env, jobs)
      {
        if s.actions[id].startedAt.Some? {
          AgeTestsAgree(s.actions[id], env.listed, cfg.grace);
        }
      }
    } else {
      UnreadableUnreaped(s, cfg, env, jobs);
    }
  }

  lemma UnreadableUnreaped(s: Store, cfg: ReapConfig, env: ReapEnv, jobs: string -> Job)
    requires !AllRunningReadable(s)
    ensures Reap(s, cfg, env, jobs) == s
  {
  }

  /** Reaping never adds to a slot pool. */
  lemma ReapShrinksPools(s: Store, cfg: ReapConfig, env: ReapEnv, jobs: string -> Job, pool: Pool)
    ensures |RunningIn(Reap(s, cfg, env, jobs), pool)| <= |RunningIn(s, pool)|
  {
    var s' := Reap(s, cfg, env, jobs);
    ReapExact(s, cfg, env, jobs);
    hide Reap, Verdict, AllRunningReadable;
    forall id | id in RunningIn(s', pool) ensures id in RunningIn(s, pool) {
      SessionKeepsPool(s.actions[id], jobs, pool);
    }
    SubsetSize(RunningIn(s', pool), RunningIn(s, pool));
  }

  lemma SessionKeepsPool(a: Action, jobs: string -> Job, pool: Pool)
    ensures SessionUpdate(a, jobs).Some? && a.meta.Obj? ==>
              InPool(Obj(GoParse(a.meta).value + SessionUpdate(a, jobs).value), pool) == InPool(a.meta, pool)
  {
  }

  // ----- the outcome of every row, case by case -----

  predicate NamesJob(meta: Meta, short: string) {
    meta.Obj? && "daemon_short" in meta.m && meta.m["daemon_short"] == JStr(short) && short != ""
  }

  /** A running action that does not run in the cloud and names the background job `short`. */
  predicate RunsJob(a: Action, short: string) {
    && a.status == Running && NamesJob(a.meta, short)
    && !("executor" in a.meta.m && a.meta.m["executor"] == JStr("cloud"))
  }

  /** No running row whose metadata is not JSON, which would fail both listings. */
  predicate Listable(s: Store) {
    forall id | id in s.actions && s.actions[id].status == Running ::
      s.actions[id].meta.Obj? || s.actions[id].meta.NonObject?
  }

  predicate Aged(a: Action, now: int, age: int) {
    a.startedAt.Some? && now - a.startedAt.value * 1_000_000_000 >= age
  }

  /** The row with the session id its job reports, unless it has one already or the write fails. */
  function WithSession(a: Action, sessionId: string, w: Write): Action {
    if a.meta.Obj? && sessionId != "" && !w.fails
       && !("claude_session_id" in a.meta.m && a.meta.m["claude_session_id"].JStr?
            && a.meta.m["claude_session_id"].s != "")
    then a.(meta := Obj(a.meta.m["claude_session_id" := JStr(sessionId)]))
    else a
  }

  function Ended(a: Action, st: Status, text: string, w: Write): Action {
    if w.fails then a else a.(status := st, result := Some(text), completedAt := Some(w.at / 1_000_000_000))
  }

  lemma RunsJobListed(a: Action, short: string, jobs: string -> Job)
    requires RunsJob(a, short)
    ensures HasDaemon(a) && GoParse(a.meta) == Some(a.meta.m) && StringAt(a.meta.m, DAEMON_SHORT) == short
    ensures forall w: Write :: jobs(short).State? ==>
              (if w.fails then a else SessionRow(a, jobs)) == WithSession(a, jobs(short).sessionId, w)
  {
    if SessionUpdate(a, jobs).Some? {
      var id := jobs(short).sessionId;
      assert a.meta.m + map[SESSION := JStr(id)] == a.meta.m[SESSION := JStr(id)];
    }
  }

  /** The output of a finished job becomes the result of its action, at whatever age. */
  lemma DoneJobReaped(s: Store, cfg: ReapConfig, env: ReapEnv, jobs: string -> Job, id: int, short: string)
    requires Listable(s) && id in s.actions && RunsJob(s.actions[id], short)
    requires jobs(short).State? && jobs(short).state == "done"
    ensures
      var s', j := Reap(s, cfg, env, jobs), jobs(short);
      id in s'.actions && s'.actions[id]
          == Ended(WithSession(s.actions[id], j.sessionId, env.sessions), Done, j.result, env.dones)
  {
    hide Reap, WithSession, SessionRow, HasDaemon;
    ReapExact(s, cfg, env, jobs);
    RunsJobListed(s.actions[id], short, jobs);
  }

  /** A failed job fails its action with its detail, else its output, else a fixed text. */
  lemma FailedJobReaped(s: Store, cfg: ReapConfig, env: ReapEnv, jobs: string -> Job, id: int, short: string)
    requires Listable(s) && id in s.actions && RunsJob(s.actions[id], short)
    requires jobs(short).State? && jobs(short).state == "failed"
    ensures
      var s', j := Reap(s, cfg, env, jobs), jobs(short);
      var text := if j.detail != "" then j.detail else if j.result != "" then j.result
          else "bg session reported state=failed";
      id in s'.actions && s'.actions[id]
          == Ended(WithSession(s.actions[id], j.sessionId, env.sessions), Failed, text, env.failures)
  {
    hide Reap, WithSession, SessionRow, HasDaemon;
    ReapExact(s, cfg, env, jobs);
    RunsJobListed(s.actions[id], short, jobs);
  }

  /** Any other state ends the action exactly when it is noninteractive and past the hard timeout. */
  lemma OtherStateReaped(s: Store, cfg: ReapConfig, env: ReapEnv, jobs: string -> Job, id: int, short: string)
    requires Listable(s) && id in s.actions && RunsJob(s.actions[id], short)
    requires jobs(short).State? && jobs(short).state != "done" && jobs(short).state != "failed"
    ensures
      var s', a := Reap(s, cfg, env, jobs), s.actions[id];
      var row := WithSession(a, jobs(short).sessionId, env.sessions);
      var expired := "mode" in a.meta.m && a.meta.m["mode"] == JStr("noninteractive")
          && Aged(a, env.judged, cfg.hardTimeout);
      id in s'.actions && s'.actions[id]
          == if expired then Ended(row, Failed, "bg hard timeout elapsed", env.failures) else row
  {
    hide Reap, WithSession, SessionRow, HasDaemon;
    ReapExact(s, cfg, env, jobs);
    RunsJobListed(s.actions[id], short, jobs);
  }

  /** A job whose directory is missing fails the action exactly when the grace period is over. */
  lemma MissingJobReaped(s: Store, cfg: ReapConfig, env: ReapEnv, jobs: string -> Job, id: int, short: string)
    requires Listable(s) && id in s.actions && RunsJob(s.actions[id], short) && jobs(short).Missing?
    ensures
      var s', a := Reap(s, cfg, env, jobs), s.actions[id];
      id in s'.actions && s'.actions[id]
          == if Aged(a, env.judged, cfg.grace) then Ended(a, Failed, "daemon job dir missing", env.failures) else a
  {
    hide Reap, HasDaemon;
    ReapExact(s, cfg, env, jobs);
    RunsJobListed(s.actions[id], short, jobs);
  }

  /** A job file that cannot be read or decoded says nothing: the action keeps running. */
  lemma UnreadJobKept(s: Store, cfg: ReapConfig, env: ReapEnv, jobs: string -> Job, id: int, short: string)
    requires Listable(s) && id in s.actions && RunsJob(s.actions[id], short)
    requires jobs(short).Unreadable? || jobs(short).Undecodable?
    ensures
      var s' := Reap(s, cfg, env, jobs);
      id in s'.actions && s'.actions[id] == s.actions[id]
  {
    hide Reap, HasDaemon;
    ReapExact(s, cfg, env, jobs);
    RunsJobListed(s.actions[id], short, jobs);
  }

  /**
    Every other row: a running action without a job handle, not in the cloud, fails exactly when the grace
    period is over; no row beside those is written.
   */
  lemma JoblessReaped(s: Store, cfg: ReapConfig, env: ReapEnv, jobs: string -> Job, id: int)
    requires Listable(s) && id in s.actions && forall short :: !RunsJob(s.actions[id], short)
    ensures
      var s', a := Reap(s, cfg, env, jobs), s.actions[id];
      var orphan := a.status == Running && Aged(a, env.listed, cfg.grace)
          && (a.meta.Obj? ==>
                && !("executor" in a.meta.m && a.meta.m["executor"] == JStr("cloud"))
                && ("daemon_short" in a.meta.m ==> a.meta.m["daemon_short"] == JNull));
      id in s'.actions && s'.actions[id] == if orphan then Ended(a, Failed, "orphaned", env.orphans) else a
  {
    hide Reap;
    var a := s.actions[id];
    ReapExact(s, cfg, env, jobs);
    if a.meta.Obj? && "daemon_short" in a.meta.m && a.meta.m["daemon_short"].JStr? {
      assert !RunsJob(a, a.meta.m["daemon_short"].s);
    }
  }

  // ----- the three batches, entry by entry -----

  ghost predicate DoneEntry(a: Action, jobs: string -> Job, text: string) {
    exists short ::
      NamesJob(a.meta, short) && jobs(short).State? && jobs(short).state == "done" && text == jobs(short).result
  }

  ghost predicate FailureEntry(a: Action, cfg: ReapConfig, now: int, jobs: string -> Job, text: string) {
    exists short ::
      && NamesJob(a.meta, short)
      && match jobs(short)
         case Missing => Aged(a, now, cfg.grace) && text == "daemon job dir missing"
         case State(state, _, result, detail) =>
           if state == "failed" then
             text == if detail != "" then detail else if result != "" then result
                     else "bg session reported state=failed"
           else
             && state != "done" && "mode" in a.meta.m && a.meta.m["mode"] == JStr("noninteractive")
             && Aged(a, now, cfg.hardTimeout) && text == "bg hard timeout elapsed"
         case _ => false
  }

  ghost predicate SessionEntry(a: Action, jobs: string -> Job, updates: Object) {
    exists short ::
      && NamesJob(a.meta, short) && jobs(short).State? && jobs(short).sessionId != ""
      && !("claude_session_id" in a.meta.m && a.meta.m["claude_session_id"].JStr?
           && a.meta.m["claude_session_id"].s != "")
      && updates == map["claude_session_id" := JStr(jobs(short).sessionId)]
  }

  lemma EntriesSpelled(a: Action, cfg: ReapConfig, now: int, jobs: string -> Job)
    ensures forall text :: Verdict(cfg, now, a, jobs) == FinishWith(text) <==> DoneEntry(a, jobs, text)
    ensures forall text :: Verdict(cfg, now, a, jobs) == FailWith(text) <==> FailureEntry(a, cfg, now, jobs, text)
    ensures forall u :: SessionUpdate(a, jobs) == Some(u) <==> SessionEntry(a, jobs, u)
  {
    if GoParse(a.meta).Some? && StringAt(GoParse(a.meta).value, DAEMON_SHORT) != "" {
      var short := StringAt(GoParse(a.meta).value, DAEMON_SHORT);
      assert NamesJob(a.meta, short) && forall other | NamesJob(a.meta, other) :: other == short;
      assert StringAt(a.meta.m, "mode") == NONINTERACTIVE <==>
          "mode" in a.meta.m && a.meta.m["mode"] == JStr("noninteractive");
    } else {
      assert forall other :: !NamesJob(a.meta, other);
    }
  }

  lemma {:induction false} MarksMembers(ids: seq<int>, pick: int -> Option<string>)
    ensures forall id, text :: Mark(id, text) in Marks(ids, pick) <==> id in ids && pick(id) == Some(text)
    decreases |ids|
  {
    if ids != [] {
      MarksMembers(ids[1..], pick);
    }
  }

  lemma {:induction false} UpdatesMembers(ids: seq<int>, pick: int -> Option<Object>)
    ensures forall id, u :: MetaUpdate(id, u) in Updates(ids, pick) <==> id in ids && pick(id) == Some(u)
    decreases |ids|
  {
    if ids != [] {
      UpdatesMembers(ids[1..], pick);
    }
  }

  /** Which marks and merges the listed jobs ask for. */
  lemma BatchEntries(s: Store, cfg: ReapConfig, now: int, jobs: string -> Job, ids: seq<int>)
    requires forall id | id in ids :: id in s.actions
    ensures forall id, text :: Mark(id, text) in Marks(ids, DonePick(s, cfg, now, jobs)) <==>
              id in ids && DoneEntry(s.actions[id], jobs, text)
    ensures forall id, text :: Mark(id, text) in Marks(ids, FailPick(s, cfg, now, jobs)) <==>
              id in ids && FailureEntry(s.actions[id], cfg, now, jobs, text)
    ensures forall id, u :: MetaUpdate(id, u) in Updates(ids, SessionPick(s, jobs)) <==>
              id in ids && SessionEntry(s.actions[id], jobs, u)
  {
    MarksMembers(ids, DonePick(s, cfg, now, jobs));
    MarksMembers(ids, FailPick(s, cfg, now, jobs));
    UpdatesMembers(ids, SessionPick(s, jobs));
    forall id | id in ids
      ensures forall text :: DonePick(s, cfg, now, jobs)(id) == Some(text) <==> DoneEntry(s.actions[id], jobs, text)
      ensures forall text :: FailPick(s, cfg, now, jobs)(id) == Some(text) <==>
                FailureEntry(s.actions[id], cfg, now, jobs, text)
      ensures forall u :: SessionPick(s, jobs)(id) == Some(u) <==> SessionEntry(s.actions[id], jobs, u)
    {
      EntriesSpelled(s.actions[id], cfg, now, jobs);
    }
    hide Marks, Updates, Verdict, SessionUpdate, DoneEntry, FailureEntry, SessionEntry;
  }

  // ----- live interactive actions -----

  /** A job that is neither finished nor gone. */
  predicate JobLive(j: Job) {
    j.State? && j.state != "done" && j.state != "failed"
  }

  function ShortOf(meta: Meta): string {
    if meta.Obj? then StringAt(meta.m, DAEMON_SHORT) else ""
  }

  /** A running action with a background job whose mode is not noninteractive. */
  predicate RunsInteractively(a: Action) {
    a.status == Running && ShortOf(a.meta) != "" && StringAt(a.meta.m, "mode") != NONINTERACTIVE
  }

  /** Equal rows, apart from a session id recorded in the metadata. */
  ghost predicate SameButSession(a: Action, b: Action) {
    && b == a.(meta := b.meta) && a.meta.Obj? && b.meta.Obj?
    && a.meta.m.Keys <= b.meta.m.Keys <= a.meta.m.Keys + {SESSION}
    && forall k | k in a.meta.m && k != SESSION :: b.meta.m[k] == a.meta.m[k]
  }

  /**
    One pass leaves such an action running while its job is live, at every clock value and with no limit on
    its age.
   */
  lemma LivePass(s: Store, cfg: ReapConfig, env: ReapEnv, jobs: string -> Job, id: int)
    requires id in s.actions && RunsInteractively(s.actions[id]) && JobLive(jobs(ShortOf(s.actions[id].meta)))
    ensures
      var s' := Reap(s, cfg, env, jobs);
      id in s'.actions && SameButSession(s.actions[id], s'.actions[id]) && RunsInteractively(s'.actions[id])
      && ShortOf(s'.actions[id].meta) == ShortOf(s.actions[id].meta)
  {
    ReapExact(s, cfg, env, jobs);
    LiveRow(s.actions[id], cfg, env, jobs);
    hide Reap, ReapedRow;
  }

  lemma LiveRow(a: Action, cfg: ReapConfig, env: ReapEnv, jobs: string -> Job)
    requires RunsInteractively(a) && JobLive(jobs(ShortOf(a.meta)))
    ensures SameButSession(a, a) && RunsInteractively(a)
    ensures
      var row := ReapedRow(a, cfg, env, jobs);
      SameButSession(a, row) && RunsInteractively(row) && ShortOf(row.meta) == ShortOf(a.meta)
  {
    VerdictOnLive(cfg, env.judged, a, jobs);
    assert SESSION[0] != "mode"[0] && SESSION[0] != DAEMON_SHORT[0];
    assert DAEMON_SHORT in a.meta.m && SqlExtract(a.meta, DAEMON_SHORT).Some?;
  }

  datatype Pass = Pass(cfg: ReapConfig, env: ReapEnv, jobs: string -> Job)

  function ReapAll(s: Store, passes: seq<Pass>): Store
    decreases |passes|
  {
    if passes == [] then s else ReapAll(Reap(s, passes[0].cfg, passes[0].env, passes[0].jobs), passes[1..])
  }

  /**
    Through any sequence of passes, whatever the clocks, timeouts and failing writes, a running action
    that is not noninteractive stays running as long as its job is seen live, every column and every
    metadata key but the session id unchanged.
   */
  lemma {:induction false} LiveInteractiveKept(s: Store, passes: seq<Pass>, id: int)
    requires id in s.actions && RunsInteractively(s.actions[id])
    requires forall p | p in passes :: JobLive(p.jobs(ShortOf(s.actions[id].meta)))
    ensures id in ReapAll(s, passes).actions && SameButSession(s.actions[id], ReapAll(s, passes).actions[id])
    decreases |passes|
  {
    hide Reap, RunsInteractively, JobLive, ShortOf;
    if passes == [] {
      SameAsItself(s.actions[id]);
    } else {
      var p := passes[0];
      assert p in passes && forall q | q in passes[1..] :: q in passes;
      LivePass(s, p.cfg, p.env, p.jobs, id);
      LiveInteractiveKept(Reap(s, p.cfg, p.env, p.jobs), passes[1..], id);
    }
  }

  lemma SameAsItself(a: Action)
    requires RunsInteractively(a)
    ensures SameButSession(a, a)
  {
  }
}
