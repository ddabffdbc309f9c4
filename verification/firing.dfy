/** How often a schedule runs: one run per occurrence at most, and one active action per schedule. */
module Firing {
  import opened Types
  import opened Metadata
  import opened Sets
  import opened History
  import opened Schedules

  // ----- one active action per schedule -----

  ghost predicate OneActive(s: Store) {
    forall c: int, a, b | a in ActiveOf(s, c) && b in ActiveOf(s, c) :: a == b
  }

  /** A check inserts an action only for a schedule that has none active, and at most one for each. */
  lemma CheckKeepsOneActive(s: Store, cron: Cron, now: int, f: CheckFaults)
    requires Inv(s) && OneActive(s)
    ensures OneActive(CheckSchedules(s, cron, now, f).0)
  {
    var fired := CheckSchedulesExact(s, cron, now, f);
    hide Inv, CheckSchedules, Decide, Effect, RanRow;
    var s' := CheckSchedules(s, cron, now, f).0;
    forall c: int, a, b | a in ActiveOf(s', c) && b in ActiveOf(s', c) ensures a == b {
      OwnerOf(s, s', cron, now, f, fired, c, a);
      OwnerOf(s, s', cron, now, f, fired, c, b);
      if a !in s.actions && b !in s.actions {
        var i, j := a - s.next.action, b - s.next.action;
        assert i < j || j < i || i == j;
      }
    }
  }

  /** An active action of c after the check either was one before, or is the row c just fired and then c had none. */
  lemma OwnerOf(s: Store, s': Store, cron: Cron, now: int, f: CheckFaults, fired: seq<int>, c: int, a: int)
    requires Checked(s, s', cron, now, f, fired) && a in ActiveOf(s', c)
    ensures a in s.actions ==> a in ActiveOf(s, c)
    ensures a !in s.actions ==>
        s.next.action <= a < s.next.action + |fired| && fired[a - s.next.action] == c && ActiveOf(s, c) == {}
  {
    hide Decide, Effect, RanRow, ScheduleRef, Distinct;
    if a !in s.actions {
      FireSpec(s, cron, fired[a - s.next.action], now);
    }
  }

  /** A step after which every active action was active before and names the same schedule. */
  ghost predicate LinksShrink(s: Store, s': Store) {
    forall id | id in s'.actions && IsActive(s'.actions[id].status) ::
      && id in s.actions && IsActive(s.actions[id].status)
      && ScheduleRef(s'.actions[id].meta) == ScheduleRef(s.actions[id].meta)
  }

  lemma LinksShrinkKeeps(s: Store, s': Store)
    requires LinksShrink(s, s') && OneActive(s)
    ensures OneActive(s')
  {
    forall c: int, a, b | a in ActiveOf(s', c) && b in ActiveOf(s', c) ensures a == b {
      assert a in ActiveOf(s, c) && b in ActiveOf(s, c);
    }
  }

  // ----- occurrences -----

  /** The occurrences of an expression, and Next as the least one later than a given second. */
  ghost predicate IsNext(cron: Cron, expr: string, occurs: int -> bool) {
    forall t: int ::
      && cron.next(expr, t) > t && occurs(cron.next(expr, t))
      && forall o | t < o < cron.next(expr, t) :: !occurs(o)
  }

  function Occurrences(occurs: int -> bool, after: int, upTo: int): set<int> {
    set o | after < o <= upTo && occurs(o)
  }

  /** A schedule is due exactly when an occurrence lies after the second it counts from and no later than now. */
  lemma DueIffOccurrence(cron: Cron, c: Schedule, occurs: int -> bool, now: int)
    requires IsNext(cron, c.cron, occurs)
    ensures Due(cron, c, now) <==> exists o :: o in Occurrences(occurs, Base(c), Sec(now))
  {
    var n := cron.next(c.cron, Base(c));
    assert now == Sec(now) * SECOND + now % SECOND;
    if Due(cron, c, now) {
      assert n <= Sec(now);
      assert n in Occurrences(occurs, Base(c), Sec(now));
    } else {
      assert n * SECOND > Sec(now) * SECOND;
      forall o ensures o !in Occurrences(occurs, Base(c), Sec(now)) {
      }
    }
  }

  /**
    One stretch of a schedule's life: a check at some time, or anything that leaves its cron, base and
    identity alone.
   */
  datatype Stretch = Check(now: int, faults: CheckFaults) | Elsewhere(after: Store)

  predicate Untouched(s: Store, s': Store, c: int) {
    && c in s.schedules && c in s'.schedules
    && s'.schedules[c].cron == s.schedules[c].cron && Base(s'.schedules[c]) == Base(s.schedules[c])
  }

  function After(s: Store, cron: Cron, t: Stretch): Store {
    match t
    case Check(now, f) => CheckSchedules(s, cron, now, f).0
    case Elsewhere(s') => s'
  }

  /** Every state keeps the invariant, and stretches other than checks leave schedule c unedited. */
  ghost predicate Unedited(s: Store, cron: Cron, c: int, life: seq<Stretch>)
    decreases |life|
  {
    && Inv(s) && c in s.schedules
    && (life != [] ==>
          && (life[0].Elsewhere? ==> Untouched(s, life[0].after, c))
          && Unedited(After(s, cron, life[0]), cron, c, life[1..]))
  }

  predicate RunsNow(s: Store, cron: Cron, c: int, t: Stretch) {
    t.Check? && Effect(s, cron, c, t.now, t.faults) != Skip
  }

  /** The seconds at which schedule c ran, in order. */
  function Runs(s: Store, cron: Cron, c: int, life: seq<Stretch>): seq<int>
    decreases |life|
  {
    if life == [] then []
    else (if RunsNow(s, cron, c, life[0]) then [Sec(life[0].now)] else [])
         + Runs(After(s, cron, life[0]), cron, c, life[1..])
  }

  lemma CheckEffect(s: Store, cron: Cron, c: int, now: int, f: CheckFaults)
    requires Inv(s) && c in s.schedules
    ensures
      var s' := CheckSchedules(s, cron, now, f).0;
      && c in s'.schedules && s'.schedules[c].cron == s.schedules[c].cron
      && s'.schedules[c].createdAt == s.schedules[c].createdAt
      && (RunsNow(s, cron, c, Check(now, f)) ==> Due(cron, s.schedules[c], now) && Base(s'.schedules[c]) == Sec(now))
      && (!RunsNow(s, cron, c, Check(now, f)) ==> s'.schedules[c] == s.schedules[c])
  {
    var fired := CheckSchedulesExact(s, cron, now, f);
    if Decide(s, cron, c, now) != Skip {
      assert Due(cron, s.schedules[c], now);
    }
  }

  /** Each run is separated from the one before it, or from the starting base, by an occurrence. */
  ghost predicate Separated(occurs: int -> bool, base: int, runs: seq<int>)
    decreases |runs|
  {
    runs != [] ==> Occurrences(occurs, base, runs[0]) != {} && Separated(occurs, runs[0], runs[1..])
  }

  lemma {:induction false} RunsSeparated(s: Store, cron: Cron, c: int, life: seq<Stretch>, occurs: int -> bool)
    requires Unedited(s, cron, c, life) && IsNext(cron, s.schedules[c].cron, occurs)
    ensures Separated(occurs, Base(s.schedules[c]), Runs(s, cron, c, life))
    decreases |life|
  {
    hide Inv, CheckSchedules, Decide, AllActiveReadable, IsNext, Occurrences;
    if life != [] {
      var s' := After(s, cron, life[0]);
      if life[0].Check? {
        CheckEffect(s, cron, c, life[0].now, life[0].faults);
        DueIffOccurrence(cron, s.schedules[c], occurs, life[0].now);
      }
      RunsSeparated(s', cron, c, life[1..], occurs);
      if RunsNow(s, cron, c, life[0]) {
        assert Runs(s, cron, c, life)[1..] == Runs(s', cron, c, life[1..]);
      } else {
        assert Runs(s, cron, c, life) == Runs(s', cron, c, life[1..]);
      }
    }
  }

  lemma {:induction false} SeparatedCounts(occurs: int -> bool, base: int, runs: seq<int>)
    requires Separated(occurs, base, runs) && runs != []
    ensures |runs| <= |Occurrences(occurs, base, runs[|runs| - 1])| && base < runs[|runs| - 1]
    decreases |runs|
  {
    var first, last := runs[0], runs[|runs| - 1];
    var here := Occurrences(occurs, base, first);
    var o := Member(here);
    assert |here| >= 1;
    if |runs| > 1 {
      assert runs[1..][|runs[1..]| - 1] == last;
      SeparatedCounts(occurs, first, runs[1..]);
      var rest := Occurrences(occurs, first, last);
      assert here !! rest;
      assert |here + rest| == |here| + |rest|;
      SubsetSize(here + rest, Occurrences(occurs, base, last));
    }
  }

  /**
    Firing bound: an unedited schedule never runs more often than its cron expression occurs between the
    second it counts from and its last run; missed occurrences are caught up by a single run.
   */
  lemma FiringBound(s: Store, cron: Cron, c: int, life: seq<Stretch>, occurs: int -> bool)
    requires Unedited(s, cron, c, life) && IsNext(cron, s.schedules[c].cron, occurs)
    requires Runs(s, cron, c, life) != []
    ensures
      var runs := Runs(s, cron, c, life);
      |runs| <= |Occurrences(occurs, Base(s.schedules[c]), runs[|runs| - 1])|
  {
    RunsSeparated(s, cron, c, life, occurs);
    SeparatedCounts(occurs, Base(s.schedules[c]), Runs(s, cron, c, life));
  }

  /** A due schedule that does not run now is still due at every later check until it runs or is edited. */
  lemma {:induction false} StaysDue(s: Store, cron: Cron, c: int, life: seq<Stretch>, now: int, later: int)
    requires Unedited(s, cron, c, life) && Due(cron, s.schedules[c], now) && now <= later
    requires Runs(s, cron, c, life) == []
    ensures c in AfterAll(s, cron, life).schedules && Due(cron, AfterAll(s, cron, life).schedules[c], later)
    decreases |life|
  {
    if life != [] {
      if life[0].Check? {
        CheckEffect(s, cron, c, life[0].now, life[0].faults);
      }
      StaysDue(After(s, cron, life[0]), cron, c, life[1..], now, later);
    }
  }

  function AfterAll(s: Store, cron: Cron, life: seq<Stretch>): Store
    decreases |life|
  {
    if life == [] then s else AfterAll(After(s, cron, life[0]), cron, life[1..])
  }

  /** The bound rests on Next moving forward: if it does not, the schedule is due again right after every run. */
  lemma DueAgainIff(s: Store, cron: Cron, c: int, now: int, f: CheckFaults)
    requires Inv(s) && c in s.schedules && RunsNow(s, cron, c, Check(now, f))
    ensures
      var s' := CheckSchedules(s, cron, now, f).0;
      c in s'.schedules && (Due(cron, s'.schedules[c], now) <==> cron.next(s.schedules[c].cron, Sec(now)) <= Sec(now))
  {
    CheckEffect(s, cron, c, now, f);
    var n := cron.next(s.schedules[c].cron, Sec(now));
    assert now == Sec(now) * SECOND + now % SECOND;
    if n > Sec(now) {
      assert n * SECOND >= (Sec(now) + 1) * SECOND;
    }
  }
}
