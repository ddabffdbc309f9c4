/** Why the queue empties: claims come out in id order, and acyclic edges never deadlock. */
module Drain {
  import opened Types
  import opened Sets
  import opened Graph
  import opened Rows
  import opened History
  import opened Dependencies
  import opened Actions

  // ----- gates depend on `done` only -----

  /** s' is s with one row of actions replaced, as far as eligibility can see. */
  ghost predicate OneRow(s: Store, s': Store, id: int, a: Action) {
    && s'.actions == s.actions[id := a]
    && s'.projects == s.projects && s'.tasks == s.tasks && s'.edges == s.edges
  }

  lemma RowKeepsGates(s: Store, s': Store, id: int, a: Action, i: int)
    requires id in s.actions && (a.status.Done? <==> s.actions[id].status.Done?) && OneRow(s, s', id, a)
    ensures GateOpen(s', i) <==> GateOpen(s, i)
  {
    assert EdgesOf(s', i) == EdgesOf(s, i);
    forall d | d in EdgesOf(s, i) ensures Satisfied(s', d) <==> Satisfied(s, d) {
    }
  }

  /** A pending row that is claimed or deferred leaves the eligible set; nothing enters it. */
  lemma RowLeavesEligible(s: Store, s': Store, id: int, a: Action, clock: int)
    requires id in s.actions && s.actions[id].status == Pending && !a.status.Done? && OneRow(s, s', id, a)
    requires a.status != Pending || (a.dispatchAfter.Some? && a.dispatchAfter.value > Sec(clock))
    ensures EligibleIds(s', clock) == EligibleIds(s, clock) - {id}
  {
    forall i | i in s.actions ensures i in EligibleIds(s', clock) <==> i in EligibleIds(s, clock) - {id} {
      RowKeepsGates(s, s', id, a, i);
    }
  }

  /** NextPending claims the least eligible id, and nothing exactly when CountPendingByDispatch counts nothing. */
  lemma NextPendingLeast(s: Store, now: int)
    ensures NextPending(s, now).1.None? <==> Dispatchable(s, now) == 0
    ensures NextPending(s, now).1.Some? ==>
              && Eligible(s, now, NextPending(s, now).1.value)
              && forall id | Eligible(s, now, id) :: NextPending(s, now).1.value <= id
  {
    forall id | Eligible(s, now, id) ensures id in EligibleIds(s, now) {
    }
  }

  /**
    What the query asks for: pending, its time come, its project focused, every action it waits for done and
    every task it waits for done or archived.
   */
  ghost predicate MayBeClaimed(s: Store, now: int, id: int) {
    && id in s.actions && s.actions[id].status == Pending
    && (s.actions[id].dispatchAfter.Some? ==> s.actions[id].dispatchAfter.value <= now / 1_000_000_000)
    && s.actions[id].taskId in s.tasks && s.tasks[s.actions[id].taskId].projectId in s.projects
    && s.projects[s.tasks[s.actions[id].taskId].projectId].dispatchEnabled
    && forall e | e in s.edges && e.owner == id ::
         || (e.kind == OnAction && e.id in s.actions && s.actions[e.id].status == Done)
         || (e.kind == OnTask && e.id in s.tasks && s.tasks[e.id].status in {TaskDone, Archived})
  }

  /** The claim takes the least such action, sets its status and start second, announces it, and writes nothing else. */
  lemma NextPendingColumns(s: Store, now: int)
    ensures
      var (s', next) := NextPending(s, now);
      && (forall id :: next == Some(id) <==> MayBeClaimed(s, now, id) && forall j | MayBeClaimed(s, now, j) :: id <= j)
      && (next == None <==> forall j :: !MayBeClaimed(s, now, j))
      && (next == None ==> s' == s)
      && (next.Some? && next.value in s.actions ==>
            && s'.actions == s.actions[next.value := s.actions[next.value].(
                 status := Running, startedAt := Some(now / 1_000_000_000))]
            && s'.events == s.events + [Claimed(next.value)]
            && s' == s.(actions := s'.actions, counts := s'.counts, events := s'.events))
  {
    forall id ensures id in EligibleIds(s, now) <==> MayBeClaimed(s, now, id) {
      EligibleSpelled(s, now, id);
    }
    hide Eligible, MayBeClaimed;
  }

  lemma EligibleSpelled(s: Store, now: int, id: int)
    ensures Eligible(s, now, id) <==> MayBeClaimed(s, now, id)
  {
    if id in s.actions {
      assert GateOpen(s, id) <==> forall e | e in s.edges && e.owner == id :: Satisfied(s, e);
    }
  }

  /** A new action is not claimed before the second it was postponed to. */
  lemma PostponedWaits(s: Store, spec: ActionSpec, deps: seq<Dep>, now: int)
    requires InsertAction(s, spec, deps).1.Ok? && spec.dispatchAfter.Some? && now < spec.dispatchAfter.value * SECOND
    ensures var (s', r) := InsertAction(s, spec, deps); NextPending(s', now).1 != Some(r.value)
  {
    var (s', r) := InsertAction(s, spec, deps);
    InsertActionColumns(s, spec, deps);
    NextPendingColumns(s', now);
    hide InsertAction, NextPending;
  }

  // ----- repeated claims -----

  /** NextPending until it finds nothing. */
  function ClaimAll(s: Store, now: int): (Store, seq<int>)
    decreases |EligibleIds(s, now)|
  {
    if EligibleIds(s, now) == {} then (s, [])
    else
      var id := Min(EligibleIds(s, now));
      var a := s.actions[id].(status := Running, startedAt := Some(Sec(now)));
      RowLeavesEligible(s, Claim(s, id, now), id, a, now);
      var (s', ids) := ClaimAll(Claim(s, id, now), now);
      (s', [id] + ids)
  }

  /**
    At a fixed clock the claims are the eligible actions in increasing id order, as many as
    CountPendingByDispatch counted.
   */
  lemma {:induction false} ClaimAllExact(s: Store, now: int)
    ensures ClaimAll(s, now).1 == Ascending(EligibleIds(s, now))
    ensures Increasing(ClaimAll(s, now).1) && |ClaimAll(s, now).1| == Dispatchable(s, now)
    ensures forall id :: id in ClaimAll(s, now).1 <==> Eligible(s, now, id)
    ensures EligibleIds(ClaimAll(s, now).0, now) == {}
    decreases |EligibleIds(s, now)|
  {
    if EligibleIds(s, now) != {} {
      var id := Min(EligibleIds(s, now));
      RowLeavesEligible(s, Claim(s, id, now), id, s.actions[id].(status := Running, startedAt := Some(Sec(now))), now);
      ClaimAllExact(Claim(s, id, now), now);
    }
    AscendingLists(EligibleIds(s, now));
  }

  // ----- topological drain -----

  function PendingIds(s: Store): set<int> {
    set id | id in s.actions && s.actions[id].status == Pending
  }

  /** Every action is pending or done, focused, due, and waits for actions only. */
  ghost predicate PlainQueue(s: Store) {
    && (forall id | id in s.actions ::
          && (s.actions[id].status == Pending || s.actions[id].status == Done)
          && s.actions[id].dispatchAfter.None?)
    && (forall p | p in s.projects :: s.projects[p].dispatchEnabled)
    && (forall e | e in s.edges :: e.kind == OnAction)
  }

  /** Following unsatisfied edges from a pending action meets an open gate, because it can never come back. */
  lemma {:induction false} OpenGateBelow(s: Store, a: int, visited: set<int>) returns (open: int)
    requires Core(s) && PlainQueue(s) && a in PendingIds(s) && visited <= s.actions.Keys - {a}
    requires forall v | v in visited :: Reaches(s.edges, v, a)
    ensures open in PendingIds(s) && GateOpen(s, open)
    decreases s.actions.Keys - visited
  {
    if GateOpen(s, a) {
      return a;
    }
    var e :| e in EdgesOf(s, a) && !Satisfied(s, e);
    assert EdgeSound(s.actions, s.tasks, e);
    var b := e.id;
    assert Waits(s.edges, a, b);
    ReachesSelf(s.edges, a);
    ReachesSelf(s.edges, b);
    StepReaches(s.edges, a, b, b);
    forall v | v in visited + {a} ensures Reaches(s.edges, v, b) && v != b {
      ReachesTransitive(s.edges, v, a, b);
    }
    open := OpenGateBelow(s, b, visited + {a});
  }

  /** No deadlock: while every action is pending or done and one is pending, something is eligible. */
  lemma SomethingEligible(s: Store, now: int)
    requires Core(s) && PlainQueue(s) && PendingIds(s) != {}
    ensures EligibleIds(s, now) != {}
  {
    var a := Member(PendingIds(s));
    var open := OpenGateBelow(s, a, {});
    assert open in EligibleIds(s, now);
  }

  /** What one round of claiming and finishing meets: the two clock readings and the output reported. */
  datatype Round = Round(claimAt: int, doneAt: int, output: string)

  function FinishNext(s: Store, id: int, r: Round): Store
    requires id in s.actions
  {
    MarkTerminal(Claim(s, id, r.claimAt), id, Done, r.output, r.doneAt).0
  }

  /** NextPending then MarkDone, repeated from the n-th round until nothing is eligible. */
  function DrainAll(s: Store, rounds: nat -> Round, n: nat): (Store, seq<int>)
    decreases |PendingIds(s)|
  {
    var (s1, next) := NextPending(s, rounds(n).claimAt);
    if next.None? then (s1, [])
    else
      assert PendingIds(FinishNext(s, next.value, rounds(n))) == PendingIds(s) - {next.value};
      var (s', ids) := DrainAll(MarkTerminal(s1, next.value, Done, rounds(n).output, rounds(n).doneAt).0, rounds,
          n + 1);
      (s', [next.value] + ids)
  }

  /** Every blocker of an action in the order comes before it, or was done at the start. */
  ghost predicate BlockersFirst(s: Store, order: seq<int>) {
    forall i | 0 <= i < |order| :: forall e | e in EdgesOf(s, order[i]) ::
      e.id in order[..i] || (e.id in s.actions && s.actions[e.id].status.Done?)
  }

  lemma FinishNextInv(s: Store, id: int, r: Round)
    requires Inv(s) && id in PendingIds(s)
    ensures Inv(FinishNext(s, id, r))
  {
    hide Inv;
    ClaimAdvances(s, id, r.claimAt);
    MarkTerminalAdvances(Claim(s, id, r.claimAt), id, Done, r.output, r.doneAt);
  }

  lemma FinishNextRow(s: Store, id: int, r: Round)
    requires id in PendingIds(s)
    ensures
      var s1 := FinishNext(s, id, r);
      && s1.edges == s.edges && s1.projects == s.projects && s1.tasks == s.tasks
      && s1.actions == s.actions[id := s.actions[id].(status := Done, result := Some(r.output),
                                                      startedAt := Some(Sec(r.claimAt)),
                                                          completedAt := Some(Sec(r.doneAt)))]
  {
  }

  lemma FinishNextPlain(s: Store, id: int, r: Round)
    requires Inv(s) && PlainQueue(s) && id in PendingIds(s)
    ensures Inv(FinishNext(s, id, r)) && PlainQueue(FinishNext(s, id, r))
    ensures
      var s1 := FinishNext(s, id, r);
      && PendingIds(s1) == PendingIds(s) - {id} && s1.edges == s.edges && s1.actions.Keys == s.actions.Keys
      && (forall x | x in s.actions && x != id :: s1.actions[x] == s.actions[x])
      && s1.actions[id].status == Done && s1.actions[id].result == Some(r.output)
  {
    hide Inv, FinishNext;
    FinishNextInv(s, id, r);
    FinishNextRow(s, id, r);
  }

  lemma PrependFirst(s: Store, s1: Store, id: int, rest: seq<int>)
    requires s1.edges == s.edges && BlockersFirst(s1, rest)
    requires forall x | x in s1.actions && s1.actions[x].status.Done? ::
               x == id || (x in s.actions && s.actions[x].status.Done?)
    requires GateOpen(s, id) && PlainQueue(s)
    ensures BlockersFirst(s, [id] + rest)
  {
    var order := [id] + rest;
    forall i, e | 0 <= i < |order| && e in EdgesOf(s, order[i])
      ensures e.id in order[..i] || (e.id in s.actions && s.actions[e.id].status.Done?)
    {
      if i == 0 {
        assert Satisfied(s, e);
      } else {
        assert e in EdgesOf(s1, rest[i - 1]);
        assert order[..i] == [id] + rest[..i - 1];
      }
    }
  }

  lemma DrainedWhenStuck(s: Store, now: int)
    requires Inv(s) && PlainQueue(s) && EligibleIds(s, now) == {}
    ensures PendingIds(s) == {} && forall id | id in s.actions :: s.actions[id].status == Done
  {
    if PendingIds(s) != {} {
      SomethingEligible(s, now);
    }
    assert forall id | id in s.actions :: id !in PendingIds(s);
  }

  /** Each action of the order has the output of its round; every other row is as it was. */
  ghost predicate Drained(s: Store, s': Store, rounds: nat -> Round, n: nat, order: seq<int>) {
    && s'.actions.Keys == s.actions.Keys
    && (forall i | 0 <= i < |order| ::
          order[i] in s'.actions && s'.actions[order[i]].result == Some(rounds(n + i).output))
    && (forall id | id in s.actions && id !in order :: s'.actions[id] == s.actions[id])
  }

  lemma PrependDrained(s: Store, s1: Store, s': Store, rounds: nat -> Round, n: nat, id: int, rest: seq<int>)
    requires id in s1.actions && id !in rest && s1.actions[id].result == Some(rounds(n).output)
    requires s1.actions.Keys == s.actions.Keys && forall x | x in s.actions && x != id :: s1.actions[x] == s.actions[x]
    requires Drained(s1, s', rounds, n + 1, rest)
    ensures Drained(s, s', rounds, n, [id] + rest)
  {
    var order := [id] + rest;
    forall i | 0 <= i < |order|
      ensures order[i] in s'.actions && s'.actions[order[i]].result == Some(rounds(n + i).output)
    {
      if i > 0 {
        assert order[i] == rest[i - 1] && rounds(n + i) == rounds(n + 1 + (i - 1));
      }
    }
  }

  /**
    Whatever the clock says at each claim and mark and whatever each action reports, the drain runs once
    per pending action, finishes them all with the outputs reported, and claims each only after its blockers.
   */
  lemma {:induction false} TopologicalDrain(s: Store, rounds: nat -> Round, n: nat)
    requires Inv(s) && PlainQueue(s)
    ensures
      var (s', order) := DrainAll(s, rounds, n);
      && |order| == |PendingIds(s)| && (forall id :: id in order <==> id in PendingIds(s))
      && (forall id | id in s'.actions :: s'.actions[id].status == Done)
      && Drained(s, s', rounds, n, order) && BlockersFirst(s, order)
    decreases |PendingIds(s)|
  {
    hide Inv, PlainQueue, FinishNext, Drained, BlockersFirst, EligibleIds, DrainAll, GateOpen;
    var now := rounds(n).claimAt;
    if EligibleIds(s, now) == {} {
      DrainedWhenStuck(s, now);
      NothingDrained(s, rounds, n);
    } else {
      var id := Min(EligibleIds(s, now));
      DrainStep(s, rounds, n);
      var s1 := FinishNext(s, id, rounds(n));
      FinishNextPlain(s, id, rounds(n));
      TopologicalDrain(s1, rounds, n + 1);
      PrependFirst(s, s1, id, DrainAll(s1, rounds, n + 1).1);
      PrependDrained(s, s1, DrainAll(s1, rounds, n + 1).0, rounds, n, id, DrainAll(s1, rounds, n + 1).1);
    }
  }

  lemma NothingDrained(s: Store, rounds: nat -> Round, n: nat)
    requires EligibleIds(s, rounds(n).claimAt) == {} && PendingIds(s) == {}
    ensures DrainAll(s, rounds, n) == (s, []) && Drained(s, s, rounds, n, []) && BlockersFirst(s, [])
  {
  }

  lemma DrainStep(s: Store, rounds: nat -> Round, n: nat)
    requires EligibleIds(s, rounds(n).claimAt) != {}
    ensures Min(EligibleIds(s, rounds(n).claimAt)) in s.actions && GateOpen(s, Min(EligibleIds(s, rounds(n).claimAt)))
    ensures
      var id := Min(EligibleIds(s, rounds(n).claimAt));
      var rest := DrainAll(FinishNext(s, id, rounds(n)), rounds, n + 1);
      DrainAll(s, rounds, n) == (rest.0, [id] + rest.1) && id in PendingIds(s)
  {
  }

  // ----- what a drain finishes from any state -----

  /** Pending, focused and due: eligible up to the gate. */
  predicate Ready(s: Store, now: int, id: int) {
    && id in s.actions && s.actions[id].status == Pending
    && var a := s.actions[id];
    && a.taskId in s.tasks && s.tasks[a.taskId].projectId in s.projects
    && s.projects[s.tasks[a.taskId].projectId].dispatchEnabled
    && (a.dispatchAfter.None? || a.dispatchAfter.value <= Sec(now))
  }

  /** No claim of this drain can take the action, whatever it finishes before. */
  predicate Hopeless(s: Store, now: int, id: int) {
    !Ready(s, now, id) || exists e :: e in EdgesOf(s, id) && e.kind != OnAction && !Satisfied(s, e)
  }

  /** a waits for an action that is not done. */
  predicate Unmet(s: Store, a: int, b: int) {
    Edge(a, OnAction, b) in s.edges && !Satisfied(s, Edge(a, OnAction, b))
  }

  /** p lists the actions visited after a along unmet dependencies, ending in b. */
  ghost predicate WaitWalk(s: Store, a: int, b: int, p: seq<int>)
    decreases |p|
  {
    if p == [] then a == b else Unmet(s, a, p[0]) && WaitWalk(s, p[0], b, p[1..])
  }

  /** Along unmet dependencies the action waits for one that cannot be taken, or is such a one. */
  ghost predicate Blocked(s: Store, now: int, id: int) {
    exists b, p :: WaitWalk(s, id, b, p) && Hopeless(s, now, b)
  }

  lemma HopelessBlocked(s: Store, now: int, id: int)
    requires Hopeless(s, now, id)
    ensures Blocked(s, now, id)
  {
    assert WaitWalk(s, id, id, []);
  }

  lemma WaitingBlocked(s: Store, now: int, a: int, b: int)
    requires Unmet(s, a, b) && Blocked(s, now, b)
    ensures Blocked(s, now, a)
  {
    var c, p :| WaitWalk(s, b, c, p) && Hopeless(s, now, c);
    assert ([b] + p)[1..] == p;
    assert WaitWalk(s, a, c, [b] + p);
  }

  /** Below an action that is not blocked there is one to claim, because unmet edges never come back. */
  lemma {:induction false} EligibleBelow(s: Store, now: int, a: int, visited: set<int>)
    requires Core(s) && !Blocked(s, now, a) && visited <= s.actions.Keys - {a}
    requires forall v | v in visited :: Reaches(s.edges, v, a)
    ensures EligibleIds(s, now) != {}
    decreases s.actions.Keys - visited
  {
    if Hopeless(s, now, a) {
      HopelessBlocked(s, now, a);
    }
    if GateOpen(s, a) {
      assert a in EligibleIds(s, now);
    } else {
      var e :| e in EdgesOf(s, a) && !Satisfied(s, e);
      var b := e.id;
      assert e == Edge(a, OnAction, b) && Unmet(s, a, b);
      if Blocked(s, now, b) {
        WaitingBlocked(s, now, a, b);
      }
      assert EdgeSound(s.actions, s.tasks, e);
      assert Waits(s.edges, a, b);
      ReachesSelf(s.edges, a);
      ReachesSelf(s.edges, b);
      StepReaches(s.edges, a, b, b);
      forall v | v in visited + {a} ensures Reaches(s.edges, v, b) && v != b {
        ReachesTransitive(s.edges, v, a, b);
      }
      EligibleBelow(s, now, b, visited + {a});
    }
  }

  /** s1 is s with the eligible action x finished. */
  ghost predicate Finished(s: Store, s1: Store, x: int) {
    && s1.edges == s.edges && s1.projects == s.projects && s1.tasks == s.tasks
    && x in s1.actions && s1.actions[x].status == Done && s1.actions.Keys == s.actions.Keys
    && forall i | i in s.actions && i != x :: s1.actions[i] == s.actions[i]
  }

  lemma FinishedViews(s: Store, s1: Store, now: int, x: int)
    requires Finished(s, s1, x) && Eligible(s, now, x)
    ensures forall b :: !Unmet(s, x, b)
    ensures forall a :: !Unmet(s1, a, x)
    ensures forall a, b | b != x :: Unmet(s1, a, b) == Unmet(s, a, b)
    ensures !Hopeless(s, now, x)
    ensures forall i | i != x :: Hopeless(s1, now, i) == Hopeless(s, now, i)
  {
    forall b ensures !Unmet(s, x, b) {
      assert Edge(x, OnAction, b) in s.edges ==> Edge(x, OnAction, b) in EdgesOf(s, x);
    }
    forall i | i != x ensures Hopeless(s1, now, i) == Hopeless(s, now, i) {
      assert EdgesOf(s1, i) == EdgesOf(s, i);
      forall e | e in EdgesOf(s, i) && e.kind != OnAction ensures Satisfied(s1, e) == Satisfied(s, e) {
      }
    }
  }

  lemma StandsStill(s: Store, x: int, b: int, p: seq<int>)
    requires forall c :: !Unmet(s, x, c)
    ensures WaitWalk(s, x, b, p) ==> b == x
  {
  }

  /** Finishing an eligible action changes nothing about which others are blocked. */
  lemma {:induction false} WalkKept(s: Store, s1: Store, now: int, x: int, a: int, b: int, p: seq<int>)
    requires Finished(s, s1, x) && Eligible(s, now, x) && a != x
    ensures WaitWalk(s, a, b, p) && Hopeless(s, now, b) ==> WaitWalk(s1, a, b, p) && Hopeless(s1, now, b)
    ensures WaitWalk(s1, a, b, p) && Hopeless(s1, now, b) ==> WaitWalk(s, a, b, p) && Hopeless(s, now, b)
    decreases |p|
  {
    FinishedViews(s, s1, now, x);
    hide Finished, Hopeless, Unmet, Eligible;
    if p != [] && p[0] != x {
      WalkKept(s, s1, now, x, p[0], b, p[1..]);
    } else if p != [] {
      assert !Unmet(s1, a, x);
      StandsStill(s, x, b, p[1..]);
    }
  }

  lemma BlockedKept(s: Store, s1: Store, now: int, x: int, i: int)
    requires Finished(s, s1, x) && Eligible(s, now, x) && i != x
    ensures Blocked(s1, now, i) <==> Blocked(s, now, i)
  {
    hide Finished, Hopeless, Eligible, WaitWalk;
    forall b, p
      ensures WaitWalk(s, i, b, p) && Hopeless(s, now, b) ==> WaitWalk(s1, i, b, p) && Hopeless(s1, now, b)
      ensures WaitWalk(s1, i, b, p) && Hopeless(s1, now, b) ==> WaitWalk(s, i, b, p) && Hopeless(s, now, b)
    {
      WalkKept(s, s1, now, x, i, b, p);
    }
  }

  lemma TakenUnblocked(s: Store, now: int, x: int)
    requires Eligible(s, now, x)
    ensures !Blocked(s, now, x)
  {
    forall b ensures !Unmet(s, x, b) {
      assert Edge(x, OnAction, b) in s.edges ==> Edge(x, OnAction, b) in EdgesOf(s, x);
    }
    forall b, p | WaitWalk(s, x, b, p) ensures !Hopeless(s, now, b) {
      StandsStill(s, x, b, p);
    }
  }

  /** Every dependency of an action in the order was satisfied at the start or is met by an earlier one. */
  ghost predicate BlockersBefore(s: Store, order: seq<int>) {
    forall i, e | 0 <= i < |order| && e in EdgesOf(s, order[i]) ::
      Satisfied(s, e) || (e.kind == OnAction && e.id in order[..i])
  }

  lemma PrependBefore(s: Store, s1: Store, x: int, rest: seq<int>)
    requires Finished(s, s1, x) && GateOpen(s, x) && BlockersBefore(s1, rest)
    ensures BlockersBefore(s, [x] + rest)
  {
    var order := [x] + rest;
    forall i, e | 0 <= i < |order| && e in EdgesOf(s, order[i])
      ensures Satisfied(s, e) || (e.kind == OnAction && e.id in order[..i])
    {
      if i > 0 {
        assert e in EdgesOf(s1, rest[i - 1]) && order[..i] == [x] + rest[..i - 1];
      }
    }
  }

  predicate NoRepeats(order: seq<int>) {
    forall i, j | 0 <= i < j < |order| :: order[i] != order[j]
  }

  /**
    From any valid state, all claims falling within one second, the drain takes each action at most once and
    exactly those that are not blocked: the pending, focused, due ones from which no action that is failed,
    cancelled, running, dispatched, unfocused or not due, and none with an open task, can be reached
    along unmet dependencies.
   */
  lemma {:induction false} DrainsUnblocked(s: Store, rounds: nat -> Round, n: nat, now: int)
    requires Inv(s) && forall k :: Sec(rounds(k).claimAt) == Sec(now)
    ensures
      var (s', order) := DrainAll(s, rounds, n);
      && NoRepeats(order) && (forall id :: id in order <==> id in s.actions && !Blocked(s, now, id))
      && Drained(s, s', rounds, n, order) && (forall id | id in order :: s'.actions[id].status == Done)
      && BlockersBefore(s, order)
    decreases |PendingIds(s)|
  {
    hide Inv, FinishNext, Drained, BlockersBefore, EligibleIds, Eligible, DrainAll, GateOpen, Blocked, Finished;
    SameSecond(s, rounds(n).claimAt, now);
    if EligibleIds(s, now) == {} {
      forall id | id in s.actions ensures Blocked(s, now, id) {
        if !Blocked(s, now, id) {
          InvCore(s);
          EligibleBelow(s, now, id, {});
        }
      }
      EmptyDrain(s, rounds, n);
    } else {
      var x := Min(EligibleIds(s, now));
      DrainStep(s, rounds, n);
      var s1 := FinishNext(s, x, rounds(n));
      FinishNextAny(s, x, rounds(n), now);
      DrainsUnblocked(s1, rounds, n + 1, now);
      var (s', rest) := DrainAll(s1, rounds, n + 1);
      TakenUnblocked(s, now, x);
      forall i | i != x ensures Blocked(s1, now, i) <==> Blocked(s, now, i) {
        BlockedKept(s, s1, now, x, i);
      }
      PrependBefore(s, s1, x, rest);
      DrainedHead(s, s1, s', rounds, n, x, rest);
      NoRepeatsFirst(x, rest);
    }
  }

  lemma NoRepeatsFirst(x: int, rest: seq<int>)
    requires NoRepeats(rest) && x !in rest
    ensures NoRepeats([x] + rest)
  {
  }

  lemma InvCore(s: Store)
    requires Inv(s)
    ensures Core(s)
  {
  }

  lemma SameSecond(s: Store, t: int, now: int)
    requires Sec(t) == Sec(now)
    ensures EligibleIds(s, t) == EligibleIds(s, now)
  {
  }

  lemma EmptyDrain(s: Store, rounds: nat -> Round, n: nat)
    requires EligibleIds(s, rounds(n).claimAt) == {}
    ensures DrainAll(s, rounds, n) == (s, []) && Drained(s, s, rounds, n, []) && BlockersBefore(s, [])
  {
  }

  lemma FinishNextAny(s: Store, x: int, r: Round, now: int)
    requires Inv(s) && x in EligibleIds(s, now)
    ensures
      var s1 := FinishNext(s, x, r);
      && Inv(s1) && Finished(s, s1, x) && s1.actions.Keys == s.actions.Keys
      && PendingIds(s1) == PendingIds(s) - {x} && x in PendingIds(s)
      && Eligible(s, now, x) && GateOpen(s, x) && x in s1.actions && s1.actions[x].result == Some(r.output)
      && Blocked(s1, now, x)
  {
    hide Inv, FinishNext, GateOpen, Blocked;
    FinishNextInv(s, x, r);
    FinishNextRow(s, x, r);
    HopelessBlocked(FinishNext(s, x, r), now, x);
  }

  lemma DrainedHead(s: Store, s1: Store, s': Store, rounds: nat -> Round, n: nat, x: int, rest: seq<int>)
    requires Finished(s, s1, x) && x !in rest && s1.actions[x].result == Some(rounds(n).output)
    requires Drained(s1, s', rounds, n + 1, rest)
    ensures Drained(s, s', rounds, n, [x] + rest) && x in s'.actions && s'.actions[x].status == Done
  {
    PrependDrained(s, s1, s', rounds, n, x, rest);
  }
}
