/** Reachability and acyclicity of the action-to-action dependency edges. */
module Graph {
  import opened Types

  /** Action a waits directly for action b. */
  predicate Waits(edges: set<Edge>, a: int, b: int) {
    Edge(a, OnAction, b) in edges
  }

  /** p lists the nodes visited after a on a walk that ends in b. */
  ghost predicate IsWalk(edges: set<Edge>, a: int, b: int, p: seq<int>)
    decreases |p|
  {
    if p == [] then a == b else Waits(edges, a, p[0]) && IsWalk(edges, p[0], b, p[1..])
  }

  ghost predicate Reaches(edges: set<Edge>, a: int, b: int) {
    exists p :: IsWalk(edges, a, b, p)
  }

  /** No edge can be followed back to where it starts. */
  ghost predicate Acyclic(edges: set<Edge>) {
    forall a, b :: Waits(edges, a, b) ==> !Reaches(edges, b, a)
  }

  lemma ReachesSelf(edges: set<Edge>, a: int)
    ensures Reaches(edges, a, a)
  {
    assert IsWalk(edges, a, a, []);
  }

  lemma StepReaches(edges: set<Edge>, a: int, b: int, c: int)
    requires Waits(edges, a, b) && Reaches(edges, b, c)
    ensures Reaches(edges, a, c)
  {
    var p :| IsWalk(edges, b, c, p);
    assert ([b] + p)[1..] == p;
    assert IsWalk(edges, a, c, [b] + p);
  }

  lemma {:induction false} WalkTransitive(edges: set<Edge>, a: int, b: int, c: int, p: seq<int>)
    requires IsWalk(edges, a, b, p) && Reaches(edges, b, c)
    ensures Reaches(edges, a, c)
    decreases |p|
  {
    if p != [] {
      WalkTransitive(edges, p[0], b, c, p[1..]);
      StepReaches(edges, a, p[0], c);
    }
  }

  lemma ReachesTransitive(edges: set<Edge>, a: int, b: int, c: int)
    requires Reaches(edges, a, b) && Reaches(edges, b, c)
    ensures Reaches(edges, a, c)
  {
    var p :| IsWalk(edges, a, b, p);
    WalkTransitive(edges, a, b, c, p);
  }

  lemma {:induction false} WalkInSuperset(edges: set<Edge>, more: set<Edge>, a: int, b: int, p: seq<int>)
    requires edges <= more && IsWalk(edges, a, b, p)
    ensures IsWalk(more, a, b, p)
    decreases |p|
  {
    if p != [] {
      WalkInSuperset(edges, more, p[0], b, p[1..]);
    }
  }

  lemma ReachesInSuperset(edges: set<Edge>, more: set<Edge>, a: int, b: int)
    requires edges <= more && Reaches(edges, a, b)
    ensures Reaches(more, a, b)
  {
    var p :| IsWalk(edges, a, b, p);
    WalkInSuperset(edges, more, a, b, p);
  }

  /** Deleting edges never creates a cycle. */
  lemma SubsetAcyclic(edges: set<Edge>, more: set<Edge>)
    requires edges <= more && Acyclic(more)
    ensures Acyclic(edges)
  {
    forall a, b | Waits(edges, a, b) ensures !Reaches(edges, b, a) {
      if Reaches(edges, b, a) {
        ReachesInSuperset(edges, more, b, a);
      }
    }
  }

  /** A walk that may use the new edge x->y either avoids it or passes through it. */
  lemma {:induction false} WalkThroughNewEdge(edges: set<Edge>, x: int, y: int, a: int, b: int, p: seq<int>)
    requires IsWalk(edges + {Edge(x, OnAction, y)}, a, b, p)
    ensures Reaches(edges, a, b) || (Reaches(edges, a, x) && Reaches(edges, y, b))
    decreases |p|
  {
    if p == [] {
      ReachesSelf(edges, a);
    } else {
      WalkThroughNewEdge(edges, x, y, p[0], b, p[1..]);
      if Waits(edges, a, p[0]) {
        if Reaches(edges, p[0], b) {
          StepReaches(edges, a, p[0], b);
        } else {
          StepReaches(edges, a, p[0], x);
        }
      } else {
        ReachesSelf(edges, a);
      }
    }
  }

  lemma ReachesWithNewEdge(edges: set<Edge>, x: int, y: int, a: int, b: int)
    ensures Reaches(edges + {Edge(x, OnAction, y)}, a, b)
       <==> Reaches(edges, a, b) || (Reaches(edges, a, x) && Reaches(edges, y, b))
  {
    var more := edges + {Edge(x, OnAction, y)};
    if Reaches(more, a, b) {
      var p :| IsWalk(more, a, b, p);
      WalkThroughNewEdge(edges, x, y, a, b, p);
    } else if Reaches(edges, a, b) {
      ReachesInSuperset(edges, more, a, b);
    } else if Reaches(edges, a, x) && Reaches(edges, y, b) {
      ReachesInSuperset(edges, more, a, x);
      ReachesInSuperset(edges, more, y, b);
      StepReaches(more, x, y, b);
      ReachesTransitive(more, a, x, b);
    }
  }

  /** Adding x->y closes a cycle exactly when x was already reachable from y. */
  lemma NewEdgeAcyclicIff(edges: set<Edge>, x: int, y: int)
    requires Acyclic(edges)
    ensures Acyclic(edges + {Edge(x, OnAction, y)}) <==> !Reaches(edges, y, x)
  {
    var more := edges + {Edge(x, OnAction, y)};
    if Reaches(edges, y, x) {
      ReachesInSuperset(edges, more, y, x);
      assert Waits(more, x, y);
    } else {
      forall a, b | Waits(more, a, b) ensures !Reaches(more, b, a) {
        ReachesWithNewEdge(edges, x, y, b, a);
        if Waits(edges, a, b) && Reaches(edges, b, x) && Reaches(edges, y, a) {
          StepReaches(edges, a, b, x);
          ReachesTransitive(edges, y, a, x);
        }
      }
    }
  }

  /** Edges that leave the owner do not change who reaches the owner, so edges added earlier in a batch are harmless. */
  lemma OwnEdgesKeepReach(edges: set<Edge>, owner: int, y: int, b: int)
    ensures Reaches(edges + {Edge(owner, OnAction, y)}, b, owner) <==> Reaches(edges, b, owner)
  {
    ReachesWithNewEdge(edges, owner, y, b, owner);
  }

  lemma {:induction false} WalkIgnoresTaskEdge(edges: set<Edge>, e: Edge, a: int, b: int, p: seq<int>)
    requires e.kind != OnAction
    ensures IsWalk(edges + {e}, a, b, p) <==> IsWalk(edges, a, b, p)
    decreases |p|
  {
    if p != [] {
      WalkIgnoresTaskEdge(edges, e, p[0], b, p[1..]);
    }
  }

  lemma TaskEdgeKeepsReach(edges: set<Edge>, e: Edge, a: int, b: int)
    requires e.kind != OnAction
    ensures Reaches(edges + {e}, a, b) <==> Reaches(edges, a, b)
  {
    if Reaches(edges, a, b) {
      ReachesInSuperset(edges, edges + {e}, a, b);
    } else if Reaches(edges + {e}, a, b) {
      var p :| IsWalk(edges + {e}, a, b, p);
      WalkIgnoresTaskEdge(edges, e, a, b, p);
    }
  }

  lemma TaskEdgeKeepsAcyclic(edges: set<Edge>, e: Edge)
    requires e.kind != OnAction && Acyclic(edges)
    ensures Acyclic(edges + {e})
  {
    forall a, b | Waits(edges + {e}, a, b) ensures !Reaches(edges + {e}, b, a) {
      TaskEdgeKeepsReach(edges, e, b, a);
    }
  }

  /** A node with no incoming edge is reached only from itself. */
  lemma UnreferencedUnreached(edges: set<Edge>, a: int, b: int)
    requires forall e | e in edges :: !(e.kind == OnAction && e.id == b)
    requires a != b
    ensures !Reaches(edges, a, b)
  {
    if Reaches(edges, a, b) {
      var p :| IsWalk(edges, a, b, p);
      WalkEndsInReferenced(edges, a, b, p);
    }
  }

  lemma {:induction false} WalkEndsInReferenced(edges: set<Edge>, a: int, b: int, p: seq<int>)
    requires IsWalk(edges, a, b, p) && a != b
    ensures exists e :: e in edges && e.kind == OnAction && e.id == b
    decreases |p|
  {
    if p[0] == b {
      assert Edge(a, OnAction, b) in edges;
    } else {
      WalkEndsInReferenced(edges, p[0], b, p[1..]);
    }
  }

  // ----- the recursive query -----

  function Blockers(edges: set<Edge>, a: int): set<int> {
    set e | e in edges && e.kind == OnAction && e.owner == a :: e.id
  }

  /** A set closed under the edges contains everything its members reach. */
  lemma {:induction false} ClosedUnderWalk(edges: set<Edge>, closed: set<int>, a: int, b: int, p: seq<int>)
    requires forall n | n in closed :: Blockers(edges, n) <= closed
    requires a in closed && IsWalk(edges, a, b, p)
    ensures b in closed
    decreases |p|
  {
    if p != [] {
      assert p[0] in Blockers(edges, a) by {
        assert Edge(a, OnAction, p[0]) in edges;
      }
      ClosedUnderWalk(edges, closed, p[0], b, p[1..]);
    }
  }

  lemma ReachesBlocker(edges: set<Edge>, start: int, cur: int, b: int)
    requires Reaches(edges, start, cur) && b in Blockers(edges, cur)
    ensures Reaches(edges, start, b)
  {
    assert Waits(edges, cur, b);
    ReachesSelf(edges, b);
    StepReaches(edges, cur, b, b);
    ReachesTransitive(edges, start, cur, b);
  }

  /**
    WITH RECURSIVE ... UNION: rows leave the queue one at a time, in any order, and a row that was
    ever produced is not queued again.
   */
  method ActionReachable(edges: set<Edge>, start: int, target: int) returns (hit: bool)
    ensures hit <==> Reaches(edges, start, target)
  {
    ghost var nodes := {start} + set e | e in edges :: e.id;
    var seen, queue := {start}, {start};
    ReachesSelf(edges, start);
    while queue != {}
      invariant queue <= seen <= nodes && start in seen
      invariant forall n | n in seen :: Reaches(edges, start, n)
      invariant forall n | n in seen - queue :: Blockers(edges, n) <= seen
      decreases nodes - (seen - queue)
    {
      var cur :| cur in queue;
      var added := Blockers(edges, cur) - seen;
      forall b | b in added ensures Reaches(edges, start, b) {
        ReachesBlocker(edges, start, cur, b);
      }
      ghost var before := seen - queue;
      queue, seen := queue - {cur} + added, seen + added;
      assert seen - queue == before + {cur};
    }
    hit := target in seen;
    if Reaches(edges, start, target) {
      ghost var p :| IsWalk(edges, start, target, p);
      ClosedUnderWalk(edges, seen, start, target, p);
    }
  }
}
