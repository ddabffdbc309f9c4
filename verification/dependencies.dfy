/** Dependency edges: validation and insertion, the dispatch gate, and the listing that explains it. */
module Dependencies {
  import opened Types
  import opened Graph
  import opened Rows
  import opened History

  // ----- the gate and its display -----

  /** The satisfied-state condition of the SQL gate. */
  predicate Satisfied(s: Store, e: Edge) {
    match e.kind
    case OnAction => e.id in s.actions && s.actions[e.id].status.Done?
    case OnTask => e.id in s.tasks && IsClosed(s.tasks[e.id].status)
    case OnOther(_) => false
  }

  function EdgesOf(s: Store, id: int): set<Edge> {
    set e | e in s.edges && e.owner == id
  }

  predicate GateOpen(s: Store, id: int) {
    forall e | e in EdgesOf(s, id) :: Satisfied(s, e)
  }

  function StatusText(st: Status): string {
    match st
    case Pending => "pending"
    case Running => "running"
    case Dispatched => "dispatched"
    case Done => "done"
    case Failed => "failed"
    case Cancelled => "cancelled"
  }

  function TaskStatusText(st: TaskStatus): string {
    match st
    case Open => "open"
    case TaskDone => "done"
    case Archived => "archived"
  }

  /** COALESCE over the two left joins of actionDepStatusSelect. */
  function BlockerText(s: Store, e: Edge): string {
    if e.kind == OnAction && e.id in s.actions then StatusText(s.actions[e.id].status)
    else if e.kind == OnTask && e.id in s.tasks then TaskStatusText(s.tasks[e.id].status)
    else ""
  }

  predicate DepSatisfied(kind: DepKind, blocker: string) {
    match kind
    case OnAction => blocker == "done"
    case OnTask => blocker == "done" || blocker == "archived"
    case OnOther(_) => false
  }

  datatype DepStatus = DepStatus(kind: DepKind, id: int, satisfied: bool, blockerStatus: string)

  function DescribeEdge(s: Store, e: Edge): DepStatus {
    DepStatus(e.kind, e.id, DepSatisfied(e.kind, BlockerText(s, e)), BlockerText(s, e))
  }

  function ListDependencies(s: Store, id: int): set<DepStatus> {
    set e | e in EdgesOf(s, id) :: DescribeEdge(s, e)
  }

  /** The gate admits an action exactly when every listed dependency is shown as satisfied, in every database state. */
  lemma GateAgreesWithListing(s: Store, id: int)
    ensures GateOpen(s, id) <==> forall d | d in ListDependencies(s, id) :: d.satisfied
  {
    forall e | e in EdgesOf(s, id)
      ensures DescribeEdge(s, e) in ListDependencies(s, id) && DescribeEdge(s, e).satisfied == Satisfied(s, e)
    {
      TextsDistinct(s, e);
    }
  }

  lemma TextsDistinct(s: Store, e: Edge)
    ensures DepSatisfied(e.kind, BlockerText(s, e)) == Satisfied(s, e)
  {
  }

  /**
    The listing has one entry for each dependency of the action, with the status of its blocker as text, which
    is empty when the blocker does not exist.
   */
  lemma ListingShows(s: Store, id: int, kind: DepKind, blocker: int)
    ensures (exists d :: d in ListDependencies(s, id) && d.kind == kind && d.id == blocker)
       <==> Edge(id, kind, blocker) in s.edges
    ensures forall d | d in ListDependencies(s, id) && d.kind == OnAction && d.id in s.actions ::
              d.blockerStatus == match s.actions[d.id].status
                                 case Pending => "pending"
                                 case Running => "running"
                                 case Dispatched => "dispatched"
                                 case Done => "done"
                                 case Failed => "failed"
                                 case Cancelled => "cancelled"
    ensures forall d | d in ListDependencies(s, id) && d.kind == OnTask && d.id in s.tasks ::
              d.blockerStatus == match s.tasks[d.id].status
                                 case Open => "open"
                                 case TaskDone => "done"
                                 case Archived => "archived"
    ensures forall d | d in ListDependencies(s, id) && !(d.kind == OnAction && d.id in s.actions)
                       && !(d.kind == OnTask && d.id in s.tasks) :: d.blockerStatus == ""
  {
    forall e | e in EdgesOf(s, id) ensures DescribeEdge(s, e) in ListDependencies(s, id) {
    }
    if Edge(id, kind, blocker) in s.edges {
      assert DescribeEdge(s, Edge(id, kind, blocker)) in ListDependencies(s, id);
    }
    forall d | d in ListDependencies(s, id)
      ensures exists e :: e in EdgesOf(s, id) && d == DescribeEdge(s, e) && e == Edge(id, d.kind, d.id)
    {
    }
  }

  /**
    While an action's own edges are not edited, its open gate closes exactly when a task it waits for is
    reopened; action blockers cannot close it, because `done` is absorbing and deletion purges edges.
   */
  lemma GateClosesOnlyByReopening(s: Store, s': Store, edited: Edits, id: int)
    requires Inv(s) && Advances(s, s', edited)
    requires id in s.actions && id in s'.actions && id !in edited.owners && GateOpen(s, id)
    ensures EdgesOf(s', id) <= EdgesOf(s, id)
    ensures GateOpen(s', id)
       <==> forall e | e in EdgesOf(s', id) && e.kind == OnTask :: e.id in s'.tasks && IsClosed(s'.tasks[e.id].status)
    ensures edited.tasks == {} ==> GateOpen(s', id)
  {
    forall e | e in EdgesOf(s', id) ensures EdgeSound(s'.actions, s'.tasks, e) && EdgeSound(s.actions, s.tasks, e) {
    }
  }

  // ----- insertion -----

  /** What insertActionDependenciesTx finds wrong with one requested edge, in the order it looks. */
  ghost function CheckDep(s: Store, owner: int, d: Dep): Option<Error> {
    match d.kind
    case OnAction =>
      if d.id == owner then Some(SelfDependency)
      else if d.id !in s.actions then Some(MissingBlocker(d.id))
      else if Reaches(s.edges, d.id, owner) then Some(Circular(d.id))
      else None
    case OnTask => if d.id !in s.tasks then Some(MissingBlocker(d.id)) else None
    case OnOther(_) => Some(InvalidDepType)
  }

  function EdgeFor(owner: int, d: Dep): Edge {
    Edge(owner, d.kind, d.id)
  }

  function EdgesFor(owner: int, deps: seq<Dep>): set<Edge> {
    set d | d in deps :: EdgeFor(owner, d)
  }

  function AddEdge(s: Store, owner: int, d: Dep): Store {
    s.(edges := s.edges + {EdgeFor(owner, d)})
  }

  /** Edges are validated one by one against the edges already there, those of the same batch included. */
  ghost function InsertDeps(s: Store, owner: int, deps: seq<Dep>): Res<Store>
    decreases |deps|
  {
    if deps == [] then Ok(s)
    else match CheckDep(s, owner, deps[0])
      case Some(e) => Err(e)
      case None => InsertDeps(AddEdge(s, owner, deps[0]), owner, deps[1..])
  }

  ghost function AddDeps(s: Store, owner: int, deps: seq<Dep>): (Store, Res<()>) {
    if deps == [] then (s, Ok(()))
    else if owner !in s.actions then (s, Err(NotFound(owner)))
    else match InsertDeps(s, owner, deps)
      case Err(e) => (s, Err(e))
      case Ok(s') => (Emit(s', DependenciesAdded(owner, |deps|)), Ok(()))
  }

  function WithoutEdgesOf(s: Store, id: int): Store {
    s.(edges := s.edges - EdgesOf(s, id))
  }

  function EmitCleared(s: Store, id: int, count: nat): Store {
    if count > 0 then Emit(s, DependenciesCleared(id, count)) else s
  }

  function EmitAdded(s: Store, id: int, count: nat): Store {
    if count > 0 then Emit(s, DependenciesAdded(id, count)) else s
  }

  ghost function ReplaceDeps(s: Store, owner: int, deps: seq<Dep>): (Store, Res<()>) {
    if owner !in s.actions then (s, Err(NotFound(owner)))
    else match InsertDeps(WithoutEdgesOf(s, owner), owner, deps)
      case Err(e) => (s, Err(e))
      case Ok(s') => (EmitAdded(EmitCleared(s', owner, |EdgesOf(s, owner)|), owner, |deps|), Ok(()))
  }

  function ClearDeps(s: Store, owner: int): Store {
    EmitCleared(WithoutEdgesOf(s, owner), owner, |EdgesOf(s, owner)|)
  }

  // ----- exactly when a batch is accepted, and what it adds -----

  ghost predicate Acceptable(s: Store, owner: int, d: Dep) {
    CheckDep(s, owner, d) == None
  }

  /** An edge added earlier in the batch changes the verdict on no later edge. */
  lemma EarlierEdgeHarmless(s: Store, owner: int, first: Dep, d: Dep)
    requires Acceptable(s, owner, first)
    ensures Acceptable(AddEdge(s, owner, first), owner, d) <==> Acceptable(s, owner, d)
  {
    if first.kind == OnAction {
      OwnEdgesKeepReach(s.edges, owner, first.id, d.id);
    } else {
      TaskEdgeKeepsReach(s.edges, EdgeFor(owner, first), d.id, owner);
    }
  }

  /** A batch is accepted iff each edge alone would be; it then adds exactly the requested edges, duplicates ignored. */
  lemma {:induction false} InsertDepsExact(s: Store, owner: int, deps: seq<Dep>)
    ensures InsertDeps(s, owner, deps).Ok? <==> forall d | d in deps :: Acceptable(s, owner, d)
    ensures InsertDeps(s, owner, deps).Ok? ==>
              InsertDeps(s, owner, deps).value == s.(edges := s.edges + EdgesFor(owner, deps))
    decreases |deps|
  {
    if deps == [] {
      assert s.edges + EdgesFor(owner, deps) == s.edges;
    } else {
      var first, rest := deps[0], deps[1..];
      assert forall d :: d in deps <==> d == first || d in rest;
      if Acceptable(s, owner, first) {
        var s1 := AddEdge(s, owner, first);
        InsertDepsExact(s1, owner, rest);
        forall d | d in rest ensures Acceptable(s1, owner, d) <==> Acceptable(s, owner, d) {
          EarlierEdgeHarmless(s, owner, first, d);
        }
        assert s1.edges + EdgesFor(owner, rest) == s.edges + EdgesFor(owner, deps);
      }
    }
  }

  lemma {:induction false} InsertDepsAcyclic(s: Store, owner: int, deps: seq<Dep>)
    requires Acyclic(s.edges) && InsertDeps(s, owner, deps).Ok?
    ensures Acyclic(InsertDeps(s, owner, deps).value.edges)
    decreases |deps|
  {
    if deps != [] {
      if deps[0].kind == OnAction {
        NewEdgeAcyclicIff(s.edges, owner, deps[0].id);
      } else {
        TaskEdgeKeepsAcyclic(s.edges, EdgeFor(owner, deps[0]));
      }
      InsertDepsAcyclic(AddEdge(s, owner, deps[0]), owner, deps[1..]);
    }
  }

  predicate BlockerExists(s: Store, d: Dep) {
    match d.kind
    case OnAction => d.id in s.actions
    case OnTask => d.id in s.tasks
    case OnOther(_) => false
  }

  /** A batch is refused exactly when a blocker is missing or the graph with all of its edges has a cycle. */
  lemma BatchAcceptedIff(s: Store, owner: int, deps: seq<Dep>)
    requires Acyclic(s.edges)
    ensures InsertDeps(s, owner, deps).Ok?
       <==> (forall d | d in deps :: BlockerExists(s, d)) && Acyclic(s.edges + EdgesFor(owner, deps))
  {
    InsertDepsExact(s, owner, deps);
    if InsertDeps(s, owner, deps).Ok? {
      InsertDepsAcyclic(s, owner, deps);
    } else if (forall d | d in deps :: BlockerExists(s, d)) && Acyclic(s.edges + EdgesFor(owner, deps)) {
      forall d | d in deps ensures Acceptable(s, owner, d) {
        if d.kind == OnAction {
          assert EdgeFor(owner, d) in EdgesFor(owner, deps);
          SubsetAcyclic(s.edges + {EdgeFor(owner, d)}, s.edges + EdgesFor(owner, deps));
          NewEdgeAcyclicIff(s.edges, owner, d.id);
          ReachesSelf(s.edges, owner);
        }
      }
    }
  }

  /**
    The first edge of a batch is refused as circular exactly when it, on top of the edges so far, would
    close a cycle.
   */
  lemma CircularIff(s: Store, owner: int, d: Dep)
    requires Acyclic(s.edges) && d.kind == OnAction && d.id != owner && d.id in s.actions
    ensures CheckDep(s, owner, d) == Some(Circular(d.id)) <==> !Acyclic(s.edges + {EdgeFor(owner, d)})
  {
    NewEdgeAcyclicIff(s.edges, owner, d.id);
  }

  /** No edge points at an action that has just been inserted, so its blockers are never circular. */
  lemma NewOwnerNeverCircular(s: Store, owner: int, d: Dep)
    requires forall e | e in s.edges :: !(e.kind == OnAction && e.id == owner)
    ensures CheckDep(s, owner, d) != Some(Circular(d.id))
  {
    if d.id != owner {
      UnreferencedUnreached(s.edges, d.id, owner);
    }
  }

  /** Why one edge is refused: each reason names the blocker it is about. */
  ghost predicate RefusedAs(s: Store, owner: int, d: Dep, e: Error) {
    match d.kind
    case OnAction =>
      || (d.id == owner && e == SelfDependency)
      || (d.id != owner && d.id !in s.actions && e == MissingBlocker(d.id))
      || (d.id != owner && d.id in s.actions && Reaches(s.edges, d.id, owner) && e == Circular(d.id))
    case OnTask => d.id !in s.tasks && e == MissingBlocker(d.id)
    case OnOther(_) => e == InvalidDepType
  }

  /** A refused batch answers with the reason of its first edge that is refused on its own. */
  lemma {:induction false} FirstRefusal(s: Store, owner: int, deps: seq<Dep>) returns (i: nat)
    requires InsertDeps(s, owner, deps).Err?
    ensures i < |deps| && forall j | 0 <= j < i :: Acceptable(s, owner, deps[j])
    ensures RefusedAs(s, owner, deps[i], InsertDeps(s, owner, deps).error)
    decreases |deps|
  {
    var first := deps[0];
    if !Acceptable(s, owner, first) {
      return 0;
    }
    var rest := FirstRefusal(AddEdge(s, owner, first), owner, deps[1..]);
    forall j | 0 <= j <= rest
      ensures Acceptable(AddEdge(s, owner, first), owner, deps[1..][j]) <==> Acceptable(s, owner, deps[j + 1])
    {
      EarlierEdgeHarmless(s, owner, first, deps[j + 1]);
    }
    forall j | 0 < j <= rest ensures Acceptable(s, owner, deps[j]) {
      assert Acceptable(AddEdge(s, owner, first), owner, deps[1..][j - 1]);
    }
    return rest + 1;
  }

  // ----- every edge operation keeps the invariants -----

  lemma EdgesCore(s: Store, edges: set<Edge>)
    requires Core(s) && Acyclic(edges) && forall e | e in edges :: EdgeSound(s.actions, s.tasks, e)
    ensures Core(s.(edges := edges))
  {
  }

  lemma InsertDepsCore(s: Store, owner: int, deps: seq<Dep>)
    requires Core(s) && owner in s.actions && InsertDeps(s, owner, deps).Ok?
    ensures Core(InsertDeps(s, owner, deps).value)
  {
    InsertDepsExact(s, owner, deps);
    InsertDepsAcyclic(s, owner, deps);
    EdgesCore(s, s.edges + EdgesFor(owner, deps));
  }

  lemma AddDepsAdvances(s: Store, owner: int, deps: seq<Dep>)
    requires Inv(s)
    ensures Advances(s, AddDeps(s, owner, deps).0, Edits({owner}, {}))
  {
    if deps != [] && owner in s.actions && InsertDeps(s, owner, deps).Ok? {
      InsertDepsExact(s, owner, deps);
      InsertDepsCore(s, owner, deps);
      SilentAdvances(InsertDeps(s, owner, deps).value, DependenciesAdded(owner, |deps|), Edits({owner}, {}));
    }
  }

  lemma WithoutEdgesCore(s: Store, owner: int)
    requires Core(s)
    ensures Core(WithoutEdgesOf(s, owner))
  {
    SubsetAcyclic(s.edges - EdgesOf(s, owner), s.edges);
  }

  lemma EmitClearedAdvances(s: Store, owner: int, count: nat)
    requires Inv(s)
    ensures Advances(s, EmitCleared(s, owner, count), Edits({owner}, {}))
  {
    SilentAdvances(s, DependenciesCleared(owner, count), Edits({owner}, {}));
  }

  lemma ReplaceDepsAdvances(s: Store, owner: int, deps: seq<Dep>)
    requires Inv(s)
    ensures Advances(s, ReplaceDeps(s, owner, deps).0, Edits({owner}, {}))
  {
    var bare := WithoutEdgesOf(s, owner);
    WithoutEdgesCore(s, owner);
    if owner in s.actions && InsertDeps(bare, owner, deps).Ok? {
      InsertDepsExact(bare, owner, deps);
      InsertDepsCore(bare, owner, deps);
      var s1 := InsertDeps(bare, owner, deps).value;
      assert Advances(s, s1, Edits({owner}, {}));
      EmitClearedAdvances(s1, owner, |EdgesOf(s, owner)|);
      var s2 := EmitCleared(s1, owner, |EdgesOf(s, owner)|);
      SilentAdvances(s2, DependenciesAdded(owner, |deps|), Edits({owner}, {}));
      AdvancesTransitive(s, s1, s2, Edits({owner}, {}));
      AdvancesTransitive(s, s2, EmitAdded(s2, owner, |deps|), Edits({owner}, {}));
    }
  }

  lemma ClearDepsAdvances(s: Store, owner: int)
    requires Inv(s)
    ensures Advances(s, ClearDeps(s, owner), Edits({owner}, {}))
  {
    WithoutEdgesCore(s, owner);
    EmitClearedAdvances(WithoutEdgesOf(s, owner), owner, |EdgesOf(s, owner)|);
    AdvancesTransitive(s, WithoutEdgesOf(s, owner), ClearDeps(s, owner), Edits({owner}, {}));
  }

  /** An add is all or nothing: the requested edges and no others are new, or nothing changes. */
  lemma AddDepsExact(s: Store, owner: int, deps: seq<Dep>)
    requires deps != []
    ensures
      var (s', r) := AddDeps(s, owner, deps);
      && (r.Ok? <==> owner in s.actions && forall d | d in deps :: Acceptable(s, owner, d))
      && (r.Ok? ==> s' == s.(edges := s.edges + (set d | d in deps :: Edge(owner, d.kind, d.id)),
                             events := s.events + [DependenciesAdded(owner, |deps|)]))
      && (r.Err? ==> s' == s)
  {
    assert EdgesFor(owner, deps) == set d | d in deps :: Edge(owner, d.kind, d.id);
    InsertDepsExact(s, owner, deps);
  }

  /**
    A replace leaves exactly the requested edges on the owner and writes nothing else but the log; a
    refused one changes nothing. It is accepted exactly when the blockers exist and the edges without the
    owner's old ones stay acyclic once the new ones are added.
   */
  lemma ReplaceDepsExact(s: Store, owner: int, deps: seq<Dep>)
    ensures
      var (s', r) := ReplaceDeps(s, owner, deps);
      && (r.Ok? ==>
            && s' == s.(edges := s.edges - EdgesOf(s, owner) + EdgesFor(owner, deps), events := s'.events)
            && s.events <= s'.events
            && EdgesOf(s', owner) == EdgesFor(owner, deps)
            && forall id | id != owner :: EdgesOf(s', id) == EdgesOf(s, id))
      && (r.Err? ==> s' == s)
      && (Acyclic(s.edges) ==>
            (r.Ok? <==> owner in s.actions && (forall d | d in deps :: BlockerExists(s, d))
                        && Acyclic(s.edges - EdgesOf(s, owner) + EdgesFor(owner, deps))))
  {
    hide InsertDeps, Acyclic;
    var bare := WithoutEdgesOf(s, owner);
    if Acyclic(s.edges) {
      SubsetAcyclic(bare.edges, s.edges);
      BatchAcceptedIff(bare, owner, deps);
    }
    if owner in s.actions && InsertDeps(bare, owner, deps).Ok? {
      InsertDepsExact(bare, owner, deps);
      var s' := ReplaceDeps(s, owner, deps).0;
      forall id | id != owner ensures EdgesOf(s', id) == EdgesOf(s, id) {
      }
    }
  }

  /** A replace announces what it cleared, then what it added. */
  lemma ReplaceDepsAnnounced(s: Store, owner: int, deps: seq<Dep>)
    requires ReplaceDeps(s, owner, deps).1.Ok?
    ensures ReplaceDeps(s, owner, deps).0.events == s.events
              + (if EdgesOf(s, owner) == {} then [] else [DependenciesCleared(owner, |EdgesOf(s, owner)|)])
              + (if deps == [] then [] else [DependenciesAdded(owner, |deps|)])
  {
    hide InsertDeps, EdgesFor, EdgesOf, Acceptable, EmitCleared, EmitAdded;
    InsertDepsExact(WithoutEdgesOf(s, owner), owner, deps);
    var s1 := InsertDeps(WithoutEdgesOf(s, owner), owner, deps).value;
    AnnouncedEvents(s1, owner, |EdgesOf(s, owner)|, |deps|);
  }

  lemma AnnouncedEvents(s: Store, owner: int, cleared: nat, added: nat)
    ensures EmitAdded(EmitCleared(s, owner, cleared), owner, added).events == s.events
              + (if cleared == 0 then [] else [DependenciesCleared(owner, cleared)])
              + (if added == 0 then [] else [DependenciesAdded(owner, added)])
  {
  }

  /** After a clear the owner waits for nothing and every other action for what it waited for. */
  lemma ClearDepsExact(s: Store, owner: int)
    ensures
      var s' := ClearDeps(s, owner);
      && s' == s.(edges := s'.edges, events := s'.events)
      && s'.events == s.events
          + (if EdgesOf(s, owner) == {} then [] else [DependenciesCleared(owner, |EdgesOf(s, owner)|)])
      && EdgesOf(s', owner) == {} && GateOpen(s', owner) && forall id | id != owner :: EdgesOf(s', id) == EdgesOf(s, id)
  {
    forall id | id != owner ensures EdgesOf(ClearDeps(s, owner), id) == EdgesOf(s, id) {
    }
  }
}
