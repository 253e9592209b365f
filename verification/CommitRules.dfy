/**
  The commit rules (crates/orch-core/src/commit.rs): what a scored batch does to
  the tree, the frontier, the mirrors and the duplicate streaks, as functions on
  state values. The error exits keep whatever was already changed.
 */
module CommitRules {
  import opened Base
  import opened SearchTree
  import opened FrontierIndex
  import opened Mirrors

  datatype PruneAction = Drop | ExhaustPruned

  datatype Rules = Rules(pruneAction: PruneAction, epsilonKeep: real, maxVisitsPerNode: u32,
                         exhaustAfterDupExpansions: u32)

  datatype ScoredChild = ScoredChild(payload: Payload, duplicate: bool, prune: bool, goal: bool)

  datatype Disposition = Keep | DiscardDuplicate | DiscardRegression | DiscardPruneDrop | PrunedExhausted

  datatype ChildCommit = ChildCommit(disposition: Disposition, nodeId: Option<NodeId>,
                                     duplicateRoute: Option<NodeId>)

  datatype EvictReason = MaxVisits | AllDuplicateExpansions

  datatype BatchOutcome = BatchOutcome(parent: NodeId, parentVisits: u32, childCommits: seq<ChildCommit>,
                                       parentEvicted: Option<EvictReason>, goalNode: Option<NodeId>)

  datatype CommitError =
    | ParentNotFound(id: NodeId)
    | InvalidRule(field: string)
    | TreeFailure(tree: TreeError)
    | FrontierFailure(frontier: FrontierError)

  /** A call returns a value, returns an error, or unwinds on a counter overflow. */
  datatype Reply<+T> = Value(value: T) | Error(error: CommitError) | Panic

  datatype State = State(tree: TreeView, frontier: set<NodeId>, cells: map<CellKey, u32>,
                         seen: map<StateHash, NodeId>, streaks: seq<u32>)
  {
    function Count(cell: CellKey): u32 { if cell in cells then cells[cell] else 0 }

    predicate CanBump(cell: CellKey) { Count(cell) < U32_MAX }

    function Bump(cell: CellKey): State
      requires CanBump(cell)
    {
      this.(cells := cells[cell := Count(cell) + 1])
    }

    function Route(stateHash: StateHash, id: NodeId): State {
      if stateHash in seen then this else this.(seen := seen[stateHash := id])
    }

    function Track(id: NodeId): State {
      if id < |streaks| then this else this.(streaks := streaks + seq(id + 1 - |streaks|, _ => 0))
    }
  }

  function InitialState(payload: Payload): State {
    State(RootTree(payload), {ROOT}, map[payload.cell := 1], map[payload.stateHash := ROOT], [0])
  }

  /** A node inserted under `parent` with its streak slot and its first-seen route. */
  function Attach(s: State, parent: NodeId, payload: Payload): Result<State, TreeError>
    requires |s.tree.records| == |s.tree.childrenByNode|
  {
    var id := |s.tree.records|;
    match s.tree.InsertChild(parent, payload)
    case Err(e) => Err(e)
    case Ok(t) => Ok(s.(tree := t).Track(id).Route(payload.stateHash, id))
  }

  /** Rule 1 with the keep-as-exhausted action: the child enters the tree but never the frontier. */
  function PruneChild(s: State, parent: NodeId, payload: Payload): (State, Reply<ChildCommit>)
    requires |s.tree.records| == |s.tree.childrenByNode|
  {
    var id := |s.tree.records|;
    match Attach(s, parent, payload)
    case Err(e) => (s, Error(TreeFailure(e)))
    case Ok(a) =>
      var pruned := a.(tree := a.tree.MarkPruned(id).value);
      if !pruned.CanBump(payload.cell) then (pruned, Panic)
      else (pruned.Bump(payload.cell), Value(ChildCommit(PrunedExhausted, Some(id), None)))
  }

  /** Rule 2: count the cell and pass the visit on to the node first seen in this state. */
  function RouteDuplicate(s: State, parent: NodeId, payload: Payload): (State, Reply<ChildCommit>) {
    if !s.CanBump(payload.cell) then (s, Panic)
    else
      var bumped := s.Bump(payload.cell);
      var route := if payload.stateHash in s.seen then Some(s.seen[payload.stateHash]) else None;
      if route.None? || route.value == parent then
        (bumped, Value(ChildCommit(DiscardDuplicate, None, route)))
      else
        match s.tree.IncrementVisits(route.value)
        case Err(e) => (bumped, Error(TreeFailure(e)))
        case Ok(t) => (bumped.(tree := t), Value(ChildCommit(DiscardDuplicate, None, route)))
  }

  function KeepChild(s: State, parent: NodeId, payload: Payload, goal: bool): (State, Reply<ChildCommit>)
    requires |s.tree.records| == |s.tree.childrenByNode|
  {
    var id := |s.tree.records|;
    match Attach(s, parent, payload)
    case Err(e) => (s, Error(TreeFailure(e)))
    case Ok(a) =>
      if !a.CanBump(payload.cell) then (a, Panic)
      else
        var bumped := a.Bump(payload.cell);
        if id in bumped.frontier then (bumped, Error(FrontierFailure(Duplicate(id))))
        else
          var listed := bumped.(frontier := bumped.frontier + {id});
          var kept := if goal then listed.(tree := listed.tree.MarkGoal(id).value) else listed;
          (kept, Value(ChildCommit(Keep, Some(id), None)))
  }

  function CommitChild(s: State, parent: NodeId, parentScore: real, child: ScoredChild, rules: Rules)
    : (r: (State, Reply<ChildCommit>))
    requires |s.tree.records| == |s.tree.childrenByNode|
    ensures |r.0.tree.records| == |r.0.tree.childrenByNode|
    ensures |s.tree.records| <= |r.0.tree.records|
  {
    if child.prune then
      if rules.pruneAction == Drop then (s, Value(ChildCommit(DiscardPruneDrop, None, None)))
      else PruneChild(s, parent, child.payload)
    else if child.duplicate then RouteDuplicate(s, parent, child.payload)
    else if child.payload.score + rules.epsilonKeep < parentScore && s.Count(child.payload.cell) > 0 then
      (s, Value(ChildCommit(DiscardRegression, None, None)))
    else KeepChild(s, parent, child.payload, child.goal)
  }

  /** The children in order, stopping where one fails. */
  function CommitChildren(s: State, parent: NodeId, parentScore: real, children: seq<ScoredChild>, rules: Rules)
    : (r: (State, Reply<seq<ChildCommit>>))
    requires |s.tree.records| == |s.tree.childrenByNode|
    ensures |r.0.tree.records| == |r.0.tree.childrenByNode|
    ensures |s.tree.records| <= |r.0.tree.records|
    ensures r.1.Value? ==> |r.1.value| == |children|
  {
    if children == [] then (s, Value([]))
    else
      var last := |children| - 1;
      var (before, reply) := CommitChildren(s, parent, parentScore, children[..last], rules);
      match reply
      case Error(e) => (before, Error(e))
      case Panic => (before, Panic)
      case Value(commits) =>
        var (after, one) := CommitChild(before, parent, parentScore, children[last], rules);
        match one
        case Error(e) => (after, Error(e))
        case Panic => (after, Panic)
        case Value(c) => (after, Value(commits + [c]))
  }

  /** The first kept goal child. */
  function GoalNode(children: seq<ScoredChild>, commits: seq<ChildCommit>): Option<NodeId>
    requires |children| == |commits|
  {
    if children == [] then None
    else
      var last := |children| - 1;
      var earlier := GoalNode(children[..last], commits[..last]);
      if earlier.Some? then earlier
      else if children[last].goal && commits[last].disposition == Keep then commits[last].nodeId
      else None
  }

  predicate AllDuplicate(commits: seq<ChildCommit>) {
    commits != [] && forall i :: 0 <= i < |commits| ==> commits[i].disposition == DiscardDuplicate
  }

  function UpdateParentExhaustion(s: State, parent: NodeId, parentVisits: u32, allDuplicate: bool, rules: Rules)
    : (State, Reply<Option<EvictReason>>)
  {
    var tracked := s.Track(parent);
    if allDuplicate && tracked.streaks[parent] == U32_MAX then (tracked, Panic)
    else
      var streak: u32 := if allDuplicate then tracked.streaks[parent] + 1 else 0;
      var counted := tracked.(streaks := tracked.streaks[parent := streak]);
      var reason :=
        if parentVisits >= rules.maxVisitsPerNode then Some(MaxVisits)
        else if streak >= rules.exhaustAfterDupExpansions then Some(AllDuplicateExpansions)
        else None;
      if reason.None? then (counted, Value(None))
      else
        match counted.tree.MarkExhausted(parent)
        case Err(e) => (counted, Error(TreeFailure(e)))
        case Ok(t) => (counted.(tree := t, frontier := counted.frontier - {parent}), Value(reason))
  }

  function RuleFault(rules: Rules): Option<string> {
    if rules.epsilonKeep < 0.0 then Some("epsilon_keep")
    else if rules.maxVisitsPerNode == 0 then Some("max_visits_per_node")
    else if rules.exhaustAfterDupExpansions == 0 then Some("exhaust_after_dup_expansions")
    else None
  }

  /** The children, then the visit to the parent. */
  function Expand(s: State, parent: NodeId, children: seq<ScoredChild>, rules: Rules)
    : (r: (State, Reply<seq<ChildCommit>>))
    requires |s.tree.records| == |s.tree.childrenByNode| && s.tree.Has(parent)
    ensures |r.0.tree.records| == |r.0.tree.childrenByNode| && r.0.tree.Has(parent)
    ensures r.1.Value? ==> |r.1.value| == |children|
  {
    var (filled, reply) := CommitChildren(s, parent, s.tree.records[parent].payload.score, children, rules);
    if !reply.Value? then (filled, reply)
    else
      match filled.tree.IncrementVisits(parent)
      case Err(e) => (filled, Error(TreeFailure(e)))
      case Ok(t) => (filled.(tree := t), reply)
  }

  /** One expansion of `parent`: the new state, even when the call fails part-way, and the reply. */
  function CommitBatch(s: State, parent: NodeId, children: seq<ScoredChild>, rules: Rules)
    : (r: (State, Reply<BatchOutcome>))
    requires |s.tree.records| == |s.tree.childrenByNode|
    ensures |r.0.tree.records| == |r.0.tree.childrenByNode|
  {
    if RuleFault(rules).Some? then (s, Error(InvalidRule(RuleFault(rules).value)))
    else if !s.tree.Has(parent) then (s, Error(ParentNotFound(parent)))
    else
      var (expanded, reply) := Expand(s, parent, children, rules);
      match reply
      case Error(e) => (expanded, Error(e))
      case Panic => (expanded, Panic)
      case Value(commits) =>
        var visits := expanded.tree.records[parent].visits;
        var (final, evicted) := UpdateParentExhaustion(expanded, parent, visits, AllDuplicate(commits), rules);
        match evicted
        case Error(e) => (final, Error(e))
        case Panic => (final, Panic)
        case Value(reason) =>
          (final, Value(BatchOutcome(parent, visits, commits, reason, GoalNode(children, commits))))
  }

  /** Once a child has failed, the children after it are not looked at. */
  lemma {:induction false} FailureStops(s: State, parent: NodeId, parentScore: real, children: seq<ScoredChild>,
                                        k: nat, rules: Rules)
    requires |s.tree.records| == |s.tree.childrenByNode|
    requires k < |children|
    requires !CommitChildren(s, parent, parentScore, children[..k + 1], rules).1.Value?
    ensures CommitChildren(s, parent, parentScore, children, rules)
         == CommitChildren(s, parent, parentScore, children[..k + 1], rules)
  {
    if k + 1 == |children| {
      assert children[..k + 1] == children;
    } else {
      var shorter := children[..|children| - 1];
      assert shorter[..k + 1] == children[..k + 1];
      FailureStops(s, parent, parentScore, shorter, k, rules);
    }
  }

  /** Per-node streak table: zeroes, then the given entries that fall inside the tree. */
  function StreaksFrom(size: nat, streaks: seq<(NodeId, u32)>): (r: seq<u32>)
    ensures |r| == size
  {
    if streaks == [] then seq(size, _ => 0)
    else
      var last := streaks[|streaks| - 1];
      var before := StreaksFrom(size, streaks[..|streaks| - 1]);
      if last.0 < size then before[last.0 := last.1] else before
  }

  function Rebuilt(tree: TreeView, frontier: set<NodeId>, cells: map<CellKey, u32>,
                   seen: map<StateHash, NodeId>, streaks: seq<(NodeId, u32)>): State
  {
    State(tree, frontier, cells, seen, StreaksFrom(|tree.records|, streaks))
  }

  /** The ids the selector is offered. */
  ghost function Candidates(s: State): seq<NodeId> {
    Ascending(CandidateSet(s.frontier, s.tree))
  }
}
