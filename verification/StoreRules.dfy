/**
  The snapshot store's node tree for one experiment
  (crates/orch-fakes/src/snapshot_store.rs). Scores, attributes, metadata and
  inline input-log containers are left out of the records.
 */
module StoreRules {
  import opened Base

  type NodeId = nat

  const ROOT: NodeId := 0

  datatype Status = Frontier | Expanded | Pruned | Goal

  datatype Node = Node(parent: Option<NodeId>, depth: u64, snapshot: nat, inputLog: Option<nat>, status: Status,
                       visits: u64, expands: u64, lastVisitedAt: u64, createdAt: u64, updatedAt: u64)

  datatype Store = Store(clock: u64, nodes: map<NodeId, Node>, children: map<NodeId, seq<NodeId>>)

  datatype Failure = InvalidRequest | NotFound | AlreadyExists | FailedPrecondition | Internal

  datatype Request = Request(id: NodeId, parent: Option<NodeId>, snapshot: nat, inputLog: Option<nat>, status: Status)

  datatype Update = Update(id: NodeId, status: Option<Status>, visitDelta: u64, expandDelta: u64, touchVisited: bool)

  datatype Call =
    | Create(request: Request)
    | UpdateNodes(updates: seq<Update>)
    | PruneSubtree(id: NodeId, allowRoot: bool)

  const EMPTY := Store(0, map[], map[])

  // ------------------------------------------------------------------
  // The tree
  // ------------------------------------------------------------------

  predicate ParentAbove(nodes: map<NodeId, Node>, id: NodeId)
    requires id in nodes
  {
    match nodes[id].parent
    case None => id == ROOT && nodes[id].depth == 0
    case Some(p) => id != ROOT && p in nodes && nodes[id].depth == nodes[p].depth + 1
  }

  /** The list is the ascending listing of the nodes whose parent this is. */
  ghost predicate ListsChildren(s: Store, id: NodeId)
    requires id in s.children
  {
    && StrictlyAscending(s.children[id])
    && forall c :: c in s.children[id] <==> c in s.nodes && s.nodes[c].parent == Some(id)
  }

  /** Parent links lead up to the root, and children lists are their inverse. */
  ghost predicate WellFormed(s: Store) {
    && s.children.Keys == s.nodes.Keys
    && (forall id {:trigger ParentAbove(s.nodes, id)} :: id in s.nodes ==> ParentAbove(s.nodes, id))
    && (forall id {:trigger ListsChildren(s, id)} :: id in s.children ==> ListsChildren(s, id))
  }

  // ------------------------------------------------------------------
  // Creating
  // ------------------------------------------------------------------

  function CreateFailure(s: Store, r: Request): Option<Failure> {
    if (r.id == ROOT) != r.parent.None? || (r.id == ROOT) != r.inputLog.None? then Some(InvalidRequest)
    else if r.id in s.nodes then None
    else if r.id == ROOT then None
    else if r.parent.value !in s.nodes then Some(NotFound)
    else if s.nodes[r.parent.value].status == Pruned then Some(FailedPrecondition)
    else None
  }

  predicate SameIdentity(n: Node, r: Request) {
    n.parent == r.parent && n.snapshot == r.snapshot && n.inputLog == r.inputLog
  }

  function Inserted(s: Store, id: NodeId, n: Node): Store
    requires id !in s.nodes && WellFormed(s) && (n.parent.Some? ==> n.parent.value in s.nodes)
  {
    var own := s.children[id := []];
    s.(nodes := s.nodes[id := n],
       children := if n.parent.None? then own
                   else
                     assert ListsChildren(s, n.parent.value);
                     own[n.parent.value := InsertSorted(s.children[n.parent.value], id)])
  }

  function Created(s: Store, r: Request): (Store, Result<Node, Failure>)
    requires WellFormed(s)
  {
    match CreateFailure(s, r)
    case Some(f) => (s, Err(f))
    case None =>
      if r.id in s.nodes then (s, if SameIdentity(s.nodes[r.id], r) then Ok(s.nodes[r.id]) else Err(AlreadyExists))
      else if s.clock == U64_MAX then (s, Err(Internal))
      else
        var now := s.clock + 1;
        var depth := if r.parent.None? then 0 else s.nodes[r.parent.value].depth + 1;
        if depth > U64_MAX then (s.(clock := now), Err(Internal))
        else
          var n := Node(r.parent, depth, r.snapshot, r.inputLog, r.status, 0, 0, 0, now, now);
          (Inserted(s, r.id, n).(clock := now), Ok(n))
  }

  // ------------------------------------------------------------------
  // Updating
  // ------------------------------------------------------------------

  function UpdatedNode(n: Node, u: Update, now: u64): Result<Node, Failure> {
    var m := if u.status.Some? then n.(status := u.status.value) else n;
    if m.visits + u.visitDelta > U64_MAX || m.expands + u.expandDelta > U64_MAX then Err(Internal)
    else
      Ok(m.(visits := m.visits + u.visitDelta, expands := m.expands + u.expandDelta,
            lastVisitedAt := if u.touchVisited then now else m.lastVisitedAt, updatedAt := now))
  }

  /** One update after the other, straight on the table; an overflow anywhere fails the whole. */
  function UpdatedInTurn(nodes: map<NodeId, Node>, updates: seq<Update>, now: u64): (r: Option<map<NodeId, Node>>)
    requires forall i :: 0 <= i < |updates| ==> updates[i].id in nodes
    ensures r.Some? ==> r.value.Keys == nodes.Keys
  {
    if updates == [] then Some(nodes)
    else
      var u := updates[|updates| - 1];
      match UpdatedInTurn(nodes, updates[..|updates| - 1], now)
      case None => None
      case Some(before) =>
        match UpdatedNode(before[u.id], u, now)
        case Err(_) => None
        case Ok(n) => Some(before[u.id := n])
  }

  function Updated(s: Store, updates: seq<Update>): (Store, Result<(u64, nat), Failure>) {
    var none: nat := 0;
    if updates == [] then (s, Ok((s.clock, none)))
    else if exists i :: 0 <= i < |updates| && updates[i].id !in s.nodes then (s, Err(NotFound))
    else if |updates| > U32_MAX then (s, Err(InvalidRequest))
    else if s.clock == U64_MAX then (s, Err(Internal))
    else
      var now: u64 := s.clock + 1;
      var applied: nat := |updates|;
      match UpdatedInTurn(s.nodes, updates, now)
      case None => (s, Err(Internal))
      case Some(nodes) => (s.(clock := now, nodes := nodes), Ok((now, applied)))
  }

  // ------------------------------------------------------------------
  // Descent and pruning
  // ------------------------------------------------------------------

  /** `a` is `x` or one of its ancestors. */
  ghost predicate Descends(s: Store, x: NodeId, a: NodeId)
    requires WellFormed(s) && x in s.nodes
    decreases s.nodes[x].depth
  {
    assert ParentAbove(s.nodes, x);
    x == a || (s.nodes[x].parent.Some? && Descends(s, s.nodes[x].parent.value, a))
  }

  ghost function Subtree(s: Store, id: NodeId): set<NodeId>
    requires WellFormed(s)
  {
    set x | x in s.nodes && Descends(s, x, id)
  }

  ghost function PrunedAll(nodes: map<NodeId, Node>, ids: set<NodeId>, now: u64): map<NodeId, Node> {
    map id | id in nodes :: if id in ids then nodes[id].(status := Pruned, updatedAt := now) else nodes[id]
  }

  ghost function PrunedSubtree(s: Store, id: NodeId, allowRoot: bool): (Store, Result<nat, Failure>)
    requires WellFormed(s)
  {
    if id == ROOT && !allowRoot then (s, Err(FailedPrecondition))
    else if id !in s.nodes then (s, Err(NotFound))
    else if s.clock == U64_MAX then (s, Err(Internal))
    else
      (s.(clock := s.clock + 1, nodes := PrunedAll(s.nodes, Subtree(s, id), s.clock + 1)), Ok(|Subtree(s, id)|))
  }

  ghost function Apply(s: Store, call: Call): Store
    requires WellFormed(s)
  {
    match call
    case Create(r) => Created(s, r).0
    case UpdateNodes(updates) => Updated(s, updates).0
    case PruneSubtree(id, allowRoot) => PrunedSubtree(s, id, allowRoot).0
  }
}
