/** The store itself, one experiment (crates/orch-fakes/src/snapshot_store.rs). */
module SnapshotStore {
  import opened Base
  import opened StoreRules
  import opened StoreProofs
  import opened StoreWalks

  /** The path from the root down to a node. */
  ghost function PathTo(s: Store, id: NodeId): seq<NodeId>
    requires WellFormed(s) && id in s.nodes
    decreases s.nodes[id].depth
  {
    assert ParentAbove(s.nodes, id);
    (if s.nodes[id].parent.None? then [] else PathTo(s, s.nodes[id].parent.value)) + [id]
  }

  /** It starts at the root, steps from parent to child and has one entry more than the node's depth. */
  lemma {:induction false} PathRuns(s: Store, id: NodeId)
    requires WellFormed(s) && id in s.nodes
    ensures var path := PathTo(s, id);
            && |path| == s.nodes[id].depth + 1 && path[0] == ROOT && path[|path| - 1] == id
            && (forall i :: 0 <= i < |path| ==> path[i] in s.nodes)
            && (forall i :: 0 <= i < |path| - 1 ==> s.nodes[path[i + 1]].parent == Some(path[i]))
    decreases s.nodes[id].depth
  {
    assert ParentAbove(s.nodes, id);
    if s.nodes[id].parent.Some? { PathRuns(s, s.nodes[id].parent.value); }
  }

  lemma {:induction false} FailureSticks(nodes: map<NodeId, Node>, updates: seq<Update>, now: u64, k: nat)
    requires forall i :: 0 <= i < |updates| ==> updates[i].id in nodes
    requires k <= |updates| && UpdatedInTurn(nodes, updates[..k], now).None?
    ensures UpdatedInTurn(nodes, updates, now).None?
  {
    if k == |updates| {
      assert updates[..k] == updates;
    } else {
      assert updates[..|updates| - 1][..k] == updates[..k];
      FailureSticks(nodes, updates[..|updates| - 1], now, k);
    }
  }

  lemma {:induction false} ListedOnce(s: seq<NodeId>, elements: set<NodeId>)
    requires NoRepeats(s) && forall x :: x in s <==> x in elements
    ensures |elements| == |s|
  {
    if s == [] {
      assert elements == {};
    } else {
      var last := s[|s| - 1];
      assert s == s[..|s| - 1] + [last];
      ListedOnce(s[..|s| - 1], elements - {last});
      assert |elements| == |elements - {last}| + 1;
    }
  }

  /** Popping a node and pushing its children takes one step of the walk. */
  lemma {:induction false} StepOfWalk(s: Store, id: NodeId, rest: seq<NodeId>, limit: nat)
    requires WellFormed(s) && Shallow(s, limit) && id in s.nodes
    requires forall i :: 0 <= i < |rest| ==> rest[i] in s.nodes
    ensures id in s.children && forall i :: 0 <= i < |s.children[id] + rest| ==> (s.children[id] + rest)[i] in s.nodes
    ensures PreorderAll(s, [id] + rest, 0, limit) == [id] + PreorderAll(s, s.children[id] + rest, 0, limit)
  {
    var ids := s.children[id];
    ChildrenBelow(s, id);
    DepthIsFree(s, ids, s.nodes[id].depth + 1, limit);
    AllSplits(s, ids, rest, limit);
    assert ([id] + rest)[1..] == rest;
  }

  class InMemorySnapshotStore {
    var clock: u64
    var nodes: map<NodeId, Node>
    var children: map<NodeId, seq<NodeId>>

    ghost function View(): Store
      reads this
    {
      Store(clock, nodes, children)
    }

    constructor ()
      ensures View() == EMPTY && WellFormed(View())
    {
      clock, nodes, children := 0, map[], map[];
    }

    method InsertNode(id: NodeId, n: Node)
      requires WellFormed(View()) && id !in nodes && (n.parent.Some? ==> n.parent.value in nodes)
      modifies `nodes, `children
      ensures View() == Inserted(old(View()), id, n)
    {
      children := children[id := []];
      if n.parent.Some? {
        var p := n.parent.value;
        assert ListsChildren(old(View()), p);
        children := children[p := InsertSorted(children[p], id)];
      }
      nodes := nodes[id := n];
    }

    method CreateNode(r: Request) returns (reply: Result<Node, Failure>)
      requires WellFormed(View())
      modifies this
      ensures (View(), reply) == Created(old(View()), r) && WellFormed(View())
    {
      ApplyKeeps(View(), Create(r));
      if (r.id == ROOT) != r.parent.None? || (r.id == ROOT) != r.inputLog.None? { return Err(InvalidRequest); }
      if r.id in nodes {
        return if SameIdentity(nodes[r.id], r) then Ok(nodes[r.id]) else Err(AlreadyExists);
      }
      if r.id != ROOT {
        if r.parent.value !in nodes { return Err(NotFound); }
        if nodes[r.parent.value].status == Pruned { return Err(FailedPrecondition); }
      }
      if clock == U64_MAX { return Err(Internal); }
      var depth := if r.parent.None? then 0 else nodes[r.parent.value].depth + 1;
      if depth > U64_MAX {
        clock := clock + 1;
        return Err(Internal);
      }
      var n := Node(r.parent, depth, r.snapshot, r.inputLog, r.status, 0, 0, 0, clock + 1, clock + 1);
      InsertNode(r.id, n);
      clock := clock + 1;
      return Ok(n);
    }

    /** Stages every update on copies, then writes the copies back together. */
    method StageUpdates(updates: seq<Update>, now: u64) returns (staged: Option<map<NodeId, Node>>)
      requires forall i :: 0 <= i < |updates| ==> updates[i].id in nodes
      ensures match UpdatedInTurn(nodes, updates, now)
              case None => staged.None?
              case Some(after) => staged.Some? && nodes + staged.value == after
    {
      var copies: map<NodeId, Node> := map[];
      assert nodes + copies == nodes;
      for k := 0 to |updates|
        invariant UpdatedInTurn(nodes, updates[..k], now) == Some(nodes + copies) && copies.Keys <= nodes.Keys
      {
        assert updates[..k + 1][..k] == updates[..k];
        var u := updates[k];
        var current := if u.id in copies then copies[u.id] else nodes[u.id];
        var changed := UpdatedNode(current, u, now);
        if changed.Err? {
          assert UpdatedInTurn(nodes, updates[..k + 1], now).None?;
          FailureSticks(nodes, updates, now, k + 1);
          return None;
        }
        assert (nodes + copies)[u.id := changed.value] == nodes + copies[u.id := changed.value];
        copies := copies[u.id := changed.value];
      }
      assert updates[..|updates|] == updates;
      return Some(copies);
    }

    method UpdateNodes(updates: seq<Update>) returns (reply: Result<(u64, nat), Failure>)
      requires WellFormed(View())
      modifies `clock, `nodes
      ensures (View(), reply) == Updated(old(View()), updates) && WellFormed(View())
    {
      ApplyKeeps(View(), StoreRules.UpdateNodes(updates));
      if updates == [] { return Ok((clock, 0)); }
      for k := 0 to |updates|
        invariant forall i :: 0 <= i < k ==> updates[i].id in nodes
      {
        if updates[k].id !in nodes { return Err(NotFound); }
      }
      if |updates| > U32_MAX { return Err(InvalidRequest); }
      if clock == U64_MAX { return Err(Internal); }
      var staged := StageUpdates(updates, clock + 1);
      if staged.None? { return Err(Internal); }
      clock := clock + 1;
      nodes := nodes + staged.value;
      return Ok((clock, |updates|));
    }

    /** Walks the parent links; it ends because depths fall. */
    method GetPath(id: NodeId) returns (r: Result<seq<NodeId>, Failure>)
      requires WellFormed(View())
      ensures r == if id in nodes then Ok(PathTo(View(), id)) else Err(NotFound)
    {
      if id !in nodes { return Err(NotFound); }
      var path: seq<NodeId> := [];
      var current := id;
      while true
        invariant current in nodes && PathTo(View(), current) + Reversed(path) == PathTo(View(), id)
        decreases nodes[current].depth
      {
        assert ParentAbove(View().nodes, current);
        assert (path + [current])[..|path|] == path;
        path := path + [current];
        match nodes[current].parent {
          case Some(parent) => current := parent;
          case None =>
            assert PathTo(View(), current) == [current];
            return Ok(Reversed(path));
        }
      }
    }

    /** Pushes the children so that the smallest comes off the stack first. */
    method PushReversed(stack: seq<NodeId>, ids: seq<NodeId>) returns (r: seq<NodeId>)
      ensures Reversed(r) == ids + Reversed(stack)
    {
      r := stack;
      for k := |ids| downto 0
        invariant Reversed(r) == ids[k..] + Reversed(stack)
      {
        assert (r + [ids[k]])[..|r|] == r;
        r := r + [ids[k]];
      }
    }

    /** Depth first with an explicit stack: the preorder walk of the subtree. */
    method SubtreeIds(root: NodeId) returns (out: seq<NodeId>)
      requires WellFormed(View()) && root in nodes
      ensures NoRepeats(out) && forall x :: x in out <==> x in Subtree(View(), root)
    {
      ghost var s, limit := View(), U64_MAX + 1;
      var stack := [root];
      out := [];
      assert [root][1..] == [] && Reversed(stack) == [root];
      assert PreorderAll(s, [root], 0, limit) == Preorder(s, root, limit);
      while stack != []
        invariant forall i :: 0 <= i < |Reversed(stack)| ==> Reversed(stack)[i] in nodes
        invariant out + PreorderAll(s, Reversed(stack), 0, limit) == Preorder(s, root, limit)
        decreases |PreorderAll(s, Reversed(stack), 0, limit)|
      {
        var id := stack[|stack| - 1];
        ghost var rest := Reversed(stack[..|stack| - 1]);
        assert Reversed(stack) == [id] + rest;
        StepOfWalk(s, id, rest, limit);
        stack := PushReversed(stack[..|stack| - 1], children[id]);
        out := out + [id];
      }
      assert out == Preorder(s, root, limit);
      PreorderOnce(s, root, limit);
      forall x ensures x in out <==> x in Subtree(s, root) { PreorderIsSubtree(s, root, limit, x); }
    }

    method MarkPruned(ids: seq<NodeId>, ghost doomed: set<NodeId>, now: u64)
      requires NoRepeats(ids) && (forall i :: 0 <= i < |ids| ==> ids[i] in nodes)
      requires forall x :: x in doomed <==> x in ids
      modifies `nodes
      ensures nodes == PrunedAll(old(nodes), doomed, now)
    {
      for k := 0 to |ids|
        invariant nodes.Keys == old(nodes.Keys)
        invariant forall x :: x in nodes ==>
                    nodes[x] == if x in ids[..k] then old(nodes[x]).(status := Pruned, updatedAt := now)
                                else old(nodes[x])
      {
        assert ids[..k + 1] == ids[..k] + [ids[k]];
        nodes := nodes[ids[k] := nodes[ids[k]].(status := Pruned, updatedAt := now)];
      }
      assert ids[..|ids|] == ids;
    }

    method PruneSubtree(id: NodeId, allowRoot: bool) returns (r: Result<nat, Failure>)
      requires WellFormed(View())
      modifies `clock, `nodes
      ensures (View(), r) == PrunedSubtree(old(View()), id, allowRoot) && WellFormed(View())
    {
      ApplyKeeps(View(), StoreRules.PruneSubtree(id, allowRoot));
      if id == ROOT && !allowRoot { return Err(FailedPrecondition); }
      if id !in nodes { return Err(NotFound); }
      var subtree := SubtreeIds(id);
      if clock == U64_MAX { return Err(Internal); }
      clock := clock + 1;
      assert forall i :: 0 <= i < |subtree| ==> subtree[i] in subtree;
      ListedOnce(subtree, Subtree(old(View()), id));
      MarkPruned(subtree, Subtree(old(View()), id), clock);
      return Ok(|subtree|);
    }
  }
}
