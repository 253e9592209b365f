/** Every call keeps the tree. */
module StoreProofs {
  import opened Base
  import opened StoreRules

  /** A change that keeps every parent, depth and children list keeps the tree. */
  lemma {:induction false} LinksKept(s: Store, after: Store)
    requires WellFormed(s) && after.children == s.children && after.nodes.Keys == s.nodes.Keys
    requires forall id :: id in s.nodes ==>
               after.nodes[id].parent == s.nodes[id].parent && after.nodes[id].depth == s.nodes[id].depth
    ensures WellFormed(after)
  {
    forall id | id in after.nodes ensures ParentAbove(after.nodes, id) { assert ParentAbove(s.nodes, id); }
    forall id | id in after.children ensures ListsChildren(after, id) { assert ListsChildren(s, id); }
  }

  lemma {:induction false} InsertKeeps(s: Store, id: NodeId, n: Node)
    requires WellFormed(s) && id !in s.nodes
    requires (id == ROOT) == n.parent.None? && (n.parent.None? ==> n.depth == 0)
    requires n.parent.Some? ==> n.parent.value in s.nodes && n.depth == s.nodes[n.parent.value].depth + 1
    ensures WellFormed(Inserted(s, id, n))
  {
    var after := Inserted(s, id, n);
    forall x | x in after.nodes ensures ParentAbove(after.nodes, x) {
      if x != id { assert ParentAbove(s.nodes, x); }
    }
    forall x | x in after.children ensures ListsChildren(after, x) {
      if x != id { assert ListsChildren(s, x); }
      forall c | c in s.nodes ensures s.nodes[c].parent != Some(id) { assert ParentAbove(s.nodes, c); }
    }
  }

  lemma {:induction false} UpdatesKeepLinks(nodes: map<NodeId, Node>, updates: seq<Update>, now: u64, x: NodeId)
    requires forall i :: 0 <= i < |updates| ==> updates[i].id in nodes
    requires UpdatedInTurn(nodes, updates, now).Some? && x in nodes
    ensures var after := UpdatedInTurn(nodes, updates, now).value[x];
            after.parent == nodes[x].parent && after.depth == nodes[x].depth
  {
    if updates == [] {
    } else {
      UpdatesKeepLinks(nodes, updates[..|updates| - 1], now, x);
    }
  }

  lemma {:induction false} ApplyKeeps(s: Store, call: Call)
    requires WellFormed(s)
    ensures WellFormed(Apply(s, call))
  {
    match call
    case Create(r) =>
      LinksKept(s, s.(clock := Min(s.clock + 1, U64_MAX)));
      if CreateFailure(s, r).None? && r.id !in s.nodes && s.clock < U64_MAX {
        var depth := if r.parent.None? then 0 else s.nodes[r.parent.value].depth + 1;
        if depth <= U64_MAX {
          var n := Node(r.parent, depth, r.snapshot, r.inputLog, r.status, 0, 0, 0, s.clock + 1, s.clock + 1);
          InsertKeeps(s, r.id, n);
          LinksKept(Inserted(s, r.id, n), Inserted(s, r.id, n).(clock := s.clock + 1));
        }
      }
    case UpdateNodes(updates) =>
      var after := Updated(s, updates).0;
      if after != s {
        forall x | x in s.nodes
          ensures after.nodes[x].parent == s.nodes[x].parent && after.nodes[x].depth == s.nodes[x].depth
        {
          UpdatesKeepLinks(s.nodes, updates, s.clock + 1, x);
        }
        LinksKept(s, after);
      }
    case PruneSubtree(id, allowRoot) => LinksKept(s, PrunedSubtree(s, id, allowRoot).0);
  }

  /** The store after a run of calls: whatever they were, it is a tree. */
  ghost function Reached(calls: seq<Call>): (s: Store)
    ensures WellFormed(s)
  {
    if calls == [] then EMPTY
    else
      var before := Reached(calls[..|calls| - 1]);
      ApplyKeeps(before, calls[|calls| - 1]);
      Apply(before, calls[|calls| - 1])
  }
}
