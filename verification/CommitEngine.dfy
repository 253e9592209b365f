/**
  The mutable commit state (crates/orch-core/src/commit.rs): the parts are owned
  objects updated in place, child by child. Every method is proved to produce
  exactly the state and reply of the rules in `CommitRules`.
 */
module CommitEngine {
  import opened Base
  import opened SearchTree
  import opened FrontierIndex
  import opened Mirrors
  import opened CommitRules
  import Spec = CommitRules

  class CommitState {
    const tree: Tree
    const frontier: Frontier
    const cellMirror: CellMirror
    const seen: SeenMap
    var allDuplicateStreaks: seq<u32>

    ghost predicate Valid()
      reads this, tree, frontier, cellMirror
    {
      && |tree.records| == |tree.childrenByNode|
      && frontier.Valid()
      && cellMirror.Valid()
    }

    ghost function View(): State
      reads this, tree, frontier, cellMirror, seen
    {
      State(tree.View(), frontier.Members(), cellMirror.counts, seen.routes, allDuplicateStreaks)
    }

    constructor FromRoot(payload: Payload)
      ensures Valid() && fresh(tree) && fresh(frontier) && fresh(cellMirror) && fresh(seen)
      ensures View() == InitialState(payload)
    {
      tree := new Tree(payload);
      frontier := new Frontier.WithRoot();
      var cells := new CellMirror();
      var bumped := cells.BumpBy(payload.cell, 1);
      cellMirror := cells;
      var routes := new SeenMap();
      var first := routes.Insert(payload.stateHash, ROOT);
      seen := routes;
      allDuplicateStreaks := [0];
    }

    method EnsureTracking(id: NodeId)
      modifies this
      ensures allDuplicateStreaks == old(View().Track(id)).streaks
    {
      if |allDuplicateStreaks| <= id {
        allDuplicateStreaks := allDuplicateStreaks + seq(id + 1 - |allDuplicateStreaks|, _ => 0);
      }
    }

    /** The resume constructor: recovered parts plus the streaks a checkpoint kept. */
    constructor FromParts(tree: Tree, frontier: Frontier, cellMirror: CellMirror, seen: SeenMap,
                          streaks: seq<(NodeId, u32)>)
      requires |tree.records| == |tree.childrenByNode| && frontier.Valid() && cellMirror.Valid()
      ensures Valid()
      ensures this.tree == tree && this.frontier == frontier && this.cellMirror == cellMirror && this.seen == seen
      ensures View() == Rebuilt(tree.View(), frontier.Members(), cellMirror.counts, seen.routes, streaks)
    {
      this.tree := tree;
      this.frontier := frontier;
      this.cellMirror := cellMirror;
      this.seen := seen;
      var table: seq<u32> := seq(|tree.records|, _ => 0);
      for k := 0 to |streaks|
        invariant table == StreaksFrom(|tree.records|, streaks[..k])
      {
        assert streaks[..k + 1][..k] == streaks[..k];
        if streaks[k].0 < |table| { table := table[streaks[k].0 := streaks[k].1]; }
      }
      assert streaks[..|streaks|] == streaks;
      allDuplicateStreaks := table;
    }

    method Attach(parent: NodeId, payload: Payload) returns (r: Result<NodeId, TreeError>)
      requires Valid()
      modifies this, tree, seen
      ensures Valid()
      ensures match Spec.Attach(old(View()), parent, payload)
              case Ok(s) => View() == s && r == Ok(old(|tree.records|))
              case Err(e) => View() == old(View()) && r == Err(e)
    {
      r := tree.InsertChild(parent, payload);
      if r.Ok? {
        EnsureTracking(r.value);
        var route := seen.Insert(payload.stateHash, r.value);
      }
    }

    method PruneChild(parent: NodeId, payload: Payload) returns (r: Reply<ChildCommit>)
      requires Valid()
      modifies this, tree, cellMirror, seen
      ensures Valid()
      ensures (View(), r) == Spec.PruneChild(old(View()), parent, payload)
    {
      var inserted := Attach(parent, payload);
      if inserted.Err? { return Error(TreeFailure(inserted.error)); }
      var marked := tree.MarkPruned(inserted.value);
      assert marked.Ok?;
      var bumped := cellMirror.BumpBy(payload.cell, 1);
      if bumped.None? { return Panic; }
      r := Value(ChildCommit(PrunedExhausted, Some(inserted.value), None));
    }

    method RouteDuplicate(parent: NodeId, payload: Payload) returns (r: Reply<ChildCommit>)
      requires Valid()
      modifies tree, cellMirror
      ensures Valid()
      ensures (View(), r) == Spec.RouteDuplicate(old(View()), parent, payload)
    {
      var bumped := cellMirror.BumpBy(payload.cell, 1);
      if bumped.None? { return Panic; }
      var route := if payload.stateHash in seen.routes then Some(seen.routes[payload.stateHash]) else None;
      if route.Some? && route.value != parent {
        var visited := tree.IncrementVisits(route.value);
        if visited.Err? { return Error(TreeFailure(visited.error)); }
      }
      r := Value(ChildCommit(DiscardDuplicate, None, route));
    }

    method KeepChild(parent: NodeId, payload: Payload, goal: bool) returns (r: Reply<ChildCommit>)
      requires Valid()
      modifies this, tree, frontier, cellMirror, seen
      ensures Valid()
      ensures (View(), r) == Spec.KeepChild(old(View()), parent, payload, goal)
    {
      var inserted := Attach(parent, payload);
      if inserted.Err? { return Error(TreeFailure(inserted.error)); }
      var bumped := cellMirror.BumpBy(payload.cell, 1);
      if bumped.None? { return Panic; }
      var listed := frontier.Insert(inserted.value);
      if listed.Err? {
        assert frontier.Members() == old(frontier.Members());
        return Error(FrontierFailure(listed.error));
      }
      if goal {
        var marked := tree.MarkGoal(inserted.value);
        assert marked.Ok?;
      }
      r := Value(ChildCommit(Keep, Some(inserted.value), None));
    }

    method CommitChild(parent: NodeId, parentScore: real, child: ScoredChild, rules: Rules)
      returns (r: Reply<ChildCommit>)
      requires Valid()
      modifies this, tree, frontier, cellMirror, seen
      ensures Valid()
      ensures (View(), r) == Spec.CommitChild(old(View()), parent, parentScore, child, rules)
    {
      if child.prune {
        if rules.pruneAction == Drop { return Value(ChildCommit(DiscardPruneDrop, None, None)); }
        r := PruneChild(parent, child.payload);
        return;
      }
      if child.duplicate {
        r := RouteDuplicate(parent, child.payload);
        return;
      }
      var worseThanParent := child.payload.score + rules.epsilonKeep < parentScore;
      var knownCell := cellMirror.Count(child.payload.cell) > 0;
      if worseThanParent && knownCell { return Value(ChildCommit(DiscardRegression, None, None)); }
      r := KeepChild(parent, child.payload, child.goal);
    }

    method UpdateParentExhaustion(parent: NodeId, parentVisits: u32, allDuplicate: bool, rules: Rules)
      returns (r: Reply<Option<EvictReason>>)
      requires Valid()
      modifies this, tree, frontier
      ensures Valid()
      ensures (View(), r) == Spec.UpdateParentExhaustion(old(View()), parent, parentVisits, allDuplicate, rules)
    {
      EnsureTracking(parent);
      if allDuplicate {
        if allDuplicateStreaks[parent] == U32_MAX { return Panic; }
        allDuplicateStreaks := allDuplicateStreaks[parent := allDuplicateStreaks[parent] + 1];
      } else {
        allDuplicateStreaks := allDuplicateStreaks[parent := 0];
      }
      var reason :=
        if parentVisits >= rules.maxVisitsPerNode then Some(MaxVisits)
        else if allDuplicateStreaks[parent] >= rules.exhaustAfterDupExpansions then Some(AllDuplicateExpansions)
        else None;
      if reason.Some? {
        var marked := tree.MarkExhausted(parent);
        if marked.Err? { return Error(TreeFailure(marked.error)); }
        var listed := frontier.Contains(parent);
        if listed {
          var removed := frontier.Remove(parent);
          assert removed.Ok?;
        } else {
          assert frontier.Members() - {parent} == frontier.Members();
        }
      }
      r := Value(reason);
    }

    method CommitBatch(parent: NodeId, children: seq<ScoredChild>, rules: Rules) returns (r: Reply<BatchOutcome>)
      requires Valid()
      modifies this, tree, frontier, cellMirror, seen
      ensures Valid()
      ensures (View(), r) == Spec.CommitBatch(old(View()), parent, children, rules)
    {
      if RuleFault(rules).Some? { return Error(InvalidRule(RuleFault(rules).value)); }
      if parent >= |tree.records| { return Error(ParentNotFound(parent)); }
      var parentScore := tree.records[parent].payload.score;
      var childCommits: seq<ChildCommit> := [];
      var goalNode: Option<NodeId> := None;
      ghost var s0 := View();

      for k := 0 to |children|
        invariant Valid() && |childCommits| == k
        invariant (View(), Value(childCommits)) == Spec.CommitChildren(s0, parent, parentScore, children[..k], rules)
        invariant goalNode == GoalNode(children[..k], childCommits)
      {
        assert children[..k + 1][..k] == children[..k];
        var commit := CommitChild(parent, parentScore, children[k], rules);
        if commit.Value? {
          if children[k].goal && commit.value.disposition == Keep && commit.value.nodeId.Some? && goalNode.None? {
            goalNode := commit.value.nodeId;
          }
          assert (childCommits + [commit.value])[..k] == childCommits;
          childCommits := childCommits + [commit.value];
        } else {
          FailureStops(s0, parent, parentScore, children, k, rules);
          if commit.Panic? { return Panic; }
          return Error(commit.error);
        }
      }
      assert children[..|children|] == children;

      var visited := tree.IncrementVisits(parent);
      if visited.Err? { return Error(TreeFailure(visited.error)); }
      var allDuplicate := childCommits != [] &&
        forall i :: 0 <= i < |childCommits| ==> childCommits[i].disposition == DiscardDuplicate;
      var evicted := UpdateParentExhaustion(parent, visited.value, allDuplicate, rules);
      if evicted.Panic? { return Panic; }
      if evicted.Error? { return Error(evicted.error); }
      r := Value(BatchOutcome(parent, visited.value, childCommits, evicted.value, goalNode));
    }
  }
}
