/**
  The loops of resume (crates/orch-server/src/experiment.rs) on the mutable parts:
  grow the tree, put the statuses back row by row, assemble the commit state.
 */
module ResumeEngine {
  import opened Base
  import opened SearchTree
  import opened FrontierIndex
  import opened Mirrors
  import opened CommitRules
  import opened CommitEngine
  import opened Resume
  import opened Rebuild

  lemma {:induction false} LossStays(rows: seq<Row>, k: nat)
    requires 0 < k <= |rows| && Grown(rows[..k]).None?
    ensures Grown(rows).None?
  {
    if k == |rows| {
      assert rows[..k] == rows;
    } else {
      var front := rows[..|rows| - 1];
      assert front[..k] == rows[..k];
      LossStays(front, k);
    }
  }

  lemma {:induction false} PanicStays(start: State, rows: seq<Row>, weights: map<NodeId, Weight>, k: nat)
    requires k <= |rows| && Settled(start, rows[..k], weights).None?
    ensures Settled(start, rows, weights).None?
  {
    if k == |rows| {
      assert rows[..k] == rows;
    } else {
      var front := rows[..|rows| - 1];
      assert front[..k] == rows[..k];
      PanicStays(start, front, weights, k);
    }
  }

  lemma {:induction false} VisitedSize(t: TreeView, id: NodeId, times: nat)
    ensures |Visited(t, id, times).records| == |t.records|
    ensures Visited(t, id, times).childrenByNode == t.childrenByNode
  {
    if times == 0 {
    } else {
      VisitedSize(t, id, times - 1);
    }
  }

  /** Putting statuses back adds no node and moves no link. */
  lemma {:induction false} SettledSize(start: State, rows: seq<Row>, weights: map<NodeId, Weight>)
    requires Settled(start, rows, weights).Some?
    ensures var t := Settled(start, rows, weights).value.state.tree;
            |t.records| == |start.tree.records| && t.childrenByNode == start.tree.childrenByNode
  {
    if rows == [] {
    } else {
      var n := |rows| - 1;
      SettledSize(start, rows[..n], weights);
      var p := Settled(start, rows[..n], weights).value;
      if rows[n].id in weights { VisitedSize(p.state.tree, rows[n].id, weights[rows[n].id].visits); }
    }
  }

  lemma {:induction false} GrownOneMore(rows: seq<Row>, k: nat, t: TreeView)
    requires 0 < k < |rows| && Grown(rows[..k]) == Some(t)
    ensures Grown(rows[..k + 1])
         == if rows[k].parent.None? then None
            else
              var u := t.InsertChild(rows[k].parent.value, rows[k].payload);
              if u.Ok? && rows[k].id == k then Some(u.value) else None
  {
    assert rows[..k + 1][..k] == rows[..k];
  }

  method GrowTree(rows: seq<Row>) returns (tree: Tree?)
    ensures tree == null <==> Grown(rows).None?
    ensures tree != null ==> fresh(tree) && Grown(rows) == Some(tree.View())
  {
    if rows == [] || rows[0].id != ROOT {
      if rows != [] { LossStays(rows, 1); }
      return null;
    }
    var grown := new Tree(rows[0].payload);
    for k := 1 to |rows|
      invariant fresh(grown) && Grown(rows[..k]) == Some(grown.View())
    {
      GrownOneMore(rows, k, grown.View());
      if rows[k].parent.None? {
        LossStays(rows, k + 1);
        return null;
      }
      var given := grown.InsertChild(rows[k].parent.value, rows[k].payload);
      if given.Err? || given.value != rows[k].id {
        LossStays(rows, k + 1);
        return null;
      }
    }
    assert rows[..|rows|] == rows;
    tree := grown;
  }

  method CollectWeights(rows: seq<(NodeId, Weight)>) returns (weights: map<NodeId, Weight>)
    ensures weights == WeightsFrom(rows)
  {
    weights := map[];
    for k := 0 to |rows|
      invariant weights == WeightsFrom(rows[..k])
    {
      assert rows[..k + 1][..k] == rows[..k];
      weights := weights[rows[k].0 := rows[k].1];
    }
    assert rows[..|rows|] == rows;
  }

  method Visit(tree: Tree, id: NodeId, times: u32)
    modifies tree
    ensures tree.View() == Visited(old(tree.View()), id, times)
  {
    for k := 0 to times
      invariant tree.View() == Visited(old(tree.View()), id, k)
    {
      var ignored := tree.IncrementVisits(id);
    }
  }

  ghost function PartsOf(tree: Tree, frontier: Frontier, mirror: CellMirror, seen: SeenMap,
                         streaks: seq<(NodeId, u32)>): Parts
    reads tree, frontier, mirror, seen
  {
    Parts(State(tree.View(), frontier.Members(), mirror.counts, seen.routes, []), streaks)
  }

  /** The mirrors learn a state they do not know. */
  method CatchUp(mirror: CellMirror, seen: SeenMap, row: Row) returns (panicked: bool)
    requires mirror.Valid()
    modifies mirror, seen
    ensures mirror.Valid()
    ensures forall s: State :: s.cells == old(mirror.counts) && s.seen == old(seen.routes) ==>
              if panicked then CaughtUp(s, row).None?
              else CaughtUp(s, row) == Some(s.(cells := mirror.counts, seen := seen.routes))
  {
    if row.payload.stateHash in seen.routes { return false; }
    var existing := seen.Insert(row.payload.stateHash, row.id);
    var bumped := mirror.BumpBy(row.payload.cell, 1);
    panicked := bumped.None?;
  }

  /** One row's status and weight. */
  method Place(tree: Tree, frontier: Frontier, mirror: CellMirror, seen: SeenMap, streaks: seq<(NodeId, u32)>,
               row: Row, weights: map<NodeId, Weight>) returns (more: seq<(NodeId, u32)>)
    requires frontier.Valid()
    modifies tree, frontier
    ensures frontier.Valid()
    ensures PartsOf(tree, frontier, mirror, seen, more)
         == Placed(old(PartsOf(tree, frontier, mirror, seen, streaks)), row, weights)
  {
    more := streaks;
    match row.status {
      case Frontier =>
        var listed := frontier.Insert(row.id);
        if row.id in weights {
          Visit(tree, row.id, weights[row.id].visits);
          more := more + [(row.id, weights[row.id].streak as u32)];
        }
      case Goal =>
        var marked := tree.MarkGoal(row.id);
      case Expanded =>
        var marked := tree.MarkExpanded(row.id);
      case Pruned =>
        var marked := tree.MarkPruned(row.id);
    }
  }

  method Settle(tree: Tree, frontier: Frontier, mirror: CellMirror, seen: SeenMap, rows: seq<Row>,
                weights: map<NodeId, Weight>) returns (panicked: bool, streaks: seq<(NodeId, u32)>)
    requires frontier.Valid() && mirror.Valid()
    modifies tree, frontier, mirror, seen
    ensures frontier.Valid() && mirror.Valid()
    ensures Settled(old(PartsOf(tree, frontier, mirror, seen, []).state), rows, weights)
         == if panicked then None else Some(PartsOf(tree, frontier, mirror, seen, streaks))
  {
    streaks := [];
    ghost var start := PartsOf(tree, frontier, mirror, seen, []).state;
    for k := 0 to |rows|
      invariant frontier.Valid() && mirror.Valid()
      invariant Settled(start, rows[..k], weights) == Some(PartsOf(tree, frontier, mirror, seen, streaks))
    {
      assert rows[..k + 1][..k] == rows[..k];
      panicked := CatchUp(mirror, seen, rows[k]);
      if panicked {
        PanicStays(start, rows, weights, k + 1);
        return;
      }
      streaks := Place(tree, frontier, mirror, seen, streaks, rows[k], weights);
    }
    assert rows[..|rows|] == rows;
    panicked := false;
  }

  datatype Recovered = Engine(state: CommitState) | Lost | Unwound

  /** Resume as a whole: the commit state it builds is the one `ResumeFrom` says. */
  method Recover(c: Checkpoint, rows: seq<Row>) returns (r: Recovered)
    ensures match ResumeFrom(c, rows)
            case DataLoss => r == Lost
            case Panicked => r == Unwound
            case Resumed(s) => r.Engine? && fresh(r.state) && r.state.Valid() && r.state.View() == s
  {
    var tree := GrowTree(rows);
    if tree == null { return Lost; }
    var weights := CollectWeights(c.frontier);
    var frontier := new Frontier();
    var mirror := new CellMirror.FromSortedCounts(c.cellMirror);
    var seen := new SeenMap.FromSortedEntries(c.seen);
    ghost var start := PartsOf(tree, frontier, mirror, seen, []).state;
    var panicked, streaks := Settle(tree, frontier, mirror, seen, rows, weights);
    if panicked { return Unwound; }
    SettledSize(start, rows, weights);
    var state := new CommitState.FromParts(tree, frontier, mirror, seen, streaks);
    r := Engine(state);
  }
}
