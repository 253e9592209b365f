/**
  The in-memory search tree: dense node records plus a child index
  (crates/orch-core/src/tree.rs). `TreeView` is the value a `Tree` object holds;
  the `Tree` methods update the two vectors in place and are proved against the
  view's operations.
 */
module SearchTree {
  import opened Base

  type NodeId = nat
  type CellKey = nat
  /** A 32-byte digest, read as the big-endian number its byte order compares by. */
  type StateHash = nat

  const ROOT: NodeId := 0

  datatype Payload = Payload(snapshot: nat, score: real, noveltyAtCommit: real, cell: CellKey,
                             stateHash: StateHash, stage: u16, frameCounter: u32)

  datatype NodeStatus = Frontier | Expanded | Pruned | Goal

  datatype NodeRecord = NodeRecord(id: NodeId, parent: Option<NodeId>, depth: u32, payload: Payload,
                                   visits: u32, children: u32, exhausted: bool, goal: bool,
                                   status: NodeStatus)
  {
    predicate IsFrontierCandidate() { status.Frontier? && !exhausted }
  }

  datatype TreeError =
    | MissingParent(parent: NodeId)
    | NodeNotFound(id: NodeId)
    | DepthOverflow(parent: NodeId)
    | ChildCountOverflow(parent: NodeId)
    | VisitOverflow(id: NodeId)
    | TerminalGoalNode(id: NodeId)
    | TerminalPrunedNode(id: NodeId)

  function FreshRecord(id: NodeId, parent: Option<NodeId>, depth: u32, payload: Payload): NodeRecord {
    NodeRecord(id, parent, depth, payload, 0, 0, false, false, Frontier)
  }

  datatype TreeView = TreeView(records: seq<NodeRecord>, childrenByNode: seq<seq<NodeId>>) {

    predicate Has(id: NodeId) { id < |records| }

    /** Links agree in both directions, ids are dense and parents come before children. */
    ghost predicate WellFormed() {
      && 0 < |records| == |childrenByNode|
      && (forall i :: 0 <= i < |records| ==> records[i].id == i)
      && records[0].parent == None && records[0].depth == 0
      && (forall i :: 0 < i < |records| ==> LinkedUp(i))
      && (forall i :: 0 <= i < |records| ==> LinkedDown(i))
    }

    ghost predicate LinkedUp(i: nat)
      requires 0 < i < |records|
    {
      && records[i].parent.Some?
      && records[i].parent.value < i
      && records[i].depth == records[records[i].parent.value].depth + 1
    }

    ghost predicate LinkedDown(i: nat)
      requires i < |records| == |childrenByNode|
    {
      && Lists(childrenByNode[i], set c | 0 <= c < |records| && records[c].parent == Some(i))
      && records[i].children == |childrenByNode[i]|
    }

    function InsertChild(parent: NodeId, payload: Payload): Result<TreeView, TreeError>
      requires |records| == |childrenByNode|
    {
      if !Has(parent) then Err(MissingParent(parent))
      else if records[parent].depth == U32_MAX then Err(DepthOverflow(parent))
      else if records[parent].children == U32_MAX then Err(ChildCountOverflow(parent))
      else
        var up := records[parent];
        Ok(TreeView(
             records[parent := up.(children := up.children + 1)] +
             [FreshRecord(|records|, Some(parent), up.depth + 1, payload)],
             childrenByNode[parent := childrenByNode[parent] + [|records|]] + [[]]))
    }

    function IncrementVisits(id: NodeId): Result<TreeView, TreeError> {
      if !Has(id) then Err(NodeNotFound(id))
      else if records[id].visits == U32_MAX then Err(VisitOverflow(id))
      else Ok(this.(records := records[id := records[id].(visits := records[id].visits + 1)]))
    }

    function MarkExpanded(id: NodeId): Result<TreeView, TreeError> {
      if !Has(id) then Err(NodeNotFound(id))
      else
        var r := records[id];
        Ok(if r.goal || r.status == Pruned then this else this.(records := records[id := r.(status := Expanded)]))
    }

    function MarkExhausted(id: NodeId): Result<TreeView, TreeError> {
      if !Has(id) then Err(NodeNotFound(id))
      else
        var r := records[id];
        if r.status == Goal || r.goal then Err(TerminalGoalNode(id))
        else Ok(this.(records := records[id := r.(exhausted := true,
                                                  status := if r.status == Pruned then Pruned else Expanded)]))
    }

    function MarkGoal(id: NodeId): Result<TreeView, TreeError> {
      if !Has(id) then Err(NodeNotFound(id))
      else if records[id].status == Pruned then Err(TerminalPrunedNode(id))
      else Ok(this.(records := records[id := records[id].(goal := true, exhausted := false, status := Goal)]))
    }

    function MarkPruned(id: NodeId): Result<TreeView, TreeError> {
      if !Has(id) then Err(NodeNotFound(id))
      else if records[id].status == Goal || records[id].goal then Err(TerminalGoalNode(id))
      else Ok(this.(records := records[id := records[id].(exhausted := true, goal := false, status := Pruned)]))
    }

    /** The parent chain from the root down to `id`. */
    ghost function Path(id: NodeId): seq<NodeId>
      requires WellFormed() && Has(id)
      decreases id
    {
      if id == ROOT then [ROOT]
      else
        assert LinkedUp(id);
        Path(records[id].parent.value) + [id]
    }
  }

  function RootTree(payload: Payload): TreeView {
    TreeView([FreshRecord(ROOT, None, 0, payload)], [[]])
  }

  lemma {:induction false} RootTreeIsWellFormed(payload: Payload)
    ensures RootTree(payload).WellFormed()
  {
    var t := RootTree(payload);
    assert (set c | 0 <= c < |t.records| && t.records[c].parent == Some(0)) == {};
  }

  /** Same links and same payloads: all that visit and status updates leave alone. */
  ghost predicate SameShape(a: TreeView, b: TreeView) {
    && a.childrenByNode == b.childrenByNode
    && |a.records| == |b.records|
    && forall i :: 0 <= i < |a.records| ==>
         a.records[i].(visits := b.records[i].visits, exhausted := b.records[i].exhausted,
                       goal := b.records[i].goal, status := b.records[i].status) == b.records[i]
  }

  lemma {:induction false} ShapeKeepsLinks(a: TreeView, b: TreeView)
    requires a.WellFormed() && SameShape(a, b)
    ensures b.WellFormed()
  {
    forall i | 0 < i < |b.records| ensures b.LinkedUp(i) { assert a.LinkedUp(i); }
    forall i | 0 <= i < |b.records| ensures b.LinkedDown(i) {
      assert a.LinkedDown(i);
      assert (set c | 0 <= c < |a.records| && a.records[c].parent == Some(i))
          == (set c | 0 <= c < |b.records| && b.records[c].parent == Some(i));
    }
  }

  lemma {:induction false} InsertKeepsLinks(t: TreeView, parent: NodeId, payload: Payload)
    requires t.WellFormed()
    ensures t.InsertChild(parent, payload).Ok? ==> t.InsertChild(parent, payload).value.WellFormed()
  {
    var r := t.InsertChild(parent, payload);
    if r.Ok? {
      var n := |t.records|;
      var u := r.value;
      forall i | 0 < i < |u.records| ensures u.LinkedUp(i) { if i < n { assert t.LinkedUp(i); } }
      forall i | 0 <= i < |u.records| ensures u.LinkedDown(i) {
        var now := set c | 0 <= c < |u.records| && u.records[c].parent == Some(i);
        if i == n {
          forall c | 0 <= c < |u.records| ensures u.records[c].parent != Some(n) {
            if 0 < c < n { assert t.LinkedUp(c); }
          }
        } else {
          assert t.LinkedDown(i);
          var before := set c | 0 <= c < n && t.records[c].parent == Some(i);
          assert now == if i == parent then before + {n} else before;
          assert u.childrenByNode[i] == if i == parent then t.childrenByNode[i] + [n] else t.childrenByNode[i];
          if i == parent {
            assert u.childrenByNode[i][|t.childrenByNode[i]|] == n;
            forall x | x in now ensures x in u.childrenByNode[i] {
              if x != n { assert x in t.childrenByNode[i]; }
            }
          }
        }
      }
    }
  }

  lemma {:induction false} PathRuns(t: TreeView, id: NodeId)
    requires t.WellFormed() && t.Has(id)
    ensures |t.Path(id)| == t.records[id].depth + 1
    ensures t.Path(id)[0] == ROOT && t.Path(id)[|t.Path(id)| - 1] == id
    ensures forall k :: 0 < k < |t.Path(id)| ==>
              t.Has(t.Path(id)[k]) && t.records[t.Path(id)[k]].parent == Some(t.Path(id)[k - 1])
    decreases id
  {
    if id == ROOT {
    } else {
      assert t.LinkedUp(id);
      PathRuns(t, t.records[id].parent.value);
    }
  }

  class Tree {
    var records: seq<NodeRecord>
    var childrenByNode: seq<seq<NodeId>>

    ghost function View(): TreeView
      reads this
    {
      TreeView(records, childrenByNode)
    }

    constructor (payload: Payload)
      ensures View() == RootTree(payload)
    {
      records := [FreshRecord(ROOT, None, 0, payload)];
      childrenByNode := [[]];
    }

    method InsertChild(parent: NodeId, payload: Payload) returns (r: Result<NodeId, TreeError>)
      requires |records| == |childrenByNode|
      modifies this
      ensures match old(View()).InsertChild(parent, payload)
              case Ok(v) => View() == v && r == Ok(old(|records|))
              case Err(e) => View() == old(View()) && r == Err(e)
    {
      if parent >= |records| { return Err(MissingParent(parent)); }
      var parentDepth := records[parent].depth;
      if parentDepth == U32_MAX { return Err(DepthOverflow(parent)); }
      if records[parent].children == U32_MAX { return Err(ChildCountOverflow(parent)); }
      var childCount := records[parent].children + 1;
      var childId := |records|;
      records := records[parent := records[parent].(children := childCount)];
      childrenByNode := childrenByNode[parent := childrenByNode[parent] + [childId]];
      records := records + [FreshRecord(childId, Some(parent), parentDepth + 1, payload)];
      childrenByNode := childrenByNode + [[]];
      r := Ok(childId);
    }

    method IncrementVisits(id: NodeId) returns (r: Result<u32, TreeError>)
      modifies this
      ensures match old(View()).IncrementVisits(id)
              case Ok(v) => View() == v && r == Ok(v.records[id].visits)
              case Err(e) => View() == old(View()) && r == Err(e)
    {
      if id >= |records| { return Err(NodeNotFound(id)); }
      if records[id].visits == U32_MAX { return Err(VisitOverflow(id)); }
      records := records[id := records[id].(visits := records[id].visits + 1)];
      r := Ok(records[id].visits);
    }

    method MarkExpanded(id: NodeId) returns (r: Result<(), TreeError>)
      modifies this
      ensures match old(View()).MarkExpanded(id)
              case Ok(v) => View() == v && r == Ok(())
              case Err(e) => View() == old(View()) && r == Err(e)
    {
      if id >= |records| { return Err(NodeNotFound(id)); }
      if !records[id].goal && records[id].status != Pruned {
        records := records[id := records[id].(status := Expanded)];
      }
      r := Ok(());
    }

    method MarkExhausted(id: NodeId) returns (r: Result<(), TreeError>)
      modifies this
      ensures match old(View()).MarkExhausted(id)
              case Ok(v) => View() == v && r == Ok(())
              case Err(e) => View() == old(View()) && r == Err(e)
    {
      if id >= |records| { return Err(NodeNotFound(id)); }
      var record := records[id];
      if record.status == Goal || record.goal { return Err(TerminalGoalNode(id)); }
      record := record.(exhausted := true);
      if !record.goal && record.status != Pruned { record := record.(status := Expanded); }
      records := records[id := record];
      r := Ok(());
    }

    method MarkGoal(id: NodeId) returns (r: Result<(), TreeError>)
      modifies this
      ensures match old(View()).MarkGoal(id)
              case Ok(v) => View() == v && r == Ok(())
              case Err(e) => View() == old(View()) && r == Err(e)
    {
      if id >= |records| { return Err(NodeNotFound(id)); }
      if records[id].status == Pruned { return Err(TerminalPrunedNode(id)); }
      records := records[id := records[id].(goal := true, exhausted := false, status := Goal)];
      r := Ok(());
    }

    method MarkPruned(id: NodeId) returns (r: Result<(), TreeError>)
      modifies this
      ensures match old(View()).MarkPruned(id)
              case Ok(v) => View() == v && r == Ok(())
              case Err(e) => View() == old(View()) && r == Err(e)
    {
      if id >= |records| { return Err(NodeNotFound(id)); }
      if records[id].status == Goal || records[id].goal { return Err(TerminalGoalNode(id)); }
      records := records[id := records[id].(exhausted := true, goal := false, status := Pruned)];
      r := Ok(());
    }

    /** Walks parent links to the root; the walk ends because parents have smaller ids. */
    method PathFromRoot(id: NodeId) returns (r: Result<seq<NodeId>, TreeError>)
      requires View().WellFormed()
      ensures r == if View().Has(id) then Ok(View().Path(id)) else Err(NodeNotFound(id))
    {
      if id >= |records| { return Err(NodeNotFound(id)); }
      var path: seq<NodeId> := [];
      var current := id;
      while true
        invariant View().Has(current)
        invariant View().Path(current) + Reversed(path) == View().Path(id)
        decreases current
      {
        assert current == ROOT || View().LinkedUp(current);
        path := path + [current];
        match records[current].parent {
          case Some(parent) => current := parent;
          case None => return Ok(Reversed(path));
        }
      }
    }
  }
}
