/**
  Resume (crates/orch-server/src/experiment.rs): the tree is grown again from the
  store's node rows, then each row's status puts back what the row and the
  checkpoint still know of the node. Visits of nodes that are no longer on the
  frontier are not kept anywhere.
 */
module Rebuild {
  import opened Base
  import opened SearchTree
  import opened FrontierIndex
  import opened Mirrors
  import opened CommitRules
  import opened CommitRuns
  import opened Resume
  import opened TwinStates

  /** A node as the store keeps it. */
  datatype Row = Row(id: NodeId, parent: Option<NodeId>, payload: Payload, status: NodeStatus)

  datatype Outcome = Resumed(state: State) | DataLoss | Panicked

  /** The tree of the rows, taken in id order; `None` if they are not the rows of a tree. */
  function Grown(rows: seq<Row>): (r: Option<TreeView>)
    ensures r.Some? ==> |r.value.records| == |r.value.childrenByNode| == |rows|
  {
    if rows == [] then None
    else
      var n := |rows| - 1;
      var row := rows[n];
      if n == 0 then
        if row.id == ROOT then Some(RootTree(row.payload)) else None
      else
        match Grown(rows[..n])
        case None => None
        case Some(t) =>
          if row.parent.None? then None
          else
            var u := t.InsertChild(row.parent.value, row.payload);
            if u.Ok? && row.id == n then Some(u.value) else None
  }

  /** A row whose state the mirrors do not know is counted late; `None` is the overflow panic. */
  function CaughtUp(s: State, row: Row): Option<State> {
    if row.payload.stateHash in s.seen then Some(s)
    else if !s.CanBump(row.payload.cell) then None
    else Some(s.Route(row.payload.stateHash, row.id).Bump(row.payload.cell))
  }

  function OrSame(r: Result<TreeView, TreeError>, t: TreeView): TreeView { if r.Ok? then r.value else t }

  function Visited(t: TreeView, id: NodeId, times: nat): TreeView {
    if times == 0 then t
    else
      var before := Visited(t, id, times - 1);
      OrSame(before.IncrementVisits(id), before)
  }

  /** The parts of the state so far, and the streaks to hand over with them. */
  datatype Parts = Parts(state: State, streaks: seq<(NodeId, u32)>)

  function Placed(p: Parts, row: Row, weights: map<NodeId, Weight>): Parts {
    var tree := p.state.tree;
    match row.status
    case Frontier =>
      var listed := p.state.(frontier := p.state.frontier + {row.id});
      if row.id !in weights then p.(state := listed)
      else
        var w := weights[row.id];
        Parts(listed.(tree := Visited(tree, row.id, w.visits)), p.streaks + [(row.id, w.streak as u32)])
    case Goal => p.(state := p.state.(tree := OrSame(tree.MarkGoal(row.id), tree)))
    case Expanded => p.(state := p.state.(tree := OrSame(tree.MarkExpanded(row.id), tree)))
    case Pruned => p.(state := p.state.(tree := OrSame(tree.MarkPruned(row.id), tree)))
  }

  function Settled(start: State, rows: seq<Row>, weights: map<NodeId, Weight>): Option<Parts> {
    if rows == [] then Some(Parts(start, []))
    else
      var row := rows[|rows| - 1];
      match Settled(start, rows[..|rows| - 1], weights)
      case None => None
      case Some(p) =>
        match CaughtUp(p.state, row)
        case None => None
        case Some(s) => Some(Placed(p.(state := s), row, weights))
  }

  function WeightsFrom(rows: seq<(NodeId, Weight)>): map<NodeId, Weight> {
    if rows == [] then map[]
    else WeightsFrom(rows[..|rows| - 1])[rows[|rows| - 1].0 := rows[|rows| - 1].1]
  }

  ghost function ResumeFrom(c: Checkpoint, rows: seq<Row>): Outcome {
    match Grown(rows)
    case None => DataLoss
    case Some(tree) =>
      var start := State(tree, {}, CountsFrom(c.cellMirror), RoutesFrom(c.seen), []);
      match Settled(start, rows, WeightsFrom(c.frontier))
      case None => Panicked
      case Some(Parts(s, streaks)) => Resumed(Rebuilt(s.tree, s.frontier, s.cells, s.seen, streaks))
  }

  // ------------------------------------------------------------------
  // Growing the tree again
  // ------------------------------------------------------------------

  /** The rows a store holds for a tree. */
  function RowsOf(t: TreeView): (rows: seq<Row>)
    ensures |rows| == |t.records|
  {
    seq(|t.records|, i requires 0 <= i < |t.records| =>
      Row(i, t.records[i].parent, t.records[i].payload, t.records[i].status))
  }

  /** A record as it is before its status is put back. */
  function Bare(r: NodeRecord): NodeRecord { r.(visits := 0, exhausted := false, goal := false, status := Frontier) }

  ghost predicate GrowsInto(u: TreeView, t: TreeView) {
    && u.WellFormed() && |u.records| <= |t.records|
    && forall i :: 0 <= i < |u.records| ==> u.records[i] == Bare(t.records[i]).(children := u.records[i].children)
  }

  lemma {:induction false} ListLength(s: seq<nat>, elements: set<nat>)
    requires Lists(s, elements)
    ensures |s| == |elements|
  {
    if s == [] {
      assert elements == {};
    } else {
      TailLists(s, elements);
      ListLength(s[1..], elements - {s[0]});
      assert s[0] in elements;
    }
  }

  function ChildrenIn(records: seq<NodeRecord>, p: NodeId): set<NodeId> {
    set c | 0 <= c < |records| && records[c].parent == Some(p)
  }

  lemma {:induction false} SubsetIsSmaller<T>(a: set<T>, b: set<T>)
    requires a <= b
    ensures |a| <= |b|
  {
    assert b == a + (b - a);
  }

  /** A parent with a child still to come has fewer children than it ends up with. */
  lemma {:induction false} RoomForChild(u: TreeView, t: TreeView, p: NodeId)
    requires t.WellFormed() && GrowsInto(u, t) && |u.records| < |t.records|
    requires p < |u.records| && t.records[|u.records|].parent == Some(p)
    ensures u.records[p].children < t.records[p].children
  {
    assert u.LinkedDown(p) && t.LinkedDown(p);
    var some, all := ChildrenIn(u.records, p), ChildrenIn(t.records, p);
    ListLength(u.childrenByNode[p], some);
    ListLength(t.childrenByNode[p], all);
    var rest := all - {|u.records|};
    assert some <= rest;
    assert |u.records| in all;
    SubsetIsSmaller(some, rest);
  }

  lemma {:induction false} GrowOne(u: TreeView, t: TreeView)
    requires t.WellFormed() && GrowsInto(u, t) && |u.records| < |t.records|
    ensures var r := t.records[|u.records|];
            && r.parent.Some? && u.InsertChild(r.parent.value, r.payload).Ok?
            && GrowsInto(u.InsertChild(r.parent.value, r.payload).value, t)
  {
    var k := |u.records|;
    var r := t.records[k];
    assert t.LinkedUp(k);
    RoomForChild(u, t, r.parent.value);
    InsertKeepsLinks(u, r.parent.value, r.payload);
  }

  lemma {:induction false} GrownRows(t: TreeView, k: nat)
    requires t.WellFormed() && 0 < k <= |t.records|
    ensures var u := Grown(RowsOf(t)[..k]); u.Some? && |u.value.records| == k && GrowsInto(u.value, t)
  {
    var rows := RowsOf(t)[..k];
    if k == 1 {
      RootTreeIsWellFormed(t.records[0].payload);
    } else {
      assert rows[..k - 1] == RowsOf(t)[..k - 1];
      GrownRows(t, k - 1);
      GrowOne(Grown(rows[..k - 1]).value, t);
    }
  }

  /** The rebuilt tree has every link, depth and payload of the old one. */
  lemma {:induction false} GrownAgain(t: TreeView)
    requires t.WellFormed()
    ensures var u := Grown(RowsOf(t));
            && u.Some? && |u.value.records| == |t.records| && u.value.childrenByNode == t.childrenByNode
            && forall i :: 0 <= i < |t.records| ==> u.value.records[i] == Bare(t.records[i])
  {
    GrownRows(t, |t.records|);
    assert RowsOf(t)[..|t.records|] == RowsOf(t);
    var u := Grown(RowsOf(t)).value;
    forall i | 0 <= i < |t.records|
      ensures u.childrenByNode[i] == t.childrenByNode[i] && u.records[i].children == t.records[i].children
    {
      assert u.LinkedDown(i) && t.LinkedDown(i);
      assert ChildrenIn(u.records, i) == ChildrenIn(t.records, i);
      ListingIsUnique(u.childrenByNode[i], t.childrenByNode[i], ChildrenIn(t.records, i));
    }
  }

  // ------------------------------------------------------------------
  // Putting the statuses back
  // ------------------------------------------------------------------

  lemma {:induction false} VisitedCounts(t: TreeView, id: NodeId, times: nat)
    requires t.Has(id) && t.records[id].visits + times <= U32_MAX
    ensures Visited(t, id, times)
         == t.(records := t.records[id := t.records[id].(visits := t.records[id].visits + times)])
  {
    if times == 0 {
    } else {
      VisitedCounts(t, id, times - 1);
    }
  }

  lemma {:induction false} WeightsDescribed(rows: seq<(NodeId, Weight)>)
    requires StrictlySortedPairs(rows)
    ensures Describes(rows, WeightsFrom(rows))
  {
    if rows == [] {
    } else {
      WeightsDescribed(rows[..|rows| - 1]);
      DescribesOneMore(rows, WeightsFrom(rows[..|rows| - 1]));
    }
  }

  lemma {:induction false} WeightsRoundTrip(m: map<NodeId, Weight>)
    ensures WeightsFrom(SortedPairs(m)) == m
  {
    WeightsDescribed(SortedPairs(m));
    DescribedMapsAgree(SortedPairs(m), WeightsFrom(SortedPairs(m)), m);
  }

  /** What resume still knows of a node. */
  function Survives(r: NodeRecord): NodeRecord {
    if r.status.Frontier? then r else r.(visits := 0, exhausted := r.status.Pruned?)
  }

  ghost predicate NodeBack(p: Parts, s: State, i: nat, k: nat)
    requires i < |s.tree.records| == |s.streaks| == |p.state.tree.records|
  {
    var r := s.tree.records[i];
    && p.state.tree.records[i] == (if i < k then Survives(r) else Bare(r))
    && (i in p.state.frontier <==> i < k && r.status.Frontier?)
    && StreaksFrom(|s.streaks|, p.streaks)[i]
       == (if i < k && r.status.Frontier? then Saturate16(s.streaks[i]) else 0)
  }

  /** The first `k` nodes are back. */
  ghost predicate Back(p: Parts, s: State, k: nat) {
    && |p.state.tree.records| == |s.tree.records| == |s.streaks|
    && p.state.tree.childrenByNode == s.tree.childrenByNode
    && p.state.cells == s.cells && p.state.seen == s.seen
    && (forall id :: id in p.state.frontier ==> id < |s.tree.records|)
    && (forall i {:trigger NodeBack(p, s, i, k)} :: 0 <= i < |s.tree.records| ==> NodeBack(p, s, i, k))
  }

  lemma {:induction false} PlaceFrontier(p: Parts, s: State, k: nat)
    requires Sound(s) && Back(p, s, k) && k < |s.tree.records| && s.tree.records[k].status.Frontier?
    ensures Back(Placed(p, RowsOf(s.tree)[k], Weights(s)), s, k + 1)
  {
    var q := Placed(p, RowsOf(s.tree)[k], Weights(s));
    assert NodeSound(s, k);
    assert NodeBack(p, s, k, k);
    assert k in Weights(s);
    var w := Weights(s)[k];
    VisitedCounts(p.state.tree, k, w.visits);
    assert (p.streaks + [(k, w.streak as u32)])[..|p.streaks|] == p.streaks;
    var next := k + 1;
    forall i | 0 <= i < |s.tree.records| ensures NodeBack(q, s, i, next) { assert NodeBack(p, s, i, k); }
  }

  lemma {:induction false} PlaceOther(p: Parts, s: State, k: nat)
    requires Sound(s) && Back(p, s, k) && k < |s.tree.records| && !s.tree.records[k].status.Frontier?
    ensures Back(Placed(p, RowsOf(s.tree)[k], Weights(s)), s, k + 1)
  {
    var q := Placed(p, RowsOf(s.tree)[k], Weights(s));
    assert NodeSound(s, k);
    assert NodeBack(p, s, k, k);
    var next := k + 1;
    forall i | 0 <= i < |s.tree.records| ensures NodeBack(q, s, i, next) { assert NodeBack(p, s, i, k); }
  }

  lemma {:induction false} SettledBack(start: State, s: State, k: nat)
    requires Sound(s) && Back(Parts(start, []), s, 0) && k <= |s.tree.records|
    ensures var p := Settled(start, RowsOf(s.tree)[..k], Weights(s)); p.Some? && Back(p.value, s, k)
  {
    if k == 0 {
    } else {
      var rows := RowsOf(s.tree)[..k];
      assert rows[..k - 1] == RowsOf(s.tree)[..k - 1];
      SettledBack(start, s, k - 1);
      var p := Settled(start, rows[..k - 1], Weights(s)).value;
      assert s.tree.records[k - 1].payload.stateHash in s.seen;
      assert p.(state := p.state) == p;
      if s.tree.records[k - 1].status.Frontier? { PlaceFrontier(p, s, k - 1); } else { PlaceOther(p, s, k - 1); }
    }
  }

  /** The state a resume at the checkpoint comes back with. */
  ghost function Surviving(s: State): State
    requires |s.streaks| == |s.tree.records|
  {
    var n := |s.tree.records|;
    State(s.tree.(records := seq(n, i requires 0 <= i < n => Survives(s.tree.records[i]))),
          (set i | 0 <= i < n && s.tree.records[i].status.Frontier?),
          s.cells, s.seen,
          seq(n, i requires 0 <= i < n =>
            if s.tree.records[i].status.Frontier? then Saturate16(s.streaks[i]) as u32 else 0))
  }

  lemma {:induction false} BackIsSurviving(p: Parts, s: State)
    requires Back(p, s, |s.tree.records|)
    ensures Rebuilt(p.state.tree, p.state.frontier, p.state.cells, p.state.seen, p.streaks) == Surviving(s)
  {
    var n, t := |s.tree.records|, Surviving(s);
    forall i | 0 <= i < n
      ensures p.state.tree.records[i] == t.tree.records[i] && StreaksFrom(n, p.streaks)[i] == t.streaks[i]
      ensures i in p.state.frontier <==> i in t.frontier
    {
      assert NodeBack(p, s, i, n);
    }
    assert p.state.tree.records == t.tree.records;
    assert p.state.frontier == t.frontier;
    assert StreaksFrom(n, p.streaks) == t.streaks;
  }

  lemma {:induction false} RowsComeBack(s: State, tree: TreeView) returns (p: Parts)
    requires Sound(s) && |tree.records| == |s.tree.records| && tree.childrenByNode == s.tree.childrenByNode
    requires forall i :: 0 <= i < |s.tree.records| ==> tree.records[i] == Bare(s.tree.records[i])
    ensures Settled(State(tree, {}, s.cells, s.seen, []), RowsOf(s.tree), Weights(s)) == Some(p)
    ensures Back(p, s, |s.tree.records|)
  {
    var start, rows := State(tree, {}, s.cells, s.seen, []), RowsOf(s.tree);
    forall i | 0 <= i < |s.tree.records| ensures NodeBack(Parts(start, []), s, i, 0) { }
    SettledBack(start, s, |rows|);
    assert rows[..|rows|] == rows;
    p := Settled(start, rows, Weights(s)).value;
  }

  /**
    Resuming from the checkpoint and the node rows of a sound state never fails.
    It brings back the links, payloads, statuses and mirrors whole, and of the
    counters those of the nodes still on the frontier, the streak cut to 16 bits.
   */
  lemma {:induction false} ResumeBringsBack(s: State)
    requires Sound(s)
    ensures ResumeFrom(TakeCheckpoint(s), RowsOf(s.tree)) == Resumed(Surviving(s))
  {
    var rows := RowsOf(s.tree);
    GrownAgain(s.tree);
    MirrorRoundTrip(s.cells, s.seen);
    WeightsRoundTrip(Weights(s));
    var tree := Grown(rows).value;
    var p := RowsComeBack(s, tree);
    BackIsSurviving(p, s);
  }

  // ------------------------------------------------------------------
  // Going on after a resume
  // ------------------------------------------------------------------

  /** What comes back is a twin exactly when every frontier streak fits the 16-bit field. */
  lemma {:induction false} SurvivingIsTwin(s: State)
    requires Sound(s)
    ensures Twins(s, Surviving(s)) <==>
              forall i :: 0 <= i < |s.tree.records| && s.tree.records[i].status.Frontier? ==> s.streaks[i] <= U16_MAX
  {
    var t := Surviving(s);
    forall i | 0 <= i < |s.tree.records|
      ensures TwinNode(s, t, i) <==> (s.tree.records[i].status.Frontier? ==> s.streaks[i] <= U16_MAX)
    {
      assert NodeSound(s, i);
    }
  }

  lemma {:induction false} ResumedContinues(s: State, after: seq<Call>)
    requires Sound(s) && StreaksBelow(s, U16_MAX + 1) && Selected(s, after) && NoOverflow(Run(s, after).1)
    ensures Twins(s, Surviving(s)) && Run(Surviving(s), after).1 == Run(s, after).1
    ensures Candidates(Run(Surviving(s), after).0) == Candidates(Run(s, after).0)
  {
    forall i | 0 <= i < |s.tree.records| && s.tree.records[i].status.Frontier? ensures s.streaks[i] <= U16_MAX {
      assert NodeSound(s, i);
    }
    SurvivingIsTwin(s);
    RunTwins(s, Surviving(s), after);
  }

  lemma {:induction false} CutIsSound(payload: Payload, before: seq<Call>, rules: Rules, s: State)
    requires RuleFault(rules).None? && rules.exhaustAfterDupExpansions <= U16_MAX + 1
    requires SelectorRun(InitialState(payload), before, rules) && Completed(Run(InitialState(payload), before).1)
    requires s == Run(InitialState(payload), before).0
    ensures Sound(s) && StreaksBelow(s, U16_MAX + 1)
  {
    InitialStateSound(payload);
    RunSound(InitialState(payload), before);
    SelectorRunStreaks(InitialState(payload), before, rules);
  }

  /**
    An experiment that expands selected nodes under an eviction limit of at most
    2^16 duplicate expansions can be cut at any point: after a resume the rest of
    the run gives the same replies and candidate lists, until a visit count overflows.
   */
  lemma {:induction false} ResumedExperimentContinues(payload: Payload, before: seq<Call>, rules: Rules,
                                                      after: seq<Call>, s: State)
    requires RuleFault(rules).None? && rules.exhaustAfterDupExpansions <= U16_MAX + 1
    requires SelectorRun(InitialState(payload), before, rules) && Completed(Run(InitialState(payload), before).1)
    requires s == Run(InitialState(payload), before).0 && Selected(s, after) && NoOverflow(Run(s, after).1)
    ensures Sound(s) && ResumeFrom(TakeCheckpoint(s), RowsOf(s.tree)) == Resumed(Surviving(s))
    ensures Run(Surviving(s), after).1 == Run(s, after).1
    ensures Candidates(Run(Surviving(s), after).0) == Candidates(Run(s, after).0)
  {
    CutIsSound(payload, before, rules, s);
    ResumeBringsBack(s);
    ResumedContinues(s, after);
  }

  lemma {:induction false} SaturatedSurvives(n: nat, s: State)
    requires n == U16_MAX + 1 && s == AfterDuplicates(n)
    ensures Surviving(s) == s.(streaks := [U16_MAX])
  {
    assert Surviving(s).tree.records == s.tree.records && Surviving(s).frontier == s.frontier;
    assert Surviving(s).streaks == [U16_MAX];
  }

  /** The 2^16 bound is sharp: one more, and a reachable experiment answers differently after a resume. */
  lemma {:induction false} SaturatedResumeDiverges(n: nat, s: State, t: State)
    requires n == U16_MAX + 1 && s == AfterDuplicates(n) && t == s.(streaks := [U16_MAX])
    ensures SelectorRun(InitialState(SAMPLE), DuplicateCalls(n), LATE_RULES)
    ensures Run(InitialState(SAMPLE), DuplicateCalls(n)).0 == s
    ensures Sound(s) && ResumeFrom(TakeCheckpoint(s), RowsOf(s.tree)) == Resumed(t)
    ensures Apply(t, DUPLICATE_CALL).1 != Apply(s, DUPLICATE_CALL).1
  {
    DuplicateRun(n);
    SaturatedRestore(n);
    SaturatedSurvives(n, s);
    ResumeBringsBack(s);
    DuplicateStep(n, n);
    DuplicateStep(n, U16_MAX);
    assert s.(streaks := [n]) == s;
  }

  lemma {:induction false} EmptyBatch(s: State, g: NodeId, rules: Rules)
    requires |s.tree.records| == |s.tree.childrenByNode| == |s.streaks| && s.tree.Has(g) && RuleFault(rules).None?
    requires s.tree.records[g].visits + 1 < rules.maxVisitsPerNode
    ensures Apply(s, Call(g, [], rules)).1 == Value(BatchOutcome(g, s.tree.records[g].visits + 1, [], None, None))
  {
    assert s.Track(g) == s;
    var score := s.tree.records[g].payload.score;
    assert CommitChildren(s, g, score, [], rules) == (s, Value([]));
  }

  /** Expanding a goal node, which the selector never offers, does tell: its visits were not kept. */
  lemma {:induction false} GoalParentDiverges(s: State, g: NodeId, rules: Rules)
    requires Sound(s) && s.tree.Has(g) && s.tree.records[g].status.Goal? && RuleFault(rules).None?
    requires 0 < s.tree.records[g].visits && s.tree.records[g].visits + 1 < rules.maxVisitsPerNode
    ensures Apply(s, Call(g, [], rules)).1.Value? && Apply(Surviving(s), Call(g, [], rules)).1.Value?
    ensures Apply(Surviving(s), Call(g, [], rules)).1.value.parentVisits
          < Apply(s, Call(g, [], rules)).1.value.parentVisits
  {
    EmptyBatch(s, g, rules);
    EmptyBatch(Surviving(s), g, rules);
  }
}
