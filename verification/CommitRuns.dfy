/**
  What holds over whole runs of commit calls, including calls that returned an
  error after changing part of the state.
 */
module CommitRuns {
  import opened Base
  import opened SearchTree
  import opened FrontierIndex
  import opened Mirrors
  import opened CommitRules

  datatype Call = Call(parent: NodeId, children: seq<ScoredChild>, rules: Rules)

  function Apply(s: State, c: Call): (State, Reply<BatchOutcome>)
    requires |s.tree.records| == |s.tree.childrenByNode|
  {
    CommitBatch(s, c.parent, c.children, c.rules)
  }

  /** The state after a sequence of calls, and every reply. */
  function Run(s: State, calls: seq<Call>): (r: (State, seq<Reply<BatchOutcome>>))
    requires |s.tree.records| == |s.tree.childrenByNode|
    ensures |r.0.tree.records| == |r.0.tree.childrenByNode|
    ensures |r.1| == |calls|
  {
    if calls == [] then (s, [])
    else
      var (before, replies) := Run(s, calls[..|calls| - 1]);
      var (after, reply) := Apply(before, calls[|calls| - 1]);
      (after, replies + [reply])
  }

  /** A panic ends the process, so only the last call of a run can be one. */
  predicate Completed(replies: seq<Reply<BatchOutcome>>) {
    forall k :: 0 <= k < |replies| ==> !replies[k].Panic?
  }

  // ------------------------------------------------------------------
  // Structure
  // ------------------------------------------------------------------

  ghost predicate NodeSound(s: State, i: nat)
    requires i < |s.tree.records|
  {
    var r := s.tree.records[i];
    && (i in s.frontier <==> !r.exhausted)
    && (!r.exhausted <==> r.status.Frontier? || r.status.Goal?)
    && (r.goal <==> r.status.Goal?)
  }

  /** Every hash in the tree is routed, each to the lowest node carrying it. */
  ghost predicate RoutesSound(s: State) {
    && (forall i :: 0 <= i < |s.tree.records| ==>
          var h := s.tree.records[i].payload.stateHash; h in s.seen && s.seen[h] <= i)
    && (forall h :: h in s.seen ==> s.tree.Has(s.seen[h]) && s.tree.records[s.seen[h]].payload.stateHash == h)
  }

  /**
    The frontier holds exactly the non-exhausted nodes, which are exactly those
    with status Frontier or Goal; streaks cover exactly the tree; routes are exact.
   */
  ghost predicate Sound(s: State) {
    && s.tree.WellFormed()
    && |s.streaks| == |s.tree.records|
    && (forall id :: id in s.frontier ==> s.tree.Has(id))
    && (forall i {:trigger NodeSound(s, i)} :: 0 <= i < |s.tree.records| ==> NodeSound(s, i))
    && RoutesSound(s)
    && (forall c :: c in s.cells ==> s.cells[c] != 0)
  }

  lemma {:induction false} InitialStateSound(payload: Payload)
    ensures Sound(InitialState(payload))
  {
    RootTreeIsWellFormed(payload);
  }

  /** The new node is routed to only if its hash is new. */
  lemma {:induction false} RoutesGrow(s: State, a: State, h: StateHash)
    requires RoutesSound(s) && |a.tree.records| == |s.tree.records| + 1
    requires forall i :: 0 <= i < |s.tree.records| ==> a.tree.records[i].payload == s.tree.records[i].payload
    requires a.tree.records[|s.tree.records|].payload.stateHash == h
    requires a.seen == if h in s.seen then s.seen else s.seen[h := |s.tree.records|]
    ensures RoutesSound(a)
  {
    var n := |s.tree.records|;
    forall i | 0 <= i <= n
      ensures var k := a.tree.records[i].payload.stateHash; k in a.seen && a.seen[k] <= i
    {
      if i < n { assert s.tree.records[i].payload.stateHash in s.seen; }
    }
    forall k | k in a.seen ensures a.tree.Has(a.seen[k]) && a.tree.records[a.seen[k]].payload.stateHash == k {
      if k in s.seen { assert s.tree.Has(s.seen[k]); }
    }
  }

  lemma {:induction false} AttachSound(s: State, parent: NodeId, payload: Payload)
    requires Sound(s)
    ensures Attach(s, parent, payload).Ok? ==>
              var a := Attach(s, parent, payload).value;
              var n := |s.tree.records|;
              && a.tree.WellFormed() && |a.streaks| == |a.tree.records| == n + 1
              && a.tree.records[n] == FreshRecord(n, Some(parent), a.tree.records[n].depth, payload)
              && a.frontier == s.frontier && a.cells == s.cells && RoutesSound(a)
              && (forall i :: 0 <= i < n ==> NodeSound(a, i))
    ensures Attach(s, parent, payload).Err? && s.tree.Has(parent) ==> !Attach(s, parent, payload).error.MissingParent?
  {
    InsertKeepsLinks(s.tree, parent, payload);
    if Attach(s, parent, payload).Ok? {
      var a := Attach(s, parent, payload).value;
      forall i | 0 <= i < |s.tree.records| ensures NodeSound(a, i) { assert NodeSound(s, i); }
      RoutesGrow(s, a, payload.stateHash);
    }
  }

  /** A freshly attached node becomes sound once it is listed (perhaps as a goal) or marked pruned. */
  lemma {:induction false} AttachedSound(s: State, a: State, t: State)
    requires Sound(s)
    requires a.tree.WellFormed() && RoutesSound(a) && |a.streaks| == |a.tree.records| == |s.tree.records| + 1
    requires forall i :: 0 <= i < |s.tree.records| ==> NodeSound(a, i)
    requires SameShape(a.tree, t.tree) && t.seen == a.seen && t.streaks == a.streaks
    requires forall id :: id != |s.tree.records| ==> (id in t.frontier <==> id in s.frontier)
    requires a.frontier == s.frontier
    requires forall i :: 0 <= i < |s.tree.records| ==> t.tree.records[i] == a.tree.records[i]
    requires NodeSound(t, |s.tree.records|)
    requires forall c :: c in t.cells ==> t.cells[c] != 0
    ensures Sound(t)
  {
    ShapeKeepsLinks(a.tree, t.tree);
    forall i | 0 <= i < |t.tree.records| ensures NodeSound(t, i) {
      if i < |s.tree.records| { assert NodeSound(a, i); }
    }
  }

  lemma {:induction false} PruneChildSound(s: State, parent: NodeId, payload: Payload)
    requires Sound(s)
    ensures Sound(PruneChild(s, parent, payload).0)
    ensures PruneChild(s, parent, payload).1.Error? ==> PruneChild(s, parent, payload).1.error.TreeFailure?
  {
    AttachSound(s, parent, payload);
    if Attach(s, parent, payload).Ok? {
      AttachedSound(s, Attach(s, parent, payload).value, PruneChild(s, parent, payload).0);
    }
  }

  lemma {:induction false} KeepChildSound(s: State, parent: NodeId, payload: Payload, goal: bool)
    requires Sound(s)
    ensures !KeepChild(s, parent, payload, goal).1.Panic? ==> Sound(KeepChild(s, parent, payload, goal).0)
    ensures KeepChild(s, parent, payload, goal).1.Error? ==> KeepChild(s, parent, payload, goal).1.error.TreeFailure?
  {
    AttachSound(s, parent, payload);
    if Attach(s, parent, payload).Ok? && !KeepChild(s, parent, payload, goal).1.Panic? {
      AttachedSound(s, Attach(s, parent, payload).value, KeepChild(s, parent, payload, goal).0);
    }
  }

  /** Raising visits, or marking one node, keeps the links and the routes. */
  lemma {:induction false} UpdateSound(s: State, t: State)
    requires Sound(s)
    requires SameShape(s.tree, t.tree)
    requires t.seen == s.seen && |t.streaks| == |s.streaks| && t.frontier <= s.frontier
    requires forall c :: c in t.cells ==> t.cells[c] != 0
    requires forall i :: 0 <= i < |s.tree.records| ==> NodeSound(t, i)
    ensures Sound(t)
  {
    ShapeKeepsLinks(s.tree, t.tree);
  }

  lemma {:induction false} BumpSound(s: State, cell: CellKey)
    requires Sound(s) && s.CanBump(cell)
    ensures Sound(s.Bump(cell))
  {
    forall i | 0 <= i < |s.tree.records| ensures NodeSound(s.Bump(cell), i) { assert NodeSound(s, i); }
  }

  lemma {:induction false} VisitSound(s: State, id: NodeId)
    requires Sound(s) && s.tree.IncrementVisits(id).Ok?
    ensures Sound(s.(tree := s.tree.IncrementVisits(id).value))
  {
    var t := s.(tree := s.tree.IncrementVisits(id).value);
    forall i | 0 <= i < |s.tree.records| ensures NodeSound(t, i) { assert NodeSound(s, i); }
    UpdateSound(s, t);
  }

  lemma {:induction false} RouteDuplicateSound(s: State, parent: NodeId, payload: Payload)
    requires Sound(s)
    ensures Sound(RouteDuplicate(s, parent, payload).0)
    ensures RouteDuplicate(s, parent, payload).1.Error? ==>
              RouteDuplicate(s, parent, payload).1.error.TreeFailure? &&
              RouteDuplicate(s, parent, payload).1.error.tree.VisitOverflow?
  {
    if s.CanBump(payload.cell) {
      var bumped := s.Bump(payload.cell);
      BumpSound(s, payload.cell);
      if payload.stateHash in s.seen {
        var route := s.seen[payload.stateHash];
        if s.tree.IncrementVisits(route).Ok? { VisitSound(bumped, route); }
      }
    }
  }

  lemma {:induction false} CommitChildSound(s: State, parent: NodeId, parentScore: real, child: ScoredChild,
                                            rules: Rules)
    requires Sound(s)
    ensures var (t, reply) := CommitChild(s, parent, parentScore, child, rules);
            (!reply.Panic? ==> Sound(t)) && (reply.Error? ==> reply.error.TreeFailure?)
  {
    PruneChildSound(s, parent, child.payload);
    RouteDuplicateSound(s, parent, child.payload);
    KeepChildSound(s, parent, child.payload, child.goal);
  }

  lemma {:induction false} CommitChildrenSound(s: State, parent: NodeId, parentScore: real,
                                               children: seq<ScoredChild>, rules: Rules)
    requires Sound(s)
    ensures var (t, reply) := CommitChildren(s, parent, parentScore, children, rules);
            (!reply.Panic? ==> Sound(t)) && (reply.Error? ==> reply.error.TreeFailure?)
  {
    if children == [] {
    } else {
      var last := |children| - 1;
      CommitChildrenSound(s, parent, parentScore, children[..last], rules);
      var (before, reply) := CommitChildren(s, parent, parentScore, children[..last], rules);
      if reply.Value? { CommitChildSound(before, parent, parentScore, children[last], rules); }
    }
  }

  lemma {:induction false} UpdateSoundSameTree(s: State, t: State)
    requires Sound(s)
    requires t.tree == s.tree && t.seen == s.seen && |t.streaks| == |s.streaks| && t.frontier == s.frontier
    requires t.cells == s.cells
    ensures Sound(t)
  {
    forall i | 0 <= i < |s.tree.records| ensures NodeSound(t, i) { assert NodeSound(s, i); }
  }

  lemma {:induction false} ExhaustedSound(s: State, id: NodeId, t: State)
    requires Sound(s) && s.tree.Has(id) && s.tree.MarkExhausted(id).Ok?
    requires t.tree == s.tree.MarkExhausted(id).value && t.frontier == s.frontier - {id}
    requires t.seen == s.seen && |t.streaks| == |s.streaks| && t.cells == s.cells
    ensures Sound(t)
  {
    forall i | 0 <= i < |s.tree.records| ensures NodeSound(t, i) { assert NodeSound(s, i); }
    UpdateSound(s, t);
  }

  lemma {:induction false} ExhaustionSound(s: State, parent: NodeId, visits: u32, allDuplicate: bool, rules: Rules)
    requires Sound(s) && s.tree.Has(parent)
    ensures Sound(UpdateParentExhaustion(s, parent, visits, allDuplicate, rules).0)
    ensures var reply := UpdateParentExhaustion(s, parent, visits, allDuplicate, rules).1;
            reply.Error? ==> reply.error == TreeFailure(TerminalGoalNode(parent))
  {
    assert s.Track(parent) == s;
    assert NodeSound(s, parent);
    var t := UpdateParentExhaustion(s, parent, visits, allDuplicate, rules).0;
    if t.tree == s.tree {
      UpdateSoundSameTree(s, t);
    } else {
      assert t.tree == s.tree.MarkExhausted(parent).value && t.frontier == s.frontier - {parent};
      ExhaustedSound(s, parent, t);
    }
  }

  predicate NoFrontierError(reply: Reply<BatchOutcome>) {
    reply.Error? ==> !reply.error.FrontierFailure?
  }

  lemma {:induction false} ExpandSound(s: State, parent: NodeId, children: seq<ScoredChild>, rules: Rules)
    requires Sound(s) && s.tree.Has(parent)
    ensures var (t, reply) := Expand(s, parent, children, rules);
            (!reply.Panic? ==> Sound(t)) && (reply.Error? ==> reply.error.TreeFailure?)
  {
    var score := s.tree.records[parent].payload.score;
    CommitChildrenSound(s, parent, score, children, rules);
    var (filled, reply) := CommitChildren(s, parent, score, children, rules);
    if reply.Value? && filled.tree.IncrementVisits(parent).Ok? { VisitSound(filled, parent); }
  }

  /** One call keeps the structure, whether it succeeds or fails, and never trips over the frontier. */
  lemma {:induction false} ApplySound(s: State, c: Call)
    requires Sound(s)
    ensures !Apply(s, c).1.Panic? ==> Sound(Apply(s, c).0)
    ensures NoFrontierError(Apply(s, c).1)
  {
    if RuleFault(c.rules).None? && s.tree.Has(c.parent) {
      ExpandSound(s, c.parent, c.children, c.rules);
      var (t, reply) := Expand(s, c.parent, c.children, c.rules);
      if reply.Value? {
        ExhaustionSound(t, c.parent, t.tree.records[c.parent].visits, AllDuplicate(reply.value), c.rules);
      }
    }
  }

  /** The last call of a run, split off. */
  lemma {:induction false} RunSplits(s: State, calls: seq<Call>)
    requires |s.tree.records| == |s.tree.childrenByNode| && calls != []
    ensures var init := calls[..|calls| - 1];
            && Run(s, calls).0 == Apply(Run(s, init).0, calls[|calls| - 1]).0
            && Run(s, calls).1 == Run(s, init).1 + [Apply(Run(s, init).0, calls[|calls| - 1]).1]
            && (Completed(Run(s, calls).1) <==>
                  Completed(Run(s, init).1) && !Apply(Run(s, init).0, calls[|calls| - 1]).1.Panic?)
  {
    var init := calls[..|calls| - 1];
    var replies := Run(s, init).1 + [Apply(Run(s, init).0, calls[|calls| - 1]).1];
    assert forall k :: 0 <= k < |init| ==> replies[k] == Run(s, init).1[k];
    assert replies[|init|] == Apply(Run(s, init).0, calls[|calls| - 1]).1;
  }

  /** The structural invariant holds after every run from any sound state, and no frontier error is ever returned. */
  lemma {:induction false} RunSound(s: State, calls: seq<Call>)
    requires Sound(s)
    requires Completed(Run(s, calls).1)
    ensures Sound(Run(s, calls).0)
    ensures forall k :: 0 <= k < |calls| ==> NoFrontierError(Run(s, calls).1[k])
  {
    if calls == [] {
    } else {
      RunSplits(s, calls);
      RunSound(s, calls[..|calls| - 1]);
      ApplySound(Run(s, calls[..|calls| - 1]).0, calls[|calls| - 1]);
    }
  }

  // ------------------------------------------------------------------
  // Growth
  // ------------------------------------------------------------------

  /** Nodes are only added, and old ones keep everything but their visit and child counts. */
  ghost predicate Unmarked(t: TreeView, u: TreeView) {
    && |t.records| <= |u.records|
    && forall i :: 0 <= i < |t.records| ==>
         && t.records[i].visits <= u.records[i].visits
         && u.records[i] == t.records[i].(visits := u.records[i].visits, children := u.records[i].children)
  }

  lemma {:induction false} AttachUnmarked(s: State, parent: NodeId, payload: Payload)
    requires |s.tree.records| == |s.tree.childrenByNode|
    ensures Attach(s, parent, payload).Ok? ==> Unmarked(s.tree, Attach(s, parent, payload).value.tree)
  {
  }

  lemma {:induction false} RouteDuplicateUnmarked(s: State, parent: NodeId, payload: Payload)
    ensures Unmarked(s.tree, RouteDuplicate(s, parent, payload).0.tree)
  {
  }

  lemma {:induction false} InsertedUnmarked(s: State, parent: NodeId, payload: Payload, goal: bool)
    requires |s.tree.records| == |s.tree.childrenByNode|
    ensures Unmarked(s.tree, PruneChild(s, parent, payload).0.tree)
    ensures Unmarked(s.tree, KeepChild(s, parent, payload, goal).0.tree)
  {
    AttachUnmarked(s, parent, payload);
  }

  lemma {:induction false} CommitChildUnmarked(s: State, parent: NodeId, parentScore: real, child: ScoredChild,
                                               rules: Rules)
    requires |s.tree.records| == |s.tree.childrenByNode|
    ensures Unmarked(s.tree, CommitChild(s, parent, parentScore, child, rules).0.tree)
  {
    InsertedUnmarked(s, parent, child.payload, child.goal);
    RouteDuplicateUnmarked(s, parent, child.payload);
  }

  lemma {:induction false} CommitChildrenUnmarked(s: State, parent: NodeId, parentScore: real,
                                                  children: seq<ScoredChild>, rules: Rules)
    requires |s.tree.records| == |s.tree.childrenByNode|
    ensures Unmarked(s.tree, CommitChildren(s, parent, parentScore, children, rules).0.tree)
  {
    if children == [] {
    } else {
      var last := |children| - 1;
      CommitChildrenUnmarked(s, parent, parentScore, children[..last], rules);
      var (before, reply) := CommitChildren(s, parent, parentScore, children[..last], rules);
      if reply.Value? { CommitChildUnmarked(before, parent, parentScore, children[last], rules); }
    }
  }

  lemma {:induction false} ExpandUnmarked(s: State, parent: NodeId, children: seq<ScoredChild>, rules: Rules)
    requires |s.tree.records| == |s.tree.childrenByNode| && s.tree.Has(parent)
    ensures var (t, reply) := Expand(s, parent, children, rules);
            && Unmarked(s.tree, t.tree)
            && (reply.Value? ==> s.tree.records[parent].visits < t.tree.records[parent].visits)
  {
    CommitChildrenUnmarked(s, parent, s.tree.records[parent].payload.score, children, rules);
  }
}
