/**
  When two commit states cannot be told apart by expanding selectable nodes: they
  agree on the links, the mirrors and everything about nodes with status Frontier;
  of the other nodes one of them may remember fewer visits and nothing else.
 */
module TwinStates {
  import opened Base
  import opened SearchTree
  import opened FrontierIndex
  import opened CommitRules
  import opened CommitRuns

  ghost predicate TwinNode(a: State, b: State, i: nat)
    requires i < |a.tree.records| == |b.tree.records| == |a.streaks| == |b.streaks|
  {
    var x, y := a.tree.records[i], b.tree.records[i];
    && y == x.(visits := y.visits, exhausted := y.exhausted) && y.visits <= x.visits
    && (x.status.Frontier? ==>
          y == x && a.streaks[i] == b.streaks[i] && (i in a.frontier <==> i in b.frontier))
  }

  ghost predicate Twins(a: State, b: State) {
    && |a.tree.records| == |b.tree.records| == |a.tree.childrenByNode| == |a.streaks| == |b.streaks|
    && a.tree.childrenByNode == b.tree.childrenByNode && a.cells == b.cells && a.seen == b.seen
    && (forall id :: id in a.frontier || id in b.frontier ==> id < |a.tree.records|)
    && (forall i {:trigger TwinNode(a, b, i)} :: 0 <= i < |a.tree.records| ==> TwinNode(a, b, i))
  }

  /** What an overflowing visit count answers: the one reply that may come sooner in one twin. */
  predicate Overflowed<T>(reply: Reply<T>) {
    reply.Error? && reply.error.TreeFailure? && reply.error.tree.VisitOverflow?
  }

  lemma {:induction false} SameCandidates(a: State, b: State)
    requires Twins(a, b)
    ensures CandidateSet(a.frontier, a.tree) == CandidateSet(b.frontier, b.tree)
    ensures Candidates(a) == Candidates(b)
  {
    forall id: NodeId ensures id in CandidateSet(a.frontier, a.tree) <==> id in CandidateSet(b.frontier, b.tree) {
      if id < |a.tree.records| { assert TwinNode(a, b, id); }
    }
    assert CandidateSet(a.frontier, a.tree) == CandidateSet(b.frontier, b.tree);
  }

  lemma {:induction false} AttachTwins(a: State, b: State, parent: NodeId, payload: Payload)
    requires Twins(a, b)
    ensures var p, q := Attach(a, parent, payload), Attach(b, parent, payload);
            var n := |a.tree.records|;
            && (p.Err? ==> q == p)
            && (p.Ok? ==>
                  && q.Ok? && Twins(p.value, q.value) && |p.value.tree.records| == n + 1
                  && p.value.tree.records[n] == q.value.tree.records[n]
                  && p.value.tree.records[n].status == Frontier && !p.value.tree.records[n].goal
                  && p.value.frontier == a.frontier && q.value.frontier == b.frontier)
  {
    var p, q := Attach(a, parent, payload), Attach(b, parent, payload);
    if parent < |a.tree.records| { assert TwinNode(a, b, parent); }
    if p.Ok? {
      forall i | 0 <= i < |p.value.tree.records| ensures TwinNode(p.value, q.value, i) {
        if i < |a.tree.records| { assert TwinNode(a, b, i); }
      }
    }
  }

  lemma {:induction false} BumpTwins(a: State, b: State, cell: CellKey)
    requires Twins(a, b) && a.CanBump(cell)
    ensures b.CanBump(cell) && Twins(a.Bump(cell), b.Bump(cell))
  {
    forall i | 0 <= i < |a.tree.records| ensures TwinNode(a.Bump(cell), b.Bump(cell), i) { assert TwinNode(a, b, i); }
  }

  lemma {:induction false} ListedTwins(a: State, b: State, id: NodeId)
    requires Twins(a, b) && a.tree.Has(id)
    ensures Twins(a.(frontier := a.frontier + {id}), b.(frontier := b.frontier + {id}))
  {
    var a', b' := a.(frontier := a.frontier + {id}), b.(frontier := b.frontier + {id});
    forall i | 0 <= i < |a.tree.records| ensures TwinNode(a', b', i) { assert TwinNode(a, b, i); }
  }

  lemma {:induction false} GoalTwins(a: State, b: State, id: NodeId)
    requires Twins(a, b) && a.tree.MarkGoal(id).Ok?
    ensures b.tree.MarkGoal(id).Ok?
    ensures Twins(a.(tree := a.tree.MarkGoal(id).value), b.(tree := b.tree.MarkGoal(id).value))
  {
    assert TwinNode(a, b, id);
    var a', b' := a.(tree := a.tree.MarkGoal(id).value), b.(tree := b.tree.MarkGoal(id).value);
    forall i | 0 <= i < |a.tree.records| ensures TwinNode(a', b', i) { assert TwinNode(a, b, i); }
  }

  lemma {:induction false} PrunedTwins(a: State, b: State, id: NodeId)
    requires Twins(a, b) && a.tree.MarkPruned(id).Ok?
    ensures b.tree.MarkPruned(id).Ok?
    ensures Twins(a.(tree := a.tree.MarkPruned(id).value), b.(tree := b.tree.MarkPruned(id).value))
  {
    assert TwinNode(a, b, id);
    var a', b' := a.(tree := a.tree.MarkPruned(id).value), b.(tree := b.tree.MarkPruned(id).value);
    forall i | 0 <= i < |a.tree.records| ensures TwinNode(a', b', i) { assert TwinNode(a, b, i); }
  }

  lemma {:induction false} PruneChildTwins(a: State, b: State, parent: NodeId, payload: Payload)
    requires Twins(a, b)
    ensures var (a', p), (b', q) := PruneChild(a, parent, payload), PruneChild(b, parent, payload);
            p == q && Twins(a', b')
  {
    AttachTwins(a, b, parent, payload);
    if Attach(a, parent, payload).Ok? {
      var n, u, v := |a.tree.records|, Attach(a, parent, payload).value, Attach(b, parent, payload).value;
      PrunedTwins(u, v, n);
      var x, y := u.(tree := u.tree.MarkPruned(n).value), v.(tree := v.tree.MarkPruned(n).value);
      if x.CanBump(payload.cell) { BumpTwins(x, y, payload.cell); }
    }
  }

  lemma {:induction false} KeepChildTwins(a: State, b: State, parent: NodeId, payload: Payload, goal: bool)
    requires Twins(a, b)
    ensures var (a', p), (b', q) := KeepChild(a, parent, payload, goal), KeepChild(b, parent, payload, goal);
            p == q && Twins(a', b')
  {
    AttachTwins(a, b, parent, payload);
    if Attach(a, parent, payload).Ok? {
      var n, u, v := |a.tree.records|, Attach(a, parent, payload).value, Attach(b, parent, payload).value;
      if u.CanBump(payload.cell) {
        BumpTwins(u, v, payload.cell);
        var x, y := u.Bump(payload.cell), v.Bump(payload.cell);
        ListedTwins(x, y, n);
        if goal { GoalTwins(x.(frontier := x.frontier + {n}), y.(frontier := y.frontier + {n}), n); }
      }
    }
  }

  lemma {:induction false} VisitTwins(a: State, b: State, id: NodeId)
    requires Twins(a, b)
    ensures var p, q := a.tree.IncrementVisits(id), b.tree.IncrementVisits(id);
            && (p.Ok? ==> q.Ok? && Twins(a.(tree := p.value), b.(tree := q.value)))
            && (p.Err? && !p.error.VisitOverflow? ==> p == q)
  {
    if id < |a.tree.records| && a.tree.IncrementVisits(id).Ok? {
      assert TwinNode(a, b, id);
      var a', b' := a.(tree := a.tree.IncrementVisits(id).value), b.(tree := b.tree.IncrementVisits(id).value);
      forall i | 0 <= i < |a.tree.records| ensures TwinNode(a', b', i) { assert TwinNode(a, b, i); }
    }
  }

  lemma {:induction false} RouteDuplicateTwins(a: State, b: State, parent: NodeId, payload: Payload)
    requires Twins(a, b)
    ensures var (a', p), (b', q) := RouteDuplicate(a, parent, payload), RouteDuplicate(b, parent, payload);
            !Overflowed(p) ==> p == q && Twins(a', b')
  {
    if a.CanBump(payload.cell) {
      BumpTwins(a, b, payload.cell);
      if payload.stateHash in a.seen {
        VisitTwins(a.Bump(payload.cell), b.Bump(payload.cell), a.seen[payload.stateHash]);
      }
    }
  }

  lemma {:induction false} CommitChildTwins(a: State, b: State, parent: NodeId, parentScore: real,
                                            child: ScoredChild, rules: Rules)
    requires Twins(a, b)
    ensures var (a', p), (b', q) := CommitChild(a, parent, parentScore, child, rules),
                                    CommitChild(b, parent, parentScore, child, rules);
            !Overflowed(p) ==> p == q && Twins(a', b')
  {
    PruneChildTwins(a, b, parent, child.payload);
    RouteDuplicateTwins(a, b, parent, child.payload);
    KeepChildTwins(a, b, parent, child.payload, child.goal);
  }

  lemma {:induction false} CommitChildrenTwins(a: State, b: State, parent: NodeId, parentScore: real,
                                               children: seq<ScoredChild>, rules: Rules)
    requires Twins(a, b)
    ensures var (a', p), (b', q) := CommitChildren(a, parent, parentScore, children, rules),
                                    CommitChildren(b, parent, parentScore, children, rules);
            !Overflowed(p) ==> p == q && Twins(a', b')
  {
    if children == [] {
    } else {
      var last := |children| - 1;
      CommitChildrenTwins(a, b, parent, parentScore, children[..last], rules);
      var (a', p) := CommitChildren(a, parent, parentScore, children[..last], rules);
      var (b', q) := CommitChildren(b, parent, parentScore, children[..last], rules);
      if p.Value? { CommitChildTwins(a', b', parent, parentScore, children[last], rules); }
    }
  }

  lemma {:induction false} ExpandTwins(a: State, b: State, parent: NodeId, children: seq<ScoredChild>, rules: Rules)
    requires Twins(a, b) && a.tree.Has(parent)
    ensures var (a', p), (b', q) := Expand(a, parent, children, rules), Expand(b, parent, children, rules);
            !Overflowed(p) ==> p == q && Twins(a', b')
  {
    assert TwinNode(a, b, parent);
    var score := a.tree.records[parent].payload.score;
    CommitChildrenTwins(a, b, parent, score, children, rules);
    var (a', p) := CommitChildren(a, parent, score, children, rules);
    var (b', q) := CommitChildren(b, parent, score, children, rules);
    if p.Value? { VisitTwins(a', b', parent); }
  }

  lemma {:induction false} CountedTwins(a: State, b: State, parent: NodeId, streak: u32)
    requires Twins(a, b) && a.tree.Has(parent)
    ensures Twins(a.(streaks := a.streaks[parent := streak]), b.(streaks := b.streaks[parent := streak]))
  {
    var a', b' := a.(streaks := a.streaks[parent := streak]), b.(streaks := b.streaks[parent := streak]);
    forall i | 0 <= i < |a.tree.records| ensures TwinNode(a', b', i) { assert TwinNode(a, b, i); }
  }

  lemma {:induction false} EvictedTwins(a: State, b: State, parent: NodeId)
    requires Twins(a, b) && a.tree.Has(parent)
    ensures var p, q := a.tree.MarkExhausted(parent), b.tree.MarkExhausted(parent);
            && (p.Err? ==> p == q)
            && (p.Ok? ==> && q.Ok?
                          && Twins(a.(tree := p.value, frontier := a.frontier - {parent}),
                                   b.(tree := q.value, frontier := b.frontier - {parent})))
  {
    assert TwinNode(a, b, parent);
    if a.tree.MarkExhausted(parent).Ok? {
      var a', b' := a.(tree := a.tree.MarkExhausted(parent).value, frontier := a.frontier - {parent}),
                    b.(tree := b.tree.MarkExhausted(parent).value, frontier := b.frontier - {parent});
      forall i | 0 <= i < |a.tree.records| ensures TwinNode(a', b', i) { assert TwinNode(a, b, i); }
    }
  }

  lemma {:induction false} ExhaustionTwins(a: State, b: State, parent: NodeId, visits: u32, allDuplicate: bool,
                                           rules: Rules)
    requires Twins(a, b) && a.tree.Has(parent) && a.tree.records[parent].status.Frontier?
    ensures var (a', p), (b', q) := UpdateParentExhaustion(a, parent, visits, allDuplicate, rules),
                                    UpdateParentExhaustion(b, parent, visits, allDuplicate, rules);
            p == q && Twins(a', b')
  {
    assert a.Track(parent) == a && b.Track(parent) == b;
    assert TwinNode(a, b, parent);
    if !allDuplicate || a.streaks[parent] < U32_MAX {
      var streak: u32 := if allDuplicate then a.streaks[parent] + 1 else 0;
      CountedTwins(a, b, parent, streak);
      EvictedTwins(a.(streaks := a.streaks[parent := streak]), b.(streaks := b.streaks[parent := streak]), parent);
    }
  }

  /** One batch on a selectable parent gets the same answer from both and leaves them twins. */
  lemma {:induction false} ApplyTwins(a: State, b: State, c: Call)
    requires Twins(a, b) && c.parent in CandidateSet(a.frontier, a.tree) && !Overflowed(Apply(a, c).1)
    ensures Apply(a, c).1 == Apply(b, c).1
    ensures Twins(Apply(a, c).0, Apply(b, c).0)
  {
    if RuleFault(c.rules).None? {
      ExpandTwins(a, b, c.parent, c.children, c.rules);
      ExpandUnmarked(a, c.parent, c.children, c.rules);
      var (a', p) := Expand(a, c.parent, c.children, c.rules);
      var (b', q) := Expand(b, c.parent, c.children, c.rules);
      if p.Value? {
        assert TwinNode(a', b', c.parent);
        ExhaustionTwins(a', b', c.parent, a'.tree.records[c.parent].visits, AllDuplicate(p.value), c.rules);
      }
    }
  }

  /** Every call expands a node the selector is offered at that point. */
  ghost predicate Selected(s: State, calls: seq<Call>)
    requires |s.tree.records| == |s.tree.childrenByNode|
  {
    calls == [] ||
    var init := calls[..|calls| - 1];
    Selected(s, init) && calls[|calls| - 1].parent in CandidateSet(Run(s, init).0.frontier, Run(s, init).0.tree)
  }

  ghost predicate NoOverflow(replies: seq<Reply<BatchOutcome>>) {
    forall k :: 0 <= k < |replies| ==> !Overflowed(replies[k])
  }

  /** No run of selected expansions tells twins apart while the visit counts last. */
  lemma {:induction false} RunTwins(a: State, b: State, calls: seq<Call>)
    requires Twins(a, b) && Selected(a, calls) && NoOverflow(Run(a, calls).1)
    ensures Run(a, calls).1 == Run(b, calls).1
    ensures Twins(Run(a, calls).0, Run(b, calls).0)
    ensures Selected(b, calls) && Candidates(Run(a, calls).0) == Candidates(Run(b, calls).0)
  {
    if calls == [] {
      SameCandidates(a, b);
    } else {
      var init, last := calls[..|calls| - 1], calls[|calls| - 1];
      RunSplits(a, calls);
      RunSplits(b, calls);
      assert forall k :: 0 <= k < |init| ==> Run(a, calls).1[k] == Run(a, init).1[k];
      assert Run(a, calls).1[|init|] == Apply(Run(a, init).0, last).1;
      RunTwins(a, b, init);
      SameCandidates(Run(a, init).0, Run(b, init).0);
      ApplyTwins(Run(a, init).0, Run(b, init).0, last);
      SameCandidates(Run(a, calls).0, Run(b, calls).0);
    }
  }

  /** And it is the counts that limit it: a full count on one side only tells them apart. */
  lemma {:induction false} OverflowTellsApart(a: State, b: State, parent: NodeId, payload: Payload)
    requires Twins(a, b) && a.CanBump(payload.cell)
    requires payload.stateHash in a.seen && a.seen[payload.stateHash] != parent
    requires var id := a.seen[payload.stateHash];
             id < |a.tree.records| && b.tree.records[id].visits < a.tree.records[id].visits == U32_MAX
    ensures Overflowed(RouteDuplicate(a, parent, payload).1) && RouteDuplicate(b, parent, payload).1.Value?
  {
  }
}
