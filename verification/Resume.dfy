/**
  Assembling a commit state from its parts (`from_parts` in
  crates/orch-core/src/commit.rs): given the same tree and frontier set and the
  vectors of a checkpoint, it answers every later batch exactly like the state that
  was never interrupted. Rebuilding the tree and the frontier too is in `Rebuild`.
 */
module Resume {
  import opened Base
  import opened SearchTree
  import opened FrontierIndex
  import opened Mirrors
  import opened CommitRules
  import opened CommitRuns

  /** Equal but for the streaks of nodes that have left the frontier. */
  ghost predicate Alike(a: State, b: State) {
    && b == a.(streaks := b.streaks)
    && |a.streaks| == |b.streaks| == |a.tree.records| == |a.tree.childrenByNode|
    && forall id :: id in a.frontier ==> id < |a.streaks| && a.streaks[id] == b.streaks[id]
  }

  lemma {:induction false} AttachAlike(a: State, b: State, parent: NodeId, payload: Payload)
    requires Alike(a, b)
    ensures var p, q := Attach(a, parent, payload), Attach(b, parent, payload);
            && (p.Err? ==> q == p)
            && (p.Ok? ==> && q.Ok? && Alike(p.value, q.value) && p.value.frontier == a.frontier
                          && |a.tree.records| < |p.value.streaks|
                          && p.value.streaks[|a.tree.records|] == q.value.streaks[|a.tree.records|])
  {
  }

  lemma {:induction false} PruneChildAlike(a: State, b: State, parent: NodeId, payload: Payload)
    requires Alike(a, b)
    ensures var (a', p), (b', q) := PruneChild(a, parent, payload), PruneChild(b, parent, payload);
            p == q && Alike(a', b') && a.frontier <= a'.frontier
  {
    AttachAlike(a, b, parent, payload);
  }

  lemma {:induction false} KeepChildAlike(a: State, b: State, parent: NodeId, payload: Payload, goal: bool)
    requires Alike(a, b)
    ensures var (a', p), (b', q) := KeepChild(a, parent, payload, goal), KeepChild(b, parent, payload, goal);
            p == q && Alike(a', b') && a.frontier <= a'.frontier
  {
    AttachAlike(a, b, parent, payload);
  }

  lemma {:induction false} RouteDuplicateAlike(a: State, b: State, parent: NodeId, payload: Payload)
    requires Alike(a, b)
    ensures var (a', p), (b', q) := RouteDuplicate(a, parent, payload), RouteDuplicate(b, parent, payload);
            p == q && Alike(a', b') && a.frontier <= a'.frontier
  {
  }

  lemma {:induction false} CommitChildAlike(a: State, b: State, parent: NodeId, parentScore: real, child: ScoredChild,
                                            rules: Rules)
    requires Alike(a, b)
    ensures var (a', p), (b', q) := CommitChild(a, parent, parentScore, child, rules),
                                    CommitChild(b, parent, parentScore, child, rules);
            p == q && Alike(a', b') && a.frontier <= a'.frontier
  {
    PruneChildAlike(a, b, parent, child.payload);
    RouteDuplicateAlike(a, b, parent, child.payload);
    KeepChildAlike(a, b, parent, child.payload, child.goal);
  }

  lemma {:induction false} CommitChildrenAlike(a: State, b: State, parent: NodeId, parentScore: real,
                                               children: seq<ScoredChild>, rules: Rules)
    requires Alike(a, b)
    ensures var (a', p), (b', q) := CommitChildren(a, parent, parentScore, children, rules),
                                    CommitChildren(b, parent, parentScore, children, rules);
            p == q && Alike(a', b') && a.frontier <= a'.frontier
  {
    if children == [] {
    } else {
      var last := |children| - 1;
      CommitChildrenAlike(a, b, parent, parentScore, children[..last], rules);
      var (a', p) := CommitChildren(a, parent, parentScore, children[..last], rules);
      var (b', q) := CommitChildren(b, parent, parentScore, children[..last], rules);
      if p.Value? { CommitChildAlike(a', b', parent, parentScore, children[last], rules); }
    }
  }

  lemma {:induction false} ExhaustionAlike(a: State, b: State, parent: NodeId, visits: u32, allDuplicate: bool,
                                           rules: Rules)
    requires Alike(a, b) && parent in a.frontier
    ensures var (a', p), (b', q) := UpdateParentExhaustion(a, parent, visits, allDuplicate, rules),
                                    UpdateParentExhaustion(b, parent, visits, allDuplicate, rules);
            p == q && Alike(a', b')
  {
    assert a.Track(parent) == a && b.Track(parent) == b;
  }

  lemma {:induction false} ExpandAlike(a: State, b: State, parent: NodeId, children: seq<ScoredChild>, rules: Rules)
    requires Alike(a, b) && a.tree.Has(parent)
    ensures var (a', p), (b', q) := Expand(a, parent, children, rules), Expand(b, parent, children, rules);
            p == q && Alike(a', b') && a.frontier <= a'.frontier
  {
    CommitChildrenAlike(a, b, parent, a.tree.records[parent].payload.score, children, rules);
  }

  /** One batch on a frontier parent cannot tell the two states apart. */
  lemma {:induction false} ApplyAlike(a: State, b: State, c: Call)
    requires Alike(a, b) && c.parent in a.frontier
    ensures Apply(a, c).1 == Apply(b, c).1
    ensures Alike(Apply(a, c).0, Apply(b, c).0)
  {
    if RuleFault(c.rules).None? {
      ExpandAlike(a, b, c.parent, c.children, c.rules);
      var (a', p) := Expand(a, c.parent, c.children, c.rules);
      var (b', q) := Expand(b, c.parent, c.children, c.rules);
      if p.Value? {
        ExhaustionAlike(a', b', c.parent, a'.tree.records[c.parent].visits, AllDuplicate(p.value), c.rules);
      }
    }
  }

  /** Every call expands a node that is in the frontier when the call is made. */
  ghost predicate OnFrontier(s: State, calls: seq<Call>)
    requires |s.tree.records| == |s.tree.childrenByNode|
  {
    calls == [] ||
    var init := calls[..|calls| - 1];
    OnFrontier(s, init) && calls[|calls| - 1].parent in Run(s, init).0.frontier
  }

  /** Resume equivalence: same replies, same candidate lists, and the states stay alike, for every run. */
  lemma {:induction false} RunAlike(a: State, b: State, calls: seq<Call>)
    requires Alike(a, b) && OnFrontier(a, calls)
    ensures Run(a, calls).1 == Run(b, calls).1
    ensures Alike(Run(a, calls).0, Run(b, calls).0)
    ensures Candidates(Run(a, calls).0) == Candidates(Run(b, calls).0)
  {
    if calls == [] {
    } else {
      var init := calls[..|calls| - 1];
      RunAlike(a, b, init);
      RunSplits(a, calls);
      RunSplits(b, calls);
      ApplyAlike(Run(a, init).0, Run(b, init).0, calls[|calls| - 1]);
    }
  }

  // ------------------------------------------------------------------
  // Through a checkpoint
  // ------------------------------------------------------------------

  /** What a frontier row keeps of its node; the streak has 16 bits. */
  datatype Weight = Weight(visits: u32, exhausted: bool, streak: u16)

  /** The checkpoint vectors that feed resume. */
  datatype Checkpoint = Checkpoint(cellMirror: seq<(CellKey, u32)>, seen: seq<(StateHash, NodeId)>,
                                   frontier: seq<(NodeId, Weight)>)

  predicate ValidateSorted(c: Checkpoint) {
    StrictlySortedPairs(c.cellMirror) && StrictlySortedPairs(c.seen)
  }

  function Saturate16(n: u32): u16 { if n <= U16_MAX then n else U16_MAX }

  function WeightOf(s: State, id: NodeId): Weight
    requires s.tree.Has(id) && id < |s.streaks|
  {
    Weight(s.tree.records[id].visits, s.tree.records[id].exhausted, Saturate16(s.streaks[id]))
  }

  ghost function Weights(s: State): map<NodeId, Weight>
    requires Sound(s)
  {
    map id | id in s.frontier :: WeightOf(s, id)
  }

  ghost function TakeCheckpoint(s: State): Checkpoint
    requires Sound(s)
  {
    Checkpoint(SortedPairs(s.cells), SortedPairs(s.seen), SortedPairs(Weights(s)))
  }

  function Widen(rows: seq<(NodeId, Weight)>): (w: seq<(NodeId, u32)>)
    ensures |w| == |rows|
    ensures forall i :: 0 <= i < |rows| ==> w[i].0 == rows[i].0 && w[i].1 == rows[i].1.streak
  {
    seq(|rows|, i requires 0 <= i < |rows| => (rows[i].0, rows[i].1.streak as u32))
  }

  ghost function Restore(c: Checkpoint, tree: TreeView, frontier: set<NodeId>): State {
    Rebuilt(tree, frontier, CountsFrom(c.cellMirror), RoutesFrom(c.seen), Widen(c.frontier))
  }

  lemma {:induction false} StreaksFromSorted(size: nat, rows: seq<(NodeId, u32)>)
    requires StrictlySortedPairs(rows)
    ensures forall i :: 0 <= i < |rows| && rows[i].0 < size ==> StreaksFrom(size, rows)[rows[i].0] == rows[i].1
  {
    if rows == [] {
    } else {
      var init := rows[..|rows| - 1];
      StreaksFromSorted(size, init);
      forall i | 0 <= i < |rows| && rows[i].0 < size ensures StreaksFrom(size, rows)[rows[i].0] == rows[i].1 {
        if i < |init| {
          SortedPairsAreDistinct(rows, i, |rows| - 1);
          assert init[i] == rows[i];
        }
      }
    }
  }

  /** The streak a restored state gives a frontier node. */
  lemma {:induction false} RestoredStreak(s: State, id: NodeId)
    requires Sound(s) && id in s.frontier
    ensures Restore(TakeCheckpoint(s), s.tree, s.frontier).streaks[id] == Saturate16(s.streaks[id])
  {
    var rows := SortedPairs(Weights(s));
    assert id in Weights(s);
    var k :| 0 <= k < |rows| && rows[k].0 == id;
    StreaksFromSorted(|s.tree.records|, Widen(rows));
    assert Widen(rows)[k].0 == id;
  }

  /**
    A checkpoint always passes `validate_sorted`, and assembled with the same tree
    and frontier set it gives an equivalent state exactly when every frontier streak
    fits the 16-bit field.
   */
  lemma {:induction false} CheckpointAlike(s: State)
    requires Sound(s)
    ensures ValidateSorted(TakeCheckpoint(s))
    ensures Alike(s, Restore(TakeCheckpoint(s), s.tree, s.frontier))
       <==> forall id :: id in s.frontier ==> s.streaks[id] <= U16_MAX
  {
    MirrorRoundTrip(s.cells, s.seen);
    forall id | id in s.frontier
      ensures Restore(TakeCheckpoint(s), s.tree, s.frontier).streaks[id] == Saturate16(s.streaks[id])
    {
      RestoredStreak(s, id);
    }
  }

  /** Every call expands a selectable node under the same rules. */
  ghost predicate SelectorRun(s: State, calls: seq<Call>, rules: Rules)
    requires |s.tree.records| == |s.tree.childrenByNode|
  {
    calls == [] ||
    var init, last := calls[..|calls| - 1], calls[|calls| - 1];
    && SelectorRun(s, init, rules)
    && last.rules == rules
    && last.parent in CandidateSet(Run(s, init).0.frontier, Run(s, init).0.tree)
  }

  ghost predicate StreaksBelow(s: State, limit: nat) {
    forall id :: id in s.frontier ==> id < |s.streaks| && s.streaks[id] < limit
  }

  lemma {:induction false} AttachStreaks(s: State, parent: NodeId, payload: Payload)
    requires Sound(s) && Attach(s, parent, payload).Ok?
    ensures var a := Attach(s, parent, payload).value; a.frontier == s.frontier && a.streaks == s.streaks + [0]
  {
  }

  lemma {:induction false} CommitChildStreaks(s: State, parent: NodeId, parentScore: real, child: ScoredChild,
                                              rules: Rules, limit: nat)
    requires Sound(s) && StreaksBelow(s, limit) && 0 < limit
    ensures StreaksBelow(CommitChild(s, parent, parentScore, child, rules).0, limit)
  {
    if Attach(s, parent, child.payload).Ok? { AttachStreaks(s, parent, child.payload); }
  }

  lemma {:induction false} CommitChildrenStreaks(s: State, parent: NodeId, parentScore: real,
                                                 children: seq<ScoredChild>, rules: Rules, limit: nat)
    requires Sound(s) && StreaksBelow(s, limit) && 0 < limit
    ensures StreaksBelow(CommitChildren(s, parent, parentScore, children, rules).0, limit)
  {
    if children == [] {
    } else {
      var last := |children| - 1;
      CommitChildrenStreaks(s, parent, parentScore, children[..last], rules, limit);
      CommitChildrenSound(s, parent, parentScore, children[..last], rules);
      var (before, reply) := CommitChildren(s, parent, parentScore, children[..last], rules);
      if reply.Value? { CommitChildStreaks(before, parent, parentScore, children[last], rules, limit); }
    }
  }

  lemma {:induction false} ExhaustionStreaks(s: State, parent: NodeId, visits: u32, allDuplicate: bool, rules: Rules)
    requires Sound(s) && StreaksBelow(s, rules.exhaustAfterDupExpansions) && 0 < rules.exhaustAfterDupExpansions
    requires s.tree.Has(parent) && s.tree.records[parent].IsFrontierCandidate()
    ensures StreaksBelow(UpdateParentExhaustion(s, parent, visits, allDuplicate, rules).0,
                         rules.exhaustAfterDupExpansions)
  {
    assert s.Track(parent) == s;
    assert NodeSound(s, parent);
  }

  lemma {:induction false} ExpandStreaks(s: State, parent: NodeId, children: seq<ScoredChild>, rules: Rules, limit: nat)
    requires Sound(s) && s.tree.Has(parent) && StreaksBelow(s, limit) && 0 < limit
    ensures StreaksBelow(Expand(s, parent, children, rules).0, limit)
  {
    CommitChildrenStreaks(s, parent, s.tree.records[parent].payload.score, children, rules, limit);
  }

  /** Under fixed rules a selectable node is evicted before its streak passes the limit. */
  lemma {:induction false} ApplyStreaks(s: State, c: Call)
    requires Sound(s) && RuleFault(c.rules).None?
    requires StreaksBelow(s, c.rules.exhaustAfterDupExpansions)
    requires c.parent in CandidateSet(s.frontier, s.tree)
    ensures StreaksBelow(Apply(s, c).0, c.rules.exhaustAfterDupExpansions)
  {
    ExpandSound(s, c.parent, c.children, c.rules);
    ExpandStreaks(s, c.parent, c.children, c.rules, c.rules.exhaustAfterDupExpansions);
    ExpandUnmarked(s, c.parent, c.children, c.rules);
    var (t, reply) := Expand(s, c.parent, c.children, c.rules);
    if reply.Value? {
      ExhaustionStreaks(t, c.parent, t.tree.records[c.parent].visits, AllDuplicate(reply.value), c.rules);
    }
  }

  lemma {:induction false} SelectorRunStreaks(s: State, calls: seq<Call>, rules: Rules)
    requires Sound(s) && RuleFault(rules).None? && StreaksBelow(s, rules.exhaustAfterDupExpansions)
    requires SelectorRun(s, calls, rules) && Completed(Run(s, calls).1)
    ensures StreaksBelow(Run(s, calls).0, rules.exhaustAfterDupExpansions)
  {
    if calls == [] {
    } else {
      var init := calls[..|calls| - 1];
      RunSplits(s, calls);
      RunSound(s, init);
      SelectorRunStreaks(s, init, rules);
      ApplyStreaks(Run(s, init).0, calls[|calls| - 1]);
    }
  }

  /**
    An experiment that only expands selectable nodes, with an eviction limit of at
    most 2^16 duplicate expansions, can be cut at any point: checkpoint, assemble
    with the same tree and frontier set, and the rest of the run gives the same
    replies and candidate lists.
   */
  lemma {:induction false} ResumedRunContinues(payload: Payload, before: seq<Call>, rules: Rules, after: seq<Call>)
    requires RuleFault(rules).None? && rules.exhaustAfterDupExpansions <= U16_MAX + 1
    requires SelectorRun(InitialState(payload), before, rules)
    requires Completed(Run(InitialState(payload), before).1)
    requires OnFrontier(Run(InitialState(payload), before).0, after)
    ensures var s := Run(InitialState(payload), before).0;
            && Sound(s)
            && var resumed := Restore(TakeCheckpoint(s), s.tree, s.frontier);
            && Run(resumed, after).1 == Run(s, after).1
            && Candidates(Run(resumed, after).0) == Candidates(Run(s, after).0)
  {
    var s0 := InitialState(payload);
    InitialStateSound(payload);
    RunSound(s0, before);
    SelectorRunStreaks(s0, before, rules);
    var s := Run(s0, before).0;
    CheckpointAlike(s);
    RunAlike(s, Restore(TakeCheckpoint(s), s.tree, s.frontier), after);
  }

  // The 2^16 bound is sharp: one expansion more and the saturated row loses an eviction.

  const SAMPLE := Payload(0, 0.0, 0.0, 7, 9, 0, 0)
  const LATE_RULES := Rules(Drop, 0.0, U32_MAX, U16_MAX + 2)
  const DUPLICATE_CALL := Call(ROOT, [ScoredChild(SAMPLE, true, false, false)], LATE_RULES)

  /** The root after `n` batches whose only child was the root's own state again. */
  function AfterDuplicates(n: nat): State
    requires n <= U16_MAX + 1
  {
    var s := InitialState(SAMPLE);
    s.(tree := s.tree.(records := [s.tree.records[0].(visits := n)]), cells := map[7 := n + 1], streaks := [n])
  }

  lemma {:induction false} DuplicateStep(n: nat, streak: u32)
    requires streak <= n <= U16_MAX + 1
    ensures var s := AfterDuplicates(n).(streaks := [streak]);
            var (t, reply) := Apply(s, DUPLICATE_CALL);
            && (streak <= U16_MAX && n <= U16_MAX ==> t == AfterDuplicates(n + 1).(streaks := [streak + 1]))
            && reply == Value(BatchOutcome(ROOT, n + 1, [ChildCommit(DiscardDuplicate, None, Some(ROOT))],
                                           if streak == U16_MAX + 1 then Some(AllDuplicateExpansions) else None, None))
  {
    var s := AfterDuplicates(n).(streaks := [streak]);
    var children := DUPLICATE_CALL.children;
    var bumped := s.Bump(7);
    var commits := [ChildCommit(DiscardDuplicate, None, Some(ROOT))];
    assert RuleFault(LATE_RULES).None?;
    assert CommitChild(s, ROOT, 0.0, children[0], LATE_RULES) == (bumped, Value(commits[0]));
    assert children[..0] == [];
    assert CommitChildren(s, ROOT, 0.0, [], LATE_RULES) == (s, Value([]));
    assert [] + [commits[0]] == commits;
    assert CommitChildren(s, ROOT, 0.0, children, LATE_RULES) == (bumped, Value(commits));
    assert AllDuplicate(commits);
    assert GoalNode(children, commits) == None;
  }

  function DuplicateCalls(n: nat): (calls: seq<Call>)
    ensures |calls| == n
  {
    if n == 0 then [] else DuplicateCalls(n - 1) + [DUPLICATE_CALL]
  }

  lemma {:induction false} DuplicateNext(n: nat)
    requires n <= U16_MAX
    ensures var (t, reply) := Apply(AfterDuplicates(n), DUPLICATE_CALL);
            t == AfterDuplicates(n + 1) && !reply.Panic?
    ensures ROOT in CandidateSet(AfterDuplicates(n).frontier, AfterDuplicates(n).tree)
  {
    var s := AfterDuplicates(n);
    assert s.streaks == [n] && s.(streaks := [n]) == s;
    DuplicateStep(n, n);
  }

  lemma {:induction false} DuplicateRun(n: nat)
    requires n <= U16_MAX + 1
    ensures Run(InitialState(SAMPLE), DuplicateCalls(n)).0 == AfterDuplicates(n)
    ensures Completed(Run(InitialState(SAMPLE), DuplicateCalls(n)).1)
    ensures SelectorRun(InitialState(SAMPLE), DuplicateCalls(n), LATE_RULES)
  {
    if n == 0 {
    } else {
      var calls := DuplicateCalls(n);
      assert calls[..n - 1] == DuplicateCalls(n - 1) && calls[n - 1] == DUPLICATE_CALL;
      DuplicateRun(n - 1);
      DuplicateNext(n - 1);
      RunSplits(InitialState(SAMPLE), calls);
    }
  }

  lemma {:induction false} SaturatedRestore(n: nat)
    requires n == U16_MAX + 1
    ensures var s := AfterDuplicates(n);
            Sound(s) && Restore(TakeCheckpoint(s), s.tree, s.frontier) == s.(streaks := [U16_MAX])
  {
    var s := AfterDuplicates(n);
    InitialStateSound(SAMPLE);
    DuplicateRun(n);
    RunSound(InitialState(SAMPLE), DuplicateCalls(n));
    MirrorRoundTrip(s.cells, s.seen);
    RestoredStreak(s, ROOT);
    assert Restore(TakeCheckpoint(s), s.tree, s.frontier).streaks == [U16_MAX];
  }

  /** A reachable state whose restored checkpoint answers the next batch differently. */
  lemma {:induction false} SaturatedStreakDiverges(n: nat)
    requires n == U16_MAX + 1
    ensures SelectorRun(InitialState(SAMPLE), DuplicateCalls(n), LATE_RULES)
    ensures var s := Run(InitialState(SAMPLE), DuplicateCalls(n)).0;
            && Sound(s)
            && Apply(Restore(TakeCheckpoint(s), s.tree, s.frontier), DUPLICATE_CALL).1 != Apply(s, DUPLICATE_CALL).1
  {
    DuplicateRun(n);
    SaturatedRestore(n);
    DuplicateStep(n, n);
    DuplicateStep(n, U16_MAX);
    assert AfterDuplicates(n).(streaks := [n]) == AfterDuplicates(n);
  }
}
