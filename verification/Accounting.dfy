/**
  Two ledgers over whole runs: what the cell counts add up to, and how often a
  node can be expanded before it is evicted.
 */
module Accounting {
  import opened Base
  import opened SearchTree
  import opened FrontierIndex
  import opened CommitRules
  import opened CommitRuns

  // ------------------------------------------------------------------
  // Cell counts
  // ------------------------------------------------------------------

  /** Tree nodes whose state lies in cell `c`. */
  function NodesIn(records: seq<NodeRecord>, c: CellKey): nat {
    if records == [] then 0
    else NodesIn(records[..|records| - 1], c) + if records[|records| - 1].payload.cell == c then 1 else 0
  }

  /** Children of one batch that were discarded as duplicates into cell `c`. */
  function DuplicatesIn(children: seq<ScoredChild>, commits: seq<ChildCommit>, c: CellKey): nat
    requires |children| == |commits|
  {
    if children == [] then 0
    else
      var last := |children| - 1;
      DuplicatesIn(children[..last], commits[..last], c) +
      if commits[last].disposition == DiscardDuplicate && children[last].payload.cell == c then 1 else 0
  }

  lemma {:induction false} NodesInDependsOnCells(a: seq<NodeRecord>, b: seq<NodeRecord>, c: CellKey)
    requires |a| == |b|
    requires forall i :: 0 <= i < |a| ==> a[i].payload.cell == b[i].payload.cell
    ensures NodesIn(a, c) == NodesIn(b, c)
  {
    if a == [] {
    } else {
      NodesInDependsOnCells(a[..|a| - 1], b[..|b| - 1], c);
    }
  }

  lemma {:induction false} NodesInGrowsByOne(a: seq<NodeRecord>, b: seq<NodeRecord>, c: CellKey)
    requires |b| == |a| + 1
    requires forall i :: 0 <= i < |a| ==> a[i].payload.cell == b[i].payload.cell
    ensures NodesIn(b, c) == NodesIn(a, c) + if b[|a|].payload.cell == c then 1 else 0
  {
    NodesInDependsOnCells(a, b[..|a|], c);
  }

  lemma {:induction false} AttachedCounts(s: State, parent: NodeId, payload: Payload, a: State, c: CellKey)
    requires |s.tree.records| == |s.tree.childrenByNode| && Attach(s, parent, payload) == Ok(a)
    ensures NodesIn(a.tree.records, c) == NodesIn(s.tree.records, c) + if payload.cell == c then 1 else 0
    ensures a.cells == s.cells && |a.tree.records| == |a.tree.childrenByNode|
  {
    NodesInGrowsByOne(s.tree.records, a.tree.records, c);
  }

  lemma {:induction false} PrunedCounts(s: State, parent: NodeId, payload: Payload, c: CellKey)
    requires |s.tree.records| == |s.tree.childrenByNode|
    ensures var (t, reply) := PruneChild(s, parent, payload);
            reply.Value? ==> t.Count(c) + NodesIn(s.tree.records, c) == s.Count(c) + NodesIn(t.tree.records, c)
  {
    if Attach(s, parent, payload).Ok? {
      var a, t := Attach(s, parent, payload).value, PruneChild(s, parent, payload).0;
      AttachedCounts(s, parent, payload, a, c);
      NodesInDependsOnCells(a.tree.records, t.tree.records, c);
    }
  }

  lemma {:induction false} KeptCounts(s: State, parent: NodeId, payload: Payload, goal: bool, c: CellKey)
    requires |s.tree.records| == |s.tree.childrenByNode|
    ensures var (t, reply) := KeepChild(s, parent, payload, goal);
            reply.Value? ==> t.Count(c) + NodesIn(s.tree.records, c) == s.Count(c) + NodesIn(t.tree.records, c)
  {
    if Attach(s, parent, payload).Ok? {
      var a, t := Attach(s, parent, payload).value, KeepChild(s, parent, payload, goal).0;
      AttachedCounts(s, parent, payload, a, c);
      NodesInDependsOnCells(a.tree.records, t.tree.records, c);
    }
  }

  lemma {:induction false} RoutedCounts(s: State, parent: NodeId, payload: Payload, c: CellKey)
    ensures var (t, reply) := RouteDuplicate(s, parent, payload);
            reply.Value? ==>
              && t.Count(c) == s.Count(c) + (if payload.cell == c then 1 else 0)
              && NodesIn(t.tree.records, c) == NodesIn(s.tree.records, c)
  {
    var (t, reply) := RouteDuplicate(s, parent, payload);
    NodesInDependsOnCells(s.tree.records, t.tree.records, c);
  }

  lemma {:induction false} CommitChildCounts(s: State, parent: NodeId, parentScore: real, child: ScoredChild,
                                             rules: Rules, c: CellKey)
    requires |s.tree.records| == |s.tree.childrenByNode|
    ensures var (t, reply) := CommitChild(s, parent, parentScore, child, rules);
            reply.Value? ==>
              t.Count(c) + NodesIn(s.tree.records, c) ==
              s.Count(c) + NodesIn(t.tree.records, c) +
              if reply.value.disposition == DiscardDuplicate && child.payload.cell == c then 1 else 0
  {
    PrunedCounts(s, parent, child.payload, c);
    KeptCounts(s, parent, child.payload, child.goal, c);
    RoutedCounts(s, parent, child.payload, c);
  }

  lemma {:induction false} CommitChildrenCounts(s: State, parent: NodeId, parentScore: real,
                                                children: seq<ScoredChild>, rules: Rules, c: CellKey)
    requires |s.tree.records| == |s.tree.childrenByNode|
    ensures var (t, reply) := CommitChildren(s, parent, parentScore, children, rules);
            reply.Value? ==>
              t.Count(c) + NodesIn(s.tree.records, c) ==
              s.Count(c) + NodesIn(t.tree.records, c) + DuplicatesIn(children, reply.value, c)
  {
    if children == [] {
    } else {
      var last := |children| - 1;
      CommitChildrenCounts(s, parent, parentScore, children[..last], rules, c);
      var (before, earlier) := CommitChildren(s, parent, parentScore, children[..last], rules);
      if earlier.Value? {
        CommitChildCounts(before, parent, parentScore, children[last], rules, c);
        var (t, reply) := CommitChildren(s, parent, parentScore, children, rules);
        if reply.Value? { assert reply.value[..last] == earlier.value; }
      }
    }
  }

  lemma {:induction false} ExpandCounts(s: State, parent: NodeId, children: seq<ScoredChild>, rules: Rules, c: CellKey)
    requires |s.tree.records| == |s.tree.childrenByNode| && s.tree.Has(parent)
    ensures var (t, reply) := Expand(s, parent, children, rules);
            reply.Value? ==>
              t.Count(c) + NodesIn(s.tree.records, c) ==
              s.Count(c) + NodesIn(t.tree.records, c) + DuplicatesIn(children, reply.value, c)
  {
    var score := s.tree.records[parent].payload.score;
    CommitChildrenCounts(s, parent, score, children, rules, c);
    var (filled, reply) := CommitChildren(s, parent, score, children, rules);
    if reply.Value? && filled.tree.IncrementVisits(parent).Ok? {
      NodesInDependsOnCells(filled.tree.records, filled.tree.IncrementVisits(parent).value.records, c);
    }
  }

  lemma {:induction false} ExhaustionCounts(s: State, parent: NodeId, visits: u32, allDuplicate: bool, rules: Rules,
                                            c: CellKey)
    ensures var t := UpdateParentExhaustion(s, parent, visits, allDuplicate, rules).0;
            t.Count(c) == s.Count(c) && NodesIn(t.tree.records, c) == NodesIn(s.tree.records, c)
  {
    NodesInDependsOnCells(s.tree.records,
                          UpdateParentExhaustion(s, parent, visits, allDuplicate, rules).0.tree.records, c);
  }

  lemma {:induction false} ApplyCounts(s: State, call: Call, c: CellKey)
    requires |s.tree.records| == |s.tree.childrenByNode|
    ensures var (t, reply) := Apply(s, call);
            reply.Value? ==>
              && |reply.value.childCommits| == |call.children|
              && t.Count(c) + NodesIn(s.tree.records, c) ==
                 s.Count(c) + NodesIn(t.tree.records, c) + DuplicatesIn(call.children, reply.value.childCommits, c)
  {
    if Apply(s, call).1.Value? {
      ExpandCounts(s, call.parent, call.children, call.rules, c);
      var (t, reply) := Expand(s, call.parent, call.children, call.rules);
      ExhaustionCounts(t, call.parent, t.tree.records[call.parent].visits, AllDuplicate(reply.value), call.rules, c);
    }
  }

  predicate AllSucceeded(replies: seq<Reply<BatchOutcome>>) {
    forall k :: 0 <= k < |replies| ==> replies[k].Value?
  }

  /** Duplicates discarded into `c` over a whole run. */
  function RunDuplicates(s: State, calls: seq<Call>, c: CellKey): nat
    requires |s.tree.records| == |s.tree.childrenByNode|
  {
    if calls == [] then 0
    else
      var init, last := calls[..|calls| - 1], calls[|calls| - 1];
      var reply := Apply(Run(s, init).0, last).1;
      RunDuplicates(s, init, c) +
      if reply.Value? && |reply.value.childCommits| == |last.children|
      then DuplicatesIn(last.children, reply.value.childCommits, c) else 0
  }

  /** Every cell's count is its tree nodes plus the duplicates discarded into it. */
  lemma {:induction false} CellCountsAddUp(payload: Payload, calls: seq<Call>, c: CellKey)
    requires AllSucceeded(Run(InitialState(payload), calls).1)
    ensures var s := Run(InitialState(payload), calls).0;
            s.Count(c) == NodesIn(s.tree.records, c) + RunDuplicates(InitialState(payload), calls, c)
  {
    var s0 := InitialState(payload);
    if calls == [] {
      assert s0.tree.records[..0] == [];
    } else {
      var init := calls[..|calls| - 1];
      RunSplits(s0, calls);
      assert forall k :: 0 <= k < |init| ==> Run(s0, calls).1[k] == Run(s0, init).1[k];
      CellCountsAddUp(payload, init, c);
      ApplyCounts(Run(s0, init).0, calls[|calls| - 1], c);
      assert Run(s0, calls).1[|init|].Value?;
    }
  }

  // ------------------------------------------------------------------
  // Expansions
  // ------------------------------------------------------------------

  predicate Selectable(t: TreeView, id: NodeId) { t.Has(id) && t.records[id].IsFrontierCandidate() }

  /** One call as seen by the tree: visits only rise, and nothing becomes selectable again. */
  ghost predicate Ages(t: TreeView, u: TreeView) {
    && |t.records| <= |u.records|
    && forall i :: 0 <= i < |t.records| ==>
         t.records[i].visits <= u.records[i].visits && (Selectable(u, i) ==> Selectable(t, i))
  }

  lemma {:induction false} ExhaustionAges(s: State, parent: NodeId, visits: u32, allDuplicate: bool, rules: Rules)
    requires s.tree.Has(parent) && visits == s.tree.records[parent].visits
    ensures var (t, reply) := UpdateParentExhaustion(s, parent, visits, allDuplicate, rules);
            && Ages(s.tree, t.tree) && |t.tree.records| == |s.tree.records|
            && t.tree.records[parent].visits == visits
            && (reply.Value? && Selectable(t.tree, parent) ==> visits < rules.maxVisitsPerNode)
  {
  }

  lemma {:induction false} ApplyAges(s: State, call: Call)
    requires |s.tree.records| == |s.tree.childrenByNode|
    ensures var (t, reply) := Apply(s, call);
            && Ages(s.tree, t.tree)
            && (reply.Value? ==>
                  && s.tree.Has(call.parent)
                  && s.tree.records[call.parent].visits < t.tree.records[call.parent].visits
                  && (Selectable(t.tree, call.parent) ==>
                        t.tree.records[call.parent].visits < call.rules.maxVisitsPerNode))
  {
    if RuleFault(call.rules).None? && s.tree.Has(call.parent) {
      ExpandUnmarked(s, call.parent, call.children, call.rules);
      var (t, reply) := Expand(s, call.parent, call.children, call.rules);
      assert Ages(s.tree, t.tree);
      if reply.Value? {
        ExhaustionAges(t, call.parent, t.tree.records[call.parent].visits, AllDuplicate(reply.value), call.rules);
      }
    }
  }

  function Sum(xs: seq<nat>): nat {
    if xs == [] then 0 else Sum(xs[..|xs| - 1]) + xs[|xs| - 1]
  }

  function Padded(xs: seq<nat>, size: nat): (r: seq<nat>)
    ensures |r| == if |xs| < size then size else |xs|
  {
    if |xs| < size then xs + seq(size - |xs|, _ => 0) else xs
  }

  lemma {:induction false} SumOfPadded(xs: seq<nat>, size: nat)
    ensures Sum(Padded(xs, size)) == Sum(xs)
    decreases size
  {
    if |xs| < size {
      SumOfPadded(xs, size - 1);
      assert Padded(xs, size)[..size - 1] == Padded(xs, size - 1);
    }
  }

  lemma {:induction false} SumOfIncrement(xs: seq<nat>, k: nat)
    requires k < |xs|
    ensures Sum(xs[k := xs[k] + 1]) == Sum(xs) + 1
  {
    var last := |xs| - 1;
    if k < last {
      SumOfIncrement(xs[..last], k);
      assert xs[k := xs[k] + 1][..last] == xs[..last][k := xs[k] + 1];
    } else {
      assert xs[k := xs[k] + 1][..last] == xs[..last];
    }
  }

  lemma {:induction false} SumIsBounded(xs: seq<nat>, bound: nat)
    requires forall i :: 0 <= i < |xs| ==> xs[i] <= bound
    ensures Sum(xs) <= bound * |xs|
  {
    if xs == [] {
    } else {
      SumIsBounded(xs[..|xs| - 1], bound);
    }
  }

  predicate Expands(s: State, call: Call)
    requires |s.tree.records| == |s.tree.childrenByNode|
  {
    Selectable(s.tree, call.parent) && Apply(s, call).1.Value?
  }

  /** Successful expansions of a selectable parent in a run. */
  function Expansions(s: State, calls: seq<Call>): nat
    requires |s.tree.records| == |s.tree.childrenByNode|
  {
    if calls == [] then 0
    else
      var init := calls[..|calls| - 1];
      Expansions(s, init) + if Expands(Run(s, init).0, calls[|calls| - 1]) then 1 else 0
  }

  /** The same expansions, per tree node. */
  ghost predicate Tallies(s: State, calls: seq<Call>, tally: seq<nat>, max: nat)
    requires |s.tree.records| == |s.tree.childrenByNode|
  {
    var t := Run(s, calls).0.tree;
    && |tally| == |t.records|
    && Sum(tally) == Expansions(s, calls)
    && forall i :: 0 <= i < |tally| ==>
         && tally[i] <= t.records[i].visits
         && tally[i] <= max
         && (Selectable(t, i) ==> tally[i] < max)
  }

  lemma {:induction false} TallyStep(s: State, call: Call, tally: seq<nat>, max: nat) returns (next: seq<nat>)
    requires |s.tree.records| == |s.tree.childrenByNode| == |tally| && 0 < max == call.rules.maxVisitsPerNode
    requires forall i :: 0 <= i < |tally| ==>
               tally[i] <= s.tree.records[i].visits && tally[i] <= max && (Selectable(s.tree, i) ==> tally[i] < max)
    ensures var t := Apply(s, call).0.tree;
            && |next| == |t.records|
            && Sum(next) == Sum(tally) + (if Expands(s, call) then 1 else 0)
            && forall i :: 0 <= i < |next| ==>
                 next[i] <= t.records[i].visits && next[i] <= max && (Selectable(t, i) ==> next[i] < max)
  {
    ApplyAges(s, call);
    var (t, reply) := Apply(s, call);
    SumOfPadded(tally, |t.tree.records|);
    next := Padded(tally, |t.tree.records|);
    if Expands(s, call) {
      SumOfIncrement(next, call.parent);
      next := next[call.parent := next[call.parent] + 1];
    }
  }

  lemma {:induction false} TallyRun(payload: Payload, calls: seq<Call>, rules: Rules) returns (tally: seq<nat>)
    requires RuleFault(rules).None?
    requires forall k :: 0 <= k < |calls| ==> calls[k].rules == rules
    ensures Tallies(InitialState(payload), calls, tally, rules.maxVisitsPerNode)
  {
    var s := InitialState(payload);
    if calls == [] {
      tally := [0];
      assert tally[..0] == [];
    } else {
      var init := calls[..|calls| - 1];
      var before := TallyRun(payload, init, rules);
      RunSplits(s, calls);
      tally := TallyStep(Run(s, init).0, calls[|calls| - 1], before, rules.maxVisitsPerNode);
    }
  }

  /**
    Under fixed rules the search cannot spin: selectable nodes are successfully
    expanded at most `max_visits_per_node` times the number of tree nodes.
   */
  lemma {:induction false} ExpansionBound(payload: Payload, calls: seq<Call>, rules: Rules)
    requires RuleFault(rules).None?
    requires forall k :: 0 <= k < |calls| ==> calls[k].rules == rules
    ensures Expansions(InitialState(payload), calls)
         <= rules.maxVisitsPerNode * |Run(InitialState(payload), calls).0.tree.records|
  {
    var tally := TallyRun(payload, calls, rules);
    SumIsBounded(tally, rules.maxVisitsPerNode);
  }
}
