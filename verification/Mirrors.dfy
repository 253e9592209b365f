/**
  The selection-side cell counts and the first-seen routing map
  (crates/orch-core/src/mirror.rs), with the sorted vectors that carry them
  through a checkpoint (crates/orch-checkpoint/src/lib.rs).
 */
module Mirrors {
  import opened Base
  import opened SearchTree

  /** The acceptance test of `validate_sorted`: each adjacent pair of keys increases. */
  predicate StrictlySortedPairs<V>(pairs: seq<(nat, V)>) {
    forall i :: 0 < i < |pairs| ==> pairs[i - 1].0 < pairs[i].0
  }

  ghost predicate Describes<V>(pairs: seq<(nat, V)>, m: map<nat, V>) {
    && (forall i :: 0 <= i < |pairs| ==> pairs[i].0 in m && m[pairs[i].0] == pairs[i].1)
    && (forall k :: k in m ==> exists i :: 0 <= i < |pairs| && pairs[i].0 == k)
  }

  /** A map as key-ordered pairs, the form `sorted_counts` and `sorted_entries` return. */
  ghost function SortedPairs<V>(m: map<nat, V>): (pairs: seq<(nat, V)>)
    ensures StrictlySortedPairs(pairs)
    ensures Describes(pairs, m)
  {
    var keys := Ascending(m.Keys);
    var pairs := seq(|keys|, i requires 0 <= i < |keys| => assert keys[i] in m.Keys; (keys[i], m[keys[i]]));
    assert forall k :: k in m ==> k in keys;
    assert forall i :: 0 <= i < |pairs| ==> pairs[i].0 == keys[i];
    pairs
  }

  lemma {:induction false} SortedPairsAreDistinct<V>(pairs: seq<(nat, V)>, i: nat, j: nat)
    requires StrictlySortedPairs(pairs) && i < j < |pairs|
    ensures pairs[i].0 < pairs[j].0
    decreases j
  {
    if i < j - 1 { SortedPairsAreDistinct(pairs, i, j - 1); }
  }

  /** Import of counts: zero counts are skipped, a later entry overwrites. */
  ghost function CountsFrom(pairs: seq<(CellKey, u32)>): map<CellKey, u32> {
    if pairs == [] then map[]
    else
      var last := pairs[|pairs| - 1];
      var before := CountsFrom(pairs[..|pairs| - 1]);
      if last.1 != 0 then before[last.0 := last.1] else before
  }

  /** Import of routes: the first entry for a hash wins. */
  ghost function RoutesFrom(pairs: seq<(StateHash, NodeId)>): map<StateHash, NodeId> {
    if pairs == [] then map[]
    else
      var last := pairs[|pairs| - 1];
      var before := RoutesFrom(pairs[..|pairs| - 1]);
      if last.0 in before then before else before[last.0 := last.1]
  }

  lemma {:induction false} DescribesOneMore<V>(pairs: seq<(nat, V)>, m: map<nat, V>)
    requires pairs != [] && StrictlySortedPairs(pairs)
    requires Describes(pairs[..|pairs| - 1], m)
    ensures pairs[|pairs| - 1].0 !in m
    ensures Describes(pairs, m[pairs[|pairs| - 1].0 := pairs[|pairs| - 1].1])
  {
    var init, last := pairs[..|pairs| - 1], pairs[|pairs| - 1];
    var grown := m[last.0 := last.1];
    forall i | 0 <= i < |init| ensures init[i].0 != last.0 {
      SortedPairsAreDistinct(pairs, i, |pairs| - 1);
    }
    forall k | k in grown ensures exists i :: 0 <= i < |pairs| && pairs[i].0 == k {
      if k == last.0 {
        assert pairs[|pairs| - 1].0 == k;
      } else {
        var i :| 0 <= i < |init| && init[i].0 == k;
        assert pairs[i].0 == k;
      }
    }
  }

  lemma {:induction false} CountsFromSorted(pairs: seq<(CellKey, u32)>)
    requires StrictlySortedPairs(pairs)
    requires forall i :: 0 <= i < |pairs| ==> pairs[i].1 != 0
    ensures Describes(pairs, CountsFrom(pairs))
  {
    if pairs == [] {
    } else {
      CountsFromSorted(pairs[..|pairs| - 1]);
      DescribesOneMore(pairs, CountsFrom(pairs[..|pairs| - 1]));
    }
  }

  lemma {:induction false} RoutesFromSorted(pairs: seq<(StateHash, NodeId)>)
    requires StrictlySortedPairs(pairs)
    ensures Describes(pairs, RoutesFrom(pairs))
  {
    if pairs == [] {
    } else {
      RoutesFromSorted(pairs[..|pairs| - 1]);
      DescribesOneMore(pairs, RoutesFrom(pairs[..|pairs| - 1]));
    }
  }

  lemma {:induction false} DescribedMapsAgree<V>(pairs: seq<(nat, V)>, m: map<nat, V>, n: map<nat, V>)
    requires Describes(pairs, m) && Describes(pairs, n)
    ensures m == n
  {
    forall k | k in m ensures k in n && m[k] == n[k] {
      var i :| 0 <= i < |pairs| && pairs[i].0 == k;
    }
    forall k | k in n ensures k in m {
      var i :| 0 <= i < |pairs| && pairs[i].0 == k;
    }
  }

  /** Export then import is the identity, for both mirrors. */
  lemma {:induction false} MirrorRoundTrip(cells: map<CellKey, u32>, seen: map<StateHash, NodeId>)
    requires forall c :: c in cells ==> cells[c] != 0
    ensures CountsFrom(SortedPairs(cells)) == cells
    ensures RoutesFrom(SortedPairs(seen)) == seen
  {
    CountsFromSorted(SortedPairs(cells));
    DescribedMapsAgree(SortedPairs(cells), CountsFrom(SortedPairs(cells)), cells);
    RoutesFromSorted(SortedPairs(seen));
    DescribedMapsAgree(SortedPairs(seen), RoutesFrom(SortedPairs(seen)), seen);
  }

  class CellMirror {
    var counts: map<CellKey, u32>

    /** Cells that were never bumped have no entry. */
    ghost predicate Valid()
      reads this
    {
      forall c :: c in counts ==> counts[c] != 0
    }

    constructor ()
      ensures Valid() && counts == map[]
    {
      counts := map[];
    }

    constructor FromSortedCounts(pairs: seq<(CellKey, u32)>)
      ensures Valid() && counts == CountsFrom(pairs)
    {
      var built: map<CellKey, u32> := map[];
      for k := 0 to |pairs|
        invariant built == CountsFrom(pairs[..k])
        invariant forall c :: c in built ==> built[c] != 0
      {
        assert pairs[..k + 1][..k] == pairs[..k];
        if pairs[k].1 != 0 { built := built[pairs[k].0 := pairs[k].1]; }
      }
      assert pairs[..|pairs|] == pairs;
      counts := built;
    }

    function Count(cell: CellKey): u32
      reads this
    {
      if cell in counts then counts[cell] else 0
    }

    /** Adds `amount`; `None` is the panic on u32 overflow, which changes nothing. */
    method BumpBy(cell: CellKey, amount: u32) returns (r: Option<u32>)
      requires Valid()
      modifies this
      ensures Valid()
      ensures old(Count(cell)) + amount > U32_MAX ==> r == None && counts == old(counts)
      ensures old(Count(cell)) + amount <= U32_MAX ==>
                && r == Some(old(Count(cell)) + amount)
                && counts == if amount == 0 then old(counts) else old(counts)[cell := r.value]
    {
      if amount == 0 { return Some(Count(cell)); }
      var entry: u32 := if cell in counts then counts[cell] else 0;
      if entry + amount > U32_MAX { return None; }
      counts := counts[cell := entry + amount];
      r := Some(entry + amount);
    }
  }

  class SeenMap {
    var routes: map<StateHash, NodeId>

    constructor ()
      ensures routes == map[]
    {
      routes := map[];
    }

    constructor FromSortedEntries(pairs: seq<(StateHash, NodeId)>)
      ensures routes == RoutesFrom(pairs)
    {
      var built: map<StateHash, NodeId> := map[];
      for k := 0 to |pairs|
        invariant built == RoutesFrom(pairs[..k])
      {
        assert pairs[..k + 1][..k] == pairs[..k];
        if pairs[k].0 !in built { built := built[pairs[k].0 := pairs[k].1]; }
      }
      assert pairs[..|pairs|] == pairs;
      routes := built;
    }

    /** Keeps the first route ever recorded for a hash. */
    method Insert(stateHash: StateHash, node: NodeId) returns (existing: Option<NodeId>)
      modifies this
      ensures existing == if stateHash in old(routes) then Some(old(routes)[stateHash]) else None
      ensures routes == if stateHash in old(routes) then old(routes) else old(routes)[stateHash := node]
    {
      if stateHash in routes { return Some(routes[stateHash]); }
      routes := routes[stateHash := node];
      existing := None;
    }
  }
}
