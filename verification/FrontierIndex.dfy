/**
  Frontier membership (crates/orch-core/src/frontier.rs): an unordered vector of
  ids plus a position index, kept in step by swap-remove. Clients only ever see
  the set of ids and ascending listings of it.
 */
module FrontierIndex {
  import opened Base
  import opened SearchTree

  datatype FrontierError = Duplicate(id: NodeId) | Missing(id: NodeId) | UnknownNode(id: NodeId)

  /** The selectable members: in the tree, status Frontier and not exhausted. */
  ghost function CandidateSet(members: set<NodeId>, tree: TreeView): set<NodeId> {
    set id | id in members && tree.Has(id) && tree.records[id].IsFrontierCandidate()
  }

  class Frontier {
    var entries: seq<NodeId>
    var index: map<NodeId, nat>

    /** The vector and the index describe the same positions. */
    ghost predicate Valid()
      reads this
    {
      && (forall i :: 0 <= i < |entries| ==> entries[i] in index && index[entries[i]] == i)
      && (forall id :: id in index ==> index[id] < |entries| && entries[index[id]] == id)
    }

    ghost function Members(): set<NodeId>
      reads this
    {
      index.Keys
    }

    constructor ()
      ensures Valid() && Members() == {}
    {
      entries, index := [], map[];
    }

    constructor WithRoot()
      ensures Valid() && Members() == {ROOT}
    {
      entries, index := [ROOT], map[ROOT := 0];
    }

    method Insert(id: NodeId) returns (r: Result<(), FrontierError>)
      requires Valid()
      modifies this
      ensures Valid()
      ensures r == if id in old(Members()) then Err(Duplicate(id)) else Ok(())
      ensures Members() == old(Members()) + {id}
    {
      if id in index { return Err(Duplicate(id)); }
      var entryIndex := |entries|;
      entries := entries + [id];
      index := index[id := entryIndex];
      r := Ok(());
    }

    /** Moves the last entry into the hole and repairs its index. */
    method Remove(id: NodeId) returns (r: Result<(), FrontierError>)
      requires Valid()
      modifies this
      ensures Valid()
      ensures r == if id in old(Members()) then Ok(()) else Err(Missing(id))
      ensures Members() == old(Members()) - {id}
    {
      if id !in index { return Err(Missing(id)); }
      var entryIndex := index[id];
      index := index - {id};
      var last := |entries| - 1;
      entries := entries[entryIndex := entries[last]][..last];
      if entryIndex < |entries| {
        index := index[entries[entryIndex] := entryIndex];
      }
      r := Ok(());
    }

    method Contains(id: NodeId) returns (b: bool)
      ensures b == (id in Members())
    {
      b := id in index;
    }

    /** Ascending by id, whatever order insertions and swap-removes left behind. */
    method DeterministicEntries() returns (ids: seq<NodeId>)
      requires Valid()
      ensures ids == Ascending(Members())
    {
      ids := SortDistinct(entries);
      assert forall id :: id in Members() ==> id == entries[index[id]];
      SortedListing(ids, Members());
    }

    method DeterministicCandidates(tree: Tree) returns (r: Result<seq<NodeId>, FrontierError>)
      requires Valid()
      ensures r.Ok? <==> forall id :: id in Members() ==> tree.View().Has(id)
      ensures r.Ok? ==> r.value == Ascending(CandidateSet(Members(), tree.View()))
      ensures r.Err? ==> exists id :: id in Members() && !tree.View().Has(id) && r == Err(UnknownNode(id))
    {
      var candidates: seq<NodeId> := [];
      for k := 0 to |entries|
        invariant forall i :: 0 <= i < k ==> tree.View().Has(entries[i])
        invariant forall x :: x in candidates <==>
                    x in entries[..k] && tree.records[x].IsFrontierCandidate()
        invariant NoRepeats(candidates)
      {
        var id := entries[k];
        assert id in Members();
        if id >= |tree.records| { return Err(UnknownNode(id)); }
        assert id !in entries[..k];
        if tree.records[id].IsFrontierCandidate() {
          candidates := candidates + [id];
        }
        assert entries[..k + 1] == entries[..k] + [id];
      }
      assert entries[..|entries|] == entries;
      assert forall id :: id in Members() ==> id == entries[index[id]];
      candidates := SortDistinct(candidates);
      SortedListing(candidates, CandidateSet(Members(), tree.View()));
      r := Ok(candidates);
    }
  }
}
