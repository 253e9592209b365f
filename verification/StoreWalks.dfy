/** Paths up and walks down the tree. */
module StoreWalks {
  import opened Base
  import opened StoreRules

  lemma {:induction false} DescendsDepth(s: Store, x: NodeId, a: NodeId)
    requires WellFormed(s) && x in s.nodes && Descends(s, x, a)
    ensures a in s.nodes && s.nodes[a].depth <= s.nodes[x].depth && (s.nodes[a].depth == s.nodes[x].depth ==> a == x)
    decreases s.nodes[x].depth
  {
    assert ParentAbove(s.nodes, x);
    if x != a { DescendsDepth(s, s.nodes[x].parent.value, a); }
  }

  lemma {:induction false} DescendsUp(s: Store, x: NodeId, c: NodeId)
    requires WellFormed(s) && x in s.nodes && c in s.nodes && Descends(s, x, c) && s.nodes[c].parent.Some?
    ensures Descends(s, x, s.nodes[c].parent.value)
    decreases s.nodes[x].depth
  {
    assert ParentAbove(s.nodes, x);
    if x != c { DescendsUp(s, s.nodes[x].parent.value, c); }
  }

  /** The child of `a` on the way down to `x`. */
  lemma {:induction false} DescendsVia(s: Store, x: NodeId, a: NodeId) returns (c: NodeId)
    requires WellFormed(s) && x in s.nodes && Descends(s, x, a) && x != a
    ensures c in s.nodes && s.nodes[c].parent == Some(a) && Descends(s, x, c)
    decreases s.nodes[x].depth
  {
    assert ParentAbove(s.nodes, x);
    var p := s.nodes[x].parent.value;
    if p == a { c := x; } else { c := DescendsVia(s, p, a); }
  }

  lemma {:induction false} AncestorIsUnique(s: Store, x: NodeId, a: NodeId, b: NodeId)
    requires WellFormed(s) && x in s.nodes && Descends(s, x, a) && Descends(s, x, b)
    requires a in s.nodes && b in s.nodes && s.nodes[a].depth == s.nodes[b].depth
    ensures a == b
    decreases s.nodes[x].depth
  {
    assert ParentAbove(s.nodes, x);
    DescendsDepth(s, x, a);
    DescendsDepth(s, x, b);
    if x != a && x != b { AncestorIsUnique(s, s.nodes[x].parent.value, a, b); }
  }

  // ------------------------------------------------------------------
  // Preorder
  // ------------------------------------------------------------------

  ghost predicate Shallow(s: Store, limit: nat) {
    forall id :: id in s.nodes ==> s.nodes[id].depth < limit
  }

  lemma {:induction false} ChildrenBelow(s: Store, id: NodeId)
    requires WellFormed(s) && id in s.nodes
    ensures id in s.children && StrictlyAscending(s.children[id])
    ensures forall i :: 0 <= i < |s.children[id]| ==>
              var c := s.children[id][i];
              c in s.nodes && s.nodes[c].parent == Some(id) && s.nodes[c].depth == s.nodes[id].depth + 1
    ensures forall c :: c in s.nodes && s.nodes[c].parent == Some(id) ==> c in s.children[id]
  {
    assert ListsChildren(s, id);
    forall i | 0 <= i < |s.children[id]| ensures
        var c := s.children[id][i];
        c in s.nodes && s.nodes[c].parent == Some(id) && s.nodes[c].depth == s.nodes[id].depth + 1
    {
      assert s.children[id][i] in s.children[id];
      assert ParentAbove(s.nodes, s.children[id][i]);
    }
  }

  /** The walk the stack performs: a node, then its children's walks in ascending order. */
  ghost function Preorder(s: Store, id: NodeId, limit: nat): seq<NodeId>
    requires WellFormed(s) && Shallow(s, limit) && id in s.nodes
    decreases limit - s.nodes[id].depth, 0
  {
    ChildrenBelow(s, id);
    [id] + PreorderAll(s, s.children[id], s.nodes[id].depth + 1, limit)
  }

  ghost function PreorderAll(s: Store, ids: seq<NodeId>, depth: nat, limit: nat): seq<NodeId>
    requires WellFormed(s) && Shallow(s, limit) && depth <= limit
    requires forall i :: 0 <= i < |ids| ==> ids[i] in s.nodes && s.nodes[ids[i]].depth >= depth
    decreases limit - depth, |ids| + 1
  {
    if ids == [] then [] else Preorder(s, ids[0], limit) + PreorderAll(s, ids[1..], depth, limit)
  }

  lemma {:induction false} DepthIsFree(s: Store, ids: seq<NodeId>, d: nat, limit: nat)
    requires WellFormed(s) && Shallow(s, limit) && d <= limit
    requires forall i :: 0 <= i < |ids| ==> ids[i] in s.nodes && s.nodes[ids[i]].depth >= d
    ensures PreorderAll(s, ids, d, limit) == PreorderAll(s, ids, 0, limit)
    decreases |ids|
  {
    if ids == [] {
    } else {
      DepthIsFree(s, ids[1..], d, limit);
    }
  }

  lemma {:induction false} AllSplits(s: Store, a: seq<NodeId>, b: seq<NodeId>, limit: nat)
    requires WellFormed(s) && Shallow(s, limit)
    requires forall i :: 0 <= i < |a| ==> a[i] in s.nodes
    requires forall i :: 0 <= i < |b| ==> b[i] in s.nodes
    ensures PreorderAll(s, a + b, 0, limit) == PreorderAll(s, a, 0, limit) + PreorderAll(s, b, 0, limit)
    decreases |a|
  {
    if a == [] {
      assert a + b == b;
    } else {
      AllSplits(s, a[1..], b, limit);
      assert (a + b)[1..] == a[1..] + b;
    }
  }

  lemma {:induction false} AllMembers(s: Store, ids: seq<NodeId>, d: nat, limit: nat, x: NodeId)
    requires WellFormed(s) && Shallow(s, limit) && d <= limit
    requires forall i :: 0 <= i < |ids| ==> ids[i] in s.nodes && s.nodes[ids[i]].depth >= d
    ensures x in PreorderAll(s, ids, d, limit) <==> exists i :: 0 <= i < |ids| && x in Preorder(s, ids[i], limit)
    decreases |ids|
  {
    if ids == [] {
    } else {
      AllMembers(s, ids[1..], d, limit, x);
      if i :| 0 <= i < |ids| && x in Preorder(s, ids[i], limit) && i > 0 {
        assert ids[1..][i - 1] == ids[i];
      }
      if i :| 0 <= i < |ids[1..]| && x in Preorder(s, ids[1..][i], limit) {
        assert ids[i + 1] == ids[1..][i];
      }
    }
  }

  /** The walk from a node visits its descendants and nothing else. */
  lemma {:induction false} PreorderIsSubtree(s: Store, id: NodeId, limit: nat, x: NodeId)
    requires WellFormed(s) && Shallow(s, limit) && id in s.nodes
    ensures x in Preorder(s, id, limit) <==> x in s.nodes && Descends(s, x, id)
    decreases limit - s.nodes[id].depth
  {
    var ids, d := s.children[id], s.nodes[id].depth + 1;
    ChildrenBelow(s, id);
    forall i | 0 <= i < |ids| ensures x in Preorder(s, ids[i], limit) <==> x in s.nodes && Descends(s, x, ids[i]) {
      PreorderIsSubtree(s, ids[i], limit, x);
    }
    AllMembers(s, ids, d, limit, x);
    if i :| 0 <= i < |ids| && x in Preorder(s, ids[i], limit) {
      DescendsUp(s, x, ids[i]);
    }
    if x in s.nodes && x != id && Descends(s, x, id) {
      var c := DescendsVia(s, x, id);
      var i :| 0 <= i < |ids| && ids[i] == c;
    }
  }

  lemma {:induction false} NoRepeatsJoin(a: seq<NodeId>, b: seq<NodeId>)
    requires NoRepeats(a) && NoRepeats(b) && forall x :: x in a ==> x !in b
    ensures NoRepeats(a + b)
  {
    forall i, j | 0 <= i < j < |a + b| ensures (a + b)[i] != (a + b)[j] {
      if i < |a| <= j { assert a[i] in a && b[j - |a|] in b; }
    }
  }

  /** It visits none of them twice. */
  lemma {:induction false} PreorderOnce(s: Store, id: NodeId, limit: nat)
    requires WellFormed(s) && Shallow(s, limit) && id in s.nodes
    ensures NoRepeats(Preorder(s, id, limit))
    decreases limit - s.nodes[id].depth, 0
  {
    var ids, d := s.children[id], s.nodes[id].depth + 1;
    ChildrenBelow(s, id);
    AllOnce(s, ids, d, limit);
    assert id !in PreorderAll(s, ids, d, limit) by {
      AllMembers(s, ids, d, limit, id);
      forall i | 0 <= i < |ids| ensures id !in Preorder(s, ids[i], limit) {
        PreorderIsSubtree(s, ids[i], limit, id);
        if Descends(s, id, ids[i]) { DescendsDepth(s, id, ids[i]); }
      }
    }
    NoRepeatsJoin([id], PreorderAll(s, ids, d, limit));
  }

  lemma {:induction false} SiblingsApart(s: Store, ids: seq<NodeId>, d: nat, limit: nat, x: NodeId)
    requires WellFormed(s) && Shallow(s, limit) && d <= limit && StrictlyAscending(ids) && ids != []
    requires forall i :: 0 <= i < |ids| ==> ids[i] in s.nodes && s.nodes[ids[i]].depth == d
    requires x in Preorder(s, ids[0], limit)
    ensures x !in PreorderAll(s, ids[1..], d, limit)
  {
    PreorderIsSubtree(s, ids[0], limit, x);
    AllMembers(s, ids[1..], d, limit, x);
    forall i | 0 <= i < |ids[1..]| ensures x !in Preorder(s, ids[1..][i], limit) {
      PreorderIsSubtree(s, ids[1..][i], limit, x);
      if Descends(s, x, ids[1..][i]) { AncestorIsUnique(s, x, ids[0], ids[1..][i]); }
    }
  }

  lemma {:induction false} AllOnce(s: Store, ids: seq<NodeId>, d: nat, limit: nat)
    requires WellFormed(s) && Shallow(s, limit) && d <= limit && StrictlyAscending(ids)
    requires forall i :: 0 <= i < |ids| ==> ids[i] in s.nodes && s.nodes[ids[i]].depth == d
    ensures NoRepeats(PreorderAll(s, ids, d, limit))
    decreases limit - d, |ids| + 1
  {
    if ids == [] {
    } else {
      PreorderOnce(s, ids[0], limit);
      AllOnce(s, ids[1..], d, limit);
      var first, rest := Preorder(s, ids[0], limit), PreorderAll(s, ids[1..], d, limit);
      forall x | x in first ensures x !in rest {
        SiblingsApart(s, ids, d, limit, x);
      }
      NoRepeatsJoin(first, rest);
    }
  }
}
