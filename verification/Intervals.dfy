/**
  Byte intervals: the sorted sweep that `compile_feature_map` uses
  (crates/orch-core/src/compile.rs) against an order-free reference that inserts
  one interval at a time.
 */
module Intervals {
  import opened Base

  /** Half-open and never empty. */
  type Interval = iv: (nat, nat) | iv.0 < iv.1 witness (0, 1)

  ghost predicate Covers(ivs: seq<Interval>, b: nat) {
    exists i :: 0 <= i < |ivs| && ivs[i].0 <= b < ivs[i].1
  }

  /** Ascending, disjoint and not even touching. */
  ghost predicate Separated(ivs: seq<Interval>) {
    forall i, j :: 0 <= i < j < |ivs| ==> ivs[i].1 < ivs[j].0
  }

  ghost predicate SameBytes(a: seq<Interval>, b: seq<Interval>) {
    forall x: nat :: Covers(a, x) <==> Covers(b, x)
  }

  lemma {:induction false} CoversSplit(ivs: seq<Interval>, b: nat)
    requires ivs != []
    ensures Covers(ivs, b) <==> ivs[0].0 <= b < ivs[0].1 || Covers(ivs[1..], b)
  {
    if Covers(ivs[1..], b) {
      var i :| 0 <= i < |ivs[1..]| && ivs[1..][i].0 <= b < ivs[1..][i].1;
      assert ivs[i + 1].0 <= b < ivs[i + 1].1;
    }
    if Covers(ivs, b) && !(ivs[0].0 <= b < ivs[0].1) {
      var i :| 0 <= i < |ivs| && ivs[i].0 <= b < ivs[i].1;
      assert ivs[1..][i - 1].0 <= b < ivs[1..][i - 1].1;
    }
  }

  lemma {:induction false} CoversAppend(ivs: seq<Interval>, iv: Interval, b: nat)
    ensures Covers(ivs + [iv], b) <==> Covers(ivs, b) || iv.0 <= b < iv.1
  {
    var all := ivs + [iv];
    if Covers(ivs, b) {
      var i :| 0 <= i < |ivs| && ivs[i].0 <= b < ivs[i].1;
      assert all[i].0 <= b < all[i].1;
    }
    if iv.0 <= b < iv.1 { assert all[|ivs|].0 <= b < all[|ivs|].1; }
  }

  // ------------------------------------------------------------------
  // A set of bytes has one separated description
  // ------------------------------------------------------------------

  lemma {:induction false} EndIsUncovered(ivs: seq<Interval>, k: nat)
    requires Separated(ivs) && k < |ivs|
    ensures !Covers(ivs, ivs[k].1)
  {
  }

  lemma {:induction false} FirstIsLeast(a: seq<Interval>, b: seq<Interval>)
    requires a != [] && b != [] && Separated(a) && Separated(b) && SameBytes(a, b)
    ensures a[0].0 <= b[0].0
  {
    assert Covers(b, b[0].0);
    assert Covers(a, b[0].0);
  }

  lemma {:induction false} FirstEndsFirst(a: seq<Interval>, b: seq<Interval>)
    requires a != [] && b != [] && Separated(a) && Separated(b) && SameBytes(a, b) && a[0].0 == b[0].0
    ensures b[0].1 <= a[0].1
  {
    var end: nat := a[0].1;
    EndIsUncovered(a, 0);
    assert end < b[0].1 ==> Covers(b, end);
  }

  lemma {:induction false} SeparatedIsUnique(a: seq<Interval>, b: seq<Interval>)
    requires Separated(a) && Separated(b) && SameBytes(a, b)
    ensures a == b
  {
    if a == [] || b == [] {
      assert a != [] ==> Covers(a, a[0].0);
      assert b != [] ==> Covers(b, b[0].0);
    } else {
      FirstIsLeast(a, b);
      FirstIsLeast(b, a);
      FirstEndsFirst(a, b);
      FirstEndsFirst(b, a);
      forall x: nat ensures Covers(a[1..], x) <==> Covers(b[1..], x) {
        CoversSplit(a, x);
        CoversSplit(b, x);
      }
      SeparatedIsUnique(a[1..], b[1..]);
      assert a == [a[0]] + a[1..] && b == [b[0]] + b[1..];
    }
  }

  /** A covered stretch lies inside one interval of a separated list. */
  lemma {:induction false} StretchInOne(ivs: seq<Interval>, iv: Interval) returns (k: nat)
    requires Separated(ivs)
    requires forall b: nat :: iv.0 <= b < iv.1 ==> Covers(ivs, b)
    ensures k < |ivs| && ivs[k].0 <= iv.0 && iv.1 <= ivs[k].1
  {
    assert Covers(ivs, iv.0);
    k :| 0 <= k < |ivs| && ivs[k].0 <= iv.0 < ivs[k].1;
    var end: nat := ivs[k].1;
    EndIsUncovered(ivs, k);
    assert end < iv.1 ==> Covers(ivs, end);
  }

  // ------------------------------------------------------------------
  // Reference: insert one interval at a time
  // ------------------------------------------------------------------

  /** Joins `iv` with everything it overlaps or touches. */
  function Join(ivs: seq<Interval>, iv: Interval): seq<Interval> {
    if ivs == [] then [iv]
    else if iv.1 < ivs[0].0 then [iv] + ivs
    else if ivs[0].1 < iv.0 then [ivs[0]] + Join(ivs[1..], iv)
    else Join(ivs[1..], (Min(iv.0, ivs[0].0), Max(iv.1, ivs[0].1)))
  }

  function Union(ivs: seq<Interval>): seq<Interval> {
    if ivs == [] then [] else Join(Union(ivs[..|ivs| - 1]), ivs[|ivs| - 1])
  }

  ghost predicate AllAfter(ivs: seq<Interval>, limit: int) {
    forall i :: 0 <= i < |ivs| ==> limit < ivs[i].0
  }

  lemma {:induction false} JoinSeparated(ivs: seq<Interval>, iv: Interval, limit: int)
    requires Separated(ivs) && AllAfter(ivs, limit) && limit < iv.0
    ensures Separated(Join(ivs, iv)) && AllAfter(Join(ivs, iv), limit)
  {
    if ivs == [] {
    } else {
      var rest := ivs[1..];
      assert AllAfter(rest, ivs[0].1);
      if iv.1 < ivs[0].0 {
        assert AllAfter(ivs, iv.1);
      } else if ivs[0].1 < iv.0 {
        JoinSeparated(rest, iv, ivs[0].1);
      } else {
        JoinSeparated(rest, (Min(iv.0, ivs[0].0), Max(iv.1, ivs[0].1)), limit);
      }
    }
  }

  lemma {:induction false} JoinCovers(ivs: seq<Interval>, iv: Interval, b: nat)
    ensures Covers(Join(ivs, iv), b) <==> Covers(ivs, b) || iv.0 <= b < iv.1
  {
    if ivs == [] {
      CoversAppend([], iv, b);
      assert [] + [iv] == [iv];
    } else {
      CoversSplit(ivs, b);
      if iv.1 < ivs[0].0 {
        CoversSplit([iv] + ivs, b);
        assert ([iv] + ivs)[1..] == ivs;
      } else if ivs[0].1 < iv.0 {
        JoinCovers(ivs[1..], iv, b);
        CoversSplit([ivs[0]] + Join(ivs[1..], iv), b);
        assert ([ivs[0]] + Join(ivs[1..], iv))[1..] == Join(ivs[1..], iv);
      } else {
        JoinCovers(ivs[1..], (Min(iv.0, ivs[0].0), Max(iv.1, ivs[0].1)), b);
      }
    }
  }

  lemma {:induction false} UnionCovers(ivs: seq<Interval>, b: nat)
    ensures Covers(Union(ivs), b) <==> Covers(ivs, b)
  {
    if ivs == [] {
    } else {
      var init, last := ivs[..|ivs| - 1], ivs[|ivs| - 1];
      UnionCovers(init, b);
      JoinCovers(Union(init), last, b);
      CoversAppend(init, last, b);
      assert init + [last] == ivs;
    }
  }

  /** The union is separated and describes exactly the bytes it was given. */
  lemma {:induction false} UnionIsCanonical(ivs: seq<Interval>)
    ensures Separated(Union(ivs)) && SameBytes(Union(ivs), ivs)
  {
    if ivs == [] {
    } else {
      UnionIsCanonical(ivs[..|ivs| - 1]);
      JoinSeparated(Union(ivs[..|ivs| - 1]), ivs[|ivs| - 1], -1);
    }
    forall b: nat ensures Covers(Union(ivs), b) <==> Covers(ivs, b) { UnionCovers(ivs, b); }
  }

  /** Hence it depends on the bytes only, not on how or in what order they were listed. */
  lemma {:induction false} UnionDependsOnBytes(a: seq<Interval>, b: seq<Interval>)
    requires SameBytes(a, b)
    ensures Union(a) == Union(b)
  {
    UnionIsCanonical(a);
    UnionIsCanonical(b);
    SeparatedIsUnique(Union(a), Union(b));
  }

  // ------------------------------------------------------------------
  // The sweep
  // ------------------------------------------------------------------

  ghost predicate SortedByStart(ivs: seq<Interval>) {
    forall i, j :: 0 <= i < j < |ivs| ==> ivs[i].0 <= ivs[j].0
  }

  lemma {:induction false} SameElementsSameBytes(a: seq<Interval>, b: seq<Interval>)
    requires forall iv :: iv in a <==> iv in b
    ensures SameBytes(a, b)
  {
    forall x: nat ensures Covers(a, x) <==> Covers(b, x) {
      if Covers(a, x) {
        var i :| 0 <= i < |a| && a[i].0 <= x < a[i].1;
        assert a[i] in b;
      }
      if Covers(b, x) {
        var i :| 0 <= i < |b| && b[i].0 <= x < b[i].1;
        assert b[i] in a;
      }
    }
  }

  lemma {:induction false} HeadIsLeast(ivs: seq<Interval>, iv: Interval, tail: seq<Interval>)
    requires SortedByStart(ivs) && ivs != [] && ivs[0].0 <= iv.0
    requires forall x :: x in tail ==> x == iv || x in ivs[1..]
    ensures forall i :: 0 <= i < |tail| ==> ivs[0].0 <= tail[i].0
  {
    forall i | 0 <= i < |tail| ensures ivs[0].0 <= tail[i].0 {
      assert tail[i] in tail;
      if tail[i] != iv {
        var j :| 0 <= j < |ivs[1..]| && ivs[1..][j] == tail[i];
        assert ivs[j + 1] == tail[i];
      }
    }
  }

  function InsertByStart(ivs: seq<Interval>, iv: Interval): (r: seq<Interval>)
    requires SortedByStart(ivs)
    ensures SortedByStart(r)
    ensures forall x :: x in r <==> x == iv || x in ivs
  {
    if ivs == [] then [iv]
    else if iv.0 <= ivs[0].0 then [iv] + ivs
    else
      var tail := InsertByStart(ivs[1..], iv);
      assert ivs == [ivs[0]] + ivs[1..];
      HeadIsLeast(ivs, iv, tail);
      [ivs[0]] + tail
  }

  /** `sort_unstable_by_key` on the start; which of two equal starts comes first is left open. */
  method SortByStart(ivs: seq<Interval>) returns (r: seq<Interval>)
    ensures SortedByStart(r)
    ensures forall iv :: iv in r <==> iv in ivs
  {
    r := [];
    for k := 0 to |ivs|
      invariant SortedByStart(r)
      invariant forall iv :: iv in r <==> iv in ivs[..k]
    {
      r := InsertByStart(r, ivs[k]);
      assert ivs[..k + 1] == ivs[..k] + [ivs[k]];
    }
    assert ivs[..|ivs|] == ivs;
  }

  /** One sorted pass that stretches the last interval or opens a new one computes the union. */
  method MergeSorted(ivs: seq<Interval>) returns (merged: seq<Interval>)
    requires SortedByStart(ivs)
    ensures merged == Union(ivs)
  {
    merged := [];
    for k := 0 to |ivs|
      invariant Separated(merged) && SameBytes(merged, ivs[..k])
      invariant forall i :: 0 <= i < |merged| && k < |ivs| ==> merged[i].0 <= ivs[k].0
    {
      var start, end := ivs[k].0, ivs[k].1;
      assert ivs[..k + 1] == ivs[..k] + [ivs[k]];
      ghost var before := merged;
      if merged != [] && start <= merged[|merged| - 1].1 {
        var last := |merged| - 1;
        merged := merged[..last] + [(merged[last].0, Max(merged[last].1, end))];
        assert before == before[..last] + [before[last]];
        forall b: nat ensures Covers(merged, b) <==> Covers(before, b) || start <= b < end {
          CoversAppend(before[..last], before[last], b);
          CoversAppend(before[..last], merged[last], b);
        }
      } else {
        merged := merged + [(start, end)];
        forall b: nat ensures Covers(merged, b) <==> Covers(before, b) || start <= b < end {
          CoversAppend(before, (start, end), b);
        }
      }
      forall b: nat ensures Covers(merged, b) <==> Covers(ivs[..k + 1], b) {
        CoversAppend(ivs[..k], ivs[k], b);
      }
    }
    assert ivs[..|ivs|] == ivs;
    UnionIsCanonical(ivs);
    SeparatedIsUnique(merged, Union(ivs));
  }
}
