/**
  Vocabulary shared by the models: failure results, machine integers, and the
  ascending listing of a finite set of numbers.
 */
module Base {

  datatype Option<+T> = None | Some(value: T)

  datatype Result<+T, +E> = Ok(value: T) | Err(error: E)

  const U16_MAX := 0xFFFF
  const U32_MAX := 0xFFFF_FFFF
  const U64_MAX := 0xFFFF_FFFF_FFFF_FFFF

  type u16 = x: int | 0 <= x <= U16_MAX
  type u32 = x: int | 0 <= x <= U32_MAX
  type u64 = x: int | 0 <= x <= U64_MAX

  function Min(a: int, b: int): int { if a <= b then a else b }

  function Max(a: int, b: int): int { if a >= b then a else b }

  predicate StrictlyAscending(s: seq<nat>) {
    forall i, j :: 0 <= i < j < |s| ==> s[i] < s[j]
  }

  predicate Lists(s: seq<nat>, elements: set<nat>) {
    && StrictlyAscending(s)
    && (forall i :: 0 <= i < |s| ==> s[i] in elements)
    && (forall x :: x in elements ==> x in s)
  }

  lemma {:induction false} LeastExists(elements: set<nat>)
    requires elements != {}
    ensures exists m :: m in elements && forall x :: x in elements ==> m <= x
  {
    var x :| x in elements;
    var rest := elements - {x};
    if rest == {} {
      assert elements == {x};
    } else {
      LeastExists(rest);
      var m :| m in rest && forall y :: y in rest ==> m <= y;
      assert forall y :: y in elements ==> y == x || y in rest;
      assert exists n :: n in {m, x} && n in elements && forall y :: y in elements ==> n <= y;
    }
  }

  ghost function Least(elements: set<nat>): (m: nat)
    requires elements != {}
    ensures m in elements && forall x :: x in elements ==> m <= x
  {
    LeastExists(elements);
    var m :| m in elements && forall x :: x in elements ==> m <= x;
    m
  }

  /** The ascending listing of a finite set: what sorting any enumeration of it yields. */
  ghost function Ascending(elements: set<nat>): (s: seq<nat>)
    ensures Lists(s, elements)
  {
    if elements == {} then [] else [Least(elements)] + Ascending(elements - {Least(elements)})
  }

  lemma {:induction false} TailLists(a: seq<nat>, elements: set<nat>)
    requires Lists(a, elements) && a != []
    ensures Lists(a[1..], elements - {a[0]})
  {
    forall x | x in elements - {a[0]} ensures x in a[1..] {
      var i :| 0 <= i < |a| && a[i] == x;
      assert a[1..][i - 1] == x;
    }
  }

  /** A set has only one ascending listing, so sorting forgets the order it was given. */
  lemma {:induction false} ListingIsUnique(a: seq<nat>, b: seq<nat>, elements: set<nat>)
    requires Lists(a, elements) && Lists(b, elements)
    ensures a == b
  {
    if elements == {} {
      assert |a| == 0 && |b| == 0;
    } else {
      var x :| x in elements;
      assert x in a && x in b;
      assert a[0] in b && b[0] in a;
      assert a[0] == b[0];
      var rest := elements - {a[0]};
      ListingIsUnique(a[1..], b[1..], rest) by {
        TailLists(a, elements);
        TailLists(b, elements);
      }
      assert a == [a[0]] + a[1..] && b == [b[0]] + b[1..];
    }
  }

  lemma {:induction false} SortedListing(s: seq<nat>, elements: set<nat>)
    requires StrictlyAscending(s)
    requires forall x :: x in s <==> x in elements
    ensures s == Ascending(elements)
  {
    assert forall i :: 0 <= i < |s| ==> s[i] in s;
    ListingIsUnique(s, Ascending(elements), elements);
  }

  /** Inserts `x` before the first larger element. */
  function InsertSorted(s: seq<nat>, x: nat): (r: seq<nat>)
    requires StrictlyAscending(s) && x !in s
    ensures StrictlyAscending(r) && |r| == |s| + 1
    ensures forall y :: y in r <==> y == x || y in s
  {
    if s == [] then [x]
    else if x < s[0] then [x] + s
    else
      var tail := InsertSorted(s[1..], x);
      assert forall y :: y in s <==> y == s[0] || y in s[1..];
      assert forall i :: 0 <= i < |tail| ==> tail[i] in tail && s[0] < tail[i];
      [s[0]] + tail
  }

  function Reversed<T>(s: seq<T>): seq<T> {
    if s == [] then [] else [s[|s| - 1]] + Reversed(s[..|s| - 1])
  }

  predicate NoRepeats<T(==)>(s: seq<T>) {
    forall i, j :: 0 <= i < j < |s| ==> s[i] != s[j]
  }

  /** `sort_unstable` on a vector without repeats. */
  method SortDistinct(s: seq<nat>) returns (r: seq<nat>)
    requires NoRepeats(s)
    ensures StrictlyAscending(r) && |r| == |s|
    ensures forall x :: x in r <==> x in s
  {
    r := [];
    for k := 0 to |s|
      invariant StrictlyAscending(r) && |r| == k
      invariant forall x :: x in r <==> x in s[..k]
    {
      assert s[k] !in s[..k];
      r := InsertSorted(r, s[k]);
      assert s[..k + 1] == s[..k] + [s[k]];
    }
    assert s[..|s|] == s;
  }
}
