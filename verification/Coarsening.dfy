/**
  L4 coarsening (crates/orch-core/src/compile.rs): bucket and grid sizes are
  scaled up by a rational factor, the map version moves on, and the extract
  layout must not notice.
 */
module Coarsening {
  import opened Base
  import opened FeatureMaps
  import opened FeatureProofs
  import opened FeatureCompiler

  datatype RadiusFactor = RadiusFactor(numerator: u64, denominator: u64)

  /** What `RadiusFactor::new` lets through: at least one, with a denominator. */
  predicate Legal(f: RadiusFactor) { 0 < f.denominator <= f.numerator }

  function CeilDiv(n: nat, d: nat): nat
    requires 0 < d
  {
    (n + d - 1) / d
  }

  lemma {:induction false} CeilDivIsCeiling(n: nat, d: nat)
    requires 0 < d
    ensures n <= CeilDiv(n, d) * d < n + d
  {
    var q := CeilDiv(n, d);
    assert n + d - 1 == q * d + (n + d - 1) % d;
  }

  function ScalePositive(value: u64, f: RadiusFactor): (r: Result<u64, CompileError>)
    requires 0 < f.denominator
    ensures r.Err? ==> r.error == RadiusOverflow
  {
    var scaled := CeilDiv(value * f.numerator, f.denominator);
    if scaled > U64_MAX then Err(RadiusOverflow) else Ok(Max(scaled, 1))
  }

  lemma {:induction false} AtMost(a: nat, b: nat, d: nat)
    requires 0 < d && a * d <= b * d
    ensures a <= b
  {
    assert (b - a) * d == b * d - a * d;
  }

  lemma {:induction false} ProductGrows(value: nat, d: nat, n: nat)
    requires d <= n
    ensures value * d <= value * n
  {
    assert value * n == value * d + value * (n - d);
  }

  lemma {:induction false} CeilingBounds(value: nat, n: nat, d: nat)
    requires 0 < value && 0 < d && value * d <= n
    ensures var q := CeilDiv(n, d); (q - 1) * d < n <= q * d && value <= q
  {
    var q := CeilDiv(n, d);
    CeilDivIsCeiling(n, d);
    AtMost(value, q, d);
    assert (q - 1) * d == q * d - d;
  }

  /** The exact ceiling of `value * numerator / denominator`, and never smaller than `value`. */
  lemma {:induction false} ScaleIsExactCeiling(value: u64, f: RadiusFactor)
    requires Legal(f) && 0 < value && ScalePositive(value, f).Ok?
    ensures var s := ScalePositive(value, f).value;
            && (s - 1) * f.denominator < value * f.numerator <= s * f.denominator
            && value <= s
  {
    var n, d := value * f.numerator, f.denominator;
    ProductGrows(value, d, f.numerator);
    CeilingBounds(value, n, d);
  }

  function CoarserDiscretize(d: Discretize, f: RadiusFactor): Result<Discretize, CompileError>
    requires 0 < f.denominator
  {
    match d
    case Bucket(size) =>
      (match ScalePositive(size, f)
       case Ok(s) => Ok(Bucket(s))
       case Err(e) => Err(e))
    case Grid(x, y, room, cellW, cellH) =>
      (match ScalePositive(cellW, f)
       case Err(e) => Err(e)
       case Ok(w) =>
         match ScalePositive(cellH, f)
         case Err(e) => Err(e)
         case Ok(h) => Ok(Grid(x, y, room, w, h)))
    case _ => Ok(d)
  }

  ghost predicate Scalable(m: FeatureMap, f: RadiusFactor)
    requires 0 < f.denominator
  {
    forall i :: 0 <= i < |m.features| ==> CoarserDiscretize(m.features[i].discretize, f).Ok?
  }

  /** Only the version and the scaled sizes differ. */
  ghost predicate CoarsenedTo(a: FeatureMap, b: FeatureMap, f: RadiusFactor)
    requires 0 < f.denominator
  {
    && a.meta.version < U32_MAX
    && b == a.(meta := a.meta.(version := a.meta.version + 1), features := b.features)
    && |b.features| == |a.features|
    && forall i :: 0 <= i < |a.features| ==>
         && b.features[i] == a.features[i].(discretize := b.features[i].discretize)
         && CoarserDiscretize(a.features[i].discretize, f) == Ok(b.features[i].discretize)
  }

  // ------------------------------------------------------------------
  // Coarsening keeps the map valid and the layout fixed
  // ------------------------------------------------------------------

  lemma {:induction false} FoundFeatureCoarsened(a: seq<Feature>, b: seq<Feature>, f: RadiusFactor, name: string)
    requires 0 < f.denominator && |a| == |b|
    requires forall i :: 0 <= i < |a| ==>
               && b[i] == a[i].(discretize := b[i].discretize)
               && CoarserDiscretize(a[i].discretize, f) == Ok(b[i].discretize)
    ensures FindFeature(a, name).Some? <==> FindFeature(b, name).Some?
    ensures FindFeature(a, name).Some? ==>
              var p, q := FindFeature(a, name).value, FindFeature(b, name).value;
              && q == p.(discretize := q.discretize)
              && (p.discretize.Undiscretized? <==> q.discretize.Undiscretized?)
  {
    if a != [] && a[0].name != name { FoundFeatureCoarsened(a[1..], b[1..], f, name); }
  }

  lemma {:induction false} TargetFaultCoarsened(a: FeatureMap, b: FeatureMap, f: RadiusFactor, i: nat, target: string,
                                                mustBeInteger: bool)
    requires 0 < f.denominator && CoarsenedTo(a, b, f) && i < |a.features|
    ensures TargetFault(b, b.features[i], target, mustBeInteger) == TargetFault(a, a.features[i], target, mustBeInteger)
  {
    FoundFeatureCoarsened(a.features, b.features, f, target);
  }

  lemma {:induction false} FeatureFaultCoarsened(a: FeatureMap, b: FeatureMap, f: RadiusFactor, i: nat)
    requires 0 < f.denominator && CoarsenedTo(a, b, f) && i < |a.features|
    requires FeatureFault(a, a.features[i]).None?
    ensures FeatureFault(b, b.features[i]).None?
  {
    var p, q := a.features[i], b.features[i];
    assert Width(q) == Width(p);
    assert BoundsFault(b, q) == BoundsFault(a, p);
    if p.discretize.Grid? {
      TargetFaultCoarsened(a, b, f, i, p.discretize.x, true);
      TargetFaultCoarsened(a, b, f, i, p.discretize.y, true);
      TargetFaultCoarsened(a, b, f, i, p.discretize.room, false);
    }
    assert DiscretizeFault(b, q).None?;
  }

  lemma {:induction false} CoarseningKeepsValid(a: FeatureMap, b: FeatureMap, layouts: RegionLayouts, f: RadiusFactor)
    requires 0 < f.denominator && CoarsenedTo(a, b, f) && Valid(a, layouts)
    ensures Valid(b, layouts)
  {
    forall i | 0 <= i < |b.features| ensures FeatureFault(b, b.features[i]).None? {
      FeatureFaultCoarsened(a, b, f, i);
    }
  }

  /** Same regions, and every feature at the same place with the same width. */
  ghost predicate SameGeometry(a: FeatureMap, b: FeatureMap) {
    && a.regions == b.regions && |a.features| == |b.features|
    && forall i :: 0 <= i < |a.features| ==>
         b.features[i] == a.features[i].(discretize := b.features[i].discretize)
  }

  lemma {:induction false} GeometryFixesStretches(a: seq<Feature>, b: seq<Feature>, region: string)
    requires |a| == |b| && Sized(a) && Sized(b)
    requires forall i :: 0 <= i < |a| ==> b[i] == a[i].(discretize := b[i].discretize)
    ensures StretchesIn(a, region) == StretchesIn(b, region)
  {
    if a == [] {
    } else {
      GeometryFixesStretches(a[..|a| - 1], b[..|b| - 1], region);
      assert Width(a[|a| - 1]) == Width(b[|b| - 1]);
    }
  }

  lemma {:induction false} GeometryFixesLayout(a: FeatureMap, b: FeatureMap, layouts: RegionLayouts)
    requires SameGeometry(a, b) && Sized(a.features) && Sized(b.features) && RegionsKnown(a, layouts)
    ensures LayoutOf(a.regions, a.features, layouts) == LayoutOf(b.regions, b.features, layouts)
  {
    forall r: string ensures StretchesIn(a.features, r) == StretchesIn(b.features, r) {
      GeometryFixesStretches(a.features, b.features, r);
    }
    LayoutDependsOnBytes(a.regions, a.features, b.features, layouts);
  }

  /** Any number of coarsenings, by any factors: still valid, still the same layout. */
  lemma {:induction false} RepeatedCoarseningKeepsLayout(maps: seq<FeatureMap>, factors: seq<RadiusFactor>,
                                                         layouts: RegionLayouts)
    requires |maps| == |factors| + 1 && Valid(maps[0], layouts)
    requires forall k :: 0 <= k < |factors| ==> 0 < factors[k].denominator
    requires forall k :: 0 <= k < |factors| ==> CoarsenedTo(maps[k], maps[k + 1], factors[k])
    ensures var last := maps[|factors|];
            && Valid(last, layouts) && SameGeometry(maps[0], last)
            && Sized(maps[0].features) && Sized(last.features) && RegionsKnown(maps[0], layouts)
            && LayoutOf(maps[0].regions, maps[0].features, layouts) == LayoutOf(last.regions, last.features, layouts)
  {
    ValidIsSized(maps[0], layouts);
    if |factors| > 0 {
      var n := |factors| - 1;
      RepeatedCoarseningKeepsLayout(maps[..n + 1], factors[..n], layouts);
      assert CoarsenedTo(maps[n], maps[n + 1], factors[n]);
      CoarseningKeepsValid(maps[n], maps[n + 1], layouts, factors[n]);
      ValidIsSized(maps[n + 1], layouts);
      GeometryFixesLayout(maps[0], maps[n + 1], layouts);
    }
  }

  // ------------------------------------------------------------------
  // The pass
  // ------------------------------------------------------------------

  /** Rewrites the sizes feature by feature in a copy of the map. */
  method CoarsenL4(m: FeatureMap, layouts: RegionLayouts, f: RadiusFactor) returns (r: Result<FeatureMap, CompileError>)
    requires 0 < f.denominator
    ensures r.Ok? <==> Valid(m, layouts) && m.meta.version < U32_MAX && Scalable(m, f)
    ensures r.Ok? ==> CoarsenedTo(m, r.value, f)
    ensures r.Err? && Valid(m, layouts) ==>
              r.error == if m.meta.version == U32_MAX then VersionOverflow else RadiusOverflow
    ensures r.Err? ==> !r.error.LayoutChangedByCoarsening?
  {
    var fault := ValidateFeatureMap(m, layouts);
    if fault.Some? { return Err(fault.value); }
    if m.meta.version == U32_MAX { return Err(VersionOverflow); }
    var features := m.features;
    for k := 0 to |m.features|
      invariant |features| == |m.features|
      invariant forall i :: k <= i < |features| ==> features[i] == m.features[i]
      invariant forall i :: 0 <= i < k ==>
                  && features[i] == m.features[i].(discretize := features[i].discretize)
                  && CoarserDiscretize(m.features[i].discretize, f) == Ok(features[i].discretize)
    {
      var coarser := CoarserDiscretize(features[k].discretize, f);
      if coarser.Err? { return Err(coarser.error); }
      features := features[k := features[k].(discretize := coarser.value)];
    }
    r := Ok(m.(meta := m.meta.(version := m.meta.version + 1), features := features));
  }

  /** The guard around the pass: its layout check never fires. */
  method CoarsenPreservingLayout(m: FeatureMap, layouts: RegionLayouts, f: RadiusFactor)
    returns (r: Result<FeatureMap, CompileError>)
    requires 0 < f.denominator
    ensures r.Ok? <==>
              && Valid(m, layouts) && m.meta.version < U32_MAX && Scalable(m, f)
              && Sized(m.features) && |FeatureBytes(m.features)| <= U32_MAX && |m.features| <= U32_MAX + 1
    ensures r.Ok? ==> CoarsenedTo(m, r.value, f) && Valid(r.value, layouts)
    ensures r.Err? ==> !r.error.LayoutChangedByCoarsening?
  {
    var before := CompileFeatureMap(m, layouts);
    if before.Err? { return Err(before.error); }
    var coarsened := CoarsenL4(m, layouts, f);
    if coarsened.Err? { return Err(coarsened.error); }
    CoarseningKeepsValid(m, coarsened.value, layouts, f);
    ValidIsSized(coarsened.value, layouts);
    GeometryFixesLayout(m, coarsened.value, layouts);
    TotalCountsDistinctBytes(m, layouts);
    TotalCountsDistinctBytes(coarsened.value, layouts);
    var after := CompileFeatureMap(coarsened.value, layouts);
    return if after.Ok? && before.value.ranges == after.value.ranges then Ok(coarsened.value)
      else Err(LayoutChangedByCoarsening);
  }
}
