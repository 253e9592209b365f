/**
  The compiler and the L4 coarsening pass as they run: loops over regions,
  features and ranges (crates/orch-core/src/compile.rs).
 */
module FeatureCompiler {
  import opened Base
  import opened Intervals
  import opened FeatureMaps
  import opened FeatureProofs

  // ------------------------------------------------------------------
  // Validation
  // ------------------------------------------------------------------

  method ValidateRegions(m: FeatureMap, layouts: RegionLayouts) returns (fault: Option<CompileError>)
    ensures fault.None? <==>
              && (forall i :: 0 <= i < |m.regions| ==> RegionFault(layouts, m.regions[i]).None?)
              && (forall i, j :: 0 <= i < j < |m.regions| ==> m.regions[i].name != m.regions[j].name)
    ensures fault.Some? ==> Explains(m, layouts, fault.value) && FromValidation(fault.value)
  {
    var names: set<string> := {};
    for k := 0 to |m.regions|
      invariant names == set i | 0 <= i < k :: m.regions[i].name
      invariant forall i :: 0 <= i < k ==> RegionFault(layouts, m.regions[i]).None?
      invariant forall i, j :: 0 <= i < j < k ==> m.regions[i].name != m.regions[j].name
    {
      var region := m.regions[k];
      if !NameOk(region.name, false) {
        assert RegionFault(layouts, region) == Some(InvalidName(region.name));
        return Some(InvalidName(region.name));
      }
      if region.name in names { return Some(DuplicateRegion(region.name)); }
      names := names + {region.name};
      if RegionFault(layouts, region).Some? { return RegionFault(layouts, region); }
    }
    return None;
  }

  /** Name, repetition, bounds and discretization of one feature, in that order. */
  method CheckFeature(m: FeatureMap, layouts: RegionLayouts, k: nat,
                      newName: bool) returns (fault: Option<CompileError>)
    requires k < |m.features|
    requires !newName ==> exists i :: 0 <= i < k && m.features[i].name == m.features[k].name
    ensures fault.None? <==> newName && FeatureFault(m, m.features[k]).None?
    ensures fault.Some? ==> Explains(m, layouts, fault.value) && FromValidation(fault.value)
  {
    var feature := m.features[k];
    if !NameOk(feature.name, false) {
      assert FeatureFault(m, feature) == Some(InvalidName(feature.name));
      return Some(InvalidName(feature.name));
    }
    if !newName { return Some(DuplicateFeature(feature.name)); }
    if BoundsFault(m, feature).Some? { return BoundsFault(m, feature); }
    return DiscretizeFault(m, feature);
  }

  method ValidateFeatures(m: FeatureMap, layouts: RegionLayouts) returns (fault: Option<CompileError>)
    ensures fault.None? <==>
              && (forall i :: 0 <= i < |m.features| ==> FeatureFault(m, m.features[i]).None?)
              && (forall i, j :: 0 <= i < j < |m.features| ==> m.features[i].name != m.features[j].name)
    ensures fault.Some? ==> Explains(m, layouts, fault.value) && FromValidation(fault.value)
  {
    var names: set<string> := {};
    for k := 0 to |m.features|
      invariant forall x :: x in names <==> exists i :: 0 <= i < k && m.features[i].name == x
      invariant forall i :: 0 <= i < k ==> FeatureFault(m, m.features[i]).None?
      invariant forall i, j :: 0 <= i < j < k ==> m.features[i].name != m.features[j].name
    {
      var newName := m.features[k].name !in names;
      fault := CheckFeature(m, layouts, k, newName);
      if fault.Some? { return; }
      names := names + {m.features[k].name};
    }
    return None;
  }

  method ValidateFeatureMap(m: FeatureMap, layouts: RegionLayouts) returns (fault: Option<CompileError>)
    ensures fault.None? <==> Valid(m, layouts)
    ensures fault.Some? ==> Explains(m, layouts, fault.value) && FromValidation(fault.value)
  {
    if m.schemaVersion != 1 { return Some(WrongSchemaVersion(m.schemaVersion)); }
    if !NameOk(m.meta.name, true) { return Some(InvalidName(m.meta.name)); }
    fault := ValidateRegions(m, layouts);
    if fault.Some? { return; }
    fault := ValidateFeatures(m, layouts);
  }

  // ------------------------------------------------------------------
  // Compilation
  // ------------------------------------------------------------------

  method CollectStretches(features: seq<Feature>, region: string) returns (ivs: seq<Interval>)
    requires Sized(features)
    ensures ivs == StretchesIn(features, region)
  {
    ivs := [];
    for k := 0 to |features|
      invariant ivs == StretchesIn(features[..k], region)
    {
      assert features[..k + 1][..k] == features[..k];
      assert Width(features[k]).Ok?;
      if features[k].region == region {
        ivs := ivs + [(features[k].offset, features[k].offset + Width(features[k]).value)];
      }
    }
    assert features[..|features|] == features;
  }

  lemma {:induction false} OneRangeTooLong(ranges: seq<ExtractRange>, k: nat)
    requires k < |ranges|
    ensures ranges[k].len <= Total(ranges)
  {
    if k < |ranges| - 1 { OneRangeTooLong(ranges[..|ranges| - 1], k); }
  }

  /** Ranges for one region, or an overflow if one of them is longer than a u32 can say. */
  method CompileRegion(features: seq<Feature>, layouts: RegionLayouts, region: string)
    returns (r: Option<seq<ExtractRange>>)
    requires Sized(features) && region in layouts
    ensures r.Some? ==> r.value == RegionRanges(features, layouts, region)
    ensures r.None? ==> Total(RegionRanges(features, layouts, region)) > U32_MAX
  {
    var stretches := CollectStretches(features, region);
    var sorted := SortByStart(stretches);
    SameElementsSameBytes(sorted, stretches);
    UnionDependsOnBytes(sorted, stretches);
    var merged := MergeSorted(sorted);
    var version := layouts[region].layoutVersion;
    var ranges: seq<ExtractRange> := [];
    for k := 0 to |merged|
      invariant ranges == RangesOf(region, version, merged[..k])
    {
      assert merged[..k + 1][..k] == merged[..k];
      var len := merged[k].1 - merged[k].0;
      if len > U32_MAX {
        OneRangeTooLong(RangesOf(region, version, merged), k);
        return None;
      }
      ranges := ranges + [ExtractRange(region, version, merged[k].0, len)];
    }
    assert merged[..|merged|] == merged;
    return Some(ranges);
  }

  lemma {:induction false} RegionWithinLayout(regions: seq<Region>, features: seq<Feature>, layouts: RegionLayouts,
                                              k: nat)
    requires Sized(features) && k < |regions|
    requires forall i :: 0 <= i < |regions| ==> regions[i].name in layouts
    ensures Total(RegionRanges(features, layouts, regions[k].name)) <= Total(LayoutOf(regions, features, layouts))
  {
    var init := regions[..|regions| - 1];
    TotalJoins(LayoutOf(init, features, layouts), RegionRanges(features, layouts, regions[|regions| - 1].name));
    if k < |init| { RegionWithinLayout(init, features, layouts, k); }
  }

  /** Checked running sum of the range lengths. */
  method TotalFeatureBytesLen(ranges: seq<ExtractRange>) returns (total: Option<u32>)
    ensures total == if Total(ranges) <= U32_MAX then Some(Total(ranges)) else None
  {
    var sum: u32 := 0;
    for k := 0 to |ranges|
      invariant sum == Total(ranges[..k])
    {
      assert ranges[..k + 1][..k] == ranges[..k];
      if sum + ranges[k].len > U32_MAX {
        TotalGrows(ranges, k + 1);
        return None;
      }
      sum := sum + ranges[k].len;
    }
    assert ranges[..|ranges|] == ranges;
    return Some(sum);
  }

  method CompileLayout(m: FeatureMap, layouts: RegionLayouts) returns (r: Option<seq<ExtractRange>>)
    requires Sized(m.features) && RegionsKnown(m, layouts)
    ensures r.Some? <==> Total(LayoutOf(m.regions, m.features, layouts)) <= U32_MAX
    ensures r.Some? ==> r.value == LayoutOf(m.regions, m.features, layouts)
  {
    var ranges: seq<ExtractRange> := [];
    for k := 0 to |m.regions|
      invariant ranges == LayoutOf(m.regions[..k], m.features, layouts)
    {
      assert m.regions[..k + 1][..k] == m.regions[..k];
      var part := CompileRegion(m.features, layouts, m.regions[k].name);
      if part.None? {
        RegionWithinLayout(m.regions, m.features, layouts, k);
        return None;
      }
      ranges := ranges + part.value;
    }
    assert m.regions[..|m.regions|] == m.regions;
    var total := TotalFeatureBytesLen(ranges);
    if total.None? { return None; }
    return Some(ranges);
  }

  /** The first range that holds the stretch, with the packed base accumulated on the way. */
  method CompileField(index: nat, feature: Feature, ranges: seq<ExtractRange>)
    returns (r: Result<CompiledField, CompileError>)
    requires Width(feature).Ok? && Total(ranges) <= U32_MAX
    ensures r.Ok? <==>
              index <= U32_MAX &&
              exists k :: 0 <= k < |ranges| && HoldsStretch(ranges[k], feature.region, Extent(feature))
    ensures r.Ok? ==>
              && r.value.fieldIndex == index && r.value.feature == feature
              && Width(feature) == Ok(r.value.width)
              && Locates(ranges, feature.region, Extent(feature), r.value.packedOffset)
    ensures r.Err? && index > U32_MAX &&
            (exists k :: 0 <= k < |ranges| && HoldsStretch(ranges[k], feature.region, Extent(feature))) ==>
              r.error == TotalLengthOverflow
  {
    var width := Width(feature).value;
    var base := 0;
    var k := 0;
    while k < |ranges| && !HoldsStretch(ranges[k], feature.region, Extent(feature))
      invariant k <= |ranges| && base == Total(ranges[..k])
      invariant forall i :: 0 <= i < k ==> !HoldsStretch(ranges[i], feature.region, Extent(feature))
    {
      assert ranges[..k + 1][..k] == ranges[..k];
      base := base + ranges[k].len;
      k := k + 1;
    }
    if k == |ranges| { return Err(FeatureNotCovered(feature.name)); }
    var packed := base + (feature.offset - ranges[k].offset);
    assert LocatedIn(ranges, k, feature.region, Extent(feature), packed);
    if index > U32_MAX { return Err(TotalLengthOverflow); }
    return Ok(CompiledField(index, feature, width, packed));
  }

  method CompileFields(m: FeatureMap, layouts: RegionLayouts, ranges: seq<ExtractRange>)
    returns (fields: Option<seq<CompiledField>>)
    requires Valid(m, layouts) && Sized(m.features) && RegionsKnown(m, layouts)
    requires ranges == LayoutOf(m.regions, m.features, layouts) && Total(ranges) <= U32_MAX
    ensures fields.Some? <==> |m.features| <= U32_MAX + 1
    ensures fields.Some? ==> |fields.value| == |m.features|
    ensures fields.Some? ==> forall i :: 0 <= i < |m.features| ==> FieldFits(m, ranges, fields.value[i], i)
  {
    var done: seq<CompiledField> := [];
    for i := 0 to |m.features|
      invariant |done| == i <= U32_MAX + 1
      invariant forall j :: 0 <= j < i ==> FieldFits(m, ranges, done[j], j)
    {
      ghost var k := FeatureIsCovered(m, layouts, i);
      var field := CompileField(i, m.features[i], ranges);
      if field.Err? { return None; }
      done := done + [field.value];
    }
    return Some(done);
  }

  /**
    Succeeds exactly when the map is valid and its distinct bytes (and its field
    indices) fit a u32; the only error a valid map can meet is that overflow.
   */
  method CompileFeatureMap(m: FeatureMap, layouts: RegionLayouts) returns (r: Result<Compiled, CompileError>)
    ensures r.Ok? <==>
              && Valid(m, layouts) && Sized(m.features)
              && |FeatureBytes(m.features)| <= U32_MAX && |m.features| <= U32_MAX + 1
    ensures r.Ok? ==> IsCompiled(m, layouts, r.value)
    ensures r.Err? ==> if Valid(m, layouts) then r.error == TotalLengthOverflow
                       else Explains(m, layouts, r.error) && FromValidation(r.error)
  {
    var fault := ValidateFeatureMap(m, layouts);
    if fault.Some? { return Err(fault.value); }
    ValidIsSized(m, layouts);
    TotalCountsDistinctBytes(m, layouts);
    var layout := CompileLayout(m, layouts);
    if layout.None? { return Err(TotalLengthOverflow); }
    var fields := CompileFields(m, layouts, layout.value);
    if fields.None? { return Err(TotalLengthOverflow); }
    r := Ok(Compiled(m.meta, layout.value, fields.value, Total(layout.value)));
  }
}
