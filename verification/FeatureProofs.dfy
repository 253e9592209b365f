/**
  What a compiled layout guarantees: fields read back the bytes they name, and
  the ranges are the unique minimal description of the feature bytes.
 */
module FeatureProofs {
  import opened Base
  import opened Intervals
  import opened FeatureMaps

  // ------------------------------------------------------------------
  // Compilation preserves meaning
  // ------------------------------------------------------------------

  lemma {:induction false} TotalGrows(ranges: seq<ExtractRange>, k: nat)
    requires k <= |ranges|
    ensures Total(ranges[..k]) <= Total(ranges)
  {
    if k == |ranges| {
      assert ranges[..k] == ranges;
    } else {
      var init := ranges[..|ranges| - 1];
      TotalGrows(init, k);
      assert init[..k] == ranges[..k];
    }
  }

  /** The k-th range's bytes sit behind the bytes of the ranges before it. */
  lemma {:induction false} ExtractAt(ranges: seq<ExtractRange>, mem: Memory, k: nat)
    requires k < |ranges|
    ensures var start := Total(ranges[..k]);
            && start + ranges[k].len <= Total(ranges)
            && Extract(ranges, mem)[start..start + ranges[k].len]
               == Read(mem, ranges[k].region, ranges[k].offset, ranges[k].len)
  {
    if k < |ranges| - 1 {
      var init := ranges[..|ranges| - 1];
      assert init[..k] == ranges[..k];
      ExtractAt(init, mem, k);
    }
  }

  lemma {:induction false} SliceOfSlice<T>(s: seq<T>, from: nat, to: nat, at: nat, len: nat)
    requires from <= to <= |s| && at + len <= to - from
    ensures s[from..to][at..at + len] == s[from + at..from + at + len]
  {
    var t := s[from..to];
    assert forall k :: 0 <= k < |t| ==> t[k] == s[from + k];
    assert t[at..at + len] == s[from + at..from + at + len];
  }

  lemma {:induction false} ReadWithin(mem: Memory, region: string, offset: nat, len: nat, at: nat, part: nat)
    requires at + part <= len
    ensures Read(mem, region, offset, len)[at..at + part] == Read(mem, region, offset + at, part)
  {
    var a, b := Read(mem, region, offset, len)[at..at + part], Read(mem, region, offset + at, part);
    forall k | 0 <= k < part ensures a[k] == b[k] {
      assert offset + (at + k) == (offset + at) + k;
    }
    assert a == b;
  }

  lemma {:induction false} LocatedReadsBack(ranges: seq<ExtractRange>, mem: Memory, region: string, iv: Interval,
                                            packed: nat)
    requires Locates(ranges, region, iv, packed)
    ensures packed + (iv.1 - iv.0) <= Total(ranges)
    ensures Extract(ranges, mem)[packed..packed + (iv.1 - iv.0)] == Read(mem, region, iv.0, iv.1 - iv.0)
  {
    var k :| 0 <= k < |ranges| && LocatedIn(ranges, k, region, iv, packed);
    ExtractAt(ranges, mem, k);
    var r, start, len := ranges[k], Total(ranges[..k]), iv.1 - iv.0;
    SliceOfSlice(Extract(ranges, mem), start, start + r.len, packed - start, len);
    ReadWithin(mem, region, r.offset, r.len, iv.0 - r.offset, len);
  }

  lemma {:induction false} FieldReadsBack(m: FeatureMap, ranges: seq<ExtractRange>, field: CompiledField, mem: Memory,
                                          i: nat)
    requires i < |m.features| && FieldFits(m, ranges, field, i)
    ensures field.packedOffset + field.width <= Total(ranges)
    ensures Extract(ranges, mem)[field.packedOffset..field.packedOffset + field.width]
         == Read(mem, m.features[i].region, m.features[i].offset, field.width)
  {
    LocatedReadsBack(ranges, mem, m.features[i].region, Extent(m.features[i]), field.packedOffset);
  }

  /**
    For every accepted map and every memory image, `width` bytes at a field's
    packed offset are the bytes at its region and source offset.
   */
  lemma {:induction false} CompilationPreservesMeaning(m: FeatureMap, layouts: RegionLayouts, c: Compiled,
                                                       mem: Memory, i: nat)
    requires IsCompiled(m, layouts, c) && i < |m.features|
    ensures var f, field := m.features[i], c.fields[i];
            && field.packedOffset + field.width <= c.totalLen
            && Extract(c.ranges, mem)[field.packedOffset..field.packedOffset + field.width]
            == Read(mem, f.region, f.offset, field.width)
  {
    FieldReadsBack(m, c.ranges, c.fields[i], mem, i);
  }

  // ------------------------------------------------------------------
  // Every feature is covered
  // ------------------------------------------------------------------

  lemma {:induction false} OwnStretchListed(features: seq<Feature>, i: nat)
    requires Sized(features) && i < |features|
    ensures Extent(features[i]) in StretchesIn(features, features[i].region)
  {
    if i < |features| - 1 { OwnStretchListed(features[..|features| - 1], i); }
  }

  /** The layout region by region. */
  ghost function Parts(regions: seq<Region>, features: seq<Feature>,
                       layouts: RegionLayouts): (r: seq<seq<ExtractRange>>)
    requires Sized(features)
    requires forall i :: 0 <= i < |regions| ==> regions[i].name in layouts
    ensures |r| == |regions|
  {
    if regions == [] then []
    else
      Parts(regions[..|regions| - 1], features, layouts)
      + [RegionRanges(features, layouts, regions[|regions| - 1].name)]
  }

  ghost function Flat<T>(parts: seq<seq<T>>): seq<T> {
    if parts == [] then [] else Flat(parts[..|parts| - 1]) + parts[|parts| - 1]
  }

  lemma {:induction false} LayoutIsFlat(regions: seq<Region>, features: seq<Feature>, layouts: RegionLayouts)
    requires Sized(features)
    requires forall i :: 0 <= i < |regions| ==> regions[i].name in layouts
    ensures LayoutOf(regions, features, layouts) == Flat(Parts(regions, features, layouts))
  {
    if regions == [] {
    } else {
      LayoutIsFlat(regions[..|regions| - 1], features, layouts);
      var parts := Parts(regions, features, layouts);
      assert parts[..|parts| - 1] == Parts(regions[..|regions| - 1], features, layouts);
    }
  }

  lemma {:induction false} PartAt(regions: seq<Region>, features: seq<Feature>, layouts: RegionLayouts, k: nat)
    requires Sized(features) && k < |regions|
    requires forall i :: 0 <= i < |regions| ==> regions[i].name in layouts
    ensures Parts(regions, features, layouts)[k] == RegionRanges(features, layouts, regions[k].name)
  {
    if k < |regions| - 1 { PartAt(regions[..|regions| - 1], features, layouts, k); }
  }

  /** Each part sits at a fixed place in the whole. */
  lemma {:induction false} FlatPart<T>(parts: seq<seq<T>>, k: nat) returns (start: nat)
    requires k < |parts|
    ensures start + |parts[k]| <= |Flat(parts)|
    ensures forall j :: 0 <= j < |parts[k]| ==> Flat(parts)[start + j] == parts[k][j]
  {
    if k < |parts| - 1 {
      start := FlatPart(parts[..|parts| - 1], k);
    } else {
      start := |Flat(parts[..|parts| - 1])|;
    }
  }

  lemma {:induction false} FlatAt<T>(parts: seq<seq<T>>, k: nat, j: nat) returns (i: nat)
    requires k < |parts| && j < |parts[k]|
    ensures i < |Flat(parts)| && Flat(parts)[i] == parts[k][j]
  {
    var start := FlatPart(parts, k);
    i := start + j;
  }

  lemma {:induction false} FeatureHasRegion(m: FeatureMap, layouts: RegionLayouts, i: nat) returns (k: nat)
    requires Valid(m, layouts) && i < |m.features|
    ensures k < |m.regions| && m.regions[k].name == m.features[i].region
  {
    assert FeatureFault(m, m.features[i]).None?;
    assert BoundsFault(m, m.features[i]).None?;
    k := FoundRegionIsListed(m.regions, m.features[i].region);
  }

  lemma {:induction false} StretchInUnion(features: seq<Feature>, i: nat) returns (k: nat)
    requires Sized(features) && i < |features|
    ensures var union := Union(StretchesIn(features, features[i].region));
            k < |union| && union[k].0 <= Extent(features[i]).0 && Extent(features[i]).1 <= union[k].1
  {
    var stretches, iv := StretchesIn(features, features[i].region), Extent(features[i]);
    OwnStretchListed(features, i);
    UnionIsCanonical(stretches);
    var p :| 0 <= p < |stretches| && stretches[p] == iv;
    forall b: nat | iv.0 <= b < iv.1 ensures Covers(Union(stretches), b) {
      assert stretches[p].0 <= b < stretches[p].1;
      assert Covers(stretches, b);
    }
    k := StretchInOne(Union(stretches), iv);
  }

  lemma {:induction false} RangeHoldsStretch(features: seq<Feature>, layouts: RegionLayouts, i: nat) returns (k: nat)
    requires Sized(features) && i < |features| && features[i].region in layouts
    ensures var part := RegionRanges(features, layouts, features[i].region);
            k < |part| && HoldsStretch(part[k], features[i].region, Extent(features[i]))
  {
    k := StretchInUnion(features, i);
  }

  lemma {:induction false} RangeInLayout(regions: seq<Region>, features: seq<Feature>, layouts: RegionLayouts,
                                         at: nat, i: nat)
    returns (k: nat)
    requires Sized(features) && at < |regions| && i < |features| && regions[at].name == features[i].region
    requires forall j :: 0 <= j < |regions| ==> regions[j].name in layouts
    ensures var ranges := LayoutOf(regions, features, layouts);
            k < |ranges| && HoldsStretch(ranges[k], features[i].region, Extent(features[i]))
  {
    var inPart := RangeHoldsStretch(features, layouts, i);
    PartAt(regions, features, layouts, at);
    LayoutIsFlat(regions, features, layouts);
    k := FlatAt(Parts(regions, features, layouts), at, inPart);
  }

  /** `FeatureNotCovered` cannot happen: some range holds each feature of a valid map. */
  lemma {:induction false} FeatureIsCovered(m: FeatureMap, layouts: RegionLayouts, i: nat) returns (k: nat)
    requires Valid(m, layouts) && Sized(m.features) && RegionsKnown(m, layouts) && i < |m.features|
    ensures var ranges := LayoutOf(m.regions, m.features, layouts);
            k < |ranges| && HoldsStretch(ranges[k], m.features[i].region, Extent(m.features[i]))
  {
    var at := FeatureHasRegion(m, layouts, i);
    k := RangeInLayout(m.regions, m.features, layouts, at, i);
  }

  // ------------------------------------------------------------------
  // The layout is canonical
  // ------------------------------------------------------------------

  /** The layout only depends on which bytes of which region some feature covers. */
  lemma {:induction false} LayoutDependsOnBytes(regions: seq<Region>, a: seq<Feature>, b: seq<Feature>,
                                                layouts: RegionLayouts)
    requires Sized(a) && Sized(b)
    requires forall i :: 0 <= i < |regions| ==> regions[i].name in layouts
    requires forall r: string :: SameBytes(StretchesIn(a, r), StretchesIn(b, r))
    ensures LayoutOf(regions, a, layouts) == LayoutOf(regions, b, layouts)
  {
    if regions == [] {
    } else {
      var name := regions[|regions| - 1].name;
      LayoutDependsOnBytes(regions[..|regions| - 1], a, b, layouts);
      assert SameBytes(StretchesIn(a, name), StretchesIn(b, name));
      UnionDependsOnBytes(StretchesIn(a, name), StretchesIn(b, name));
    }
  }

  lemma {:induction false} StretchHasFeature(features: seq<Feature>, region: string, iv: Interval)
    requires Sized(features) && iv in StretchesIn(features, region)
    ensures exists i :: 0 <= i < |features| && features[i].region == region && Extent(features[i]) == iv
  {
    var init, last := features[..|features| - 1], features[|features| - 1];
    if iv in StretchesIn(init, region) {
      StretchHasFeature(init, region, iv);
      var i :| 0 <= i < |init| && init[i].region == region && Extent(init[i]) == iv;
      assert features[i] == init[i];
    } else {
      assert Extent(features[|features| - 1]) == iv;
    }
  }

  lemma {:induction false} SameFeaturesSameStretches(a: seq<Feature>, b: seq<Feature>, region: string)
    requires Sized(a) && Sized(b)
    requires forall f :: f in a ==> f in b
    ensures forall iv :: iv in StretchesIn(a, region) ==> iv in StretchesIn(b, region)
  {
    forall iv | iv in StretchesIn(a, region) ensures iv in StretchesIn(b, region) {
      StretchHasFeature(a, region, iv);
      var i :| 0 <= i < |a| && a[i].region == region && Extent(a[i]) == iv;
      assert a[i] in b;
      var j :| 0 <= j < |b| && b[j] == a[i];
      OwnStretchListed(b, j);
    }
  }

  /** Listing the features in another order, or listing one twice, compiles to the same layout. */
  lemma {:induction false} PermutingFeaturesKeepsLayout(regions: seq<Region>, a: seq<Feature>, b: seq<Feature>,
                                                        layouts: RegionLayouts)
    requires Sized(a) && Sized(b)
    requires forall i :: 0 <= i < |regions| ==> regions[i].name in layouts
    requires forall f :: f in a <==> f in b
    ensures LayoutOf(regions, a, layouts) == LayoutOf(regions, b, layouts)
  {
    forall r: string ensures SameBytes(StretchesIn(a, r), StretchesIn(b, r)) {
      SameFeaturesSameStretches(a, b, r);
      SameFeaturesSameStretches(b, a, r);
      SameElementsSameBytes(StretchesIn(a, r), StretchesIn(b, r));
    }
    LayoutDependsOnBytes(regions, a, b, layouts);
  }

  // ------------------------------------------------------------------
  // ... and minimal: it counts every distinct feature byte once
  // ------------------------------------------------------------------

  ghost function Block(region: string, iv: Interval): set<(string, nat)> {
    set b: nat | iv.0 <= b < iv.1 :: (region, b)
  }

  lemma {:induction false} BlockSize(region: string, iv: Interval)
    ensures |Block(region, iv)| == iv.1 - iv.0
    decreases iv.1
  {
    if iv.1 == iv.0 + 1 {
      assert Block(region, iv) == {(region, iv.0)};
    } else {
      var shorter: Interval := (iv.0, iv.1 - 1);
      BlockSize(region, shorter);
      assert Block(region, iv) == Block(region, shorter) + {(region, iv.1 - 1)};
    }
  }

  /** The bytes some feature needs. */
  ghost function FeatureBytes(features: seq<Feature>): set<(string, nat)>
    requires Sized(features)
  {
    if features == [] then {}
    else
      var last := features[|features| - 1];
      FeatureBytes(features[..|features| - 1]) + Block(last.region, Extent(last))
  }

  ghost function StretchBytes(region: string, ivs: seq<Interval>): set<(string, nat)> {
    if ivs == [] then {} else StretchBytes(region, ivs[..|ivs| - 1]) + Block(region, ivs[|ivs| - 1])
  }

  lemma {:induction false} InFeatureBytes(features: seq<Feature>, region: string, b: nat)
    requires Sized(features)
    ensures (region, b) in FeatureBytes(features) <==> Covers(StretchesIn(features, region), b)
  {
    if features == [] {
    } else {
      var init, last := features[..|features| - 1], features[|features| - 1];
      InFeatureBytes(init, region, b);
      if last.region == region {
        CoversAppend(StretchesIn(init, region), Extent(last), b);
      } else {
        assert StretchesIn(features, region) == StretchesIn(init, region);
      }
    }
  }

  lemma {:induction false} InStretchBytes(region: string, ivs: seq<Interval>, x: (string, nat))
    ensures x in StretchBytes(region, ivs) <==> x.0 == region && Covers(ivs, x.1)
  {
    if ivs == [] {
    } else {
      var init, last := ivs[..|ivs| - 1], ivs[|ivs| - 1];
      InStretchBytes(region, init, x);
      CoversAppend(init, last, x.1);
      assert init + [last] == ivs;
    }
  }

  lemma {:induction false} LastBlockApart(region: string, ivs: seq<Interval>)
    requires Separated(ivs) && ivs != []
    ensures StretchBytes(region, ivs[..|ivs| - 1]) !! Block(region, ivs[|ivs| - 1])
  {
    var init, last := ivs[..|ivs| - 1], ivs[|ivs| - 1];
    forall x | x in StretchBytes(region, init) ensures x !in Block(region, last) {
      InStretchBytes(region, init, x);
      var i :| 0 <= i < |init| && init[i].0 <= x.1 < init[i].1;
      assert ivs[i].1 < last.0;
    }
  }

  lemma {:induction false} SeparatedCounts(region: string, version: u32, ivs: seq<Interval>)
    requires Separated(ivs)
    ensures Total(RangesOf(region, version, ivs)) == |StretchBytes(region, ivs)|
  {
    if ivs == [] {
    } else {
      var init, last := ivs[..|ivs| - 1], ivs[|ivs| - 1];
      SeparatedCounts(region, version, init);
      BlockSize(region, last);
      LastBlockApart(region, ivs);
      assert RangesOf(region, version, ivs)[..|init|] == RangesOf(region, version, init);
    }
  }

  /** The feature bytes that lie in one of the given regions. */
  ghost function BytesInRegions(regions: seq<Region>, features: seq<Feature>): set<(string, nat)>
    requires Sized(features)
  {
    if regions == [] then {}
    else
      var name := regions[|regions| - 1].name;
      BytesInRegions(regions[..|regions| - 1], features) + StretchBytes(name, Union(StretchesIn(features, name)))
  }

  lemma {:induction false} InBytesInRegions(regions: seq<Region>, features: seq<Feature>, x: (string, nat))
    requires Sized(features)
    ensures x in BytesInRegions(regions, features) <==>
              (exists i :: 0 <= i < |regions| && regions[i].name == x.0) && x in FeatureBytes(features)
  {
    if regions == [] {
    } else {
      var init, name := regions[..|regions| - 1], regions[|regions| - 1].name;
      InBytesInRegions(init, features, x);
      InStretchBytes(name, Union(StretchesIn(features, name)), x);
      UnionCovers(StretchesIn(features, name), x.1);
      InFeatureBytes(features, x.0, x.1);
      assert (exists i :: 0 <= i < |regions| && regions[i].name == x.0) <==>
             (exists i :: 0 <= i < |init| && init[i].name == x.0) || name == x.0 by {
        assert forall i :: 0 <= i < |init| ==> init[i] == regions[i];
        assert regions[|init|].name == name;
      }
    }
  }

  lemma {:induction false} TotalJoins(a: seq<ExtractRange>, b: seq<ExtractRange>)
    ensures Total(a + b) == Total(a) + Total(b)
  {
    if b == [] {
      assert a + b == a;
    } else {
      TotalJoins(a, b[..|b| - 1]);
      assert (a + b)[..|a + b| - 1] == a + b[..|b| - 1];
    }
  }

  lemma {:induction false} LayoutCounts(regions: seq<Region>, features: seq<Feature>, layouts: RegionLayouts)
    requires Sized(features)
    requires forall i :: 0 <= i < |regions| ==> regions[i].name in layouts
    requires forall i, j :: 0 <= i < j < |regions| ==> regions[i].name != regions[j].name
    ensures Total(LayoutOf(regions, features, layouts)) == |BytesInRegions(regions, features)|
  {
    if regions == [] {
    } else {
      var init, name := regions[..|regions| - 1], regions[|regions| - 1].name;
      var stretches := StretchesIn(features, name);
      LayoutCounts(init, features, layouts);
      UnionIsCanonical(stretches);
      SeparatedCounts(name, layouts[name].layoutVersion, Union(stretches));
      TotalJoins(LayoutOf(init, features, layouts), RegionRanges(features, layouts, name));
      forall x | x in BytesInRegions(init, features) ensures x !in StretchBytes(name, Union(stretches)) {
        InBytesInRegions(init, features, x);
        InStretchBytes(name, Union(stretches), x);
      }
    }
  }

  lemma {:induction false} FeatureByteHasRegion(m: FeatureMap, layouts: RegionLayouts, x: (string, nat))
    requires Valid(m, layouts) && Sized(m.features) && x in FeatureBytes(m.features)
    ensures exists k :: 0 <= k < |m.regions| && m.regions[k].name == x.0
  {
    InFeatureBytes(m.features, x.0, x.1);
    var stretches := StretchesIn(m.features, x.0);
    var p :| 0 <= p < |stretches| && stretches[p].0 <= x.1 < stretches[p].1;
    StretchHasFeature(m.features, x.0, stretches[p]);
    var i :| 0 <= i < |m.features| && m.features[i].region == x.0 && Extent(m.features[i]) == stretches[p];
    var k := FeatureHasRegion(m, layouts, i);
  }

  /** The total length is the number of distinct bytes the features name. */
  lemma {:induction false} TotalCountsDistinctBytes(m: FeatureMap, layouts: RegionLayouts)
    requires Valid(m, layouts) && Sized(m.features) && RegionsKnown(m, layouts)
    ensures Total(LayoutOf(m.regions, m.features, layouts)) == |FeatureBytes(m.features)|
  {
    LayoutCounts(m.regions, m.features, layouts);
    forall x ensures x in FeatureBytes(m.features) <==> x in BytesInRegions(m.regions, m.features) {
      InBytesInRegions(m.regions, m.features, x);
      if x in FeatureBytes(m.features) { FeatureByteHasRegion(m, layouts, x); }
    }
    assert BytesInRegions(m.regions, m.features) == FeatureBytes(m.features);
  }

  lemma {:induction false} RangeNamesARegion(regions: seq<Region>, features: seq<Feature>, layouts: RegionLayouts,
                                             i: nat)
    requires Sized(features)
    requires forall k :: 0 <= k < |regions| ==> regions[k].name in layouts
    requires i < |LayoutOf(regions, features, layouts)|
    ensures exists k :: 0 <= k < |regions| && regions[k].name == LayoutOf(regions, features, layouts)[i].region
  {
    var init := regions[..|regions| - 1];
    var before := LayoutOf(init, features, layouts);
    if i < |before| {
      RangeNamesARegion(init, features, layouts, i);
      var k :| 0 <= k < |init| && init[k].name == before[i].region;
      assert regions[k] == init[k];
    } else {
      assert regions[|init|].name == LayoutOf(regions, features, layouts)[i].region;
    }
  }

  /** Within a region the ranges ascend and neither overlap nor touch. */
  lemma {:induction false} RangesAreSeparated(regions: seq<Region>, features: seq<Feature>, layouts: RegionLayouts,
                                              i: nat, j: nat)
    requires Sized(features)
    requires forall k :: 0 <= k < |regions| ==> regions[k].name in layouts
    requires forall k, l :: 0 <= k < l < |regions| ==> regions[k].name != regions[l].name
    requires i < j < |LayoutOf(regions, features, layouts)|
    ensures var ranges := LayoutOf(regions, features, layouts);
            ranges[i].region == ranges[j].region ==> ranges[i].offset + ranges[i].len < ranges[j].offset
  {
    var init, name := regions[..|regions| - 1], regions[|regions| - 1].name;
    var before := LayoutOf(init, features, layouts);
    if j < |before| {
      RangesAreSeparated(init, features, layouts, i, j);
    } else if i < |before| {
      RangeNamesARegion(init, features, layouts, i);
    } else {
      UnionIsCanonical(StretchesIn(features, name));
    }
  }
}
