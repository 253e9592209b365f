/**
  Feature maps, their validity, the extract layout they compile to and what that
  layout means (crates/orch-core/src/compile.rs). Free-form `extra` values are
  left out of the records.
 */
module FeatureMaps {
  import opened Base
  import opened Intervals

  datatype ValueType =
    | U8 | U16Le | U16Be | U32Le | U32Be | I8 | I16Le | I16Be | I32Le | I32Be
    | Bitflags8 | Bitflags16Le | Bitflags32Le | Bcd8 | Bcd16Le | Bytes
  {
    function DerivedWidth(): Option<u32> {
      match this
      case U8 => Some(1) case I8 => Some(1) case Bitflags8 => Some(1) case Bcd8 => Some(1)
      case U16Le => Some(2) case U16Be => Some(2) case I16Le => Some(2) case I16Be => Some(2)
      case Bitflags16Le => Some(2) case Bcd16Le => Some(2)
      case U32Le => Some(4) case U32Be => Some(4) case I32Le => Some(4) case I32Be => Some(4)
      case Bitflags32Le => Some(4)
      case Bytes => None
    }

    predicate IsIntegerScalar() {
      U8? || U16Le? || U16Be? || U32Le? || U32Be? || I8? || I16Le? || I16Be? || I32Le? || I32Be?
    }

    predicate IsBitflags() { Bitflags8? || Bitflags16Le? || Bitflags32Le? }
  }

  datatype Stability = Stable | Volatile

  datatype Discretize =
    | Undiscretized
    | Identity
    | Bucket(size: u64)
    | Threshold(edges: seq<int>)
    | Bits
    | Grid(x: string, y: string, room: string, cellW: u64, cellH: u64)

  datatype ValidWhen = ValidWhen(feature: string, op: nat, value: int)

  datatype Feature = Feature(name: string, region: string, offset: u64, valueType: ValueType, width: Option<u32>,
                             semantics: string, stability: Stability, discretize: Discretize,
                             validWhen: Option<ValidWhen>)

  datatype Meta = Meta(name: string, workload: string, gameRevision: string, version: u32)

  datatype Region = Region(name: string, size: u64)

  datatype RegionLayout = RegionLayout(size: u64, layoutVersion: u32)

  datatype FeatureMap = FeatureMap(schemaVersion: u32, meta: Meta, regions: seq<Region>, features: seq<Feature>)

  type RegionLayouts = map<string, RegionLayout>

  datatype ExtractRange = ExtractRange(region: string, layoutVersion: u32, offset: nat, len: nat)

  datatype CompiledField = CompiledField(fieldIndex: nat, feature: Feature, width: u32, packedOffset: nat)

  datatype Compiled = Compiled(meta: Meta, ranges: seq<ExtractRange>, fields: seq<CompiledField>, totalLen: nat)

  datatype CompileError =
    | WrongSchemaVersion(version: u32)
    | InvalidName(name: string)
    | DuplicateRegion(name: string)
    | DuplicateFeature(name: string)
    | UnknownRegion(feature: string, region: string)
    | UnknownRegionLayout(region: string)
    | RegionSizeMismatch(region: string)
    | MissingBytesWidth(feature: string)
    | EmptyBytesFeature(feature: string)
    | WidthMismatch(feature: string)
    | FeatureOutOfBounds(feature: string, region: string)
    | TotalLengthOverflow
    | FeatureNotCovered(feature: string)
    | InvalidGridReference(feature: string, target: string)
    | InvalidGridDoubleCount(feature: string, target: string)
    | InvalidGridCellSize(feature: string)
    | InvalidBucketSize(feature: string)
    | InvalidBitflagsDiscretize(feature: string)
    | RadiusOverflow
    | VersionOverflow
    | LayoutChangedByCoarsening

  function Width(f: Feature): (r: Result<u32, CompileError>)
    ensures r.Ok? ==> 0 < r.value
  {
    match f.valueType.DerivedWidth()
    case Some(derived) =>
      if f.width.Some? && f.width.value != derived then Err(WidthMismatch(f.name)) else Ok(derived)
    case None =>
      if f.width.None? then Err(MissingBytesWidth(f.name))
      else if f.width.value == 0 then Err(EmptyBytesFeature(f.name))
      else Ok(f.width.value)
  }

  // ------------------------------------------------------------------
  // Validity
  // ------------------------------------------------------------------

  predicate Lower(c: char) { 'a' <= c <= 'z' }

  predicate NameOk(name: string, allowHyphen: bool) {
    && name != [] && Lower(name[0])
    && forall i :: 0 < i < |name| ==>
         Lower(name[i]) || '0' <= name[i] <= '9' || name[i] == '_' || (allowHyphen && name[i] == '-')
  }

  /** The first region of that name. */
  function FindRegion(regions: seq<Region>, name: string): Option<Region> {
    if regions == [] then None
    else if regions[0].name == name then Some(regions[0])
    else FindRegion(regions[1..], name)
  }

  function FindFeature(features: seq<Feature>, name: string): Option<Feature> {
    if features == [] then None
    else if features[0].name == name then Some(features[0])
    else FindFeature(features[1..], name)
  }

  function RegionFault(layouts: RegionLayouts, r: Region): Option<CompileError> {
    if !NameOk(r.name, false) then Some(InvalidName(r.name))
    else if r.name !in layouts then Some(UnknownRegionLayout(r.name))
    else if r.size > layouts[r.name].size then Some(RegionSizeMismatch(r.name))
    else None
  }

  function BoundsFault(m: FeatureMap, f: Feature): Option<CompileError> {
    match FindRegion(m.regions, f.region)
    case None => Some(UnknownRegion(f.name, f.region))
    case Some(region) =>
      match Width(f)
      case Err(e) => Some(e)
      case Ok(width) => if f.offset + width > region.size then Some(FeatureOutOfBounds(f.name, f.region)) else None
  }

  function TargetFault(m: FeatureMap, f: Feature, target: string, mustBeInteger: bool): Option<CompileError> {
    match FindFeature(m.features, target)
    case None => Some(InvalidGridReference(f.name, target))
    case Some(t) =>
      if mustBeInteger && !t.valueType.IsIntegerScalar() then Some(InvalidGridReference(f.name, target))
      else if mustBeInteger && t.name != f.name && !t.discretize.Undiscretized? then
        Some(InvalidGridDoubleCount(f.name, target))
      else if !mustBeInteger && t.stability != Stable then Some(InvalidGridReference(f.name, target))
      else None
  }

  function DiscretizeFault(m: FeatureMap, f: Feature): Option<CompileError> {
    if f.valueType.IsBitflags() && !f.discretize.Bits? && !f.discretize.Undiscretized? then
      Some(InvalidBitflagsDiscretize(f.name))
    else
      match f.discretize
      case Bucket(size) => if size == 0 then Some(InvalidBucketSize(f.name)) else None
      case Grid(x, y, room, cellW, cellH) =>
        if cellW == 0 || cellH == 0 then Some(InvalidGridCellSize(f.name))
        else if TargetFault(m, f, x, true).Some? then TargetFault(m, f, x, true)
        else if TargetFault(m, f, y, true).Some? then TargetFault(m, f, y, true)
        else TargetFault(m, f, room, false)
      case _ => None
  }

  function FeatureFault(m: FeatureMap, f: Feature): Option<CompileError> {
    if !NameOk(f.name, false) then Some(InvalidName(f.name))
    else if BoundsFault(m, f).Some? then BoundsFault(m, f)
    else DiscretizeFault(m, f)
  }

  ghost predicate Valid(m: FeatureMap, layouts: RegionLayouts) {
    && m.schemaVersion == 1
    && NameOk(m.meta.name, true)
    && (forall i :: 0 <= i < |m.regions| ==> RegionFault(layouts, m.regions[i]).None?)
    && (forall i, j :: 0 <= i < j < |m.regions| ==> m.regions[i].name != m.regions[j].name)
    && (forall i :: 0 <= i < |m.features| ==> FeatureFault(m, m.features[i]).None?)
    && (forall i, j :: 0 <= i < j < |m.features| ==> m.features[i].name != m.features[j].name)
  }

  /** The error names something that is really wrong with the map. */
  ghost predicate Explains(m: FeatureMap, layouts: RegionLayouts, e: CompileError) {
    match e
    case WrongSchemaVersion(v) => v == m.schemaVersion != 1
    case DuplicateRegion(name) =>
      exists i, j :: 0 <= i < j < |m.regions| && m.regions[i].name == m.regions[j].name == name
    case DuplicateFeature(name) =>
      exists i, j :: 0 <= i < j < |m.features| && m.features[i].name == m.features[j].name == name
    case _ =>
      || (e == InvalidName(m.meta.name) && !NameOk(m.meta.name, true))
      || (exists i :: 0 <= i < |m.regions| && RegionFault(layouts, m.regions[i]) == Some(e))
      || (exists i :: 0 <= i < |m.features| && FeatureFault(m, m.features[i]) == Some(e))
  }

  /** Only validation reports these; compiling and coarsening add their own errors. */
  predicate FromValidation(e: CompileError) {
    !e.TotalLengthOverflow? && !e.FeatureNotCovered? && !e.RadiusOverflow? && !e.VersionOverflow?
    && !e.LayoutChangedByCoarsening?
  }

  lemma {:induction false} FoundRegionIsListed(regions: seq<Region>, name: string) returns (k: nat)
    requires FindRegion(regions, name).Some?
    ensures k < |regions| && regions[k] == FindRegion(regions, name).value && regions[k].name == name
  {
    if regions[0].name == name {
      k := 0;
    } else {
      k := FoundRegionIsListed(regions[1..], name);
      k := k + 1;
    }
  }

  // ------------------------------------------------------------------
  // Layout
  // ------------------------------------------------------------------

  /** Every feature has a width, so it denotes a stretch of bytes. */
  ghost predicate Sized(features: seq<Feature>) {
    forall i :: 0 <= i < |features| ==> Width(features[i]).Ok?
  }

  function Extent(f: Feature): Interval
    requires Width(f).Ok?
  {
    (f.offset, f.offset + Width(f).value)
  }

  /** The stretches features occupy in one region, in feature order. */
  ghost function StretchesIn(features: seq<Feature>, region: string): seq<Interval>
    requires Sized(features)
  {
    if features == [] then []
    else
      var last := features[|features| - 1];
      StretchesIn(features[..|features| - 1], region) + if last.region == region then [Extent(last)] else []
  }

  function RangesOf(region: string, version: u32, ivs: seq<Interval>): (r: seq<ExtractRange>)
    ensures |r| == |ivs|
    ensures forall i :: 0 <= i < |ivs| ==> r[i] == ExtractRange(region, version, ivs[i].0, ivs[i].1 - ivs[i].0)
  {
    if ivs == [] then []
    else
      var last := ivs[|ivs| - 1];
      RangesOf(region, version, ivs[..|ivs| - 1]) + [ExtractRange(region, version, last.0, last.1 - last.0)]
  }

  ghost function RegionRanges(features: seq<Feature>, layouts: RegionLayouts, region: string): seq<ExtractRange>
    requires Sized(features) && region in layouts
  {
    RangesOf(region, layouts[region].layoutVersion, Union(StretchesIn(features, region)))
  }

  /** Region by region, the union of the features' stretches. */
  ghost function LayoutOf(regions: seq<Region>, features: seq<Feature>, layouts: RegionLayouts): seq<ExtractRange>
    requires Sized(features)
    requires forall i :: 0 <= i < |regions| ==> regions[i].name in layouts
  {
    if regions == [] then []
    else
      LayoutOf(regions[..|regions| - 1], features, layouts) +
      RegionRanges(features, layouts, regions[|regions| - 1].name)
  }

  function Total(ranges: seq<ExtractRange>): nat {
    if ranges == [] then 0 else Total(ranges[..|ranges| - 1]) + ranges[|ranges| - 1].len
  }

  // ------------------------------------------------------------------
  // Meaning
  // ------------------------------------------------------------------

  /** A memory image: the byte at each offset of each region. */
  type Memory = (string, nat) -> int

  function Read(mem: Memory, region: string, offset: nat, len: nat): seq<int> {
    seq(len, i requires 0 <= i < len => mem(region, offset + i))
  }

  /** What the worker sends back: the ranges' bytes, one after the other. */
  function Extract(ranges: seq<ExtractRange>, mem: Memory): (bytes: seq<int>)
    ensures |bytes| == Total(ranges)
  {
    if ranges == [] then []
    else
      var last := ranges[|ranges| - 1];
      Extract(ranges[..|ranges| - 1], mem) + Read(mem, last.region, last.offset, last.len)
  }

  predicate HoldsStretch(r: ExtractRange, region: string, iv: Interval) {
    r.region == region && r.offset <= iv.0 && iv.1 <= r.offset + r.len
  }

  predicate LocatedIn(ranges: seq<ExtractRange>, k: nat, region: string, iv: Interval, packed: nat)
    requires k < |ranges|
  {
    && HoldsStretch(ranges[k], region, iv)
    && packed == Total(ranges[..k]) + iv.0 - ranges[k].offset
  }

  /** Some range holds the stretch, and `packed` is where the extraction puts its first byte. */
  ghost predicate Locates(ranges: seq<ExtractRange>, region: string, iv: Interval, packed: nat) {
    exists k :: 0 <= k < |ranges| && LocatedIn(ranges, k, region, iv, packed)
  }

  /** The i-th compiled field describes the i-th feature and knows where its bytes land. */
  ghost predicate FieldFits(m: FeatureMap, ranges: seq<ExtractRange>, field: CompiledField, i: nat)
    requires i < |m.features|
  {
    && field.fieldIndex == i && field.feature == m.features[i]
    && Width(m.features[i]) == Ok(field.width)
    && Locates(ranges, m.features[i].region, Extent(m.features[i]), field.packedOffset)
  }

  ghost predicate RegionsKnown(m: FeatureMap, layouts: RegionLayouts) {
    forall i :: 0 <= i < |m.regions| ==> m.regions[i].name in layouts
  }

  ghost predicate IsCompiled(m: FeatureMap, layouts: RegionLayouts, c: Compiled) {
    && Valid(m, layouts) && Sized(m.features) && RegionsKnown(m, layouts)
    && c.meta == m.meta
    && c.ranges == LayoutOf(m.regions, m.features, layouts)
    && c.totalLen == Total(c.ranges) <= U32_MAX
    && |c.fields| == |m.features|
    && forall i :: 0 <= i < |m.features| ==> FieldFits(m, c.ranges, c.fields[i], i)
  }

  lemma {:induction false} ValidIsSized(m: FeatureMap, layouts: RegionLayouts)
    requires Valid(m, layouts)
    ensures Sized(m.features) && RegionsKnown(m, layouts)
  {
    forall i | 0 <= i < |m.features| ensures Width(m.features[i]).Ok? {
      assert FeatureFault(m, m.features[i]).None?;
    }
    forall i | 0 <= i < |m.regions| ensures m.regions[i].name in layouts {
      assert RegionFault(layouts, m.regions[i]).None?;
    }
  }
}
