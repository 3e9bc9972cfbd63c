/**
 * What composing a map produces, as functions of the three input collections:
 * the legend, the station markers, one range group and two cluster groups per
 * distinct station, the layer control, and the first failure when the inputs do
 * not fit the style table or the station collection.
 */
module ComposeSpec {
  import opened MapTypes
  import opened Styles
  import opened Labels
  import opened Ordering

  const Tiles: string := "OpenStreetMap"
  const ZoomStart: nat := 10

  /** The fields a cluster layer's tooltip shows. */
  const ClusterTooltipFields: seq<string> := ["station_name", "cluster_type", "population_count"]

  /** The `station_name` column of the station-location collection. */
  function StationNames(stations: seq<StationRow>): seq<string>
  {
    seq(|stations|, i requires 0 <= i < |stations| => stations[i].name)
  }

  /** The `station_name` column of the sampled-cluster collection. */
  function ClusterStations(clusters: seq<ClusterRow>): seq<string>
  {
    seq(|clusters|, i requires 0 <= i < |clusters| => clusters[i].station)
  }

  /** The colour of the first station row named s. */
  function ColorOf(stations: seq<StationRow>, s: string): string
    requires s in StationNames(stations)
  {
    stations[FirstIndex(StationNames(stations), s)].color
  }

  // ----- legend -----

  function StationKeys(stations: seq<StationRow>): seq<LegendEntry>
  {
    seq(|stations|, i requires 0 <= i < |stations| => StationKey(stations[i].name, stations[i].color))
  }

  const ClusterSection: seq<LegendEntry> :=
    [Heading("Sampled Clusters"), ClusterKey(MainClusters), ClusterKey(ReplacementClusters)]

  const RangeSection: seq<LegendEntry> :=
    [Heading("Assumed Coverage Ranges"), RangeKey(20), RangeKey(25), RangeKey(40), RangeKey(60)]

  function Legend(stations: seq<StationRow>): seq<LegendEntry>
  {
    [Heading("Radio Stations")] + StationKeys(stations) + ClusterSection + RangeSection
  }

  // ----- markers -----

  function StationMarker(row: StationRow): Marker
  {
    Marker(row.location, row.name, MarkerTooltip(row.name), row.color)
  }

  function MarkerChildren(stations: seq<StationRow>): seq<MapChild>
  {
    seq(|stations|, i requires 0 <= i < |stations| => MarkerChild(StationMarker(stations[i])))
  }

  // ----- buffers -----

  /** Every buffer has a row in the style table and a range group for its station. */
  predicate BuffersValid(bs: seq<BufferRow>, names: seq<string>)
  {
    forall b :: b in bs ==> b.km in RangeKms && b.station in names
  }

  predicate RangesKnown(bs: seq<BufferRow>)
  {
    forall b :: b in bs ==> b.km in RangeKms
  }

  /** The failure one buffer causes: the style lookup comes before the group lookup. */
  function BufferError(b: BufferRow, names: seq<string>): (r: Option<MapError>)
    ensures r.None? <==> b.km in RangeKms && b.station in names
    ensures r == Some(UnknownRange(b.km)) <==> b.km !in RangeKms
    ensures r == Some(NoRangeGroup(b.station)) <==> b.km in RangeKms && b.station !in names
  {
    if RangeStyleOf(b.km).None? then Some(UnknownRange(b.km))
    else if b.station !in names then Some(NoRangeGroup(b.station))
    else None
  }

  /** The failure of the first buffer in bs that fails. */
  function FirstBufferError(bs: seq<BufferRow>, names: seq<string>): (r: Option<MapError>)
    ensures r.None? <==> BuffersValid(bs, names)
    ensures r.Some? ==> exists b :: b in bs && BufferError(b, names) == r
  {
    if bs == [] then None
    else
      var init, last := bs[..|bs| - 1], bs[|bs| - 1];
      assert bs == init + [last];
      match FirstBufferError(init, names)
      case Some(e) => Some(e)
      case None => BufferError(last, names)
  }

  /** The failure reported is that of the first failing buffer: every buffer before
      it fits. */
  lemma {:induction false} FirstBufferErrorIsFirst(bs: seq<BufferRow>, names: seq<string>)
    requires FirstBufferError(bs, names).Some?
    ensures exists i :: 0 <= i < |bs| && BufferError(bs[i], names) == FirstBufferError(bs, names)
                        && forall j :: 0 <= j < i ==> BufferError(bs[j], names).None?
  {
    var init, last := bs[..|bs| - 1], bs[|bs| - 1];
    assert forall j :: 0 <= j < |init| ==> bs[j] == init[j];
    if FirstBufferError(init, names).Some? {
      FirstBufferErrorIsFirst(init, names);
      var i :| 0 <= i < |init| && BufferError(init[i], names) == FirstBufferError(init, names)
               && forall j :: 0 <= j < i ==> BufferError(init[j], names).None?;
      assert BufferError(bs[i], names) == FirstBufferError(bs, names);
    } else {
      assert FirstBufferError(bs, names) == BufferError(bs[|init|], names);
      forall j | 0 <= j < |init| ensures BufferError(bs[j], names).None? {
        assert init[j] in init;
      }
    }
  }

  /** The layer drawn for one buffer. */
  function BufferLayerOf(b: BufferRow): Layer
    requires b.km in RangeKms
  {
    BufferLayer(b.geometry, BufferStyle(b.originalColor, RangeStyleOf(b.km).value),
                RangeTooltip(b.station, b.km), b.station, b.km)
  }

  /** The layers the range group of station s holds once bs were added in order. */
  function RangeLayers(bs: seq<BufferRow>, s: string): seq<Layer>
    requires RangesKnown(bs)
  {
    if bs == [] then []
    else
      var init, last := bs[..|bs| - 1], bs[|bs| - 1];
      assert bs == init + [last];
      RangeLayers(init, s) + (if last.station == s then [BufferLayerOf(last)] else [])
  }

  function RangeGroupChildren(names: seq<string>, sorted: seq<BufferRow>): seq<MapChild>
    requires RangesKnown(sorted)
  {
    seq(|names|, i requires 0 <= i < |names| =>
      GroupChild(FeatureGroup(RangeGroupName(names[i]), RangeLayers(sorted, names[i]))))
  }

  // ----- clusters -----

  /** The failure of the first cluster station with no station row. */
  function FirstClusterError(cs: seq<string>, column: seq<string>): (r: Option<MapError>)
    ensures r.None? <==> forall s :: s in cs ==> s in column
    ensures r.Some? ==> exists s :: s in cs && s !in column && r == Some(NoStationRow(s))
  {
    if cs == [] then None
    else
      var init, last := cs[..|cs| - 1], cs[|cs| - 1];
      assert cs == init + [last];
      match FirstClusterError(init, column)
      case Some(e) => Some(e)
      case None => if last in column then None else Some(NoStationRow(last))
  }

  /** The clusters of station s whose type is t, in row order. */
  function ClustersOf(clusters: seq<ClusterRow>, s: string, t: string): (r: seq<ClusterRow>)
    ensures forall c :: c in r <==> c in clusters && c.station == s && c.clusterType == t
  {
    if clusters == [] then []
    else
      assert clusters == [clusters[0]] + clusters[1..];
      (if clusters[0].station == s && clusters[0].clusterType == t then [clusters[0]] else [])
      + ClustersOf(clusters[1..], s, t)
  }

  /** The selection keeps every row of station s and type t as often as it occurs,
      and no other row. */
  lemma {:induction false} ClustersOfCount(clusters: seq<ClusterRow>, s: string, t: string)
    ensures forall c ::
      multiset(ClustersOf(clusters, s, t))[c] == if c.station == s && c.clusterType == t then multiset(clusters)[c] else 0
  {
    if clusters != [] {
      assert clusters == [clusters[0]] + clusters[1..];
      assert multiset(clusters) == multiset{clusters[0]} + multiset(clusters[1..]);
      ClustersOfCount(clusters[1..], s, t);
    }
  }

  function ClusterGroupName(kind: ClusterKind, s: string): string
  {
    match kind
    case MainClusters => MainGroupName(s)
    case ReplacementClusters => ReplacementGroupName(s)
  }

  /** The layer of station s's clusters of one kind. */
  function ClusterLayerOf(stations: seq<StationRow>, clusters: seq<ClusterRow>, s: string, kind: ClusterKind): Layer
    requires s in StationNames(stations)
  {
    ClusterLayer(ClustersOf(clusters, s, KindName(kind)), ClusterStyle(kind, ColorOf(stations, s)), ClusterTooltipFields)
  }

  /** The cluster group of station s and one kind, once the stations in done were
      processed: one layer holding all of s's clusters of that kind, or none yet. */
  function ClusterGroup(stations: seq<StationRow>, clusters: seq<ClusterRow>, done: seq<string>,
                        s: string, kind: ClusterKind): FeatureGroup
    requires s in StationNames(stations)
  {
    FeatureGroup(ClusterGroupName(kind, s),
      if s in done then
        [ClusterLayerOf(stations, clusters, s, kind)]
      else [])
  }

  /** The kind of the k-th cluster group: main and replacement alternate. */
  function KindAt(k: nat): ClusterKind
  {
    if k % 2 == 0 then MainClusters else ReplacementClusters
  }

  function ClusterGroupChildren(stations: seq<StationRow>, clusters: seq<ClusterRow>,
                                names: seq<string>, done: seq<string>): seq<MapChild>
    requires forall s :: s in names ==> s in StationNames(stations)
  {
    seq(2 * |names|, k requires 0 <= k < 2 * |names| =>
      GroupChild(ClusterGroup(stations, clusters, done, names[k / 2], KindAt(k))))
  }

  /** The cluster-group dictionary's keys, in insertion order: each station's main
      key followed by its replacement key. */
  function ClusterKeys(names: seq<string>): seq<string>
  {
    seq(2 * |names|, k requires 0 <= k < 2 * |names| =>
      if k % 2 == 0 then MainKey(names[k / 2]) else ReplacementKey(names[k / 2]))
  }

  /** Every station has its main and its replacement key in the dictionary. */
  lemma ClusterKeysCover(names: seq<string>)
    ensures forall s :: s in names ==> MainKey(s) in ClusterKeys(names) && ReplacementKey(s) in ClusterKeys(names)
  {
    var keys := ClusterKeys(names);
    forall s | s in names
      ensures MainKey(s) in keys && ReplacementKey(s) in keys
    {
      var i := FirstIndex(names, s);
      assert keys[2 * i] == MainKey(s) && keys[2 * i + 1] == ReplacementKey(s);
    }
  }

  /** A station not yet among names has neither of its keys in the dictionary. */
  lemma ClusterKeysFresh(names: seq<string>, s: string)
    requires s !in names
    ensures MainKey(s) !in ClusterKeys(names) && ReplacementKey(s) !in ClusterKeys(names)
  {
    var keys := ClusterKeys(names);
    forall j | 0 <= j < |keys|
      ensures keys[j] != MainKey(s) && keys[j] != ReplacementKey(s)
    {
      var t := names[j / 2];
      assert t != s;
      ClusterKeysDistinct(s, t);
      ClusterKeysDistinct(t, s);
    }
  }

  /** Creating the groups of one more station appends its two keys. */
  lemma ClusterKeysAppend(done: seq<string>, s: string)
    ensures ClusterKeys(done + [s]) == ClusterKeys(done) + [MainKey(s), ReplacementKey(s)]
  {
    var a, b := ClusterKeys(done + [s]), ClusterKeys(done) + [MainKey(s), ReplacementKey(s)];
    assert |a| == |b|;
    forall k | 0 <= k < |a| ensures a[k] == b[k] {
      if k < 2 * |done| {
        assert (done + [s])[k / 2] == done[k / 2];
      } else {
        assert k / 2 == |done|;
      }
    }
  }

  // ----- the whole map -----

  /** The map composed from the three collections, or the first failure. The map
      is created, centred on the stations, before anything else is looked up. */
  function CreateMapSpec(stations: seq<StationRow>, buffers: seq<BufferRow>, clusters: seq<ClusterRow>): Result<MapDocument, MapError>
  {
    var names := FirstAppearance(StationNames(stations));
    var sorted := SortByRange(buffers);
    var clusterStations := FirstAppearance(ClusterStations(clusters));
    if stations == [] then Err(NoStations)
    else
    match FirstBufferError(sorted, names)
    case Some(e) => Err(e)
    case None =>
      match FirstClusterError(clusterStations, StationNames(stations))
      case Some(e) => Err(e)
      case None =>
        Ok(MapDocument(Tiles, ZoomStart, Legend(stations),
          MarkerChildren(stations)
          + RangeGroupChildren(names, sorted)
          + ClusterGroupChildren(stations, clusters, names, clusterStations)
          + [LayerControl(false)]))
  }
}
