/**
 * Map composition step by step: the legend is appended to row by row, the two
 * group dictionaries are created and then filled buffer by buffer and station by
 * station, and markers, groups and the layer control are added to the map in
 * turn. Each phase is proved to produce what ComposeSpec describes.
 */
module Compose {
  import opened MapTypes
  import opened Styles
  import opened Labels
  import opened Ordering
  import opened OrderedDicts
  import opened ComposeSpec

  /** The legend: a heading, one key per station row, then the fixed sections. */
  method BuildLegend(stations: seq<StationRow>) returns (legend: seq<LegendEntry>)
    ensures legend == Legend(stations)
  {
    legend := [Heading("Radio Stations")];
    for i := 0 to |stations|
      invariant legend == [Heading("Radio Stations")] + StationKeys(stations[..i])
    {
      assert StationKeys(stations[..i + 1]) == StationKeys(stations[..i]) + [StationKey(stations[i].name, stations[i].color)];
      legend := legend + [StationKey(stations[i].name, stations[i].color)];
    }
    assert stations[..|stations|] == stations;
    legend := legend + ClusterSection;
    legend := legend + RangeSection;
  }

  /** The range-group dictionary holds an empty group for each of names, in order. */
  ghost predicate EmptyRangeGroups(d: OrderedDict<FeatureGroup>, names: seq<string>)
  {
    && d.Valid() && d.keys == names
    && forall s :: s in names ==> d.entries[s] == FeatureGroup(RangeGroupName(s), [])
  }

  /** The cluster-group dictionary holds an empty main and an empty replacement group
      for each of names, in order. */
  ghost predicate EmptyClusterGroups(d: OrderedDict<FeatureGroup>, names: seq<string>)
  {
    d.Valid() && d.keys == ClusterKeys(names) && EmptyClusterEntries(d.entries, names)
  }

  ghost predicate EmptyClusterEntries(entries: map<string, FeatureGroup>, names: seq<string>)
  {
    forall s :: s in names ==>
      && MainKey(s) in entries && ReplacementKey(s) in entries
      && entries[MainKey(s)] == FeatureGroup(MainGroupName(s), [])
      && entries[ReplacementKey(s)] == FeatureGroup(ReplacementGroupName(s), [])
  }

  lemma EmptyClusterEntriesStep(entries: map<string, FeatureGroup>, done: seq<string>, s: string)
    requires EmptyClusterEntries(entries, done)
    ensures EmptyClusterEntries(entries[MainKey(s) := FeatureGroup(MainGroupName(s), [])]
                                       [ReplacementKey(s) := FeatureGroup(ReplacementGroupName(s), [])], done + [s])
  {
    var e := entries[MainKey(s) := FeatureGroup(MainGroupName(s), [])][ReplacementKey(s) := FeatureGroup(ReplacementGroupName(s), [])];
    ClusterKeysDistinct(s, s);
    forall t | t in done + [s]
      ensures MainKey(t) in e && ReplacementKey(t) in e
      ensures e[MainKey(t)] == FeatureGroup(MainGroupName(t), [])
      ensures e[ReplacementKey(t)] == FeatureGroup(ReplacementGroupName(t), [])
    {
      if t != s {
        assert t in done;
        ClusterKeysDistinct(s, t);
        ClusterKeysDistinct(t, s);
      }
    }
  }

  lemma EmptyClusterGroupsStep(d: OrderedDict<FeatureGroup>, done: seq<string>, s: string)
    requires EmptyClusterGroups(d, done) && s !in done
    ensures EmptyClusterGroups(d.Put(MainKey(s), FeatureGroup(MainGroupName(s), []))
                                .Put(ReplacementKey(s), FeatureGroup(ReplacementGroupName(s), [])), done + [s])
  {
    ClusterKeysFresh(done, s);
    ClusterKeysDistinct(s, s);
    ClusterKeysAppend(done, s);
    EmptyClusterEntriesStep(d.entries, done, s);
  }

  /** One empty range group per distinct station, and an empty main and replacement
      group per distinct station keyed by suffixed names. */
  method CreateGroups(names: seq<string>) returns (rangeGroups: OrderedDict<FeatureGroup>, clusterGroups: OrderedDict<FeatureGroup>)
    requires Distinct(names)
    ensures EmptyRangeGroups(rangeGroups, names)
    ensures EmptyClusterGroups(clusterGroups, names)
  {
    rangeGroups := EmptyDict();
    clusterGroups := EmptyDict();
    for i := 0 to |names|
      invariant EmptyRangeGroups(rangeGroups, names[..i])
      invariant EmptyClusterGroups(clusterGroups, names[..i])
    {
      var s := names[i];
      assert names[..i + 1] == names[..i] + [s];
      assert s !in names[..i];
      EmptyClusterGroupsStep(clusterGroups, names[..i], s);
      rangeGroups := rangeGroups.Put(s, FeatureGroup(RangeGroupName(s), []));
      clusterGroups := clusterGroups.Put(MainKey(s), FeatureGroup(MainGroupName(s), []));
      clusterGroups := clusterGroups.Put(ReplacementKey(s), FeatureGroup(ReplacementGroupName(s), []));
    }
    assert names[..|names|] == names;
  }

  /** The range-group dictionary holds, for each of names, the group as it is once
      every buffer of sorted was added. */
  ghost predicate FilledRangeGroups(d: OrderedDict<FeatureGroup>, names: seq<string>, sorted: seq<BufferRow>)
  {
    && d.Valid() && d.keys == names && RangesKnown(sorted)
    && forall s :: s in names ==> d.entries[s] == FeatureGroup(RangeGroupName(s), RangeLayers(sorted, s))
  }

  /** Adds the buffers, in the given order, to the range groups of their stations. */
  method AddBuffers(sorted: seq<BufferRow>, names: seq<string>, groups0: OrderedDict<FeatureGroup>)
    returns (r: Result<OrderedDict<FeatureGroup>, MapError>)
    requires EmptyRangeGroups(groups0, names)
    ensures r.Err? <==> FirstBufferError(sorted, names).Some?
    ensures r.Err? ==> FirstBufferError(sorted, names) == Some(r.error)
    ensures r.Ok? ==> FilledRangeGroups(r.value, names, sorted)
  {
    var groups := groups0;
    for i := 0 to |sorted|
      invariant groups.Valid() && groups.keys == names
      invariant FirstBufferError(sorted[..i], names).None?
      invariant forall s :: s in names ==> groups.entries[s] == FeatureGroup(RangeGroupName(s), RangeLayers(sorted[..i], s))
    {
      var b := sorted[i];
      assert sorted[..i + 1][..i] == sorted[..i];
      var style := RangeStyleOf(b.km);
      if style.None? {
        FirstBufferErrorPersists(sorted, i + 1, names);
        return Err(UnknownRange(b.km));
      }
      if b.station !in groups.entries {
        FirstBufferErrorPersists(sorted, i + 1, names);
        return Err(NoRangeGroup(b.station));
      }
      var g := groups.entries[b.station];
      var layer := BufferLayer(b.geometry, BufferStyle(b.originalColor, style.value),
                               RangeTooltip(b.station, b.km), b.station, b.km);
      groups := groups.Put(b.station, FeatureGroup(g.name, g.layers + [layer]));
    }
    assert sorted[..|sorted|] == sorted;
    r := Ok(groups);
  }

  /** Once a prefix of the buffers fails, the whole sequence fails the same way. */
  lemma {:induction false} FirstBufferErrorPersists(bs: seq<BufferRow>, k: nat, names: seq<string>)
    requires k <= |bs|
    requires FirstBufferError(bs[..k], names).Some?
    ensures FirstBufferError(bs, names) == FirstBufferError(bs[..k], names)
    decreases |bs| - k
  {
    if k < |bs| {
      assert bs[..k + 1][..k] == bs[..k];
      FirstBufferErrorPersists(bs, k + 1, names);
    } else {
      assert bs[..k] == bs;
    }
  }

  /** The cluster-group dictionary holds, for each of names, the main and the
      replacement group as they are once the cluster stations in done were added. */
  ghost predicate FilledClusterGroups(d: OrderedDict<FeatureGroup>, stations: seq<StationRow>,
                                      clusters: seq<ClusterRow>, names: seq<string>, done: seq<string>)
  {
    && d.Valid() && d.keys == ClusterKeys(names)
    && (forall s :: s in names ==> s in StationNames(stations))
    && forall s :: s in names ==>
      && MainKey(s) in d.entries && ReplacementKey(s) in d.entries
      && d.entries[MainKey(s)] == ClusterGroup(stations, clusters, done, s, MainClusters)
      && d.entries[ReplacementKey(s)] == ClusterGroup(stations, clusters, done, s, ReplacementClusters)
  }

  /** Adding station s's two layers to its two groups advances the dictionary by s. */
  lemma FilledClusterGroupsStep(d: OrderedDict<FeatureGroup>, stations: seq<StationRow>,
                                clusters: seq<ClusterRow>, names: seq<string>, done: seq<string>, s: string)
    requires FilledClusterGroups(d, stations, clusters, names, done)
    requires s in names && s !in done
    ensures MainKey(s) in d.entries && ReplacementKey(s) in d.entries
    ensures var gm, gr := d.entries[MainKey(s)], d.entries[ReplacementKey(s)];
      var d' := d.Put(MainKey(s), FeatureGroup(gm.name, gm.layers + [ClusterLayerOf(stations, clusters, s, MainClusters)]));
      FilledClusterGroups(d'.Put(ReplacementKey(s), FeatureGroup(gr.name, gr.layers + [ClusterLayerOf(stations, clusters, s, ReplacementClusters)])),
                          stations, clusters, names, done + [s])
  {
    ClusterKeysDistinct(s, s);
    var gm, gr := d.entries[MainKey(s)], d.entries[ReplacementKey(s)];
    var d1 := d.Put(MainKey(s), FeatureGroup(gm.name, gm.layers + [ClusterLayerOf(stations, clusters, s, MainClusters)]));
    var d2 := d1.Put(ReplacementKey(s), FeatureGroup(gr.name, gr.layers + [ClusterLayerOf(stations, clusters, s, ReplacementClusters)]));
    forall t | t in names
      ensures d2.entries[MainKey(t)] == ClusterGroup(stations, clusters, done + [s], t, MainClusters)
      ensures d2.entries[ReplacementKey(t)] == ClusterGroup(stations, clusters, done + [s], t, ReplacementClusters)
    {
      ClusterKeysDistinct(s, t);
      ClusterKeysDistinct(t, s);
      assert t in done + [s] <==> t in done || t == s;
    }
  }

  /** Adds station s's main clusters to its main group and its replacement clusters
      to its replacement group, both in the colour of s's first station row. */
  method AddStationClusters(stations: seq<StationRow>, clusters: seq<ClusterRow>, names: seq<string>,
                            done: seq<string>, s: string, groups0: OrderedDict<FeatureGroup>)
    returns (groups: OrderedDict<FeatureGroup>)
    requires FilledClusterGroups(groups0, stations, clusters, names, done)
    requires s in names && s !in done
    ensures FilledClusterGroups(groups, stations, clusters, names, done + [s])
  {
    FilledClusterGroupsStep(groups0, stations, clusters, names, done, s);
    var color := ColorOf(stations, s);
    groups := groups0;
    var main := ClustersOf(clusters, s, "main");
    var gm := groups.entries[MainKey(s)];
    groups := groups.Put(MainKey(s), FeatureGroup(gm.name, gm.layers + [ClusterLayer(main, ClusterStyle(MainClusters, color), ClusterTooltipFields)]));
    var replacement := ClustersOf(clusters, s, "replacement");
    var gr := groups.entries[ReplacementKey(s)];
    groups := groups.Put(ReplacementKey(s), FeatureGroup(gr.name, gr.layers + [ClusterLayer(replacement, ClusterStyle(ReplacementClusters, color), ClusterTooltipFields)]));
  }

  /** Adds, station by station in order of first appearance among the clusters, each
      station's clusters to its two cluster groups; a cluster station without a
      station row fails. */
  method AddClusters(stations: seq<StationRow>, clusters: seq<ClusterRow>, names: seq<string>,
                     groups0: OrderedDict<FeatureGroup>)
    returns (r: Result<OrderedDict<FeatureGroup>, MapError>)
    requires names == FirstAppearance(StationNames(stations))
    requires EmptyClusterGroups(groups0, names)
    ensures r.Err? <==> FirstClusterError(FirstAppearance(ClusterStations(clusters)), StationNames(stations)).Some?
    ensures r.Err? ==> FirstClusterError(FirstAppearance(ClusterStations(clusters)), StationNames(stations)) == Some(r.error)
    ensures r.Ok? ==> FilledClusterGroups(r.value, stations, clusters, names, FirstAppearance(ClusterStations(clusters)))
  {
    var column := StationNames(stations);
    var cs := FirstAppearance(ClusterStations(clusters));
    var groups := groups0;
    assert FilledClusterGroups(groups, stations, clusters, names, cs[..0]);
    for j := 0 to |cs|
      invariant FirstClusterError(cs[..j], column).None?
      invariant FilledClusterGroups(groups, stations, clusters, names, cs[..j])
    {
      var s := cs[j];
      if s !in column {
        ClusterStationFails(cs, j, column);
        return Err(NoStationRow(s));
      }
      ClusterStationPasses(cs, j, column);
      groups := AddStationClusters(stations, clusters, names, cs[..j], s, groups);
    }
    assert cs[..|cs|] == cs;
    r := Ok(groups);
  }

  /** The first cluster station without a station row is the failure reported. */
  lemma ClusterStationFails(cs: seq<string>, j: nat, column: seq<string>)
    requires j < |cs| && FirstClusterError(cs[..j], column).None? && cs[j] !in column
    ensures FirstClusterError(cs, column) == Some(NoStationRow(cs[j]))
  {
    assert cs[..j + 1][..j] == cs[..j];
    FirstClusterErrorPersists(cs, j + 1, column);
  }

  /** A cluster station with a station row extends the prefix that has not failed. */
  lemma ClusterStationPasses(cs: seq<string>, j: nat, column: seq<string>)
    requires j < |cs| && FirstClusterError(cs[..j], column).None? && cs[j] in column
    requires Distinct(cs)
    ensures FirstClusterError(cs[..j + 1], column).None?
    ensures cs[..j + 1] == cs[..j] + [cs[j]] && cs[j] !in cs[..j]
  {
    assert cs[..j + 1][..j] == cs[..j];
  }

  /** Once a prefix of the cluster stations fails, the whole sequence fails the same way. */
  lemma {:induction false} FirstClusterErrorPersists(cs: seq<string>, k: nat, column: seq<string>)
    requires k <= |cs|
    requires FirstClusterError(cs[..k], column).Some?
    ensures FirstClusterError(cs, column) == FirstClusterError(cs[..k], column)
    decreases |cs| - k
  {
    if k < |cs| {
      assert cs[..k + 1][..k] == cs[..k];
      FirstClusterErrorPersists(cs, k + 1, column);
    } else {
      assert cs[..k] == cs;
    }
  }

  /** One marker per station row, in row order. */
  method AddMarkers(stations: seq<StationRow>) returns (children: seq<MapChild>)
    ensures children == MarkerChildren(stations)
  {
    children := [];
    for i := 0 to |stations|
      invariant children == MarkerChildren(stations[..i])
    {
      assert MarkerChildren(stations[..i + 1]) == MarkerChildren(stations[..i]) + [MarkerChild(StationMarker(stations[i]))];
      children := children + [MarkerChild(StationMarker(stations[i]))];
    }
    assert stations[..|stations|] == stations;
  }

  /** The groups of a dictionary in insertion order, as children of the map. */
  ghost function GroupChildren(d: OrderedDict<FeatureGroup>): (r: seq<MapChild>)
    requires d.Valid()
    ensures |r| == |d.keys|
    ensures forall i :: 0 <= i < |r| ==> r[i] == GroupChild(d.entries[d.keys[i]])
  {
    seq(|d.keys|, i requires 0 <= i < |d.keys| => GroupChild(d.entries[d.keys[i]]))
  }

  /** Adds every group of a dictionary to the map, in insertion order. */
  method AddGroups(children0: seq<MapChild>, groups: OrderedDict<FeatureGroup>) returns (children: seq<MapChild>)
    requires groups.Valid()
    ensures children == children0 + GroupChildren(groups)
  {
    ghost var all := GroupChildren(groups);
    children := children0;
    for i := 0 to |groups.keys|
      invariant children == children0 + all[..i]
    {
      assert all[..i + 1] == all[..i] + [all[i]];
      children := children + [GroupChild(groups.entries[groups.keys[i]])];
    }
    assert all[..|all|] == all;
  }

  /** Filled range groups are, in order, the range groups of the composed map. */
  lemma FilledRangeGroupChildren(d: OrderedDict<FeatureGroup>, names: seq<string>, sorted: seq<BufferRow>)
    requires FilledRangeGroups(d, names, sorted)
    ensures GroupChildren(d) == RangeGroupChildren(names, sorted)
  {
    var a, b := GroupChildren(d), RangeGroupChildren(names, sorted);
    forall i | 0 <= i < |a| ensures a[i] == b[i] {
      assert names[i] in names;
    }
  }

  /** Filled cluster groups are, in order, the cluster groups of the composed map. */
  lemma FilledClusterGroupChildren(d: OrderedDict<FeatureGroup>, stations: seq<StationRow>,
                                   clusters: seq<ClusterRow>, names: seq<string>, done: seq<string>)
    requires FilledClusterGroups(d, stations, clusters, names, done)
    ensures GroupChildren(d) == ClusterGroupChildren(stations, clusters, names, done)
  {
    var a, b := GroupChildren(d), ClusterGroupChildren(stations, clusters, names, done);
    forall k | 0 <= k < |a| ensures a[k] == b[k] {
      var s := names[k / 2];
      assert s in names;
      assert d.keys[k] == if k % 2 == 0 then MainKey(s) else ReplacementKey(s);
    }
  }

  /** Composes the map: legend, groups, buffers (widest first), clusters, then the
      markers, every range group, every cluster group and an expanded layer control
      are added to the map in that order. */
  method CreateMap(stations: seq<StationRow>, buffers: seq<BufferRow>, clusters: seq<ClusterRow>)
    returns (r: Result<MapDocument, MapError>)
    ensures r == CreateMapSpec(stations, buffers, clusters)
  {
    if |stations| == 0 {
      return Err(NoStations);
    }
    var legend := BuildLegend(stations);
    var names := FirstAppearance(StationNames(stations));
    var rangeGroups, clusterGroups := CreateGroups(names);

    var sorted := SortByRange(buffers);
    var withBuffers := AddBuffers(sorted, names, rangeGroups);
    if withBuffers.Err? {
      return Err(withBuffers.error);
    }
    rangeGroups := withBuffers.value;

    var withClusters := AddClusters(stations, clusters, names, clusterGroups);
    if withClusters.Err? {
      return Err(withClusters.error);
    }
    clusterGroups := withClusters.value;

    var children := AddMarkers(stations);
    FilledRangeGroupChildren(rangeGroups, names, sorted);
    children := AddGroups(children, rangeGroups);
    FilledClusterGroupChildren(clusterGroups, stations, clusters, names, FirstAppearance(ClusterStations(clusters)));
    children := AddGroups(children, clusterGroups);
    children := children + [LayerControl(false)];
    r := Ok(MapDocument(Tiles, ZoomStart, legend, children));
  }
}
