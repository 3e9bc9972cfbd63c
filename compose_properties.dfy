/**
 * What a composed map promises: when composition succeeds and how it fails, the
 * order of the map's children, where each buffer and each cluster ends up and how
 * it is drawn, and the legend's layout.
 */
module ComposeProperties {
  import opened MapTypes
  import opened Styles
  import opened Labels
  import opened Ordering
  import opened ComposeSpec

  // ----- success and failure -----

  /** The distinct cluster stations are exactly the stations some cluster names. */
  lemma ClusterStationsCover(clusters: seq<ClusterRow>)
    ensures forall s :: s in FirstAppearance(ClusterStations(clusters)) <==> exists c :: c in clusters && c.station == s
  {
    var col := ClusterStations(clusters);
    forall s ensures s in col <==> exists c :: c in clusters && c.station == s {
      if s in col {
        var i :| 0 <= i < |col| && col[i] == s;
        assert clusters[i] in clusters;
      }
      if exists c :: c in clusters && c.station == s {
        var c :| c in clusters && c.station == s;
        var i :| 0 <= i < |clusters| && clusters[i] == c;
        assert col[i] == s;
      }
    }
  }

  /** Composition succeeds exactly when there is a station row, every buffer's range
      has a style row and its station a row, and every cluster's station has a row. */
  lemma CreateMapSucceedsIff(stations: seq<StationRow>, buffers: seq<BufferRow>, clusters: seq<ClusterRow>)
    ensures CreateMapSpec(stations, buffers, clusters).Ok? <==>
      && stations != []
      && (forall b :: b in buffers ==> b.km in RangeKms && b.station in StationNames(stations))
      && (forall c :: c in clusters ==> c.station in StationNames(stations))
  {
    if stations != [] {
      var names := FirstAppearance(StationNames(stations));
      SortByRangeMembers(buffers);
      ClusterStationsCover(clusters);
      assert BuffersValid(SortByRange(buffers), names) <==>
        forall b :: b in buffers ==> b.km in RangeKms && b.station in StationNames(stations);
    }
  }

  /** A failure names the offending value: an unknown range is some buffer's range,
      a missing range group some valid-range buffer's station, a missing station row
      some cluster's station. The stations are needed first, then buffers are checked
      before clusters. */
  lemma CreateMapFailureNamesOffender(stations: seq<StationRow>, buffers: seq<BufferRow>, clusters: seq<ClusterRow>)
    requires CreateMapSpec(stations, buffers, clusters).Err?
    ensures var e := CreateMapSpec(stations, buffers, clusters).error;
      match e
      case NoStations => stations == []
      case UnknownRange(km) =>
        km !in RangeKms && exists b :: b in buffers && b.km == km
      case NoRangeGroup(s) =>
        s !in StationNames(stations) && exists b :: b in buffers && b.station == s && b.km in RangeKms
      case NoStationRow(s) =>
        && s !in StationNames(stations) && (exists c :: c in clusters && c.station == s)
        && forall b :: b in buffers ==> b.km in RangeKms && b.station in StationNames(stations)
  {
    if stations != [] {
      var names := FirstAppearance(StationNames(stations));
      var sorted := SortByRange(buffers);
      SortByRangeMembers(buffers);
      ClusterStationsCover(clusters);
      match FirstBufferError(sorted, names)
      case Some(e) =>
        var b :| b in sorted && BufferError(b, names) == Some(e);
        assert b in buffers;
      case None =>
    }
  }

  /** A buffer with an unknown range or an unknown station makes composition fail,
      whatever the clusters are, and not with a cluster's error: with a buffer's
      error when there are stations, and with no stations otherwise. */
  lemma BufferErrorsComeFirst(stations: seq<StationRow>, buffers: seq<BufferRow>, clusters: seq<ClusterRow>, b: BufferRow)
    requires b in buffers && (b.km !in RangeKms || b.station !in StationNames(stations))
    ensures CreateMapSpec(stations, buffers, clusters).Err?
    ensures !CreateMapSpec(stations, buffers, clusters).error.NoStationRow?
    ensures stations != [] ==>
      CreateMapSpec(stations, buffers, clusters).error.UnknownRange?
      || CreateMapSpec(stations, buffers, clusters).error.NoRangeGroup?
  {
    CreateMapSucceedsIff(stations, buffers, clusters);
    CreateMapFailureNamesOffender(stations, buffers, clusters);
  }

  // ----- the map's children -----

  /** A composed map is the legend and, in order, the markers, the range groups, the
      cluster groups and the layer control. */
  lemma CreateMapParts(stations: seq<StationRow>, buffers: seq<BufferRow>, clusters: seq<ClusterRow>)
    requires CreateMapSpec(stations, buffers, clusters).Ok?
    ensures var names := FirstAppearance(StationNames(stations));
      && RangesKnown(SortByRange(buffers))
      && (forall s :: s in names ==> s in StationNames(stations))
      && CreateMapSpec(stations, buffers, clusters).value == MapDocument(Tiles, ZoomStart, Legend(stations),
           MarkerChildren(stations) + RangeGroupChildren(names, SortByRange(buffers))
           + ClusterGroupChildren(stations, clusters, names, FirstAppearance(ClusterStations(clusters)))
           + [LayerControl(false)])
  {
  }

  /** The name of the p-th group of the map: the range groups in order, then each
      station's main and replacement cluster groups. */
  function GroupNameAt(names: seq<string>, p: nat): string
    requires p < 3 * |names|
  {
    if p < |names| then RangeGroupName(names[p])
    else ClusterGroupName(KindAt(p - |names|), names[(p - |names|) / 2])
  }

  /** The names of the map's groups, in the order they are added. */
  function GroupNames(names: seq<string>): (r: seq<string>)
    ensures |r| == 3 * |names|
  {
    seq(3 * |names|, p requires 0 <= p < 3 * |names| => GroupNameAt(names, p))
  }

  /** The range groups followed by the cluster groups carry the names GroupNames lists. */
  lemma GroupChildrenNames(stations: seq<StationRow>, clusters: seq<ClusterRow>, names: seq<string>,
                           sorted: seq<BufferRow>, done: seq<string>)
    requires RangesKnown(sorted)
    requires forall s :: s in names ==> s in StationNames(stations)
    ensures var g, groupNames := RangeGroupChildren(names, sorted) + ClusterGroupChildren(stations, clusters, names, done), GroupNames(names);
      && |g| == |groupNames|
      && forall p :: 0 <= p < |g| ==> g[p].GroupChild? && g[p].group.name == groupNames[p]
  {
    var ranges, groups := RangeGroupChildren(names, sorted), ClusterGroupChildren(stations, clusters, names, done);
    var g, n := ranges + groups, |names|;
    forall p | 0 <= p < 3 * n
      ensures g[p].GroupChild? && g[p].group.name == GroupNames(names)[p]
    {
      if p >= n {
        var k := p - n;
        assert g[p] == groups[k];
        assert names[k / 2] in names;
      }
    }
  }

  /** The map's children in order: one marker per station row, one group per entry
      of groupNames carrying that name, then an expanded layer control. */
  ghost predicate LaidOut(children: seq<MapChild>, stations: seq<StationRow>, groupNames: seq<string>)
  {
    var m := |stations|;
    && |children| == m + |groupNames| + 1
    && (forall i :: 0 <= i < m ==> children[i] == MarkerChild(StationMarker(stations[i])))
    && (forall p :: 0 <= p < |groupNames| ==> children[m + p].GroupChild? && children[m + p].group.name == groupNames[p])
    && children[m + |groupNames|] == LayerControl(false)
  }

  /** A composed map has the fixed base and the legend, and its children are the
      markers, one range group per distinct station, then a main and a replacement
      cluster group per distinct station, then the layer control. */
  lemma DocumentLayout(stations: seq<StationRow>, buffers: seq<BufferRow>, clusters: seq<ClusterRow>)
    requires CreateMapSpec(stations, buffers, clusters).Ok?
    ensures var doc := CreateMapSpec(stations, buffers, clusters).value;
      && doc.tiles == "OpenStreetMap" && doc.zoomStart == 10 && doc.legend == Legend(stations)
      && LaidOut(doc.children, stations, GroupNames(FirstAppearance(StationNames(stations))))
  {
    var doc, names := CreateMapSpec(stations, buffers, clusters).value, FirstAppearance(StationNames(stations));
    CreateMapParts(stations, buffers, clusters);
    var sorted, cs := SortByRange(buffers), FirstAppearance(ClusterStations(clusters));
    var g := RangeGroupChildren(names, sorted) + ClusterGroupChildren(stations, clusters, names, cs);
    GroupChildrenNames(stations, clusters, names, sorted, cs);
    assert doc.children == MarkerChildren(stations) + g + [LayerControl(false)];
    ChildrenLayout(doc.children, stations, GroupNames(names), g);
  }

  /** Where markers, groups and the layer control sit among the map's children. */
  lemma ChildrenLayout(children: seq<MapChild>, stations: seq<StationRow>, groupNames: seq<string>, g: seq<MapChild>)
    requires children == MarkerChildren(stations) + g + [LayerControl(false)]
    requires |g| == |groupNames|
    requires forall p :: 0 <= p < |g| ==> g[p].GroupChild? && g[p].group.name == groupNames[p]
    ensures LaidOut(children, stations, groupNames)
  {
    var markers := MarkerChildren(stations);
    forall i | 0 <= i < |markers|
      ensures children[i] == MarkerChild(StationMarker(stations[i]))
    {
      assert children[i] == markers[i];
    }
    forall p | 0 <= p < |g|
      ensures children[|markers| + p] == g[p]
    {
    }
  }

  /** Different groups have different names, so the layer control lists three
      toggles per distinct station and no two coincide. */
  lemma GroupNamesUnique(names: seq<string>)
    requires Distinct(names)
    ensures Distinct(GroupNames(names))
  {
    var r := GroupNames(names);
    forall p, q | 0 <= p < q < |r|
      ensures r[p] != r[q]
    {
      GroupNameAtDiffers(names, p, q);
    }
  }

  lemma GroupNameAtDiffers(names: seq<string>, p: nat, q: nat)
    requires Distinct(names)
    requires p < q < 3 * |names|
    ensures GroupNameAt(names, p) != GroupNameAt(names, q)
  {
    var n := |names|;
    if q < n {
      GroupNamesDistinct(names[p], names[q]);
    } else if p < n {
      var j := (q - n) / 2;
      GroupNamesDistinct(names[p], names[j]);
      match KindAt(q - n)
      case MainClusters =>
        assert GroupNameAt(names, q) == MainGroupName(names[j]);
      case ReplacementClusters =>
        assert GroupNameAt(names, q) == ReplacementGroupName(names[j]);
    } else {
      ClusterGroupNamesDiffer(names, p - n, q - n);
    }
  }

  lemma ClusterGroupNamesDiffer(names: seq<string>, k1: nat, k2: nat)
    requires Distinct(names)
    requires k1 < k2 < 2 * |names|
    ensures ClusterGroupName(KindAt(k1), names[k1 / 2]) != ClusterGroupName(KindAt(k2), names[k2 / 2])
  {
    var i, j := k1 / 2, k2 / 2;
    GroupNamesDistinct(names[i], names[j]);
    GroupNamesDistinct(names[j], names[i]);
    if i == j {
      assert k1 == 2 * i && k2 == 2 * i + 1;
    }
  }

  /** No two groups among the children share a name. */
  ghost predicate GroupNamesOnce(children: seq<MapChild>)
  {
    forall i, j :: 0 <= i < j < |children| && children[i].GroupChild? && children[j].GroupChild? ==>
      children[i].group.name != children[j].group.name
  }

  /** Children laid out with distinct group names name each group once. */
  lemma LaidOutGroupsUnique(children: seq<MapChild>, stations: seq<StationRow>, groupNames: seq<string>)
    requires Distinct(groupNames) && LaidOut(children, stations, groupNames)
    ensures GroupNamesOnce(children)
  {
    var m := |stations|;
    forall i, j | 0 <= i < j < |children| && children[i].GroupChild? && children[j].GroupChild?
      ensures children[i].group.name != children[j].group.name
    {
      GroupIndexRange(children, stations, groupNames, i);
      GroupIndexRange(children, stations, groupNames, j);
    }
  }

  lemma GroupIndexRange(children: seq<MapChild>, stations: seq<StationRow>, groupNames: seq<string>, i: nat)
    requires LaidOut(children, stations, groupNames)
    requires i < |children| && children[i].GroupChild?
    ensures |stations| <= i < |stations| + |groupNames|
    ensures children[i].group.name == groupNames[i - |stations|]
  {
    assert children[|stations| + (i - |stations|)] == children[i];
  }

  /** In a composed map every group name occurs once. */
  lemma DocumentGroupNamesUnique(stations: seq<StationRow>, buffers: seq<BufferRow>, clusters: seq<ClusterRow>)
    requires CreateMapSpec(stations, buffers, clusters).Ok?
    ensures GroupNamesOnce(CreateMapSpec(stations, buffers, clusters).value.children)
  {
    var doc, names := CreateMapSpec(stations, buffers, clusters).value, FirstAppearance(StationNames(stations));
    DocumentLayout(stations, buffers, clusters);
    GroupNamesUnique(names);
    LaidOutGroupsUnique(doc.children, stations, GroupNames(names));
  }

  // ----- buffers -----

  /** A range group holds exactly the layers of its own station's buffers. */
  lemma {:induction false} RangeLayersMembers(bs: seq<BufferRow>, s: string)
    requires RangesKnown(bs)
    ensures forall l :: l in RangeLayers(bs, s) <==> exists b :: b in bs && b.station == s && l == BufferLayerOf(b)
  {
    if bs != [] {
      var init, last := bs[..|bs| - 1], bs[|bs| - 1];
      assert bs == init + [last];
      RangeLayersMembers(init, s);
      forall l | exists b :: b in bs && b.station == s && l == BufferLayerOf(b)
        ensures l in RangeLayers(bs, s)
      {
        var b :| b in bs && b.station == s && l == BufferLayerOf(b);
        if b != last {
          assert b in init;
        }
      }
    }
  }

  /** The layer of a buffer: its geometry, drawn in its own colour with its range's
      style, named after its station and range. */
  lemma BufferLayerShows(b: BufferRow)
    requires b.km in RangeKms
    ensures var l := BufferLayerOf(b);
      && l.geometry == b.geometry && l.popupStation == b.station && l.popupKm == b.km
      && l.style.fillColor == b.originalColor && l.style.color == b.originalColor && l.style.weight == 2
      && l.style.fillOpacity == RangeStyleOf(b.km).value.fillOpacity
      && (l.style.dashArray.None? <==> b.km == 20)
      && l.tooltip == RangeTooltip(b.station, b.km)
  {
  }

  /** Buffer layers, no layer following a narrower one. */
  predicate WidestFirst(ls: seq<Layer>)
  {
    forall i, j :: 0 <= i < j < |ls| ==> ls[i].BufferLayer? && ls[j].BufferLayer? && ls[i].popupKm >= ls[j].popupKm
  }

  /** Within a range group, the wider rings come first. */
  lemma {:induction false} RangeLayersWidestFirst(bs: seq<BufferRow>, s: string)
    requires RangesKnown(bs) && DescendingByKm(bs)
    ensures WidestFirst(RangeLayers(bs, s))
  {
    if bs != [] {
      var init, last := bs[..|bs| - 1], bs[|bs| - 1];
      assert bs == init + [last];
      assert DescendingByKm(init);
      RangeLayersWidestFirst(init, s);
      EarlierLayersWider(init, last, s);
      var li, ls := RangeLayers(init, s), RangeLayers(bs, s);
      assert ls == li + if last.station == s then [BufferLayerOf(last)] else [];
      forall i, j | 0 <= i < j < |ls|
        ensures ls[i].BufferLayer? && ls[j].BufferLayer? && ls[i].popupKm >= ls[j].popupKm
      {
        assert ls[i] == li[i] && li[i] in li;
        if j >= |li| {
          assert ls[j] == BufferLayerOf(last) && ls[j].popupKm == last.km;
        } else {
          assert ls[j] == li[j];
        }
      }
    }
  }

  /** The layers of the buffers before a narrower one are all at least as wide. */
  lemma EarlierLayersWider(init: seq<BufferRow>, last: BufferRow, s: string)
    requires RangesKnown(init + [last]) && DescendingByKm(init + [last])
    ensures forall l :: l in RangeLayers(init, s) ==> l.BufferLayer? && l.popupKm >= last.km
  {
    var bs := init + [last];
    assert RangesKnown(init);
    RangeLayersMembers(init, s);
    forall l | l in RangeLayers(init, s)
      ensures l.BufferLayer? && l.popupKm >= last.km
    {
      var b :| b in init && b.station == s && l == BufferLayerOf(b);
      var k :| 0 <= k < |init| && init[k] == b;
      assert bs[k] == b && bs[|init|] == last;
    }
  }

  /** Every layer of a range group is drawn with its own range's opacity. */
  lemma RangeLayersStyled(bs: seq<BufferRow>, s: string)
    requires RangesKnown(bs)
    ensures forall l :: l in RangeLayers(bs, s) ==>
      && l.BufferLayer? && l.popupKm in RangeKms
      && l.style.fillOpacity == RangeStyleOf(l.popupKm).value.fillOpacity
  {
    RangeLayersMembers(bs, s);
  }

  /** So narrower, more opaque rings are drawn on top of wider, more transparent ones. */
  lemma RangeLayersOpacityRises(bs: seq<BufferRow>, s: string)
    requires RangesKnown(bs) && DescendingByKm(bs)
    ensures var ls := RangeLayers(bs, s);
      forall i, j :: 0 <= i < j < |ls| ==> ls[i].style.fillOpacity <= ls[j].style.fillOpacity
  {
    var ls := RangeLayers(bs, s);
    RangeLayersWidestFirst(bs, s);
    RangeLayersStyled(bs, s);
    forall i, j | 0 <= i < j < |ls|
      ensures ls[i].style.fillOpacity <= ls[j].style.fillOpacity
    {
      assert ls[i] in ls && ls[j] in ls;
      assert ls[i].popupKm >= ls[j].popupKm;
      if ls[i].popupKm != ls[j].popupKm {
        RangeOpacityDecreases(ls[j].popupKm, ls[i].popupKm);
      }
    }
  }

  /** The number of buffer layers over the range groups of names. */
  function TotalRangeLayers(names: seq<string>, bs: seq<BufferRow>): nat
    requires RangesKnown(bs)
  {
    if names == [] then 0 else |RangeLayers(bs, names[0])| + TotalRangeLayers(names[1..], bs)
  }

  /** One more buffer adds one layer over the groups of distinct names when its
      station is among them, and none otherwise. */
  lemma {:induction false} TotalRangeLayersStep(names: seq<string>, init: seq<BufferRow>, last: BufferRow)
    requires Distinct(names) && RangesKnown(init + [last])
    ensures TotalRangeLayers(names, init + [last]) == TotalRangeLayers(names, init) + if last.station in names then 1 else 0
  {
    var bs := init + [last];
    assert bs[..|bs| - 1] == init && bs[|bs| - 1] == last;
    if names != [] {
      assert Distinct(names[1..]);
      TotalRangeLayersStep(names[1..], init, last);
      assert last.station in names <==> last.station == names[0] || last.station in names[1..];
      if last.station == names[0] {
        assert names[0] !in names[1..];
      }
    }
  }

  /** Over all range groups, a valid collection of buffers gives one layer per buffer
      row; `RangeLayersCount` says which. */
  lemma {:induction false} RangeLayersPartition(names: seq<string>, bs: seq<BufferRow>)
    requires Distinct(names) && BuffersValid(bs, names)
    ensures TotalRangeLayers(names, bs) == |bs|
  {
    if bs == [] {
      TotalRangeLayersEmpty(names);
    } else {
      var init, last := bs[..|bs| - 1], bs[|bs| - 1];
      assert bs == init + [last];
      RangeLayersPartition(names, init);
      TotalRangeLayersStep(names, init, last);
    }
  }

  lemma {:induction false} TotalRangeLayersEmpty(names: seq<string>)
    ensures TotalRangeLayers(names, []) == 0
  {
    if names != [] {
      TotalRangeLayersEmpty(names[1..]);
    }
  }

  /** A buffer's layer shows its geometry, its colour, its station and its range, so
      different buffers never share a layer. */
  lemma BufferLayerOfInjective(b1: BufferRow, b2: BufferRow)
    requires b1.km in RangeKms && b2.km in RangeKms
    requires BufferLayerOf(b1) == BufferLayerOf(b2)
    ensures b1 == b2
  {
    assert b1.originalColor == BufferLayerOf(b1).style.fillColor;
  }

  /** A station's range group holds a buffer's layer as often as the buffer occurs
      among the added buffers when the buffer is that station's, and never otherwise. */
  lemma {:induction false} RangeLayersCount(bs: seq<BufferRow>, s: string, b: BufferRow)
    requires RangesKnown(bs) && b.km in RangeKms
    ensures multiset(RangeLayers(bs, s))[BufferLayerOf(b)] == if b.station == s then multiset(bs)[b] else 0
  {
    if bs != [] {
      var init, last := bs[..|bs| - 1], bs[|bs| - 1];
      assert bs == init + [last];
      RangeLayersCount(init, s, b);
      var added := if last.station == s then [BufferLayerOf(last)] else [];
      assert RangeLayers(bs, s) == RangeLayers(init, s) + added;
      assert multiset(RangeLayers(bs, s)) == multiset(RangeLayers(init, s)) + multiset(added);
      assert multiset(bs) == multiset(init) + multiset{last};
      if BufferLayerOf(last) == BufferLayerOf(b) {
        BufferLayerOfInjective(last, b);
      }
    }
  }

  /** When every buffer fits (as in a composed map), each buffer's layer is in its
      own station's range group and no other, as often as the buffer occurs, and the
      range groups hold one layer per buffer row. */
  lemma BuffersDrawnOnce(names: seq<string>, buffers: seq<BufferRow>)
    requires Distinct(names)
    requires forall b :: b in buffers ==> b.km in RangeKms && b.station in names
    ensures var sorted := SortByRange(buffers);
      && RangesKnown(sorted)
      && (forall s, b :: b in buffers ==> (BufferLayerOf(b) in RangeLayers(sorted, s) <==> b.station == s))
      && (forall s, b :: b in buffers ==>
            multiset(RangeLayers(sorted, s))[BufferLayerOf(b)] == if b.station == s then multiset(buffers)[b] else 0)
      && TotalRangeLayers(names, sorted) == |buffers|
  {
    var sorted := SortByRange(buffers);
    SortByRangeMembers(buffers);
    forall s, b | b in buffers
      ensures multiset(RangeLayers(sorted, s))[BufferLayerOf(b)] == if b.station == s then multiset(buffers)[b] else 0
    {
      RangeLayersCount(sorted, s, b);
    }
    forall s, b | b in buffers
      ensures BufferLayerOf(b) in RangeLayers(sorted, s) <==> b.station == s
    {
      RangeLayersMembers(sorted, s);
      if BufferLayerOf(b) in RangeLayers(sorted, s) {
        var b' :| b' in sorted && b'.station == s && BufferLayerOf(b) == BufferLayerOf(b');
      }
    }
    RangeLayersPartition(names, sorted);
    assert |multiset(sorted)| == |multiset(buffers)|;
  }

  // ----- clusters -----

  /** The types that have a cluster group. */
  predicate Drawable(c: ClusterRow)
  {
    c.clusterType == "main" || c.clusterType == "replacement"
  }

  /** The colour a station's clusters are drawn in is the colour of the first
      station row with that name. */
  lemma ColorOfFirstRow(stations: seq<StationRow>, s: string)
    requires s in StationNames(stations)
    ensures exists i :: (0 <= i < |stations| && stations[i].name == s && ColorOf(stations, s) == stations[i].color
                         && forall j :: 0 <= j < i ==> stations[j].name != s)
  {
    var names := StationNames(stations);
    var i := FirstIndex(names, s);
    assert stations[i].name == s && ColorOf(stations, s) == stations[i].color;
    forall j | 0 <= j < i
      ensures stations[j].name != s
    {
      assert names[j] != s;
    }
  }

  /** A cluster is drawn in a group when some layer of the group holds it. */
  predicate DrawnIn(c: ClusterRow, g: FeatureGroup)
  {
    exists l :: l in g.layers && l.ClusterLayer? && c in l.features
  }

  /** A station's cluster group of one kind, once the station was processed, holds
      one layer: the station's clusters of that kind, in the station's colour and the
      kind's style, with the fixed tooltip fields. */
  lemma ClusterGroupContents(stations: seq<StationRow>, clusters: seq<ClusterRow>, done: seq<string>,
                             s: string, kind: ClusterKind)
    requires s in StationNames(stations) && s in done
    ensures var g := ClusterGroup(stations, clusters, done, s, kind);
      && g.name == ClusterGroupName(kind, s) && |g.layers| == 1 && g.layers[0].ClusterLayer?
      && g.layers[0].style == ClusterStyle(kind, ColorOf(stations, s))
      && g.layers[0].tooltipFields == ClusterTooltipFields
      && (forall c :: c in g.layers[0].features <==> c in clusters && c.station == s && c.clusterType == KindName(kind))
      && forall c ::
           multiset(g.layers[0].features)[c] == if c.station == s && c.clusterType == KindName(kind) then multiset(clusters)[c] else 0
  {
    ClustersOfCount(clusters, s, KindName(kind));
  }

  /** The k-th cluster group draws a cluster exactly when the cluster belongs to
      that group's station and its type is that group's kind. */
  lemma ClusterDrawnInGroup(stations: seq<StationRow>, clusters: seq<ClusterRow>, names: seq<string>,
                            done: seq<string>, c: ClusterRow, k: nat)
    requires forall s :: s in names ==> s in StationNames(stations)
    requires c in clusters && c.station in done
    requires k < 2 * |names|
    ensures var g := ClusterGroupChildren(stations, clusters, names, done)[k];
      g.GroupChild? && (DrawnIn(c, g.group) <==> c.station == names[k / 2] && c.clusterType == KindName(KindAt(k)))
  {
    var s := names[k / 2];
    assert s in names;
    var g := ClusterGroupChildren(stations, clusters, names, done)[k].group;
    assert g == ClusterGroup(stations, clusters, done, s, KindAt(k));
    if c.station == s {
      ClusterGroupContents(stations, clusters, done, s, KindAt(k));
      if c.clusterType == KindName(KindAt(k)) {
        assert c in g.layers[0].features;
      }
    }
  }

  /** A cluster whose station was processed is drawn in exactly one cluster group
      when its type is "main" or "replacement", and in none otherwise. */
  lemma ClusterDrawnOnce(stations: seq<StationRow>, clusters: seq<ClusterRow>, names: seq<string>,
                         done: seq<string>, c: ClusterRow)
    requires Distinct(names) && forall s :: s in names ==> s in StationNames(stations)
    requires c in clusters && c.station in done && c.station in names
    ensures var groups := ClusterGroupChildren(stations, clusters, names, done);
      && ((exists k :: 0 <= k < |groups| && DrawnIn(c, groups[k].group)) <==> Drawable(c))
      && forall k1, k2 :: 0 <= k1 < k2 < |groups| ==> !(DrawnIn(c, groups[k1].group) && DrawnIn(c, groups[k2].group))
  {
    var groups := ClusterGroupChildren(stations, clusters, names, done);
    var i := FirstIndex(names, c.station);
    if Drawable(c) {
      var k := if c.clusterType == "main" then 2 * i else 2 * i + 1;
      ClusterDrawnInGroup(stations, clusters, names, done, c, k);
    }
    forall k | 0 <= k < |groups| && DrawnIn(c, groups[k].group)
      ensures Drawable(c)
    {
      ClusterDrawnInGroup(stations, clusters, names, done, c, k);
    }
    forall k1, k2 | 0 <= k1 < k2 < |groups|
      ensures !(DrawnIn(c, groups[k1].group) && DrawnIn(c, groups[k2].group))
    {
      ClusterDrawnInOneGroup(stations, clusters, names, done, c, k1, k2);
    }
  }

  lemma ClusterDrawnInOneGroup(stations: seq<StationRow>, clusters: seq<ClusterRow>, names: seq<string>,
                               done: seq<string>, c: ClusterRow, k1: nat, k2: nat)
    requires Distinct(names) && forall s :: s in names ==> s in StationNames(stations)
    requires c in clusters && c.station in done
    requires k1 < k2 < 2 * |names|
    ensures var groups := ClusterGroupChildren(stations, clusters, names, done);
      !(DrawnIn(c, groups[k1].group) && DrawnIn(c, groups[k2].group))
  {
    ClusterDrawnInGroup(stations, clusters, names, done, c, k1);
    ClusterDrawnInGroup(stations, clusters, names, done, c, k2);
    var i, j := k1 / 2, k2 / 2;
    if names[i] == names[j] {
      assert i == j;
      assert KindAt(k1) == MainClusters && KindAt(k2) == ReplacementClusters;
      KindNamesDistinct(KindAt(k1), KindAt(k2));
    }
  }

  /** Range groups hold buffer layers only, so they draw no cluster. */
  lemma RangeGroupsDrawNoCluster(names: seq<string>, sorted: seq<BufferRow>, c: ClusterRow)
    requires RangesKnown(sorted)
    ensures var ranges := RangeGroupChildren(names, sorted);
      forall i :: 0 <= i < |ranges| ==> ranges[i].GroupChild? && !DrawnIn(c, ranges[i].group)
  {
    var ranges := RangeGroupChildren(names, sorted);
    forall i | 0 <= i < |ranges|
      ensures ranges[i].GroupChild? && !DrawnIn(c, ranges[i].group)
    {
      RangeLayersStyled(sorted, names[i]);
    }
  }

  /** The groups of children made of markers, range groups, cluster groups and a
      layer control that draw c are cluster groups. */
  lemma DrawnAmongChildren(children: seq<MapChild>, markers: seq<MapChild>, ranges: seq<MapChild>,
                           groups: seq<MapChild>, c: ClusterRow)
    requires children == markers + ranges + groups + [LayerControl(false)]
    requires forall i :: 0 <= i < |markers| ==> markers[i].MarkerChild?
    requires forall i :: 0 <= i < |ranges| ==> ranges[i].GroupChild? && !DrawnIn(c, ranges[i].group)
    requires forall k :: 0 <= k < |groups| ==> groups[k].GroupChild?
    ensures (exists p :: 0 <= p < |children| && children[p].GroupChild? && DrawnIn(c, children[p].group))
        <==> (exists k :: 0 <= k < |groups| && DrawnIn(c, groups[k].group))
  {
    var offset := |markers| + |ranges|;
    if exists p :: 0 <= p < |children| && children[p].GroupChild? && DrawnIn(c, children[p].group) {
      var p :| 0 <= p < |children| && children[p].GroupChild? && DrawnIn(c, children[p].group);
      if p >= offset {
        assert children[p] == groups[p - offset];
      }
    }
    if exists k :: 0 <= k < |groups| && DrawnIn(c, groups[k].group) {
      var k :| 0 <= k < |groups| && DrawnIn(c, groups[k].group);
      assert children[offset + k] == groups[k];
    }
  }

  /** In a composed map, every cluster's station is a distinct station name and a
      processed cluster station. */
  lemma ComposedClusterStation(stations: seq<StationRow>, buffers: seq<BufferRow>, clusters: seq<ClusterRow>, c: ClusterRow)
    requires CreateMapSpec(stations, buffers, clusters).Ok?
    requires c in clusters
    ensures c.station in FirstAppearance(StationNames(stations))
    ensures c.station in FirstAppearance(ClusterStations(clusters))
  {
    CreateMapSucceedsIff(stations, buffers, clusters);
    ClusterStationsCover(clusters);
  }

  /** In a composed map, a cluster is drawn exactly when its type is "main" or
      "replacement". */
  lemma DocumentClustersDrawn(stations: seq<StationRow>, buffers: seq<BufferRow>, clusters: seq<ClusterRow>, c: ClusterRow)
    requires CreateMapSpec(stations, buffers, clusters).Ok?
    requires c in clusters
    ensures var doc := CreateMapSpec(stations, buffers, clusters).value;
      (exists p :: 0 <= p < |doc.children| && doc.children[p].GroupChild? && DrawnIn(c, doc.children[p].group))
        <==> Drawable(c)
  {
    var doc := CreateMapSpec(stations, buffers, clusters).value;
    var names, sorted, cs := FirstAppearance(StationNames(stations)), SortByRange(buffers), FirstAppearance(ClusterStations(clusters));
    CreateMapParts(stations, buffers, clusters);
    ComposedClusterStation(stations, buffers, clusters, c);
    var markers, ranges, groups :=
      MarkerChildren(stations), RangeGroupChildren(names, sorted), ClusterGroupChildren(stations, clusters, names, cs);
    ClusterDrawnOnce(stations, clusters, names, cs, c);
    RangeGroupsDrawNoCluster(names, sorted, c);
    DrawnAmongChildren(doc.children, markers, ranges, groups, c);
  }

  /** No two groups among children made of markers, range groups, cluster groups and
      a layer control draw c when no two cluster groups do. */
  lemma DrawnOnceAmongChildren(children: seq<MapChild>, markers: seq<MapChild>, ranges: seq<MapChild>,
                               groups: seq<MapChild>, c: ClusterRow)
    requires children == markers + ranges + groups + [LayerControl(false)]
    requires forall i :: 0 <= i < |markers| ==> markers[i].MarkerChild?
    requires forall i :: 0 <= i < |ranges| ==> ranges[i].GroupChild? && !DrawnIn(c, ranges[i].group)
    requires forall k :: 0 <= k < |groups| ==> groups[k].GroupChild?
    requires forall k1, k2 :: 0 <= k1 < k2 < |groups| ==> !(DrawnIn(c, groups[k1].group) && DrawnIn(c, groups[k2].group))
    ensures forall p1, p2 :: 0 <= p1 < p2 < |children| && children[p1].GroupChild? && children[p2].GroupChild? ==>
      !(DrawnIn(c, children[p1].group) && DrawnIn(c, children[p2].group))
  {
    var offset := |markers| + |ranges|;
    assert forall i :: 0 <= i < |markers| ==> children[i] == markers[i];
    assert forall i :: |markers| <= i < offset ==> children[i] == ranges[i - |markers|];
    assert forall i :: offset <= i < |children| - 1 ==> children[i] == groups[i - offset];
    forall p1, p2 | 0 <= p1 < p2 < |children| && children[p1].GroupChild? && children[p2].GroupChild? && DrawnIn(c, children[p1].group)
      ensures !DrawnIn(c, children[p2].group)
    {
      assert offset <= p1 && p2 < |children| - 1;
      assert children[p1] == groups[p1 - offset] && children[p2] == groups[p2 - offset];
    }
  }

  /** In a composed map, no two groups draw the same cluster row. */
  lemma DocumentClusterDrawnOnce(stations: seq<StationRow>, buffers: seq<BufferRow>, clusters: seq<ClusterRow>, c: ClusterRow)
    requires CreateMapSpec(stations, buffers, clusters).Ok?
    requires c in clusters
    ensures var doc := CreateMapSpec(stations, buffers, clusters).value;
      forall p1, p2 :: 0 <= p1 < p2 < |doc.children| && doc.children[p1].GroupChild? && doc.children[p2].GroupChild? ==>
        !(DrawnIn(c, doc.children[p1].group) && DrawnIn(c, doc.children[p2].group))
  {
    var doc := CreateMapSpec(stations, buffers, clusters).value;
    var names, sorted, cs := FirstAppearance(StationNames(stations)), SortByRange(buffers), FirstAppearance(ClusterStations(clusters));
    CreateMapParts(stations, buffers, clusters);
    ComposedClusterStation(stations, buffers, clusters, c);
    var markers, ranges, groups :=
      MarkerChildren(stations), RangeGroupChildren(names, sorted), ClusterGroupChildren(stations, clusters, names, cs);
    ClusterDrawnOnce(stations, clusters, names, cs, c);
    RangeGroupsDrawNoCluster(names, sorted, c);
    DrawnOnceAmongChildren(doc.children, markers, ranges, groups, c);
  }

  // ----- every cluster row, counted -----

  /** The cluster rows the layers draw, counted with multiplicity. */
  function LayerFeatures(ls: seq<Layer>): multiset<ClusterRow>
  {
    if ls == [] then multiset{}
    else
      var last := ls[|ls| - 1];
      LayerFeatures(ls[..|ls| - 1]) + if last.ClusterLayer? then multiset(last.features) else multiset{}
  }

  /** The cluster rows the groups among children draw, counted with multiplicity. */
  function ChildrenFeatures(children: seq<MapChild>): multiset<ClusterRow>
  {
    if children == [] then multiset{}
    else
      var last := children[|children| - 1];
      ChildrenFeatures(children[..|children| - 1]) + if last.GroupChild? then LayerFeatures(last.group.layers) else multiset{}
  }

  lemma {:induction false} ChildrenFeaturesAppend(a: seq<MapChild>, b: seq<MapChild>)
    ensures ChildrenFeatures(a + b) == ChildrenFeatures(a) + ChildrenFeatures(b)
    decreases |b|
  {
    if b == [] {
      assert a + b == a;
    } else {
      var init := b[..|b| - 1];
      assert (a + b)[..|a + b| - 1] == a + init;
      ChildrenFeaturesAppend(a, init);
    }
  }

  /** Two more groups add what their layers draw. */
  lemma ChildrenFeaturesPair(prev: seq<MapChild>, g1: FeatureGroup, g2: FeatureGroup)
    ensures ChildrenFeatures(prev + [GroupChild(g1), GroupChild(g2)])
      == ChildrenFeatures(prev) + LayerFeatures(g1.layers) + LayerFeatures(g2.layers)
  {
    var pair := [GroupChild(g1), GroupChild(g2)];
    ChildrenFeaturesAppend(prev, pair);
    assert pair[..1] == [GroupChild(g1)] && [GroupChild(g1)][..0] == [];
    assert ChildrenFeatures([GroupChild(g1)]) == LayerFeatures(g1.layers);
    assert ChildrenFeatures(pair) == ChildrenFeatures([GroupChild(g1)]) + LayerFeatures(g2.layers);
  }

  /** Layers without a cluster layer draw no cluster row. */
  lemma {:induction false} NoClusterLayerNoFeatures(ls: seq<Layer>)
    requires forall l :: l in ls ==> !l.ClusterLayer?
    ensures LayerFeatures(ls) == multiset{}
  {
    if ls != [] {
      assert ls[|ls| - 1] in ls;
      NoClusterLayerNoFeatures(ls[..|ls| - 1]);
    }
  }

  /** Children whose groups hold no cluster layer draw no cluster row. */
  lemma {:induction false} NoClusterGroupNoFeatures(children: seq<MapChild>)
    requires forall i :: 0 <= i < |children| && children[i].GroupChild? ==>
      forall l :: l in children[i].group.layers ==> !l.ClusterLayer?
    ensures ChildrenFeatures(children) == multiset{}
  {
    if children != [] {
      var last := children[|children| - 1];
      if last.GroupChild? {
        NoClusterLayerNoFeatures(last.group.layers);
      }
      NoClusterGroupNoFeatures(children[..|children| - 1]);
    }
  }

  /** The rows of the stations of names whose type has a group, station by station. */
  function StationClusterRows(clusters: seq<ClusterRow>, names: seq<string>): multiset<ClusterRow>
  {
    if names == [] then multiset{}
    else
      var s := names[|names| - 1];
      StationClusterRows(clusters, names[..|names| - 1])
      + multiset(ClustersOf(clusters, s, "main")) + multiset(ClustersOf(clusters, s, "replacement"))
  }

  /** Over distinct stations, each row whose station is among them and whose type has a
      group is counted as often as it occurs, and no other row is. */
  lemma {:induction false} StationClusterRowsCount(clusters: seq<ClusterRow>, names: seq<string>)
    requires Distinct(names)
    ensures forall c ::
      StationClusterRows(clusters, names)[c] == if c.station in names && Drawable(c) then multiset(clusters)[c] else 0
  {
    if names != [] {
      var init, s := names[..|names| - 1], names[|names| - 1];
      assert names == init + [s];
      assert Distinct(init);
      StationClusterRowsCount(clusters, init);
      ClustersOfCount(clusters, s, "main");
      ClustersOfCount(clusters, s, "replacement");
      assert s !in init by {
        forall j | 0 <= j < |init| ensures init[j] != s {
          assert names[j] == init[j];
        }
      }
    }
  }

  /** Adding one more station adds its main and its replacement group. */
  lemma ClusterGroupChildrenAppend(stations: seq<StationRow>, clusters: seq<ClusterRow>,
                                   names: seq<string>, s: string, done: seq<string>)
    requires forall t :: t in names + [s] ==> t in StationNames(stations)
    ensures ClusterGroupChildren(stations, clusters, names + [s], done) ==
      ClusterGroupChildren(stations, clusters, names, done)
      + [GroupChild(ClusterGroup(stations, clusters, done, s, MainClusters)),
         GroupChild(ClusterGroup(stations, clusters, done, s, ReplacementClusters))]
  {
    var a := ClusterGroupChildren(stations, clusters, names + [s], done);
    var b := ClusterGroupChildren(stations, clusters, names, done)
      + [GroupChild(ClusterGroup(stations, clusters, done, s, MainClusters)),
         GroupChild(ClusterGroup(stations, clusters, done, s, ReplacementClusters))];
    forall k | 0 <= k < |a| ensures a[k] == b[k] {
      if k < 2 * |names| {
        assert (names + [s])[k / 2] == names[k / 2];
      } else {
        assert k / 2 == |names|;
      }
    }
  }

  /** A station's cluster group of one kind draws exactly its clusters of that kind,
      once the station was processed or when no cluster names it. */
  lemma ClusterGroupFeatures(stations: seq<StationRow>, clusters: seq<ClusterRow>, done: seq<string>,
                             s: string, kind: ClusterKind)
    requires s in StationNames(stations)
    requires s in done || forall c :: c in clusters ==> c.station != s
    ensures LayerFeatures(ClusterGroup(stations, clusters, done, s, kind).layers)
      == multiset(ClustersOf(clusters, s, KindName(kind)))
  {
    var ls := ClusterGroup(stations, clusters, done, s, kind).layers;
    var r := ClustersOf(clusters, s, KindName(kind));
    if s in done {
      assert ls[..0] == [];
    } else {
      ClustersOfCount(clusters, s, KindName(kind));
      assert forall c :: multiset(r)[c] == 0;
      assert multiset(r) == multiset{};
    }
  }

  /** The cluster groups of distinct stations draw, together, each station's rows of
      the two grouped types. */
  lemma {:induction false} ClusterGroupsFeatures(stations: seq<StationRow>, clusters: seq<ClusterRow>,
                                                 names: seq<string>, done: seq<string>)
    requires forall s :: s in names ==> s in StationNames(stations)
    requires forall s :: s in names && s !in done ==> forall c :: c in clusters ==> c.station != s
    ensures ChildrenFeatures(ClusterGroupChildren(stations, clusters, names, done)) == StationClusterRows(clusters, names)
  {
    if names != [] {
      var init, s := names[..|names| - 1], names[|names| - 1];
      assert names == init + [s];
      var prev := ClusterGroupChildren(stations, clusters, init, done);
      ClusterGroupsFeatures(stations, clusters, init, done);
      ClusterGroupChildrenAppend(stations, clusters, init, s, done);
      var gm := ClusterGroup(stations, clusters, done, s, MainClusters);
      var gr := ClusterGroup(stations, clusters, done, s, ReplacementClusters);
      ChildrenFeaturesPair(prev, gm, gr);
      ClusterGroupFeatures(stations, clusters, done, s, MainClusters);
      ClusterGroupFeatures(stations, clusters, done, s, ReplacementClusters);
      assert StationClusterRows(clusters, names) == StationClusterRows(clusters, init)
        + multiset(ClustersOf(clusters, s, "main")) + multiset(ClustersOf(clusters, s, "replacement"));
    }
  }

  /** Markers, range groups and cluster groups followed by a layer control draw what
      the cluster groups draw, when the markers and range groups draw nothing. */
  lemma AssembledFeatures(children: seq<MapChild>, markers: seq<MapChild>, ranges: seq<MapChild>, groups: seq<MapChild>)
    requires children == markers + ranges + groups + [LayerControl(false)]
    requires ChildrenFeatures(markers) == multiset{} && ChildrenFeatures(ranges) == multiset{}
    ensures ChildrenFeatures(children) == ChildrenFeatures(groups)
  {
    ChildrenFeaturesAppend(markers, ranges);
    ChildrenFeaturesAppend(markers + ranges, groups);
    ChildrenFeaturesAppend(markers + ranges + groups, [LayerControl(false)]);
    assert [LayerControl(false)][..0] == [];
  }

  /** In a composed map, every cluster row whose type is "main" or "replacement" is
      drawn as often as it occurs among the clusters, and no other row is drawn. */
  lemma DocumentClusterRows(stations: seq<StationRow>, buffers: seq<BufferRow>, clusters: seq<ClusterRow>)
    requires CreateMapSpec(stations, buffers, clusters).Ok?
    ensures var doc := CreateMapSpec(stations, buffers, clusters).value;
      forall c :: ChildrenFeatures(doc.children)[c] == if Drawable(c) then multiset(clusters)[c] else 0
  {
    var doc := CreateMapSpec(stations, buffers, clusters).value;
    var names, sorted, cs := FirstAppearance(StationNames(stations)), SortByRange(buffers), FirstAppearance(ClusterStations(clusters));
    CreateMapParts(stations, buffers, clusters);
    var markers, ranges, groups :=
      MarkerChildren(stations), RangeGroupChildren(names, sorted), ClusterGroupChildren(stations, clusters, names, cs);
    NoClusterGroupNoFeatures(markers);
    forall i | 0 <= i < |ranges| && ranges[i].GroupChild?
      ensures forall l :: l in ranges[i].group.layers ==> !l.ClusterLayer?
    {
      RangeLayersStyled(sorted, names[i]);
    }
    NoClusterGroupNoFeatures(ranges);
    AssembledFeatures(doc.children, markers, ranges, groups);
    ClusterStationsCover(clusters);
    ClusterGroupsFeatures(stations, clusters, names, cs);
    StationClusterRowsCount(clusters, names);
    forall c | c in clusters ensures c.station in names {
      ComposedClusterStation(stations, buffers, clusters, c);
    }
  }

  // ----- range groups of a composed map -----

  /** A group's rings are widest first and its opacity never falls from one ring to
      the next, so narrower rings are drawn on top. */
  ghost predicate RingsInOrder(g: FeatureGroup)
  {
    && WidestFirst(g.layers)
    && forall j, k :: 0 <= j < k < |g.layers| ==> g.layers[j].style.fillOpacity <= g.layers[k].style.fillOpacity
  }

  /** Every range group of distinct stations keeps its rings in order. */
  lemma RangeGroupsInOrder(names: seq<string>, sorted: seq<BufferRow>)
    requires RangesKnown(sorted) && DescendingByKm(sorted)
    ensures var ranges := RangeGroupChildren(names, sorted);
      forall i :: 0 <= i < |ranges| ==>
        ranges[i].GroupChild? && ranges[i].group.name == RangeGroupName(names[i]) && RingsInOrder(ranges[i].group)
  {
    var ranges := RangeGroupChildren(names, sorted);
    forall i | 0 <= i < |ranges|
      ensures RingsInOrder(ranges[i].group)
    {
      assert ranges[i].group.layers == RangeLayers(sorted, names[i]);
      RangeLayersWidestFirst(sorted, names[i]);
      RangeLayersOpacityRises(sorted, names[i]);
    }
  }

  /** Range groups placed right after the markers keep their names and ring order. */
  lemma RangeGroupsAfterMarkers(children: seq<MapChild>, markers: seq<MapChild>, ranges: seq<MapChild>,
                                rest: seq<MapChild>, names: seq<string>)
    requires children == markers + ranges + rest && |ranges| == |names|
    requires forall i :: 0 <= i < |ranges| ==>
      ranges[i].GroupChild? && ranges[i].group.name == RangeGroupName(names[i]) && RingsInOrder(ranges[i].group)
    ensures forall i :: 0 <= i < |names| ==>
      && children[|markers| + i].GroupChild?
      && children[|markers| + i].group.name == RangeGroupName(names[i])
      && RingsInOrder(children[|markers| + i].group)
  {
    forall i | 0 <= i < |names|
      ensures children[|markers| + i] == ranges[i]
    {
    }
  }

  /** In a composed map, the i-th child after the markers is the range group of the
      i-th distinct station, with its rings in order. */
  lemma DocumentRangeGroupsInOrder(stations: seq<StationRow>, buffers: seq<BufferRow>, clusters: seq<ClusterRow>)
    requires CreateMapSpec(stations, buffers, clusters).Ok?
    ensures var doc, names := CreateMapSpec(stations, buffers, clusters).value, FirstAppearance(StationNames(stations));
      forall i :: 0 <= i < |names| ==>
        && doc.children[|stations| + i].GroupChild?
        && doc.children[|stations| + i].group.name == RangeGroupName(names[i])
        && RingsInOrder(doc.children[|stations| + i].group)
  {
    var doc, names := CreateMapSpec(stations, buffers, clusters).value, FirstAppearance(StationNames(stations));
    var sorted := SortByRange(buffers);
    CreateMapParts(stations, buffers, clusters);
    var markers, ranges := MarkerChildren(stations), RangeGroupChildren(names, sorted);
    var rest := ClusterGroupChildren(stations, clusters, names, FirstAppearance(ClusterStations(clusters))) + [LayerControl(false)];
    assert |markers| == |stations|;
    RangeGroupsInOrder(names, sorted);
    RangeGroupsAfterMarkers(doc.children, markers, ranges, rest, names);
  }

  // ----- legend -----

  /** The legend: a heading, one key per station row in row order, the two cluster
      kinds, and exactly the ranges the style table has a row for. */
  lemma LegendLayout(stations: seq<StationRow>)
    ensures var legend := Legend(stations);
      && |legend| == |stations| + 9
      && legend[0] == Heading("Radio Stations")
      && (forall i :: 0 <= i < |stations| ==> legend[1 + i] == StationKey(stations[i].name, stations[i].color))
      && ClusterKey(MainClusters) in legend && ClusterKey(ReplacementClusters) in legend
      && forall km :: RangeKey(km) in legend <==> RangeStyleOf(km).Some?
  {
    var legend := Legend(stations);
    var keys := StationKeys(stations);
    assert legend == [Heading("Radio Stations")] + keys + ClusterSection + RangeSection;
    forall i | 0 <= i < |stations|
      ensures legend[1 + i] == StationKey(stations[i].name, stations[i].color)
    {
      assert legend[1 + i] == keys[i];
    }
    assert legend[|stations| + 2] == ClusterKey(MainClusters) && legend[|stations| + 3] == ClusterKey(ReplacementClusters);
    forall km
      ensures RangeKey(km) in legend <==> RangeStyleOf(km).Some?
    {
      if km in RangeKms {
        assert legend[|stations| + 5 + (if km == 20 then 0 else if km == 25 then 1 else if km == 40 then 2 else 3)] == RangeKey(km);
      }
    }
  }
}
