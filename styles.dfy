/**
 * The two closed style tables of map composition: one keyed by a buffer's
 * `buffer_km`, one keyed by a cluster's type.
 */
module Styles {
  import opened MapTypes

  /** The buffer sizes the range style table has a row for. */
  const RangeKms: set<int> := {20, 25, 40, 60}

  /** The range style table; any other `buffer_km` is a failed lookup. */
  function RangeStyleOf(km: int): (r: Option<RangeStyle>)
    ensures r.Some? <==> km in RangeKms
    ensures r.Some? ==> r.value.weight == 2
    ensures r.Some? ==> (r.value.dashArray.None? <==> km == 20)
  {
    match km
    case 20 => Some(RangeStyle(4, None, 2))
    case 25 => Some(RangeStyle(3, Some("5,5"), 2))
    case 40 => Some(RangeStyle(2, Some("10,10"), 2))
    case 60 => Some(RangeStyle(1, Some("2,8"), 2))
    case _ => None
  }

  /** A wider range is drawn more transparently than a narrower one. */
  lemma RangeOpacityDecreases(narrow: int, wide: int)
    requires narrow in RangeKms && wide in RangeKms
    requires narrow < wide
    ensures RangeStyleOf(narrow).value.fillOpacity > RangeStyleOf(wide).value.fillOpacity
  {
  }

  /** The style a buffer polygon is drawn with: its own colour for fill and outline. */
  function BufferStyle(color: string, row: RangeStyle): (p: PathStyle)
    ensures p.fillColor == color && p.color == color
  {
    PathStyle(color, color, row.fillOpacity, row.dashArray, row.weight)
  }

  /** The `cluster_type` value a kind of cluster is selected by. */
  function KindName(kind: ClusterKind): string
  {
    match kind
    case MainClusters => "main"
    case ReplacementClusters => "replacement"
  }

  /** The style of a station's clusters of one kind, in the station's colour. */
  function ClusterStyle(kind: ClusterKind, color: string): (p: PathStyle)
    ensures p.fillColor == color && p.color == color
  {
    match kind
    case MainClusters => PathStyle(color, color, 7, None, 2)
    case ReplacementClusters => PathStyle(color, color, 3, Some("5, 5"), 1)
  }

  /** Main clusters are drawn solid, heavier and more opaque; replacement clusters
      dashed, lighter and more transparent; the two kinds never share a style. */
  lemma ClusterStylesDistinguishKinds(color: string, other: string)
    ensures ClusterStyle(MainClusters, color).dashArray.None?
    ensures ClusterStyle(ReplacementClusters, color).dashArray.Some?
    ensures ClusterStyle(MainClusters, color).weight > ClusterStyle(ReplacementClusters, other).weight
    ensures ClusterStyle(MainClusters, color).fillOpacity > ClusterStyle(ReplacementClusters, other).fillOpacity
    ensures ClusterStyle(MainClusters, color) != ClusterStyle(ReplacementClusters, other)
  {
  }

  /** The two kind names differ, so a row is selected for at most one kind. */
  lemma KindNamesDistinct(k1: ClusterKind, k2: ClusterKind)
    ensures KindName(k1) == KindName(k2) <==> k1 == k2
  {
    assert "main"[0] != "replacement"[0];
  }
}
