/**
 * The values that flow through map composition: the three input collections
 * (station locations, coverage buffers, sampled clusters), the styles and layers
 * derived from them, and the composed map document.
 *
 * Geometries are opaque identifiers (the composer never looks inside one), colours
 * are strings, and opacities are whole tenths (0.4 is written 4).
 */
module MapTypes {

  datatype Option<+T> = None | Some(value: T)

  datatype Result<+T, +E> = Ok(value: T) | Err(error: E)

  /** An opaque reference to a point or polygon of the input collections. */
  type GeometryId = nat

  /** A row of the station-location collection. */
  datatype StationRow = StationRow(name: string, color: string, location: GeometryId)

  /** A row of the station-buffer collection: one assumed coverage ring of one station. */
  datatype BufferRow = BufferRow(station: string, km: int, originalColor: string, geometry: GeometryId)

  /** A row of the sampled-cluster collection. */
  datatype ClusterRow = ClusterRow(station: string, clusterType: string, populationCount: int, geometry: GeometryId)

  /** A row of the buffer style table, keyed by `buffer_km`. */
  datatype RangeStyle = RangeStyle(fillOpacity: nat, dashArray: Option<string>, weight: nat)

  /** What a GeoJSON layer's style function returns. A missing `dashArray` key and an
      explicit None are both `None` (both draw a solid outline). */
  datatype PathStyle = PathStyle(fillColor: string, color: string, fillOpacity: nat, dashArray: Option<string>, weight: nat)

  /** A GeoJSON layer put into a feature group: one buffer polygon, or the whole
      subset of one station's clusters of one type. */
  datatype Layer =
    | BufferLayer(geometry: GeometryId, style: PathStyle, tooltip: string, popupStation: string, popupKm: int)
    | ClusterLayer(features: seq<ClusterRow>, style: PathStyle, tooltipFields: seq<string>)

  /** A named, independently toggleable bundle of layers. */
  datatype FeatureGroup = FeatureGroup(name: string, layers: seq<Layer>)

  /** A station marker; its icon is always white with the station colour inside. */
  datatype Marker = Marker(location: GeometryId, popup: string, tooltip: string, iconColor: string)

  /** A child added directly to the map, in insertion order. */
  datatype MapChild =
    | MarkerChild(marker: Marker)
    | GroupChild(group: FeatureGroup)
    | LayerControl(collapsed: bool)

  datatype ClusterKind = MainClusters | ReplacementClusters

  /** An abstract legend line. */
  datatype LegendEntry =
    | Heading(title: string)
    | StationKey(name: string, color: string)
    | ClusterKey(kind: ClusterKind)
    | RangeKey(km: int)

  /** The composed map: base tiles, initial zoom, the legend attached to the page,
      and the children of the map in the order they were added. */
  datatype MapDocument = MapDocument(tiles: string, zoomStart: nat, legend: seq<LegendEntry>, children: seq<MapChild>)

  /** Why composing a map fails: no station row to centre the map on (the mean of
      an empty coordinate column is not a number, which the map refuses as its
      location), a `buffer_km` the style table has no row for, a buffer whose station
      has no range group, or a cluster station with no row in the station-location
      collection. */
  datatype MapError =
    | NoStations
    | UnknownRange(km: int)
    | NoRangeGroup(station: string)
    | NoStationRow(station: string)
}
