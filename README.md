# Radio station coverage map: composition model

This project models `create_map` from the radio-station coverage app
(app/app.py). The function takes three collections:

- the station locations: a name, a colour and a point per row;
- the station buffers: a station, a `buffer_km` range, an original colour and a polygon per row;
- the sampled clusters: a station, a `cluster_type`, a population count and a polygon per row.

From them it builds a map document. That document has:

- an OpenStreetMap base at zoom 10;
- a legend with one line per station row, a "Sampled Clusters" section and an "Assumed Coverage Ranges" section;
- one station marker per station row, outside every feature group;
- one "Ranges <station>" feature group per distinct station. It holds that station's buffer polygons, widest range first, each styled from the closed `buffer_km` table.
- a "Main Clusters - <station>" and a "Replacement Clusters - <station>" group per distinct station. Each holds that station's clusters of that type, in the station's colour.
- an expanded layer control, added last.

Composition fails in four ways:

- no station row at all (`NoStations`). The map is centred on the mean of the station coordinates, the mean of an empty column is not a number, and the map refuses such a location before anything else is built;
- a buffer whose range is not in the style table (`UnknownRange`, the table lookup);
- a buffer whose station has no range group (`NoRangeGroup`, the group-dictionary lookup);
- a cluster station with no station row (`NoStationRow`, the colour lookup with `.iloc[0]`).

Modules:

- `MapTypes`: the rows, styles, layers, feature groups, map children, legend entries, the map document and the errors.
- `Styles`: the buffer style table and the two cluster styles. Opacities are whole tenths, so 0.4 is written 4.
- `Labels`: the strings built with f-strings (tooltips, group names, dictionary keys), and the facts that keep them apart.
- `Ordering`:
  - `FirstAppearance`, the distinct values of a column in order of first appearance (pandas `unique()`);
  - `SortByRange`, the buffers ordered by `buffer_km`, largest first.
- `OrderedDicts`: a dictionary that keeps its keys in insertion order, as Python's `dict` does.
- `ComposeSpec`: what composition produces, as functions of the three collections (`CreateMapSpec`).
- `Compose`: the composition itself, as methods with loops in the order the function runs:
  1. build the legend;
  2. create the groups;
  3. sort and add the buffers;
  4. add the clusters station by station;
  5. add the markers, then the range groups, then the cluster groups, then the layer control.

  `Compose.CreateMap` is proved to return exactly `CreateMapSpec`.
- `ComposeProperties`: what the composed map promises, proved about `CreateMapSpec`.

The model follows the code of `create_map`:

- The legend lists all four ranges whatever the data holds (app/app.py:64-71). It does not list only the ranges observed.
- A cluster whose type is neither `main` nor `replacement` is not drawn and causes no error (app/app.py:128, 145). It is not reported as a style failure.
- Each station has one range group holding all of its rings (app/app.py:79, 119). There is no group per ring.
- `create_map` has only the range, main-cluster and replacement-cluster roles. It has no station selection.

## Model

| member | source | states |
|---|---|---|
| Compose.CreateMap | app/app.py:27-185 | The method composes the map or fails, and its result equals `CreateMapSpec` on every input |
| Compose.BuildLegend | app/app.py:36-71 | The legend built line by line is the heading, one key per station row, the cluster section and the range section |
| Compose.CreateGroups | app/app.py:76-81 | For each distinct station, in first-appearance order: one empty range group keyed by the station, and empty main and replacement groups keyed `<station>_main` and `<station>_replacement` |
| Compose.EmptyClusterGroupsStep | app/app.py:80-81 | Putting a new station's two cluster keys keeps the dictionary's keys equal to `ClusterKeys` of the stations so far, with both groups empty |
| Compose.EmptyClusterEntriesStep | app/app.py:80-81 | After the two puts, every station so far still maps to its two empty, correctly named groups |
| Compose.AddBuffers | app/app.py:84-119 | Adding the sorted buffers fails exactly when some buffer fails, with `FirstBufferError`: the failure of the first failing buffer (an unknown range before a missing group). On success each station's range group holds exactly `RangeLayers` of the sorted buffers |
| Compose.FirstBufferErrorPersists | app/app.py:85-119 | Once a prefix of the buffers fails, the whole loop fails with the same error |
| Compose.FilledClusterGroupsStep | app/app.py:123-160 | Before a station is processed its two groups are still empty. Adding its two layers moves the dictionary to the state with that station processed, without touching other stations |
| Compose.AddStationClusters | app/app.py:124-160 | Adds the station's main clusters to its main group and its replacement clusters to its replacement group. Each goes in as one layer (`ClusterLayerOf`) in the station's colour |
| Compose.AddClusters | app/app.py:122-160 | Processing the distinct cluster stations fails exactly when one has no station row, naming the first such station. On success every processed station's two groups hold their layers |
| Compose.ClusterStationFails | app/app.py:124 | The first cluster station without a station row is the error reported |
| Compose.ClusterStationPasses | app/app.py:123-124 | A cluster station with a station row extends the prefix that has not failed, and has not been seen before |
| Compose.FirstClusterErrorPersists | app/app.py:123-124 | Once a prefix of the cluster stations fails, the whole loop fails with the same error |
| Compose.AddMarkers | app/app.py:163-174 | One marker (`StationMarker`) per station row, in row order, at the row's point, with its name as popup, the "Click to see" tooltip and its colour |
| Compose.AddGroups | app/app.py:177-180 | Adding the groups appends them to the map in the dictionary's insertion order |
| Compose.FilledRangeGroupChildren | app/app.py:177-178 | The filled range-group dictionary yields, in order, one range group per distinct station |
| Compose.FilledClusterGroupChildren | app/app.py:179-180 | The filled cluster-group dictionary yields, per distinct station, its main group and then its replacement group |
| ComposeSpec.FirstBufferError | app/app.py:85-119 | No error exactly when every buffer has a style row and a range group; otherwise the error is one some buffer causes |
| ComposeSpec.BufferError | app/app.py:89-119 | A buffer fails exactly when its range has no style row or its station no range group. An unknown range is reported whatever the station, because the style lookup comes first; a missing group only for a known range |
| ComposeSpec.FirstBufferErrorIsFirst | app/app.py:85-119 | The failure reported is that of a buffer all of whose predecessors in the sorted order fit |
| ComposeSpec.FirstClusterError | app/app.py:123-124 | No error exactly when every cluster station has a station row; otherwise the error names a cluster station without one |
| ComposeSpec.ClustersOf | app/app.py:125-145 | A station's clusters of one type are exactly the rows with that station and that type |
| ComposeSpec.ClustersOfCount | app/app.py:125-145 | The selection keeps each row with that station and type as often as it occurs among the clusters, and no other row |
| ComposeSpec.ClusterKeysCover | app/app.py:78-81 | Every distinct station has its main and its replacement key in the cluster-group dictionary |
| ComposeSpec.ClusterKeysFresh | app/app.py:78-81 | A station not yet processed has neither key in the dictionary, so each put adds a new key |
| ComposeSpec.ClusterKeysAppend | app/app.py:80-81 | Processing one more station appends its main key and then its replacement key |
| ComposeProperties.ClusterStationsCover | app/app.py:123 | The distinct cluster stations are exactly the stations some cluster row names |
| ComposeProperties.CreateMapSucceedsIff | app/app.py:29-124 | Composition succeeds if and only if there is a station row, every buffer's range is 20, 25, 40 or 60, every buffer's station has a station row, and every cluster's station has a station row |
| ComposeProperties.CreateMapFailureNamesOffender | app/app.py:29-124 | A failure names its offender: no stations only when there is no station row; an unknown range held by some buffer; a missing range group for some buffer whose range is known; or a cluster station without a row, and then every buffer was valid |
| ComposeProperties.BufferErrorsComeFirst | app/app.py:29-124 | A buffer with an unknown range or station makes composition fail whatever the clusters are, never with a cluster station's error: with a buffer error when there are station rows, and with no stations otherwise |
| ComposeProperties.GroupChildrenNames | app/app.py:76-180 | The groups after the markers are named "Ranges s" for each station, then "Main Clusters - s" and "Replacement Clusters - s" for each station |
| ComposeProperties.DocumentLayout | app/app.py:29-183 | A composed map has OpenStreetMap tiles, zoom 10 and the legend. Its children are one marker per station row, then the named groups, then an expanded layer control |
| ComposeProperties.ChildrenLayout | app/app.py:163-183 | Markers, then groups, then the layer control sit at the positions `LaidOut` describes |
| ComposeProperties.GroupNamesUnique | app/app.py:78-81 | With distinct stations, no two of the map's groups share a name |
| ComposeProperties.GroupNameAtDiffers | app/app.py:79-81 | Two different group positions carry different names |
| ComposeProperties.ClusterGroupNamesDiffer | app/app.py:80-81 | Two different cluster-group positions carry different names |
| ComposeProperties.LaidOutGroupsUnique | app/app.py:176-183 | Children laid out with distinct group names name each group once |
| ComposeProperties.GroupIndexRange | app/app.py:176-180 | A group child sits between the markers and the layer control, and carries the name listed for its position |
| ComposeProperties.DocumentGroupNamesUnique | app/app.py:78-183 | In a composed map, every group name in the layer control occurs once |
| ComposeProperties.RangeLayersMembers | app/app.py:85-119 | A station's range group (`RangeLayers`) holds a layer exactly for each of that station's buffers, and nothing else |
| ComposeProperties.BufferLayerShows | app/app.py:96-119 | A buffer's layer (`BufferLayerOf`) has its polygon, fill and outline in its original colour, its range's opacity, weight 2, a dash exactly when the range is not 20, and the tooltip and popup of its station and range |
| ComposeProperties.RangeLayersWidestFirst | app/app.py:84-119 | Within a range group, no ring follows a narrower ring, so a 60 km ring precedes a 20 km ring |
| ComposeProperties.EarlierLayersWider | app/app.py:84-119 | The layers added before a buffer are all at least as wide as it |
| ComposeProperties.RangeLayersStyled | app/app.py:89-104 | Every layer in a range group is a buffer layer with a known range, drawn with that range's opacity |
| ComposeProperties.RangeLayersOpacityRises | app/app.py:84-119 | Within a range group, opacity never falls from one layer to the next, so narrower, more opaque rings are drawn on top |
| ComposeProperties.TotalRangeLayersStep | app/app.py:85-119 | One more buffer adds one layer over all range groups exactly when its station has a group |
| ComposeProperties.RangeLayersPartition | app/app.py:85-119 | When every buffer is valid, the range groups together hold as many layers as there are buffer rows |
| ComposeProperties.TotalRangeLayersEmpty | app/app.py:76-79 | Before any buffer is added, the range groups hold no layers |
| ComposeProperties.BufferLayerOfInjective | app/app.py:96-119 | Different buffers never share a layer: the layer shows the buffer's geometry, colour, station and range |
| ComposeProperties.RangeLayersCount | app/app.py:85-119 | A station's range group holds a buffer's layer as often as the buffer occurs among the added buffers when the buffer is that station's, and never otherwise |
| ComposeProperties.BuffersDrawnOnce | app/app.py:84-119 | With valid buffers, each buffer's layer is in its own station's range group and in no other, as often as the buffer row occurs, and the groups hold one layer per buffer row |
| ComposeProperties.ColorOfFirstRow | app/app.py:124 | A station's clusters take, through `ColorOf`, the colour of the first station row with that name |
| ComposeProperties.ClusterGroupContents | app/app.py:125-160 | A processed station's group of one kind (`ClusterGroup`) holds one layer: exactly its clusters of that type, each as often as it occurs, in its colour and the kind's style, with the station, type and population tooltip |
| ComposeProperties.ClusterDrawnInGroup | app/app.py:128-160 | A cluster group draws a cluster exactly when the cluster belongs to the group's station and has the group's type |
| ComposeProperties.ClusterDrawnOnce | app/app.py:128-160 | A processed cluster is drawn in some cluster group exactly when its type is "main" or "replacement", and never in two |
| ComposeProperties.ClusterDrawnInOneGroup | app/app.py:142-160 | No two cluster groups both draw the same cluster |
| ComposeProperties.RangeGroupsDrawNoCluster | app/app.py:119 | Range groups hold only buffer layers, so they draw no cluster |
| ComposeProperties.DrawnAmongChildren | app/app.py:163-183 | Among the map's children, a cluster is drawn by some group exactly when it is drawn by some cluster group |
| ComposeProperties.ComposedClusterStation | app/app.py:123-124 | In a composed map, every cluster's station is a distinct station name and a processed cluster station |
| ComposeProperties.DocumentClustersDrawn | app/app.py:122-183 | In a composed map, a cluster row is drawn exactly when its type is "main" or "replacement" |
| ComposeProperties.DrawnOnceAmongChildren | app/app.py:163-183 | Among the map's children, no two groups draw the same cluster when no two cluster groups do |
| ComposeProperties.DocumentClusterDrawnOnce | app/app.py:122-183 | In a composed map, no two groups draw the same cluster row |
| ComposeProperties.StationClusterRowsCount | app/app.py:123-160 | Over distinct stations, the main and replacement selections together hold each row of those stations whose type is "main" or "replacement", as often as it occurs, and no other row |
| ComposeProperties.ClusterGroupChildrenAppend | app/app.py:78-81 | One more station adds its main group and then its replacement group |
| ComposeProperties.ClusterGroupFeatures | app/app.py:125-160 | A station's group of one kind draws exactly that station's rows of that type, once the station was processed or when no cluster names it |
| ComposeProperties.ClusterGroupsFeatures | app/app.py:123-160 | The cluster groups together draw, station by station, each station's main and replacement rows |
| ComposeProperties.AssembledFeatures | app/app.py:163-183 | Markers and range groups draw no cluster row, so the map draws what its cluster groups draw |
| ComposeProperties.DocumentClusterRows | app/app.py:122-183 | In a composed map, the groups together draw every "main" or "replacement" cluster row exactly as often as it occurs among the clusters, and no other row |
| ComposeProperties.RangeGroupsInOrder | app/app.py:84-119 | Every range group is named after its station, and its rings go widest first with opacity never falling |
| ComposeProperties.RangeGroupsAfterMarkers | app/app.py:163-178 | Range groups placed right after the markers keep their names and ring order |
| ComposeProperties.DocumentRangeGroupsInOrder | app/app.py:84-178 | In a composed map, the i-th child after the markers is the range group of the i-th distinct station. Its rings go widest first, so the 20 km ring is drawn over the 60 km ring |
| ComposeProperties.LegendLayout | app/app.py:45-71 | The legend (`Legend`) has a heading, one key per station row in row order, both cluster kinds, and a range key exactly for each range the style table has |
| Styles.RangeStyleOf | app/app.py:89-94 | The style lookup succeeds exactly for 20, 25, 40 and 60 km. Weight is always 2, and the dash is absent exactly for 20 km |
| Styles.RangeOpacityDecreases | app/app.py:90-93 | A wider range has a strictly lower fill opacity: 0.4, 0.3, 0.2, 0.1 |
| Styles.BufferStyle | app/app.py:98-104 | A buffer is filled and outlined in its own original colour |
| Styles.ClusterStyle | app/app.py:131-154 | A cluster layer is filled and outlined in the station's colour |
| Styles.ClusterStylesDistinguishKinds | app/app.py:131-154 | Main clusters are solid, heavier and more opaque than the dashed replacement clusters, and the two styles always differ |
| Styles.KindNamesDistinct | app/app.py:128-145 | The two type names (`KindName`) differ, so a row is selected for at most one kind |
| Labels.Decimal | app/app.py:109 | A number's decimal spelling is non-empty, and has one digit exactly when the number is below 10 |
| Labels.DecimalInjective | app/app.py:109 | Different numbers are spelled differently |
| Labels.TwoDigits | app/app.py:109 | Every two-digit number is spelled with two characters |
| Labels.RangeTooltip | app/app.py:109 | A buffer tooltip starts with the station name and ends with "km range" |
| Labels.RangeTooltipIdentifiesBuffer | app/app.py:109 | For two-digit ranges, the tooltip determines both the station and the range |
| Labels.GroupNamesDistinct | app/app.py:79-81 | Range, main and replacement group names (`RangeGroupName`, `MainGroupName`, `ReplacementGroupName`) never coincide, and each determines its station |
| Labels.ClusterKeysDistinct | app/app.py:80-160 | A main key (`MainKey`) is never a replacement key (`ReplacementKey`), and each key determines its station |
| Labels.MarkerTooltipIdentifiesStation | app/app.py:167 | Different stations' markers have different tooltips |
| Ordering.FirstIndex | app/app.py:124 | The first position holding a value, with no earlier occurrence |
| Ordering.FirstIndexUnique | app/app.py:124 | A position holding a value with none before it is the first position |
| Ordering.FirstAppearance | app/app.py:78-123 | The distinct values of a column, each once, exactly those of the column, in order of first appearance |
| Ordering.FirstIndexOfPrefix | app/app.py:78-123 | Appending a row does not move where earlier values first appear |
| Ordering.InsertByKm | app/app.py:84 | Inserting a buffer into a descending sequence keeps it descending and adds exactly that buffer |
| Ordering.SortByRange | app/app.py:84 | The buffers sorted by `buffer_km`, largest first, are a permutation of the input |
| Ordering.SortByRangeMembers | app/app.py:84 | Sorting keeps exactly the buffers it was given |
| OrderedDicts.OrderedDict.Put | app/app.py:79-81 | Putting a key updates its entry. A new key goes to the end of the insertion order, and an existing key keeps its place |
| OrderedDicts.EmptyDict | app/app.py:76-77 | A new dictionary has no keys |

## Left out

- The Streamlit page, `main`, `load_data` and its `@st.cache_data` caching are I/O and presentation, so they are not part of this model.
- `to_crs(epsg=4326)` (app/app.py:122) is a library reprojection. Geometries are opaque identifiers in this model.
- The map centre, the mean of the station coordinates (app/app.py:30), is floating-point geometry, so its value is not modelled. The failure it causes when there are no stations is modelled (`NoStations`).
- The legend's and popups' HTML and CSS text are not modelled. The legend is a list of abstract entries, and a buffer popup is its station and range.
- `highlight_function` (app/app.py:105-108) is not modelled. It reads `style` by late binding, at a moment decided inside folium.
- Folium's rendering and its own checks on a GeoJSON layer (for example of an empty cluster subset) are library code. An empty subset is still one layer here.
- The tooltip aliases and CSS of the cluster tooltips (app/app.py:139-140) are not modelled. Only the field list is.
- Ordering.SortByRange: pandas `sort_values` does not promise a stable order for equal `buffer_km`. The model sorts stably, and every range-group lemma assumes only a descending order, so none depends on tie order. The tie order does decide one thing: when two failing buffers have the same range, the model reports the earlier row's error, which pandas does not promise. `CreateMapFailureNamesOffender` says only that some buffer fails.
- The map and its feature groups are values. Each group is filled before it is added to the map and no group is shared, so no aliasing is lost.
- The `cluster_groups` lookups at app/app.py:142 and 160 cannot fail once the colour lookup at line 124 succeeded. The model reads the dictionary without an error path, and proves the keys are present.
