# TERA map tools, modelled in Dafny

The TERA map tools are Blender scripts for the maps of the game TERA. This
project models their data-handling core and proves properties of it:

- **Level readers.** Two readers turn an Unreal `.t3d` level export into
  static-mesh actors.
  - `Level.read_from` in `lib/map.py` ("v1") uses the helpers of
    `lib/t3d_utils.py` (`parse_name`, `parse_class`, `parse_vector`,
    `parse_mesh_path`).
  - `tera_map_importer_v2.py` ("v2") has its own copies of those helpers.
  - Both also read the terrain list, with `Terrain.__init__` and the line
    loop of `Terrain.read_from`.
- **Topology writer.** `GeoGenerator` in `lib/ray_cast.py` probes a zone
  of 120 × 120 squares, each of 8 × 8 cells.
  - It probes the zone cell by cell with downward rays.
  - It keeps the surface heights per cell and sorts them.
  - It computes a clearance for every height with an upward ray.
  - It exports the result as an `.idx` stream (per-square headers) and a
    `.geo` stream (u16 pairs).
- **Topology reader.** In `import_topo.py`:
  - `load_zone` decodes those two streams back into squares and cells;
  - `load_topo` selects the zones of a continent that lie in bounds;
  - `get_continent` looks a continent up by id;
  - `create_volumes` groups the cells of a zone by layer index.
- **Navigation mesh writer.** `save_navmesh.py` turns a mesh into nodes
  with eight direction slots each.
  - It writes a `.gdi` file: bounds, node count, per-square counts and
    offsets.
  - It writes a `.nod` file: one 76-byte record per node.
- **Navigation mesh reader.** `node_importer.py` reads the `.gdi` header
  and the `.nod` records, and turns the neighbour slots into edges.
- **Fence importer.** `fence_importer.py` collects the fences of nested
  `FlySection` elements in pre-order. It builds one closed outline per
  section.
- **Utilities.** `lib/topology.py` holds the shared entities: `Square`,
  `Zone`, `Volume`, `Cell` and `Node`. `lib/utils.py` holds `time_convert`
  and `divide_chunks`.

**Conventions of the model**

- Files are byte sequences (`seq<byte>`). A file that is read line by line
  is a sequence of strings.
- The Python built-ins the core leans on are written out as functions:
  - `Bytes`: `struct` / `array` packing of little-endian u16, u32 and i32;
  - `PyStr`: `str.find`, slicing with negative indices, `split`, `join`,
    `replace`, `strip`, `count`, `rjust`, and `str()` of an int;
  - `Numeric`: `int()` of a float, which truncates;
  - `Wrappers`: `Option` and `Result`. A Python exception is a `Failure`.
- What the core delegates to Blender, or to code outside it, is a
  parameter of the model:
  - the downward ray cast that finds the next visible object under a cell
    (`Caster`), and the upward one (`UpCaster`);
  - the inside-the-zone test of `setup`;
  - `float()` and `int()` of a text field (`flt`, `toInt`, `VecParser`);
  - IEEE single packing and unpacking (`f32`, `f`);
  - the parsed XML tree of the fence importer (`Element`).
- One class per source object whose fields change in place:
  - `Topology.Square`, `Topology.Zone` and `Topology.Volume`;
  - `RayCast.GeoGenerator`, with its `volumes`, `wrapped` and `heights`
    maps;
  - `Fence.Importer`, with the module-level `sections` list as its field.
- Loops are methods proved against a specification function. The
  properties are proved about those functions.

**Main results**

- `GeoLayout.ExportThenLoad`: `load_zone` applied to the streams that
  `export` writes succeeds exactly when every height and clearance fits a
  u16. It then returns every square's per-cell counts and every cell's
  (z, h) words.
- `NodeImport.NodRoundTrip` and `NodeImport.HeaderRoundTrip`:
  `node_importer.py` reads back what `save_navmesh.py` wrote.
- `LevelFacts.LevelActors` and `V2Facts.LevelV2Actors`: what every actor
  returned by the two level readers satisfies.
- `Fence.PreOrderCount`: `parse_sections` makes one list per `FlySection`.

## Model

| member | source | states |
|---|---|---|
| Utils.Fields | lib/utils.py:3-6 | hours, minutes and seconds recombine to the given seconds; minutes and seconds lie in [0, 60) |
| Utils.Pad2 | lib/utils.py:8-9 | a field below 60 pads to exactly two decimal digits |
| Utils.Pad2Value | lib/utils.py:8-9 | the two padded digits read back as the field's value |
| Utils.TimeConvert | lib/utils.py:2-9 | the text contains the ':' separator |
| Utils.TimeConvertRoundTrip | lib/utils.py:2-9 | the output splits at ':' into exactly three fields; the last two have two digits and are below 60; 3600·h + 60·m + s gives back the input |
| Utils.TimeConvertRealFloor | lib/utils.py:2-9 | a fractional number of seconds prints the same text as its floor: `int()` of the seconds field drops the fraction |
| Utils.DivideChunks | lib/utils.py:11-13 | a zero step fails as `range()` does; a negative step gives no chunks |
| Utils.DivideChunksSpec | lib/utils.py:11-13 | for a positive step: the chunks concatenate back to the list; there are ceil(len/n) of them; all have n elements except the last, which has 1..n |
| Utils.FlattenChunksFrom | lib/utils.py:12-13 | the slices from a start index on concatenate to the list's tail |
| Utils.ChunksFromCount | lib/utils.py:12-13 | the number of slices from a start index is ceil((len − start)/n) |
| Utils.ChunksFromSizes | lib/utils.py:12-13 | every slice but the last has n elements; the last has 1..n |
| Numeric.Trunc | lib/ray_cast.py:391 | `int()` of a float: the integer between 0 and the value that is less than 1 away from it |
| Topology.Volume.constructor | lib/topology.py:16-19 | a volume has the given index and no points |
| Topology.Square.constructor | lib/topology.py:32-37 | the given position, total count and per-cell counts are stored; the cell list starts empty |
| Topology.Square.AddCell | lib/topology.py:39-40 | exactly one cell is appended at the end |
| Topology.Zone.constructor | lib/topology.py:48-52 | squares, position and origin are stored; relative position + origin == position, componentwise |
| Topology.ContainsPointOnlyCorner | lib/topology.py:54-56 | the as-written test holds iff x/SIZE is exactly relative x and y/SIZE exactly relative y |
| Topology.ContainsPointMissesInterior | lib/topology.py:54-56 | a point one unit inside the zone's corner is in the zone's tile, yet the as-written test rejects it |
| Topology.ContainsPointInTileSpec | lib/topology.py:54-56 | the corrected test holds iff the point lies in the zone's half-open SIZE × SIZE tile |
| T3D.ParseName | lib/t3d_utils.py:2-3 | the name never contains '"' |
| T3D.ParseNameAt | lib/t3d_utils.py:3 | for a line `a + "Name=" + b + c` whose first "Name=" ends a, the name is b with quotes removed; the last character c is dropped |
| T3D.ParseNameActorLine | lib/t3d_utils.py:3 | on a `Begin Actor/Object ... Class=/Script/Engine.C Name=b` line plus one last character, the name is b with quotes removed: the "Name=" after the class is the first one |
| T3D.ParseNameMissing | lib/t3d_utils.py:3 | without "Name=", `find` gives −1 and the name is `line[4:-1]` without quotes |
| T3D.ParseClass | lib/t3d_utils.py:5-15 | no "Class=" gives ""; any nonempty class is stripped of surrounding white space |
| T3D.ParseClassAt | lib/t3d_utils.py:5-15 | for `Class=/Script/Engine.<c> Name=...`, the class is exactly c |
| T3D.ClassFromSpan | lib/t3d_utils.py:9-13 | the class is determined by the span between "Class=" and "Name=" |
| T3D.VectorParts | lib/t3d_utils.py:18-21 | splitting at ',' always gives at least one part |
| T3D.Values | lib/t3d_utils.py:25-27 | succeeds iff every part has an '='; then one value per part, `float()` of the field after the part's first '=' |
| T3D.FormatUnwrapped | lib/t3d_utils.py:21 | removing the parentheses of `(k1=v1,...)` leaves `k1=v1,...` |
| T3D.ParseVectorFormat | lib/t3d_utils.py:17-29 | the unnamed form of `(k1=v1,...)` parses to `[float(v1), ...]` |
| T3D.ParseVectorNamed | lib/t3d_utils.py:17-29 | `name=(k1=v1,...)` with the given name parses to `[float(v1), ...]` |
| T3D.ParseMeshPath | lib/t3d_utils.py:31-33 | the path ends in ".psk" and contains no '"' and no "'" |
| T3D.MeshPathShape | lib/t3d_utils.py:32-33 | the "/Game" replacement keeps the ".psk" suffix and the quote-freeness |
| T3D.ParseMeshPathAt | lib/t3d_utils.py:31-33 | `a"/Game<p>"'` gives `StaticMeshes\<p>.psk` |
| MapLevel.ValueText | lib/map.py:22-23 | `set_label`: fails iff the line has no '=' (the IndexError); the label has no '"' |
| MapLevel.ValueTextAt | lib/map.py:23 | for `key=value` with no '=' in key, the label is value without quotes, up to the next '=' |
| MapLevel.All | lib/map.py:89-117 | parsing a list succeeds iff every item parses; it then gives the items' values in order |
| MapLevel.Ints | lib/map.py:103-110 | one `int()` per index text |
| MapLevel.ElemRead | lib/map.py:90-113 | one `ConvexElem`: its vertices are the parsed VertexData items, its indices the `int()` of the ElemBox texts in reverse order; reading resumes after "ElemBox=" |
| MapLevel.Chain | lib/map.py:89-117 | repeating the element reader n times gives n elements, the first read from the start of the line |
| MapLevel.ChainStep | lib/map.py:89-117 | each round consumes one element and continues on the rest of the line |
| MapLevel.ChainFails | lib/map.py:89-117 | an element that fails ends the loop with that error |
| MapLevel.ReadChain | lib/map.py:89-117 | the loop of `parse_agg_geom` computes the chain |
| MapLevel.AggGeoms | lib/map.py:85-117 | a successful parse has one element per "VertexData" occurrence |
| MapLevel.ParseAggGeom | lib/map.py:85-117 | the parsed elements are appended to the component's list, which is otherwise unchanged |
| MapLevel.Reversed | lib/map.py:110 | reversal keeps the length and maps index k to index len−1−k |
| MapLevel.Opposite | lib/map.py:107-113 | indices read in file order are the reverse of those `parse_agg_geom` stores |
| MapLevel.BrushParseAggGeom | lib/map.py:258-285 | more than one "VertexData" raises; otherwise it succeeds iff the vertices parse, and then the vertices and the ElemBox indices, in file order, are appended and the name and location are kept |
| MapLevel.BrushMatchesMesh | lib/map.py:258-285 | on a single element, the brush parser and the static-mesh parser agree on the vertices; the brush keeps the indices that the mesh parser reverses |
| MapLevel.BrushMatchesElem | lib/map.py:258-285 | the same agreement, stated against the one element the mesh parser reads |
| MapLevel.MeshReadLine | lib/map.py:71-83 | first match wins among Location, Rotation, Scale, StaticMesh, NoCollision and AggGeom; only the matched field changes; a vector line succeeds iff its vector parses and then sets the field to it; an AggGeom line succeeds iff its elements read and then appends them |
| MapLevel.SceneReadLine | lib/map.py:30-36 | only the field named by the line changes; a vector line succeeds iff its vector parses and then sets the field to Some of it; other lines succeed |
| MapLevel.BeginActor | lib/map.py:167-179 | a "Begin Actor" line keeps every component reference of the reader in range |
| MapLevel.BeginObject | lib/map.py:184-191 | a "Begin Object" line keeps the references in range |
| MapLevel.EndObject | lib/map.py:193-204 | an "End Object" line keeps the references in range |
| MapLevel.EndActor | lib/map.py:208-218 | an "End Actor" line keeps the references in range |
| MapLevel.AddLayer | lib/map.py:224-227 | a "Layers(" line keeps the references in range |
| MapLevel.MeshLine | lib/map.py:229-230 | feeding the mesh component keeps the references in range |
| MapLevel.SceneLine | lib/map.py:232-233 | feeding the scene component keeps the references in range |
| MapLevel.OtherLine | lib/map.py:223-233 | the fall-through branch keeps the references in range |
| MapLevel.ObjectLines | lib/map.py:181-233 | the branches after "Begin Actor" keep the references in range |
| MapLevel.Step | lib/map.py:165-233 | one stripped line of the loop keeps the references in range |
| MapLevel.Run | lib/map.py:164-236 | the whole loop keeps the references in range |
| MapLevel.RunNext | lib/map.py:165-166 | the loop reads the lines one at a time, in order |
| MapLevel.RunFails | lib/map.py:165-236 | an exception on one line ends `read_from` with that error |
| MapLevel.LevelOf | lib/map.py:146-237 | `read_from` succeeds iff the line loop does |
| MapLevel.ReadLine | lib/map.py:165-233 | the imperative line handler computes one step |
| MapLevel.ReadBeginActor | lib/map.py:167-179 | the imperative "Begin Actor" handler computes that branch |
| MapLevel.ReadObjectLines | lib/map.py:181-233 | the imperative handler of the later branches computes them |
| MapLevel.ReadOther | lib/map.py:223-233 | the imperative fall-through handler computes that branch |
| MapLevel.ReadLevel | lib/map.py:146-237 | the imperative `read_from` returns the level the line loop defines |
| LevelFacts.BeginLines | lib/map.py:166-167 | the stripped lines that start with "Begin Actor", in order, at most as many as the lines |
| LevelFacts.InvStart | lib/map.py:153-164 | the reader's invariant holds before the first line |
| LevelFacts.InvBeginActor | lib/map.py:167-179 | a "Begin Actor" line preserves the invariant, with the line appended to those seen |
| LevelFacts.InvLabel | lib/map.py:181-182 | an "ActorLabel" line preserves the invariant |
| LevelFacts.InvBeginObject | lib/map.py:184-191 | a "Begin Object" line preserves the invariant |
| LevelFacts.InvEndObject | lib/map.py:193-204 | an "End Object" line preserves the invariant: an attached mesh component has a nonempty path |
| LevelFacts.InvEndActor | lib/map.py:208-218 | an "End Actor" line preserves the invariant: kept actors stay ordered, with distinct labels |
| LevelFacts.KeptAppend | lib/map.py:214-215 | appending the current actor keeps every kept actor well formed |
| LevelFacts.OrderedAppend | lib/map.py:212-215 | an actor whose label is unseen keeps the kept list ordered by index, with distinct labels |
| LevelFacts.InvAddLayer | lib/map.py:224-227 | a "Layers(" line preserves the invariant |
| LevelFacts.SameCurrent | lib/map.py:224-233 | an actor with the same name, index and mesh component as the current one is current in the same way, whatever its layers |
| LevelFacts.InvNewCurrent | lib/map.py:224-233 | updating the current actor's layers or components preserves the invariant |
| LevelFacts.InvMeshLine | lib/map.py:229-230 | feeding the mesh component preserves the invariant |
| LevelFacts.InvSceneLine | lib/map.py:232-233 | feeding the scene component preserves the invariant |
| LevelFacts.InvOther | lib/map.py:223-233 | the fall-through branch preserves the invariant |
| LevelFacts.InvStep | lib/map.py:165-233 | every line preserves the invariant |
| LevelFacts.InvRun | lib/map.py:164-236 | the invariant holds after the loop |
| LevelFacts.LevelActors | lib/map.py:193-218 | every returned actor has a mesh component with a nonempty path, and is named `{name}_{idx}` after a "Begin Actor" line; returned actors are ordered by index and have distinct labels |
| LevelFacts.RunCounts | lib/map.py:167-178 | idx equals the number of "Begin Actor" lines; every such name, whatever its class, is in `actor_labels`; so is every returned actor's label |
| Terrains.NewTerrain | lib/map.py:345-348 | a new terrain has no absolute location and no absolute scale |
| Terrains.NewTerrainMissing | lib/map.py:346-348 | without "_Terrain", `find` gives −1: the map is the line minus its last character, the name is the whole line |
| Terrains.NewTerrainParts | lib/map.py:346-348 | with "_Terrain" at its first index i: the map is line[:i] and the name line[i+1:] |
| Terrains.NewTerrainSplit | lib/map.py:345-348 | with "_Terrain" present: map + "_" + name == line, the name starts with "Terrain" and the map does not contain "_Terrain" |
| Terrains.TabLine | lib/map.py:313-320 | a tab line with Location (or else Scale) succeeds iff there is a current terrain and the vector parses, and then sets that field to Some of the vector, the only change; a tab line with neither leaves everything unchanged |
| Terrains.TerrainsOf | lib/map.py:301-329 | a missing file gives no terrains; otherwise reading succeeds iff the line loop does |
| Terrains.GroupNext | lib/map.py:312 | the loop reads the lines one at a time, in order |
| Terrains.GroupFails | lib/map.py:312-325 | a raising line ends the loop with that error |
| Terrains.ReadTerrains | lib/map.py:301-329 | the imperative `read_from` computes the grouping |
| Terrains.ReadTerrainLine | lib/map.py:313-325 | the imperative loop body computes one step |
| Terrains.Headers | lib/map.py:321-325 | the header lines (not tab-prefixed) are at most the lines |
| Terrains.Starts | lib/map.py:321-325 | one new terrain per header line, built from the stripped line |
| Terrains.GroupedHeader | lib/map.py:321-325 | a header line flushes the current terrain and starts a new one |
| Terrains.GroupedRun | lib/map.py:312-325 | after the loop, the finished and current terrains are the started ones, in order |
| Terrains.GroupedAll | lib/map.py:327-329 | after the final flush, there is one terrain per start, in order |
| Terrains.TerrainsFromHeaders | lib/map.py:312-329 | one terrain per header line, in order, each started from that line; the last terrain is included once |
| Terrains.NoHeaderNoCurrent | lib/map.py:309-325 | with no header line, there is no current terrain |
| Terrains.OrphanTabLine | lib/map.py:313-318 | a tab line with Location or Scale before any header raises |
| ImporterV2.PartsV2 | tera_map_importer_v2.py:49 | splitting at ',' always gives at least one part |
| ImporterV2.Unwrapped | tera_map_importer_v2.py:49 | removing `name=(` and every ')' from `name=(k1=v1,...)` leaves `k1=v1,...` |
| ImporterV2.ParseVectorV2Named | tera_map_importer_v2.py:48-57 | `name=(k1=v1,...)` parses to `[float(v1), ...]` |
| ImporterV2.ParseClassV2 | tera_map_importer_v2.py:40-46 | raises iff the line contains "Class=" (`str` has no `trim`); otherwise gives "" |
| ImporterV2.ParseClassV2Raises | tera_map_importer_v2.py:40-46 | on a line from which the v1 helper reads class c, the v2 helper raises |
| ImporterV2.MeshReadLineV2 | tera_map_importer_v2.py:130-139 | only the matched field changes; a vector line succeeds iff its vector parses and then sets the field to it; a StaticMesh line always sets the path to `parse_mesh_path` of the line; other lines change nothing |
| ImporterV2.BeginActorV2 | tera_map_importer_v2.py:87-92 | a "Begin Actor" line keeps the reader's references in range |
| ImporterV2.LabelV2 | tera_map_importer_v2.py:93-94 | an "ActorLabel" line keeps the references in range |
| ImporterV2.EndObjectV2 | tera_map_importer_v2.py:99-101 | an "End Object" line keeps the references in range |
| ImporterV2.EndActorV2 | tera_map_importer_v2.py:102-106 | an "End Actor" line keeps the references in range |
| ImporterV2.BodyV2 | tera_map_importer_v2.py:107-109 | a body line keeps the references in range |
| ImporterV2.ObjectLineV2 | tera_map_importer_v2.py:96-109 | the branches from "Begin Object" on keep the references in range |
| ImporterV2.StepV2 | tera_map_importer_v2.py:85-109 | one stripped line keeps the references in range |
| ImporterV2.RunV2 | tera_map_importer_v2.py:84-110 | the loop keeps the references in range |
| ImporterV2.Returned | tera_map_importer_v2.py:105 | the returned list holds exactly the appended actors, in order |
| ImporterV2.RunV2Next | tera_map_importer_v2.py:85 | the loop reads the lines one at a time, in order |
| ImporterV2.RunV2Fails | tera_map_importer_v2.py:85-109 | a raising line ends `read_from` with that error |
| ImporterV2.LevelV2Of | tera_map_importer_v2.py:68-110 | `read_from` succeeds iff the line loop does |
| ImporterV2.ReadLineV2 | tera_map_importer_v2.py:86-109 | the imperative line handler computes one step |
| ImporterV2.SetLabelV2 | tera_map_importer_v2.py:119-120 | the imperative `set_label` computes the label step |
| ImporterV2.ReadObjectLineV2 | tera_map_importer_v2.py:96-109 | the imperative handler of the later branches computes them |
| ImporterV2.ReadLevelV2 | tera_map_importer_v2.py:68-110 | the imperative `read_from` returns the level the loop defines |
| V2Facts.BeginObjectLines | tera_map_importer_v2.py:96 | the "Begin Object" lines that reach that branch are at most the lines |
| V2Facts.InvV2Start | tera_map_importer_v2.py:76-84 | the reader's invariant holds before the first line |
| V2Facts.InvV2BeginActor | tera_map_importer_v2.py:87-92 | a "Begin Actor" line preserves the invariant, with the line appended to those seen |
| V2Facts.InvV2Label | tera_map_importer_v2.py:93-94 | an "ActorLabel" line preserves the invariant |
| V2Facts.InvV2BeginObject | tera_map_importer_v2.py:96-98 | a "Begin Object" line preserves the invariant and adds a component |
| V2Facts.InvV2EndObject | tera_map_importer_v2.py:99-101 | an "End Object" line preserves the invariant: an attached component has a nonempty path |
| V2Facts.InvV2EndActor | tera_map_importer_v2.py:102-106 | an "End Actor" line preserves the invariant |
| V2Facts.InvV2Body | tera_map_importer_v2.py:107-109 | a body line preserves the invariant |
| V2Facts.InvV2Step | tera_map_importer_v2.py:85-109 | every line preserves the invariant |
| V2Facts.InvV2Run | tera_map_importer_v2.py:85-110 | the invariant holds after the loop |
| V2Facts.InvV2Counts | tera_map_importer_v2.py:87-98 | the invariant fixes the counts: actor k is named `{name}_{k}` after the k-th "Begin Actor" line; one component per "Begin Object" line; smc is the last one |
| V2Facts.RunV2Counts | tera_map_importer_v2.py:87-98 | after the loop: idx == number of "Begin Actor" lines, actor k is `{name_k}_{k}`, every name is in `actor_labels`, and smc is the last component created |
| V2Facts.StepV2Smc | tera_map_importer_v2.py:96-109 | smc changes only on "Begin Object"; it is never reset, so a body line after any "Begin Object" updates the last component |
| V2Facts.ObjectLineSmc | tera_map_importer_v2.py:96-109 | the same, for the branches from "Begin Object" on |
| V2Facts.LevelV2Actors | tera_map_importer_v2.py:87-106 | every returned actor has a mesh component with a nonempty path and is named `{name}_{idx}` after its "Begin Actor" line |
| V2Facts.LabelLine | tera_map_importer_v2.py:93-94 | an `ActorLabel=<l>` line sets the current actor's label to l, the only change |
| V2Facts.EndActorLine | tera_map_importer_v2.py:102-106 | "End Actor" with an smc and an unseen label appends the current actor and records its label, the only change |
| V2Facts.ReturnedTwice | tera_map_importer_v2.py:102-106 | the current actor is not reset after "End Actor": relabelling it and ending it again returns the same actor twice |
| V2Facts.KeptTwiceV2 | tera_map_importer_v2.py:93-106 | the same, about the whole loop: appending `ActorLabel=<new>` and "End Actor" to a file lists the last actor twice |
| GeoLayout.CellOf | lib/ray_cast.py:130-135 | decoding a cell key gives an in-range square and cell position |
| GeoLayout.CellIndexRange | lib/ray_cast.py:130-135 | the key `8·cx + cy + (120·sx + sy)·64` lies in [0, 921600) for in-range positions |
| GeoLayout.CellIndexInverse | lib/ray_cast.py:130-135 | decoding the key gives back the position |
| GeoLayout.CellOfInverse | lib/ray_cast.py:130-135 | every key in range is the key of its decoded position |
| GeoLayout.CellIndexInjective | lib/ray_cast.py:130-135 | distinct in-range positions have distinct keys |
| GeoLayout.SqKeyAt | lib/ray_cast.py:375-382 | the export's square and cell numbering (q = 120·sy + sx, j = 8·cy + cx) reaches the cell's key |
| GeoLayout.SqKeyOnto | lib/ray_cast.py:375-382 | every key is visited by the export's loops |
| GeoLayout.SqKeyInjective | lib/ray_cast.py:375-382 | no key is visited twice |
| GeoLayout.FitsIff | lib/ray_cast.py:390-397 | packing `int(v)·25` as u16 succeeds iff −1 < v < 2622 |
| GeoLayout.Field | lib/ray_cast.py:390-397 | a value that packs writes two bytes decoding to `int(v)·25`; a failed pack is skipped |
| GeoLayout.DataOf | lib/ray_cast.py:383-388 | a cell's heights and clearances, with equal lengths |
| GeoLayout.CellsOf | lib/ray_cast.py:380-388 | the cells of a square in export order |
| GeoLayout.CellsOfAt | lib/ray_cast.py:380-388 | the j-th of them is the cell with key SqKey(q, j) |
| GeoLayout.Counts | lib/ray_cast.py:385 | one count per cell |
| GeoLayout.SquareCountsU16 | lib/ray_cast.py:399-401 | every per-cell count of an exportable square fits a u16 |
| GeoLayout.SquareCells | lib/ray_cast.py:380-388 | an exportable square has 64 complete cells whose counts fit u16 |
| GeoLayout.IdxBlock | lib/ray_cast.py:399-401 | one `.idx` block is 132 bytes: the u32 total and 64 u16 counts |
| GeoLayout.SquarePrefixStep | lib/ray_cast.py:380-397 | exporting one more cell extends the counts by its count and the geo stream by its pairs |
| GeoLayout.SquarePrefixDone | lib/ray_cast.py:380-401 | after 64 cells, the counts pack iff the square is exportable, and are then the square's counts and pairs |
| GeoLayout.ZonePrefixStep | lib/ray_cast.py:375-401 | exporting one more square appends its block and its pairs |
| GeoLayout.ZonePrefixDone | lib/ray_cast.py:375-401 | after 14400 squares, the streams are the zone's `.idx` and `.geo` |
| GeoLayout.HeaderAt | import_topo.py:132-133 | a header has 64 per-cell counts, each below 2^16 |
| GeoLayout.Headers | import_topo.py:129-134 | 14400 headers are read, squareY outer and squareX inner |
| GeoLayout.Total | import_topo.py:138-141 | the total number of pairs before a square is nonnegative |
| GeoLayout.CellPairs | import_topo.py:140-144 | n pairs are read for a cell |
| GeoLayout.DecodeZone | import_topo.py:123-146 | a successful decode has 14400 squares |
| GeoLayout.SquaresOf | lib/ray_cast.py:375-388 | the exported zone has 14400 squares of 64 cells each |
| GeoLayout.Written | lib/ray_cast.py:399-401 | the headers the export writes, 14400 of them, counts below 2^16 |
| GeoLayout.Expected | import_topo.py:136-144 | what a reader should rebuild, one square per square |
| GeoLayout.DataRead | import_topo.py:140-144 | reading a cell's pairs at the right offset gives its quantised (z, h) values, tagged 0..n−1 |
| GeoLayout.SampleRead | import_topo.py:142-144 | pair i decodes to `(int(z_i)·25, int(h_i)·25)` with volume index i |
| GeoLayout.SquareRead | import_topo.py:137-144 | reading a square's pairs gives back its cells in order, cellY outer and cellX inner |
| GeoLayout.SquareGeoLength | import_topo.py:138-141 | a square's pairs take 4 × (sum of its counts) bytes iff every value packed |
| GeoLayout.GeoOfLength | import_topo.py:138-141 | the zone's pairs take 4 × (sum of all counts) bytes iff every value packed |
| GeoLayout.HeadersRoundTrip | import_topo.py:129-134 | reading the `.idx` blocks back gives the headers written |
| GeoLayout.SquareLoads | import_topo.py:136-144 | every square is read from its offset in the zone's `.geo` stream |
| GeoLayout.LoadOf | import_topo.py:123-146 | decoding the exported streams succeeds iff every value packed; it then gives the expected squares and consumes exactly four bytes per pair |
| GeoLayout.SquareDecodes | import_topo.py:136-144 | square q of the decoded zone is the expected square q |
| GeoLayout.ExportThenLoad | import_topo.py:123-146 | `load_zone` of the streams that `export` writes succeeds iff the zone fits u16; it then returns every square's counts and every cell's words, and reads exactly 4 × (sum of counts) bytes |
| RayCast.WrapSpec | lib/ray_cast.py:195-199 | z < 0 is stored as MAX_Z + z with the wrap entry z; otherwise z is stored with wrap 0; unwrapping gives z back |
| RayCast.Record | lib/ray_cast.py:201-213 | recording a hit keeps the two lists of equal length, and the cell has an entry afterwards |
| RayCast.Probe | lib/ray_cast.py:189-228 | probing a cell keeps the entry well formed |
| RayCast.ProbeHit | lib/ray_cast.py:196-217 | a hit is on a visible object; that object is hidden and probing continues with the sample recorded |
| RayCast.ProbeMiss | lib/ray_cast.py:219-228 | a miss ends probing and leaves the entry unchanged |
| RayCast.ProbedUpTo | lib/ray_cast.py:184-228 | probing the cells below a key keeps every entry well formed |
| RayCast.ProbeCellOk | lib/ray_cast.py:201-213 | kept samples are more than 1 apart in decreasing order, and every wrap entry matches its sample |
| RayCast.RecordCellOk | lib/ray_cast.py:201-213 | recording one hit keeps that |
| RayCast.ProbeExtends | lib/ray_cast.py:201-213 | probing only appends to a cell's existing lists |
| RayCast.CellProbeFirst | lib/ray_cast.py:189-213 | a cell gets an entry iff its first probe hits, and the first sample is that hit, wrapped |
| RayCast.Insert | lib/ray_cast.py:246-247 | inserting adds exactly one element |
| RayCast.InsertSorted | lib/ray_cast.py:246-247 | inserting into a sorted list keeps it sorted |
| RayCast.SortAsc | lib/ray_cast.py:246-247 | sorting keeps the length and permutes the elements |
| RayCast.SortAscSpec | lib/ray_cast.py:246-247 | the result is sorted ascending and a permutation of the input |
| RayCast.SortEntry | lib/ray_cast.py:244-247 | sorting a cell's two lists independently keeps them of equal length |
| RayCast.EntryOf | lib/ray_cast.py:240-247 | a cell's entry is well formed when the two maps agree in shape |
| RayCast.SortedUpTo | lib/ray_cast.py:240-247 | sorting the cells below a key keeps every entry well formed |
| RayCast.ClearanceSpec | lib/ray_cast.py:276-297 | the clearance is at most MAX_Z/2, and exactly MAX_Z/2 when the upward ray misses; it is negative iff the raw difference is below −MAX_Z/2; the raw clearance found_z − \|z\| is wrapped by MAX_Z/2 when negative |
| RayCast.Clearances | lib/ray_cast.py:272-297 | exactly one clearance per sample |
| RayCast.GeoGenerator.constructor | lib/ray_cast.py:35-48 | the generator starts with the given source objects, nothing excluded or hidden, and empty maps |
| RayCast.GeoGenerator.Entry | lib/ray_cast.py:201-213 | a cell has an entry iff it has a `volumes` key |
| RayCast.GeoGenerator.Setup | lib/ray_cast.py:50-76 | the objects outside the zone move from the source set to the excluded set; nothing else changes |
| RayCast.GeoGenerator.Cleanup | lib/ray_cast.py:360-368 | the excluded objects return to the source set |
| RayCast.GeoGenerator.RecordHit | lib/ray_cast.py:201-213 | the cell's entry becomes `Record` of the old one; other cells are unchanged |
| RayCast.GeoGenerator.TakeHit | lib/ray_cast.py:196-217 | the hit is recorded and the hit object hidden |
| RayCast.GeoGenerator.Unhide | lib/ray_cast.py:225-226 | exactly the listed objects become visible again |
| RayCast.GeoGenerator.ProbeCell | lib/ray_cast.py:186-228 | the `while True` loop leaves `Probe` of the old entry, with the old visible set; the hidden set is restored and other cells are unchanged |
| RayCast.GeoGenerator.ProbeNext | lib/ray_cast.py:186-228 | probing the next cell extends the probed prefix by one key |
| RayCast.GeoGenerator.ProbeSquare | lib/ray_cast.py:184-228 | probing a square's 64 cells extends the prefix by 64 keys |
| RayCast.GeoGenerator.GenerateCells | lib/ray_cast.py:175-236 | afterwards every cell's entry is the probe result, with every source object visible |
| RayCast.GeoGenerator.SortNext | lib/ray_cast.py:244-247 | sorting the next cell extends the sorted prefix by one key |
| RayCast.GeoGenerator.SortSquare | lib/ray_cast.py:240-247 | sorting a square's cells extends the prefix by 64 keys |
| RayCast.GeoGenerator.SortCells | lib/ray_cast.py:238-247 | every cell's lists are sorted independently; cells without entries are untouched |
| RayCast.GeoGenerator.SortCell | lib/ray_cast.py:244-247 | one cell's two lists are sorted; other cells are unchanged |
| RayCast.GeoGenerator.CellHeights | lib/ray_cast.py:264-297 | the cell's heights become its clearances, one per sample; the other maps are unchanged |
| RayCast.GeoGenerator.HeightsNext | lib/ray_cast.py:264-297 | filling the next cell extends the filled prefix by one key |
| RayCast.GeoGenerator.HeightsSquare | lib/ray_cast.py:262-297 | filling a square extends the prefix by 64 keys |
| RayCast.GeoGenerator.GenerateHeights | lib/ray_cast.py:257-297 | exactly the cells that have samples get heights, their clearances, one per sample |
| RayCast.GeoGenerator.ExportCell | lib/ray_cast.py:383-397 | a cell without an entry raises KeyError; otherwise its pairs are written |
| RayCast.GeoGenerator.ExportNext | lib/ray_cast.py:380-397 | one more cell extends the square's counts and pairs, or raises |
| RayCast.GeoGenerator.ExportRow | lib/ray_cast.py:380-397 | one row of eight cells extends the square's counts and pairs |
| RayCast.GeoGenerator.ExportCells | lib/ray_cast.py:380-398 | all 64 cells, cy outer and cx inner, give the square's counts and pairs; the amount is their sum |
| RayCast.GeoGenerator.PrefixRows | lib/ray_cast.py:380-381 | eight rows of eight cells are the whole square |
| RayCast.GeoGenerator.ExportSquare | lib/ray_cast.py:377-401 | a square fails iff it is not exportable; otherwise its `.idx` block and `.geo` pairs are written |
| RayCast.GeoGenerator.ExportAppend | lib/ray_cast.py:375-401 | appending one square extends the zone's streams |
| RayCast.GeoGenerator.ExportSquareRow | lib/ray_cast.py:375-401 | 120 squares of one sy extend the streams |
| RayCast.GeoGenerator.Export | lib/ray_cast.py:370-412 | raises iff some cell has no entry or some count does not fit u16; otherwise writes the zone's `.idx` and `.geo` streams |
| TopoImport.ReadHeaderRow | import_topo.py:129-134 | 120 headers are read for one squareY; fails iff the stream is too short |
| TopoImport.ReadHeaders | import_topo.py:129-134 | fails iff the `.idx` stream is shorter than 14400 × 132 bytes; otherwise 14400 fresh squares carry the headers read, with no cells |
| TopoImport.ReadCell | import_topo.py:140-144 | a cell's n pairs are appended to the square's cells; fails iff fewer than 4n bytes remain |
| TopoImport.ProgressStep | import_topo.py:139-144 | reading one more cell advances the read position by four bytes per pair |
| TopoImport.ProgressFail | import_topo.py:139-144 | a cell that runs out of bytes means the square's pairs do not fit the stream |
| TopoImport.ReadRow | import_topo.py:139-144 | one cellY row of eight cells is read, or the stream is too short |
| TopoImport.ReadSquareCells | import_topo.py:137-144 | a square's cells are read in order, consuming 4 × (sum of its counts) bytes |
| TopoImport.HeadersAllU16 | import_topo.py:133 | every count read is below 2^16 |
| TopoImport.FilledDecodes | import_topo.py:136-144 | the square filled by the loops is square i of `DecodeZone` |
| TopoImport.ReadGeo | import_topo.py:136-144 | fails iff the `.geo` stream is shorter than 4 × (total count); otherwise every square holds its decoded cells |
| TopoImport.LoadZone | import_topo.py:123-146 | fails iff `DecodeZone` fails; otherwise a fresh zone with the given position and origin holds the decoded squares |
| TopoImport.FirstWithId | import_topo.py:15-22 | the index of the first continent with the id, or the length if none |
| TopoImport.ContinentWithId | import_topo.py:15-22 | None iff no continent has the id; otherwise the first one that does |
| TopoImport.GetContinent | import_topo.py:15-22 | the loop with `break` returns the first continent with the id |
| TopoImport.GroupZonesMember | import_topo.py:156-158 | a zone is listed iff it is in one of the area's zone groups |
| TopoImport.AreaZonesSound | import_topo.py:153-158 | every listed zone comes from some area's group |
| TopoImport.AreaZonesComplete | import_topo.py:153-158 | every zone of every group is listed |
| TopoImport.ZoneList | import_topo.py:152-158 | the nested loops build the continent's zone list |
| TopoImport.SelectedSnoc | import_topo.py:165-171 | the filter keeps a zone iff min_x ≤ x ≤ max_x and min_y ≤ y ≤ max_y |
| TopoImport.SelectedMember | import_topo.py:165-171 | a zone is selected iff it is listed and in bounds |
| TopoImport.SelectedAppend | import_topo.py:165-171 | the filter preserves source order |
| TopoImport.SelectedNext | import_topo.py:165-173 | an in-bounds zone is the next one loaded |
| TopoImport.LoadFromFiles | import_topo.py:172 | loading a zone fails iff its file pair is missing or does not decode |
| TopoImport.LoadSelected | import_topo.py:164-176 | fails iff some selected zone cannot be loaded; otherwise one zone per selected position, in order, each holding its decoded data |
| TopoImport.SelectedFails | import_topo.py:165-173 | one unloadable selected zone fails the whole load |
| TopoImport.HoldsLoaded | import_topo.py:164-176 | after the loop, every selected zone was loaded |
| TopoImport.LoadTopo | import_topo.py:148-178 | an unknown continent fails; otherwise the in-bounds zones of the continent are loaded in order, or the load fails |
| TopoImport.Snapshots | import_topo.py:55-74 | one snapshot per square, each the square's current value |
| TopoImport.CellPointsMember | import_topo.py:65-73 | a point is in a square's layer-k points iff it is the placed position of one of its cells with `volume_idx == k` |
| TopoImport.LayerPointsMember | import_topo.py:62-73 | volume k holds exactly the placed cells with `volume_idx == k`, from every square |
| TopoImport.LayerPointsSound | import_topo.py:62-73 | every point of volume k is such a cell |
| TopoImport.LayerPointsComplete | import_topo.py:62-73 | every such cell is in volume k |
| TopoImport.AddSquarePoints | import_topo.py:65-73 | one square's layer-k points are appended |
| TopoImport.FillVolume | import_topo.py:62-73 | a volume receives its layer's points, square then cell order |
| TopoImport.NewVolume | import_topo.py:61-73 | a fresh volume with index k holds layer k's points |
| TopoImport.CreateVolumes | import_topo.py:55-74 | volumes 0..19, or only 0 when `onlyFirst`; volume k holds exactly the cells with `volume_idx == k` |
| SaveNavmesh.Sign | save_navmesh.py:26-29 | the sign is −1, 0 or 1: 1 iff positive, −1 iff negative |
| SaveNavmesh.UnitQuotient | save_navmesh.py:29 | a / \|a\| is ±1 by the sign of a |
| SaveNavmesh.FirstCase | save_navmesh.py:46-64 | the first case pattern that matches, or none |
| SaveNavmesh.CasesExclusive | save_navmesh.py:47-62 | the eight case patterns are mutually exclusive |
| SaveNavmesh.Direction | save_navmesh.py:32-64 | a direction is a slot in 0..7 |
| SaveNavmesh.CaseOctant | save_navmesh.py:46-62 | case d matches iff the swapped offset lies in octant d |
| SaveNavmesh.DirectionOctant | save_navmesh.py:43-62 | `find_direction` gives d iff the swapped offset (Δy, Δx) lies in octant d |
| SaveNavmesh.DirectionTotal | save_navmesh.py:43-64 | `find_direction` raises iff the offset is zero in x and y |
| SaveNavmesh.EmptyTable | save_navmesh.py:94-104 | a new table has eight −1 neighbours and eight 2147483647 distances |
| SaveNavmesh.TableOf | save_navmesh.py:106-122 | the link loop keeps eight slots |
| SaveNavmesh.TableSlots | save_navmesh.py:106-122 | each slot holds the last distinct link whose direction it is, or keeps its initial value |
| SaveNavmesh.TableFound | save_navmesh.py:108-113 | `found_linked` holds exactly the linked vertices seen |
| SaveNavmesh.RepeatSkipped | save_navmesh.py:111-112 | a repeated vertex leaves the table unchanged |
| SaveNavmesh.TableFailure | save_navmesh.py:119-120 | a raising link ends the loop with that error |
| SaveNavmesh.TableStep | save_navmesh.py:106-122 | the loop handles one link at a time, in order |
| SaveNavmesh.NodeOf | save_navmesh.py:92-124 | node v has index v and eight neighbour and distance slots |
| SaveNavmesh.NodesOf | save_navmesh.py:92-124 | one node per vertex |
| SaveNavmesh.NodesPrefix | save_navmesh.py:92-124 | the first k nodes do not depend on later vertices |
| SaveNavmesh.NodesAt | save_navmesh.py:92-124 | node k is built from the nodes before it |
| SaveNavmesh.NodesFailure | save_navmesh.py:92-124 | a raising vertex ends the loop with that error |
| SaveNavmesh.NoMutualNeighbors | save_navmesh.py:115-117 | with the intended skip, no two nodes list each other as neighbours |
| SaveNavmesh.AsWrittenListsBack | save_navmesh.py:116 | with the skip as written, the two vertices of a single edge list each other |
| SaveNavmesh.BuildNode | save_navmesh.py:93-124 | the imperative loop body builds node v, with the intended skip |
| SaveNavmesh.NodesNext | save_navmesh.py:92-124 | building one more node extends the node list, or raises |
| SaveNavmesh.BuildNodes | save_navmesh.py:92-124 | the imperative node loop builds every node |
| SaveNavmesh.CountInNear | save_navmesh.py:75-87 | the count for a square is the number of nodes near it, at most the number of nodes |
| SaveNavmesh.SquaresOverlap | save_navmesh.py:70-72 | with the full `sq_size` bound, one node counts for two adjacent squares |
| SaveNavmesh.NodesPerSquare | save_navmesh.py:75-87 | the counter loop counts the nodes with \|x − sq_pos_y\| < sq_size and \|y − sq_pos_x\| < sq_size |
| SaveNavmesh.Counts | save_navmesh.py:137-144 | one count per square |
| SaveNavmesh.CountsAt | save_navmesh.py:137-144 | count q is that of square q, in zx, zy, sx, sy order |
| SaveNavmesh.WriteCounts | save_navmesh.py:137-144 | fails iff some count does not fit u16; otherwise gives the counts |
| SaveNavmesh.RunningSums | save_navmesh.py:147-150 | one offset per square |
| SaveNavmesh.RunningSumsAt | save_navmesh.py:147-150 | offset i is the sum of the counts before square i |
| SaveNavmesh.RunningSumsStep | save_navmesh.py:147-150 | the first offset is 0, and each adds the previous count |
| SaveNavmesh.RunningSumsU32 | save_navmesh.py:147-150 | every offset fits u32 |
| SaveNavmesh.Offsets | save_navmesh.py:147-150 | the `tot_idx` loop gives the exclusive prefix sums |
| SaveNavmesh.GdiBytes | save_navmesh.py:127-150 | the `.gdi` file is 20 + 6 × 28800 bytes |
| SaveNavmesh.Round | save_navmesh.py:156-158 | Python `round`: the nearest integer, ties to even |
| SaveNavmesh.Truncs | save_navmesh.py:163 | each distance is written truncated, as `int(nd)` |
| SaveNavmesh.NodRecord | save_navmesh.py:153-163 | a record is 12 bytes of coordinates and 4 bytes per slot |
| SaveNavmesh.Records | save_navmesh.py:153-163 | one record per node |
| SaveNavmesh.Blocks76 | save_navmesh.py:153-163 | records of 76 bytes side by side put record k at 76·k |
| SaveNavmesh.NodFileAt | save_navmesh.py:153-163 | the `.nod` file is 76 bytes per node, record k at 76·k |
| SaveNavmesh.NodFileStep | save_navmesh.py:153-163 | writing one more node appends its record |
| SaveNavmesh.WriteNod | save_navmesh.py:153-163 | fails iff some value does not pack; otherwise writes the records in node order |
| SaveNavmesh.SaveNavmesh | save_navmesh.py:90-163 | fails iff the node loop, the counts or the packing fail; otherwise writes the `.gdi` header, counts and offsets, and the `.nod` records of the nodes built |
| NodeImport.U32At | node_importer.py:19-22 | the k-th u32 is read iff the stream has 4k + 4 bytes |
| NodeImport.ReadHeader | node_importer.py:18-27 | fails iff the `.gdi` has fewer than 20 bytes; size_x = x2 − x1 + 1, size_y = y2 − y1 + 1, and node_count is the fifth u32 |
| NodeImport.HeaderRoundTrip | node_importer.py:18-27 | reading back the `.gdi` that `save_navmesh.py` writes gives bounds 994, 1007, 995, 1007, sizes 2 and 1, and the node count written |
| NodeImport.Reals | node_importer.py:34-35 | each int read becomes the same value, in order |
| NodeImport.Decode | node_importer.py:33-36 | a decoded node has the record's index, one neighbour per i32 and one distance per i32 |
| NodeImport.TableLens | node_importer.py:33-35 | short final reads: how many bytes each slot array gets |
| NodeImport.TableLensOk | node_importer.py:33-35 | a record's arrays are readable iff 12 bytes remain and the tail is whole words |
| NodeImport.ReadRecord | node_importer.py:32-35 | a record read at pos gets index pos / 76 and advances up to 76 bytes |
| NodeImport.ReadRecordEnd | node_importer.py:31-35 | reading a record succeeds iff its tail is readable, and it then advances by the lengths read |
| NodeImport.NodesRead | node_importer.py:30-37 | node_count records are read |
| NodeImport.NodesReadEnd | node_importer.py:31-35 | reading n records succeeds iff the stream holds them, and ends where they end |
| NodeImport.ReadEndAt | node_importer.py:31-35 | that is at 76·n, or at the end of a shorter stream |
| NodeImport.NodesReadPos | node_importer.py:31-35 | the read position after n records is 76·n, or the end of the stream |
| NodeImport.NodesReadOk | node_importer.py:31-35 | reading n records succeeds iff the stream is long enough |
| NodeImport.NodesReadAt | node_importer.py:32 | the k-th record read gets index k, because it starts at 76·k |
| NodeImport.NodesReadFailure | node_importer.py:31-35 | a failing record ends the read |
| NodeImport.Decoded | node_importer.py:36-37 | one node per record |
| NodeImport.ReadNodesAt | node_importer.py:31-37 | node k has index k and decodes the record at 76·k |
| NodeImport.ReadNod | node_importer.py:29-37 | the imperative loop reads the records |
| NodeImport.RecordParts | save_navmesh.py:153-163 | a record is the packed y, x, z, then eight i32 neighbours and eight u32 distances |
| NodeImport.RecordReadsBack | node_importer.py:33-36 | decoding a record gives back the node's neighbours and truncated distances |
| NodeImport.RecordAtReadsBack | node_importer.py:33-36 | the same for a record stored at 76·k of a file |
| NodeImport.NodRoundTrip | node_importer.py:29-37 | reading the `.nod` that `save_navmesh.py` writes gives back node k at index k |
| NodeImport.KeysRead | node_importer.py:37 | the dict's keys are exactly 0..node_count − 1 |
| NodeImport.Vectors | node_importer.py:41-42 | one vector per node |
| NodeImport.VectorsAt | node_importer.py:41-42 | vector k is node k's (x, y, z) |
| NodeImport.NeighborEdgesMember | node_importer.py:44-46 | an edge is emitted iff it leaves from the node and goes to a neighbour that is a key |
| NodeImport.EdgesSound | node_importer.py:41-46 | every edge goes from a node to one of its neighbours that is a key |
| NodeImport.EdgesComplete | node_importer.py:41-46 | every neighbour that is a key gives an edge |
| NodeImport.EdgesRead | node_importer.py:44-46 | every edge joins two nodes read, so −1 slots give none |
| NodeImport.AddNodeEdges | node_importer.py:44-46 | one node's edges are appended |
| NodeImport.MeshData | node_importer.py:39-46 | the vectors and the edges of the nodes read |
| NodeImport.ImportNodes | node_importer.py:18-46 | fails iff the header or the records cannot be read; otherwise gives the vectors and edges of the nodes read |
| Fence.FindAll | fence_importer.py:23 | `findall` keeps the children with the tag, in order |
| Fence.PreOrderAppend | fence_importer.py:19-29 | pre-order of two lists of sections is the concatenation of their pre-orders |
| Fence.PreOrderCons | fence_importer.py:19-29 | a section's fences come before those of its nested sections |
| Fence.FliesFiltered | fence_importer.py:29 | keeping the FlySection children keeps every nested FlySection |
| Fence.PreOrderCount | fence_importer.py:19-29 | the number of lists equals the number of FlySection elements in the tree |
| Fence.Append | fence_importer.py:24-25 | the fences are appended in order |
| Fence.Importer.constructor | fence_importer.py:11-32 | `sections` is the pre-order fence lists of the root's FlySection children |
| Fence.Importer.ParseSections | fence_importer.py:19-29 | the recursion appends the pre-order fence lists of the given sections |
| Fence.ParseFloats | fence_importer.py:78-80 | one `float()` per component, in order |
| Fence.AppendRamp | fence_importer.py:82-83 | after the k-th fence, edges [0,1]..[k−1,k] are appended |
| Fence.BuiltFails | fence_importer.py:74-83 | a fence without 'pos' ends the loop |
| Fence.BuiltShape | fence_importer.py:74-83 | the loop raises iff some fence lacks 'pos'; otherwise one vector per fence |
| Fence.RampsCount | fence_importer.py:82-83 | k fences give k(k+1)/2 edges |
| Fence.RampsEnd | fence_importer.py:82-83 | the last k edges are [0,1]..[k−1,k] |
| Fence.RampsBounds | fence_importer.py:82-83 | every endpoint is at most k, and only the last edge reaches k |
| Fence.PatchedRamps | fence_importer.py:85 | after the patch every endpoint is below k, and the last k edges close the ring |
| Fence.OutlineShape | fence_importer.py:74-85 | one vector per fence, from its 'pos', and k(k+1)/2 edges ending in a closed ring |
| Fence.OutlineErrors | fence_importer.py:74-85 | it raises on a missing 'pos' (None has no `split`), and an empty section raises IndexError |
| Fence.SectionOutline | fence_importer.py:74-85 | the imperative loop computes the outline |
| Fence.Meshes | fence_importer.py:69-103 | the imperative loop computes the meshes |
| Fence.MeshesFail | fence_importer.py:69-103 | a failing section ends the loop |
| Fence.MeshAt | fence_importer.py:87-89 | mesh j is named "FlySection j" and is the outline of section j |
| Fence.MeshesCount | fence_importer.py:69-103 | one mesh per section |
| Fence.MeshesErrors | fence_importer.py:74-85 | an empty section, or a fence without 'pos', fails the import |

## Left out

- **Node field order.** `Node` declares (x, y, z, neighbors, distances,
  idx) at lib/topology.py:60-66. `node_importer.py:36` passes idx first,
  and `save_navmesh.py:93` passes only four arguments. The model's `Node`
  has fields (idx, x, y, z, neighbors, distances), the order both callers
  evidently mean, because the mismatched call shifts every field or
  raises before any logic runs.
- **Volume points.** `Volume` creates a `points` list at
  lib/topology.py:16-19, but import_topo.py:67 appends to `.cells`. The
  model's `Volume` has the `cells` field the caller uses, because
  otherwise `create_volumes` stops with an AttributeError on its first
  cell.
- **Square.contains_point.** It reads `relative_position`, which `Square`
  never sets (lib/topology.py:42-44), and nothing in the core calls it.
  It is not modelled, because every call would raise.
- T3D.Values, MapLevel.Ints and Fence.ParseFloats: `float()` and `int()`
  are total parameters (`flt`, `toInt`). A malformed number therefore
  never raises ValueError in the model. The parse errors that are
  modelled are the structural ones: a missing '=', a missing 'pos'.
- **White space.** `PyStr.IsSpace` covers the ASCII white-space
  characters, U+001C–U+001F, U+0085 and U+00A0. Python's `strip` also
  removes U+1680, U+2000–U+200A, U+2028, U+2029, U+202F, U+205F and
  U+3000; in the model those stay on the ends of a stripped line. The
  lines of an Unreal T3D export and of the terrain list are ASCII.
- **Setup.txt pass.** `Terrain.read_from` opens `Terrains/<map>/<name>/Setup.txt`
  for each terrain and reads the relative location and scale
  (lib/map.py:331-341, tera_map_importer_v2.py:170-178). This is not
  modelled; the model returns the terrains after the grouping loop. The
  pass is a second file read per terrain with no logic beyond the parsing
  already modelled.
- **IEEE singles.** `f32` packing of node coordinates, and `f` unpacking
  in `node_importer.py`, are parameters. Packing is required to produce
  four bytes (`FloatCodec`). The round trip therefore checks the bytes
  and indices read back, not float rounding.
- **Partial files.** When an export or save raises midway, the files are
  left partly written on disk. The model returns `Failure` and no bytes.
- **Blender.** These calls are outside the model:
  - `C.scene.ray_cast`, which is the `Caster` / `UpCaster` oracle;
  - BVH overlap and the bounding-box tests of `setup`, which are the
    abstract `inZone` predicate;
  - `hide_set` (hiding is the `hidden` set), collections, mesh and
    object creation;
  - `apply_transform_to`, `set_transform`, `reframe` and
    `agg_apply_transform_to`;
  - `draw`, `create_point_clouds`, and `from_pydata` in the fence and
    node importers (the model returns the vectors and edges instead).
- **Ray-cast geometry.** `__get_cell_pos` with its `round(..., 3)`, and
  `__get_square_pos`, only compute the ray origin that the oracle
  consumes. They are not modelled.
- **Float rounding of positions.** The upward probe at `z + 0.001`
  (`RayCast.Clearance`, `GeoGenerator.CellHeights`) and the point of
  `create_volumes` (`TopoImport.Place`: `16/10 · (x + 8·sx + 0.5 − 960)`,
  `16/10 · (y + 8·sy + 0.5)` and `z / 10`, import_topo.py:67-72) are
  computed in exact reals, not in IEEE doubles. `calc_length()` of an
  edge is not computed: its value enters as the given `Link.length`.
- **I/O and progress.** File opening, paths, `os.path.exists` (a boolean
  parameter of `Terrains.TerrainsOf`) and ElementTree parsing (the parsed
  tree is an `Element` value) are not modelled. Neither are printing,
  ETA and time tracking (`lib/printer.py`, `lib/time_tracker.py`).
- TopoImport.LoadZone: a stream that is too short is one `Failure`, not
  the exact exception kind the `array` / `struct` calls raise. Extra
  trailing bytes are ignored, as the source ignores them.
- **v2 duplicates.** The v2 `parse_name` and `parse_mesh_path`
  (tera_map_importer_v2.py:37-38, 59-61) are the lib/t3d_utils.py
  expressions character for character. The v2 reader uses
  `T3D.ParseName` and `T3D.ParseMeshPath`. Likewise, v2's
  `Terrain.__init__` and line loop (tera_map_importer_v2.py:142-185) are
  those of lib/map.py, with v2's vector parser passed in. Their
  properties are the `Terrains` rows.
- **Drivers.** The `generate_geo` driver (lib/ray_cast.py:418-446) only
  calls setup, generate_cells, generate_heights, draw, cleanup and export
  in that order. Each step is modelled; the sequence is not.
- **Other files.** `generate_geo.py`, `import_map.py`,
  `lib/map_importer.py`, `lib/scene_utils.py`, the top-level
  `ray_cast.py` and `snap_navmesh.py` are Blender glue with no logic of
  their own. They are not part of this model.

## Findings

| source | as written | input that shows it | evidently intended | confidence | as-written member | corrected member |
|---|---|---|---|---|---|---|
| save_navmesh.py:116 | `other in nodes` tests a mesh vertex against a dict keyed by int indices, so it is always False and the skip never applies | a mesh with the single edge 0–1: node 0 lists 1 and node 1 lists 0 | skip a target that already lists this node (`other.index in nodes`), so that no link is written in both directions | high, not executed | SaveNavmesh.AsWrittenListsBack | SaveNavmesh.NoMutualNeighbors |
| tera_map_importer_v2.py:44 | `.trim()` is not a `str` method, so `parse_class` raises AttributeError on every line containing "Class=" (v2's `read_from` never calls it) | `Begin Actor Class=/Script/Engine.StaticMeshActor Name=A` | `.strip()`, as lib/t3d_utils.py has it, giving "StaticMeshActor" | high, not executed | ImporterV2.ParseClassV2Raises | T3D.ParseClassAt |
| lib/topology.py:54-56 | `point2d.x / SIZE` is a float, and a float is `in range(r, r + 1)` only when it equals r, so only the zone's corner is inside | the point (r.x·SIZE + 1, r.y·SIZE + 1) of the zone's own tile | the point lies in the zone's SIZE × SIZE tile | medium, not executed | Topology.ContainsPointMissesInterior | Topology.ContainsPointInTileSpec |
