/**
 * `import_topo.py`: `load_zone`, which reads a zone's `.idx` and `.geo`
 * streams into `Square` objects; `get_continent`; the zone list and zone
 * filter of `load_topo`; and `create_volumes`, which groups the samples of
 * a zone by layer.
 */
module TopoImport {
  import opened Wrappers
  import opened Bytes
  import opened Topology
  import opened GeoLayout
  import opened Numeric

  // ---------------------------------------------------------------------
  // load_zone: the index stream

  /** What a square object holds, as the value `DecodeZone` describes. */
  function Snapshot(s: Square): SquareData
    reads s
  {
    SquareData(s.x, s.y, s.geoDataCount, s.volumesPerCell, s.cells)
  }

  /** Square object i carries the i-th header of idx and its grid position. */
  predicate HeaderOf(s: Square, idx: seq<byte>, i: nat)
  {
    132 * (i + 1) <= |idx|
    && s.x == i % 120 && s.y == i / 120
    && s.geoDataCount == HeaderAt(idx, i).count && s.volumesPerCell == HeaderAt(idx, i).perCell
  }

  /** The square objects read so far: the headers in order, no object twice. */
  predicate HeadersRead(idx: seq<byte>, sqs: seq<Square>)
  {
    132 * |sqs| <= |idx|
    && (forall i :: 0 <= i < |sqs| ==> HeaderOf(sqs[i], idx, i))
    && (forall i, j :: 0 <= i < j < |sqs| ==> sqs[i] != sqs[j])
  }

  /** No square has cells yet. */
  predicate Blank(sqs: seq<Square>)
    reads sqs
  {
    forall i :: 0 <= i < |sqs| ==> sqs[i].cells == []
  }

  /** The squares of grid row sy, squareX ascending, after the n0 squares of the rows before it. */
  method ReadHeaderRow(idx: seq<byte>, sy: int, n0: nat, acc: seq<Square>) returns (r: Result<seq<Square>, string>)
    requires 0 <= sy < 120 && n0 == 120 * sy && |acc| == n0 && HeadersRead(idx, acc) && Blank(acc)
    ensures r.Failure? <==> |idx| < 132 * (n0 + 120)
    ensures r.Ok? ==> |r.value| == n0 + 120 && r.value[..n0] == acc && HeadersRead(idx, r.value) && Blank(r.value)
    ensures r.Ok? ==> forall i :: n0 <= i < |r.value| ==> fresh(r.value[i])
  {
    var sqs := acc;
    var n := n0;
    for sx := 0 to 120
      invariant n == n0 + sx && |sqs| == n && sqs[..n0] == acc
      invariant HeadersRead(idx, sqs) && Blank(sqs)
      invariant forall i :: n0 <= i < n ==> fresh(sqs[i])
    {
      var p := 132 * n;
      if |idx| < p + 132 {
        return Failure("short index stream");
      }
      var count := DecodeU32(idx[p..p + 4]);
      var perCell := Words16(idx[p + 4..p + 132]).value;
      DivMod(n, 120, sy, sx);
      var s := new Square(sx, sy, count, perCell);
      sqs := sqs + [s];
      n := n + 1;
    }
    return Ok(sqs);
  }

  /** The 120 x 120 square headers, squareY outer and squareX inner; a short stream is an error. */
  method ReadHeaders(idx: seq<byte>) returns (r: Result<seq<Square>, string>)
    ensures r.Failure? <==> |idx| < HEADER_SIZE * SQUARE_COUNT
    ensures r.Ok? ==> |r.value| == SQUARE_COUNT && HeadersRead(idx, r.value) && Blank(r.value)
    ensures r.Ok? ==> forall i :: 0 <= i < |r.value| ==> fresh(r.value[i])
  {
    var sqs: seq<Square> := [];
    var n := 0;
    for sy := 0 to 120
      invariant n == 120 * sy && |sqs| == n && HeadersRead(idx, sqs) && Blank(sqs)
      invariant forall i :: 0 <= i < n ==> fresh(sqs[i])
    {
      var row := ReadHeaderRow(idx, sy, n, sqs);
      if row.Failure? {
        return Failure(row.error);
      }
      sqs := row.value;
      n := n + 120;
    }
    return Ok(sqs);
  }

  // ---------------------------------------------------------------------
  // load_zone: the geo stream

  /** A sum of u16 words is at least that of any of its prefixes. */
  lemma {:induction false} SumPrefix(s: seq<int>, k: nat)
    requires AllU16(s) && k <= |s|
    ensures 0 <= Sum(s[..k]) <= Sum(s)
    decreases |s|
  {
    SumBound(s[..k]);
    if k < |s| {
      var init := s[..|s| - 1];
      assert init[..k] == s[..k];
      assert AllU16(init) by { forall i | 0 <= i < |init| ensures 0 <= init[i] < TWO_16 { assert init[i] == s[i]; } }
      SumPrefix(init, k);
      assert Sum(s) == Sum(init) + s[|s| - 1];
    } else {
      assert s[..k] == s;
    }
  }

  lemma CellPairsSnoc(g: seq<byte>, p: nat, cx: int, cy: int, v: nat)
    requires p + 4 * (v + 1) <= |g|
    ensures CellPairs(g, p, cx, cy, v + 1) == CellPairs(g, p, cx, cy, v)
      + [Cell(cx, cy, DecodeU16(g[p + 4 * v..p + 4 * v + 2]), DecodeU16(g[p + 4 * v + 2..p + 4 * v + 4]), v)]
  {
  }

  /** The n samples of cell (cx, cy), read from offset pos of geo onto the square's cells. */
  method ReadCell(s: Square, geo: seq<byte>, cx: int, cy: int, pos: nat, n: nat) returns (r: Result<nat, string>)
    requires pos <= |geo|
    modifies s
    ensures r.Failure? ==> |geo| < pos + 4 * n
    ensures r.Ok? ==> r.value == pos + 4 * n && r.value <= |geo|
    ensures r.Ok? ==> s.cells == old(s.cells) + CellPairs(geo, pos, cx, cy, n)
  {
    for v := 0 to n
      invariant pos + 4 * v <= |geo| && s.cells == old(s.cells) + CellPairs(geo, pos, cx, cy, v)
    {
      var p := pos + 4 * v;
      if |geo| < p + 4 {
        return Failure("short geo stream");
      }
      var z := DecodeU16(geo[p..p + 2]);
      var h := DecodeU16(geo[p + 2..p + 4]);
      CellPairsSnoc(geo, pos, cx, cy, v);
      s.AddCell(Cell(cx, cy, z, h, v));
    }
    return Ok(pos + 4 * n);
  }

  /**
   * The first j cells of a square (row order) are read: the stream offset
   * has moved past their samples and the square holds them.
   */
  predicate Progress(g: seq<byte>, p: nat, vpc: seq<int>, j: nat, pos: nat, cells: seq<Cell>)
  {
    j <= |vpc| && AllU16(vpc) && AllU16(vpc[..j]) && 0 <= Sum(vpc[..j])
    && pos == p + 4 * Sum(vpc[..j]) && pos <= |g|
    && cells == ReadSquare(g, p, vpc[..j])
  }

  lemma ProgressStart(g: seq<byte>, p: nat, vpc: seq<int>)
    requires AllU16(vpc) && p <= |g|
    ensures Progress(g, p, vpc, 0, p, [])
  {
    assert vpc[..0] == [];
  }

  lemma ProgressStep(g: seq<byte>, p: nat, vpc: seq<int>, j: nat, pos: nat, cells: seq<Cell>, cx: int, cy: int)
    requires Progress(g, p, vpc, j, pos, cells) && j < |vpc|
    requires j == 8 * cy + cx && 0 <= cx < 8 && 0 <= cy
    requires pos + 4 * vpc[j] <= |g|
    ensures Progress(g, p, vpc, j + 1, pos + 4 * vpc[j], cells + CellPairs(g, pos, cx, cy, vpc[j]))
  {
    var a := vpc[..j];
    assert a + [vpc[j]] == vpc[..j + 1];
    DivMod(j, 8, cy, cx);
    ReadSquareSnoc(g, p, a, vpc[j]);
  }

  lemma ProgressFail(g: seq<byte>, p: nat, vpc: seq<int>, j: nat, pos: nat)
    requires AllU16(vpc) && j < |vpc| && pos == p + 4 * Sum(vpc[..j])
    requires |g| < pos + 4 * vpc[j]
    ensures |g| < p + 4 * Sum(vpc)
  {
    assert vpc[..j] + [vpc[j]] == vpc[..j + 1];
    SumSnoc(vpc[..j], vpc[j]);
    SumPrefix(vpc, j + 1);
  }

  /** The cells of row cy of a square, cellX ascending. */
  method ReadRow(s: Square, geo: seq<byte>, p: nat, cy: int, pos0: nat) returns (r: Result<nat, string>)
    requires 0 <= cy < 8 && |s.volumesPerCell| == 64
    requires Progress(geo, p, s.volumesPerCell, 8 * cy, pos0, s.cells)
    modifies s
    ensures r.Failure? ==> |geo| < p + 4 * Sum(s.volumesPerCell)
    ensures r.Ok? ==> Progress(geo, p, s.volumesPerCell, 8 * cy + 8, r.value, s.cells)
  {
    var pos := pos0;
    var j := 8 * cy;
    for cx := 0 to 8
      invariant j == 8 * cy + cx && Progress(geo, p, s.volumesPerCell, j, pos, s.cells)
    {
      var n := s.volumesPerCell[j];
      ghost var before := s.cells;
      var next := ReadCell(s, geo, cx, cy, pos, n);
      if next.Failure? {
        ProgressFail(geo, p, s.volumesPerCell, j, pos);
        return Failure(next.error);
      }
      ProgressStep(geo, p, s.volumesPerCell, j, pos, before, cx, cy);
      pos := next.value;
      j := j + 1;
    }
    return Ok(pos);
  }

  /** The samples of one square, cellY outer and cellX inner, read from offset p. */
  method ReadSquareCells(s: Square, geo: seq<byte>, p: nat) returns (r: Result<nat, string>)
    requires |s.volumesPerCell| == 64 && AllU16(s.volumesPerCell) && s.cells == [] && p <= |geo|
    modifies s
    ensures r.Failure? ==> |geo| < p + 4 * Sum(s.volumesPerCell)
    ensures r.Ok? ==> r.value == p + 4 * Sum(s.volumesPerCell) && r.value <= |geo|
    ensures r.Ok? ==> s.cells == ReadSquare(geo, p, s.volumesPerCell)
  {
    ProgressStart(geo, p, s.volumesPerCell);
    var pos := p;
    for cy := 0 to 8
      invariant Progress(geo, p, s.volumesPerCell, 8 * cy, pos, s.cells)
    {
      var next := ReadRow(s, geo, p, cy, pos);
      if next.Failure? {
        return Failure(next.error);
      }
      pos := next.value;
    }
    assert s.volumesPerCell[..64] == s.volumesPerCell;
    return Ok(pos);
  }

  /** Square i holds its cells, read from where the squares before it end. */
  predicate Filled(s: Square, geo: seq<byte>, i: nat, hs: seq<Header>)
    reads s
  {
    i < |hs| && HeadersU16(hs) && 4 * Total(hs, i) + 4 * Sum(hs[i].perCell) <= |geo|
    && s.cells == ReadSquare(geo, 4 * Total(hs, i), hs[i].perCell)
  }

  lemma HeadersAllU16(idx: seq<byte>)
    requires HEADER_SIZE * SQUARE_COUNT <= |idx|
    ensures HeadersU16(Headers(idx))
  {
  }

  /** A square read in place is the square `DecodeZone` describes. */
  lemma FilledDecodes(s: Square, idx: seq<byte>, geo: seq<byte>, i: nat)
    requires HEADER_SIZE * SQUARE_COUNT <= |idx| && HeaderOf(s, idx, i) && Filled(s, geo, i, Headers(idx))
    requires DecodeZone(idx, geo).Ok?
    ensures i < |DecodeZone(idx, geo).value| && Snapshot(s) == DecodeZone(idx, geo).value[i]
  {
  }

  /** Every square's samples, squares in header order; a short stream is an error. */
  method ReadGeo(sqs: seq<Square>, ghost idx: seq<byte>, geo: seq<byte>) returns (r: Result<(), string>)
    requires |sqs| == SQUARE_COUNT && HeadersRead(idx, sqs) && Blank(sqs)
    modifies sqs
    ensures HEADER_SIZE * SQUARE_COUNT <= |idx| && HeadersU16(Headers(idx))
    ensures r.Failure? <==> |geo| < 4 * Total(Headers(idx), SQUARE_COUNT)
    ensures r.Ok? ==> forall i :: 0 <= i < SQUARE_COUNT ==> Filled(sqs[i], geo, i, Headers(idx))
  {
    HeadersAllU16(idx);
    ghost var hs := Headers(idx);
    var pos := 0;
    for q := 0 to |sqs|
      invariant pos == 4 * Total(hs, q) && pos <= |geo|
      invariant forall i :: 0 <= i < q ==> Filled(sqs[i], geo, i, hs)
      invariant forall i :: q <= i < |sqs| ==> sqs[i].cells == []
    {
      var s := sqs[q];
      assert HeaderOf(s, idx, q);
      var next := ReadSquareCells(s, geo, pos);
      if next.Failure? {
        TotalMono(hs, q, SQUARE_COUNT);
        return Failure(next.error);
      }
      pos := next.value;
    }
    return Ok(());
  }

  /** The zone's squares are the objects z holds, each as `DecodeZone` reads the streams. */
  predicate Loaded(z: Zone, f: Streams)
    reads z.squares
  {
    DecodeZone(f.idx, f.geo).Ok? && Holds(z, DecodeZone(f.idx, f.geo).value)
  }

  /** The zone's square objects hold the values d. */
  predicate Holds(z: Zone, d: seq<SquareData>)
    reads z.squares
  {
    |z.squares| == |d| && forall q :: 0 <= q < |z.squares| ==> Snapshot(z.squares[q]) == d[q]
  }

  /**
   * `load_zone(position, origin)` on the zone's two streams: it fails
   * exactly where the decoding fails, and otherwise builds the zone whose
   * squares hold what the decoding reads.
   */
  method LoadZone(f: Streams, position: Point2D<int>, origin: Point2D<int>) returns (r: Result<Zone, string>)
    ensures r.Failure? <==> DecodeZone(f.idx, f.geo).Failure?
    ensures r.Ok? ==> fresh(r.value) && r.value.position == position && r.value.origin == origin
    ensures r.Ok? ==> Loaded(r.value, f)
  {
    var sqs := ReadHeaders(f.idx);
    if sqs.Failure? {
      return Failure(sqs.error);
    }
    var read := ReadGeo(sqs.value, f.idx, f.geo);
    if read.Failure? {
      return Failure(read.error);
    }
    forall q | 0 <= q < SQUARE_COUNT
      ensures Snapshot(sqs.value[q]) == DecodeZone(f.idx, f.geo).value[q]
    {
      FilledDecodes(sqs.value[q], f.idx, f.geo, q);
    }
    var zone := new Zone(sqs.value, position, origin);
    return Ok(zone);
  }

  // ---------------------------------------------------------------------
  // AreaList: get_continent and the zones of load_topo

  /** A `<Zones>` element: the positions (`x`, `y`) of its `<Zone>` children. */
  type ZoneGroup = seq<Point2D<int>>

  /** An `<Area>` element: its `<Zones>` children. */
  datatype Area = Area(zoneGroups: seq<ZoneGroup>)

  /** A `<Continent>` element, with its attributes read as integers. */
  datatype Continent = Continent(id: int, originZoneX: int, originZoneY: int, areas: seq<Area>)

  /** The position of the first continent whose id is id; |cs| when there is none. */
  function FirstWithId(cs: seq<Continent>, id: int): (i: nat)
    ensures i <= |cs| && (i < |cs| ==> cs[i].id == id)
    ensures forall j :: 0 <= j < i ==> cs[j].id != id
  {
    if cs == [] || cs[0].id == id then 0 else 1 + FirstWithId(cs[1..], id)
  }

  /** The first continent whose id is id, if there is one. */
  function ContinentWithId(cs: seq<Continent>, id: int): (r: Option<Continent>)
    ensures r.None? <==> forall i :: 0 <= i < |cs| ==> cs[i].id != id
    ensures r.Some? ==>
      exists i :: 0 <= i < |cs| && cs[i] == r.value && r.value.id == id && forall j :: 0 <= j < i ==> cs[j].id != id
  {
    var i := FirstWithId(cs, id);
    if i < |cs| then Some(cs[i]) else None
  }

  /** `get_continent(id)`: the loop that stops at the first match. */
  method GetContinent(continents: seq<Continent>, id: int) returns (r: Option<Continent>)
    ensures r == ContinentWithId(continents, id)
  {
    r := None;
    var i := 0;
    while i < |continents|
      invariant 0 <= i <= |continents| && r == None
      invariant forall j :: 0 <= j < i ==> continents[j].id != id
    {
      if continents[i].id == id {
        r := Some(continents[i]);
        break;
      }
      i := i + 1;
    }
  }

  /** The `<Zone>` children of the `<Zones>` groups gs, in document order. */
  function GroupZones(gs: seq<ZoneGroup>): seq<Point2D<int>>
  {
    if gs == [] then [] else GroupZones(gs[..|gs| - 1]) + gs[|gs| - 1]
  }

  /** The zones of the areas, in document order: the list load_topo filters. */
  function AreaZones(areas: seq<Area>): seq<Point2D<int>>
  {
    if areas == [] then [] else AreaZones(areas[..|areas| - 1]) + GroupZones(areas[|areas| - 1].zoneGroups)
  }

  lemma {:induction false} GroupZonesMember(gs: seq<ZoneGroup>, p: Point2D<int>)
    ensures p in GroupZones(gs) <==> exists g :: 0 <= g < |gs| && p in gs[g]
  {
    if gs != [] {
      var init := gs[..|gs| - 1];
      GroupZonesMember(init, p);
      if p in GroupZones(gs) && p !in gs[|gs| - 1] {
        var g :| 0 <= g < |init| && p in init[g];
        assert gs[g] == init[g];
      }
      if exists g :: 0 <= g < |gs| && p in gs[g] {
        var g :| 0 <= g < |gs| && p in gs[g];
        if g < |init| {
          assert init[g] == gs[g];
        }
      }
    }
  }

  /** Every zone of the list comes from some `<Zones>` group of some area. */
  lemma {:induction false} AreaZonesSound(areas: seq<Area>, p: Point2D<int>)
    requires p in AreaZones(areas)
    ensures exists a, g :: 0 <= a < |areas| && 0 <= g < |areas[a].zoneGroups| && p in areas[a].zoneGroups[g]
  {
    var init := areas[..|areas| - 1];
    var last := areas[|areas| - 1];
    assert AreaZones(areas) == AreaZones(init) + GroupZones(last.zoneGroups);
    if p in GroupZones(last.zoneGroups) {
      GroupZonesMember(last.zoneGroups, p);
      var g :| 0 <= g < |last.zoneGroups| && p in last.zoneGroups[g];
      assert p in areas[|areas| - 1].zoneGroups[g];
    } else {
      AreaZonesSound(init, p);
      var a, g :| 0 <= a < |init| && 0 <= g < |init[a].zoneGroups| && p in init[a].zoneGroups[g];
      assert p in areas[a].zoneGroups[g];
    }
  }

  /** Every zone of every `<Zones>` group of every area is in the list. */
  lemma {:induction false} AreaZonesComplete(areas: seq<Area>, a: nat, g: nat, p: Point2D<int>)
    requires a < |areas| && g < |areas[a].zoneGroups| && p in areas[a].zoneGroups[g]
    ensures p in AreaZones(areas)
  {
    var init := areas[..|areas| - 1];
    var last := areas[|areas| - 1];
    assert AreaZones(areas) == AreaZones(init) + GroupZones(last.zoneGroups);
    if a == |areas| - 1 {
      GroupZonesMember(last.zoneGroups, p);
    } else {
      assert init[a] == areas[a];
      AreaZonesComplete(init, a, g, p);
    }
  }

  /** The zone list of `load_topo`: every `<Zone>` of every `<Zones>` of every `<Area>`. */
  method ZoneList(c: Continent) returns (zl: seq<Point2D<int>>)
    ensures zl == AreaZones(c.areas)
  {
    zl := [];
    for a := 0 to |c.areas|
      invariant zl == AreaZones(c.areas[..a])
    {
      var area := c.areas[a];
      var before := zl;
      for g := 0 to |area.zoneGroups|
        invariant zl == before + GroupZones(area.zoneGroups[..g])
      {
        assert area.zoneGroups[..g + 1][..g] == area.zoneGroups[..g];
        zl := zl + area.zoneGroups[g];
      }
      assert area.zoneGroups[..|area.zoneGroups|] == area.zoneGroups;
      assert c.areas[..a + 1][..a] == c.areas[..a];
    }
    assert c.areas[..|c.areas|] == c.areas;
  }

  // ---------------------------------------------------------------------
  // load_topo

  /** The bounds `min_x`, `max_x`, `min_y`, `max_y` of `load_topo`. */
  datatype Bounds = Bounds(minX: int, maxX: int, minY: int, maxY: int)

  predicate InBounds(p: Point2D<int>, b: Bounds)
  {
    b.minX <= p.x <= b.maxX && b.minY <= p.y <= b.maxY
  }

  /** The positions load_topo keeps, in their order. */
  function Selected(ps: seq<Point2D<int>>, b: Bounds): seq<Point2D<int>>
  {
    if ps == [] then []
    else Selected(ps[..|ps| - 1], b) + (if InBounds(ps[|ps| - 1], b) then [ps[|ps| - 1]] else [])
  }

  lemma SelectedSnoc(ps: seq<Point2D<int>>, p: Point2D<int>, b: Bounds)
    ensures Selected(ps + [p], b) == Selected(ps, b) + (if InBounds(p, b) then [p] else [])
  {
    assert (ps + [p])[..|ps|] == ps;
  }

  lemma SelectedPrefix(l: seq<Point2D<int>>, i: nat, b: Bounds)
    requires i < |l|
    ensures Selected(l[..i + 1], b) == Selected(l[..i], b) + (if InBounds(l[i], b) then [l[i]] else [])
  {
    assert l[..i + 1] == l[..i] + [l[i]];
    SelectedSnoc(l[..i], l[i], b);
  }

  /** The filter keeps exactly the positions inside the bounds. */
  lemma {:induction false} SelectedMember(ps: seq<Point2D<int>>, b: Bounds, p: Point2D<int>)
    ensures p in Selected(ps, b) <==> p in ps && InBounds(p, b)
  {
    if ps != [] {
      var init := ps[..|ps| - 1];
      SelectedMember(init, b, p);
      assert ps == init + [ps[|ps| - 1]];
    }
  }

  /** The filter keeps the order of the list: filtering a concatenation filters each part. */
  lemma {:induction false} SelectedAppend(ps: seq<Point2D<int>>, qs: seq<Point2D<int>>, b: Bounds)
    ensures Selected(ps + qs, b) == Selected(ps, b) + Selected(qs, b)
    decreases |qs|
  {
    if qs == [] {
      assert ps + qs == ps;
    } else {
      var init := qs[..|qs| - 1];
      var last := qs[|qs| - 1];
      SelectedAppend(ps, init, b);
      assert ps + qs == (ps + init) + [last];
      SelectedSnoc(ps + init, last, b);
      assert qs == init + [last];
      SelectedSnoc(init, last, b);
    }
  }

  /** The zone at p has its two files and they decode. */
  predicate Loadable(p: Point2D<int>, files: map<Point2D<int>, Streams>)
  {
    p in files && DecodeZone(files[p].idx, files[p].geo).Ok?
  }

  /** Every selected zone has its two files and they decode. */
  predicate AllLoadable(sel: seq<Point2D<int>>, files: map<Point2D<int>, Streams>)
  {
    forall i :: 0 <= i < |sel| ==> Loadable(sel[i], files)
  }

  /** One zone of `load_topo`, loaded from its files. */
  method LoadFromFiles(pos: Point2D<int>, files: map<Point2D<int>, Streams>, origin: Point2D<int>)
    returns (r: Result<Zone, string>)
    ensures r.Failure? <==> !Loadable(pos, files)
    ensures r.Ok? ==> fresh(r.value) && r.value.position == pos && r.value.origin == origin
    ensures r.Ok? ==> Loaded(r.value, files[pos])
  {
    if pos !in files {
      return Failure("No such file or directory");
    }
    r := LoadZone(files[pos], pos, origin);
  }

  /** The position at |pre| of the selection of l is the one that follows pre's selection. */
  lemma SelectedNext(l: seq<Point2D<int>>, i: nat, b: Bounds)
    requires i < |l| && InBounds(l[i], b)
    ensures var pre := Selected(l[..i], b);
      |pre| < |Selected(l, b)| && Selected(l, b)[|pre|] == l[i]
  {
    assert l == l[..i] + [l[i]] + l[i + 1..];
    SelectedAppend(l[..i] + [l[i]], l[i + 1..], b);
    SelectedSnoc(l[..i], l[i], b);
  }

  /**
   * `load_zone(pos, origin)` for the next zone, appended to the zones
   * loaded before: those keep their squares, and the new one sits at pos
   * and holds what its streams decode to (d).
   */
  method LoadNext(zones: seq<Zone>, ghost sel: seq<Point2D<int>>, ghost datas: seq<seq<SquareData>>, pos: Point2D<int>,
                  files: map<Point2D<int>, Streams>, origin: Point2D<int>)
    returns (r: Result<seq<Zone>, string>, ghost d: seq<SquareData>)
    requires |zones| == |sel| && |datas| == |sel|
    requires forall j :: 0 <= j < |sel| ==>
      sel[j] in files && DecodeZone(files[sel[j]].idx, files[sel[j]].geo) == Ok(datas[j])
    requires forall j :: 0 <= j < |sel| ==> zones[j].position == sel[j] && zones[j].origin == origin
    requires forall j :: 0 <= j < |sel| ==> Holds(zones[j], datas[j])
    ensures r.Failure? <==> !Loadable(pos, files)
    ensures r.Ok? ==> var sel', datas' := sel + [pos], datas + [d];
      |r.value| == |sel'|
      && (forall j :: 0 <= j < |sel'| ==>
            sel'[j] in files && DecodeZone(files[sel'[j]].idx, files[sel'[j]].geo) == Ok(datas'[j]))
      && (forall j :: 0 <= j < |sel'| ==> r.value[j].position == sel'[j] && r.value[j].origin == origin)
      && (forall j :: 0 <= j < |sel'| ==> Holds(r.value[j], datas'[j]))
  {
    var zone := LoadFromFiles(pos, files, origin);
    if zone.Failure? {
      return Failure(zone.error), [];
    }
    d := LoadedData(zone.value, files[pos]);
    HoldsAppend(zones, datas, zones + [zone.value], d);
    PlacedAppend(zones, sel, zone.value, pos, origin);
    DecodedAppend(sel, datas, pos, d, files);
    r := Ok(zones + [zone.value]);
  }

  lemma DecodedAppend(sel: seq<Point2D<int>>, datas: seq<seq<SquareData>>, pos: Point2D<int>, d: seq<SquareData>,
                      files: map<Point2D<int>, Streams>)
    requires |datas| == |sel|
    requires forall j :: 0 <= j < |sel| ==>
      sel[j] in files && DecodeZone(files[sel[j]].idx, files[sel[j]].geo) == Ok(datas[j])
    requires pos in files && DecodeZone(files[pos].idx, files[pos].geo) == Ok(d)
    ensures forall j :: 0 <= j < |sel| + 1 ==>
      (sel + [pos])[j] in files && DecodeZone(files[(sel + [pos])[j]].idx, files[(sel + [pos])[j]].geo) == Ok((datas + [d])[j])
  {
    forall j | 0 <= j < |sel| + 1
      ensures (sel + [pos])[j] in files && DecodeZone(files[(sel + [pos])[j]].idx, files[(sel + [pos])[j]].geo) == Ok((datas + [d])[j])
    {
      if j < |sel| {
        assert (sel + [pos])[j] == sel[j] && (datas + [d])[j] == datas[j];
      }
    }
  }

  /** The values a loaded zone holds: what `DecodeZone` reads from its streams. */
  ghost function LoadedData(z: Zone, f: Streams): (d: seq<SquareData>)
    reads z.squares
    requires Loaded(z, f)
    ensures DecodeZone(f.idx, f.geo) == Ok(d) && Holds(z, d)
  {
    DecodeZone(f.idx, f.geo).value
  }

  lemma PlacedAppend(zones: seq<Zone>, sel: seq<Point2D<int>>, z: Zone, pos: Point2D<int>, origin: Point2D<int>)
    requires |zones| == |sel| && forall j :: 0 <= j < |sel| ==> zones[j].position == sel[j] && zones[j].origin == origin
    requires z.position == pos && z.origin == origin
    ensures forall j :: 0 <= j < |sel| + 1 ==>
      (zones + [z])[j].position == (sel + [pos])[j] && (zones + [z])[j].origin == origin
  {
  }

  lemma HoldsAppend(zones: seq<Zone>, datas: seq<seq<SquareData>>, next: seq<Zone>, d: seq<SquareData>)
    requires |zones| == |datas| && |next| == |zones| + 1
    requires forall j :: 0 <= j < |zones| ==> Holds(next[j], datas[j])
    requires Holds(next[|zones|], d)
    ensures forall j :: 0 <= j < |next| ==> Holds(next[j], (datas + [d])[j])
  {
    forall j | 0 <= j < |next| ensures Holds(next[j], (datas + [d])[j]) {
      if j < |zones| {
        assert (datas + [d])[j] == datas[j];
      } else {
        assert (datas + [d])[j] == d;
      }
    }
  }

  /** The zones of the list that lie inside the bounds, each loaded from its files, in list order. */
  method LoadSelected(zoneList: seq<Point2D<int>>, b: Bounds, files: map<Point2D<int>, Streams>, origin: Point2D<int>)
    returns (r: Result<seq<Zone>, string>)
    ensures r.Failure? <==> !AllLoadable(Selected(zoneList, b), files)
    ensures r.Ok? ==> var sel := Selected(zoneList, b);
      |r.value| == |sel| && forall i :: 0 <= i < |sel| ==>
        r.value[i].position == sel[i] && r.value[i].origin == origin && Loaded(r.value[i], files[sel[i]])
  {
    var zones: seq<Zone> := [];
    ghost var sel: seq<Point2D<int>> := [];
    ghost var datas: seq<seq<SquareData>> := [];
    for i := 0 to |zoneList|
      invariant sel == Selected(zoneList[..i], b) && |zones| == |sel| && |datas| == |sel|
      invariant forall j :: 0 <= j < |sel| ==>
        sel[j] in files && DecodeZone(files[sel[j]].idx, files[sel[j]].geo) == Ok(datas[j])
      invariant forall j :: 0 <= j < |sel| ==> zones[j].position == sel[j] && zones[j].origin == origin
      invariant forall j :: 0 <= j < |sel| ==> Holds(zones[j], datas[j])
    {
      var pos := zoneList[i];
      SelectedPrefix(zoneList, i, b);
      if InBounds(pos, b) {
        var next, d := LoadNext(zones, sel, datas, pos, files, origin);
        if next.Failure? {
          SelectedFails(zoneList, i, b, files);
          return Failure(next.error);
        }
        zones := next.value;
        sel := sel + [pos];
        datas := datas + [d];
      }
    }
    assert zoneList[..|zoneList|] == zoneList;
    HoldsLoaded(zones, sel, datas, files);
    return Ok(zones);
  }

  /** A selected zone that cannot be loaded makes the whole selection fail. */
  lemma SelectedFails(l: seq<Point2D<int>>, i: nat, b: Bounds, files: map<Point2D<int>, Streams>)
    requires i < |l| && InBounds(l[i], b) && !Loadable(l[i], files)
    ensures !AllLoadable(Selected(l, b), files)
  {
    SelectedNext(l, i, b);
  }

  /** Zones holding what their files decode to are loaded from those files. */
  lemma HoldsLoaded(zones: seq<Zone>, sel: seq<Point2D<int>>, datas: seq<seq<SquareData>>,
                    files: map<Point2D<int>, Streams>)
    requires |zones| == |sel| && |datas| == |sel|
    requires forall j :: 0 <= j < |sel| ==>
      sel[j] in files && DecodeZone(files[sel[j]].idx, files[sel[j]].geo) == Ok(datas[j])
    requires forall j :: 0 <= j < |sel| ==> Holds(zones[j], datas[j])
    ensures AllLoadable(sel, files)
    ensures forall j :: 0 <= j < |sel| ==> Loaded(zones[j], files[sel[j]])
  {
    forall j | 0 <= j < |sel| ensures Loadable(sel[j], files) && Loaded(zones[j], files[sel[j]]) {
      assert Holds(zones[j], datas[j]);
    }
  }

  /**
   * `load_topo`: the origin and the zone list of the continent, then every
   * zone inside the bounds loaded from its two files, in list order. An
   * unknown continent, a missing file or a stream that does not decode is
   * an error.
   */
  method LoadTopo(continents: seq<Continent>, id: int, b: Bounds, files: map<Point2D<int>, Streams>)
    returns (r: Result<seq<Zone>, string>)
    ensures ContinentWithId(continents, id).None? ==> r.Failure?
    ensures ContinentWithId(continents, id).Some? ==>
      var c := ContinentWithId(continents, id).value;
      var sel := Selected(AreaZones(c.areas), b);
      (r.Failure? <==> !AllLoadable(sel, files))
      && (r.Ok? ==> |r.value| == |sel| && forall i :: 0 <= i < |sel| ==>
            r.value[i].position == sel[i] && r.value[i].origin == Point2D(c.originZoneX, c.originZoneY)
            && Loaded(r.value[i], files[sel[i]]))
  {
    var c := GetContinent(continents, id);
    if c.None? {
      return Failure("'NoneType' object has no attribute 'attrib'");
    }
    var origin := Point2D(c.value.originZoneX, c.value.originZoneY);
    var zoneList := ZoneList(c.value);
    r := LoadSelected(zoneList, b, files, origin);
  }

  // ---------------------------------------------------------------------
  // create_volumes

  /** The point create_volumes makes of sample c of square s (in exact arithmetic). */
  function Place(s: SquareData, c: Cell): Point3D<real>
  {
    Point3D((16.0 / 10.0) * ((c.x + s.x * 8) as real + 0.5 - (120 * 8) as real),
            (16.0 / 10.0) * ((c.y + s.y * 8) as real + 0.5),
            c.z as real / 10.0)
  }

  /** The points of the samples in cs of layer k, in order. */
  function CellPoints(s: SquareData, cs: seq<Cell>, k: int): seq<Point3D<real>>
  {
    if cs == [] then []
    else CellPoints(s, cs[..|cs| - 1], k) + (if cs[|cs| - 1].volumeIdx == k then [Place(s, cs[|cs| - 1])] else [])
  }

  /** The points of layer k of the squares, square by square. */
  function LayerPoints(sqs: seq<SquareData>, k: int): seq<Point3D<real>>
  {
    if sqs == [] then [] else LayerPoints(sqs[..|sqs| - 1], k) + CellPoints(sqs[|sqs| - 1], sqs[|sqs| - 1].cells, k)
  }

  /** The squares as values. */
  function Snapshots(sqs: seq<Square>): (r: seq<SquareData>)
    reads sqs
    ensures |r| == |sqs| && forall i :: 0 <= i < |sqs| ==> r[i] == Snapshot(sqs[i])
  {
    if sqs == [] then [] else Snapshots(sqs[..|sqs| - 1]) + [Snapshot(sqs[|sqs| - 1])]
  }

  lemma {:induction false} CellPointsMember(s: SquareData, cs: seq<Cell>, k: int, p: Point3D<real>)
    ensures p in CellPoints(s, cs, k) <==> exists c :: c in cs && c.volumeIdx == k && p == Place(s, c)
  {
    if cs != [] {
      var init := cs[..|cs| - 1];
      CellPointsMember(s, init, k, p);
      assert cs == init + [cs[|cs| - 1]];
    }
  }

  /**
   * Layer k holds exactly the places of the samples tagged k: a point is in
   * it iff some sample of some square with volume index k is placed there.
   */
  lemma LayerPointsMember(sqs: seq<SquareData>, k: int, p: Point3D<real>)
    ensures p in LayerPoints(sqs, k) <==>
      exists i, c :: 0 <= i < |sqs| && c in sqs[i].cells && c.volumeIdx == k && p == Place(sqs[i], c)
  {
    if p in LayerPoints(sqs, k) {
      LayerPointsSound(sqs, k, p);
    }
    if exists i, c :: 0 <= i < |sqs| && c in sqs[i].cells && c.volumeIdx == k && p == Place(sqs[i], c) {
      var i, c :| 0 <= i < |sqs| && c in sqs[i].cells && c.volumeIdx == k && p == Place(sqs[i], c);
      LayerPointsComplete(sqs, k, i, c);
    }
  }

  /** Every point of layer k is the place of a sample tagged k. */
  lemma {:induction false} LayerPointsSound(sqs: seq<SquareData>, k: int, p: Point3D<real>)
    requires p in LayerPoints(sqs, k)
    ensures exists i, c :: 0 <= i < |sqs| && c in sqs[i].cells && c.volumeIdx == k && p == Place(sqs[i], c)
  {
    var init := sqs[..|sqs| - 1];
    var last := sqs[|sqs| - 1];
    assert LayerPoints(sqs, k) == LayerPoints(init, k) + CellPoints(last, last.cells, k);
    if p in CellPoints(last, last.cells, k) {
      CellPointsMember(last, last.cells, k, p);
      var c :| c in last.cells && c.volumeIdx == k && p == Place(last, c);
      assert c in sqs[|sqs| - 1].cells;
    } else {
      LayerPointsSound(init, k, p);
      var i, c :| 0 <= i < |init| && c in init[i].cells && c.volumeIdx == k && p == Place(init[i], c);
      assert sqs[i] == init[i];
    }
  }

  /** The place of every sample tagged k is a point of layer k. */
  lemma {:induction false} LayerPointsComplete(sqs: seq<SquareData>, k: int, i: int, c: Cell)
    requires 0 <= i < |sqs| && c in sqs[i].cells && c.volumeIdx == k
    ensures Place(sqs[i], c) in LayerPoints(sqs, k)
  {
    var init := sqs[..|sqs| - 1];
    var last := sqs[|sqs| - 1];
    assert LayerPoints(sqs, k) == LayerPoints(init, k) + CellPoints(last, last.cells, k);
    if i < |init| {
      assert init[i] == sqs[i];
      LayerPointsComplete(init, k, i, c);
    } else {
      CellPointsMember(last, last.cells, k, Place(sqs[i], c));
    }
  }

  /** The samples of square s tagged k, appended to the volume in cell order. */
  method AddSquarePoints(v: Volume, s: Square, k: int)
    modifies v
    ensures v.cells == old(v.cells) + CellPoints(Snapshot(s), s.cells, k)
  {
    for i := 0 to |s.cells|
      invariant v.cells == old(v.cells) + CellPoints(Snapshot(s), s.cells[..i], k)
    {
      var cell := s.cells[i];
      assert s.cells[..i + 1] == s.cells[..i] + [cell];
      if cell.volumeIdx == k {
        v.cells := v.cells + [Place(Snapshot(s), cell)];
      }
    }
    assert s.cells[..|s.cells|] == s.cells;
  }

  /** Volume k receives the samples tagged k of every square, square by square. */
  method FillVolume(v: Volume, squares: seq<Square>, ghost snaps: seq<SquareData>, k: int)
    requires v.cells == [] && snaps == Snapshots(squares)
    modifies v
    ensures v.cells == LayerPoints(snaps, k)
  {
    for i := 0 to |squares|
      invariant v.cells == LayerPoints(snaps[..i], k)
    {
      AddSquarePoints(v, squares[i], k);
      assert snaps[..i + 1][..i] == snaps[..i];
    }
    assert snaps[..|squares|] == snaps;
  }

  /**
   * `create_volumes(squares, onlyFirst)`: the volumes 0..19 (only volume 0
   * when onlyFirst), volume k holding the points of the samples tagged k.
   */
  method CreateVolumes(squares: seq<Square>, onlyFirst: bool) returns (volumes: seq<Volume>)
    ensures |volumes| == if onlyFirst then 1 else 20
    ensures forall k :: 0 <= k < |volumes| ==>
      fresh(volumes[k]) && volumes[k].index == k && volumes[k].cells == LayerPoints(Snapshots(squares), k)
  {
    ghost var snaps := Snapshots(squares);
    var count := if onlyFirst then 1 else 20;
    volumes := [];
    for k := 0 to count
      invariant |volumes| == k && Snapshots(squares) == snaps
      invariant forall j :: 0 <= j < k ==> fresh(volumes[j]) && volumes[j].index == j
      invariant forall j :: 0 <= j < k ==> volumes[j].cells == LayerPoints(snaps, j)
    {
      var volume := NewVolume(squares, snaps, k);
      volumes := volumes + [volume];
    }
  }

  /** Volume k, filled with the points of the samples tagged k. */
  method NewVolume(squares: seq<Square>, ghost snaps: seq<SquareData>, k: int) returns (v: Volume)
    requires snaps == Snapshots(squares)
    ensures fresh(v) && v.index == k && v.cells == LayerPoints(snaps, k)
  {
    v := new Volume(k);
    FillVolume(v, squares, snaps, k);
  }
}
