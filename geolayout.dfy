/**
 * The on-disk layout of a zone's volume field, shared by its writer
 * (`GeoGenerator.export`) and its reader (`load_zone`).
 *
 * The `.idx` stream holds one 132-byte header per square, squares in
 * row order (y outer, x inner): a u32 total sample count, then the 64 u16
 * per-cell counts, cells in row order too. The `.geo` stream holds the
 * samples of every cell in the same order, each sample the two u16 words
 * `int(z) * 25` and `int(h) * 25`.
 */
module GeoLayout {
  import opened Wrappers
  import opened Bytes
  import opened Topology
  import opened Numeric

  const NUM_SQUARES: int := 120
  const NUM_CELLS: int := 8
  /** Number of cells of a zone: 120 * 120 squares of 8 * 8 cells. */
  const CELL_COUNT: int := 921600

  // ---------------------------------------------------------------------
  // Cell keys

  predicate InGrid(sx: int, sy: int, cx: int, cy: int)
  {
    0 <= sx < NUM_SQUARES && 0 <= sy < NUM_SQUARES && 0 <= cx < NUM_CELLS && 0 <= cy < NUM_CELLS
  }

  /** `__get_cell_index`: the key of cell (cx, cy) of square (sx, sy). */
  function CellIndex(sx: int, sy: int, cx: int, cy: int): int
  {
    NUM_CELLS * cx + cy + (sx * NUM_SQUARES + sy) * (NUM_CELLS * NUM_CELLS)
  }

  /** The grid position a key in [0, CELL_COUNT) stands for. */
  datatype GridPos = GridPos(sx: int, sy: int, cx: int, cy: int)

  function CellOf(k: int): (g: GridPos)
    requires 0 <= k < CELL_COUNT
    ensures InGrid(g.sx, g.sy, g.cx, g.cy)
  {
    GridPos(k / 7680, (k / 64) % 120, (k % 64) / 8, k % 8)
  }

  /** Keys of in-range positions lie in [0, CELL_COUNT). */
  lemma CellIndexRange(sx: int, sy: int, cx: int, cy: int)
    requires InGrid(sx, sy, cx, cy)
    ensures 0 <= CellIndex(sx, sy, cx, cy) < CELL_COUNT
  {
  }

  /** Every key of [0, CELL_COUNT) is the key of exactly one in-range position. */
  lemma CellIndexInverse(sx: int, sy: int, cx: int, cy: int)
    requires InGrid(sx, sy, cx, cy)
    ensures CellOf(CellIndex(sx, sy, cx, cy)) == GridPos(sx, sy, cx, cy)
  {
    var k := CellIndex(sx, sy, cx, cy);
    assert k == 64 * (120 * sx + sy) + 8 * cx + cy;
    DivMod(k, 64, 120 * sx + sy, 8 * cx + cy);
    DivMod(120 * sx + sy, 120, sx, sy);
    DivMod(8 * cx + cy, 8, cx, cy);
    DivMod(k, 7680, sx, 64 * sy + 8 * cx + cy);
    DivMod(k, 8, 8 * (120 * sx + sy) + cx, cy);
  }

  lemma CellOfInverse(k: int)
    requires 0 <= k < CELL_COUNT
    ensures var g := CellOf(k); CellIndex(g.sx, g.sy, g.cx, g.cy) == k
  {
    var g := CellOf(k);
    DivMod(k, 64, k / 64, k % 64);
    DivMod(k / 64, 120, (k / 64) / 120, (k / 64) % 120);
    DivMod(k % 64, 8, (k % 64) / 8, (k % 64) % 8);
    DivDiv(k);
    assert k % 8 == (k % 64) % 8 by { DivMod(k, 8, 8 * (k / 64) + (k % 64) / 8, (k % 64) % 8); }
  }

  /** Two in-range positions with the same key are the same position. */
  lemma CellIndexInjective(sx: int, sy: int, cx: int, cy: int, sx': int, sy': int, cx': int, cy': int)
    requires InGrid(sx, sy, cx, cy) && InGrid(sx', sy', cx', cy')
    requires CellIndex(sx, sy, cx, cy) == CellIndex(sx', sy', cx', cy')
    ensures sx == sx' && sy == sy' && cx == cx' && cy == cy'
  {
    CellIndexInverse(sx, sy, cx, cy);
    CellIndexInverse(sx', sy', cx', cy');
  }

  /** Dividing by 64 and then by 120 is dividing by 7680. */
  lemma DivDiv(k: int)
    requires k >= 0
    ensures k / 7680 == (k / 64) / 120
  {
    var q1, r1 := k / 64, k % 64;
    var q2, r2 := q1 / 120, q1 % 120;
    assert k == 7680 * q2 + (64 * r2 + r1);
    DivMod(k, 7680, q2, 64 * r2 + r1);
  }

  /** Number of squares of a zone. */
  const SQUARE_COUNT: int := 14400
  /** Cells of a square. */
  const CELLS_PER_SQUARE: int := 64
  /** Bytes of a square header: a u32 total and 64 u16 counts. */
  const HEADER_SIZE: int := 132
  /** Bytes of a sample: the u16 words z and h. */
  const PAIR_SIZE: int := 4

  /** The two byte streams of a zone: `.idx` and `.geo`. */
  datatype Streams = Streams(idx: seq<byte>, geo: seq<byte>)

  /** The key of cell j (row order) of square q (row order), as export and the reader number them. */
  function SqKey(q: int, j: int): int
  {
    CellIndex(q % NUM_SQUARES, q / NUM_SQUARES, j % NUM_CELLS, j / NUM_CELLS)
  }

  /** Square sy * 120 + sx, cell cy * 8 + cx is grid cell (sx, sy, cx, cy). */
  lemma SqKeyAt(sx: int, sy: int, cx: int, cy: int)
    requires InGrid(sx, sy, cx, cy)
    ensures SqKey(120 * sy + sx, 8 * cy + cx) == CellIndex(sx, sy, cx, cy)
  {
    DivMod(NUM_SQUARES * sy + sx, NUM_SQUARES, sy, sx);
    DivMod(NUM_CELLS * cy + cx, NUM_CELLS, cy, cx);
  }

  /** Every key of the grid is the key of some square and cell of the export order. */
  lemma SqKeyOnto(k: int)
    requires 0 <= k < CELL_COUNT
    ensures exists q, j :: 0 <= q < SQUARE_COUNT && 0 <= j < CELLS_PER_SQUARE && SqKey(q, j) == k
  {
    var g := CellOf(k);
    CellOfInverse(k);
    SqKeyAt(g.sx, g.sy, g.cx, g.cy);
    var q, j := NUM_SQUARES * g.sy + g.sx, NUM_CELLS * g.cy + g.cx;
    assert 0 <= q < SQUARE_COUNT && 0 <= j < CELLS_PER_SQUARE && SqKey(q, j) == k;
  }

  /** ... and of only one: the export order visits no cell twice. */
  lemma SqKeyInjective(q: int, j: int, q': int, j': int)
    requires 0 <= q < SQUARE_COUNT && 0 <= j < CELLS_PER_SQUARE
    requires 0 <= q' < SQUARE_COUNT && 0 <= j' < CELLS_PER_SQUARE
    requires SqKey(q, j) == SqKey(q', j')
    ensures q == q' && j == j'
  {
    CellIndexInjective(q % NUM_SQUARES, q / NUM_SQUARES, j % NUM_CELLS, j / NUM_CELLS,
      q' % NUM_SQUARES, q' / NUM_SQUARES, j' % NUM_CELLS, j' / NUM_CELLS);
  }

  // ---------------------------------------------------------------------
  // Quantisation

  /** The word a height is stored as: truncated first, then times 25. */
  function Quant(v: real): int
  {
    Trunc(v) * 25
  }

  /** The word fits `struct.pack("H", ·)`. */
  predicate Fits(v: real)
  {
    0 <= Quant(v) < TWO_16
  }

  /** Exactly the values of (-1, 2622) can be stored. */
  lemma FitsIff(v: real)
    ensures Fits(v) <==> -1.0 < v < 2622.0
  {
  }

  /** One guarded `struct.pack("H", int(v) * 25)`: the word, or nothing when the pack fails. */
  function Field(v: real): (r: seq<byte>)
    ensures Fits(v) ==> |r| == 2 && DecodeU16(r) == Quant(v)
    ensures !Fits(v) ==> r == []
  {
    if Fits(v) then U16(Quant(v)) else []
  }

  // ---------------------------------------------------------------------
  // What export writes

  /** Cell key to a list of values, as the generator's dictionaries hold them. */
  type Column = map<int, seq<real>>

  /** Export can read cell k: it has a height list, and a clearance for each height. */
  predicate Present(vols: Column, hts: Column, k: int)
  {
    k in vols && (|vols[k]| == 0 || (k in hts && |vols[k]| <= |hts[k]|))
  }

  /** ... and its count fits a u16 word. */
  predicate Ready(vols: Column, hts: Column, k: int)
  {
    Present(vols, hts, k) && |vols[k]| < TWO_16
  }

  predicate SquareReady(vols: Column, hts: Column, q: int)
  {
    forall j :: 0 <= j < CELLS_PER_SQUARE ==> Ready(vols, hts, SqKey(q, j))
  }

  /** Export runs to its end. */
  predicate ExportOk(vols: Column, hts: Column)
  {
    forall q :: 0 <= q < SQUARE_COUNT ==> SquareReady(vols, hts, q)
  }

  /** The two lists export reads for one cell: its heights and its clearances. */
  datatype CellData = CellData(zs: seq<real>, hs: seq<real>)

  /** Every height has its clearance. */
  predicate Complete(d: CellData)
  {
    |d.zs| <= |d.hs|
  }

  predicate AllComplete(cs: seq<CellData>)
  {
    forall j :: 0 <= j < |cs| ==> Complete(cs[j])
  }

  /** The lists of cell k. */
  function DataOf(vols: Column, hts: Column, k: int): (d: CellData)
    requires Present(vols, hts, k)
    ensures Complete(d) && d.zs == vols[k]
  {
    CellData(vols[k], if |vols[k]| == 0 then [] else hts[k])
  }

  /** The lists of the first m cells of square q, in export order. */
  function CellsOf(vols: Column, hts: Column, q: int, m: nat): (cs: seq<CellData>)
    requires forall j :: 0 <= j < m ==> Present(vols, hts, SqKey(q, j))
    ensures |cs| == m && AllComplete(cs)
  {
    if m == 0 then []
    else
      var init := CellsOf(vols, hts, q, m - 1);
      var d := DataOf(vols, hts, SqKey(q, m - 1));
      assert forall j :: 0 <= j < m - 1 ==> (init + [d])[j] == init[j];
      init + [d]
  }

  /** Cell j of the list is the lists of cell j. */
  lemma {:induction false} CellsOfAt(vols: Column, hts: Column, q: int, m: nat, j: nat)
    requires forall j :: 0 <= j < m ==> Present(vols, hts, SqKey(q, j))
    requires j < m
    ensures CellsOf(vols, hts, q, m)[j] == DataOf(vols, hts, SqKey(q, j))
  {
    if j < m - 1 {
      CellsOfAt(vols, hts, q, m - 1, j);
    }
  }

  /** One cell more of a square. */
  lemma CellsOfSnoc(vols: Column, hts: Column, q: int, m: nat)
    requires forall j :: 0 <= j <= m ==> Present(vols, hts, SqKey(q, j))
    ensures CellsOf(vols, hts, q, m + 1) == CellsOf(vols, hts, q, m) + [DataOf(vols, hts, SqKey(q, m))]
  {
  }

  /** The sum of a list, peeled from its end. */
  function Sum(s: seq<int>): int
  {
    if s == [] then 0 else Sum(s[..|s| - 1]) + s[|s| - 1]
  }

  lemma SumSnoc(s: seq<int>, x: int)
    ensures Sum(s + [x]) == Sum(s) + x
  {
    assert (s + [x])[..|s|] == s;
  }

  /** A sum of u16 words is at most |s| * 65535; in particular 64 of them fit a u32. */
  lemma {:induction false} SumBound(s: seq<int>)
    requires AllU16(s)
    ensures 0 <= Sum(s) <= |s| * (TWO_16 - 1)
    decreases |s|
  {
    if s != [] {
      SumBound(s[..|s| - 1]);
    }
  }

  /** The per-cell counts. */
  function Counts(cs: seq<CellData>): (c: seq<int>)
    ensures |c| == |cs|
  {
    seq(|cs|, j requires 0 <= j < |cs| => |cs[j].zs|)
  }

  lemma CountsSnoc(cs: seq<CellData>, d: CellData)
    ensures Counts(cs + [d]) == Counts(cs) + [|d.zs|]
  {
  }

  lemma SquareCountsU16(vols: Column, hts: Column, q: int)
    requires SquareReady(vols, hts, q)
    ensures AllU16(Counts(CellsOf(vols, hts, q, CELLS_PER_SQUARE)))
  {
    var c := Counts(CellsOf(vols, hts, q, CELLS_PER_SQUARE));
    forall j | 0 <= j < CELLS_PER_SQUARE
      ensures 0 <= c[j] < TWO_16
    {
      assert Ready(vols, hts, SqKey(q, j));
      CellsOfAt(vols, hts, q, CELLS_PER_SQUARE, j);
    }
  }

  /** The 64 cells of square q; export checks each count fits a u16. */
  function SquareCells(vols: Column, hts: Column, q: int): (cs: seq<CellData>)
    requires SquareReady(vols, hts, q)
    ensures |cs| == CELLS_PER_SQUARE && AllComplete(cs) && AllU16(Counts(cs))
  {
    SquareCountsU16(vols, hts, q);
    CellsOf(vols, hts, q, CELLS_PER_SQUARE)
  }

  /** A square's header: the u32 total and the 64 u16 counts. */
  function IdxBlock(c: seq<int>): (r: seq<byte>)
    requires |c| == CELLS_PER_SQUARE && AllU16(c)
    ensures |r| == HEADER_SIZE
  {
    SumBound(c);
    U32(Sum(c)) + U16s(c)
  }

  /**
   * The index stream of the first n squares. Export stops at the first
   * square that is not ready, so only prefixes of ready squares are ever
   * written; the function simply skips a square that is not.
   */
  function ZoneIdx(vols: Column, hts: Column, n: nat): (r: seq<byte>)
  {
    if n == 0 then []
    else if !SquareReady(vols, hts, n - 1) then ZoneIdx(vols, hts, n - 1)
    else ZoneIdx(vols, hts, n - 1) + IdxBlock(Counts(SquareCells(vols, hts, n - 1)))
  }

  /** The samples 0..n-1 of one cell, each as its two guarded words. */
  function CellGeo(zs: seq<real>, hs: seq<real>, n: nat): seq<byte>
    requires n <= |zs| && n <= |hs|
  {
    if n == 0 then [] else CellGeo(zs, hs, n - 1) + Field(zs[n - 1]) + Field(hs[n - 1])
  }

  /** The geo bytes of one cell. */
  function DataGeo(d: CellData): seq<byte>
    requires Complete(d)
  {
    CellGeo(d.zs, d.hs, |d.zs|)
  }

  /** The geo bytes of a square's cells, in order. */
  function SquareGeo(cs: seq<CellData>): seq<byte>
    requires AllComplete(cs)
  {
    if cs == [] then [] else SquareGeo(cs[..|cs| - 1]) + DataGeo(cs[|cs| - 1])
  }

  lemma SquareGeoSnoc(cs: seq<CellData>, d: CellData)
    requires AllComplete(cs) && Complete(d)
    ensures AllComplete(cs + [d]) && SquareGeo(cs + [d]) == SquareGeo(cs) + DataGeo(d)
  {
    assert (cs + [d])[..|cs|] == cs;
  }

  /** The geo stream of the first n squares (a square that is not ready is skipped, as above). */
  function ZoneGeo(vols: Column, hts: Column, n: nat): seq<byte>
  {
    if n == 0 then []
    else if !SquareReady(vols, hts, n - 1) then ZoneGeo(vols, hts, n - 1)
    else ZoneGeo(vols, hts, n - 1) + SquareGeo(SquareCells(vols, hts, n - 1))
  }

  /**
   * The state of export after the first m cells of square q: each was
   * readable, the counts list holds their counts and the geo bytes their
   * samples.
   */
  predicate SquarePrefix(vols: Column, hts: Column, q: int, m: nat, counts: seq<int>, geo: seq<byte>)
  {
    m <= CELLS_PER_SQUARE
    && (forall j :: 0 <= j < m ==> Present(vols, hts, SqKey(q, j)))
    && counts == Counts(CellsOf(vols, hts, q, m))
    && geo == SquareGeo(CellsOf(vols, hts, q, m))
  }

  /** One readable cell more: cell m of square q, whose key is k. */
  lemma SquarePrefixStep(vols: Column, hts: Column, q: int, m: nat, k: int, counts: seq<int>, geo: seq<byte>)
    requires m < CELLS_PER_SQUARE && SquarePrefix(vols, hts, q, m, counts, geo)
    requires k == SqKey(q, m) && Present(vols, hts, k)
    ensures SquarePrefix(vols, hts, q, m + 1, counts + [|vols[k]|], geo + DataGeo(DataOf(vols, hts, k)))
  {
    var d := DataOf(vols, hts, k);
    var cs := CellsOf(vols, hts, q, m);
    CellsOfSnoc(vols, hts, q, m);
    CountsSnoc(cs, d);
    SquareGeoSnoc(cs, d);
  }

  /** After the 64 cells, the square can be written exactly when every count fits a u16. */
  lemma SquarePrefixDone(vols: Column, hts: Column, q: int, counts: seq<int>, geo: seq<byte>)
    requires SquarePrefix(vols, hts, q, CELLS_PER_SQUARE, counts, geo)
    ensures AllU16(counts) <==> SquareReady(vols, hts, q)
    ensures AllU16(counts) ==> counts == Counts(SquareCells(vols, hts, q)) && geo == SquareGeo(SquareCells(vols, hts, q))
  {
    if AllU16(counts) {
      forall j | 0 <= j < CELLS_PER_SQUARE ensures Ready(vols, hts, SqKey(q, j)) {
        CellsOfAt(vols, hts, q, CELLS_PER_SQUARE, j);
        assert counts[j] == |vols[SqKey(q, j)]|;
      }
    }
    if SquareReady(vols, hts, q) {
      SquareCountsU16(vols, hts, q);
    }
  }

  /** The state of export after the first n squares: each was written, and the streams hold them. */
  predicate ZonePrefix(vols: Column, hts: Column, n: nat, idx: seq<byte>, geo: seq<byte>)
  {
    n <= SQUARE_COUNT && ReadyBelow(vols, hts, n) && idx == ZoneIdx(vols, hts, n) && geo == ZoneGeo(vols, hts, n)
  }

  /** The squares below n are all ready. */
  predicate ReadyBelow(vols: Column, hts: Column, n: nat)
  {
    n == 0 || (ReadyBelow(vols, hts, n - 1) && SquareReady(vols, hts, n - 1))
  }

  lemma {:induction false} ReadyBelowAll(vols: Column, hts: Column, n: nat)
    ensures ReadyBelow(vols, hts, n) <==> forall q :: 0 <= q < n ==> SquareReady(vols, hts, q)
  {
    if n > 0 {
      ReadyBelowAll(vols, hts, n - 1);
    }
  }

  /** All squares written: export ran to its end, and the streams are the zone's. */
  lemma ZonePrefixDone(vols: Column, hts: Column, idx: seq<byte>, geo: seq<byte>)
    requires ZonePrefix(vols, hts, SQUARE_COUNT, idx, geo)
    ensures ExportOk(vols, hts)
    ensures idx == ZoneIdx(vols, hts, SQUARE_COUNT) && geo == ZoneGeo(vols, hts, SQUARE_COUNT)
  {
    ReadyBelowAll(vols, hts, SQUARE_COUNT);
  }

  /** One square more of the streams. */
  lemma ZonePrefixStep(vols: Column, hts: Column, n: nat, idx: seq<byte>, geo: seq<byte>, bi: seq<byte>, bg: seq<byte>)
    requires n < SQUARE_COUNT && ZonePrefix(vols, hts, n, idx, geo) && SquareReady(vols, hts, n)
    requires bi == IdxBlock(Counts(SquareCells(vols, hts, n))) && bg == SquareGeo(SquareCells(vols, hts, n))
    ensures ZonePrefix(vols, hts, n + 1, idx + bi, geo + bg)
  {
  }

  // ---------------------------------------------------------------------
  // What load_zone reads

  /** A square header as read back: the u32 total and the u16 counts. */
  datatype Header = Header(count: int, perCell: seq<int>)

  /** The header of square q, at offset 132 * q. */
  function HeaderAt(idx: seq<byte>, q: nat): (h: Header)
    requires HEADER_SIZE * (q + 1) <= |idx|
    ensures |h.perCell| == CELLS_PER_SQUARE && AllU16(h.perCell)
  {
    var p := HEADER_SIZE * q;
    Header(DecodeU32(idx[p..p + 4]), Words16(idx[p + 4..p + HEADER_SIZE]).value)
  }

  function Headers(idx: seq<byte>): (hs: seq<Header>)
    requires HEADER_SIZE * SQUARE_COUNT <= |idx|
    ensures |hs| == SQUARE_COUNT
  {
    seq(SQUARE_COUNT, q requires 0 <= q < SQUARE_COUNT => HeaderAt(idx, q))
  }

  predicate HeadersU16(hs: seq<Header>)
  {
    forall q :: 0 <= q < |hs| ==> AllU16(hs[q].perCell)
  }

  /** The number of samples of the first n squares. */
  function Total(hs: seq<Header>, n: nat): (t: int)
    requires n <= |hs| && HeadersU16(hs)
    ensures t >= 0
  {
    if n == 0 then 0 else SumBound(hs[n - 1].perCell); Total(hs, n - 1) + Sum(hs[n - 1].perCell)
  }

  lemma {:induction false} TotalMono(hs: seq<Header>, m: nat, n: nat)
    requires m < n <= |hs| && HeadersU16(hs)
    ensures Total(hs, m) + Sum(hs[m].perCell) <= Total(hs, n)
    decreases n - m
  {
    if m + 1 < n {
      TotalMono(hs, m + 1, n);
      SumBound(hs[m + 1].perCell);
    }
  }

  /** The n samples of cell (cx, cy) read from offset p, tagged with their layer numbers. */
  function CellPairs(g: seq<byte>, p: nat, cx: int, cy: int, n: nat): (cs: seq<Cell>)
    requires p + PAIR_SIZE * n <= |g|
    ensures |cs| == n
  {
    seq(n, i requires 0 <= i < n =>
      Cell(cx, cy, DecodeU16(g[p + 4 * i..p + 4 * i + 2]), DecodeU16(g[p + 4 * i + 2..p + 4 * i + 4]), i))
  }

  /** The samples of the cells whose counts are vpc, read from offset p; cell j is (j % 8, j / 8). */
  function ReadSquare(g: seq<byte>, p: nat, vpc: seq<int>): seq<Cell>
    requires AllU16(vpc) && p + PAIR_SIZE * Sum(vpc) <= |g|
    decreases |vpc|
  {
    if vpc == [] then []
    else
      var j := |vpc| - 1;
      SumBound(vpc[..j]);
      ReadSquare(g, p, vpc[..j]) + CellPairs(g, p + PAIR_SIZE * Sum(vpc[..j]), j % NUM_CELLS, j / NUM_CELLS, vpc[j])
  }

  /** A square as `load_zone` builds it. */
  datatype SquareData = SquareData(x: int, y: int, count: int, perCell: seq<int>, cells: seq<Cell>)

  /**
   * `load_zone` on the two streams: a short index stream or a short geo
   * stream ends in an error; bytes past the end of either are not read.
   */
  function DecodeZone(idx: seq<byte>, geo: seq<byte>): (r: Result<seq<SquareData>, string>)
    ensures r.Ok? ==> |r.value| == SQUARE_COUNT
  {
    if |idx| < HEADER_SIZE * SQUARE_COUNT then Failure("short index stream")
    else
      var hs := Headers(idx);
      if |geo| < PAIR_SIZE * Total(hs, SQUARE_COUNT) then Failure("short geo stream")
      else
        Ok(seq(SQUARE_COUNT, q requires 0 <= q < SQUARE_COUNT =>
          TotalMono(hs, q, SQUARE_COUNT);
          SquareData(q % NUM_SQUARES, q / NUM_SQUARES, hs[q].count, hs[q].perCell,
            ReadSquare(geo, PAIR_SIZE * Total(hs, q), hs[q].perCell))))
  }

  // ---------------------------------------------------------------------
  // Reading back what export wrote

  /** Every stored word of a cell fits a u16. */
  predicate DataFits(d: CellData)
    requires Complete(d)
  {
    forall i :: 0 <= i < |d.zs| ==> Fits(d.zs[i]) && Fits(d.hs[i])
  }

  /** Every stored word of the cells fits a u16. */
  predicate SquareFits(cs: seq<CellData>)
    requires AllComplete(cs)
  {
    cs == [] || (SquareFits(cs[..|cs| - 1]) && DataFits(cs[|cs| - 1]))
  }

  /** Squares of 64 cells, each cell with its clearances and a count that fits a u16. */
  predicate Shaped(sqs: seq<seq<CellData>>)
  {
    forall q :: 0 <= q < |sqs| ==> |sqs[q]| == CELLS_PER_SQUARE && AllComplete(sqs[q]) && AllU16(Counts(sqs[q]))
  }

  /** The cells of the whole zone, square by square in export order. */
  function SquaresOf(vols: Column, hts: Column): (sqs: seq<seq<CellData>>)
    requires ExportOk(vols, hts)
    ensures |sqs| == SQUARE_COUNT && Shaped(sqs)
  {
    seq(SQUARE_COUNT, q requires 0 <= q < SQUARE_COUNT => assert SquareReady(vols, hts, q); SquareCells(vols, hts, q))
  }

  /** Every stored word of the first n squares fits a u16. */
  predicate FitUpTo(sqs: seq<seq<CellData>>, n: nat)
    requires Shaped(sqs) && n <= |sqs|
  {
    n == 0 || (FitUpTo(sqs, n - 1) && SquareFits(sqs[n - 1]))
  }

  predicate AllFit(sqs: seq<seq<CellData>>)
    requires Shaped(sqs)
  {
    FitUpTo(sqs, |sqs|)
  }

  lemma {:induction false} FitAt(sqs: seq<seq<CellData>>, n: nat, q: nat)
    requires Shaped(sqs) && q < n <= |sqs| && FitUpTo(sqs, n)
    ensures SquareFits(sqs[q])
  {
    if q < n - 1 {
      FitAt(sqs, n - 1, q);
    }
  }

  /** Every word export stores fits a u16. */
  predicate ZoneFits(vols: Column, hts: Column)
    requires ExportOk(vols, hts)
  {
    AllFit(SquaresOf(vols, hts))
  }

  /** The headers of the squares. */
  function WrittenOf(sqs: seq<seq<CellData>>): (hs: seq<Header>)
    requires Shaped(sqs)
    ensures |hs| == |sqs| && HeadersU16(hs)
  {
    seq(|sqs|, q requires 0 <= q < |sqs| => Header(Sum(Counts(sqs[q])), Counts(sqs[q])))
  }

  /** The square headers export writes. */
  function Written(vols: Column, hts: Column): (hs: seq<Header>)
    requires ExportOk(vols, hts)
    ensures |hs| == SQUARE_COUNT && HeadersU16(hs)
  {
    WrittenOf(SquaresOf(vols, hts))
  }

  /** The samples of a cell as the reader should see them: both words, and the layer number. */
  function DataCells(d: CellData, cx: int, cy: int): (cs: seq<Cell>)
    requires Complete(d)
    ensures |cs| == |d.zs|
  {
    seq(|d.zs|, i requires 0 <= i < |d.zs| => Cell(cx, cy, Quant(d.zs[i]), Quant(d.hs[i]), i))
  }

  /** The samples of a square as the reader should see them; cell j is (j % 8, j / 8). */
  function ExpectedSquare(cs: seq<CellData>): seq<Cell>
    requires AllComplete(cs)
  {
    if cs == [] then []
    else
      var j := |cs| - 1;
      ExpectedSquare(cs[..j]) + DataCells(cs[j], j % NUM_CELLS, j / NUM_CELLS)
  }

  /** The squares as the reader should rebuild them; square q is (q % 120, q / 120). */
  function ExpectedOf(sqs: seq<seq<CellData>>): (r: seq<SquareData>)
    requires Shaped(sqs)
    ensures |r| == |sqs|
  {
    var hs := WrittenOf(sqs);
    seq(|sqs|, q requires 0 <= q < |sqs| =>
      SquareData(q % NUM_SQUARES, q / NUM_SQUARES, hs[q].count, hs[q].perCell, ExpectedSquare(sqs[q])))
  }

  /** The zone as the reader should rebuild it from export's streams. */
  function Expected(vols: Column, hts: Column): (r: seq<SquareData>)
    requires ExportOk(vols, hts)
    ensures |r| == SQUARE_COUNT
  {
    ExpectedOf(SquaresOf(vols, hts))
  }

  /** A cell's samples take four bytes each, exactly when every word fits. */
  lemma {:induction false} CellGeoLength(zs: seq<real>, hs: seq<real>, n: nat)
    requires n <= |zs| && n <= |hs|
    ensures |CellGeo(zs, hs, n)| <= PAIR_SIZE * n
    ensures |CellGeo(zs, hs, n)| == PAIR_SIZE * n <==> forall i :: 0 <= i < n ==> Fits(zs[i]) && Fits(hs[i])
  {
    if n > 0 {
      CellGeoLength(zs, hs, n - 1);
    }
  }

  // Occurrences of a block inside a stream

  /** s occurs in g at offset p. */
  predicate At(g: seq<byte>, p: nat, s: seq<byte>)
  {
    p + |s| <= |g| && forall t :: 0 <= t < |s| ==> g[p + t] == s[t]
  }

  lemma AtSlice(g: seq<byte>, p: nat, s: seq<byte>)
    requires At(g, p, s)
    ensures g[p..p + |s|] == s
  {
    assert forall t :: 0 <= t < |s| ==> g[p..p + |s|][t] == s[t];
  }

  lemma AtSplit(g: seq<byte>, p: nat, a: seq<byte>, b: seq<byte>)
    requires At(g, p, a + b)
    ensures At(g, p, a) && At(g, p + |a|, b)
  {
    forall t | 0 <= t < |a|
      ensures g[p + t] == a[t]
    {
      assert (a + b)[t] == a[t];
    }
    forall t | 0 <= t < |b|
      ensures g[p + |a| + t] == b[t]
    {
      assert g[p + (|a| + t)] == (a + b)[|a| + t];
    }
  }

  lemma AtLeft(a: seq<byte>, b: seq<byte>, i: nat, s: seq<byte>)
    requires At(a, i, s)
    ensures At(a + b, i, s)
  {
    forall t | 0 <= t < |s|
      ensures (a + b)[i + t] == s[t]
    {
      assert (a + b)[i + t] == a[i + t];
    }
  }

  lemma AtRight(a: seq<byte>, b: seq<byte>)
    ensures At(a + b, |a|, b)
  {
    forall t | 0 <= t < |b|
      ensures (a + b)[|a| + t] == b[t]
    {
    }
  }

  lemma AtTrans(g: seq<byte>, p: nat, w: seq<byte>, o: nat, s: seq<byte>)
    requires At(g, p, w) && At(w, o, s)
    ensures At(g, p + o, s)
  {
    forall t | 0 <= t < |s|
      ensures g[p + o + t] == s[t]
    {
      assert w[o + t] == s[t];
      assert g[p + (o + t)] == w[o + t];
    }
  }

  /** With every word fitting, sample i sits at offset 4 * i. */
  lemma {:induction false} CellGeoAt(zs: seq<real>, hs: seq<real>, n: nat, i: nat)
    requires i < n <= |zs| && n <= |hs|
    requires forall i :: 0 <= i < n ==> Fits(zs[i]) && Fits(hs[i])
    ensures Fits(zs[i]) && Fits(hs[i])
    ensures At(CellGeo(zs, hs, n), 4 * i, U16(Quant(zs[i])) + U16(Quant(hs[i])))
  {
    var a, b := CellGeo(zs, hs, n - 1), Field(zs[n - 1]) + Field(hs[n - 1]);
    assert CellGeo(zs, hs, n) == a + b;
    if i < n - 1 {
      CellGeoAt(zs, hs, n - 1, i);
      AtLeft(a, b, 4 * i, U16(Quant(zs[i])) + U16(Quant(hs[i])));
    } else {
      assert |a| == 4 * i by {
        CellGeoLength(zs, hs, n - 1);
      }
      AtRight(a, b);
    }
  }

  /** A cell's bytes take four per sample, exactly when every word fits. */
  lemma DataGeoLength(d: CellData)
    requires Complete(d)
    ensures |DataGeo(d)| <= PAIR_SIZE * |d.zs|
    ensures |DataGeo(d)| == PAIR_SIZE * |d.zs| <==> DataFits(d)
  {
    CellGeoLength(d.zs, d.hs, |d.zs|);
  }

  /** Reading a cell's samples where export wrote them gives back its words. */
  lemma DataRead(g: seq<byte>, p: nat, d: CellData, cx: int, cy: int)
    requires Complete(d) && DataFits(d) && At(g, p, DataGeo(d))
    ensures |DataGeo(d)| == PAIR_SIZE * |d.zs|
    ensures CellPairs(g, p, cx, cy, |d.zs|) == DataCells(d, cx, cy)
  {
    var n := |d.zs|;
    CellGeoLength(d.zs, d.hs, n);
    forall i | 0 <= i < n
      ensures CellPairs(g, p, cx, cy, n)[i] == DataCells(d, cx, cy)[i]
    {
      SampleRead(g, p, d, cx, cy, i);
    }
  }

  /** Sample i of a cell reads back as its two words. */
  lemma SampleRead(g: seq<byte>, p: nat, d: CellData, cx: int, cy: int, i: nat)
    requires Complete(d) && DataFits(d) && At(g, p, DataGeo(d)) && i < |d.zs|
    requires |DataGeo(d)| == PAIR_SIZE * |d.zs|
    ensures CellPairs(g, p, cx, cy, |d.zs|)[i] == Cell(cx, cy, Quant(d.zs[i]), Quant(d.hs[i]), i)
  {
    var n, w := |d.zs|, DataGeo(d);
    CellGeoAt(d.zs, d.hs, n, i);
    var u, v := U16(Quant(d.zs[i])), U16(Quant(d.hs[i]));
    AtTrans(g, p, w, 4 * i, u + v);
    AtSplit(g, p + 4 * i, u, v);
    AtSlice(g, p + 4 * i, u);
    AtSlice(g, p + 4 * i + 2, v);
  }

  lemma CountsInit(cs: seq<CellData>)
    requires cs != []
    ensures Counts(cs)[..|cs| - 1] == Counts(cs[..|cs| - 1])
  {
  }

  /** A square's bytes take four per sample, exactly when every word of it fits. */
  lemma {:induction false} SquareGeoLength(cs: seq<CellData>)
    requires AllComplete(cs)
    ensures |SquareGeo(cs)| <= PAIR_SIZE * Sum(Counts(cs))
    ensures |SquareGeo(cs)| == PAIR_SIZE * Sum(Counts(cs)) <==> SquareFits(cs)
    decreases |cs|
  {
    if cs != [] {
      var j := |cs| - 1;
      SquareGeoLength(cs[..j]);
      DataGeoLength(cs[j]);
      CountsInit(cs);
    }
  }

  /** Reading a square's samples where export wrote them gives back its cells. */
  lemma {:induction false} SquareRead(g: seq<byte>, p: nat, cs: seq<CellData>)
    requires AllComplete(cs) && SquareFits(cs) && AllU16(Counts(cs)) && At(g, p, SquareGeo(cs))
    ensures |SquareGeo(cs)| == PAIR_SIZE * Sum(Counts(cs))
    ensures ReadSquare(g, p, Counts(cs)) == ExpectedSquare(cs)
    decreases |cs|
  {
    SquareGeoLength(cs);
    if cs == [] {
      assert Counts(cs) == [];
    } else {
      var init, d := cs[..|cs| - 1], cs[|cs| - 1];
      SquareReadInit(g, p, cs);
      SquareRead(g, p, init);
      SquareReadCell(g, p, init, d);
      SnocSplit(cs);
    }
  }

  /** Given that the first cells of a square read back, so does the last one. */
  lemma SquareReadCell(g: seq<byte>, p: nat, init: seq<CellData>, d: CellData)
    requires AllComplete(init) && AllU16(Counts(init)) && Complete(d) && DataFits(d) && |d.zs| < TWO_16
    requires At(g, p + |SquareGeo(init)|, DataGeo(d)) && |SquareGeo(init)| == PAIR_SIZE * Sum(Counts(init))
    requires ReadSquare(g, p, Counts(init)) == ExpectedSquare(init)
    ensures AllComplete(init + [d]) && AllU16(Counts(init + [d]))
    ensures p + PAIR_SIZE * Sum(Counts(init + [d])) <= |g|
    ensures ReadSquare(g, p, Counts(init + [d])) == ExpectedSquare(init + [d])
  {
    var q0 := p + PAIR_SIZE * Sum(Counts(init));
    DataRead(g, q0, d, |init| % NUM_CELLS, |init| / NUM_CELLS);
    SumBound(Counts(init));
    SquareReadLast(g, p, init, d);
  }

  /** A square's bytes split into those of its first cells and those of its last. */
  lemma SquareReadInit(g: seq<byte>, p: nat, cs: seq<CellData>)
    requires cs != [] && AllComplete(cs) && SquareFits(cs) && AllU16(Counts(cs)) && At(g, p, SquareGeo(cs))
    ensures var init, d := cs[..|cs| - 1], cs[|cs| - 1];
      AllComplete(init) && SquareFits(init) && AllU16(Counts(init)) && Complete(d) && DataFits(d)
      && |d.zs| < TWO_16 && At(g, p, SquareGeo(init)) && At(g, p + |SquareGeo(init)|, DataGeo(d))
  {
    var init, d := cs[..|cs| - 1], cs[|cs| - 1];
    var a, b := SquareGeo(init), DataGeo(d);
    assert SquareGeo(cs) == a + b;
    AtSplit(g, p, a, b);
    CountsInit(cs);
    assert Counts(cs)[|cs| - 1] == |d.zs|;
  }

  /** The step of SquareRead: given the first cells, the last one reads back too. */
  lemma SquareReadLast(g: seq<byte>, p: nat, init: seq<CellData>, d: CellData)
    requires AllComplete(init) && Complete(d) && AllU16(Counts(init)) && |d.zs| < TWO_16
    requires 0 <= Sum(Counts(init)) && p + PAIR_SIZE * Sum(Counts(init)) + PAIR_SIZE * |d.zs| <= |g|
    requires ReadSquare(g, p, Counts(init)) == ExpectedSquare(init)
    requires CellPairs(g, p + PAIR_SIZE * Sum(Counts(init)), |init| % NUM_CELLS, |init| / NUM_CELLS, |d.zs|)
      == DataCells(d, |init| % NUM_CELLS, |init| / NUM_CELLS)
    ensures AllComplete(init + [d]) && AllU16(Counts(init + [d]))
    ensures p + PAIR_SIZE * Sum(Counts(init + [d])) <= |g|
    ensures ReadSquare(g, p, Counts(init + [d])) == ExpectedSquare(init + [d])
  {
    var a, v := Counts(init), |d.zs|;
    CountsSnoc(init, d);
    ReadSquareSnoc(g, p, a, v);
    ExpectedSquareSnoc(init, d);
  }

  lemma SnocSplit<T>(s: seq<T>)
    requires s != []
    ensures s == s[..|s| - 1] + [s[|s| - 1]]
  {
  }

  lemma ReadSquareSnoc(g: seq<byte>, p: nat, a: seq<int>, v: int)
    requires AllU16(a) && 0 <= v < TWO_16 && 0 <= Sum(a) && p + PAIR_SIZE * Sum(a) + PAIR_SIZE * v <= |g|
    ensures AllU16(a + [v]) && Sum(a + [v]) == Sum(a) + v
    ensures ReadSquare(g, p, a + [v]) ==
      ReadSquare(g, p, a) + CellPairs(g, p + PAIR_SIZE * Sum(a), |a| % NUM_CELLS, |a| / NUM_CELLS, v)
  {
    var vpc := a + [v];
    U16Snoc(a, v);
    assert vpc[..|a|] == a && vpc[|a|] == v;
    SumBound(a);
    assert ReadSquare(g, p, vpc) ==
      ReadSquare(g, p, vpc[..|a|]) + CellPairs(g, p + PAIR_SIZE * Sum(vpc[..|a|]), |a| % NUM_CELLS, |a| / NUM_CELLS, vpc[|a|]);
  }

  /** One more u16 count keeps all counts u16 and adds to their sum. */
  lemma U16Snoc(a: seq<int>, v: int)
    requires AllU16(a) && 0 <= v < TWO_16
    ensures AllU16(a + [v]) && Sum(a + [v]) == Sum(a) + v
  {
    var vpc := a + [v];
    assert vpc[..|a|] == a;
    forall k | 0 <= k < |vpc| ensures 0 <= vpc[k] < TWO_16 {
      if k < |a| { assert vpc[k] == a[k]; }
    }
  }

  lemma ExpectedSquareSnoc(init: seq<CellData>, d: CellData)
    requires AllComplete(init) && Complete(d)
    ensures AllComplete(init + [d])
    ensures ExpectedSquare(init + [d]) == ExpectedSquare(init) + DataCells(d, |init| % NUM_CELLS, |init| / NUM_CELLS)
  {
    assert (init + [d])[..|init|] == init;
  }

  // The streams of a sequence of squares

  /** The first n blocks, back to back. */
  function Concat(bs: seq<seq<byte>>, n: nat): seq<byte>
    requires n <= |bs|
  {
    if n == 0 then [] else Concat(bs, n - 1) + bs[n - 1]
  }

  /** Block q sits right after the blocks before it. */
  lemma {:induction false} ConcatAt(bs: seq<seq<byte>>, n: nat, q: nat)
    requires q < n <= |bs|
    ensures At(Concat(bs, n), |Concat(bs, q)|, bs[q])
  {
    var a := Concat(bs, n - 1);
    if q < n - 1 {
      ConcatAt(bs, n - 1, q);
      AtLeft(a, bs[n - 1], |Concat(bs, q)|, bs[q]);
    } else {
      AtRight(a, bs[q]);
    }
  }

  lemma {:induction false} ConcatHeaders(bs: seq<seq<byte>>, n: nat)
    requires n <= |bs| && forall q :: 0 <= q < |bs| ==> |bs[q]| == HEADER_SIZE
    ensures |Concat(bs, n)| == HEADER_SIZE * n
  {
    if n > 0 {
      ConcatHeaders(bs, n - 1);
    }
  }

  function IdxBlocks(sqs: seq<seq<CellData>>): (bs: seq<seq<byte>>)
    requires Shaped(sqs)
    ensures |bs| == |sqs| && forall q :: 0 <= q < |bs| ==> |bs[q]| == HEADER_SIZE
  {
    seq(|sqs|, q requires 0 <= q < |sqs| => IdxBlock(Counts(sqs[q])))
  }

  function GeoBlocks(sqs: seq<seq<CellData>>): (bs: seq<seq<byte>>)
    requires Shaped(sqs)
    ensures |bs| == |sqs|
  {
    seq(|sqs|, q requires 0 <= q < |sqs| => SquareGeo(sqs[q]))
  }

  /**
   * The index stream of the first n squares. Export stops at the first
   * square that is not ready, so only prefixes of ready squares are ever
   * written; the function simply skips a square that is not.
   */
  function IdxOf(sqs: seq<seq<CellData>>, n: nat): seq<byte>
    requires Shaped(sqs) && n <= |sqs|
  {
    Concat(IdxBlocks(sqs), n)
  }

  /** The geo stream of the first n squares (a square that is not ready is skipped, as above). */
  function GeoOf(sqs: seq<seq<CellData>>, n: nat): seq<byte>
    requires Shaped(sqs) && n <= |sqs|
  {
    Concat(GeoBlocks(sqs), n)
  }

  /** The index stream export writes is that of the zone's squares. */
  lemma {:induction false} ZoneIdxIsIdxOf(vols: Column, hts: Column, n: nat)
    requires ExportOk(vols, hts) && n <= SQUARE_COUNT
    ensures ZoneIdx(vols, hts, n) == IdxOf(SquaresOf(vols, hts), n)
  {
    if n > 0 {
      ZoneIdxIsIdxOf(vols, hts, n - 1);
      assert SquareReady(vols, hts, n - 1);
      assert SquaresOf(vols, hts)[n - 1] == SquareCells(vols, hts, n - 1);
    }
  }

  /** The geo stream export writes is that of the zone's squares. */
  lemma {:induction false} ZoneGeoIsGeoOf(vols: Column, hts: Column, n: nat)
    requires ExportOk(vols, hts) && n <= SQUARE_COUNT
    ensures ZoneGeo(vols, hts, n) == GeoOf(SquaresOf(vols, hts), n)
  {
    if n > 0 {
      ZoneGeoIsGeoOf(vols, hts, n - 1);
      assert SquareReady(vols, hts, n - 1);
      assert SquaresOf(vols, hts)[n - 1] == SquareCells(vols, hts, n - 1);
    }
  }

  /** The geo stream takes four bytes per sample, exactly when every word fits. */
  lemma {:induction false} GeoOfLength(sqs: seq<seq<CellData>>, n: nat)
    requires Shaped(sqs) && n <= |sqs|
    ensures |GeoOf(sqs, n)| <= PAIR_SIZE * Total(WrittenOf(sqs), n)
    ensures |GeoOf(sqs, n)| == PAIR_SIZE * Total(WrittenOf(sqs), n) <==> FitUpTo(sqs, n)
  {
    if n > 0 {
      var hs, cs := WrittenOf(sqs), sqs[n - 1];
      GeoOfLength(sqs, n - 1);
      assert AllComplete(cs) && AllU16(Counts(cs));
      SquareGeoLength(cs);
      assert hs[n - 1].perCell == Counts(cs);
      assert Total(hs, n) == Total(hs, n - 1) + Sum(Counts(cs));
      assert |GeoOf(sqs, n)| == |GeoOf(sqs, n - 1)| + |SquareGeo(cs)|;
    }
  }

  lemma {:induction false} FitPrefix(sqs: seq<seq<CellData>>, m: nat, n: nat)
    requires Shaped(sqs) && m <= n <= |sqs| && FitUpTo(sqs, n)
    ensures FitUpTo(sqs, m)
    decreases n - m
  {
    if m < n {
      FitPrefix(sqs, m, n - 1);
    }
  }

  /** With every word fitting, square q's bytes start at four times the samples before it. */
  lemma GeoOfAt(sqs: seq<seq<CellData>>, n: nat, q: nat)
    requires Shaped(sqs) && q < n <= |sqs| && FitUpTo(sqs, n)
    ensures At(GeoOf(sqs, n), PAIR_SIZE * Total(WrittenOf(sqs), q), SquareGeo(sqs[q]))
  {
    ConcatAt(GeoBlocks(sqs), n, q);
    FitPrefix(sqs, q, n);
    GeoOfLength(sqs, q);
  }

  /** Square q's header sits at offset 132 * q of the index stream. */
  lemma IdxOfAt(sqs: seq<seq<CellData>>, n: nat, q: nat)
    requires Shaped(sqs) && q < n <= |sqs|
    ensures At(IdxOf(sqs, n), HEADER_SIZE * q, IdxBlock(Counts(sqs[q])))
  {
    var bs := IdxBlocks(sqs);
    ConcatAt(bs, n, q);
    ConcatHeaders(bs, q);
  }

  /** A header block reads back as its total and its counts. */
  lemma HeaderOfBlock(idx: seq<byte>, q: nat, c: seq<int>)
    requires |c| == CELLS_PER_SQUARE && AllU16(c) && At(idx, HEADER_SIZE * q, IdxBlock(c))
    ensures HEADER_SIZE * (q + 1) <= |idx| && HeaderAt(idx, q) == Header(Sum(c), c)
  {
    var p := HEADER_SIZE * q;
    SumBound(c);
    var u, w := U32(Sum(c)), U16s(c);
    assert IdxBlock(c) == u + w;
    AtSplit(idx, p, u, w);
    AtSlice(idx, p, u);
    AtSlice(idx, p + 4, w);
    Words16OfU16s(c);
  }

  /** The headers read back from an index stream of 14400 squares are the ones written. */
  lemma HeadersRoundTrip(sqs: seq<seq<CellData>>)
    requires Shaped(sqs) && |sqs| == SQUARE_COUNT
    ensures |IdxOf(sqs, SQUARE_COUNT)| == HEADER_SIZE * SQUARE_COUNT
    ensures Headers(IdxOf(sqs, SQUARE_COUNT)) == WrittenOf(sqs)
  {
    var idx := IdxOf(sqs, SQUARE_COUNT);
    ConcatHeaders(IdxBlocks(sqs), SQUARE_COUNT);
    forall q | 0 <= q < SQUARE_COUNT
      ensures Headers(idx)[q] == WrittenOf(sqs)[q]
    {
      IdxOfAt(sqs, SQUARE_COUNT, q);
      HeaderOfBlock(idx, q, Counts(sqs[q]));
    }
  }

  /** One square of the round trip. */
  lemma SquareLoads(sqs: seq<seq<CellData>>, q: nat)
    requires Shaped(sqs) && |sqs| == SQUARE_COUNT && AllFit(sqs) && q < SQUARE_COUNT
    requires |GeoOf(sqs, SQUARE_COUNT)| == PAIR_SIZE * Total(WrittenOf(sqs), SQUARE_COUNT)
    ensures var geo := GeoOf(sqs, SQUARE_COUNT);
      PAIR_SIZE * Total(WrittenOf(sqs), q) + PAIR_SIZE * Sum(Counts(sqs[q])) <= |geo|
      && ReadSquare(geo, PAIR_SIZE * Total(WrittenOf(sqs), q), Counts(sqs[q])) == ExpectedSquare(sqs[q])
  {
    var geo := GeoOf(sqs, SQUARE_COUNT);
    GeoOfAt(sqs, SQUARE_COUNT, q);
    FitAt(sqs, SQUARE_COUNT, q);
    SquareRead(geo, PAIR_SIZE * Total(WrittenOf(sqs), q), sqs[q]);
  }

  /** `load_zone` on the streams of 14400 squares. */
  lemma LoadOf(sqs: seq<seq<CellData>>)
    requires Shaped(sqs) && |sqs| == SQUARE_COUNT
    ensures var idx, geo := IdxOf(sqs, SQUARE_COUNT), GeoOf(sqs, SQUARE_COUNT);
      (DecodeZone(idx, geo).Ok? <==> AllFit(sqs))
      && (AllFit(sqs) ==>
        DecodeZone(idx, geo).value == ExpectedOf(sqs)
        && |geo| == PAIR_SIZE * Total(Headers(idx), SQUARE_COUNT))
  {
    HeadersRoundTrip(sqs);
    GeoOfLength(sqs, SQUARE_COUNT);
    if AllFit(sqs) {
      LoadOfFit(sqs);
    }
  }

  /** ... when every word fitted, square by square. */
  lemma LoadOfFit(sqs: seq<seq<CellData>>)
    requires Shaped(sqs) && |sqs| == SQUARE_COUNT && AllFit(sqs)
    requires |IdxOf(sqs, SQUARE_COUNT)| == HEADER_SIZE * SQUARE_COUNT
    requires Headers(IdxOf(sqs, SQUARE_COUNT)) == WrittenOf(sqs)
    requires |GeoOf(sqs, SQUARE_COUNT)| == PAIR_SIZE * Total(WrittenOf(sqs), SQUARE_COUNT)
    ensures DecodeZone(IdxOf(sqs, SQUARE_COUNT), GeoOf(sqs, SQUARE_COUNT)).Ok?
    ensures DecodeZone(IdxOf(sqs, SQUARE_COUNT), GeoOf(sqs, SQUARE_COUNT)).value == ExpectedOf(sqs)
  {
    SquareDecodes(sqs, 0);
    var r := DecodeZone(IdxOf(sqs, SQUARE_COUNT), GeoOf(sqs, SQUARE_COUNT)).value;
    forall q | 0 <= q < SQUARE_COUNT
      ensures r[q] == ExpectedOf(sqs)[q]
    {
      SquareDecodes(sqs, q);
    }
    SquaresEqual(r, ExpectedOf(sqs));
  }

  lemma SquaresEqual(r: seq<SquareData>, e: seq<SquareData>)
    requires |r| == |e| && forall q :: 0 <= q < |r| ==> r[q] == e[q]
    ensures r == e
  {
  }

  lemma SquareDecodes(sqs: seq<seq<CellData>>, q: nat)
    requires Shaped(sqs) && |sqs| == SQUARE_COUNT && AllFit(sqs) && q < SQUARE_COUNT
    requires |IdxOf(sqs, SQUARE_COUNT)| == HEADER_SIZE * SQUARE_COUNT
    requires Headers(IdxOf(sqs, SQUARE_COUNT)) == WrittenOf(sqs)
    requires |GeoOf(sqs, SQUARE_COUNT)| == PAIR_SIZE * Total(WrittenOf(sqs), SQUARE_COUNT)
    ensures DecodeZone(IdxOf(sqs, SQUARE_COUNT), GeoOf(sqs, SQUARE_COUNT)).Ok?
    ensures DecodeZone(IdxOf(sqs, SQUARE_COUNT), GeoOf(sqs, SQUARE_COUNT)).value[q] == ExpectedOf(sqs)[q]
  {
    var hs := WrittenOf(sqs);
    assert hs[q] == Header(Sum(Counts(sqs[q])), Counts(sqs[q]));
    SquareLoads(sqs, q);
  }

  /**
   * The round trip of the volume field: `load_zone` accepts the streams
   * `export` writes exactly when every stored word fitted a u16 (a word
   * that did not is skipped, and the geo stream comes out short); and
   * then it reads back every square's total and per-cell counts, and every
   * sample's two words and layer number, having read the whole geo stream.
   */
  lemma ExportThenLoad(vols: Column, hts: Column)
    requires ExportOk(vols, hts)
    ensures var idx, geo := ZoneIdx(vols, hts, SQUARE_COUNT), ZoneGeo(vols, hts, SQUARE_COUNT);
      (DecodeZone(idx, geo).Ok? <==> ZoneFits(vols, hts))
      && (ZoneFits(vols, hts) ==>
        DecodeZone(idx, geo).value == Expected(vols, hts)
        && |geo| == PAIR_SIZE * Total(Headers(idx), SQUARE_COUNT))
  {
    ZoneIdxIsIdxOf(vols, hts, SQUARE_COUNT);
    ZoneGeoIsGeoOf(vols, hts, SQUARE_COUNT);
    LoadOf(SquaresOf(vols, hts));
  }
}
