/**
 * The record types the topology writer and readers share: points, the
 * (z, h) samples of a cell, the 120 x 120 squares of a zone, the zone
 * itself and the navigation-graph node.
 */
module Topology {

  /** Edge length of a zone, in world units. */
  const SIZE: int := 15360

  datatype Point2D<T> = Point2D(x: T, y: T)

  datatype Point3D<T> = Point3D(x: T, y: T, z: T)

  /**
   * One sample of a cell: the cell's coordinates inside its square, the
   * height word z, the clearance word h and the layer number of the sample.
   */
  datatype Cell = Cell(x: int, y: int, z: int, h: int, volumeIdx: int)

  /**
   * A navigation node, with the fields its writer and reader use: the
   * vertex index, the coordinates, and the eight-slot neighbour and
   * distance tables.
   */
  datatype Node = Node(idx: int, x: real, y: real, z: real, neighbors: seq<int>, distances: seq<real>)

  /**
   * A layer of points. The class declares its list as `points`, but the
   * code that fills it appends to `cells`; the field here has the name the
   * filling code uses (README, "## Left out", says what that changes).
   */
  class Volume {
    const index: int
    var cells: seq<Point3D<real>>

    constructor (volumeIdx: int)
      ensures index == volumeIdx && cells == []
    {
      index := volumeIdx;
      cells := [];
    }
  }

  /** A square of a zone: the header read from the index file and its samples. */
  class Square {
    const x: int
    const y: int
    const geoDataCount: int
    const volumesPerCell: seq<int>
    var cells: seq<Cell>

    constructor (x: int, y: int, geoDataCount: int, volumesPerCell: seq<int>)
      ensures this.x == x && this.y == y
      ensures this.geoDataCount == geoDataCount && this.volumesPerCell == volumesPerCell
      ensures cells == []
    {
      this.x := x;
      this.y := y;
      this.geoDataCount := geoDataCount;
      this.volumesPerCell := volumesPerCell;
      cells := [];
    }

    /** `add_cell`: appends one sample at the end. */
    method AddCell(c: Cell)
      modifies this
      ensures cells == old(cells) + [c]
    {
      cells := cells + [c];
    }
  }

  /** A zone: its squares, its grid position and the continent origin. */
  class Zone {
    const squares: seq<Square>
    const position: Point2D<int>
    const origin: Point2D<int>
    const relativePosition: Point2D<int>

    constructor (squares: seq<Square>, position: Point2D<int>, origin: Point2D<int>)
      ensures this.squares == squares && this.position == position && this.origin == origin
      ensures relativePosition.x + origin.x == position.x
      ensures relativePosition.y + origin.y == position.y
    {
      this.squares := squares;
      this.position := position;
      this.origin := origin;
      relativePosition := Point2D(position.x - origin.x, position.y - origin.y);
    }

    /**
     * `contains_point` as written: `p.x / SIZE in range(rx, rx + 1)` asks
     * whether the quotient equals the one integer of the range.
     */
    predicate ContainsPoint(p: Point2D<real>)
    {
      p.x / SIZE as real == relativePosition.x as real
      && p.y / SIZE as real == relativePosition.y as real
    }

    /** The tile test the name promises: the quotient lies in [r, r + 1). */
    predicate ContainsPointInTile(p: Point2D<real>)
    {
      InTile(p.x, relativePosition.x) && InTile(p.y, relativePosition.y)
    }
  }

  predicate InTile(v: real, r: int)
  {
    r as real <= v / SIZE as real < (r + 1) as real
  }

  /** As written, a zone contains exactly the one point at its tile's corner. */
  lemma ContainsPointOnlyCorner(z: Zone, p: Point2D<real>)
    ensures z.ContainsPoint(p) <==>
      p.x == (z.relativePosition.x * SIZE) as real && p.y == (z.relativePosition.y * SIZE) as real
  {
  }

  /** So a point strictly inside the tile, one unit from the corner, is refused. */
  lemma ContainsPointMissesInterior(z: Zone)
    ensures var p := Point2D((z.relativePosition.x * SIZE + 1) as real, (z.relativePosition.y * SIZE + 1) as real);
      z.ContainsPointInTile(p) && !z.ContainsPoint(p)
  {
  }

  /** The tile test holds exactly for the points of [r * SIZE, (r + 1) * SIZE) on both axes. */
  lemma ContainsPointInTileSpec(z: Zone, p: Point2D<real>)
    ensures z.ContainsPointInTile(p) <==>
      (z.relativePosition.x * SIZE) as real <= p.x < ((z.relativePosition.x + 1) * SIZE) as real
      && (z.relativePosition.y * SIZE) as real <= p.y < ((z.relativePosition.y + 1) * SIZE) as real
  {
  }
}
