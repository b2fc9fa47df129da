/**
 * The navigation-graph writer: every vertex of the node mesh becomes a
 * node with an eight-slot neighbour table, one slot per octant around it;
 * the index file gets per-square node counts and their running offsets,
 * the node file one 76-byte record per node.
 */
module SaveNavmesh {

  import opened Wrappers
  import opened Bytes
  import opened Topology
  import GeoLayout
  import Utils
  import opened Numeric

  // ---------------------------------------------------------------------
  // sign and find_direction
  // ---------------------------------------------------------------------

  /** `sign`: 0 for zero, otherwise the floor division `a // abs(a)`. */
  function Sign(a: real): (r: int)
    ensures -1 <= r <= 1
    ensures r == 1 <==> a > 0.0
    ensures r == -1 <==> a < 0.0
  {
    if a == 0.0 then 0
    else
      UnitQuotient(a);
      (a / Abs(a)).Floor
  }

  lemma UnitQuotient(a: real)
    requires a != 0.0
    ensures a / Abs(a) == if a > 0.0 then 1.0 else -1.0
  {
    if a > 0.0 {
      assert a / a == 1.0;
    } else {
      assert a / -a == -1.0 by {
        assert -1.0 * -a == a;
      }
    }
  }

  /** The list `[sign(x), sign(y), sign(x + y), sign(x - y)]` that `find_direction` matches on. */
  datatype Signs = Signs(x: int, y: int, sum: int, diff: int)

  function SignsOf(x: real, y: real): Signs
  {
    Signs(Sign(x), Sign(y), Sign(x + y), Sign(x - y))
  }

  /** The k-th case pattern of the match, on its own. */
  predicate Case(k: int, s: Signs)
  {
    match k
    case 0 => s.x == -1 && s.y in {-1, 0} && s.diff == -1
    case 1 => s.x == -1 && s.y in {-1, 0} && s.diff in {0, 1}
    case 2 => s.x in {0, 1} && s.y == -1 && s.sum == -1
    case 3 => s.x in {0, 1} && s.y == -1 && s.sum in {0, 1}
    case 4 => s.x == 1 && s.y in {0, 1} && s.diff == -1
    case 5 => s.x == 1 && s.y in {0, 1} && s.diff in {0, 1}
    case 6 => s.x in {-1, 0} && s.y == 1 && s.sum == -1
    case 7 => s.x in {-1, 0} && s.y == 1 && s.sum in {0, 1}
    case _ => false
  }

  /** The match statement: the first of the cases k, k + 1, ..., 7 that matches. */
  function FirstCase(s: Signs, k: nat): (r: Option<int>)
    requires k <= 8
    ensures r.Some? ==> k <= r.value < 8 && Case(r.value, s)
    ensures r.Some? ==> forall j :: k <= j < r.value ==> !Case(j, s)
    ensures r.None? ==> forall j :: k <= j < 8 ==> !Case(j, s)
    decreases 8 - k
  {
    if k == 8 then None else if Case(k, s) then Some(k) else FirstCase(s, k + 1)
  }

  /** The eight patterns never overlap, whatever the four numbers. */
  lemma CasesExclusive(s: Signs, i: int, j: int)
    requires Case(i, s) && Case(j, s)
    ensures i == j
  {
  }

  /**
   * `find_direction`: the axes are swapped for export, x along the
   * vertices' y and y along their x; an offset no case matches raises.
   */
  function Direction(current: Point3D<real>, linked: Point3D<real>): (r: Result<int, string>)
    ensures r.Ok? ==> 0 <= r.value < 8
  {
    var x := linked.y - current.y;
    var y := linked.x - current.x;
    match FirstCase(SignsOf(x, y), 0)
    case None => Failure("no direction for a zero offset")
    case Some(d) => Ok(d)
  }

  /**
   * The eight octants of the plane around the origin, written out as
   * inequalities: each quadrant, half-open, split along one diagonal.
   */
  predicate Octant(x: real, y: real, d: int)
  {
    match d
    case 0 => x < 0.0 && y <= 0.0 && x < y
    case 1 => x < 0.0 && y <= 0.0 && y <= x
    case 2 => 0.0 <= x && y < 0.0 && x + y < 0.0
    case 3 => 0.0 <= x && y < 0.0 && 0.0 <= x + y
    case 4 => 0.0 < x && 0.0 <= y && x < y
    case 5 => 0.0 < x && 0.0 <= y && y <= x
    case 6 => x <= 0.0 && 0.0 < y && x + y < 0.0
    case 7 => x <= 0.0 && 0.0 < y && 0.0 <= x + y
    case _ => false
  }

  /** A sign tuple matches case d exactly when (x, y) lies in octant d. */
  lemma CaseOctant(x: real, y: real, d: int)
    ensures Case(d, SignsOf(x, y)) <==> Octant(x, y, d)
  {
  }

  /**
   * The slot `find_direction` picks is the octant of the swapped offset;
   * every nonzero offset gets one, and the zero offset raises.
   */
  lemma DirectionOctant(current: Point3D<real>, linked: Point3D<real>, d: int)
    ensures var x, y := linked.y - current.y, linked.x - current.x;
      Direction(current, linked) == Ok(d) <==> 0 <= d < 8 && Octant(x, y, d)
  {
    var x, y := linked.y - current.y, linked.x - current.x;
    var r := FirstCase(SignsOf(x, y), 0);
    CaseOctant(x, y, d);
    if r.Some? {
      CaseOctant(x, y, r.value);
      if 0 <= d < 8 && Octant(x, y, d) {
        CasesExclusive(SignsOf(x, y), d, r.value);
      }
    }
  }

  lemma DirectionTotal(current: Point3D<real>, linked: Point3D<real>)
    ensures Direction(current, linked).Failure? <==> linked.x == current.x && linked.y == current.y
  {
    var x, y := linked.y - current.y, linked.x - current.x;
    if x != 0.0 || y != 0.0 {
      var d := if x < 0.0 && y <= 0.0 then (if x < y then 0 else 1)
        else if 0.0 <= x && y < 0.0 then (if x + y < 0.0 then 2 else 3)
        else if 0.0 < x && 0.0 <= y then (if x < y then 4 else 5)
        else (if x + y < 0.0 then 6 else 7);
      CaseOctant(x, y, d);
      assert Case(d, SignsOf(x, y));
      assert FirstCase(SignsOf(x, y), 0).Some?;
    }
  }

  // ---------------------------------------------------------------------
  // The node table of one vertex
  // ---------------------------------------------------------------------

  /** The empty neighbour slot and the empty distance slot. */
  const NO_NEIGHBOR: int := -1
  const NO_DISTANCE: real := 2147483647.0

  /** One edge at a vertex: the vertex at its other end and the edge's length. */
  datatype Link = Link(other: nat, length: real)

  /** The node mesh: vertex coordinates, and the edges at each vertex, both indexed by vertex index. */
  datatype Mesh = Mesh(verts: seq<Point3D<real>>, links: seq<seq<Link>>)

  predicate LinksIn(ls: seq<Link>, n: nat)
  {
    forall e :: 0 <= e < |ls| ==> ls[e].other < n
  }

  predicate ValidMesh(m: Mesh)
  {
    |m.links| == |m.verts| && forall v :: 0 <= v < |m.links| ==> LinksIn(m.links[v], |m.verts|)
  }

  /** The loop state: the two tables of the node being built and `found_linked`. */
  datatype Table = Table(neighbors: seq<int>, distances: seq<real>, found: seq<int>)

  predicate Shaped(t: Table)
  {
    |t.neighbors| == 8 && |t.distances| == 8
  }

  function EmptyTable(): (t: Table)
    ensures Shaped(t) && t.found == []
    ensures forall d :: 0 <= d < 8 ==> t.neighbors[d] == NO_NEIGHBOR && t.distances[d] == NO_DISTANCE
  {
    Table(seq(8, _ => NO_NEIGHBOR), seq(8, _ => NO_DISTANCE), [])
  }

  /**
   * The skip test for a link to `other` while building vertex v, over the
   * nodes built so far (vertex i is `nodes[i]`). With `checked` it is the
   * test the comment describes: the other node exists and already lists v.
   * Without, it is the test as written, which looks a vertex object up
   * among integer keys and so never holds.
   */
  predicate Skipped(nodes: seq<Node>, v: nat, other: nat, checked: bool)
  {
    checked && other < |nodes| && v in nodes[other].neighbors
  }

  /** One turn of the loop over `v.link_edges`. */
  function Visit(m: Mesh, v: nat, nodes: seq<Node>, checked: bool, t: Table, l: Link): (r: Result<Table, string>)
    requires v < |m.verts| && l.other < |m.verts| && Shaped(t)
  {
    if l.other in t.found then Ok(t)
    else
      var t1 := t.(found := t.found + [l.other]);
      if Skipped(nodes, v, l.other, checked) then Ok(t1)
      else match Direction(m.verts[v], m.verts[l.other])
        case Failure(e) => Failure(e)
        case Ok(d) => Ok(t1.(neighbors := t1.neighbors[d := l.other], distances := t1.distances[d := l.length * 25.0]))
  }

  /** The tables after the loop has seen the links ls. */
  function TableOf(m: Mesh, v: nat, nodes: seq<Node>, checked: bool, ls: seq<Link>): (r: Result<Table, string>)
    requires v < |m.verts| && LinksIn(ls, |m.verts|)
    ensures r.Ok? ==> Shaped(r.value)
  {
    if ls == [] then Ok(EmptyTable())
    else
      match TableOf(m, v, nodes, checked, ls[..|ls| - 1])
      case Failure(e) => Failure(e)
      case Ok(t) => Visit(m, v, nodes, checked, t, ls[|ls| - 1])
  }

  /** A link that writes slot d: not skipped, and towards octant d. */
  predicate Writes(m: Mesh, v: nat, nodes: seq<Node>, checked: bool, l: Link, d: int)
    requires v < |m.verts| && l.other < |m.verts|
  {
    !Skipped(nodes, v, l.other, checked) && Direction(m.verts[v], m.verts[l.other]) == Ok(d)
  }

  /** Slot d is still empty, or holds the vertex and the length * 25 of a link that writes it. */
  predicate SlotFrom(m: Mesh, v: nat, nodes: seq<Node>, checked: bool, ls: seq<Link>, t: Table, d: int)
    requires v < |m.verts| && LinksIn(ls, |m.verts|) && Shaped(t) && 0 <= d < 8
  {
    (t.neighbors[d] == NO_NEIGHBOR && t.distances[d] == NO_DISTANCE)
    || exists e :: 0 <= e < |ls| && Writes(m, v, nodes, checked, ls[e], d)
        && t.neighbors[d] == ls[e].other && t.distances[d] == ls[e].length * 25.0
  }

  lemma LinksInPrefix(ls: seq<Link>, n: nat, k: nat)
    requires LinksIn(ls, n) && k <= |ls|
    ensures LinksIn(ls[..k], n)
  {
  }

  /** Every slot of a finished table is empty or was written by one of the links. */
  lemma {:induction false} TableSlots(m: Mesh, v: nat, nodes: seq<Node>, checked: bool, ls: seq<Link>, d: int)
    requires v < |m.verts| && LinksIn(ls, |m.verts|) && 0 <= d < 8
    requires TableOf(m, v, nodes, checked, ls).Ok?
    ensures SlotFrom(m, v, nodes, checked, ls, TableOf(m, v, nodes, checked, ls).value, d)
  {
    if ls != [] {
      var init, l := ls[..|ls| - 1], ls[|ls| - 1];
      var t := TableOf(m, v, nodes, checked, init).value;
      TableSlots(m, v, nodes, checked, init, d);
      var t2 := TableOf(m, v, nodes, checked, ls).value;
      if t2.neighbors[d] != t.neighbors[d] || t2.distances[d] != t.distances[d] {
        assert Writes(m, v, nodes, checked, ls[|ls| - 1], d);
      } else if !(t.neighbors[d] == NO_NEIGHBOR && t.distances[d] == NO_DISTANCE) {
        var e :| 0 <= e < |init| && Writes(m, v, nodes, checked, init[e], d)
          && t.neighbors[d] == init[e].other && t.distances[d] == init[e].length * 25.0;
        assert ls[e] == init[e];
      }
    }
  }

  /** `found_linked` holds the vertices the links seen so far lead to. */
  lemma {:induction false} TableFound(m: Mesh, v: nat, nodes: seq<Node>, checked: bool, ls: seq<Link>, o: int)
    requires v < |m.verts| && LinksIn(ls, |m.verts|)
    requires TableOf(m, v, nodes, checked, ls).Ok?
    ensures o in TableOf(m, v, nodes, checked, ls).value.found <==> exists e :: 0 <= e < |ls| && ls[e].other == o
  {
    if ls != [] {
      var init := ls[..|ls| - 1];
      TableFound(m, v, nodes, checked, init, o);
      if exists e :: 0 <= e < |init| && init[e].other == o {
        var e :| 0 <= e < |init| && init[e].other == o;
        assert ls[e] == init[e];
      }
    }
  }

  /** A link to a vertex already seen changes nothing. */
  lemma RepeatSkipped(m: Mesh, v: nat, nodes: seq<Node>, checked: bool, ls: seq<Link>, e: nat, l: Link)
    requires v < |m.verts| && LinksIn(ls, |m.verts|) && l.other < |m.verts|
    requires TableOf(m, v, nodes, checked, ls).Ok?
    requires e < |ls| && ls[e].other == l.other
    ensures TableOf(m, v, nodes, checked, ls + [l]) == TableOf(m, v, nodes, checked, ls)
  {
    TableFound(m, v, nodes, checked, ls, l.other);
    assert (ls + [l])[..|ls|] == ls;
  }

  /**
   * A new vertex that is not skipped overwrites its own slot and no other,
   * whatever that slot held: the later of two neighbours in one octant wins.
   */
  lemma NewLinkOverwrites(m: Mesh, v: nat, nodes: seq<Node>, checked: bool, ls: seq<Link>, l: Link, d: int)
    requires v < |m.verts| && LinksIn(ls, |m.verts|) && l.other < |m.verts|
    requires TableOf(m, v, nodes, checked, ls).Ok?
    requires forall e :: 0 <= e < |ls| ==> ls[e].other != l.other
    requires Writes(m, v, nodes, checked, l, d)
    ensures var t, t2 := TableOf(m, v, nodes, checked, ls).value, TableOf(m, v, nodes, checked, ls + [l]);
      t2.Ok? && t2.value.neighbors == t.neighbors[d := l.other]
      && t2.value.distances == t.distances[d := l.length * 25.0]
  {
    TableFound(m, v, nodes, checked, ls, l.other);
    assert (ls + [l])[..|ls|] == ls;
  }

  /** A failure part-way through the links is the failure of the whole loop. */
  lemma {:induction false} TableFailure(m: Mesh, v: nat, nodes: seq<Node>, checked: bool, ls: seq<Link>, k: nat)
    requires v < |m.verts| && LinksIn(ls, |m.verts|) && k <= |ls|
    requires TableOf(m, v, nodes, checked, ls[..k]).Failure?
    ensures TableOf(m, v, nodes, checked, ls) == TableOf(m, v, nodes, checked, ls[..k])
    decreases |ls| - k
  {
    if k < |ls| {
      assert ls[..k + 1][..k] == ls[..k];
      TableFailure(m, v, nodes, checked, ls, k + 1);
    } else {
      assert ls[..k] == ls;
    }
  }

  /** One more link seen. */
  lemma TableStep(m: Mesh, v: nat, nodes: seq<Node>, checked: bool, ls: seq<Link>, e: nat)
    requires v < |m.verts| && LinksIn(ls, |m.verts|) && e < |ls|
    requires TableOf(m, v, nodes, checked, ls[..e]).Ok?
    ensures TableOf(m, v, nodes, checked, ls[..e + 1]) == Visit(m, v, nodes, checked, TableOf(m, v, nodes, checked, ls[..e]).value, ls[e])
  {
    assert ls[..e + 1][..e] == ls[..e];
  }

  /** The node of vertex v, given the nodes of the vertices before it. */
  function NodeOf(m: Mesh, v: nat, nodes: seq<Node>, checked: bool): (r: Result<Node, string>)
    requires ValidMesh(m) && v < |m.verts|
    ensures r.Ok? ==> r.value.idx == v && |r.value.neighbors| == 8 && |r.value.distances| == 8
  {
    match TableOf(m, v, nodes, checked, m.links[v])
    case Failure(e) => Failure(e)
    case Ok(t) => Ok(Node(v, m.verts[v].x, m.verts[v].y, m.verts[v].z, t.neighbors, t.distances))
  }

  /** The nodes of the first n vertices, built in vertex order. */
  function NodesOf(m: Mesh, n: nat, checked: bool): (r: Result<seq<Node>, string>)
    requires ValidMesh(m) && n <= |m.verts|
    ensures r.Ok? ==> |r.value| == n
  {
    if n == 0 then Ok([])
    else
      match NodesOf(m, n - 1, checked)
      case Failure(e) => Failure(e)
      case Ok(ns) =>
        match NodeOf(m, n - 1, ns, checked)
        case Failure(e) => Failure(e)
        case Ok(node) => Ok(ns + [node])
  }

  /** Building more vertices keeps the nodes already built. */
  lemma {:induction false} NodesPrefix(m: Mesh, n: nat, k: nat, checked: bool)
    requires ValidMesh(m) && k <= n <= |m.verts|
    requires NodesOf(m, n, checked).Ok?
    ensures NodesOf(m, k, checked).Ok? && NodesOf(m, n, checked).value[..k] == NodesOf(m, k, checked).value
    decreases n - k
  {
    if k < n {
      NodesPrefix(m, n - 1, k, checked);
      var ns := NodesOf(m, n - 1, checked).value;
      assert NodesOf(m, n, checked).value[..n - 1] == ns;
      assert NodesOf(m, n, checked).value[..k] == ns[..k];
    } else {
      assert NodesOf(m, n, checked).value[..n] == NodesOf(m, n, checked).value;
    }
  }

  /** Node k is built from vertex k over the nodes before it. */
  lemma NodesAt(m: Mesh, n: nat, k: nat, checked: bool)
    requires ValidMesh(m) && k < n <= |m.verts|
    requires NodesOf(m, n, checked).Ok?
    ensures NodesOf(m, k, checked).Ok?
    ensures NodeOf(m, k, NodesOf(m, k, checked).value, checked) == Ok(NodesOf(m, n, checked).value[k])
  {
    NodesPrefix(m, n, k + 1, checked);
    NodesPrefix(m, k + 1, k, checked);
    assert NodesOf(m, n, checked).value[..k + 1][k] == NodesOf(m, n, checked).value[k];
  }

  /** A failure part-way through the vertices is the failure of the whole loop. */
  lemma {:induction false} NodesFailure(m: Mesh, n: nat, k: nat, checked: bool)
    requires ValidMesh(m) && k <= n <= |m.verts|
    requires NodesOf(m, k, checked).Failure?
    ensures NodesOf(m, n, checked) == NodesOf(m, k, checked)
    decreases n - k
  {
    if k < n {
      NodesFailure(m, n - 1, k, checked);
    }
  }

  /**
   * With the skip test as intended, no two nodes list each other: the
   * later one skips the earlier one when the earlier one lists it.
   */
  lemma NoMutualNeighbors(m: Mesh, i: nat, j: nat)
    requires ValidMesh(m) && i < j < |m.verts|
    requires NodesOf(m, |m.verts|, true).Ok?
    ensures var ns := NodesOf(m, |m.verts|, true).value;
      !(j in ns[i].neighbors && i in ns[j].neighbors)
  {
    var ns := NodesOf(m, |m.verts|, true).value;
    NodesAt(m, |m.verts|, j, true);
    NodesPrefix(m, |m.verts|, j, true);
    var pre := NodesOf(m, j, true).value;
    assert pre[i] == ns[i];
    var t := TableOf(m, j, pre, true, m.links[j]).value;
    if i in ns[j].neighbors {
      var d :| 0 <= d < 8 && t.neighbors[d] == i;
      TableSlots(m, j, pre, true, m.links[j], d);
    }
  }

  /** Two vertices one unit apart along y, linked both ways. */
  function TwoVertexMesh(): (m: Mesh)
    ensures ValidMesh(m)
  {
    Mesh([Point3D(0.0, 0.0, 0.0), Point3D(0.0, 1.0, 0.0)], [[Link(1, 1.0)], [Link(0, 1.0)]])
  }

  /** As written the skip never fires, so the two vertices list each other. */
  lemma AsWrittenListsBack()
    ensures var ns := NodesOf(TwoVertexMesh(), 2, false);
      ns.Ok? && 1 in ns.value[0].neighbors && 0 in ns.value[1].neighbors
  {
    var m := TwoVertexMesh();
    assert Direction(m.verts[0], m.verts[1]) == Ok(5) by {
      assert SignsOf(1.0, 0.0) == Signs(1, 0, 1, 1);
    }
    assert Direction(m.verts[1], m.verts[0]) == Ok(0) by {
      assert SignsOf(-1.0, 0.0) == Signs(-1, 0, -1, -1);
    }
    var n0 := NodesOf(m, 1, false).value[0];
    assert n0.neighbors[5] == 1;
    var ns := NodesOf(m, 2, false).value;
    assert ns[1].neighbors[0] == 0;
  }

  // ---------------------------------------------------------------------
  // The node loop
  // ---------------------------------------------------------------------

  /** The body of the loop over `bm.verts` for vertex v, with the intended skip test. */
  method BuildNode(m: Mesh, v: nat, nodes: seq<Node>) returns (r: Result<Node, string>)
    requires ValidMesh(m) && v < |m.verts|
    ensures r == NodeOf(m, v, nodes, true)
  {
    var empty := EmptyTable();
    var neighbors, distances, found := empty.neighbors, empty.distances, empty.found;
    var links := m.links[v];
    var e := 0;
    while e < |links|
      invariant 0 <= e <= |links|
      invariant TableOf(m, v, nodes, true, links[..e]) == Ok(Table(neighbors, distances, found))
    {
      var l := links[e];
      ghost var t := Table(neighbors, distances, found);
      TableStep(m, v, nodes, true, links, e);
      if l.other !in found {
        found := found + [l.other];
        if !(l.other < |nodes| && v in nodes[l.other].neighbors) {
          var dir := Direction(m.verts[v], m.verts[l.other]);
          if dir.Failure? {
            assert Visit(m, v, nodes, true, t, l) == Failure(dir.error);
            TableFailure(m, v, nodes, true, links, e + 1);
            return Failure(dir.error);
          }
          neighbors := neighbors[dir.value := l.other];
          distances := distances[dir.value := l.length * 25.0];
        }
      }
      assert Visit(m, v, nodes, true, t, l) == Ok(Table(neighbors, distances, found));
      e := e + 1;
    }
    assert links[..e] == links;
    r := Ok(Node(v, m.verts[v].x, m.verts[v].y, m.verts[v].z, neighbors, distances));
  }

  /** One more vertex is one more node, or the failure of building it. */
  lemma NodesNext(m: Mesh, v: nat, ns: seq<Node>, node: Result<Node, string>, checked: bool)
    requires ValidMesh(m) && v < |m.verts| && NodesOf(m, v, checked) == Ok(ns)
    requires node == NodeOf(m, v, ns, checked)
    ensures node.Failure? ==> NodesOf(m, v + 1, checked) == Failure(node.error)
    ensures node.Ok? ==> NodesOf(m, v + 1, checked) == Ok(ns + [node.value])
  {
  }

  /** The loop over the vertices, keyed by vertex index as `nodes[v.index]` is. */
  method BuildNodes(m: Mesh) returns (r: Result<seq<Node>, string>)
    requires ValidMesh(m)
    ensures r == NodesOf(m, |m.verts|, true)
  {
    var nodes: seq<Node> := [];
    var v := 0;
    while v < |m.verts|
      invariant 0 <= v <= |m.verts|
      invariant NodesOf(m, v, true) == Ok(nodes)
    {
      var node := BuildNode(m, v, nodes);
      NodesNext(m, v, nodes, node, true);
      if node.Failure? {
        NodesFailure(m, |m.verts|, v + 1, true);
        return Failure(node.error);
      }
      nodes := nodes + [node.value];
      v := v + 1;
    }
    r := Ok(nodes);
  }

  // ---------------------------------------------------------------------
  // Nodes per square
  // ---------------------------------------------------------------------

  /** `sq_size`: a zone edge of 614.4 split into 120 squares. */
  const SQ_SIZE: real := 614.4 / 120.0

  /** `base_pos`: the corner of zone (995, 1007), relative to zone (1000, 1000). */
  const BASE: Point2D<real> := Point2D((995 - 1000) as real * 614.4, (1007 - 1000) as real * 614.4)

  /** The exported map spans 2 x 1 zones of 120 x 120 squares. */
  const ZONES_X: int := 2
  const SQUARES: int := 2 * 1 * 120 * 120

  /** `is_node_in_square(x, y, say, sax)`; the caller passes the square's x as `say`. */
  predicate InSquare(x: real, y: real, say: real, sax: real)
  {
    Abs(x - sax) < SQ_SIZE && Abs(y - say) < SQ_SIZE
  }

  /** `sq_pos_x` and `sq_pos_y` of square (sx, sy) of zone (zx, zy). */
  function SquarePos(zx: int, zy: int, sx: int, sy: int): Point2D<real>
  {
    Point2D(BASE.x + sx as real * SQ_SIZE + zx as real * 614.4, BASE.y + sy as real * SQ_SIZE + zy as real * 614.4)
  }

  /** The number of nodes `get_nodes_per_square` counts for a square at p. */
  function CountIn(nodes: seq<Node>, p: Point2D<real>): nat
  {
    if nodes == [] then 0
    else
      var n := nodes[|nodes| - 1];
      CountIn(nodes[..|nodes| - 1], p) + if InSquare(n.x, n.y, p.x, p.y) then 1 else 0
  }

  /**
   * The nodes counted for a square: the node's x is compared with the
   * square's y and the node's y with its x, each within a whole square edge.
   */
  predicate Near(n: Node, p: Point2D<real>)
  {
    Abs(n.x - p.y) < SQ_SIZE && Abs(n.y - p.x) < SQ_SIZE
  }

  function NearIndices(nodes: seq<Node>, p: Point2D<real>): set<int>
  {
    set i | 0 <= i < |nodes| && Near(nodes[i], p)
  }

  /** The count is the number of nodes near the square, in the swapped sense above. */
  lemma {:induction false} CountInNear(nodes: seq<Node>, p: Point2D<real>)
    ensures CountIn(nodes, p) == |NearIndices(nodes, p)| <= |nodes|
  {
    if nodes != [] {
      var init := nodes[..|nodes| - 1];
      CountInNear(init, p);
      var k := |nodes| - 1;
      var s0 := NearIndices(init, p);
      if Near(nodes[k], p) {
        assert NearIndices(nodes, p) == s0 + {k};
      } else {
        assert NearIndices(nodes, p) == s0;
      }
    }
  }

  /** A node midway between two squares counts for both, so the counts can add up to more than the nodes. */
  lemma SquaresOverlap()
    ensures var n := Node(0, BASE.y + SQ_SIZE / 2.0, BASE.x, 0.0, [], []);
      Near(n, SquarePos(0, 0, 0, 0)) && Near(n, SquarePos(0, 0, 0, 1))
  {
  }

  /** `get_nodes_per_square`: the counter loop over the nodes. */
  method NodesPerSquare(zx: int, zy: int, sx: int, sy: int, nodes: seq<Node>) returns (ret: int)
    ensures ret == CountIn(nodes, SquarePos(zx, zy, sx, sy))
  {
    var p := SquarePos(zx, zy, sx, sy);
    ret := 0;
    var k := 0;
    while k < |nodes|
      invariant 0 <= k <= |nodes|
      invariant ret == CountIn(nodes[..k], p)
    {
      var node := nodes[k];
      assert nodes[..k + 1][..k] == nodes[..k];
      if InSquare(node.x, node.y, p.x, p.y) {
        ret := ret + 1;
      }
      k := k + 1;
    }
    assert nodes[..k] == nodes;
  }

  /** Square q of the loops over zx, zy, sx, sy, sy varying fastest. */
  function SquareAt(q: int): Point2D<real>
  {
    SquarePos(q / 14400, 0, q % 14400 / 120, q % 120)
  }

  /** `indices_array` after n squares. */
  function Counts(nodes: seq<Node>, n: nat): (c: seq<int>)
    ensures |c| == n
  {
    if n == 0 then [] else Counts(nodes, n - 1) + [CountIn(nodes, SquareAt(n - 1))]
  }

  lemma {:induction false} CountsAt(nodes: seq<Node>, n: nat, q: nat)
    requires q < n
    ensures Counts(nodes, n)[q] == CountIn(nodes, SquareAt(q))
  {
    if q < n - 1 {
      CountsAt(nodes, n - 1, q);
    }
  }

  /**
   * The square loops: each count is written as a u16, which fails for
   * more than 65535 nodes. Returns `indices_array` and the bytes written.
   */
  method WriteCounts(nodes: seq<Node>) returns (r: Result<seq<int>, string>)
    ensures r.Ok? <==> AllU16(Counts(nodes, SQUARES))
    ensures r.Ok? ==> r.value == Counts(nodes, SQUARES)
  {
    var counts: seq<int> := [];
    var q := 0;
    while q < SQUARES
      invariant 0 <= q <= SQUARES
      invariant counts == Counts(nodes, q) && AllU16(counts)
    {
      var nps := NodesPerSquare(q / 14400, 0, q % 14400 / 120, q % 120, nodes);
      if nps >= TWO_16 {
        CountsAt(nodes, SQUARES, q);
        return Failure("struct.error: ushort format requires 0 <= number <= 65535");
      }
      counts := counts + [nps];
      q := q + 1;
    }
    r := Ok(counts);
  }

  // ---------------------------------------------------------------------
  // Offsets
  // ---------------------------------------------------------------------

  /** The offsets written after the counts: each square's running total before it. */
  function RunningSums(c: seq<int>): (r: seq<int>)
    ensures |r| == |c|
  {
    if c == [] then [] else RunningSums(c[..|c| - 1]) + [GeoLayout.Sum(c[..|c| - 1])]
  }

  /** Offset i is the sum of the counts before square i. */
  lemma {:induction false} RunningSumsAt(c: seq<int>, i: nat)
    requires i < |c|
    ensures RunningSums(c)[i] == GeoLayout.Sum(c[..i])
  {
    if i < |c| - 1 {
      RunningSumsAt(c[..|c| - 1], i);
      assert c[..|c| - 1][..i] == c[..i];
    }
  }

  /** The offsets start at 0 and step by each count: an exclusive prefix sum. */
  lemma {:induction false} RunningSumsStep(c: seq<int>, i: nat)
    requires i + 1 < |c|
    ensures RunningSums(c)[0] == 0
    ensures RunningSums(c)[i + 1] == RunningSums(c)[i] + c[i]
  {
    RunningSumsAt(c, 0);
    RunningSumsAt(c, i);
    RunningSumsAt(c, i + 1);
    assert c[..i + 1] == c[..i] + [c[i]];
    GeoLayout.SumSnoc(c[..i], c[i]);
  }

  /** With u16 counts for all squares, every offset fits a u32, so writing them never fails. */
  lemma {:induction false} RunningSumsU32(c: seq<int>)
    requires AllU16(c) && |c| == SQUARES
    ensures AllU32(RunningSums(c))
  {
    forall i | 0 <= i < |c|
      ensures 0 <= RunningSums(c)[i] < TWO_32
    {
      RunningSumsAt(c, i);
      assert AllU16(c[..i]);
      GeoLayout.SumBound(c[..i]);
    }
  }

  /** The `tot_idx` loop. */
  method Offsets(counts: seq<int>) returns (offsets: seq<int>)
    ensures offsets == RunningSums(counts)
  {
    offsets := [];
    var totIdx := 0;
    var k := 0;
    while k < |counts|
      invariant 0 <= k <= |counts|
      invariant offsets == RunningSums(counts[..k]) && totIdx == GeoLayout.Sum(counts[..k])
    {
      assert counts[..k + 1][..k] == counts[..k];
      offsets := offsets + [totIdx];
      totIdx := totIdx + counts[k];
      k := k + 1;
    }
    assert counts[..k] == counts;
  }

  // ---------------------------------------------------------------------
  // The index file and the node file
  // ---------------------------------------------------------------------

  /** The index file: the bounds 994, 1007, 995, 1007, the node count, the counts and the offsets. */
  function GdiBytes(nodeCount: int, counts: seq<int>): (r: seq<byte>)
    requires 0 <= nodeCount < TWO_32 && AllU16(counts) && |counts| == SQUARES
    ensures |r| == 20 + 6 * SQUARES
  {
    RunningSumsU32(counts);
    U32(994) + U32(1007) + U32(995) + U32(1007) + U32(nodeCount) + U16s(counts) + U32s(RunningSums(counts))
  }

  /** Python's `round` on a float: to the nearest integer, halves to the even one. */
  function Round(v: real): (r: int)
    ensures Abs(r as real - v) <= 0.5
    ensures Abs(r as real - v) == 0.5 ==> r % 2 == 0
  {
    var f := v.Floor;
    var frac := v - f as real;
    if frac < 0.5 then f
    else if frac > 0.5 then f + 1
    else if f % 2 == 0 then f else f + 1
  }

  function Truncs(ds: seq<real>): (r: seq<int>)
    ensures |r| == |ds|
    ensures forall k :: 0 <= k < |ds| ==> r[k] == Trunc(ds[k])
  {
    if ds == [] then [] else Truncs(ds[..|ds| - 1]) + [Trunc(ds[|ds| - 1])]
  }

  /**
   * `struct.pack("f", ·)` of an integer, left abstract: the model only
   * relies on its giving four bytes.
   */
  ghost predicate FloatCodec(f32: int -> seq<byte>)
  {
    forall v :: |f32(v)| == 4
  }

  /** A node the record writer accepts: i32 neighbours and truncated distances that fit a u32. */
  predicate Packable(n: Node)
  {
    AllI32(n.neighbors) && AllU32(Truncs(n.distances))
  }

  predicate AllPackable(nodes: seq<Node>)
  {
    forall k :: 0 <= k < |nodes| ==> Packable(nodes[k])
  }

  /** A node's record: y, x, z (times 25, rounded) as floats, the neighbours, the truncated distances. */
  function NodRecord(n: Node, f32: int -> seq<byte>): (r: seq<byte>)
    requires FloatCodec(f32) && Packable(n)
    ensures |r| == 12 + 4 * |n.neighbors| + 4 * |n.distances|
  {
    f32(Round(n.y * 25.0)) + f32(Round(n.x * 25.0)) + f32(Round(n.z * 25.0))
      + I32s(n.neighbors) + U32s(Truncs(n.distances))
  }

  /** The records of the nodes, in insertion order. */
  function Records(nodes: seq<Node>, f32: int -> seq<byte>): (rs: seq<seq<byte>>)
    requires FloatCodec(f32) && AllPackable(nodes)
    ensures |rs| == |nodes|
  {
    seq(|nodes|, k requires 0 <= k < |nodes| => NodRecord(nodes[k], f32))
  }

  /** The node file: the records one after another. */
  function NodFile(nodes: seq<Node>, f32: int -> seq<byte>): seq<byte>
    requires FloatCodec(f32) && AllPackable(nodes)
  {
    Utils.Flatten(Records(nodes, f32))
  }

  predicate EightSlots(nodes: seq<Node>)
  {
    forall j :: 0 <= j < |nodes| ==> |nodes[j].neighbors| == 8 && |nodes[j].distances| == 8
  }

  /** Blocks of 76 bytes laid end to end: block k starts at byte 76 * k. */
  lemma {:induction false} Blocks76(ss: seq<seq<byte>>, k: nat)
    requires forall j :: 0 <= j < |ss| ==> |ss[j]| == 76
    requires k < |ss|
    ensures |Utils.Flatten(ss)| == 76 * |ss|
    ensures Utils.Flatten(ss)[76 * k..76 * k + 76] == ss[k]
  {
    if |ss| == 1 {
      assert Utils.Flatten(ss) == ss[0] + Utils.Flatten(ss[1..]);
    } else if k == 0 {
      Blocks76(ss[1..], 0);
      SliceLeft(ss[0], Utils.Flatten(ss[1..]), 0, 76);
    } else {
      Blocks76(ss[1..], k - 1);
      var rest := Utils.Flatten(ss[1..]);
      assert (ss[0] + rest)[76 * k..76 * k + 76] == rest[76 * (k - 1)..76 * (k - 1) + 76];
    }
  }

  lemma SliceLeft<T>(a: seq<T>, b: seq<T>, i: nat, j: nat)
    requires i <= j <= |a|
    ensures (a + b)[i..j] == a[i..j]
  {
  }

  /** Nodes with eight-slot tables give 76-byte records, and record k sits at byte 76 * k. */
  lemma NodFileAt(nodes: seq<Node>, f32: int -> seq<byte>, k: nat)
    requires FloatCodec(f32) && AllPackable(nodes) && EightSlots(nodes) && k < |nodes|
    ensures |NodFile(nodes, f32)| == 76 * |nodes|
    ensures NodFile(nodes, f32)[76 * k..76 * k + 76] == NodRecord(nodes[k], f32)
  {
    Blocks76(Records(nodes, f32), k);
  }

  lemma NodFileStep(nodes: seq<Node>, f32: int -> seq<byte>, k: nat)
    requires FloatCodec(f32) && k < |nodes| && AllPackable(nodes[..k]) && Packable(nodes[k])
    ensures AllPackable(nodes[..k + 1])
    ensures NodFile(nodes[..k + 1], f32) == NodFile(nodes[..k], f32) + NodRecord(nodes[k], f32)
  {
    var pre, next := nodes[..k], nodes[..k + 1];
    assert next == pre + [nodes[k]];
    assert AllPackable(next);
    var r0, r1, last := Records(pre, f32), Records(next, f32), NodRecord(nodes[k], f32);
    forall j | 0 <= j < k
      ensures r1[j] == r0[j]
    {
      assert next[j] == pre[j];
    }
    assert r1 == r0 + [last];
    Utils.FlattenSnoc(r0, last);
  }

  /** The record loop: packing fails on a neighbour outside i32 or a distance outside u32. */
  method WriteNod(nodes: seq<Node>, f32: int -> seq<byte>) returns (r: Result<seq<byte>, string>)
    requires FloatCodec(f32)
    ensures r.Ok? <==> AllPackable(nodes)
    ensures r.Ok? ==> r.value == NodFile(nodes, f32)
  {
    var nod: seq<byte> := [];
    var k := 0;
    while k < |nodes|
      invariant 0 <= k <= |nodes|
      invariant AllPackable(nodes[..k]) && nod == NodFile(nodes[..k], f32)
    {
      var node := nodes[k];
      if !Packable(node) {
        return Failure("struct.error: argument out of range");
      }
      NodFileStep(nodes, f32, k);
      nod := nod + NodRecord(node, f32);
      k := k + 1;
    }
    assert nodes[..k] == nodes;
    r := Ok(nod);
  }

  /** What the script writes: the index file and the node file. */
  datatype NavFiles = NavFiles(gdi: seq<byte>, nod: seq<byte>)

  /** The script succeeds when the nodes build, their count fits a u32, every count a u16 and every record packs. */
  predicate Saves(m: Mesh)
    requires ValidMesh(m)
  {
    var ns := NodesOf(m, |m.verts|, true);
    ns.Ok? && |ns.value| < TWO_32 && AllU16(Counts(ns.value, SQUARES)) && AllPackable(ns.value)
  }

  /** The whole script, over the node mesh; `f32` stands for `struct.pack("f", ·)`. */
  method SaveNavmesh(m: Mesh, f32: int -> seq<byte>) returns (r: Result<NavFiles, string>)
    requires ValidMesh(m) && FloatCodec(f32)
    ensures r.Ok? <==> Saves(m)
    ensures r.Ok? ==> var ns := NodesOf(m, |m.verts|, true).value;
      r.value.gdi == GdiBytes(|ns|, Counts(ns, SQUARES)) && r.value.nod == NodFile(ns, f32)
  {
    var nodes := BuildNodes(m);
    if nodes.Failure? {
      return Failure(nodes.error);
    }
    var ns := nodes.value;
    if |ns| >= TWO_32 {
      return Failure("struct.error: argument out of range");
    }
    var counts := WriteCounts(ns);
    if counts.Failure? {
      return Failure(counts.error);
    }
    var offsets := Offsets(counts.value);
    RunningSumsU32(counts.value);
    var gdi := U32(994) + U32(1007) + U32(995) + U32(1007) + U32(|ns|) + U16s(counts.value) + U32s(offsets);
    var nod := WriteNod(ns, f32);
    if nod.Failure? {
      return Failure(nod.error);
    }
    r := Ok(NavFiles(gdi, nod.value));
  }
}
