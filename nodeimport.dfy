/**
 * The navigation-graph reader: the bounds and node count from the index
 * file, the 76-byte node records from the node file, and the vertex and
 * edge lists built from them.
 */
module NodeImport {

  import opened Wrappers
  import opened Bytes
  import opened Topology
  import SaveNavmesh
  import Numeric

  // ---------------------------------------------------------------------
  // The index-file header
  // ---------------------------------------------------------------------

  /** The four bounds, the zone extents derived from them and the node count. */
  datatype GdiHeader = GdiHeader(x1: int, y1: int, x2: int, y2: int, sizeX: int, sizeY: int, nodeCount: int)

  /** `array.array("I", gdi.read(4))[0]` for the k-th read: raises unless four bytes are left. */
  function U32At(gdi: seq<byte>, k: nat): (r: Result<int, string>)
    ensures r.Ok? <==> 4 * k + 4 <= |gdi|
    ensures r.Ok? ==> r.value == DecodeU32(gdi[4 * k..4 * k + 4])
  {
    if 4 * k + 4 <= |gdi| then Ok(DecodeU32(gdi[4 * k..4 * k + 4]))
    else if 4 * k < |gdi| then Failure("ValueError: bytes length not a multiple of item size")
    else Failure("IndexError: array index out of range")
  }

  /** The header reads; `size_x = x2 - x1 + 1` and `size_y = y2 - y1 + 1`. */
  function ReadHeader(gdi: seq<byte>): (r: Result<GdiHeader, string>)
    ensures r.Ok? <==> 20 <= |gdi|
    ensures r.Ok? ==> r.value.sizeX == r.value.x2 - r.value.x1 + 1 && r.value.sizeY == r.value.y2 - r.value.y1 + 1
    ensures r.Ok? ==> r.value.nodeCount == DecodeU32(gdi[16..20])
  {
    if |gdi| < 20 then Failure(U32At(gdi, |gdi| / 4).error)
    else
      var x1, y1, x2, y2 := U32At(gdi, 0).value, U32At(gdi, 1).value, U32At(gdi, 2).value, U32At(gdi, 3).value;
      Ok(GdiHeader(x1, y1, x2, y2, x2 - x1 + 1, y2 - y1 + 1, U32At(gdi, 4).value))
  }

  /** The header of a written index file reads back: zones 994..995 by 1007, so 2 x 1, and the node count. */
  lemma HeaderRoundTrip(nodeCount: int, counts: seq<int>)
    requires 0 <= nodeCount < TWO_32 && AllU16(counts) && |counts| == SaveNavmesh.SQUARES
    ensures ReadHeader(SaveNavmesh.GdiBytes(nodeCount, counts)) == Ok(GdiHeader(994, 1007, 995, 1007, 2, 1, nodeCount))
  {
    var g := SaveNavmesh.GdiBytes(nodeCount, counts);
    SaveNavmesh.RunningSumsU32(counts);
    var rest := U16s(counts) + U32s(SaveNavmesh.RunningSums(counts));
    assert g == U32(994) + U32(1007) + U32(995) + U32(1007) + U32(nodeCount) + rest;
    assert g[0..4] == U32(994);
    assert g[4..8] == U32(1007);
    assert g[8..12] == U32(995);
    assert g[12..16] == U32(1007);
    assert g[16..20] == U32(nodeCount);
  }

  // ---------------------------------------------------------------------
  // The node records
  // ---------------------------------------------------------------------

  /** Integers as the reals the node's distance table holds. */
  function Reals(vs: seq<int>): (r: seq<real>)
    ensures |r| == |vs| && forall k :: 0 <= k < |vs| ==> r[k] == vs[k] as real
  {
    if vs == [] then [] else Reals(vs[..|vs| - 1]) + [vs[|vs| - 1] as real]
  }

  /** The byte counts from 0 to 32 that hold whole four-byte words. */
  const Words: set<int> := {0, 4, 8, 12, 16, 20, 24, 28, 32}

  /**
   * What one turn of the record loop takes from the file: the index
   * `int(nod.tell() / 76)`, the 12 coordinate bytes and the neighbour and
   * distance reads, each a whole number of words.
   */
  datatype Raw = Raw(idx: int, coords: seq<byte>, nbs: seq<byte>, dists: seq<byte>)

  type Record = r: Raw | |r.coords| == 12 && |r.nbs| in Words && |r.dists| in Words
    witness Raw(0, [0, 0, 0, 0, 0, 0, 0, 0, 0, 0, 0, 0], [], [])

  /**
   * The node built from a record: three floats through `f`, which stands
   * for decoding an IEEE single and is left abstract, then the i32 words
   * of the two tables.
   */
  function Decode(r: Record, f: seq<byte> -> real): (n: Node)
    ensures n.idx == r.idx && |n.neighbors| == |r.nbs| / 4 && |n.distances| == |r.dists| / 4
  {
    Node(r.idx, f(r.coords[0..4]), f(r.coords[4..8]), f(r.coords[8..12]),
      Words32Signed(r.nbs).value, Reals(Words32Signed(r.dists).value))
  }

  /**
   * How many table bytes one turn reads when `avail` bytes are left: none
   * when fewer than the 12 coordinate bytes are there (`array("f", ...)`
   * or `coords[2]` raises); otherwise up to 32 neighbour bytes and then up
   * to 32 distance bytes, and a short read raises unless it ends on a
   * word, that is unless `avail` is a multiple of four.
   */
  function TableLens(avail: int): (r: Option<(int, int)>)
    ensures r.Some? ==> 12 <= avail && r.value.0 in Words && r.value.1 in Words
    ensures r.Some? ==> 12 + r.value.0 + r.value.1 == if 76 <= avail then 76 else avail
  {
    if avail < 12 then None
    else if 76 <= avail then Some((32, 32))
    else if avail % 4 != 0 then None
    else if avail < 44 then Some((avail - 12, 0))
    else Some((32, avail - 44))
  }

  /** One turn of the record loop at file position `pos` (`nod.tell()`). */
  function ReadRecord(nod: seq<byte>, pos: nat): (r: Result<(Record, int), string>)
    requires pos <= |nod|
    ensures r.Ok? ==> pos + 12 <= |nod| && r.value.1 == if pos + 76 <= |nod| then pos + 76 else |nod|
    ensures r.Ok? ==> r.value.0.idx == pos / 76
  {
    match TableLens(|nod| - pos)
    case None => Failure("ValueError or IndexError: short record")
    case Some((nb, ds)) =>
      Ok((Raw(pos / 76, nod[pos..pos + 12], nod[pos + 12..pos + 12 + nb], nod[pos + 12 + nb..pos + 12 + nb + ds]),
        pos + 12 + nb + ds))
  }

  /**
   * At a four-byte boundary a record reads when its coordinates are there
   * and the file either holds the whole record or ends on a word.
   */
  lemma TableLensOk(q: int, len: int)
    requires 0 <= 4 * q <= len
    ensures TableLens(len - 4 * q).Some? <==> 12 <= len - 4 * q && (76 <= len - 4 * q || len % 4 == 0)
  {
    ModShift(q, len - 4 * q);
  }

  lemma ModShift(q: int, r: int)
    ensures (4 * q + r) % 4 == r % 4
  {
  }

  /** The record at byte 76 * k of a file that holds it whole. */
  function RecordAt(nod: seq<byte>, k: nat): Record
    requires 76 * k + 76 <= |nod|
  {
    Raw(k, nod[76 * k..76 * k + 12], nod[76 * k + 12..76 * k + 44], nod[76 * k + 44..76 * k + 76])
  }

  /** The records after n turns of the loop, and the file position. */
  function NodesRead(nod: seq<byte>, n: nat): (r: Result<(seq<Record>, int), string>)
    ensures r.Ok? ==> |r.value.0| == n && 0 <= r.value.1 <= |nod|
  {
    if n == 0 then Ok(([], 0))
    else
      var prev := NodesRead(nod, n - 1);
      if prev.Failure? then Failure(prev.error)
      else
        var rec := ReadRecord(nod, prev.value.1);
        if rec.Failure? then Failure(rec.error)
        else Ok((prev.value.0 + [rec.value.0], rec.value.1))
  }

  /** The file positions of the record loop, on the file length alone. */
  function ReadEnd(len: int, n: nat): Option<int>
  {
    if n == 0 then Some(0)
    else
      var prev := ReadEnd(len, n - 1);
      if prev.None? then None
      else
        var lens := TableLens(len - prev.value);
        if lens.None? then None else Some(prev.value + 12 + lens.value.0 + lens.value.1)
  }

  /** One record reads exactly when its table lengths are defined, and ends after them. */
  lemma ReadRecordEnd(nod: seq<byte>, pos: nat)
    requires pos <= |nod|
    ensures ReadRecord(nod, pos).Ok? <==> TableLens(|nod| - pos).Some?
    ensures ReadRecord(nod, pos).Ok? ==>
      ReadRecord(nod, pos).value.1 == pos + 12 + TableLens(|nod| - pos).value.0 + TableLens(|nod| - pos).value.1
  {
  }

  /** The record loop succeeds, and where it stops, as the file length alone decides. */
  lemma {:induction false} NodesReadEnd(nod: seq<byte>, n: nat)
    ensures NodesRead(nod, n).Ok? <==> ReadEnd(|nod|, n).Some?
    ensures NodesRead(nod, n).Ok? ==> NodesRead(nod, n).value.1 == ReadEnd(|nod|, n).value
  {
    if n > 0 {
      NodesReadEnd(nod, n - 1);
      var prev := NodesRead(nod, n - 1);
      if prev.Ok? {
        ReadRecordEnd(nod, prev.value.1);
      }
    }
  }

  /** The positions: 76 per whole record, the end of the file after a short one. */
  lemma {:induction false} ReadEndAt(len: int, n: nat)
    requires 0 <= len
    ensures ReadEnd(len, n).Some? <==> ReadsAll(len, n)
    ensures ReadEnd(len, n).Some? ==> ReadEnd(len, n).value == if 76 * n <= len then 76 * n else len
  {
    if n > 0 {
      ReadEndAt(len, n - 1);
      if ReadEnd(len, n - 1).Some? {
        var pos := ReadEnd(len, n - 1).value;
        if pos == 76 * (n - 1) {
          TableLensOk(19 * (n - 1), len);
        } else {
          assert TableLens(len - pos).None?;
        }
      }
    }
  }

  /**
   * The loop succeeds exactly when every record but the last is whole
   * and the last one has its coordinates and, if cut short, stops at a
   * four-byte boundary. Bytes after node_count records are never read.
   */
  predicate ReadsAll(len: int, n: nat)
  {
    n == 0 || (76 * n - 64 <= len && (76 * n <= len || len % 4 == 0))
  }

  /**
   * After n turns the position is 76 * n, or the end of the file when the
   * last record was cut short; reading on from there raises.
   */
  lemma NodesReadPos(nod: seq<byte>, n: nat)
    requires NodesRead(nod, n).Ok?
    ensures NodesRead(nod, n).value.1 == if 76 * n <= |nod| then 76 * n else |nod|
  {
    NodesReadEnd(nod, n);
    ReadEndAt(|nod|, n);
  }

  /** When the record loop succeeds. */
  lemma NodesReadOk(nod: seq<byte>, n: nat)
    ensures NodesRead(nod, n).Ok? <==> ReadsAll(|nod|, n)
  {
    NodesReadEnd(nod, n);
    ReadEndAt(|nod|, n);
  }

  /** The k-th record read gets index k, and in a file holding it whole it is the record at 76 * k. */
  lemma {:induction false} NodesReadAt(nod: seq<byte>, n: nat, k: nat)
    requires NodesRead(nod, n).Ok? && k < n
    ensures NodesRead(nod, n).value.0[k].idx == k
    ensures 76 * k + 76 <= |nod| ==> NodesRead(nod, n).value.0[k] == RecordAt(nod, k)
  {
    var prev := NodesRead(nod, n - 1).value;
    var rec := ReadRecord(nod, prev.1);
    assert rec.Ok? && NodesRead(nod, n).value.0 == prev.0 + [rec.value.0];
    if k < n - 1 {
      NodesReadAt(nod, n - 1, k);
    } else {
      NodesReadPos(nod, n - 1);
      assert prev.1 == 76 * k;
    }
  }

  lemma {:induction false} NodesReadFailure(nod: seq<byte>, n: nat, k: nat)
    requires k <= n && NodesRead(nod, k).Failure?
    ensures NodesRead(nod, n) == NodesRead(nod, k)
    decreases n - k
  {
    if k < n {
      NodesReadFailure(nod, n - 1, k);
    }
  }

  /** The nodes built from the records, in order. */
  function Decoded(rs: seq<Record>, f: seq<byte> -> real): (ns: seq<Node>)
    ensures |ns| == |rs|
  {
    seq(|rs|, k requires 0 <= k < |rs| => Decode(rs[k], f))
  }

  /** `nodes` after the record loop, or the error it raises. */
  function ReadNodes(nod: seq<byte>, n: nat, f: seq<byte> -> real): Result<seq<Node>, string>
  {
    var r := NodesRead(nod, n);
    if r.Failure? then Failure(r.error) else Ok(Decoded(r.value.0, f))
  }

  /** The k-th node read has key k, and in a file holding its record whole it is that record decoded. */
  lemma ReadNodesAt(nod: seq<byte>, n: nat, f: seq<byte> -> real, k: nat)
    requires ReadNodes(nod, n, f).Ok? && k < n
    ensures ReadNodes(nod, n, f).value[k].idx == k
    ensures 76 * k + 76 <= |nod| ==> ReadNodes(nod, n, f).value[k] == Decode(RecordAt(nod, k), f)
  {
    NodesReadAt(nod, n, k);
  }

  /** The loop over `range(node_count)`, with `pos` for `nod.tell()`. */
  method ReadNod(nod: seq<byte>, nodeCount: nat, f: seq<byte> -> real) returns (r: Result<seq<Node>, string>)
    ensures r == ReadNodes(nod, nodeCount, f)
  {
    var nodes: seq<Node> := [];
    ghost var recs: seq<Record> := [];
    var pos := 0;
    var n := 0;
    while n < nodeCount
      invariant 0 <= n <= nodeCount
      invariant NodesRead(nod, n) == Ok((recs, pos)) && nodes == Decoded(recs, f)
    {
      var rec := ReadRecord(nod, pos);
      if rec.Failure? {
        NodesReadFailure(nod, nodeCount, n + 1);
        return Failure(rec.error);
      }
      nodes := nodes + [Decode(rec.value.0, f)];
      recs := recs + [rec.value.0];
      pos := rec.value.1;
      n := n + 1;
    }
    r := Ok(nodes);
  }

  // ---------------------------------------------------------------------
  // Reading back what the writer wrote
  // ---------------------------------------------------------------------

  /** The three coordinate words, the neighbour words and the distance words of a record. */
  lemma RecordParts(n: Node, f32: int -> seq<byte>)
    requires SaveNavmesh.FloatCodec(f32) && SaveNavmesh.Packable(n)
    requires |n.neighbors| == 8 && |n.distances| == 8
    ensures var r := SaveNavmesh.NodRecord(n, f32);
      |r| == 76 && r[0..4] == f32(SaveNavmesh.Round(n.y * 25.0)) && r[4..8] == f32(SaveNavmesh.Round(n.x * 25.0))
      && r[8..12] == f32(SaveNavmesh.Round(n.z * 25.0))
      && r[12..44] == I32s(n.neighbors) && r[44..76] == U32s(SaveNavmesh.Truncs(n.distances))
  {
    var a, b, c := f32(SaveNavmesh.Round(n.y * 25.0)), f32(SaveNavmesh.Round(n.x * 25.0)), f32(SaveNavmesh.Round(n.z * 25.0));
    var d, e := I32s(n.neighbors), U32s(SaveNavmesh.Truncs(n.distances));
    assert SaveNavmesh.NodRecord(n, f32) == a + b + c + d + e;
  }

  /**
   * What a record reads back as: index k, the swapped and scaled
   * coordinates as the float codec returns them, the same neighbours, and
   * the truncated distances reinterpreted as i32, so that an empty slot's
   * 2147483647 comes back unchanged.
   */
  predicate ReadsBack(r: Node, n: Node, k: int, f32: int -> seq<byte>, f: seq<byte> -> real)
    requires SaveNavmesh.Packable(n) && |n.distances| == 8
  {
    r.idx == k && r.neighbors == n.neighbors
    && r.x == f(f32(SaveNavmesh.Round(n.y * 25.0)))
    && r.y == f(f32(SaveNavmesh.Round(n.x * 25.0)))
    && r.z == f(f32(SaveNavmesh.Round(n.z * 25.0)))
    && |r.distances| == 8
    && (forall s :: 0 <= s < 8 ==> r.distances[s] == AsSigned(Numeric.Trunc(n.distances[s])) as real)
    && (forall s :: 0 <= s < 8 && n.distances[s] == SaveNavmesh.NO_DISTANCE ==> r.distances[s] == SaveNavmesh.NO_DISTANCE)
  }

  /** One record decodes to what was packed into it. */
  lemma RecordReadsBack(n: Node, k: int, f32: int -> seq<byte>, f: seq<byte> -> real)
    requires SaveNavmesh.FloatCodec(f32) && SaveNavmesh.Packable(n)
    requires |n.neighbors| == 8 && |n.distances| == 8
    ensures var rec := SaveNavmesh.NodRecord(n, f32);
      |rec| == 76 && ReadsBack(Decode(Raw(k, rec[0..12], rec[12..44], rec[44..76]), f), n, k, f32, f)
  {
    RecordParts(n, f32);
    var rec := SaveNavmesh.NodRecord(n, f32);
    assert rec[0..12][0..4] == rec[0..4] && rec[0..12][4..8] == rec[4..8] && rec[0..12][8..12] == rec[8..12];
    Words32OfI32s(n.neighbors);
    Words32OfU32s(SaveNavmesh.Truncs(n.distances));
  }

  /** A file holding a node's record at byte 76 * k reads it back there. */
  lemma RecordAtReadsBack(file: seq<byte>, n: Node, k: nat, f32: int -> seq<byte>, f: seq<byte> -> real)
    requires SaveNavmesh.FloatCodec(f32) && SaveNavmesh.Packable(n)
    requires |n.neighbors| == 8 && |n.distances| == 8
    requires 76 * k + 76 <= |file| && file[76 * k..76 * k + 76] == SaveNavmesh.NodRecord(n, f32)
    ensures ReadsBack(Decode(RecordAt(file, k), f), n, k, f32, f)
  {
    RecordReadsBack(n, k, f32, f);
    var rec := SaveNavmesh.NodRecord(n, f32);
    SubSlice(file, 76 * k, 76 * k + 76, 0, 12);
    SubSlice(file, 76 * k, 76 * k + 76, 12, 44);
    SubSlice(file, 76 * k, 76 * k + 76, 44, 76);
    var c, nb, ds := file[76 * k..76 * k + 12], file[76 * k + 12..76 * k + 44], file[76 * k + 44..76 * k + 76];
    assert c == rec[0..12] && nb == rec[12..44] && ds == rec[44..76];
    assert RecordAt(file, k) == Raw(k, c, nb, ds);
  }

  /** Reading the writer's node file gives back every node as `ReadsBack` says. */
  lemma NodRoundTrip(ns: seq<Node>, f32: int -> seq<byte>, f: seq<byte> -> real, k: nat)
    requires SaveNavmesh.FloatCodec(f32) && SaveNavmesh.AllPackable(ns) && SaveNavmesh.EightSlots(ns) && k < |ns|
    ensures var r := ReadNodes(SaveNavmesh.NodFile(ns, f32), |ns|, f);
      r.Ok? && ReadsBack(r.value[k], ns[k], k, f32, f)
  {
    var file := SaveNavmesh.NodFile(ns, f32);
    SaveNavmesh.NodFileAt(ns, f32, k);
    NodesReadOk(file, |ns|);
    ReadNodesAt(file, |ns|, f, k);
    assert SaveNavmesh.Packable(ns[k]);
    RecordAtReadsBack(file, ns[k], k, f32, f);
  }

  lemma SubSlice<T>(s: seq<T>, i: nat, j: nat, a: nat, b: nat)
    requires i <= j <= |s| && a <= b <= j - i
    ensures s[i..j][a..b] == s[i + a..i + b]
  {
    var x, y := s[i..j][a..b], s[i + a..i + b];
    assert |x| == |y|;
    forall t | 0 <= t < |x|
      ensures x[t] == y[t]
    {
      assert x[t] == s[i..j][a + t] == s[i + a + t];
    }
  }

  // ---------------------------------------------------------------------
  // Vertices and edges
  // ---------------------------------------------------------------------

  /** An entry `[node.idx, neighbor]` of `edges`. */
  datatype Edge = Edge(from: int, to: int)

  /** `nodes.keys()`. */
  function Keys(nodes: seq<Node>): set<int>
  {
    set k | 0 <= k < |nodes| :: nodes[k].idx
  }

  /** The keys of the nodes read are exactly 0 .. node_count - 1; in particular -1 is not one. */
  lemma KeysRead(nod: seq<byte>, n: nat, f: seq<byte> -> real, key: int)
    requires ReadNodes(nod, n, f).Ok?
    ensures key in Keys(ReadNodes(nod, n, f).value) <==> 0 <= key < n
  {
    var ns := ReadNodes(nod, n, f).value;
    if key in Keys(ns) {
      var k :| 0 <= k < |ns| && ns[k].idx == key;
      ReadNodesAt(nod, n, f, k);
    }
    if 0 <= key < n {
      ReadNodesAt(nod, n, f, key);
      assert ns[key].idx == key;
    }
  }

  /** The edges the inner loop appends for one node: its neighbours that are keys, in slot order. */
  function NeighborEdges(idx: int, nbs: seq<int>, keys: set<int>): seq<Edge>
  {
    if nbs == [] then []
    else
      var nb := nbs[|nbs| - 1];
      NeighborEdges(idx, nbs[..|nbs| - 1], keys) + if nb in keys then [Edge(idx, nb)] else []
  }

  /** The edges of all the nodes, node by node. */
  function EdgesOf(nodes: seq<Node>, keys: set<int>): seq<Edge>
  {
    if nodes == [] then []
    else
      var n := nodes[|nodes| - 1];
      EdgesOf(nodes[..|nodes| - 1], keys) + NeighborEdges(n.idx, n.neighbors, keys)
  }

  /** The `[node.x, node.y, node.z]` list, node by node. */
  function Vectors(nodes: seq<Node>): (vs: seq<Point3D<real>>)
    ensures |vs| == |nodes|
  {
    if nodes == [] then []
    else
      var n := nodes[|nodes| - 1];
      Vectors(nodes[..|nodes| - 1]) + [Point3D(n.x, n.y, n.z)]
  }

  lemma {:induction false} VectorsAt(nodes: seq<Node>, k: nat)
    requires k < |nodes|
    ensures Vectors(nodes)[k] == Point3D(nodes[k].x, nodes[k].y, nodes[k].z)
  {
    if k < |nodes| - 1 {
      VectorsAt(nodes[..|nodes| - 1], k);
    }
  }

  /** An edge of one node starts at it and ends at one of its neighbours that is a key, and each such neighbour gives one. */
  lemma {:induction false} NeighborEdgesMember(idx: int, nbs: seq<int>, keys: set<int>, e: Edge)
    ensures e in NeighborEdges(idx, nbs, keys) <==> e.from == idx && e.to in nbs && e.to in keys
  {
    if nbs != [] {
      var init := nbs[..|nbs| - 1];
      NeighborEdgesMember(idx, init, keys, e);
      assert nbs == init + [nbs[|nbs| - 1]];
    }
  }

  /** Every edge ends at a key and starts at a node listing that key. */
  lemma {:induction false} EdgesSound(nodes: seq<Node>, keys: set<int>, e: Edge)
    requires e in EdgesOf(nodes, keys)
    ensures e.to in keys
    ensures exists k :: 0 <= k < |nodes| && nodes[k].idx == e.from && e.to in nodes[k].neighbors
  {
    var init, n := nodes[..|nodes| - 1], nodes[|nodes| - 1];
    if e in EdgesOf(init, keys) {
      EdgesSound(init, keys, e);
      var k :| 0 <= k < |init| && init[k].idx == e.from && e.to in init[k].neighbors;
      assert nodes[k] == init[k];
    } else {
      NeighborEdgesMember(n.idx, n.neighbors, keys, e);
      assert nodes[|nodes| - 1] == n;
    }
  }

  /** Every neighbour that is a key gives an edge. */
  lemma {:induction false} EdgesComplete(nodes: seq<Node>, keys: set<int>, k: nat, nb: int)
    requires k < |nodes| && nb in nodes[k].neighbors && nb in keys
    ensures Edge(nodes[k].idx, nb) in EdgesOf(nodes, keys)
  {
    var init := nodes[..|nodes| - 1];
    if k < |nodes| - 1 {
      EdgesComplete(init, keys, k, nb);
    } else {
      NeighborEdgesMember(nodes[k].idx, nodes[k].neighbors, keys, Edge(nodes[k].idx, nb));
    }
  }

  /** Over the nodes read, every edge joins two of them: an empty slot's -1 never makes one. */
  lemma EdgesRead(nod: seq<byte>, n: nat, f: seq<byte> -> real, e: Edge)
    requires ReadNodes(nod, n, f).Ok?
    requires var ns := ReadNodes(nod, n, f).value; e in EdgesOf(ns, Keys(ns))
    ensures 0 <= e.from < n && 0 <= e.to < n
  {
    var ns := ReadNodes(nod, n, f).value;
    EdgesSound(ns, Keys(ns), e);
    KeysRead(nod, n, f, e.to);
    var k :| 0 <= k < |ns| && ns[k].idx == e.from && e.to in ns[k].neighbors;
    ReadNodesAt(nod, n, f, k);
  }

  /** The inner loop over `node.neighbors`. */
  method AddNodeEdges(node: Node, keys: set<int>, edges0: seq<Edge>) returns (edges: seq<Edge>)
    ensures edges == edges0 + NeighborEdges(node.idx, node.neighbors, keys)
  {
    edges := edges0;
    var s := 0;
    while s < |node.neighbors|
      invariant 0 <= s <= |node.neighbors|
      invariant edges == edges0 + NeighborEdges(node.idx, node.neighbors[..s], keys)
    {
      var neighbor := node.neighbors[s];
      assert node.neighbors[..s + 1][..s] == node.neighbors[..s];
      if neighbor in keys {
        edges := edges + [Edge(node.idx, neighbor)];
      }
      s := s + 1;
    }
    assert node.neighbors[..s] == node.neighbors;
  }

  /** The loop over `nodes.values()` building `vectors` and `edges`. */
  method MeshData(nodes: seq<Node>) returns (vectors: seq<Point3D<real>>, edges: seq<Edge>)
    ensures vectors == Vectors(nodes) && edges == EdgesOf(nodes, Keys(nodes))
  {
    var keys := Keys(nodes);
    vectors, edges := [], [];
    var k := 0;
    while k < |nodes|
      invariant 0 <= k <= |nodes|
      invariant vectors == Vectors(nodes[..k]) && edges == EdgesOf(nodes[..k], keys)
    {
      var node := nodes[k];
      assert nodes[..k + 1][..k] == nodes[..k];
      vectors := vectors + [Point3D(node.x, node.y, node.z)];
      edges := AddNodeEdges(node, keys, edges);
      k := k + 1;
    }
    assert nodes[..k] == nodes;
  }

  /** The whole script: header, records, then the vertex and edge lists. */
  method ImportNodes(gdi: seq<byte>, nod: seq<byte>, f: seq<byte> -> real)
    returns (r: Result<(seq<Point3D<real>>, seq<Edge>), string>)
    ensures r.Ok? <==> ReadHeader(gdi).Ok? && ReadNodes(nod, ReadHeader(gdi).value.nodeCount, f).Ok?
    ensures r.Ok? ==> var ns := ReadNodes(nod, ReadHeader(gdi).value.nodeCount, f).value;
      r.value == (Vectors(ns), EdgesOf(ns, Keys(ns)))
  {
    var header := ReadHeader(gdi);
    if header.Failure? {
      return Failure(header.error);
    }
    var nodes := ReadNod(nod, header.value.nodeCount, f);
    if nodes.Failure? {
      return Failure(nodes.error);
    }
    var vectors, edges := MeshData(nodes.value);
    r := Ok((vectors, edges));
  }
}
