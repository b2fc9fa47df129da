/**
 * The level reader of the map importer: a T3D scene export read line by
 * line into the static-mesh actors it places, with their mesh and scene
 * components, the convex collision elements of an `AggGeom` line, the
 * brush collision parser and the terrain list.
 *
 * A component is an object that both the reader's "current" variable and
 * the actor it is attached to refer to, so a line read after the
 * attachment still changes the actor's component. The model keeps the
 * components in two arenas (`comps`, `scenes`) and refers to them by
 * index, which keeps that sharing.
 *
 * `int()` is the parameter `toInt`. The vector parser is the parameter
 * `vec`: `T3DVector(flt)` for this reader, with `float()` as `flt`, and
 * the older parser of the second importer for that one.
 */
module MapLevel {

  import opened Wrappers
  import opened PyStr
  import opened T3D

  type Vector = seq<real>

  /** A vector parser: `parse_vector(line, name)`. */
  type VecParser = (string, string) -> Result<Vector, string>

  /** `T3DUtils.parse_vector`, with `float()` as `vec`. */
  function T3DVector(flt: string -> real): VecParser
  {
    (line, name) => ParseVector(line, name, flt)
  }

  // ---------------------------------------------------------------------
  // Settings
  // ---------------------------------------------------------------------

  /** A string splits at a character into at least two parts iff it holds it. */
  lemma SplitTwo(s: string, c: char)
    ensures |Split(s, [c])| >= 2 <==> c in s
  {
    FindFirst(s, [c]);
    if c in s {
      if Find(s, [c]) == -1 {
        NoAtNoChar(s, c);
      }
    } else {
      CharNotAt(s, c);
    }
  }

  /**
   * `line.split("=")[1].replace('"', "")`, the value of a setting line;
   * IndexError when the line has no '='.
   */
  function ValueText(line: string): (r: Result<string, string>)
    ensures r.Ok? <==> '=' in line
    ensures r.Ok? ==> '"' !in r.value
  {
    SplitTwo(line, '=');
    var parts := Split(line, "=");
    if |parts| < 2 then Failure("IndexError: list index out of range")
    else
      ReplaceCharByNothing(parts[1], '"');
      Ok(Replace(parts[1], "\"", ""))
  }

  /** The value of `key=value` with a single '=' is the value without its quotes. */
  lemma ValueTextAt(key: string, v: string)
    requires '=' !in key && '=' !in v
    ensures ValueText(key + "=" + v) == Ok(RemoveChar(v, '"'))
  {
    SplitAtChar(key, v, '=');
    SplitNoChar(v, '=');
    ReplaceCharByNothing(v, '"');
  }

  // ---------------------------------------------------------------------
  // Convex collision elements
  // ---------------------------------------------------------------------

  datatype ConvexElem = ConvexElem(vertices: seq<Vector>, indices: seq<int>)

  /** The elements of an `AggGeom=(...)` line: the prefix removed, the last character dropped. */
  function AggBody(line: string): string
  {
    Slice(Replace(line, "AggGeom=(", ""), 0, -1)
  }

  /** Each text parsed in order; the first failure is the result. */
  function All<T>(texts: seq<string>, parse: string -> Result<T, string>): (r: Result<seq<T>, string>)
    ensures r.Ok? <==> forall k :: 0 <= k < |texts| ==> parse(texts[k]).Ok?
    ensures r.Ok? ==> |r.value| == |texts|
    ensures r.Ok? ==> forall k :: 0 <= k < |texts| ==> r.value[k] == parse(texts[k]).value
  {
    if texts == [] then Ok([])
    else
      var init := All(texts[..|texts| - 1], parse);
      var v := parse(texts[|texts| - 1]);
      if init.Failure? then init
      else if v.Failure? then Failure(v.error)
      else Ok(init.value + [v.value])
  }

  /** `parse_vector(text, "")`, which reads a vertex. */
  function VertexOf(vec: VecParser): string -> Result<Vector, string>
  {
    t => vec(t, "")
  }

  /** The vertices of the vertex texts, in order. */
  function Vertices(texts: seq<string>, vec: VecParser): Result<seq<Vector>, string>
  {
    All(texts, VertexOf(vec))
  }

  /** `int()` of each text, in order. */
  function Ints(texts: seq<string>, toInt: string -> int): (r: seq<int>)
    ensures |r| == |texts|
  {
    seq(|texts|, k requires 0 <= k < |texts| => toInt(texts[k]))
  }

  /** `list.reverse()`. */
  function Reversed<T>(s: seq<T>): (r: seq<T>)
    ensures |r| == |s|
    ensures forall k :: 0 <= k < |s| ==> r[k] == s[|s| - 1 - k]
  {
    if s == [] then [] else Reversed(s[1..]) + [s[0]]
  }

  /** Reversing twice gives the list back. */
  lemma ReversedTwice<T>(s: seq<T>)
    ensures Reversed(Reversed(s)) == s
  {
  }

  /** The vertex texts between "VertexData=(" and "),IndexData", cut at each "),". */
  function VertexTexts(line: string): seq<string>
  {
    var vs := Find(line, "VertexData");
    var ids := Find(line, "IndexData");
    Split(Replace(Slice(line, vs + 12, ids - 2), "),", ")|"), "|")
  }

  /** The index texts between "IndexData=(" and the two characters before `box`. */
  function IndexTexts(line: string, box: string): seq<string>
    requires |box| > 0
  {
    var ids := Find(line, "IndexData");
    Split(Slice(line, ids + 11, Find(line, box) - 2), ",")
  }

  /**
   * One element of `StaticMeshComponent.parse_agg_geom` read from the
   * front of the text, and the text after its "ElemBox=".
   */
  function ElemAt(line: string, vec: VecParser, toInt: string -> int): Result<(ConvexElem, string), string>
  {
    var verts := Vertices(VertexTexts(line), vec);
    if verts.Failure? then Failure(verts.error)
    else
      var idx := Reversed(IndexTexts(line, "ElemBox="));
      Ok((ConvexElem(verts.value, Ints(idx, toInt)), SliceFrom(line, Find(line, "ElemBox=") + 8)))
  }

  /**
   * An element reads when all its vertex texts parse; its vertices are
   * theirs, in order, its indices are the index texts in reverse order,
   * and the rest of the text starts after its "ElemBox=".
   */
  lemma ElemRead(line: string, vec: VecParser, toInt: string -> int)
    ensures var r := ElemAt(line, vec, toInt);
      var ts := IndexTexts(line, "ElemBox=");
      var vs := VertexTexts(line);
      (r.Ok? <==> forall k :: 0 <= k < |vs| ==> vec(vs[k], "").Ok?) &&
      (r.Ok? ==>
        |r.value.0.vertices| == |vs| &&
        (forall k :: 0 <= k < |vs| ==> r.value.0.vertices[k] == vec(vs[k], "").value) &&
        |r.value.0.indices| == |ts| &&
        (forall k :: 0 <= k < |ts| ==> r.value.0.indices[k] == toInt(ts[|ts| - 1 - k])) &&
        r.value.1 == SliceFrom(line, Find(line, "ElemBox=") + 8))
  {
  }

  /** n items read one after another, each from the text the previous one left. */
  function Chain<T>(line: string, n: nat, item: string -> Result<(T, string), string>): (r: Result<seq<T>, string>)
    ensures r.Ok? ==> |r.value| == n
    ensures n > 0 && r.Ok? ==> item(line).Ok? && r.value[0] == item(line).value.0
    decreases n
  {
    if n == 0 then Ok([])
    else
      var h := item(line);
      if h.Failure? then Failure(h.error)
      else
        var t := Chain(h.value.1, n - 1, item);
        if t.Failure? then t else Ok([h.value.0] + t.value)
  }

  /** `ElemAt` as the item reader of `Chain`. */
  function ElemOf(vec: VecParser, toInt: string -> int): string -> Result<(ConvexElem, string), string>
  {
    l => ElemAt(l, vec, toInt)
  }

  /** The elements of an `AggGeom` line: one per "VertexData" it holds. */
  function AggGeoms(line: string, vec: VecParser, toInt: string -> int): (r: Result<seq<ConvexElem>, string>)
    ensures r.Ok? ==> |r.value| == Count(AggBody(line), "VertexData")
  {
    var body := AggBody(line);
    Chain(body, Count(body, "VertexData"), ElemOf(vec, toInt))
  }

  /** `elems` put before a result's items. */
  function Prefixed<T>(elems: seq<T>, r: Result<seq<T>, string>): Result<seq<T>, string>
  {
    if r.Ok? then Ok(elems + r.value) else r
  }

  lemma PrefixedEmpty<T>(r: Result<seq<T>, string>)
    ensures Prefixed([], r) == r
  {
    if r.Ok? {
      assert [] + r.value == r.value;
    }
  }

  /** A chain whose first item reads moves that item to the prefix. */
  lemma ChainStep<T>(elems: seq<T>, l: string, n: nat, item: string -> Result<(T, string), string>, e: T, rest: string)
    requires n > 0 && item(l) == Ok((e, rest))
    ensures Prefixed(elems, Chain(l, n, item)) == Prefixed(elems + [e], Chain(rest, n - 1, item))
  {
    var t := Chain(rest, n - 1, item);
    if t.Ok? {
      assert elems + ([e] + t.value) == (elems + [e]) + t.value;
    }
  }

  /** A chain whose first item fails fails with it. */
  lemma ChainFails<T>(elems: seq<T>, l: string, n: nat, item: string -> Result<(T, string), string>)
    requires n > 0 && item(l).Failure?
    ensures Prefixed(elems, Chain(l, n, item)) == Failure(item(l).error)
  {
  }

  /** The loop that reads n items, each from the text the previous one left. */
  method ReadChain<T>(line: string, n: nat, item: string -> Result<(T, string), string>) returns (r: Result<seq<T>, string>)
    ensures r == Chain(line, n, item)
  {
    var l := line;
    var elems: seq<T> := [];
    var left := n;
    PrefixedEmpty(Chain(l, left, item));
    while left > 0
      invariant Chain(line, n, item) == Prefixed(elems, Chain(l, left, item))
    {
      var h := item(l);
      if h.Failure? {
        ChainFails(elems, l, left, item);
        return Failure(h.error);
      }
      ChainStep(elems, l, left, item, h.value.0, h.value.1);
      elems := elems + [h.value.0];
      l := h.value.1;
      left := left - 1;
    }
    assert elems + [] == elems;
    return Ok(elems);
  }

  /**
   * `StaticMeshComponent.parse_agg_geom`: one element per "VertexData",
   * the text shortened past each "ElemBox=".
   */
  method ParseAggGeom(line: string, vec: VecParser, toInt: string -> int) returns (r: Result<seq<ConvexElem>, string>)
    ensures r == AggGeoms(line, vec, toInt)
    ensures r.Ok? ==> |r.value| == Count(AggBody(line), "VertexData")
  {
    var body := AggBody(line);
    r := ReadChain(body, Count(body, "VertexData"), ElemOf(vec, toInt));
  }

  /** A brush component: its single convex element and its location. */
  datatype Brush = Brush(name: string, vertices: seq<Vector>, indices: seq<int>, location: Vector)

  /**
   * `BrushComponent.parse_agg_geom`: an exception for more than one
   * element; otherwise the vertices and the indices, in the order
   * written, are appended.
   */
  function BrushParseAggGeom(b: Brush, line: string, vec: VecParser, toInt: string -> int): (r: Result<Brush, string>)
    ensures Count(AggBody(line), "VertexData") > 1 ==> r.Failure?
    ensures r.Ok? ==> Count(AggBody(line), "VertexData") <= 1
    ensures Count(AggBody(line), "VertexData") <= 1 ==> (r.Ok? <==> Vertices(VertexTexts(AggBody(line)), vec).Ok?)
    ensures r.Ok? ==> var ts := IndexTexts(AggBody(line), "ElemBox");
      r.value.name == b.name && r.value.location == b.location &&
      Vertices(VertexTexts(AggBody(line)), vec).Ok? &&
      r.value.vertices == b.vertices + Vertices(VertexTexts(AggBody(line)), vec).value &&
      |r.value.indices| == |b.indices| + |ts| && r.value.indices[..|b.indices|] == b.indices &&
      forall k :: 0 <= k < |ts| ==> r.value.indices[|b.indices| + k] == toInt(ts[k])
  {
    var l := AggBody(line);
    if Count(l, "VertexData") > 1 then Failure("Exception: More than one ConvexElem found!")
    else
      var verts := Vertices(VertexTexts(l), vec);
      if verts.Failure? then Failure(verts.error)
      else Ok(b.(vertices := b.vertices + verts.value, indices := b.indices + Ints(IndexTexts(l, "ElemBox"), toInt)))
  }

  /**
   * When the first "ElemBox" is the first "ElemBox=", the brush reads the
   * same vertices as the mesh component's first element and its indices
   * in the opposite order.
   */
  lemma BrushMatchesMesh(line: string, vec: VecParser, toInt: string -> int)
    requires Find(AggBody(line), "ElemBox") == Find(AggBody(line), "ElemBox=")
    requires Count(AggBody(line), "VertexData") == 1
    requires AggGeoms(line, vec, toInt).Ok?
    ensures var e := AggGeoms(line, vec, toInt).value[0];
      var r := BrushParseAggGeom(Brush("", [], [], []), line, vec, toInt);
      r.Ok? && r.value.vertices == e.vertices && r.value.indices == Reversed(e.indices)
  {
    var l := AggBody(line);
    var item := ElemOf(vec, toInt);
    assert item(l) == ElemAt(l, vec, toInt);
    BrushMatchesElem(line, l, vec, toInt);
  }

  /** The brush against the element the mesh component reads first. */
  lemma BrushMatchesElem(line: string, l: string, vec: VecParser, toInt: string -> int)
    requires l == AggBody(line) && Count(l, "VertexData") == 1
    requires Find(l, "ElemBox") == Find(l, "ElemBox=")
    requires ElemAt(l, vec, toInt).Ok?
    ensures var e := ElemAt(l, vec, toInt).value.0;
      var r := BrushParseAggGeom(Brush("", [], [], []), line, vec, toInt);
      r.Ok? && r.value.vertices == e.vertices && r.value.indices == Reversed(e.indices)
  {
    ElemRead(l, vec, toInt);
    var e := ElemAt(l, vec, toInt).value.0;
    var ts := IndexTexts(l, "ElemBox=");
    assert IndexTexts(l, "ElemBox") == ts;
    var r := BrushParseAggGeom(Brush("", [], [], []), line, vec, toInt);
    assert r.Ok?;
    assert r.value.vertices == e.vertices;
    var fwd := r.value.indices;
    assert |fwd| == |ts|;
    assert forall k :: 0 <= k < |ts| ==> fwd[k] == toInt(ts[k]) by {
      forall k | 0 <= k < |ts| ensures fwd[k] == toInt(ts[k]) {
        assert fwd[0 + k] == toInt(ts[k]);
      }
    }
    assert |e.indices| == |ts|;
    assert forall k :: 0 <= k < |ts| ==> e.indices[k] == toInt(ts[|ts| - 1 - k]);
    Opposite(fwd, e.indices, ts, toInt);
  }

  /** Two index lists read from the same texts, one in order and one reversed. */
  lemma Opposite(fwd: seq<int>, back: seq<int>, ts: seq<string>, toInt: string -> int)
    requires |fwd| == |ts| && |back| == |ts|
    requires forall k :: 0 <= k < |ts| ==> fwd[k] == toInt(ts[k])
    requires forall k :: 0 <= k < |ts| ==> back[k] == toInt(ts[|ts| - 1 - k])
    ensures fwd == Reversed(back)
  {
    forall k | 0 <= k < |ts| ensures fwd[k] == Reversed(back)[k] {
      assert back[|ts| - 1 - k] == toInt(ts[|ts| - 1 - (|ts| - 1 - k)]);
    }
  }

  // ---------------------------------------------------------------------
  // Components
  // ---------------------------------------------------------------------

  datatype MeshComp = MeshComp(
    name: string, meshPath: string, location: Vector, rotation: Vector, scale: Vector,
    disableCollisions: bool, aggGeoms: seq<ConvexElem>)

  /** A new `StaticMeshComponent`: no mesh, at the origin, unit scale, collisions on. */
  function NewMesh(name: string): MeshComp
  {
    MeshComp(name, "", [0.0, 0.0, 0.0], [0.0, 0.0, 0.0], [1.0, 1.0, 1.0], false, [])
  }

  /** What a component line sets: the first key of the chain the line contains. */
  datatype MeshField = LocationField | RotationField | ScaleField | MeshPathField | CollisionField | AggField | NoField

  function MeshFieldOf(line: string): MeshField
  {
    if Contains(line, "RelativeLocation") then LocationField
    else if Contains(line, "RelativeRotation") then RotationField
    else if Contains(line, "RelativeScale3D") then ScaleField
    else if Contains(line, "StaticMesh=StaticMesh") then MeshPathField
    else if Contains(line, "CollisionEnabled=NoCollision") then CollisionField
    else if Contains(line, "AggGeom") then AggField
    else NoField
  }

  /**
   * `StaticMeshComponent.read_line`: the first matching key decides the
   * one field the line sets; a vector or collision text that does not
   * parse raises.
   */
  function MeshReadLine(m: MeshComp, line: string, vec: VecParser, toInt: string -> int): (r: Result<MeshComp, string>)
    ensures r.Failure? ==> MeshFieldOf(line) in {LocationField, RotationField, ScaleField, AggField}
    ensures r.Ok? ==> r.value.name == m.name
    ensures r.Ok? && MeshFieldOf(line) != LocationField ==> r.value.location == m.location
    ensures r.Ok? && MeshFieldOf(line) != RotationField ==> r.value.rotation == m.rotation
    ensures r.Ok? && MeshFieldOf(line) != ScaleField ==> r.value.scale == m.scale
    ensures r.Ok? && MeshFieldOf(line) != MeshPathField ==> r.value.meshPath == m.meshPath
    ensures r.Ok? && MeshFieldOf(line) != CollisionField ==> r.value.disableCollisions == m.disableCollisions
    ensures r.Ok? && MeshFieldOf(line) != AggField ==> r.value.aggGeoms == m.aggGeoms
    ensures MeshFieldOf(line) == MeshPathField ==> r.Ok? && r.value.meshPath == ParseMeshPath(line)
    ensures MeshFieldOf(line) == CollisionField ==> r.Ok? && r.value.disableCollisions
    ensures MeshFieldOf(line) == LocationField ==>
      (r.Ok? <==> vec(line, "RelativeLocation").Ok?) && (r.Ok? ==> r.value.location == vec(line, "RelativeLocation").value)
    ensures MeshFieldOf(line) == RotationField ==>
      (r.Ok? <==> vec(line, "RelativeRotation").Ok?) && (r.Ok? ==> r.value.rotation == vec(line, "RelativeRotation").value)
    ensures MeshFieldOf(line) == ScaleField ==>
      (r.Ok? <==> vec(line, "RelativeScale3D").Ok?) && (r.Ok? ==> r.value.scale == vec(line, "RelativeScale3D").value)
    ensures MeshFieldOf(line) == AggField ==> (r.Ok? <==> AggGeoms(line, vec, toInt).Ok?)
    ensures r.Ok? && MeshFieldOf(line) == AggField ==>
      AggGeoms(line, vec, toInt).Ok? && r.value.aggGeoms == m.aggGeoms + AggGeoms(line, vec, toInt).value
    ensures r.Ok? && m.meshPath != "" ==> r.value.meshPath != ""
  {
    match MeshFieldOf(line)
    case LocationField =>
      var v := vec(line, "RelativeLocation");
      if v.Failure? then Failure(v.error) else Ok(m.(location := v.value))
    case RotationField =>
      var v := vec(line, "RelativeRotation");
      if v.Failure? then Failure(v.error) else Ok(m.(rotation := v.value))
    case ScaleField =>
      var v := vec(line, "RelativeScale3D");
      if v.Failure? then Failure(v.error) else Ok(m.(scale := v.value))
    case MeshPathField => Ok(m.(meshPath := ParseMeshPath(line)))
    case CollisionField => Ok(m.(disableCollisions := true))
    case AggField =>
      var es := AggGeoms(line, vec, toInt);
      if es.Failure? then Failure(es.error) else Ok(m.(aggGeoms := m.aggGeoms + es.value))
    case NoField => Ok(m)
  }

  /** A scene component; its transform is unset until a line sets it. */
  datatype SceneComp = SceneComp(name: string, location: Option<Vector>, rotation: Option<Vector>, scale: Option<Vector>)

  /** `SceneComponent.read_line`: the first three keys of the mesh chain, in the same order. */
  function SceneReadLine(s: SceneComp, line: string, vec: VecParser): (r: Result<SceneComp, string>)
    ensures r.Failure? ==> MeshFieldOf(line) in {LocationField, RotationField, ScaleField}
    ensures r.Ok? ==> r.value.name == s.name
    ensures r.Ok? && MeshFieldOf(line) != LocationField ==> r.value.location == s.location
    ensures r.Ok? && MeshFieldOf(line) != RotationField ==> r.value.rotation == s.rotation
    ensures r.Ok? && MeshFieldOf(line) != ScaleField ==> r.value.scale == s.scale
    ensures r.Ok? && MeshFieldOf(line) == LocationField ==> r.value.location.Some?
    ensures r.Ok? && MeshFieldOf(line) == RotationField ==> r.value.rotation.Some?
    ensures r.Ok? && MeshFieldOf(line) == ScaleField ==> r.value.scale.Some?
    ensures MeshFieldOf(line) == LocationField ==>
      (r.Ok? <==> vec(line, "RelativeLocation").Ok?) && (r.Ok? ==> r.value.location == Some(vec(line, "RelativeLocation").value))
    ensures MeshFieldOf(line) == RotationField ==>
      (r.Ok? <==> vec(line, "RelativeRotation").Ok?) && (r.Ok? ==> r.value.rotation == Some(vec(line, "RelativeRotation").value))
    ensures MeshFieldOf(line) == ScaleField ==>
      (r.Ok? <==> vec(line, "RelativeScale3D").Ok?) && (r.Ok? ==> r.value.scale == Some(vec(line, "RelativeScale3D").value))
  {
    match MeshFieldOf(line)
    case LocationField =>
      var v := vec(line, "RelativeLocation");
      if v.Failure? then Failure(v.error) else Ok(s.(location := Some(v.value)))
    case RotationField =>
      var v := vec(line, "RelativeRotation");
      if v.Failure? then Failure(v.error) else Ok(s.(rotation := Some(v.value)))
    case ScaleField =>
      var v := vec(line, "RelativeScale3D");
      if v.Failure? then Failure(v.error) else Ok(s.(scale := Some(v.value)))
    case _ => Ok(s)
  }

  // ---------------------------------------------------------------------
  // The level reader
  // ---------------------------------------------------------------------

  /** A `StaticMeshActor`; `smc` and `scene` index the component arenas. */
  datatype Actor = Actor(name: string, index: int, actorLabel: string, layers: seq<string>, smc: Option<nat>, scene: Option<nat>)

  /** The state of `Level.read_from` between two lines. */
  datatype Reader = Reader(
    actor: Option<Actor>, scene: Option<nat>, smc: Option<nat>,
    comps: seq<MeshComp>, scenes: seq<SceneComp>,
    labels: seq<string>, idx: nat, actors: seq<Actor>)

  /** The level: its name, its actors and the components they refer to. */
  datatype Level = Level(name: string, actors: seq<Actor>, comps: seq<MeshComp>, scenes: seq<SceneComp>)

  predicate ActorRefs(a: Actor, comps: seq<MeshComp>, scenes: seq<SceneComp>)
  {
    (a.smc.Some? ==> a.smc.value < |comps|) && (a.scene.Some? ==> a.scene.value < |scenes|)
  }

  /** Every component index of the state refers to a component. */
  predicate Refs(st: Reader)
  {
    (st.smc.Some? ==> st.smc.value < |st.comps|) &&
    (st.scene.Some? ==> st.scene.value < |st.scenes|) &&
    (st.actor.Some? ==> ActorRefs(st.actor.value, st.comps, st.scenes)) &&
    forall k :: 0 <= k < |st.actors| ==> ActorRefs(st.actors[k], st.comps, st.scenes)
  }

  const Start := Reader(None, None, None, [], [], [], 0, [])

  /** A "Begin Actor" line: a new current actor for class StaticMeshActor; the count and the name always recorded. */
  function BeginActor(st: Reader, line: string): (r: Reader)
    requires Refs(st)
    ensures Refs(r)
  {
    var name := ParseName(line);
    var actor := if ParseClass(line) == "StaticMeshActor"
      then Some(Actor(name + "_" + IntToString(st.idx), st.idx, "", [], None, None))
      else st.actor;
    st.(actor := actor, idx := st.idx + 1, labels := st.labels + [name])
  }

  /** A "Begin Object" line: a new current scene component or mesh component, by name. */
  function BeginObject(st: Reader, line: string): (r: Reader)
    requires Refs(st)
    ensures Refs(r)
  {
    var name := ParseName(line);
    if name == "RootTransform" then
      st.(scene := Some(|st.scenes|), scenes := st.scenes + [SceneComp(name, None, None, None)])
    else if StartsWith(name, "StaticMeshComponent") then
      st.(smc := Some(|st.comps|), comps := st.comps + [NewMesh(name)])
    else st
  }

  /** An "End Object" line: the current components attached to the current actor, the mesh one only with a mesh path. */
  function EndObject(st: Reader): (r: Reader)
    requires Refs(st)
    ensures Refs(r)
  {
    if st.actor.None? then st
    else
      var a := st.actor.value;
      var a1 := if st.smc.Some? && st.comps[st.smc.value].meshPath != "" then a.(smc := st.smc) else a;
      var a2 := if st.scene.Some? then a1.(scene := st.scene) else a1;
      st.(actor := Some(a2))
  }

  /** An "End Actor" line: the current actor kept if it has a mesh and a new label; then nothing is current. */
  function EndActor(st: Reader): (r: Reader)
    requires Refs(st)
    ensures Refs(r)
  {
    if st.actor.Some? && st.actor.value.smc.Some? && st.actor.value.actorLabel !in st.labels then
      st.(actors := st.actors + [st.actor.value], labels := st.labels + [st.actor.value.actorLabel],
          scene := None, smc := None, actor := None)
    else st
  }

  /** A "Layers(" line adds its value to the current actor's layers. */
  function AddLayer(st: Reader, line: string): (r: Result<Reader, string>)
    requires Refs(st)
    ensures r.Ok? ==> Refs(r.value)
  {
    if Contains(line, "Layers(") && st.actor.Some? then
      var layer := ValueText(line);
      if layer.Failure? then Failure(layer.error)
      else Ok(st.(actor := Some(st.actor.value.(layers := st.actor.value.layers + [layer.value]))))
    else Ok(st)
  }

  /** The current mesh component, if any, reads the line. */
  function MeshLine(st: Reader, line: string, vec: VecParser, toInt: string -> int): (r: Result<Reader, string>)
    requires Refs(st)
    ensures r.Ok? ==> Refs(r.value)
  {
    if st.smc.Some? then
      var m := MeshReadLine(st.comps[st.smc.value], line, vec, toInt);
      if m.Failure? then Failure(m.error) else Ok(st.(comps := st.comps[st.smc.value := m.value]))
    else Ok(st)
  }

  /** The current scene component, if any, reads the line. */
  function SceneLine(st: Reader, line: string, vec: VecParser): (r: Result<Reader, string>)
    requires Refs(st)
    ensures r.Ok? ==> Refs(r.value)
  {
    if st.scene.Some? then
      var c := SceneReadLine(st.scenes[st.scene.value], line, vec);
      if c.Failure? then Failure(c.error) else Ok(st.(scenes := st.scenes[st.scene.value := c.value]))
    else Ok(st)
  }

  /** Any other line: a layer for the current actor, then the line read by the current components. */
  function OtherLine(st: Reader, line: string, vec: VecParser, toInt: string -> int): (r: Result<Reader, string>)
    requires Refs(st)
    ensures r.Ok? ==> Refs(r.value)
  {
    var st1 := AddLayer(st, line);
    if st1.Failure? then st1
    else
      var st2 := MeshLine(st1.value, line, vec, toInt);
      if st2.Failure? then st2 else SceneLine(st2.value, line, vec)
  }

  /** One line of `Level.read_from`, stripped first. */
  function Step(st: Reader, raw: string, vec: VecParser, toInt: string -> int): (r: Result<Reader, string>)
    requires Refs(st)
    ensures r.Ok? ==> Refs(r.value)
  {
    var line := Strip(raw);
    if StartsWith(line, "Begin Actor") then Ok(BeginActor(st, line))
    else if StartsWith(line, "ActorLabel") && st.actor.Some? then
      var lbl := ValueText(line);
      if lbl.Failure? then Failure(lbl.error)
      else Ok(st.(actor := Some(st.actor.value.(actorLabel := lbl.value))))
    else ObjectLines(st, line, vec, toInt)
  }

  /** The rest of the chain of `Level.read_from`, after the actor lines. */
  function ObjectLines(st: Reader, line: string, vec: VecParser, toInt: string -> int): (r: Result<Reader, string>)
    requires Refs(st)
    ensures r.Ok? ==> Refs(r.value)
  {
    if StartsWith(line, "Begin Object") then Ok(BeginObject(st, line))
    else if StartsWith(line, "End Object") then Ok(EndObject(st))
    else if StartsWith(line, "End Actor") then Ok(EndActor(st))
    else OtherLine(st, line, vec, toInt)
  }

  /** The state after the lines, or the first failure. */
  function Run(lines: seq<string>, vec: VecParser, toInt: string -> int): (r: Result<Reader, string>)
    ensures r.Ok? ==> Refs(r.value)
  {
    if lines == [] then Ok(Start)
    else
      var prev := Run(lines[..|lines| - 1], vec, toInt);
      if prev.Failure? then prev else Step(prev.value, lines[|lines| - 1], vec, toInt)
  }

  /** One more line is one more step. */
  lemma RunNext(lines: seq<string>, i: nat, vec: VecParser, toInt: string -> int)
    requires i < |lines| && Run(lines[..i], vec, toInt).Ok?
    ensures Run(lines[..i + 1], vec, toInt) == Step(Run(lines[..i], vec, toInt).value, lines[i], vec, toInt)
  {
    assert lines[..i + 1][..i] == lines[..i];
  }

  /** A failure on a prefix of the lines is the failure of all of them. */
  lemma {:induction false} RunFails(lines: seq<string>, j: nat, vec: VecParser, toInt: string -> int)
    requires j <= |lines| && Run(lines[..j], vec, toInt).Failure?
    ensures Run(lines, vec, toInt) == Run(lines[..j], vec, toInt)
    decreases |lines|
  {
    if j < |lines| {
      var init := lines[..|lines| - 1];
      assert init[..j] == lines[..j];
      RunFails(init, j, vec, toInt);
    } else {
      assert lines[..j] == lines;
    }
  }

  /** `Level.read_from` on the lines of a file whose name is `fileName`. */
  function LevelOf(fileName: string, lines: seq<string>, vec: VecParser, toInt: string -> int): (r: Result<Level, string>)
    ensures r.Ok? <==> Run(lines, vec, toInt).Ok?
  {
    var st := Run(lines, vec, toInt);
    if st.Failure? then Failure(st.error)
    else Ok(Level(Replace(fileName, ".t3d", ""), st.value.actors, st.value.comps, st.value.scenes))
  }

  /** The body of the loop of `Level.read_from`: one line, stripped, by its kind. */
  method ReadLine(st: Reader, raw: string, vec: VecParser, toInt: string -> int) returns (r: Result<Reader, string>)
    requires Refs(st)
    ensures r == Step(st, raw, vec, toInt)
  {
    var line := Strip(raw);
    if StartsWith(line, "Begin Actor") {
      var next := ReadBeginActor(st, line);
      assert Step(st, raw, vec, toInt) == Ok(BeginActor(st, line));
      return Ok(next);
    }
    if StartsWith(line, "ActorLabel") && st.actor.Some? {
      var lbl := ValueText(line);
      if lbl.Failure? {
        return Failure(lbl.error);
      }
      return Ok(st.(actor := Some(st.actor.value.(actorLabel := lbl.value))));
    }
    assert Step(st, raw, vec, toInt) == ObjectLines(st, line, vec, toInt);
    r := ReadObjectLines(st, line, vec, toInt);
  }

  /** A "Begin Actor" line: the actor is created only for class StaticMeshActor. */
  method ReadBeginActor(st: Reader, line: string) returns (r: Reader)
    requires Refs(st)
    ensures r == BeginActor(st, line)
  {
    var name := ParseName(line);
    var actor := st.actor;
    if ParseClass(line) == "StaticMeshActor" {
      actor := Some(Actor(name + "_" + IntToString(st.idx), st.idx, "", [], None, None));
    }
    r := st.(actor := actor, idx := st.idx + 1, labels := st.labels + [name]);
  }

  /** The object lines, "End Actor" and the other lines of the loop body. */
  method ReadObjectLines(st: Reader, line: string, vec: VecParser, toInt: string -> int) returns (r: Result<Reader, string>)
    requires Refs(st)
    ensures r == ObjectLines(st, line, vec, toInt)
  {
    var actor := st.actor;
    if StartsWith(line, "Begin Object") {
      var name := ParseName(line);
      var next := st;
      if name == "RootTransform" {
        next := st.(scene := Some(|st.scenes|), scenes := st.scenes + [SceneComp(name, None, None, None)]);
      } else if StartsWith(name, "StaticMeshComponent") {
        next := st.(smc := Some(|st.comps|), comps := st.comps + [NewMesh(name)]);
      }
      return Ok(next);
    }
    if StartsWith(line, "End Object") {
      if st.smc.Some? && actor.Some? && st.comps[st.smc.value].meshPath != "" {
        actor := Some(actor.value.(smc := st.smc));
      }
      if actor.Some? && st.scene.Some? {
        actor := Some(actor.value.(scene := st.scene));
      }
      return Ok(st.(actor := actor));
    }
    if StartsWith(line, "End Actor") {
      var next := st;
      if actor.Some? && actor.value.smc.Some? && actor.value.actorLabel !in st.labels {
        next := st.(actors := st.actors + [actor.value], labels := st.labels + [actor.value.actorLabel],
                    scene := None, smc := None, actor := None);
      }
      return Ok(next);
    }
    r := ReadOther(st, line, vec, toInt);
  }

  /** The last branch of the loop body: the layer, then the current components read the line. */
  method ReadOther(st: Reader, line: string, vec: VecParser, toInt: string -> int) returns (r: Result<Reader, string>)
    requires Refs(st)
    ensures r == OtherLine(st, line, vec, toInt)
  {
    var cur := st;
    if Contains(line, "Layers(") && st.actor.Some? {
      var layer := ValueText(line);
      if layer.Failure? {
        return Failure(layer.error);
      }
      cur := cur.(actor := Some(st.actor.value.(layers := st.actor.value.layers + [layer.value])));
    }
    assert AddLayer(st, line) == Ok(cur);
    ghost var st1 := cur;
    if cur.smc.Some? {
      var m := MeshReadLine(cur.comps[cur.smc.value], line, vec, toInt);
      if m.Failure? {
        return Failure(m.error);
      }
      cur := cur.(comps := cur.comps[cur.smc.value := m.value]);
    }
    assert MeshLine(st1, line, vec, toInt) == Ok(cur);
    if cur.scene.Some? {
      var c := SceneReadLine(cur.scenes[cur.scene.value], line, vec);
      if c.Failure? {
        return Failure(c.error);
      }
      cur := cur.(scenes := cur.scenes[cur.scene.value := c.value]);
    }
    return Ok(cur);
  }

  /** `Level.read_from`: the loop over the lines of the file. */
  method ReadLevel(fileName: string, lines: seq<string>, vec: VecParser, toInt: string -> int) returns (r: Result<Level, string>)
    ensures r == LevelOf(fileName, lines, vec, toInt)
  {
    var st := Start;
    var i := 0;
    while i < |lines|
      invariant 0 <= i <= |lines|
      invariant Run(lines[..i], vec, toInt) == Ok(st)
    {
      RunNext(lines, i, vec, toInt);
      var next := ReadLine(st, lines[i], vec, toInt);
      if next.Failure? {
        RunFails(lines, i + 1, vec, toInt);
        return Failure(next.error);
      }
      st := next.value;
      i := i + 1;
    }
    assert lines[..|lines|] == lines;
    return Ok(Level(Replace(fileName, ".t3d", ""), st.actors, st.comps, st.scenes));
  }
}
