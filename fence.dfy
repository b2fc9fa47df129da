/**
 * The fence importer: it reads the FlySection elements of an area data
 * XML file into one list of Fence elements per section, in pre-order,
 * and turns each section into a closed outline (one vertex per fence and
 * a growing fan of edges whose last one is bent back to vertex 0).
 *
 * `ElementTree` parsing is left out: a parsed document is an `Element`
 * value. `float()` is the parameter `flt`, as in the T3D readers.
 */
module Fence {

  import opened Wrappers
  import opened PyStr
  import opened T3D

  /** An XML element: its tag, its attributes and its child elements in document order. */
  datatype Element = Element(tag: string, attrib: map<string, string>, children: seq<Element>)

  const SectionTag := "FlySection"
  const FenceTag := "Fence"
  const PosKey := "pos"

  /** `fence.attrib.get('pos').split(',')` when the attribute is missing. */
  const NoSplit := "AttributeError: 'NoneType' object has no attribute 'split'"
  /** `edges[len(edges) - 1]` on an empty edge list. */
  const NoEdge := "IndexError: list index out of range"

  /** The number of elements in a tree. */
  function Size(e: Element): nat
    decreases e, 1
  {
    1 + SizeAll(e.children)
  }

  function SizeAll(es: seq<Element>): nat
    decreases es, 0
  {
    if es == [] then 0 else SizeAll(es[..|es| - 1]) + Size(es[|es| - 1])
  }

  lemma {:induction false} SizeAt(es: seq<Element>, i: int)
    requires 0 <= i < |es|
    ensures Size(es[i]) < SizeAll(es) + 1
    decreases |es|
  {
    if i < |es| - 1 {
      SizeAt(es[..|es| - 1], i);
    }
  }

  /** `findall(tag)`: the direct children with that tag, in document order. */
  function FindAll(es: seq<Element>, tag: string): (r: seq<Element>)
    ensures |r| <= |es| && SizeAll(r) <= SizeAll(es)
    ensures forall k :: 0 <= k < |r| ==> r[k].tag == tag && r[k] in es
  {
    if es == [] then []
    else
      var init := FindAll(es[..|es| - 1], tag);
      if es[|es| - 1].tag == tag then init + [es[|es| - 1]] else init
  }

  /** The Fence children of a section. */
  function Fences(e: Element): seq<Element>
  {
    FindAll(e.children, FenceTag)
  }

  /** The FlySection children of a section. */
  function Nested(e: Element): seq<Element>
  {
    FindAll(e.children, SectionTag)
  }

  /**
   * The lists `parse_sections` appends for the sections `xs`: for each
   * section in turn, its fences, then the lists of its nested sections.
   */
  function PreOrder(xs: seq<Element>): seq<seq<Element>>
    decreases SizeAll(xs)
  {
    if xs == [] then []
    else
      var x := xs[|xs| - 1];
      SizeAt(xs, |xs| - 1);
      PreOrder(xs[..|xs| - 1]) + [Fences(x)] + PreOrder(Nested(x))
  }

  /** The last section's lists come after those of the sections before it. */
  lemma PreOrderSnoc(xs: seq<Element>)
    requires xs != []
    ensures PreOrder(xs) == PreOrder(xs[..|xs| - 1]) + [Fences(xs[|xs| - 1])] + PreOrder(Nested(xs[|xs| - 1]))
  {
  }

  lemma Regroup<T>(p: seq<T>, q: seq<T>, r: seq<T>, t: seq<T>)
    ensures (p + q) + r + t == p + (q + r + t)
  {
    assert |(p + q) + r + t| == |p + (q + r + t)|;
    forall i | 0 <= i < |p + (q + r + t)| ensures ((p + q) + r + t)[i] == (p + (q + r + t))[i] {}
  }

  /** The pre-order of two runs of sections is the pre-order of each, one after the other. */
  lemma {:induction false} PreOrderAppend(a: seq<Element>, b: seq<Element>)
    ensures PreOrder(a + b) == PreOrder(a) + PreOrder(b)
    decreases |b|
  {
    if b == [] {
      assert a + b == a;
      assert PreOrder(b) == [];
    } else {
      var ab := a + b;
      var x := b[|b| - 1];
      assert ab[..|ab| - 1] == a + b[..|b| - 1];
      assert ab[|ab| - 1] == x;
      PreOrderSnoc(ab);
      PreOrderSnoc(b);
      PreOrderAppend(a, b[..|b| - 1]);
      var p, q, r, t := PreOrder(a), PreOrder(b[..|b| - 1]), [Fences(x)], PreOrder(Nested(x));
      assert PreOrder(ab) == p + q + r + t;
      assert PreOrder(b) == q + r + t;
      Regroup(p, q, r, t);
    }
  }

  /**
   * Pre-order read from the front: the first section's fences come
   * first, then everything below it, then the sections after it.
   */
  lemma PreOrderCons(x: Element, rest: seq<Element>)
    ensures PreOrder([x] + rest) == [Fences(x)] + PreOrder(Nested(x)) + PreOrder(rest)
  {
    PreOrderAppend([x], rest);
    assert [x][..0] == [] && [x][0] == x;
    PreOrderSnoc([x]);
    Regroup([], [Fences(x)], PreOrder(Nested(x)), PreOrder(rest));
  }

  /** The number of FlySection elements anywhere in a tree. */
  function Flies(e: Element): nat
    decreases e, 1
  {
    (if e.tag == SectionTag then 1 else 0) + FliesAll(e.children)
  }

  function FliesAll(es: seq<Element>): nat
    decreases es, 0
  {
    if es == [] then 0 else FliesAll(es[..|es| - 1]) + Flies(es[|es| - 1])
  }

  /** Every FlySection below `e` hangs from a chain of FlySections. */
  predicate Closed(e: Element)
  {
    forall c :: c in e.children ==> if c.tag == SectionTag then Closed(c) else Flies(c) == 0
  }

  lemma {:induction false} FliesFiltered(es: seq<Element>)
    requires forall c :: c in es && c.tag != SectionTag ==> Flies(c) == 0
    ensures FliesAll(FindAll(es, SectionTag)) == FliesAll(es)
  {
    if es != [] {
      var init := es[..|es| - 1];
      FliesFiltered(init);
      var r := FindAll(init, SectionTag);
      if es[|es| - 1].tag == SectionTag {
        var rr := r + [es[|es| - 1]];
        assert rr[..|rr| - 1] == r;
      }
    }
  }

  /**
   * One list per FlySection: when the top sections are FlySections and
   * every FlySection below them hangs from FlySections only, there are
   * as many lists as FlySection elements in the trees.
   */
  lemma {:induction false} PreOrderCount(xs: seq<Element>)
    requires forall k :: 0 <= k < |xs| ==> xs[k].tag == SectionTag && Closed(xs[k])
    ensures |PreOrder(xs)| == FliesAll(xs)
    decreases SizeAll(xs)
  {
    if xs != [] {
      var x := xs[|xs| - 1];
      SizeAt(xs, |xs| - 1);
      PreOrderCount(xs[..|xs| - 1]);
      var ns := Nested(x);
      forall k | 0 <= k < |ns| ensures ns[k].tag == SectionTag && Closed(ns[k]) {
        assert ns[k] in x.children;
      }
      PreOrderCount(ns);
      FliesFiltered(x.children);
    }
  }

  /** One more section of `parse_sections`: its fences, then its nested sections. */
  lemma PreOrderNext(o: seq<seq<Element>>, xs: seq<Element>, i: int, done: seq<seq<Element>>, s: seq<seq<Element>>)
    requires 0 <= i < |xs| && done == o + PreOrder(xs[..i])
    requires s == done + [Fences(xs[i])] + PreOrder(Nested(xs[i]))
    ensures s == o + PreOrder(xs[..i + 1])
  {
    var pre := xs[..i + 1];
    assert pre[..|pre| - 1] == xs[..i] && pre[|pre| - 1] == xs[i];
    PreOrderSnoc(pre);
    Regroup(o, PreOrder(xs[..i]), [Fences(xs[i])], PreOrder(Nested(xs[i])));
  }

  /** `for x in xs: acc.append(x)`. */
  method Append<T>(acc: seq<T>, xs: seq<T>) returns (r: seq<T>)
    ensures r == acc + xs
  {
    r := acc;
    for j := 0 to |xs|
      invariant r == acc + xs[..j]
    {
      r := r + [xs[j]];
      assert xs[..j + 1] == xs[..j] + [xs[j]];
    }
    assert xs[..|xs|] == xs;
  }

  /** The state of the importer script: the module-level `sections` list. */
  class Importer {
    var sections: seq<seq<Element>>

    /** Reads the FlySection children of the document root. */
    constructor(root: Element)
      ensures sections == PreOrder(FindAll(root.children, SectionTag))
    {
      sections := [];
      new;
      ParseSections(FindAll(root.children, SectionTag));
    }

    /** `parse_sections`: appends the fences of every section, nested ones after their parent. */
    method ParseSections(xs: seq<Element>)
      modifies this
      ensures sections == old(sections) + PreOrder(xs)
      decreases SizeAll(xs)
    {
      for i := 0 to |xs|
        invariant sections == old(sections) + PreOrder(xs[..i])
      {
        var section := xs[i];
        var fences := Append([], Fences(section));
        assert fences == Fences(section);
        ghost var done := sections;
        sections := sections + [fences];
        SizeAt(xs, i);
        ParseSections(Nested(section));
        PreOrderNext(old(sections), xs, i, done, sections);
      }
      assert xs[..|xs|] == xs;
    }
  }

  /** An edge `[a, b]` between two vertex indices. */
  datatype Edge = Edge(a: nat, b: nat)

  /** Vertices and edges of one section. */
  datatype Outline = Outline(vectors: seq<seq<real>>, edges: seq<Edge>)

  /** The edges appended after a fence when there are `n` vertices: `[c, c + 1]` for each c below n. */
  function Ramp(n: nat): seq<Edge>
  {
    seq(n, c requires 0 <= c < n => Edge(c, c + 1))
  }

  /** The vertex of one fence: its comma-separated `pos` values as floats. */
  function FenceVertex(fence: Element, flt: string -> real): seq<real>
    requires PosKey in fence.attrib
  {
    Floats(Split(fence.attrib[PosKey], ","), flt)
  }

  /** One iteration of the loop over the fences of a section. */
  function FenceStep(o: Outline, fence: Element, flt: string -> real): Result<Outline, string>
  {
    if PosKey !in fence.attrib then Failure(NoSplit)
    else
      var vs := o.vectors + [FenceVertex(fence, flt)];
      Ok(Outline(vs, o.edges + Ramp(|vs|)))
  }

  /** The vertices and edges after the loop over the fences. */
  function Built(section: seq<Element>, flt: string -> real): Result<Outline, string>
  {
    if section == [] then Ok(Outline([], []))
    else
      var init := Built(section[..|section| - 1], flt);
      if init.Failure? then init else FenceStep(init.value, section[|section| - 1], flt)
  }

  /** `edges[len(edges) - 1][1] = 0`. */
  function Patch(edges: seq<Edge>): seq<Edge>
    requires edges != []
  {
    edges[|edges| - 1 := edges[|edges| - 1].(b := 0)]
  }

  /** The outline of a section, or the error the script stops with. */
  function OutlineOf(section: seq<Element>, flt: string -> real): Result<Outline, string>
  {
    var b := Built(section, flt);
    if b.Failure? then b
    else if b.value.edges == [] then Failure(NoEdge)
    else Ok(b.value.(edges := Patch(b.value.edges)))
  }

  /** The vectors and edges of one section, as the loop body of the script builds them. */
  method SectionOutline(section: seq<Element>, flt: string -> real) returns (r: Result<Outline, string>)
    ensures r == OutlineOf(section, flt)
  {
    var vectors: seq<seq<real>> := [];
    var edges: seq<Edge> := [];
    for i := 0 to |section|
      invariant Built(section[..i], flt) == Ok(Outline(vectors, edges))
    {
      assert section[..i + 1][..i] == section[..i];
      var fence := section[i];
      if PosKey !in fence.attrib {
        assert Built(section[..i + 1], flt).Failure?;
        BuiltFails(section, i + 1, flt);
        return Failure(NoSplit);
      }
      var strComp := Split(fence.attrib[PosKey], ",");
      var p := ParseFloats(strComp, flt);
      vectors := vectors + [p];
      edges := AppendRamp(edges, |vectors|);
    }
    assert section[..|section|] == section;
    if |edges| == 0 {
      return Failure(NoEdge);
    }
    edges := edges[|edges| - 1 := Edge(edges[|edges| - 1].a, 0)];
    r := Ok(Outline(vectors, edges));
  }

  /** `for v in str_comp: p.append(float(v))`. */
  method ParseFloats(strComp: seq<string>, flt: string -> real) returns (p: seq<real>)
    ensures p == Floats(strComp, flt)
  {
    p := [];
    for j := 0 to |strComp|
      invariant |p| == j && forall m :: 0 <= m < j ==> p[m] == flt(strComp[m])
    {
      p := p + [flt(strComp[j])];
    }
    assert forall m :: 0 <= m < |strComp| ==> p[m] == Floats(strComp, flt)[m];
  }

  /** `for c in range(0, n): edges.append([c, c + 1])`. */
  method AppendRamp(edges: seq<Edge>, n: nat) returns (r: seq<Edge>)
    ensures r == edges + Ramp(n)
  {
    r := edges;
    for c := 0 to n
      invariant r == edges + Ramp(n)[..c]
    {
      r := r + [Edge(c, c + 1)];
      assert Ramp(n)[..c + 1] == Ramp(n)[..c] + [Edge(c, c + 1)];
    }
    assert Ramp(n)[..n] == Ramp(n);
  }

  /** Once the loop has failed, it stays failed. */
  lemma {:induction false} BuiltFails(section: seq<Element>, i: nat, flt: string -> real)
    requires i <= |section| && Built(section[..i], flt).Failure?
    ensures Built(section, flt) == Built(section[..i], flt)
    decreases |section| - i
  {
    if i < |section| {
      assert section[..i + 1][..i] == section[..i];
      BuiltFails(section, i + 1, flt);
    } else {
      assert section[..i] == section;
    }
  }

  /** The edges of k fences before the patch: the ramps for 1, 2, ..., k vertices. */
  function Ramps(k: nat): seq<Edge>
  {
    if k == 0 then [] else Ramps(k - 1) + Ramp(k)
  }

  /**
   * The loop fails exactly when some fence has no `pos`; otherwise it
   * gives one vertex per fence, from that fence's `pos`, and the ramps
   * for 1 up to the number of fences.
   */
  lemma {:induction false} BuiltShape(section: seq<Element>, flt: string -> real)
    ensures Built(section, flt).Failure? <==> exists k :: 0 <= k < |section| && PosKey !in section[k].attrib
    ensures Built(section, flt).Failure? ==> Built(section, flt).error == NoSplit
    ensures Built(section, flt).Ok? ==>
      var o := Built(section, flt).value;
      |o.vectors| == |section| && o.edges == Ramps(|section|) &&
      forall k :: 0 <= k < |section| ==> PosKey in section[k].attrib && o.vectors[k] == FenceVertex(section[k], flt)
  {
    if section != [] {
      var init := section[..|section| - 1];
      BuiltShape(init, flt);
      var last := section[|section| - 1];
      if Built(init, flt).Failure? {
        var k :| 0 <= k < |init| && PosKey !in init[k].attrib;
        assert section[k] == init[k];
      } else if PosKey !in last.attrib {
      } else {
        forall k | 0 <= k < |init| ensures section[k] == init[k] {}
      }
    }
  }

  /** A section with k fences has k(k + 1)/2 edges. */
  lemma {:induction false} RampsCount(k: nat)
    ensures |Ramps(k)| == k * (k + 1) / 2
  {
    if k > 0 {
      RampsCount(k - 1);
    }
  }

  /** The ramps for up to k vertices end with `[c, c + 1]` for c below k. */
  lemma RampsEnd(k: nat)
    requires k > 0
    ensures |Ramps(k)| >= k && Ramps(k)[|Ramps(k)| - k..] == Ramp(k)
  {
  }

  /** Before the patch every edge starts below k and ends at most at k. */
  lemma {:induction false} RampsBounds(k: nat)
    ensures forall e :: e in Ramps(k) ==> e.a < k && e.b <= k
    ensures forall j :: 0 <= j < |Ramps(k)| - 1 ==> Ramps(k)[j].b < k
  {
    if k > 0 {
      RampsBounds(k - 1);
      RampsCount(k - 1);
      var p := Ramps(k - 1);
      assert Ramps(k) == p + Ramp(k);
      forall j | 0 <= j < |Ramps(k)| - 1 ensures Ramps(k)[j].b < k {
        if j >= |p| {
          assert Ramps(k)[j] == Ramp(k)[j - |p|];
        } else {
          assert Ramps(k)[j] == p[j] && p[j] in p;
        }
      }
    }
  }

  /** The closed ring 0, 1, ..., k - 1, 0. */
  function Ring(k: nat): seq<Edge>
  {
    seq(k, c requires 0 <= c < k => Edge(c, if c == k - 1 then 0 else c + 1))
  }

  /**
   * The outline of a section with fences: one vertex per fence, from
   * its `pos`; k(k + 1)/2 edges, each naming vertices that exist; the last
   * k edges run 0, 1, ..., k - 1 and back to 0.
   */
  lemma OutlineShape(section: seq<Element>, flt: string -> real)
    requires OutlineOf(section, flt).Ok?
    ensures var o := OutlineOf(section, flt).value; var k := |section|;
      k > 0 && |o.vectors| == k &&
      (forall j :: 0 <= j < k ==> PosKey in section[j].attrib && o.vectors[j] == FenceVertex(section[j], flt)) &&
      |o.edges| == k * (k + 1) / 2 &&
      (forall e :: e in o.edges ==> e.a < k && e.b < k) &&
      o.edges[|o.edges| - k..] == Ring(k)
  {
    BuiltShape(section, flt);
    RampsCount(|section|);
    PatchedRamps(|section|);
  }

  /** After the patch every edge names one of the k vertices, and the last k edges close a ring. */
  lemma PatchedRamps(k: nat)
    requires k > 0
    ensures |Ramps(k)| >= k
    ensures var es := Patch(Ramps(k)); (forall e :: e in es ==> e.a < k && e.b < k) && es[|es| - k..] == Ring(k)
  {
    RampsBounds(k);
    RampsEnd(k);
    var rs := Ramps(k);
    var es := Patch(rs);
    forall e | e in es ensures e.a < k && e.b < k {
      var j :| 0 <= j < |es| && es[j] == e;
      assert rs[j] in rs;
    }
    forall c | 0 <= c < k ensures es[|es| - k..][c] == Ring(k)[c] {
      assert rs[|rs| - k + c] == Ramp(k)[c];
    }
  }

  /**
   * The two ways a section stops the script: a fence with no `pos`
   * raises AttributeError at that fence; a section with no fences has
   * no edge to patch and raises IndexError.
   */
  lemma OutlineErrors(section: seq<Element>, flt: string -> real)
    ensures OutlineOf(section, flt) == Failure(NoSplit) <==>
      exists k :: 0 <= k < |section| && PosKey !in section[k].attrib
    ensures OutlineOf(section, flt) == Failure(NoEdge) <==> section == []
  {
    BuiltShape(section, flt);
    if section != [] && Built(section, flt).Ok? {
      RampsCount(|section|);
      assert |Ramps(|section|)| > 0;
    }
  }

  /** A named mesh, as `bpy.data.meshes.new` receives it. */
  datatype SectionMesh = SectionMesh(name: string, outline: Outline)

  /** The meshes of the sections, or the error of the first section that fails. */
  function MeshesOf(sections: seq<seq<Element>>, flt: string -> real): Result<seq<SectionMesh>, string>
  {
    if sections == [] then Ok([])
    else
      var init := MeshesOf(sections[..|sections| - 1], flt);
      if init.Failure? then init
      else
        var o := OutlineOf(sections[|sections| - 1], flt);
        if o.Failure? then Failure(o.error)
        else Ok(init.value + [SectionMesh("FlySection " + IntToString(|sections| - 1), o.value)])
  }

  /** The loop over `sections`: one mesh `FlySection {idx}` per section. */
  method Meshes(sections: seq<seq<Element>>, flt: string -> real) returns (r: Result<seq<SectionMesh>, string>)
    ensures r == MeshesOf(sections, flt)
  {
    var meshes: seq<SectionMesh> := [];
    var idx := 0;
    while idx < |sections|
      invariant 0 <= idx <= |sections|
      invariant MeshesOf(sections[..idx], flt) == Ok(meshes)
    {
      assert sections[..idx + 1][..idx] == sections[..idx];
      var o := SectionOutline(sections[idx], flt);
      if o.Failure? {
        MeshesFail(sections, idx + 1, flt);
        return Failure(o.error);
      }
      meshes := meshes + [SectionMesh("FlySection " + IntToString(idx), o.value)];
      idx := idx + 1;
    }
    assert sections[..idx] == sections;
    r := Ok(meshes);
  }

  lemma {:induction false} MeshesFail(sections: seq<seq<Element>>, i: nat, flt: string -> real)
    requires i <= |sections| && MeshesOf(sections[..i], flt).Failure?
    ensures MeshesOf(sections, flt) == MeshesOf(sections[..i], flt)
    decreases |sections| - i
  {
    if i < |sections| {
      assert sections[..i + 1][..i] == sections[..i];
      MeshesFail(sections, i + 1, flt);
    } else {
      assert sections[..i] == sections;
    }
  }

  /**
   * When the meshes are built, there is one per section, the j-th named
   * `FlySection {j}` and holding the outline of the j-th section.
   */
  lemma {:induction false} MeshAt(sections: seq<seq<Element>>, flt: string -> real, j: int)
    requires MeshesOf(sections, flt).Ok? && 0 <= j < |sections|
    ensures var ms := MeshesOf(sections, flt).value;
      |ms| == |sections| &&
      ms[j].name == "FlySection " + IntToString(j) && OutlineOf(sections[j], flt) == Ok(ms[j].outline)
  {
    var init := sections[..|sections| - 1];
    MeshesCount(init, flt);
    if j < |init| {
      MeshAt(init, flt, j);
      assert sections[j] == init[j];
    }
  }

  lemma {:induction false} MeshesCount(sections: seq<seq<Element>>, flt: string -> real)
    requires MeshesOf(sections, flt).Ok?
    ensures |MeshesOf(sections, flt).value| == |sections|
  {
    if sections != [] {
      MeshesCount(sections[..|sections| - 1], flt);
    }
  }

  /** The script as a whole stops with an error unless every section has fences, each with a `pos`. */
  lemma MeshesErrors(sections: seq<seq<Element>>, flt: string -> real, j: int)
    requires 0 <= j < |sections|
    requires sections[j] == [] || exists k :: 0 <= k < |sections[j]| && PosKey !in sections[j][k].attrib
    ensures MeshesOf(sections, flt).Failure?
  {
    OutlineErrors(sections[j], flt);
    if MeshesOf(sections, flt).Ok? {
      MeshAt(sections, flt, j);
    }
  }
}
