/**
 * The volume-field generator of a zone (`GeoGenerator`): for every cell of
 * the 120 x 120 squares of 8 x 8 cells it probes the scene downwards,
 * collecting the stacked surface heights; it sorts them, works out a
 * clearance above each one by probing upwards, and writes the paired
 * `.idx`/`.geo` byte streams.
 *
 * The scene is not modelled. A downward probe is an oracle `cast` that,
 * given the cell and the set of visible objects, reports the first surface
 * hit and the object it belongs to; an upward probe is an oracle `up` that,
 * given the cell and a start height, reports the first height hit above it.
 */
module RayCast {
  import opened Wrappers
  import opened Bytes
  import opened GeoLayout
  import opened Numeric

  /** The largest height a u16 word can carry once multiplied by 25. */
  const MAX_Z: real := 65535.0 / 25.0

  type ObjId = int

  /** A downward probe's hit: the height and the object hit. */
  datatype Hit = Hit(z: real, obj: ObjId)

  /** The downward probe from a cell, against the objects still visible. */
  type Caster = (int, set<ObjId>) -> Option<Hit>

  /** The upward probe from a cell, starting at a height. */
  type UpCaster = (int, real) -> Option<real>

  /** The scene only reports objects that are visible. */
  ghost predicate HitsVisible(cast: Caster)
  {
    forall k, vis :: cast(k, vis).Some? ==> cast(k, vis).value.obj in vis
  }

  // ---------------------------------------------------------------------
  // Wrapping of negative heights

  /** What a hit stores: the height in `volumes` and the original height in `wrapped`. */
  datatype Stored = Stored(value: real, wrap: real)

  function Wrap(z: real): (s: Stored)
  {
    if z < 0.0 then Stored(MAX_Z + z, z) else Stored(z, 0.0)
  }

  /** The height `generate_heights` recovers from a stored pair. */
  function Unwrap(value: real, wrap: real): real
  {
    if wrap != 0.0 then value - MAX_Z else value
  }

  /**
   * A negative hit is stored shifted up by MAX_Z with its original value as
   * the wrap entry; any other hit is stored as is with wrap entry 0. The
   * height used later is the hit height in both cases.
   */
  lemma WrapSpec(z: real)
    ensures z < 0.0 ==> Wrap(z) == Stored(MAX_Z + z, z)
    ensures z >= 0.0 ==> Wrap(z) == Stored(z, 0.0)
    ensures Unwrap(Wrap(z).value, Wrap(z).wrap) == z
  {
  }

  // ---------------------------------------------------------------------
  // The probe of one cell, as a specification

  /** A cell's two lists, `volumes[c]` and `wrapped[c]`. */
  datatype Lists = Lists(zs: seq<real>, ws: seq<real>)

  /** A cell entry as the generator keeps it: absent, or two nonempty lists of equal length. */
  predicate EntryOk(e: Option<Lists>)
  {
    e.None? || (|e.value.zs| >= 1 && |e.value.zs| == |e.value.ws|)
  }

  /** One hit: the first creates the lists, a later one is kept when more than 1 below the last kept. */
  function Record(e: Option<Lists>, z: real): (r: Option<Lists>)
    requires EntryOk(e)
    ensures EntryOk(r) && r.Some?
  {
    var s := Wrap(z);
    if e.None? then Some(Lists([s.value], [s.wrap]))
    else if e.value.zs[|e.value.zs| - 1] - s.value > 1.0 then
      Some(Lists(e.value.zs + [s.value], e.value.ws + [s.wrap]))
    else e
  }

  lemma NonEmptyHas(s: set<ObjId>)
    requires s != {}
    ensures exists x :: x in s
  {
    if forall x :: x !in s {
      assert false;
    }
  }

  lemma RestoreSet(a: set<ObjId>, b: set<ObjId>)
    requires a !! b
    ensures (a + b) - b == a
  {
  }

  lemma CardRemove(vis: set<ObjId>, o: ObjId)
    requires o in vis
    ensures |vis - {o}| < |vis|
  {
    assert vis == (vis - {o}) + {o};
  }

  /** The probe loop from entry e: probe, record, hide the hit object, until a miss. */
  function Probe(cast: Caster, k: int, vis: set<ObjId>, e: Option<Lists>): (r: Option<Lists>)
    requires HitsVisible(cast) && EntryOk(e)
    ensures EntryOk(r)
    decreases |vis|
  {
    match cast(k, vis)
    case None => e
    case Some(hit) =>
      CardRemove(vis, hit.obj);
      Probe(cast, k, vis - {hit.obj}, Record(e, hit.z))
  }

  /** A probe that hits moves on with the hit recorded and its object hidden. */
  lemma ProbeHit(cast: Caster, k: int, vis: set<ObjId>, e: Option<Lists>)
    requires HitsVisible(cast) && EntryOk(e) && cast(k, vis).Some?
    ensures var hit := cast(k, vis).value;
      hit.obj in vis && Probe(cast, k, vis, e) == Probe(cast, k, vis - {hit.obj}, Record(e, hit.z))
  {
  }

  lemma ProbeMiss(cast: Caster, k: int, vis: set<ObjId>, e: Option<Lists>)
    requires HitsVisible(cast) && EntryOk(e) && cast(k, vis).None?
    ensures Probe(cast, k, vis, e) == e
  {
  }

  /** The entry a cell gets when probed with nothing recorded yet. */
  function CellProbe(cast: Caster, vis: set<ObjId>, k: int): Option<Lists>
    requires HitsVisible(cast)
  {
    Probe(cast, k, vis, None)
  }

  /** The entries after the cells below bound have been probed. */
  ghost function ProbedUpTo(cast: Caster, vis: set<ObjId>, j: int, bound: int): (e: Option<Lists>)
    requires HitsVisible(cast)
    ensures EntryOk(e)
  {
    if 0 <= j < bound then CellProbe(cast, vis, j) else None
  }

  /** Kept heights decrease by more than 1 from each to the next. */
  predicate Spaced(zs: seq<real>)
  {
    forall i :: 0 <= i < |zs| - 1 ==> zs[i] - zs[i + 1] > 1.0
  }

  /** A stored pair: a nonnegative height with wrap 0, or a negative w stored as MAX_Z + w. */
  predicate PairOk(value: real, wrap: real)
  {
    (wrap == 0.0 && value >= 0.0) || (wrap < 0.0 && value == MAX_Z + wrap)
  }

  predicate CellOk(e: Option<Lists>)
  {
    EntryOk(e)
    && (e.Some? ==>
      Spaced(e.value.zs)
      && forall i :: 0 <= i < |e.value.zs| ==> PairOk(e.value.zs[i], e.value.ws[i]))
  }

  /** Every stored pair is a wrapped hit, and the kept heights are spaced. */
  lemma {:induction false} ProbeCellOk(cast: Caster, k: int, vis: set<ObjId>, e: Option<Lists>)
    requires HitsVisible(cast) && CellOk(e)
    ensures CellOk(Probe(cast, k, vis, e))
    decreases |vis|
  {
    match cast(k, vis)
    case None =>
    case Some(hit) =>
      CardRemove(vis, hit.obj);
      RecordCellOk(e, hit.z);
      ProbeCellOk(cast, k, vis - {hit.obj}, Record(e, hit.z));
  }

  lemma RecordCellOk(e: Option<Lists>, z: real)
    requires CellOk(e)
    ensures CellOk(Record(e, z))
  {
    var r := Record(e, z);
    if e.Some? && r != e {
      var zs := e.value.zs;
      var s := Wrap(z);
      assert r.value.zs == zs + [s.value];
      forall i | 0 <= i < |r.value.zs| - 1 ensures r.value.zs[i] - r.value.zs[i + 1] > 1.0 {
        if i < |zs| - 1 {
          assert r.value.zs[i] == zs[i] && r.value.zs[i + 1] == zs[i + 1];
        }
      }
    }
  }

  /** Probing only ever appends to the lists it starts from. */
  lemma {:induction false} ProbeExtends(cast: Caster, k: int, vis: set<ObjId>, e: Option<Lists>)
    requires HitsVisible(cast) && EntryOk(e)
    ensures var r := Probe(cast, k, vis, e);
      e.Some? ==> r.Some? && e.value.zs <= r.value.zs && e.value.ws <= r.value.ws
    decreases |vis|
  {
    match cast(k, vis)
    case None =>
    case Some(hit) =>
      CardRemove(vis, hit.obj);
      ProbeExtends(cast, k, vis - {hit.obj}, Record(e, hit.z));
  }

  /**
   * A cell gets an entry exactly when its first probe hits; the entry then
   * starts with that hit, stored as `Wrap` says.
   */
  lemma CellProbeFirst(cast: Caster, vis: set<ObjId>, k: int)
    requires HitsVisible(cast)
    ensures CellProbe(cast, vis, k).Some? <==> cast(k, vis).Some?
    ensures cast(k, vis).Some? ==>
      var s := Wrap(cast(k, vis).value.z);
      var r := CellProbe(cast, vis, k).value;
      r.zs[0] == s.value && r.ws[0] == s.wrap
  {
    match cast(k, vis)
    case None =>
    case Some(hit) =>
      CardRemove(vis, hit.obj);
      ProbeExtends(cast, k, vis - {hit.obj}, Record(None, hit.z));
  }

  // ---------------------------------------------------------------------
  // Sorting

  predicate Sorted(s: seq<real>)
  {
    forall i, j :: 0 <= i < j < |s| ==> s[i] <= s[j]
  }

  function Insert(x: real, s: seq<real>): (r: seq<real>)
    ensures |r| == |s| + 1
    ensures multiset(r) == multiset(s) + multiset{x}
  {
    if s == [] || x <= s[0] then [x] + s
    else
      assert s == [s[0]] + s[1..];
      [s[0]] + Insert(x, s[1..])
  }

  lemma {:induction false} InsertSorted(x: real, s: seq<real>)
    requires Sorted(s)
    ensures Sorted(Insert(x, s))
  {
    if s != [] && x > s[0] {
      InsertSorted(x, s[1..]);
      InsertAbove(x, s[1..], s[0]);
      ConsSorted(s[0], Insert(x, s[1..]));
    } else {
      ConsSorted(x, s);
    }
  }

  /** Inserting a value no smaller than b into a list bounded below by b keeps that bound. */
  lemma {:induction false} InsertAbove(x: real, s: seq<real>, b: real)
    requires b <= x && forall i :: 0 <= i < |s| ==> b <= s[i]
    ensures forall j :: 0 <= j < |Insert(x, s)| ==> b <= Insert(x, s)[j]
  {
    if s != [] && x > s[0] {
      InsertAbove(x, s[1..], b);
    }
  }

  /** A sorted list behind a value no larger than its elements is sorted. */
  lemma ConsSorted(a: real, t: seq<real>)
    requires Sorted(t) && forall j :: 0 <= j < |t| ==> a <= t[j]
    ensures Sorted([a] + t)
  {
    var u := [a] + t;
    forall i, j | 0 <= i < j < |u| ensures u[i] <= u[j] {
      assert u[j] == t[j - 1];
      if i > 0 {
        assert u[i] == t[i - 1];
      }
    }
  }

  /** `list.sort()`: ascending order. */
  function SortAsc(s: seq<real>): (r: seq<real>)
    ensures |r| == |s|
    ensures multiset(r) == multiset(s)
  {
    if s == [] then []
    else
      assert s == [s[0]] + s[1..];
      Insert(s[0], SortAsc(s[1..]))
  }

  /** The sort leaves the list ascending and a permutation of what it was. */
  lemma {:induction false} SortAscSpec(s: seq<real>)
    ensures Sorted(SortAsc(s)) && multiset(SortAsc(s)) == multiset(s)
  {
    if s != [] {
      SortAscSpec(s[1..]);
      InsertSorted(s[0], SortAsc(s[1..]));
    }
  }

  /** The sort pass on one entry: each list sorted on its own. */
  function SortEntry(e: Option<Lists>): (r: Option<Lists>)
    requires EntryOk(e)
    ensures EntryOk(r)
  {
    if e.None? then None else Some(Lists(SortAsc(e.value.zs), SortAsc(e.value.ws)))
  }

  /** Two maps equal outside k agree on every other key. */
  lemma AgreeOutside(m: map<int, seq<real>>, m0: map<int, seq<real>>, k: int, j: int)
    requires m - {k} == m0 - {k} && j != k
    ensures j in m <==> j in m0
    ensures j in m ==> m[j] == m0[j]
  {
    assert j in m <==> j in m - {k};
    assert j in m0 <==> j in m0 - {k};
    if j in m {
      assert m[j] == (m - {k})[j];
      assert m0[j] == (m0 - {k})[j];
    }
  }

  /** A map equal to m0 outside k is m0 with k set to its own value there. */
  lemma UpdateOutside(m: map<int, seq<real>>, m0: map<int, seq<real>>, k: int)
    requires m - {k} == m0 - {k} && k in m
    ensures m == m0[k := m[k]]
  {
    forall j | j != k
      ensures (j in m <==> j in m0) && (j in m ==> m[j] == m0[j])
    {
      AgreeOutside(m, m0, k, j);
    }
  }

  /** Two dictionaries with the same keys, each entry two nonempty lists of equal length. */
  predicate PairValid(v: map<int, seq<real>>, w: map<int, seq<real>>)
  {
    v.Keys == w.Keys && forall k :: k in v ==> |v[k]| >= 1 && |v[k]| == |w[k]|
  }

  /** The entry of key j in a pair of dictionaries. */
  function EntryOf(v: map<int, seq<real>>, w: map<int, seq<real>>, j: int): (e: Option<Lists>)
    ensures PairValid(v, w) ==> EntryOk(e)
  {
    if j in v && j in w then Some(Lists(v[j], w[j])) else None
  }

  /** The entries after the cells below bound have been sorted. */
  function SortedUpTo(e: Option<Lists>, j: int, bound: int): (r: Option<Lists>)
    requires EntryOk(e)
    ensures EntryOk(r)
  {
    if 0 <= j < bound then SortEntry(e) else e
  }

  // ---------------------------------------------------------------------
  // Clearance

  /** The clearance before the adjustments: hit height above minus |z|, or MAX_Z / 2 on a miss. */
  function RawClearance(up: UpCaster, k: int, value: real, wrap: real): real
  {
    var z := Unwrap(value, wrap);
    match up(k, z + 0.001)
    case Some(found) => found - Abs(z)
    case None => MAX_Z / 2.0
  }

  /** The clearance `generate_heights` appends for one stored pair. */
  function Clearance(up: UpCaster, k: int, value: real, wrap: real): real
  {
    var raw := RawClearance(up, k, value, wrap);
    var h := if raw < 0.0 then raw + MAX_Z / 2.0 else raw;
    if h > MAX_Z / 2.0 then MAX_Z / 2.0 else h
  }

  /**
   * The clearance never exceeds MAX_Z / 2; it is MAX_Z / 2 when nothing is
   * above; a negative raw value is lifted by MAX_Z / 2 once, so the result
   * is negative exactly when the raw value is below -MAX_Z / 2.
   */
  lemma ClearanceSpec(up: UpCaster, k: int, value: real, wrap: real)
    ensures Clearance(up, k, value, wrap) <= MAX_Z / 2.0
    ensures up(k, Unwrap(value, wrap) + 0.001).None? ==> Clearance(up, k, value, wrap) == MAX_Z / 2.0
    ensures Clearance(up, k, value, wrap) < 0.0 <==> RawClearance(up, k, value, wrap) < -MAX_Z / 2.0
    ensures 0.0 <= RawClearance(up, k, value, wrap) <= MAX_Z / 2.0 ==>
      Clearance(up, k, value, wrap) == RawClearance(up, k, value, wrap)
  {
  }

  /** The clearances of a cell's first n samples. */
  function Clearances(up: UpCaster, k: int, zs: seq<real>, ws: seq<real>, n: nat): (hs: seq<real>)
    requires n <= |zs| <= |ws|
    ensures |hs| == n
  {
    seq(n, i requires 0 <= i < n => Clearance(up, k, zs[i], ws[i]))
  }

  // ---------------------------------------------------------------------
  // The generator

  class GeoGenerator {
    /** `volumes`: cell key to kept heights. */
    var volumes: map<int, seq<real>>
    /** `wrapped`: cell key to wrap entries. */
    var wrapped: map<int, seq<real>>
    /** `heights`: cell key to clearances. */
    var heights: map<int, seq<real>>
    /** Objects of the source collection. */
    var src: set<ObjId>
    /** Objects moved to the excluded collection. */
    var excl: set<ObjId>
    /** Objects currently hidden. */
    var hidden: set<ObjId>

    constructor (src: set<ObjId>)
      ensures this.src == src && excl == {} && hidden == {}
      ensures volumes == map[] && wrapped == map[] && heights == map[]
    {
      this.src := src;
      excl := {};
      hidden := {};
      volumes := map[];
      wrapped := map[];
      heights := map[];
    }

    /** The two dictionaries have the same keys and each entry two nonempty lists of equal length. */
    predicate Valid()
      reads this
    {
      PairValid(volumes, wrapped)
    }

    /** The entry of cell k. */
    function Entry(k: int): (e: Option<Lists>)
      reads this
      requires Valid()
      ensures EntryOk(e)
      ensures e.Some? <==> k in volumes
    {
      if k in volumes then Some(Lists(volumes[k], wrapped[k])) else None
    }

    /** The objects a probe can hit. */
    function Visible(): set<ObjId>
      reads this
    {
      src - hidden
    }

    /** `setup`, as far as objects go: those outside the zone move to the excluded collection. */
    method Setup(inZone: ObjId -> bool)
      modifies this
      ensures src == set o | o in old(src) && inZone(o)
      ensures excl == old(excl) + set o | o in old(src) && !inZone(o)
      ensures volumes == old(volumes) && wrapped == old(wrapped) && heights == old(heights)
      ensures hidden == old(hidden)
    {
      var todo := src;
      ghost var src0 := src;
      ghost var excl0 := excl;
      while todo != {}
        invariant todo <= src0
        invariant src == (set o | o in src0 && (inZone(o) || o in todo))
        invariant excl == excl0 + (set o | o in src0 && !inZone(o) && o !in todo)
        invariant volumes == old(volumes) && wrapped == old(wrapped) && heights == old(heights)
        invariant hidden == old(hidden)
        decreases |todo|
      {
        NonEmptyHas(todo);
        var ob :| ob in todo;
        if !inZone(ob) {
          src := src - {ob};
          excl := excl + {ob};
        }
        todo := todo - {ob};
      }
    }

    /** `cleanup`, as far as objects go: the excluded objects move back to the source collection. */
    method Cleanup()
      modifies this
      ensures src == old(src) + old(excl) && excl == {}
      ensures volumes == old(volumes) && wrapped == old(wrapped) && heights == old(heights)
      ensures hidden == old(hidden)
    {
      ghost var src0 := src;
      ghost var excl0 := excl;
      while excl != {}
        invariant excl <= excl0
        invariant src == src0 + (excl0 - excl)
        invariant volumes == old(volumes) && wrapped == old(wrapped) && heights == old(heights)
        invariant hidden == old(hidden)
        decreases |excl|
      {
        NonEmptyHas(excl);
        var ob :| ob in excl;
        excl := excl - {ob};
        src := src + {ob};
      }
    }

    /** The bookkeeping of one hit of cell k at height z. */
    method RecordHit(k: int, z0: real)
      requires Valid()
      modifies this
      ensures Valid()
      ensures Entry(k) == Record(old(Entry(k)), z0)
      ensures volumes - {k} == old(volumes) - {k} && wrapped - {k} == old(wrapped) - {k}
      ensures src == old(src) && excl == old(excl) && hidden == old(hidden) && heights == old(heights)
    {
      var z := z0;
      var wrap := 0.0;
      if z < 0.0 {
        wrap := z;
        z := MAX_Z + z;
      }
      if k in volumes {
        if volumes[k][|volumes[k]| - 1] - z > 1.0 {
          volumes := volumes[k := volumes[k] + [z]];
          wrapped := wrapped[k := wrapped[k] + [wrap]];
        }
      } else {
        volumes := volumes[k := [z]];
        wrapped := wrapped[k := [wrap]];
      }
    }

    /** One hit of the probe of cell k: the hit is recorded and its object hidden. */
    method TakeHit(k: int, hit: Hit)
      requires Valid()
      modifies this
      ensures Valid()
      ensures Entry(k) == Record(old(Entry(k)), hit.z)
      ensures volumes - {k} == old(volumes) - {k} && wrapped - {k} == old(wrapped) - {k}
      ensures hidden == old(hidden) + {hit.obj}
      ensures src == old(src) && excl == old(excl) && heights == old(heights)
    {
      RecordHit(k, hit.z);
      hidden := hidden + {hit.obj};
    }

    /** `hide_set(False)` on each of objs. */
    method Unhide(objs: seq<ObjId>)
      modifies this
      ensures hidden == old(hidden) - set o | o in objs
      ensures src == old(src) && excl == old(excl)
      ensures volumes == old(volumes) && wrapped == old(wrapped) && heights == old(heights)
    {
      var i := 0;
      while i < |objs|
        invariant 0 <= i <= |objs|
        invariant hidden == old(hidden) - set o | o in objs[..i]
        invariant src == old(src) && excl == old(excl)
        invariant volumes == old(volumes) && wrapped == old(wrapped) && heights == old(heights)
      {
        assert objs[..i + 1] == objs[..i] + [objs[i]];
        hidden := hidden - {objs[i]};
        i := i + 1;
      }
      assert objs[..i] == objs;
    }

    /**
     * The probe loop of cell k: probe down, record the hit, hide the hit
     * object, until a probe misses; then unhide what was hidden.
     */
    method ProbeCell(k: int, cast: Caster)
      requires Valid() && HitsVisible(cast)
      modifies this
      ensures Valid()
      ensures Entry(k) == Probe(cast, k, old(Visible()), old(Entry(k)))
      ensures volumes - {k} == old(volumes) - {k} && wrapped - {k} == old(wrapped) - {k}
      ensures src == old(src) && excl == old(excl) && hidden == old(hidden) && heights == old(heights)
    {
      var hiddenObjects: seq<ObjId> := [];
      ghost var hitSet: set<ObjId> := {};
      ghost var vis0 := Visible();
      ghost var e0 := Entry(k);
      while true
        invariant Valid()
        invariant src == old(src) && excl == old(excl) && heights == old(heights)
        invariant hitSet == set o | o in hiddenObjects
        invariant hidden == old(hidden) + hitSet && old(hidden) !! hitSet
        invariant Probe(cast, k, Visible(), Entry(k)) == Probe(cast, k, vis0, e0)
        invariant volumes - {k} == old(volumes) - {k} && wrapped - {k} == old(wrapped) - {k}
        decreases |Visible()|
      {
        var result := cast(k, Visible());
        if result.Some? {
          var obj := result.value.obj;
          ghost var visBefore := Visible();
          ghost var before := Entry(k);
          assert obj in visBefore;
          ProbeHit(cast, k, visBefore, before);
          TakeHit(k, result.value);
          hiddenObjects := hiddenObjects + [obj];
          hitSet := hitSet + {obj};
          assert Visible() == visBefore - {obj};
          CardRemove(visBefore, obj);
        } else {
          ProbeMiss(cast, k, Visible(), Entry(k));
          Unhide(hiddenObjects);
          RestoreSet(old(hidden), hitSet);
          break;
        }
      }
    }

    /** The cells below bound have been probed against vis, and no others. */
    ghost predicate ProbedBelow(cast: Caster, vis: set<ObjId>, bound: int)
      requires HitsVisible(cast)
      reads this
    {
      Valid() && Visible() == vis && forall j :: Entry(j) == ProbedUpTo(cast, vis, j, bound)
    }

    /** The probe of the next cell: cell k joins the probed ones. */
    method ProbeNext(k: int, cast: Caster)
      requires HitsVisible(cast) && 0 <= k && ProbedBelow(cast, Visible(), k)
      modifies this
      ensures ProbedBelow(cast, old(Visible()), k + 1)
      ensures src == old(src) && excl == old(excl) && hidden == old(hidden) && heights == old(heights)
    {
      ghost var v0, w0 := volumes, wrapped;
      assert Entry(k) == None;
      assert forall j :: EntryOf(v0, w0, j) == Entry(j);
      ProbeCell(k, cast);
      forall j | j != k
        ensures Entry(j) == EntryOf(v0, w0, j)
      {
        AgreeOutside(volumes, v0, k, j);
        AgreeOutside(wrapped, w0, k, j);
      }
    }

    /** The probe of the 64 cells of square (sx, sy), cy inner. */
    method ProbeSquare(sx: int, sy: int, cast: Caster, ghost vis: set<ObjId>)
      requires HitsVisible(cast) && 0 <= sx < NUM_SQUARES && 0 <= sy < NUM_SQUARES
      requires ProbedBelow(cast, vis, 7680 * sx + 64 * sy)
      modifies this
      ensures ProbedBelow(cast, vis, 7680 * sx + 64 * sy + 64)
      ensures src == old(src) && excl == old(excl) && hidden == old(hidden) && heights == old(heights)
    {
      for cx := 0 to NUM_CELLS
        invariant ProbedBelow(cast, vis, 7680 * sx + 64 * sy + 8 * cx)
        invariant src == old(src) && excl == old(excl) && hidden == old(hidden) && heights == old(heights)
      {
        for cy := 0 to NUM_CELLS
          invariant ProbedBelow(cast, vis, 7680 * sx + 64 * sy + 8 * cx + cy)
          invariant src == old(src) && excl == old(excl) && hidden == old(hidden) && heights == old(heights)
        {
          var k := CellIndex(sx, sy, cx, cy);
          assert k == 7680 * sx + 64 * sy + 8 * cx + cy;
          ProbeNext(k, cast);
        }
      }
    }

    /** `generate_cells`, the probe part: every cell of the grid probed in turn. */
    method GenerateCells(cast: Caster)
      requires HitsVisible(cast)
      modifies this
      ensures Valid()
      ensures forall j :: Entry(j) == ProbedUpTo(cast, old(Visible()), j, CELL_COUNT)
      ensures src == old(src) && excl == old(excl) && hidden == old(hidden) && heights == old(heights)
    {
      volumes := map[];
      wrapped := map[];
      ghost var vis := Visible();
      for sx := 0 to NUM_SQUARES
        invariant ProbedBelow(cast, vis, 7680 * sx)
        invariant src == old(src) && excl == old(excl) && hidden == old(hidden) && heights == old(heights)
      {
        for sy := 0 to NUM_SQUARES
          invariant ProbedBelow(cast, vis, 7680 * sx + 64 * sy)
          invariant src == old(src) && excl == old(excl) && hidden == old(hidden) && heights == old(heights)
        {
          ProbeSquare(sx, sy, cast, vis);
        }
      }
    }

    /** The cells below bound have been sorted, starting from the dictionaries v0 and w0. */
    ghost predicate SortedBelow(v0: map<int, seq<real>>, w0: map<int, seq<real>>, bound: int)
      reads this
    {
      Valid() && PairValid(v0, w0) && forall j :: Entry(j) == SortedUpTo(EntryOf(v0, w0, j), j, bound)
    }

    /** The sort of the next cell: cell k joins the sorted ones. */
    method SortNext(k: int, ghost v0: map<int, seq<real>>, ghost w0: map<int, seq<real>>)
      requires 0 <= k && SortedBelow(v0, w0, k)
      modifies this
      ensures SortedBelow(v0, w0, k + 1)
      ensures src == old(src) && excl == old(excl) && hidden == old(hidden) && heights == old(heights)
    {
      ghost var v1, w1 := volumes, wrapped;
      assert forall j :: EntryOf(v1, w1, j) == Entry(j);
      assert Entry(k) == EntryOf(v0, w0, k);
      SortCell(k);
      forall j | j != k
        ensures Entry(j) == EntryOf(v1, w1, j)
      {
        AgreeOutside(volumes, v1, k, j);
        AgreeOutside(wrapped, w1, k, j);
      }
    }

    /** The sort of the 64 cells of square (sx, sy). */
    method SortSquare(sx: int, sy: int, ghost v0: map<int, seq<real>>, ghost w0: map<int, seq<real>>)
      requires 0 <= sx < NUM_SQUARES && 0 <= sy < NUM_SQUARES
      requires SortedBelow(v0, w0, 7680 * sx + 64 * sy)
      modifies this
      ensures SortedBelow(v0, w0, 7680 * sx + 64 * sy + 64)
      ensures src == old(src) && excl == old(excl) && hidden == old(hidden) && heights == old(heights)
    {
      for cx := 0 to NUM_CELLS
        invariant SortedBelow(v0, w0, 7680 * sx + 64 * sy + 8 * cx)
        invariant src == old(src) && excl == old(excl) && hidden == old(hidden) && heights == old(heights)
      {
        for cy := 0 to NUM_CELLS
          invariant SortedBelow(v0, w0, 7680 * sx + 64 * sy + 8 * cx + cy)
          invariant src == old(src) && excl == old(excl) && hidden == old(hidden) && heights == old(heights)
        {
          var k := CellIndex(sx, sy, cx, cy);
          assert k == 7680 * sx + 64 * sy + 8 * cx + cy;
          SortNext(k, v0, w0);
        }
      }
    }

    /** `generate_cells`, the sort part: both lists of every grid cell sorted, each on its own. */
    method SortCells()
      requires Valid()
      modifies this
      ensures Valid()
      ensures forall j :: Entry(j) == SortedUpTo(EntryOf(old(volumes), old(wrapped), j), j, CELL_COUNT)
      ensures src == old(src) && excl == old(excl) && hidden == old(hidden) && heights == old(heights)
    {
      ghost var v0, w0 := volumes, wrapped;
      assert forall j :: EntryOf(v0, w0, j) == Entry(j);
      for sx := 0 to NUM_SQUARES
        invariant SortedBelow(v0, w0, 7680 * sx)
        invariant src == old(src) && excl == old(excl) && hidden == old(hidden) && heights == old(heights)
      {
        for sy := 0 to NUM_SQUARES
          invariant SortedBelow(v0, w0, 7680 * sx + 64 * sy)
          invariant src == old(src) && excl == old(excl) && hidden == old(hidden) && heights == old(heights)
        {
          SortSquare(sx, sy, v0, w0);
        }
      }
    }

    /** The sort of one cell: its two lists sorted, each on its own. */
    method SortCell(k: int)
      requires Valid()
      modifies this
      ensures Valid()
      ensures Entry(k) == SortEntry(old(Entry(k)))
      ensures volumes - {k} == old(volumes) - {k} && wrapped - {k} == old(wrapped) - {k}
      ensures src == old(src) && excl == old(excl) && hidden == old(hidden) && heights == old(heights)
    {
      if k in volumes {
        volumes := volumes[k := SortAsc(volumes[k])];
        wrapped := wrapped[k := SortAsc(wrapped[k])];
      }
    }

    /** The clearances of all samples of cell k, appended one by one. */
    method CellHeights(k: int, up: UpCaster)
      requires Valid() && k in volumes && k !in heights
      modifies this
      ensures volumes == old(volumes) && wrapped == old(wrapped)
      ensures heights == old(heights)[k := Clearances(up, k, volumes[k], wrapped[k], |volumes[k]|)]
      ensures src == old(src) && excl == old(excl) && hidden == old(hidden)
    {
      var zValues := volumes[k];
      for i := 0 to |zValues|
        invariant volumes == old(volumes) && wrapped == old(wrapped)
        invariant heights - {k} == old(heights) - {k}
        invariant i == 0 ==> k !in heights
        invariant i > 0 ==> k in heights && heights[k] == Clearances(up, k, zValues, wrapped[k], i)
        invariant src == old(src) && excl == old(excl) && hidden == old(hidden)
      {
        var z := zValues[i];
        var w := wrapped[k][i];
        if w != 0.0 {
          z := z - MAX_Z;
        }
        var result := up(k, z + 0.001);
        var h;
        if result.Some? {
          h := result.value - Abs(z);
        } else {
          h := MAX_Z / 2.0;
        }
        if h < 0.0 {
          h := h + MAX_Z / 2.0;
        }
        if h > MAX_Z / 2.0 {
          h := MAX_Z / 2.0;
        }
        assert z == Unwrap(zValues[i], wrapped[k][i]);
        assert h == Clearance(up, k, zValues[i], wrapped[k][i]);
        if k in heights {
          heights := heights[k := heights[k] + [h]];
        } else {
          heights := heights[k := [h]];
        }
        assert heights[k] == Clearances(up, k, zValues, wrapped[k], i + 1);
      }
      UpdateOutside(heights, old(heights), k);
    }

    /** The clearances of the next cell, when it has samples. */
    method HeightsNext(k: int, up: UpCaster)
      requires 0 <= k && HeightsUpTo(up, k)
      modifies this
      ensures HeightsUpTo(up, k + 1)
      ensures volumes == old(volumes) && wrapped == old(wrapped)
      ensures src == old(src) && excl == old(excl) && hidden == old(hidden)
    {
      if k in volumes {
        CellHeights(k, up);
      }
    }

    /** The clearances of the 64 cells of square (sx, sy). */
    method HeightsSquare(sx: int, sy: int, up: UpCaster)
      requires 0 <= sx < NUM_SQUARES && 0 <= sy < NUM_SQUARES
      requires HeightsUpTo(up, 7680 * sx + 64 * sy)
      modifies this
      ensures HeightsUpTo(up, 7680 * sx + 64 * sy + 64)
      ensures volumes == old(volumes) && wrapped == old(wrapped)
      ensures src == old(src) && excl == old(excl) && hidden == old(hidden)
    {
      for cx := 0 to NUM_CELLS
        invariant HeightsUpTo(up, 7680 * sx + 64 * sy + 8 * cx)
        invariant volumes == old(volumes) && wrapped == old(wrapped)
        invariant src == old(src) && excl == old(excl) && hidden == old(hidden)
      {
        for cy := 0 to NUM_CELLS
          invariant HeightsUpTo(up, 7680 * sx + 64 * sy + 8 * cx + cy)
          invariant volumes == old(volumes) && wrapped == old(wrapped)
          invariant src == old(src) && excl == old(excl) && hidden == old(hidden)
        {
          var k := CellIndex(sx, sy, cx, cy);
          assert k == 7680 * sx + 64 * sy + 8 * cx + cy;
          HeightsNext(k, up);
        }
      }
    }

    /** `generate_heights`: one clearance per sample of every grid cell that has samples. */
    method GenerateHeights(up: UpCaster)
      requires Valid()
      modifies this
      ensures volumes == old(volumes) && wrapped == old(wrapped) && Valid()
      ensures forall j :: j in heights <==> 0 <= j < CELL_COUNT && j in volumes
      ensures forall j :: j in heights ==> heights[j] == Clearances(up, j, volumes[j], wrapped[j], |volumes[j]|)
      ensures src == old(src) && excl == old(excl) && hidden == old(hidden)
    {
      heights := map[];
      for sx := 0 to NUM_SQUARES
        invariant HeightsUpTo(up, 7680 * sx)
        invariant volumes == old(volumes) && wrapped == old(wrapped)
        invariant src == old(src) && excl == old(excl) && hidden == old(hidden)
      {
        for sy := 0 to NUM_SQUARES
          invariant HeightsUpTo(up, 7680 * sx + 64 * sy)
          invariant volumes == old(volumes) && wrapped == old(wrapped)
          invariant src == old(src) && excl == old(excl) && hidden == old(hidden)
        {
          HeightsSquare(sx, sy, up);
        }
      }
    }

    /**
     * The geo bytes of cell k: for each sample its guarded z word and h
     * word. A missing entry is the KeyError export raises, and so is a
     * missing clearance list, a short one the IndexError.
     */
    method ExportCell(k: int) returns (r: Result<seq<byte>, string>)
      ensures r.Failure? <==> !Present(volumes, heights, k)
      ensures r.Ok? ==> r.value == DataGeo(DataOf(volumes, heights, k))
    {
      if k !in volumes {
        return Failure("KeyError");
      }
      var zValues := volumes[k];
      var out: seq<byte> := [];
      var i := 0;
      while i < |zValues|
        invariant 0 <= i <= |zValues|
        invariant i == 0 ==> out == []
        invariant i > 0 ==> k in heights && i <= |heights[k]| && out == CellGeo(zValues, heights[k], i)
      {
        if k !in heights {
          return Failure("KeyError");
        }
        if i >= |heights[k]| {
          return Failure("IndexError");
        }
        var z := zValues[i];
        var h := heights[k][i];
        out := out + Field(z) + Field(h);
        i := i + 1;
      }
      return Ok(out);
    }

    /** Cell (cx, cy) of square (sx, sy) added to the counts, the geo bytes and the running total. */
    method ExportNext(sx: int, sy: int, cx: int, cy: int, q: int, m: nat, perCell: seq<int>, geo: seq<byte>, amount: int)
      returns (r: Result<(seq<int>, seq<byte>, int), string>)
      requires InGrid(sx, sy, cx, cy) && q == 120 * sy + sx && m == 8 * cy + cx
      requires SquarePrefix(volumes, heights, q, m, perCell, geo)
      requires amount == Sum(perCell)
      ensures r.Failure? <==> !Present(volumes, heights, SqKey(q, m))
      ensures r.Ok? ==> SquarePrefix(volumes, heights, q, m + 1, r.value.0, r.value.1)
      ensures r.Ok? ==> r.value.2 == Sum(r.value.0)
    {
      var k := CellIndex(sx, sy, cx, cy);
      SqKeyAt(sx, sy, cx, cy);
      assert k == SqKey(q, m);
      var d := ExportCell(k);
      if d.Failure? {
        return Failure(d.error);
      }
      SquarePrefixStep(volumes, heights, q, m, k, perCell, geo);
      SumSnoc(perCell, |volumes[k]|);
      var counts', geo' := perCell + [|volumes[k]|], geo + d.value;
      assert SquarePrefix(volumes, heights, q, m + 1, counts', geo');
      return Ok((counts', geo', amount + |volumes[k]|));
    }

    /** The counts, the geo bytes and the total of the 64 cells of square (sx, sy), cy outer and cx inner. */
    method ExportCells(sx: int, sy: int) returns (r: Result<(seq<int>, seq<byte>, int), string>)
      requires 0 <= sx < NUM_SQUARES && 0 <= sy < NUM_SQUARES
      ensures r.Failure? ==> !SquareReady(volumes, heights, 120 * sy + sx)
      ensures r.Ok? ==> SquarePrefix(volumes, heights, 120 * sy + sx, CELLS_PER_SQUARE, r.value.0, r.value.1)
      ensures r.Ok? ==> r.value.2 == Sum(r.value.0)
    {
      var q := 120 * sy + sx;
      var acc: (seq<int>, seq<byte>, int) := ([], [], 0);
      for cy := 0 to NUM_CELLS
        invariant SquarePrefix(volumes, heights, q, 8 * cy, acc.0, acc.1) && acc.2 == Sum(acc.0)
      {
        var row := ExportRow(sx, sy, cy, q, acc);
        if row.Failure? {
          return Failure(row.error);
        }
        acc := row.value;
      }
      PrefixRows(volumes, heights, q, acc.0, acc.1);
      return Ok(acc);
    }

    /** Eight rows of eight cells are the whole square. */
    static lemma PrefixRows(vols: Column, hts: Column, q: int, counts: seq<int>, geo: seq<byte>)
      requires SquarePrefix(vols, hts, q, 8 * NUM_CELLS, counts, geo)
      ensures SquarePrefix(vols, hts, q, CELLS_PER_SQUARE, counts, geo)
    {
    }

    /** Row cy of square (sx, sy), cx ascending, appended to what the rows before it gave. */
    method ExportRow(sx: int, sy: int, cy: int, q: int, acc: (seq<int>, seq<byte>, int))
      returns (r: Result<(seq<int>, seq<byte>, int), string>)
      requires 0 <= sx < NUM_SQUARES && 0 <= sy < NUM_SQUARES && 0 <= cy < NUM_CELLS && q == 120 * sy + sx
      requires SquarePrefix(volumes, heights, q, 8 * cy, acc.0, acc.1) && acc.2 == Sum(acc.0)
      ensures r.Failure? ==> !SquareReady(volumes, heights, q)
      ensures r.Ok? ==> SquarePrefix(volumes, heights, q, 8 * cy + 8, r.value.0, r.value.1)
      ensures r.Ok? ==> r.value.2 == Sum(r.value.0)
    {
      var perCell, geo, amount := acc.0, acc.1, acc.2;
      var m := 8 * cy;
      for cx := 0 to NUM_CELLS
        invariant m == 8 * cy + cx && SquarePrefix(volumes, heights, q, m, perCell, geo) && amount == Sum(perCell)
      {
        var step := ExportNext(sx, sy, cx, cy, q, m, perCell, geo, amount);
        if step.Failure? {
          assert !Ready(volumes, heights, SqKey(q, m));
          return Failure(step.error);
        }
        perCell, geo, amount := step.value.0, step.value.1, step.value.2;
        m := m + 1;
      }
      return Ok((perCell, geo, amount));
    }

    /**
     * The index block and the geo bytes of square (sx, sy). The u32 total
     * and the u16 counts are packed unguarded, so a count that does not fit
     * raises.
     */
    method ExportSquare(sx: int, sy: int) returns (r: Result<Streams, string>)
      requires 0 <= sx < NUM_SQUARES && 0 <= sy < NUM_SQUARES
      ensures var q := 120 * sy + sx;
        (r.Failure? <==> !SquareReady(volumes, heights, q))
        && (r.Ok? ==> r.value == Streams(IdxBlock(Counts(SquareCells(volumes, heights, q))), SquareGeo(SquareCells(volumes, heights, q))))
    {
      var q := 120 * sy + sx;
      var cells := ExportCells(sx, sy);
      if cells.Failure? {
        return Failure(cells.error);
      }
      var perCell, geo, amount := cells.value.0, cells.value.1, cells.value.2;
      SquarePrefixDone(volumes, heights, q, perCell, geo);
      if !AllU16(perCell) {
        return Failure("struct.error");
      }
      SumBound(perCell);
      return Ok(Streams(U32(amount) + U16s(perCell), geo));
    }

    /** The streams after the squares before (sx, sy), extended by that square. */
    method ExportAppend(sx: int, sy: int, n: nat, idx: seq<byte>, geo: seq<byte>) returns (r: Result<Streams, string>)
      requires 0 <= sx < NUM_SQUARES && 0 <= sy < NUM_SQUARES && n == 120 * sy + sx
      requires ZonePrefix(volumes, heights, n, idx, geo)
      ensures r.Failure? ==> !ExportOk(volumes, heights)
      ensures r.Ok? ==> ZonePrefix(volumes, heights, n + 1, r.value.idx, r.value.geo)
    {
      var block := ExportSquare(sx, sy);
      if block.Failure? {
        return Failure(block.error);
      }
      ZonePrefixStep(volumes, heights, n, idx, geo, block.value.idx, block.value.geo);
      return Ok(Streams(idx + block.value.idx, geo + block.value.geo));
    }

    /** The squares of row sy, sx ascending, appended to the streams of the rows before it. */
    method ExportSquareRow(sy: int, n0: nat, acc: Streams) returns (r: Result<Streams, string>)
      requires 0 <= sy < NUM_SQUARES && n0 == 120 * sy && ZonePrefix(volumes, heights, n0, acc.idx, acc.geo)
      ensures r.Failure? ==> !ExportOk(volumes, heights)
      ensures r.Ok? ==> ZonePrefix(volumes, heights, n0 + 120, r.value.idx, r.value.geo)
    {
      var idx, geo := acc.idx, acc.geo;
      var n := n0;
      for sx := 0 to NUM_SQUARES
        invariant n == n0 + sx && ZonePrefix(volumes, heights, n, idx, geo)
      {
        var next := ExportAppend(sx, sy, n, idx, geo);
        if next.Failure? {
          return Failure(next.error);
        }
        idx, geo := next.value.idx, next.value.geo;
        n := n + 1;
      }
      return Ok(Streams(idx, geo));
    }

    /**
     * `export`: the `.idx` and `.geo` streams of the zone, squares with sy
     * outer and sx inner; a failure where export raises.
     */
    method Export() returns (r: Result<Streams, string>)
      ensures r.Failure? <==> !ExportOk(volumes, heights)
      ensures r.Ok? ==> r.value == Streams(ZoneIdx(volumes, heights, SQUARE_COUNT), ZoneGeo(volumes, heights, SQUARE_COUNT))
    {
      var acc := Streams([], []);
      var n := 0;
      for sy := 0 to NUM_SQUARES
        invariant n == 120 * sy && ZonePrefix(volumes, heights, n, acc.idx, acc.geo)
      {
        var row := ExportSquareRow(sy, n, acc);
        if row.Failure? {
          return Failure(row.error);
        }
        acc := row.value;
        n := n + 120;
      }
      ZonePrefixDone(volumes, heights, acc.idx, acc.geo);
      return Ok(acc);
    }

    /** The heights of exactly the cells below bound that have samples are done. */
    ghost predicate HeightsUpTo(up: UpCaster, bound: int)
      reads this
    {
      Valid()
      && (forall j :: j in heights <==> 0 <= j < bound && j in volumes)
      && (forall j :: j in heights ==> heights[j] == Clearances(up, j, volumes[j], wrapped[j], |volumes[j]|))
    }
  }
}
