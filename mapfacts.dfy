/**
 * What `Level.read_from` (lib/map.py) guarantees about the actors it
 * returns, proved as an invariant of the line loop: every returned actor
 * has a mesh component with a mesh path, the returned labels are
 * distinct and were all recorded, every actor is named after the
 * "Begin Actor" line that created it, and the returned actors come in
 * the order of those lines.
 */
module LevelFacts {
  import opened Wrappers
  import opened PyStr
  import opened T3D
  import opened MapLevel

  /** The stripped "Begin Actor" lines, in order. */
  function BeginLines(lines: seq<string>): (r: seq<string>)
    ensures |r| <= |lines|
    ensures forall k :: 0 <= k < |r| ==> StartsWith(r[k], "Begin Actor")
  {
    if lines == [] then []
    else
      var b := BeginLines(lines[..|lines| - 1]);
      var l := Strip(lines[|lines| - 1]);
      if StartsWith(l, "Begin Actor") then b + [l] else b
  }

  /** The actor was created by the `index`-th "Begin Actor" line, of class StaticMeshActor, and named after it. */
  predicate NamedBy(a: Actor, begins: seq<string>)
  {
    0 <= a.index < |begins| &&
    ParseClass(begins[a.index]) == "StaticMeshActor" &&
    a.name == ParseName(begins[a.index]) + "_" + IntToString(a.index)
  }

  /** An attached mesh component has a mesh path. */
  predicate MeshOk(a: Actor, comps: seq<MeshComp>)
  {
    a.smc.Some? ==> a.smc.value < |comps| && comps[a.smc.value].meshPath != ""
  }

  /** What holds of each returned actor. */
  predicate Kept(a: Actor, comps: seq<MeshComp>, labels: seq<string>, begins: seq<string>)
  {
    a.smc.Some? && MeshOk(a, comps) && NamedBy(a, begins) && a.actorLabel in labels
  }

  /** What holds of the current actor. */
  predicate Current(a: Actor, comps: seq<MeshComp>, actors: seq<Actor>, begins: seq<string>)
  {
    MeshOk(a, comps) && NamedBy(a, begins) &&
    forall i :: 0 <= i < |actors| ==> actors[i].index < a.index
  }

  /** The loop invariant, for the "Begin Actor" lines read so far. */
  predicate Inv(st: Reader, begins: seq<string>)
  {
    Refs(st) && st.idx == |begins| &&
    (forall k :: 0 <= k < |begins| ==> ParseName(begins[k]) in st.labels) &&
    (forall i :: 0 <= i < |st.actors| ==> Kept(st.actors[i], st.comps, st.labels, begins)) &&
    (forall i, j :: 0 <= i < j < |st.actors| ==>
       st.actors[i].index < st.actors[j].index && st.actors[i].actorLabel != st.actors[j].actorLabel) &&
    (st.actor.Some? ==> Current(st.actor.value, st.comps, st.actors, begins))
  }

  lemma InvStart()
    ensures Inv(Start, [])
  {
  }

  /** A "Begin Actor" line: one more line counted and its name recorded. */
  lemma InvBeginActor(st: Reader, begins: seq<string>, line: string)
    requires Inv(st, begins)
    ensures Inv(BeginActor(st, line), begins + [line])
  {
    var r := BeginActor(st, line);
    var nb := begins + [line];
    forall a: Actor | NamedBy(a, begins)
      ensures NamedBy(a, nb)
    {
      assert nb[a.index] == begins[a.index];
    }
    forall k | 0 <= k < |nb|
      ensures ParseName(nb[k]) in r.labels
    {
      if k < |begins| {
        assert nb[k] == begins[k];
      }
    }
    forall i | 0 <= i < |r.actors|
      ensures Kept(r.actors[i], r.comps, r.labels, nb)
    {
      assert Kept(st.actors[i], st.comps, st.labels, begins);
    }
    if ParseClass(line) == "StaticMeshActor" {
      var a := r.actor.value;
      assert nb[a.index] == line;
      forall i | 0 <= i < |r.actors|
        ensures r.actors[i].index < a.index
      {
        assert Kept(st.actors[i], st.comps, st.labels, begins);
      }
      assert Current(a, r.comps, r.actors, nb);
    } else if st.actor.Some? {
      assert Current(st.actor.value, st.comps, st.actors, begins);
    }
  }

  /** An "ActorLabel" line changes only the current actor's label. */
  lemma InvLabel(st: Reader, begins: seq<string>, v: string)
    requires Inv(st, begins) && st.actor.Some?
    ensures Inv(st.(actor := Some(st.actor.value.(actorLabel := v))), begins)
  {
    var r := st.(actor := Some(st.actor.value.(actorLabel := v)));
    assert Current(st.actor.value, st.comps, st.actors, begins);
    forall i | 0 <= i < |r.actors|
      ensures Kept(r.actors[i], r.comps, r.labels, begins)
    {
      assert Kept(st.actors[i], st.comps, st.labels, begins);
    }
  }

  /** A "Begin Object" line only adds components. */
  lemma InvBeginObject(st: Reader, begins: seq<string>, line: string)
    requires Inv(st, begins)
    ensures Inv(BeginObject(st, line), begins)
  {
    var r := BeginObject(st, line);
    assert r.comps[..|st.comps|] == st.comps;
    forall a: Actor | MeshOk(a, st.comps)
      ensures MeshOk(a, r.comps)
    {
      if a.smc.Some? {
        assert r.comps[a.smc.value] == st.comps[a.smc.value];
      }
    }
    forall i | 0 <= i < |r.actors|
      ensures Kept(r.actors[i], r.comps, r.labels, begins)
    {
      assert Kept(st.actors[i], st.comps, st.labels, begins);
    }
    if st.actor.Some? {
      assert Current(st.actor.value, st.comps, st.actors, begins);
    }
  }

  /** An "End Object" line attaches the mesh component only when it has a mesh path. */
  lemma InvEndObject(st: Reader, begins: seq<string>)
    requires Inv(st, begins)
    ensures Inv(EndObject(st), begins)
  {
    if st.actor.Some? {
      var r := EndObject(st);
      assert Current(st.actor.value, st.comps, st.actors, begins);
      assert Current(r.actor.value, r.comps, r.actors, begins);
    }
  }

  /** An "End Actor" line keeps the actor only with a mesh and a label not yet recorded. */
  lemma InvEndActor(st: Reader, begins: seq<string>)
    requires Inv(st, begins)
    ensures Inv(EndActor(st), begins)
  {
    if st.actor.Some? && st.actor.value.smc.Some? && st.actor.value.actorLabel !in st.labels {
      var a := st.actor.value;
      assert Current(a, st.comps, st.actors, begins);
      KeptAppend(st.actors, a, st.comps, st.labels, begins);
      OrderedAppend(st.actors, a, st.labels);
    } else if st.actor.Some? {
      assert Current(st.actor.value, st.comps, st.actors, begins);
    }
  }

  /** A returned actor with a fresh label joins the kept ones, whose labels stay recorded. */
  lemma KeptAppend(actors: seq<Actor>, a: Actor, comps: seq<MeshComp>, labels: seq<string>, begins: seq<string>)
    requires forall i :: 0 <= i < |actors| ==> Kept(actors[i], comps, labels, begins)
    requires a.smc.Some? && Current(a, comps, actors, begins)
    ensures forall i :: 0 <= i < |actors + [a]| ==> Kept((actors + [a])[i], comps, labels + [a.actorLabel], begins)
  {
    forall i | 0 <= i < |actors + [a]|
      ensures Kept((actors + [a])[i], comps, labels + [a.actorLabel], begins)
    {
      if i < |actors| {
        assert Kept(actors[i], comps, labels, begins);
      }
    }
  }

  /** An actor with a later index and an unrecorded label keeps the kept ones ordered and distinct. */
  lemma OrderedAppend(actors: seq<Actor>, a: Actor, labels: seq<string>)
    requires forall i, j :: 0 <= i < j < |actors| ==>
      actors[i].index < actors[j].index && actors[i].actorLabel != actors[j].actorLabel
    requires forall i :: 0 <= i < |actors| ==> actors[i].index < a.index && actors[i].actorLabel in labels
    requires a.actorLabel !in labels
    ensures forall i, j :: 0 <= i < j < |actors + [a]| ==>
      (actors + [a])[i].index < (actors + [a])[j].index && (actors + [a])[i].actorLabel != (actors + [a])[j].actorLabel
  {
    var r := actors + [a];
    forall i, j | 0 <= i < j < |r|
      ensures r[i].index < r[j].index && r[i].actorLabel != r[j].actorLabel
    {
      if j == |actors| {
        assert r[i] == actors[i] && r[j] == a;
      } else {
        assert r[i] == actors[i] && r[j] == actors[j];
      }
    }
  }

  /** A "Layers(" line changes only the current actor's layers. */
  lemma InvAddLayer(st: Reader, begins: seq<string>, line: string)
    requires Inv(st, begins) && AddLayer(st, line).Ok?
    ensures Inv(AddLayer(st, line).value, begins)
  {
    if Contains(line, "Layers(") && st.actor.Some? {
      var a := st.actor.value;
      var b := a.(layers := a.layers + [ValueText(line).value]);
      assert Current(a, st.comps, st.actors, begins);
      SameCurrent(a, b, st.comps, st.actors, begins);
      InvNewCurrent(st, b, begins);
    }
  }

  /** Only the layers differ, and Current does not look at them. */
  lemma SameCurrent(a: Actor, b: Actor, comps: seq<MeshComp>, actors: seq<Actor>, begins: seq<string>)
    requires Current(a, comps, actors, begins)
    requires b.name == a.name && b.index == a.index && b.smc == a.smc
    ensures Current(b, comps, actors, begins)
  {
  }

  /** Replacing the current actor by one that is current the same way keeps the invariant. */
  lemma InvNewCurrent(st: Reader, b: Actor, begins: seq<string>)
    requires Inv(st, begins) && st.actor.Some? && Current(b, st.comps, st.actors, begins)
    requires ActorRefs(b, st.comps, st.scenes)
    ensures Inv(st.(actor := Some(b)), begins)
  {
  }

  /** The current mesh component reading a line keeps a mesh path it has. */
  lemma InvMeshLine(st: Reader, begins: seq<string>, line: string, vec: VecParser, toInt: string -> int)
    requires Inv(st, begins) && MeshLine(st, line, vec, toInt).Ok?
    ensures Inv(MeshLine(st, line, vec, toInt).value, begins)
  {
    var r := MeshLine(st, line, vec, toInt).value;
    forall a: Actor | MeshOk(a, st.comps)
      ensures MeshOk(a, r.comps)
    {
    }
    forall i | 0 <= i < |r.actors|
      ensures Kept(r.actors[i], r.comps, r.labels, begins)
    {
      assert Kept(st.actors[i], st.comps, st.labels, begins);
    }
    if st.actor.Some? {
      assert Current(st.actor.value, st.comps, st.actors, begins);
    }
  }

  /** The current scene component reading a line changes only the scene arena. */
  lemma InvSceneLine(st: Reader, begins: seq<string>, line: string, vec: VecParser)
    requires Inv(st, begins) && SceneLine(st, line, vec).Ok?
    ensures Inv(SceneLine(st, line, vec).value, begins)
  {
    var r := SceneLine(st, line, vec).value;
    forall i | 0 <= i < |r.actors|
      ensures Kept(r.actors[i], r.comps, r.labels, begins)
    {
      assert Kept(st.actors[i], st.comps, st.labels, begins);
    }
    if st.actor.Some? {
      assert Current(st.actor.value, st.comps, st.actors, begins);
    }
  }

  lemma InvOther(st: Reader, begins: seq<string>, line: string, vec: VecParser, toInt: string -> int)
    requires Inv(st, begins) && OtherLine(st, line, vec, toInt).Ok?
    ensures Inv(OtherLine(st, line, vec, toInt).value, begins)
  {
    InvAddLayer(st, begins, line);
    var st1 := AddLayer(st, line).value;
    InvMeshLine(st1, begins, line, vec, toInt);
    InvSceneLine(MeshLine(st1, line, vec, toInt).value, begins, line, vec);
  }

  /** One line keeps the invariant; only a "Begin Actor" line is counted. */
  lemma InvStep(st: Reader, begins: seq<string>, raw: string, vec: VecParser, toInt: string -> int)
    requires Inv(st, begins) && Step(st, raw, vec, toInt).Ok?
    ensures var line := Strip(raw);
      Inv(Step(st, raw, vec, toInt).value, if StartsWith(line, "Begin Actor") then begins + [line] else begins)
  {
    var line := Strip(raw);
    if StartsWith(line, "Begin Actor") {
      InvBeginActor(st, begins, line);
    } else if StartsWith(line, "ActorLabel") && st.actor.Some? {
      InvLabel(st, begins, ValueText(line).value);
    } else if StartsWith(line, "Begin Object") {
      InvBeginObject(st, begins, line);
    } else if StartsWith(line, "End Object") {
      InvEndObject(st, begins);
    } else if StartsWith(line, "End Actor") {
      InvEndActor(st, begins);
    } else {
      InvOther(st, begins, line, vec, toInt);
    }
  }

  /** The invariant after any lines that read without failure. */
  lemma {:induction false} InvRun(lines: seq<string>, vec: VecParser, toInt: string -> int)
    requires Run(lines, vec, toInt).Ok?
    ensures Inv(Run(lines, vec, toInt).value, BeginLines(lines))
  {
    if lines == [] {
      InvStart();
    } else {
      var init := lines[..|lines| - 1];
      InvRun(init, vec, toInt);
      InvStep(Run(init, vec, toInt).value, BeginLines(init), lines[|lines| - 1], vec, toInt);
    }
  }

  /**
   * The actors of a level read without failure: each has a mesh component
   * with a mesh path, each is named after the StaticMeshActor "Begin
   * Actor" line that created it, and they come in the order of those
   * lines with pairwise distinct labels.
   */
  lemma LevelActors(fileName: string, lines: seq<string>, vec: VecParser, toInt: string -> int)
    requires LevelOf(fileName, lines, vec, toInt).Ok?
    ensures var l := LevelOf(fileName, lines, vec, toInt).value;
      forall i :: 0 <= i < |l.actors| ==>
        l.actors[i].smc.Some? && l.actors[i].smc.value < |l.comps| &&
        l.comps[l.actors[i].smc.value].meshPath != "" &&
        NamedBy(l.actors[i], BeginLines(lines))
    ensures var l := LevelOf(fileName, lines, vec, toInt).value;
      forall i, j :: 0 <= i < j < |l.actors| ==>
        l.actors[i].index < l.actors[j].index && l.actors[i].actorLabel != l.actors[j].actorLabel
  {
    InvRun(lines, vec, toInt);
    var st := Run(lines, vec, toInt).value;
    forall i | 0 <= i < |st.actors|
      ensures st.actors[i].smc.Some? && st.actors[i].smc.value < |st.comps| &&
        st.comps[st.actors[i].smc.value].meshPath != "" && NamedBy(st.actors[i], BeginLines(lines))
    {
      assert Kept(st.actors[i], st.comps, st.labels, BeginLines(lines));
    }
  }

  /**
   * Every "Begin Actor" line, whatever its class, is counted and its
   * name recorded among the labels an actor must not reuse to be kept.
   */
  lemma RunCounts(lines: seq<string>, vec: VecParser, toInt: string -> int)
    requires Run(lines, vec, toInt).Ok?
    ensures Run(lines, vec, toInt).value.idx == |BeginLines(lines)|
    ensures forall k :: 0 <= k < |BeginLines(lines)| ==>
      ParseName(BeginLines(lines)[k]) in Run(lines, vec, toInt).value.labels
    ensures forall i :: 0 <= i < |Run(lines, vec, toInt).value.actors| ==>
      Run(lines, vec, toInt).value.actors[i].actorLabel in Run(lines, vec, toInt).value.labels
  {
    InvRun(lines, vec, toInt);
    var st := Run(lines, vec, toInt).value;
    forall i | 0 <= i < |st.actors|
      ensures st.actors[i].actorLabel in st.labels
    {
      assert Kept(st.actors[i], st.comps, st.labels, BeginLines(lines));
    }
  }
}
