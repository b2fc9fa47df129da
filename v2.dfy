/**
 * The older importer, tera_map_importer_v2.py: its own `parse_vector`
 * and `parse_class`, and a `Level.read_from` that keeps every actor it
 * creates and never resets the current actor or the current mesh
 * component. `parse_name` and `parse_mesh_path` are the same text as
 * in lib/t3d_utils.py and are `T3D.ParseName` and `T3D.ParseMeshPath`.
 *
 * Python objects that the loop keeps mutating after they have been
 * returned are modelled as arenas: the actors and the components live in
 * sequences, and the current actor, the current component and the
 * returned actors are indices into them, so a later write to the current
 * actor is seen by every place that refers to it.
 */
module ImporterV2 {
  import opened Wrappers
  import opened PyStr
  import opened T3D
  import opened MapLevel

  // ---------------------------------------------------------------------
  // Parsers
  // ---------------------------------------------------------------------

  /** The comma-separated parts: every `name=(` dropped, then every ')'. */
  function PartsV2(line: string, name: string): (parts: seq<string>)
    ensures |parts| >= 1
  {
    Split(Replace(Replace(line, name + "=(", ""), ")", ""), ",")
  }

  /** `parse_vector(line, name)`: `float(part.split('=')[1])` for each part, in order. */
  function ParseVectorV2(line: string, name: string, flt: string -> real): Result<seq<real>, string>
  {
    Values(PartsV2(line, name), flt)
  }

  /** The vector parser of this importer, for the shared readers. */
  function V2Vector(flt: string -> real): VecParser
  {
    (line, name) => ParseVectorV2(line, name, flt)
  }

  /**
   * A vector written as `name=(X=..,Y=..,Z=..)` parses back to its
   * values, provided `name=(` does not occur again in the text.
   */
  lemma ParseVectorV2Named(name: string, keys: seq<string>, vals: seq<string>, flt: string -> real)
    requires |keys| == |vals| >= 1
    requires forall k :: 0 <= k < |keys| ==> Plain(keys[k]) && Plain(vals[k])
    requires !Contains(Join(Pairs(keys, vals), ",") + ")", name + "=(")
    ensures ParseVectorV2(name + "=" + Format(keys, vals), name, flt) == Ok(Floats(vals, flt))
  {
    var ps := Pairs(keys, vals);
    Unwrapped(name, keys, vals);
    forall k | 0 <= k < |ps| ensures ',' !in ps[k] {
      if ',' in ps[k] {
        assert ps[k] == keys[k] + "=" + vals[k];
        if ',' in keys[k] { PlainHas(keys[k], ','); }
        if ',' in vals[k] { PlainHas(vals[k], ','); }
      }
    }
    SplitJoin(ps, ',');
    assert PartsV2(name + "=" + Format(keys, vals), name) == ps;
    forall k | 0 <= k < |ps| ensures Split(ps[k], "=") == [keys[k], vals[k]] {
      SplitPair(keys[k], vals[k]);
    }
    var r := Values(ps, flt);
    assert r.Ok?;
    assert r.value == Floats(vals, flt);
  }

  /** Dropping `name=(` and the closing parenthesis leaves the joined pairs. */
  lemma Unwrapped(name: string, keys: seq<string>, vals: seq<string>)
    requires |keys| == |vals| >= 1
    requires forall k :: 0 <= k < |keys| ==> Plain(keys[k]) && Plain(vals[k])
    requires !Contains(Join(Pairs(keys, vals), ",") + ")", name + "=(")
    ensures Replace(Replace(name + "=" + Format(keys, vals), name + "=(", ""), ")", "") == Join(Pairs(keys, vals), ",")
  {
    var body := Join(Pairs(keys, vals), ",");
    assert name + "=" + Format(keys, vals) == (name + "=(") + (body + ")");
    ReplaceAtStart(name + "=(", body + ")", "");
    assert [] + (body + ")") == body + ")";
    assert ')' !in body by {
      if ')' in body { PairsChar(keys, vals, ')'); }
    }
    ReplaceCharByNothing(body + ")", ')');
    RemoveCharConcat(body, ")", ')');
    NoCharUnchanged(body, ')');
    assert RemoveChar(")", ')') == [];
  }

  const NoTrim := "AttributeError: 'str' object has no attribute 'trim'"

  /**
   * `parse_class` as written: Python strings have no `trim` method, so
   * whenever "Class=" occurs the call raises; otherwise the class is "".
   */
  function ParseClassV2(line: string): (r: Result<string, string>)
    ensures r.Failure? <==> Contains(line, "Class=")
    ensures r.Ok? ==> r.value == ""
  {
    if Find(line, "Class=") != -1 then Failure(NoTrim) else Ok("")
  }

  /**
   * On an actor line of class StaticMeshActor the function as written
   * raises, where the `strip` of lib/t3d_utils.py gives the class.
   */
  lemma ParseClassV2Raises(a: string, c: string, b: string)
    requires '=' !in a && '=' !in c
    requires c != [] ==> !IsSpace(c[0]) && !IsSpace(c[|c| - 1])
    ensures ParseClassV2(a + EnginePrefix + c + " Name=" + b).Failure?
    ensures ParseClass(a + EnginePrefix + c + " Name=" + b) == c
  {
    var line := a + EnginePrefix + c + " Name=" + b;
    FindClassKey(a, c + " Name=" + b);
    assert line == a + EnginePrefix + (c + " Name=" + b);
    ParseClassAt(a, c, b);
  }

  // ---------------------------------------------------------------------
  // Objects
  // ---------------------------------------------------------------------

  /** An `Actor`; `smc` indexes the component arena. */
  datatype ActorV2 = ActorV2(name: string, smc: Option<nat>, index: int, actorLabel: string)

  /** A `StaticMeshComponent` of this importer: a path and a transform. */
  datatype MeshV2 = MeshV2(name: string, meshPath: string, location: Vector, rotation: Vector, scale: Vector)

  function NewMeshV2(name: string): MeshV2
  {
    MeshV2(name, "", [0.0, 0.0, 0.0], [0.0, 0.0, 0.0], [1.0, 1.0, 1.0])
  }

  /**
   * `StaticMeshComponent.read_line`: the first four keys of the chain of
   * lib/map.py, in the same order, and nothing for the other two.
   */
  function MeshReadLineV2(m: MeshV2, line: string, vec: VecParser): (r: Result<MeshV2, string>)
    ensures r.Failure? ==> MeshFieldOf(line) in {LocationField, RotationField, ScaleField}
    ensures r.Ok? ==> r.value.name == m.name
    ensures r.Ok? && MeshFieldOf(line) != LocationField ==> r.value.location == m.location
    ensures r.Ok? && MeshFieldOf(line) != RotationField ==> r.value.rotation == m.rotation
    ensures r.Ok? && MeshFieldOf(line) != ScaleField ==> r.value.scale == m.scale
    ensures r.Ok? && MeshFieldOf(line) != MeshPathField ==> r.value.meshPath == m.meshPath
    ensures MeshFieldOf(line) == MeshPathField ==> r.Ok? && r.value.meshPath == ParseMeshPath(line)
    ensures MeshFieldOf(line) == LocationField ==>
      (r.Ok? <==> vec(line, "RelativeLocation").Ok?) && (r.Ok? ==> r.value.location == vec(line, "RelativeLocation").value)
    ensures MeshFieldOf(line) == RotationField ==>
      (r.Ok? <==> vec(line, "RelativeRotation").Ok?) && (r.Ok? ==> r.value.rotation == vec(line, "RelativeRotation").value)
    ensures MeshFieldOf(line) == ScaleField ==>
      (r.Ok? <==> vec(line, "RelativeScale3D").Ok?) && (r.Ok? ==> r.value.scale == vec(line, "RelativeScale3D").value)
    ensures MeshFieldOf(line) in {CollisionField, AggField, NoField} ==> r == Ok(m)
    ensures r.Ok? && m.meshPath != "" ==> r.value.meshPath != ""
  {
    match MeshFieldOf(line)
    case LocationField =>
      var v := vec(line, "RelativeLocation");
      if v.Failure? then Failure(v.error) else Ok(m.(location := v.value))
    case RotationField =>
      var v := vec(line, "RelativeRotation");
      if v.Failure? then Failure(v.error) else Ok(m.(rotation := v.value))
    case ScaleField =>
      var v := vec(line, "RelativeScale3D");
      if v.Failure? then Failure(v.error) else Ok(m.(scale := v.value))
    case MeshPathField => Ok(m.(meshPath := ParseMeshPath(line)))
    case _ => Ok(m)
  }

  // ---------------------------------------------------------------------
  // The level reader
  // ---------------------------------------------------------------------

  /**
   * The state of `Level.read_from` between two lines: the current actor
   * and component as arena indices, both arenas, `actor_labels`, `idx`
   * and the returned actors as arena indices.
   */
  datatype ReaderV2 = ReaderV2(
    actor: Option<nat>, smc: Option<nat>,
    arena: seq<ActorV2>, comps: seq<MeshV2>,
    labels: seq<string>, idx: nat, kept: seq<nat>)

  /** The level: its name, its actors in the order returned and their components. */
  datatype LevelV2 = LevelV2(name: string, actors: seq<ActorV2>, comps: seq<MeshV2>)

  /** Every index of the state refers to an entry of its arena. */
  predicate RefsV2(st: ReaderV2)
  {
    (st.actor.Some? ==> st.actor.value < |st.arena|) &&
    (st.smc.Some? ==> st.smc.value < |st.comps|) &&
    (forall k :: 0 <= k < |st.arena| ==> (st.arena[k].smc.Some? ==> st.arena[k].smc.value < |st.comps|)) &&
    (forall j :: 0 <= j < |st.kept| ==> st.kept[j] < |st.arena|)
  }

  const StartV2 := ReaderV2(None, None, [], [], [], 0, [])

  const NoLabel := "AttributeError: 'NoneType' object has no attribute 'set_label'"
  const NoMeshPath := "AttributeError: 'NoneType' object has no attribute 'mesh_path'"
  const NoSmc := "AttributeError: 'NoneType' object has no attribute 'smc'"

  /** A "Begin Actor" line: a new current actor named `{name}_{idx}`, whatever the class. */
  function BeginActorV2(st: ReaderV2, line: string): (r: ReaderV2)
    requires RefsV2(st)
    ensures RefsV2(r)
  {
    var name := ParseName(line);
    st.(actor := Some(|st.arena|), arena := st.arena + [ActorV2(name + "_" + IntToString(st.idx), None, st.idx, "")],
        idx := st.idx + 1, labels := st.labels + [name])
  }

  /** An "ActorLabel" line: `set_label` on the current actor, which must exist. */
  function LabelV2(st: ReaderV2, line: string): (r: Result<ReaderV2, string>)
    requires RefsV2(st)
    ensures r.Ok? ==> RefsV2(r.value)
  {
    if st.actor.None? then Failure(NoLabel)
    else
      var v := ValueText(line);
      if v.Failure? then Failure(v.error)
      else Ok(st.(arena := st.arena[st.actor.value := st.arena[st.actor.value].(actorLabel := v.value)]))
  }

  /** An "End Object" line: the current component attached to the current actor if it has a mesh path. */
  function EndObjectV2(st: ReaderV2): (r: Result<ReaderV2, string>)
    requires RefsV2(st)
    ensures r.Ok? ==> RefsV2(r.value)
  {
    if st.smc.None? then Failure(NoMeshPath)
    else if st.comps[st.smc.value].meshPath == "" then Ok(st)
    else if st.actor.None? then Failure(NoSmc)
    else Ok(st.(arena := st.arena[st.actor.value := st.arena[st.actor.value].(smc := st.smc)]))
  }

  /** An "End Actor" line: the current actor returned if it has a component and an unseen label. */
  function EndActorV2(st: ReaderV2): (r: Result<ReaderV2, string>)
    requires RefsV2(st)
    ensures r.Ok? ==> RefsV2(r.value)
  {
    if st.actor.None? then Failure(NoSmc)
    else
      var a := st.arena[st.actor.value];
      if a.smc.None? || a.actorLabel in st.labels then Ok(st)
      else Ok(st.(kept := st.kept + [st.actor.value], labels := st.labels + [a.actorLabel]))
  }

  /** Any other line is read by the current component, if there is one. */
  function BodyV2(st: ReaderV2, line: string, vec: VecParser): (r: Result<ReaderV2, string>)
    requires RefsV2(st)
    ensures r.Ok? ==> RefsV2(r.value)
  {
    if st.smc.None? then Ok(st)
    else
      var m := MeshReadLineV2(st.comps[st.smc.value], line, vec);
      if m.Failure? then Failure(m.error) else Ok(st.(comps := st.comps[st.smc.value := m.value]))
  }

  /** One line of `Level.read_from`, stripped first. */
  function StepV2(st: ReaderV2, raw: string, vec: VecParser): (r: Result<ReaderV2, string>)
    requires RefsV2(st)
    ensures r.Ok? ==> RefsV2(r.value)
  {
    var line := Strip(raw);
    if StartsWith(line, "Begin Actor") then Ok(BeginActorV2(st, line))
    else if StartsWith(line, "ActorLabel") then LabelV2(st, line)
    else ObjectLineV2(st, line, vec)
  }

  /** The state after the lines, or the first failure. */
  function RunV2(lines: seq<string>, vec: VecParser): (r: Result<ReaderV2, string>)
    ensures r.Ok? ==> RefsV2(r.value)
  {
    if lines == [] then Ok(StartV2)
    else
      var prev := RunV2(lines[..|lines| - 1], vec);
      if prev.Failure? then prev else StepV2(prev.value, lines[|lines| - 1], vec)
  }

  /** The returned actors, each as it is in the arena at the end. */
  function Returned(st: ReaderV2): (r: seq<ActorV2>)
    requires RefsV2(st)
    ensures |r| == |st.kept|
    ensures forall j :: 0 <= j < |r| ==> r[j] == st.arena[st.kept[j]]
  {
    seq(|st.kept|, j requires 0 <= j < |st.kept| && RefsV2(st) => st.arena[st.kept[j]])
  }

  /** `Level.read_from` on the lines of a file whose name is `fileName`. */
  function LevelV2Of(fileName: string, lines: seq<string>, vec: VecParser): (r: Result<LevelV2, string>)
    ensures r.Ok? <==> RunV2(lines, vec).Ok?
  {
    var st := RunV2(lines, vec);
    if st.Failure? then Failure(st.error)
    else Ok(LevelV2(Replace(fileName, ".t3d", ""), Returned(st.value), st.value.comps))
  }

  lemma RunV2Next(lines: seq<string>, i: nat, vec: VecParser)
    requires i < |lines| && RunV2(lines[..i], vec).Ok?
    ensures RunV2(lines[..i + 1], vec) == StepV2(RunV2(lines[..i], vec).value, lines[i], vec)
  {
    var next := lines[..i + 1];
    assert next[..|next| - 1] == lines[..i];
    assert next[|next| - 1] == lines[i];
  }

  lemma {:induction false} RunV2Fails(lines: seq<string>, j: nat, vec: VecParser)
    requires j <= |lines| && RunV2(lines[..j], vec).Failure?
    ensures RunV2(lines, vec) == RunV2(lines[..j], vec)
    decreases |lines|
  {
    if j < |lines| {
      var init := lines[..|lines| - 1];
      assert init[..j] == lines[..j];
      RunV2Fails(init, j, vec);
    } else {
      assert lines[..j] == lines;
    }
  }

  /** The body of the loop: one line, stripped, by its kind. */
  method ReadLineV2(st: ReaderV2, raw: string, vec: VecParser) returns (r: Result<ReaderV2, string>)
    requires RefsV2(st)
    ensures r == StepV2(st, raw, vec)
  {
    var line := Strip(raw);
    if StartsWith(line, "Begin Actor") {
      assert StepV2(st, raw, vec) == Ok(BeginActorV2(st, line));
      var name := ParseName(line);
      var actor := ActorV2(name + "_" + IntToString(st.idx), None, st.idx, "");
      return Ok(st.(actor := Some(|st.arena|), arena := st.arena + [actor], idx := st.idx + 1, labels := st.labels + [name]));
    }
    if StartsWith(line, "ActorLabel") {
      assert StepV2(st, raw, vec) == LabelV2(st, line);
      r := SetLabelV2(st, line);
      return;
    }
    assert StepV2(st, raw, vec) == ObjectLineV2(st, line, vec);
    r := ReadObjectLineV2(st, line, vec);
  }

  /** `current_actor.set_label(line)`: the current actor, which must exist, takes the label. */
  method SetLabelV2(st: ReaderV2, line: string) returns (r: Result<ReaderV2, string>)
    requires RefsV2(st)
    ensures r == LabelV2(st, line)
  {
    if st.actor.None? {
      return Failure(NoLabel);
    }
    var v := ValueText(line);
    if v.Failure? {
      return Failure(v.error);
    }
    var a := st.actor.value;
    return Ok(st.(arena := st.arena[a := st.arena[a].(actorLabel := v.value)]));
  }

  /** The rest of the chain after the actor lines. */
  function ObjectLineV2(st: ReaderV2, line: string, vec: VecParser): (r: Result<ReaderV2, string>)
    requires RefsV2(st)
    ensures r.Ok? ==> RefsV2(r.value)
  {
    if StartsWith(line, "Begin Object") then
      Ok(st.(smc := Some(|st.comps|), comps := st.comps + [NewMeshV2(ParseName(line))]))
    else if StartsWith(line, "End Object") then EndObjectV2(st)
    else if StartsWith(line, "End Actor") then EndActorV2(st)
    else BodyV2(st, line, vec)
  }

  /** The object lines, "End Actor" and the other lines of the loop body. */
  method ReadObjectLineV2(st: ReaderV2, line: string, vec: VecParser) returns (r: Result<ReaderV2, string>)
    requires RefsV2(st)
    ensures r == ObjectLineV2(st, line, vec)
  {
    if StartsWith(line, "Begin Object") {
      return Ok(st.(smc := Some(|st.comps|), comps := st.comps + [NewMeshV2(ParseName(line))]));
    }
    if StartsWith(line, "End Object") {
      if st.smc.None? {
        return Failure(NoMeshPath);
      }
      if st.comps[st.smc.value].meshPath == "" {
        return Ok(st);
      }
      if st.actor.None? {
        return Failure(NoSmc);
      }
      var a := st.actor.value;
      return Ok(st.(arena := st.arena[a := st.arena[a].(smc := st.smc)]));
    }
    if StartsWith(line, "End Actor") {
      if st.actor.None? {
        return Failure(NoSmc);
      }
      var a := st.arena[st.actor.value];
      if a.smc.None? || a.actorLabel in st.labels {
        return Ok(st);
      }
      return Ok(st.(kept := st.kept + [st.actor.value], labels := st.labels + [a.actorLabel]));
    }
    if st.smc.None? {
      return Ok(st);
    }
    var m := MeshReadLineV2(st.comps[st.smc.value], line, vec);
    if m.Failure? {
      return Failure(m.error);
    }
    return Ok(st.(comps := st.comps[st.smc.value := m.value]));
  }

  /** `Level.read_from`: the loop over the lines of the file. */
  method ReadLevelV2(fileName: string, lines: seq<string>, vec: VecParser) returns (r: Result<LevelV2, string>)
    ensures r == LevelV2Of(fileName, lines, vec)
  {
    var st := StartV2;
    var i := 0;
    while i < |lines|
      invariant 0 <= i <= |lines|
      invariant RunV2(lines[..i], vec) == Ok(st)
    {
      RunV2Next(lines, i, vec);
      var next := ReadLineV2(st, lines[i], vec);
      if next.Failure? {
        RunV2Fails(lines, i + 1, vec);
        return Failure(next.error);
      }
      st := next.value;
      i := i + 1;
    }
    assert lines[..|lines|] == lines;
    return Ok(LevelV2(Replace(fileName, ".t3d", ""), Returned(st), st.comps));
  }
}
