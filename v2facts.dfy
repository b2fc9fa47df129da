/**
 * What `Level.read_from` of tera_map_importer_v2.py guarantees, proved
 * as an invariant of its line loop: every "Begin Actor" line creates one
 * actor named after it, the current component is always the one of the
 * last "Begin Object" line and is never reset, and every returned actor
 * has a component with a mesh path. Because nothing is reset after
 * "End Actor", the same actor can be returned twice.
 */
module V2Facts {
  import opened Wrappers
  import opened PyStr
  import opened T3D
  import opened MapLevel
  import opened LevelFacts
  import opened ImporterV2

  /** The stripped "Begin Object" lines, in order. */
  function BeginObjectLines(lines: seq<string>): (r: seq<string>)
    ensures |r| <= |lines|
  {
    if lines == [] then []
    else
      var b := BeginObjectLines(lines[..|lines| - 1]);
      var l := Strip(lines[|lines| - 1]);
      if !StartsWith(l, "Begin Actor") && !StartsWith(l, "ActorLabel") && StartsWith(l, "Begin Object") then b + [l] else b
  }

  /** The k-th actor, created by the k-th "Begin Actor" line. */
  predicate CreatedBy(a: ActorV2, k: int, begins: seq<string>)
  {
    0 <= k < |begins| && a.index == k && a.name == ParseName(begins[k]) + "_" + IntToString(k)
  }

  /** An attached component has a mesh path. */
  predicate MeshOkV2(a: ActorV2, comps: seq<MeshV2>)
  {
    a.smc.Some? ==> a.smc.value < |comps| && comps[a.smc.value].meshPath != ""
  }

  /** The arenas hold one actor per "Begin Actor" line and one component per "Begin Object" line. */
  predicate Arenas(arena: seq<ActorV2>, comps: seq<MeshV2>, begins: seq<string>, objects: seq<string>)
  {
    |arena| == |begins| && |comps| == |objects| &&
    (forall k :: 0 <= k < |arena| ==> CreatedBy(arena[k], k, begins) && MeshOkV2(arena[k], comps)) &&
    (forall k :: 0 <= k < |comps| ==> comps[k].name == ParseName(objects[k]))
  }

  /** The loop invariant, for the "Begin Actor" and "Begin Object" lines read so far. */
  predicate InvV2(st: ReaderV2, begins: seq<string>, objects: seq<string>)
  {
    RefsV2(st) && st.idx == |begins| &&
    Arenas(st.arena, st.comps, begins, objects) &&
    st.actor == (if begins == [] then None else Some(|begins| - 1)) &&
    st.smc == (if objects == [] then None else Some(|objects| - 1)) &&
    (forall j :: 0 <= j < |st.kept| ==> st.arena[st.kept[j]].smc.Some?) &&
    (forall k :: 0 <= k < |begins| ==> ParseName(begins[k]) in st.labels)
  }

  lemma InvV2Start()
    ensures InvV2(StartV2, [], [])
  {
  }

  lemma InvV2BeginActor(st: ReaderV2, begins: seq<string>, objects: seq<string>, line: string)
    requires InvV2(st, begins, objects)
    ensures InvV2(BeginActorV2(st, line), begins + [line], objects)
  {
    var r := BeginActorV2(st, line);
    var nb := begins + [line];
    forall k | 0 <= k < |r.arena|
      ensures CreatedBy(r.arena[k], k, nb) && MeshOkV2(r.arena[k], r.comps)
    {
      if k < |st.arena| {
        assert r.arena[k] == st.arena[k] && nb[k] == begins[k];
      }
    }
    forall k | 0 <= k < |nb|
      ensures ParseName(nb[k]) in r.labels
    {
      if k < |begins| {
        assert nb[k] == begins[k];
      }
    }
  }

  lemma InvV2Label(st: ReaderV2, begins: seq<string>, objects: seq<string>, line: string)
    requires InvV2(st, begins, objects) && LabelV2(st, line).Ok?
    ensures InvV2(LabelV2(st, line).value, begins, objects)
  {
    var r := LabelV2(st, line).value;
    var a := st.actor.value;
    forall k | 0 <= k < |r.arena|
      ensures CreatedBy(r.arena[k], k, begins) && MeshOkV2(r.arena[k], r.comps)
    {
      if k != a {
        assert r.arena[k] == st.arena[k];
      }
    }
  }

  lemma InvV2BeginObject(st: ReaderV2, begins: seq<string>, objects: seq<string>, line: string)
    requires InvV2(st, begins, objects)
    ensures InvV2(st.(smc := Some(|st.comps|), comps := st.comps + [NewMeshV2(ParseName(line))]), begins, objects + [line])
  {
    var r := st.(smc := Some(|st.comps|), comps := st.comps + [NewMeshV2(ParseName(line))]);
    var no := objects + [line];
    forall k | 0 <= k < |r.arena|
      ensures CreatedBy(r.arena[k], k, begins) && MeshOkV2(r.arena[k], r.comps)
    {
      if st.arena[k].smc.Some? {
        assert r.comps[st.arena[k].smc.value] == st.comps[st.arena[k].smc.value];
      }
    }
    forall k | 0 <= k < |r.comps|
      ensures r.comps[k].name == ParseName(no[k])
    {
      if k < |st.comps| {
        assert r.comps[k] == st.comps[k] && no[k] == objects[k];
      }
    }
  }

  lemma InvV2EndObject(st: ReaderV2, begins: seq<string>, objects: seq<string>)
    requires InvV2(st, begins, objects) && EndObjectV2(st).Ok?
    ensures InvV2(EndObjectV2(st).value, begins, objects)
  {
    var r := EndObjectV2(st).value;
    if r != st {
      var a := st.actor.value;
      forall k | 0 <= k < |r.arena|
        ensures CreatedBy(r.arena[k], k, begins) && MeshOkV2(r.arena[k], r.comps)
      {
        if k != a {
          assert r.arena[k] == st.arena[k];
        }
      }
      forall j | 0 <= j < |r.kept|
        ensures r.arena[r.kept[j]].smc.Some?
      {
        if r.kept[j] != a {
          assert r.arena[r.kept[j]] == st.arena[r.kept[j]];
        }
      }
    }
  }

  lemma InvV2EndActor(st: ReaderV2, begins: seq<string>, objects: seq<string>)
    requires InvV2(st, begins, objects) && EndActorV2(st).Ok?
    ensures InvV2(EndActorV2(st).value, begins, objects)
  {
  }

  lemma InvV2Body(st: ReaderV2, begins: seq<string>, objects: seq<string>, line: string, vec: VecParser)
    requires InvV2(st, begins, objects) && BodyV2(st, line, vec).Ok?
    ensures InvV2(BodyV2(st, line, vec).value, begins, objects)
  {
    var r := BodyV2(st, line, vec).value;
    if st.smc.Some? {
      var c := st.smc.value;
      forall k | 0 <= k < |r.arena|
        ensures CreatedBy(r.arena[k], k, begins) && MeshOkV2(r.arena[k], r.comps)
      {
        assert CreatedBy(st.arena[k], k, begins) && MeshOkV2(st.arena[k], st.comps);
      }
      forall k | 0 <= k < |r.comps|
        ensures r.comps[k].name == ParseName(objects[k])
      {
        if k != c {
          assert r.comps[k] == st.comps[k];
        }
      }
    }
  }

  /** One line keeps the invariant; "Begin Actor" and "Begin Object" lines are counted. */
  lemma InvV2Step(st: ReaderV2, begins: seq<string>, objects: seq<string>, raw: string, vec: VecParser)
    requires InvV2(st, begins, objects) && StepV2(st, raw, vec).Ok?
    ensures var l := Strip(raw);
      var actorLine := StartsWith(l, "Begin Actor");
      var objectLine := !actorLine && !StartsWith(l, "ActorLabel") && StartsWith(l, "Begin Object");
      InvV2(StepV2(st, raw, vec).value,
            if actorLine then begins + [l] else begins,
            if objectLine then objects + [l] else objects)
  {
    var line := Strip(raw);
    if StartsWith(line, "Begin Actor") {
      InvV2BeginActor(st, begins, objects, line);
    } else if StartsWith(line, "ActorLabel") {
      InvV2Label(st, begins, objects, line);
    } else if StartsWith(line, "Begin Object") {
      InvV2BeginObject(st, begins, objects, line);
    } else if StartsWith(line, "End Object") {
      InvV2EndObject(st, begins, objects);
    } else if StartsWith(line, "End Actor") {
      InvV2EndActor(st, begins, objects);
    } else {
      InvV2Body(st, begins, objects, line, vec);
    }
  }

  lemma {:induction false} InvV2Run(lines: seq<string>, vec: VecParser)
    requires RunV2(lines, vec).Ok?
    ensures InvV2(RunV2(lines, vec).value, BeginLines(lines), BeginObjectLines(lines))
  {
    if lines == [] {
      InvV2Start();
    } else {
      var init := lines[..|lines| - 1];
      InvV2Run(init, vec);
      InvV2Step(RunV2(init, vec).value, BeginLines(init), BeginObjectLines(init), lines[|lines| - 1], vec);
    }
  }

  /**
   * After the lines, every "Begin Actor" line has created exactly one
   * actor, named `{name}_{k}` for the k-th such line, the last of them is
   * current, and every name is recorded; the current component is the one
   * of the last "Begin Object" line, or none before the first.
   */
  lemma RunV2Counts(lines: seq<string>, vec: VecParser, st: ReaderV2)
    requires RunV2(lines, vec) == Ok(st)
    ensures var bs := BeginLines(lines);
      st.idx == |bs| == |st.arena| &&
      (forall k :: 0 <= k < |bs| ==>
         st.arena[k].index == k && st.arena[k].name == ParseName(bs[k]) + "_" + IntToString(k) &&
         ParseName(bs[k]) in st.labels) &&
      st.actor == (if bs == [] then None else Some(|bs| - 1))
    ensures var os := BeginObjectLines(lines);
      |st.comps| == |os| && st.smc == (if os == [] then None else Some(|os| - 1)) &&
      forall k :: 0 <= k < |os| ==> st.comps[k].name == ParseName(os[k])
  {
    InvV2Run(lines, vec);
    InvV2Counts(st, BeginLines(lines), BeginObjectLines(lines));
  }

  lemma InvV2Counts(st: ReaderV2, bs: seq<string>, os: seq<string>)
    requires InvV2(st, bs, os)
    ensures st.idx == |bs| == |st.arena|
    ensures forall k :: 0 <= k < |bs| ==>
      st.arena[k].index == k && st.arena[k].name == ParseName(bs[k]) + "_" + IntToString(k) &&
      ParseName(bs[k]) in st.labels
    ensures st.actor == (if bs == [] then None else Some(|bs| - 1))
    ensures |st.comps| == |os| && st.smc == (if os == [] then None else Some(|os| - 1))
    ensures forall k :: 0 <= k < |os| ==> st.comps[k].name == ParseName(os[k])
  {
    forall k | 0 <= k < |bs|
      ensures st.arena[k].index == k && st.arena[k].name == ParseName(bs[k]) + "_" + IntToString(k)
    {
      assert CreatedBy(st.arena[k], k, bs);
    }
  }

  /**
   * Only a "Begin Object" line changes the current component; on any
   * other body line the current component, if any, reads the line.
   */
  lemma StepV2Smc(st: ReaderV2, raw: string, vec: VecParser)
    requires RefsV2(st) && StepV2(st, raw, vec).Ok?
    ensures var l := Strip(raw); var r := StepV2(st, raw, vec).value;
      (!StartsWith(l, "Begin Object") ==> r.smc == st.smc) &&
      (StartsWith(l, "Begin Object") && !StartsWith(l, "Begin Actor") && !StartsWith(l, "ActorLabel") ==>
         r.smc == Some(|st.comps|) && r.comps == st.comps + [NewMeshV2(ParseName(l))])
    ensures var l := Strip(raw); var r := StepV2(st, raw, vec).value;
      !StartsWith(l, "Begin Actor") && !StartsWith(l, "ActorLabel") && !StartsWith(l, "Begin Object") &&
      !StartsWith(l, "End Object") && !StartsWith(l, "End Actor") && st.smc.Some? ==>
        MeshReadLineV2(st.comps[st.smc.value], l, vec).Ok? &&
        r.comps == st.comps[st.smc.value := MeshReadLineV2(st.comps[st.smc.value], l, vec).value]
  {
    var l := Strip(raw);
    if StartsWith(l, "Begin Actor") {
      assert StepV2(st, raw, vec) == Ok(BeginActorV2(st, l));
    } else if StartsWith(l, "ActorLabel") {
      assert StepV2(st, raw, vec) == LabelV2(st, l);
    } else {
      assert StepV2(st, raw, vec) == ObjectLineV2(st, l, vec);
      ObjectLineSmc(st, l, vec);
    }
  }

  /** StepV2Smc for the lines past the two actor tests, already stripped. */
  lemma ObjectLineSmc(st: ReaderV2, l: string, vec: VecParser)
    requires RefsV2(st) && ObjectLineV2(st, l, vec).Ok?
    ensures var r := ObjectLineV2(st, l, vec).value;
      (!StartsWith(l, "Begin Object") ==> r.smc == st.smc) &&
      (StartsWith(l, "Begin Object") ==> r.smc == Some(|st.comps|) && r.comps == st.comps + [NewMeshV2(ParseName(l))])
    ensures var r := ObjectLineV2(st, l, vec).value;
      !StartsWith(l, "Begin Object") && !StartsWith(l, "End Object") && !StartsWith(l, "End Actor") && st.smc.Some? ==>
        MeshReadLineV2(st.comps[st.smc.value], l, vec).Ok? &&
        r.comps == st.comps[st.smc.value := MeshReadLineV2(st.comps[st.smc.value], l, vec).value]
  {
    if StartsWith(l, "Begin Object") {
    } else if StartsWith(l, "End Object") {
      assert ObjectLineV2(st, l, vec) == EndObjectV2(st);
    } else if StartsWith(l, "End Actor") {
      assert ObjectLineV2(st, l, vec) == EndActorV2(st);
    } else {
      assert ObjectLineV2(st, l, vec) == BodyV2(st, l, vec);
    }
  }

  /**
   * The actors of a level read without failure: each has a component
   * with a mesh path and is named `{name}_{index}` after the
   * "Begin Actor" line with that index.
   */
  lemma LevelV2Actors(fileName: string, lines: seq<string>, vec: VecParser)
    requires LevelV2Of(fileName, lines, vec).Ok?
    ensures var l := LevelV2Of(fileName, lines, vec).value; var bs := BeginLines(lines);
      forall j :: 0 <= j < |l.actors| ==>
        l.actors[j].smc.Some? && l.actors[j].smc.value < |l.comps| &&
        l.comps[l.actors[j].smc.value].meshPath != "" &&
        0 <= l.actors[j].index < |bs| &&
        l.actors[j].name == ParseName(bs[l.actors[j].index]) + "_" + IntToString(l.actors[j].index)
  {
    InvV2Run(lines, vec);
    var st := RunV2(lines, vec).value;
    var bs := BeginLines(lines);
    var acts := Returned(st);
    forall j | 0 <= j < |acts|
      ensures acts[j].smc.Some? && acts[j].smc.value < |st.comps| && st.comps[acts[j].smc.value].meshPath != "" &&
        0 <= acts[j].index < |bs| && acts[j].name == ParseName(bs[acts[j].index]) + "_" + IntToString(acts[j].index)
    {
      var k := st.kept[j];
      assert acts[j] == st.arena[k];
      assert CreatedBy(st.arena[k], k, bs) && MeshOkV2(st.arena[k], st.comps);
    }
  }

  /**
   * The same actor returned twice: right after an actor is returned it
   * is still current, so a label line and another "End Actor" line give
   * it a fresh label and return it again.
   */
  lemma KeptTwiceV2(lines: seq<string>, vec: VecParser, st: ReaderV2, lbl: string)
    requires RunV2(lines, vec) == Ok(st)
    requires st.actor.Some? && st.kept != [] && st.kept[|st.kept| - 1] == st.actor.value && lbl !in st.labels
    requires lbl != [] && '=' !in lbl && '"' !in lbl && !IsSpace(lbl[|lbl| - 1])
    ensures var more := RunV2(lines + ["ActorLabel=" + lbl] + ["End Actor"], vec);
      more.Ok? && more.value.kept == st.kept + [st.actor.value] &&
      Returned(more.value)[|st.kept| - 1] == Returned(more.value)[|st.kept|]
  {
    InvV2Run(lines, vec);
    assert RefsV2(st) && st.arena[st.kept[|st.kept| - 1]].smc.Some?;
    var l1 := "ActorLabel=" + lbl;
    ReturnedTwice(st, lbl, vec);
    RunV2Snoc(lines, l1, vec);
    RunV2Snoc(lines + [l1], "End Actor", vec);
  }

  /** The two lines of `KeptTwiceV2` on a state whose current actor was just returned. */
  lemma ReturnedTwice(st: ReaderV2, lbl: string, vec: VecParser)
    requires RefsV2(st) && st.actor.Some? && st.kept != [] && st.kept[|st.kept| - 1] == st.actor.value
    requires st.arena[st.actor.value].smc.Some? && lbl !in st.labels
    requires lbl != [] && '=' !in lbl && '"' !in lbl && !IsSpace(lbl[|lbl| - 1])
    ensures StepV2(st, "ActorLabel=" + lbl, vec).Ok?
    ensures var s1 := StepV2(st, "ActorLabel=" + lbl, vec).value;
      var s2 := StepV2(s1, "End Actor", vec);
      s2.Ok? && s2.value.kept == st.kept + [st.actor.value] &&
      Returned(s2.value)[|st.kept| - 1] == Returned(s2.value)[|st.kept|]
  {
    var a := st.actor.value;
    LabelLine(st, lbl, vec);
    var s1 := st.(arena := st.arena[a := st.arena[a].(actorLabel := lbl)]);
    assert s1.arena[a].smc.Some?;
    EndActorLine(s1, vec);
    var s2 := s1.(kept := s1.kept + [a], labels := s1.labels + [lbl]);
    assert Returned(s2)[|st.kept| - 1] == s2.arena[a];
    assert Returned(s2)[|st.kept|] == s2.arena[a];
  }

  /** One more line is one more step. */
  lemma RunV2Snoc(lines: seq<string>, l: string, vec: VecParser)
    requires RunV2(lines, vec).Ok?
    ensures RunV2(lines + [l], vec) == StepV2(RunV2(lines, vec).value, l, vec)
  {
    assert (lines + [l])[..|lines|] == lines;
  }

  /** `ActorLabel=lbl` sets the label of the current actor to lbl. */
  lemma LabelLine(st: ReaderV2, lbl: string, vec: VecParser)
    requires RefsV2(st) && st.actor.Some?
    requires lbl != [] && '=' !in lbl && '"' !in lbl && !IsSpace(lbl[|lbl| - 1])
    ensures StepV2(st, "ActorLabel=" + lbl, vec) ==
      Ok(st.(arena := st.arena[st.actor.value := st.arena[st.actor.value].(actorLabel := lbl)]))
  {
    LabelText(lbl);
  }

  /** The line `ActorLabel=lbl` is stripped already, is a label line and carries lbl. */
  lemma LabelText(lbl: string)
    requires lbl != [] && '=' !in lbl && '"' !in lbl && !IsSpace(lbl[|lbl| - 1])
    ensures var l1 := "ActorLabel=" + lbl;
      Strip(l1) == l1 && !StartsWith(l1, "Begin Actor") && StartsWith(l1, "ActorLabel") && ValueText(l1) == Ok(lbl)
  {
    LabelStripped(lbl);
    LabelKind(lbl);
    LabelValue(lbl);
  }

  lemma LabelStripped(lbl: string)
    requires lbl != [] && !IsSpace(lbl[|lbl| - 1])
    ensures Strip("ActorLabel=" + lbl) == "ActorLabel=" + lbl
  {
    var l1 := "ActorLabel=" + lbl;
    assert l1[0] == 'A' && l1[|l1| - 1] == lbl[|lbl| - 1];
    StripUnchanged(l1);
  }

  lemma LabelKind(lbl: string)
    ensures !StartsWith("ActorLabel=" + lbl, "Begin Actor") && StartsWith("ActorLabel=" + lbl, "ActorLabel")
  {
    var l1 := "ActorLabel=" + lbl;
    assert l1[0] != "Begin Actor"[0];
    assert l1[..10] == "ActorLabel";
  }

  lemma LabelValue(lbl: string)
    requires '=' !in lbl && '"' !in lbl
    ensures ValueText("ActorLabel=" + lbl) == Ok(lbl)
  {
    ValueTextAt("ActorLabel", lbl);
    NoCharUnchanged(lbl, '"');
    assert "ActorLabel" + "=" + lbl == "ActorLabel=" + lbl;
  }

  /** "End Actor" returns the current actor when it has a component and an unseen label. */
  lemma EndActorLine(st: ReaderV2, vec: VecParser)
    requires RefsV2(st) && st.actor.Some?
    requires st.arena[st.actor.value].smc.Some? && st.arena[st.actor.value].actorLabel !in st.labels
    ensures StepV2(st, "End Actor", vec) ==
      Ok(st.(kept := st.kept + [st.actor.value], labels := st.labels + [st.arena[st.actor.value].actorLabel]))
  {
    StripUnchanged("End Actor");
  }
}
