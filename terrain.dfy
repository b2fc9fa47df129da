/**
 * `Terrain.__init__` and the line-grouping loop of `Terrain.read_from`
 * (lib/map.py; tera_map_importer_v2.py has the same two): a line that
 * does not start with a tab starts a new terrain named by the line, and
 * a tab line sets the absolute location or scale of the current one.
 * The vector parser is a parameter, since the two importers differ there.
 */
module Terrains {
  import opened Wrappers
  import opened PyStr
  import opened MapLevel

  /** A terrain; its absolute transform is unset until a tab line sets it. */
  datatype Terrain = Terrain(mapName: string, name: string, absLocation: Option<Vector>, absScale: Option<Vector>)

  /**
   * `Terrain(line)`: the text before "_Terrain" is the map and the text
   * after its underscore the name. When "_Terrain" is absent `find` gives
   * -1, so the map is the line without its last character and the name
   * the whole line.
   */
  const TerrainKey := "_Terrain"

  function NewTerrain(line: string): (r: Terrain)
    ensures r.absLocation.None? && r.absScale.None?
  {
    var i := Find(line, TerrainKey);
    Terrain(Slice(line, 0, i), SliceFrom(line, i + 1), None, None)
  }

  /** Without "_Terrain" the name is the whole line and the map drops its last character. */
  lemma NewTerrainMissing(line: string)
    requires !Contains(line, TerrainKey)
    ensures NewTerrain(line).name == line
    ensures line != [] ==> NewTerrain(line).mapName == line[..|line| - 1]
  {
  }

  /** With "_Terrain" at its first occurrence i, the map is the text before i and the name the text after the underscore. */
  lemma NewTerrainParts(line: string)
    requires Contains(line, TerrainKey)
    ensures var i := Find(line, TerrainKey);
      NewTerrain(line).mapName == line[..i] && NewTerrain(line).name == line[i + 1..] &&
      At(line, TerrainKey, i) && forall j :: 0 <= j < i ==> !At(line, TerrainKey, j)
  {
    FindFirst(line, TerrainKey);
  }

  /** Cutting out the underscore at i and putting it back gives the line. */
  lemma CutAt(line: string, i: nat)
    requires i < |line| && line[i] == '_'
    ensures line[..i] + "_" + line[i + 1..] == line
  {
    assert line[..i] + "_" + line[i + 1..] == line[..i] + line[i..i + 1] + line[i + 1..];
  }

  /** A prefix that ends before the first occurrence holds none. */
  lemma NoneBefore(line: string, i: nat)
    requires i <= |line| && forall j :: 0 <= j < i ==> !At(line, TerrainKey, j)
    ensures !Contains(line[..i], TerrainKey)
  {
    var m := line[..i];
    if Contains(m, TerrainKey) {
      FindFirst(m, TerrainKey);
      var j := Find(m, TerrainKey);
      assert line[j..j + |TerrainKey|] == m[j..j + |TerrainKey|];
      assert At(line, TerrainKey, j);
    }
  }

  /**
   * When "_Terrain" occurs, the map and the name split the line at its
   * first occurrence: map + "_" + name is the line, the name starts with
   * "Terrain" and the map holds no "_Terrain".
   */
  lemma NewTerrainSplit(line: string)
    requires Contains(line, TerrainKey)
    ensures NewTerrain(line).mapName + "_" + NewTerrain(line).name == line
    ensures StartsWith(NewTerrain(line).name, "Terrain")
    ensures !Contains(NewTerrain(line).mapName, TerrainKey)
  {
    NewTerrainParts(line);
    var i := Find(line, TerrainKey);
    assert line[i..i + 8] == TerrainKey;
    assert line[i] == '_';
    CutAt(line, i);
    KeyTail(line, i);
    NoneBefore(line, i);
  }

  /** After the underscore of "_Terrain" comes "Terrain". */
  lemma KeyTail(line: string, i: nat)
    requires At(line, TerrainKey, i)
    ensures StartsWith(line[i + 1..], "Terrain")
  {
    assert line[i..i + 8] == TerrainKey;
    assert line[i + 1..][..7] == line[i + 1..i + 8] == TerrainKey[1..];
  }

  /** The state of the loop: the terrains appended so far and the current one. */
  datatype Grouping = Grouping(done: seq<Terrain>, current: Option<Terrain>)

  const AttrLocation := "AttributeError: 'NoneType' object has no attribute 'abs_location'"
  const AttrScale := "AttributeError: 'NoneType' object has no attribute 'abs_scale'"

  /** The text of a tab line as the loop reads it: stripped, ": " turned into "=". */
  function TabText(raw: string): string
  {
    Replace(Strip(raw), ": ", "=")
  }

  /**
   * A tab line: "Location" sets the location, otherwise "Scale" the
   * scale. The vector is parsed before the attribute is set, so a parse
   * failure comes first and a missing current terrain second.
   */
  function TabLine(cur: Option<Terrain>, raw: string, vec: VecParser): (r: Result<Option<Terrain>, string>)
    ensures r.Ok? && cur.None? ==> r.value.None?
    ensures r.Ok? && cur.Some? ==> r.value.Some? && r.value.value.mapName == cur.value.mapName && r.value.value.name == cur.value.name
    ensures cur.None? && (Contains(TabText(raw), "Location") || Contains(TabText(raw), "Scale")) ==> r.Failure?
    ensures !Contains(TabText(raw), "Location") && !Contains(TabText(raw), "Scale") ==> r == Ok(cur)
    ensures r.Ok? && cur.Some? && Contains(TabText(raw), "Location") ==>
      vec(TabText(raw), "Location").Ok? &&
      r.value.value.absLocation == Some(vec(TabText(raw), "Location").value) && r.value.value.absScale == cur.value.absScale
    ensures r.Ok? && cur.Some? && !Contains(TabText(raw), "Location") && Contains(TabText(raw), "Scale") ==>
      vec(TabText(raw), "Scale").Ok? &&
      r.value.value.absScale == Some(vec(TabText(raw), "Scale").value) && r.value.value.absLocation == cur.value.absLocation
    ensures Contains(TabText(raw), "Location") ==>
      (r.Ok? <==> cur.Some? && vec(TabText(raw), "Location").Ok?)
    ensures !Contains(TabText(raw), "Location") && Contains(TabText(raw), "Scale") ==>
      (r.Ok? <==> cur.Some? && vec(TabText(raw), "Scale").Ok?)
  {
    var line := TabText(raw);
    if Contains(line, "Location") then
      var v := vec(line, "Location");
      if v.Failure? then Failure(v.error)
      else if cur.None? then Failure(AttrLocation)
      else Ok(Some(cur.value.(absLocation := Some(v.value))))
    else if Contains(line, "Scale") then
      var v := vec(line, "Scale");
      if v.Failure? then Failure(v.error)
      else if cur.None? then Failure(AttrScale)
      else Ok(Some(cur.value.(absScale := Some(v.value))))
    else Ok(cur)
  }

  /** A terrain, if there is one, as the list `ret.append` would add it to. */
  function Flush(cur: Option<Terrain>): seq<Terrain>
  {
    if cur.Some? then [cur.value] else []
  }

  /** One line of the loop: a tab line edits, any other line starts a new terrain. */
  function GroupStep(g: Grouping, raw: string, vec: VecParser): Result<Grouping, string>
  {
    if StartsWith(raw, "\t") then
      var c := TabLine(g.current, raw, vec);
      if c.Failure? then Failure(c.error) else Ok(g.(current := c.value))
    else Ok(Grouping(g.done + Flush(g.current), Some(NewTerrain(Strip(raw)))))
  }

  /** The loop state after the lines, or the first failure. */
  function GroupRun(lines: seq<string>, vec: VecParser): Result<Grouping, string>
  {
    if lines == [] then Ok(Grouping([], None))
    else
      var prev := GroupRun(lines[..|lines| - 1], vec);
      if prev.Failure? then prev else GroupStep(prev.value, lines[|lines| - 1], vec)
  }

  /** The terrains of the file, the last one included; none when the file does not exist. */
  function TerrainsOf(fileExists: bool, lines: seq<string>, vec: VecParser): (r: Result<seq<Terrain>, string>)
    ensures !fileExists ==> r == Ok([])
    ensures fileExists ==> (r.Ok? <==> GroupRun(lines, vec).Ok?)
  {
    if !fileExists then Ok([])
    else
      var g := GroupRun(lines, vec);
      if g.Failure? then Failure(g.error) else Ok(g.value.done + Flush(g.value.current))
  }

  /** One more line is one more step. */
  lemma GroupNext(lines: seq<string>, i: nat, vec: VecParser)
    requires i < |lines| && GroupRun(lines[..i], vec).Ok?
    ensures GroupRun(lines[..i + 1], vec) == GroupStep(GroupRun(lines[..i], vec).value, lines[i], vec)
  {
    assert lines[..i + 1][..i] == lines[..i];
  }

  /** A failure on a prefix of the lines is the failure of all of them. */
  lemma {:induction false} GroupFails(lines: seq<string>, j: nat, vec: VecParser)
    requires j <= |lines| && GroupRun(lines[..j], vec).Failure?
    ensures GroupRun(lines, vec) == GroupRun(lines[..j], vec)
    decreases |lines|
  {
    if j < |lines| {
      var init := lines[..|lines| - 1];
      assert init[..j] == lines[..j];
      GroupFails(init, j, vec);
    } else {
      assert lines[..j] == lines;
    }
  }

  /** The loop of `Terrain.read_from`, then the last terrain appended. */
  method ReadTerrains(fileExists: bool, lines: seq<string>, vec: VecParser) returns (r: Result<seq<Terrain>, string>)
    ensures r == TerrainsOf(fileExists, lines, vec)
  {
    if !fileExists {
      return Ok([]);
    }
    var ret: seq<Terrain> := [];
    var current: Option<Terrain> := None;
    var i := 0;
    while i < |lines|
      invariant 0 <= i <= |lines|
      invariant GroupRun(lines[..i], vec) == Ok(Grouping(ret, current))
    {
      GroupNext(lines, i, vec);
      var step := ReadTerrainLine(Grouping(ret, current), lines[i], vec);
      if step.Failure? {
        GroupFails(lines, i + 1, vec);
        return Failure(step.error);
      }
      ret, current := step.value.done, step.value.current;
      i := i + 1;
    }
    assert lines[..|lines|] == lines;
    return Ok(ret + Flush(current));
  }

  /** The body of the loop over the lines of the file. */
  method ReadTerrainLine(g: Grouping, line: string, vec: VecParser) returns (r: Result<Grouping, string>)
    ensures r == GroupStep(g, line, vec)
  {
    var ret, current := g.done, g.current;
    if StartsWith(line, "\t") {
      var c := TabLine(current, line, vec);
      if c.Failure? {
        return Failure(c.error);
      }
      current := c.value;
    } else {
      ret := ret + Flush(current);
      current := Some(NewTerrain(Strip(line)));
    }
    r := Ok(Grouping(ret, current));
  }

  /** The lines that start a terrain: those without a leading tab. */
  function Headers(lines: seq<string>): (r: seq<string>)
    ensures |r| <= |lines|
  {
    if lines == [] then []
    else
      var h := Headers(lines[..|lines| - 1]);
      var l := lines[|lines| - 1];
      if StartsWith(l, "\t") then h else h + [l]
  }

  /** The terrain each header line starts, in order. */
  function Starts(lines: seq<string>): (r: seq<Terrain>)
    ensures |r| == |Headers(lines)|
    ensures forall k :: 0 <= k < |r| ==> r[k] == NewTerrain(Strip(Headers(lines)[k]))
  {
    if lines == [] then []
    else
      var s := Starts(lines[..|lines| - 1]);
      var l := lines[|lines| - 1];
      if StartsWith(l, "\t") then s else s + [NewTerrain(Strip(l))]
  }

  /** The terrain keeps the map and name of the terrain it started as. */
  predicate StartedAs(t: Terrain, start: Terrain)
  {
    t.mapName == start.mapName && t.name == start.name
  }

  /** The terrains so far, the current one last, match the started ones, in order. */
  predicate Grouped(g: Grouping, starts: seq<Terrain>)
  {
    |g.done| + |Flush(g.current)| == |starts| && (g.current.Some? <==> starts != []) &&
    (forall k :: 0 <= k < |g.done| ==> StartedAs(g.done[k], starts[k])) &&
    (g.current.Some? ==> StartedAs(g.current.value, starts[|starts| - 1]))
  }

  /** A tab line keeps the grouping: it changes neither the map nor the name. */
  lemma GroupedTab(g: Grouping, starts: seq<Terrain>, c: Option<Terrain>)
    requires Grouped(g, starts)
    requires c.Some? <==> g.current.Some?
    requires c.Some? ==> c.value.mapName == g.current.value.mapName && c.value.name == g.current.value.name
    ensures Grouped(g.(current := c), starts)
  {
  }

  /** A header line appends the current terrain and starts a new one. */
  lemma GroupedHeader(g: Grouping, starts: seq<Terrain>, t: Terrain)
    requires Grouped(g, starts)
    ensures Grouped(Grouping(g.done + Flush(g.current), Some(t)), starts + [t])
  {
    var n := Grouping(g.done + Flush(g.current), Some(t));
    var ns := starts + [t];
    forall k | 0 <= k < |n.done|
      ensures StartedAs(n.done[k], ns[k])
    {
      if k < |g.done| {
        assert n.done[k] == g.done[k] && ns[k] == starts[k];
      } else {
        assert n.done[k] == g.current.value && ns[k] == starts[|starts| - 1];
      }
    }
  }

  lemma {:induction false} GroupedRun(lines: seq<string>, vec: VecParser)
    requires GroupRun(lines, vec).Ok?
    ensures Grouped(GroupRun(lines, vec).value, Starts(lines))
  {
    if lines != [] {
      var init := lines[..|lines| - 1];
      var raw := lines[|lines| - 1];
      GroupedRun(init, vec);
      var g := GroupRun(init, vec).value;
      if StartsWith(raw, "\t") {
        GroupedTab(g, Starts(init), TabLine(g.current, raw, vec).value);
      } else {
        GroupedHeader(g, Starts(init), NewTerrain(Strip(raw)));
      }
    }
  }

  /**
   * Every header line gives exactly one terrain, the last one included,
   * in the order of the lines, with the map and name split from the
   * stripped header.
   */
  lemma TerrainsFromHeaders(lines: seq<string>, vec: VecParser)
    requires TerrainsOf(true, lines, vec).Ok?
    ensures var ts := TerrainsOf(true, lines, vec).value;
      |ts| == |Headers(lines)| &&
      forall k :: 0 <= k < |ts| ==> StartedAs(ts[k], NewTerrain(Strip(Headers(lines)[k])))
  {
    GroupedRun(lines, vec);
    var g := GroupRun(lines, vec).value;
    GroupedAll(g, Starts(lines));
  }

  /** The current terrain appended last, the grouping is the started terrains, in order. */
  lemma GroupedAll(g: Grouping, starts: seq<Terrain>)
    requires Grouped(g, starts)
    ensures |g.done + Flush(g.current)| == |starts|
    ensures forall k :: 0 <= k < |starts| ==> StartedAs((g.done + Flush(g.current))[k], starts[k])
  {
    var ts := g.done + Flush(g.current);
    forall k | 0 <= k < |ts|
      ensures StartedAs(ts[k], starts[k])
    {
      if k < |g.done| {
        assert ts[k] == g.done[k];
      }
    }
  }

  /** Before any header there is no current terrain. */
  lemma NoHeaderNoCurrent(lines: seq<string>, vec: VecParser)
    requires GroupRun(lines, vec).Ok? && Headers(lines) == []
    ensures GroupRun(lines, vec).value.current.None?
  {
    GroupedRun(lines, vec);
  }

  /**
   * A tab line setting a location or a scale before any header line
   * fails, whatever follows: there is no terrain to set it on.
   */
  lemma OrphanTabLine(lines: seq<string>, j: nat, vec: VecParser)
    requires j < |lines| && Headers(lines[..j]) == [] && StartsWith(lines[j], "\t")
    requires Contains(TabText(lines[j]), "Location") || Contains(TabText(lines[j]), "Scale")
    ensures TerrainsOf(true, lines, vec).Failure?
  {
    if GroupRun(lines[..j], vec).Ok? {
      NoHeaderNoCurrent(lines[..j], vec);
      GroupNext(lines, j, vec);
    }
    if GroupRun(lines[..j], vec).Ok? {
      assert GroupRun(lines[..j + 1], vec).Failure?;
      GroupFails(lines, j + 1, vec);
    } else {
      GroupFails(lines, j, vec);
    }
  }
}
