/**
 * The helpers that pick fields out of a line of an Unreal T3D scene
 * export: the object name, the actor class, a vector such as
 * `RelativeLocation=(X=1.0,Y=2.0,Z=3.0)` and a static-mesh asset path.
 * `float()` is the parameter `flt`, which the model leaves abstract.
 */
module T3D {

  import opened Wrappers
  import opened PyStr

  /** `line[line.find("Name=") + 5 : -1].replace('"', "")`. */
  function ParseName(line: string): (r: string)
    ensures '"' !in r
  {
    var s := Slice(line, Find(line, "Name=") + 5, -1);
    ReplaceCharByNothing(s, '"');
    Replace(s, "\"", "")
  }

  /**
   * `find` of a key that ends in its only '=' is the first place after a
   * prefix without '='.
   */
  lemma FindKey(a: string, key: string, rest: string)
    requires |key| > 0 && key[|key| - 1] == '=' && '=' !in key[..|key| - 1] && '=' !in a
    ensures Find(a + key + rest, key) == |a|
  {
    var line := a + key + rest;
    var e := |key| - 1;
    assert line[|a|..|a| + |key|] == key;
    forall j | 0 <= j < |a| ensures !At(line, key, j) {
      if j + e < |a| {
        assert line[j + e] == a[j + e];
      } else {
        assert line[j + e] == key[..e][j + e - |a|];
      }
      if j + |key| <= |line| {
        assert line[j..j + |key|][e] == line[j + e];
      }
    }
    FindIs(line, key, |a|);
  }

  /** The name of a line whose first "Name=" ends the text a: what comes after it, less the last character and the quotes. */
  lemma ParseNameAt(a: string, b: string, c: char)
    requires Find(a + "Name=" + b + [c], "Name=") == |a|
    ensures ParseName(a + "Name=" + b + [c]) == RemoveChar(b, '"')
  {
    var line := a + "Name=" + b + [c];
    assert line == a + "Name=" + (b + [c]);
    assert line[|a| + 5..|line| - 1] == b;
    ReplaceCharByNothing(b, '"');
  }

  /** Without "Name=", `find` gives -1 and the name is taken from index 4. */
  lemma ParseNameMissing(line: string)
    requires !Contains(line, "Name=")
    ensures ParseName(line) == RemoveChar(Slice(line, 4, -1), '"')
  {
    ReplaceCharByNothing(Slice(line, 4, -1), '"');
  }

  /** The engine package prefix that `parse_class` removes from a class. */
  const EnginePrefix := "Class=/Script/Engine."

  /** The prefix is "Class=" followed by text without '='. */
  lemma EnginePrefixShape()
    ensures |EnginePrefix| == 21 && EnginePrefix[5] == '='
    ensures EnginePrefix == "Class=" + EnginePrefix[6..] && '=' !in EnginePrefix[6..]
  {
    assert EnginePrefix[..6] == "Class=";
  }

  /**
   * The class between "Class=" and "Name=", less the engine prefix and
   * stripped; "" when the line has no "Class=".
   */
  function ParseClass(line: string): (r: string)
    ensures !Contains(line, "Class=") ==> r == ""
    ensures r != [] ==> !IsSpace(r[0]) && !IsSpace(r[|r| - 1])
  {
    var ci := Find(line, "Class=");
    if ci == -1 then ""
    else Strip(Replace(Slice(line, ci, Find(line, "Name=")), EnginePrefix, ""))
  }

  /** A string without some character of pat does not contain pat. */
  lemma NotContains(s: string, pat: string, k: int)
    requires 0 <= k < |pat| && pat[k] !in s
    ensures !Contains(s, pat)
  {
    forall i | 0 <= i ensures !At(s, pat, i) {
      if i + |pat| <= |s| {
        assert s[i..i + |pat|][k] == s[i + k];
        assert s[i + k] in s;
      }
    }
    FindFirst(s, pat);
  }

  /** The first "Class=" of a line whose class follows text without '='. */
  lemma FindClassKey(a: string, r: string)
    requires '=' !in a
    ensures Find(a + EnginePrefix + r, "Class=") == |a|
  {
    EnginePrefixShape();
    var t := EnginePrefix[6..];
    assert a + EnginePrefix + r == a + "Class=" + (t + r);
    FindKey(a, "Class=", t + r);
  }

  /** The "Name=" of an actor line comes after its class. */
  lemma FindNameAfterClass(a: string, c: string, b: string)
    requires '=' !in a && '=' !in c
    ensures var pre := a + EnginePrefix + c + " ";
      Find(pre + "Name=" + b, "Name=") == |pre|
  {
    EnginePrefixShape();
    var pre := a + EnginePrefix + c + " ";
    var line := pre + "Name=" + b;
    var t := pre + "Name=";
    assert line[|pre|..|pre| + 5] == "Name=";
    forall j | 0 <= j < |pre| ensures !At(line, "Name=", j) {
      if j + 4 < |a| {
        assert t[j + 4] == a[j + 4];
      } else if j + 4 < |a| + 21 {
        assert t[j + 4] == EnginePrefix[j + 4 - |a|];
        if j >= |a| {
          assert t[j] == EnginePrefix[j - |a|];
        }
      } else if j + 4 < |a| + 21 + |c| {
        assert t[j + 4] == c[j + 4 - |a| - 21];
      } else if j + 4 == |pre| - 1 {
        assert t[j + 4] == ' ';
      } else {
        assert t[j + 4] == "Name="[j + 4 - |pre|];
      }
      assert line[j..j + 5][0] == t[j] && line[j..j + 5][4] == t[j + 4];
    }
    FindIs(line, "Name=", |pre|);
  }

  /**
   * The name of an actor or object line `... Class=/Script/Engine.C Name=N`
   * followed by one last character: N without quotes.
   */
  lemma ParseNameActorLine(a: string, c: string, b: string, ch: char)
    requires '=' !in a && '=' !in c
    ensures ParseName(a + EnginePrefix + c + " Name=" + b + [ch]) == RemoveChar(b, '"')
  {
    var pre := a + EnginePrefix + c + " ";
    FindNameAfterClass(a, c, b + [ch]);
    assert pre + "Name=" + (b + [ch]) == pre + "Name=" + b + [ch];
    assert a + EnginePrefix + c + " Name=" + b + [ch] == pre + "Name=" + b + [ch];
    ParseNameAt(pre, b, ch);
  }

  /** The span from "Class=" to "Name=" of an actor line. */
  lemma ClassSpan(a: string, c: string, b: string)
    ensures var pre := a + EnginePrefix + c + " ";
      var line := a + EnginePrefix + c + " Name=" + b;
      line == pre + "Name=" + b && Slice(line, |a|, |pre|) == EnginePrefix + (c + " ")
  {
    var pre := a + EnginePrefix + c + " ";
    var line := a + EnginePrefix + c + " Name=" + b;
    assert line == pre + "Name=" + b;
    assert line[|a|..|pre|] == EnginePrefix + (c + " ");
  }

  /**
   * The class of an actor line `... Class=/Script/Engine.C Name=...`, for
   * a class C without '=' and without white space at its ends, is C.
   */
  lemma ParseClassAt(a: string, c: string, b: string)
    requires '=' !in a && '=' !in c
    requires c != [] ==> !IsSpace(c[0]) && !IsSpace(c[|c| - 1])
    ensures ParseClass(a + EnginePrefix + c + " Name=" + b) == c
  {
    ClassSpan(a, c, b);
    FindClassKey(a, c + " Name=" + b);
    assert a + EnginePrefix + c + " Name=" + b == a + EnginePrefix + (c + " Name=" + b);
    FindNameAfterClass(a, c, b);
    ClassFromSpan(a + EnginePrefix + c + " Name=" + b, |a|, |a + EnginePrefix + c + " "|, c);
  }

  /** The class read from its span `Class=/Script/Engine.C `. */
  lemma ClassFromSpan(line: string, ci: int, ni: int, c: string)
    requires Find(line, "Class=") == ci != -1 && Find(line, "Name=") == ni
    requires Slice(line, ci, ni) == EnginePrefix + (c + " ")
    requires '=' !in c && (c != [] ==> !IsSpace(c[0]) && !IsSpace(c[|c| - 1]))
    ensures ParseClass(line) == c
  {
    EnginePrefixShape();
    NotContains(c + " ", EnginePrefix, 5);
    ReplaceAtStart(EnginePrefix, c + " ", "");
    assert [] + (c + " ") == c + " ";
    StripTrailingBlank(c);
  }

  // ---------------------------------------------------------------------
  // Vectors
  // ---------------------------------------------------------------------

  /** The comma-separated parts: `name=` dropped when a name is given, then every '(' and ')'. */
  function VectorParts(line: string, name: string): (parts: seq<string>)
    ensures |parts| >= 1
  {
    var l := if name != "" then Replace(line, name + "=", "") else line;
    Split(Replace(Replace(l, "(", ""), ")", ""), ",")
  }

  /** `float(part.split("=")[1])` for each part, in order; a part without '=' raises IndexError. */
  function Values(parts: seq<string>, flt: string -> real): (r: Result<seq<real>, string>)
    ensures r.Ok? <==> forall k :: 0 <= k < |parts| ==> |Split(parts[k], "=")| >= 2
    ensures r.Ok? ==> |r.value| == |parts|
    ensures r.Ok? ==> forall k :: 0 <= k < |parts| ==> r.value[k] == flt(Split(parts[k], "=")[1])
  {
    if parts == [] then Ok([])
    else
      var init := Values(parts[..|parts| - 1], flt);
      var fields := Split(parts[|parts| - 1], "=");
      if init.Failure? then init
      else if |fields| < 2 then Failure("IndexError: list index out of range")
      else Ok(init.value + [flt(fields[1])])
  }

  /** `T3DUtils.parse_vector(line, name)`. */
  function ParseVector(line: string, name: string, flt: string -> real): Result<seq<real>, string>
  {
    Values(VectorParts(line, name), flt)
  }

  /** Text free of the characters that delimit a vector. */
  predicate Plain(s: string)
  {
    forall i :: 0 <= i < |s| ==> s[i] != '(' && s[i] != ')' && s[i] != ',' && s[i] != '='
  }

  /** `key=value` for each component. */
  function Pairs(keys: seq<string>, vals: seq<string>): (ps: seq<string>)
    requires |keys| == |vals|
    ensures |ps| == |keys|
  {
    seq(|keys|, k requires 0 <= k < |keys| => keys[k] + "=" + vals[k])
  }

  /** A vector as the exporter writes it: `(X=1.0,Y=2.0,Z=3.0)`. */
  function Format(keys: seq<string>, vals: seq<string>): string
    requires |keys| == |vals| >= 1
  {
    "(" + Join(Pairs(keys, vals), ",") + ")"
  }

  /** The values `flt` gives for the texts, in order. */
  function Floats(vals: seq<string>, flt: string -> real): (r: seq<real>)
    ensures |r| == |vals|
  {
    seq(|vals|, k requires 0 <= k < |vals| => flt(vals[k]))
  }

  lemma PlainHas(s: string, ch: char)
    requires Plain(s) && ch in s
    ensures ch != '(' && ch != ')' && ch != ',' && ch != '='
  {
    var i :| 0 <= i < |s| && s[i] == ch;
  }

  /** A character of the joined pairs is one of the plain texts, '=' or ','. */
  lemma PairsChar(keys: seq<string>, vals: seq<string>, ch: char)
    requires |keys| == |vals| >= 1
    requires forall k :: 0 <= k < |keys| ==> Plain(keys[k]) && Plain(vals[k])
    requires ch in Join(Pairs(keys, vals), ",")
    ensures ch != '(' && ch != ')'
  {
    var ps := Pairs(keys, vals);
    JoinChars(ps, ",", ch);
    if ch !in "," {
      var k :| 0 <= k < |ps| && ch in ps[k];
      assert ps[k] == keys[k] + "=" + vals[k];
      if ch in keys[k] {
        PlainHas(keys[k], ch);
      } else if ch in vals[k] {
        PlainHas(vals[k], ch);
      }
    }
  }

  /** One pair splits at its '=' into key and value. */
  lemma SplitPair(key: string, val: string)
    requires Plain(key) && Plain(val)
    ensures Split(key + "=" + val, "=") == [key, val]
  {
    assert '=' !in key by { if '=' in key { PlainHas(key, '='); } }
    assert '=' !in val by { if '=' in val { PlainHas(val, '='); } }
    SplitAtChar(key, val, '=');
    SplitNoChar(val, '=');
  }

  /** The parentheses of a formatted vector come off and leave the joined pairs. */
  lemma FormatUnwrapped(keys: seq<string>, vals: seq<string>)
    requires |keys| == |vals| >= 1
    requires forall k :: 0 <= k < |keys| ==> Plain(keys[k]) && Plain(vals[k])
    ensures Replace(Replace(Format(keys, vals), "(", ""), ")", "") == Join(Pairs(keys, vals), ",")
  {
    var body := Join(Pairs(keys, vals), ",");
    assert '(' !in body && ')' !in body by {
      if '(' in body { PairsChar(keys, vals, '('); }
      if ')' in body { PairsChar(keys, vals, ')'); }
    }
    var f := Format(keys, vals);
    assert f == "(" + (body + ")");
    ReplaceCharByNothing(f, '(');
    RemoveCharConcat("(", body + ")", '(');
    assert RemoveChar("(", '(') == [];
    assert ')' != '(';
    assert '(' !in body + ")";
    NoCharUnchanged(body + ")", '(');
    assert Replace(f, "(", "") == body + ")";
    ReplaceCharByNothing(body + ")", ')');
    RemoveCharConcat(body, ")", ')');
    NoCharUnchanged(body, ')');
    assert RemoveChar(")", ')') == [];
  }

  /** A vector written without a name parses back to its values. */
  lemma ParseVectorFormat(keys: seq<string>, vals: seq<string>, flt: string -> real)
    requires |keys| == |vals| >= 1
    requires forall k :: 0 <= k < |keys| ==> Plain(keys[k]) && Plain(vals[k])
    ensures ParseVector(Format(keys, vals), "", flt) == Ok(Floats(vals, flt))
  {
    var ps := Pairs(keys, vals);
    FormatUnwrapped(keys, vals);
    forall k | 0 <= k < |ps| ensures ',' !in ps[k] {
      if ',' in ps[k] {
        assert ps[k] == keys[k] + "=" + vals[k];
        if ',' in keys[k] { PlainHas(keys[k], ','); }
        if ',' in vals[k] { PlainHas(vals[k], ','); }
      }
    }
    SplitJoin(ps, ',');
    assert VectorParts(Format(keys, vals), "") == ps;
    forall k | 0 <= k < |ps| ensures Split(ps[k], "=") == [keys[k], vals[k]] {
      SplitPair(keys[k], vals[k]);
    }
    var r := Values(ps, flt);
    assert r.Ok?;
    assert r.value == Floats(vals, flt);
  }

  /**
   * A vector written as `name=(...)` parses back to its values, provided
   * `name=` does not occur again in the text.
   */
  lemma ParseVectorNamed(name: string, keys: seq<string>, vals: seq<string>, flt: string -> real)
    requires name != [] && |keys| == |vals| >= 1
    requires forall k :: 0 <= k < |keys| ==> Plain(keys[k]) && Plain(vals[k])
    requires !Contains(Format(keys, vals), name + "=")
    ensures ParseVector(name + "=" + Format(keys, vals), name, flt) == Ok(Floats(vals, flt))
  {
    ReplaceAtStart(name + "=", Format(keys, vals), "");
    assert [] + Format(keys, vals) == Format(keys, vals);
    ParseVectorFormat(keys, vals, flt);
  }

  // ---------------------------------------------------------------------
  // Mesh paths
  // ---------------------------------------------------------------------

  /** The path with quotes removed and ".psk" appended, before "/Game" is replaced. */
  function Unquoted(line: string): string
  {
    Replace(Replace(SliceFrom(line, Find(line, "\"")), "\"", ""), "'", "") + ".psk"
  }

  /**
   * `parse_mesh_path`: from the first '"' on, without quotes, with ".psk"
   * appended and "/Game" replaced by `StaticMeshes\`.
   */
  function ParseMeshPath(line: string): (r: string)
    ensures |r| >= 4 && r[|r| - 4..] == ".psk"
    ensures '"' !in r && '\'' !in r
  {
    MeshPathShape(line);
    Replace(Unquoted(line), "/Game", "StaticMeshes\\")
  }

  lemma MeshPathShape(line: string)
    ensures var r := Replace(Unquoted(line), "/Game", "StaticMeshes\\");
      |r| >= 4 && r[|r| - 4..] == ".psk" && '"' !in r && '\'' !in r
  {
    var s := Replace(SliceFrom(line, Find(line, "\"")), "\"", "");
    var t := Replace(s, "'", "");
    ReplaceCharByNothing(SliceFrom(line, Find(line, "\"")), '"');
    ReplaceCharByNothing(s, '\'');
    EndsWithAfterReplace(t, ".psk", "/Game", "StaticMeshes\\");
    ReplaceFree(t + ".psk", "/Game", "StaticMeshes\\", '"');
    ReplaceFree(t + ".psk", "/Game", "StaticMeshes\\", '\'');
  }

  /** Quotes removed from the tail of the usual mesh line. */
  lemma UnquoteTail(p: string)
    requires '"' !in p && '\'' !in p
    ensures Replace(Replace("\"/Game" + p + "\"'", "\"", ""), "'", "") == "/Game" + p
  {
    var tail := "\"/Game" + p + "\"'";
    var g := "/Game" + p;
    assert '"' !in g && '\'' !in g;
    ReplaceCharByNothing(tail, '"');
    assert tail == "\"" + (g + "\"'");
    RemoveCharConcat("\"", g + "\"'", '"');
    RemoveCharConcat(g, "\"'", '"');
    NoCharUnchanged(g, '"');
    assert RemoveChar("\"", '"') == [];
    assert RemoveChar("\"'", '"') == "'";
    var r1 := Replace(tail, "\"", "");
    assert r1 == g + "'";
    ReplaceCharByNothing(r1, '\'');
    RemoveCharConcat(g, "'", '\'');
    NoCharUnchanged(g, '\'');
    assert RemoveChar("'", '\'') == [];
    assert Replace(r1, "'", "") == g;
  }

  /** The first quote of the usual mesh line is the one after the prefix. */
  lemma FirstQuote(a: string, tail: string)
    requires '"' !in a && |tail| > 0 && tail[0] == '"'
    ensures SliceFrom(a + tail, Find(a + tail, "\"")) == tail
  {
    var line := a + tail;
    assert line[|a|..|a| + 1] == "\"";
    forall j | 0 <= j < |a| ensures !At(line, "\"", j) {
      assert line[j] == a[j];
      assert line[j..j + 1][0] == line[j];
    }
    FindIs(line, "\"", |a|);
    assert line[|a|..|line|] == tail;
  }

  /**
   * The usual mesh line `...StaticMesh'"/Game<p>"'`: the asset path under
   * `StaticMeshes\` with ".psk" appended.
   */
  lemma ParseMeshPathAt(a: string, p: string)
    requires '"' !in a && '"' !in p && '\'' !in p && !Contains(p, "/Game")
    ensures ParseMeshPath(a + "\"/Game" + p + "\"'") == "StaticMeshes\\" + p + ".psk"
  {
    var tail := "\"/Game" + p + "\"'";
    assert a + "\"/Game" + p + "\"'" == a + tail;
    FirstQuote(a, tail);
    UnquoteTail(p);
    assert Unquoted(a + tail) == "/Game" + (p + ".psk");
    FindAppend(p, ".psk", "/Game");
    ReplaceAtStart("/Game", p + ".psk", "StaticMeshes\\");
  }
}
