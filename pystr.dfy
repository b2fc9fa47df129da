/**
 * The parts of Python's `str` that the scene-text parsers use, with Python's
 * semantics: `find`, `in`, `startswith`, slicing with negative and
 * out-of-range indices, `split`, `join`, `replace`, `count`, `strip`,
 * `rjust` and `str(int)`.
 */
module PyStr {

  /** `sub` occurs in `s` starting at index i. */
  predicate At(s: string, sub: string, i: int)
  {
    0 <= i && i + |sub| <= |s| && s[i..i + |sub|] == sub
  }

  function FindFrom(s: string, sub: string, i: nat): (r: int)
    requires i <= |s|
    ensures r == -1 || i <= r <= |s| - |sub|
    decreases |s| - i
  {
    if i + |sub| > |s| then -1
    else if s[i..i + |sub|] == sub then i
    else FindFrom(s, sub, i + 1)
  }

  /** `s.find(sub)`: the first index where sub occurs, or -1. */
  function Find(s: string, sub: string): (r: int)
    ensures r == -1 || 0 <= r <= |s| - |sub|
  {
    FindFrom(s, sub, 0)
  }

  /** The search from i finds the first occurrence at or after i, and -1 only when there is none. */
  lemma {:induction false} FindFromFirst(s: string, sub: string, i: nat)
    requires i <= |s|
    ensures FindFrom(s, sub, i) != -1 ==> At(s, sub, FindFrom(s, sub, i))
    ensures FindFrom(s, sub, i) == -1 ==> forall j :: i <= j ==> !At(s, sub, j)
    ensures FindFrom(s, sub, i) != -1 ==> forall j :: i <= j < FindFrom(s, sub, i) ==> !At(s, sub, j)
    decreases |s| - i
  {
    if i + |sub| <= |s| && s[i..i + |sub|] != sub {
      FindFromFirst(s, sub, i + 1);
    }
  }

  /** `find` gives -1 exactly when sub does not occur, and otherwise the first occurrence. */
  lemma FindFirst(s: string, sub: string)
    ensures Find(s, sub) != -1 ==> At(s, sub, Find(s, sub))
    ensures Find(s, sub) == -1 <==> forall j :: !At(s, sub, j)
    ensures Find(s, sub) != -1 ==> forall j :: 0 <= j < Find(s, sub) ==> !At(s, sub, j)
  {
    FindFromFirst(s, sub, 0);
  }

  /** Two strings with the same occurrences of sub have the same `find`. */
  lemma FindSameAt(s: string, t: string, sub: string)
    requires forall j :: At(s, sub, j) <==> At(t, sub, j)
    ensures Find(s, sub) == Find(t, sub)
  {
    FindFirst(s, sub);
    FindFirst(t, sub);
    var a, b := Find(s, sub), Find(t, sub);
    if a != -1 && b != -1 {
      assert At(t, sub, a) && At(s, sub, b);
    }
  }

  /** `sub in s`. */
  predicate Contains(s: string, sub: string)
  {
    Find(s, sub) != -1
  }

  /** `s.startswith(p)`. */
  predicate StartsWith(s: string, p: string)
  {
    |p| <= |s| && s[..|p|] == p
  }

  /** Python's normalisation of a slice bound against a length n. */
  function Clamp(i: int, n: nat): (r: nat)
    ensures r <= n
    ensures 0 <= i <= n ==> r == i
    ensures i < 0 && i + n >= 0 ==> r == i + n
  {
    if i < 0 then (if i + n < 0 then 0 else i + n) else if i > n then n else i
  }

  /** `s[i:j]`. */
  function Slice(s: string, i: int, j: int): (r: string)
    ensures |r| <= |s|
  {
    var a := Clamp(i, |s|);
    var b := Clamp(j, |s|);
    if a < b then s[a..b] else []
  }

  /** `s[i:]`. */
  function SliceFrom(s: string, i: int): (r: string)
  {
    Slice(s, i, |s|)
  }

  /** Python's `s.split(sep)` for a nonempty separator. */
  function Split(s: string, sep: string): (parts: seq<string>)
    requires |sep| > 0
    ensures |parts| >= 1
    decreases |s|
  {
    if Find(s, sep) == -1 then [s]
    else [s[..Find(s, sep)]] + Split(s[Find(s, sep) + |sep|..], sep)
  }

  /** `sep.join(parts)`. */
  function Join(parts: seq<string>, sep: string): string
    requires |parts| >= 1
  {
    if |parts| == 1 then parts[0] else parts[0] + sep + Join(parts[1..], sep)
  }

  /** `s.replace(pat, repl)`: every non-overlapping occurrence, left to right. */
  function Replace(s: string, pat: string, repl: string): string
    requires |pat| > 0
  {
    Join(Split(s, pat), repl)
  }

  /** `s.count(sub)` for a nonempty sub: non-overlapping occurrences. */
  function Count(s: string, sub: string): (n: nat)
    requires |sub| > 0
  {
    |Split(s, sub)| - 1
  }

  /** The characters `str.strip()` removes (the ASCII and Latin-1 ones). */
  predicate IsSpace(c: char)
  {
    c == ' ' || c == '\t' || c == '\n' || c == '\r' || c == '\U{B}' || c == '\U{C}'
    || c == '\U{1C}' || c == '\U{1D}' || c == '\U{1E}' || c == '\U{1F}'
    || c == '\U{85}' || c == '\U{A0}'
  }

  function StripLeft(s: string): (r: string)
    ensures exists i :: 0 <= i <= |s| && r == s[i..]
    ensures r != [] ==> !IsSpace(r[0])
    decreases |s|
  {
    if |s| > 0 && IsSpace(s[0]) then
      var r := StripLeft(s[1..]);
      ghost var i :| 0 <= i <= |s[1..]| && r == s[1..][i..];
      assert r == s[i + 1..];
      r
    else
      assert s == s[0..];
      s
  }

  function StripRight(s: string): (r: string)
    ensures |r| <= |s| && r == s[..|r|]
    ensures r != [] ==> !IsSpace(r[|r| - 1])
    decreases |s|
  {
    if |s| > 0 && IsSpace(s[|s| - 1]) then StripRight(s[..|s| - 1]) else s
  }

  /** `s.strip()`: s without leading and trailing white space. */
  function Strip(s: string): (r: string)
    ensures r != [] ==> !IsSpace(r[0]) && !IsSpace(r[|r| - 1])
  {
    var l := StripLeft(s);
    var r := StripRight(l);
    assert r != [] ==> r[0] == l[0];
    r
  }

  /** `s.rjust(width, fill)`. */
  function RJust(s: string, width: nat, fill: char): (r: string)
    ensures |r| == if |s| >= width then |s| else width
  {
    if |s| >= width then s else seq(width - |s|, _ => fill) + s
  }

  /** s without any occurrence of c. */
  function RemoveChar(s: string, c: char): (r: string)
    ensures c !in r
    ensures forall d :: d in r <==> d in s && d != c
  {
    if s == [] then []
    else (if s[0] == c then [] else [s[0]]) + RemoveChar(s[1..], c)
  }

  function DigitChar(d: int): char
    requires 0 <= d < 10
  {
    "0123456789"[d]
  }

  function DigitValue(c: char): int
  {
    if '0' <= c <= '9' then c as int - '0' as int else 0
  }

  /** `str(n)` for n >= 0. */
  function NatToString(n: nat): (r: string)
    ensures |r| >= 1 && forall c :: c in r ==> '0' <= c <= '9'
  {
    if n < 10 then [DigitChar(n)] else NatToString(n / 10) + [DigitChar(n % 10)]
  }

  /** `str(n)`. */
  function IntToString(n: int): (r: string)
    ensures forall c :: c in r ==> c == '-' || '0' <= c <= '9'
  {
    if n < 0 then "-" + NatToString(-n) else NatToString(n)
  }

  /** The value of a string of decimal digits. */
  function DigitsValue(s: string): nat
  {
    if s == [] then 0 else 10 * DigitsValue(s[..|s| - 1]) + DigitValue(s[|s| - 1])
  }

  /** `int(s)` on the strings `str(int)` produces. */
  function ParseInt(s: string): int
  {
    if |s| > 0 && s[0] == '-' then 0 - DigitsValue(s[1..]) as int else DigitsValue(s)
  }

  // ---------------------------------------------------------------------
  // Lemmas

  /** split and join are inverse: `sep.join(s.split(sep)) == s`. */
  lemma {:induction false} JoinSplit(s: string, sep: string)
    requires |sep| > 0
    ensures Join(Split(s, sep), sep) == s
    decreases |s|
  {
    var i := Find(s, sep);
    if i != -1 {
      FindFirst(s, sep);
      SplitFound(s, sep, i);
      var rest := s[i + |sep|..];
      JoinSplit(rest, sep);
      JoinCons(s[..i], Split(rest, sep), sep);
      Reassemble(s, sep, i);
    }
  }

  /** Cutting s around an occurrence of sub at i and gluing it back gives s. */
  lemma Reassemble(s: string, sub: string, i: int)
    requires At(s, sub, i)
    ensures s[..i] + sub + s[i + |sub|..] == s
  {
    assert s == s[..i] + s[i..i + |sub|] + s[i + |sub|..];
  }

  /** One step of a split that finds the separator at i. */
  lemma {:induction false} SplitFound(s: string, sep: string, i: int)
    requires |sep| > 0 && i == Find(s, sep) && i != -1
    ensures 0 <= i && i + |sep| <= |s|
    ensures Split(s, sep) == [s[..i]] + Split(s[i + |sep|..], sep)
  {
    var rest := s[i + |sep|..];
    assert Split(s, sep) == [s[..i]] + Split(rest, sep);
  }

  lemma JoinCons(p: string, parts: seq<string>, sep: string)
    requires |parts| >= 1
    ensures Join([p] + parts, sep) == p + sep + Join(parts, sep)
  {
    assert ([p] + parts)[1..] == parts;
  }

  /** No part of a split holds the separator. */
  lemma {:induction false} SplitPartsFree(s: string, sep: string)
    requires |sep| > 0
    ensures forall k :: 0 <= k < |Split(s, sep)| ==> !Contains(Split(s, sep)[k], sep)
    decreases |s|
  {
    var i := Find(s, sep);
    if i != -1 {
      SplitPartsFree(s[i + |sep|..], sep);
      forall j | At(s[..i], sep, j) ensures At(s, sep, j) {
        assert s[..i][j..j + |sep|] == s[j..j + |sep|];
      }
      FindFirst(s, sep);
      FindFirst(s[..i], sep);
      SplitFound(s, sep, i);
    }
  }

  /** Every character of a split part comes from the string split. */
  lemma {:induction false} SplitPartsChars(s: string, sep: string)
    requires |sep| > 0
    ensures forall k, c :: 0 <= k < |Split(s, sep)| && c in Split(s, sep)[k] ==> c in s
    decreases |s|
  {
    var i := Find(s, sep);
    if i != -1 {
      SplitPartsChars(s[i + |sep|..], sep);
      assert forall c :: c in s[..i] ==> c in s;
      assert forall c :: c in s[i + |sep|..] ==> c in s;
    }
  }

  /** Every character of a join comes from a part or from the separator. */
  lemma {:induction false} JoinChars(parts: seq<string>, sep: string, c: char)
    requires |parts| >= 1
    requires c in Join(parts, sep)
    ensures c in sep || exists k :: 0 <= k < |parts| && c in parts[k]
  {
    if |parts| > 1 {
      if c !in parts[0] && c !in sep {
        JoinChars(parts[1..], sep, c);
        var k :| 0 <= k < |parts[1..]| && c in parts[1..][k];
        assert parts[1..][k] == parts[k + 1];
      }
    }
  }

  /** `replace` introduces no character that is neither in s nor in the replacement. */
  lemma ReplaceChars(s: string, pat: string, repl: string, c: char)
    requires |pat| > 0
    requires c in Replace(s, pat, repl)
    ensures c in s || c in repl
  {
    JoinChars(Split(s, pat), repl, c);
    SplitPartsChars(s, pat);
  }

  /** `replace` brings in no character that neither s nor the replacement holds. */
  lemma ReplaceFree(s: string, pat: string, repl: string, c: char)
    requires |pat| > 0 && c !in s && c !in repl
    ensures c !in Replace(s, pat, repl)
  {
    if c in Replace(s, pat, repl) {
      ReplaceChars(s, pat, repl, c);
      assert false;
    }
  }

  /** Joining with nothing the parts of a split at c gives s without c. */
  lemma {:induction false} JoinEmptyRemove(s: string, c: char)
    ensures Join(Split(s, [c]), []) == RemoveChar(s, c)
    decreases |s|
  {
    var sep := [c];
    var i := Find(s, sep);
    FindFirst(s, sep);
    if i == -1 {
      assert Split(s, sep) == [s];
      NoAtNoChar(s, c);
      NoCharUnchanged(s, c);
    } else {
      var rest := s[i + 1..];
      JoinEmptyRemove(rest, c);
      FirstAtNoChar(s, c, i);
      SplitFound(s, sep, i);
      AtChar(s, c, i);
      JoinRemoveStep(s[..i], rest, Split(rest, sep), c);
    }
  }

  /** One occurrence of a one-character separator is that character. */
  lemma AtChar(s: string, c: char, i: int)
    requires At(s, [c], i)
    ensures s == s[..i] + [c] + s[i + 1..]
  {
    assert s[i] == s[i..i + 1][0];
  }

  /** The step of JoinEmptyRemove at the first c of a + [c] + rest. */
  lemma {:induction false} JoinRemoveStep(a: string, rest: string, tail: seq<string>, c: char)
    requires |tail| >= 1 && c !in a
    requires Join(tail, []) == RemoveChar(rest, c)
    ensures Join([a] + tail, []) == RemoveChar(a + [c] + rest, c)
  {
    RemoveAfterFirst(a, rest, c);
    JoinCons(a, tail, []);
    assert a + [] == a;
  }

  /** Removing c from a + [c] + rest when a holds no c. */
  lemma {:induction false} RemoveAfterFirst(a: string, rest: string, c: char)
    requires c !in a
    ensures RemoveChar(a + [c] + rest, c) == a + RemoveChar(rest, c)
  {
    var t := a + [c] + rest;
    if a == [] {
      assert t[0] == c && t[1..] == rest;
    } else {
      assert t[0] == a[0] && t[1..] == a[1..] + [c] + rest;
      assert a[0] in a;
      assert c !in a[1..] by { assert forall d :: d in a[1..] ==> d in a; }
      RemoveAfterFirst(a[1..], rest, c);
      assert a == [a[0]] + a[1..];
    }
  }

  /** No single-character occurrence of c means c is not in s. */
  lemma NoAtNoChar(s: string, c: char)
    requires forall j :: !At(s, [c], j)
    ensures c !in s
  {
    forall j | 0 <= j < |s| ensures s[j] != c {
      assert !At(s, [c], j);
      assert s[j..j + 1] == [s[j]];
    }
  }

  /** Before the first occurrence of c there is no c. */
  lemma FirstAtNoChar(s: string, c: char, i: int)
    requires 0 <= i <= |s|
    requires forall j :: 0 <= j < i ==> !At(s, [c], j)
    ensures c !in s[..i]
  {
    forall j | 0 <= j < i ensures s[j] != c {
      assert !At(s, [c], j);
      assert s[j..j + 1] == [s[j]];
    }
  }

  lemma {:induction false} RemoveCharConcat(a: string, b: string, c: char)
    ensures RemoveChar(a + b, c) == RemoveChar(a, c) + RemoveChar(b, c)
  {
    if a == [] {
      assert a + b == b;
    } else {
      assert (a + b)[0] == a[0];
      assert (a + b)[1..] == a[1..] + b;
      RemoveCharConcat(a[1..], b, c);
    }
  }

  lemma {:induction false} NoCharUnchanged(s: string, c: char)
    requires c !in s
    ensures RemoveChar(s, c) == s
  {
    if s != [] {
      assert s[0] in s;
      assert forall d :: d in s[1..] ==> d in s;
      NoCharUnchanged(s[1..], c);
      assert s == [s[0]] + s[1..];
    }
  }

  /** A string without c holds no one-character occurrence of c. */
  lemma CharNotAt(s: string, c: char)
    requires c !in s
    ensures forall j :: !At(s, [c], j)
  {
    forall j | 0 <= j < |s| ensures !At(s, [c], j) {
      assert s[j..j + 1] == [s[j]];
      assert s[j] in s;
    }
  }

  /** Splitting at the first c, when the text before it has no c. */
  lemma SplitAtChar(a: string, b: string, c: char)
    ensures c !in a ==> Split(a + [c] + b, [c]) == [a] + Split(b, [c])
  {
    if c !in a {
      var s := a + [c] + b;
      assert At(s, [c], |a|) by { assert s[|a|..|a| + 1] == [c]; }
      forall j | 0 <= j < |a| ensures !At(s, [c], j) {
        assert s[j..j + 1] == [a[j]];
        assert a[j] in a;
      }
      FindFirst(s, [c]);
      var i := Find(s, [c]);
      assert i == |a|;
      assert s[..i] == a;
      assert s[i + 1..] == b;
    }
  }

  /** A string without c splits at c into itself. */
  lemma SplitNoChar(a: string, c: char)
    ensures c !in a ==> Split(a, [c]) == [a]
  {
    if c !in a {
      CharNotAt(a, c);
      FindFirst(a, [c]);
    }
  }

  /** Replacing one character by nothing removes exactly that character. */
  lemma ReplaceCharByNothing(s: string, c: char)
    ensures Replace(s, [c], []) == RemoveChar(s, c)
  {
    JoinEmptyRemove(s, c);
  }

  /** An occurrence in s stays an occurrence in s + t. */
  lemma AtAppend(s: string, t: string, sub: string, j: int)
    requires At(s, sub, j)
    ensures At(s + t, sub, j)
  {
    assert (s + t)[j..j + |sub|] == s[j..j + |sub|];
  }

  /** When the last character of sub does not occur in t, appending t to s adds no occurrence of sub. */
  lemma FindAppend(s: string, t: string, sub: string)
    requires |sub| > 0 && sub[|sub| - 1] !in t
    ensures Find(s + t, sub) == Find(s, sub)
  {
    forall j | At(s + t, sub, j) ensures At(s, sub, j) {
      var e := j + |sub| - 1;
      assert (s + t)[e] == sub[|sub| - 1];
      if e >= |s| {
        assert false;
      }
      assert (s + t)[j..j + |sub|] == s[j..j + |sub|];
    }
    forall j | At(s, sub, j) ensures At(s + t, sub, j) { AtAppend(s, t, sub, j); }
    FindSameAt(s + t, s, sub);
  }

  /** Under the same condition, `(s + t).replace(pat, repl) == s.replace(pat, repl) + t`. */
  lemma {:induction false} ReplaceAppend(s: string, t: string, pat: string, repl: string)
    requires |pat| > 0 && pat[|pat| - 1] !in t
    ensures Replace(s + t, pat, repl) == Replace(s, pat, repl) + t
    decreases |s|
  {
    FindAppend(s, t, pat);
    var i := Find(s, pat);
    if i == -1 {
      assert Split(s + t, pat) == [s + t];
      assert Split(s, pat) == [s];
    } else {
      var rest := s[i + |pat|..];
      assert (s + t)[..i] == s[..i];
      assert (s + t)[i + |pat|..] == rest + t;
      var tail := Split(rest, pat);
      var tailT := Split(rest + t, pat);
      SplitFound(s, pat, i);
      SplitFound(s + t, pat, i);
      ReplaceAppend(rest, t, pat, repl);
      JoinCons(s[..i], tail, repl);
      JoinCons(s[..i], tailT, repl);
    }
  }

  /** A string ends with t after t is appended and a replacement keeps t intact. */
  lemma EndsWithAfterReplace(s: string, t: string, pat: string, repl: string)
    requires |pat| > 0 && pat[|pat| - 1] !in t
    ensures var r := Replace(s + t, pat, repl); |r| >= |t| && r[|r| - |t|..] == t
  {
    ReplaceAppend(s, t, pat, repl);
  }

  /** `int(str(n)) == n` for n >= 0. */
  lemma {:induction false} NatToStringValue(n: nat)
    ensures DigitsValue(NatToString(n)) == n
  {
    if n >= 10 {
      var r := NatToString(n);
      NatToStringValue(n / 10);
      assert r[..|r| - 1] == NatToString(n / 10);
      assert DigitValue(DigitChar(n % 10)) == n % 10;
    } else {
      assert DigitValue(DigitChar(n)) == n;
    }
  }

  /** `int(str(n)) == n`. */
  lemma {:induction false} IntToStringRoundTrip(n: int)
    ensures ParseInt(IntToString(n)) == n
  {
    if n < 0 {
      var m: nat := -n;
      var r := NatToString(m);
      NatToStringValue(m);
      assert IntToString(n) == "-" + r;
      assert ("-" + r)[1..] == r;
    } else {
      var r := NatToString(n);
      NatToStringValue(n);
      assert r[0] in r;
    }
  }
  /** An occurrence with none before it is what `find` returns. */
  lemma FindIs(s: string, sub: string, i: int)
    requires At(s, sub, i) && forall j :: 0 <= j < i ==> !At(s, sub, j)
    ensures Find(s, sub) == i
  {
    FindFirst(s, sub);
  }

  /** Splitting the join of parts free of the one-character separator gives the parts back. */
  lemma {:induction false} SplitJoin(parts: seq<string>, c: char)
    requires |parts| >= 1 && forall k :: 0 <= k < |parts| ==> c !in parts[k]
    ensures Split(Join(parts, [c]), [c]) == parts
  {
    if |parts| == 1 {
      SplitNoChar(parts[0], c);
    } else {
      var tail := parts[1..];
      assert forall k :: 0 <= k < |tail| ==> c !in tail[k] by {
        forall k | 0 <= k < |tail| ensures c !in tail[k] { assert tail[k] == parts[k + 1]; }
      }
      SplitJoin(tail, c);
      assert c !in parts[0];
      SplitAtChar(parts[0], Join(tail, [c]), c);
      assert Join(parts, [c]) == parts[0] + [c] + Join(tail, [c]);
      assert parts == [parts[0]] + tail;
    }
  }

  /** Replacing a pattern that occurs only at the very start. */
  lemma ReplaceAtStart(pat: string, s: string, repl: string)
    requires |pat| > 0 && !Contains(s, pat)
    ensures Replace(pat + s, pat, repl) == repl + s
  {
    var t := pat + s;
    assert t[0..|pat|] == pat;
    FindIs(t, pat, 0);
    SplitFound(t, pat, 0);
    assert t[|pat|..] == s;
    assert t[..0] == [];
    assert Split(s, pat) == [s];
    assert Split(t, pat) == [[]] + [s];
    JoinCons([], [s], repl);
  }

  /** Stripping a trailing blank off a string that has no white space at either end. */
  lemma StripTrailingBlank(c: string)
    requires c != [] ==> !IsSpace(c[0]) && !IsSpace(c[|c| - 1])
    ensures Strip(c + " ") == c
  {
    var t := c + " ";
    if c == [] {
      assert StripLeft(t[1..]) == [];
      assert StripLeft(t) == [];
    } else {
      assert t[0] == c[0];
      assert StripLeft(t) == t;
      assert t[..|t| - 1] == c;
      assert StripRight(t) == StripRight(c) == c;
    }
  }

  /** A string with no white space at either end is its own `strip`. */
  lemma StripUnchanged(s: string)
    requires s != [] && !IsSpace(s[0]) && !IsSpace(s[|s| - 1])
    ensures Strip(s) == s
  {
    assert StripLeft(s) == s;
    assert StripRight(s) == s;
  }
}
