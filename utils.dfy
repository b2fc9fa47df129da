/**
 * The two helpers of `Utils`: `time_convert`, which writes a number of
 * seconds as `H:MM:SS`, and `divide_chunks`, which cuts a list into
 * consecutive slices of a given length.
 */
module Utils {
  import opened Wrappers
  import opened PyStr
  import opened Numeric

  // ---------------------------------------------------------------------
  // time_convert

  /** The three fields time_convert computes, with Python's floor `//` and `%`. */
  datatype Clock = Clock(hours: int, mins: int, secs: int)

  function Fields(sec: int): (c: Clock)
    ensures 0 <= c.mins < 60 && 0 <= c.secs < 60
    ensures 3600 * c.hours + 60 * c.mins + c.secs == sec
  {
    var mins := sec / 60;
    var s := sec % 60;
    var hours := mins / 60;
    var m := mins % 60;
    Clock(hours, m, s)
  }

  /** `str(int(v)).rjust(2, "0")` for 0 <= v < 60. */
  function Pad2(v: nat): (r: string)
    requires v < 60
    ensures |r| == 2
    ensures forall c :: c in r ==> '0' <= c <= '9'
  {
    var d := NatToString(v);
    if v >= 10 then assert NatToString(v / 10) == [DigitChar(v / 10)]; RJust(d, 2, '0')
    else RJust(d, 2, '0')
  }

  /** `Utils.time_convert(sec)` for a whole number of seconds. */
  function TimeConvert(sec: int): (r: string)
    ensures ':' in r
  {
    var c := Fields(sec);
    IntToString(c.hours) + ":" + Pad2(c.mins) + ":" + Pad2(c.secs)
  }

  /** The two-digit fields read back as the numbers they were made from. */
  lemma Pad2Value(v: nat)
    requires v < 60
    ensures ParseInt(Pad2(v)) == v
  {
    var r := Pad2(v);
    assert r[0] in r;
    if v < 10 {
      assert r == "0" + [DigitChar(v)];
      assert r[..1] == "0";
      assert DigitsValue("0") == 0 by { assert "0"[..0] == []; }
      assert r[1] == DigitChar(v);
      assert DigitValue(DigitChar(v)) == v;
    } else {
      NatToStringValue(v);
    }
  }

  /**
   * time_convert loses nothing: its output splits at ':' into three fields,
   * the last two of two digits each and below 60, that recombine into sec.
   */
  lemma TimeConvertRoundTrip(sec: int)
    ensures var p := Split(TimeConvert(sec), ":");
      |p| == 3 && |p[1]| == 2 && |p[2]| == 2
      && 0 <= ParseInt(p[1]) < 60 && 0 <= ParseInt(p[2]) < 60
      && 3600 * ParseInt(p[0]) + 60 * ParseInt(p[1]) + ParseInt(p[2]) == sec
  {
    var c := Fields(sec);
    var h := IntToString(c.hours);
    var m := Pad2(c.mins);
    var s := Pad2(c.secs);
    assert ':' !in h;
    assert ':' !in m;
    assert ':' !in s;
    assert TimeConvert(sec) == h + [':'] + (m + [':'] + s);
    SplitAtChar(h, m + [':'] + s, ':');
    SplitAtChar(m, s, ':');
    SplitNoChar(s, ':');
    IntToStringRoundTrip(c.hours);
    Pad2Value(c.mins);
    Pad2Value(c.secs);
  }

  /**
   * `Utils.time_convert(sec)` for a float number of seconds, on exact
   * reals: `//` and `%` floor, and `int()` truncates the seconds field,
   * which `%` has left in [0, 60).
   */
  function TimeConvertReal(sec: real): string
  {
    var m := (sec / 60.0).Floor;
    var s := sec - 60.0 * m as real;
    var t := Trunc(s);
    assert 0 <= t < 60;
    IntToString(m / 60) + ":" + Pad2(m % 60) + ":" + Pad2(t)
  }

  /** A float duration prints as its whole seconds: the fraction is dropped. */
  lemma TimeConvertRealFloor(sec: real)
    ensures TimeConvertReal(sec) == TimeConvert(sec.Floor)
  {
    var m := (sec / 60.0).Floor;
    var s := sec - 60.0 * m as real;
    var f := sec.Floor;
    assert Trunc(s) == f - 60 * m;
    DivMod(f, 60, m, f - 60 * m);
  }

  // ---------------------------------------------------------------------
  // divide_chunks

  function Min(a: int, b: int): int
  {
    if a <= b then a else b
  }

  /** The slices `l[i:i+n]` for i = start, start + n, ... below |l|. */
  function ChunksFrom<T>(l: seq<T>, n: nat, start: nat): seq<seq<T>>
    requires n > 0
    decreases |l| - start
  {
    if start >= |l| then [] else [l[start..Min(start + n, |l|)]] + ChunksFrom(l, n, start + n)
  }

  /**
   * `list(Utils.divide_chunks(l, n))`: a zero step is the error `range()`
   * raises, a negative step gives an empty range.
   */
  function DivideChunks<T>(l: seq<T>, n: int): (r: Result<seq<seq<T>>, string>)
    ensures r.Failure? <==> n == 0
    ensures n < 0 ==> r == Ok([])
  {
    if n == 0 then Failure("range() arg 3 must not be zero")
    else if n < 0 then Ok([])
    else Ok(ChunksFrom(l, n, 0))
  }

  function Flatten<T>(ss: seq<seq<T>>): seq<T>
  {
    if ss == [] then [] else ss[0] + Flatten(ss[1..])
  }

  lemma {:induction false} FlattenSnoc<T>(ss: seq<seq<T>>, s: seq<T>)
    ensures Flatten(ss + [s]) == Flatten(ss) + s
  {
    if ss != [] {
      assert (ss + [s])[1..] == ss[1..] + [s];
      FlattenSnoc(ss[1..], s);
    }
  }

  lemma {:induction false} FlattenChunksFrom<T>(l: seq<T>, n: nat, start: nat)
    requires n > 0 && start <= |l|
    ensures Flatten(ChunksFrom(l, n, start)) == l[start..]
    decreases |l| - start
  {
    if start < |l| {
      var cs := ChunksFrom(l, n, start);
      assert cs[1..] == ChunksFrom(l, n, start + n);
      if start + n <= |l| {
        FlattenChunksFrom(l, n, start + n);
        assert l[start..] == l[start..start + n] + l[start + n..];
      } else {
        assert ChunksFrom(l, n, start + n) == [];
        assert cs == [l[start..|l|]] + [];
        assert l[start..|l|] == l[start..];
      }
    }
  }

  lemma {:induction false} ChunksFromCount<T>(l: seq<T>, n: nat, start: nat)
    requires n > 0 && start <= |l|
    ensures |ChunksFrom(l, n, start)| == (|l| - start + n - 1) / n
    decreases |l| - start
  {
    if start < |l| {
      if start + n < |l| {
        ChunksFromCount(l, n, start + n);
        DivShift(|l| - start - 1, n);
      } else {
        assert ChunksFrom(l, n, start + n) == [];
        DivOne(|l| - start + n - 1, n);
      }
    }
  }

  lemma {:induction false} ChunksFromSizes<T>(l: seq<T>, n: nat, start: nat)
    requires n > 0 && start <= |l|
    ensures var cs := ChunksFrom(l, n, start);
      (forall k :: 0 <= k < |cs| - 1 ==> |cs[k]| == n)
      && (|cs| > 0 ==> 1 <= |cs[|cs| - 1]| <= n)
    decreases |l| - start
  {
    var cs := ChunksFrom(l, n, start);
    if start < |l| {
      if start + n < |l| {
        ChunksFromSizes(l, n, start + n);
        var rest := ChunksFrom(l, n, start + n);
        assert cs == [l[start..start + n]] + rest;
        assert |rest| > 0;
        forall k | 0 <= k < |cs| - 1 ensures |cs[k]| == n {
          if k > 0 { assert cs[k] == rest[k - 1]; }
        }
        assert cs[|cs| - 1] == rest[|rest| - 1];
      } else {
        assert ChunksFrom(l, n, start + n) == [];
        assert cs == [l[start..|l|]];
      }
    }
  }

  lemma DivShift(x: nat, n: nat)
    requires n > 0
    ensures (x + n) / n == x / n + 1
  {
    DivMod(x + n, n, x / n + 1, x % n);
  }

  lemma DivOne(x: nat, n: nat)
    requires n > 0 && n <= x < 2 * n
    ensures x / n == 1
  {
  }

  /**
   * What divide_chunks promises for a positive step: the chunks concatenate
   * back to l, there are ceil(|l| / n) of them, each has n elements except
   * the last, which has between 1 and n.
   */
  lemma DivideChunksSpec<T>(l: seq<T>, n: int)
    requires n > 0
    ensures DivideChunks(l, n).Ok?
    ensures var cs := DivideChunks(l, n).value;
      Flatten(cs) == l
      && |cs| == (|l| + n - 1) / n
      && (forall k :: 0 <= k < |cs| - 1 ==> |cs[k]| == n)
      && (|cs| > 0 ==> 1 <= |cs[|cs| - 1]| <= n)
  {
    FlattenChunksFrom(l, n, 0);
    ChunksFromCount(l, n, 0);
    ChunksFromSizes(l, n, 0);
  }
}
