/**
 * Fixed-width integer codecs for the binary files, as `struct.pack` and
 * `array.array` produce and consume them on a little-endian host
 * ("H" = u16, "I" = u32, "i" = i32), plus Python's `file.read(n)`.
 */
module Bytes {

  import opened Wrappers

  type byte = b: int | 0 <= b < 256

  const TWO_16: int := 0x1_0000
  const TWO_31: int := 0x8000_0000
  const TWO_32: int := 0x1_0000_0000

  function DecodeU16(b: seq<byte>): (v: int)
    requires |b| >= 2
    ensures 0 <= v < TWO_16
  {
    b[0] as int + 256 * (b[1] as int)
  }

  /** `struct.pack("H", v)`; the caller decides what happens out of range. */
  function U16(v: int): (r: seq<byte>)
    requires 0 <= v < TWO_16
    ensures |r| == 2 && DecodeU16(r) == v
  {
    [v % 256, v / 256]
  }

  function DecodeU32(b: seq<byte>): (v: int)
    requires |b| >= 4
    ensures 0 <= v < TWO_32
  {
    DecodeU16(b[..2]) + TWO_16 * DecodeU16(b[2..4])
  }

  /** `struct.pack("I", v)`. */
  function U32(v: int): (r: seq<byte>)
    requires 0 <= v < TWO_32
    ensures |r| == 4 && DecodeU32(r) == v
  {
    var r := U16(v % TWO_16) + U16(v / TWO_16);
    assert r[..2] == U16(v % TWO_16) && r[2..4] == U16(v / TWO_16);
    r
  }

  /** Two's-complement reinterpretation of a u32 word, as `array("i")` reads it. */
  function AsSigned(u: int): (v: int)
    requires 0 <= u < TWO_32
    ensures -TWO_31 <= v < TWO_31
    ensures u < TWO_31 ==> v == u
    ensures u >= TWO_31 ==> v == u - TWO_32
  {
    if u >= TWO_31 then u - TWO_32 else u
  }

  function DecodeI32(b: seq<byte>): (v: int)
    requires |b| >= 4
    ensures -TWO_31 <= v < TWO_31
  {
    AsSigned(DecodeU32(b))
  }

  /** `struct.pack("i", v)`. */
  function I32(v: int): (r: seq<byte>)
    requires -TWO_31 <= v < TWO_31
    ensures |r| == 4 && DecodeI32(r) == v
  {
    U32(if v < 0 then v + TWO_32 else v)
  }

  /** `f.read(n)` at offset `pos`: at most n bytes, fewer at the end of the file. */
  function Read(s: seq<byte>, pos: nat, n: nat): (r: seq<byte>)
    requires pos <= |s|
    ensures |r| == if pos + n <= |s| then n else |s| - pos
    ensures r == s[pos..pos + |r|]
  {
    if pos + n <= |s| then s[pos..pos + n] else s[pos..]
  }

  /** `array.array("H", b)`: the u16 words of b, none when its length is odd. */
  function Words16(b: seq<byte>): (r: Option<seq<int>>)
    ensures r.Some? <==> |b| % 2 == 0
    ensures r.Some? ==> |r.value| == |b| / 2 && AllU16(r.value)
    decreases |b|
  {
    if |b| % 2 != 0 then None
    else if b == [] then Some([])
    else Some([DecodeU16(b)] + Words16(b[2..]).value)
  }

  /** `array.array("i", b)`: the i32 words of b, none when its length is not a multiple of 4. */
  function Words32Signed(b: seq<byte>): (r: Option<seq<int>>)
    ensures r.Some? <==> |b| % 4 == 0
    ensures r.Some? ==> |r.value| == |b| / 4
    decreases |b|
  {
    if |b| % 4 != 0 then None
    else if b == [] then Some([])
    else Some([DecodeI32(b)] + Words32Signed(b[4..]).value)
  }

  predicate AllU16(vs: seq<int>) { forall k :: 0 <= k < |vs| ==> 0 <= vs[k] < TWO_16 }
  predicate AllU32(vs: seq<int>) { forall k :: 0 <= k < |vs| ==> 0 <= vs[k] < TWO_32 }
  predicate AllI32(vs: seq<int>) { forall k :: 0 <= k < |vs| ==> -TWO_31 <= vs[k] < TWO_31 }

  /** Concatenated u16 words, as a loop of `struct.pack("H", ·)` writes them. */
  function U16s(vs: seq<int>): (r: seq<byte>)
    requires AllU16(vs)
    ensures |r| == 2 * |vs|
  {
    if vs == [] then [] else U16(vs[0]) + U16s(vs[1..])
  }

  /** Concatenated u32 words. */
  function U32s(vs: seq<int>): (r: seq<byte>)
    requires AllU32(vs)
    ensures |r| == 4 * |vs|
  {
    if vs == [] then [] else U32(vs[0]) + U32s(vs[1..])
  }

  /** Concatenated i32 words. */
  function I32s(vs: seq<int>): (r: seq<byte>)
    requires AllI32(vs)
    ensures |r| == 4 * |vs|
  {
    if vs == [] then [] else I32(vs[0]) + I32s(vs[1..])
  }

  /** Reading back u16 words gives the words written. */
  lemma {:induction false} Words16OfU16s(vs: seq<int>)
    requires AllU16(vs)
    ensures Words16(U16s(vs)) == Some(vs)
  {
    if vs != [] {
      var b := U16s(vs);
      assert b[2..] == U16s(vs[1..]);
      Words16OfU16s(vs[1..]);
      assert b[..2] == U16(vs[0]);
      assert DecodeU16(b) == DecodeU16(b[..2]) == vs[0];
      assert [vs[0]] + vs[1..] == vs;
    }
  }

  /** Reading i32 words back gives the words written. */
  lemma {:induction false} Words32OfI32s(vs: seq<int>)
    requires AllI32(vs)
    ensures Words32Signed(I32s(vs)) == Some(vs)
  {
    if vs != [] {
      var b := I32s(vs);
      assert b[4..] == I32s(vs[1..]);
      Words32OfI32s(vs[1..]);
      assert b[..4] == I32(vs[0]);
      assert DecodeI32(b) == DecodeI32(b[..4]) == vs[0];
      assert [vs[0]] + vs[1..] == vs;
    }
  }

  /** Reading u32 words as i32 reinterprets each one; words below 2^31 come back unchanged. */
  lemma {:induction false} Words32OfU32s(vs: seq<int>)
    requires AllU32(vs)
    ensures Words32Signed(U32s(vs)).Some?
    ensures |Words32Signed(U32s(vs)).value| == |vs|
    ensures forall k :: 0 <= k < |vs| ==> Words32Signed(U32s(vs)).value[k] == AsSigned(vs[k])
  {
    if vs != [] {
      var b := U32s(vs);
      assert b[4..] == U32s(vs[1..]);
      Words32OfU32s(vs[1..]);
      assert b[..4] == U32(vs[0]);
      assert DecodeU32(b) == DecodeU32(b[..4]);
    }
  }
}
