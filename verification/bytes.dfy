/** Little-endian images of unsigned integers: what the source's memcpy and struct writes put in a
    file on its target machines. */
module Bytes {
  import opened Basics

  function Pow256(width: nat): (p: nat)
    ensures p > 0
  {
    if width == 0 then 1 else 256 * Pow256(width - 1)
  }

  function Little(x: nat, width: nat): (s: seq<byte>)
    ensures |s| == width
  {
    if width == 0 then [] else [x % 256] + Little(x / 256, width - 1)
  }

  function FromLittle(s: seq<byte>): nat {
    if s == [] then 0 else s[0] + 256 * FromLittle(s[1..])
  }

  lemma {:induction false} LittleRoundTrip(x: nat, width: nat)
    requires x < Pow256(width)
    ensures FromLittle(Little(x, width)) == x
  {
    if width > 0 {
      assert x / 256 < Pow256(width - 1);
      assert Little(x, width)[1..] == Little(x / 256, width - 1);
      LittleRoundTrip(x / 256, width - 1);
    }
  }

  const TWO64: int := 0x1_0000_0000_0000_0000

  lemma Powers()
    ensures Pow256(1) == 256
    ensures Pow256(2) == 0x1_0000
    ensures Pow256(4) == TWO32
    ensures Pow256(8) == TWO64
    ensures Pow256(3) > 0 && Pow256(6) > 0
  {
    assert Pow256(3) == 0x100_0000;
    assert Pow256(5) == 0x100_0000_0000;
    assert Pow256(6) == 0x1_0000_0000_0000;
    assert Pow256(7) == 0x100_0000_0000_0000;
  }

  // ---------------------------------------------------------------- runs of bytes inside a file

  ghost predicate Holds(data: seq<byte>, pos: nat, s: seq<byte>) {
    pos + |s| <= |data| && data[pos..pos + |s|] == s
  }

  lemma HoldsParts(data: seq<byte>, pos: nat, a: seq<byte>, b: seq<byte>)
    requires Holds(data, pos, a + b)
    ensures Holds(data, pos, a) && Holds(data, pos + |a|, b)
  {
    var s := a + b;
    assert data[pos..pos + |a|] == s[..|a|];
    assert data[pos + |a|..pos + |a| + |b|] == s[|a|..];
  }

  /** A part of a run that a file holds. */
  lemma HoldsSlice(data: seq<byte>, pos: nat, s: seq<byte>, i: nat, j: nat)
    requires Holds(data, pos, s) && i <= j <= |s|
    ensures Holds(data, pos + i, s[i..j])
  {
    forall k | i <= k < j ensures data[pos + k] == s[k] {
      assert data[pos..pos + |s|][k] == s[k];
    }
    assert data[pos + i..pos + j] == s[i..j];
  }

  // ---------------------------------------------------------------- structs

  /** The image of a struct: each field in its width, padding counted as a field of its own. */
  function Pack(widths: seq<nat>, values: seq<nat>): (s: seq<byte>)
    requires |widths| == |values|
    ensures |s| == Total(widths)
  {
    if widths == [] then [] else Little(values[0], widths[0]) + Pack(widths[1..], values[1..])
  }

  function Total(widths: seq<nat>): nat {
    if widths == [] then 0 else widths[0] + Total(widths[1..])
  }

  lemma {:induction false} TotalSplit(a: seq<nat>, b: seq<nat>)
    ensures Total(a + b) == Total(a) + Total(b)
  {
    if a == [] {
      assert a + b == b;
    } else {
      TotalSplit(a[1..], b);
      assert (a + b)[1..] == a[1..] + b;
    }
  }

  function Unpack(widths: seq<nat>, s: seq<byte>): (values: seq<nat>)
    requires Total(widths) <= |s|
    ensures |values| == |widths|
  {
    if widths == [] then []
    else [FromLittle(s[..widths[0]])] + Unpack(widths[1..], s[widths[0]..])
  }

  lemma UnpackTwo(widths: seq<nat>, s: seq<byte>)
    requires |widths| >= 2 && Total(widths) <= |s|
    ensures widths[0] + widths[1] <= |s|
    ensures Unpack(widths, s)[0] == FromLittle(s[..widths[0]])
    ensures Unpack(widths, s)[1] == FromLittle(s[widths[0]..widths[0] + widths[1]])
  {
    hide FromLittle;
    assert Total(widths) == widths[0] + Total(widths[1..]);
    assert s[widths[0]..][..widths[1]] == s[widths[0]..widths[0] + widths[1]];
  }

  ghost predicate Fit(widths: seq<nat>, values: seq<nat>) {
    |widths| == |values| && forall k :: 0 <= k < |values| ==> values[k] < Pow256(widths[k])
  }

  lemma StructParts(x: nat, width: nat, tail: seq<byte>, rest: seq<byte>, s: seq<byte>)
    requires s == Little(x, width) + tail + rest
    ensures s[..width] == Little(x, width) && s[width..] == tail + rest
  {
    hide Little;
  }

  /** Reading a struct gives back every field that fits its width. */
  lemma {:induction false} StructRoundTrip(widths: seq<nat>, values: seq<nat>, rest: seq<byte>)
    requires Fit(widths, values)
    ensures Unpack(widths, Pack(widths, values) + rest) == values
  {
    if widths != [] {
      var s := Pack(widths, values) + rest;
      LittleRoundTrip(values[0], widths[0]);
      StructParts(values[0], widths[0], Pack(widths[1..], values[1..]), rest, s);
      StructRoundTrip(widths[1..], values[1..], rest);
    }
  }

  lemma HeldStruct(data: seq<byte>, pos: nat, widths: seq<nat>, values: seq<nat>)
    requires Fit(widths, values) && Holds(data, pos, Pack(widths, values))
    ensures Unpack(widths, data[pos..]) == values
  {
    var s := Pack(widths, values);
    assert data[pos..] == s + data[pos + |s|..];
    StructRoundTrip(widths, values, data[pos + |s|..]);
  }

  // ---------------------------------------------------------------- arrays of 64-bit integers

  function Words(xs: seq<nat>): (s: seq<byte>)
    ensures |s| == 8 * |xs|
  {
    if xs == [] then [] else Words(xs[..|xs| - 1]) + Little(xs[|xs| - 1], 8)
  }

  lemma {:induction false} WordsAt(xs: seq<nat>, i: nat)
    requires i < |xs|
    ensures Words(xs)[8 * i..8 * i + 8] == Little(xs[i], 8)
  {
    var front := xs[..|xs| - 1];
    if i < |front| {
      WordsAt(front, i);
      assert Words(xs)[8 * i..8 * i + 8] == Words(front)[8 * i..8 * i + 8];
    }
  }

  function WordAt(data: seq<byte>, pos: nat): nat
    requires pos + 8 <= |data|
  {
    FromLittle(data[pos..pos + 8])
  }

  lemma WordRoundTrip(x: nat)
    requires x < TWO64
    ensures FromLittle(Little(x, 8)) == x
  {
    Powers();
    LittleRoundTrip(x, 8);
  }

  lemma HoldsRecord(data: seq<byte>, pos: nat, s: seq<byte>, n: nat, i: nat, w: seq<byte>)
    requires Holds(data, pos, s) && |s| == 8 * n && i < n && |w| == 8 && s[8 * i..8 * i + 8] == w
    ensures pos + 8 * i + 8 <= |data| && data[pos + 8 * i..pos + 8 * i + 8] == w
  {
    HoldsSlice(data, pos, s, 8 * i, 8 * i + 8);
  }

  lemma HeldWord(data: seq<byte>, pos: nat, xs: seq<nat>, i: nat)
    requires Holds(data, pos, Words(xs)) && i < |xs| && xs[i] < TWO64
    ensures pos + 8 * i + 8 <= |data| && WordAt(data, pos + 8 * i) == xs[i]
  {
    hide Words, Little, FromLittle;
    WordsAt(xs, i);
    HoldsRecord(data, pos, Words(xs), |xs|, i, Little(xs[i], 8));
    WordRoundTrip(xs[i]);
  }

  lemma HeldOneWord(data: seq<byte>, pos: nat, x: nat)
    requires Holds(data, pos, Little(x, 8)) && x < TWO64
    ensures pos + 8 <= |data| && WordAt(data, pos) == x
  {
    hide Little, FromLittle;
    WordRoundTrip(x);
  }
}
