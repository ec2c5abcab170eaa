/** Variable-byte coding of 32-bit integers, and the delta coding of posting lists
    (src/index/src/lib/vbyte.cpp). */
module VByte {
  import opened Basics

  // ---------------------------------------------------------------- one integer

  /** Seven bits a byte, lowest first; the high bit says that another byte follows. */
  function Code(v: nat): (c: seq<byte>)
    ensures |c| >= 1
  {
    if v < 128 then [v] else [v % 128 + 128] + Code(v / 128)
  }

  /** Some byte of s ends a coded integer. */
  predicate Terminated(s: seq<byte>) {
    s != [] && (s[0] < 128 || Terminated(s[1..]))
  }

  /** The integer whose code s starts with. */
  function Value(s: seq<byte>): nat
    requires Terminated(s)
  {
    if s[0] < 128 then s[0] else s[0] - 128 + 128 * Value(s[1..])
  }

  /** The number of bytes that code takes. */
  function Width(s: seq<byte>): nat
    requires Terminated(s)
    ensures 1 <= Width(s) <= |s|
  {
    if s[0] < 128 then 1 else 1 + Width(s[1..])
  }

  lemma {:induction false} CodeRoundTrip(v: nat, rest: seq<byte>)
    ensures Terminated(Code(v) + rest)
    ensures Value(Code(v) + rest) == v
    ensures Width(Code(v) + rest) == |Code(v)|
  {
    if v >= 128 {
      CodeRoundTrip(v / 128, rest);
      assert (Code(v) + rest)[1..] == Code(v / 128) + rest;
    }
  }

  function Power128(n: nat): (p: nat)
    ensures p > 0
  {
    if n == 0 then 1 else 128 * Power128(n - 1)
  }

  /** The code has as many bytes as the value has digits to the base 128; byte i holds digit i, and its
      high bit says whether another byte follows. */
  lemma {:induction false} CodeIs(v: nat, i: nat)
    requires i < |Code(v)|
    ensures Code(v)[i] == v / Power128(i) % 128 + if i + 1 < |Code(v)| then 128 else 0
    ensures v < Power128(|Code(v)|) && (|Code(v)| > 1 ==> Power128(|Code(v)| - 1) <= v)
    decreases v
  {
    if v >= 128 {
      CodeIs(v / 128, if i > 0 then i - 1 else 0);
      if i > 0 { DivideTwice(v, 128, Power128(i - 1)); }
    }
  }

  /** A 32-bit value takes at most five bytes: the size of the buffer encodeDeltaList writes into. */
  lemma CodeWidth(v: uint32)
    ensures |Code(v)| <= 5
  {
    assert v / 128 < 0x200_0000;
    assert v / 128 / 128 < 0x4_0000;
    assert v / 128 / 128 / 128 < 0x800;
    assert v / 128 / 128 / 128 / 128 < 16;
    var v4 := v / 128 / 128 / 128 / 128;
    assert |Code(v4)| == 1;
    assert |Code(v / 128 / 128 / 128)| <= 2;
    assert |Code(v / 128 / 128)| <= 3;
    assert |Code(v / 128)| <= 4;
  }

  method Encode(value: uint32) returns (out: seq<byte>)
    ensures out == Code(value)
    ensures |out| <= 5
  {
    out := [];
    var v: nat := value;
    var more := true;
    while more
      invariant if more then out + Code(v) == Code(value) else out == Code(value)
      decreases more, v
    {
      var b := v % 128;
      v := v / 128;
      if v != 0 {
        out := out + [b + 128];
      } else {
        out := out + [b];
        more := false;
      }
    }
    CodeWidth(value);
  }

  /** The loop of the decoder as a function of its variables; weight is two to the power of shift. */
  function Accumulate(value: nat, weight: nat, s: seq<byte>): uint32
    requires Terminated(s)
    decreases s
  {
    var v := (value + (s[0] % 128) * weight) % TWO32;
    if s[0] < 128 then v else Accumulate(v, weight * 128, s[1..])
  }

  lemma {:induction false} AccumulateIsValue(value: nat, weight: nat, s: seq<byte>)
    requires Terminated(s)
    ensures Accumulate(value, weight, s) == (value + weight * Value(s)) % TWO32
    decreases s
  {
    if s[0] >= 128 {
      var v := (value + (s[0] % 128) * weight) % TWO32;
      AccumulateIsValue(v, weight * 128, s[1..]);
      WeightStep(value, weight, s[0] % 128, Value(s[1..]));
    } else {
      assert s[0] % 128 == s[0];
      Commute(s[0], weight);
    }
  }

  lemma Commute(a: int, b: int)
    ensures a * b == b * a
  {
  }

  lemma WeightStep(result: nat, weight: nat, b: nat, v: nat)
    ensures (result + weight * (b + 128 * v)) % TWO32
         == ((result + b * weight) % TWO32 + (weight * 128) * v) % TWO32
  {
    var x := result + b * weight;
    var y := (weight * 128) * v;
    Commute(b, weight);
    assert weight * (b + 128 * v) == weight * b + weight * (128 * v);
    assert weight * (128 * v) == y;
    ModAdd(x, y);
  }

  lemma ModAdd(x: nat, y: nat)
    ensures (x + y) % TWO32 == (x % TWO32 + y) % TWO32
  {
  }

  /** Reads one integer and returns it with the position behind it. A shift past bit 31 is undefined
      in the source, hence the bound on the width. */
  method Decode(data: seq<byte>, ptr: nat) returns (value: uint32, next: nat)
    requires ptr <= |data| && Terminated(data[ptr..]) && Width(data[ptr..]) <= 5
    ensures value == Value(data[ptr..]) % TWO32
    ensures next == ptr + Width(data[ptr..]) <= |data|
  {
    value, next := 0, ptr;
    var weight: nat := 1;
    var more := true;
    while more
      invariant ptr <= next <= |data|
      invariant more ==> Terminated(data[next..]) && next + Width(data[next..]) == ptr + Width(data[ptr..])
      invariant more ==> Accumulate(value, weight, data[next..]) == Accumulate(0, 1, data[ptr..])
      invariant !more ==> value == Accumulate(0, 1, data[ptr..]) && next == ptr + Width(data[ptr..])
      decreases more, |data| - next
    {
      var b := data[next];
      assert data[next..][1..] == data[next + 1..];
      value := (value + (b % 128) * weight) % TWO32;
      next := next + 1;
      weight := weight * 128;
      more := b >= 128;
    }
    AccumulateIsValue(0, 1, data[ptr..]);
  }

  // ---------------------------------------------------------------- posting lists

  /** The gap before posting i, in 32-bit arithmetic. */
  function Delta(L: seq<uint32>, i: nat): uint32
    requires i < |L|
  {
    (L[i] - if i == 0 then 0 else L[i - 1]) % TWO32
  }

  /** The delta-coded bytes of a posting list. */
  function Stream(L: seq<uint32>): seq<byte> {
    if L == [] then [] else Stream(L[..|L| - 1]) + Code(Delta(L, |L| - 1))
  }

  /** Where posting i of the list starts in its stream. */
  function Offset(L: seq<uint32>, i: nat): nat
    requires i <= |L|
  {
    |Stream(L[..i])|
  }

  lemma StreamStep(L: seq<uint32>, i: nat)
    requires i < |L|
    ensures Stream(L[..i + 1]) == Stream(L[..i]) + Code(Delta(L, i))
  {
    assert L[..i + 1][..i] == L[..i];
    assert Delta(L[..i + 1], i) == Delta(L, i);
  }

  lemma {:induction false} StreamPrefix(L: seq<uint32>, i: nat)
    requires i <= |L|
    ensures Stream(L[..i]) <= Stream(L)
    decreases |L| - i
  {
    if i == |L| {
      assert L[..i] == L;
    } else {
      StreamPrefix(L, i + 1);
      StreamStep(L, i);
    }
  }

  lemma OffsetZero(L: seq<uint32>)
    ensures Offset(L, 0) == 0
  {
  }

  /** data starts with the coded list L; what follows is the rest of the file. */
  ghost predicate Encodes(data: seq<byte>, L: seq<uint32>) {
    Stream(L) <= data
  }

  lemma StreamAt(data: seq<byte>, L: seq<uint32>, i: nat)
    requires Encodes(data, L) && i < |L|
    ensures Offset(L, i + 1) == Offset(L, i) + |Code(Delta(L, i))|
    ensures Offset(L, i + 1) <= |Stream(L)| <= |data|
    ensures data[Offset(L, i)..] == Code(Delta(L, i)) + data[Offset(L, i + 1)..]
  {
    hide Code, Stream, Delta;
    StreamPrefix(L, i + 1);
    StreamStep(L, i);
    var o, c := Offset(L, i), Code(Delta(L, i));
    assert Stream(L[..i + 1]) <= data;
    assert data[..o + |c|] == Stream(L[..i]) + c;
  }

  /** Reads posting i: the source decodes a gap and adds it to the previous location. */
  method ReadPosting(data: seq<byte>, ptr: nat, prev: uint32, ghost L: seq<uint32>, ghost i: nat)
    returns (location: uint32, next: nat)
    requires Encodes(data, L) && i < |L| && ptr == Offset(L, i)
    requires prev == if i == 0 then 0 else L[i - 1]
    ensures location == L[i]
    ensures ptr < next == Offset(L, i + 1) <= |Stream(L)| <= |data|
  {
    hide Code, Stream, Value, Width, Terminated, Delta, Offset, Encodes;
    StreamAt(data, L, i);
    CodeRoundTrip(Delta(L, i), data[Offset(L, i + 1)..]);
    CodeWidth(Delta(L, i));
    var delta;
    delta, next := Decode(data, ptr);
    DeltaUndone(L, i);
    location := (prev + delta) % TWO32;
  }

  lemma {:induction false} OffsetMonotone(L: seq<uint32>, i: nat, j: nat)
    requires i < j <= |L|
    ensures Offset(L, i) < Offset(L, j)
    decreases j
  {
    StreamStep(L, j - 1);
    if i < j - 1 {
      OffsetMonotone(L, i, j - 1);
    }
  }

  /** Each posting takes at least one and at most five bytes. */
  lemma {:induction false} StreamSize(L: seq<uint32>)
    ensures |L| <= |Stream(L)| <= 5 * |L|
  {
    if L != [] {
      StreamSize(L[..|L| - 1]);
      CodeWidth(Delta(L, |L| - 1));
    }
  }

  /** Adding the gap to the previous location gives the location, whatever the order of the list. */
  lemma DeltaUndone(L: seq<uint32>, i: nat)
    requires i < |L|
    ensures ((if i == 0 then 0 else L[i - 1]) + Delta(L, i)) % TWO32 == L[i]
  {
  }

  method EncodeDeltaList(locations: seq<uint32>) returns (out: seq<byte>)
    ensures out == Stream(locations)
  {
    hide Code;
    out := [];
    var prev: uint32 := 0;
    for i := 0 to |locations|
      invariant out == Stream(locations[..i])
      invariant prev == if i == 0 then 0 else locations[i - 1]
    {
      var value := (locations[i] - prev) % TWO32;
      var buf := Encode(value);
      StreamStep(locations, i);
      out := out + buf;
      prev := locations[i];
    }
    assert locations[..|locations|] == locations;
  }

  /** Decoding undoes encoding for every list of 32-bit integers, ascending or not. */
  method DecodeDeltaList(data: seq<byte>, count: nat, ghost L: seq<uint32>) returns (out: seq<uint32>)
    requires Encodes(data, L) && count <= |L|
    ensures out == L[..count]
  {
    hide Stream, Offset, Encodes;
    out := [];
    var ptr := 0;
    OffsetZero(L);
    var prev: uint32 := 0;
    for i := 0 to count
      invariant out == L[..i]
      invariant ptr == Offset(L, i)
      invariant prev == if i == 0 then 0 else L[i - 1]
    {
      prev, ptr := ReadPosting(data, ptr, prev, L, i);
      out := out + [prev];
    }
  }
}
