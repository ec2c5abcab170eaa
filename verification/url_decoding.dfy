/** How robots.txt patterns and paths are decoded before they are compared (UrlDecode in
    src/crawler/RobotsTxt.cpp): %xx stands for a byte, but %2f is left as it is. */
module UrlDecoding {
  import opened Basics

  const PERCENT: byte := 37
  const SLASH: byte := 47

  /** The value of a hexadecimal digit, or -1. */
  function Hex(c: byte): (v: int)
    ensures -1 <= v < 16
  {
    if 48 <= c <= 57 then c - 48 else if 97 <= c <= 102 then c - 97 + 10 else if 65 <= c <= 70 then c - 65 + 10 else -1
  }

  /** The byte that two digits stand for, unless they are not digits or it is a slash. */
  function Escaped(c: byte, d: byte): Option<byte> {
    if Hex(c) >= 0 && Hex(d) >= 0 && 16 * Hex(c) + Hex(d) != SLASH then Some(16 * Hex(c) + Hex(d)) else None
  }

  // ---------------------------------------------------------------- what the loop does

  /** What the loop writes for the bytes from i on. */
  function Written(path: Text, i: nat): Text
    requires i <= |path|
    decreases |path| - i
  {
    if i == |path| then []
    else if path[i] != PERCENT then [path[i]] + Written(path, i + 1)
    else if i + 2 >= |path| then []
    else
      var e := Escaped(path[i + 1], path[i + 2]);
      if e.Some? then [e.value] + Written(path, i + 3) else [PERCENT] + Written(path, i + 1)
  }

  /** A C string ends at the first byte 0. */
  function UpToZero(s: Text): (r: Text)
    ensures r <= s && 0 !in r && (|r| < |s| ==> s[|r|] == 0)
  {
    if s == [] || s[0] == 0 then [] else [s[0]] + UpToZero(s[1..])
  }

  /** The path is a C string, and so is the result. */
  method UrlDecode(path: Text) returns (decoded: Text)
    requires 0 !in path
    ensures decoded == Decoded(path)
    ensures |decoded| <= |path|
  {
    hide UpToZero, Escaped;
    var t: Text := [];
    var i := 0;
    WrittenSize(path, 0);
    while i < |path|
      invariant i <= |path| && t + Written(path, i) == Written(path, 0)
      decreases |path| - i
    {
      var c := path[i];
      i := i + 1;
      if c == PERCENT {
        if i < |path| {
          i := i + 1;
          if i < |path| {
            var e := Escaped(path[i - 1], path[i]);
            if e.Some? {
              i := i + 1;
              t := t + [e.value];
            } else {
              t := t + [PERCENT];
              i := i - 1;
            }
          }
        }
      } else {
        t := t + [c];
      }
    }
    assert t + [] == t;
    decoded := UpToZero(t);
  }

  lemma {:induction false} WrittenSize(path: Text, i: nat)
    requires i <= |path|
    ensures |Written(path, i)| <= |path| - i
    decreases |path| - i
  {
    hide Escaped;
    if i < |path| {
      WrittenSize(path, i + 1);
      if i + 2 < |path| { WrittenSize(path, i + 3); }
    }
  }

  // ---------------------------------------------------------------- what decoding means

  /** Each percent sign with two digits behind it that are not those of a slash is replaced together with
      them; everything else is literal text. */
  function Meant(path: Text): Text {
    if path == [] then []
    else if path[0] == PERCENT && |path| >= 3 && Escaped(path[1], path[2]).Some?
    then [Escaped(path[1], path[2]).value] + Meant(path[3..])
    else [path[0]] + Meant(path[1..])
  }

  /** A percent sign stands last or second to last. */
  predicate CutShort(path: Text) {
    exists i :: |path| - 2 <= i < |path| && 0 <= i && path[i] == PERCENT
  }

  /** The loop drops an escape that the path ends in the middle of. */
  lemma {:induction false} WrittenIsMeant(path: Text, i: nat)
    requires i <= |path|
    ensures |Written(path, i)| <= |Meant(path[i..])|
    ensures if CutShort(path[i..]) then |Written(path, i)| < |Meant(path[i..])| else Written(path, i) == Meant(path[i..])
    decreases |path| - i
  {
    hide Escaped;
    if i < |path| {
      var rest := path[i..];
      assert rest[0] == path[i] && rest[1..] == path[i + 1..];
      CutLater(rest, 1);
      if path[i] == PERCENT && i + 2 >= |path| {
        assert CutShort(rest) by { assert rest[0] == PERCENT; }
        hide CutShort;
      } else if path[i] == PERCENT && Escaped(path[i + 1], path[i + 2]).Some? {
        assert rest[1] == path[i + 1] && rest[2] == path[i + 2] && rest[3..] == path[i + 3..];
        DigitsAreNoPercent(path[i + 1], path[i + 2]);
        CutLater(rest, 3);
        hide CutShort;
        WrittenIsMeant(path, i + 3);
      } else {
        if i + 2 < |path| { assert rest[1] == path[i + 1] && rest[2] == path[i + 2]; }
        hide CutShort;
        WrittenIsMeant(path, i + 1);
      }
    } else {
      assert path[i..] == [];
    }
  }

  lemma DigitsAreNoPercent(c: byte, d: byte)
    requires Escaped(c, d).Some?
    ensures c != PERCENT && d != PERCENT
  {
  }

  /** Bytes in front that are no percent sign among the last two make no difference. */
  lemma CutLater(s: Text, k: nat)
    requires k <= |s|
    ensures (forall i :: 0 <= i < k ==> s[i] != PERCENT || i + 2 < |s|) ==> (CutShort(s) <==> CutShort(s[k..]))
  {
    var t := s[k..];
    if CutShort(s) {
      var i :| |s| - 2 <= i < |s| && 0 <= i && s[i] == PERCENT;
      if i >= k { assert t[i - k] == PERCENT; }
    }
    if CutShort(t) {
      var i :| |t| - 2 <= i < |t| && 0 <= i && t[i] == PERCENT;
      assert s[i + k] == PERCENT;
    }
  }

  /** When the source decodes as it is meant: exactly if the path does not end in the middle of an escape,
      and no escape stands for the byte 0. */
  lemma DecodesRightIff(path: Text)
    ensures Decoded(path) == Meant(path) <==> !CutShort(path) && 0 !in Meant(path)
  {
    hide Escaped, CutShort;
    assert path[0..] == path;
    WrittenIsMeant(path, 0);
    var w := Written(path, 0);
    if UpToZero(w) == w {
      assert CutShort(path) ==> w != Meant(path);
    } else {
      assert w[|UpToZero(w)|] == 0;
    }
  }

  /** "100%" loses its percent sign, and "50%a" both bytes from it on, although neither is an escape. */
  lemma CutShortExamples()
    ensures Written([49, 48, 48, PERCENT], 0) == [49, 48, 48] && Meant([49, 48, 48, PERCENT]) == [49, 48, 48, PERCENT]
    ensures Written([53, 48, PERCENT, 97], 0) == [53, 48] && Meant([53, 48, PERCENT, 97]) == [53, 48, PERCENT, 97]
  {
    var a, b := [49, 48, 48, PERCENT], [53, 48, PERCENT, 97];
    assert Written(a, 3) == [] && Written(a, 2) == [48] && Written(a, 1) == [48, 48];
    assert Written(b, 2) == [] && Written(b, 1) == [48];
    assert a[1..] == [48, 48, PERCENT] && [48, 48, PERCENT][1..] == [48, PERCENT] && [48, PERCENT][1..] == [PERCENT] && [PERCENT][1..] == [];
    assert Meant([PERCENT]) == [PERCENT] && Meant([48, PERCENT]) == [48, PERCENT] && Meant([48, 48, PERCENT]) == [48, 48, PERCENT];
    assert b[1..] == [48, PERCENT, 97] && [48, PERCENT, 97][1..] == [PERCENT, 97] && [PERCENT, 97][1..] == [97] && [97][1..] == [];
    assert Meant([97]) == [97] && Meant([PERCENT, 97]) == [PERCENT, 97] && Meant([48, PERCENT, 97]) == [48, PERCENT, 97];
  }

  /** What UrlDecode makes of a path. */
  function Decoded(path: Text): Text { UpToZero(Written(path, 0)) }

  // ---------------------------------------------------------------- round trip

  /** One byte of a text as it may be written: as it is, or as two digits, either in any case. */
  datatype Piece = Plain(c: byte) | Code(c: byte, upper: bool, lower: bool)

  function Digit(v: nat, upper: bool): byte
    requires v < 16
  {
    if v < 10 then 48 + v else if upper then 65 + v - 10 else 97 + v - 10
  }

  function PrintPiece(p: Piece): Text {
    match p
    case Plain(c) => [c]
    case Code(c, upper, lower) => [PERCENT, Digit(c / 16, upper), Digit(c % 16, lower)]
  }

  function Print(ps: seq<Piece>): Text {
    if ps == [] then [] else PrintPiece(ps[0]) + Print(ps[1..])
  }

  function TextOf(ps: seq<Piece>): Text {
    if ps == [] then [] else [ps[0].c] + TextOf(ps[1..])
  }

  /** Percent signs are escaped, slashes are not. */
  predicate Escapable(ps: seq<Piece>) {
    forall i :: 0 <= i < |ps| ==> if ps[i].Plain? then ps[i].c != PERCENT else ps[i].c != SLASH
  }

  /** However a text without byte 0 is escaped, decoding gives it back. */
  lemma RoundTrip(ps: seq<Piece>)
    requires Escapable(ps) && 0 !in TextOf(ps)
    ensures Decoded(Print(ps)) == TextOf(ps)
  {
    DecodesEscaped(ps);
    DecodesRightIff(Print(ps));
  }

  lemma {:induction false} DecodesEscaped(ps: seq<Piece>)
    requires Escapable(ps)
    ensures Meant(Print(ps)) == TextOf(ps) && !CutShort(Print(ps))
  {
    if ps != [] {
      DecodesEscaped(ps[1..]);
      var rest, s := Print(ps[1..]), Print(ps);
      var k := |PrintPiece(ps[0])|;
      assert s[k..] == rest && s[0] == PrintPiece(ps[0])[0];
      if ps[0].Code? {
        DigitsBack(ps[0].c, ps[0].upper, ps[0].lower);
        assert s[1] == PrintPiece(ps[0])[1] && s[2] == PrintPiece(ps[0])[2];
        DigitsAreNoPercent(s[1], s[2]);
      }
      CutLater(s, k);
    }
  }

  lemma DigitsBack(c: byte, upper: bool, lower: bool)
    ensures Hex(Digit(c / 16, upper)) == c / 16 && Hex(Digit(c % 16, lower)) == c % 16
    ensures c != SLASH ==> Escaped(Digit(c / 16, upper), Digit(c % 16, lower)) == Some(c)
  {
  }
}
