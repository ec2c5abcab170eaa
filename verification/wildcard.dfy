/** The path patterns of robots.txt: a scan with a single point to fall back to, against what '*' and
    '$' mean in section 2.2.3 of RFC 9309 (class Wildcard in src/crawler/RobotsTxt.cpp). */
module RobotsWildcard {
  import opened Basics
  import opened UrlDecoding

  const STAR: byte := 42
  const DOLLAR: byte := 36

  // ---------------------------------------------------------------- what a pattern means

  function Stars(w: Text): nat {
    if w == [] then 0 else Stars(w[1..]) + if w[0] == STAR then 1 else 0
  }

  /** The pattern with its stars replaced by texts, in order. */
  function Fill(w: Text, texts: seq<Text>): Text
    requires |texts| == Stars(w)
  {
    if w == [] then []
    else if w[0] == STAR then texts[0] + Fill(w[1..], texts[1..])
    else [w[0]] + Fill(w[1..], texts)
  }

  /** The path begins with the pattern for some texts in place of the stars, and ends with it too when
      the pattern is anchored by '$'. */
  ghost predicate Denotes(w: Text, anchored: bool, path: Text) {
    exists texts: seq<Text>, rest: Text :: IsFilling(w, anchored, path, texts, rest)
  }

  ghost predicate IsFilling(w: Text, anchored: bool, path: Text, texts: seq<Text>, rest: Text) {
    |texts| == Stars(w) && Fill(w, texts) + rest == path && (anchored ==> rest == [])
  }

  // ---------------------------------------------------------------- the same, from left to right

  ghost predicate Fits(w: Text, anchored: bool, path: Text) {
    if w == [] then !anchored || path == []
    else if w[0] == STAR then exists k :: 0 <= k <= |path| && Fits(w[1..], anchored, path[k..])
    else path != [] && path[0] == w[0] && Fits(w[1..], anchored, path[1..])
  }

  lemma {:induction false} FitsIffDenotes(w: Text, anchored: bool, path: Text)
    ensures Fits(w, anchored, path) <==> Denotes(w, anchored, path)
  {
    if Fits(w, anchored, path) {
      var texts, rest := FillingOf(w, anchored, path);
      assert IsFilling(w, anchored, path, texts, rest);
    }
    if texts: seq<Text>, rest: Text :| IsFilling(w, anchored, path, texts, rest) {
      FillingFits(w, anchored, path, texts, rest);
    }
  }

  lemma {:induction false} FillingOf(w: Text, anchored: bool, path: Text) returns (texts: seq<Text>, rest: Text)
    requires Fits(w, anchored, path)
    ensures IsFilling(w, anchored, path, texts, rest)
    decreases |w|
  {
    if w == [] {
      texts, rest := [], path;
    } else if w[0] == STAR {
      var k :| 0 <= k <= |path| && Fits(w[1..], anchored, path[k..]);
      texts, rest := FillingOf(w[1..], anchored, path[k..]);
      texts := [path[..k]] + texts;
      assert path == path[..k] + path[k..];
    } else {
      texts, rest := FillingOf(w[1..], anchored, path[1..]);
      assert path == [path[0]] + path[1..];
    }
  }

  lemma {:induction false} FillingFits(w: Text, anchored: bool, path: Text, texts: seq<Text>, rest: Text)
    requires IsFilling(w, anchored, path, texts, rest)
    ensures Fits(w, anchored, path)
    decreases |w|
  {
    if w != [] {
      if w[0] == STAR {
        var k := |texts[0]|;
        assert path[k..] == Fill(w[1..], texts[1..]) + rest;
        FillingFits(w[1..], anchored, path[k..], texts[1..], rest);
      } else {
        assert path[1..] == Fill(w[1..], texts) + rest;
        FillingFits(w[1..], anchored, path[1..], texts, rest);
      }
    }
  }

  // ---------------------------------------------------------------- literal stretches and stars

  ghost predicate NoStars(w: Text, from: nat, to: nat)
    requires from <= to <= |w|
  {
    forall i :: from <= i < to ==> w[i] != STAR
  }

  /** A stretch without stars stands in the path as it is. */
  lemma {:induction false} Literal(w: Text, b: nat, i: nat, anchored: bool, path: Text, m: nat)
    requires b <= i <= |w| && NoStars(w, b, i) && m <= |path|
    ensures Fits(w[b..], anchored, path[m..])
       <==> m + (i - b) <= |path| && path[m..m + (i - b)] == w[b..i] && Fits(w[i..], anchored, path[m + (i - b)..])
    decreases i - b
  {
    if b == i {
      assert path[m..m] == w[b..i];
    } else {
      assert w[b..][0] == w[b] && w[b..][1..] == w[b + 1..];
      if m < |path| {
        assert path[m..][0] == path[m] && path[m..][1..] == path[m + 1..];
        Literal(w, b + 1, i, anchored, path, m + 1);
        if m + (i - b) <= |path| {
          assert path[m..m + (i - b)] == [path[m]] + path[m + 1..m + (i - b)];
          assert w[b..i] == [w[b]] + w[b + 1..i];
        }
      }
    }
  }

  /** Some place from k on fits. */
  ghost predicate FitsFrom(w: Text, b: nat, anchored: bool, path: Text, k: nat)
    requires b <= |w| && k <= |path|
  {
    exists m :: k <= m <= |path| && Fits(w[b..], anchored, path[m..])
  }

  /** One star, or many, let the rest fit anywhere. */
  lemma {:induction false} StarRun(w: Text, i: nat, b: nat, anchored: bool, path: Text, m: nat)
    requires i < b <= |w| && m <= |path| && forall x :: i <= x < b ==> w[x] == STAR
    ensures Fits(w[i..], anchored, path[m..]) <==> FitsFrom(w, b, anchored, path, m)
    decreases b - i
  {
    assert w[i..][0] == w[i] && w[i..][1..] == w[i + 1..];
    forall k | 0 <= k <= |path| - m ensures path[m..][k..] == path[m + k..] {}
    if Fits(w[i..], anchored, path[m..]) {
      var k :| 0 <= k <= |path[m..]| && Fits(w[i + 1..], anchored, path[m..][k..]);
      assert path[m..][k..] == path[m + k..];
      if i + 1 < b {
        StarRun(w, i + 1, b, anchored, path, m + k);
      }
    }
    if n :| m <= n <= |path| && Fits(w[b..], anchored, path[n..]) {
      if i + 1 < b {
        StarRun(w, i + 1, b, anchored, path, m);
        assert path[m..][0..] == path[m..];
      } else {
        assert path[m..][n - m..] == path[n..];
      }
    }
  }

  /** What is left of the pattern fits the empty rest of the path exactly when it is all stars. */
  lemma {:induction false} FitsNothing(w: Text, i: nat, anchored: bool)
    requires i <= |w|
    ensures Fits(w[i..], anchored, []) <==> forall x :: i <= x < |w| ==> w[x] == STAR
    decreases |w| - i
  {
    if i < |w| {
      assert w[i..][0] == w[i] && w[i..][1..] == w[i + 1..];
      FitsNothing(w, i + 1, anchored);
      var nothing: Text := [];
      assert nothing[0..] == [];
    }
  }

  // ---------------------------------------------------------------- the scan

  /** The scan stands at i in the pattern and j in the path. Since the start, or since the last run of
      stars, which ended at b, the pattern was read literally from k on. */
  ghost predicate Scanning(w: Text, anchored: bool, path: Text, i: nat, j: nat, back: bool, b: nat, k: nat) {
    && b <= i <= |w| && k <= j <= |path| && i - b == j - k
    && NoStars(w, b, i) && path[k..j] == w[b..i]
    && (!back ==> b == 0 && k == 0)
    && (i == |w| && !anchored ==> back && b == i)
    && (Fits(w, anchored, path) <==> if back then FitsFrom(w, b, anchored, path, k) else Fits(w[b..], anchored, path[k..]))
  }

  /** In terms of where the scan stands: the place of the last stars fits, or a later one does. */
  lemma Here(w: Text, anchored: bool, path: Text, i: nat, j: nat, back: bool, b: nat, k: nat)
    requires Scanning(w, anchored, path, i, j, back, b, k)
    ensures Fits(w[b..], anchored, path[k..]) <==> Fits(w[i..], anchored, path[j..])
    ensures Fits(w[i..], anchored, path[j..]) ==> Fits(w, anchored, path)
    ensures !back ==> (Fits(w, anchored, path) <==> Fits(w[i..], anchored, path[j..]))
  {
    hide Fits;
    Literal(w, b, i, anchored, path, k);
  }

  /** If the text behind the last stars fits somewhere, then the stars after it fit where the scan stands. */
  lemma StarsLater(w: Text, anchored: bool, path: Text, i: nat, j: nat, b: nat, k: nat, b': nat)
    requires b <= i < b' <= |w| && k <= j <= |path| && i - b == j - k && NoStars(w, b, i)
    requires FitsFrom(w, b, anchored, path, k) && forall x :: i <= x < b' ==> w[x] == STAR
    ensures FitsFrom(w, b', anchored, path, j)
  {
    hide Fits;
    var m :| k <= m <= |path| && Fits(w[b..], anchored, path[m..]);
    Literal(w, b, i, anchored, path, m);
    StarRun(w, i, b', anchored, path, m + (i - b));
  }

  /** A new run of stars makes the place reached the only one to fall back to. */
  lemma StarStep(w: Text, anchored: bool, path: Text, i: nat, j: nat, back: bool, b: nat, k: nat, b': nat)
    requires Scanning(w, anchored, path, i, j, back, b, k)
    requires i < b' <= |w| && forall x :: i <= x < b' ==> w[x] == STAR
    ensures Scanning(w, anchored, path, b', j, true, b', j)
  {
    hide Fits, FitsFrom;
    Here(w, anchored, path, i, j, back, b, k);
    StarRun(w, i, b', anchored, path, j);
    if back && Fits(w, anchored, path) { StarsLater(w, anchored, path, i, j, b, k, b'); }
    assert path[j..j] == [] && w[b'..b'] == [];
  }

  lemma LiteralStep(w: Text, anchored: bool, path: Text, i: nat, j: nat, back: bool, b: nat, k: nat)
    requires Scanning(w, anchored, path, i, j, back, b, k) && i < |w| && j < |path| && w[i] == path[j] && w[i] != STAR
    ensures i + 1 == |w| && !anchored ==> Fits(w, anchored, path)
    ensures i + 1 < |w| || anchored ==> Scanning(w, anchored, path, i + 1, j + 1, back, b, k)
  {
    hide Fits;
    assert path[k..j + 1] == path[k..j] + [path[j]] && w[b..i + 1] == w[b..i] + [w[i]];
    Literal(w, b, i + 1, anchored, path, k);
    if i + 1 == |w| && !anchored {
      assert w[i + 1..] == [];
      FitsEmpty(path[j + 1..]);
      Here(w, anchored, path, i, j, back, b, k);
    }
  }

  lemma FitsEmpty(path: Text)
    ensures Fits([], false, path)
    ensures Fits([], true, path) <==> path == []
  {
  }

  /** A mismatch: the place to fall back to does not fit, so the next one takes its turn. */
  lemma BackStep(w: Text, anchored: bool, path: Text, i: nat, j: nat, back: bool, b: nat, k: nat)
    requires Scanning(w, anchored, path, i, j, back, b, k) && j < |path|
    requires i < |w| ==> w[i] != STAR && w[i] != path[j]
    ensures back ==> Scanning(w, anchored, path, b, k + 1, true, b, k + 1)
    ensures !back ==> !Fits(w, anchored, path)
  {
    Here(w, anchored, path, i, j, back, b, k);
    if i == |w| {
      assert w[i..] == [];
    } else {
      assert w[i..][0] == w[i] && path[j..][0] == path[j];
    }
    if back && i == |w| && !anchored {
      assert path[k + 1..] == path[k + 1..|path|];
      assert Fits(w[b..], anchored, path[k + 1..]);
    }
  }

  /** At the end of the path only stars may be left. */
  lemma EndStep(w: Text, anchored: bool, path: Text, i: nat, back: bool, b: nat, k: nat)
    requires Scanning(w, anchored, path, i, |path|, back, b, k)
    ensures Fits(w, anchored, path) <==> forall x :: i <= x < |w| ==> w[x] == STAR
  {
    hide Fits;
    Here(w, anchored, path, i, |path|, back, b, k);
    assert path[|path|..] == [];
    FitsNothing(w, i, anchored);
    if back && Fits(w, anchored, path) {
      var m :| k <= m <= |path| && Fits(w[b..], anchored, path[m..]);
      Literal(w, b, i, anchored, path, m);
      assert m == k;
    }
  }

  lemma ScanStarts(w: Text, anchored: bool, path: Text)
    requires w != []
    ensures Scanning(w, anchored, path, 0, 0, false, 0, 0)
  {
    assert w[0..] == w && path[0..] == path;
    assert path[0..0] == w[0..0];
  }

  /** The text of a pattern: one leading slash is dropped, and the rest is decoded if it has a percent sign. */
  function PatternText(arg: Text): Text {
    var rest := if arg != [] && arg[0] == SLASH then arg[1..] else arg;
    if PERCENT in rest then Decoded(rest) else rest
  }

  /** A pattern without slash in front, however it is escaped, stands for the same text with a slash in
      front or without. */
  lemma PatternEscaped(ps: seq<Piece>)
    requires Escapable(ps) && 0 !in TextOf(ps)
    ensures PatternText([SLASH] + Print(ps)) == TextOf(ps)
    ensures (ps != [] ==> ps[0] != Plain(SLASH)) ==> PatternText(Print(ps)) == TextOf(ps)
  {
    hide Decoded;
    RoundTrip(ps);
    assert ([SLASH] + Print(ps))[1..] == Print(ps);
    if PERCENT !in Print(ps) { PlainAsIs(ps); }
    if ps != [] { assert Print(ps)[0] == PrintPiece(ps[0])[0]; }
  }

  lemma {:induction false} PlainAsIs(ps: seq<Piece>)
    requires PERCENT !in Print(ps)
    ensures Print(ps) == TextOf(ps)
  {
    if ps != [] {
      assert Print(ps) == PrintPiece(ps[0]) + Print(ps[1..]);
      assert Print(ps)[0] == PrintPiece(ps[0])[0];
      PlainAsIs(ps[1..]);
    }
  }

  class Wildcard {
    const wildcard: Text
    const literalBytes: nat
    const endsInDollarSign: bool

    /** From an argument: a final '$' of its text becomes the anchor, even one that was written encoded. */
    constructor (arg: Text)
      requires 0 !in arg
      ensures var text := PatternText(arg);
        && endsInDollarSign == (text != [] && text[|text| - 1] == DOLLAR)
        && text == wildcard + if endsInDollarSign then [DOLLAR] else []
      ensures literalBytes == |wildcard| - Stars(wildcard)
    {
      hide Decoded;
      var text := arg;
      if arg != [] && arg[0] == SLASH {
        text := arg[1..];
      }
      var needsDecoding := false;
      for i := 0 to |text|
        invariant !needsDecoding && forall j :: 0 <= j < i ==> text[j] != PERCENT
      {
        if text[i] == PERCENT {
          needsDecoding := true;
          break;
        }
      }
      if needsDecoding {
        text := UrlDecode(text);
      }
      assert text == PatternText(arg);
      var length := |text|;
      var anchored := length > 0 && text[length - 1] == DOLLAR;
      if anchored {
        length := length - 1;
      }
      var count := 0;
      var w := text[..length];
      assert w[0..] == w;
      for i := 0 to length
        invariant count + |w[i..]| - Stars(w[i..]) == |w| - Stars(w)
      {
        assert w[i..][0] == w[i] && w[i..][1..] == w[i + 1..];
        if w[i] != STAR { count := count + 1; }
      }
      wildcard, endsInDollarSign, literalBytes := w, anchored, count;
    }

    /** Decides whether the path fits a pattern that is not empty; an empty one fits nothing. */
    method Match(path: Text) returns (r: bool)
      ensures wildcard != [] ==> (r <==> Denotes(wildcard, endsInDollarSign, path))
      ensures wildcard == [] ==> !r
    {
      hide Fits, Denotes, Scanning;
      if wildcard == [] {
        return false;
      }
      FitsIffDenotes(wildcard, endsInDollarSign, path);
      ScanStarts(wildcard, endsInDollarSign, path);
      var i, j: nat := 0, 0;
      var back, wBack: nat, pBack: nat := false, 0, 0;
      while j < |path|
        invariant i <= |wildcard| && wBack <= i && pBack <= j <= |path|
        invariant Scanning(wildcard, endsInDollarSign, path, i, j, back, wBack, pBack)
        decreases |wildcard| - wBack, |path| - pBack, |path| - j
      {
        if i < |wildcard| && wildcard[i] == STAR {
          var from := i;
          i := SkipStars(i);
          StarStep(wildcard, endsInDollarSign, path, from, j, back, wBack, pBack, i);
          back, wBack, pBack := true, i, j;
        } else if i < |wildcard| && wildcard[i] == path[j] {
          LiteralStep(wildcard, endsInDollarSign, path, i, j, back, wBack, pBack);
          i, j := i + 1, j + 1;
          if i == |wildcard| && !endsInDollarSign {
            return true;
          }
        } else {
          BackStep(wildcard, endsInDollarSign, path, i, j, back, wBack, pBack);
          if !back {
            return false;
          }
          pBack := pBack + 1;
          i, j := wBack, pBack;
        }
      }
      EndStep(wildcard, endsInDollarSign, path, i, back, wBack, pBack);
      var end := SkipStars(i);
      r := end == |wildcard|;
    }

    method SkipStars(from: nat) returns (i: nat)
      requires from <= |wildcard|
      ensures from <= i <= |wildcard| && (forall x :: from <= x < i ==> wildcard[x] == STAR)
      ensures i < |wildcard| ==> wildcard[i] != STAR
    {
      i := from;
      while i < |wildcard| && wildcard[i] == STAR
        invariant from <= i <= |wildcard| && forall x :: from <= x < i ==> wildcard[x] == STAR
      {
        i := i + 1;
      }
    }
  }

  /** By the standard the empty pattern fits every path, and '$' alone the empty one; the source lets
      neither fit anything. */
  lemma EmptyPatternMeans(path: Text)
    ensures Denotes([], false, path)
    ensures Denotes([], true, path) <==> path == []
  {
    FitsIffDenotes([], false, path);
    FitsIffDenotes([], true, path);
  }

  /** When Match answers rightly: for every pattern but the empty one, and for the empty one only where it
      is anchored and the path is not empty. */
  lemma MatchRightIff(w: Text, anchored: bool, path: Text)
    ensures ((w != [] && Denotes(w, anchored, path)) <==> Denotes(w, anchored, path)) <==> w != [] || (anchored && path != [])
  {
    hide Denotes;
    if w == [] { EmptyPatternMeans(path); }
  }

  /** "/", as in "Disallow: /", loses its slash: it denotes every path, and Match lets it fit none. */
  lemma SlashIsEmpty(path: Text)
    ensures PatternText([SLASH]) == [] && Denotes(PatternText([SLASH]), false, path)
  {
    EmptyPatternMeans(path);
  }
}
