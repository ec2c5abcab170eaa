/** Fixed-width integers of the source, and the types its nullable pointers, std::optional results
    and exceptions become. */
module Basics {
  const TWO32: int := 0x1_0000_0000

  type uint32 = x: int | 0 <= x < 0x1_0000_0000
  type byte = x: int | 0 <= x < 256

  /** A C++ string is a sequence of bytes. */
  type Text = seq<byte>

  /** ISRSentinel: what an exhausted iterator returns. */
  const SENTINEL: uint32 := 0xFFFF_FFFF

  datatype Option<+T> = None | Some(value: T)

  datatype Result<+T> = Ok(value: T) | Err(error: Error)

  datatype Error = Truncated | BadMagic | BadVersion | TooSmall | WrongSize

  function Max(a: int, b: int): int { if a < b then b else a }

  function Min(a: int, b: int): int { if a < b then a else b }

  ghost predicate NoDuplicates(s: seq<Text>) {
    forall i, j :: 0 <= i < j < |s| ==> s[i] != s[j]
  }

  lemma LessTimes(d: nat, a: nat, b: nat)
    ensures a <= b ==> d * a <= d * b
  {
    if a <= b { assert d * b == d * a + d * (b - a); }
  }

  lemma QuotientIs(x: nat, d: nat, q: nat, r: nat)
    requires d > 0 && x == d * q + r && r < d
    ensures x / d == q && x % d == r
  {
    var k := x / d;
    assert d * k <= x < d * (k + 1);
    LessTimes(d, k + 1, q);
    LessTimes(d, q + 1, k);
  }

  /** Dividing by a product is dividing twice. */
  lemma DivideTwice(x: nat, c: nat, p: nat)
    requires c > 0 && p > 0
    ensures c * p > 0 && x / (c * p) == x / c / p
  {
    var q := x / c;
    var a := q / p;
    var r := c * (q % p) + x % c;
    assert q == p * a + q % p && x == c * q + x % c;
    assert c * q == c * (p * a) + c * (q % p);
    assert c * (p * a) == (c * p) * a;
    LessTimes(c, q % p + 1, p);
    assert c * (q % p + 1) == c * (q % p) + c;
    assert c * p > 0 by { LessTimes(c, 1, p); }
    QuotientIs(x, c * p, a, r);
  }
}
