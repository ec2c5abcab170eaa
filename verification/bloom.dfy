/** The filter that keeps an address from being queued twice (UrlBloomFilter in
    src/crawler/url_dedup.cpp). */
module Bloom {
  import opened Basics

  const TWO64: nat := 0x1_0000_0000_0000_0000

  /** The two halves of the digest of a key. */
  datatype KeyHash = KeyHash(h1: nat, h2: nat)

  /** The bit that probe i of a key looks at, computed in 64 bits. */
  function Probe(h: KeyHash, i: nat, bitCount: nat): (index: nat)
    requires bitCount > 0
    ensures index < bitCount
  {
    ((h.h1 + (i + 1) * h.h2) % TWO64) % bitCount
  }

  /** As long as 64 bits are enough, the probes of a key are one second half of its digest apart, starting
      one such step behind the first half. */
  lemma ProbesStep(h: KeyHash, i: nat, bitCount: nat)
    requires bitCount > 0 && h.h1 + (i + 2) * h.h2 < TWO64
    ensures Probe(h, i + 1, bitCount) == (Probe(h, i, bitCount) + h.h2) % bitCount
    ensures Probe(h, 0, bitCount) == (h.h1 + h.h2) % bitCount
  {
    hide Probe;
    var a, b := h.h1 + (i + 1) * h.h2, h.h2;
    assert h.h1 + (i + 2) * b == a + b;
    LessTimes(b, 1, i + 2);
    Unwrapped(h, i, bitCount, a);
    Unwrapped(h, i + 1, bitCount, a + b);
    Unwrapped(h, 0, bitCount, h.h1 + b);
    Remainders(a, b, bitCount);
  }

  lemma Unwrapped(h: KeyHash, i: nat, bitCount: nat, x: nat)
    requires bitCount > 0 && x == h.h1 + (i + 1) * h.h2 < TWO64
    ensures Probe(h, i, bitCount) == x % bitCount
  {
    assert x % TWO64 == x;
  }

  lemma Remainders(a: nat, b: nat, n: nat)
    requires n > 0
    ensures (a + b) % n == (a % n + b) % n
  {
    var q, r := a / n, a % n;
    var k, t := (r + b) / n, (r + b) % n;
    assert a == n * q + r && r + b == n * k + t;
    OneQuotient(a + b, n, q, k, t);
  }

  lemma OneQuotient(x: nat, n: nat, q: nat, k: nat, t: nat)
    requires n > 0 && x == n * q + (n * k + t) && t < n
    ensures x % n == t
  {
    assert n * q + n * k == n * (q + k);
    QuotientIs(x, n, q + k, t);
  }

  /** All bits of a key are set. */
  ghost predicate AllSet(bits: seq<bool>, h: KeyHash, hashCount: nat)
    requires |bits| > 0
  {
    forall i :: 0 <= i < hashCount ==> bits[Probe(h, i, |bits|)]
  }

  /** No bit was cleared. */
  ghost predicate Grown(before: seq<bool>, after: seq<bool>) {
    |before| == |after| && forall i :: 0 <= i < |before| && before[i] ==> after[i]
  }

  lemma GrownKeeps(before: seq<bool>, after: seq<bool>, h: KeyHash, hashCount: nat)
    requires |before| > 0 && Grown(before, after) && AllSet(before, h, hashCount)
    ensures AllSet(after, h, hashCount)
  {
  }

  /** Some probe of a key looks at bit b. */
  ghost predicate IsProbe(h: KeyHash, hashCount: nat, bitCount: nat, b: nat)
    requires bitCount > 0
  {
    exists i :: 0 <= i < hashCount && Probe(h, i, bitCount) == b
  }

  /** The bits of one key are added, and no other. */
  ghost predicate AddsBitsOf(before: seq<bool>, after: seq<bool>, h: KeyHash, hashCount: nat) {
    && |before| == |after| > 0
    && forall b :: 0 <= b < |before| ==> (after[b] <==> before[b] || IsProbe(h, hashCount, |before|, b))
  }

  /** Some of the keys has a probe at bit b. */
  ghost predicate Covered(keys: seq<Text>, hashKey: Text -> KeyHash, hashCount: nat, bitCount: nat, b: nat)
    requires bitCount > 0
  {
    exists u :: u in keys && IsProbe(hashKey(u), hashCount, bitCount, b)
  }

  /** The bits that are set are the bits of the keys. */
  ghost predicate BitsOf(bits: seq<bool>, keys: seq<Text>, hashKey: Text -> KeyHash, hashCount: nat)
    requires |bits| > 0
  {
    forall b :: 0 <= b < |bits| ==> (bits[b] <==> Covered(keys, hashKey, hashCount, |bits|, b))
  }

  lemma BitsOfMore(before: seq<bool>, after: seq<bool>, keys: seq<Text>, key: Text, hashKey: Text -> KeyHash, hashCount: nat)
    requires |before| > 0 && BitsOf(before, keys, hashKey, hashCount) && AddsBitsOf(before, after, hashKey(key), hashCount)
    ensures BitsOf(after, keys + [key], hashKey, hashCount)
  {
    hide IsProbe;
    forall b | 0 <= b < |after| ensures after[b] <==> Covered(keys + [key], hashKey, hashCount, |after|, b) {
      assert forall u :: u in keys + [key] <==> u in keys || u == key;
    }
  }

  /** A filter made of some keys answers yes exactly for keys all of whose probes fall on bits of those
      keys: for the keys themselves, and for another one only by collision at every probe. */
  lemma ContainsIffCovered(bits: seq<bool>, keys: seq<Text>, key: Text, hashKey: Text -> KeyHash, hashCount: nat)
    requires |bits| > 0 && BitsOf(bits, keys, hashKey, hashCount)
    ensures AllSet(bits, hashKey(key), hashCount)
       <==> forall i :: 0 <= i < hashCount ==> Covered(keys, hashKey, hashCount, |bits|, Probe(hashKey(key), i, |bits|))
    ensures key in keys ==> AllSet(bits, hashKey(key), hashCount)
  {
    forall i | 0 <= i < hashCount && key in keys
      ensures Covered(keys, hashKey, hashCount, |bits|, Probe(hashKey(key), i, |bits|))
    {
      assert IsProbe(hashKey(key), hashCount, |bits|, Probe(hashKey(key), i, |bits|));
    }
  }

  /** A key all of whose probes fall on bits of other keys. */
  ghost predicate Collides(keys: seq<Text>, key: Text, hashKey: Text -> KeyHash, hashCount: nat, bitCount: nat)
    requires bitCount > 0
  {
    forall i :: 0 <= i < hashCount ==> CoveredByOther(keys, key, hashKey, hashCount, bitCount, Probe(hashKey(key), i, bitCount))
  }

  ghost predicate CoveredByOther(keys: seq<Text>, key: Text, hashKey: Text -> KeyHash, hashCount: nat, bitCount: nat, b: nat)
    requires bitCount > 0
  {
    exists u :: u in keys && u != key && IsProbe(hashKey(u), hashCount, bitCount, b)
  }

  /** A filter made of some keys answers yes exactly for those keys and for the ones that collide. */
  lemma KnownOrCollides(bits: seq<bool>, keys: seq<Text>, key: Text, hashKey: Text -> KeyHash, hashCount: nat)
    requires |bits| > 0 && BitsOf(bits, keys, hashKey, hashCount)
    ensures AllSet(bits, hashKey(key), hashCount) <==> key in keys || Collides(keys, key, hashKey, hashCount, |bits|)
  {
    hide IsProbe, Probe, BitsOf, AllSet;
    ContainsIffCovered(bits, keys, key, hashKey, hashCount);
    forall b: nat ensures CoveredByOther(keys, key, hashKey, hashCount, |bits|, b) ==> Covered(keys, hashKey, hashCount, |bits|, b) {}
    forall b: nat ensures Covered(keys, hashKey, hashCount, |bits|, b) && key !in keys ==> CoveredByOther(keys, key, hashKey, hashCount, |bits|, b) {}
  }

  class UrlBloomFilter {
    const hashKey: Text -> KeyHash
    const hashCount: nat
    const bitCount: nat
    var bits: seq<bool>

    ghost predicate Valid()
      reads this
    {
      |bits| == bitCount > 0 && hashCount > 0
    }

    /** What probablyContains answers. */
    ghost predicate Contains(key: Text)
      requires Valid()
      reads this
    {
      key != [] && AllSet(bits, hashKey(key), hashCount)
    }

    /** The filter as it is after exactly these keys were inserted. */
    ghost predicate MadeOf(keys: seq<Text>)
      requires Valid()
      reads this
    {
      BitsOf(bits, keys, hashKey, hashCount)
    }

    /** The sizes computed from expected load and error rate; neither stays 0. */
    constructor (bitCount: nat, hashCount: nat, hashKey: Text -> KeyHash)
      ensures Valid() && this.hashKey == hashKey && MadeOf([]) && forall key :: !Contains(key)
    {
      this.hashKey := hashKey;
      this.hashCount := if hashCount == 0 then 1 else hashCount;
      var count := if bitCount == 0 then 1 else bitCount;
      this.bitCount := count;
      bits := seq(count, _ => false);
      new;
      forall key ensures !Contains(key) {
        assert !bits[Probe(hashKey(key), 0, |bits|)];
      }
    }

    method ProbablyContains(key: Text) returns (r: bool)
      requires Valid()
      ensures r <==> Contains(key)
    {
      if key == [] {
        return false;
      }
      var h := hashKey(key);
      for i := 0 to hashCount
        invariant forall j :: 0 <= j < i ==> bits[Probe(h, j, |bits|)]
      {
        if !bits[Probe(h, i, |bits|)] {
          return false;
        }
      }
      return true;
    }

    /** Afterwards the key, unless empty, and everything contained before are contained. */
    method Insert(key: Text)
      requires Valid()
      modifies this
      ensures Valid() && Grown(old(bits), bits)
      ensures key != [] ==> Contains(key)
      ensures if key == [] then bits == old(bits) else AddsBitsOf(old(bits), bits, hashKey(key), hashCount)
      ensures forall k :: old(Contains(k)) ==> Contains(k)
    {
      if key == [] {
        return;
      }
      var h := hashKey(key);
      for i := 0 to hashCount
        invariant Valid() && Grown(old(bits), bits)
        invariant forall j :: 0 <= j < i ==> bits[Probe(h, j, |bits|)]
        invariant forall b :: 0 <= b < |bits| && bits[b] ==> old(bits)[b] || IsProbe(h, hashCount, |bits|, b)
      {
        bits := bits[Probe(h, i, |bits|) := true];
      }
      forall k | old(Contains(k)) ensures Contains(k) { GrownKeeps(old(bits), bits, hashKey(k), hashCount); }
    }

    /** True exactly for a key, not empty, that was not contained; it is contained afterwards. */
    method CheckAndInsert(key: Text) returns (isNew: bool)
      requires Valid()
      modifies this
      ensures Valid() && Grown(old(bits), bits)
      ensures isNew <==> key != [] && !old(Contains(key))
      ensures if isNew then AddsBitsOf(old(bits), bits, hashKey(key), hashCount) else bits == old(bits)
      ensures key != [] ==> Contains(key)
      ensures forall k :: old(Contains(k)) ==> Contains(k)
    {
      if key == [] {
        return false;
      }
      var h := hashKey(key);
      for i := 0 to hashCount
        invariant bits == old(bits)
        invariant forall j :: 0 <= j < i ==> bits[Probe(h, j, |bits|)]
      {
        if !bits[Probe(h, i, |bits|)] {
          Insert(key);
          return true;
        }
      }
      return false;
    }
  }
}
