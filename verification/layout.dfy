/** What the iterators are about: sets of locations, and the documents that divide the location
    space. */
module Layout {
  import opened Basics

  /** First and last location of a document; the last is where its #DocEnd marker stands. */
  datatype Span = Span(start: uint32, end: uint32)

  /** Documents follow one another and stay below the sentinel. */
  ghost predicate Ordered(docs: seq<Span>) {
    && (forall d :: 0 <= d < |docs| ==> docs[d].start <= docs[d].end < SENTINEL)
    && (forall c, d :: 0 <= c < d < |docs| ==> docs[c].end < docs[d].start)
  }

  function Ends(docs: seq<Span>): (e: seq<uint32>)
    ensures |e| == |docs| && forall d :: 0 <= d < |docs| ==> e[d] == docs[d].end
  {
    seq(|docs|, d requires 0 <= d < |docs| => docs[d].end)
  }

  ghost predicate InDoc(docs: seq<Span>, d: nat, h: nat) {
    d < |docs| && docs[d].start <= h <= docs[d].end
  }

  /** No document has x strictly inside it: what makes a seek to x safe for every iterator. */
  ghost predicate Boundary(docs: seq<Span>, x: nat) {
    forall d :: 0 <= d < |docs| ==> docs[d].end < x || x <= docs[d].start
  }

  lemma StartIsBoundary(docs: seq<Span>, d: nat)
    requires Ordered(docs) && d < |docs|
    ensures Boundary(docs, docs[d].start)
  {
  }

  lemma AfterEndIsBoundary(docs: seq<Span>, d: nat)
    requires Ordered(docs) && d < |docs|
    ensures Boundary(docs, docs[d].end + 1)
  {
  }

  // ---------------------------------------------------------------- positions in a set of locations

  /** p is the first element of H from x on, or the sentinel when there is none. */
  ghost predicate IsFirst(H: iset<nat>, x: nat, p: nat) {
    && (p == SENTINEL || (p in H && x <= p))
    && forall h :: h in H && x <= h ==> p <= h
  }

  ghost predicate Below(H: iset<nat>) {
    forall h :: h in H ==> h < SENTINEL
  }

  ghost predicate Hits(H: iset<nat>, docs: seq<Span>, d: nat) {
    exists h :: h in H && InDoc(docs, d, h)
  }

  /** The documents a set of locations touches. */
  ghost function Docs(H: iset<nat>, docs: seq<Span>): iset<nat> {
    iset d: nat | d < |docs| && Hits(H, docs, d)
  }

  /** Every location lies in a document and is not the one of its end marker. */
  ghost predicate Inside(H: iset<nat>, docs: seq<Span>) {
    forall h :: h in H ==> exists d: nat :: InDoc(docs, d, h) && h < docs[d].end
  }

  /** The document that an end marker found by seeking for h belongs to. */
  ghost predicate Home(docs: seq<Span>, h: nat, d: nat) {
    && d < |docs|
    && h <= docs[d].end
    && forall c :: 0 <= c < d ==> docs[c].end < h
  }

  lemma InDocIsHome(docs: seq<Span>, d: nat, h: nat)
    requires Ordered(docs) && InDoc(docs, d, h)
    ensures Home(docs, h, d)
  {
    forall c | 0 <= c < d ensures docs[c].end < h {
      assert docs[c].end < docs[d].start;
    }
  }

  lemma SameDoc(docs: seq<Span>, c: nat, d: nat, h: nat)
    requires Ordered(docs) && InDoc(docs, c, h) && InDoc(docs, d, h)
    ensures c == d
  {
    InDocIsHome(docs, c, h);
    InDocIsHome(docs, d, h);
  }
}
