/** The iterators a query is made of: one class for each ISR class of the source, and a datatype for
    the pointers to their common base (src/index/src/lib/isr.h, isr_or.cpp, isr_and.cpp,
    isr_phrase.cpp, isr_container.cpp).

    Every iterator stands for a fixed set of locations. A seek to x moves it to the first location of
    its set that is neither below x nor behind it. Words, and unions of them, do so for every x; the
    others only for an x that no document straddles. */
module Iterators {
  import opened Basics
  import opened Layout
  import opened SeekTable
  import opened WordIterator
  import opened ChunkFormat
  import opened ChunkReader

  // ---------------------------------------------------------------- the sets they stand for

  ghost function OrHits(sets: seq<iset<nat>>): iset<nat> {
    iset h: nat | InSome(sets, h)
  }

  ghost predicate InSome(sets: seq<iset<nat>>, h: nat) {
    exists i :: 0 <= i < |sets| && h in sets[i]
  }

  /** Every set touches document d. */
  ghost predicate AllTouch(sets: seq<iset<nat>>, docs: seq<Span>, d: nat) {
    sets != [] && forall i :: 0 <= i < |sets| ==> Hits(sets[i], docs, d)
  }

  /** The ends of the documents that every set touches. */
  ghost function AndHits(sets: seq<iset<nat>>, docs: seq<Span>): iset<nat> {
    iset h: nat | EndsShared(sets, docs, h)
  }

  ghost predicate EndsShared(sets: seq<iset<nat>>, docs: seq<Span>, h: nat) {
    exists d: nat :: d < |docs| && docs[d].end == h && AllTouch(sets, docs, d)
  }

  /** Term i of a phrase stands i places behind its start s. */
  ghost predicate Run(sets: seq<iset<nat>>, s: nat) {
    forall i :: 0 <= i < |sets| ==> s + i in sets[i]
  }

  /** Some term has a location smaller than its place in the phrase; the source's subtraction wraps. */
  ghost predicate Wraps(sets: seq<iset<nat>>) {
    exists i: nat, h: nat :: i < |sets| && h in sets[i] && h < i
  }

  /** The last locations of the runs. A wrapping subtraction exhausts the phrase at once. */
  ghost function PhraseHits(sets: seq<iset<nat>>): iset<nat> {
    iset h: nat | EndsRun(sets, h)
  }

  ghost predicate EndsRun(sets: seq<iset<nat>>, h: nat) {
    sets != [] && !Wraps(sets) && h + 1 >= |sets| && Run(sets, h + 1 - |sets|)
  }

  /** The positive locations whose document no negative set touches. */
  ghost function ContainerHits(positive: iset<nat>, negative: seq<iset<nat>>, docs: seq<Span>): iset<nat> {
    iset h: nat | h in positive && Admitted(negative, docs, h)
  }

  ghost predicate Admitted(negative: seq<iset<nat>>, docs: seq<Span>, h: nat) {
    exists d: nat :: Home(docs, h, d) && !Excluded(negative, docs, d)
  }

  ghost predicate Excluded(negative: seq<iset<nat>>, docs: seq<Span>, d: nat) {
    exists i :: 0 <= i < |negative| && Hits(negative[i], docs, d)
  }

  // ---------------------------------------------------------------- the common base

  datatype Isr =
    | Word(word: IsrWord)
    | Or(or: IsrOr)
    | And(and: IsrAnd)
    | Phrase(phrase: IsrPhrase)
    | Container(container: IsrContainer)
  {
    ghost function Object(): object {
      match this
      case Word(w) => w
      case Or(o) => o
      case And(a) => a
      case Phrase(p) => p
      case Container(c) => c
    }

    ghost function Repr(): set<object> {
      match this
      case Word(w) => {w}
      case Or(o) => o.repr
      case And(a) => a.repr
      case Phrase(p) => p.repr
      case Container(c) => c.repr
    }

    ghost function Hits(): iset<nat> {
      match this
      case Word(w) => Locations(w.list)
      case Or(o) => o.hits
      case And(a) => a.hits
      case Phrase(p) => p.hits
      case Container(c) => c.hits
    }

    ghost function Docs(): seq<Span> {
      match this
      case Word(w) => w.docs
      case Or(o) => o.docs
      case And(a) => a.docs
      case Phrase(p) => p.docs
      case Container(c) => c.docs
    }

    /** Seeks are exact for every target, not only for boundaries. */
    ghost predicate Exact() {
      match this
      case Word(w) => true
      case Or(o) => o.exact
      case And(a) => false
      case Phrase(p) => false
      case Container(c) => c.exact
    }

    ghost function Height(): nat {
      match this
      case Word(w) => 0
      case Or(o) => o.height
      case And(a) => a.height
      case Phrase(p) => p.height
      case Container(c) => c.height
    }

    ghost predicate Valid()
      reads Object(), Repr()
      decreases Height(), 2
    {
      match this
      case Word(w) => w.Valid()
      case Or(o) => o.Valid()
      case And(a) => a.Valid()
      case Phrase(p) => p.Valid()
      case Container(c) => c.Valid()
    }

    predicate Done()
      reads Object()
    {
      match this
      case Word(w) => w.exhausted
      case Or(o) => o.exhausted
      case And(a) => a.exhausted
      case Phrase(p) => p.exhausted
      case Container(c) => c.exhausted
    }

    function CurrentLocation(): uint32
      reads Object()
    {
      match this
      case Word(w) => w.currentLoc
      case Or(o) => o.currentLoc
      case And(a) => a.currentLoc
      case Phrase(p) => p.currentLoc
      case Container(c) => c.currentLoc
    }

    /** The current location, or the sentinel when there is none. */
    ghost function Pos(): (p: uint32)
      reads Object()
    {
      if Done() then SENTINEL else CurrentLocation()
    }

    /** Stands on a location that is not behind the first one from b on. */
    ghost predicate Reaches(b: nat)
      reads Object(), Repr()
      decreases Height(), 3
    {
      && Valid()
      && (Done() || CurrentLocation() in Hits())
      && forall h :: h in Hits() && b <= h ==> Pos() <= h
    }

    /** Stands on the first location from b on. */
    ghost predicate From(b: nat)
      reads Object(), Repr()
      decreases Height(), 4
    {
      Reaches(b) && (b <= Pos() || Pos() == SENTINEL)
    }

    /** Stands on p, or on its first location behind p. */
    ghost predicate NearTo(p: nat)
      reads Object(), Repr()
      decreases Height(), 4
    {
      Reaches(p + 1) && p <= Pos()
    }

    /** Moves to the first location that is neither below target nor behind. */
    method Seek(target: uint32) returns (loc: uint32)
      requires Valid() && (Exact() || Boundary(Docs(), target))
      modifies Repr()
      ensures Valid() && loc == Pos() && (Done() || CurrentLocation() in Hits())
      ensures IsFirst(Hits(), Max(old(Pos()), target), Pos())
      decreases Height(), 5
    {
      hide IsrOr.Valid, IsrAnd.Valid, IsrPhrase.Valid, IsrContainer.Valid, Boundary, Locations;
      match this
      case Word(w) =>
        ScanIsFirst(w.list, w.At(), target);
        WordPosition(w);
        loc := w.Seek(target);
        WordPosition(w);
      case Or(o) => loc := o.Seek(target);
      case And(a) => loc := a.Seek(target);
      case Phrase(p) => loc := p.Seek(target);
      case Container(c) => loc := c.Seek(target);
    }

    /** Moves on: to the next location, or to the same one again when a list repeats it. */
    method Next() returns (loc: uint32)
      requires Valid()
      modifies Repr()
      ensures Valid() && loc == Pos() && (Done() || CurrentLocation() in Hits())
      ensures Pos() == old(Pos()) || IsFirst(Hits(), old(Pos()) + 1, Pos())
      decreases Height(), 5
    {
      hide IsrOr.Valid, IsrAnd.Valid, IsrPhrase.Valid, IsrContainer.Valid, IsFirst, Boundary, Locations;
      match this
      case Word(w) =>
        StepIsFirst(w.list, w.At());
        WordPosition(w);
        loc := w.Next();
        WordPosition(w);
      case Or(o) => loc := o.Next();
      case And(a) => loc := a.Next();
      case Phrase(p) => loc := p.Next();
      case Container(c) => loc := c.Next();
    }

    /** A seek by an iterator that is not behind b, for a target from b on. */
    method SeekFrom(target: uint32, ghost b: nat) returns (loc: uint32)
      requires Reaches(b) && b <= target && (Exact() || Boundary(Docs(), target))
      modifies Repr()
      ensures From(target) && loc == Pos()
      decreases Height(), 6
    {
      hide Isr.Valid, Isr.Hits, Isr.Exact, Boundary, IsrWord.Valid, IsrOr.Valid, IsrAnd.Valid, IsrPhrase.Valid, IsrContainer.Valid;
      loc := Seek(target);
    }

    /** A step by an iterator that stands on p. */
    method NextFrom(ghost p: uint32) returns (loc: uint32)
      requires Valid() && Pos() == p
      modifies Repr()
      ensures NearTo(p) && loc == Pos()
      ensures Pos() != p ==> From(p + 1)
      decreases Height(), 6
    {
      hide Isr.Valid, Isr.Hits, IsrWord.Valid, IsrOr.Valid, IsrAnd.Valid, IsrPhrase.Valid, IsrContainer.Valid;
      loc := Next();
    }
  }

  lemma WordPosition(w: IsrWord)
    requires w.Valid()
    ensures Word(w).Pos() == LocationAt(w.list, w.At())
    ensures w.exhausted || w.currentLoc in Locations(w.list)
  {
    if !w.exhausted {
      assert w.list[w.At()] == w.currentLoc;
    }
  }

  lemma ReachesHere(t: Isr, b: nat)
    requires t.Reaches(b)
    ensures t.Reaches(t.Pos())
  {
    hide Isr.Valid, Isr.Hits, IsrWord.Valid, IsrOr.Valid, IsrAnd.Valid, IsrPhrase.Valid, IsrContainer.Valid;
  }

  lemma ReachesMore(t: Isr, b: nat, c: nat)
    requires t.Reaches(b) && b <= c
    ensures t.Reaches(c)
  {
    hide Isr.Valid, Isr.Hits, Isr.Pos, IsrWord.Valid, IsrOr.Valid, IsrAnd.Valid, IsrPhrase.Valid, IsrContainer.Valid;
  }

  lemma SentinelIsFirst(H: iset<nat>, x: nat)
    requires SENTINEL <= x
    ensures IsFirst(H, x, SENTINEL)
  {
  }

  lemma SelfIsFirst(H: iset<nat>, p: nat)
    requires p in H
    ensures IsFirst(H, p, p)
  {
  }

  lemma SentinelIsFirstOfNone(x: nat)
    ensures IsFirst(iset{}, x, SENTINEL)
  {
  }

  lemma NearReaches(terms: seq<Isr>, p: nat)
    requires forall i :: 0 <= i < |terms| ==> terms[i].NearTo(p)
    ensures forall i :: 0 <= i < |terms| ==> terms[i].Reaches(p + 1)
  {
    hide Isr.Reaches, Isr.Pos;
  }

  lemma FromAll(terms: seq<Isr>, x: nat)
    requires x <= SENTINEL && forall i :: 0 <= i < |terms| ==> terms[i].From(x)
    ensures forall i :: 0 <= i < |terms| ==> terms[i].Reaches(x) && terms[i].NearTo(x)
  {
    hide Isr.Reaches, Isr.Pos;
    forall i | 0 <= i < |terms| ensures terms[i].NearTo(x) && terms[i].Reaches(x) { ReachesMore(terms[i], x, x + 1); }
  }

  /** When no child is left at p, all are from p + 1 on. */
  lemma FromNext(terms: seq<Isr>, p: uint32)
    requires p < SENTINEL
    requires forall i :: 0 <= i < |terms| ==> terms[i].NearTo(p) && terms[i].Pos() != p
    ensures forall i :: 0 <= i < |terms| ==> terms[i].Reaches(p + 1) && terms[i].NearTo(p + 1)
  {
    hide Isr.Reaches, Isr.Pos;
    forall i | 0 <= i < |terms| ensures terms[i].Reaches(p + 1) && terms[i].NearTo(p + 1) { ReachesMore(terms[i], p + 1, p + 2); }
  }

  // ---------------------------------------------------------------- families of children

  ghost function Sets(terms: seq<Isr>): (s: seq<iset<nat>>)
    ensures |s| == |terms| && forall i :: 0 <= i < |terms| ==> s[i] == terms[i].Hits()
  {
    seq(|terms|, i requires 0 <= i < |terms| => terms[i].Hits())
  }

  ghost function ReprOf(terms: seq<Isr>): set<object> {
    set i, o | 0 <= i < |terms| && o in terms[i].Repr() :: o
  }

  lemma ReprParts(terms: seq<Isr>)
    ensures forall i :: 0 <= i < |terms| ==> terms[i].Repr() <= ReprOf(terms)
  {
  }

  ghost predicate Member(t: Isr, docs: seq<Span>, height: nat) {
    t.Docs() == docs && t.Height() < height && t.Object() in t.Repr() && Below(t.Hits())
  }

  /** Separate iterators over the same documents, less high than their parent. */
  ghost predicate Family(terms: seq<Isr>, docs: seq<Span>, height: nat) {
    && (forall i :: 0 <= i < |terms| ==> Member(terms[i], docs, height))
    && (forall i, j :: 0 <= i < j < |terms| ==> terms[i].Repr() !! terms[j].Repr())
  }

  ghost function HeightOf(terms: seq<Isr>): (h: nat)
    ensures forall i :: 0 <= i < |terms| ==> terms[i].Height() < h
  {
    if terms == [] then 1
    else Max(terms[0].Height() + 1, HeightOf(terms[1..]))
  }

  /** for (auto &term : terms_) term->seek(target) */
  method SeekAll(terms: seq<Isr>, target: uint32, ghost x: nat, ghost docs: seq<Span>, ghost height: nat)
    requires Family(terms, docs, height) && Boundary(docs, target) && x <= target
    requires forall i :: 0 <= i < |terms| ==> terms[i].Reaches(x)
    modifies ReprOf(terms)
    ensures forall i :: 0 <= i < |terms| ==> terms[i].From(target)
    decreases height, 0
  {
    hide Boundary, Below, Isr.Reaches, Isr.From, Isr.Exact, Isr.Hits, ReprOf;
    ReprParts(terms);
    for k := 0 to |terms|
      invariant forall i :: 0 <= i < k ==> terms[i].From(target)
      invariant forall i :: k <= i < |terms| ==> terms[i].Reaches(x)
    {
      var _ := terms[k].SeekFrom(target, x);
    }
  }

  // ---------------------------------------------------------------- OR

  /** The loop of ISROr::seek: seeks the children that are behind the target. */
  method SeekBehind(terms: seq<Isr>, target: uint32, ghost x: nat, ghost docs: seq<Span>, ghost height: nat)
    requires Family(terms, docs, height) && x <= target
    requires Boundary(docs, target) || forall i :: 0 <= i < |terms| ==> terms[i].Exact()
    requires forall i :: 0 <= i < |terms| ==> terms[i].Reaches(x)
    modifies ReprOf(terms)
    ensures forall i :: 0 <= i < |terms| ==> terms[i].From(target)
    decreases height, 0
  {
    hide Boundary, Below, Isr.Reaches, Isr.From, Isr.Exact, Isr.Done, Isr.CurrentLocation, Isr.Hits, ReprOf;
    ReprParts(terms);
    for k := 0 to |terms|
      invariant forall i :: 0 <= i < k ==> terms[i].From(target)
      invariant forall i :: k <= i < |terms| ==> terms[i].Reaches(x)
    {
      if !terms[k].Done() && terms[k].CurrentLocation() < target {
        var _ := terms[k].SeekFrom(target, x);
      } else {
        FromAhead(terms[k], x, target);
      }
    }
  }

  lemma FromAhead(t: Isr, x: nat, target: nat)
    requires t.Reaches(x) && x <= target && (t.Done() || target <= t.CurrentLocation())
    ensures t.From(target)
  {
    hide Isr.Valid, Isr.Hits, IsrWord.Valid, IsrOr.Valid, IsrAnd.Valid, IsrPhrase.Valid, IsrContainer.Valid;
  }

  /** The loop of ISROr::next: moves the children that stand at the current location. */
  method NextAt(terms: seq<Isr>, at: uint32, ghost docs: seq<Span>, ghost height: nat)
    requires Family(terms, docs, height) && at < SENTINEL
    requires forall i :: 0 <= i < |terms| ==> terms[i].NearTo(at)
    modifies ReprOf(terms)
    ensures forall i :: 0 <= i < |terms| ==> terms[i].NearTo(at)
    decreases height, 0
  {
    hide Below, Isr.NearTo, Isr.Hits, ReprOf;
    ReprParts(terms);
    for k := 0 to |terms|
      invariant forall i :: 0 <= i < |terms| ==> terms[i].NearTo(at)
    {
      StepAt(terms[k], at);
    }
  }

  method StepAt(t: Isr, at: uint32)
    requires t.NearTo(at)
    modifies t.Repr()
    ensures t.NearTo(at)
    decreases t.Height(), 7
  {
    hide Isr.NearTo, Isr.Reaches, Isr.From;
    if !t.Done() && t.CurrentLocation() == at {
      AtLocation(t, at);
      var _ := t.NextFrom(at);
    }
  }

  lemma AtLocation(t: Isr, p: uint32)
    requires t.NearTo(p) && !t.Done() && t.CurrentLocation() == p
    ensures t.Valid() && t.Pos() == p
  {
    hide Isr.Valid, Isr.Hits;
  }

  /** The loop of ISROr::advanceToNextMatch: the least location of the children that are not done. */
  method LeastLocation(terms: seq<Isr>) returns (minLoc: uint32)
    ensures forall i :: 0 <= i < |terms| ==> minLoc <= terms[i].Pos()
    ensures minLoc == SENTINEL || exists i :: 0 <= i < |terms| && minLoc == terms[i].Pos()
  {
    hide Isr.Done, Isr.CurrentLocation;
    minLoc := SENTINEL;
    for k := 0 to |terms|
      invariant forall i :: 0 <= i < k ==> minLoc <= terms[i].Pos()
      invariant minLoc == SENTINEL || exists i :: 0 <= i < k && minLoc == terms[i].Pos()
    {
      if !terms[k].Done() {
        minLoc := Min(minLoc, terms[k].CurrentLocation());
      }
    }
  }

  /** The least location of the children is the first one of their union. */
  lemma LeastIsFirst(terms: seq<Isr>, x: nat, minLoc: uint32)
    requires forall i :: 0 <= i < |terms| ==> terms[i].NearTo(x)
    requires (forall i :: 0 <= i < |terms| ==> terms[i].Reaches(x)) || exists i :: 0 <= i < |terms| && terms[i].Pos() == x
    requires forall i :: 0 <= i < |terms| ==> minLoc <= terms[i].Pos()
    requires minLoc == SENTINEL || exists i :: 0 <= i < |terms| && minLoc == terms[i].Pos()
    ensures IsFirst(OrHits(Sets(terms)), x, minLoc)
    ensures minLoc != SENTINEL ==> minLoc in OrHits(Sets(terms))
    ensures forall i :: 0 <= i < |terms| ==> terms[i].NearTo(minLoc)
  {
    hide Isr.Valid, Isr.Hits, IsrWord.Valid, IsrOr.Valid, IsrAnd.Valid, IsrPhrase.Valid, IsrContainer.Valid;
    var H := OrHits(Sets(terms));
    if minLoc != SENTINEL {
      var i :| 0 <= i < |terms| && minLoc == terms[i].Pos();
      assert terms[i].NearTo(x) && terms[i].Reaches(x + 1);
      assert minLoc in Sets(terms)[i];
    }
    forall h | h in H && x <= h ensures minLoc <= h {
      var i :| 0 <= i < |Sets(terms)| && h in Sets(terms)[i];
      assert minLoc <= terms[i].Pos();
    }
  }

  class IsrOr {
    const terms: seq<Isr>
    var currentLoc: uint32
    var exhausted: bool
    ghost const docs: seq<Span>
    ghost const hits: iset<nat>
    ghost const exact: bool
    ghost const height: nat
    ghost const repr: set<object>

    ghost predicate Shape() {
      && Family(terms, docs, height)
      && this !in ReprOf(terms) && repr == {this} + ReprOf(terms)
      && hits == OrHits(Sets(terms))
      && (exact ==> forall i :: 0 <= i < |terms| ==> terms[i].Exact())
    }

    ghost function Pos(): uint32
      reads this
    {
      if exhausted then SENTINEL else currentLoc
    }

    /** No child is behind the current location, nor past the first one of its own after it. */
    ghost predicate Valid()
      reads this, repr
      decreases height, 0
    {
      && Shape()
      && (!exhausted ==> currentLoc in hits && currentLoc < SENTINEL)
      && forall i :: 0 <= i < |terms| ==> terms[i].NearTo(Pos())
    }

    constructor (terms: seq<Isr>, ghost docs: seq<Span>)
      requires Family(terms, docs, HeightOf(terms))
      requires forall i :: 0 <= i < |terms| ==> terms[i].From(0)
      ensures Valid() && IsFirst(hits, 0, Pos()) && (exhausted || currentLoc in hits)
      ensures this.docs == docs && hits == OrHits(Sets(terms)) && repr == {this} + ReprOf(terms)
      ensures exact == forall i :: 0 <= i < |terms| ==> terms[i].Exact()
    {
      hide OrHits, Isr.NearTo, Isr.Valid, Isr.Hits, Isr.Exact, IsrWord.Valid, IsrAnd.Valid, IsrPhrase.Valid, IsrContainer.Valid;
      this.terms := terms;
      currentLoc := 0;
      exhausted := false;
      this.docs := docs;
      hits := OrHits(Sets(terms));
      exact := forall i :: 0 <= i < |terms| ==> terms[i].Exact();
      height := HeightOf(terms);
      repr := {this} + ReprOf(terms);
      new;
      if |terms| == 0 {
        exhausted := true;
        currentLoc := SENTINEL;
        LeastIsFirst(terms, 0, SENTINEL);
      } else {
        FromAll(terms, 0);
        var _ := Advance(0);
      }
    }

    method Seek(target: uint32) returns (loc: uint32)
      requires Valid() && (exact || Boundary(docs, target))
      modifies repr
      ensures Valid() && loc == Pos() && (exhausted || currentLoc in hits)
      ensures IsFirst(hits, Max(old(Pos()), target), Pos())
      decreases height, 2
    {
      hide Isr.From, Isr.Reaches, Isr.NearTo, Isr.Exact, Isr.Pos, OrHits, Family, Boundary;
      ghost var p := Pos();
      if exhausted {
        SentinelIsFirst(hits, Max(SENTINEL, target));
        return SENTINEL;
      }
      if currentLoc >= target {
        return currentLoc;
      }
      NearReaches(terms, p);
      SeekBehind(terms, target, currentLoc + 1, docs, height);
      FromAll(terms, target);
      loc := Advance(target);
    }

    method Next() returns (loc: uint32)
      requires Valid()
      modifies repr
      ensures Valid() && loc == Pos() && (exhausted || currentLoc in hits)
      ensures Pos() == old(Pos()) || IsFirst(hits, old(Pos()) + 1, Pos())
      decreases height, 2
    {
      hide Isr.From, Isr.Reaches, Isr.NearTo, Isr.Exact, Isr.Pos, OrHits, Family;
      if exhausted {
        return SENTINEL;
      }
      NextAt(terms, currentLoc, docs, height);
      ghost var again := exists i :: 0 <= i < |terms| && terms[i].Pos() == currentLoc;
      if !again { FromNext(terms, currentLoc); }
      loc := Advance(if again then currentLoc else currentLoc + 1);
    }

    /** Makes the least current location of the children the current one. */
    method Advance(ghost x: nat) returns (loc: uint32)
      requires Shape() && !exhausted
      requires forall i :: 0 <= i < |terms| ==> terms[i].NearTo(x)
      requires (forall i :: 0 <= i < |terms| ==> terms[i].Reaches(x)) || exists i :: 0 <= i < |terms| && terms[i].Pos() == x
      modifies this
      ensures Valid() && loc == Pos() && (exhausted || currentLoc in hits)
      ensures IsFirst(hits, x, Pos())
      decreases height, 1
    {
      hide Isr.Reaches, Isr.Exact, Isr.Pos, Isr.NearTo, OrHits, IsFirst;
      var minLoc := LeastLocation(terms);
      LeastIsFirst(terms, x, minLoc);
      if minLoc == SENTINEL {
        exhausted := true;
      }
      currentLoc := minLoc;
      return currentLoc;
    }
  }

  // ---------------------------------------------------------------- AND

  /** A shared document end from the boundary x on lies behind the first location, from x on, of
      every set. */
  lemma SharedEndAfter(sets: seq<iset<nat>>, docs: seq<Span>, x: nat, m: nat, y: nat, h: nat)
    requires Ordered(docs) && Boundary(docs, x) && m < |sets| && IsFirst(sets[m], x, y)
    requires h in AndHits(sets, docs) && x <= h
    ensures y <= h < SENTINEL
  {
    var d: nat :| d < |docs| && docs[d].end == h && AllTouch(sets, docs, d);
    assert Hits(sets[m], docs, d);
    var g :| g in sets[m] && InDoc(docs, d, g);
    assert x <= docs[d].start;
  }

  /** Why seeks stay at the boundaries of documents: in the one document 0..9, with one term at 3 and the
      other at 5, the match at 9 lies behind 4, but a seek to 4 would exhaust the first term. */
  lemma MidDocumentSeekSkips()
    ensures var docs, sets := [Span(0, 9)], [iset{3}, iset{5}];
      Ordered(docs) && 9 in AndHits(sets, docs) && !Boundary(docs, 4) && IsFirst(sets[0], 4, SENTINEL)
  {
    var docs, sets := [Span(0, 9)], [iset{3}, iset{5}];
    assert InDoc(docs, 0, 3) && InDoc(docs, 0, 5);
    assert 3 in sets[0] && 5 in sets[1];
    assert AllTouch(sets, docs, 0);
  }

  /** ... and so at or behind the end of the document that is home to that location. */
  lemma SharedEndAtHome(sets: seq<iset<nat>>, docs: seq<Span>, y: nat, d: nat, h: nat)
    requires Ordered(docs) && h in AndHits(sets, docs) && y <= h && Home(docs, y, d)
    ensures docs[d].end <= h
  {
    var c: nat :| c < |docs| && docs[c].end == h && AllTouch(sets, docs, c);
    assert !(c < d);
    assert c == d || docs[d].end < docs[c].start;
  }

  lemma NoHome(sets: seq<iset<nat>>, docs: seq<Span>, y: nat)
    requires forall d :: 0 <= d < |docs| ==> docs[d].end < y
    ensures forall h :: h in AndHits(sets, docs) ==> h < y
  {
  }

  /** A document all terms are in ends at a shared end. */
  lemma AllInIsShared(terms: seq<Isr>, docs: seq<Span>, d: nat)
    requires terms != [] && d < |docs| && docs[d].end < SENTINEL
    requires forall i :: 0 <= i < |terms| ==> terms[i].From(docs[d].start) && terms[i].Pos() <= docs[d].end
    ensures docs[d].end in AndHits(Sets(terms), docs)
  {
    hide Isr.Valid, Isr.Hits, IsrWord.Valid, IsrOr.Valid, IsrAnd.Valid, IsrPhrase.Valid, IsrContainer.Valid;
    forall i | 0 <= i < |terms| ensures Hits(Sets(terms)[i], docs, d) {
      assert terms[i].From(docs[d].start) && terms[i].Reaches(docs[d].start);
      assert terms[i].Pos() in Sets(terms)[i] && InDoc(docs, d, terms[i].Pos());
    }
    assert AllTouch(Sets(terms), docs, d);
  }

  /** at is not past the first document that ends at or behind x. */
  ghost predicate EndBehind(docs: seq<Span>, at: nat, x: nat) {
    forall d: nat :: d < |docs| && x <= docs[d].end ==> at <= d
  }

  /** Seeking the end markers for a location finds the document that is home to it. */
  lemma EndFound(docs: seq<Span>, at: nat, x: nat, loc: uint32)
    requires Ordered(docs) && at <= |docs| && EndBehind(docs, at, x) && x <= loc
    ensures var d := Scan(Ends(docs), at, loc);
      && (d < |docs| ==> Home(docs, loc, d) && EndBehind(docs, d, docs[d].end + 1) && EndBehind(docs, d, loc))
      && (d == |docs| ==> forall c :: 0 <= c < |docs| ==> docs[c].end < loc)
  {
    var d := Scan(Ends(docs), at, loc);
    forall c: nat | c < d ensures docs[c].end < loc {
      if at <= c { assert Ends(docs)[c] < loc; }
    }
  }

  lemma BoundaryBeforeHome(docs: seq<Span>, x: nat, loc: nat, d: nat)
    requires Boundary(docs, x) && x <= loc && Home(docs, loc, d)
    ensures x <= docs[d].start
  {
  }

  lemma FromIsFirst(t: Isr, b: nat)
    requires t.From(b)
    ensures IsFirst(t.Hits(), b, t.Pos())
    ensures t.Valid() && (!t.Done() ==> t.CurrentLocation() in t.Hits())
  {
    hide Isr.Valid, Isr.Hits, IsrWord.Valid, IsrOr.Valid, IsrAnd.Valid, IsrPhrase.Valid, IsrContainer.Valid;
    assert t.Reaches(b);
  }

  /** The greatest current location, unless some term is exhausted; m names the term. */
  method MaxLocation(terms: seq<Isr>, ghost x: nat, ghost docs: seq<Span>, ghost height: nat)
    returns (maxLoc: uint32, anyDone: bool, ghost m: nat)
    requires Family(terms, docs, height) && terms != []
    requires forall i :: 0 <= i < |terms| ==> terms[i].From(x)
    ensures m < |terms|
    ensures anyDone ==> terms[m].Pos() == SENTINEL
    ensures !anyDone ==> terms[m].Pos() == maxLoc < SENTINEL
    ensures IsFirst(terms[m].Hits(), x, terms[m].Pos())
  {
    hide Isr.From, Isr.Hits, Isr.Valid, Isr.Done, Isr.CurrentLocation, IsFirst, IsrWord.Valid, IsrOr.Valid, IsrAnd.Valid, IsrPhrase.Valid, IsrContainer.Valid;
    maxLoc, anyDone, m := 0, false, 0;
    for k := 0 to |terms|
      invariant m < |terms| && !anyDone
      invariant if k == 0 then maxLoc == 0 else terms[m].Pos() == maxLoc < SENTINEL
      invariant k > 0 ==> IsFirst(terms[m].Hits(), x, terms[m].Pos())
    {
      FromIsFirst(terms[k], x);
      if terms[k].Done() {
        return 0, true, k;
      }
      if k == 0 || maxLoc < terms[k].CurrentLocation() { m := k; }
      maxLoc := Max(maxLoc, terms[k].CurrentLocation());
    }
  }

  lemma NoSharedEnd(sets: seq<iset<nat>>, docs: seq<Span>)
    requires sets == [] || docs == []
    ensures AndHits(sets, docs) == iset{}
  {
  }

  /** What a reader answers about the documents of its chunk. */
  ghost predicate Serves(reader: DiskChunkReader, docs: seq<Span>) {
    reader.Valid() && docs == Spans(reader.index.documents)
  }

  /** The lookup shared by ISRAnd and ISRContainer: the end marker at or behind a location, and the
      record of its document. */
  method Locate(docEnd: IsrWord, reader: DiskChunkReader, loc: uint32, ghost x: nat, ghost docs: seq<Span>)
    returns (doc: Option<DocumentRecord>, docEndLoc: uint32)
    requires docEnd.Valid() && docEnd.list == Ends(docs) && Ordered(docs) && Serves(reader, docs)
    requires EndBehind(docs, docEnd.At(), x) && x <= loc
    modifies docEnd
    ensures docEnd.Valid()
    ensures doc.None? ==> forall d :: 0 <= d < |docs| ==> docs[d].end < loc
    ensures doc.Some? ==> docEnd.At() < |docs| && loc <= docEndLoc == docs[docEnd.At()].end < SENTINEL
    ensures doc.Some? ==> Home(docs, loc, docEnd.At()) && doc.value == reader.index.documents[docEnd.At()]
    ensures doc.Some? ==> doc.value.startLocation == docs[docEnd.At()].start
    ensures doc.Some? ==> EndBehind(docs, docEnd.At(), loc) && EndBehind(docs, docEnd.At(), docEndLoc + 1)
  {
    hide DiskChunkReader.Valid, EndBehind, Safe, IsPostingList;
    EndFound(docs, docEnd.At(), x, loc);
    docEndLoc := docEnd.Seek(loc);
    if docEndLoc == SENTINEL {
      return None, SENTINEL;
    }
    var docId := docEnd.currentIndex - 1;
    doc := reader.GetDocument(docId);
  }

  lemma NotInChildren(terms: seq<Isr>, o: object)
    requires o !in ReprOf(terms)
    ensures forall i :: 0 <= i < |terms| ==> o !in terms[i].Repr()
  {
  }

  datatype Probe = AllIn | Beyond | Exhausted

  /** Seeks the terms to the start of a document until one of them, out, is not in it. */
  method SeekIntoDoc(terms: seq<Isr>, start: uint32, end: uint32, ghost x: nat, ghost docs: seq<Span>,
                     ghost height: nat) returns (r: Probe, ghost out: nat)
    requires Family(terms, docs, height) && Boundary(docs, start) && x <= start && end < SENTINEL
    requires forall i :: 0 <= i < |terms| ==> terms[i].Reaches(x)
    modifies ReprOf(terms)
    ensures forall i :: 0 <= i < |terms| ==> terms[i].Reaches(start)
    ensures r == AllIn ==> forall i :: 0 <= i < |terms| ==> terms[i].From(start) && terms[i].Pos() <= end
    ensures r != AllIn ==> out < |terms| && end < terms[out].Pos()
    ensures r == Exhausted ==> terms[out].Pos() == SENTINEL
    ensures r != AllIn ==> IsFirst(terms[out].Hits(), start, terms[out].Pos())
    decreases height, 0
  {
    hide Boundary, Below, Isr.Reaches, Isr.From, Isr.Valid, Isr.Exact, Isr.Pos, Isr.Hits, ReprOf, IsFirst, IsrWord.Valid, IsrOr.Valid, IsrAnd.Valid, IsrPhrase.Valid, IsrContainer.Valid;
    ReprParts(terms);
    r, out := AllIn, 0;
    ghost var inside := 0;
    for k := 0 to |terms|
      invariant inside == k
      invariant forall i :: 0 <= i < k ==> terms[i].From(start) && terms[i].Pos() <= end
      invariant forall i :: k <= i < |terms| ==> terms[i].Reaches(x)
    {
      var loc := terms[k].SeekFrom(start, x);
      if loc == SENTINEL || loc > end {
        r, out := if loc == SENTINEL then Exhausted else Beyond, k;
        break;
      }
      inside := k + 1;
    }
    ReachStart(terms, inside, x, start, r != AllIn);
    if r != AllIn { FromIsFirst(terms[out], start); }
  }

  lemma FromReaches(terms: seq<Isr>, x: nat)
    requires forall i :: 0 <= i < |terms| ==> terms[i].From(x)
    ensures forall i :: 0 <= i < |terms| ==> terms[i].Reaches(x)
  {
    hide Isr.Reaches;
  }

  lemma ReachBehind(terms: seq<Isr>, x: nat, y: nat)
    requires x <= y && forall i :: 0 <= i < |terms| ==> terms[i].Reaches(x)
    ensures forall i :: 0 <= i < |terms| ==> terms[i].Reaches(y)
  {
    hide Isr.Reaches;
    forall i | 0 <= i < |terms| ensures terms[i].Reaches(y) { ReachesMore(terms[i], x, y); }
  }

  lemma ReachStart(terms: seq<Isr>, k: nat, x: nat, start: nat, cut: bool)
    requires k <= |terms| && x <= start && (cut ==> k < |terms| && terms[k].From(start))
    requires forall i :: 0 <= i < k ==> terms[i].From(start)
    requires forall i :: k + (if cut then 1 else 0) <= i < |terms| ==> terms[i].Reaches(x)
    ensures forall i :: 0 <= i < |terms| ==> terms[i].Reaches(start)
  {
    hide Isr.Reaches;
    forall i | 0 <= i < |terms| ensures terms[i].Reaches(start) {
      if i < k || (cut && i == k) {
        assert terms[i].From(start);
      } else {
        ReachesMore(terms[i], x, start);
      }
    }
  }

  /** The first half of a turn of ISRAnd::advanceToNextMatch: the document of the greatest current
      location is the first one that can match. */
  method Candidate(terms: seq<Isr>, docEnd: IsrWord, reader: DiskChunkReader, ghost x: nat, ghost docs: seq<Span>,
                   ghost height: nat) returns (doc: Option<DocumentRecord>, docEndLoc: uint32)
    requires Family(terms, docs, height) && terms != [] && docEnd !in ReprOf(terms)
    requires docEnd.Valid() && docEnd.list == Ends(docs) && Ordered(docs) && Serves(reader, docs)
    requires forall i :: 0 <= i < |terms| ==> terms[i].From(x)
    requires Boundary(docs, x) && EndBehind(docs, docEnd.At(), x)
    modifies docEnd
    ensures docEnd.Valid()
    ensures doc.None? ==> forall h :: h in AndHits(Sets(terms), docs) ==> h < x
    ensures doc.Some? ==> docEnd.At() < |docs| && docEndLoc == docs[docEnd.At()].end < SENTINEL && x <= docs[docEnd.At()].start <= docEndLoc
    ensures doc.Some? ==> doc.value == reader.index.documents[docEnd.At()]
    ensures doc.Some? ==> doc.value.startLocation == docs[docEnd.At()].start
    ensures doc.Some? ==> EndBehind(docs, docEnd.At(), docEndLoc + 1)
    ensures doc.Some? ==> forall h :: h in AndHits(Sets(terms), docs) && x <= h ==> docEndLoc <= h
  {
    hide Isr.Reaches, Isr.From, Isr.Pos, Isr.Hits, Isr.Docs, Isr.Height, AndHits, Serves, IsrWord.Shape, Boundary, EndBehind, Home, IsrWord.Valid;
    ghost var H := AndHits(Sets(terms), docs);
    var maxLoc, anyDone, m := MaxLocation(terms, x, docs, height);
    ghost var y := terms[m].Pos();
    forall h | h in H && x <= h ensures y <= h < SENTINEL {
      SharedEndAfter(Sets(terms), docs, x, m, y, h);
    }
    if anyDone {
      return None, SENTINEL;
    }
    assert x <= maxLoc;
    doc, docEndLoc := Locate(docEnd, reader, maxLoc, x, docs);
    if doc.None? {
      NoHome(Sets(terms), docs, maxLoc);
      return;
    }
    BoundaryBeforeHome(docs, x, maxLoc, docEnd.At());
    forall h | h in H && x <= h ensures docEndLoc <= h {
      SharedEndAtHome(Sets(terms), docs, maxLoc, docEnd.At(), h);
    }
  }

  /** The second half of the turn: whether all terms are in the document. */
  method ProbeDoc(terms: seq<Isr>, ghost d: nat, start: uint32, end: uint32, ghost x: nat, ghost docs: seq<Span>,
                  ghost height: nat) returns (r: Probe)
    requires Family(terms, docs, height) && Ordered(docs) && terms != []
    requires d < |docs| && docs[d] == Span(start, end) && x <= start
    requires forall i :: 0 <= i < |terms| ==> terms[i].From(x)
    modifies ReprOf(terms)
    ensures forall i :: 0 <= i < |terms| ==> terms[i].Reaches(end + 1)
    ensures r == AllIn ==> end in AndHits(Sets(terms), docs)
    ensures r == Beyond ==> forall h :: h in AndHits(Sets(terms), docs) && start <= h ==> end < h
    ensures r == Exhausted ==> forall h :: h in AndHits(Sets(terms), docs) ==> h < start
    decreases height, 1
  {
    hide Isr.Reaches, Isr.From, Isr.Pos, Isr.Hits, Isr.Docs, Isr.Height, AndHits, Boundary;
    ghost var H := AndHits(Sets(terms), docs);
    FromReaches(terms, x);
    StartIsBoundary(docs, d);
    ghost var out;
    r, out := SeekIntoDoc(terms, start, end, x, docs, height);
    ReachBehind(terms, start, end + 1);
    if r == AllIn {
      AllInIsShared(terms, docs, d);
    } else {
      forall h | h in H && start <= h ensures end < h < SENTINEL && r != Exhausted {
        SharedEndAfter(Sets(terms), docs, start, out, terms[out].Pos(), h);
      }
    }
  }

  ghost function DocEndRepr(docEnd: IsrWord?): set<object> {
    if docEnd == null then {} else {docEnd}
  }

  class IsrAnd {
    const terms: seq<Isr>
    const docEnd: IsrWord?
    const reader: DiskChunkReader
    var currentLoc: uint32
    var exhausted: bool
    var currentDoc: Option<DocumentRecord>
    ghost const docs: seq<Span>
    ghost const hits: iset<nat>
    ghost const height: nat
    ghost const repr: set<object>

    ghost predicate Shape() {
      && Family(terms, docs, height) && Ordered(docs)
      && Serves(reader, docs)
      && this !in ReprOf(terms)
      && hits == AndHits(Sets(terms), docs)
      && (docEnd == null ==> docs == [])
      && (docEnd != null ==> docEnd.list == Ends(docs) && docEnd !in ReprOf(terms))
      && repr == {this} + ReprOf(terms) + DocEndRepr(docEnd)
    }

    ghost function Pos(): uint32
      reads this
    {
      if exhausted then SENTINEL else currentLoc
    }

    /** Stands at the end of a shared document, with no term past its first location behind it. */
    ghost predicate Valid()
      reads this, repr
      decreases height, 0
    {
      && Shape()
      && (docEnd != null ==> docEnd.Valid())
      && (!exhausted ==>
            && terms != [] && docEnd != null
            && currentLoc in hits
            && docEnd.At() < |docs| && currentLoc == docs[docEnd.At()].end
            && currentDoc == Some(reader.index.documents[docEnd.At()])
            && forall i :: 0 <= i < |terms| ==> terms[i].Reaches(currentLoc + 1))
    }

    constructor (terms: seq<Isr>, docEnd: IsrWord?, reader: DiskChunkReader, ghost docs: seq<Span>)
      requires Serves(reader, docs) && Ordered(docs) && Family(terms, docs, HeightOf(terms))
      requires forall i :: 0 <= i < |terms| ==> terms[i].From(0)
      requires docEnd == null ==> docs == []
      requires docEnd != null ==> docEnd.Valid() && docEnd.At() == 0 && docEnd.list == Ends(docs)
      requires docEnd != null ==> docEnd !in ReprOf(terms)
      modifies ReprOf(terms), docEnd
      ensures Valid() && IsFirst(hits, 0, Pos()) && (exhausted || currentLoc in hits)
      ensures this.docs == docs && hits == AndHits(Sets(terms), docs)
      ensures repr == {this} + ReprOf(terms) + DocEndRepr(docEnd)
    {
      hide Isr.Reaches, Isr.From, Isr.Pos, Isr.Hits, Isr.Docs, Isr.Height, AndHits, IsFirst, Serves, IsrWord.Shape, Ordered;
      this.terms, this.docEnd, this.reader := terms, docEnd, reader;
      currentLoc := 0;
      exhausted := false;
      currentDoc := None;
      this.docs := docs;
      hits := AndHits(Sets(terms), docs);
      height := HeightOf(terms);
      repr := {this} + ReprOf(terms) + DocEndRepr(docEnd);
      new;
      if |terms| == 0 || docEnd == null {
        exhausted := true;
        currentLoc := SENTINEL;
        NoSharedEnd(Sets(terms), docs);
        SentinelIsFirstOfNone(0);
      } else {
        var _ := Advance(0);
      }
    }

    method Seek(target: uint32) returns (loc: uint32)
      requires Valid() && Boundary(docs, target)
      modifies repr
      ensures Valid() && loc == Pos() && (exhausted || currentLoc in hits)
      ensures IsFirst(hits, Max(old(Pos()), target), Pos())
      decreases height, 3
    {
      hide Isr.Reaches, Isr.From, Isr.Pos, Isr.Hits, AndHits, IsFirst, Serves, IsrWord.Shape, Boundary, Family;
      if exhausted {
        SentinelIsFirst(hits, Max(SENTINEL, target));
        return SENTINEL;
      }
      if currentLoc >= target {
        SelfIsFirst(hits, currentLoc);
        return currentLoc;
      }
      SeekAll(terms, target, currentLoc + 1, docs, height);
      loc := Advance(target);
    }

    method Next() returns (loc: uint32)
      requires Valid()
      modifies repr
      ensures Valid() && loc == Pos() && (exhausted || currentLoc in hits)
      ensures Pos() == old(Pos()) || IsFirst(hits, old(Pos()) + 1, Pos())
      decreases height, 3
    {
      hide Isr.Reaches, Isr.From, Isr.Pos, Isr.Hits, AndHits, IsFirst, Serves, IsrWord.Shape, Boundary, Family;
      if exhausted {
        return SENTINEL;
      }
      AfterEndIsBoundary(docs, docEnd.At());
      SeekAll(terms, currentLoc + 1, currentLoc + 1, docs, height);
      loc := Advance(currentLoc + 1);
    }

    /** Looks for the first document from the boundary b on that all terms are in. */
    method Advance(ghost b: nat) returns (loc: uint32)
      requires Shape() && !exhausted && terms != [] && docEnd != null && docEnd.Valid()
      requires forall i :: 0 <= i < |terms| ==> terms[i].From(b)
      requires Boundary(docs, b) && b <= SENTINEL && EndBehind(docs, docEnd.At(), b)
      modifies repr
      ensures Valid() && loc == Pos() && (exhausted || currentLoc in hits)
      ensures IsFirst(hits, b, Pos())
      decreases height, 2
    {
      hide Isr.Reaches, Isr.From, Isr.Hits, Isr.Pos, AndHits, Serves, IsrWord.Shape, IsrWord.Valid, Boundary, ReprOf, Ordered, EndBehind;
      ghost var x := b;
      while true
        invariant Shape() && !exhausted && docEnd.Valid()
        invariant forall i :: 0 <= i < |terms| ==> terms[i].From(x)
        invariant b <= x <= SENTINEL && Boundary(docs, x) && EndBehind(docs, docEnd.At(), x)
        invariant forall h :: h in hits && b <= h ==> x <= h
        decreases SENTINEL - x
      {
        NotInChildren(terms, docEnd);
        NotInChildren(terms, this);
        var targetDoc, docEndLoc := Candidate(terms, docEnd, reader, x, docs, height);
        if targetDoc.None? {
          exhausted := true;
          return SENTINEL;
        }
        ghost var d := docEnd.At();
        var docStartLoc := targetDoc.value.startLocation;
        AfterEndIsBoundary(docs, d);
        var r := ProbeDoc(terms, d, docStartLoc, docEndLoc, x, docs, height);
        if r == Exhausted {
          exhausted := true;
          return SENTINEL;
        }
        if r == AllIn {
          currentLoc := docEndLoc;
          currentDoc := targetDoc;
          return currentLoc;
        }
        SeekAll(terms, docEndLoc + 1, docEndLoc + 1, docs, height);
        x := docEndLoc + 1;
      }
    }
  }

  // ---------------------------------------------------------------- phrases

  /** terms_[i]->currentLocation() - i in 32-bit arithmetic. */
  function ImpliedStart(p: uint32, i: nat): uint32 {
    (p - i) % TWO32
  }

  lemma WrapsBy(sets: seq<iset<nat>>, i: nat, h: nat)
    requires i < |sets| && h in sets[i] && h < i
    ensures Wraps(sets)
  {
  }

  /** Term i has no location below its place, so the subtraction never wraps. */
  lemma ImpliedExact(terms: seq<Isr>, i: nat, p: uint32)
    requires i < |terms| && p in terms[i].Hits() && !Wraps(Sets(terms))
    ensures i <= p && ImpliedStart(p, i) == p - i
  {
    hide Isr.Hits, Wraps;
    if p < i { WrapsBy(Sets(terms), i, p); }
  }

  /** No run from start x on begins before m. */
  ghost predicate RunsFrom(sets: seq<iset<nat>>, x: nat, m: nat) {
    forall s: nat :: x <= s && Run(sets, s) ==> m <= s
  }

  /** The place of a term at p implies a start from m on; when a subtraction has wrapped, one that
      leaves no room for the phrase below the sentinel. */
  ghost predicate Ahead(sets: seq<iset<nat>>, p: uint32, j: nat, m: nat) {
    p == SENTINEL || (m <= ImpliedStart(p, j) && (Wraps(sets) ==> TWO32 - |sets| < ImpliedStart(p, j)))
  }

  /** A run that starts at m or later starts no earlier than any term's current place implies. */
  lemma RunBehind(terms: seq<Isr>, m: nat, i: nat, s: nat)
    requires i < |terms| && terms[i].Reaches(m + i) && m <= s && Run(Sets(terms), s)
    ensures terms[i].Pos() <= s + i && s + i in terms[i].Hits()
  {
    hide Isr.Valid, Isr.Hits, Isr.Pos, IsrWord.Valid, IsrOr.Valid, IsrAnd.Valid, IsrPhrase.Valid, IsrContainer.Valid;
    assert s + i in Sets(terms)[i];
  }

  /** The greatest implied start; j names the term it comes from. */
  method MaxImpliedStart(terms: seq<Isr>, ghost m: nat) returns (maxStart: uint32, anyDone: bool, ghost j: nat)
    requires 0 < |terms| && forall i :: 0 <= i < |terms| ==> terms[i].Reaches(m + i)
    ensures j < |terms|
    ensures anyDone ==> terms[j].Pos() == SENTINEL
    ensures !anyDone ==> forall i :: 0 <= i < |terms| ==>
      terms[i].Pos() in terms[i].Hits() && ImpliedStart(terms[i].Pos(), i) <= maxStart
    ensures !anyDone ==> maxStart == ImpliedStart(terms[j].Pos(), j)
  {
    hide Isr.Reaches, Isr.Valid, Isr.Hits, Isr.Done, Isr.CurrentLocation, ImpliedStart, IsrWord.Valid, IsrOr.Valid, IsrAnd.Valid, IsrPhrase.Valid, IsrContainer.Valid;
    maxStart, anyDone, j := 0, false, 0;
    for k := 0 to |terms|
      invariant j < |terms| && !anyDone
      invariant forall i :: 0 <= i < |terms| ==> terms[i].Reaches(m + i)
      invariant forall i :: 0 <= i < k ==>
        terms[i].Pos() in terms[i].Hits() && ImpliedStart(terms[i].Pos(), i) <= maxStart
      invariant if k == 0 then maxStart == 0 else maxStart == ImpliedStart(terms[j].Pos(), j)
    {
      ReachStands(terms[k], m + k);
      if terms[k].Done() {
        return 0, true, k;
      }
      var impliedStart := ImpliedStart(terms[k].CurrentLocation(), k);
      if k == 0 || maxStart < impliedStart { j := k; }
      maxStart := Max(maxStart, impliedStart);
    }
  }

  lemma ReachStands(t: Isr, b: nat)
    requires t.Reaches(b)
    ensures !t.Done() ==> t.Pos() == t.CurrentLocation() && t.Pos() in t.Hits()
    ensures t.Done() ==> t.Pos() == SENTINEL
    ensures t.Valid()
  {
    hide Isr.Valid, Isr.Hits, IsrWord.Valid, IsrOr.Valid, IsrAnd.Valid, IsrPhrase.Valid, IsrContainer.Valid;
  }

  datatype Fit = Match | Mismatch | NoMore

  /** Seeks each term to its place behind start until one is not there; that one, out, is beyond it. */
  method SeekPlaces(terms: seq<Isr>, start: uint32, ghost m: nat, ghost docs: seq<Span>, ghost height: nat)
    returns (r: Fit, ghost out: nat)
    requires Family(terms, docs, height) && m <= start
    requires forall i :: 0 <= i < |terms| ==> terms[i].Exact() && terms[i].Reaches(m + i)
    modifies ReprOf(terms)
    ensures forall i :: 0 <= i < |terms| ==> terms[i].Reaches(start + i)
    ensures r == Match ==> forall i :: 0 <= i < |terms| ==> terms[i].Pos() == start + i < SENTINEL
    ensures r != Match ==> out < |terms| && terms[out].From(start + out)
    ensures r == Mismatch ==> start + out < terms[out].Pos() < SENTINEL
    ensures r == NoMore ==> terms[out].Pos() == SENTINEL
    decreases height, 0
  {
    hide Below, Isr.Reaches, Isr.From, Isr.Exact, Isr.Pos, Isr.Hits, ReprOf;
    ReprParts(terms);
    r, out := Match, 0;
    ghost var placed := 0;
    for k := 0 to |terms|
      invariant placed == k
      invariant k > 0 ==> start + k <= SENTINEL
      invariant forall i :: 0 <= i < k ==> terms[i].From(start + i) && terms[i].Pos() == start + i < SENTINEL
      invariant forall i :: k <= i < |terms| ==> terms[i].Reaches(m + i)
    {
      var target: uint32 := start + k; // never wraps: a seek to the sentinel fails first
      var loc := terms[k].SeekFrom(target, m + k);
      if loc == SENTINEL || loc != target {
        FromPlace(terms[k], target);
        r, out := if loc == SENTINEL then NoMore else Mismatch, k;
        break;
      }
      placed := k + 1;
    }
    PlacesReach(terms, placed, m, start, r != Match);
  }

  lemma FromPlace(t: Isr, b: nat)
    requires t.From(b)
    ensures b <= t.Pos() || t.Pos() == SENTINEL
  {
    hide Isr.Reaches, Isr.Pos;
  }

  lemma PlacesReach(terms: seq<Isr>, k: nat, m: nat, start: nat, cut: bool)
    requires k <= |terms| && m <= start && (cut ==> k < |terms| && terms[k].From(start + k))
    requires forall i :: 0 <= i < k ==> terms[i].From(start + i)
    requires forall i :: k + (if cut then 1 else 0) <= i < |terms| ==> terms[i].Reaches(m + i)
    ensures forall i :: 0 <= i < |terms| ==> terms[i].Reaches(start + i)
  {
    hide Isr.Reaches;
    forall i | 0 <= i < |terms| ensures terms[i].Reaches(start + i) {
      if i < k || (cut && i == k) {
        assert terms[i].From(start + i);
      } else {
        ReachesMore(terms[i], m + i, start + i);
      }
    }
  }

  /** A run stays in the document it starts in, because no term stands on an end marker. */
  lemma {:induction false} RunInDoc(terms: seq<Isr>, docs: seq<Span>, s: nat, d: nat, i: nat)
    requires Ordered(docs) && i < |terms| && Run(Sets(terms), s)
    requires forall k :: 0 <= k < |terms| ==> Inside(terms[k].Hits(), docs)
    requires InDoc(docs, d, s) && s < docs[d].end
    ensures InDoc(docs, d, s + i) && s + i < docs[d].end
  {
    hide Isr.Hits;
    if i > 0 {
      RunInDoc(terms, docs, s, d, i - 1);
      assert s + i in Sets(terms)[i];
      var c: nat :| InDoc(docs, c, s + i) && s + i < docs[c].end;
      SameDoc(docs, c, d, s + i);
    }
  }

  /** No run crosses a boundary: its last location is not below x only if its start is not. */
  lemma RunsDoNotCross(terms: seq<Isr>, docs: seq<Span>, x: nat, s: nat)
    requires Ordered(docs) && Boundary(docs, x) && terms != []
    requires forall i :: 0 <= i < |terms| ==> Inside(terms[i].Hits(), docs)
    requires Run(Sets(terms), s) && x <= s + |terms| - 1
    ensures x <= s
  {
    hide Isr.Hits;
    assert s + 0 in Sets(terms)[0];
    var d: nat :| InDoc(docs, d, s) && s < docs[d].end;
    RunInDoc(terms, docs, s, d, |terms| - 1);
  }

  lemma FirstPlaces(terms: seq<Isr>) returns (j: nat)
    requires 0 < |terms| < TWO32 && forall i :: 0 <= i < |terms| ==> terms[i].From(0)
    ensures forall i :: 0 <= i < |terms| ==> terms[i].Reaches(0 + i)
    ensures j < |terms| && Ahead(Sets(terms), terms[j].Pos(), j, 0)
  {
    hide Isr.Valid, Isr.Hits, Isr.Pos, IsrWord.Valid, IsrOr.Valid, IsrAnd.Valid, IsrPhrase.Valid, IsrContainer.Valid;
    forall i | 0 <= i < |terms| ensures terms[i].Reaches(0 + i) {
      assert terms[i].From(0);
      ReachesMore(terms[i], 0, 0 + i);
    }
    j := 0;
    if Wraps(Sets(terms)) {
      var i: nat, h: nat :| i < |terms| && h in Sets(terms)[i] && h < i;
      assert terms[i].From(0) && terms[i].Reaches(0);
      j := i;
    }
  }

  /** After the first term has moved to its first location from t on, a run can start at t. */
  lemma PlacesFrom(terms: seq<Isr>, s: nat, t: nat)
    requires 0 < |terms| && s <= t && !Wraps(Sets(terms)) && terms[0].From(t)
    requires forall i :: 1 <= i < |terms| ==> terms[i].Reaches(s + i)
    ensures forall i :: 0 <= i < |terms| ==> terms[i].Reaches(t + i)
    ensures Ahead(Sets(terms), terms[0].Pos(), 0, t)
  {
    hide Isr.Reaches, Isr.Pos, Wraps;
    forall i | 0 <= i < |terms| ensures terms[i].Reaches(t + i) {
      if i > 0 { ReachesMore(terms[i], s + i, t + i); }
    }
  }

  /** When the first term repeats its location, the run starts there again. */
  lemma StepAgain(terms: seq<Isr>, s: nat)
    requires 0 < |terms| && !Wraps(Sets(terms)) && terms[0].NearTo(s) && terms[0].Pos() == s
    requires forall i :: 1 <= i < |terms| ==> terms[i].Reaches(s + i)
    ensures forall i :: 0 <= i < |terms| ==> terms[i].Reaches(s + i)
    ensures Ahead(Sets(terms), terms[0].Pos(), 0, s)
  {
    hide Isr.Valid, Isr.Hits, Isr.Pos, Wraps, IsrWord.Valid, IsrOr.Valid, IsrAnd.Valid, IsrPhrase.Valid, IsrContainer.Valid;
    assert terms[0].Reaches(s + 1);
    assert terms[0].Reaches(s + 0);
  }

  /** terms_[0]->next(): the next run starts at m, the same start again or the one behind it. */
  method StepFirst(terms: seq<Isr>, ghost s: uint32, ghost docs: seq<Span>, ghost height: nat) returns (ghost m: nat)
    requires Family(terms, docs, height) && terms != [] && !Wraps(Sets(terms))
    requires forall i :: 0 <= i < |terms| ==> terms[i].Reaches(s + i)
    requires terms[0].Pos() == s < SENTINEL
    modifies ReprOf(terms)
    ensures m == s || m == s + 1
    ensures forall i :: 0 <= i < |terms| ==> terms[i].Reaches(m + i)
    ensures Ahead(Sets(terms), terms[0].Pos(), 0, m)
    decreases height, 0
  {
    hide Isr.Reaches, Isr.From, Isr.NearTo, Isr.Valid, Isr.Hits, Isr.Pos, Isr.Exact, Wraps, ReprOf, Below, Ahead, IsrWord.Valid, IsrOr.Valid, IsrAnd.Valid, IsrPhrase.Valid, IsrContainer.Valid;
    ReprParts(terms);
    assert terms[0].Reaches(s + 0);
    ReachStands(terms[0], s);
    var _ := terms[0].NextFrom(s);
    if terms[0].Pos() == s {
      m := s;
      StepAgain(terms, s);
    } else {
      m := s + 1;
      PlacesFrom(terms, s, s + 1);
    }
  }

  lemma NoTermsNoRuns(sets: seq<iset<nat>>)
    requires sets == []
    ensures PhraseHits(sets) == iset{}
  {
  }

  /** A hit ends a run. */
  lemma HitIsRun(sets: seq<iset<nat>>, h: nat)
    requires h in PhraseHits(sets)
    ensures sets != [] && |sets| <= h + 1 && Run(sets, h + 1 - |sets|)
  {
  }

  lemma RunIsHit(sets: seq<iset<nat>>, s: nat)
    requires sets != [] && !Wraps(sets) && Run(sets, s)
    ensures s + |sets| - 1 in PhraseHits(sets)
  {
  }

  lemma Narrow(H: iset<nat>, x: nat, y: nat, p: nat)
    requires IsFirst(H, y, p) && x <= y && forall h :: h in H && x <= h ==> y <= h
    ensures IsFirst(H, x, p)
  {
  }

  /** With a term at its end, no run is left. */
  lemma NoMoreRuns(terms: seq<Isr>, x: nat, m: nat, j: nat)
    requires j < |terms| && terms[j].Reaches(m + j) && terms[j].Pos() == SENTINEL && Below(terms[j].Hits())
    requires !Wraps(Sets(terms)) ==> RunsFrom(Sets(terms), x, m)
    ensures IsFirst(PhraseHits(Sets(terms)), x + |terms| - 1, SENTINEL)
  {
    hide Isr.Reaches, Isr.Hits, Isr.Pos, PhraseHits, Wraps;
    var H := PhraseHits(Sets(terms));
    forall h | h in H && x + |terms| - 1 <= h ensures false {
      HitIsRun(Sets(terms), h);
      NotWrapping(Sets(terms), h);
      var s := h + 1 - |terms|;
      RunBehind(terms, m, j, s);
    }
  }

  lemma NotWrapping(sets: seq<iset<nat>>, h: nat)
    requires h in PhraseHits(sets)
    ensures !Wraps(sets)
  {
  }

  /** All terms at their places make a run, and it is the first one from x on. */
  lemma PlacesAreRun(terms: seq<Isr>, x: nat, start: nat)
    requires 0 < |terms| && x <= start && !Wraps(Sets(terms)) && RunsFrom(Sets(terms), x, start)
    requires forall i :: 0 <= i < |terms| ==> terms[i].Reaches(start + i) && terms[i].Pos() == start + i < SENTINEL
    ensures start + |terms| - 1 in PhraseHits(Sets(terms))
    ensures IsFirst(PhraseHits(Sets(terms)), x + |terms| - 1, start + |terms| - 1)
  {
    hide Isr.Reaches, Isr.Hits, Isr.Pos, Isr.Done, Isr.CurrentLocation, PhraseHits, Wraps, IsFirst;
    forall i | 0 <= i < |terms| ensures start + i in Sets(terms)[i] {
      PlaceIsHit(terms[i], start + i);
    }
    RunIsHit(Sets(terms), start);
    forall h | h in PhraseHits(Sets(terms)) && x + |terms| - 1 <= h ensures start + |terms| - 1 <= h {
      HitIsRun(Sets(terms), h);
    }
    LeastIsFirstHit(PhraseHits(Sets(terms)), x + |terms| - 1, start + |terms| - 1);
  }

  lemma PlaceIsHit(t: Isr, p: nat)
    requires t.Reaches(p) && t.Pos() == p < SENTINEL
    ensures p in t.Hits()
  {
    hide Isr.Reaches, Isr.Hits;
    ReachStands(t, p);
  }

  lemma LeastIsFirstHit(H: iset<nat>, x: nat, p: nat)
    requires p in H && x <= p && forall h :: h in H && x <= h ==> p <= h
    ensures IsFirst(H, x, p)
  {
  }

  /** The greatest implied start is from m on and not behind any run. */
  lemma MaxStartBounds(terms: seq<Isr>, x: nat, m: nat, j: nat, k: nat, maxStart: uint32)
    requires 0 < |terms| && j < |terms| && k < |terms|
    requires forall i :: 0 <= i < |terms| ==> terms[i].Reaches(m + i) && Below(terms[i].Hits())
    requires forall i :: 0 <= i < |terms| ==>
      terms[i].Pos() in terms[i].Hits() && ImpliedStart(terms[i].Pos(), i) <= maxStart
    requires maxStart == ImpliedStart(terms[k].Pos(), k) && Ahead(Sets(terms), terms[j].Pos(), j, m)
    requires !Wraps(Sets(terms)) ==> RunsFrom(Sets(terms), x, m)
    ensures m <= maxStart
    ensures Wraps(Sets(terms)) ==> TWO32 - |terms| < maxStart
    ensures !Wraps(Sets(terms)) ==> RunsFrom(Sets(terms), x, maxStart)
  {
    hide Isr.Reaches, Isr.Hits, Isr.Pos, Wraps, ImpliedStart;
    assert ImpliedStart(terms[j].Pos(), j) <= maxStart && terms[j].Pos() in terms[j].Hits();
    if !Wraps(Sets(terms)) {
      ImpliedExact(terms, k, terms[k].Pos());
      forall s: nat | x <= s && Run(Sets(terms), s) ensures maxStart <= s {
        RunBehind(terms, m, k, s);
      }
    }
  }

  /** A term beyond its place rules out every run up to the tried start. */
  lemma MismatchBounds(terms: seq<Isr>, x: nat, start: uint32, out: nat)
    requires out < |terms| < TWO32 && start + out < terms[out].Pos() < SENTINEL
    requires forall i :: 0 <= i < |terms| ==> terms[i].Reaches(start + i)
    requires Wraps(Sets(terms)) ==> TWO32 - |terms| < start
    requires !Wraps(Sets(terms)) ==> RunsFrom(Sets(terms), x, start)
    ensures forall i :: 0 <= i < |terms| ==> terms[i].Reaches(start + 1 + i)
    ensures Ahead(Sets(terms), terms[out].Pos(), out, start + 1)
    ensures !Wraps(Sets(terms)) ==> RunsFrom(Sets(terms), x, start + 1)
  {
    hide Isr.Reaches, Isr.Hits, Isr.Pos, Wraps;
    forall i | 0 <= i < |terms| ensures terms[i].Reaches(start + 1 + i) {
      ReachesMore(terms[i], start + i, start + 1 + i);
    }
    if !Wraps(Sets(terms)) {
      forall s: nat | x <= s && Run(Sets(terms), s) ensures start + 1 <= s {
        RunBehind(terms, start, out, s);
      }
    }
  }

  class IsrPhrase {
    const terms: seq<Isr>
    var currentLoc: uint32
    var exhausted: bool
    ghost const docs: seq<Span>
    ghost const hits: iset<nat>
    ghost const height: nat
    ghost const repr: set<object>

    ghost predicate Shape() {
      && Family(terms, docs, height) && Ordered(docs)
      && this !in ReprOf(terms) && repr == {this} + ReprOf(terms)
      && hits == PhraseHits(Sets(terms))
      && |terms| < TWO32
      && (forall i :: 0 <= i < |terms| ==> terms[i].Exact() && Inside(terms[i].Hits(), docs))
    }

    ghost function Pos(): uint32
      reads this
    {
      if exhausted then SENTINEL else currentLoc
    }

    /** Every term stands at its place in the current run. */
    ghost predicate Valid()
      reads this, repr
      decreases height, 0
    {
      && Shape()
      && (!exhausted ==>
            && terms != [] && !Wraps(Sets(terms))
            && currentLoc in hits && currentLoc < SENTINEL && |terms| <= currentLoc + 1
            && forall i :: 0 <= i < |terms| ==>
                 && terms[i].Reaches(currentLoc + 1 - |terms| + i)
                 && terms[i].Pos() == currentLoc + 1 - |terms| + i)
    }

    constructor (terms: seq<Isr>, ghost docs: seq<Span>)
      requires Family(terms, docs, HeightOf(terms)) && Ordered(docs) && |terms| < TWO32
      requires forall i :: 0 <= i < |terms| ==> terms[i].From(0)
      requires forall i :: 0 <= i < |terms| ==> terms[i].Exact() && Inside(terms[i].Hits(), docs)
      modifies ReprOf(terms)
      ensures Valid() && IsFirst(hits, 0, Pos()) && (exhausted || currentLoc in hits)
      ensures this.docs == docs && hits == PhraseHits(Sets(terms)) && repr == {this} + ReprOf(terms)
    {
      hide Isr.Reaches, Isr.From, Isr.Hits, Isr.Pos, Isr.Exact, PhraseHits, Wraps, Ordered, Below;
      this.terms := terms;
      currentLoc := 0;
      exhausted := false;
      this.docs := docs;
      hits := PhraseHits(Sets(terms));
      height := HeightOf(terms);
      repr := {this} + ReprOf(terms);
      new;
      if |terms| == 0 {
        exhausted := true;
        currentLoc := SENTINEL;
        NoTermsNoRuns(Sets(terms));
        SentinelIsFirstOfNone(0);
      } else {
        NotInChildren(terms, this);
        ghost var j := FirstPlaces(terms);
        var _ := Advance(0, j);
        forall h | h in hits ensures |terms| - 1 <= h { HitIsRun(Sets(terms), h); }
        Narrow(hits, 0, |terms| - 1, Pos());
      }
    }

    method Seek(target: uint32) returns (loc: uint32)
      requires Valid() && Boundary(docs, target)
      modifies repr
      ensures Valid() && loc == Pos() && (exhausted || currentLoc in hits)
      ensures IsFirst(hits, Max(old(Pos()), target), Pos())
      decreases height, 3
    {
      hide Isr.Reaches, Isr.From, Isr.Hits, Isr.Pos, PhraseHits, Wraps, Ordered, Boundary, ReprOf, Below, IsFirst, Inside;
      if exhausted {
        SentinelIsFirst(hits, Max(SENTINEL, target));
        return SENTINEL;
      }
      if currentLoc >= target {
        SelfIsFirst(hits, currentLoc);
        return currentLoc;
      }
      ReprParts(terms);
      NotInChildren(terms, this);
      ghost var s := currentLoc + 1 - |terms|;
      var first := terms[0].SeekFrom(target, s);
      PlacesFrom(terms, s, target);
      loc := Advance(target, 0);
      forall h | h in hits && target <= h ensures target + |terms| - 1 <= h {
        HitIsRun(Sets(terms), h);
        RunsDoNotCross(terms, docs, target, h + 1 - |terms|);
      }
      Narrow(hits, target, target + |terms| - 1, Pos());
    }

    method Next() returns (loc: uint32)
      requires Valid()
      modifies repr
      ensures Valid() && loc == Pos() && (exhausted || currentLoc in hits)
      ensures Pos() == old(Pos()) || IsFirst(hits, old(Pos()) + 1, Pos())
      decreases height, 3
    {
      hide Isr.Reaches, Isr.From, Isr.Hits, Isr.NearTo, Isr.Done, Isr.CurrentLocation, Isr.Pos, Isr.Exact, PhraseHits, Wraps, Ordered, ReprOf, Below, IsFirst, Ahead, ImpliedStart, Inside;
      if exhausted {
        return SENTINEL;
      }
      NotInChildren(terms, this);
      ghost var s := currentLoc + 1 - |terms|;
      ghost var m := StepFirst(terms, s, docs, height);
      loc := Advance(m, 0);
      if m == s { FirstIsSelf(hits, old(currentLoc), Pos()); }
    }

    /** There is no further run. */
    method Exhaust() returns (loc: uint32)
      requires Shape()
      modifies this
      ensures Valid() && exhausted && loc == Pos() == SENTINEL
    {
      hide Family, Ordered, ReprOf, Inside, Isr.Exact, Isr.Hits;
      exhausted := true;
      return SENTINEL;
    }

    /** All terms stand at their places of the run from start on. */
    method StandAt(start: uint32) returns (loc: uint32)
      requires Shape() && !exhausted && terms != [] && !Wraps(Sets(terms)) && start + |terms| - 1 in hits
      requires forall i :: 0 <= i < |terms| ==> terms[i].Reaches(start + i) && terms[i].Pos() == start + i < SENTINEL
      modifies this
      ensures Valid() && !exhausted && loc == Pos() == currentLoc == start + |terms| - 1
    {
      hide Isr.Reaches, Isr.Hits, Isr.Done, Isr.CurrentLocation, Isr.Exact, PhraseHits, Wraps, Ordered, Inside, Isr.Pos;
      assert terms[|terms| - 1].Pos() < SENTINEL;
      NotInChildren(terms, this);
      currentLoc := start + (|terms| - 1);
      assert forall i :: 0 <= i < |terms| ==> terms[i].Reaches(start + i) && terms[i].Pos() == start + i;
      assert currentLoc + 1 - |terms| == start;
      return currentLoc;
    }

    /** Looks for the first run that starts at x or later. */
    method Advance(ghost x: nat, ghost ahead: nat) returns (loc: uint32)
      requires Shape() && !exhausted && terms != []
      requires forall i :: 0 <= i < |terms| ==> terms[i].Reaches(x + i)
      requires ahead < |terms| && Ahead(Sets(terms), terms[ahead].Pos(), ahead, x)
      modifies repr
      ensures Valid() && loc == Pos() && (exhausted || currentLoc in hits)
      ensures IsFirst(hits, x + |terms| - 1, Pos())
      decreases height, 2
    {
      hide Isr.Reaches, Isr.From, Isr.Hits, Isr.Pos, Isr.Done, Isr.CurrentLocation, Isr.Exact, PhraseHits, Wraps, Ordered, ReprOf, IsFirst, Inside, RunsFrom, Ahead, ImpliedStart, IsrPhrase.Valid;
      ghost var m: nat, j: nat := x, ahead;
      RunsFromSelf(Sets(terms), x);
      ReprParts(terms);
      NotInChildren(terms, this);
      while true
        invariant Shape() && !exhausted
        invariant forall i :: 0 <= i < |terms| ==> terms[i].Reaches(m + i)
        invariant x <= m && j < |terms| && Ahead(Sets(terms), terms[j].Pos(), j, m)
        invariant !Wraps(Sets(terms)) ==> RunsFrom(Sets(terms), x, m)
        decreases TWO32 - m
      {
        var maxStart, anyDone, k := MaxImpliedStart(terms, m);
        if anyDone {
          NoMoreRuns(terms, x, m, k);
          loc := Exhaust();
          return;
        }
        MaxStartBounds(terms, x, m, j, k, maxStart);
        var r, out := SeekPlaces(terms, maxStart, m, docs, height);
        if r == NoMore {
          NoMoreRuns(terms, x, maxStart, out);
          loc := Exhaust();
          return;
        }
        if r == Match {
          assert terms[|terms| - 1].Pos() < SENTINEL;
          PlacesAreRun(terms, x, maxStart);
          loc := StandAt(maxStart);
          return;
        }
        MismatchBounds(terms, x, maxStart, out);
        m, j := maxStart + 1, out;
      }
    }
  }

  lemma RunsFromSelf(sets: seq<iset<nat>>, x: nat)
    ensures RunsFrom(sets, x, x)
  {
  }

  lemma FirstIsSelf(H: iset<nat>, p: nat, q: nat)
    requires p in H && p < SENTINEL && IsFirst(H, p, q)
    ensures q == p
  {
  }

  // ---------------------------------------------------------------- exclusion

  /** Whether some negative iterator has a location in the document; the rest are left where they are. */
  method ProbeNegatives(negatives: seq<Isr>, ghost d: nat, start: uint32, end: uint32, ghost x: nat,
                        ghost docs: seq<Span>, ghost height: nat) returns (excluded: bool)
    requires Family(negatives, docs, height) && Ordered(docs)
    requires d < |docs| && docs[d] == Span(start, end) && x <= start
    requires forall i :: 0 <= i < |negatives| ==> negatives[i].Reaches(x)
    modifies ReprOf(negatives)
    ensures forall i :: 0 <= i < |negatives| ==> negatives[i].Reaches(start)
    ensures excluded <==> Excluded(Sets(negatives), docs, d)
    decreases height, 0
  {
    hide Below, Boundary, Isr.Reaches, Isr.From, Isr.Exact, Isr.Pos, Isr.Hits, Isr.Done, ReprOf, Layout.Hits, Excluded;
    ReprParts(negatives);
    StartIsBoundary(docs, d);
    excluded := false;
    ghost var probed := 0;
    for k := 0 to |negatives|
      invariant probed == k && !excluded
      invariant forall i :: 0 <= i < k ==> negatives[i].Reaches(start) && !Hits(Sets(negatives)[i], docs, d)
      invariant forall i :: k <= i < |negatives| ==> negatives[i].Reaches(x)
    {
      if !negatives[k].Done() {
        var negLoc := negatives[k].SeekFrom(start, x);
        NegativeInDoc(negatives[k], docs, d);
        FromReach(negatives[k], start);
        if negLoc != SENTINEL && negLoc <= end {
          excluded := true;
          probed := k + 1;
          break;
        }
      } else {
        DoneNegative(negatives[k], docs, d, x);
        ReachesMore(negatives[k], x, start);
      }
      probed := k + 1;
    }
    if excluded {
      assert Hits(Sets(negatives)[probed - 1], docs, d);
      ExcludedBy(Sets(negatives), docs, d, probed - 1);
    } else {
      NotExcluded(Sets(negatives), docs, d);
    }
    forall i | probed <= i < |negatives| ensures negatives[i].Reaches(start) {
      ReachesMore(negatives[i], x, start);
    }
  }

  lemma FromReach(t: Isr, b: nat)
    requires t.From(b)
    ensures t.Reaches(b)
  {
    hide Isr.Reaches;
  }

  /** From the start of a document on, the first location tells whether the document is touched. */
  lemma NegativeInDoc(t: Isr, docs: seq<Span>, d: nat)
    requires Ordered(docs) && d < |docs| && t.From(docs[d].start)
    ensures t.Pos() <= docs[d].end <==> Hits(t.Hits(), docs, d)
  {
    hide Isr.Valid, Isr.Hits, Isr.Pos, IsrWord.Valid, IsrOr.Valid, IsrAnd.Valid, IsrPhrase.Valid, IsrContainer.Valid;
    FromIsFirst(t, docs[d].start);
    if t.Pos() <= docs[d].end {
      assert InDoc(docs, d, t.Pos());
    }
  }

  lemma DoneNegative(t: Isr, docs: seq<Span>, d: nat, x: nat)
    requires Ordered(docs) && d < |docs| && t.Reaches(x) && t.Done() && x <= docs[d].start
    ensures !Hits(t.Hits(), docs, d)
  {
    hide Isr.Valid, Isr.Hits, IsrWord.Valid, IsrOr.Valid, IsrAnd.Valid, IsrPhrase.Valid, IsrContainer.Valid;
  }

  lemma ExcludedBy(sets: seq<iset<nat>>, docs: seq<Span>, d: nat, i: nat)
    requires i < |sets| && Hits(sets[i], docs, d)
    ensures Excluded(sets, docs, d)
  {
  }

  lemma NotExcluded(sets: seq<iset<nat>>, docs: seq<Span>, d: nat)
    requires forall i :: 0 <= i < |sets| ==> !Hits(sets[i], docs, d)
    ensures !Excluded(sets, docs, d)
  {
  }

  /** The home of a location decides whether it is admitted. */
  lemma HomeDecides(P: iset<nat>, N: seq<iset<nat>>, docs: seq<Span>, h: nat, d: nat)
    requires Home(docs, h, d)
    ensures h in ContainerHits(P, N, docs) <==> h in P && !Excluded(N, docs, d)
  {
    hide Excluded;
    forall c: nat | Home(docs, h, c) ensures c == d { HomeUnique(docs, h, c, d); }
  }

  lemma HomeUnique(docs: seq<Span>, h: nat, c: nat, d: nat)
    requires Home(docs, h, c) && Home(docs, h, d)
    ensures c == d
  {
  }

  /** An excluded document holds no admitted location, so the next one lies behind its end. */
  lemma ExcludedSkips(P: iset<nat>, N: seq<iset<nat>>, docs: seq<Span>, p: nat, d: nat, h: nat)
    requires Home(docs, p, d) && Excluded(N, docs, d)
    requires h in ContainerHits(P, N, docs) && p <= h
    ensures docs[d].end < h
  {
    if h <= docs[d].end {
      HomeAgain(docs, p, h, d);
      HomeDecides(P, N, docs, h, d);
    }
  }

  lemma HomeAgain(docs: seq<Span>, p: nat, h: nat, d: nat)
    requires Home(docs, p, d) && p <= h <= docs[d].end
    ensures Home(docs, h, d)
  {
  }

  lemma NoHomeNoHit(P: iset<nat>, N: seq<iset<nat>>, docs: seq<Span>, p: nat, h: nat)
    requires forall d :: 0 <= d < |docs| ==> docs[d].end < p
    requires h in ContainerHits(P, N, docs)
    ensures h < p
  {
  }

  lemma ContainerInPositive(P: iset<nat>, N: seq<iset<nat>>, docs: seq<Span>, h: nat)
    requires h in ContainerHits(P, N, docs)
    ensures h in P
  {
  }

  /** Every document that ends at or behind x starts at or behind floor. */
  ghost predicate FloorBelow(docs: seq<Span>, floor: nat, x: nat) {
    forall d: nat :: d < |docs| && x <= docs[d].end ==> floor <= docs[d].start
  }

  lemma FloorAtHome(docs: seq<Span>, p: nat, d: nat)
    requires Ordered(docs) && Home(docs, p, d)
    ensures FloorBelow(docs, docs[d].start, p) && FloorBelow(docs, docs[d].start, docs[d].end + 1)
  {
    forall c: nat | c < |docs| && p <= docs[c].end ensures docs[d].start <= docs[c].start {
      assert !(c < d);
      assert c == d || docs[d].end < docs[c].start;
    }
  }

  lemma FloorMore(docs: seq<Span>, floor: nat, at: nat, x: nat, y: nat)
    requires x <= y && FloorBelow(docs, floor, x) && EndBehind(docs, at, x)
    ensures FloorBelow(docs, floor, y) && EndBehind(docs, at, y)
  {
  }

  class IsrContainer {
    const positive: Isr
    const negatives: seq<Isr>
    const docEnd: IsrWord?
    const reader: DiskChunkReader
    var currentLoc: uint32
    var exhausted: bool
    ghost const docs: seq<Span>
    ghost const hits: iset<nat>
    ghost const exact: bool
    ghost const height: nat
    ghost const repr: set<object>

    /** A location that no negative iterator is past. */
    ghost var floor: nat

    ghost predicate Shape() {
      && Member(positive, docs, height) && Family(negatives, docs, height) && Ordered(docs)
      && Serves(reader, docs)
      && positive.Repr() !! ReprOf(negatives)
      && this !in positive.Repr() && this !in ReprOf(negatives)
      && hits == ContainerHits(positive.Hits(), Sets(negatives), docs)
      && exact == positive.Exact()
      && (docEnd == null ==> docs == [])
      && (docEnd != null ==> docEnd.list == Ends(docs) && docEnd !in positive.Repr() && docEnd !in ReprOf(negatives))
      && repr == {this} + positive.Repr() + ReprOf(negatives) + DocEndRepr(docEnd)
    }

    ghost function Pos(): uint32
      reads this
    {
      if exhausted then SENTINEL else currentLoc
    }

    /** For documents from x on, neither a negative iterator nor the end markers are too far. */
    ghost predicate Ready(x: nat)
      reads this, repr
      decreases height, 0
    {
      && Shape() && docEnd != null && docEnd.Valid()
      && FloorBelow(docs, floor, x) && EndBehind(docs, docEnd.At(), x)
      && forall i :: 0 <= i < |negatives| ==> negatives[i].Reaches(floor)
    }

    /** Stands where the positive iterator stands, in a document that is not excluded. */
    ghost predicate Valid()
      reads this, repr
      decreases height, 1
    {
      && Shape()
      && (!exhausted ==>
            && Ready(currentLoc)
            && currentLoc in hits && currentLoc < SENTINEL
            && positive.Reaches(currentLoc) && positive.Pos() == currentLoc)
    }

    constructor (positive: Isr, negatives: seq<Isr>, docEnd: IsrWord?, reader: DiskChunkReader, ghost docs: seq<Span>)
      requires Serves(reader, docs) && Ordered(docs)
      requires Member(positive, docs, HeightOf([positive] + negatives))
      requires Family(negatives, docs, HeightOf([positive] + negatives)) && positive.Repr() !! ReprOf(negatives)
      requires positive.From(0) && forall i :: 0 <= i < |negatives| ==> negatives[i].From(0)
      requires docEnd == null ==> docs == []
      requires docEnd != null ==> docEnd.Valid() && docEnd.At() == 0 && docEnd.list == Ends(docs)
      requires docEnd != null ==> docEnd !in positive.Repr() && docEnd !in ReprOf(negatives)
      modifies positive.Repr(), ReprOf(negatives), docEnd
      ensures Valid() && IsFirst(hits, 0, Pos()) && (exhausted || currentLoc in hits)
      ensures this.docs == docs && hits == ContainerHits(positive.Hits(), Sets(negatives), docs)
      ensures repr == {this} + positive.Repr() + ReprOf(negatives) + DocEndRepr(docEnd)
    {
      hide Isr.Reaches, Isr.From, Isr.Pos, Isr.Hits, Isr.Docs, Isr.Height, ContainerHits, IsFirst, Serves, IsrWord.Shape, Ordered;
      this.positive, this.negatives, this.docEnd, this.reader := positive, negatives, docEnd, reader;
      currentLoc := 0;
      exhausted := false;
      this.docs := docs;
      hits := ContainerHits(positive.Hits(), Sets(negatives), docs);
      exact := positive.Exact();
      height := HeightOf([positive] + negatives);
      repr := {this} + positive.Repr() + ReprOf(negatives) + DocEndRepr(docEnd);
      floor := 0;
      new;
      if positive.Done() || docEnd == null {
        exhausted := true;
        currentLoc := SENTINEL;
        NothingAdmitted(positive, negatives, docs);
      } else {
        NotInChildren(negatives, this);
        FromReaches(negatives, 0);
        var _ := Advance(0);
      }
    }

    method Seek(target: uint32) returns (loc: uint32)
      requires Valid() && (exact || Boundary(docs, target))
      modifies repr
      ensures Valid() && loc == Pos() && (exhausted || currentLoc in hits)
      ensures IsFirst(hits, Max(old(Pos()), target), Pos())
      decreases height, 4
    {
      hide Isr.Reaches, Isr.From, Isr.Pos, Isr.Hits, Isr.Exact, ContainerHits, Serves, IsrWord.Shape, IsrWord.Valid, Boundary, ReprOf, IsFirst, Ordered, EndBehind, FloorBelow, Excluded;
      if exhausted {
        SentinelIsFirst(hits, Max(SENTINEL, target));
        return SENTINEL;
      }
      if currentLoc >= target {
        SelfIsFirst(hits, currentLoc);
        return currentLoc;
      }
      ReprOutside(negatives, positive.Repr());
      FloorMore(docs, floor, docEnd.At(), currentLoc, target);
      var _ := positive.SeekFrom(target, currentLoc);
      loc := Advance(target);
    }

    method Next() returns (loc: uint32)
      requires Valid()
      modifies repr
      ensures Valid() && loc == Pos() && (exhausted || currentLoc in hits)
      ensures Pos() == old(Pos()) || IsFirst(hits, old(Pos()) + 1, Pos())
      decreases height, 4
    {
      hide Isr.Reaches, Isr.From, Isr.NearTo, Isr.Pos, Isr.Hits, Isr.Exact, ContainerHits, Serves, IsrWord.Shape, IsrWord.Valid, Boundary, ReprOf, IsFirst, Ordered, EndBehind, FloorBelow, Excluded;
      if exhausted {
        return SENTINEL;
      }
      ReprOutside(negatives, positive.Repr());
      ReachStands(positive, currentLoc);
      FloorMore(docs, floor, docEnd.At(), currentLoc, currentLoc + 1);
      var _ := positive.NextFrom(currentLoc);
      ghost var again := positive.Pos() == currentLoc;
      if again { NearIsFrom(positive, currentLoc); }
      loc := Advance(if again then currentLoc else currentLoc + 1);
      if again { FirstIsSelf(hits, old(currentLoc), Pos()); }
    }

    /** Nothing further is admitted. */
    method Exhaust() returns (loc: uint32)
      requires Shape()
      modifies this
      ensures Valid() && exhausted && loc == Pos() == SENTINEL
    {
      hide Member, Family, Ordered, Serves, ReprOf, DocEndRepr, ContainerHits;
      exhausted := true;
      return SENTINEL;
    }

    /** Stands where the positive iterator does. */
    method StandAt(p: uint32) returns (loc: uint32)
      requires Ready(p) && !exhausted && p in hits && p < SENTINEL
      requires positive.Reaches(p) && positive.Pos() == p
      modifies this`currentLoc
      ensures Valid() && !exhausted && loc == Pos() == currentLoc == p
    {
      hide Isr.Reaches, Isr.Pos, Isr.Hits, Isr.Exact, ContainerHits, Serves, IsrWord.Shape, IsrWord.Valid, Ordered, EndBehind, FloorBelow;
      NotInChildren(negatives, this);
      currentLoc := p;
      return currentLoc;
    }

    /** Moves the positive iterator on to next. */
    method PassBy(next: uint32, ghost x: nat)
      requires Ready(next) && !exhausted && positive.Reaches(x) && x <= next && Boundary(docs, next)
      modifies positive.Repr()
      ensures Ready(next) && positive.From(next) && !exhausted && floor == old(floor)
      decreases height, 2
    {
      hide Isr.Reaches, Isr.From, Isr.Pos, Isr.Hits, Isr.Exact, ContainerHits, Serves, IsrWord.Shape, IsrWord.Valid, Boundary, ReprOf, Ordered, EndBehind, FloorBelow;
      NotInChildren(negatives, this);
      NotInChildren(negatives, docEnd);
      ReprOutside(negatives, positive.Repr());
      var _ := positive.SeekFrom(next, x);
    }

    /** Looks for the first admitted location from b on. */
    method Advance(ghost b: nat) returns (loc: uint32)
      requires Ready(b) && !exhausted && positive.From(b) && b <= SENTINEL
      modifies repr
      ensures Valid() && loc == Pos() && (exhausted || currentLoc in hits)
      ensures IsFirst(hits, b, Pos())
      decreases height, 3
    {
      hide Isr.Reaches, Isr.From, Isr.Pos, Isr.Hits, Isr.Exact, Isr.Done, Isr.CurrentLocation, ContainerHits, Serves, IsrWord.Shape, IsrWord.Valid, Boundary, ReprOf, Ordered, EndBehind, FloorBelow, Excluded, Home, IsrContainer.Valid;
      ghost var x := b;
      NotInChildren(negatives, this);
      NotInChildren(negatives, docEnd);
      ReprOutside(negatives, positive.Repr());
      FromIsFirst(positive, b);
      while !positive.Done()
        invariant Ready(x) && !exhausted && positive.From(x)
        invariant IsFirst(positive.Hits(), x, positive.Pos())
        invariant b <= x <= SENTINEL
        invariant forall h :: h in hits && b <= h ==> x <= h
        decreases SENTINEL - x
      {
        FromReach(positive, x);
        ReachStands(positive, x);
        var posLoc := positive.CurrentLocation();
        FloorMore(docs, floor, docEnd.At(), x, posLoc);
        var targetDoc, docEndLoc := Locate(docEnd, reader, posLoc, posLoc, docs);
        if targetDoc.None? {
          forall h | h in hits && b <= h ensures false {
            ContainerInPositive(positive.Hits(), Sets(negatives), docs, h);
            NoHomeNoHit(positive.Hits(), Sets(negatives), docs, posLoc, h);
          }
          loc := Exhaust();
          return;
        }
        ghost var d := docEnd.At();
        var docStartLoc := targetDoc.value.startLocation;
        FloorReach(docs, floor, posLoc, d);
        var isExcluded := ProbeNegatives(negatives, d, docStartLoc, docEndLoc, floor, docs, height);
        floor := docStartLoc;
        FloorAtHome(docs, posLoc, d);
        HomeDecides(positive.Hits(), Sets(negatives), docs, posLoc, d);
        FromReach(positive, x);
        if !isExcluded {
          ReachesHere(positive, x);
          AdmittedFirst(positive.Hits(), Sets(negatives), docs, b, x, posLoc);
          loc := StandAt(posLoc);
          return;
        }
        forall h | h in hits && b <= h ensures docEndLoc + 1 <= h {
          ContainerInPositive(positive.Hits(), Sets(negatives), docs, h);
          ExcludedSkips(positive.Hits(), Sets(negatives), docs, posLoc, d, h);
        }
        AfterEndIsBoundary(docs, d);
        PassBy(docEndLoc + 1, x);
        x := docEndLoc + 1;
        FromIsFirst(positive, x);
      }
      ReachStandsFrom(positive, x);
      forall h | h in hits && b <= h ensures SENTINEL <= h {
        ContainerInPositive(positive.Hits(), Sets(negatives), docs, h);
      }
      loc := Exhaust();
    }
  }

  lemma ReprOutside(terms: seq<Isr>, other: set<object>)
    requires other !! ReprOf(terms)
    ensures forall i :: 0 <= i < |terms| ==> terms[i].Repr() !! other
  {
    ReprParts(terms);
  }

  lemma ReachStandsFrom(t: Isr, b: nat)
    requires t.From(b) && t.Done()
    ensures t.Pos() == SENTINEL
  {
    hide Isr.Reaches;
  }

  lemma NearIsFrom(t: Isr, p: nat)
    requires t.NearTo(p) && t.Pos() == p
    ensures t.From(p)
  {
    hide Isr.Valid, Isr.Hits, Isr.Pos, IsrWord.Valid, IsrOr.Valid, IsrAnd.Valid, IsrPhrase.Valid, IsrContainer.Valid;
    assert t.Reaches(p + 1);
    assert t.Reaches(p);
  }

  lemma FloorReach(docs: seq<Span>, floor: nat, p: nat, d: nat)
    requires FloorBelow(docs, floor, p) && Home(docs, p, d)
    ensures floor <= docs[d].start
  {
  }

  lemma AdmittedFirst(P: iset<nat>, N: seq<iset<nat>>, docs: seq<Span>, b: nat, x: nat, p: nat)
    requires IsFirst(P, x, p) && b <= x && p in ContainerHits(P, N, docs)
    requires forall h :: h in ContainerHits(P, N, docs) && b <= h ==> x <= h
    ensures IsFirst(ContainerHits(P, N, docs), b, p)
  {
    hide Admitted;
  }

  lemma NothingAdmitted(positive: Isr, negatives: seq<Isr>, docs: seq<Span>)
    requires positive.From(0) && (positive.Done() || docs == [])
    ensures IsFirst(ContainerHits(positive.Hits(), Sets(negatives), docs), 0, SENTINEL)
  {
    hide Isr.Valid, Isr.Hits, IsrWord.Valid, IsrOr.Valid, IsrAnd.Valid, IsrPhrase.Valid, IsrContainer.Valid;
    FromIsFirst(positive, 0);
  }
}
