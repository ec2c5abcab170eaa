/** The recursive-descent compiler itself: it reads tokens with a cursor and builds iterators
    (src/index/src/lib/query_compiler.cpp). */
module QueryCompilation {
  import opened Basics
  import opened Layout
  import opened WordIterator
  import opened ChunkFormat
  import opened ChunkReader
  import opened Iterators
  import opened QueryMeaning
  import Q = QuerySyntax

  /** A reader of a well-formed index. */
  ghost predicate Reads(reader: DiskChunkReader) {
    reader.Valid() && WellIndexed(reader.index)
  }

  /** An iterator at its first location, over the documents of the chunk, standing for the set H. */
  ghost predicate Built(t: Isr, docs: seq<Span>, H: iset<nat>)
    reads t.Object(), t.Repr()
  {
    && t.From(0)
    && t.Docs() == docs && t.Object() in t.Repr() && Below(t.Hits())
    && t.Hits() == H
  }

  /** Separate iterators within owned, standing for the given sets. */
  ghost predicate BuiltAll(ts: seq<Isr>, owned: set<object>, docs: seq<Span>, sets: seq<iset<nat>>)
    reads owned
  {
    && |ts| == |sets| && ReprOf(ts) <= owned
    && (forall i :: 0 <= i < |ts| ==> ts[i].Object() in owned && ts[i].Repr() <= owned)
    && (forall i :: 0 <= i < |ts| ==> Built(ts[i], docs, sets[i]))
    && (forall i, j :: 0 <= i < j < |ts| ==> ts[i].Repr() !! ts[j].Repr())
  }

  lemma NoneBuilt(docs: seq<Span>)
    ensures BuiltAll([], {}, docs, [])
  {
  }

  lemma BuiltMore(ts: seq<Isr>, owned: set<object>, docs: seq<Span>, sets: seq<iset<nat>>, t: Isr, H: iset<nat>)
    requires BuiltAll(ts, owned, docs, sets) && Built(t, docs, H) && t.Repr() !! owned
    ensures BuiltAll(ts + [t], owned + t.Repr(), docs, sets + [H])
  {
    hide Isr.From, Isr.Hits, Isr.Docs, Below;
    var us := ts + [t];
    assert t.Object() in t.Repr();
    ReprParts(ts);
    ReprParts(us);
    forall o | o in ReprOf(us) ensures o in owned + t.Repr() {
      var i :| 0 <= i < |us| && o in us[i].Repr();
    }
  }

  lemma BuiltFamily(ts: seq<Isr>, owned: set<object>, docs: seq<Span>, sets: seq<iset<nat>>, height: nat)
    requires BuiltAll(ts, owned, docs, sets)
    requires forall i :: 0 <= i < |ts| ==> ts[i].Height() < height
    ensures Family(ts, docs, height) && Sets(ts) == sets && ReprOf(ts) <= owned
    ensures forall i :: 0 <= i < |ts| ==> ts[i].From(0)
    ensures forall i :: 0 <= i < |ts| ==> Below(sets[i])
  {
    hide Isr.From, Isr.Hits, Isr.Docs, Isr.Height, Below;
    assert forall i :: 0 <= i < |ts| ==> Built(ts[i], docs, sets[i]);
    assert forall i :: 0 <= i < |ts| ==> Sets(ts)[i] == sets[i];
  }

  // ---------------------------------------------------------------- fresh iterators are built

  lemma WordBuilt(w: IsrWord)
    requires w.Valid() && w.At() == 0
    ensures Built(Word(w), w.docs, Locations(w.list))
  {
    hide Isr.Reaches, Isr.From, IsrWord.Valid;
    WordPosition(w);
    WordStarts(w);
    assert Word(w).Valid();
    FirstIsFrom(Word(w));
  }

  lemma WordStarts(w: IsrWord)
    requires w.Valid() && w.At() == 0
    ensures IsFirst(Locations(w.list), 0, LocationAt(w.list, 0)) && Below(Locations(w.list))
  {
    forall h | h in Locations(w.list) ensures h < SENTINEL && LocationAt(w.list, 0) <= h {
      var i :| 0 <= i < |w.list| && w.list[i] == h;
    }
  }

  lemma OrBuilt(o: IsrOr)
    requires o.Valid() && IsFirst(o.hits, 0, o.Pos()) && (o.exhausted || o.currentLoc in o.hits)
    requires Below(o.hits) && o in o.repr
    ensures Built(Or(o), o.docs, o.hits)
  {
    hide Isr.Reaches, Isr.From, IsrOr.Valid, IsrAnd.Valid, IsrPhrase.Valid, IsrContainer.Valid;
    assert Or(o).Valid();
    FirstIsFrom(Or(o));
  }

  lemma AndBuilt(a: IsrAnd)
    requires a.Valid() && IsFirst(a.hits, 0, a.Pos()) && (a.exhausted || a.currentLoc in a.hits)
    requires Below(a.hits) && a in a.repr
    ensures Built(And(a), a.docs, a.hits)
  {
    hide Isr.Reaches, Isr.From, IsrOr.Valid, IsrAnd.Valid, IsrPhrase.Valid, IsrContainer.Valid;
    assert And(a).Valid();
    FirstIsFrom(And(a));
  }

  lemma PhraseBuilt(p: IsrPhrase)
    requires p.Valid() && IsFirst(p.hits, 0, p.Pos()) && (p.exhausted || p.currentLoc in p.hits)
    requires Below(p.hits) && p in p.repr
    ensures Built(Phrase(p), p.docs, p.hits)
  {
    hide Isr.Reaches, Isr.From, IsrOr.Valid, IsrAnd.Valid, IsrPhrase.Valid, IsrContainer.Valid;
    assert Phrase(p).Valid();
    FirstIsFrom(Phrase(p));
  }

  lemma ContainerBuilt(c: IsrContainer)
    requires c.Valid() && IsFirst(c.hits, 0, c.Pos()) && (c.exhausted || c.currentLoc in c.hits)
    requires Below(c.hits) && c in c.repr
    ensures Built(Container(c), c.docs, c.hits)
  {
    hide Isr.Reaches, Isr.From, IsrOr.Valid, IsrAnd.Valid, IsrPhrase.Valid, IsrContainer.Valid;
    assert Container(c).Valid();
    FirstIsFrom(Container(c));
  }

  lemma FirstIsFrom(t: Isr)
    requires t.Valid() && IsFirst(t.Hits(), 0, t.Pos()) && (t.Done() || t.CurrentLocation() in t.Hits())
    ensures t.From(0)
  {
    hide Isr.Valid, Isr.Hits, Isr.Pos, IsrWord.Valid, IsrOr.Valid, IsrAnd.Valid, IsrPhrase.Valid, IsrContainer.Valid;
    assert t.Reaches(0);
  }

  // ---------------------------------------------------------------- sets that stay below the sentinel

  lemma OrBelow(sets: seq<iset<nat>>)
    requires forall i :: 0 <= i < |sets| ==> Below(sets[i])
    ensures Below(OrHits(sets))
  {
  }

  lemma AndBelow(sets: seq<iset<nat>>, docs: seq<Span>)
    requires Ordered(docs)
    ensures Below(AndHits(sets, docs))
  {
    hide AllTouch;
  }

  lemma PhraseBelow(sets: seq<iset<nat>>)
    requires sets != [] && forall i :: 0 <= i < |sets| ==> Below(sets[i])
    ensures Below(PhraseHits(sets))
  {
    hide Wraps;
    forall h | h in PhraseHits(sets) ensures h < SENTINEL {
      assert h + 1 - |sets| + (|sets| - 1) in sets[|sets| - 1];
    }
  }

  lemma ContainerBelow(P: iset<nat>, N: seq<iset<nat>>, docs: seq<Span>)
    requires Below(P)
    ensures Below(ContainerHits(P, N, docs))
  {
    hide Admitted;
  }

  lemma ReaderReads(reader: DiskChunkReader)
    requires Reads(reader)
    ensures reader.Valid() && WellIndexed(reader.index)
  {
    hide DiskChunkReader.Valid, WellIndexed;
  }

  lemma ReaderServes(reader: DiskChunkReader)
    requires Reads(reader)
    ensures Serves(reader, Spans(reader.index.documents)) && Ordered(Spans(reader.index.documents))
    ensures HasTerm(reader.index, DOC_END) <==> Spans(reader.index.documents) != []
    ensures Spans(reader.index.documents) != [] ==> LocationsOf(reader.index, DOC_END) == Ends(Spans(reader.index.documents))
  {
    hide Ordered, HasTerm, LocationsOf, Inside, Below;
  }

  // ---------------------------------------------------------------- putting iterators together

  method MakeOr(terms: seq<Isr>, ghost owned: set<object>, ghost docs: seq<Span>, ghost sets: seq<iset<nat>>)
    returns (r: Isr, ghost extra: set<object>)
    requires BuiltAll(terms, owned, docs, sets)
    ensures Built(r, docs, OrHits(sets)) && fresh(extra) && r.Repr() <= owned + extra
    ensures (forall i :: 0 <= i < |terms| ==> terms[i].Exact()) ==> r.Exact()
  {
    hide Isr.From, OrHits, Below, IsrOr.Valid, ReprOf, Isr.Hits, BuiltAll, Built, IsFirst, Family;
    BuiltFamily(terms, owned, docs, sets, HeightOf(terms));
    var o := new IsrOr(terms, docs);
    OrBelow(sets);
    OrBuilt(o);
    r, extra := Or(o), {o};
  }

  method MakeAnd(terms: seq<Isr>, reader: DiskChunkReader, ghost owned: set<object>, ghost sets: seq<iset<nat>>)
    returns (r: Isr, ghost extra: set<object>)
    requires Reads(reader) && BuiltAll(terms, owned, Spans(reader.index.documents), sets)
    modifies owned
    ensures Built(r, Spans(reader.index.documents), AndHits(sets, Spans(reader.index.documents)))
    ensures fresh(extra) && r.Repr() <= owned + extra
  {
    hide Isr.From, AndHits, Below, IsrAnd.Valid, IsrWord.Valid, ReprOf, Isr.Hits, BuiltAll, Built, IsFirst, Family, Ordered, Serves, Reads, Ends, Spans;
    ghost var docs := Spans(reader.index.documents);
    ReaderServes(reader);
    var docEnd := EndMarkers(reader);
    BuiltFamily(terms, owned, docs, sets, HeightOf(terms));
    assert docEnd != null ==> docEnd !in owned;
    var a := new IsrAnd(terms, docEnd, reader, docs);
    AndBelow(sets, docs);
    AndBuilt(a);
    r, extra := And(a), {a} + DocEndRepr(docEnd);
  }

  /** reader_.createISR(docEndToken), null for an index without documents. */
  method EndMarkers(reader: DiskChunkReader) returns (docEnd: IsrWord?)
    requires Reads(reader)
    ensures docEnd == null <==> Spans(reader.index.documents) == []
    ensures docEnd != null ==> fresh(docEnd) && docEnd.Valid() && docEnd.At() == 0 && docEnd.list == Ends(Spans(reader.index.documents))
    ensures docEnd != null ==> docEnd.docs == Spans(reader.index.documents)
  {
    hide HasTerm, LocationsOf, Ends, IsrWord.Valid, WellIndexed, Reads, DiskChunkReader.Valid;
    ReaderReads(reader);
    ReaderServes(reader);
    var found := reader.CreateIsr(DOC_END);
    docEnd := if found.Some? then found.value else null;
  }

  method MakePhrase(terms: seq<Isr>, ghost owned: set<object>, ghost docs: seq<Span>, ghost sets: seq<iset<nat>>)
    returns (r: Isr, ghost extra: set<object>)
    requires BuiltAll(terms, owned, docs, sets) && 0 < |terms| < TWO32 && Ordered(docs)
    requires forall i :: 0 <= i < |terms| ==> terms[i].Exact() && Inside(sets[i], docs)
    modifies owned
    ensures Built(r, docs, PhraseHits(sets)) && fresh(extra) && r.Repr() <= owned + extra
  {
    hide Isr.From, PhraseHits, Below, IsrPhrase.Valid, ReprOf, Isr.Hits, Isr.Exact, BuiltAll, Built, IsFirst, Family, Inside, Ordered;
    BuiltFamily(terms, owned, docs, sets, HeightOf(terms));
    assert forall i :: 0 <= i < |terms| ==> Sets(terms)[i] == terms[i].Hits();
    var p := new IsrPhrase(terms, docs);
    PhraseBelow(sets);
    PhraseBuilt(p);
    r, extra := Phrase(p), {p};
  }

  method MakeContainer(positive: Isr, negatives: seq<Isr>, reader: DiskChunkReader, ghost P: iset<nat>,
                       ghost owned: set<object>, ghost sets: seq<iset<nat>>)
    returns (r: Isr, ghost extra: set<object>)
    requires Reads(reader) && BuiltAll(negatives, owned, Spans(reader.index.documents), sets)
    requires Built(positive, Spans(reader.index.documents), P) && positive.Repr() !! owned
    modifies owned, positive.Repr()
    ensures Built(r, Spans(reader.index.documents), ContainerHits(P, sets, Spans(reader.index.documents)))
    ensures fresh(extra) && r.Repr() <= owned + positive.Repr() + extra
  {
    hide Isr.From, Isr.Hits, ContainerHits, Below, IsrContainer.Valid, IsrWord.Valid, ReprOf, BuiltAll, Built, IsFirst, Family, Member, Ordered, Serves, Reads, Ends, Spans;
    ghost var docs := Spans(reader.index.documents);
    ghost var height := HeightOf([positive] + negatives);
    assert forall i :: 0 <= i < |negatives| ==> ([positive] + negatives)[i + 1] == negatives[i];
    assert ([positive] + negatives)[0] == positive;
    ReaderServes(reader);
    assert allocated(positive.Repr()) && allocated(positive.Object());
    var docEnd := EndMarkers(reader);
    BuiltFamily(negatives, owned, docs, sets, height);
    assert positive.Height() < height;
    assert Built(positive, docs, P);
    BuiltMember(positive, docs, P, height);
    var c := new IsrContainer(positive, negatives, docEnd, reader, docs);
    ContainerBelow(P, sets, docs);
    ContainerBuilt(c);
    r, extra := Container(c), {c} + DocEndRepr(docEnd);
  }

  lemma BuiltMember(t: Isr, docs: seq<Span>, H: iset<nat>, height: nat)
    requires Built(t, docs, H) && t.Height() < height
    ensures Member(t, docs, height) && t.From(0) && t.Hits() == H && Below(H)
  {
    hide Isr.From, Isr.Hits, Isr.Docs, Isr.Height, Below;
  }

  // ---------------------------------------------------------------- words

  /** An optional iterator for an optional plan. */
  ghost predicate Yields(r: Option<Isr>, ix: Index, anchor: bool, plan: Option<Q.Plan>)
    reads if r.Some? then {r.value.Object()} + r.value.Repr() else {}
  {
    && (r.Some? <==> plan.Some?)
    && (r.Some? ==> Built(r.value, Spans(ix.documents), PlanHits(ix, anchor, plan.value)))
  }

  ghost function ReprIf(r: Option<Isr>): set<object> {
    if r.Some? then r.value.Repr() else {}
  }

  /** No token is the marker of document ends; tokenised text is free of its first character. */
  predicate Plain(tokens: seq<Q.Token>) {
    forall i :: 0 <= i < |tokens| ==> tokens[i] != Q.Word(DOC_END)
  }

  lemma NoLocations(ix: Index, t: Text)
    requires !HasTerm(ix, t)
    ensures Locations(LocationsOf(ix, t)) == iset{}
  {
  }

  lemma PairHits(A: iset<nat>, B: iset<nat>)
    ensures OrHits([A, B]) == A + B
  {
    forall h: nat ensures h in OrHits([A, B]) <==> h in A + B {
      assert [A, B][0] == A && [A, B][1] == B;
    }
  }

  lemma TermInside(ix: Index, anchor: bool, t: Text)
    requires WellIndexed(ix) && t != DOC_END
    ensures Inside(TermHits(ix, anchor, t), Spans(ix.documents))
  {
    hide Ordered, Below, Ends, InDoc, Spans;
    InsideTerm(ix, t);
    InsideTerm(ix, TITLE_MARK + t);
    assert (TITLE_MARK + t)[0] == 36;
    assert DOC_END[0] == 35;
  }

  lemma InsideTerm(ix: Index, t: Text)
    requires WellIndexed(ix)
    ensures t != DOC_END ==> Inside(Locations(LocationsOf(ix, t)), Spans(ix.documents))
    ensures Below(Locations(LocationsOf(ix, t)))
  {
    hide Ordered, Ends, InDoc, Spans, Locations;
    if !HasTerm(ix, t) { NoLocations(ix, t); }
  }

  /** The iterator reader_.createISR gives for a word, and its locations. */
  method WordOf(reader: DiskChunkReader, t: Text) returns (r: Option<Isr>)
    requires Reads(reader)
    ensures r.Some? <==> HasTerm(reader.index, t)
    ensures r.Some? ==> r.value.Word?
    ensures fresh(ReprIf(r))
    ensures r.Some? ==> Built(r.value, Spans(reader.index.documents), Locations(LocationsOf(reader.index, t)))
    ensures r.None? ==> Locations(LocationsOf(reader.index, t)) == iset{}
  {
    hide HasTerm, IsrWord.Valid, Spans, LocationsOf, Locations, Built, Reads, WellIndexed, DiskChunkReader.Valid;
    ReaderReads(reader);
    InsideTerm(reader.index, t);
    var found := reader.CreateIsr(t);
    if found.Some? {
      WordBuilt(found.value);
      r := Some(Word(found.value));
    } else {
      NoLocations(reader.index, t);
      r := None;
    }
  }

  method BodyOrTitle(body: Isr, title: Isr, ghost docs: seq<Span>, ghost A: iset<nat>, ghost B: iset<nat>) returns (r: Isr, ghost extra: set<object>)
    requires body.Word? && title.Word? && body.Repr() !! title.Repr()
    requires Built(body, docs, A) && Built(title, docs, B)
    ensures Built(r, docs, A + B) && r.Exact() && fresh(extra) && r.Repr() <= body.Repr() + title.Repr() + extra
  {
    hide Built, BuiltAll, OrHits, ReprOf, Isr.Repr;
    NoneBuilt(docs);
    BuiltMore([], {}, docs, [], body, A);
    BuiltMore([] + [body], {} + body.Repr(), docs, [] + [A], title, B);
    r, extra := MakeOr([] + [body] + [title], {} + body.Repr() + title.Repr(), docs, [] + [A] + [B]);
    assert [] + [A] + [B] == [A, B];
    PairHits(A, B);
  }

  /** createISR: body and title of a word together, or the one of them that is indexed. */
  method CreateIsr(reader: DiskChunkReader, anchor: bool, term: Text) returns (r: Option<Isr>)
    requires Reads(reader)
    ensures r.Some? <==> Known(reader.index, anchor, term)
    ensures fresh(ReprIf(r))
    ensures r.Some? ==> Built(r.value, Spans(reader.index.documents), TermHits(reader.index, anchor, term)) && r.value.Exact()
  {
    hide HasTerm, Spans, LocationsOf, Locations, Built, Reads;
    ghost var ix := reader.index;
    var body := WordOf(reader, term);
    if anchor {
      assert TermHits(ix, anchor, term) == Locations(LocationsOf(ix, term));
      return body;
    }
    assert allocated(ReprIf(body)) && (body.Some? ==> allocated(body.value.Object()));
    var title := WordOf(reader, TITLE_MARK + term);
    ghost var A, B := Locations(LocationsOf(ix, term)), Locations(LocationsOf(ix, TITLE_MARK + term));
    assert TermHits(ix, anchor, term) == A + B;
    if body.Some? && title.Some? {
      var both;
      ghost var extra;
      both, extra := BodyOrTitle(body.value, title.value, Spans(ix.documents), A, B);
      r := Some(both);
    } else if body.Some? {
      assert A + B == A;
      r := body;
    } else {
      assert A + B == B;
      r := title;
    }
  }

  // ---------------------------------------------------------------- the ends of the parsing functions

  lemma Single(ts: seq<Isr>, owned: set<object>, docs: seq<Span>, sets: seq<iset<nat>>)
    requires BuiltAll(ts, owned, docs, sets) && |ts| > 0
    ensures Built(ts[0], docs, sets[0]) && ts[0].Object() in owned && ts[0].Repr() <= owned
  {
    hide Built;
  }

  lemma YieldsIf(r: Isr, ix: Index, anchor: bool, plan: Q.Plan, H: iset<nat>)
    requires Built(r, Spans(ix.documents), H) && PlanHits(ix, anchor, plan) == H
    ensures Yields(Some(r), ix, anchor, Some(plan))
  {
    hide Built, PlanHits;
  }

  /** The end of parseOr. */
  method FinishOr(children: seq<Isr>, ghost ix: Index, ghost anchor: bool, ghost owned: set<object>, ghost P: seq<Q.Plan>)
    returns (r: Option<Isr>, ghost extra: set<object>)
    requires BuiltAll(children, owned, Spans(ix.documents), PlanSets(ix, anchor, P))
    ensures Yields(r, ix, anchor, Q.UnionOf(P)) && fresh(extra) && ReprIf(r) <= owned + extra
  {
    hide BuiltAll, Built, PlanHits, OrHits, Yields, Spans, Isr.Repr;
    extra := {};
    BuiltSize(children, owned, Spans(ix.documents), PlanSets(ix, anchor, P));
    if children == [] {
      r := None;
      YieldsNone(ix, anchor);
    } else if |children| == 1 {
      Single(children, owned, Spans(ix.documents), PlanSets(ix, anchor, P));
      YieldsIf(children[0], ix, anchor, P[0], PlanHits(ix, anchor, P[0]));
      r := Some(children[0]);
    } else {
      var o;
      o, extra := MakeOr(children, owned, Spans(ix.documents), PlanSets(ix, anchor, P));
      UnionHits(ix, anchor, P);
      YieldsIf(o, ix, anchor, Q.Union(P), OrHits(PlanSets(ix, anchor, P)));
      r := Some(o);
    }
  }

  lemma YieldsNone(ix: Index, anchor: bool)
    ensures Yields(None, ix, anchor, None)
  {
  }

  lemma BuiltSize(ts: seq<Isr>, owned: set<object>, docs: seq<Span>, sets: seq<iset<nat>>)
    requires BuiltAll(ts, owned, docs, sets)
    ensures |ts| == |sets|
  {
    hide Built;
  }

  lemma UnionHits(ix: Index, anchor: bool, P: seq<Q.Plan>)
    ensures PlanHits(ix, anchor, Q.Union(P)) == OrHits(PlanSets(ix, anchor, P))
  {
    hide OrHits;
  }

  lemma BothHits(ix: Index, anchor: bool, P: seq<Q.Plan>)
    ensures PlanHits(ix, anchor, Q.Both(P)) == AndHits(PlanSets(ix, anchor, P), Spans(ix.documents))
  {
    hide AndHits;
  }

  lemma ExceptHits(ix: Index, anchor: bool, p: Q.Plan, N: seq<Q.Plan>)
    ensures PlanHits(ix, anchor, Q.Except(p, N)) == ContainerHits(PlanHits(ix, anchor, p), PlanSets(ix, anchor, N), Spans(ix.documents))
  {
    hide ContainerHits;
  }

  /** The end of parseAnd. */
  method FinishAnd(positives: seq<Isr>, negatives: seq<Isr>, reader: DiskChunkReader, ghost anchor: bool, ghost ownedP: set<object>,
                   ghost ownedN: set<object>, ghost P: seq<Q.Plan>, ghost N: seq<Q.Plan>)
    returns (r: Option<Isr>, ghost extra: set<object>)
    requires Reads(reader) && ownedP !! ownedN
    requires BuiltAll(positives, ownedP, Spans(reader.index.documents), PlanSets(reader.index, anchor, P))
    requires BuiltAll(negatives, ownedN, Spans(reader.index.documents), PlanSets(reader.index, anchor, N))
    modifies ownedP, ownedN
    ensures Yields(r, reader.index, anchor, Q.ConjunctionOf(P, N)) && fresh(extra) && ReprIf(r) <= ownedP + ownedN + extra
  {
    hide BuiltAll, Built, PlanHits, AndHits, ContainerHits, Yields, Reads, Spans, Isr.Repr;
    ghost var ix := reader.index;
    ghost var docs := Spans(ix.documents);
    BuiltSize(positives, ownedP, docs, PlanSets(ix, anchor, P));
    BuiltSize(negatives, ownedN, docs, PlanSets(ix, anchor, N));
    if positives == [] {
      YieldsNone(ix, anchor);
      return None, {};
    }
    var positive;
    ghost var more;
    positive, extra := Conjoin(positives, reader, anchor, ownedP, P);
    ghost var plan := if |P| == 1 then P[0] else Q.Both(P);
    if negatives == [] {
      YieldsIf(positive, ix, anchor, plan, PlanHits(ix, anchor, plan));
      return Some(positive), extra;
    }
    var c;
    c, more := MakeContainer(positive, negatives, reader, PlanHits(ix, anchor, plan), ownedN, PlanSets(ix, anchor, N));
    extra := extra + more;
    ExceptHits(ix, anchor, plan, N);
    YieldsIf(c, ix, anchor, Q.Except(plan, N), PlanHits(ix, anchor, Q.Except(plan, N)));
    r := Some(c);
  }

  /** One positive operand stands for itself. */
  method Conjoin(positives: seq<Isr>, reader: DiskChunkReader, ghost anchor: bool, ghost owned: set<object>, ghost P: seq<Q.Plan>)
    returns (r: Isr, ghost extra: set<object>)
    requires Reads(reader) && positives != []
    requires BuiltAll(positives, owned, Spans(reader.index.documents), PlanSets(reader.index, anchor, P))
    modifies owned
    ensures |P| == |positives|
    ensures Built(r, Spans(reader.index.documents), PlanHits(reader.index, anchor, if |P| == 1 then P[0] else Q.Both(P)))
    ensures fresh(extra) && r.Repr() <= owned + extra
  {
    hide BuiltAll, Built, PlanHits, AndHits, Reads, Spans, Isr.Repr;
    ghost var ix := reader.index;
    ghost var docs := Spans(ix.documents);
    BuiltSize(positives, owned, docs, PlanSets(ix, anchor, P));
    if |positives| == 1 {
      Single(positives, owned, docs, PlanSets(ix, anchor, P));
      r, extra := positives[0], {};
    } else {
      r, extra := MakeAnd(positives, reader, owned, PlanSets(ix, anchor, P));
      BothHits(ix, anchor, P);
    }
  }

  /** The end of the quoted branch of parsePrimary. */
  method FinishQuoted(terms: seq<Isr>, ghost ix: Index, ghost anchor: bool, missing: bool, ghost owned: set<object>, ghost words: seq<Text>)
    returns (r: Option<Isr>, ghost extra: set<object>)
    requires BuiltAll(terms, owned, Spans(ix.documents), WordSets(ix, anchor, words)) && |terms| < TWO32
    requires Ordered(Spans(ix.documents))
    requires forall i :: 0 <= i < |terms| ==> terms[i].Exact() && Inside(WordSets(ix, anchor, words)[i], Spans(ix.documents))
    modifies owned
    ensures Yields(r, ix, anchor, Q.SequenceOf(words, missing)) && fresh(extra) && ReprIf(r) <= owned + extra
  {
    hide BuiltAll, Built, PhraseHits, TermHits, Inside, Ordered, Yields, Spans, Isr.Repr, Isr.Exact;
    extra := {};
    BuiltSize(terms, owned, Spans(ix.documents), WordSets(ix, anchor, words));
    if missing || terms == [] {
      YieldsNone(ix, anchor);
      r := None;
    } else if |terms| == 1 {
      Single(terms, owned, Spans(ix.documents), WordSets(ix, anchor, words));
      YieldsIf(terms[0], ix, anchor, Q.Term(words[0]), TermHits(ix, anchor, words[0]));
      r := Some(terms[0]);
    } else {
      var p;
      p, extra := MakePhrase(terms, owned, Spans(ix.documents), WordSets(ix, anchor, words));
      YieldsIf(p, ix, anchor, Q.Sequence(words), PhraseHits(WordSets(ix, anchor, words)));
      r := Some(p);
    }
  }

  // ---------------------------------------------------------------- single steps of the quoted branch

  lemma QuotedMore(ts: seq<Q.Token>, start: nat, c: nat)
    requires start <= c < |ts|
    ensures Q.QuotedWords(ts[start..c + 1])
         == if ts[c].Word? then Q.QuotedWords(ts[start..c]) + [ts[c].text] else Q.QuotedWords(ts[start..c])
  {
    assert ts[start..c + 1][..c - start] == ts[start..c];
  }

  lemma FilterMore(words: seq<Text>, w: Text, indexed: Text -> bool)
    ensures Q.Filter(words + [w], indexed) == if indexed(w) then Q.Filter(words, indexed) + [w] else Q.Filter(words, indexed)
    ensures (exists x :: x in words + [w] && !indexed(x)) <==> (exists x :: x in words && !indexed(x)) || !indexed(w)
  {
    assert (words + [w])[..|words|] == words;
    if !indexed(w) { assert w in words + [w]; }
    if x :| x in words && !indexed(x) { assert x in words + [w]; }
  }

  lemma WordSetsMore(ix: Index, anchor: bool, words: seq<Text>, w: Text)
    ensures WordSets(ix, anchor, words + [w]) == WordSets(ix, anchor, words) + [TermHits(ix, anchor, w)]
  {
    hide TermHits;
  }

  lemma PlanSetsMore(ix: Index, anchor: bool, P: seq<Q.Plan>, p: Q.Plan)
    ensures PlanSets(ix, anchor, P + [p]) == PlanSets(ix, anchor, P) + [PlanHits(ix, anchor, p)]
  {
    hide PlanHits;
  }

  lemma NoSets(ix: Index, anchor: bool)
    ensures BuiltAll([], {}, Spans(ix.documents), WordSets(ix, anchor, []))
    ensures BuiltAll([], {}, Spans(ix.documents), PlanSets(ix, anchor, []))
  {
    NoneBuilt(Spans(ix.documents));
  }

  // ---------------------------------------------------------------- the compiler

  class QueryCompiler {
    const reader: DiskChunkReader
    var tokens: seq<Q.Token>
    var current: nat
    var isAnchor: bool

    ghost predicate Ready()
      reads this
    {
      Reads(reader) && current <= |tokens| < TWO32 && Plain(tokens)
    }

    /** Which words createISR finds. */
    ghost function Finds(): Text -> bool
      reads this`isAnchor
    {
      Indexed(reader.index, isAnchor)
    }

    constructor (reader: DiskChunkReader)
      ensures this.reader == reader && !isAnchor
    {
      this.reader := reader;
      tokens, current, isAnchor := [], 0, false;
    }

    method ConsumeIf(t: Q.Token)
      requires current <= |tokens|
      modifies this`current
      ensures current == if old(current) < |tokens| && tokens[old(current)] == t then old(current) + 1 else old(current)
    {
      if current < |tokens| && tokens[current] == t {
        current := current + 1;
      }
    }

    /** What the loop over a quoted phrase has gathered after some words: an iterator for each word
        that is found. */
    ghost predicate Gathered(terms: seq<Isr>, owned: set<object>, kept: seq<Text>)
      reads this`isAnchor, owned
    {
      && |terms| == |kept|
      && BuiltAll(terms, owned, Spans(reader.index.documents), WordSets(reader.index, isAnchor, kept))
      && (forall i :: 0 <= i < |terms| ==> terms[i].Exact())
      && (forall i :: 0 <= i < |kept| ==> Inside(TermHits(reader.index, isAnchor, kept[i]), Spans(reader.index.documents)))
    }

    /** The loop of the quoted branch: tokens other than words are skipped. */
    method ReadQuoted() returns (terms: seq<Isr>, missing: bool, ghost owned: set<object>, ghost kept: seq<Text>)
      requires Ready()
      modifies this`current
      ensures Ready() && fresh(owned) && Gathered(terms, owned, kept) && |kept| <= current
      ensures current == Q.QuoteEnd(tokens, old(current))
      ensures var words := Q.QuotedWords(tokens[old(current)..current]);
        kept == Q.Filter(words, Finds()) && (missing <==> exists w :: w in words && !Finds()(w))
    {
      hide BuiltAll, Built, Gathered, Q.QuotedWords, Q.Filter, Reads, Known, Plain, Isr.Repr, TermHits, Isr.Exact;
      ghost var start := current;
      terms, missing, owned, kept := [], false, {}, [];
      ghost var words := [];
      NothingGathered(this);
      NothingQuoted(tokens, start, Finds());
      while current < |tokens| && !tokens[current].Quote?
        invariant Ready() && start <= current
        invariant forall i :: start <= i < current ==> !tokens[i].Quote?
        invariant words == Q.QuotedWords(tokens[start..current]) && kept == Q.Filter(words, Finds())
        invariant missing <==> exists w :: w in words && !Finds()(w)
        invariant fresh(owned) && Gathered(terms, owned, kept) && |kept| <= current
      {
        QuotedMore(tokens, start, current);
        if tokens[current].Word? {
          var w := tokens[current].text;
          FilterMore(words, w, Finds());
          var node := CreateIsr(reader, isAnchor, w);
          if node.Some? {
            GatheredMore(this, terms, owned, kept, node.value, w);
            terms, owned, kept := terms + [node.value], owned + node.value.Repr(), kept + [w];
          } else {
            missing := true;
          }
          words := words + [w];
        }
        current := current + 1;
      }
      assert Q.QuoteEnd(tokens, start) == current;
    }

    /** The rest of the quoted branch of parsePrimary, behind the opening quote. */
    method ParseQuoted() returns (r: Option<Isr>, ghost plan: Option<Q.Plan>)
      requires Ready()
      modifies this`current
      ensures Ready()
      ensures var end := Q.QuoteEnd(tokens, old(current));
        var words := Q.QuotedWords(tokens[old(current)..end]);
        && current == (if end < |tokens| then end + 1 else end)
        && plan == Q.SequenceOf(Q.Filter(words, Finds()), exists w :: w in words && !Finds()(w))
      ensures Yields(r, reader.index, isAnchor, plan) && fresh(ReprIf(r))
    {
      hide BuiltAll, Built, Yields, Q.QuotedWords, Q.Filter, Reads, Known, Plain, Q.SequenceOf, Isr.Repr, TermHits, Isr.Exact, Inside, Ordered;
      var terms, missing;
      ghost var owned, kept;
      terms, missing, owned, kept := ReadQuoted();
      ConsumeIf(Q.Quote);
      ReaderOrdered(reader);
      ghost var extra;
      r, extra := FinishQuoted(terms, reader.index, isAnchor, missing, owned, kept);
      plan := Q.SequenceOf(kept, missing);
    }

    method ParsePrimary() returns (r: Option<Isr>, ghost plan: Option<Q.Plan>)
      requires Ready()
      modifies this`current
      ensures Ready()
      ensures old(current) == |tokens| ==> plan == None && current == old(current)
      ensures old(current) < |tokens| ==> (plan, current) == Q.ParsePrimary(tokens, old(current), Finds())
      ensures Yields(r, reader.index, isAnchor, plan) && fresh(ReprIf(r))
      decreases |tokens| - current, 0
    {
      hide Built, Yields, Q.QuotedWords, Q.Filter, Reads, Known, Plain, Q.SequenceOf, Isr.Repr, TermHits, Q.ParseOr, Isr.Exact, Spans;
      YieldsNone(reader.index, isAnchor);
      if current >= |tokens| {
        return None, None;
      }
      var token := tokens[current];
      current := current + 1;
      match token {
        case Word(text) =>
          r := CreateIsr(reader, isAnchor, text);
          plan := if r.Some? then Some(Q.Term(text)) else None;
          if r.Some? { YieldsIf(r.value, reader.index, isAnchor, Q.Term(text), TermHits(reader.index, isAnchor, text)); }
        case LParen =>
          r, plan := ParseOr();
          YieldsOwn(r, reader.index, isAnchor, plan);
          assert allocated(ReprIf(r)) && (r.Some? ==> allocated(r.value.Object()));
          ConsumeIf(Q.RParen);
        case Quote =>
          r, plan := ParseQuoted();
        case _ =>
          return None, None;
      }
    }

    /** The operands gathered so far, positive and negated ones apart. */
    ghost predicate Parts(positives: seq<Isr>, negatives: seq<Isr>, ownedP: set<object>, ownedN: set<object>,
                          P: seq<Q.Plan>, N: seq<Q.Plan>)
      reads this`isAnchor, ownedP, ownedN
    {
      && ownedP !! ownedN
      && BuiltAll(positives, ownedP, Spans(reader.index.documents), PlanSets(reader.index, isAnchor, P))
      && BuiltAll(negatives, ownedN, Spans(reader.index.documents), PlanSets(reader.index, isAnchor, N))
    }

    method ParseAnd() returns (r: Option<Isr>, ghost plan: Option<Q.Plan>)
      requires Ready()
      modifies this`current
      ensures Ready()
      ensures (plan, current) == Q.ParseAnd(tokens, old(current), [], [], Finds())
      ensures Yields(r, reader.index, isAnchor, plan) && fresh(ReprIf(r))
      decreases |tokens| - current, 2
    {
      hide Built, BuiltAll, Yields, Reads, Plain, Isr.Repr, Q.ConjunctionOf, Q.ParsePrimary, Known, PlanHits, Spans;
      ghost var start := current;
      var positives, negatives, missing;
      ghost var ownedP, ownedN, P, N;
      positives, negatives, missing, ownedP, ownedN, P, N := ReadOperands();
      if missing {
        YieldsNone(reader.index, isAnchor);
        return None, None;
      }
      ghost var extra;
      r, extra := FinishAnd(positives, negatives, reader, isAnchor, ownedP, ownedN, P, N);
      plan := Q.ConjunctionOf(P, N);
    }

    /** The loop of parseAnd; missing when it met a positive operand without iterator. */
    method ReadOperands() returns (positives: seq<Isr>, negatives: seq<Isr>, missing: bool, ghost ownedP: set<object>,
                                   ghost ownedN: set<object>, ghost P: seq<Q.Plan>, ghost N: seq<Q.Plan>)
      requires Ready()
      modifies this`current
      ensures Ready() && fresh(ownedP) && fresh(ownedN)
      ensures Parts(positives, negatives, ownedP, ownedN, P, N)
      ensures Q.ParseAnd(tokens, old(current), [], [], Finds()) == (if missing then None else Q.ConjunctionOf(P, N), current)
      decreases |tokens| - current, 1
    {
      hide Built, BuiltAll, Yields, Reads, Plain, Isr.Repr, Parts, Q.ConjunctionOf, Q.ParsePrimary, Q.ParseAnd, Finds, PlanHits, Spans;
      ghost var start, ts, names := current, tokens, Finds();
      positives, negatives, missing, ownedP, ownedN, P, N := [], [], false, {}, {}, [], [];
      NoParts(this);
      while current < |tokens| && !tokens[current].Or? && !tokens[current].RParen?
        invariant Ready() && start <= current && tokens == ts && Finds() == names
        invariant fresh(ownedP) && fresh(ownedN) && Parts(positives, negatives, ownedP, ownedN, P, N)
        invariant Q.ParseAnd(ts, start, [], [], names) == Q.ParseAnd(ts, current, P, N, names)
        decreases |tokens| - current
      {
        var isNot := false;
        ghost var c := current;
        if tokens[current].And? {
          current := current + 1;
          if current >= |tokens| {
            AndBreaks(ts, c, P, N, names);
            return;
          }
        }
        if tokens[current].Not? {
          isNot := true;
          current := current + 1;
          if current >= |tokens| {
            AndBreaks(ts, c, P, N, names);
            return;
          }
        }
        var node;
        ghost var plan;
        ghost var c2 := current;
        node, plan := ParsePrimary();
        Q.AndContinues(ts, c, P, N, Q.Operand(ts[c].And?, isNot, Q.Single([])), c2, plan, current, names);
        NodeIsPlan(node, reader.index, isAnchor, plan);
        if node.None? {
          if !isNot {
            missing := true;
            return;
          }
        } else if isNot {
          NegativeMore(this, positives, negatives, ownedP, ownedN, P, N, node, plan);
          negatives, ownedN, N := negatives + [node.value], ownedN + node.value.Repr(), N + [plan.value];
        } else {
          PositiveMore(this, positives, negatives, ownedP, ownedN, P, N, node, plan);
          positives, ownedP, P := positives + [node.value], ownedP + node.value.Repr(), P + [plan.value];
        }
      }
      Q.AndEnds(ts, current, P, N, names);
    }

    method ParseOr() returns (r: Option<Isr>, ghost plan: Option<Q.Plan>)
      requires Ready()
      modifies this`current
      ensures Ready()
      ensures (plan, current) == Q.ParseOr(tokens, old(current), Finds())
      ensures Yields(r, reader.index, isAnchor, plan) && fresh(ReprIf(r))
      decreases |tokens| - current, 4
    {
      hide Built, BuiltAll, Yields, Reads, Plain, Isr.Repr, Q.UnionOf, Q.ParseAnd, Known, PlanHits, Spans;
      var children;
      ghost var owned, P;
      children, owned, P := ReadAlternatives();
      ghost var extra;
      r, extra := FinishOr(children, reader.index, isAnchor, owned, P);
      plan := Q.UnionOf(P);
    }

    method ReadAlternatives() returns (children: seq<Isr>, ghost owned: set<object>, ghost P: seq<Q.Plan>)
      requires Ready()
      modifies this`current
      ensures Ready() && fresh(owned)
      ensures BuiltAll(children, owned, Spans(reader.index.documents), PlanSets(reader.index, isAnchor, P))
      ensures Q.ParseOr(tokens, old(current), Finds()) == (Q.UnionOf(P), current)
      decreases |tokens| - current, 3
    {
      hide Built, BuiltAll, Yields, Reads, Plain, Isr.Repr, Q.UnionOf, Q.ParseAnd, Q.ParseOr, Q.ParseOrRest, Finds, PlanHits, Spans;
      ghost var start, ts, names := current, tokens, Finds();
      children, owned, P := [], {}, [];
      NoSets(reader.index, isAnchor);
      var left;
      ghost var plan;
      left, plan := ParseAnd();
      Q.OrStarts(ts, start, plan, current, names);
      NodeIsPlan(left, reader.index, isAnchor, plan);
      if left.Some? {
        ChildMore(this, children, owned, P, left, plan);
        children, owned, P := children + [left.value], owned + left.value.Repr(), P + [plan.value];
      }
      while current < |tokens| && tokens[current].Or?
        invariant Ready() && start <= current && tokens == ts && Finds() == names
        invariant fresh(owned) && BuiltAll(children, owned, Spans(reader.index.documents), PlanSets(reader.index, isAnchor, P))
        invariant Q.ParseOr(ts, start, names) == Q.ParseOrRest(ts, current, P, names)
        decreases |tokens| - current
      {
        ghost var c := current;
        current := current + 1;
        var right;
        right, plan := ParseAnd();
        Q.OrContinues(ts, c, P, plan, current, names);
        NodeIsPlan(right, reader.index, isAnchor, plan);
        if right.Some? {
          ChildMore(this, children, owned, P, right, plan);
          children, owned, P := children + [right.value], owned + right.value.Repr(), P + [plan.value];
        }
      }
      Q.OrEnds(ts, current, P, names);
    }

    /** Builds the iterator tree for a token list: the one whose plan the parser gives, standing at the
        first location of the plan's set; none when there is no plan. */
    method Compile(ts: seq<Q.Token>) returns (r: Option<Isr>, ghost plan: Option<Q.Plan>)
      requires Reads(reader) && Plain(ts) && |ts| < TWO32
      modifies this`tokens, this`current
      ensures plan == Q.ParseOr(ts, 0, Finds()).0
      ensures Yields(r, reader.index, isAnchor, plan) && fresh(ReprIf(r))
    {
      hide Built, Yields, Reads, Plain, Q.ParseOr, Known, PlanHits, Spans;
      tokens, current := ts, 0;
      if |tokens| == 0 {
        NoTokensNoPlan(Finds());
        YieldsNone(reader.index, isAnchor);
        return None, None;
      }
      r, plan := ParseOr();
    }

    method CompileAnchor(ts: seq<Q.Token>) returns (r: Option<Isr>, ghost plan: Option<Q.Plan>)
      requires Reads(reader) && Plain(ts) && |ts| < TWO32
      modifies this
      ensures isAnchor && plan == Q.ParseOr(ts, 0, Finds()).0
      ensures Yields(r, reader.index, true, plan) && fresh(ReprIf(r))
    {
      hide Built, Yields, Reads, Plain, Q.ParseOr, Known, PlanHits, Spans;
      isAnchor := true;
      r, plan := Compile(ts);
    }
  }

  lemma NothingGathered(c: QueryCompiler)
    ensures c.Gathered([], {}, [])
  {
    NoSets(c.reader.index, c.isAnchor);
  }

  lemma GatheredMore(c: QueryCompiler, terms: seq<Isr>, owned: set<object>, kept: seq<Text>, t: Isr, w: Text)
    requires c.Ready() && c.current < |c.tokens| && c.tokens[c.current] == Q.Word(w)
    requires c.Gathered(terms, owned, kept) && t.Exact() && t.Repr() !! owned
    requires Built(t, Spans(c.reader.index.documents), TermHits(c.reader.index, c.isAnchor, w))
    ensures c.Gathered(terms + [t], owned + t.Repr(), kept + [w])
  {
    hide Built, BuiltAll, Reads, Plain, TermHits, Inside, Isr.Exact, Isr.Repr;
    WordsAreInside(c, w);
    WordSetsMore(c.reader.index, c.isAnchor, kept, w);
    BuiltMore(terms, owned, Spans(c.reader.index.documents), WordSets(c.reader.index, c.isAnchor, kept), t,
              TermHits(c.reader.index, c.isAnchor, w));
  }

  lemma NothingQuoted(ts: seq<Q.Token>, start: nat, indexed: Text -> bool)
    requires start <= |ts|
    ensures Q.QuotedWords(ts[start..start]) == [] && Q.Filter([], indexed) == []
  {
  }

  lemma ReaderOrdered(reader: DiskChunkReader)
    requires Reads(reader)
    ensures Ordered(Spans(reader.index.documents))
  {
    ReaderReads(reader);
  }

  lemma WordsAreInside(c: QueryCompiler, w: Text)
    requires c.Ready() && c.current < |c.tokens| && c.tokens[c.current] == Q.Word(w)
    ensures Inside(TermHits(c.reader.index, c.isAnchor, w), Spans(c.reader.index.documents))
  {
    hide DiskChunkReader.Valid, WellIndexed, Inside, TermHits;
    TermInside(c.reader.index, c.isAnchor, w);
  }

  lemma NoTokensNoPlan(indexed: Text -> bool)
    ensures Q.ParseOr([], 0, indexed).0 == None
  {
  }

  lemma YieldsOwn(r: Option<Isr>, ix: Index, anchor: bool, plan: Option<Q.Plan>)
    requires Yields(r, ix, anchor, plan)
    ensures r.Some? ==> r.value.Object() in ReprIf(r)
  {
    hide Isr.From, Isr.Hits, Isr.Docs, Below, PlanHits, Spans, Isr.Repr, Isr.Object;
  }

  lemma NodeIsPlan(r: Option<Isr>, ix: Index, anchor: bool, plan: Option<Q.Plan>)
    requires Yields(r, ix, anchor, plan)
    ensures r.Some? <==> plan.Some?
  {
    hide Built;
  }

  /** A conjunction that breaks off behind AND or NOT. */
  lemma AndBreaks(ts: seq<Q.Token>, c: nat, P: seq<Q.Plan>, N: seq<Q.Plan>, indexed: Text -> bool)
    requires c < |ts| && !ts[c].Or? && !ts[c].RParen?
    requires var c1 := if ts[c].And? then c + 1 else c;
      c1 == |ts| || (ts[c1].Not? && c1 + 1 == |ts|)
    ensures Q.ParseAnd(ts, c, P, N, indexed) == (Q.ConjunctionOf(P, N), |ts|)
  {
    hide Q.ParsePrimary;
  }

  lemma NoParts(c: QueryCompiler)
    ensures c.Parts([], [], {}, {}, [], [])
  {
    NoSets(c.reader.index, c.isAnchor);
  }

  lemma ChildMore(c: QueryCompiler, ts: seq<Isr>, owned: set<object>, P: seq<Q.Plan>, node: Option<Isr>, plan: Option<Q.Plan>)
    requires BuiltAll(ts, owned, Spans(c.reader.index.documents), PlanSets(c.reader.index, c.isAnchor, P))
    requires node.Some? && Yields(node, c.reader.index, c.isAnchor, plan) && ReprIf(node) !! owned
    ensures plan.Some?
    ensures BuiltAll(ts + [node.value], owned + node.value.Repr(), Spans(c.reader.index.documents),
                     PlanSets(c.reader.index, c.isAnchor, P + [plan.value]))
  {
    hide Built, BuiltAll, PlanHits, Isr.Repr, Spans;
    PlanSetsMore(c.reader.index, c.isAnchor, P, plan.value);
    BuiltMore(ts, owned, Spans(c.reader.index.documents), PlanSets(c.reader.index, c.isAnchor, P), node.value,
              PlanHits(c.reader.index, c.isAnchor, plan.value));
  }

  lemma PositiveMore(c: QueryCompiler, positives: seq<Isr>, negatives: seq<Isr>, ownedP: set<object>, ownedN: set<object>,
                     P: seq<Q.Plan>, N: seq<Q.Plan>, node: Option<Isr>, plan: Option<Q.Plan>)
    requires c.Parts(positives, negatives, ownedP, ownedN, P, N)
    requires node.Some? && Yields(node, c.reader.index, c.isAnchor, plan) && ReprIf(node) !! ownedP && ReprIf(node) !! ownedN
    ensures plan.Some?
    ensures c.Parts(positives + [node.value], negatives, ownedP + node.value.Repr(), ownedN, P + [plan.value], N)
  {
    hide Built, BuiltAll, PlanHits, Isr.Repr, Spans, Yields;
    ChildMore(c, positives, ownedP, P, node, plan);
  }

  lemma NegativeMore(c: QueryCompiler, positives: seq<Isr>, negatives: seq<Isr>, ownedP: set<object>, ownedN: set<object>,
                     P: seq<Q.Plan>, N: seq<Q.Plan>, node: Option<Isr>, plan: Option<Q.Plan>)
    requires c.Parts(positives, negatives, ownedP, ownedN, P, N)
    requires node.Some? && Yields(node, c.reader.index, c.isAnchor, plan) && ReprIf(node) !! ownedP && ReprIf(node) !! ownedN
    ensures plan.Some?
    ensures c.Parts(positives, negatives + [node.value], ownedP, ownedN + node.value.Repr(), P, N + [plan.value])
  {
    hide Built, BuiltAll, PlanHits, Isr.Repr, Spans, Yields;
    ChildMore(c, negatives, ownedN, N, node, plan);
  }
}
