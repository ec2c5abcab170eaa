/** The search itself: one pass over the documents that the body tree or the anchor tree of a query
    selects (QueryEngine::search in src/index/src/lib/query_engine.cpp). */
module QueryEngine {
  import opened Basics
  import opened Layout
  import opened WordIterator
  import opened ChunkFormat
  import opened ChunkReader
  import opened Iterators
  import opened QueryMeaning
  import opened QueryCompilation
  import SeekTable
  import opened TopK
  import Q = QuerySyntax

  /** Larger than every document number. */
  const MAX_DOC_ID: uint32 := 0xFFFF_FFFF

  // ---------------------------------------------------------------- every location has a document

  ghost predicate InSomeDoc(docs: seq<Span>, h: nat) {
    exists d: nat :: InDoc(docs, d, h)
  }

  ghost predicate AllInDocs(H: iset<nat>, docs: seq<Span>) {
    forall h :: h in H ==> InSomeDoc(docs, h)
  }

  lemma TermInDocs(ix: Index, anchor: bool, t: Text)
    requires WellIndexed(ix)
    ensures AllInDocs(TermHits(ix, anchor, t), Spans(ix.documents))
  {
    hide WellIndexed, Inside, InDoc, AllInDocs, Spans;
    WordInDocs(ix, t);
    WordInDocs(ix, TITLE_MARK + t);
    var A, B := Locations(LocationsOf(ix, t)), Locations(LocationsOf(ix, TITLE_MARK + t));
    UnionInDocs(A, B, Spans(ix.documents));
    assert TermHits(ix, anchor, t) == if anchor then A else A + B;
  }

  lemma UnionInDocs(A: iset<nat>, B: iset<nat>, docs: seq<Span>)
    requires AllInDocs(A, docs) && AllInDocs(B, docs)
    ensures AllInDocs(A + B, docs)
  {
    hide InSomeDoc;
  }

  lemma WordInDocs(ix: Index, t: Text)
    requires WellIndexed(ix)
    ensures AllInDocs(Locations(LocationsOf(ix, t)), Spans(ix.documents))
  {
    hide Ordered, Below, Spans;
    var docs := Spans(ix.documents);
    if t == DOC_END && docs != [] {
      forall h | h in Locations(LocationsOf(ix, t)) ensures InSomeDoc(docs, h) {
        MarkerInDoc(ix, h);
      }
    } else if !HasTerm(ix, t) {
      NoLocations(ix, t);
    } else {
      InsideInDocs(Locations(LocationsOf(ix, t)), docs);
    }
  }

  lemma InsideInDocs(H: iset<nat>, docs: seq<Span>)
    requires Inside(H, docs)
    ensures AllInDocs(H, docs)
  {
    forall h | h in H ensures InSomeDoc(docs, h) {
      var d: nat :| InDoc(docs, d, h) && h < docs[d].end;
    }
  }

  lemma MarkerInDoc(ix: Index, h: nat)
    requires WellIndexed(ix) && Spans(ix.documents) != [] && h in Locations(LocationsOf(ix, DOC_END))
    ensures InSomeDoc(Spans(ix.documents), h)
  {
    hide HasTerm, LocationsOf;
    var docs := Spans(ix.documents);
    var d :| 0 <= d < |Ends(docs)| && Ends(docs)[d] == h;
    assert InDoc(docs, d, h);
  }

  /** Whatever the plan, its locations lie in documents. */
  lemma {:induction false} PlanInDocs(ix: Index, anchor: bool, p: Q.Plan)
    requires WellIndexed(ix)
    ensures AllInDocs(PlanHits(ix, anchor, p), Spans(ix.documents))
    decreases p
  {
    hide WellIndexed, TermHits, InSomeDoc, Run, Wraps, AllTouch, Admitted, Spans;
    var docs := Spans(ix.documents);
    match p
    case Term(t) => TermInDocs(ix, anchor, t);
    case Union(ps) =>
      forall i | 0 <= i < |ps| ensures AllInDocs(PlanHits(ix, anchor, ps[i]), docs) { PlanInDocs(ix, anchor, ps[i]); }
      UnionHits(ix, anchor, ps);
      OrInDocs(PlanSets(ix, anchor, ps), docs);
    case Both(ps) =>
      BothHits(ix, anchor, ps);
      AndInDocs(ix, PlanSets(ix, anchor, ps));
    case Sequence(words) =>
      forall i | 0 <= i < |words| ensures AllInDocs(WordSets(ix, anchor, words)[i], docs) { TermInDocs(ix, anchor, words[i]); }
      RunsInDocs(WordSets(ix, anchor, words), docs);
    case Except(positive, ps) =>
      PlanInDocs(ix, anchor, positive);
      ExceptHits(ix, anchor, positive, ps);
  }

  lemma OrInDocs(sets: seq<iset<nat>>, docs: seq<Span>)
    requires forall i :: 0 <= i < |sets| ==> AllInDocs(sets[i], docs)
    ensures AllInDocs(OrHits(sets), docs)
  {
    hide InSomeDoc;
  }

  lemma AndInDocs(ix: Index, sets: seq<iset<nat>>)
    requires WellIndexed(ix)
    ensures AllInDocs(AndHits(sets, Spans(ix.documents)), Spans(ix.documents))
  {
    hide AllTouch;
    var docs := Spans(ix.documents);
    forall h | h in AndHits(sets, docs) ensures InSomeDoc(docs, h) {
      var d: nat :| d < |docs| && docs[d].end == h && AllTouch(sets, docs, d);
      assert InDoc(docs, d, h);
    }
  }

  lemma RunsInDocs(sets: seq<iset<nat>>, docs: seq<Span>)
    requires forall i :: 0 <= i < |sets| ==> AllInDocs(sets[i], docs)
    ensures AllInDocs(PhraseHits(sets), docs)
  {
    hide InSomeDoc, Wraps;
    forall h | h in PhraseHits(sets) ensures InSomeDoc(docs, h) {
      assert h + 1 - |sets| + (|sets| - 1) in sets[|sets| - 1];
    }
  }

  // ---------------------------------------------------------------- one of the two streams

  /** No document from n on is touched. */
  ghost predicate NoneFrom(H: iset<nat>, docs: seq<Span>, n: nat) {
    forall c: nat :: n <= c < |docs| ==> !Layout.Hits(H, docs, c)
  }

  /** d is the first document from n on that is touched. */
  ghost predicate IsNextDoc(H: iset<nat>, docs: seq<Span>, n: nat, d: nat) {
    && n <= d < |docs| && Layout.Hits(H, docs, d)
    && forall c: nat :: n <= c < d ==> !Layout.Hits(H, docs, c)
  }

  /** p is a location of the first touched document from n on. */
  ghost predicate InNextDoc(H: iset<nat>, docs: seq<Span>, n: nat, p: nat) {
    exists d: nat :: InDoc(docs, d, p) && IsNextDoc(H, docs, n, d)
  }

  /** Where the locations of the documents from n on begin. */
  function Floor(docs: seq<Span>, n: nat): nat
    requires n <= |docs|
  {
    if n == 0 then 0 else docs[n - 1].end + 1
  }

  lemma FirstIsNext(H: iset<nat>, docs: seq<Span>, n: nat, p: nat)
    requires Ordered(docs) && Below(H) && AllInDocs(H, docs) && n <= |docs| && IsFirst(H, Floor(docs, n), p)
    ensures p == SENTINEL ==> NoneFrom(H, docs, n)
    ensures p != SENTINEL ==> InNextDoc(H, docs, n, p)
  {
    forall c: nat, h: nat | n <= c < |docs| && h in H && InDoc(docs, c, h) ensures p <= h < SENTINEL {
      assert Floor(docs, n) <= docs[c].start;
    }
    if p != SENTINEL {
      assert InSomeDoc(docs, p);
      var d: nat :| InDoc(docs, d, p);
    }
  }

  /** A stream: a tree and the end markers of its chunk, both able to go on from document n. */
  ghost predicate Streaming(root: Isr, docEnd: IsrWord, docs: seq<Span>, H: iset<nat>, n: nat, active: bool)
    reads root.Object(), root.Repr(), docEnd
  {
    && root.Hits() == H && root.Docs() == docs && root.Object() in root.Repr() && docEnd !in root.Repr()
    && docEnd.Valid() && docEnd.list == Ends(docs)
    && (active ==>
          && root.Reaches(root.Pos()) && root.Pos() != SENTINEL
          && EndBehind(docs, docEnd.At(), root.Pos()) && InNextDoc(H, docs, n, root.Pos()))
    && (!active ==> NoneFrom(H, docs, n))
  }

  lemma StartStream(root: Isr, docEnd: IsrWord, docs: seq<Span>, H: iset<nat>)
    requires Built(root, docs, H) && docEnd.Valid() && docEnd.At() == 0 && docEnd.list == Ends(docs) && docEnd !in root.Repr()
    requires Ordered(docs) && AllInDocs(H, docs)
    ensures Streaming(root, docEnd, docs, H, 0, !root.Done())
  {
    hide Isr.Reaches, Isr.From, Isr.Hits, Isr.Docs, Isr.Valid, AllInDocs, InNextDoc, NoneFrom, Ordered, IsFirst, IsrWord.Valid, Isr.Pos;
    FromIsFirst(root, 0);
    FirstIsNext(H, docs, 0, root.Pos());
    FromReach(root, 0);
    ReachesHere(root, 0);
    ReachStands(root, 0);
  }

  /** The marker of the current location's document: its number and end. */
  method NextDoc(root: Isr, docEnd: IsrWord, ghost docs: seq<Span>, ghost H: iset<nat>, ghost n: nat)
    returns (docId: uint32, docEndLoc: uint32)
    requires Streaming(root, docEnd, docs, H, n, true) && Ordered(docs)
    modifies docEnd
    ensures Streaming(root, docEnd, docs, H, n, true)
    ensures docId < MAX_DOC_ID && IsNextDoc(H, docs, n, docId) && docEndLoc == docs[docId].end
  {
    hide Isr.Reaches, Isr.Hits, Isr.Docs, Isr.Valid, Ordered, IsNextDoc, EndBehind, SeekTable.Safe, IsPostingList, Scan, Isr.Pos;
    var p := root.CurrentLocation();
    ActivePos(root);
    ghost var d: nat :| InDoc(docs, d, p) && IsNextDoc(H, docs, n, d);
    EndFound(docs, docEnd.At(), p, p);
    InNextHome(docs, p, d, Scan(Ends(docs), docEnd.At(), p));
    DocsFew(docs, d);
    docEndLoc := docEnd.Seek(p);
    docId := docEnd.currentIndex - 1;
  }

  lemma ActivePos(root: Isr)
    requires root.Pos() != SENTINEL
    ensures !root.Done() && root.CurrentLocation() == root.Pos()
  {
  }

  lemma InNextHome(docs: seq<Span>, p: nat, d: nat, e: nat)
    requires Ordered(docs) && InDoc(docs, d, p)
    requires e < |docs| ==> Home(docs, p, e)
    requires e >= |docs| ==> forall c :: 0 <= c < |docs| ==> docs[c].end < p
    ensures e == d
  {
    InDocIsHome(docs, d, p);
    if e < |docs| { HomeUnique(docs, p, d, e); }
  }

  /** Documents end at different locations, so there are fewer of them than locations. */
  lemma {:induction false} DocsFew(docs: seq<Span>, d: nat)
    requires Ordered(docs) && d < |docs|
    ensures d <= docs[d].end < SENTINEL
  {
    if d > 0 {
      DocsFew(docs, d - 1);
      assert docs[d - 1].end < docs[d].start;
    }
  }

  /** Moves a stream behind its current document. */
  method SkipDoc(root: Isr, docEnd: IsrWord, docEndLoc: uint32, ghost docs: seq<Span>, ghost H: iset<nat>, ghost n: nat, ghost d: nat)
    returns (active: bool)
    requires Streaming(root, docEnd, docs, H, n, true) && Ordered(docs) && Below(H) && AllInDocs(H, docs)
    requires IsNextDoc(H, docs, n, d) && docEndLoc == docs[d].end
    modifies root.Repr()
    ensures Streaming(root, docEnd, docs, H, d + 1, active)
  {
    hide Isr.Reaches, Isr.From, Isr.Hits, Isr.Docs, Isr.Valid, Isr.Exact, Ordered, InNextDoc, EndBehind, IsrWord.Valid, Isr.Pos, NoneFrom, AllInDocs, IsFirst, Boundary, Hits;
    StreamPos(docs, H, n, d, root.Pos());
    DocsFew(docs, d);
    AfterEndIsBoundary(docs, d);
    ghost var p := root.Pos();
    var _ := root.SeekFrom(docEndLoc + 1, p);
    FromIsFirst(root, docEndLoc + 1);
    FirstIsNext(H, docs, d + 1, root.Pos());
    FromReach(root, docEndLoc + 1);
    ReachesHere(root, docEndLoc + 1);
    FromBehind(root, docEndLoc + 1);
    EndBehindMore(docs, docEnd.At(), p, root.Pos());
    active := !root.Done();
    ReachStands(root, docEndLoc + 1);
  }

  lemma StreamPos(docs: seq<Span>, H: iset<nat>, n: nat, d: nat, p: nat)
    requires InNextDoc(H, docs, n, p) && IsNextDoc(H, docs, n, d)
    ensures InDoc(docs, d, p)
  {
    var e: nat :| InDoc(docs, e, p) && IsNextDoc(H, docs, n, e);
    assert e == d;
  }

  lemma FromBehind(t: Isr, b: nat)
    requires t.From(b) && b <= SENTINEL
    ensures b <= t.Pos()
  {
    hide Isr.Reaches;
  }

  lemma EndBehindMore(docs: seq<Span>, at: nat, x: nat, y: nat)
    requires EndBehind(docs, at, x) && x <= y
    ensures EndBehind(docs, at, y)
  {
  }

  // ---------------------------------------------------------------- both streams

  ghost function HitsOf(ix: Index, anchor: bool, plan: Option<Q.Plan>): iset<nat> {
    if plan.Some? then PlanHits(ix, anchor, plan.value) else iset{}
  }

  /** One side of the search, whose objects are its own; without a tree or without documents there is
      nothing to find. */
  ghost predicate Side(root: Option<Isr>, docEnd: IsrWord?, own: set<object>, docs: seq<Span>, H: iset<nat>, n: nat, active: bool)
    reads own
  {
    && (root.Some? ==> root.value.Object() in own && root.value.Repr() <= own)
    && (docEnd != null ==> docEnd in own)
    && (active ==> root.Some? && docEnd != null)
    && (root.Some? && docEnd != null ==> Streaming(root.value, docEnd, docs, H, n, active))
    && (root.None? || docEnd == null ==> NoneFrom(H, docs, n))
  }

  /** Neither touches documents that are not there. */
  lemma NoDocs(H: iset<nat>, docs: seq<Span>, n: nat)
    requires H == iset{} || docs == []
    ensures NoneFrom(H, docs, n)
  {
  }

  lemma HitsOfInDocs(ix: Index, anchor: bool, root: Option<Isr>, plan: Option<Q.Plan>)
    requires WellIndexed(ix) && Yields(root, ix, anchor, plan)
    ensures AllInDocs(HitsOf(ix, anchor, plan), Spans(ix.documents)) && Below(HitsOf(ix, anchor, plan))
    ensures Ordered(Spans(ix.documents))
    ensures root.Some? ==> Built(root.value, Spans(ix.documents), HitsOf(ix, anchor, plan)) && root.value.Object() in root.value.Repr()
  {
    hide PlanHits, Isr.From, Isr.Hits, Isr.Docs, Inside, HasTerm, LocationsOf;
    if plan.Some? { PlanInDocs(ix, anchor, plan.value); }
  }

  method StartSide(reader: DiskChunkReader, ghost anchor: bool, root: Option<Isr>, ghost plan: Option<Q.Plan>)
    returns (docEnd: IsrWord?, active: bool, ghost own: set<object>)
    requires Reads(reader) && Yields(root, reader.index, anchor, plan)
    ensures fresh(DocEndRepr(docEnd)) && own == ReprIf(root) + DocEndRepr(docEnd)
    ensures Side(root, docEnd, own, Spans(reader.index.documents), HitsOf(reader.index, anchor, plan), 0, active)
  {
    hide PlanHits, Yields, Built, Streaming, NoneFrom, Ordered, Below, AllInDocs, Spans, Ends, HitsOf, Reads, DiskChunkReader.Valid, WellIndexed, IsrWord.Valid, Isr.Repr, Isr.Object;
    ghost var ix := reader.index;
    ghost var docs, H := Spans(ix.documents), HitsOf(ix, anchor, plan);
    ReaderReads(reader);
    HitsOfInDocs(ix, anchor, root, plan);
    docEnd := null;
    active := false;
    own := ReprIf(root);
    if root.Some? {
      assert allocated(root.value.Repr()) && allocated(root.value.Object());
      docEnd := EndMarkers(reader);
      own := own + DocEndRepr(docEnd);
      if docEnd != null {
        StartStream(root.value, docEnd, docs, H);
        active := !root.value.Done();
      } else {
        NoDocs(H, docs, 0);
      }
    } else {
      NoPlanNoHits(ix, anchor, plan, root);
      NoDocs(H, docs, 0);
    }
  }

  lemma NoPlanNoHits(ix: Index, anchor: bool, plan: Option<Q.Plan>, root: Option<Isr>)
    requires Yields(root, ix, anchor, plan) && root.None?
    ensures HitsOf(ix, anchor, plan) == iset{}
  {
  }

  /** A side whose next document lies behind c needs nothing up to c. */
  lemma SideWaits(root: Option<Isr>, docEnd: IsrWord?, own: set<object>, docs: seq<Span>, H: iset<nat>, n: nat, active: bool, c: nat, d: nat)
    requires Side(root, docEnd, own, docs, H, n, active) && n <= c
    requires active ==> IsNextDoc(H, docs, n, d) && c < d
    ensures Side(root, docEnd, own, docs, H, c + 1, active)
  {
    hide Isr.Reaches, Isr.Hits, Isr.Docs, Isr.Pos, Isr.Repr, Isr.Object, InDoc, Layout.Hits, EndBehind, IsrWord.Valid;
    if active {
      var e: nat :| InDoc(docs, e, root.value.Pos()) && IsNextDoc(H, docs, n, e);
      assert e == d;
      assert IsNextDoc(H, docs, c + 1, d);
    }
  }

  /** The documents the search has to visit. */
  ghost predicate Chosen(count: nat, B: iset<nat>, bodyDocs: seq<Span>, A: iset<nat>, anchorDocs: seq<Span>, d: nat) {
    d < count && (Layout.Hits(B, bodyDocs, d) || Layout.Hits(A, anchorDocs, d))
  }

  ghost predicate Ascends(v: seq<nat>) {
    forall i, j :: 0 <= i < j < |v| ==> v[i] < v[j]
  }

  /** The numbers below n with property p, in order. */
  ghost function Selected(n: nat, p: nat -> bool): (v: seq<nat>)
    ensures Ascends(v) && forall i :: 0 <= i < |v| ==> v[i] < n && p(v[i])
    ensures forall d: nat :: d < n && p(d) ==> d in v
  {
    if n == 0 then [] else Selected(n - 1, p) + if p(n - 1) then [n - 1] else []
  }

  /** A list is determined by its elements when it is in order. */
  lemma {:induction false} AscendsUnique(v: seq<nat>, w: seq<nat>)
    requires Ascends(v) && Ascends(w) && forall d: nat :: d in v <==> d in w
    ensures v == w
    decreases |v|
  {
    hide Ascends;
    if v != [] { assert v[0] in w; }
    if w != [] { assert w[0] in v; }
    if v != [] {
      ButLast(v);
      ButLast(w);
      assert v[|v| - 1] in w && w[|w| - 1] in v;
      AscendsUnique(v[..|v| - 1], w[..|w| - 1]);
    }
  }

  /** The last element is the greatest. */
  lemma ButLast(v: seq<nat>)
    requires Ascends(v) && v != []
    ensures var front, last := v[..|v| - 1], v[|v| - 1];
      v == front + [last] && Ascends(front) && (forall d: nat :: d in front <==> d in v && d != last) && forall d: nat :: d in v ==> d <= last
  {
  }

  /** v lists, in order and once each, the documents below n that have to be visited. */
  ghost predicate VisitsBelow(v: seq<nat>, n: nat, count: nat, B: iset<nat>, bodyDocs: seq<Span>, A: iset<nat>, anchorDocs: seq<Span>) {
    && Ascends(v)
    && forall d: nat :: d in v <==> d < n && Chosen(count, B, bodyDocs, A, anchorDocs, d)
  }

  lemma VisitsMore(v: seq<nat>, n: nat, count: nat, B: iset<nat>, bodyDocs: seq<Span>, A: iset<nat>, anchorDocs: seq<Span>, c: nat)
    requires VisitsBelow(v, n, count, B, bodyDocs, A, anchorDocs) && n <= c
    requires forall d: nat :: n <= d < c ==> !Layout.Hits(B, bodyDocs, d) && !Layout.Hits(A, anchorDocs, d)
    requires Layout.Hits(B, bodyDocs, c) || Layout.Hits(A, anchorDocs, c)
    ensures VisitsBelow(if c < count then v + [c] else v, c + 1, count, B, bodyDocs, A, anchorDocs)
  {
    hide Layout.Hits;
    var w := v + [c];
    forall d: nat ensures d in w <==> d in v || d == c {
    }
    forall i | 0 <= i < |v| ensures v[i] < n { assert v[i] in v; }
  }

  ghost predicate InRange(v: seq<nat>, records: seq<DocumentRecord>) {
    forall i :: 0 <= i < |v| ==> v[i] < |records|
  }

  /** The visited documents with their scores. */
  function Ranked(v: seq<nat>, records: seq<DocumentRecord>, scorer: DocumentRecord -> real): (r: seq<Scored<nat>>)
    requires InRange(v, records)
    ensures |r| == |v| && forall i :: 0 <= i < |v| ==> r[i] == Scored(v[i], scorer(records[v[i]]))
  {
    seq(|v|, i requires 0 <= i < |v| => Scored(v[i], scorer(records[v[i]])))
  }

  lemma RankedMore(v: seq<nat>, records: seq<DocumentRecord>, scorer: DocumentRecord -> real, c: nat)
    requires InRange(v, records) && c < |records|
    ensures InRange(v + [c], records)
    ensures multiset(Ranked(v + [c], records, scorer)) == multiset(Ranked(v, records, scorer)) + multiset{Scored(c, scorer(records[c]))}
  {
    assert Ranked(v + [c], records, scorer) == Ranked(v, records, scorer) + [Scored(c, scorer(records[c]))];
  }

  lemma NoneRanked(records: seq<DocumentRecord>, scorer: DocumentRecord -> real)
    ensures InRange([], records) && multiset(Ranked([], records, scorer)) == multiset{}
  {
  }

  /** Nothing is left to find from n on, wherever the documents end. */
  ghost predicate SideRests(docs: seq<Span>, H: iset<nat>, n: nat) {
    forall e: nat :: n <= e ==> !Layout.Hits(H, docs, e)
  }

  /** The lesser of the two sides' next documents is the next to visit. */
  lemma LeastIsNext(v: seq<nat>, n: nat, count: nat, B: iset<nat>, bodyDocs: seq<Span>, bodyActive: bool, bodyDocId: uint32,
                    A: iset<nat>, anchorDocs: seq<Span>, anchorActive: bool, anchorDocId: uint32, c: uint32)
    requires VisitsBelow(v, n, count, B, bodyDocs, A, anchorDocs) && (bodyActive || anchorActive)
    requires bodyActive ==> bodyDocId < MAX_DOC_ID && IsNextDoc(B, bodyDocs, n, bodyDocId)
    requires !bodyActive ==> bodyDocId == MAX_DOC_ID && SideRests(bodyDocs, B, n)
    requires anchorActive ==> anchorDocId < MAX_DOC_ID && IsNextDoc(A, anchorDocs, n, anchorDocId)
    requires !anchorActive ==> anchorDocId == MAX_DOC_ID && SideRests(anchorDocs, A, n)
    requires c == if bodyDocId < anchorDocId then bodyDocId else anchorDocId
    ensures n <= c < |bodyDocs| + |anchorDocs| && c < MAX_DOC_ID
    ensures VisitsBelow(if c < count then v + [c] else v, c + 1, count, B, bodyDocs, A, anchorDocs)
  {
    hide Layout.Hits, VisitsBelow;
    VisitsMore(v, n, count, B, bodyDocs, A, anchorDocs, c);
  }

  /** The part of the loop of search that looks up one side's document. The marker is always found,
      so the source's exits for a missing one are never taken. */
  method SideNext(root: Option<Isr>, docEnd: IsrWord?, active: bool, ghost own: set<object>, ghost docs: seq<Span>, ghost H: iset<nat>, ghost n: nat)
    returns (docId: uint32, docEndLoc: uint32, stillActive: bool)
    requires Side(root, docEnd, own, docs, H, n, active) && Ordered(docs)
    modifies own
    ensures Side(root, docEnd, own, docs, H, n, active) && stillActive == active
    ensures active ==> docId < MAX_DOC_ID && IsNextDoc(H, docs, n, docId) && docEndLoc == docs[docId].end
    ensures !active ==> docId == MAX_DOC_ID
  {
    hide Streaming, IsNextDoc, Ordered, NoneFrom, Isr.Repr, Isr.Object;
    docId, docEndLoc, stillActive := MAX_DOC_ID, SENTINEL, active;
    if active {
      docId, docEndLoc := NextDoc(root.value, docEnd, docs, H, n);
    }
  }

  /** The part of the loop of search that moves one side on, if current is its document. */
  method SideSkip(root: Option<Isr>, docEnd: IsrWord?, active: bool, docId: uint32, docEndLoc: uint32, current: uint32,
                  ghost own: set<object>, ghost docs: seq<Span>, ghost H: iset<nat>, ghost n: nat)
    returns (stillActive: bool)
    requires Side(root, docEnd, own, docs, H, n, active) && Ordered(docs) && Below(H) && AllInDocs(H, docs)
    requires active ==> IsNextDoc(H, docs, n, docId) && docEndLoc == docs[docId].end && current <= docId
    requires n <= current
    modifies own
    ensures Side(root, docEnd, own, docs, H, current + 1, stillActive)
  {
    hide Streaming, IsNextDoc, Ordered, NoneFrom, Below, AllInDocs, Isr.Repr, Isr.Object;
    if active && docId == current {
      stillActive := SkipDoc(root.value, docEnd, docEndLoc, docs, H, n, docId);
    } else {
      SideWaits(root, docEnd, own, docs, H, n, active, current, docId);
      stillActive := active;
    }
  }

  // ---------------------------------------------------------------- the engine

  ghost predicate PlanSelects(ix: Index, anchor: bool, plan: Option<Q.Plan>, d: nat) {
    plan.Some? && Selects(ix, anchor, plan.value, d)
  }

  class QueryEngine {
    const bodyReader: DiskChunkReader
    const anchorReader: DiskChunkReader
    const scorer: DocumentRecord -> real

    constructor (bodyReader: DiskChunkReader, anchorReader: DiskChunkReader, scorer: DocumentRecord -> real)
      ensures this.bodyReader == bodyReader && this.anchorReader == anchorReader && this.scorer == scorer
    {
      this.bodyReader, this.anchorReader, this.scorer := bodyReader, anchorReader, scorer;
    }

    /** The tree of the body index or that of the anchor index selects document d. */
    ghost predicate Finds(tokens: seq<Q.Token>, d: nat) {
      && d < |bodyReader.index.documents|
      && (|| PlanSelects(bodyReader.index, false, Q.ParseOr(tokens, 0, Indexed(bodyReader.index, false)).0, d)
          || PlanSelects(anchorReader.index, true, Q.ParseOr(tokens, 0, Indexed(anchorReader.index, true)).0, d))
    }

    /** All of them, in order. */
    ghost function Found(tokens: seq<Q.Token>): (v: seq<nat>)
      ensures InRange(v, bodyReader.index.documents)
    {
      Selected(|bodyReader.index.documents|, (d: nat) => Finds(tokens, d))
    }

    ghost function BodyHits(plan: Option<Q.Plan>): iset<nat> { HitsOf(bodyReader.index, false, plan) }

    ghost function AnchorHits(plan: Option<Q.Plan>): iset<nat> { HitsOf(anchorReader.index, true, plan) }

    ghost function BodyDocs(): seq<Span> { Spans(bodyReader.index.documents) }

    ghost function AnchorDocs(): seq<Span> { Spans(anchorReader.index.documents) }

    ghost predicate AllVisited(v: seq<nat>, bodyPlan: Option<Q.Plan>, anchorPlan: Option<Q.Plan>) {
      && Ascends(v)
      && forall d: nat :: d in v <==>
           Chosen(|bodyReader.index.documents|, BodyHits(bodyPlan), BodyDocs(), AnchorHits(anchorPlan), AnchorDocs(), d)
    }

    ghost predicate Scored(v: seq<nat>, pushed: multiset<TopK.Scored<nat>>) {
      InRange(v, bodyReader.index.documents) && pushed == multiset(Ranked(v, bodyReader.index.documents, scorer))
    }

    /** The state of the loop of search when all documents below n have been dealt with. */
    ghost predicate Midway(bodyRoot: Option<Isr>, bodyDocEnd: IsrWord?, bodyActive: bool, bodyPlan: Option<Q.Plan>, bodyOwn: set<object>,
                           anchorRoot: Option<Isr>, anchorDocEnd: IsrWord?, anchorActive: bool, anchorPlan: Option<Q.Plan>,
                           anchorOwn: set<object>, n: nat)
      reads bodyOwn, anchorOwn
    {
      && Side(bodyRoot, bodyDocEnd, bodyOwn, BodyDocs(), BodyHits(bodyPlan), n, bodyActive)
      && Side(anchorRoot, anchorDocEnd, anchorOwn, AnchorDocs(), AnchorHits(anchorPlan), n, anchorActive)
    }

    /** What search knows about a side's plan all along. */
    ghost predicate Sound(bodyPlan: Option<Q.Plan>, anchorPlan: Option<Q.Plan>) {
      && bodyReader.Valid() && Ordered(BodyDocs()) && Ordered(AnchorDocs())
      && Below(BodyHits(bodyPlan)) && AllInDocs(BodyHits(bodyPlan), BodyDocs())
      && Below(AnchorHits(anchorPlan)) && AllInDocs(AnchorHits(anchorPlan), AnchorDocs())
    }

    ghost predicate VisitedBelow(v: seq<nat>, n: nat, bodyPlan: Option<Q.Plan>, anchorPlan: Option<Q.Plan>) {
      VisitsBelow(v, n, |bodyReader.index.documents|, BodyHits(bodyPlan), BodyDocs(), AnchorHits(anchorPlan), AnchorDocs())
    }

    /** Scores one document, if the body chunk has it. */
    method Visit(topK: TopKHeap<nat>, docId: uint32, ghost v: seq<nat>) returns (ghost w: seq<nat>)
      requires bodyReader.Valid() && topK.Valid() && topK.k > 0 && Scored(v, topK.pushed)
      modifies topK
      ensures topK.Valid() && Scored(w, topK.pushed)
      ensures w == if docId < |bodyReader.index.documents| then v + [docId] else v
    {
      hide DiskChunkReader.Valid, TopKHeap.Valid, Scored;
      var doc := bodyReader.GetDocument(docId);
      w := v;
      if doc.Some? {
        MoreScored(v, docId, topK.pushed);
        topK.Push(TopK.Scored(docId, scorer(doc.value)));
        w := v + [docId];
      }
    }

    /** The loop body of search: visits the lesser of the two sides' documents. */
    method VisitNext(bodyRoot: Option<Isr>, bodyDocEnd: IsrWord?, bodyActive0: bool, ghost bodyPlan: Option<Q.Plan>, ghost bodyOwn: set<object>,
                     anchorRoot: Option<Isr>, anchorDocEnd: IsrWord?, anchorActive0: bool, ghost anchorPlan: Option<Q.Plan>,
                     ghost anchorOwn: set<object>, topK: TopKHeap<nat>, ghost n: nat, ghost v: seq<nat>)
      returns (bodyActive: bool, anchorActive: bool, ghost m: nat, ghost w: seq<nat>)
      requires bodyActive0 || anchorActive0
      requires Sound(bodyPlan, anchorPlan) && bodyOwn !! anchorOwn && topK !in bodyOwn + anchorOwn
      requires Midway(bodyRoot, bodyDocEnd, bodyActive0, bodyPlan, bodyOwn, anchorRoot, anchorDocEnd, anchorActive0, anchorPlan, anchorOwn, n)
      requires topK.Valid() && topK.k > 0 && Scored(v, topK.pushed) && VisitedBelow(v, n, bodyPlan, anchorPlan)
      modifies topK, bodyOwn, anchorOwn
      ensures Midway(bodyRoot, bodyDocEnd, bodyActive, bodyPlan, bodyOwn, anchorRoot, anchorDocEnd, anchorActive, anchorPlan, anchorOwn, m)
      ensures topK.Valid() && Scored(w, topK.pushed) && VisitedBelow(w, m, bodyPlan, anchorPlan)
      ensures n < m <= |BodyDocs()| + |AnchorDocs()|
    {
      hide HitsOf, VisitsBelow, Ordered, Below, AllInDocs, IsNextDoc, DiskChunkReader.Valid, NoneFrom, TopKHeap.Valid, Isr.Repr,
        Isr.Object, Spans, Scored, BodyHits, AnchorHits, BodyDocs, AnchorDocs, Side, Hits;
      ghost var B, A, bodyDocs, anchorDocs := BodyHits(bodyPlan), AnchorHits(anchorPlan), BodyDocs(), AnchorDocs();
      ghost var count := |bodyReader.index.documents|;
      var bodyDocId, bodyDocEndLoc, anchorDocId, anchorDocEndLoc;
      bodyDocId, bodyDocEndLoc, bodyActive := SideNext(bodyRoot, bodyDocEnd, bodyActive0, bodyOwn, bodyDocs, B, n);
      anchorDocId, anchorDocEndLoc, anchorActive := SideNext(anchorRoot, anchorDocEnd, anchorActive0, anchorOwn, anchorDocs, A, n);
      var currentDocId := if bodyDocId < anchorDocId then bodyDocId else anchorDocId;
      assert !bodyActive ==> SideRests(bodyDocs, B, n) by { if !bodyActive { SideDone(bodyRoot, bodyDocEnd, bodyOwn, bodyDocs, B, n); } }
      assert !anchorActive ==> SideRests(anchorDocs, A, n) by { if !anchorActive { SideDone(anchorRoot, anchorDocEnd, anchorOwn, anchorDocs, A, n); } }
      LeastIsNext(v, n, count, B, bodyDocs, bodyActive, bodyDocId, A, anchorDocs, anchorActive, anchorDocId, currentDocId);
      w := Visit(topK, currentDocId, v);
      bodyActive := SideSkip(bodyRoot, bodyDocEnd, bodyActive, bodyDocId, bodyDocEndLoc, currentDocId, bodyOwn, bodyDocs, B, n);
      anchorActive := SideSkip(anchorRoot, anchorDocEnd, anchorActive, anchorDocId, anchorDocEndLoc, currentDocId, anchorOwn, anchorDocs, A, n);
      m := currentDocId + 1;
    }

    lemma StartVisited(bodyPlan: Option<Q.Plan>, anchorPlan: Option<Q.Plan>)
      ensures VisitedBelow([], 0, bodyPlan, anchorPlan)
    {
    }

    lemma StartScored()
      ensures Scored([], multiset{})
    {
      NoneRanked(bodyReader.index.documents, scorer);
    }

    lemma MoreScored(v: seq<nat>, c: nat, pushed: multiset<TopK.Scored<nat>>)
      requires Scored(v, pushed) && c < |bodyReader.index.documents|
      ensures Scored(v + [c], pushed + multiset{TopK.Scored(c, scorer(bodyReader.index.documents[c]))})
    {
      RankedMore(v, bodyReader.index.documents, scorer, c);
    }

    lemma VisitedAll(v: seq<nat>, n: nat, bodyPlan: Option<Q.Plan>, anchorPlan: Option<Q.Plan>)
      requires VisitedBelow(v, n, bodyPlan, anchorPlan)
      requires SideRests(BodyDocs(), BodyHits(bodyPlan), n) && SideRests(AnchorDocs(), AnchorHits(anchorPlan), n)
      ensures AllVisited(v, bodyPlan, anchorPlan)
    {
      hide BodyHits, AnchorHits, BodyDocs, AnchorDocs, Layout.Hits;
    }

    /** The two-stream merge: both sides' documents, in order and once each. */
    method Merge(bodyRoot: Option<Isr>, anchorRoot: Option<Isr>, ghost bodyPlan: Option<Q.Plan>, ghost anchorPlan: Option<Q.Plan>,
                 topK: TopKHeap<nat>)
      returns (ghost visited: seq<nat>)
      requires Reads(bodyReader) && Reads(anchorReader)
      requires Yields(bodyRoot, bodyReader.index, false, bodyPlan) && Yields(anchorRoot, anchorReader.index, true, anchorPlan)
      requires ReprIf(bodyRoot) !! ReprIf(anchorRoot) && topK !in ReprIf(bodyRoot) && topK !in ReprIf(anchorRoot)
      requires topK.Valid() && topK.k > 0 && topK.pushed == multiset{}
      modifies topK, ReprIf(bodyRoot), ReprIf(anchorRoot)
      ensures topK.Valid() && Scored(visited, topK.pushed) && AllVisited(visited, bodyPlan, anchorPlan)
    {
      hide Reads, Yields, Midway, Sound, AllVisited, VisitedBelow, TopKHeap.Valid, Isr.Repr, Isr.Object, Scored, BodyHits, AnchorHits, BodyDocs, AnchorDocs;
      visited := [];
      StartScored();
      StartVisited(bodyPlan, anchorPlan);
      var bodyDocEnd, bodyActive, anchorDocEnd, anchorActive;
      ghost var bodyOwn, anchorOwn;
      bodyDocEnd, bodyActive, bodyOwn, anchorDocEnd, anchorActive, anchorOwn := StartBoth(bodyRoot, anchorRoot, bodyPlan, anchorPlan);
      ghost var n := 0;
      while bodyActive || anchorActive
        invariant Midway(bodyRoot, bodyDocEnd, bodyActive, bodyPlan, bodyOwn, anchorRoot, anchorDocEnd, anchorActive, anchorPlan, anchorOwn, n)
        invariant topK.Valid() && Scored(visited, topK.pushed) && VisitedBelow(visited, n, bodyPlan, anchorPlan)
        decreases |BodyDocs()| + |AnchorDocs()| - n
      {
        bodyActive, anchorActive, n, visited :=
          VisitNext(bodyRoot, bodyDocEnd, bodyActive, bodyPlan, bodyOwn, anchorRoot, anchorDocEnd, anchorActive, anchorPlan, anchorOwn, topK, n, visited);
      }
      MidwayDone(bodyRoot, bodyDocEnd, bodyPlan, bodyOwn, anchorRoot, anchorDocEnd, anchorPlan, anchorOwn, n);
      VisitedAll(visited, n, bodyPlan, anchorPlan);
    }

    method StartBoth(bodyRoot: Option<Isr>, anchorRoot: Option<Isr>, ghost bodyPlan: Option<Q.Plan>, ghost anchorPlan: Option<Q.Plan>)
      returns (bodyDocEnd: IsrWord?, bodyActive: bool, ghost bodyOwn: set<object>,
               anchorDocEnd: IsrWord?, anchorActive: bool, ghost anchorOwn: set<object>)
      requires Reads(bodyReader) && Reads(anchorReader)
      requires Yields(bodyRoot, bodyReader.index, false, bodyPlan) && Yields(anchorRoot, anchorReader.index, true, anchorPlan)
      requires ReprIf(bodyRoot) !! ReprIf(anchorRoot)
      ensures fresh(DocEndRepr(bodyDocEnd)) && fresh(DocEndRepr(anchorDocEnd)) && bodyOwn !! anchorOwn
      ensures bodyOwn == ReprIf(bodyRoot) + DocEndRepr(bodyDocEnd) && anchorOwn == ReprIf(anchorRoot) + DocEndRepr(anchorDocEnd)
      ensures Midway(bodyRoot, bodyDocEnd, bodyActive, bodyPlan, bodyOwn, anchorRoot, anchorDocEnd, anchorActive, anchorPlan, anchorOwn, 0)
      ensures Sound(bodyPlan, anchorPlan)
    {
      hide Reads, Yields, Side, HitsOf, Ordered, Below, AllInDocs, DiskChunkReader.Valid, Isr.Repr, Isr.Object, Spans;
      SideFacts(bodyReader, false, bodyRoot, bodyPlan);
      SideFacts(anchorReader, true, anchorRoot, anchorPlan);
      assert allocated(ReprIf(bodyRoot)) && allocated(ReprIf(anchorRoot));
      assert anchorRoot.Some? ==> allocated(anchorRoot.value.Object());
      bodyDocEnd, bodyActive, bodyOwn := StartSide(bodyReader, false, bodyRoot, bodyPlan);
      assert allocated(bodyOwn);
      anchorDocEnd, anchorActive, anchorOwn := StartSide(anchorReader, true, anchorRoot, anchorPlan);
    }

    lemma MidwayDone(bodyRoot: Option<Isr>, bodyDocEnd: IsrWord?, bodyPlan: Option<Q.Plan>, bodyOwn: set<object>,
                     anchorRoot: Option<Isr>, anchorDocEnd: IsrWord?, anchorPlan: Option<Q.Plan>, anchorOwn: set<object>, n: nat)
      requires Midway(bodyRoot, bodyDocEnd, false, bodyPlan, bodyOwn, anchorRoot, anchorDocEnd, false, anchorPlan, anchorOwn, n)
      ensures SideRests(BodyDocs(), BodyHits(bodyPlan), n) && SideRests(AnchorDocs(), AnchorHits(anchorPlan), n)
    {
      hide Side, BodyHits, AnchorHits, BodyDocs, AnchorDocs, SideRests;
      SideDone(bodyRoot, bodyDocEnd, bodyOwn, BodyDocs(), BodyHits(bodyPlan), n);
      SideDone(anchorRoot, anchorDocEnd, anchorOwn, AnchorDocs(), AnchorHits(anchorPlan), n);
    }

    /** Both trees are compiled from the same tokens. Every document of the body chunk that either
        selects is scored once, in ascending order, and the K best scores are returned, best first.
        With K = 0 the source would read the root of an empty heap. */
    method Search(tokens: seq<Q.Token>, k: nat) returns (results: seq<TopK.Scored<nat>>)
      requires Reads(bodyReader) && Reads(anchorReader) && Plain(tokens) && |tokens| < TWO32 && k > 0
      ensures IsTopK(results, multiset(Ranked(Found(tokens), bodyReader.index.documents, scorer)), k)
    {
      hide Reads, Plain, Yields, PlanHits, Q.ParseOr, IsTopK, TopKHeap.Valid, Indexed, AllVisited, Finds, Isr.Repr;
      var topK := new TopKHeap(k);
      if |tokens| == 0 {
        StartScored();
        NoTokensNothing();
        results := topK.ExtractSorted();
        return;
      }
      var bodyCompiler := new QueryCompiler(bodyReader);
      var anchorCompiler := new QueryCompiler(anchorReader);
      var bodyRoot, anchorRoot;
      ghost var bodyPlan, anchorPlan;
      bodyRoot, bodyPlan := bodyCompiler.Compile(tokens);
      YieldsOwn(bodyRoot, bodyReader.index, false, bodyPlan);
      assert allocated(ReprIf(bodyRoot)) && (bodyRoot.Some? ==> allocated(bodyRoot.value.Object()));
      anchorRoot, anchorPlan := anchorCompiler.CompileAnchor(tokens);
      ghost var visited := Merge(bodyRoot, anchorRoot, bodyPlan, anchorPlan, topK);
      AllVisitedFound(tokens, visited, bodyPlan, anchorPlan);
      results := topK.ExtractSorted();
    }

    lemma NoTokensNothing()
      ensures Found([]) == []
    {
      hide Q.ParseOr, HitsOf;
      NoTokensNoPlan(Indexed(bodyReader.index, false));
      NoTokensNoPlan(Indexed(anchorReader.index, true));
      AscendsUnique(Found([]), []);
    }

    lemma AllVisitedFound(tokens: seq<Q.Token>, v: seq<nat>, bodyPlan: Option<Q.Plan>, anchorPlan: Option<Q.Plan>)
      requires AllVisited(v, bodyPlan, anchorPlan)
      requires bodyPlan == Q.ParseOr(tokens, 0, Indexed(bodyReader.index, false)).0
      requires anchorPlan == Q.ParseOr(tokens, 0, Indexed(anchorReader.index, true)).0
      ensures v == Found(tokens)
    {
      hide Q.ParseOr, PlanHits, Indexed;
      AscendsUnique(v, Found(tokens));
    }
  }

  // ---------------------------------------------------------------- what a search finds, in terms of the query

  /** The plan read from the tokens of a query selects the documents that match it, in one index: for
      every query whose plan is the intended one and whose phrases do not wrap. */
  lemma SelectsWhatMatches(ix: Index, anchor: bool, q: Q.Query, d: nat)
    requires WellIndexed(ix) && Q.Intended(q, Indexed(ix, anchor)) && NoWraps(ix, anchor, q)
    ensures PlanSelects(ix, anchor, Q.ParseOr(Q.Print(q), 0, Indexed(ix, anchor)).0, d) <==> Matches(ix, anchor, q, d)
  {
    hide Q.ParseOr, Q.Print, Q.PlanOf, Q.Intended, Indexed, WellIndexed, NoWraps, Matches, Selects;
    var ts := Q.Print(q);
    assert ts[0..0 + |ts|] == ts;
    Q.IntendedPlan(ts, 0, q, Indexed(ix, anchor));
    PlanMeansQuery(ix, anchor, q, d);
  }

  /** Searching for a printed query finds the documents of the body chunk that match it in the body or
      in the anchor index. */
  lemma FindsWhatMatches(engine: QueryEngine, q: Q.Query, d: nat)
    requires WellIndexed(engine.bodyReader.index) && WellIndexed(engine.anchorReader.index)
    requires Q.Intended(q, Indexed(engine.bodyReader.index, false)) && Q.Intended(q, Indexed(engine.anchorReader.index, true))
    requires NoWraps(engine.bodyReader.index, false, q) && NoWraps(engine.anchorReader.index, true, q)
    ensures engine.Finds(Q.Print(q), d)
       <==> && d < |engine.bodyReader.index.documents|
            && (Matches(engine.bodyReader.index, false, q, d) || Matches(engine.anchorReader.index, true, q, d))
  {
    hide Q.ParseOr, Q.Print, Q.Intended, Indexed, WellIndexed, NoWraps, Matches, PlanSelects;
    SelectsWhatMatches(engine.bodyReader.index, false, q, d);
    SelectsWhatMatches(engine.anchorReader.index, true, q, d);
  }

  lemma SideFacts(reader: DiskChunkReader, anchor: bool, root: Option<Isr>, plan: Option<Q.Plan>)
    requires Reads(reader) && Yields(root, reader.index, anchor, plan)
    ensures reader.Valid() && Ordered(Spans(reader.index.documents))
    ensures Below(HitsOf(reader.index, anchor, plan)) && AllInDocs(HitsOf(reader.index, anchor, plan), Spans(reader.index.documents))
    ensures root.Some? ==> root.value.Object() in ReprIf(root)
  {
    hide WellIndexed, DiskChunkReader.Valid, Yields, PlanHits, Isr.Repr, Isr.Object, Built, HitsOf, Spans, Ordered, Below, AllInDocs;
    ReaderReads(reader);
    HitsOfInDocs(reader.index, anchor, root, plan);
  }

  lemma SideDone(root: Option<Isr>, docEnd: IsrWord?, own: set<object>, docs: seq<Span>, H: iset<nat>, n: nat)
    requires Side(root, docEnd, own, docs, H, n, false)
    ensures SideRests(docs, H, n)
  {
    hide Isr.Reaches, Isr.Hits, Isr.Docs, Isr.Pos, Isr.Repr, Isr.Object, EndBehind, IsrWord.Valid;
    assert NoneFrom(H, docs, n);
    forall e: nat | n <= e ensures !Layout.Hits(H, docs, e) {
      if e < |docs| { assert !Layout.Hits(H, docs, e); }
    }
  }
}
