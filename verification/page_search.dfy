/** The layers put together: what a search over indexed pages finds, in terms of the words on the
    pages. */
module PageSearch {
  import opened Basics
  import opened Layout
  import opened WordIterator
  import opened ChunkFormat
  import opened ChunkReader
  import opened Iterators
  import opened QueryMeaning
  import opened QueryCompilation
  import opened Indexing
  import opened QueryEngine
  import TopK
  import Q = QuerySyntax
  import S = QuerySpelling

  /** Word k of the page counts as w; titles count in the body index only. */
  ghost predicate Says(p: Page, k: nat, anchor: bool, w: Text, expand: Text -> seq<Text>) {
    Emits(p, k, w, expand) || (!anchor && Emits(p, k, TITLE_MARK + w, expand))
  }

  /** The page has the words one behind another. */
  ghost predicate SaysFrom(p: Page, k: nat, anchor: bool, words: seq<Text>, expand: Text -> seq<Text>) {
    forall i :: 0 <= i < |words| ==> Says(p, k + i, anchor, words[i], expand)
  }

  ghost predicate PageMatches(p: Page, anchor: bool, q: Q.Query, expand: Text -> seq<Text>) {
    exists i :: 0 <= i < |q.alternatives| && PageMatchesAll(p, anchor, q.alternatives[i], expand)
  }

  ghost predicate PageMatchesAll(p: Page, anchor: bool, conj: Q.Conjunction, expand: Text -> seq<Text>) {
    && (exists i :: 0 <= i < |conj.operands| && !conj.operands[i].negated)
    && forall i :: 0 <= i < |conj.operands| ==>
         (PageMatchesAtom(p, anchor, conj.operands[i].atom, expand) <==> !conj.operands[i].negated)
  }

  ghost predicate PageMatchesAtom(p: Page, anchor: bool, a: Q.Atom, expand: Text -> seq<Text>) {
    match a
    case Single(word) => exists k: nat :: Says(p, k, anchor, word, expand)
    case Quoted(words) => words != [] && exists k: nat :: SaysFrom(p, k, anchor, words, expand)
    case Group(q) => PageMatches(p, anchor, q, expand)
  }

  /** The marker of document ends is no word of the query. */
  predicate PlainQuery(q: Q.Query) {
    forall i :: 0 <= i < |q.alternatives| ==> PlainConjunction(q.alternatives[i])
  }

  predicate PlainConjunction(conj: Q.Conjunction) {
    forall i :: 0 <= i < |conj.operands| ==> PlainAtom(conj.operands[i].atom)
  }

  predicate PlainAtom(a: Q.Atom) {
    match a
    case Single(word) => word != DOC_END
    case Quoted(words) => DOC_END !in words
    case Group(q) => PlainQuery(q)
  }

  /** A flushed index of pages. */
  ghost predicate PagesIn(ix: Index, pages: seq<Page>, expand: Text -> seq<Text>) {
    exists m, base, next :: Holding(m, ix.documents, pages, base, next, expand) && Lists(ix, m, ix.documents)
  }

  lemma PagesInFacts(ix: Index, pages: seq<Page>, expand: Text -> seq<Text>)
    requires PagesIn(ix, pages, expand)
    ensures |ix.documents| == |pages| && Ordered(Spans(ix.documents)) && WellIndexed(ix)
    ensures forall d :: 0 <= d < |pages| ==> ix.documents[d].endLocation == ix.documents[d].startLocation + Length(pages[d])
  {
    hide Lists, WellIndexed, Ordered, Length;
    var m, base, next :| Holding(m, ix.documents, pages, base, next, expand) && Lists(ix, m, ix.documents);
    HoldingSize(m, ix.documents, pages, base, next, expand);
    OrderedPages(ix.documents, pages, base, next);
    PagesWellIndexed(ix, m, ix.documents, pages, base, next, expand);
  }

  /** A location belongs to a term exactly when the word there gives it. */
  lemma LocationIsWord(ix: Index, pages: seq<Page>, expand: Text -> seq<Text>, t: Text, l: nat)
    requires PagesIn(ix, pages, expand) && t != DOC_END
    ensures |ix.documents| == |pages|
    ensures l in Locations(LocationsOf(ix, t)) <==> l < TWO32 && StandsAt(ix.documents, pages, l, t, expand)
  {
    hide Lists, StandsAt, Holding, LocationsOf, Listed;
    var m, base, next :| Holding(m, ix.documents, pages, base, next, expand) && Lists(ix, m, ix.documents);
    HoldingSize(m, ix.documents, pages, base, next, expand);
    ListedIsLocations(ix, m, ix.documents, t);
    if l < TWO32 {
      var h: uint32 := l;
      HeldAt(m, ix.documents, pages, base, next, expand, t, h);
    }
  }

  lemma EmitsHere(ix: Index, pages: seq<Page>, expand: Text -> seq<Text>, t: Text, d: nat, l: nat)
    requires PagesIn(ix, pages, expand) && t != DOC_END && d < |pages| == |ix.documents| && InDoc(Spans(ix.documents), d, l)
    ensures l in Locations(LocationsOf(ix, t)) <==> Emits(pages[d], l - ix.documents[d].startLocation, t, expand)
  {
    hide PagesIn, LocationsOf, Ordered, WellIndexed, Emits, Length;
    PagesInFacts(ix, pages, expand);
    LocationIsWord(ix, pages, expand, t, l);
    var docs := ix.documents;
    if StandsAt(docs, pages, l, t, expand) {
      var c :| 0 <= c < |docs| && EmitsIn(docs, pages, c, l, t, expand);
      EmitsLength(pages[c], l - docs[c].startLocation, t, expand);
      SameDoc(Spans(docs), c, d, l);
    }
    if Emits(pages[d], l - docs[d].startLocation, t, expand) {
      assert EmitsIn(docs, pages, d, l, t, expand);
    }
  }

  lemma SaysHere(ix: Index, pages: seq<Page>, expand: Text -> seq<Text>, anchor: bool, w: Text, d: nat, l: nat)
    requires PagesIn(ix, pages, expand) && w != DOC_END && d < |pages| == |ix.documents| && InDoc(Spans(ix.documents), d, l)
    ensures l in TermHits(ix, anchor, w) <==> Says(pages[d], l - ix.documents[d].startLocation, anchor, w, expand)
  {
    hide PagesIn, LocationsOf, Emits, InDoc, Spans, Locations;
    EmitsHere(ix, pages, expand, w, d, l);
    MarkedDiffers(w);
    EmitsHere(ix, pages, expand, TITLE_MARK + w, d, l);
  }

  lemma SaysLength(p: Page, k: nat, anchor: bool, w: Text, expand: Text -> seq<Text>)
    requires Says(p, k, anchor, w, expand)
    ensures k < Length(p)
  {
  }

  /** Word k of page d has a location of its own. */
  lemma WordLocation(ix: Index, pages: seq<Page>, expand: Text -> seq<Text>, d: nat, k: nat)
    requires PagesIn(ix, pages, expand) && d < |pages| && k < Length(pages[d])
    ensures |ix.documents| == |pages| && InDoc(Spans(ix.documents), d, ix.documents[d].startLocation + k)
  {
    hide PagesIn, WellIndexed, Ordered, Length;
    PagesInFacts(ix, pages, expand);
  }

  lemma SingleOnPage(ix: Index, pages: seq<Page>, expand: Text -> seq<Text>, anchor: bool, w: Text, d: nat)
    requires PagesIn(ix, pages, expand) && w != DOC_END && d < |pages|
    ensures Layout.Hits(TermHits(ix, anchor, w), Spans(ix.documents), d) <==> exists k: nat :: Says(pages[d], k, anchor, w, expand)
  {
    hide PagesIn, TermHits, Says, WellIndexed, Ordered, Length;
    PagesInFacts(ix, pages, expand);
    var start := ix.documents[d].startLocation;
    if Layout.Hits(TermHits(ix, anchor, w), Spans(ix.documents), d) {
      var l :| l in TermHits(ix, anchor, w) && InDoc(Spans(ix.documents), d, l);
      SaysHere(ix, pages, expand, anchor, w, d, l);
    }
    if k: nat :| Says(pages[d], k, anchor, w, expand) {
      SaysLength(pages[d], k, anchor, w, expand);
      WordLocation(ix, pages, expand, d, k);
      SaysHere(ix, pages, expand, anchor, w, d, start + k);
    }
  }

  /** A run whose last word is in document d lies wholly in it, for no word stands at a document end. */
  lemma {:induction false} RunStays(ix: Index, pages: seq<Page>, expand: Text -> seq<Text>, anchor: bool, words: seq<Text>, d: nat, s: nat, i: nat)
    requires PagesIn(ix, pages, expand) && DOC_END !in words && words != [] && d < |pages| && i < |words|
    requires RunIn(ix, anchor, words, d, s)
    ensures InDoc(Spans(ix.documents), d, s + i)
    decreases |words| - i
  {
    hide PagesIn, TermHits, WellIndexed, Ordered, Length, Run;
    PagesInFacts(ix, pages, expand);
    if i + 1 < |words| {
      RunStays(ix, pages, expand, anchor, words, d, s, i + 1);
      RunPlace(ix, anchor, words, d, s, i);
      assert words[i] in words;
      WordInside(ix, anchor, words[i], s + i, d);
    }
  }

  lemma WordInside(ix: Index, anchor: bool, w: Text, l: nat, d: nat)
    requires WellIndexed(ix) && w != DOC_END && l in TermHits(ix, anchor, w) && InDoc(Spans(ix.documents), d, l + 1)
    ensures InDoc(Spans(ix.documents), d, l)
  {
    hide TermHits, WellIndexed;
    TermInside(ix, anchor, w);
    var docs := Spans(ix.documents);
    var c: nat :| InDoc(docs, c, l) && l < docs[c].end;
    assert InDoc(docs, c, l + 1);
    IndexOrdered(ix);
    SameDoc(docs, c, d, l + 1);
  }

  lemma IndexOrdered(ix: Index)
    requires WellIndexed(ix)
    ensures Ordered(Spans(ix.documents))
  {
  }

  lemma QuotedOnPage(ix: Index, pages: seq<Page>, expand: Text -> seq<Text>, anchor: bool, words: seq<Text>, d: nat)
    requires PagesIn(ix, pages, expand) && DOC_END !in words && words != [] && d < |pages|
    ensures (exists s: nat :: RunIn(ix, anchor, words, d, s)) <==> exists k: nat :: SaysFrom(pages[d], k, anchor, words, expand)
  {
    hide PagesIn, WellIndexed, Ordered, Length, RunIn, SaysFrom;
    PagesInFacts(ix, pages, expand);
    if s: nat :| RunIn(ix, anchor, words, d, s) {
      RunIsSaid(ix, pages, expand, anchor, words, d, s);
    }
    if k: nat :| SaysFrom(pages[d], k, anchor, words, expand) {
      SaidIsRun(ix, pages, expand, anchor, words, d, k);
    }
  }

  lemma RunIsSaid(ix: Index, pages: seq<Page>, expand: Text -> seq<Text>, anchor: bool, words: seq<Text>, d: nat, s: nat)
    requires PagesIn(ix, pages, expand) && DOC_END !in words && words != [] && d < |pages| == |ix.documents|
    requires RunIn(ix, anchor, words, d, s)
    ensures s >= ix.documents[d].startLocation
    ensures SaysFrom(pages[d], s - ix.documents[d].startLocation, anchor, words, expand)
  {
    hide PagesIn, RunIn, Says, TermHits;
    RunStays(ix, pages, expand, anchor, words, d, s, 0);
    var k := s - ix.documents[d].startLocation;
    forall i | 0 <= i < |words| ensures Says(pages[d], k + i, anchor, words[i], expand) {
      RunStays(ix, pages, expand, anchor, words, d, s, i);
      RunPlace(ix, anchor, words, d, s, i);
      assert words[i] in words;
      SaysHere(ix, pages, expand, anchor, words[i], d, s + i);
    }
  }

  lemma SaidIsRun(ix: Index, pages: seq<Page>, expand: Text -> seq<Text>, anchor: bool, words: seq<Text>, d: nat, k: nat)
    requires PagesIn(ix, pages, expand) && DOC_END !in words && words != [] && d < |pages| == |ix.documents|
    requires SaysFrom(pages[d], k, anchor, words, expand)
    ensures RunIn(ix, anchor, words, d, ix.documents[d].startLocation + k)
  {
    hide PagesIn, Says, TermHits, Length;
    var s := ix.documents[d].startLocation + k;
    forall i | 0 <= i < |words| ensures s + i in WordSets(ix, anchor, words)[i] && InDoc(Spans(ix.documents), d, s + i) {
      assert words[i] in words;
      SaysLength(pages[d], k + i, anchor, words[i], expand);
      WordLocation(ix, pages, expand, d, k + i);
      SaysHere(ix, pages, expand, anchor, words[i], d, s + i);
    }
    assert s + (|words| - 1) in WordSets(ix, anchor, words)[|words| - 1];
  }

  /** A query matches a document of the index exactly when it matches the page. */
  lemma {:induction false} MatchesPage(ix: Index, pages: seq<Page>, expand: Text -> seq<Text>, anchor: bool, q: Q.Query, d: nat)
    requires PagesIn(ix, pages, expand) && PlainQuery(q) && d < |pages|
    ensures Matches(ix, anchor, q, d) <==> PageMatches(pages[d], anchor, q, expand)
    decreases q
  {
    hide PagesIn, MatchesConjunction, PageMatchesAll, PlainConjunction;
    forall i | 0 <= i < |q.alternatives|
      ensures MatchesConjunction(ix, anchor, q.alternatives[i], d) <==> PageMatchesAll(pages[d], anchor, q.alternatives[i], expand)
    {
      assert q.alternatives[i] in q.alternatives;
      ConjunctionMatchesPage(ix, pages, expand, anchor, q.alternatives[i], d);
    }
  }

  lemma {:induction false} ConjunctionMatchesPage(ix: Index, pages: seq<Page>, expand: Text -> seq<Text>, anchor: bool, conj: Q.Conjunction, d: nat)
    requires PagesIn(ix, pages, expand) && PlainConjunction(conj) && d < |pages|
    ensures MatchesConjunction(ix, anchor, conj, d) <==> PageMatchesAll(pages[d], anchor, conj, expand)
    decreases conj
  {
    hide PagesIn, MatchesAtom, PageMatchesAtom, PlainAtom;
    forall i | 0 <= i < |conj.operands|
      ensures MatchesAtom(ix, anchor, conj.operands[i].atom, d) <==> PageMatchesAtom(pages[d], anchor, conj.operands[i].atom, expand)
    {
      var op := conj.operands[i];
      assert op in conj.operands && op == Q.Operand(op.explicitAnd, op.negated, op.atom);
      AtomMatchesPage(ix, pages, expand, anchor, op.atom, d);
    }
  }

  lemma {:induction false} AtomMatchesPage(ix: Index, pages: seq<Page>, expand: Text -> seq<Text>, anchor: bool, a: Q.Atom, d: nat)
    requires PagesIn(ix, pages, expand) && PlainAtom(a) && d < |pages|
    ensures MatchesAtom(ix, anchor, a, d) <==> PageMatchesAtom(pages[d], anchor, a, expand)
    decreases a
  {
    hide PagesIn, Layout.Hits, Says, SaysFrom, RunIn, Matches, PageMatches, PlainQuery, TermHits;
    match a
    case Single(word) => SingleOnPage(ix, pages, expand, anchor, word, d);
    case Quoted(words) => if words != [] { QuotedOnPage(ix, pages, expand, anchor, words, d); }
    case Group(q) => MatchesPage(ix, pages, expand, anchor, q, d);
  }

  /** Searching two flushed indexes for a query that is planned as intended and does not wrap finds the
      pages that match it in either. */
  lemma FindsMatchingPages(engine: QueryEngine, q: Q.Query, d: nat, bodyPages: seq<Page>, anchorPages: seq<Page>, expand: Text -> seq<Text>)
    requires PagesIn(engine.bodyReader.index, bodyPages, expand) && PagesIn(engine.anchorReader.index, anchorPages, expand)
    requires |anchorPages| == |bodyPages| && PlainQuery(q)
    requires Q.Intended(q, Indexed(engine.bodyReader.index, false)) && Q.Intended(q, Indexed(engine.anchorReader.index, true))
    requires NoWraps(engine.bodyReader.index, false, q) && NoWraps(engine.anchorReader.index, true, q)
    ensures engine.Finds(Q.Print(q), d)
       <==> d < |bodyPages| && (PageMatches(bodyPages[d], false, q, expand) || PageMatches(anchorPages[d], true, q, expand))
  {
    hide QueryEngine.Finds, PagesIn, Matches, PageMatches, Q.Intended, Q.Print, NoWraps, WellIndexed, Ordered, PlainQuery, Indexed;
    PagesInFacts(engine.bodyReader.index, bodyPages, expand);
    PagesInFacts(engine.anchorReader.index, anchorPages, expand);
    FindsWhatMatches(engine, q, d);
    if d < |bodyPages| {
      MatchesPage(engine.bodyReader.index, bodyPages, expand, false, q, d);
      MatchesPage(engine.anchorReader.index, anchorPages, expand, true, q, d);
    }
  }

  // ---------------------------------------------------------------- what a plan selects among pages

  /** The page has what the plan asks for. A phrase that is lost in the chunk, since one of its words wraps,
      is found on no page. */
  ghost predicate PageGives(p: Page, anchor: bool, plan: Q.Plan, lost: seq<Text> -> bool, expand: Text -> seq<Text>) {
    match plan
    case Term(w) => exists k: nat :: Says(p, k, anchor, w, expand)
    case Union(ps) => exists i :: 0 <= i < |ps| && PageGives(p, anchor, ps[i], lost, expand)
    case Both(ps) => ps != [] && forall i :: 0 <= i < |ps| ==> PageGives(p, anchor, ps[i], lost, expand)
    case Sequence(words) => words != [] && !lost(words) && exists k: nat :: SaysFrom(p, k, anchor, words, expand)
    case Except(positive, ps) =>
      PageGives(p, anchor, positive, lost, expand) && forall i :: 0 <= i < |ps| ==> !PageGives(p, anchor, ps[i], lost, expand)
  }

  /** The phrases with a word at a location below its place. */
  ghost function LostIn(ix: Index, anchor: bool): seq<Text> -> bool {
    words => Wraps(WordSets(ix, anchor, words))
  }

  predicate PlainPlan(plan: Q.Plan) {
    match plan
    case Term(w) => w != DOC_END
    case Union(ps) => forall i :: 0 <= i < |ps| ==> PlainPlan(ps[i])
    case Both(ps) => forall i :: 0 <= i < |ps| ==> PlainPlan(ps[i])
    case Sequence(words) => DOC_END !in words
    case Except(positive, ps) => PlainPlan(positive) && forall i :: 0 <= i < |ps| ==> PlainPlan(ps[i])
  }

  /** A plan, whatever tokens it was read from, selects a document exactly when the page gives it. */
  lemma {:induction false} SelectsPage(ix: Index, pages: seq<Page>, expand: Text -> seq<Text>, anchor: bool, plan: Q.Plan, d: nat)
    requires PagesIn(ix, pages, expand) && PlainPlan(plan) && d < |pages|
    ensures Selects(ix, anchor, plan, d) <==> PageGives(pages[d], anchor, plan, LostIn(ix, anchor), expand)
    decreases plan
  {
    hide PagesIn, Selects, Says, SaysFrom, WellIndexed, Ordered, Length, Wraps;
    PagesInFacts(ix, pages, expand);
    match plan
    case Term(w) =>
      TermSelects(ix, anchor, w, d);
      SingleOnPage(ix, pages, expand, anchor, w, d);
    case Sequence(words) => SequenceOnPage(ix, pages, expand, anchor, words, d);
    case Union(ps) =>
      UnionSelects(ix, anchor, ps, d);
      forall i | 0 <= i < |ps| ensures Selects(ix, anchor, ps[i], d) <==> PageGives(pages[d], anchor, ps[i], LostIn(ix, anchor), expand) {
        assert ps[i] in ps;
        SelectsPage(ix, pages, expand, anchor, ps[i], d);
      }
    case Both(ps) =>
      if ps == [] { NothingBoth(ix, anchor, d); } else { BothSelects(ix, anchor, ps, d); }
      forall i | 0 <= i < |ps| ensures Selects(ix, anchor, ps[i], d) <==> PageGives(pages[d], anchor, ps[i], LostIn(ix, anchor), expand) {
        assert ps[i] in ps;
        SelectsPage(ix, pages, expand, anchor, ps[i], d);
      }
    case Except(positive, ps) =>
      ExceptSelects(ix, anchor, positive, ps, d);
      SelectsPage(ix, pages, expand, anchor, positive, d);
      forall i | 0 <= i < |ps| ensures Selects(ix, anchor, ps[i], d) <==> PageGives(pages[d], anchor, ps[i], LostIn(ix, anchor), expand) {
        assert ps[i] in ps;
        SelectsPage(ix, pages, expand, anchor, ps[i], d);
      }
  }

  lemma TermSelects(ix: Index, anchor: bool, w: Text, d: nat)
    ensures Selects(ix, anchor, Q.Term(w), d) <==> Layout.Hits(TermHits(ix, anchor, w), Spans(ix.documents), d)
  {
  }

  lemma NothingBoth(ix: Index, anchor: bool, d: nat)
    ensures !Selects(ix, anchor, Q.Both([]), d)
  {
    BothHits(ix, anchor, []);
    NoSharedEnd(PlanSets(ix, anchor, []), Spans(ix.documents));
  }

  lemma SequenceOnPage(ix: Index, pages: seq<Page>, expand: Text -> seq<Text>, anchor: bool, words: seq<Text>, d: nat)
    requires PagesIn(ix, pages, expand) && DOC_END !in words && d < |pages|
    ensures Selects(ix, anchor, Q.Sequence(words), d)
       <==> words != [] && !LostIn(ix, anchor)(words) && exists k: nat :: SaysFrom(pages[d], k, anchor, words, expand)
  {
    hide PagesIn, SaysFrom, RunIn, Wraps;
    if words == [] {
      NoTermsNoRuns(WordSets(ix, anchor, words));
    } else if Wraps(WordSets(ix, anchor, words)) {
      WrappedPhraseFindsNothing(WordSets(ix, anchor, words));
    } else {
      SequenceTouches(ix, anchor, words, d);
      QuotedOnPage(ix, pages, expand, anchor, words, d);
    }
  }

  // Plans read from tokens that are not the marker have only such words.

  predicate PlainPlans(ps: seq<Q.Plan>) {
    forall i :: 0 <= i < |ps| ==> PlainPlan(ps[i])
  }

  predicate PlainIf(plan: Option<Q.Plan>) {
    plan.Some? ==> PlainPlan(plan.value)
  }

  lemma {:induction false} ReadsPlainOr(ts: seq<Q.Token>, c: nat, indexed: Text -> bool)
    requires Plain(ts) && c <= |ts|
    ensures PlainIf(Q.ParseOr(ts, c, indexed).0)
    decreases |ts| - c, 3
  {
    hide PlainPlan;
    ReadsPlainAnd(ts, c, [], [], indexed);
    var r := Q.ParseAnd(ts, c, [], [], indexed);
    ReadsPlainRest(ts, r.1, Q.AddSome([], r.0), indexed);
  }

  lemma {:induction false} ReadsPlainRest(ts: seq<Q.Token>, c: nat, children: seq<Q.Plan>, indexed: Text -> bool)
    requires Plain(ts) && c <= |ts| && PlainPlans(children)
    ensures PlainIf(Q.ParseOrRest(ts, c, children, indexed).0)
    decreases |ts| - c, 2
  {
    if c < |ts| && ts[c].Or? {
      var r := Q.ParseAnd(ts, c + 1, [], [], indexed);
      ReadsPlainAnd(ts, c + 1, [], [], indexed);
      ReadsPlainRest(ts, r.1, Q.AddSome(children, r.0), indexed);
    }
  }

  lemma {:induction false} ReadsPlainAnd(ts: seq<Q.Token>, c: nat, positives: seq<Q.Plan>, negatives: seq<Q.Plan>, indexed: Text -> bool)
    requires Plain(ts) && c <= |ts| && PlainPlans(positives) && PlainPlans(negatives)
    ensures PlainIf(Q.ParseAnd(ts, c, positives, negatives, indexed).0)
    decreases |ts| - c, 1
  {
    hide Q.ParsePrimary;
    PlainConjoined(positives, negatives);
    if c == |ts| || ts[c].Or? || ts[c].RParen? { return; }
    var c1 := if ts[c].And? then c + 1 else c;
    if c1 == |ts| { return; }
    var isNot := ts[c1].Not?;
    var c2 := if isNot then c1 + 1 else c1;
    if c2 == |ts| { return; }
    ReadsPlainPrimary(ts, c2, indexed);
    var r := Q.ParsePrimary(ts, c2, indexed);
    if r.0.None? {
      if isNot { ReadsPlainAnd(ts, r.1, positives, negatives, indexed); }
    } else if isNot {
      ReadsPlainAnd(ts, r.1, positives, negatives + [r.0.value], indexed);
    } else {
      ReadsPlainAnd(ts, r.1, positives + [r.0.value], negatives, indexed);
    }
  }

  lemma PlainConjoined(positives: seq<Q.Plan>, negatives: seq<Q.Plan>)
    requires PlainPlans(positives) && PlainPlans(negatives)
    ensures PlainIf(Q.ConjunctionOf(positives, negatives))
  {
  }

  lemma {:induction false} ReadsPlainPrimary(ts: seq<Q.Token>, c: nat, indexed: Text -> bool)
    requires Plain(ts) && c < |ts|
    ensures PlainIf(Q.ParsePrimary(ts, c, indexed).0)
    decreases |ts| - c, 0
  {
    hide Q.ParseOr, Q.QuotedWords, Q.Filter;
    match ts[c]
    case Word(text) => assert ts[c] == Q.Word(text);
    case LParen => ReadsPlainOr(ts, c + 1, indexed);
    case Quote =>
      var words := Q.QuotedWords(ts[c + 1..Q.QuoteEnd(ts, c + 1)]);
      QuotedPlain(ts[c + 1..Q.QuoteEnd(ts, c + 1)]);
      FilteredPlain(words, indexed);
      assert |Q.Filter(words, indexed)| > 0 ==> Q.Filter(words, indexed)[0] in Q.Filter(words, indexed);
    case _ =>
  }

  lemma {:induction false} QuotedPlain(ts: seq<Q.Token>)
    requires Plain(ts)
    ensures DOC_END !in Q.QuotedWords(ts)
  {
    if ts != [] { QuotedPlain(ts[..|ts| - 1]); }
  }

  lemma {:induction false} FilteredPlain(words: seq<Text>, indexed: Text -> bool)
    requires DOC_END !in words
    ensures DOC_END !in Q.Filter(words, indexed)
  {
    if words != [] { FilteredPlain(words[..|words| - 1], indexed); }
  }

  // ---------------------------------------------------------------- what a search ranks

  ghost predicate PageGivesIf(p: Page, anchor: bool, plan: Option<Q.Plan>, lost: seq<Text> -> bool, expand: Text -> seq<Text>) {
    plan.Some? && PageGives(p, anchor, plan.value, lost, expand)
  }

  /** Page d has what the plan read from the tokens asks for, in the body or in the anchor text for it. */
  ghost predicate EitherGives(bodyIx: Index, anchorIx: Index, bodyPages: seq<Page>, anchorPages: seq<Page>, tokens: seq<Q.Token>,
                              expand: Text -> seq<Text>, d: nat)
  {
    && d < |bodyPages| && d < |anchorPages|
    && (|| PageGivesIf(bodyPages[d], false, Q.ParseOr(tokens, 0, Indexed(bodyIx, false)).0, LostIn(bodyIx, false), expand)
        || PageGivesIf(anchorPages[d], true, Q.ParseOr(tokens, 0, Indexed(anchorIx, true)).0, LostIn(anchorIx, true), expand))
  }

  /** All such pages, in order. */
  ghost function SelectedPages(bodyIx: Index, anchorIx: Index, bodyPages: seq<Page>, anchorPages: seq<Page>, tokens: seq<Q.Token>,
                               expand: Text -> seq<Text>): (v: seq<nat>)
    ensures Ascends(v) && forall d: nat :: d in v <==> EitherGives(bodyIx, anchorIx, bodyPages, anchorPages, tokens, expand, d)
    ensures forall i :: 0 <= i < |v| ==> v[i] < |bodyPages|
  {
    hide Q.ParseOr, PageGivesIf;
    Selected(|bodyPages|, (d: nat) => EitherGives(bodyIx, anchorIx, bodyPages, anchorPages, tokens, expand, d))
  }

  /** What the engine finds are these pages, for any tokens. */
  lemma FoundOnPages(engine: QueryEngine, tokens: seq<Q.Token>, bodyPages: seq<Page>, anchorPages: seq<Page>, expand: Text -> seq<Text>)
    requires PagesIn(engine.bodyReader.index, bodyPages, expand) && PagesIn(engine.anchorReader.index, anchorPages, expand)
    requires |anchorPages| == |bodyPages| && Plain(tokens)
    ensures engine.Found(tokens) == SelectedPages(engine.bodyReader.index, engine.anchorReader.index, bodyPages, anchorPages, tokens, expand)
  {
    hide Q.ParseOr, PagesIn, PageGives, Selects, Plain, PlainPlan, Ordered, WellIndexed, LostIn;
    var bodyIx, anchorIx := engine.bodyReader.index, engine.anchorReader.index;
    PagesInFacts(bodyIx, bodyPages, expand);
    ReadsPlainOr(tokens, 0, Indexed(bodyIx, false));
    ReadsPlainOr(tokens, 0, Indexed(anchorIx, true));
    forall d: nat ensures engine.Finds(tokens, d) <==> EitherGives(bodyIx, anchorIx, bodyPages, anchorPages, tokens, expand, d) {
      if d < |bodyPages| {
        PlanOnPage(bodyIx, bodyPages, expand, false, Q.ParseOr(tokens, 0, Indexed(bodyIx, false)).0, d);
        PlanOnPage(anchorIx, anchorPages, expand, true, Q.ParseOr(tokens, 0, Indexed(anchorIx, true)).0, d);
      }
    }
    AscendsUnique(engine.Found(tokens), SelectedPages(bodyIx, anchorIx, bodyPages, anchorPages, tokens, expand));
  }

  lemma PlanOnPage(ix: Index, pages: seq<Page>, expand: Text -> seq<Text>, anchor: bool, plan: Option<Q.Plan>, d: nat)
    requires PagesIn(ix, pages, expand) && PlainIf(plan) && d < |pages|
    ensures PlanSelects(ix, anchor, plan, d) <==> PageGivesIf(pages[d], anchor, plan, LostIn(ix, anchor), expand)
  {
    hide PagesIn, PageGives, Selects, PlainPlan;
    if plan.Some? { SelectsPage(ix, pages, expand, anchor, plan.value, d); }
  }

  /** Page d matches the query, in the body or in the anchor text for it. */
  ghost predicate EitherMatches(bodyPages: seq<Page>, anchorPages: seq<Page>, q: Q.Query, expand: Text -> seq<Text>, d: nat) {
    && d < |bodyPages| && d < |anchorPages|
    && (PageMatches(bodyPages[d], false, q, expand) || PageMatches(anchorPages[d], true, q, expand))
  }

  /** All such pages, in order. */
  ghost function MatchingPages(bodyPages: seq<Page>, anchorPages: seq<Page>, q: Q.Query, expand: Text -> seq<Text>): (v: seq<nat>)
    ensures Ascends(v) && forall d: nat :: d in v <==> EitherMatches(bodyPages, anchorPages, q, expand, d)
  {
    hide PageMatches;
    Selected(|bodyPages|, (d: nat) => EitherMatches(bodyPages, anchorPages, q, expand, d))
  }

  /** In one index, what the plan of a query asks for is what the query asks for. */
  lemma GivesWhatMatches(ix: Index, pages: seq<Page>, expand: Text -> seq<Text>, anchor: bool, q: Q.Query, d: nat)
    requires PagesIn(ix, pages, expand) && PlainQuery(q) && d < |pages|
    requires Q.Intended(q, Indexed(ix, anchor)) && NoWraps(ix, anchor, q)
    ensures PageGivesIf(pages[d], anchor, Q.ParseOr(Q.Print(q), 0, Indexed(ix, anchor)).0, LostIn(ix, anchor), expand)
       <==> PageMatches(pages[d], anchor, q, expand)
  {
    hide PagesIn, Matches, PageMatches, PageGivesIf, PlanSelects, Q.ParseOr, Q.Print, Q.Intended, NoWraps, WellIndexed, Ordered, PlainQuery,
      Indexed, LostIn, PlainIf, Plain;
    PagesInFacts(ix, pages, expand);
    PlainPrint(q);
    ReadsPlainOr(Q.Print(q), 0, Indexed(ix, anchor));
    SelectsWhatMatches(ix, anchor, q, d);
    MatchesPage(ix, pages, expand, anchor, q, d);
    PlanOnPage(ix, pages, expand, anchor, Q.ParseOr(Q.Print(q), 0, Indexed(ix, anchor)).0, d);
  }

  /** For the tokens of a query that is planned as intended in both indexes, and none of whose phrases
      wraps, the pages selected are exactly those that match the query. */
  lemma SelectedAreMatching(bodyIx: Index, anchorIx: Index, bodyPages: seq<Page>, anchorPages: seq<Page>, q: Q.Query, expand: Text -> seq<Text>)
    requires PagesIn(bodyIx, bodyPages, expand) && PagesIn(anchorIx, anchorPages, expand)
    requires |anchorPages| == |bodyPages| && PlainQuery(q)
    requires Q.Intended(q, Indexed(bodyIx, false)) && Q.Intended(q, Indexed(anchorIx, true))
    requires NoWraps(bodyIx, false, q) && NoWraps(anchorIx, true, q)
    ensures SelectedPages(bodyIx, anchorIx, bodyPages, anchorPages, Q.Print(q), expand) == MatchingPages(bodyPages, anchorPages, q, expand)
  {
    hide PagesIn, PageMatches, PageGivesIf, Q.ParseOr, Q.Print, Q.Intended, NoWraps, PlainQuery, Indexed, LostIn;
    forall d: nat ensures EitherGives(bodyIx, anchorIx, bodyPages, anchorPages, Q.Print(q), expand, d)
                     <==> EitherMatches(bodyPages, anchorPages, q, expand, d) {
      if d < |bodyPages| {
        GivesWhatMatches(bodyIx, bodyPages, expand, false, q, d);
        GivesWhatMatches(anchorIx, anchorPages, expand, true, q, d);
      }
    }
    AscendsUnique(SelectedPages(bodyIx, anchorIx, bodyPages, anchorPages, Q.Print(q), expand), MatchingPages(bodyPages, anchorPages, q, expand));
  }

  // ---------------------------------------------------------------- from files to results

  lemma PlainParts(a: seq<Q.Token>, b: seq<Q.Token>)
    requires Plain(a) && Plain(b)
    ensures Plain(a + b)
  {
  }

  lemma {:induction false} PlainPrint(q: Q.Query)
    requires PlainQuery(q)
    ensures Plain(Q.Print(q))
    decreases q
  {
    PlainAlternatives(q, 0);
    assert q.alternatives[0..] == q.alternatives;
  }

  lemma {:induction false} PlainAlternatives(q: Q.Query, k: nat)
    requires PlainQuery(q) && k <= |q.alternatives|
    ensures Plain(Q.PrintAlternatives(q.alternatives[k..]))
    decreases q, 0, |q.alternatives| - k
  {
    hide Plain, PlainConjunction;
    if k < |q.alternatives| {
      var conj := q.alternatives[k];
      assert conj in q.alternatives && conj.operands[0..] == conj.operands;
      PlainOperands(conj, 0);
      PlainAlternatives(q, k + 1);
      assert q.alternatives[k..][1..] == q.alternatives[k + 1..];
      PlainToken(Q.Or);
      PlainParts([Q.Or], Q.PrintAlternatives(q.alternatives[k + 1..]));
      PlainParts(Q.PrintOperands(conj.operands), [Q.Or] + Q.PrintAlternatives(q.alternatives[k + 1..]));
    } else {
      PlainNothing();
      assert q.alternatives[k..] == [];
    }
  }

  lemma PlainToken(t: Q.Token)
    requires t != Q.Word(DOC_END)
    ensures Plain([t])
  {
  }

  lemma PlainNothing()
    ensures Plain([])
  {
  }

  lemma {:induction false} PlainOperands(conj: Q.Conjunction, k: nat)
    requires PlainConjunction(conj) && k <= |conj.operands|
    ensures Plain(Q.PrintOperands(conj.operands[k..]))
    decreases conj, |conj.operands| - k
  {
    hide Plain, PlainAtom;
    if k < |conj.operands| {
      var op := conj.operands[k];
      assert op in conj.operands && op == Q.Operand(op.explicitAnd, op.negated, op.atom);
      PlainTokens(op.atom);
      PlainOperands(conj, k + 1);
      assert conj.operands[k..][1..] == conj.operands[k + 1..];
      PlainOperand(op);
      PlainParts(Q.PrintOperand(op), Q.PrintOperands(conj.operands[k + 1..]));
    } else {
      PlainNothing();
      assert conj.operands[k..] == [];
    }
  }

  lemma PlainOperand(op: Q.Operand)
    requires Plain(Q.PrintAtom(op.atom))
    ensures Plain(Q.PrintOperand(op))
  {
    hide Q.PrintAtom;
  }

  lemma {:induction false} PlainTokens(a: Q.Atom)
    requires PlainAtom(a)
    ensures Plain(Q.PrintAtom(a))
    decreases a
  {
    match a
    case Single(_) =>
    case Quoted(words) =>
    case Group(q) =>
      PlainPrint(q);
      PlainParts(Q.Print(q), [Q.RParen]);
      PlainParts([Q.LParen], Q.Print(q) + [Q.RParen]);
  }

  /** A chunk file flushed from an index of pages. */
  ghost predicate FileOf(file: seq<byte>, ix: Index, hash: Text -> uint64, pages: seq<Page>, expand: Text -> seq<Text>) {
    Writable(ix, hash) && file == Image(ix, hash) && PagesIn(ix, pages, expand)
  }

  /** Opens a body file and an anchor file and searches them, for any tokens: what is ranked are the pages
      that have what the tokens are read as, each once, and the K best of them are returned, best first.
      For a query that is planned as intended and does not wrap, these are the pages that match it, in
      whichever way its tokens are spelled. */
  method SearchFiles(bodyFile: seq<byte>, anchorFile: seq<byte>, hash: Text -> uint64, scorer: DocumentRecord -> real,
                     tokens: seq<Q.Token>, k: nat,
                     ghost bodyIx: Index, ghost anchorIx: Index, ghost bodyPages: seq<Page>, ghost anchorPages: seq<Page>,
                     ghost expand: Text -> seq<Text>)
    returns (results: seq<TopK.Scored<nat>>)
    requires FileOf(bodyFile, bodyIx, hash, bodyPages, expand) && FileOf(anchorFile, anchorIx, hash, anchorPages, expand)
    requires |anchorPages| == |bodyPages| && Plain(tokens) && |tokens| < TWO32 && k > 0
    ensures |bodyIx.documents| == |bodyPages|
    ensures var pages := SelectedPages(bodyIx, anchorIx, bodyPages, anchorPages, tokens, expand);
      InRange(pages, bodyIx.documents) && TopK.IsTopK(results, multiset(Ranked(pages, bodyIx.documents, scorer)), k)
    ensures forall q :: SpelledAs(tokens, q, bodyIx, anchorIx) && Answerable(q, bodyIx, anchorIx) ==>
      var pages := MatchingPages(bodyPages, anchorPages, q, expand);
      InRange(pages, bodyIx.documents) && TopK.IsTopK(results, multiset(Ranked(pages, bodyIx.documents, scorer)), k)
  {
    hide Writable, Image, PagesIn, Q.Print, Q.ParseOr, SpelledAs, Answerable, QueryEngine.Found, WellIndexed, Indexed, SelectedPages,
      MatchingPages, TopK.IsTopK, Ranked, DiskChunkReader.Valid, Plain, Ordered;
    PagesInFacts(bodyIx, bodyPages, expand);
    PagesInFacts(anchorIx, anchorPages, expand);
    var body := DiskChunkReader.Open(bodyFile, hash, bodyIx);
    var anchor := DiskChunkReader.Open(anchorFile, hash, anchorIx);
    var engine := new QueryEngine(body.value, anchor.value, scorer);
    results := engine.Search(tokens, k);
    FoundOnPages(engine, tokens, bodyPages, anchorPages, expand);
    forall q | SpelledAs(tokens, q, bodyIx, anchorIx) && Answerable(q, bodyIx, anchorIx)
      ensures SelectedPages(bodyIx, anchorIx, bodyPages, anchorPages, tokens, expand) == MatchingPages(bodyPages, anchorPages, q, expand)
    {
      AnswerableParts(q, bodyIx, anchorIx);
      SpellingSelects(bodyIx, anchorIx, bodyPages, anchorPages, tokens, q, expand);
      SelectedAreMatching(bodyIx, anchorIx, bodyPages, anchorPages, q, expand);
    }
  }

  /** For both indexes, the tokens are a spelling of the query. */
  ghost predicate SpelledAs(tokens: seq<Q.Token>, q: Q.Query, bodyIx: Index, anchorIx: Index) {
    S.Spells(tokens, q, Indexed(bodyIx, false)) && S.Spells(tokens, q, Indexed(anchorIx, true))
  }

  lemma SpellingSelects(bodyIx: Index, anchorIx: Index, bodyPages: seq<Page>, anchorPages: seq<Page>, tokens: seq<Q.Token>, q: Q.Query,
                        expand: Text -> seq<Text>)
    requires SpelledAs(tokens, q, bodyIx, anchorIx)
    ensures SelectedPages(bodyIx, anchorIx, bodyPages, anchorPages, tokens, expand)
         == SelectedPages(bodyIx, anchorIx, bodyPages, anchorPages, Q.Print(q), expand)
  {
    hide Q.ParseOr, Q.Print, S.Spells, PageGivesIf, Indexed, LostIn;
    S.SpellsPlan(tokens, q, Indexed(bodyIx, false));
    S.SpellsPlan(tokens, q, Indexed(anchorIx, true));
    AscendsUnique(SelectedPages(bodyIx, anchorIx, bodyPages, anchorPages, tokens, expand),
                  SelectedPages(bodyIx, anchorIx, bodyPages, anchorPages, Q.Print(q), expand));
  }

  /** In both indexes the query is planned as intended, and no phrase of it wraps. */
  ghost predicate Answerable(q: Q.Query, bodyIx: Index, anchorIx: Index) {
    && PlainQuery(q)
    && Q.Intended(q, Indexed(bodyIx, false)) && Q.Intended(q, Indexed(anchorIx, true))
    && NoWraps(bodyIx, false, q) && NoWraps(anchorIx, true, q)
  }

  lemma AnswerableParts(q: Q.Query, bodyIx: Index, anchorIx: Index)
    requires Answerable(q, bodyIx, anchorIx)
    ensures PlainQuery(q) && Q.Intended(q, Indexed(bodyIx, false)) && Q.Intended(q, Indexed(anchorIx, true))
    ensures NoWraps(bodyIx, false, q) && NoWraps(anchorIx, true, q)
  {
    hide PlainQuery, Q.Intended, NoWraps;
  }
}
