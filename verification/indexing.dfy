/** From pages to posting lists: locations are handed out word by word, and every term gets a list of
    them (src/index/src/lib/tokenizer.cpp, in_memory_index.cpp; driven by IndexWorkerThread in
    src/main_distributed.cpp). */
module Indexing {
  import opened Basics
  import opened VByte
  import opened SeekTable
  import opened WordIterator
  import opened Layout
  import opened ChunkFormat
  import opened ChunkReader
  import opened QueryMeaning

  /** What the parser hands over. */
  datatype Page = Page(url: Text, titleWords: seq<Text>, words: seq<Text>, seedDistance: byte, features: Features)

  datatype TokenOutput = TokenOutput(term: Text, location: uint32)

  datatype DocEndOutput = DocEndOutput(location: uint32, url: Text, wordCount: uint32, titleWordCount: uint16,
                                       docStartLoc: uint32, seedDistance: byte, features: Features)

  datatype TokenizedDocument = TokenizedDocument(tokens: seq<TokenOutput>, docEnd: DocEndOutput)

  function Length(p: Page): nat { |p.titleWords| + |p.words| }

  /** A 32-bit location counter advanced by n. */
  function Advance(location: nat, n: nat): uint32 { (location + n) % TWO32 }

  // ---------------------------------------------------------------- tokens of a page

  /** The terms processToken makes of one word, all at the word's location. */
  function WordTokens(word: Text, mark: Text, location: uint32, expand: Text -> seq<Text>): (ts: seq<TokenOutput>)
    ensures |ts| == |expand(word)|
    ensures forall i :: 0 <= i < |ts| ==> ts[i] == TokenOutput(mark + expand(word)[i], location)
  {
    seq(|expand(word)|, i requires 0 <= i < |expand(word)| => TokenOutput(mark + expand(word)[i], location))
  }

  /** The tokens of the first n words, from location start on. */
  function ListTokens(words: seq<Text>, n: nat, mark: Text, start: nat, expand: Text -> seq<Text>): seq<TokenOutput>
    requires n <= |words|
  {
    if n == 0 then []
    else ListTokens(words, n - 1, mark, start, expand) + WordTokens(words[n - 1], mark, Advance(start, n - 1), expand)
  }

  function PageTokens(p: Page, start: nat, expand: Text -> seq<Text>): seq<TokenOutput> {
    ListTokens(p.titleWords, |p.titleWords|, TITLE_MARK, start, expand)
    + ListTokens(p.words, |p.words|, [], start + |p.titleWords|, expand)
  }

  /** Word k of a page, title first, gives the term t. */
  ghost predicate Emits(p: Page, k: nat, t: Text, expand: Text -> seq<Text>) {
    k < Length(p)
    && if k < |p.titleWords| then exists u :: u in expand(p.titleWords[k]) && t == TITLE_MARK + u
       else t in expand(p.words[k - |p.titleWords|])
  }

  class Tokenizer {
    var nextLocation: uint32
    const expand: Text -> seq<Text>

    constructor (baseLocation: uint32, expand: Text -> seq<Text>)
      ensures nextLocation == baseLocation && this.expand == expand
    {
      nextLocation := baseLocation;
      this.expand := expand;
    }

    /** Pushes the terms of one word. */
    method AppendWord(tokens: seq<TokenOutput>, word: Text, mark: Text) returns (r: seq<TokenOutput>)
      ensures r == tokens + WordTokens(word, mark, nextLocation, expand)
    {
      r := tokens;
      var expanded := expand(word);
      for j := 0 to |expanded|
        invariant r == tokens + WordTokens(word, mark, nextLocation, expand)[..j]
      {
        r := r + [TokenOutput(mark + expanded[j], nextLocation)];
      }
    }

    method ProcessDocument(doc: Page) returns (out: TokenizedDocument)
      modifies this
      ensures out.tokens == PageTokens(doc, old(nextLocation), expand)
      ensures out.docEnd.docStartLoc == old(nextLocation)
      ensures out.docEnd.location == Advance(old(nextLocation), Length(doc))
      ensures nextLocation == Advance(old(nextLocation), Length(doc) + 1)
      ensures out.docEnd.wordCount == |doc.words| % TWO32 && out.docEnd.titleWordCount == |doc.titleWords| % 0x1_0000
      ensures out.docEnd.url == doc.url && out.docEnd.seedDistance == doc.seedDistance && out.docEnd.features == doc.features
    {
      hide Advance, ListTokens, WordTokens;
      var docStart := nextLocation;
      var tokens: seq<TokenOutput> := [];
      var bodyWordCount: uint32 := 0;
      AtStart(docStart);
      NoTokens(doc, docStart, expand);
      for i := 0 to |doc.titleWords|
        invariant tokens == ListTokens(doc.titleWords, i, TITLE_MARK, docStart, expand)
        invariant nextLocation == Advance(docStart, i)
      {
        tokens := AppendWord(tokens, doc.titleWords[i], TITLE_MARK);
        MoreTokens(doc.titleWords, i, TITLE_MARK, docStart, expand);
        Steps(docStart, i, 1);
        nextLocation := Advance(nextLocation, 1);
      }
      ghost var title := tokens;
      assert title + [] == title;
      for i := 0 to |doc.words|
        invariant tokens == title + ListTokens(doc.words, i, [], docStart + |doc.titleWords|, expand)
        invariant nextLocation == Advance(docStart, |doc.titleWords| + i)
        invariant bodyWordCount == i % TWO32
      {
        Steps(docStart, |doc.titleWords|, i);
        Steps(docStart, |doc.titleWords| + i, 1);
        Joined(docStart, |doc.titleWords|, i);
        tokens := AppendWord(tokens, doc.words[i], []);
        MoreTokens(doc.words, i, [], docStart + |doc.titleWords|, expand);
        assert title + (ListTokens(doc.words, i, [], docStart + |doc.titleWords|, expand) + WordTokens(doc.words[i], [], nextLocation, expand))
            == title + ListTokens(doc.words, i, [], docStart + |doc.titleWords|, expand) + WordTokens(doc.words[i], [], nextLocation, expand);
        OneWord(i);
        bodyWordCount := (bodyWordCount + 1) % TWO32;
        nextLocation := Advance(nextLocation, 1);
      }
      var docEnd := DocEndOutput(nextLocation, doc.url, bodyWordCount, |doc.titleWords| % 0x1_0000, docStart, doc.seedDistance, doc.features);
      nextLocation := Advance(nextLocation, 1);
      Steps(docStart, Length(doc), 1);
      out := TokenizedDocument(tokens, docEnd);
    }
  }

  lemma Steps(start: nat, m: nat, n: nat)
    ensures Advance(Advance(start, m), n) == Advance(start, m + n)
  {
  }

  lemma OneWord(n: nat)
    ensures (n % TWO32 + 1) % TWO32 == (n + 1) % TWO32
  {
  }

  lemma AtStart(start: uint32)
    ensures Advance(start, 0) == start
  {
  }

  lemma Joined(start: nat, m: nat, n: nat)
    ensures Advance(start + m, n) == Advance(start, m + n)
  {
  }

  lemma NoTokens(p: Page, start: nat, expand: Text -> seq<Text>)
    ensures ListTokens(p.titleWords, 0, TITLE_MARK, start, expand) == []
    ensures ListTokens(p.words, 0, [], start + |p.titleWords|, expand) == []
  {
  }

  lemma MoreTokens(words: seq<Text>, n: nat, mark: Text, start: nat, expand: Text -> seq<Text>)
    requires n < |words|
    ensures ListTokens(words, n + 1, mark, start, expand)
         == ListTokens(words, n, mark, start, expand) + WordTokens(words[n], mark, Advance(start, n), expand)
  {
  }

  // ---------------------------------------------------------------- what the tokens of a page are

  ghost predicate Sorted(ts: seq<TokenOutput>) {
    forall i, j :: 0 <= i < j < |ts| ==> ts[i].location <= ts[j].location
  }

  ghost predicate FromWord(word: Text, mark: Text, t: Text, expand: Text -> seq<Text>) {
    exists u :: u in expand(word) && t == mark + u
  }

  /** Token x comes from one of the first n words. */
  ghost predicate FromList(words: seq<Text>, n: nat, mark: Text, start: nat, x: TokenOutput, expand: Text -> seq<Text>)
    requires n <= |words|
  {
    start <= x.location < start + n && FromWord(words[x.location - start], mark, x.term, expand)
  }

  /** The tokens are exactly those of the words at their places, in order. */
  lemma {:induction false} ListTokensAre(words: seq<Text>, n: nat, mark: Text, start: nat, expand: Text -> seq<Text>)
    requires n <= |words| && start + n <= TWO32
    ensures var ts := ListTokens(words, n, mark, start, expand);
      Sorted(ts) && forall x :: x in ts <==> FromList(words, n, mark, start, x, expand)
  {
    hide FromWord;
    if n > 0 {
      ListTokensAre(words, n - 1, mark, start, expand);
      var front := ListTokens(words, n - 1, mark, start, expand);
      var last := WordTokens(words[n - 1], mark, Advance(start, n - 1), expand);
      assert Advance(start, n - 1) == start + n - 1;
      WordTokensAre(words[n - 1], mark, start + n - 1, expand);
      forall x: TokenOutput ensures x in front + last <==> FromList(words, n, mark, start, x, expand) {
      }
      SortedJoin(front, last, start + n - 1);
    }
  }

  lemma WordTokensAre(word: Text, mark: Text, location: uint32, expand: Text -> seq<Text>)
    ensures forall x :: x in WordTokens(word, mark, location, expand) <==> x.location == location && FromWord(word, mark, x.term, expand)
  {
    var ts := WordTokens(word, mark, location, expand);
    forall x: TokenOutput | x.location == location && FromWord(word, mark, x.term, expand) ensures x in ts {
      var u :| u in expand(word) && x.term == mark + u;
      var i :| 0 <= i < |expand(word)| && expand(word)[i] == u;
      assert ts[i] == x;
    }
  }

  lemma PageTokensAre(p: Page, start: nat, expand: Text -> seq<Text>)
    requires start + Length(p) <= TWO32
    ensures Sorted(PageTokens(p, start, expand))
    ensures forall x :: x in PageTokens(p, start, expand) <==> start <= x.location && Emits(p, x.location - start, x.term, expand)
  {
    hide ListTokens, Sorted;
    var m := |p.titleWords|;
    var title, body := ListTokens(p.titleWords, m, TITLE_MARK, start, expand), ListTokens(p.words, |p.words|, [], start + m, expand);
    ListTokensAre(p.titleWords, m, TITLE_MARK, start, expand);
    ListTokensAre(p.words, |p.words|, [], start + m, expand);
    forall x: TokenOutput ensures x in title + body <==> start <= x.location && Emits(p, x.location - start, x.term, expand) {
      if start + m <= x.location < start + Length(p) { Unmarked(p.words[x.location - start - m], x.term, expand); }
    }
    SortedJoin(title, body, start + m);
  }

  lemma Unmarked(word: Text, t: Text, expand: Text -> seq<Text>)
    ensures FromWord(word, [], t, expand) <==> t in expand(word)
  {
    assert forall u: Text :: [] + u == u;
    if t in expand(word) { assert t == [] + t; }
  }

  lemma SortedJoin(a: seq<TokenOutput>, b: seq<TokenOutput>, at: nat)
    requires Sorted(a) && Sorted(b) && (forall x :: x in a ==> x.location <= at) && (forall x :: x in b ==> at <= x.location)
    ensures Sorted(a + b)
  {
    var ts := a + b;
    forall i, j | 0 <= i < j < |ts| ensures ts[i].location <= ts[j].location {
      if i < |a| <= j { assert a[i] in a && b[j - |a|] in b; }
    }
  }

  // ---------------------------------------------------------------- the index in memory

  function Listed(m: map<Text, PostingList>, t: Text): seq<uint32> {
    if t in m then m[t].locations else []
  }

  /** addToken's effect on the lists; seen when the document already has the term. */
  function Added(m: map<Text, PostingList>, x: TokenOutput, seen: bool): map<Text, PostingList> {
    var list := if x.term in m then m[x.term] else PostingList([], 0, 0);
    m[x.term := PostingList(list.locations + [x.location],
                            if seen then list.docFrequency else Advance(list.docFrequency, 1),
                            Wrap64(list.collectionFrequency + 1))]
  }

  class InMemoryIndex {
    var index: map<Text, PostingList>
    var documents: seq<DocumentRecord>
    var termsSeen: set<Text>
    var totalLocations: uint64

    constructor ()
      ensures index == map[] && documents == [] && termsSeen == {} && totalLocations == 0
    {
      index, documents, termsSeen, totalLocations := map[], [], {}, 0;
    }

    method AddToken(token: TokenOutput)
      modifies this`index, this`termsSeen, this`totalLocations
      ensures index == Added(old(index), token, token.term in old(termsSeen))
      ensures termsSeen == old(termsSeen) + {token.term}
      ensures totalLocations == Max(old(totalLocations), token.location + 1)
    {
      var list := if token.term in index then index[token.term] else PostingList([], 0, 0);
      list := list.(locations := list.locations + [token.location]);
      list := list.(collectionFrequency := Wrap64(list.collectionFrequency + 1));
      if token.term !in termsSeen {
        termsSeen := termsSeen + {token.term};
        list := list.(docFrequency := Advance(list.docFrequency, 1));
      }
      index := index[token.term := list];
      if token.location + 1 > totalLocations {
        totalLocations := token.location + 1;
      }
    }

    method FinishDocument(docEnd: DocEndOutput)
      modifies this
      ensures index == Added(old(index), TokenOutput(DOC_END, docEnd.location), DOC_END in old(termsSeen))
      ensures documents == old(documents) + [DocumentRecord(docEnd.url, docEnd.docStartLoc, docEnd.location, docEnd.wordCount,
                                                            docEnd.titleWordCount, docEnd.seedDistance, docEnd.features)]
      ensures termsSeen == {} && totalLocations == Max(old(totalLocations), docEnd.location + 1)
    {
      AddToken(TokenOutput(DOC_END, docEnd.location));
      documents := documents + [DocumentRecord(docEnd.url, docEnd.docStartLoc, docEnd.location, docEnd.wordCount,
                                               docEnd.titleWordCount, docEnd.seedDistance, docEnd.features)];
      termsSeen := {};
    }
  }

  // ---------------------------------------------------------------- adding the tokens of a document

  function Terms(ts: seq<TokenOutput>): set<Text> {
    set x | x in ts :: x.term
  }

  /** The locations of one term in a token list, in order. */
  function Occurrences(ts: seq<TokenOutput>, t: Text): seq<uint32> {
    if ts == [] then []
    else
      var last := ts[|ts| - 1];
      Occurrences(ts[..|ts| - 1], t) + if last.term == t then [last.location] else []
  }

  /** All tokens of one document added, the first n of them. */
  function AddAll(m: map<Text, PostingList>, ts: seq<TokenOutput>, n: nat): map<Text, PostingList>
    requires n <= |ts|
  {
    if n == 0 then m else Added(AddAll(m, ts, n - 1), ts[n - 1], ts[n - 1].term in Terms(ts[..n - 1]))
  }

  function DocFrequency(m: map<Text, PostingList>, t: Text): nat {
    if t in m then m[t].docFrequency else 0
  }

  function CollectionFrequency(m: map<Text, PostingList>, t: Text): nat {
    if t in m then m[t].collectionFrequency else 0
  }

  /** Each term gets its occurrences appended. */
  lemma {:induction false} AddAllLists(m: map<Text, PostingList>, ts: seq<TokenOutput>, n: nat, t: Text)
    requires n <= |ts|
    ensures Listed(AddAll(m, ts, n), t) == Listed(m, t) + Occurrences(ts[..n], t)
    ensures t in AddAll(m, ts, n) <==> t in m || t in Terms(ts[..n])
  {
    hide Terms, Added, Occurrences;
    if n == 0 {
      assert ts[..0] == [];
      NoOccurrences(t);
    } else {
      AddAllLists(m, ts, n - 1, t);
      assert ts[..n] == ts[..n - 1] + [ts[n - 1]];
      AddOne(AddAll(m, ts, n - 1), ts[..n - 1], ts[n - 1], t);
    }
  }

  /** The document counts once for each of its terms, every occurrence once for the collection. */
  lemma {:induction false} AddAllCounts(m: map<Text, PostingList>, ts: seq<TokenOutput>, n: nat, t: Text)
    requires n <= |ts|
    ensures DocFrequency(AddAll(m, ts, n), t) == Advance(DocFrequency(m, t), if t in Terms(ts[..n]) then 1 else 0)
    ensures CollectionFrequency(AddAll(m, ts, n), t) == Wrap64(CollectionFrequency(m, t) + |Occurrences(ts[..n], t)|)
  {
    hide Terms, Added, Occurrences, Advance, Wrap64;
    if n == 0 {
      assert ts[..0] == [];
      NoOccurrences(t);
      AtStart(DocFrequency(m, t));
      Small64(CollectionFrequency(m, t));
    } else {
      AddAllCounts(m, ts, n - 1, t);
      var x, front := ts[n - 1], ts[..n - 1];
      assert ts[..n] == front + [x];
      AddOne(AddAll(m, ts, n - 1), front, x, t);
      Steps(DocFrequency(m, t), if t in Terms(front) then 1 else 0, if t == x.term && t !in Terms(front) then 1 else 0);
      Steps64(CollectionFrequency(m, t), |Occurrences(front, t)|, if t == x.term then 1 else 0);
    }
  }

  function Wrap64(n: nat): uint64 { n % 0x1_0000_0000_0000_0000 }

  lemma Small64(n: uint64)
    ensures Wrap64(n) == n
  {
  }

  lemma Steps64(a: nat, b: nat, c: nat)
    ensures Wrap64(Wrap64(a + b) + c) == Wrap64(a + b + c)
  {
  }

  lemma NoOccurrences(t: Text)
    ensures Occurrences([], t) == [] && Terms([]) == {}
  {
  }

  lemma AddOne(m: map<Text, PostingList>, front: seq<TokenOutput>, x: TokenOutput, t: Text)
    ensures var r := Added(m, x, x.term in Terms(front));
      && Listed(r, t) == Listed(m, t) + (if x.term == t then [x.location] else [])
      && (t in r <==> t in m || t == x.term)
      && DocFrequency(r, t) == Advance(DocFrequency(m, t), if t == x.term && t !in Terms(front) then 1 else 0)
      && CollectionFrequency(r, t) == Wrap64(CollectionFrequency(m, t) + if t == x.term then 1 else 0)
    ensures Occurrences(front + [x], t) == Occurrences(front, t) + (if x.term == t then [x.location] else [])
    ensures Terms(front + [x]) == Terms(front) + {x.term}
  {
    hide Terms, Advance, Wrap64, Added, Listed, DocFrequency, CollectionFrequency, Occurrences;
    AddedOne(m, x, x.term in Terms(front), t);
    OccurrencesJoin(front, x, t);
    TermsMore(front, x);
  }

  lemma AddedOne(m: map<Text, PostingList>, x: TokenOutput, seen: bool, t: Text)
    ensures var r := Added(m, x, seen);
      && Listed(r, t) == Listed(m, t) + (if x.term == t then [x.location] else [])
      && (t in r <==> t in m || t == x.term)
      && DocFrequency(r, t) == Advance(DocFrequency(m, t), if t == x.term && !seen then 1 else 0)
      && CollectionFrequency(r, t) == Wrap64(CollectionFrequency(m, t) + if t == x.term then 1 else 0)
  {
    hide Advance, Wrap64;
    AtStart(DocFrequency(m, t));
    Small64(CollectionFrequency(m, t));
  }

  lemma TermsMore(front: seq<TokenOutput>, x: TokenOutput)
    ensures Terms(front + [x]) == Terms(front) + {x.term}
  {
    var all := front + [x];
    forall t: Text ensures t in Terms(all) <==> t in Terms(front) || t == x.term {
      if t == x.term { assert x in all; }
      if t in Terms(front) {
        var y :| y in front && y.term == t;
        assert y in all;
      }
    }
  }

  /** The loop body of IndexWorkerThread. */
  method IndexDocument(tokenizer: Tokenizer, index: InMemoryIndex, doc: Page)
    requires index.termsSeen == {}
    modifies tokenizer, index
    ensures index.termsSeen == {} && tokenizer.nextLocation == Advance(old(tokenizer.nextLocation), Length(doc) + 1)
    ensures var start := old(tokenizer.nextLocation);
      var ts := PageTokens(doc, start, tokenizer.expand) + [TokenOutput(DOC_END, Advance(start, Length(doc)))];
      && index.index == AddAll(old(index.index), ts, |ts|)
      && index.documents == old(index.documents) + [RecordOf(doc, start)]
      && index.totalLocations == TotalAfter(old(index.totalLocations), ts)
  {
    hide PageTokens, Added, AddAll, Advance, Terms, TotalAfter;
    var out := tokenizer.ProcessDocument(doc);
    ghost var m, total := index.index, index.totalLocations;
    ghost var end := TokenOutput(DOC_END, out.docEnd.location);
    ghost var ts := out.tokens + [end];
    AddTokens(index, out.tokens, ts);
    OneToken(m, ts, |out.tokens|);
    TotalOne(total, ts, |out.tokens|);
    assert ts[..|out.tokens|] == out.tokens && ts[..|out.tokens| + 1] == ts;
    index.FinishDocument(out.docEnd);
  }

  /** Adds the tokens of a document, which all lists the end marker behind them. */
  method AddTokens(index: InMemoryIndex, tokens: seq<TokenOutput>, ghost all: seq<TokenOutput>)
    requires index.termsSeen == {} && tokens <= all
    modifies index`index, index`termsSeen, index`totalLocations
    ensures index.index == AddAll(old(index.index), all, |tokens|) && index.termsSeen == Terms(tokens)
    ensures index.totalLocations == TotalAfter(old(index.totalLocations), tokens)
  {
    hide Added, AddAll, Terms, TotalAfter;
    ghost var m, total := index.index, index.totalLocations;
    StartTokens(m, total, all);
    for i := 0 to |tokens|
      invariant index.index == AddAll(m, all, i) && index.termsSeen == Terms(all[..i])
      invariant index.totalLocations == TotalAfter(total, all[..i])
    {
      assert all[i] == tokens[i];
      TotalOne(total, all, i);
      OneToken(m, all, i);
      index.AddToken(tokens[i]);
    }
    assert all[..|tokens|] == tokens;
  }

  lemma StartTokens(m: map<Text, PostingList>, total: uint64, ts: seq<TokenOutput>)
    ensures AddAll(m, ts, 0) == m && Terms(ts[..0]) == {} && TotalAfter(total, ts[..0]) == total
  {
  }

  lemma OneToken(m: map<Text, PostingList>, ts: seq<TokenOutput>, i: nat)
    requires i < |ts|
    ensures AddAll(m, ts, i + 1) == Added(AddAll(m, ts, i), ts[i], ts[i].term in Terms(ts[..i]))
    ensures Terms(ts[..i + 1]) == Terms(ts[..i]) + {ts[i].term}
  {
    hide Terms, Added;
    assert ts[..i + 1] == ts[..i] + [ts[i]];
    TermsMore(ts[..i], ts[i]);
  }

  /** Counts and locations as the record keeps them. */
  function RecordOf(doc: Page, start: uint32): DocumentRecord {
    DocumentRecord(doc.url, start, Advance(start, Length(doc)), |doc.words| % TWO32, |doc.titleWords| % 0x1_0000,
                   doc.seedDistance, doc.features)
  }

  function TotalAfter(total: uint64, ts: seq<TokenOutput>): uint64 {
    if ts == [] then total else Max(TotalAfter(total, ts[..|ts| - 1]), ts[|ts| - 1].location + 1)
  }

  lemma TotalOne(total: uint64, ts: seq<TokenOutput>, i: nat)
    requires i < |ts|
    ensures TotalAfter(total, ts[..i + 1]) == Max(TotalAfter(total, ts[..i]), ts[i].location + 1)
    ensures ts[..0] == [] && TotalAfter(total, []) == total
  {
    assert ts[..i + 1][..i] == ts[..i];
  }

  // ---------------------------------------------------------------- an index of pages

  /** The documents stand one right behind another from base up to next. */
  ghost predicate Contiguous(docs: seq<DocumentRecord>, pages: seq<Page>, base: nat, next: nat) {
    && |docs| == |pages|
    && (forall d :: 0 <= d < |docs| ==> docs[d].endLocation == docs[d].startLocation + Length(pages[d]))
    && (forall d :: 0 <= d < |docs| ==> docs[d].startLocation == if d == 0 then base else docs[d - 1].endLocation + 1)
    && next == if docs == [] then base else docs[|docs| - 1].endLocation + 1
  }

  /** The word at location l, which is inside a document, gives the term t. */
  ghost predicate StandsAt(docs: seq<DocumentRecord>, pages: seq<Page>, l: nat, t: Text, expand: Text -> seq<Text>)
    requires |docs| == |pages|
  {
    exists d :: 0 <= d < |docs| && EmitsIn(docs, pages, d, l, t, expand)
  }

  ghost predicate EmitsIn(docs: seq<DocumentRecord>, pages: seq<Page>, d: nat, l: nat, t: Text, expand: Text -> seq<Text>)
    requires d < |docs| == |pages|
  {
    docs[d].startLocation <= l && Emits(pages[d], l - docs[d].startLocation, t, expand)
  }

  /** How many of the first n documents the list touches. */
  ghost function DocCount(L: seq<uint32>, docs: seq<Span>, n: nat): nat
    requires n <= |docs|
  {
    if n == 0 then 0 else DocCount(L, docs, n - 1) + if Layout.Hits(Locations(L), docs, n - 1) then 1 else 0
  }

  /** The index holds exactly the words of the pages: each term at the locations of the words that give
      it, in order, and the marker at the document ends. */
  ghost predicate Holding(m: map<Text, PostingList>, docs: seq<DocumentRecord>, pages: seq<Page>, base: nat, next: nat,
                          expand: Text -> seq<Text>)
  {
    && Contiguous(docs, pages, base, next) && next <= SENTINEL
    && Listed(m, DOC_END) == Ends(Spans(docs))
    && (forall t :: Nondecreasing(Listed(m, t)))
    && (forall t, l: uint32 :: t != DOC_END ==> (l in Listed(m, t) <==> StandsAt(docs, pages, l, t, expand)))
    && (forall t :: t in m <==> Listed(m, t) != [])
  }

  /** No word gives the marker as a term: terms are lower-case and start with a letter or digit. */
  ghost predicate NoMarker(expand: Text -> seq<Text>) {
    forall w, u :: u in expand(w) ==> u != DOC_END
  }

  lemma NothingHeld(base: uint32, expand: Text -> seq<Text>)
    requires base <= SENTINEL
    ensures Holding(map[], [], [], base, base, expand)
  {
  }

  lemma MarkedDiffers(u: Text)
    ensures TITLE_MARK + u != DOC_END
  {
    assert (TITLE_MARK + u)[0] == TITLE_MARK[0] != DOC_END[0];
  }

  lemma MarkerNotEmitted(p: Page, k: nat, expand: Text -> seq<Text>)
    requires NoMarker(expand)
    ensures !Emits(p, k, DOC_END, expand)
  {
    if Emits(p, k, DOC_END, expand) && k < |p.titleWords| {
      var u :| u in expand(p.titleWords[k]) && DOC_END == TITLE_MARK + u;
      MarkedDiffers(u);
    }
  }

  lemma {:induction false} OccurrencesAre(ts: seq<TokenOutput>, t: Text)
    ensures forall l: uint32 :: l in Occurrences(ts, t) <==> TokenOutput(t, l) in ts
    ensures Sorted(ts) ==> Nondecreasing(Occurrences(ts, t))
    ensures Sorted(ts) && ts != [] ==> forall l :: l in Occurrences(ts, t) ==> l <= ts[|ts| - 1].location
  {
    if ts != [] {
      var front, last := ts[..|ts| - 1], ts[|ts| - 1];
      assert ts == front + [last];
      OccurrencesAre(front, t);
      if Sorted(ts) {
        assert Sorted(front);
        forall l | l in Occurrences(front, t) ensures l <= last.location {
          assert l <= front[|front| - 1].location;
        }
        NondecreasingMore(Occurrences(front, t), last.location);
      }
    }
  }

  lemma NondecreasingMore(a: seq<uint32>, x: uint32)
    requires Nondecreasing(a) && forall l :: l in a ==> l <= x
    ensures Nondecreasing(a + [x])
  {
    var s := a + [x];
    forall i, j | 0 <= i < j < |s| ensures s[i] <= s[j] {
      assert a[i] in a;
    }
  }

  lemma OccurrencesJoin(ts: seq<TokenOutput>, x: TokenOutput, t: Text)
    ensures Occurrences(ts + [x], t) == Occurrences(ts, t) + if x.term == t then [x.location] else []
  {
    assert (ts + [x])[..|ts|] == ts;
  }

  lemma NoneOccur(ts: seq<TokenOutput>, t: Text)
    requires forall x :: x in ts ==> x.term != t
    ensures Occurrences(ts, t) == []
  {
    if ts != [] { NoneOccur(ts[..|ts| - 1], t); }
  }

  /** A page from start on adds these locations to the list of a term. */
  ghost predicate AddedBy(added: seq<uint32>, p: Page, start: nat, t: Text, expand: Text -> seq<Text>) {
    && (t == DOC_END ==> added == [start + Length(p)])
    && (t != DOC_END ==> forall l: uint32 :: l in added <==> start <= l && Emits(p, l - start, t, expand))
    && (forall l :: l in added ==> start <= l)
  }

  /** What one document adds to a term's list. */
  lemma DocumentAdds(p: Page, start: uint32, t: Text, expand: Text -> seq<Text>) returns (added: seq<uint32>)
    requires start + Length(p) < SENTINEL && NoMarker(expand)
    ensures var ts := PageTokens(p, start, expand) + [TokenOutput(DOC_END, Advance(start, Length(p)))];
      added == Occurrences(ts, t)
    ensures AddedBy(added, p, start, t, expand) && Nondecreasing(added)
  {
    hide Emits, NoMarker, PageTokens, Sorted, Occurrences, Length;
    var tokens := PageTokens(p, start, expand);
    var end := TokenOutput(DOC_END, Advance(start, Length(p)));
    PageTokensAre(p, start, expand);
    OccurrencesAre(tokens, t);
    OccurrencesJoin(tokens, end, t);
    added := Occurrences(tokens + [end], t);
    if t == DOC_END {
      forall x | x in tokens ensures x.term != t { MarkerNotEmitted(p, x.location - start, expand); }
      NoneOccur(tokens, t);
      EndExact(start, Length(p));
    }
  }

  lemma EndExact(start: nat, n: nat)
    requires start + n < TWO32
    ensures Advance(start, n) == start + n
  {
  }

  lemma NondecreasingJoin(a: seq<uint32>, b: seq<uint32>, at: nat)
    requires Nondecreasing(a) && Nondecreasing(b) && (forall x :: x in a ==> x < at) && (forall x :: x in b ==> at <= x)
    ensures Nondecreasing(a + b)
  {
    var s := a + b;
    forall i, j | 0 <= i <= j < |s| ensures s[i] <= s[j] {
      if i < |a| <= j { assert a[i] in a && b[j - |a|] in b; }
    }
  }

  /** Everything held so far lies below next. */
  lemma HeldBelow(m: map<Text, PostingList>, docs: seq<DocumentRecord>, pages: seq<Page>, base: nat, next: nat,
                  expand: Text -> seq<Text>, t: Text)
    requires Holding(m, docs, pages, base, next, expand)
    ensures forall l :: l in Listed(m, t) ==> l < next
  {
    hide Nondecreasing;
    forall l | l in Listed(m, t) ensures l < next {
      if t == DOC_END {
        var d :| 0 <= d < |docs| && Ends(Spans(docs))[d] == l;
        EndsBelow(docs, pages, base, next, d);
      } else {
        var d :| 0 <= d < |docs| && EmitsIn(docs, pages, d, l, t, expand);
        EndsBelow(docs, pages, base, next, d);
      }
    }
  }

  lemma {:induction false} EndsBelow(docs: seq<DocumentRecord>, pages: seq<Page>, base: nat, next: nat, d: nat)
    requires Contiguous(docs, pages, base, next) && d < |docs|
    ensures docs[d].endLocation < next
    decreases |docs| - d
  {
    if d + 1 < |docs| { EndsBelow(docs, pages, base, next, d + 1); }
  }

  // ---------------------------------------------------------------- adding a page keeps the index of pages

  /** The document's own words are found, and nothing else in its place. */
  lemma StandsMore(docs: seq<DocumentRecord>, pages: seq<Page>, base: nat, next: uint32, p: Page, l: nat, t: Text,
                   expand: Text -> seq<Text>)
    requires Contiguous(docs, pages, base, next) && next + Length(p) < SENTINEL
    ensures StandsAt(docs + [RecordOf(p, next)], pages + [p], l, t, expand)
       <==> StandsAt(docs, pages, l, t, expand) || (next <= l && Emits(p, l - next, t, expand))
  {
    hide Contiguous, Emits, Length;
    var docs', pages' := docs + [RecordOf(p, next)], pages + [p];
    SameLength(docs, pages, base, next);
    forall d | 0 <= d < |docs| ensures EmitsIn(docs', pages', d, l, t, expand) <==> EmitsIn(docs, pages, d, l, t, expand) {
      assert docs'[d] == docs[d] && pages'[d] == pages[d];
    }
    assert docs'[|docs|] == RecordOf(p, next) && pages'[|docs|] == p;
    assert EmitsIn(docs', pages', |docs|, l, t, expand) <==> next <= l && Emits(p, l - next, t, expand);
  }

  lemma SameLength(docs: seq<DocumentRecord>, pages: seq<Page>, base: nat, next: nat)
    requires Contiguous(docs, pages, base, next)
    ensures |docs| == |pages|
  {
  }

  lemma ContiguousMore(docs: seq<DocumentRecord>, pages: seq<Page>, base: nat, next: uint32, p: Page)
    requires Contiguous(docs, pages, base, next) && next + Length(p) < SENTINEL
    ensures Contiguous(docs + [RecordOf(p, next)], pages + [p], base, next + Length(p) + 1)
    ensures Ends(Spans(docs + [RecordOf(p, next)])) == Ends(Spans(docs)) + [next + Length(p)]
  {
    hide Length, Advance;
    EndExact(next, Length(p));
    var docs', pages' := docs + [RecordOf(p, next)], pages + [p];
    forall d | 0 <= d < |docs'|
      ensures docs'[d].endLocation == docs'[d].startLocation + Length(pages'[d])
      ensures docs'[d].startLocation == if d == 0 then base else docs'[d - 1].endLocation + 1
    {
      if d < |docs| {
        assert docs'[d] == docs[d] && pages'[d] == pages[d];
      }
      if d > 0 { assert docs'[d - 1] == docs[d - 1]; }
    }
  }

  lemma ListMore(m: map<Text, PostingList>, docs: seq<DocumentRecord>, pages: seq<Page>, base: nat, next: uint32, p: Page,
                 expand: Text -> seq<Text>, t: Text, ts: seq<TokenOutput>)
    requires Holding(m, docs, pages, base, next, expand) && NoMarker(expand) && next + Length(p) < SENTINEL
    requires ts == PageTokens(p, next, expand) + [TokenOutput(DOC_END, Advance(next, Length(p)))]
    ensures var list := Listed(AddAll(m, ts, |ts|), t);
      && Nondecreasing(list)
      && (t == DOC_END ==> list == Ends(Spans(docs)) + [next + Length(p)])
      && (t != DOC_END ==> forall l: uint32 :: l in list <==> StandsAt(docs, pages, l, t, expand) || (next <= l && Emits(p, l - next, t, expand)))
      && (t in AddAll(m, ts, |ts|) <==> list != [])
  {
    hide Emits, NoMarker, PageTokens, AddAll, StandsAt, Nondecreasing, Contiguous, Length, Advance, AddedBy, Holding, Listed, Occurrences, Terms;
    HoldingSize(m, docs, pages, base, next, expand);
    var added := DocumentAdds(p, next, t, expand);
    AddAllLists(m, ts, |ts|, t);
    assert ts[..|ts|] == ts;
    HeldBelow(m, docs, pages, base, next, expand, t);
    HoldingOne(m, docs, pages, base, next, expand, t);
    JoinedList(Listed(m, t), added, docs, pages, next, p, expand, t);
    TermsOccur(ts, t);
  }

  lemma HoldingOne(m: map<Text, PostingList>, docs: seq<DocumentRecord>, pages: seq<Page>, base: nat, next: nat,
                   expand: Text -> seq<Text>, t: Text)
    requires Holding(m, docs, pages, base, next, expand)
    ensures |docs| == |pages| && ListOf(Listed(m, t), docs, pages, expand, t) && (t in m <==> Listed(m, t) != [])
  {
    hide StandsAt, Listed, Nondecreasing;
  }

  /** The list of one term in an index of pages. */
  ghost predicate ListOf(L: seq<uint32>, docs: seq<DocumentRecord>, pages: seq<Page>, expand: Text -> seq<Text>, t: Text)
    requires |docs| == |pages|
  {
    && Nondecreasing(L)
    && (t == DOC_END ==> L == Ends(Spans(docs)))
    && (t != DOC_END ==> forall l: uint32 :: l in L <==> StandsAt(docs, pages, l, t, expand))
  }

  lemma JoinedList(L: seq<uint32>, added: seq<uint32>, docs: seq<DocumentRecord>, pages: seq<Page>, next: uint32, p: Page,
                   expand: Text -> seq<Text>, t: Text)
    requires |docs| == |pages| && ListOf(L, docs, pages, expand, t) && (forall l :: l in L ==> l < next)
    requires AddedBy(added, p, next, t, expand) && Nondecreasing(added)
    ensures Nondecreasing(L + added)
    ensures t == DOC_END ==> L + added == Ends(Spans(docs)) + [next + Length(p)]
    ensures t != DOC_END ==> forall l: uint32 :: l in L + added <==> StandsAt(docs, pages, l, t, expand) || (next <= l && Emits(p, l - next, t, expand))
  {
    hide Emits, StandsAt, Nondecreasing, Length;
    NondecreasingJoin(L, added, next);
  }

  lemma TermsOccur(ts: seq<TokenOutput>, t: Text)
    ensures t in Terms(ts) <==> Occurrences(ts, t) != []
  {
    OccurrencesAre(ts, t);
    if t in Terms(ts) {
      var x :| x in ts && x.term == t;
      assert x.location in Occurrences(ts, t);
    }
    if Occurrences(ts, t) != [] {
      assert Occurrences(ts, t)[0] in Occurrences(ts, t);
      assert TokenOutput(t, Occurrences(ts, t)[0]) in ts;
    }
  }

  /** One term's part of Holding. */
  ghost predicate HoldingTerm(m: map<Text, PostingList>, docs: seq<DocumentRecord>, pages: seq<Page>, expand: Text -> seq<Text>, t: Text)
    requires |docs| == |pages|
  {
    ListOf(Listed(m, t), docs, pages, expand, t) && (t in m <==> Listed(m, t) != [])
  }

  lemma HoldingTermMore(m: map<Text, PostingList>, docs: seq<DocumentRecord>, pages: seq<Page>, base: nat, next: uint32, p: Page,
                        expand: Text -> seq<Text>, ts: seq<TokenOutput>, t: Text)
    requires Holding(m, docs, pages, base, next, expand) && NoMarker(expand) && next + Length(p) < SENTINEL
    requires ts == PageTokens(p, next, expand) + [TokenOutput(DOC_END, Advance(next, Length(p)))]
    ensures |docs| == |pages|
    ensures HoldingTerm(AddAll(m, ts, |ts|), docs + [RecordOf(p, next)], pages + [p], expand, t)
  {
    hide NoMarker, PageTokens, AddAll, StandsAt, Nondecreasing, Contiguous, Listed, Emits, RecordOf, Advance, Length, Holding;
    HoldingSize(m, docs, pages, base, next, expand);
    ListMore(m, docs, pages, base, next, p, expand, t, ts);
    ContiguousMore(docs, pages, base, next, p);
    forall l: uint32 ensures StandsAt(docs + [RecordOf(p, next)], pages + [p], l, t, expand)
                        <==> StandsAt(docs, pages, l, t, expand) || (next <= l && Emits(p, l - next, t, expand)) {
      StandsMore(docs, pages, base, next, p, l, t, expand);
    }
  }

  lemma HoldingSize(m: map<Text, PostingList>, docs: seq<DocumentRecord>, pages: seq<Page>, base: nat, next: nat, expand: Text -> seq<Text>)
    requires Holding(m, docs, pages, base, next, expand)
    ensures |docs| == |pages| && Contiguous(docs, pages, base, next) && next <= SENTINEL
  {
  }

  lemma HoldingByTerm(m: map<Text, PostingList>, docs: seq<DocumentRecord>, pages: seq<Page>, base: nat, next: nat, expand: Text -> seq<Text>)
    requires |docs| == |pages| && Contiguous(docs, pages, base, next) && next <= SENTINEL
    requires forall t :: HoldingTerm(m, docs, pages, expand, t)
    ensures Holding(m, docs, pages, base, next, expand)
  {
    hide StandsAt, Nondecreasing, Contiguous, Listed;
    assert HoldingTerm(m, docs, pages, expand, DOC_END);
    forall t ensures Nondecreasing(Listed(m, t)) && (t in m <==> Listed(m, t) != []) {
      assert HoldingTerm(m, docs, pages, expand, t);
    }
    forall t, l: uint32 | t != DOC_END ensures l in Listed(m, t) <==> StandsAt(docs, pages, l, t, expand) {
      assert HoldingTerm(m, docs, pages, expand, t);
    }
  }

  /** Indexing one more page that fits keeps an index of pages. */
  lemma HoldingMore(m: map<Text, PostingList>, docs: seq<DocumentRecord>, pages: seq<Page>, base: nat, next: uint32, p: Page,
                    expand: Text -> seq<Text>, ts: seq<TokenOutput>)
    requires Holding(m, docs, pages, base, next, expand) && NoMarker(expand) && next + Length(p) < SENTINEL
    requires ts == PageTokens(p, next, expand) + [TokenOutput(DOC_END, Advance(next, Length(p)))]
    ensures Holding(AddAll(m, ts, |ts|), docs + [RecordOf(p, next)], pages + [p], base, next + Length(p) + 1, expand)
  {
    hide NoMarker, PageTokens, AddAll, HoldingTerm, Contiguous, RecordOf, Advance, Length, Holding;
    HoldingSize(m, docs, pages, base, next, expand);
    ContiguousMore(docs, pages, base, next, p);
    forall t ensures HoldingTerm(AddAll(m, ts, |ts|), docs + [RecordOf(p, next)], pages + [p], expand, t) {
      HoldingTermMore(m, docs, pages, base, next, p, expand, ts, t);
    }
    HoldingByTerm(AddAll(m, ts, |ts|), docs + [RecordOf(p, next)], pages + [p], base, next + Length(p) + 1, expand);
  }

  // ---------------------------------------------------------------- what follows for the flushed index

  /** The terms of the map in some order, as the hash map yields them to the flusher. */
  ghost predicate Lists(ix: Index, m: map<Text, PostingList>, docs: seq<DocumentRecord>) {
    && ix.documents == docs
    && (forall k :: 0 <= k < |ix.postings| ==> ix.postings[k].term in m && ix.postings[k].list == m[ix.postings[k].term])
    && (forall t :: t in m ==> HasTerm(ix, t))
    && (forall j, k :: 0 <= j < k < |ix.postings| ==> ix.postings[j].term != ix.postings[k].term)
  }

  lemma ListedIsLocations(ix: Index, m: map<Text, PostingList>, docs: seq<DocumentRecord>, t: Text)
    requires Lists(ix, m, docs)
    ensures LocationsOf(ix, t) == Listed(m, t) && (HasTerm(ix, t) <==> t in m)
  {
    if HasTerm(ix, t) {
      var k :| 0 <= k < |ix.postings| && ix.postings[k].term == t;
    }
  }

  lemma {:induction false} ContiguousOrdered(docs: seq<DocumentRecord>, pages: seq<Page>, base: nat, next: nat, c: nat, d: nat)
    requires Contiguous(docs, pages, base, next) && c < d < |docs|
    ensures docs[c].endLocation < docs[d].startLocation
    decreases d
  {
    if c + 1 < d { ContiguousOrdered(docs, pages, base, next, c, d - 1); }
  }

  lemma OrderedPages(docs: seq<DocumentRecord>, pages: seq<Page>, base: nat, next: nat)
    requires Contiguous(docs, pages, base, next) && next <= SENTINEL
    ensures Ordered(Spans(docs))
  {
    var spans := Spans(docs);
    forall d | 0 <= d < |spans| ensures spans[d].start <= spans[d].end < SENTINEL { EndsBelow(docs, pages, base, next, d); }
    forall c, d | 0 <= c < d < |spans| ensures spans[c].end < spans[d].start { ContiguousOrdered(docs, pages, base, next, c, d); }
  }

  lemma StandsInside(docs: seq<DocumentRecord>, pages: seq<Page>, base: nat, next: nat, l: uint32, t: Text, expand: Text -> seq<Text>)
    requires Contiguous(docs, pages, base, next) && StandsAt(docs, pages, l, t, expand)
    ensures exists d: nat :: InDoc(Spans(docs), d, l) && l < Spans(docs)[d].end
  {
    var d: nat :| d < |docs| && EmitsIn(docs, pages, d, l, t, expand);
    assert InDoc(Spans(docs), d, l);
  }

  /** However the terms are ordered, an index of pages is well indexed: what the iterators and the
      query compiler rely on. */
  lemma PagesWellIndexed(ix: Index, m: map<Text, PostingList>, docs: seq<DocumentRecord>, pages: seq<Page>, base: nat, next: nat,
                         expand: Text -> seq<Text>)
    requires Holding(m, docs, pages, base, next, expand) && Lists(ix, m, docs)
    ensures WellIndexed(ix)
  {
    hide Contiguous, StandsAt, Ordered, Nondecreasing, HasTerm, LocationsOf, Spans, Inside, Below, Lists;
    HoldingSize(m, docs, pages, base, next, expand);
    OrderedPages(docs, pages, base, next);
    assert ix.documents == docs by { ListsDocs(ix, m, docs); }
    forall t ensures Below(Locations(LocationsOf(ix, t))) {
      PageTerm(ix, m, docs, pages, base, next, expand, t);
    }
    forall t | HasTerm(ix, t) && t != DOC_END ensures Inside(Locations(LocationsOf(ix, t)), Spans(docs)) {
      PageTerm(ix, m, docs, pages, base, next, expand, t);
    }
    ListedIsLocations(ix, m, docs, DOC_END);
  }

  lemma ListsDocs(ix: Index, m: map<Text, PostingList>, docs: seq<DocumentRecord>)
    requires Lists(ix, m, docs)
    ensures ix.documents == docs
  {
  }

  lemma PageTerm(ix: Index, m: map<Text, PostingList>, docs: seq<DocumentRecord>, pages: seq<Page>, base: nat, next: nat,
                 expand: Text -> seq<Text>, t: Text)
    requires Holding(m, docs, pages, base, next, expand) && Lists(ix, m, docs)
    ensures Below(Locations(LocationsOf(ix, t)))
    ensures t != DOC_END ==> Inside(Locations(LocationsOf(ix, t)), Spans(docs))
  {
    hide Contiguous, StandsAt, Nondecreasing, HasTerm, LocationsOf, Lists;
    HoldingSize(m, docs, pages, base, next, expand);
    ListedIsLocations(ix, m, docs, t);
    HeldBelow(m, docs, pages, base, next, expand, t);
    if t != DOC_END {
      forall l | l in Locations(LocationsOf(ix, t)) ensures exists d: nat :: InDoc(Spans(docs), d, l) && l < Spans(docs)[d].end {
        var h: uint32 := l;
        StandsInside(docs, pages, base, next, h, t, expand);
      }
    }
  }

  lemma HeldAt(m: map<Text, PostingList>, docs: seq<DocumentRecord>, pages: seq<Page>, base: nat, next: nat,
               expand: Text -> seq<Text>, t: Text, l: uint32)
    requires Holding(m, docs, pages, base, next, expand) && t != DOC_END
    ensures |docs| == |pages| && (l in Listed(m, t) <==> StandsAt(docs, pages, l, t, expand))
  {
    hide StandsAt, Listed, Nondecreasing;
  }

  /** A document is touched by a term's locations exactly when one of its words gives the term. */
  lemma TouchesIfWordGives(ix: Index, m: map<Text, PostingList>, docs: seq<DocumentRecord>, pages: seq<Page>, base: nat, next: nat,
                           expand: Text -> seq<Text>, t: Text, d: nat)
    requires Holding(m, docs, pages, base, next, expand) && Lists(ix, m, docs) && t != DOC_END && d < |pages|
    ensures Layout.Hits(Locations(LocationsOf(ix, t)), Spans(ix.documents), d) <==> exists k: nat :: Emits(pages[d], k, t, expand)
  {
    hide Holding, HasTerm, LocationsOf, Listed, Lists, Emits, Ordered, Contiguous;
    HoldingSize(m, docs, pages, base, next, expand);
    ListedIsLocations(ix, m, docs, t);
    ListsDocs(ix, m, docs);
    if Layout.Hits(Locations(LocationsOf(ix, t)), Spans(ix.documents), d) {
      var l :| l in Locations(LocationsOf(ix, t)) && InDoc(Spans(docs), d, l);
      var h: uint32 := l;
      HeldAt(m, docs, pages, base, next, expand, t, h);
      EmittedHere(docs, pages, base, next, d, h, t, expand);
    }
    if k: nat :| Emits(pages[d], k, t, expand) {
      WordPlace(docs, pages, base, next, d, k, t, expand);
      var l: uint32 := docs[d].startLocation + k;
      HeldAt(m, docs, pages, base, next, expand, t, l);
      assert l in Locations(LocationsOf(ix, t));
    }
  }

  lemma EmittedHere(docs: seq<DocumentRecord>, pages: seq<Page>, base: nat, next: nat, d: nat, h: uint32, t: Text, expand: Text -> seq<Text>)
    requires Contiguous(docs, pages, base, next) && next <= SENTINEL
    requires InDoc(Spans(docs), d, h) && StandsAt(docs, pages, h, t, expand)
    ensures exists k: nat :: Emits(pages[d], k, t, expand)
  {
    hide Emits;
    OrderedPages(docs, pages, base, next);
    var c :| 0 <= c < |docs| && EmitsIn(docs, pages, c, h, t, expand);
    EmitsLength(pages[c], h - docs[c].startLocation, t, expand);
    SameDoc(Spans(docs), c, d, h);
  }

  lemma WordPlace(docs: seq<DocumentRecord>, pages: seq<Page>, base: nat, next: nat, d: nat, k: nat, t: Text, expand: Text -> seq<Text>)
    requires Contiguous(docs, pages, base, next) && d < |pages| && Emits(pages[d], k, t, expand)
    ensures var l := docs[d].startLocation + k;
      l < TWO32 && StandsAt(docs, pages, l, t, expand) && InDoc(Spans(docs), d, l)
  {
    EmitsLength(pages[d], k, t, expand);
    assert EmitsIn(docs, pages, d, docs[d].startLocation + k, t, expand);
  }

  lemma EmitsLength(p: Page, k: nat, t: Text, expand: Text -> seq<Text>)
    requires Emits(p, k, t, expand)
    ensures k < Length(p)
  {
  }

  // ---------------------------------------------------------------- frequencies

  /** doc_frequency counts the documents a term is in, collection_frequency its occurrences. */
  ghost predicate Counted(m: map<Text, PostingList>, docs: seq<DocumentRecord>) {
    forall t :: CountedTerm(m, docs, t)
  }

  ghost predicate CountedTerm(m: map<Text, PostingList>, docs: seq<DocumentRecord>, t: Text) {
    && DocFrequency(m, t) == DocCount(Listed(m, t), Spans(docs), |docs|)
    && CollectionFrequency(m, t) == Wrap64(|Listed(m, t)|)
  }

  lemma {:induction false} CountUnchanged(L: seq<uint32>, K: seq<uint32>, docs: seq<Span>, more: seq<Span>, n: nat, at: nat)
    requires n <= |docs| && docs <= more && (forall d :: 0 <= d < n ==> docs[d].end < at) && (forall l :: l in K ==> at <= l)
    ensures DocCount(L + K, more, n) == DocCount(L, docs, n)
  {
    if n > 0 {
      CountUnchanged(L, K, docs, more, n - 1, at);
      HitsUnchanged(L, K, docs, more, n - 1, at);
    }
  }

  lemma HitsUnchanged(L: seq<uint32>, K: seq<uint32>, docs: seq<Span>, more: seq<Span>, d: nat, at: nat)
    requires d < |docs| && docs <= more && docs[d].end < at && (forall l :: l in K ==> at <= l)
    ensures Layout.Hits(Locations(L + K), more, d) <==> Layout.Hits(Locations(L), docs, d)
  {
    if Layout.Hits(Locations(L), docs, d) {
      var h :| h in Locations(L) && InDoc(docs, d, h);
      assert h in Locations(L + K) && InDoc(more, d, h);
    }
    if Layout.Hits(Locations(L + K), more, d) {
      var h :| h in Locations(L + K) && InDoc(more, d, h);
      assert h in Locations(L) && InDoc(docs, d, h);
    }
  }

  lemma {:induction false} CountAtMost(L: seq<uint32>, docs: seq<Span>, n: nat)
    requires n <= |docs|
    ensures DocCount(L, docs, n) <= n
  {
    if n > 0 { CountAtMost(L, docs, n - 1); }
  }

  lemma {:induction false} DocsFit(docs: seq<DocumentRecord>, pages: seq<Page>, base: nat, next: nat, d: nat)
    requires Contiguous(docs, pages, base, next) && d < |docs|
    ensures d <= docs[d].endLocation
  {
    if d > 0 { DocsFit(docs, pages, base, next, d - 1); }
  }

  lemma CountedTermMore(m: map<Text, PostingList>, docs: seq<DocumentRecord>, pages: seq<Page>, base: nat, next: uint32, p: Page,
                        expand: Text -> seq<Text>, ts: seq<TokenOutput>, t: Text)
    requires Holding(m, docs, pages, base, next, expand) && NoMarker(expand) && next + Length(p) < SENTINEL
    requires ts == PageTokens(p, next, expand) + [TokenOutput(DOC_END, Advance(next, Length(p)))]
    requires CountedTerm(m, docs, t)
    ensures CountedTerm(AddAll(m, ts, |ts|), docs + [RecordOf(p, next)], t)
  {
    hide Emits, NoMarker, PageTokens, AddAll, Holding, Listed, Wrap64, DocFrequency, CollectionFrequency, Length, DocCount, Advance, RecordOf;
    DocFrequencyMore(m, docs, pages, base, next, p, expand, ts, t);
    CollectionFrequencyMore(m, ts, t);
  }

  lemma DocFrequencyMore(m: map<Text, PostingList>, docs: seq<DocumentRecord>, pages: seq<Page>, base: nat, next: uint32, p: Page,
                         expand: Text -> seq<Text>, ts: seq<TokenOutput>, t: Text)
    requires Holding(m, docs, pages, base, next, expand) && NoMarker(expand) && next + Length(p) < SENTINEL
    requires ts == PageTokens(p, next, expand) + [TokenOutput(DOC_END, Advance(next, Length(p)))]
    requires DocFrequency(m, t) == DocCount(Listed(m, t), Spans(docs), |docs|)
    ensures var now := AddAll(m, ts, |ts|);
      DocFrequency(now, t) == DocCount(Listed(now, t), Spans(docs + [RecordOf(p, next)]), |docs| + 1)
  {
    hide Emits, NoMarker, PageTokens, AddAll, Holding, Contiguous, Listed, Terms, Occurrences, Wrap64, DocFrequency, CollectionFrequency,
      Length, DocCount, Advance, RecordOf, AddedBy, Nondecreasing;
    var added := DocumentAdds(p, next, t, expand);
    HoldingSize(m, docs, pages, base, next, expand);
    HeldBelow(m, docs, pages, base, next, expand, t);
    AddAllLists(m, ts, |ts|, t);
    AddAllCounts(m, ts, |ts|, t);
    assert ts[..|ts|] == ts;
    TermsOccur(ts, t);
    DocCountMore(Listed(m, t), added, docs, pages, base, next, p, t, expand);
  }

  lemma CollectionFrequencyMore(m: map<Text, PostingList>, ts: seq<TokenOutput>, t: Text)
    requires CollectionFrequency(m, t) == Wrap64(|Listed(m, t)|)
    ensures CollectionFrequency(AddAll(m, ts, |ts|), t) == Wrap64(|Listed(AddAll(m, ts, |ts|), t)|)
  {
    hide AddAll, Listed, Terms, Occurrences, Wrap64, DocFrequency, CollectionFrequency, Advance;
    AddAllLists(m, ts, |ts|, t);
    AddAllCounts(m, ts, |ts|, t);
    assert ts[..|ts|] == ts;
    Steps64(0, |Listed(m, t)|, |Occurrences(ts, t)|);
  }

  lemma DocCountMore(L: seq<uint32>, added: seq<uint32>, docs: seq<DocumentRecord>, pages: seq<Page>, base: nat, next: uint32,
                     p: Page, t: Text, expand: Text -> seq<Text>)
    requires Contiguous(docs, pages, base, next) && next + Length(p) < SENTINEL
    requires (forall l :: l in L ==> l < next) && AddedBy(added, p, next, t, expand)
    ensures DocCount(L + added, Spans(docs + [RecordOf(p, next)]), |docs| + 1)
         == Advance(DocCount(L, Spans(docs), |docs|), if added != [] then 1 else 0)
  {
    hide Emits, Contiguous, Length, Layout.Hits, Advance;
    var n := |docs|;
    var spans, spans' := Spans(docs), Spans(docs + [RecordOf(p, next)]);
    forall d | 0 <= d < n ensures spans[d].end < next { EndsBelow(docs, pages, base, next, d); }
    assert spans <= spans';
    CountUnchanged(L, added, spans, spans', n, next);
    CountAtMost(L, spans, n);
    if n > 0 {
      DocsFit(docs, pages, base, next, n - 1);
      EndsBelow(docs, pages, base, next, n - 1);
    }
    EndExact(next, Length(p));
    AddedHits(L, added, spans', n, next, p, t, expand);
    EndExact(DocCount(L, spans, n), if added != [] then 1 else 0);
  }

  /** The new document is touched exactly if it adds anything. */
  lemma AddedHits(L: seq<uint32>, added: seq<uint32>, spans: seq<Span>, n: nat, next: nat, p: Page, t: Text, expand: Text -> seq<Text>)
    requires n < |spans| && spans[n].start == next && spans[n].end == next + Length(p)
    requires (forall l :: l in L ==> l < next) && AddedBy(added, p, next, t, expand)
    ensures Layout.Hits(Locations(L + added), spans, n) <==> added != []
  {
    hide Emits;
    if added != [] {
      var l := added[0];
      assert l in added;
      if t != DOC_END { EmitsLength(p, l - next, t, expand); }
      assert l in Locations(L + added) && InDoc(spans, n, l);
    }
  }

  lemma CountedMore(m: map<Text, PostingList>, docs: seq<DocumentRecord>, pages: seq<Page>, base: nat, next: uint32, p: Page,
                    expand: Text -> seq<Text>, ts: seq<TokenOutput>)
    requires Holding(m, docs, pages, base, next, expand) && NoMarker(expand) && next + Length(p) < SENTINEL && Counted(m, docs)
    requires ts == PageTokens(p, next, expand) + [TokenOutput(DOC_END, Advance(next, Length(p)))]
    ensures Counted(AddAll(m, ts, |ts|), docs + [RecordOf(p, next)])
  {
    hide CountedTerm, AddAll, Holding, PageTokens, NoMarker, Length, Advance, RecordOf;
    forall t ensures CountedTerm(AddAll(m, ts, |ts|), docs + [RecordOf(p, next)], t) {
      CountedTermMore(m, docs, pages, base, next, p, expand, ts, t);
    }
  }

  // ---------------------------------------------------------------- how often pages give a term

  /** How many of the texts are t behind the mark. */
  function Times(us: seq<Text>, mark: Text, t: Text): nat {
    if us == [] then 0 else Times(us[..|us| - 1], mark, t) + if mark + us[|us| - 1] == t then 1 else 0
  }

  function TimesIn(words: seq<Text>, mark: Text, t: Text, expand: Text -> seq<Text>): nat {
    if words == [] then 0 else TimesIn(words[..|words| - 1], mark, t, expand) + Times(expand(words[|words| - 1]), mark, t)
  }

  /** How often a page gives the term; each gives the marker of its end once. */
  function PageTimes(p: Page, t: Text, expand: Text -> seq<Text>): nat {
    TimesIn(p.titleWords, TITLE_MARK, t, expand) + TimesIn(p.words, [], t, expand) + if t == DOC_END then 1 else 0
  }

  function AllTimes(pages: seq<Page>, t: Text, expand: Text -> seq<Text>): nat {
    if pages == [] then 0 else AllTimes(pages[..|pages| - 1], t, expand) + PageTimes(pages[|pages| - 1], t, expand)
  }

  ghost predicate GivesTerm(p: Page, t: Text, expand: Text -> seq<Text>) {
    t == DOC_END || exists k: nat :: Emits(p, k, t, expand)
  }

  /** How many of the pages give the term. */
  ghost function PagesGiving(pages: seq<Page>, t: Text, expand: Text -> seq<Text>): nat {
    if pages == [] then 0
    else PagesGiving(pages[..|pages| - 1], t, expand) + if GivesTerm(pages[|pages| - 1], t, expand) then 1 else 0
  }

  /** Each list has a location for each time its term is given. */
  ghost predicate Tallied(m: map<Text, PostingList>, pages: seq<Page>, expand: Text -> seq<Text>) {
    forall t :: |Listed(m, t)| == AllTimes(pages, t, expand)
  }

  lemma {:induction false} OccurrencesConcat(a: seq<TokenOutput>, b: seq<TokenOutput>, t: Text)
    ensures Occurrences(a + b, t) == Occurrences(a, t) + Occurrences(b, t)
    decreases |b|
  {
    if b == [] {
      assert a + b == a;
    } else {
      var n := |b| - 1;
      assert (a + b)[..|a + b| - 1] == a + b[..n];
      OccurrencesConcat(a, b[..n], t);
    }
  }

  lemma {:induction false} WordTimes(word: Text, mark: Text, location: uint32, t: Text, n: nat, expand: Text -> seq<Text>)
    requires n <= |expand(word)|
    ensures |Occurrences(WordTokens(word, mark, location, expand)[..n], t)| == Times(expand(word)[..n], mark, t)
  {
    if n > 0 {
      var ts, us := WordTokens(word, mark, location, expand), expand(word);
      WordTimes(word, mark, location, t, n - 1, expand);
      assert ts[..n][..n - 1] == ts[..n - 1] && us[..n][..n - 1] == us[..n - 1];
    }
  }

  lemma {:induction false} ListTimes(words: seq<Text>, n: nat, mark: Text, start: nat, t: Text, expand: Text -> seq<Text>)
    requires n <= |words|
    ensures |Occurrences(ListTokens(words, n, mark, start, expand), t)| == TimesIn(words[..n], mark, t, expand)
  {
    hide Occurrences, Times, Advance;
    if n == 0 {
      NoneOccur([], t);
    } else {
      ListTimes(words, n - 1, mark, start, t, expand);
      var last := WordTokens(words[n - 1], mark, Advance(start, n - 1), expand);
      OccurrencesConcat(ListTokens(words, n - 1, mark, start, expand), last, t);
      WordTimes(words[n - 1], mark, Advance(start, n - 1), t, |last|, expand);
      assert last[..|last|] == last && expand(words[n - 1])[..|last|] == expand(words[n - 1]) && words[..n][..n - 1] == words[..n - 1];
    }
  }

  lemma PageOccurrences(p: Page, start: nat, end: uint32, t: Text, expand: Text -> seq<Text>)
    ensures |Occurrences(PageTokens(p, start, expand) + [TokenOutput(DOC_END, end)], t)| == PageTimes(p, t, expand)
  {
    hide Occurrences, ListTokens, TimesIn;
    var n, k := |p.titleWords|, |p.words|;
    var title, body := ListTokens(p.titleWords, n, TITLE_MARK, start, expand), ListTokens(p.words, k, [], start + n, expand);
    OccurrencesJoin(title + body, TokenOutput(DOC_END, end), t);
    OccurrencesConcat(title, body, t);
    ListTimes(p.titleWords, n, TITLE_MARK, start, t, expand);
    ListTimes(p.words, k, [], start + n, t, expand);
    assert p.titleWords[..n] == p.titleWords && p.words[..k] == p.words;
  }

  lemma TalliedMore(m: map<Text, PostingList>, pages: seq<Page>, p: Page, start: nat, end: uint32, expand: Text -> seq<Text>, ts: seq<TokenOutput>)
    requires Tallied(m, pages, expand) && ts == PageTokens(p, start, expand) + [TokenOutput(DOC_END, end)]
    ensures Tallied(AddAll(m, ts, |ts|), pages + [p], expand)
  {
    hide AddAll, Listed, Occurrences, PageTokens, PageTimes;
    assert ts[..|ts|] == ts && (pages + [p])[..|pages|] == pages;
    forall t ensures |Listed(AddAll(m, ts, |ts|), t)| == AllTimes(pages + [p], t, expand) {
      AddAllLists(m, ts, |ts|, t);
      PageOccurrences(p, start, end, t, expand);
    }
  }

  lemma NothingTallied(expand: Text -> seq<Text>)
    ensures Tallied(map[], [], expand)
  {
  }

  /** A document is touched by a list exactly when its page gives the term. */
  lemma TouchesIfGiven(m: map<Text, PostingList>, docs: seq<DocumentRecord>, pages: seq<Page>, base: nat, next: nat,
                       expand: Text -> seq<Text>, t: Text, d: nat)
    requires Holding(m, docs, pages, base, next, expand) && d < |pages|
    ensures |docs| == |pages| && (Layout.Hits(Locations(Listed(m, t)), Spans(docs), d) <==> GivesTerm(pages[d], t, expand))
  {
    hide Holding, Listed, Emits, Ordered, Contiguous;
    HoldingSize(m, docs, pages, base, next, expand);
    if t == DOC_END {
      EndsHeld(m, docs, pages, base, next, expand);
      OrderedPages(docs, pages, base, next);
      EndTouches(docs, d);
    } else {
      if Layout.Hits(Locations(Listed(m, t)), Spans(docs), d) {
        var l :| l in Locations(Listed(m, t)) && InDoc(Spans(docs), d, l);
        var h: uint32 := l;
        HeldAt(m, docs, pages, base, next, expand, t, h);
        EmittedHere(docs, pages, base, next, d, h, t, expand);
      }
      if k: nat :| Emits(pages[d], k, t, expand) {
        WordPlace(docs, pages, base, next, d, k, t, expand);
        var l: uint32 := docs[d].startLocation + k;
        HeldAt(m, docs, pages, base, next, expand, t, l);
        assert l in Locations(Listed(m, t));
      }
    }
  }

  lemma EndsHeld(m: map<Text, PostingList>, docs: seq<DocumentRecord>, pages: seq<Page>, base: nat, next: nat, expand: Text -> seq<Text>)
    requires Holding(m, docs, pages, base, next, expand)
    ensures Listed(m, DOC_END) == Ends(Spans(docs))
  {
    hide Listed, Contiguous, StandsAt, Nondecreasing;
  }

  lemma EndTouches(docs: seq<DocumentRecord>, d: nat)
    requires d < |docs| && Ordered(Spans(docs))
    ensures Layout.Hits(Locations(Ends(Spans(docs))), Spans(docs), d)
  {
    var e := Ends(Spans(docs))[d];
    assert e in Ends(Spans(docs)) && InDoc(Spans(docs), d, e);
  }

  /** The documents a list touches are as many as the pages that give its term. */
  lemma {:induction false} CountIsPages(m: map<Text, PostingList>, docs: seq<DocumentRecord>, pages: seq<Page>, base: nat, next: nat,
                                        expand: Text -> seq<Text>, t: Text, n: nat)
    requires Holding(m, docs, pages, base, next, expand) && n <= |pages| == |docs|
    ensures DocCount(Listed(m, t), Spans(docs), n) == PagesGiving(pages[..n], t, expand)
  {
    hide Holding, Listed, GivesTerm, Layout.Hits;
    if n > 0 {
      CountIsPages(m, docs, pages, base, next, expand, t, n - 1);
      TouchesIfGiven(m, docs, pages, base, next, expand, t, n - 1);
      assert pages[..n][..n - 1] == pages[..n - 1];
    }
  }

  /** The counter behind all locations, with documents up to next. */
  lemma {:induction false} TotalOf(total: uint64, ts: seq<TokenOutput>, end: uint32)
    requires forall x :: x in ts ==> x.location <= end
    ensures TotalAfter(total, ts + [TokenOutput(DOC_END, end)]) == Max(total, end + 1)
  {
    assert (ts + [TokenOutput(DOC_END, end)])[..|ts|] == ts;
    TotalWithin(total, ts, end);
  }

  lemma {:induction false} TotalWithin(total: uint64, ts: seq<TokenOutput>, end: uint32)
    requires forall x :: x in ts ==> x.location <= end
    ensures total <= TotalAfter(total, ts) <= Max(total, end + 1)
  {
    if ts != [] {
      assert ts[|ts| - 1] in ts;
      TotalWithin(total, ts[..|ts| - 1], end);
    }
  }

  lemma PageTotal(total: uint64, p: Page, start: uint32, expand: Text -> seq<Text>)
    requires start + Length(p) < SENTINEL
    ensures TotalAfter(total, PageTokens(p, start, expand) + [TokenOutput(DOC_END, Advance(start, Length(p)))])
         == Max(total, start + Length(p) + 1)
  {
    hide PageTokens, TotalAfter, Emits, Sorted, Length;
    PageTokensAre(p, start, expand);
    EndExact(start, Length(p));
    forall x | x in PageTokens(p, start, expand) ensures x.location <= start + Length(p) {
      EmitsLength(p, x.location - start, x.term, expand);
    }
    TotalOf(total, PageTokens(p, start, expand), start + Length(p));
  }

  // ---------------------------------------------------------------- indexing many pages

  /** Locations the pages need, one for each word and one for each document end. */
  function Needed(pages: seq<Page>): nat {
    if pages == [] then 0 else Needed(pages[..|pages| - 1]) + Length(pages[|pages| - 1]) + 1
  }

  /** Behind the last location of the pages, or of what was indexed before them. */
  function LocationsEnd(pages: seq<Page>, base: nat, before: nat): nat {
    if pages == [] then before else Max(before, base + Needed(pages))
  }

  /** The records the pages get, whether or not the 32-bit counter runs over. */
  function Records(pages: seq<Page>, base: uint32): (docs: seq<DocumentRecord>)
    ensures |docs| == |pages|
  {
    if pages == [] then []
    else
      var front := pages[..|pages| - 1];
      Records(front, base) + [RecordOf(pages[|pages| - 1], Advance(base, Needed(front)))]
  }

  /** What the record of each page says. */
  lemma {:induction false} RecordsAre(pages: seq<Page>, base: uint32, i: nat)
    requires i < |pages|
    ensures var r, p := Records(pages, base)[i], pages[i];
      && r.startLocation == (base + Needed(pages[..i])) % 0x1_0000_0000
      && r.endLocation == (base + Needed(pages[..i]) + |p.titleWords| + |p.words|) % 0x1_0000_0000
      && r.wordCount == |p.words| % 0x1_0000_0000 && r.titleWordCount == |p.titleWords| % 0x1_0000
      && r.url == p.url && r.seedDistance == p.seedDistance && r.features == p.features
  {
    hide Needed;
    var n := |pages| - 1;
    if i < n {
      RecordsAre(pages[..n], base, i);
      assert pages[..n][..i] == pages[..i];
    } else {
      assert pages[..i] == pages[..n];
      Steps(base, Needed(pages[..i]), Length(pages[i]));
    }
  }

  /** Documents are in order exactly when the pages fit below the sentinel. */
  lemma {:induction false} OrderedIffFits(pages: seq<Page>, base: uint32)
    requires forall p :: p in pages ==> Length(p) < TWO32
    ensures Ordered(Spans(Records(pages, base))) <==> pages == [] || base + Needed(pages) <= SENTINEL
  {
    hide Length, Advance, Ordered;
    if pages == [] {
      NoneOrdered();
    } else {
      var front, p := pages[..|pages| - 1], pages[|pages| - 1];
      OrderedIffFits(front, base);
      var spans, at := Spans(Records(front, base)), base + Needed(front);
      var last := Span(Advance(base, Needed(front)), Advance(Advance(base, Needed(front)), Length(p)));
      assert Spans(Records(pages, base)) == spans + [last];
      if front == [] || at <= SENTINEL {
        EndExact(base, Needed(front));
        if front != [] { LastEnd(front, base); } else { NoneOrdered(); }
        OneMore(spans, at, Length(p));
      } else if Ordered(spans + [last]) {
        PrefixOrdered(spans, last);
      }
    }
  }

  lemma NoneOrdered()
    ensures Ordered([])
  {
  }

  lemma LastEnd(pages: seq<Page>, base: uint32)
    requires pages != [] && base + Needed(pages) <= SENTINEL
    ensures Spans(Records(pages, base))[|pages| - 1].end == base + Needed(pages) - 1
  {
    hide Length;
  }

  lemma OneMore(spans: seq<Span>, at: uint32, len: nat)
    requires Ordered(spans) && (spans != [] ==> spans[|spans| - 1].end == at - 1) && len < TWO32
    ensures Ordered(spans + [Span(at, Advance(at, len))]) <==> at + len < SENTINEL
  {
    var s := spans + [Span(at, Advance(at, len))];
    var n := |spans|;
    if at + len < SENTINEL {
      forall c, d | 0 <= c < d < |s| ensures s[c].end < s[d].start {
        if d == n { assert c == n - 1 || spans[c].end < spans[n - 1].start; }
      }
    } else {
      assert !(s[n].start <= s[n].end < SENTINEL);
    }
  }

  lemma PrefixOrdered(spans: seq<Span>, last: Span)
    requires Ordered(spans + [last])
    ensures Ordered(spans)
  {
    var s := spans + [last];
    assert forall d :: 0 <= d < |spans| ==> s[d] == spans[d];
  }

  /** No more than n terms, and no list longer than n. */
  ghost predicate Sized(m: map<Text, PostingList>, n: nat) {
    |m| <= n && forall t :: t in m ==> |m[t].locations| <= n
  }

  /** The tokens of the pages, the markers included. */
  function TokenCount(pages: seq<Page>, expand: Text -> seq<Text>): nat {
    if pages == [] then 0 else TokenCount(pages[..|pages| - 1], expand) + |PageTokens(pages[|pages| - 1], 0, expand)| + 1
  }

  lemma {:induction false} AddAllSized(m: map<Text, PostingList>, ts: seq<TokenOutput>, n: nat, size: nat)
    requires n <= |ts| && Sized(m, size)
    ensures Sized(AddAll(m, ts, n), size + n)
  {
    if n > 0 {
      AddAllSized(m, ts, n - 1, size);
      AddedSized(AddAll(m, ts, n - 1), ts[n - 1], ts[n - 1].term in Terms(ts[..n - 1]), size + n - 1);
    }
  }

  lemma AddedSized(m: map<Text, PostingList>, x: TokenOutput, seen: bool, size: nat)
    requires Sized(m, size)
    ensures Sized(Added(m, x, seen), size + 1)
  {
    var now := Added(m, x, seen);
    assert now.Keys == m.Keys + {x.term};
    assert |now| == |now.Keys| && |m| == |m.Keys|;
  }

  lemma {:induction false} ListTokensLength(words: seq<Text>, n: nat, mark: Text, start: nat, at: nat, expand: Text -> seq<Text>)
    requires n <= |words|
    ensures |ListTokens(words, n, mark, start, expand)| == |ListTokens(words, n, mark, at, expand)|
  {
    if n > 0 { ListTokensLength(words, n - 1, mark, start, at, expand); }
  }

  lemma CountMore(pages: seq<Page>, i: nat, at: nat, expand: Text -> seq<Text>)
    requires i < |pages|
    ensures TokenCount(pages[..i + 1], expand) == TokenCount(pages[..i], expand) + |PageTokens(pages[i], at, expand)| + 1
  {
    assert pages[..i + 1][..i] == pages[..i];
    var p := pages[i];
    ListTokensLength(p.titleWords, |p.titleWords|, TITLE_MARK, 0, at, expand);
    ListTokensLength(p.words, |p.words|, [], |p.titleWords|, at + |p.titleWords|, expand);
  }

  /** IndexWorkerThread up to the next flush: the records are those of the pages; and as long as the
      pages fit, the index is exactly that of the pages, with right counts. */
  method IndexPages(tokenizer: Tokenizer, index: InMemoryIndex, pages: seq<Page>)
    requires index.index == map[] && index.documents == [] && index.termsSeen == {}
    requires NoMarker(tokenizer.expand)
    modifies tokenizer, index
    ensures index.termsSeen == {} && index.documents == Records(pages, old(tokenizer.nextLocation))
    ensures Sized(index.index, TokenCount(pages, tokenizer.expand))
    ensures old(tokenizer.nextLocation) + Needed(pages) <= SENTINEL ==>
              && tokenizer.nextLocation == old(tokenizer.nextLocation) + Needed(pages)
              && Holding(index.index, index.documents, pages, old(tokenizer.nextLocation), tokenizer.nextLocation, tokenizer.expand)
              && Counted(index.index, index.documents)
              && index.totalLocations == LocationsEnd(pages, old(tokenizer.nextLocation), old(index.totalLocations))
    ensures Tallied(index.index, pages, tokenizer.expand)
  {
    hide Holding, Counted, NoMarker, AddAll, PageTokens, Advance, Length, RecordOf, Sized, Tallied, TotalAfter, HoldsPages, Needed, Records, TokenCount, LocationsEnd;
    NothingTallied(tokenizer.expand);
    NothingSized();
    ghost var base, expand, total0 := tokenizer.nextLocation, tokenizer.expand, index.totalLocations;
    NoPagesHeld(base, total0, expand);
    AtStart(base);
    for i := 0 to |pages|
      invariant index.termsSeen == {} && tokenizer.nextLocation == Advance(base, Needed(pages[..i]))
      invariant index.documents == Records(pages[..i], base)
      invariant Sized(index.index, TokenCount(pages[..i], expand)) && Tallied(index.index, pages[..i], expand)
      invariant base + Needed(pages[..i]) <= SENTINEL ==>
                  HoldsPages(index.index, index.documents, index.totalLocations, pages[..i], base, tokenizer.nextLocation, total0, expand)
    {
      ghost var m, docs, at, total := index.index, index.documents, tokenizer.nextLocation, index.totalLocations;
      IndexDocument(tokenizer, index, pages[i]);
      OnePage(pages, i, base);
      ghost var ts := PageTokens(pages[i], at, expand) + [TokenOutput(DOC_END, Advance(at, Length(pages[i])))];
      AddAllSized(m, ts, |ts|, TokenCount(pages[..i], expand));
      CountMore(pages, i, at, expand);
      TalliedMore(m, pages[..i], pages[i], at, Advance(at, Length(pages[i])), expand, ts);
      if base + Needed(pages[..i + 1]) <= SENTINEL {
        EndExact(base, Needed(pages[..i]));
        EndExact(base, Needed(pages[..i + 1]));
        HoldsOneMore(m, docs, total, pages[..i], base, at, total0, pages[i], expand, ts);
      }
    }
    assert pages[..|pages|] == pages;
    if base + Needed(pages) <= SENTINEL {
      EndExact(base, Needed(pages));
      HoldsParts(index.index, index.documents, index.totalLocations, pages, base, tokenizer.nextLocation, total0, expand);
    }
  }

  /** The index of the pages, as long as they fit. */
  ghost predicate HoldsPages(m: map<Text, PostingList>, docs: seq<DocumentRecord>, total: nat, pages: seq<Page>, base: nat, next: nat,
                             total0: nat, expand: Text -> seq<Text>)
  {
    && Holding(m, docs, pages, base, next, expand) && Counted(m, docs)
    && next == base + Needed(pages) && total == LocationsEnd(pages, base, total0)
  }

  lemma HoldsParts(m: map<Text, PostingList>, docs: seq<DocumentRecord>, total: nat, pages: seq<Page>, base: nat, next: nat,
                   total0: nat, expand: Text -> seq<Text>)
    requires HoldsPages(m, docs, total, pages, base, next, total0, expand)
    ensures Holding(m, docs, pages, base, next, expand) && Counted(m, docs)
    ensures next == base + Needed(pages) && total == LocationsEnd(pages, base, total0)
  {
    hide Holding, Counted, Needed;
  }

  lemma NoPagesHeld(base: uint32, total: nat, expand: Text -> seq<Text>)
    ensures Needed([]) == 0 && Records([], base) == [] && TokenCount([], expand) == 0
    ensures base <= SENTINEL ==> HoldsPages(map[], [], total, [], base, base, total, expand)
  {
    hide Holding, Counted;
    NothingHeld(base, expand);
    NothingCounted();
  }

  lemma HoldsOneMore(m: map<Text, PostingList>, docs: seq<DocumentRecord>, total: uint64, pages: seq<Page>, base: nat, next: uint32,
                     total0: nat, p: Page, expand: Text -> seq<Text>, ts: seq<TokenOutput>)
    requires HoldsPages(m, docs, total, pages, base, next, total0, expand) && NoMarker(expand) && next + Length(p) < SENTINEL
    requires ts == PageTokens(p, next, expand) + [TokenOutput(DOC_END, Advance(next, Length(p)))]
    ensures HoldsPages(AddAll(m, ts, |ts|), docs + [RecordOf(p, next)], TotalAfter(total, ts), pages + [p], base, next + Length(p) + 1, total0, expand)
  {
    hide Holding, Counted, NoMarker, PageTokens, AddAll, Length, Advance, RecordOf, TotalAfter;
    PageTotal(total, p, next, expand);
    HoldingMore(m, docs, pages, base, next, p, expand, ts);
    CountedMore(m, docs, pages, base, next, p, expand, ts);
    assert (pages + [p])[..|pages|] == pages;
  }

  lemma NothingSized()
    ensures Sized(map[], 0)
  {
  }

  lemma NothingCounted()
    ensures Counted(map[], [])
  {
  }

  lemma OnePage(pages: seq<Page>, i: nat, base: uint32)
    requires i < |pages|
    ensures Needed(pages[..i + 1]) == Needed(pages[..i]) + Length(pages[i]) + 1
    ensures Records(pages[..i + 1], base) == Records(pages[..i], base) + [RecordOf(pages[i], Advance(base, Needed(pages[..i])))]
    ensures Advance(Advance(base, Needed(pages[..i])), Length(pages[i]) + 1) == Advance(base, Needed(pages[..i + 1]))
    ensures pages[..i + 1] == pages[..i] + [pages[i]]
  {
    hide Length, RecordOf, Advance;
    assert pages[..i + 1][..i] == pages[..i];
    Steps(base, Needed(pages[..i]), Length(pages[i]) + 1);
  }
}
