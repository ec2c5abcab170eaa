/** From pages to the bytes of a chunk file: indexing, listing the terms of the hash map, flushing; and
    from there to the answer of a search (IndexWorkerThread in src/main_distributed.cpp,
    src/index/src/lib/chunk_flusher.cpp). */
module PageFiles {
  import opened Basics
  import opened VByte
  import opened Bytes
  import opened SeekTable
  import opened Layout
  import opened WordIterator
  import opened ChunkFormat
  import opened ChunkWriter
  import opened ChunkReader
  import opened OnDisk
  import opened QueryMeaning
  import opened QueryCompilation
  import opened Indexing
  import opened QueryEngine
  import opened PageSearch
  import TopK
  import Q = QuerySyntax

  // ---------------------------------------------------------------- listing

  /** Every term of the map once, in any order. */
  ghost predicate ListsTerms(ps: seq<Posting>, m: map<Text, PostingList>) {
    && (forall k :: 0 <= k < |ps| ==> ps[k].term in m && ps[k].list == m[ps[k].term])
    && (forall t :: t in m ==> exists k :: 0 <= k < |ps| && ps[k].term == t)
    && (forall j, k :: 0 <= j < k < |ps| ==> ps[j].term != ps[k].term)
  }

  /** Goes through the hash map, whose order is not known. */
  method ListTerms(m: map<Text, PostingList>) returns (ps: seq<Posting>)
    ensures ListsTerms(ps, m) && |ps| == |m|
  {
    ps := [];
    var left := m.Keys;
    while left != {}
      invariant left <= m.Keys && |ps| + |left| == |m|
      invariant forall k :: 0 <= k < |ps| ==> ps[k].term in m && ps[k].list == m[ps[k].term]
      invariant forall t :: t in m && t !in left ==> exists k :: 0 <= k < |ps| && ps[k].term == t
      invariant forall k :: 0 <= k < |ps| ==> ps[k].term !in left
      invariant forall j, k :: 0 <= j < k < |ps| ==> ps[j].term != ps[k].term
      decreases left
    {
      var t :| t in left;
      ghost var before := ps;
      ps := ps + [Posting(t, m[t])];
      assert ps[|before|].term == t && forall k :: 0 <= k < |before| ==> ps[k] == before[k];
      left := left - {t};
    }
  }

  // ---------------------------------------------------------------- what fits a file

  /** An index of the pages, listed in any order. */
  ghost predicate ListsPages(ix: Index, pages: seq<Page>, base: uint32, expand: Text -> seq<Text>) {
    exists m, next :: && Holding(m, ix.documents, pages, base, next, expand) && Lists(ix, m, ix.documents)
                      && |ix.postings| == |m| && Sized(m, TokenCount(pages, expand)) && ix.documents == Records(pages, base)
  }

  /** The locations of the pages fit below the sentinel, and whatever the order in which the terms are
      listed, all counts, offsets and strings fit their fields in the file. */
  ghost predicate FitFile(pages: seq<Page>, base: uint32, expand: Text -> seq<Text>, hash: Text -> uint64) {
    base + Needed(pages) <= SENTINEL && forall ix :: ListsPages(ix, pages, base, expand) ==> Writable(ix, hash)
  }

  /** A bound on the pages themselves: fewer than 2^32 / 5 tokens, and strings below 65536 bytes. */
  ghost predicate Moderate(pages: seq<Page>, base: uint32, expand: Text -> seq<Text>) {
    && base + Needed(pages) <= SENTINEL && 5 * TokenCount(pages, expand) < TWO32
    && forall p :: p in pages ==> ModeratePage(p, expand)
  }

  ghost predicate ModeratePage(p: Page, expand: Text -> seq<Text>) {
    && |p.url| < 0x1_0000 && |p.features.rawTld| < 0x1_0000
    && (forall w, u :: w in p.titleWords && u in expand(w) ==> |u| + 1 < 0x1_0000)
    && (forall w, u :: w in p.words && u in expand(w) ==> |u| < 0x1_0000)
  }

  lemma EmittedShort(p: Page, k: nat, t: Text, expand: Text -> seq<Text>)
    requires ModeratePage(p, expand) && Emits(p, k, t, expand)
    ensures |t| < 0x1_0000
  {
    if k < |p.titleWords| {
      var u :| u in expand(p.titleWords[k]) && t == TITLE_MARK + u;
    }
  }

  lemma TermsShort(m: map<Text, PostingList>, docs: seq<DocumentRecord>, pages: seq<Page>, base: uint32, next: nat,
                   expand: Text -> seq<Text>, t: Text)
    requires Holding(m, docs, pages, base, next, expand) && (forall p :: p in pages ==> ModeratePage(p, expand)) && t in m
    ensures |t| < 0x1_0000
  {
    hide ModeratePage, Emits;
    if t != DOC_END {
      var l := Listed(m, t)[0];
      assert l in Listed(m, t);
      var d :| 0 <= d < |docs| && EmitsIn(docs, pages, d, l, t, expand);
      assert pages[d] in pages;
      EmittedShort(pages[d], l - docs[d].startLocation, t, expand);
    }
  }

  lemma ListsSmall(m: map<Text, PostingList>, docs: seq<DocumentRecord>, pages: seq<Page>, base: uint32, next: nat,
                   expand: Text -> seq<Text>, t: Text, size: nat)
    requires Holding(m, docs, pages, base, next, expand) && Sized(m, size) && 5 * size < TWO32 && t in m
    ensures IsPostingList(m[t].locations) && |m[t].locations| <= size
  {
    hide Contiguous, StandsAt, Nondecreasing, Stream;
    HeldBelow(m, docs, pages, base, next, expand, t);
    var L := m[t].locations;
    StreamSize(L);
    assert Listed(m, t) == L && Nondecreasing(Listed(m, t));
    forall i | 0 <= i < |L| ensures L[i] < SENTINEL { assert L[i] in Listed(m, t); }
  }

  // ---------------------------------------------------------------- sizes of the parts

  lemma PostingSize(L: seq<uint32>)
    requires Small(L)
    ensures |PostingImage(L)| < 0x2_0000_0000
  {
    hide Stream, IsTable;
  }

  lemma {:induction false} PostingsSize(ps: seq<Posting>)
    requires AllSmall(ps)
    ensures |PostingsImage(ps)| <= |ps| * 0x2_0000_0000
  {
    hide PostingImage, IsPostingList;
    if ps != [] {
      var n := |ps| - 1;
      PostingsSize(ps[..n]);
      ListSmall(ps, n);
      PostingSize(ps[n].list.locations);
      assert n * 0x2_0000_0000 + 0x2_0000_0000 == |ps| * 0x2_0000_0000;
    }
  }

  lemma {:induction false} RecordsSize(docs: seq<DocumentRecord>)
    ensures |RecordsImage(docs)| <= |docs| * 0x4_0000
  {
    hide FixedImage;
    if docs != [] { RecordsSize(docs[..|docs| - 1]); }
  }

  ghost function EntryTotal(buckets: seq<seq<DictEntry>>): nat {
    if buckets == [] then 0 else EntryTotal(buckets[..|buckets| - 1]) + |buckets[|buckets| - 1]|
  }

  lemma {:induction false} ChainSize(es: seq<DictEntry>)
    ensures |ChainImage(es)| <= 40 + |es| * 0x2_0000
  {
    hide BucketImage;
    if es != [] { ChainSize(es[1..]); }
  }

  lemma {:induction false} ChainsSize(buckets: seq<seq<DictEntry>>)
    ensures |ChainsImage(buckets)| <= |buckets| * 40 + EntryTotal(buckets) * 0x2_0000
  {
    hide ChainImage;
    if buckets != [] {
      ChainsSize(buckets[..|buckets| - 1]);
      ChainSize(buckets[|buckets| - 1]);
    }
  }

  lemma {:induction false} OneEntryMore(buckets: seq<seq<DictEntry>>, b: nat, e: DictEntry)
    requires b < |buckets|
    ensures EntryTotal(buckets[b := buckets[b] + [e]]) == EntryTotal(buckets) + 1
  {
    var n := |buckets| - 1;
    var more := buckets[b := buckets[b] + [e]];
    if b < n {
      assert more[..n] == buckets[..n][b := buckets[..n][b] + [e]];
      OneEntryMore(buckets[..n], b, e);
    } else {
      assert more[..n] == buckets[..n];
    }
  }

  lemma {:induction false} NoEntries(n: nat)
    ensures EntryTotal(seq(n, _ => [])) == 0
  {
    if n > 0 {
      NoEntries(n - 1);
      assert seq<seq<DictEntry>>(n, _ => [])[..n - 1] == seq(n - 1, _ => []);
    }
  }

  lemma {:induction false} EntriesOf(ps: seq<Posting>, n: nat, hash: Text -> uint64)
    requires AllSmall(ps) && n <= |ps|
    ensures EntryTotal(Buckets(ps, n, hash)) == n
  {
    hide Buckets, EntryOf;
    if n == 0 {
      NoBuckets(ps, hash);
      NoEntries(BucketCount(|ps|));
    } else {
      EntriesOf(ps, n - 1, hash);
      BucketsStep(ps, n - 1, hash);
      OneEntryMore(Buckets(ps, n - 1, hash), hash(ps[n - 1].term) % BucketCount(|ps|), EntryOf(ps, n - 1));
    }
  }

  lemma TableSize(docs: seq<DocumentRecord>)
    requires |docs| < TWO32
    ensures |DocTableImage(docs)| < 0x8_0000_0000_0000
  {
    hide RecordsImage;
    RecordsSize(docs);
  }

  lemma DictSize(ps: seq<Posting>, hash: Text -> uint64)
    requires AllSmall(ps) && |ps| < 0x4000_0000
    ensures |DictImage(Buckets(ps, |ps|, hash))| < 0x1_0000_0000_0000
  {
    hide Buckets, ChainsImage;
    var buckets := Buckets(ps, |ps|, hash);
    ChainsSize(buckets);
    EntriesOf(ps, |ps|, hash);
  }

  lemma BodySize(ix: Index, hash: Text -> uint64)
    requires AllSmall(ix.postings) && |ix.postings| < 0x4000_0000 && |ix.documents| < TWO32
    ensures HEADER_SIZE + |Body(ix, hash)| < TWO64
  {
    hide PostingsImage, DocTableImage, DictImage, Buckets, AllSmall;
    PostingsSize(ix.postings);
    TableSize(ix.documents);
    DictSize(ix.postings, hash);
    assert |ix.postings| * 0x2_0000_0000 <= 0x4000_0000 * 0x2_0000_0000;
  }

  /** Moderate pages fit a file. */
  lemma ModerateFit(pages: seq<Page>, base: uint32, expand: Text -> seq<Text>, hash: Text -> uint64)
    requires Moderate(pages, base, expand)
    ensures FitFile(pages, base, expand, hash)
  {
    hide ModeratePage, Holding, Writable;
    forall ix | ListsPages(ix, pages, base, expand) ensures Writable(ix, hash) {
      var m, next :| && Holding(m, ix.documents, pages, base, next, expand) && Lists(ix, m, ix.documents)
                     && |ix.postings| == |m| && Sized(m, TokenCount(pages, expand)) && ix.documents == Records(pages, base);
      ModerateWritable(ix, m, pages, base, next, expand, hash);
    }
  }

  lemma ModerateWritable(ix: Index, m: map<Text, PostingList>, pages: seq<Page>, base: uint32, next: nat, expand: Text -> seq<Text>,
                         hash: Text -> uint64)
    requires Moderate(pages, base, expand) && Holding(m, ix.documents, pages, base, next, expand) && Lists(ix, m, ix.documents)
    requires |ix.postings| == |m| && Sized(m, TokenCount(pages, expand)) && ix.documents == Records(pages, base)
    ensures Writable(ix, hash)
  {
    hide ModeratePage, Holding, Body, IsPostingList, Records, Needed, TokenCount;
    var ps := ix.postings;
    forall k | 0 <= k < |ps| ensures IsPostingList(ps[k].list.locations) && |ps[k].term| < 0x1_0000 {
      ListsSmall(m, ix.documents, pages, base, next, expand, ps[k].term, TokenCount(pages, expand));
      TermsShort(m, ix.documents, pages, base, next, expand, ps[k].term);
    }
    RecordsShort(pages, base, expand);
    PagesNeed(pages);
    BodySize(ix, hash);
  }

  lemma {:induction false} RecordsShort(pages: seq<Page>, base: uint32, expand: Text -> seq<Text>)
    requires forall p :: p in pages ==> ModeratePage(p, expand)
    ensures forall i :: 0 <= i < |pages| ==>
              |Records(pages, base)[i].url| < 0x1_0000 && |Records(pages, base)[i].features.rawTld| < 0x1_0000
  {
    hide Needed;
    if pages != [] {
      RecordsShort(pages[..|pages| - 1], base, expand);
      assert pages[|pages| - 1] in pages;
    }
  }

  lemma {:induction false} PagesNeed(pages: seq<Page>)
    ensures |pages| <= Needed(pages)
  {
    if pages != [] { PagesNeed(pages[..|pages| - 1]); }
  }

  // ---------------------------------------------------------------- from pages to a file

  /** The file says, byte by byte, how many documents and terms there are and where the locations end; and
      of each term that the pages give, how many of them give it and how often. */
  ghost predicate CountsStand(file: seq<byte>, ix: Index, hash: Text -> uint64, pages: seq<Page>, base: nat, expand: Text -> seq<Text>) {
    && SizesStand(file, pages, LocationsEnd(pages, base, 0), expand)
    && forall t :: AllTimes(pages, t, expand) > 0 ==> TermCounted(file, ix, hash, pages, expand, t)
  }

  ghost predicate SizesStand(file: seq<byte>, pages: seq<Page>, total: nat, expand: Text -> seq<Text>) {
    exists terms: set<Text> :: AreTerms(terms, pages, expand) && HeaderStands(file, |pages|, total, |terms|)
  }

  ghost predicate AreTerms(terms: set<Text>, pages: seq<Page>, expand: Text -> seq<Text>) {
    forall t :: t in terms <==> AllTimes(pages, t, expand) > 0
  }

  ghost predicate TermCounted(file: seq<byte>, ix: Index, hash: Text -> uint64, pages: seq<Page>, expand: Text -> seq<Text>, t: Text) {
    var L := LocationsOf(ix, t);
    && IsPostingList(L) && |L| == AllTimes(pages, t, expand)
    && TermStands(file, hash, t, L, PagesGiving(pages, t, expand), AllTimes(pages, t, expand) % 0x1_0000_0000_0000_0000)
  }

  lemma PagesCounted(ix: Index, m: map<Text, PostingList>, hash: Text -> uint64, pages: seq<Page>, base: nat, next: nat, expand: Text -> seq<Text>)
    requires Writable(ix, hash) && ListsTerms(ix.postings, m) && |ix.postings| == |m|
    requires Holding(m, ix.documents, pages, base, next, expand) && Counted(m, ix.documents) && Tallied(m, pages, expand)
    requires ix.totalLocations == LocationsEnd(pages, base, 0)
    ensures CountsStand(Image(ix, hash), ix, hash, pages, base, expand)
  {
    hide Writable, Image, Holding, Counted, Tallied, HeaderStands, TermCounted, AllTimes, LocationsEnd, ListsTerms, SizesStand, CountsStand;
    var file := Image(ix, hash);
    HoldingSize(m, ix.documents, pages, base, next, expand);
    HeaderOnDisk(ix, hash);
    forall t ensures t in m.Keys <==> AllTimes(pages, t, expand) > 0 { TermGiven(m, ix.documents, pages, base, next, expand, t); }
    SizesAre(file, pages, ix.totalLocations, expand, m.Keys);
    forall t | AllTimes(pages, t, expand) > 0 ensures TermCounted(file, ix, hash, pages, expand, t) {
      OneCounted(ix, m, hash, pages, base, next, expand, t);
    }
    BothStand(file, ix, hash, pages, base, expand);
  }

  lemma BothStand(file: seq<byte>, ix: Index, hash: Text -> uint64, pages: seq<Page>, base: nat, expand: Text -> seq<Text>)
    requires SizesStand(file, pages, LocationsEnd(pages, base, 0), expand)
    requires forall t :: AllTimes(pages, t, expand) > 0 ==> TermCounted(file, ix, hash, pages, expand, t)
    ensures CountsStand(file, ix, hash, pages, base, expand)
  {
    hide SizesStand, TermCounted, AllTimes, LocationsEnd;
  }

  lemma SizesAre(file: seq<byte>, pages: seq<Page>, total: nat, expand: Text -> seq<Text>, terms: set<Text>)
    requires (forall t :: t in terms <==> AllTimes(pages, t, expand) > 0) && HeaderStands(file, |pages|, total, |terms|)
    ensures SizesStand(file, pages, total, expand)
  {
    hide AllTimes, HeaderStands;
    assert AreTerms(terms, pages, expand);
  }

  lemma TermGiven(m: map<Text, PostingList>, docs: seq<DocumentRecord>, pages: seq<Page>, base: nat, next: nat, expand: Text -> seq<Text>, t: Text)
    requires Holding(m, docs, pages, base, next, expand) && Tallied(m, pages, expand)
    ensures t in m <==> AllTimes(pages, t, expand) > 0
  {
    hide AllTimes, Contiguous, StandsAt, Nondecreasing, Listed;
    assert |Listed(m, t)| == AllTimes(pages, t, expand);
  }

  lemma OneCounted(ix: Index, m: map<Text, PostingList>, hash: Text -> uint64, pages: seq<Page>, base: nat, next: nat,
                   expand: Text -> seq<Text>, t: Text)
    requires Writable(ix, hash) && ListsTerms(ix.postings, m) && AllTimes(pages, t, expand) > 0
    requires Holding(m, ix.documents, pages, base, next, expand) && Counted(m, ix.documents) && Tallied(m, pages, expand)
    ensures TermCounted(Image(ix, hash), ix, hash, pages, expand, t)
  {
    hide Writable, Image, Holding, AllTimes, PagesGiving, TermStands, DocCount;
    TermGiven(m, ix.documents, pages, base, next, expand, t);
    HoldingSize(m, ix.documents, pages, base, next, expand);
    var k :| 0 <= k < |ix.postings| && ix.postings[k].term == t;
    assert CountedTerm(m, ix.documents, t) && |Listed(m, t)| == AllTimes(pages, t, expand);
    CountIsPages(m, ix.documents, pages, base, next, expand, t, |pages|);
    assert pages[..|pages|] == pages;
    LocationsAre(ix, hash, k);
    TermOnDisk(ix, hash, k);
  }

  /** Indexes the pages and flushes them: the file of an index of just these pages. The location counter
      goes on from where the chunk before ended. */
  method WriteFile(tokenizer: Tokenizer, pages: seq<Page>, hash: Text -> uint64) returns (file: seq<byte>, ghost ix: Index)
    requires NoMarker(tokenizer.expand) && FitFile(pages, tokenizer.nextLocation, tokenizer.expand, hash)
    modifies tokenizer
    ensures FileOf(file, ix, hash, pages, tokenizer.expand)
    ensures ix.documents == Records(pages, old(tokenizer.nextLocation))
    ensures CountsStand(file, ix, hash, pages, old(tokenizer.nextLocation), tokenizer.expand)
    ensures tokenizer.nextLocation == old(tokenizer.nextLocation) + Needed(pages)
  {
    hide Holding, Counted, Writable, Image, NoMarker, Sized, Records, Needed, TokenCount, Tallied, CountsStand, LocationsEnd;
    ghost var base := tokenizer.nextLocation;
    var index := new InMemoryIndex();
    IndexPages(tokenizer, index, pages);
    var postings := ListTerms(index.index);
    var listed := Index(postings, index.documents, index.totalLocations);
    ListedLists(listed, index.index);
    assert ListsPages(listed, pages, base, tokenizer.expand);
    file := FlushIndexChunk(listed, hash);
    PagesCounted(listed, index.index, hash, pages, base, tokenizer.nextLocation, tokenizer.expand);
    ix := listed;
  }

  lemma ListedLists(ix: Index, m: map<Text, PostingList>)
    requires ListsTerms(ix.postings, m)
    ensures Lists(ix, m, ix.documents)
  {
  }

  /** Pages in, answer out: indexes and flushes body pages and anchor pages, opens the files, and searches
      them for any tokens. */
  method IndexAndSearch(bodyPages: seq<Page>, anchorPages: seq<Page>, bodyTokenizer: Tokenizer, anchorTokenizer: Tokenizer,
                        hash: Text -> uint64, scorer: DocumentRecord -> real, tokens: seq<Q.Token>, k: nat)
    returns (results: seq<TopK.Scored<nat>>, ghost bodyIx: Index, ghost anchorIx: Index)
    requires bodyTokenizer != anchorTokenizer && bodyTokenizer.expand == anchorTokenizer.expand && NoMarker(bodyTokenizer.expand)
    requires FitFile(bodyPages, bodyTokenizer.nextLocation, bodyTokenizer.expand, hash)
    requires FitFile(anchorPages, anchorTokenizer.nextLocation, anchorTokenizer.expand, hash)
    requires |anchorPages| == |bodyPages| && Plain(tokens) && |tokens| < TWO32 && k > 0
    modifies bodyTokenizer, anchorTokenizer
    ensures PagesIn(bodyIx, bodyPages, bodyTokenizer.expand) && PagesIn(anchorIx, anchorPages, bodyTokenizer.expand)
    ensures |bodyIx.documents| == |bodyPages|
    ensures var pages := SelectedPages(bodyIx, anchorIx, bodyPages, anchorPages, tokens, bodyTokenizer.expand);
      InRange(pages, bodyIx.documents) && TopK.IsTopK(results, multiset(Ranked(pages, bodyIx.documents, scorer)), k)
    ensures forall q :: SpelledAs(tokens, q, bodyIx, anchorIx) && Answerable(q, bodyIx, anchorIx) ==>
      var pages := MatchingPages(bodyPages, anchorPages, q, bodyTokenizer.expand);
      InRange(pages, bodyIx.documents) && TopK.IsTopK(results, multiset(Ranked(pages, bodyIx.documents, scorer)), k)
  {
    hide FitFile, Writable, Image, PagesIn, NoMarker, Plain, SpelledAs, Answerable, SelectedPages, MatchingPages, TopK.IsTopK, Ranked, Records, Needed, CountsStand;
    var bodyFile, anchorFile;
    bodyFile, bodyIx := WriteFile(bodyTokenizer, bodyPages, hash);
    anchorFile, anchorIx := WriteFile(anchorTokenizer, anchorPages, hash);
    results := SearchFiles(bodyFile, anchorFile, hash, scorer, tokens, k, bodyIx, anchorIx, bodyPages, anchorPages, bodyTokenizer.expand);
  }
}
