/** The chunk file: what the flusher writes (src/index/src/lib/chunk_flusher.cpp,
    disk_chunk_writer.cpp, types.h). */
module ChunkFormat {
  import opened Basics
  import opened Bytes
  import opened VByte
  import opened SeekTable
  import opened WordIterator
  import opened Layout

  const MAGIC: uint32 := 0x49445831
  const VERSION: uint32 := 2
  const HEADER_SIZE: nat := 64

  type uint16 = x: int | 0 <= x < 0x1_0000
  type uint64 = x: int | 0 <= x < 0x1_0000_0000_0000_0000

  datatype Features = Features(
    flags: byte, baseDomainLength: byte, urlLength: uint16, pathLength: uint16, pathDepth: byte,
    queryParamCount: byte, numericPathCharCount: byte, domainHyphenCount: byte,
    outgoingLinkCount: uint16, outgoingAnchorWordCount: uint16, rawTld: Text)

  datatype DocumentRecord = DocumentRecord(
    url: Text, startLocation: uint32, endLocation: uint32, wordCount: uint32,
    titleWordCount: uint16, seedDistance: byte, features: Features)

  datatype PostingList = PostingList(locations: seq<uint32>, docFrequency: uint32, collectionFrequency: uint64)

  datatype Posting = Posting(term: Text, list: PostingList)

  /** What is flushed: the terms in the order the hash map yields them, and the documents. */
  datatype Index = Index(postings: seq<Posting>, documents: seq<DocumentRecord>, totalLocations: uint64)

  datatype FileHeader = FileHeader(
    magic: uint32, version: uint32, numDocuments: uint32, totalLocations: uint64,
    numUniqueTerms: uint32, dictOffset: uint64, postingsOffset: uint64, doctableOffset: uint64,
    globalLocBase: uint64)

  /** One dictionary entry: a term and where its list starts behind the header. */
  datatype DictEntry = DictEntry(term: Text, postingOffset: nat, docFrequency: uint32, collectionFrequency: uint64)

  function SpanOf(doc: DocumentRecord): Span { Span(doc.startLocation, doc.endLocation) }

  function Spans(docs: seq<DocumentRecord>): (s: seq<Span>)
    ensures |s| == |docs| && forall d :: 0 <= d < |docs| ==> s[d] == SpanOf(docs[d])
  {
    seq(|docs|, d requires 0 <= d < |docs| => SpanOf(docs[d]))
  }

  // ---------------------------------------------------------------- structs and their fields

  const HEADER_WIDTHS: seq<nat> := [4, 4, 4, 4, 8, 4, 4, 8, 8, 8, 8]
  const POSTING_WIDTHS: seq<nat> := [4, 1, 3, 4]
  const BUCKET_WIDTHS: seq<nat> := [1, 3, 4, 2, 6, 8, 4, 4, 8]
  const RECORD_WIDTHS: seq<nat> := [4, 4, 4, 2, 1, 1, 1, 2, 2, 1, 1, 1, 1, 2, 2]

  function HeaderFields(h: FileHeader): seq<nat> {
    [h.magic, h.version, h.numDocuments, 0, h.totalLocations, h.numUniqueTerms, 0,
     h.dictOffset, h.postingsOffset, h.doctableOffset, h.globalLocBase]
  }

  function RecordFields(d: DocumentRecord): seq<nat> {
    [d.startLocation, d.endLocation, d.wordCount, d.titleWordCount, d.seedDistance,
     d.features.flags, d.features.baseDomainLength, d.features.urlLength, d.features.pathLength,
     d.features.pathDepth, d.features.queryParamCount, d.features.numericPathCharCount,
     d.features.domainHyphenCount, d.features.outgoingLinkCount, d.features.outgoingAnchorWordCount]
  }

  function EntryFields(e: DictEntry): seq<nat> {
    [1, 0, 0, |e.term| % 0x1_0000, 0, e.postingOffset, e.docFrequency, 0, e.collectionFrequency]
  }

  const SENTINEL_FIELDS: seq<nat> := [0, 0, 0, 0, 0, 0, 0, 0, 0]

  lemma HeaderSize()
    ensures Total(HEADER_WIDTHS) == HEADER_SIZE
  {
  }

  lemma PostingHeaderSize()
    ensures Total(POSTING_WIDTHS) == 12
  {
  }

  lemma BucketSize()
    ensures Total(BUCKET_WIDTHS) == 40
  {
  }

  lemma RecordSize()
    ensures Total(RECORD_WIDTHS) == 29
  {
    assert RECORD_WIDTHS == [4, 4, 4, 2, 1, 1] + [1, 2, 2, 1, 1] + [1, 1, 2, 2];
    TotalSplit([4, 4, 4, 2, 1, 1] + [1, 2, 2, 1, 1], [1, 1, 2, 2]);
    TotalSplit([4, 4, 4, 2, 1, 1], [1, 2, 2, 1, 1]);
  }

  lemma HeaderFits(h: FileHeader)
    ensures Fit(HEADER_WIDTHS, HeaderFields(h))
  {
    Powers();
  }

  lemma RecordFits(d: DocumentRecord)
    ensures Fit(RECORD_WIDTHS, RecordFields(d))
  {
    Powers();
  }

  lemma EntryFieldsFit(e: DictEntry)
    requires e.postingOffset < TWO64
    ensures Fit(BUCKET_WIDTHS, EntryFields(e))
  {
    Powers();
  }

  lemma SentinelFits()
    ensures Fit(BUCKET_WIDTHS, SENTINEL_FIELDS)
  {
    Powers();
  }

  function HeaderImage(h: FileHeader): (s: seq<byte>)
    ensures |s| == HEADER_SIZE
  {
    HeaderSize();
    Pack(HEADER_WIDTHS, HeaderFields(h))
  }

  function FixedImage(d: DocumentRecord): (s: seq<byte>)
    ensures |s| == 29
  {
    RecordSize();
    Pack(RECORD_WIDTHS, RecordFields(d))
  }

  function BucketImage(e: DictEntry): (s: seq<byte>)
    ensures |s| == 40
  {
    BucketSize();
    Pack(BUCKET_WIDTHS, EntryFields(e))
  }

  function SentinelImage(): (s: seq<byte>)
    ensures |s| == 40
  {
    BucketSize();
    Pack(BUCKET_WIDTHS, SENTINEL_FIELDS)
  }

  function PostingHeader(postings: nat, hasTable: bool, dataSize: nat): (s: seq<byte>)
    ensures |s| == 12
  {
    PostingHeaderSize();
    Pack(POSTING_WIDTHS, [postings, if hasTable then 1 else 0, 0, dataSize])
  }

  // ---------------------------------------------------------------- the image of each part

  ghost function TableOf(L: seq<uint32>): (t: seq<Entry>)
    requires Small(L)
    ensures IsTable(t, L, |L|)
  {
    seq(ENTRY_COUNT, b requires 0 <= b < ENTRY_COUNT => Slot(L, |L|, b))
  }

  ghost function TableImage(L: seq<uint32>): seq<byte>
    requires Small(L)
  {
    if ShouldBuild(|L|) then Serialized(TableOf(L)) else []
  }

  ghost function PostingImage(L: seq<uint32>): seq<byte>
    requires Small(L)
  {
    PostingHeader(|L|, ShouldBuild(|L|), |Stream(L)|) + (TableImage(L) + Stream(L))
  }

  ghost predicate AllSmall(ps: seq<Posting>) {
    forall k :: 0 <= k < |ps| ==> IsPostingList(ps[k].list.locations)
  }

  ghost function PostingsImage(ps: seq<Posting>): seq<byte>
    requires AllSmall(ps)
  {
    if ps == [] then []
    else PostingsImage(ps[..|ps| - 1]) + PostingImage(ps[|ps| - 1].list.locations)
  }

  /** A 16-bit length and that many bytes; a longer string is cut. */
  function Text16(s: Text): seq<byte> {
    Little(|s| % 0x1_0000, 2) + s[..|s| % 0x1_0000]
  }

  function RecordImage(d: DocumentRecord): seq<byte> {
    Text16(d.url) + (Text16(d.features.rawTld) + FixedImage(d))
  }

  function RecordsImage(docs: seq<DocumentRecord>): seq<byte> {
    if docs == [] then [] else RecordsImage(docs[..|docs| - 1]) + RecordImage(docs[|docs| - 1])
  }

  /** Record i as an offset from the start of the document table. */
  function RecordOffset(docs: seq<DocumentRecord>, i: nat): nat
    requires i <= |docs|
  {
    4 + 8 * |docs| + |RecordsImage(docs[..i])|
  }

  function RecordOffsets(docs: seq<DocumentRecord>): (o: seq<nat>)
    ensures |o| == |docs|
  {
    seq(|docs|, i requires 0 <= i < |docs| => RecordOffset(docs, i))
  }

  function DocTableImage(docs: seq<DocumentRecord>): seq<byte> {
    Little(|docs| % TWO32, 4) + Words(RecordOffsets(docs)) + RecordsImage(docs)
  }

  function EntryImage(e: DictEntry): seq<byte> {
    BucketImage(e) + e.term[..|e.term| % 0x1_0000]
  }

  /** The entries of one bucket and the unoccupied entry that ends the chain. */
  function ChainImage(es: seq<DictEntry>): seq<byte> {
    if es == [] then SentinelImage() else EntryImage(es[0]) + ChainImage(es[1..])
  }

  function ChainsImage(buckets: seq<seq<DictEntry>>): seq<byte> {
    if buckets == [] then []
    else
      var last := buckets[|buckets| - 1];
      ChainsImage(buckets[..|buckets| - 1]) + if last == [] then [] else ChainImage(last)
  }

  /** The chain of bucket i as an offset from the start of the dictionary; 0 for an empty bucket. */
  function ChainOffset(buckets: seq<seq<DictEntry>>, i: nat): nat
    requires i < |buckets|
  {
    if buckets[i] == [] then 0 else 8 + 8 * |buckets| + |ChainsImage(buckets[..i])|
  }

  function ChainOffsets(buckets: seq<seq<DictEntry>>): (o: seq<nat>)
    ensures |o| == |buckets|
  {
    seq(|buckets|, i requires 0 <= i < |buckets| => ChainOffset(buckets, i))
  }

  function DictImage(buckets: seq<seq<DictEntry>>): seq<byte> {
    Little(|buckets|, 8) + Words(ChainOffsets(buckets)) + ChainsImage(buckets)
  }

  // ---------------------------------------------------------------- the whole file

  ghost function EntryOf(ps: seq<Posting>, k: nat): DictEntry
    requires AllSmall(ps) && k < |ps|
  {
    var p := ps[k];
    DictEntry(p.term, |PostingsImage(ps[..k])|, p.list.docFrequency, p.list.collectionFrequency)
  }

  /** The entries of bucket b among the first n terms, in writing order. */
  ghost function Chain(ps: seq<Posting>, n: nat, b: nat, buckets: nat, hash: Text -> uint64): seq<DictEntry>
    requires AllSmall(ps) && n <= |ps| && buckets > 0
  {
    if n == 0 then []
    else if hash(ps[n - 1].term) % buckets == b then Chain(ps, n - 1, b, buckets, hash) + [EntryOf(ps, n - 1)]
    else Chain(ps, n - 1, b, buckets, hash)
  }

  function BucketCount(terms: nat): (n: nat)
    ensures n > 0
  {
    Max(1, terms * 3 / 2)
  }

  ghost function Buckets(ps: seq<Posting>, n: nat, hash: Text -> uint64): (s: seq<seq<DictEntry>>)
    requires AllSmall(ps) && n <= |ps|
    ensures |s| == BucketCount(|ps|)
  {
    var count := BucketCount(|ps|);
    seq(count, b requires 0 <= b < count => Chain(ps, n, b, count, hash))
  }

  ghost function DoctableOffset(ix: Index): nat
    requires AllSmall(ix.postings)
  {
    HEADER_SIZE + |PostingsImage(ix.postings)|
  }

  ghost function DictOffset(ix: Index): nat
    requires AllSmall(ix.postings)
  {
    DoctableOffset(ix) + |DocTableImage(ix.documents)|
  }

  ghost function Body(ix: Index, hash: Text -> uint64): seq<byte>
    requires AllSmall(ix.postings)
  {
    PostingsImage(ix.postings) + (DocTableImage(ix.documents) + DictImage(Buckets(ix.postings, |ix.postings|, hash)))
  }

  /** What the counts and offsets of the header need to fit their fields, and strings theirs. */
  ghost predicate Writable(ix: Index, hash: Text -> uint64) {
    && AllSmall(ix.postings)
    && HEADER_SIZE + |Body(ix, hash)| < TWO64
    && |ix.documents| < TWO32 && |ix.postings| < TWO32
    && (forall k :: 0 <= k < |ix.postings| ==> |ix.postings[k].term| < 0x1_0000)
    && (forall i :: 0 <= i < |ix.documents| ==>
          |ix.documents[i].url| < 0x1_0000 && |ix.documents[i].features.rawTld| < 0x1_0000)
    && (forall j, k :: 0 <= j < k < |ix.postings| ==> ix.postings[j].term != ix.postings[k].term)
  }

  ghost function HeaderOf(ix: Index, hash: Text -> uint64): FileHeader
    requires Writable(ix, hash)
  {
    OffsetsFit(ix, hash);
    FileHeader(MAGIC, VERSION, |ix.documents|, ix.totalLocations, |ix.postings|, DictOffset(ix), HEADER_SIZE,
               DoctableOffset(ix), 0)
  }

  lemma OffsetsFit(ix: Index, hash: Text -> uint64)
    requires AllSmall(ix.postings) && HEADER_SIZE + |Body(ix, hash)| < TWO64
    ensures DoctableOffset(ix) <= DictOffset(ix) < TWO64
  {
    hide PostingsImage, DocTableImage, DictImage, Buckets;
  }

  ghost function Image(ix: Index, hash: Text -> uint64): seq<byte>
    requires Writable(ix, hash)
  {
    HeaderImage(HeaderOf(ix, hash)) + Body(ix, hash)
  }
}
