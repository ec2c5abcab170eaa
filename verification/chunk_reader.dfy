/** Reading a chunk file back: documents by number or location, and an iterator for a term
    (src/index/src/lib/disk_chunk_reader.cpp, buffer_reader.h). */
module ChunkReader {
  import opened Basics
  import opened Bytes
  import opened VByte
  import opened SeekTable
  import opened WordIterator
  import opened Layout
  import opened ChunkFormat

  // ---------------------------------------------------------------- where the parts are

  lemma PartsHeld(ix: Index, hash: Text -> uint64)
    requires Writable(ix, hash)
    ensures var data := Image(ix, hash);
      && Holds(data, 0, HeaderImage(HeaderOf(ix, hash)))
      && Holds(data, HEADER_SIZE, PostingsImage(ix.postings))
      && Holds(data, DoctableOffset(ix), DocTableImage(ix.documents))
      && Holds(data, DictOffset(ix), DictImage(Buckets(ix.postings, |ix.postings|, hash)))
  {
    hide HeaderImage, PostingsImage, DocTableImage, DictImage, Buckets, Writable;
    assert AllSmall(ix.postings) by { WritableSmall(ix, hash); }
    var h, p, d, k := HeaderImage(HeaderOf(ix, hash)), PostingsImage(ix.postings),
      DocTableImage(ix.documents), DictImage(Buckets(ix.postings, |ix.postings|, hash));
    var data := Image(ix, hash);
    assert data == h + (p + (d + k));
    HoldsParts(data, 0, h, p + (d + k));
    HoldsParts(data, |h|, p, d + k);
    HoldsParts(data, |h| + |p|, d, k);
  }

  lemma WritableSmall(ix: Index, hash: Text -> uint64)
    requires Writable(ix, hash)
    ensures AllSmall(ix.postings)
  {
  }

  lemma HoldsNested(data: seq<byte>, pos: nat, s: seq<byte>, off: nat, w: seq<byte>)
    requires Holds(data, pos, s) && Holds(s, off, w)
    ensures Holds(data, pos + off, w)
  {
    HoldsSlice(data, pos, s, off, off + |w|);
  }

  lemma HoldsPrefixed(s: seq<byte>, front: seq<byte>, w: seq<byte>)
    requires front + w <= s
    ensures Holds(s, |front|, w)
  {
    assert s[..|front| + |w|] == front + w;
  }

  lemma {:induction false} RecordsPrefix(docs: seq<DocumentRecord>, i: nat)
    requires i <= |docs|
    ensures RecordsImage(docs[..i]) <= RecordsImage(docs)
    decreases |docs| - i
  {
    hide RecordImage;
    if i == |docs| {
      assert docs[..i] == docs;
    } else {
      RecordsPrefix(docs, i + 1);
      assert docs[..i + 1][..i] == docs[..i];
    }
  }

  lemma RecordHeld(docs: seq<DocumentRecord>, i: nat)
    requires i < |docs|
    ensures Holds(RecordsImage(docs), |RecordsImage(docs[..i])|, RecordImage(docs[i]))
  {
    hide RecordImage;
    RecordsPrefix(docs, i + 1);
    assert docs[..i + 1][..i] == docs[..i];
    HoldsPrefixed(RecordsImage(docs), RecordsImage(docs[..i]), RecordImage(docs[i]));
  }

  lemma {:induction false} PostingsPrefix(ps: seq<Posting>, k: nat)
    requires AllSmall(ps) && k <= |ps|
    ensures PostingsImage(ps[..k]) <= PostingsImage(ps)
    decreases |ps| - k
  {
    hide PostingImage, IsPostingList;
    if k == |ps| {
      assert ps[..k] == ps;
    } else {
      PostingsPrefix(ps, k + 1);
      assert ps[..k + 1][..k] == ps[..k];
    }
  }

  lemma ListSmall(ps: seq<Posting>, k: nat)
    requires AllSmall(ps) && k < |ps|
    ensures IsPostingList(ps[k].list.locations) && Small(ps[k].list.locations)
  {
  }

  lemma PrefixSmall(ps: seq<Posting>, k: nat)
    requires AllSmall(ps) && k <= |ps|
    ensures AllSmall(ps[..k])
  {
  }

  lemma PostingHeld(ps: seq<Posting>, k: nat)
    requires AllSmall(ps) && k < |ps|
    ensures Holds(PostingsImage(ps), |PostingsImage(ps[..k])|, PostingImage(ps[k].list.locations))
  {
    hide PostingImage, IsPostingList;
    PostingsPrefix(ps, k + 1);
    assert ps[..k + 1][..k] == ps[..k];
    ListSmall(ps, k);
    HoldsPrefixed(PostingsImage(ps), PostingsImage(ps[..k]), PostingImage(ps[k].list.locations));
  }

  lemma {:induction false} ChainsPrefix(buckets: seq<seq<DictEntry>>, i: nat)
    requires i <= |buckets|
    ensures ChainsImage(buckets[..i]) <= ChainsImage(buckets)
    decreases |buckets| - i
  {
    hide ChainImage;
    if i == |buckets| {
      assert buckets[..i] == buckets;
    } else {
      ChainsPrefix(buckets, i + 1);
      assert buckets[..i + 1][..i] == buckets[..i];
    }
  }

  lemma ChainHeld(buckets: seq<seq<DictEntry>>, i: nat)
    requires i < |buckets| && buckets[i] != []
    ensures Holds(ChainsImage(buckets), |ChainsImage(buckets[..i])|, ChainImage(buckets[i]))
  {
    hide ChainImage;
    ChainsPrefix(buckets, i + 1);
    assert buckets[..i + 1][..i] == buckets[..i];
    HoldsPrefixed(ChainsImage(buckets), ChainsImage(buckets[..i]), ChainImage(buckets[i]));
  }

  /** Three consecutive parts of a run. */
  lemma ThreeParts(data: seq<byte>, pos: nat, a: seq<byte>, b: seq<byte>, c: seq<byte>)
    requires Holds(data, pos, a + b + c)
    ensures Holds(data, pos, a) && Holds(data, pos + |a|, b) && Holds(data, pos + |a| + |b|, c)
  {
    HoldsParts(data, pos, a + b, c);
    HoldsParts(data, pos, a, b);
  }

  // ---------------------------------------------------------------- chains and terms

  /** Every entry of a chain belongs to a term of that bucket. */
  lemma {:induction false} ChainSound(ps: seq<Posting>, n: nat, b: nat, count: nat, hash: Text -> uint64, j: nat)
    requires AllSmall(ps) && n <= |ps| && count > 0
    requires j < |Chain(ps, n, b, count, hash)|
    ensures exists k :: 0 <= k < n && Chain(ps, n, b, count, hash)[j] == EntryOf(ps, k)
  {
    hide EntryOf;
    if n > 0 && j < |Chain(ps, n - 1, b, count, hash)| {
      ChainSound(ps, n - 1, b, count, hash, j);
    }
  }

  /** Every term of a bucket has its entry in the chain. */
  lemma {:induction false} ChainComplete(ps: seq<Posting>, n: nat, count: nat, hash: Text -> uint64, k: nat)
    requires AllSmall(ps) && k < n <= |ps| && count > 0
    ensures EntryOf(ps, k) in Chain(ps, n, hash(ps[k].term) % count, count, hash)
  {
    hide EntryOf;
    if k < n - 1 {
      ChainComplete(ps, n - 1, count, hash, k);
    }
  }

  /** The chain of bucket b as written. */
  ghost function BucketChain(ix: Index, hash: Text -> uint64, b: nat): seq<DictEntry>
    requires AllSmall(ix.postings) && b < BucketCount(|ix.postings|)
  {
    Buckets(ix.postings, |ix.postings|, hash)[b]
  }

  /** Text and offset of each entry fit their fields. */
  ghost predicate Short(es: seq<DictEntry>) {
    forall j :: 0 <= j < |es| ==> |es[j].term| < 0x1_0000 && es[j].postingOffset < TWO64
  }

  ghost predicate HasTerm(ix: Index, term: Text) {
    exists k :: 0 <= k < |ix.postings| && ix.postings[k].term == term
  }

  /** The locations of a term; none when it is not indexed. */
  ghost function LocationsOf(ix: Index, term: Text): seq<uint32> {
    if HasTerm(ix, term) then
      var k :| 0 <= k < |ix.postings| && ix.postings[k].term == term;
      ix.postings[k].list.locations
    else []
  }

  lemma LocationsAre(ix: Index, hash: Text -> uint64, k: nat)
    requires Writable(ix, hash) && k < |ix.postings|
    ensures LocationsOf(ix, ix.postings[k].term) == ix.postings[k].list.locations
  {
    hide AllSmall, Body;
    assert HasTerm(ix, ix.postings[k].term);
    var j :| 0 <= j < |ix.postings| && ix.postings[j].term == ix.postings[k].term;
    assert j == k;
  }

  // ---------------------------------------------------------------- reading records

  method ReadText16(data: seq<byte>, pos: nat, ghost s: Text) returns (r: Text, next: nat)
    requires Holds(data, pos, Text16(s)) && |s| < 0x1_0000
    ensures r == s && next == pos + 2 + |s|
  {
    hide Little, FromLittle;
    HoldsParts(data, pos, Little(|s|, 2), s);
    Powers();
    LittleRoundTrip(|s|, 2);
    var len := FromLittle(data[pos..pos + 2]);
    next := pos + 2 + len;
    r := data[pos + 2..next];
  }

  lemma UnpackFits(widths: seq<nat>, s: seq<byte>)
    requires Total(widths) <= |s|
    ensures Fit(widths, Unpack(widths, s))
  {
    if widths != [] {
      LittleFits(s[..widths[0]]);
      UnpackFits(widths[1..], s[widths[0]..]);
    }
  }

  lemma {:induction false} LittleFits(s: seq<byte>)
    ensures FromLittle(s) < Pow256(|s|)
  {
    if s != [] { LittleFits(s[1..]); }
  }

  method ReadRecord(data: seq<byte>, pos: nat, ghost d: DocumentRecord) returns (r: DocumentRecord, next: nat)
    requires Holds(data, pos, RecordImage(d)) && |d.url| < 0x1_0000 && |d.features.rawTld| < 0x1_0000
    ensures r == d && next == pos + |RecordImage(d)|
  {
    hide Text16, FixedImage;
    HoldsParts(data, pos, Text16(d.url), Text16(d.features.rawTld) + FixedImage(d));
    Text16Size(d.url);
    Text16Size(d.features.rawTld);
    HoldsParts(data, pos + |Text16(d.url)|, Text16(d.features.rawTld), FixedImage(d));
    var url, afterUrl := ReadText16(data, pos, d.url);
    var rawTld, afterTld := ReadText16(data, afterUrl, d.features.rawTld);
    var f := ReadFixed(data, afterTld, d);
    r := DocumentRecord(url, f[0], f[1], f[2], f[3], f[4],
                        Features(f[5], f[6], f[7], f[8], f[9], f[10], f[11], f[12], f[13], f[14], rawTld));
    next := afterTld + 29;
  }

  lemma Text16Size(s: Text)
    requires |s| < 0x1_0000
    ensures |Text16(s)| == 2 + |s|
  {
  }

  method ReadFixed(data: seq<byte>, pos: nat, ghost d: DocumentRecord) returns (f: seq<nat>)
    requires Holds(data, pos, FixedImage(d))
    ensures f == RecordFields(d)
  {
    hide Pack, Unpack, RecordFields, Fit;
    RecordSize();
    RecordFits(d);
    HeldStruct(data, pos, RECORD_WIDTHS, RecordFields(d));
    f := Unpack(RECORD_WIDTHS, data[pos..]);
  }

  /** Document d is the first whose span covers the location. */
  ghost predicate IsFirstCover(docs: seq<DocumentRecord>, d: nat, location: nat) {
    && InDoc(Spans(docs), d, location)
    && forall c :: 0 <= c < d ==> !InDoc(Spans(docs), c, location)
  }

  // ---------------------------------------------------------------- the reader

  class DiskChunkReader {
    const data: seq<byte>
    const header: FileHeader
    const hash: Text -> uint64

    /** The index the file was flushed from. */
    ghost const index: Index

    ghost predicate Valid() {
      Writable(index, hash) && data == Image(index, hash) && header == HeaderOf(index, hash)
    }

    constructor (data: seq<byte>, header: FileHeader, hash: Text -> uint64, ghost index: Index)
      ensures this.data == data && this.header == header && this.hash == hash && this.index == index
    {
      this.data, this.header, this.hash, this.index := data, header, hash, index;
    }

    /** Checks size, magic number and version; a flushed file opens as the index it came from. */
    static method Open(file: seq<byte>, hash: Text -> uint64, ghost index: Index) returns (r: Result<DiskChunkReader>)
      ensures |file| < HEADER_SIZE <==> r == Err(TooSmall)
      ensures r == Err(BadMagic) <==> |file| >= HEADER_SIZE && FromLittle(file[..4]) != MAGIC
      ensures r == Err(BadVersion) <==> |file| >= HEADER_SIZE && FromLittle(file[..4]) == MAGIC && FromLittle(file[4..8]) != VERSION
      ensures r.Ok? <==> |file| >= HEADER_SIZE && FromLittle(file[..4]) == MAGIC && FromLittle(file[4..8]) == VERSION
      ensures r.Ok? ==> fresh(r.value) && r.value.data == file && r.value.hash == hash && r.value.index == index
      ensures Writable(index, hash) && file == Image(index, hash) ==> r.Ok? && r.value.Valid()
    {
      hide Unpack, HeaderFields, Writable, Image, HeaderOf, Fit, FromLittle, Little;
      if Writable(index, hash) && file == Image(index, hash) {
        HeaderReads(index, hash);
      }
      if |file| < HEADER_SIZE {
        return Err(TooSmall);
      }
      HeaderSize();
      UnpackFits(HEADER_WIDTHS, file);
      var f := Unpack(HEADER_WIDTHS, file);
      HeaderRanges(f);
      FirstFields(file);
      if f[0] != MAGIC {
        return Err(BadMagic);
      }
      if f[1] != VERSION {
        return Err(BadVersion);
      }
      var h := FileHeader(f[0], f[1], f[2], f[4], f[5], f[7], f[8], f[9], f[10]);
      var reader := new DiskChunkReader(file, h, hash, index);
      return Ok(reader);
    }

    method GetDocument(docId: uint32) returns (r: Option<DocumentRecord>)
      requires Valid()
      ensures r == if docId < |index.documents| then Some(index.documents[docId]) else None
    {
      hide Image, RecordImage, Words, RecordsImage, RecordOffsets, WordAt, PostingsImage, Buckets, DictImage, Little, Body;
      ghost var docs := index.documents;
      if docId >= header.numDocuments {
        return None;
      }
      RecordAt(index, hash, docId);
      var offset := WordAt(data, header.doctableOffset + 4 + 8 * docId);
      var doc, _ := ReadRecord(data, header.doctableOffset + offset, docs[docId]);
      return Some(doc);
    }

    /** Scans the records for the first document whose span covers the location. */
    method GetDocumentByLocation(location: uint32) returns (r: Option<DocumentRecord>)
      requires Valid()
      ensures r.None? ==> forall d :: 0 <= d < |index.documents| ==> !InDoc(Spans(index.documents), d, location)
      ensures r.Some? ==> exists d: nat :: IsFirstCover(index.documents, d, location) && r.value == index.documents[d]
    {
      hide Image, RecordImage, RecordsImage, Writable, HeaderOf, DoctableOffset, Body, RecordOffsets;
      ghost var docs := index.documents;
      HeaderMarks(index, hash);
      WritableSmall(index, hash);
      RecordsStart(index, hash);
      var pos := header.doctableOffset + 4 + 8 * header.numDocuments;
      for i := 0 to header.numDocuments
        invariant pos == DoctableOffset(index) + RecordOffset(docs, i)
        invariant forall c :: 0 <= c < i ==> !InDoc(Spans(docs), c, location)
      {
        RecordNext(index, hash, i);
        var doc;
        doc, pos := ReadRecord(data, pos, docs[i]);
        if location >= doc.startLocation && location <= doc.endLocation {
          assert IsFirstCover(docs, i, location);
          return Some(doc);
        }
      }
      return None;
    }

    /** Follows the chain of the term's bucket. For an indexed term, gives a fresh iterator at the
        first posting of its list; for any other, nothing. */
    method CreateIsr(term: Text) returns (r: Option<IsrWord>)
      requires Valid()
      ensures r.Some? <==> HasTerm(index, term)
      ensures r.Some? ==> fresh(r.value) && r.value.Valid() && r.value.At() == 0
      ensures r.Some? ==> r.value.list == LocationsOf(index, term) && r.value.docs == Spans(index.documents)
    {
      hide Image, Writable, HeaderOf, DictOffset, DoctableOffset, Body, BucketChain, WordAt, ChainImage, HasTerm, Unpack, AllSmall, Short;
      WritableSmall(index, hash);
      HeaderMarks(index, hash);
      DictStart(index, hash);
      var dict := header.dictOffset;
      var count := WordAt(data, dict);
      if count == 0 {
        return None;
      }
      var b := hash(term) % count;
      BucketAt(index, hash, b);
      ghost var es := BucketChain(index, hash, b);
      ChainShort(index, hash, b);
      var chainOffset := WordAt(data, dict + 8 + 8 * b);
      if chainOffset == 0 {
        NotInChain(index, hash, term);
        return None;
      }
      var pos: nat := dict + chainOffset;
      ghost var j: nat := 0;
      assert es[0..] == es;
      while true
        invariant 0 <= j <= |es| && Holds(data, pos, ChainImage(es[j..]))
        invariant forall i :: 0 <= i < j ==> es[i].term != term
        decreases |es| - j
      {
        EntryReads(data, pos, es, j);
        var f := Unpack(BUCKET_WIDTHS, data[pos..]);
        if f[0] == 0 {
          break;
        }
        var text := data[pos + 40..pos + 40 + f[3]];
        pos := pos + 40 + f[3];
        if text == term {
          FoundInChain(index, hash, term, b, j);
          var w := OpenPosting(header.postingsOffset + f[5], LocationsOf(index, term));
          return Some(w);
        }
        j := j + 1;
      }
      NotInChain(index, hash, term);
      return None;
    }

    /** Reads a posting header and, for a long list, the seek table. */
    method OpenPosting(pos: nat, ghost list: seq<uint32>) returns (w: IsrWord)
      requires IsPostingList(list) && Holds(data, pos, PostingImage(list))
      ensures fresh(w) && w.Valid() && w.At() == 0
      ensures w.list == list && w.docs == Spans(index.documents)
    {
      hide Stream, IsTable, Slot, Nondecreasing, Serialized, Restored, Unpack;
      PostingReads(data, pos, list);
      var f := Unpack(POSTING_WIDTHS, data[pos..]);
      var at := pos + 12;
      if f[1] != 0 {
        var bytes := data[at..at + SERIALIZED_SIZE];
        at := at + SERIALIZED_SIZE;
        var table := Deserialize(bytes, data[at..], f[3], f[0], list, TableOf(list));
        RestoredSafe(table.value, list);
        w := new IsrWord(data[at..], f[0], Some(table.value), list, Spans(index.documents));
      } else {
        w := new IsrWord(data[at..], f[0], None, list, Spans(index.documents));
      }
    }
  }

  lemma PostingReads(data: seq<byte>, pos: nat, L: seq<uint32>)
    requires IsPostingList(L) && Holds(data, pos, PostingImage(L))
    ensures pos + 12 <= |data| && Total(POSTING_WIDTHS) == 12
    ensures var f := Unpack(POSTING_WIDTHS, data[pos..]);
      && f == [|L|, if ShouldBuild(|L|) then 1 else 0, 0, |Stream(L)|]
      && |L| < TWO32
      && if ShouldBuild(|L|) then
           && pos + 12 + SERIALIZED_SIZE <= |data|
           && data[pos + 12..pos + 12 + SERIALIZED_SIZE] == Serialized(TableOf(L))
           && Encodes(data[pos + 12 + SERIALIZED_SIZE..], L)
         else Encodes(data[pos + 12..], L)
  {
    hide Stream, Serialized, Unpack, Nondecreasing, Pack, TableOf;
    StreamSize(L);
    PostingHeaderSize();
    var fields := [|L|, if ShouldBuild(|L|) then 1 else 0, 0, |Stream(L)|];
    Powers();
    HoldsParts(data, pos, Pack(POSTING_WIDTHS, fields), TableImage(L) + Stream(L));
    HeldStruct(data, pos, POSTING_WIDTHS, fields);
    HoldsParts(data, pos + 12, TableImage(L), Stream(L));
    EncodesHeld(data, pos + 12 + |TableImage(L)|, L);
  }

  lemma EncodesHeld(data: seq<byte>, pos: nat, L: seq<uint32>)
    requires Holds(data, pos, Stream(L))
    ensures Encodes(data[pos..], L)
  {
    hide Stream;
  }

  // ---------------------------------------------------------------- facts about the dictionary

  lemma DictStart(ix: Index, hash: Text -> uint64)
    requires Writable(ix, hash)
    ensures var data, dict := Image(ix, hash), DictOffset(ix);
      dict + 8 <= |data| && WordAt(data, dict) == BucketCount(|ix.postings|)
  {
    hide Image, Words, ChainsImage, PostingsImage, Buckets, Little, WordAt, DictOffset, AllSmall, Holds, DocTableImage, HeaderImage, DoctableOffset;
    var data, dict := Image(ix, hash), DictOffset(ix);
    var buckets := Buckets(ix.postings, |ix.postings|, hash);
    PartsHeld(ix, hash);
    ThreeParts(data, dict, Little(|buckets|, 8), Words(ChainOffsets(buckets)), ChainsImage(buckets));
    HeldOneWord(data, dict, |buckets|);
  }

  /** The offset array of the dictionary leads to the chain of each bucket that has one. */
  lemma BucketAt(ix: Index, hash: Text -> uint64, b: nat)
    requires Writable(ix, hash) && b < BucketCount(|ix.postings|)
    ensures var data, dict, es := Image(ix, hash), DictOffset(ix), BucketChain(ix, hash, b);
      && dict + 8 + 8 * b + 8 <= |data|
      && var offset := WordAt(data, dict + 8 + 8 * b);
         && (offset == 0 <==> es == [])
         && (offset != 0 ==> Holds(data, dict + offset, ChainImage(es)))
  {
    hide Image, Words, ChainsImage, ChainImage, PostingsImage, Buckets, Little, DictOffset, DoctableOffset, AllSmall, WordAt, Holds, DocTableImage, HeaderImage, Body;
    var data, dict := Image(ix, hash), DictOffset(ix);
    var buckets := Buckets(ix.postings, |ix.postings|, hash);
    PartsHeld(ix, hash);
    ThreeParts(data, dict, Little(|buckets|, 8), Words(ChainOffsets(buckets)), ChainsImage(buckets));
    ChainInFile(ix, hash, b);
    HeldWord(data, dict + 8, ChainOffsets(buckets), b);
    if buckets[b] != [] {
      ChainHeld(buckets, b);
      HoldsNested(data, dict + 8 + 8 * |buckets|, ChainsImage(buckets), |ChainsImage(buckets[..b])|, ChainImage(buckets[b]));
    }
  }

  lemma ChainInFile(ix: Index, hash: Text -> uint64, b: nat)
    requires Writable(ix, hash) && b < BucketCount(|ix.postings|)
    ensures ChainOffset(Buckets(ix.postings, |ix.postings|, hash), b) < TWO64
  {
    hide PostingsImage, Buckets, ChainsImage, DocTableImage, Little, Words;
    ChainsPrefix(Buckets(ix.postings, |ix.postings|, hash), b);
  }

  lemma EntryReads(data: seq<byte>, pos: nat, es: seq<DictEntry>, j: nat)
    requires Short(es) && j <= |es| && Holds(data, pos, ChainImage(es[j..]))
    ensures pos + 40 <= |data| && Total(BUCKET_WIDTHS) == 40
    ensures var f := Unpack(BUCKET_WIDTHS, data[pos..]);
      && (f[0] == 0 <==> j == |es|)
      && (j < |es| ==>
           && pos + 40 + f[3] <= |data|
           && data[pos + 40..pos + 40 + f[3]] == es[j].term
           && f[5] == es[j].postingOffset
           && Holds(data, pos + 40 + f[3], ChainImage(es[j + 1..])))
  {
    hide Unpack, Pack, BucketImage, SentinelImage;
    BucketSize();
    if j == |es| {
      SentinelReads(data, pos);
    } else {
      var e := es[j];
      assert es[j..][1..] == es[j + 1..];
      HoldsParts(data, pos, EntryImage(e), ChainImage(es[j + 1..]));
      HoldsParts(data, pos, BucketImage(e), e.term);
      BucketReads(data, pos, e);
    }
  }

  lemma SentinelReads(data: seq<byte>, pos: nat)
    requires Holds(data, pos, SentinelImage())
    ensures Total(BUCKET_WIDTHS) == 40 && Unpack(BUCKET_WIDTHS, data[pos..])[0] == 0
  {
    hide Unpack, Pack, Fit;
    BucketSize();
    SentinelFits();
    HeldStruct(data, pos, BUCKET_WIDTHS, SENTINEL_FIELDS);
  }

  lemma BucketReads(data: seq<byte>, pos: nat, e: DictEntry)
    requires Holds(data, pos, BucketImage(e)) && e.postingOffset < TWO64
    ensures Total(BUCKET_WIDTHS) == 40 && Unpack(BUCKET_WIDTHS, data[pos..]) == EntryFields(e)
  {
    hide Unpack, Pack, Fit;
    BucketSize();
    EntryFieldsFit(e);
    HeldStruct(data, pos, BUCKET_WIDTHS, EntryFields(e));
  }

  lemma ChainTerm(ix: Index, hash: Text -> uint64, b: nat, j: nat) returns (k: nat)
    requires AllSmall(ix.postings) && b < BucketCount(|ix.postings|)
    requires j < |BucketChain(ix, hash, b)|
    ensures k < |ix.postings| && BucketChain(ix, hash, b)[j] == EntryOf(ix.postings, k)
  {
    hide AllSmall, Chain, EntryOf;
    ChainSound(ix.postings, |ix.postings|, b, BucketCount(|ix.postings|), hash, j);
    k :| 0 <= k < |ix.postings| && Buckets(ix.postings, |ix.postings|, hash)[b][j] == EntryOf(ix.postings, k);
  }

  lemma ChainShort(ix: Index, hash: Text -> uint64, b: nat)
    requires Writable(ix, hash) && b < BucketCount(|ix.postings|)
    ensures Short(BucketChain(ix, hash, b))
  {
    hide BucketChain, PostingsImage, DocTableImage, DictImage, AllSmall;
    var es := BucketChain(ix, hash, b);
    forall j | 0 <= j < |es| ensures |es[j].term| < 0x1_0000 && es[j].postingOffset < TWO64 {
      var k := ChainTerm(ix, hash, b, j);
      PostingsPrefix(ix.postings, k);
    }
  }

  /** An entry with the wanted text leads to the list of the wanted term. */
  lemma FoundInChain(ix: Index, hash: Text -> uint64, term: Text, b: nat, j: nat)
    requires Writable(ix, hash) && b < BucketCount(|ix.postings|)
    requires j < |BucketChain(ix, hash, b)| && BucketChain(ix, hash, b)[j].term == term
    ensures HasTerm(ix, term) && IsPostingList(LocationsOf(ix, term))
    ensures Holds(Image(ix, hash), HEADER_SIZE + BucketChain(ix, hash, b)[j].postingOffset,
                  PostingImage(LocationsOf(ix, term)))
  {
    hide BucketChain, PostingImage, Image, LocationsOf, Holds, IsPostingList, Writable, AllSmall;
    WritableSmall(ix, hash);
    var k := ChainTerm(ix, hash, b, j);
    ListHeld(ix, hash, k);
    assert HasTerm(ix, ix.postings[k].term);
    LocationsAre(ix, hash, k);
  }

  lemma ListHeld(ix: Index, hash: Text -> uint64, k: nat)
    requires Writable(ix, hash) && k < |ix.postings|
    ensures var L := ix.postings[k].list.locations;
      && IsPostingList(L)
      && Holds(Image(ix, hash), HEADER_SIZE + EntryOf(ix.postings, k).postingOffset, PostingImage(L))
  {
    hide PostingsImage, PostingImage, Image, Body, Holds, IsPostingList, Writable, AllSmall, HeaderImage, DocTableImage, DictImage;
    WritableSmall(ix, hash);
    ListSmall(ix.postings, k);
    PrefixSmall(ix.postings, k);
    PartsHeld(ix, hash);
    PostingHeld(ix.postings, k);
    HoldsNested(Image(ix, hash), HEADER_SIZE, PostingsImage(ix.postings), |PostingsImage(ix.postings[..k])|,
                PostingImage(ix.postings[k].list.locations));
  }

  lemma NotInChain(ix: Index, hash: Text -> uint64, term: Text)
    requires Writable(ix, hash)
    requires forall e :: e in BucketChain(ix, hash, hash(term) % BucketCount(|ix.postings|)) ==> e.term != term
    ensures !HasTerm(ix, term)
  {
    hide Chain, PostingsImage, Writable, AllSmall;
    WritableSmall(ix, hash);
    if HasTerm(ix, term) {
      var k :| 0 <= k < |ix.postings| && ix.postings[k].term == term;
      ChainComplete(ix.postings, |ix.postings|, BucketCount(|ix.postings|), hash, k);
    }
  }

  // ---------------------------------------------------------------- facts about the document table

  lemma RecordsStart(ix: Index, hash: Text -> uint64)
    requires Writable(ix, hash)
    ensures RecordOffset(ix.documents, 0) == 4 + 8 * |ix.documents|
  {
  }

  /** Record i stands where the records before it end. */
  lemma RecordNext(ix: Index, hash: Text -> uint64, i: nat)
    requires Writable(ix, hash) && i < |ix.documents|
    ensures Holds(Image(ix, hash), DoctableOffset(ix) + RecordOffset(ix.documents, i), RecordImage(ix.documents[i]))
    ensures RecordOffset(ix.documents, i + 1) == RecordOffset(ix.documents, i) + |RecordImage(ix.documents[i])|
    ensures |ix.documents[i].url| < 0x1_0000 && |ix.documents[i].features.rawTld| < 0x1_0000
  {
    hide Image, RecordImage, Words, PostingsImage, DictImage, HeaderImage, Little, Body, DoctableOffset, DictOffset, AllSmall, Holds;
    var docs, data, table := ix.documents, Image(ix, hash), DoctableOffset(ix);
    PartsHeld(ix, hash);
    ThreeParts(data, table, Little(|docs|, 4), Words(RecordOffsets(docs)), RecordsImage(docs));
    RecordHeld(docs, i);
    HoldsNested(data, table + 4 + 8 * |docs|, RecordsImage(docs), |RecordsImage(docs[..i])|, RecordImage(docs[i]));
    assert docs[..i + 1][..i] == docs[..i];
  }

  lemma HeaderRanges(f: seq<nat>)
    requires Fit(HEADER_WIDTHS, f)
    ensures HeaderRangesHold(f)
  {
    Powers();
    assert f[0] < Pow256(HEADER_WIDTHS[0]) && f[1] < Pow256(HEADER_WIDTHS[1]) && f[2] < Pow256(HEADER_WIDTHS[2]);
    assert f[4] < Pow256(HEADER_WIDTHS[4]) && f[5] < Pow256(HEADER_WIDTHS[5]) && f[7] < Pow256(HEADER_WIDTHS[7]);
    assert f[8] < Pow256(HEADER_WIDTHS[8]) && f[9] < Pow256(HEADER_WIDTHS[9]) && f[10] < Pow256(HEADER_WIDTHS[10]);
  }

  lemma HeaderReads(ix: Index, hash: Text -> uint64)
    requires Writable(ix, hash)
    ensures |Image(ix, hash)| >= HEADER_SIZE == Total(HEADER_WIDTHS)
    ensures var f := Unpack(HEADER_WIDTHS, Image(ix, hash));
      && f[0] == MAGIC && f[1] == VERSION
      && HeaderRangesHold(f)
      && HeaderOf(ix, hash) == FileHeader(f[0], f[1], f[2], f[4], f[5], f[7], f[8], f[9], f[10])
  {
    hide Unpack, HeaderFields, Writable, Image, HeaderOf, Fit;
    var file := Image(ix, hash);
    PartsHeld(ix, hash);
    HeaderSize();
    HeaderFits(HeaderOf(ix, hash));
    HeldStruct(file, 0, HEADER_WIDTHS, HeaderFields(HeaderOf(ix, hash)));
    assert file[0..] == file;
    HeaderAgain(HeaderOf(ix, hash));
    HeaderMarks(ix, hash);
    HeaderRanges(HeaderFields(HeaderOf(ix, hash)));
  }

  ghost predicate HeaderRangesHold(f: seq<nat>) {
    && |f| == 11 && f[0] < TWO32 && f[1] < TWO32 && f[2] < TWO32 && f[4] < TWO64 && f[5] < TWO32
    && f[7] < TWO64 && f[8] < TWO64 && f[9] < TWO64 && f[10] < TWO64
  }

  lemma HeaderAgain(h: FileHeader)
    ensures var f := HeaderFields(h);
      h == FileHeader(f[0], f[1], f[2], f[4], f[5], f[7], f[8], f[9], f[10])
  {
  }

  lemma HeaderMarks(ix: Index, hash: Text -> uint64)
    requires Writable(ix, hash)
    ensures HeaderOf(ix, hash).magic == MAGIC && HeaderOf(ix, hash).version == VERSION
    ensures HeaderOf(ix, hash).numDocuments == |ix.documents|
    ensures HeaderOf(ix, hash).doctableOffset == DoctableOffset(ix)
    ensures HeaderOf(ix, hash).dictOffset == DictOffset(ix)
    ensures HeaderOf(ix, hash).postingsOffset == HEADER_SIZE
    ensures HeaderFields(HeaderOf(ix, hash))[0] == MAGIC && HeaderFields(HeaderOf(ix, hash))[1] == VERSION
  {
    hide Writable, Body, DoctableOffset, DictOffset;
  }

  lemma FirstFields(file: seq<byte>)
    requires Total(HEADER_WIDTHS) <= |file|
    ensures |file| >= 8 && Unpack(HEADER_WIDTHS, file)[0] == FromLittle(file[..4]) && Unpack(HEADER_WIDTHS, file)[1] == FromLittle(file[4..8])
  {
    hide FromLittle, Unpack, Total;
    UnpackTwo(HEADER_WIDTHS, file);
  }

  /** The offset array of the document table leads to each record. */
  lemma RecordAt(ix: Index, hash: Text -> uint64, i: nat)
    requires Writable(ix, hash) && i < |ix.documents|
    ensures var data, table := Image(ix, hash), DoctableOffset(ix);
      && table + 4 + 8 * i + 8 <= |data|
      && Holds(data, table + WordAt(data, table + 4 + 8 * i), RecordImage(ix.documents[i]))
      && |ix.documents[i].url| < 0x1_0000 && |ix.documents[i].features.rawTld| < 0x1_0000
  {
    hide Image, RecordImage, Words, RecordsImage, WordAt, PostingsImage, HeaderImage, DictImage, Little, Body, DoctableOffset, DictOffset, AllSmall, Holds;
    var docs, data, table := ix.documents, Image(ix, hash), DoctableOffset(ix);
    PartsHeld(ix, hash);
    ThreeParts(data, table, Little(|docs|, 4), Words(RecordOffsets(docs)), RecordsImage(docs));
    RecordHeld(docs, i);
    HoldsNested(data, table + 4 + 8 * |docs|, RecordsImage(docs), |RecordsImage(docs[..i])|, RecordImage(docs[i]));
    OffsetInFile(ix, hash, i);
    HeldWord(data, table + 4, RecordOffsets(docs), i);
  }

  lemma OffsetInFile(ix: Index, hash: Text -> uint64, i: nat)
    requires Writable(ix, hash) && i < |ix.documents|
    ensures RecordOffset(ix.documents, i) < TWO64
  {
    hide PostingsImage, Buckets, DictImage, RecordsImage, Little, Words;
    RecordsPrefix(ix.documents, i);
  }
}
