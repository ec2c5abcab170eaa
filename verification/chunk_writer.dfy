/** Writing a chunk file with seeks back over placeholders (src/index/src/lib/disk_chunk_writer.cpp,
    binary_writer.h), and flushing an index into one (chunk_flusher.cpp). */
module ChunkWriter {
  import opened Basics
  import opened Bytes
  import opened VByte
  import opened SeekTable
  import opened WordIterator
  import opened ChunkFormat

  /** Overwriting a run in the middle of a file. */
  lemma Patch(file: seq<byte>, a: seq<byte>, old_run: seq<byte>, b: seq<byte>, new_run: seq<byte>)
    requires file == a + old_run + b && |old_run| == |new_run|
    ensures |a| + |new_run| <= |file|
    ensures file[..|a|] + new_run + file[|a| + |new_run|..] == a + new_run + b
  {
  }

  class DiskChunkWriter {
    var file: seq<byte>
    var pos: nat

    constructor ()
      ensures file == [] && pos == 0
    {
      file, pos := [], 0;
    }

    /** write(2): overwrites from the current offset on and extends the file as needed. */
    method Write(bytes: seq<byte>)
      requires pos <= |file|
      modifies this
      ensures pos == old(pos) + |bytes| <= |file|
      ensures old(pos) == |old(file)| ==> file == old(file) + bytes
      ensures old(pos) + |bytes| <= |old(file)| ==>
        file == old(file)[..old(pos)] + bytes + old(file)[old(pos) + |bytes|..]
    {
      var end := pos + |bytes|;
      file := file[..pos] + bytes + if end < |file| then file[end..] else [];
      pos := end;
    }

    method SeekSet(offset: nat)
      requires offset <= |file|
      modifies this`pos
      ensures pos == offset
    {
      pos := offset;
    }

    /** Appends a posting list: header, seek table when the list is long, and coded gaps. */
    method WritePostingList(locations: seq<uint32>) returns (offset: nat)
      requires IsPostingList(locations) && pos == |file|
      modifies this
      ensures file == old(file) + PostingImage(locations) && pos == |file|
      ensures offset == |old(file)|
    {
      hide Stream, Serialized, PostingHeader, IsTable, Slot;
      offset := pos;
      var compressed := EncodeDeltaList(locations);
      var table: seq<byte> := [];
      if ShouldBuild(|locations|) {
        var built := Build(compressed, |locations|, locations);
        TablesEqual(built.value, locations);
        table := Serialize(built.value);
      }
      Write(PostingHeader(|locations|, ShouldBuild(|locations|), |compressed|));
      if ShouldBuild(|locations|) {
        Write(table);
      }
      Write(compressed);
      assert table == TableImage(locations);
    }

    /** Seeks back, overwrites an array of placeholders, and returns to the end of the file. */
    method PatchOffsets(arrayStart: nat, offsets: seq<nat>, ghost head: seq<byte>, ghost blank: seq<byte>,
                        ghost tail: seq<byte>)
      requires pos == |file| && file == head + blank + tail
      requires arrayStart == |head| && |blank| == 8 * |offsets|
      modifies this
      ensures file == head + Words(offsets) + tail && pos == |file|
    {
      hide Words;
      var end := pos;
      Patch(file, head, blank, tail, Words(offsets));
      SeekSet(arrayStart);
      Write(Words(offsets));
      SeekSet(end);
    }

    method WriteText16(s: Text)
      requires pos == |file|
      modifies this
      ensures file == old(file) + Text16(s) && pos == |file|
    {
      hide Little;
      var len := |s| % 0x1_0000;
      Write(Little(len, 2));
      if len > 0 {
        Write(s[..len]);
      }
    }

    method WriteRecord(doc: DocumentRecord)
      requires pos == |file|
      modifies this
      ensures file == old(file) + RecordImage(doc) && pos == |file|
    {
      hide FixedImage, Text16;
      WriteText16(doc.url);
      WriteText16(doc.features.rawTld);
      Write(FixedImage(doc));
    }

    /** Appends the document table: the offsets are placeholders until every record is written. */
    method WriteDocumentTable(documents: seq<DocumentRecord>) returns (start: nat)
      requires |documents| < TWO32 && pos == |file|
      modifies this
      ensures file == old(file) + DocTableImage(documents) && pos == |file|
      ensures start == |old(file)|
    {
      hide Little, Words, RecordsImage, RecordImage, RecordOffset, RecordOffsets, DocTableImage;
      start := pos;
      ghost var before := file;
      var count := |documents|;
      Write(Little(count, 4));
      var arrayStart := pos;
      var offsets := seq(count, _ => 0);
      ghost var head, blank := file, Words(offsets);
      Write(Words(offsets));
      NoRecords(documents);
      for i := 0 to count
        invariant pos == |file| && |offsets| == count
        invariant file == head + blank + RecordsImage(documents[..i])
        invariant forall k :: 0 <= k < i ==> offsets[k] == RecordOffset(documents, k)
      {
        var doc := documents[i];
        RecordStarts(documents, i);
        offsets := offsets[i := pos - start];
        WriteRecord(doc);
        RecordsStep(documents, i);
      }
      assert documents[..count] == documents;
      PatchOffsets(arrayStart, offsets, head, blank, RecordsImage(documents));
      TableIs(documents, offsets, before);
    }

    /** Appends the dictionary: bucket offsets are placeholders until every chain is written. */
    method WriteDictionary(buckets: seq<seq<DictEntry>>) returns (start: nat)
      requires pos == |file|
      modifies this
      ensures file == old(file) + DictImage(buckets) && pos == |file|
      ensures start == |old(file)|
    {
      hide Little, Words, ChainsImage, ChainImage;
      start := pos;
      ghost var before := file;
      var count := |buckets|;
      Write(Little(count, 8));
      var arrayStart := pos;
      var offsets := seq(count, _ => 0);
      ghost var head, blank := file, Words(offsets);
      Write(Words(offsets));
      NoChains(buckets);
      for i := 0 to count
        invariant pos == |file| && |offsets| == count
        invariant file == head + blank + ChainsImage(buckets[..i])
        invariant forall k :: 0 <= k < i ==> offsets[k] == ChainOffset(buckets, k)
        invariant forall k :: i <= k < count ==> offsets[k] == 0
      {
        ChainsStep(buckets, i);
        if buckets[i] != [] {
          offsets := offsets[i := pos - start];
          WriteChain(buckets[i]);
          assert file == head + blank + (ChainsImage(buckets[..i]) + ChainImage(buckets[i]));
        }
      }
      assert buckets[..count] == buckets;
      assert offsets == ChainOffsets(buckets);
      PatchOffsets(arrayStart, offsets, head, blank, ChainsImage(buckets));
      assert file == before + (Little(count, 8) + Words(offsets) + ChainsImage(buckets));
    }

    method WriteChain(entries: seq<DictEntry>)
      requires pos == |file|
      modifies this
      ensures file == old(file) + ChainImage(entries) && pos == |file|
    {
      hide ChainImage, EntryImage;
      ghost var before := file;
      for j := 0 to |entries|
        invariant pos == |file|
        invariant file + ChainImage(entries[j..]) == before + ChainImage(entries)
      {
        ChainStep(entries, j);
        WriteEntry(entries[j]);
      }
      ChainEnd(entries);
      Write(SentinelImage());
    }

    method WriteEntry(e: DictEntry)
      requires pos == |file|
      modifies this
      ensures file == old(file) + EntryImage(e) && pos == |file|
    {
      hide BucketImage;
      Write(BucketImage(e));
      Write(e.term[..|e.term| % 0x1_0000]);
    }

    method WriteHeader(h: FileHeader)
      requires pos == |file|
      modifies this
      ensures file == old(file) + HeaderImage(h) && pos == |file|
    {
      Write(HeaderImage(h));
    }

    /** Goes back and puts the final header over the first one. */
    method Finish(h: FileHeader)
      requires HEADER_SIZE <= |file|
      modifies this
      ensures file == HeaderImage(h) + old(file)[HEADER_SIZE..]
    {
      hide HeaderImage;
      SeekSet(0);
      Write(HeaderImage(h));
    }
  }

  lemma TablesEqual(table: seq<Entry>, L: seq<uint32>)
    requires Small(L) && IsTable(table, L, |L|)
    ensures table == TableOf(L)
  {
    hide Slot, Small;
  }

  lemma RecordStarts(docs: seq<DocumentRecord>, i: nat)
    requires i <= |docs|
    ensures RecordOffset(docs, i) == 4 + 8 * |docs| + |RecordsImage(docs[..i])|
  {
  }

  lemma TableIs(docs: seq<DocumentRecord>, offsets: seq<nat>, before: seq<byte>)
    requires |offsets| == |docs| < TWO32 && forall k :: 0 <= k < |docs| ==> offsets[k] == RecordOffset(docs, k)
    ensures before + Little(|docs|, 4) + Words(offsets) + RecordsImage(docs) == before + DocTableImage(docs)
  {
    hide Little, Words, RecordsImage, RecordOffset;
    hide DocTableImage;
    SmallCount(|docs|);
    assert offsets == RecordOffsets(docs);
    TableParts(docs);
    Regroup(before, Little(|docs|, 4), Words(offsets), RecordsImage(docs));
  }

  lemma SmallCount(n: nat)
    requires n < TWO32
    ensures n % TWO32 == n
  {
  }

  lemma TableParts(docs: seq<DocumentRecord>)
    ensures DocTableImage(docs) == Little(|docs| % TWO32, 4) + Words(RecordOffsets(docs)) + RecordsImage(docs)
  {
    hide Little, Words, RecordsImage, RecordOffsets;
  }

  lemma Regroup(a: seq<byte>, b: seq<byte>, c: seq<byte>, d: seq<byte>)
    ensures a + b + c + d == a + (b + c + d)
  {
  }

  lemma NoRecords(docs: seq<DocumentRecord>)
    ensures RecordsImage(docs[..0]) == []
  {
  }

  lemma RecordsStep(docs: seq<DocumentRecord>, i: nat)
    requires i < |docs|
    ensures RecordsImage(docs[..i + 1]) == RecordsImage(docs[..i]) + RecordImage(docs[i])
  {
    hide RecordImage;
    assert docs[..i + 1][..i] == docs[..i];
  }

  lemma NoChains(buckets: seq<seq<DictEntry>>)
    ensures ChainsImage(buckets[..0]) == []
  {
  }

  lemma ChainsStep(buckets: seq<seq<DictEntry>>, i: nat)
    requires i < |buckets|
    ensures ChainsImage(buckets[..i + 1])
         == ChainsImage(buckets[..i]) + if buckets[i] == [] then [] else ChainImage(buckets[i])
  {
    hide ChainImage;
    assert buckets[..i + 1][..i] == buckets[..i];
  }

  lemma ChainStep(es: seq<DictEntry>, j: nat)
    requires j < |es|
    ensures ChainImage(es[j..]) == EntryImage(es[j]) + ChainImage(es[j + 1..])
  {
    hide EntryImage;
    assert es[j..][1..] == es[j + 1..];
  }

  lemma ChainEnd(es: seq<DictEntry>)
    ensures ChainImage(es[|es|..]) == SentinelImage()
  {
    hide SentinelImage;
  }

  lemma PostingsStep(ps: seq<Posting>, i: nat)
    requires AllSmall(ps) && i < |ps|
    ensures PostingsImage(ps[..i + 1]) == PostingsImage(ps[..i]) + PostingImage(ps[i].list.locations)
  {
    hide PostingImage, IsPostingList;
    assert ps[..i + 1][..i] == ps[..i];
  }

  lemma NoPostings(ps: seq<Posting>)
    requires AllSmall(ps)
    ensures PostingsImage(ps[..0]) == []
  {
  }

  const BLANK_HEADER := FileHeader(MAGIC, VERSION, 0, 0, 0, 0, 0, 0, 0)

  lemma BucketsStep(ps: seq<Posting>, i: nat, hash: Text -> uint64)
    requires AllSmall(ps) && i < |ps|
    ensures var b := hash(ps[i].term) % BucketCount(|ps|);
      Buckets(ps, i + 1, hash) == Buckets(ps, i, hash)[b := Buckets(ps, i, hash)[b] + [EntryOf(ps, i)]]
  {
    hide EntryOf, PostingsImage;
  }

  lemma NoBuckets(ps: seq<Posting>, hash: Text -> uint64)
    requires AllSmall(ps)
    ensures Buckets(ps, 0, hash) == seq(BucketCount(|ps|), _ => [])
  {
    assert forall b :: 0 <= b < BucketCount(|ps|) ==> Buckets(ps, 0, hash)[b] == [];
  }

  /** Writes lists, document table and dictionary behind a blank header, then the real header. */
  method FlushIndexChunk(ix: Index, hash: Text -> uint64) returns (file: seq<byte>)
    requires Writable(ix, hash)
    ensures file == Image(ix, hash)
  {
    hide HeaderImage, PostingsImage, PostingImage, DocTableImage, DictImage, Buckets, IsPostingList, EntryOf;
    var writer := new DiskChunkWriter();
    writer.WriteHeader(BLANK_HEADER);
    ghost var head := writer.file;
    var ps := ix.postings;
    var terms := |ps|;
    var buckets := seq(BucketCount(terms), _ => []);
    NoBuckets(ps, hash);
    NoPostings(ps);
    for k := 0 to terms
      invariant writer.pos == |writer.file| && fresh(writer)
      invariant writer.file == head + PostingsImage(ps[..k])
      invariant buckets == Buckets(ps, k, hash)
    {
      var offset := writer.WritePostingList(ps[k].list.locations);
      var entry := DictEntry(ps[k].term, offset - HEADER_SIZE, ps[k].list.docFrequency,
                             ps[k].list.collectionFrequency);
      EntryIs(ps, k);
      var b := hash(ps[k].term) % BucketCount(terms);
      BucketsStep(ps, k, hash);
      buckets := buckets[b := buckets[b] + [entry]];
      PostingsStep(ps, k);
    }
    assert ps[..terms] == ps;
    var doctable := writer.WriteDocumentTable(ix.documents);
    var dict := writer.WriteDictionary(buckets);
    OffsetsFit(ix, hash);
    var header := FileHeader(MAGIC, VERSION, |ix.documents|, ix.totalLocations, terms, dict, HEADER_SIZE, doctable, 0);
    assert writer.file[HEADER_SIZE..] == Body(ix, hash);
    writer.Finish(header);
    file := writer.file;
  }

  lemma EntryIs(ps: seq<Posting>, k: nat)
    requires AllSmall(ps) && k < |ps|
    ensures EntryOf(ps, k)
         == DictEntry(ps[k].term, |PostingsImage(ps[..k])|, ps[k].list.docFrequency, ps[k].list.collectionFrequency)
  {
  }
}
