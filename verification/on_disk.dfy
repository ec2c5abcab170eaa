/** What stands at which byte of a chunk file (types.h and disk_chunk_writer.cpp in src/index/src/lib),
    said without the writer's structs. */
module OnDisk {
  import opened Basics
  import opened Bytes
  import opened VByte
  import opened SeekTable
  import opened WordIterator
  import opened ChunkFormat
  import opened ChunkReader

  /** The unsigned little-endian number in some bytes of a file. */
  function NumberAt(data: seq<byte>, pos: nat, width: nat): nat
    requires pos + width <= |data|
  {
    FromLittle(data[pos..pos + width])
  }

  // ---------------------------------------------------------------- fields of structs

  lemma {:induction false} FieldHeld(data: seq<byte>, pos: nat, widths: seq<nat>, values: seq<nat>, i: nat)
    requires Fit(widths, values) && Holds(data, pos, Pack(widths, values)) && i < |widths|
    ensures var off := OffsetOf(widths, i);
      pos + off + widths[i] <= |data| && NumberAt(data, pos + off, widths[i]) == values[i]
    decreases i
  {
    hide Little, FromLittle, Holds;
    HoldsParts(data, pos, Little(values[0], widths[0]), Pack(widths[1..], values[1..]));
    if i == 0 {
      NumberHeld(data, pos, values[0], widths[0]);
    } else {
      FieldHeld(data, pos + widths[0], widths[1..], values[1..], i - 1);
    }
  }

  lemma NumberHeld(data: seq<byte>, pos: nat, x: nat, width: nat)
    requires Holds(data, pos, Little(x, width)) && x < Pow256(width)
    ensures pos + width <= |data| && NumberAt(data, pos, width) == x
  {
    hide Little, FromLittle;
    LittleRoundTrip(x, width);
  }

  /** Byte i of a number is its digit i to the base 256, the lowest first. */
  lemma {:induction false} NumberIs(s: seq<byte>, i: nat)
    requires i < |s|
    ensures FromLittle(s) / Pow256(i) % 256 == s[i]
  {
    var rest := FromLittle(s[1..]);
    if i > 0 {
      NumberIs(s[1..], i - 1);
      DivideTwice(s[0] + 256 * rest, 256, Pow256(i - 1));
    }
  }

  /** Where field i of a struct begins. */
  function OffsetOf(widths: seq<nat>, i: nat): nat
    requires i <= |widths|
  {
    if i == 0 then 0 else widths[0] + OffsetOf(widths[1..], i - 1)
  }

  lemma EntryOffsets()
    ensures var w := BUCKET_WIDTHS;
      && OffsetOf(w, 0) == 0 && OffsetOf(w, 3) == 8 && OffsetOf(w, 5) == 16 && OffsetOf(w, 6) == 24 && OffsetOf(w, 8) == 32
  {
  }

  lemma HeaderOffsets()
    ensures var w := HEADER_WIDTHS;
      && OffsetOf(w, 0) == 0 && OffsetOf(w, 1) == 4 && OffsetOf(w, 2) == 8 && OffsetOf(w, 4) == 16 && OffsetOf(w, 5) == 24
      && OffsetOf(w, 7) == 32 && OffsetOf(w, 8) == 40 && OffsetOf(w, 9) == 48 && OffsetOf(w, 10) == 56
  {
  }

  // ---------------------------------------------------------------- the header

  /** The 64 bytes at the front. */
  ghost predicate HeaderStands(data: seq<byte>, documents: nat, totalLocations: nat, terms: nat) {
    && |data| >= 64
    && NumberAt(data, 0, 4) == 0x49445831 && NumberAt(data, 4, 4) == 2
    && NumberAt(data, 8, 4) == documents && NumberAt(data, 16, 8) == totalLocations && NumberAt(data, 24, 4) == terms
    && NumberAt(data, 40, 8) == 64 && NumberAt(data, 56, 8) == 0
  }

  lemma HeaderOnDisk(ix: Index, hash: Text -> uint64)
    requires Writable(ix, hash)
    ensures HeaderStands(Image(ix, hash), |ix.documents|, ix.totalLocations, |ix.postings|)
    ensures NumberAt(Image(ix, hash), 32, 8) == DictOffset(ix) && NumberAt(Image(ix, hash), 48, 8) == DoctableOffset(ix)
  {
    hide Writable, Image, Body, DictOffset, DoctableOffset, NumberAt, HeaderImage, Holds, Total;
    PartsHeld(ix, hash);
    HeaderNumbers(Image(ix, hash), HeaderOf(ix, hash));
  }

  lemma HeaderNumbers(data: seq<byte>, h: FileHeader)
    requires Holds(data, 0, HeaderImage(h))
    ensures |data| >= 64
    ensures NumberAt(data, 0, 4) == h.magic && NumberAt(data, 4, 4) == h.version && NumberAt(data, 8, 4) == h.numDocuments
    ensures NumberAt(data, 16, 8) == h.totalLocations && NumberAt(data, 24, 4) == h.numUniqueTerms
    ensures NumberAt(data, 32, 8) == h.dictOffset && NumberAt(data, 40, 8) == h.postingsOffset
    ensures NumberAt(data, 48, 8) == h.doctableOffset && NumberAt(data, 56, 8) == h.globalLocBase
  {
    hide NumberAt, Fit, Pack, Total, OffsetOf;
    HeaderFits(h);
    HeaderOffsets();
    forall i | 0 <= i < 11 { FieldHeld(data, 0, HEADER_WIDTHS, HeaderFields(h), i); }
    HeaderSize();
  }

  // ---------------------------------------------------------------- the dictionary

  /** At pos stands the entry of a term: a mark, the length of its text, where its list begins behind the
      header, how many documents it is in, and how often it occurs; then the text. */
  ghost predicate EntryStands(data: seq<byte>, pos: nat, term: Text, offset: nat, documents: nat, occurrences: nat) {
    && pos + 40 + |term| <= |data|
    && NumberAt(data, pos, 1) == 1 && NumberAt(data, pos + 8, 2) == |term| && NumberAt(data, pos + 16, 8) == offset
    && NumberAt(data, pos + 24, 4) == documents && NumberAt(data, pos + 32, 8) == occurrences
    && data[pos + 40..pos + 40 + |term|] == term
  }

  /** From entry to entry, n times. */
  ghost predicate Walks(data: seq<byte>, pos: nat, n: nat, at: nat)
    decreases n
  {
    if n == 0 then pos == at
    else pos + 40 <= |data| && NumberAt(data, pos, 1) == 1 && Walks(data, pos + 40 + NumberAt(data, pos + 8, 2), n - 1, at)
  }

  /** The place can be reached from the bucket of the term, which the header leads to. */
  ghost predicate InBucket(data: seq<byte>, hash: Text -> uint64, term: Text, pos: nat) {
    && |data| >= 64
    && var dict := NumberAt(data, 32, 8);
       && dict + 8 <= |data|
       && var buckets := NumberAt(data, dict, 8);
          && buckets > 0
          && var slot := dict + 8 + 8 * (hash(term) % buckets);
             slot + 8 <= |data| && ReachedFrom(data, dict + NumberAt(data, slot, 8), pos)
  }

  ghost predicate ReachedFrom(data: seq<byte>, start: nat, pos: nat) {
    exists n: nat :: Walks(data, start, n, pos)
  }

  /** In the bucket of the term stands an entry with these counts, which leads to a list of these locations. */
  ghost predicate TermStands(data: seq<byte>, hash: Text -> uint64, term: Text, locations: seq<uint32>, documents: nat, occurrences: nat)
    requires IsPostingList(locations)
  {
    exists pos: nat, offset: nat ::
      && InBucket(data, hash, term, pos) && EntryStands(data, pos, term, offset, documents, occurrences)
      && ListStands(data, 64 + offset, locations)
  }

  lemma EntryHeld(data: seq<byte>, pos: nat, e: DictEntry)
    requires Holds(data, pos, EntryImage(e)) && |e.term| < 0x1_0000 && e.postingOffset < TWO64
    ensures EntryStands(data, pos, e.term, e.postingOffset, e.docFrequency, e.collectionFrequency)
  {
    hide NumberAt, Fit, Pack, Total, OffsetOf;
    HoldsParts(data, pos, BucketImage(e), e.term);
    hide Holds;
    var f := EntryFields(e);
    EntryFieldsFit(e);
    EntryOffsets();
    BucketSize();
    FieldHeld(data, pos, BUCKET_WIDTHS, f, 0);
    FieldHeld(data, pos, BUCKET_WIDTHS, f, 3);
    FieldHeld(data, pos, BUCKET_WIDTHS, f, 5);
    FieldHeld(data, pos, BUCKET_WIDTHS, f, 6);
    FieldHeld(data, pos, BUCKET_WIDTHS, f, 8);
    TextHeld(data, pos + 40, e.term);
  }

  lemma TextHeld(data: seq<byte>, pos: nat, s: Text)
    requires Holds(data, pos, s)
    ensures pos + |s| <= |data| && data[pos..pos + |s|] == s
  {
  }

  /** Going through a chain reaches each of its entries. */
  lemma {:induction false} ChainWalk(data: seq<byte>, pos: nat, es: seq<DictEntry>, j: nat) returns (at: nat)
    requires Short(es) && j < |es| && Holds(data, pos, ChainImage(es))
    ensures Walks(data, pos, j, at) && Holds(data, at, EntryImage(es[j]))
    decreases j
  {
    hide NumberAt, EntryImage, Holds;
    HoldsParts(data, pos, EntryImage(es[0]), ChainImage(es[1..]));
    if j == 0 {
      at := pos;
    } else {
      EntryHeld(data, pos, es[0]);
      EntrySize(es[0]);
      at := ChainWalk(data, pos + 40 + |es[0].term|, es[1..], j - 1);
    }
  }

  lemma EntrySize(e: DictEntry)
    requires |e.term| < 0x1_0000
    ensures |EntryImage(e)| == 40 + |e.term|
  {
    hide BucketImage;
  }

  /** Every term of a flushed index stands in the file, with its counts. */
  lemma TermOnDisk(ix: Index, hash: Text -> uint64, k: nat)
    requires Writable(ix, hash) && k < |ix.postings|
    ensures var p := ix.postings[k];
      && IsPostingList(p.list.locations)
      && TermStands(Image(ix, hash), hash, p.term, p.list.locations, p.list.docFrequency, p.list.collectionFrequency)
  {
    hide Writable, Image, DictOffset, DoctableOffset, Body, Holds, EntryImage, PostingImage, HeaderStands, ChainImage, Chain, Buckets, PostingsImage, NumberAt,
      IsPostingList, AllSmall, EntryStands, ListStands;
    WritableSmall(ix, hash);
    var data, p := Image(ix, hash), ix.postings[k];
    var b := hash(p.term) % BucketCount(|ix.postings|);
    HeaderOnDisk(ix, hash);
    HeaderLong(data, ix);
    DictStart(ix, hash);
    BucketAt(ix, hash, b);
    var es := BucketChain(ix, hash, b);
    ChainShort(ix, hash, b);
    InItsChain(ix, hash, k);
    var j :| 0 <= j < |es| && es[j] == EntryOf(ix.postings, k);
    var dict := DictOffset(ix);
    var start := dict + NumberAt(data, dict + 8 + 8 * b, 8);
    WordIsNumber(data, dict);
    WordIsNumber(data, dict + 8 + 8 * b);
    var pos := ChainWalk(data, start, es, j);
    EntryHeld(data, pos, es[j]);
    assert ReachedFrom(data, start, pos);
    ListHeld(ix, hash, k);
    ListOnDisk(data, 64 + es[j].postingOffset, p.list.locations);
  }

  lemma HeaderLong(data: seq<byte>, ix: Index)
    requires HeaderStands(data, |ix.documents|, ix.totalLocations, |ix.postings|)
    ensures |data| >= 64
  {
  }

  lemma WordIsNumber(data: seq<byte>, pos: nat)
    requires pos + 8 <= |data|
    ensures WordAt(data, pos) == NumberAt(data, pos, 8)
  {
  }

  lemma InItsChain(ix: Index, hash: Text -> uint64, k: nat)
    requires AllSmall(ix.postings) && k < |ix.postings|
    ensures EntryOf(ix.postings, k) in BucketChain(ix, hash, hash(ix.postings[k].term) % BucketCount(|ix.postings|))
  {
    hide EntryOf, Chain, AllSmall;
    ChainComplete(ix.postings, |ix.postings|, BucketCount(|ix.postings|), hash, k);
  }

  // ---------------------------------------------------------------- posting lists and documents

  /** At pos stands a posting list: how many postings, whether a seek table follows, and the size of the
      stream; then the table, for more than 512 postings, and the stream. */
  ghost predicate ListStands(data: seq<byte>, pos: nat, L: seq<uint32>)
    requires Small(L)
  {
    && pos + 12 <= |data|
    && NumberAt(data, pos, 4) == |L| && NumberAt(data, pos + 4, 1) == (if |L| > 512 then 1 else 0)
    && NumberAt(data, pos + 8, 4) == |Stream(L)|
    && (|L| > 512 ==> Holds(data, pos + 12, Serialized(TableOf(L))))
    && Holds(data, pos + 12 + (if |L| > 512 then 2048 else 0), Stream(L))
  }

  lemma PostingOffsets()
    ensures var w := POSTING_WIDTHS; OffsetOf(w, 0) == 0 && OffsetOf(w, 1) == 4 && OffsetOf(w, 3) == 8
  {
  }

  lemma ListOnDisk(data: seq<byte>, pos: nat, L: seq<uint32>)
    requires IsPostingList(L) && Holds(data, pos, PostingImage(L))
    ensures ListStands(data, pos, L)
  {
    hide NumberAt, Fit, Pack, Total, OffsetOf, Stream, TableOf, Serialized, Holds;
    StreamSize(L);
    var fields := [|L|, if ShouldBuild(|L|) then 1 else 0, 0, |Stream(L)|];
    PostingFieldsFit(fields);
    PostingHeaderSize();
    PostingOffsets();
    HoldsParts(data, pos, Pack(POSTING_WIDTHS, fields), TableImage(L) + Stream(L));
    HoldsParts(data, pos + 12, TableImage(L), Stream(L));
    HeldInside(data, pos, Pack(POSTING_WIDTHS, fields));
    FieldHeld(data, pos, POSTING_WIDTHS, fields, 0);
    FieldHeld(data, pos, POSTING_WIDTHS, fields, 1);
    FieldHeld(data, pos, POSTING_WIDTHS, fields, 3);
  }

  lemma PostingFieldsFit(fields: seq<nat>)
    requires |fields| == 4 && fields[0] < TWO32 && fields[1] <= 1 && fields[2] == 0 && fields[3] < TWO32
    ensures Fit(POSTING_WIDTHS, fields)
  {
    Powers();
  }

  lemma HeldInside(data: seq<byte>, pos: nat, s: seq<byte>)
    requires Holds(data, pos, s)
    ensures pos + |s| <= |data|
  {
  }

  /** At pos stands the record of a document: its two texts, each behind its length, and its numbers. */
  ghost predicate DocumentStands(data: seq<byte>, pos: nat, d: DocumentRecord) {
    var tld := pos + 2 + |d.url|;
    var at := tld + 2 + |d.features.rawTld|;
    && at + 29 <= |data|
    && NumberAt(data, pos, 2) == |d.url| && data[pos + 2..tld] == d.url
    && NumberAt(data, tld, 2) == |d.features.rawTld| && data[tld + 2..at] == d.features.rawTld
    && NumberAt(data, at, 4) == d.startLocation && NumberAt(data, at + 4, 4) == d.endLocation
    && NumberAt(data, at + 8, 4) == d.wordCount && NumberAt(data, at + 12, 2) == d.titleWordCount && NumberAt(data, at + 14, 1) == d.seedDistance
    && NumberAt(data, at + 15, 1) == d.features.flags && NumberAt(data, at + 16, 1) == d.features.baseDomainLength
    && NumberAt(data, at + 17, 2) == d.features.urlLength && NumberAt(data, at + 19, 2) == d.features.pathLength
    && NumberAt(data, at + 21, 1) == d.features.pathDepth && NumberAt(data, at + 22, 1) == d.features.queryParamCount
    && NumberAt(data, at + 23, 1) == d.features.numericPathCharCount && NumberAt(data, at + 24, 1) == d.features.domainHyphenCount
    && NumberAt(data, at + 25, 2) == d.features.outgoingLinkCount && NumberAt(data, at + 27, 2) == d.features.outgoingAnchorWordCount
  }

  lemma {:induction false} OffsetStep(widths: seq<nat>, i: nat)
    requires i < |widths|
    ensures OffsetOf(widths, 0) == 0 && OffsetOf(widths, i + 1) == OffsetOf(widths, i) + widths[i]
    decreases i
  {
    if i > 0 { OffsetStep(widths[1..], i - 1); }
  }

  /** The field of a record that begins the given number of bytes into its numbers. */
  lemma RecordField(data: seq<byte>, at: nat, d: DocumentRecord, i: nat)
    requires Holds(data, at, FixedImage(d)) && i < 15
    ensures var off := OffsetOf(RECORD_WIDTHS, i);
      at + off + RECORD_WIDTHS[i] <= |data| && NumberAt(data, at + off, RECORD_WIDTHS[i]) == RecordFields(d)[i]
  {
    hide NumberAt, Fit, Pack, Total, OffsetOf, Holds, RecordFields;
    RecordSize();
    RecordFits(d);
    FieldHeld(data, at, RECORD_WIDTHS, RecordFields(d), i);
  }

  lemma RecordOffsetsAre()
    ensures var w := RECORD_WIDTHS;
      && OffsetOf(w, 0) == 0 && OffsetOf(w, 1) == 4 && OffsetOf(w, 2) == 8 && OffsetOf(w, 3) == 12 && OffsetOf(w, 4) == 14
      && OffsetOf(w, 5) == 15 && OffsetOf(w, 6) == 16 && OffsetOf(w, 7) == 17 && OffsetOf(w, 8) == 19 && OffsetOf(w, 9) == 21
      && OffsetOf(w, 10) == 22 && OffsetOf(w, 11) == 23 && OffsetOf(w, 12) == 24 && OffsetOf(w, 13) == 25 && OffsetOf(w, 14) == 27
  {
    hide OffsetOf;
    var w := RECORD_WIDTHS;
    OffsetStep(w, 0);
    OffsetStep(w, 1);
    OffsetStep(w, 2);
    OffsetStep(w, 3);
    OffsetStep(w, 4);
    OffsetStep(w, 5);
    OffsetStep(w, 6);
    OffsetStep(w, 7);
    OffsetStep(w, 8);
    OffsetStep(w, 9);
    OffsetStep(w, 10);
    OffsetStep(w, 11);
    OffsetStep(w, 12);
    OffsetStep(w, 13);
  }

  lemma FixedOnDisk(data: seq<byte>, at: nat, d: DocumentRecord)
    requires Holds(data, at, FixedImage(d))
    ensures at + 29 <= |data|
    ensures NumberAt(data, at, 4) == d.startLocation && NumberAt(data, at + 4, 4) == d.endLocation
    ensures NumberAt(data, at + 8, 4) == d.wordCount && NumberAt(data, at + 12, 2) == d.titleWordCount && NumberAt(data, at + 14, 1) == d.seedDistance
  {
    hide NumberAt, OffsetOf, Holds, FixedImage, Pack, Total;
    HeldInside(data, at, FixedImage(d));
    RecordOffsetsAre();
    forall i | 0 <= i < 5 { RecordField(data, at, d, i); }
  }

  lemma FeaturesOnDisk(data: seq<byte>, at: nat, d: DocumentRecord)
    requires Holds(data, at, FixedImage(d)) && at + 29 <= |data|
    ensures NumberAt(data, at + 15, 1) == d.features.flags && NumberAt(data, at + 16, 1) == d.features.baseDomainLength
    ensures NumberAt(data, at + 17, 2) == d.features.urlLength && NumberAt(data, at + 19, 2) == d.features.pathLength
    ensures NumberAt(data, at + 21, 1) == d.features.pathDepth && NumberAt(data, at + 22, 1) == d.features.queryParamCount
    ensures NumberAt(data, at + 23, 1) == d.features.numericPathCharCount && NumberAt(data, at + 24, 1) == d.features.domainHyphenCount
    ensures NumberAt(data, at + 25, 2) == d.features.outgoingLinkCount && NumberAt(data, at + 27, 2) == d.features.outgoingAnchorWordCount
  {
    hide NumberAt, OffsetOf, Holds, FixedImage;
    RecordOffsetsAre();
    forall i | 5 <= i < 15 { RecordField(data, at, d, i); }
  }

  lemma TextOnDisk(data: seq<byte>, pos: nat, s: Text)
    requires Holds(data, pos, Text16(s)) && |s| < 0x1_0000
    ensures pos + 2 + |s| <= |data| && NumberAt(data, pos, 2) == |s| && data[pos + 2..pos + 2 + |s|] == s
  {
    hide NumberAt, Little;
    HoldsParts(data, pos, Little(|s|, 2), s);
    Powers();
    NumberHeld(data, pos, |s|, 2);
  }

  lemma RecordStands(data: seq<byte>, pos: nat, d: DocumentRecord)
    requires Holds(data, pos, RecordImage(d)) && |d.url| < 0x1_0000 && |d.features.rawTld| < 0x1_0000
    ensures DocumentStands(data, pos, d)
  {
    hide NumberAt, Holds, Text16, FixedImage;
    Text16Size(d.url);
    Text16Size(d.features.rawTld);
    HoldsParts(data, pos, Text16(d.url), Text16(d.features.rawTld) + FixedImage(d));
    HoldsParts(data, pos + 2 + |d.url|, Text16(d.features.rawTld), FixedImage(d));
    TextOnDisk(data, pos, d.url);
    TextOnDisk(data, pos + 2 + |d.url|, d.features.rawTld);
    FixedOnDisk(data, pos + 2 + |d.url| + 2 + |d.features.rawTld|, d);
    FeaturesOnDisk(data, pos + 2 + |d.url| + 2 + |d.features.rawTld|, d);
  }

  /** The document table begins with the number of documents, and the dictionary with the number of buckets:
      three for two terms, but at least one. */
  lemma CountsOnDisk(ix: Index, hash: Text -> uint64)
    requires Writable(ix, hash)
    ensures var data, terms := Image(ix, hash), |ix.postings|;
      && |data| >= 64
      && var table, dict := NumberAt(data, 48, 8), NumberAt(data, 32, 8);
         && table + 4 <= |data| && NumberAt(data, table, 4) == |ix.documents|
         && dict + 8 <= |data| && NumberAt(data, dict, 8) == if terms == 0 then 1 else terms * 3 / 2
  {
    hide Image, DictOffset, DoctableOffset, Body, Holds, NumberAt, WordAt, AllSmall, HeaderStands, Words, RecordsImage, Little, PostingsImage, Buckets,
      DictImage, HeaderImage;
    var data := Image(ix, hash);
    HeaderOnDisk(ix, hash);
    HeaderLong(data, ix);
    PartsHeld(ix, hash);
    ThreeParts(data, DoctableOffset(ix), Little(|ix.documents|, 4), Words(RecordOffsets(ix.documents)), RecordsImage(ix.documents));
    FourBytes();
    NumberHeld(data, DoctableOffset(ix), |ix.documents|, 4);
    DictStart(ix, hash);
    WordIsNumber(data, DictOffset(ix));
  }

  lemma FourBytes()
    ensures Pow256(4) == TWO32
  {
    Powers();
  }

  /** Every document of a flushed index stands where its entry in the offset array leads. */
  lemma DocumentOnDisk(ix: Index, hash: Text -> uint64, i: nat)
    requires Writable(ix, hash) && i < |ix.documents|
    ensures var data := Image(ix, hash);
      && |data| >= 64
      && var table := NumberAt(data, 48, 8);
         table + 4 + 8 * i + 8 <= |data| && DocumentStands(data, table + NumberAt(data, table + 4 + 8 * i, 8), ix.documents[i])
  {
    hide Writable, Image, DictOffset, DoctableOffset, Body, Holds, RecordImage, NumberAt, WordAt, AllSmall, DocumentStands, HeaderStands;
    var data := Image(ix, hash);
    HeaderOnDisk(ix, hash);
    HeaderLong(data, ix);
    WritableSmall(ix, hash);
    RecordAt(ix, hash, i);
    WordIsNumber(data, DoctableOffset(ix) + 4 + 8 * i);
    RecordStands(data, DoctableOffset(ix) + WordAt(data, DoctableOffset(ix) + 4 + 8 * i), ix.documents[i]);
  }
}
