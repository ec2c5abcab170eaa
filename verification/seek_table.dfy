/** The 256-entry seek table of a posting list (src/index/src/lib/seek_table.cpp): built while the
    list is written, stored without its posting indices, and completed again when it is read. */
module SeekTable {
  import opened Basics
  import opened Bytes
  import opened VByte

  const NO_POSTING: uint32 := 0xFFFF_FFFF
  const ENTRY_COUNT: nat := 256
  const BUILD_THRESHOLD: nat := 512
  const SERIALIZED_SIZE: nat := 2048

  datatype Entry = Entry(byteOffset: uint32, baseLocation: uint32, postingIndex: uint32)

  const EMPTY_ENTRY := Entry(0, 0, NO_POSTING)

  /** The top eight bits of a location. */
  function Bucket(location: uint32): (b: byte) {
    location / 0x100_0000
  }

  predicate ShouldBuild(postings: nat) {
    postings > BUILD_THRESHOLD
  }

  // ---------------------------------------------------------------- what a table holds

  /** Offsets in the stream fit the 32-bit fields of an entry. */
  ghost predicate Small(L: seq<uint32>) {
    |Stream(L)| < TWO32
  }

  /** The first of the first n postings that falls in bucket b, or n. */
  function FirstIn(L: seq<uint32>, n: nat, b: nat): (j: nat)
    requires n <= |L|
    ensures j <= n
    ensures j < n ==> Bucket(L[j]) == b
    ensures forall i :: 0 <= i < j ==> Bucket(L[i]) != b
  {
    if n == 0 then 0
    else
      var j := FirstIn(L, n - 1, b);
      if j < n - 1 then j else if Bucket(L[n - 1]) == b then n - 1 else n
  }

  ghost predicate Describes(e: Entry, L: seq<uint32>, j: nat)
  {
    && j < |L|
    && e.byteOffset == Offset(L, j + 1)
    && e.baseLocation == L[j]
    && e.postingIndex == j
  }

  ghost function EntryAt(L: seq<uint32>, j: nat): (e: Entry)
    requires j < |L| && Small(L)
    ensures Describes(e, L, j) && e.postingIndex != NO_POSTING
    ensures 0 < e.byteOffset
  {
    EntryFits(L, j);
    Entry(Offset(L, j + 1), L[j], j)
  }

  lemma EntryFits(L: seq<uint32>, j: nat)
    requires j < |L| && Small(L)
    ensures j < Offset(L, j + 1) < TWO32
  {
    StreamPrefix(L, j + 1);
    StreamSize(L[..j + 1]);
  }

  /** Slot b of the table of the first n postings: the first posting in b, else the slot before. */
  ghost function Slot(L: seq<uint32>, n: nat, b: nat): Entry
    requires n <= |L| && Small(L)
  {
    if FirstIn(L, n, b) < n then EntryAt(L, FirstIn(L, n, b))
    else if b == 0 then EMPTY_ENTRY
    else Slot(L, n, b - 1)
  }

  ghost predicate IsTable(table: seq<Entry>, L: seq<uint32>, n: nat)
    requires n <= |L| && Small(L)
  {
    |table| == ENTRY_COUNT && forall b :: 0 <= b < ENTRY_COUNT ==> table[b] == Slot(L, n, b)
  }

  ghost predicate Nondecreasing(L: seq<uint32>) {
    forall i, j :: 0 <= i < j < |L| ==> L[i] <= L[j]
  }

  /** What a jump needs: an entry with an index describes that posting, and every posting before it
      lies in an earlier bucket, so below any target of bucket b. */
  ghost predicate Safe(table: seq<Entry>, L: seq<uint32>) {
    && |table| == ENTRY_COUNT
    && forall b :: 0 <= b < ENTRY_COUNT && table[b].postingIndex != NO_POSTING ==>
         && Describes(table[b], L, table[b].postingIndex)
         && forall i :: 0 <= i < table[b].postingIndex ==> Bucket(L[i]) < b
  }

  lemma {:induction false} SlotSafe(L: seq<uint32>, n: nat, b: nat)
    requires n <= |L| && Small(L) && Nondecreasing(L)
    ensures var e := Slot(L, n, b);
      e.postingIndex != NO_POSTING ==>
        && Describes(e, L, e.postingIndex)
        && e.postingIndex < n
        && forall i :: 0 <= i < e.postingIndex ==> Bucket(L[i]) < b
  {
    var j := FirstIn(L, n, b);
    if j < n {
      forall i | 0 <= i < j ensures Bucket(L[i]) < b {
        assert L[i] <= L[j];
      }
    } else if b > 0 {
      SlotSafe(L, n, b - 1);
    }
  }

  /** The built table can be used for jumping. */
  lemma BuiltSafe(table: seq<Entry>, L: seq<uint32>)
    requires Small(L) && Nondecreasing(L) && IsTable(table, L, |L|)
    ensures Safe(table, L)
  {
    forall b | 0 <= b < ENTRY_COUNT && table[b].postingIndex != NO_POSTING
      ensures Describes(table[b], L, table[b].postingIndex)
      ensures forall i :: 0 <= i < table[b].postingIndex ==> Bucket(L[i]) < b
    {
      SlotSafe(L, |L|, b);
    }
  }

  /** The entry is the first posting of the last bucket up to b that has any, told by its number, its
      location, and the end of its code in the stream; or nothing, when none has. */
  ghost predicate LastUpTo(e: Entry, L: seq<uint32>, b: nat) {
    if exists i :: 0 <= i < |L| && L[i] / 0x100_0000 <= b then
      && e.postingIndex < |L| && e.baseLocation == L[e.postingIndex] && e.byteOffset == |Stream(L[..e.postingIndex + 1])|
      && L[e.postingIndex] / 0x100_0000 <= b
      && (forall i :: 0 <= i < e.postingIndex ==> L[i] / 0x100_0000 < L[e.postingIndex] / 0x100_0000)
      && (forall i :: 0 <= i < |L| && L[i] / 0x100_0000 <= b ==> L[i] / 0x100_0000 <= L[e.postingIndex] / 0x100_0000)
    else e == Entry(0, 0, 0xFFFF_FFFF)
  }

  lemma PostingIsLast(L: seq<uint32>, b: nat, j: nat)
    requires Small(L) && Nondecreasing(L) && j < |L| && Bucket(L[j]) == b && forall i :: 0 <= i < j ==> Bucket(L[i]) != b
    ensures LastUpTo(EntryAt(L, j), L, b)
  {
    hide Stream, Small;
    var e := EntryAt(L, j);
    assert e.postingIndex == j && e.byteOffset == |Stream(L[..j + 1])|;
    hide EntryAt;
    forall i | 0 <= i < j ensures L[i] / 0x100_0000 < b {
      assert L[i] <= L[j] && Bucket(L[i]) != b;
    }
  }

  lemma NoneInBucket(e: Entry, L: seq<uint32>, b: nat)
    requires b > 0 && LastUpTo(e, L, b - 1) && forall i :: 0 <= i < |L| ==> Bucket(L[i]) != b
    ensures LastUpTo(e, L, b)
  {
    hide Stream;
    forall i | 0 <= i < |L| ensures L[i] / 0x100_0000 <= b <==> L[i] / 0x100_0000 <= b - 1 {
      assert Bucket(L[i]) != b;
    }
  }

  /** What slot b of the built table is. */
  lemma {:induction false} SlotIs(L: seq<uint32>, b: nat)
    requires Small(L) && Nondecreasing(L) && b < ENTRY_COUNT
    ensures LastUpTo(Slot(L, |L|, b), L, b)
    decreases b
  {
    hide Stream, Small, EntryAt, Nondecreasing;
    var j := FirstIn(L, |L|, b);
    if j < |L| {
      PostingIsLast(L, b, j);
    } else if b > 0 {
      SlotIs(L, b - 1);
      hide LastUpTo;
      NoneInBucket(Slot(L, |L|, b), L, b);
    } else {
      forall i | 0 <= i < |L| ensures L[i] / 0x100_0000 > b { assert Bucket(L[i]) != b; }
    }
  }

  // ---------------------------------------------------------------- build

  /** The state of the scan after n postings: each bucket met so far holds its first posting. */
  ghost predicate Scanned(entries: seq<Entry>, initialized: seq<bool>, L: seq<uint32>, n: nat)
    requires n <= |L| && Small(L)
  {
    && |entries| == |initialized| == ENTRY_COUNT
    && forall b :: 0 <= b < ENTRY_COUNT ==>
         && initialized[b] == (FirstIn(L, n, b) < n)
         && entries[b] == if initialized[b] then EntryAt(L, FirstIn(L, n, b)) else EMPTY_ENTRY
  }

  lemma ScanStart(entries: seq<Entry>, initialized: seq<bool>, L: seq<uint32>)
    requires Small(L) && |entries| == |initialized| == ENTRY_COUNT
    requires forall b :: 0 <= b < ENTRY_COUNT ==> entries[b] == EMPTY_ENTRY && !initialized[b]
    ensures Scanned(entries, initialized, L, 0)
  {
  }

  lemma ScanStep(entries: seq<Entry>, initialized: seq<bool>, L: seq<uint32>, i: nat, b: nat)
    requires i < |L| && Small(L) && b == Bucket(L[i])
    requires Scanned(entries, initialized, L, i)
    ensures initialized[b] ==> Scanned(entries, initialized, L, i + 1)
    ensures !initialized[b] ==> Scanned(entries[b := EntryAt(L, i)], initialized[b := true], L, i + 1)
  {
  }

  lemma ScannedAt(entries: seq<Entry>, initialized: seq<bool>, L: seq<uint32>, n: nat, b: nat)
    requires n <= |L| && Small(L) && Scanned(entries, initialized, L, n) && b < ENTRY_COUNT
    ensures initialized[b] ==> entries[b] == Slot(L, n, b)
    ensures !initialized[b] ==> entries[b] == EMPTY_ENTRY
    ensures !initialized[b] ==> Slot(L, n, b) == if b == 0 then EMPTY_ENTRY else Slot(L, n, b - 1)
  {
  }

  /** Scans a stream for the first posting of each bucket, then fills the gaps forwards. */
  method Build(encoded: seq<byte>, postings: nat, ghost L: seq<uint32>) returns (r: Result<seq<Entry>>)
    requires encoded == Stream(L) && Small(L)
    ensures postings <= |L| ==> r.Ok? && IsTable(r.value, L, postings)
    ensures postings > |L| ==> if L == [] then r.Ok? && IsTable(r.value, L, 0) else r == Err(Truncated)
  {
    hide Stream, FirstIn, Slot, Scanned, Bucket;
    StreamSize(L);
    var entries := new Entry[ENTRY_COUNT](_ => EMPTY_ENTRY);
    if postings == 0 || |encoded| == 0 {
      TableOfNone(entries[..], L);
      return Ok(entries[..]);
    }
    var initialized := new bool[ENTRY_COUNT](_ => false);
    var curr := 0;
    var location: uint32 := 0;
    OffsetZero(L);
    ScanStart(entries[..], initialized[..], L);
    for i := 0 to postings
      invariant i <= |L| && curr == Offset(L, i)
      invariant location == if i == 0 then 0 else L[i - 1]
      invariant Scanned(entries[..], initialized[..], L, i)
    {
      assert i == |L| ==> L[..i] == L;
      if curr >= |encoded| {
        if i < |L| { PostingAhead(L, i); }
        return Err(Truncated);
      }
      assert i < |L|;
      location, curr := ReadPosting(encoded, curr, location, L, i);
      var index := Bucket(location);
      ScanStep(entries[..], initialized[..], L, i, index);
      if !initialized[index] {
        EntryFits(L, i);
        ghost var es, marks := entries[..], initialized[..];
        entries[index] := Entry(curr, location, i);
        initialized[index] := true;
        assert entries[..] == es[index := EntryAt(L, i)] && initialized[..] == marks[index := true];
      }
    }
    FillForwards(entries, initialized, L, postings);
    return Ok(entries[..]);
  }

  /** The second loop of SeekTable::build. */
  method FillForwards(entries: array<Entry>, initialized: array<bool>, ghost L: seq<uint32>, ghost n: nat)
    requires entries.Length == ENTRY_COUNT == initialized.Length
    requires n <= |L| && Small(L) && Scanned(entries[..], initialized[..], L, n)
    modifies entries
    ensures IsTable(entries[..], L, n)
  {
    hide Stream, FirstIn, EntryAt, Small, Slot, Scanned;
    ghost var scanned, marks := entries[..], initialized[..];
    var prev := EMPTY_ENTRY;
    var hasPrev := false;
    for k := 0 to ENTRY_COUNT
      invariant forall b :: 0 <= b < k ==> entries[b] == Slot(L, n, b)
      invariant forall b :: k <= b < ENTRY_COUNT ==> entries[b] == scanned[b]
      invariant initialized[..] == marks
      invariant prev == if k == 0 then EMPTY_ENTRY else Slot(L, n, k - 1)
      invariant !hasPrev ==> prev == EMPTY_ENTRY
    {
      assert initialized[k] == marks[k];
      ScannedAt(scanned, marks, L, n, k);
      if initialized[k] {
        prev := entries[k];
        hasPrev := true;
      } else if hasPrev {
        entries[k] := prev;
      }
    }
  }

  lemma {:induction false} SlotOfNone(L: seq<uint32>, b: nat)
    requires Small(L)
    ensures Slot(L, 0, b) == EMPTY_ENTRY
  {
    if b > 0 { SlotOfNone(L, b - 1); }
  }

  lemma TableOfNone(table: seq<Entry>, L: seq<uint32>)
    requires Small(L) && |table| == ENTRY_COUNT && forall b :: 0 <= b < ENTRY_COUNT ==> table[b] == EMPTY_ENTRY
    ensures IsTable(table, L, 0)
  {
    forall b: nat ensures Slot(L, 0, b) == EMPTY_ENTRY { SlotOfNone(L, b); }
  }

  /** Bytes remain as long as postings do. */
  lemma PostingAhead(L: seq<uint32>, i: nat)
    requires i < |L|
    ensures Offset(L, i) < |Stream(L)|
  {
    OffsetMonotone(L, i, i + 1);
    StreamPrefix(L, i + 1);
  }

  // ---------------------------------------------------------------- storing and restoring

  /** Offset and base of each entry, four bytes each; posting indices are not stored. */
  function Serialized(table: seq<Entry>): (s: seq<byte>)
    ensures |s| == 8 * |table|
  {
    if table == [] then []
    else
      var last := table[|table| - 1];
      Serialized(table[..|table| - 1]) + Little(last.byteOffset, 4) + Little(last.baseLocation, 4)
  }

  lemma {:induction false} SerializedAt(table: seq<Entry>, i: nat)
    requires i < |table|
    ensures Serialized(table)[8 * i..8 * i + 4] == Little(table[i].byteOffset, 4)
    ensures Serialized(table)[8 * i + 4..8 * i + 8] == Little(table[i].baseLocation, 4)
  {
    var front := table[..|table| - 1];
    if i < |front| {
      SerializedAt(front, i);
      assert Serialized(table)[..8 * |front|] == Serialized(front);
      assert Serialized(table)[8 * i..8 * i + 4] == Serialized(front)[8 * i..8 * i + 4];
      assert Serialized(table)[8 * i + 4..8 * i + 8] == Serialized(front)[8 * i + 4..8 * i + 8];
    }
  }

  method Serialize(entries: seq<Entry>) returns (bytes: seq<byte>)
    ensures bytes == Serialized(entries)
  {
    bytes := [];
    for i := 0 to |entries|
      invariant bytes == Serialized(entries[..i])
    {
      assert entries[..i + 1][..i] == entries[..i];
      bytes := bytes + Little(entries[i].byteOffset, 4) + Little(entries[i].baseLocation, 4);
    }
    assert entries[..|entries|] == entries;
  }

  /** Slot b after storing and restoring: as built when bucket 0 holds a posting, else without index. */
  ghost function Restored(L: seq<uint32>, n: nat, b: nat): Entry
    requires n <= |L| && Small(L)
  {
    if FirstIn(L, n, 0) < n then Slot(L, n, b) else Slot(L, n, b).(postingIndex := NO_POSTING)
  }

  /** Rebuilds a table from its bytes and finds the posting indices by scanning the list again. */
  method Deserialize(bytes: seq<byte>, data: seq<byte>, dataSize: nat, postings: nat,
                     ghost L: seq<uint32>, ghost built: seq<Entry>)
    returns (r: Result<seq<Entry>>)
    requires Encodes(data, L) && dataSize == |Stream(L)| && postings == |L|
    requires Small(L) && Nondecreasing(L) && IsTable(built, L, |L|)
    requires |bytes| == SERIALIZED_SIZE ==> bytes == Serialized(built)
    ensures |bytes| != SERIALIZED_SIZE ==> r == Err(WrongSize)
    ensures |bytes| == SERIALIZED_SIZE ==>
      r.Ok? && |r.value| == ENTRY_COUNT && forall b :: 0 <= b < ENTRY_COUNT ==> r.value[b] == Restored(L, |L|, b)
  {
    hide Stream, FirstIn, Slot, Serialized, Restored, Nondecreasing, FromLittle;
    if |bytes| != SERIALIZED_SIZE { return Err(WrongSize); }
    var entries := new Entry[ENTRY_COUNT](_ => EMPTY_ENTRY);
    for i := 0 to ENTRY_COUNT
      invariant forall b :: 0 <= b < i ==> entries[b] == Slot(L, |L|, b).(postingIndex := NO_POSTING)
    {
      SerializedAt(built, i);
      Powers();
      LittleRoundTrip(built[i].byteOffset, 4);
      LittleRoundTrip(built[i].baseLocation, 4);
      var byteOffset := FromLittle(bytes[8 * i..8 * i + 4]);
      var baseLocation := FromLittle(bytes[8 * i + 4..8 * i + 8]);
      entries[i] := Entry(byteOffset, baseLocation, NO_POSTING);
    }
    var complete := AddPostingIndexes(entries, data, dataSize, postings, L);
    return Ok(entries[..]);
  }

  /** The table while its indices are found: done before e, still without index from e on; e is stuck
      at 0 when bucket 0 is empty, and otherwise names no posting before i. */
  ghost predicate Indexed(entries: seq<Entry>, L: seq<uint32>, i: nat, e: nat)
    requires Small(L)
  {
    && |entries| == ENTRY_COUNT && e <= ENTRY_COUNT
    && (forall b :: 0 <= b < e ==> entries[b] == Slot(L, |L|, b))
    && (forall b :: e <= b < ENTRY_COUNT ==> entries[b] == Slot(L, |L|, b).(postingIndex := NO_POSTING))
    && if FirstIn(L, |L|, 0) == |L| then e == 0
       else e < ENTRY_COUNT ==> i <= Slot(L, |L|, e).postingIndex < |L|
  }

  ghost predicate NamesPosting(e: Entry, L: seq<uint32>, i: nat)
    requires i < |L|
  {
    e.byteOffset == Offset(L, i + 1) && e.baseLocation == L[i]
  }

  lemma EntriesAhead(entries: seq<Entry>, L: seq<uint32>, i: nat, e: nat)
    requires Small(L) && Indexed(entries, L, i, e) && e < ENTRY_COUNT
    ensures entries[e] == Slot(L, |L|, e).(postingIndex := NO_POSTING)
  {
  }

  /** An entry that names posting i gets its index, and the walk moves to the next entry. */
  lemma IndexFound(entries: seq<Entry>, L: seq<uint32>, i: nat, e: nat)
    requires Small(L) && Nondecreasing(L) && i < |L| && e < ENTRY_COUNT
    requires Indexed(entries, L, i, e) && NamesPosting(entries[e], L, i)
    ensures i < NO_POSTING
    ensures Indexed(entries[e := entries[e].(postingIndex := i)], L, i, e + 1)
  {
    hide Stream, Slot, Nondecreasing, Offset;
    EntriesAhead(entries, L, i, e);
    EntryFits(L, i);
    MatchIsPosting(L, e, i);
    if e + 1 < ENTRY_COUNT { SlotsAscend(L, e + 1); }
  }

  /** When the entry does not name posting i, it names a later one or none at all. */
  lemma IndexPassed(entries: seq<Entry>, L: seq<uint32>, i: nat, e: nat)
    requires Small(L) && Nondecreasing(L) && i < |L|
    requires Indexed(entries, L, i, e) && (e == ENTRY_COUNT || !NamesPosting(entries[e], L, i))
    ensures Indexed(entries, L, i + 1, e)
  {
    if e < ENTRY_COUNT && Slot(L, |L|, e).postingIndex == i {
      NoMatchIsLater(L, e, i);
    }
  }

  /** Walks list and table side by side, giving each entry that names the current posting its index.
      With an empty bucket 0 the walk never leaves entry 0, and every index stays NO_POSTING. */
  method AddPostingIndexes(entries: array<Entry>, data: seq<byte>, dataSize: nat, postings: nat,
                           ghost L: seq<uint32>) returns (complete: bool)
    requires Encodes(data, L) && dataSize == |Stream(L)| && postings == |L|
    requires Small(L) && Nondecreasing(L) && entries.Length == ENTRY_COUNT
    requires forall b :: 0 <= b < ENTRY_COUNT ==> entries[b] == Slot(L, |L|, b).(postingIndex := NO_POSTING)
    modifies entries
    ensures complete
    ensures forall b :: 0 <= b < ENTRY_COUNT ==> entries[b] == Restored(L, |L|, b)
  {
    hide Stream, Slot, Offset, Nondecreasing;
    StreamSize(L);
    OffsetZero(L);
    complete := true;
    if dataSize == 0 || postings == 0 {
      return;
    }
    SlotCases(L, 0);
    var curr, e, i := 0, 0, 0;
    var location: uint32 := 0;
    while i < postings && e < ENTRY_COUNT
      invariant i <= |L| && curr == Offset(L, i)
      invariant location == if i == 0 then 0 else L[i - 1]
      invariant Indexed(entries[..], L, i, e)
    {
      PostingAhead(L, i);
      if curr >= dataSize {
        return false;
      }
      location, curr := ReadPosting(data, curr, location, L, i);
      while e < ENTRY_COUNT && entries[e].byteOffset == curr && entries[e].baseLocation == location
        invariant Indexed(entries[..], L, i, e)
      {
        IndexFound(entries[..], L, i, e);
        ghost var es := entries[..];
        entries[e] := entries[e].(postingIndex := i);
        assert entries[..] == es[e := es[e].(postingIndex := i)];
        e := e + 1;
      }
      IndexPassed(entries[..], L, i, e);
      i := i + 1;
    }
  }

  /** An entry whose offset is that of posting i describes posting i. */
  lemma MatchIsPosting(L: seq<uint32>, e: nat, i: nat)
    requires Small(L) && Nondecreasing(L) && i < |L|
    requires Slot(L, |L|, e).byteOffset == Offset(L, i + 1)
    ensures Slot(L, |L|, e).postingIndex == i
    ensures FirstIn(L, |L|, 0) == |L| ==> e != 0
  {
    hide Stream, FirstIn;
    EntryFits(L, i);
    SlotCases(L, e);
    var j := Slot(L, |L|, e).postingIndex;
    if j < i {
      OffsetMonotone(L, j + 1, i + 1);
    } else if i < j {
      OffsetMonotone(L, i + 1, j + 1);
    }
  }

  lemma NoMatchIsLater(L: seq<uint32>, e: nat, i: nat)
    requires Small(L) && Nondecreasing(L) && i < |L|
    requires Slot(L, |L|, e).postingIndex == i
    ensures Slot(L, |L|, e).byteOffset == Offset(L, i + 1)
    ensures Slot(L, |L|, e).baseLocation == L[i]
  {
    EntryFits(L, i);
    SlotCases(L, e);
  }

  /** A slot is empty or describes the first posting of some bucket up to its own. */
  lemma {:induction false} SlotCases(L: seq<uint32>, e: nat)
    requires Small(L)
    ensures var s := Slot(L, |L|, e);
      s == EMPTY_ENTRY || (s.postingIndex < |L| && Describes(s, L, s.postingIndex))
    ensures FirstIn(L, |L|, 0) < |L| ==> Slot(L, |L|, e).postingIndex < |L|
    ensures |L| <= NO_POSTING
  {
    if FirstIn(L, |L|, e) == |L| && e > 0 {
      SlotCases(L, e - 1);
    }
    StreamSize(L);
  }

  /** Along the table the described postings never go back. */
  lemma SlotsAscend(L: seq<uint32>, e: nat)
    requires Small(L) && Nondecreasing(L) && 0 < e
    requires FirstIn(L, |L|, 0) < |L|
    ensures Slot(L, |L|, e - 1).postingIndex <= Slot(L, |L|, e).postingIndex < |L|
  {
    hide Stream, Nondecreasing, Offset, Small;
    SlotCases(L, e);
    SlotCases(L, e - 1);
    var j := FirstIn(L, |L|, e);
    if j < |L| {
      SlotSafe(L, |L|, e - 1);
      SlotBucket(L, e - 1);
      BucketOrder(L, Slot(L, |L|, e - 1).postingIndex, j);
    }
  }

  lemma BucketOrder(L: seq<uint32>, k: nat, j: nat)
    requires Nondecreasing(L) && k < |L| && j < |L| && Bucket(L[k]) < Bucket(L[j])
    ensures k < j
  {
  }

  lemma {:induction false} SlotBucket(L: seq<uint32>, e: nat)
    requires Small(L)
    ensures var s := Slot(L, |L|, e); s != EMPTY_ENTRY ==> Bucket(s.baseLocation) <= e
  {
    if FirstIn(L, |L|, e) == |L| && e > 0 { SlotBucket(L, e - 1); }
  }

  /** A restored table can be used for jumping, whether or not its indices were found. */
  lemma RestoredSafe(table: seq<Entry>, L: seq<uint32>)
    requires Small(L) && Nondecreasing(L) && |table| == ENTRY_COUNT
    requires forall b :: 0 <= b < ENTRY_COUNT ==> table[b] == Restored(L, |L|, b)
    ensures Safe(table, L)
  {
    forall b | 0 <= b < ENTRY_COUNT && table[b].postingIndex != NO_POSTING
      ensures Describes(table[b], L, table[b].postingIndex)
      ensures forall i :: 0 <= i < table[b].postingIndex ==> Bucket(L[i]) < b
    {
      SlotSafe(L, |L|, b);
    }
  }

  /** Storing and restoring gives the built table back exactly when the list is empty or its first
      location lies below 2^24. */
  lemma RestoredIsBuilt(built: seq<Entry>, table: seq<Entry>, L: seq<uint32>)
    requires Small(L) && Nondecreasing(L) && IsTable(built, L, |L|) && |table| == ENTRY_COUNT
    requires forall b :: 0 <= b < ENTRY_COUNT ==> table[b] == Restored(L, |L|, b)
    ensures table == built <==> L == [] || L[0] < 0x100_0000
  {
    if L == [] {
      forall b: nat ensures Slot(L, 0, b) == EMPTY_ENTRY { SlotOfNone(L, b); }
    } else if L[0] < 0x100_0000 {
      assert FirstIn(L, |L|, 0) == 0;
    } else {
      assert FirstIn(L, |L|, 0) == |L| by {
        forall j | 0 <= j < |L| ensures Bucket(L[j]) != 0 { assert j == 0 || L[0] <= L[j]; }
      }
      var b := Bucket(L[0]);
      assert FirstIn(L, |L|, b) < |L|;
      assert built[b].postingIndex != table[b].postingIndex;
    }
  }
}
