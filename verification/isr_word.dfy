/** The iterator over one posting list (src/index/src/lib/isr.cpp). */
module WordIterator {
  import opened Basics
  import opened VByte
  import opened SeekTable
  import opened Layout

  /** A posting list as the index writes it: never descending, below the sentinel, and small enough
      for the 32-bit size fields of the chunk. */
  ghost predicate IsPostingList(L: seq<uint32>) {
    && Nondecreasing(L)
    && Small(L)
    && forall i :: 0 <= i < |L| ==> L[i] < SENTINEL
  }

  /** Linear scan: the first posting from index at on that is not below target. */
  function Scan(L: seq<uint32>, at: nat, target: uint32): (r: nat)
    requires at <= |L|
    ensures at <= r <= |L|
    ensures forall i :: at <= i < r ==> L[i] < target
    ensures r < |L| ==> L[r] >= target
    decreases |L| - at
  {
    if at == |L| || L[at] >= target then at else Scan(L, at + 1, target)
  }

  lemma {:induction false} ScanSkips(L: seq<uint32>, at: nat, j: nat, target: uint32)
    requires at <= j <= |L|
    requires forall i :: at <= i < j ==> L[i] < target
    ensures Scan(L, at, target) == Scan(L, j, target)
    decreases j - at
  {
    if at < j { ScanSkips(L, at + 1, j, target); }
  }

  function LocationAt(L: seq<uint32>, at: nat): uint32 {
    if at < |L| then L[at] else SENTINEL
  }

  ghost function Locations(L: seq<uint32>): iset<nat> {
    iset x: nat | x in L
  }

  /** In terms of locations, a scan moves to the first one not below the target and not behind. */
  lemma ScanIsFirst(L: seq<uint32>, at: nat, target: uint32)
    requires IsPostingList(L) && at <= |L|
    ensures IsFirst(Locations(L), Max(LocationAt(L, at), target), LocationAt(L, Scan(L, at, target)))
  {
    var r := Scan(L, at, target);
    forall h | h in Locations(L) && Max(LocationAt(L, at), target) <= h
      ensures LocationAt(L, r) <= h
    {
      var i :| 0 <= i < |L| && L[i] == h;
      if i < r {
        if i < at { assert at < |L| ==> L[i] <= L[at]; }
      } else {
        assert i == r || L[r] <= L[i];
      }
    }
  }

  lemma Later(L: seq<uint32>, i: nat, j: nat)
    requires Nondecreasing(L) && i < |L| && j < |L| && L[i] < L[j]
    ensures i < j
  {
  }

  /** One step forward stays, on a repeated location, or moves to the next one. */
  lemma StepIsFirst(L: seq<uint32>, at: nat)
    requires IsPostingList(L) && at <= |L|
    ensures var next := LocationAt(L, at + 1);
      next == LocationAt(L, at) || IsFirst(Locations(L), LocationAt(L, at) + 1, next)
  {
    if at < |L| {
      forall h | h in Locations(L) && L[at] + 1 <= h ensures LocationAt(L, at + 1) <= h {
        var i :| 0 <= i < |L| && L[i] == h;
        Later(L, at, i);
        assert at + 1 == i || L[at + 1] <= L[i];
      }
    }
  }

  class IsrWord {
    const data: seq<byte>
    const numPostings: uint32
    const seekTable: Option<seq<Entry>>
    var currentIndex: nat
    var currentLoc: uint32
    var currentPtr: nat
    var exhausted: bool

    /** The locations coded in data, and the documents they belong to. */
    ghost const list: seq<uint32>
    ghost const docs: seq<Span>

    ghost predicate Shape() {
      && IsPostingList(list) && Encodes(data, list) && |list| == numPostings
      && (seekTable.Some? ==> Safe(seekTable.value, list))
    }

    /** The state between two reads; before the first one no posting is current. */
    ghost predicate Reading()
      reads this
    {
      && Shape()
      && currentIndex <= |list|
      && (exhausted ==> currentIndex == |list|)
      && (!exhausted ==> currentPtr == Offset(list, currentIndex))
      && (!exhausted ==> currentLoc == if currentIndex == 0 then 0 else list[currentIndex - 1])
    }

    ghost predicate Valid()
      reads this
    {
      Reading() && (exhausted || currentIndex > 0)
    }

    /** The index of the current posting; the length of the list when there is none. */
    ghost function At(): (at: nat)
      requires Valid()
      reads this
      ensures at <= |list|
    {
      if exhausted then |list| else currentIndex - 1
    }

    constructor (data: seq<byte>, numPostings: uint32, table: Option<seq<Entry>>, ghost list: seq<uint32>,
                 ghost docs: seq<Span>)
      requires IsPostingList(list) && Encodes(data, list) && |list| == numPostings
      requires table.Some? ==> Safe(table.value, list)
      ensures Valid() && At() == 0
      ensures this.list == list && this.docs == docs
    {
      this.data := data;
      this.numPostings := numPostings;
      seekTable := table;
      currentIndex, currentLoc, currentPtr := 0, 0, 0;
      exhausted := numPostings == 0;
      this.list := list;
      this.docs := docs;
      new;
      OffsetZero(list);
      if !exhausted {
        var _ := Next();
      }
    }

    /** Moves one posting forward. */
    method Next() returns (loc: uint32)
      requires Reading()
      modifies this
      ensures Valid()
      ensures At() == if old(exhausted) then |list| else old(currentIndex)
      ensures loc == LocationAt(list, At())
    {
      if exhausted {
        return SENTINEL;
      }
      if currentIndex >= numPostings {
        exhausted := true;
        currentLoc := SENTINEL;
        return SENTINEL;
      }
      currentLoc, currentPtr := ReadPosting(data, currentPtr, currentLoc, list, currentIndex);
      currentIndex := currentIndex + 1;
      return currentLoc;
    }

    /** With or without a seek table, ends where the linear scan from the current posting ends. */
    method Seek(target: uint32) returns (loc: uint32)
      requires Valid()
      modifies this
      ensures Valid()
      ensures At() == Scan(list, old(At()), target)
      ensures loc == LocationAt(list, At())
    {
      hide Encodes, Offset, IsPostingList, Safe, Scan;
      if exhausted {
        return SENTINEL;
      }
      ghost var goal := Scan(list, At(), target);
      if currentLoc >= target && currentIndex > 0 {
        return currentLoc;
      }
      if seekTable.Some? {
        Jump(target);
        if currentLoc >= target {
          return currentLoc;
        }
      }
      ScanSkips(list, At(), At() + 1, target);
      while !exhausted
        invariant Valid()
        invariant !exhausted ==> Scan(list, currentIndex, target) == goal
        invariant exhausted ==> goal == |list|
        decreases !exhausted, |list| - currentIndex
      {
        ghost var i := currentIndex;
        loc := Next();
        if loc >= target {
          return loc;
        }
        if i < |list| { ScanSkips(list, i, i + 1, target); }
      }
      return SENTINEL;
    }

    /** The jump inside ISRWord::seek: to the entry of the target's bucket when that lies ahead. */
    method Jump(target: uint32)
      requires Valid() && !exhausted && seekTable.Some? && currentLoc < target
      modifies this
      ensures Valid() && !exhausted
      ensures Scan(list, At(), target) == Scan(list, old(At()), target)
    {
      hide Encodes, Offset, IsPostingList, Scan;
      var entry := seekTable.value[Bucket(target)];
      if entry.postingIndex != NO_POSTING && entry.postingIndex + 1 > currentIndex {
        JumpIsSafe(seekTable.value, list, target);
        ScanSkips(list, At(), entry.postingIndex, target);
        currentPtr := entry.byteOffset;
        currentLoc := entry.baseLocation;
        currentIndex := entry.postingIndex + 1;
      }
    }
  }

  /** Every posting before the one an entry names lies below the target that selects the entry. */
  lemma JumpIsSafe(table: seq<Entry>, L: seq<uint32>, target: uint32)
    requires Safe(table, L)
    requires table[Bucket(target)].postingIndex != NO_POSTING
    ensures Describes(table[Bucket(target)], L, table[Bucket(target)].postingIndex)
    ensures forall i :: 0 <= i < table[Bucket(target)].postingIndex ==> L[i] < target
  {
    var e := table[Bucket(target)];
    forall i | 0 <= i < e.postingIndex ensures L[i] < target {
      assert Bucket(L[i]) < Bucket(target);
    }
  }
}
