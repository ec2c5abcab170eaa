/** The containers of the crawl frontier: a queue over a vector whose front is compacted lazily
    (src/crawler/frontier.h) and a binary heap (src/utils/PriorityQueue.hpp). Each is proved against
    the plain value it stands for. */
module Queues {
  import opened Basics
  import opened Heaps

  // ---------------------------------------------------------------- BufferedQueue

  class BufferedQueue<T> {
    var storage: seq<T>
    var frontIndex: nat

    ghost predicate Valid()
      reads this
    {
      frontIndex <= |storage|
    }

    ghost function Contents(): seq<T>
      requires Valid()
      reads this
    {
      storage[frontIndex..]
    }

    constructor ()
      ensures Valid() && Contents() == []
    {
      storage := [];
      frontIndex := 0;
    }

    predicate Empty()
      reads this
    {
      frontIndex >= |storage|
    }

    method PushBack(value: T)
      requires Valid()
      modifies this
      ensures Valid() && Contents() == old(Contents()) + [value]
    {
      storage := storage + [value];
    }

    method PushFront(value: T)
      requires Valid()
      modifies this
      ensures Valid() && Contents() == [value] + old(Contents())
    {
      if frontIndex > 0 && (frontIndex == |storage| || frontIndex * 2 >= |storage|) {
        Compact();
      }
      ghost var c := Contents();
      storage := storage[..frontIndex] + [value] + storage[frontIndex..];
      assert Contents() == [value] + c;
    }

    method PopFront() returns (value: T)
      requires Valid() && Contents() != []
      modifies this
      ensures Valid() && old(Contents()) == [value] + Contents()
    {
      value := storage[frontIndex];
      frontIndex := frontIndex + 1;
      MaybeCompact();
    }

    method EraseAt(index: nat)
      requires Valid() && index < |Contents()|
      modifies this
      ensures Valid() && Contents() == old(Contents())[..index] + old(Contents())[index + 1..]
    {
      ghost var was, c := storage, Contents();
      var at := frontIndex + index;
      for i := at + 1 to |storage|
        invariant |storage| == |was| && frontIndex == old(frontIndex)
        invariant forall k :: 0 <= k < at ==> storage[k] == was[k]
        invariant forall k :: at <= k < i - 1 ==> storage[k] == was[k + 1]
        invariant forall k :: i - 1 <= k < |was| ==> storage[k] == was[k]
      {
        storage := storage[i - 1 := storage[i]];
      }
      storage := storage[..|storage| - 1];
      assert Contents() == c[..index] + c[index + 1..];
      MaybeCompact();
    }

    method MaybeCompact()
      requires Valid()
      modifies this
      ensures Valid() && Contents() == old(Contents())
    {
      if frontIndex == 0 {
        return;
      }
      if frontIndex >= |storage| {
        storage := [];
        frontIndex := 0;
        return;
      }
      if frontIndex < 32 || frontIndex * 2 < |storage| {
        return;
      }
      Compact();
    }

    /** Moves the live elements to the start and cuts off the rest. */
    method Compact()
      requires Valid()
      modifies this
      ensures Valid() && frontIndex == 0 && Contents() == old(Contents())
    {
      var activeSize := |storage| - frontIndex;
      ghost var was := storage;
      for i := 0 to activeSize
        invariant |storage| == |was| && frontIndex == old(frontIndex)
        invariant forall k :: 0 <= k < i ==> storage[k] == was[frontIndex + k]
        invariant forall k :: i <= k < |was| ==> storage[k] == was[k]
      {
        storage := storage[i := storage[frontIndex + i]];
      }
      storage := storage[..activeSize];
      frontIndex := 0;
    }
  }

  // ---------------------------------------------------------------- PriorityQueue

  /** A heap that gives the element with the least key first. */
  class PriorityQueue<T(==)> {
    var data: seq<T>
    const key: T -> real

    ghost predicate Valid()
      reads this
    {
      IsHeap(data, key)
    }

    ghost function Contents(): multiset<T>
      reads this
    {
      multiset(data)
    }

    constructor (key: T -> real)
      ensures Valid() && Contents() == multiset{} && this.key == key
    {
      this.key := key;
      data := [];
    }

    method Push(value: T)
      requires Valid()
      modifies this
      ensures Valid() && Contents() == old(Contents()) + multiset{value}
    {
      LastAdded(data, key, value);
      data := data + [value];
      SiftUp(|data| - 1);
    }

    /** None where the source throws. */
    method ExtractTop() returns (top: Option<T>)
      requires Valid()
      modifies this
      ensures Valid() && (top.Some? <==> old(data) != [])
      ensures top.None? ==> data == []
      ensures top.Some? ==>
                && top.value == old(data[0]) && old(Contents()) == Contents() + multiset{top.value} && |data| < old(|data|)
                && forall x :: x in old(Contents()) ==> key(top.value) <= key(x)
    {
      if data == [] {
        return None;
      }
      var result := data[0];
      forall x | x in multiset(data) ensures key(result) <= key(x) {
        var i :| 0 <= i < |data| && data[i] == x;
        TopIsLeast(data, key, i);
      }
      top := Some(result);
      if |data| == 1 {
        assert data == [result];
        data := [];
        return;
      }
      ghost var was := data;
      data := data[0 := data[|data| - 1]];
      data := data[..|data| - 1];
      TopMoved(was, key, data);
      SiftDown(0);
    }

    method SiftUp(start: nat)
      requires start < |data| && ButUp(data, key, start)
      modifies this
      ensures Valid() && Contents() == old(Contents()) && |data| == old(|data|)
    {
      hide ButUp, IsHeap;
      var idx: nat, n := start, |data|;
      while idx > 0
        invariant idx < |data| == n && ButUp(data, key, idx)
        invariant Contents() == old(Contents())
      {
        var p := Parent(idx);
        if !(key(data[idx]) < key(data[p])) {
          break;
        }
        UpStep(data, key, idx);
        data := Swapped(data, idx, p);
        idx := p;
      }
      UpEnds(data, key, idx);
    }

    method SiftDown(start: nat)
      requires ButDown(data, key, start)
      modifies this
      ensures Valid() && Contents() == old(Contents()) && |data| == old(|data|)
    {
      hide ButDown, IsHeap;
      var idx: nat, n := start, |data|;
      while true
        invariant |data| == n && ButDown(data, key, idx)
        invariant Contents() == old(Contents())
        decreases n - idx
      {
        var best, l, r := idx, 2 * idx + 1, 2 * idx + 2;
        if l < n && key(data[l]) < key(data[best]) { best := l; }
        if r < n && key(data[r]) < key(data[best]) { best := r; }
        if best == idx {
          DownEnds(data, key, idx);
          break;
        }
        DownStep(data, key, idx, best);
        data := Swapped(data, idx, best);
        idx := best;
      }
    }
  }
}
