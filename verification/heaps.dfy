/** Binary heaps in a sequence, least key on top: what the sift loops of TopKHeap and PriorityQueue
    rely on. */
module Heaps {
  function Parent(i: nat): nat
    requires i > 0
  {
    (i - 1) / 2
  }

  /** Nothing has a lesser key than its parent. */
  ghost predicate IsHeap<T>(data: seq<T>, key: T -> real) {
    forall i :: 0 < i < |data| ==> key(data[Parent(i)]) <= key(data[i])
  }

  lemma {:induction false} TopIsLeast<T>(data: seq<T>, key: T -> real, i: nat)
    requires IsHeap(data, key) && i < |data|
    ensures key(data[0]) <= key(data[i])
  {
    if i > 0 { TopIsLeast(data, key, Parent(i)); }
  }

  /** A heap but for the element at idx, whose key may be too small for its place. */
  ghost predicate ButUp<T>(data: seq<T>, key: T -> real, idx: nat) {
    && (forall i :: 0 < i < |data| && i != idx ==> key(data[Parent(i)]) <= key(data[i]))
    && (forall i :: 0 < i < |data| && Parent(i) == idx && idx > 0 ==> key(data[Parent(idx)]) <= key(data[i]))
  }

  /** A heap but for the element at idx, whose key may be too great for its place. */
  ghost predicate ButDown<T>(data: seq<T>, key: T -> real, idx: nat) {
    && (forall i :: 0 < i < |data| && Parent(i) != idx ==> key(data[Parent(i)]) <= key(data[i]))
    && (forall i :: 0 < i < |data| && Parent(i) == idx && idx > 0 ==> key(data[Parent(idx)]) <= key(data[i]))
  }

  function Swapped<T(==)>(data: seq<T>, i: nat, j: nat): (s: seq<T>)
    requires i < |data| && j < |data|
    ensures |s| == |data| && multiset(s) == multiset(data)
    ensures s[i] == data[j] && s[j] == data[i] && forall k :: 0 <= k < |data| && k != i && k != j ==> s[k] == data[k]
  {
    data[i := data[j]][j := data[i]]
  }

  lemma DownStep<T>(data: seq<T>, key: T -> real, idx: nat, best: nat)
    requires ButDown(data, key, idx) && idx < best < |data| && Parent(best) == idx && key(data[best]) < key(data[idx])
    requires 2 * idx + 1 < |data| ==> key(data[best]) <= key(data[2 * idx + 1])
    requires 2 * idx + 2 < |data| ==> key(data[best]) <= key(data[2 * idx + 2])
    ensures ButDown(Swapped(data, idx, best), key, best)
  {
    var s := Swapped(data, idx, best);
    forall i | 0 < i < |s| && Parent(i) != best ensures key(s[Parent(i)]) <= key(s[i]) {
      if Parent(i) == idx {
        assert i == 2 * idx + 1 || i == 2 * idx + 2;
      } else if i == idx {
        assert key(data[Parent(idx)]) <= key(data[best]);
      }
    }
    forall i | 0 < i < |s| && Parent(i) == best ensures key(s[Parent(best)]) <= key(s[i]) {
      assert key(data[best]) <= key(data[i]);
    }
  }

  lemma DownEnds<T>(data: seq<T>, key: T -> real, idx: nat)
    requires ButDown(data, key, idx)
    requires 2 * idx + 1 < |data| ==> key(data[idx]) <= key(data[2 * idx + 1])
    requires 2 * idx + 2 < |data| ==> key(data[idx]) <= key(data[2 * idx + 2])
    ensures IsHeap(data, key)
  {
    forall i | 0 < i < |data| ensures key(data[Parent(i)]) <= key(data[i]) {
      if Parent(i) == idx { assert i == 2 * idx + 1 || i == 2 * idx + 2; }
    }
  }

  /** The last element in place of the first: a heap but for the top. */
  lemma TopMoved<T>(data: seq<T>, key: T -> real, s: seq<T>)
    requires IsHeap(data, key) && |data| > 0 && s == data[0 := data[|data| - 1]][..|data| - 1]
    ensures ButDown(s, key, 0) && multiset(s) + multiset{data[0]} == multiset(data)
  {
    var n := |data| - 1;
    if n == 0 {
      assert data == [data[0]] && s == [];
    } else {
      assert data == [data[0]] + data[1..n] + [data[n]];
      assert s == [data[n]] + data[1..n];
    }
  }

  lemma UpStep<T>(data: seq<T>, key: T -> real, idx: nat)
    requires 0 < idx < |data| && ButUp(data, key, idx) && key(data[idx]) < key(data[Parent(idx)])
    ensures ButUp(Swapped(data, idx, Parent(idx)), key, Parent(idx))
  {
  }

  lemma UpEnds<T>(data: seq<T>, key: T -> real, idx: nat)
    requires idx < |data| && ButUp(data, key, idx) && (idx > 0 ==> key(data[Parent(idx)]) <= key(data[idx]))
    ensures IsHeap(data, key)
  {
  }

  lemma LastAdded<T>(data: seq<T>, key: T -> real, value: T)
    requires IsHeap(data, key)
    ensures ButUp(data + [value], key, |data|)
  {
  }
}
