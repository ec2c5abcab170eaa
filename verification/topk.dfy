/** The bounded min-heap that keeps the K best scores (TopKHeap in src/index/src/lib/query_engine.cpp
    and src/query/worker_node.cpp), and the merge of per-chunk results. */
module TopK {
  import opened Basics
  import opened Heaps

  /** A document, or whatever it is that is ranked, with its score. */
  datatype Scored<D> = Scored(docId: D, score: real)

  // ---------------------------------------------------------------- what the K best are

  ghost predicate Descending<D>(r: seq<Scored<D>>) {
    forall i, j :: 0 <= i < j < |r| ==> r[i].score >= r[j].score
  }

  /** Nothing that was left out scores more than anything that was kept. */
  ghost predicate Dominates<D>(kept: multiset<Scored<D>>, all: multiset<Scored<D>>) {
    forall x, y :: x in all - kept && y in kept ==> x.score <= y.score
  }

  ghost predicate IsTopK<D>(r: seq<Scored<D>>, all: multiset<Scored<D>>, k: nat) {
    && Descending(r)
    && |r| == Min(k, |all|)
    && multiset(r) <= all
    && Dominates(multiset(r), all)
  }

  function Scores<D>(r: seq<Scored<D>>): (s: seq<real>)
    ensures |s| == |r| && forall i :: 0 <= i < |r| ==> s[i] == r[i].score
  {
    seq(|r|, i requires 0 <= i < |r| => r[i].score)
  }

  lemma SubsetSize<D>(a: multiset<Scored<D>>, b: multiset<Scored<D>>)
    requires a <= b
    ensures |a| <= |b|
  {
    assert b == a + (b - a);
  }

  /** The scores of the K best do not depend on which of several equal documents are kept. */
  lemma ScoresUnique<D>(r: seq<Scored<D>>, q: seq<Scored<D>>, all: multiset<Scored<D>>, k: nat)
    requires IsTopK(r, all, k) && IsTopK(q, all, k)
    ensures Scores(r) == Scores(q)
  {
    forall j | 0 <= j < |r| ensures r[j].score == q[j].score {
      NotBelow(r, q, all, k, j);
      NotBelow(q, r, all, k, j);
    }
  }

  /** An element that beats a kept one is kept as often as it was pushed. */
  lemma BetterIsKept<D>(x: Scored<D>, y: Scored<D>, kept: multiset<Scored<D>>, all: multiset<Scored<D>>)
    requires kept <= all && Dominates(kept, all) && y in kept && x.score > y.score
    ensures all[x] == kept[x]
  {
    assert x in all - kept <==> all[x] > kept[x];
  }

  lemma NotBelow<D>(r: seq<Scored<D>>, q: seq<Scored<D>>, all: multiset<Scored<D>>, k: nat, j: nat)
    requires IsTopK(r, all, k) && IsTopK(q, all, k) && j < |r|
    ensures r[j].score <= q[j].score
  {
    if r[j].score > q[j].score {
      var front, rest := multiset(r[..j + 1]), multiset(q[..j]);
      assert q[j] in multiset(q);
      forall x | x in front ensures front[x] <= rest[x] {
        Split(r, j + 1, x);
        Split(q, j, x);
        FrontScores(r, q, j, x);
        BetterIsKept(x, q[j], multiset(q), all);
      }
      SubsetSize(front, rest);
    }
  }

  lemma Split<D>(r: seq<Scored<D>>, n: nat, x: Scored<D>)
    requires n <= |r|
    ensures multiset(r)[x] == multiset(r[..n])[x] + multiset(r[n..])[x]
  {
    assert r == r[..n] + r[n..];
  }

  lemma FrontScores<D>(r: seq<Scored<D>>, q: seq<Scored<D>>, j: nat, x: Scored<D>)
    requires Descending(r) && Descending(q) && j < |r| && j < |q| && r[j].score > q[j].score
    requires x in multiset(r[..j + 1])
    ensures x.score > q[j].score && multiset(q[j..])[x] == 0
  {
    assert x in r[..j + 1];
    assert x !in q[j..];
  }

  // ---------------------------------------------------------------- the heap

  function ScoreOf<D>(x: Scored<D>): real { x.score }

  lemma RootLeast<D>(h: seq<Scored<D>>)
    requires IsHeap(h, ScoreOf) && |h| > 0
    ensures forall y :: y in multiset(h) ==> h[0].score <= y.score
  {
    hide IsHeap;
    forall y | y in multiset(h) ensures h[0].score <= y.score {
      var i :| 0 <= i < |h| && h[i] == y;
      TopIsLeast(h, ScoreOf, i);
    }
  }

  lemma RootReplaced<D>(h: seq<Scored<D>>, item: Scored<D>)
    requires IsHeap(h, ScoreOf) && |h| > 0
    ensures ButDown(h[0 := item], ScoreOf, 0)
    ensures multiset(h[0 := item]) == multiset(h) - multiset{h[0]} + multiset{item}
  {
  }

  class TopKHeap<D(==)> {
    var heap: seq<Scored<D>>
    const k: nat

    /** Everything pushed so far. */
    ghost var pushed: multiset<Scored<D>>

    ghost predicate Valid()
      reads this
    {
      && IsHeap(heap, ScoreOf)
      && |heap| == Min(k, |pushed|)
      && multiset(heap) <= pushed
      && Dominates(multiset(heap), pushed)
    }

    constructor (k: nat)
      ensures Valid() && this.k == k && pushed == multiset{}
    {
      this.k := k;
      heap := [];
      pushed := multiset{};
    }

    method HeapifyUp(start: nat)
      requires start < |heap| && ButUp(heap, ScoreOf, start)
      modifies this`heap
      ensures IsHeap(heap, ScoreOf) && multiset(heap) == old(multiset(heap)) && |heap| == old(|heap|)
    {
      hide ButUp, IsHeap;
      var index: nat := start;
      while index > 0
        invariant index < |heap| == old(|heap|) && ButUp(heap, ScoreOf, index)
        invariant multiset(heap) == old(multiset(heap))
      {
        var parent := Parent(index);
        if heap[index].score < heap[parent].score {
          UpStep(heap, ScoreOf, index);
          heap := Swapped(heap, index, parent);
          index := parent;
        } else {
          break;
        }
      }
      UpEnds(heap, ScoreOf, index);
    }

    method HeapifyDown(start: nat)
      requires ButDown(heap, ScoreOf, start)
      modifies this`heap
      ensures IsHeap(heap, ScoreOf) && multiset(heap) == old(multiset(heap)) && |heap| == old(|heap|)
    {
      hide ButDown, IsHeap;
      var index: nat, size := start, |heap|;
      while true
        invariant |heap| == size && ButDown(heap, ScoreOf, index)
        invariant multiset(heap) == old(multiset(heap))
        decreases size - index
      {
        var left, right, smallest := 2 * index + 1, 2 * index + 2, index;
        if left < size && heap[left].score < heap[smallest].score { smallest := left; }
        if right < size && heap[right].score < heap[smallest].score { smallest := right; }
        if smallest == index {
          DownEnds(heap, ScoreOf, index);
          break;
        }
        DownStep(heap, ScoreOf, index, smallest);
        heap := Swapped(heap, index, smallest);
        index := smallest;
      }
    }

    /** Keeps the item if it is among the K best so far. With K = 0 the source reads the root of an
        empty heap. */
    method Push(item: Scored<D>)
      requires Valid() && k > 0
      modifies this
      ensures Valid() && pushed == old(pushed) + multiset{item}
    {
      hide Dominates, IsHeap;
      ghost var before, all := multiset(heap), pushed;
      pushed := pushed + multiset{item};
      if |heap| < k {
        LastAdded(heap, ScoreOf, item);
        heap := heap + [item];
        AllKept(before, all);
        HeapifyUp(|heap| - 1);
        KeptAll(multiset(heap), pushed);
      } else {
        RootLeast(heap);
        if item.score > heap[0].score {
          Replaced(before, all, heap[0], item);
          RootReplaced(heap, item);
          heap := heap[0 := item];
          HeapifyDown(0);
        } else {
          Rejected(before, all, heap[0].score, item);
        }
      }
    }

    /** Takes the least element out: the last one takes its place and sifts down. */
    method PopLeast() returns (least: Scored<D>)
      requires IsHeap(heap, ScoreOf) && |heap| > 0
      modifies this`heap
      ensures IsHeap(heap, ScoreOf) && multiset(heap) + multiset{least} == old(multiset(heap)) && |heap| == old(|heap|) - 1
      ensures forall y :: y in heap ==> least.score <= y.score
    {
      least := heap[0];
      ghost var h := heap;
      heap := heap[0 := heap[|heap| - 1]];
      heap := heap[..|heap| - 1];
      TopMoved(h, ScoreOf, heap);
      HeapifyDown(0);
      forall y | y in heap ensures least.score <= y.score {
        assert y in multiset(heap) && y in multiset(h);
        var i :| 0 <= i < |h| && h[i] == y;
        TopIsLeast(h, ScoreOf, i);
      }
    }

    /** Empties the heap into a list, worst first. */
    method Drain() returns (sorted: seq<Scored<D>>)
      requires IsHeap(heap, ScoreOf)
      modifies this`heap
      ensures heap == [] && Ascending(sorted) && multiset(sorted) == old(multiset(heap))
    {
      hide Ascending, IsHeap;
      AscendingNone<D>();
      sorted := [];
      while |heap| > 0
        invariant IsHeap(heap, ScoreOf) && multiset(sorted) + multiset(heap) == old(multiset(heap))
        invariant Ascending(sorted)
        invariant sorted != [] ==> forall y :: y in heap ==> sorted[|sorted| - 1].score <= y.score
        decreases |heap|
      {
        ghost var before := heap;
        var least := PopLeast();
        assert least in multiset(before);
        AscendingMore(sorted, least);
        sorted := sorted + [least];
      }
    }

    /** Empties the heap into the list of the K best, best first. */
    method ExtractSorted() returns (sorted: seq<Scored<D>>)
      requires Valid()
      modifies this`heap
      ensures heap == [] && IsTopK(sorted, pushed, k)
    {
      hide Ascending, Descending, IsHeap, Dominates;
      ghost var size := |heap|;
      var ascending := Drain();
      sorted := Reverse(ascending);
      DescendingOf(ascending, sorted);
      assert |multiset(sorted)| == size;
    }
  }

  ghost predicate Ascending<D>(s: seq<Scored<D>>) {
    forall i, j :: 0 <= i < j < |s| ==> s[i].score <= s[j].score
  }

  lemma AscendingNone<D>()
    ensures Ascending<D>([])
  {
  }

  lemma AscendingMore<D>(s: seq<Scored<D>>, x: Scored<D>)
    requires Ascending(s) && (s != [] ==> s[|s| - 1].score <= x.score)
    ensures Ascending(s + [x])
  {
  }

  lemma DescendingOf<D>(s: seq<Scored<D>>, r: seq<Scored<D>>)
    requires Ascending(s) && |r| == |s| && forall j :: 0 <= j < |r| ==> r[j] == s[|r| - 1 - j]
    ensures Descending(r)
  {
  }

  /** The swap loop at the end of extractSorted. */
  method Reverse<D(==)>(ascending: seq<Scored<D>>) returns (r: seq<Scored<D>>)
    ensures |r| == |ascending| && multiset(r) == multiset(ascending)
    ensures forall j :: 0 <= j < |r| ==> r[j] == ascending[|r| - 1 - j]
  {
    r := ascending;
    var n := |r|;
    for i := 0 to n / 2
      invariant |r| == n && multiset(r) == multiset(ascending)
      invariant forall j :: 0 <= j < i ==> r[j] == ascending[n - 1 - j] && r[n - 1 - j] == ascending[j]
      invariant forall j :: i <= j < n - i ==> r[j] == ascending[j]
    {
      r := Swapped(r, i, n - 1 - i);
    }
  }

  lemma AllKept<D>(kept: multiset<Scored<D>>, all: multiset<Scored<D>>)
    requires kept <= all && |kept| == |all|
    ensures kept == all
  {
    assert all == kept + (all - kept);
  }

  lemma KeptAll<D>(kept: multiset<Scored<D>>, all: multiset<Scored<D>>)
    requires kept == all
    ensures Dominates(kept, all)
  {
  }

  /** Replacing the least of the kept by a better item keeps the best. */
  lemma Replaced<D>(kept: multiset<Scored<D>>, all: multiset<Scored<D>>, root: Scored<D>, item: Scored<D>)
    requires kept <= all && Dominates(kept, all) && root in kept && root.score < item.score
    requires forall y :: y in kept ==> root.score <= y.score
    ensures var now := kept - multiset{root} + multiset{item};
      now <= all + multiset{item} && Dominates(now, all + multiset{item})
  {
    var now := kept - multiset{root} + multiset{item};
    forall x, y | x in all + multiset{item} - now && y in now ensures x.score <= y.score {
      assert x == root || x in all - kept;
      assert y == item || y in kept;
    }
  }

  lemma Rejected<D>(kept: multiset<Scored<D>>, all: multiset<Scored<D>>, least: real, item: Scored<D>)
    requires kept <= all && Dominates(kept, all) && item.score <= least
    requires forall y :: y in kept ==> least <= y.score
    ensures kept <= all + multiset{item} && Dominates(kept, all + multiset{item})
  {
    forall x, y | x in all + multiset{item} - kept && y in kept ensures x.score <= y.score {
      assert x == item || x in all - kept;
    }
  }

  // ---------------------------------------------------------------- merging chunks

  ghost function Sum<D>(ms: seq<multiset<Scored<D>>>): multiset<Scored<D>> {
    if ms == [] then multiset{} else Sum(ms[..|ms| - 1]) + ms[|ms| - 1]
  }

  ghost function Bags<D>(rs: seq<seq<Scored<D>>>): (ms: seq<multiset<Scored<D>>>)
    ensures |ms| == |rs| && forall i :: 0 <= i < |rs| ==> ms[i] == multiset(rs[i])
  {
    seq(|rs|, i requires 0 <= i < |rs| => multiset(rs[i]))
  }

  /** K of the kept ones score at least as much as x. */
  ghost predicate Beaten<D(!new)>(x: Scored<D>, kept: multiset<Scored<D>>, k: nat) {
    exists s :: s <= kept && |s| >= k && forall y :: y in s ==> x.score <= y.score
  }

  /** What was lost by keeping only the K best of each chunk is beaten by K that were kept. */
  ghost predicate Enough<D(!new)>(kept: multiset<Scored<D>>, all: multiset<Scored<D>>, k: nat) {
    && kept <= all
    && (|kept| >= k || kept == all)
    && forall x :: x in all - kept ==> Beaten(x, kept, k)
  }

  lemma {:induction false} ChunksEnough<D(!new)>(rs: seq<seq<Scored<D>>>, alls: seq<multiset<Scored<D>>>, k: nat)
    requires |rs| == |alls| && forall i :: 0 <= i < |rs| ==> IsTopK(rs[i], alls[i], k)
    ensures Enough(Sum(Bags(rs)), Sum(alls), k)
  {
    if rs != [] {
      var n := |rs| - 1;
      ChunksEnough(rs[..n], alls[..n], k);
      assert Bags(rs)[..n] == Bags(rs[..n]);
      EnoughMore(Sum(Bags(rs[..n])), Sum(alls[..n]), rs[n], alls[n], k);
    }
  }

  lemma EnoughMore<D(!new)>(kept: multiset<Scored<D>>, all: multiset<Scored<D>>, r: seq<Scored<D>>, chunk: multiset<Scored<D>>, k: nat)
    requires Enough(kept, all, k) && IsTopK(r, chunk, k)
    ensures Enough(kept + multiset(r), all + chunk, k)
  {
    var more := multiset(r);
    if |more| < k {
      AllKept(more, chunk);
    }
    forall x | x in all + chunk - (kept + more) ensures Beaten(x, kept + more, k) {
      if x in all - kept {
        var s :| s <= kept && |s| >= k && forall y :: y in s ==> x.score <= y.score;
        assert s <= kept + more;
      } else {
        assert x in chunk - more;
        assert more <= kept + more;
      }
    }
  }

  /** The K best of the per-chunk lists are K best of everything. */
  lemma MergeIsTopK<D(!new)>(rs: seq<seq<Scored<D>>>, alls: seq<multiset<Scored<D>>>, merged: seq<Scored<D>>, k: nat)
    requires |rs| == |alls| && forall i :: 0 <= i < |rs| ==> IsTopK(rs[i], alls[i], k)
    requires IsTopK(merged, Sum(Bags(rs)), k)
    ensures IsTopK(merged, Sum(alls), k)
  {
    var kept, all, R := Sum(Bags(rs)), Sum(alls), multiset(merged);
    ChunksEnough(rs, alls, k);
    SubsetSize(kept, all);
    forall x, y | x in all - R && y in R ensures x.score <= y.score {
      if x !in kept - R {
        assert x in all - kept;
        BeatenStays(x, y, kept, R, k);
      }
    }
  }

  lemma BeatenStays<D(!new)>(x: Scored<D>, y: Scored<D>, kept: multiset<Scored<D>>, R: multiset<Scored<D>>, k: nat)
    requires R <= kept && |R| <= k && Dominates(R, kept) && y in R && Beaten(x, kept, k)
    ensures x.score <= y.score
  {
    var s :| s <= kept && |s| >= k && forall z :: z in s ==> x.score <= z.score;
    if x.score > y.score {
      forall z | z in s ensures s[z] <= (R - multiset{y})[z] {
        BetterIsKept(z, y, R, kept);
      }
      SubsetSize(s, R - multiset{y});
    }
  }
}
