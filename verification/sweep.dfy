/** One sweep over the reservoir of the frontier: the best quarter of a window is chosen and taken out
    by moving the last element into each gap (promoteReservoir in src/crawler/frontier.cpp). */
module Sweep {
  import opened Basics

  const WINDOW: nat := 512
  const PROMOTION_PERCENT: nat := 25

  datatype Candidate = Candidate(index: nat, score: real)

  /** Position o of the window that starts at cursor and wraps around. */
  function At(cursor: nat, o: nat, size: nat): (index: nat)
    requires size > 0
    ensures index < size
    ensures cursor < size && o <= size ==> index == if cursor + o < size then cursor + o else cursor + o - size
  {
    Wrapped(cursor + o, size);
    (cursor + o) % size
  }

  lemma PlacesDiffer(cursor: nat, o: nat, p: nat, size: nat)
    requires cursor < size && o < p < size
    ensures At(cursor, o, size) != At(cursor, p, size)
  {
    Wrapped(cursor + o, size);
    Wrapped(cursor + p, size);
  }

  lemma Wrapped(x: nat, size: nat)
    requires size > 0
    ensures x < 2 * size ==> x % size == if x < size then x else x - size
  {
    if size <= x < 2 * size { assert x == size * 1 + (x - size); }
  }

  function WinnersOf(scanned: nat): nat {
    Min(scanned, Max(1, (scanned * PROMOTION_PERCENT + 99) / 100))
  }

  // ---------------------------------------------------------------- choosing the winners

  /** The first of the least scores. */
  function Worst(winners: seq<Candidate>, n: nat): (w: nat)
    requires 0 < n <= |winners|
    ensures w < n && forall i :: 0 <= i < n ==> winners[w].score <= winners[i].score
    ensures forall i :: 0 <= i < w ==> winners[w].score < winners[i].score
  {
    if n == 1 then 0
    else
      var w := Worst(winners, n - 1);
      if winners[n - 1].score < winners[w].score then n - 1 else w
  }

  /** The winners after the first o candidates. */
  function Chosen<T>(reservoir: seq<T>, cursor: nat, o: nat, keep: nat, score: T -> real): (winners: seq<Candidate>)
    requires |reservoir| > 0 && keep > 0
    ensures |winners| == Min(o, keep)
  {
    if o == 0 then []
    else
      var winners := Chosen(reservoir, cursor, o - 1, keep, score);
      var index := At(cursor, o - 1, |reservoir|);
      var candidate := Candidate(index, score(reservoir[index]));
      if |winners| < keep then winners + [candidate]
      else
        var worst := Worst(winners, |winners|);
        if candidate.score > winners[worst].score then winners[worst := candidate] else winners
  }

  ghost predicate Has(winners: seq<Candidate>, index: nat) {
    exists i :: 0 <= i < |winners| && winners[i].index == index
  }

  ghost predicate Distinct(winners: seq<Candidate>) {
    forall i, j :: 0 <= i < j < |winners| ==> winners[i].index != winners[j].index
  }

  /** Each winner is a different candidate of the window's first o, scored right, and no other
      candidate among them scores more than any winner. */
  ghost predicate AreBest<T>(winners: seq<Candidate>, reservoir: seq<T>, cursor: nat, o: nat, score: T -> real)
    requires |reservoir| > 0
  {
    && Distinct(winners)
    && (forall i :: 0 <= i < |winners| ==> InWindow(winners[i].index, cursor, o, |reservoir|))
    && (forall i :: 0 <= i < |winners| ==>
          winners[i].index < |reservoir| && winners[i].score == score(reservoir[winners[i].index]))
    && (forall p, i :: 0 <= p < o && 0 <= i < |winners| && !Has(winners, At(cursor, p, |reservoir|)) ==>
          score(reservoir[At(cursor, p, |reservoir|)]) <= winners[i].score)
  }

  ghost predicate InWindow(index: nat, cursor: nat, o: nat, size: nat)
    requires size > 0
  {
    exists p: nat :: p < o && At(cursor, p, size) == index
  }

  lemma {:induction false} ChosenAreBest<T>(reservoir: seq<T>, cursor: nat, o: nat, keep: nat, score: T -> real)
    requires cursor < |reservoir| && o <= |reservoir| && keep > 0
    ensures AreBest(Chosen(reservoir, cursor, o, keep, score), reservoir, cursor, o, score)
  {
    hide AreBest, At, Worst;
    if o == 0 {
      NoneAreBest(reservoir, cursor, score);
    } else {
      ChosenAreBest(reservoir, cursor, o - 1, keep, score);
      var winners := Chosen(reservoir, cursor, o - 1, keep, score);
      var index := At(cursor, o - 1, |reservoir|);
      var c := Candidate(index, score(reservoir[index]));
      NewPlace(winners, reservoir, cursor, o - 1, score);
      if |winners| < keep {
        BestAll(reservoir, cursor, o - 1, keep, score);
        OneMoreBest(winners, reservoir, cursor, o, score, c);
      } else {
        var worst := Worst(winners, |winners|);
        if c.score > winners[worst].score {
          ReplacedBest(winners, reservoir, cursor, o, score, c, worst);
        } else {
          KeptBest(winners, reservoir, cursor, o, score, c, worst);
        }
      }
    }
  }

  lemma NoneAreBest<T>(reservoir: seq<T>, cursor: nat, score: T -> real)
    requires |reservoir| > 0
    ensures AreBest([], reservoir, cursor, 0, score)
  {
  }

  /** The next place of the window is not among the winners. */
  lemma NewPlace<T>(winners: seq<Candidate>, reservoir: seq<T>, cursor: nat, o: nat, score: T -> real)
    requires cursor < |reservoir| && o < |reservoir| && AreBest(winners, reservoir, cursor, o, score)
    ensures !Has(winners, At(cursor, o, |reservoir|))
  {
    hide At;
    forall i | 0 <= i < |winners| ensures winners[i].index != At(cursor, o, |reservoir|) {
      var p: nat :| p < o && At(cursor, p, |reservoir|) == winners[i].index;
      PlacesDiffer(cursor, p, o, |reservoir|);
    }
  }

  /** While there is room, every candidate wins. */
  lemma {:induction false} BestAll<T>(reservoir: seq<T>, cursor: nat, o: nat, keep: nat, score: T -> real)
    requires |reservoir| > 0 && o < keep
    ensures forall p: nat :: p < o ==> Has(Chosen(reservoir, cursor, o, keep, score), At(cursor, p, |reservoir|))
  {
    hide At;
    if o > 0 {
      BestAll(reservoir, cursor, o - 1, keep, score);
      var front := Chosen(reservoir, cursor, o - 1, keep, score);
      var winners := Chosen(reservoir, cursor, o, keep, score);
      forall p: nat | p < o ensures Has(winners, At(cursor, p, |reservoir|)) {
        if p < o - 1 {
          var i :| 0 <= i < |front| && front[i].index == At(cursor, p, |reservoir|);
          assert winners[i] == front[i];
        } else {
          assert winners[o - 1].index == At(cursor, p, |reservoir|);
        }
      }
    }
  }

  lemma OneMoreBest<T>(winners: seq<Candidate>, reservoir: seq<T>, cursor: nat, o: nat, score: T -> real, c: Candidate)
    requires 0 < o && |reservoir| > 0 && AreBest(winners, reservoir, cursor, o - 1, score)
    requires c == Candidate(At(cursor, o - 1, |reservoir|), score(reservoir[At(cursor, o - 1, |reservoir|)]))
    requires !Has(winners, c.index) && forall p: nat :: p < o - 1 ==> Has(winners, At(cursor, p, |reservoir|))
    ensures AreBest(winners + [c], reservoir, cursor, o, score)
  {
    hide At;
    var more := winners + [c];
    assert more[|winners|] == c;
    forall p: nat | p < o ensures Has(more, At(cursor, p, |reservoir|)) {
      if p < o - 1 {
        var i :| 0 <= i < |winners| && winners[i].index == At(cursor, p, |reservoir|);
        assert more[i] == winners[i];
      }
    }
    forall i | 0 <= i < |more| ensures InWindow(more[i].index, cursor, o, |reservoir|) {
      if i < |winners| { Wider(winners[i].index, cursor, o, |reservoir|); }
    }
  }

  lemma Wider(index: nat, cursor: nat, o: nat, size: nat)
    requires 0 < o && size > 0 && InWindow(index, cursor, o - 1, size)
    ensures InWindow(index, cursor, o, size)
  {
    hide At;
    var p: nat :| p < o - 1 && At(cursor, p, size) == index;
  }

  lemma ReplacedBest<T>(winners: seq<Candidate>, reservoir: seq<T>, cursor: nat, o: nat, score: T -> real, c: Candidate, worst: nat)
    requires 0 < o && |reservoir| > 0 && AreBest(winners, reservoir, cursor, o - 1, score) && worst < |winners|
    requires c == Candidate(At(cursor, o - 1, |reservoir|), score(reservoir[At(cursor, o - 1, |reservoir|)]))
    requires !Has(winners, c.index) && winners[worst].score < c.score
    requires forall i :: 0 <= i < |winners| ==> winners[worst].score <= winners[i].score
    ensures AreBest(winners[worst := c], reservoir, cursor, o, score)
  {
    hide At;
    var now := winners[worst := c];
    assert now[worst] == c;
    forall i | 0 <= i < |now| ensures InWindow(now[i].index, cursor, o, |reservoir|) {
      if i != worst { Wider(winners[i].index, cursor, o, |reservoir|); }
    }
    forall p, i | 0 <= p < o && 0 <= i < |now| && !Has(now, At(cursor, p, |reservoir|))
      ensures score(reservoir[At(cursor, p, |reservoir|)]) <= now[i].score
    {
      assert p < o - 1;
      if Has(winners, At(cursor, p, |reservoir|)) {
        OnlyWorst(winners, worst, c, At(cursor, p, |reservoir|));
      } else {
        assert score(reservoir[At(cursor, p, |reservoir|)]) <= winners[worst].score;
      }
    }
  }

  /** Who is no longer a winner was the replaced one. */
  lemma OnlyWorst(winners: seq<Candidate>, worst: nat, c: Candidate, index: nat)
    requires worst < |winners| && Has(winners, index) && !Has(winners[worst := c], index)
    ensures winners[worst].index == index
  {
    var j :| 0 <= j < |winners| && winners[j].index == index;
    if j != worst { StillHas(winners, worst, c, j); }
  }

  lemma StillHas(winners: seq<Candidate>, worst: nat, c: Candidate, j: nat)
    requires worst < |winners| && j < |winners| && j != worst
    ensures Has(winners[worst := c], winners[j].index)
  {
    var now := winners[worst := c];
    assert now[j] == winners[j];
  }

  lemma KeptBest<T>(winners: seq<Candidate>, reservoir: seq<T>, cursor: nat, o: nat, score: T -> real, c: Candidate, worst: nat)
    requires 0 < o && |reservoir| > 0 && AreBest(winners, reservoir, cursor, o - 1, score) && worst < |winners|
    requires c == Candidate(At(cursor, o - 1, |reservoir|), score(reservoir[At(cursor, o - 1, |reservoir|)]))
    requires c.score <= winners[worst].score
    requires forall i :: 0 <= i < |winners| ==> winners[worst].score <= winners[i].score
    ensures AreBest(winners, reservoir, cursor, o, score)
  {
    hide At;
    forall i | 0 <= i < |winners| ensures InWindow(winners[i].index, cursor, o, |reservoir|) {
      Wider(winners[i].index, cursor, o, |reservoir|);
    }
    forall p, i | 0 <= p < o && 0 <= i < |winners| && !Has(winners, At(cursor, p, |reservoir|))
      ensures score(reservoir[At(cursor, p, |reservoir|)]) <= winners[i].score
    {
      if p == o - 1 { assert winners[worst].score <= winners[i].score; }
    }
  }

  /** The scan of the window. */
  method SelectWinners<T>(reservoir: seq<T>, cursor: nat, scanned: nat, keep: nat, score: T -> real) returns (winners: seq<Candidate>)
    requires cursor < |reservoir| && scanned <= |reservoir| && 0 < keep <= scanned
    ensures winners == Chosen(reservoir, cursor, scanned, keep, score)
    ensures |winners| == keep && AreBest(winners, reservoir, cursor, scanned, score)
  {
    hide AreBest, At, Worst;
    winners := [];
    for offset := 0 to scanned
      invariant winners == Chosen(reservoir, cursor, offset, keep, score)
    {
      var index := At(cursor, offset, |reservoir|);
      var candidate := Candidate(index, score(reservoir[index]));
      if |winners| < keep {
        winners := winners + [candidate];
      } else {
        var worst := WorstIndex(winners);
        if candidate.score > winners[worst].score {
          winners := winners[worst := candidate];
        }
      }
    }
    ChosenAreBest(reservoir, cursor, scanned, keep, score);
  }

  method WorstIndex(winners: seq<Candidate>) returns (worst: nat)
    requires |winners| > 0
    ensures worst == Worst(winners, |winners|)
  {
    worst := 0;
    for i := 1 to |winners|
      invariant worst == Worst(winners, i)
    {
      if winners[i].score < winners[worst].score { worst := i; }
    }
  }

  // ---------------------------------------------------------------- taking the winners out

  /** The last element fills the gap. */
  function SwapOut<T>(r: seq<T>, i: nat): (s: seq<T>)
    requires i < |r|
    ensures |s| == |r| - 1
    ensures forall k :: 0 <= k < |s| ==> s[k] == if k == i then r[|r| - 1] else r[k]
    ensures multiset(s) + multiset{r[i]} == multiset(r)
  {
    var n := |r| - 1;
    assert r == r[..n] + [r[n]];
    if i == n then r[..n]
    else
      assert r[..n] == r[..i] + [r[i]] + r[i + 1..n];
      assert r[i := r[n]][..n] == r[..i] + [r[n]] + r[i + 1..n];
      r[i := r[n]][..n]
  }

  /** Taking the elements at the given places out one after another; None once a place lies behind the
      end, where the source writes out of range. */
  function SwapOutAll<T>(r: seq<T>, order: seq<nat>): Option<seq<T>>
    decreases |order|
  {
    if order == [] then Some(r)
    else if order[0] >= |r| then None
    else SwapOutAll(SwapOut(r, order[0]), order[1..])
  }

  ghost predicate Places(order: seq<nat>, size: nat) {
    && (forall i :: 0 <= i < |order| ==> order[i] < size)
    && (forall i, j :: 0 <= i < j < |order| ==> order[i] != order[j])
  }

  /** Every place is still there when its turn comes, after one element less with each turn. */
  ghost predicate SafeOrder(order: seq<nat>, size: nat) {
    forall k :: 0 <= k < |order| ==> order[k] < size - k
  }

  function Pick<T>(r: seq<T>, order: seq<nat>): (s: seq<T>)
    requires forall i :: 0 <= i < |order| ==> order[i] < |r|
    ensures |s| == |order| && forall i :: 0 <= i < |order| ==> s[i] == r[order[i]]
  {
    seq(|order|, i requires 0 <= i < |order| => r[order[i]])
  }

  lemma {:induction false} BehindTheEnd<T>(r: seq<T>, order: seq<nat>, k: nat)
    requires k < |order| && order[k] >= |r| - k
    ensures SwapOutAll(r, order) == None
    decreases k
  {
    if k > 0 && order[0] < |r| { BehindTheEnd(SwapOut(r, order[0]), order[1..], k - 1); }
  }

  /** Taking distinct places out stays in range exactly in a safe order, and then takes out exactly
      the elements at those places. */
  lemma {:induction false} ExactIffSafe<T>(r: seq<T>, order: seq<nat>)
    requires Places(order, |r|)
    ensures SwapOutAll(r, order).Some? <==> SafeOrder(order, |r|)
    ensures SwapOutAll(r, order).Some? ==> multiset(SwapOutAll(r, order).value) + multiset(Pick(r, order)) == multiset(r)
    decreases |order|
  {
    hide Places, SwapOut, Pick;
    if k :| 0 <= k < |order| && order[k] >= |r| - k {
      BehindTheEnd(r, order, k);
    } else if order == [] {
      PickNothing(r, order);
    } else {
      SafeRest(order, |r|);
      ExactIffSafe(SwapOut(r, order[0]), order[1..]);
      PickStep(r, order);
    }
  }

  lemma SafeRest(order: seq<nat>, n: nat)
    requires Places(order, n) && order != [] && SafeOrder(order, n)
    ensures n > 0 && Places(order[1..], n - 1) && SafeOrder(order[1..], n - 1)
  {
    var rest := order[1..];
    assert order[0] < n;
    forall k | 0 <= k < |rest| ensures rest[k] < n - 1 - k {
      assert rest[k] == order[k + 1];
    }
  }

  lemma PickNothing<T>(r: seq<T>, order: seq<nat>)
    requires order == []
    ensures Pick(r, order) == []
  {
  }

  lemma PickStep<T>(r: seq<T>, order: seq<nat>)
    requires |r| > 0 && Places(order, |r|) && order != [] && Places(order[1..], |r| - 1)
    ensures Pick(r, order) == [r[order[0]]] + Pick(SwapOut(r, order[0]), order[1..])
    ensures multiset(Pick(r, order)) == multiset{r[order[0]]} + multiset(Pick(SwapOut(r, order[0]), order[1..]))
    ensures multiset(SwapOut(r, order[0])) + multiset{r[order[0]]} == multiset(r)
  {
    var s, rest := SwapOut(r, order[0]), order[1..];
    forall k | 0 <= k < |rest| ensures s[rest[k]] == r[order[k + 1]] {
      assert rest[k] == order[k + 1] != order[0];
    }
    assert Pick(r, order) == [r[order[0]]] + Pick(s, rest);
  }

  // ---------------------------------------------------------------- the two branches of the source

  lemma {:induction false} DescendingIsSafe(order: seq<nat>, size: nat, k: nat)
    requires Places(order, size) && (forall i, j :: 0 <= i < j < |order| ==> order[i] > order[j]) && k < |order|
    ensures order[k] < size - k
  {
    if k > 0 { DescendingIsSafe(order, size, k - 1); }
  }

  function Indices(winners: seq<Candidate>): (s: seq<nat>)
    ensures |s| == |winners| && forall i :: 0 <= i < |winners| ==> s[i] == winners[i].index
  {
    seq(|winners|, i requires 0 <= i < |winners| => winners[i].index)
  }

  function Backwards(s: seq<nat>): (r: seq<nat>)
    ensures |r| == |s| && forall i :: 0 <= i < |s| ==> r[i] == s[|s| - 1 - i]
  {
    seq(|s|, i requires 0 <= i < |s| => s[|s| - 1 - i])
  }

  /** A window that ends early enough, and does not wrap, is safe in any order. */
  lemma EarlyWindowIsSafe<T>(winners: seq<Candidate>, reservoir: seq<T>, cursor: nat, scanned: nat, score: T -> real)
    requires |reservoir| > 0 && AreBest(winners, reservoir, cursor, scanned, score)
    requires cursor + scanned + |winners| <= |reservoir|
    ensures Places(Backwards(Indices(winners)), |reservoir|) && SafeOrder(Backwards(Indices(winners)), |reservoir|)
  {
    hide At;
    var order := Backwards(Indices(winners));
    forall i | 0 <= i < |order| ensures order[i] < |reservoir| - |order| {
      var w := winners[|winners| - 1 - i];
      var p: nat :| p < scanned && At(cursor, p, |reservoir|) == w.index;
      Unwrapped(cursor, p, |reservoir|);
    }
  }

  lemma Unwrapped(cursor: nat, p: nat, size: nat)
    requires cursor + p < size
    ensures At(cursor, p, size) == cursor + p
  {
    Wrapped(cursor + p, size);
  }

  lemma {:induction false} PickBackwards<T>(r: seq<T>, order: seq<nat>)
    requires forall i :: 0 <= i < |order| ==> order[i] < |r|
    ensures multiset(Pick(r, Backwards(order))) == multiset(Pick(r, order))
    decreases |order|
  {
    if order != [] {
      var front, last := order[..|order| - 1], order[|order| - 1];
      PickBackwards(r, front);
      assert Pick(r, order) == Pick(r, front) + [r[last]];
      assert Pick(r, Backwards(order)) == [r[last]] + Pick(r, Backwards(front));
    }
  }

  lemma PlacesBackwards(order: seq<nat>, size: nat)
    requires Places(order, size)
    ensures Places(Backwards(order), size)
  {
  }

  /** Takes the winners out in the order of the list, last one first; None where the source would go on
      behind the end. */
  method RemoveLastFirst<T>(reservoir: seq<T>, winners: seq<Candidate>) returns (r: Option<seq<T>>)
    requires Places(Indices(winners), |reservoir|)
    ensures r.Some? <==> SafeOrder(Backwards(Indices(winners)), |reservoir|)
    ensures r.Some? ==> multiset(r.value) + multiset(Pick(reservoir, Indices(winners))) == multiset(reservoir)
  {
    hide SafeOrder, Pick, Places, SwapOut, SwapOutAll;
    ghost var order := Backwards(Indices(winners));
    PlacesBackwards(Indices(winners), |reservoir|);
    ExactIffSafe(reservoir, order);
    PickBackwards(reservoir, Indices(winners)) by { PlacesInRange(Indices(winners), |reservoir|); }
    var rest, left := reservoir, winners;
    assert order[0..] == order;
    while left != []
      invariant left == winners[..|left|] && |left| <= |winners|
      invariant SwapOutAll(rest, order[|winners| - |left|..]) == SwapOutAll(reservoir, order)
      decreases |left|
    {
      ghost var k := |winners| - |left|;
      var index := left[|left| - 1].index;
      assert order[k..][0] == index && order[k..][1..] == order[k + 1..];
      OneOut(rest, order[k..]);
      if index >= |rest| {
        return None;
      }
      rest := SwapOut(rest, index);
      left := left[..|left| - 1];
    }
    assert order[|winners|..] == [];
    NoneOut(rest);
    r := Some(rest);
  }

  lemma OneOut<T>(r: seq<T>, order: seq<nat>)
    requires order != []
    ensures SwapOutAll(r, order) == if order[0] < |r| then SwapOutAll(SwapOut(r, order[0]), order[1..]) else None
  {
    hide SwapOut;
  }

  lemma NoneOut<T>(r: seq<T>)
    ensures SwapOutAll(r, []) == Some(r)
  {
  }

  lemma PlacesInRange(order: seq<nat>, size: nat)
    requires Places(order, size)
    ensures forall i :: 0 <= i < |order| ==> order[i] < size
  {
  }

  /** Takes the winners out from the greatest place down. */
  method RemoveGreatestFirst<T>(reservoir: seq<T>, winners: seq<Candidate>) returns (rest: seq<T>)
    requires Places(Indices(winners), |reservoir|)
    ensures multiset(rest) + multiset(Pick(reservoir, Indices(winners))) == multiset(reservoir)
  {
    hide SwapOut;
    rest := reservoir;
    var left := winners;
    while left != []
      invariant Places(Indices(left), |rest|) && |rest| <= |reservoir|
      invariant forall i :: 0 <= i < |left| ==> rest[left[i].index] == reservoir[left[i].index]
      invariant multiset(rest) + multiset(Pick(reservoir, Indices(winners))) == multiset(reservoir) + multiset(Pick(reservoir, Indices(left)))
      decreases |left|
    {
      var m := GreatestPlace(left);
      var index := left[m].index;
      TakeOne(reservoir, rest, left, m);
      Balance(multiset(rest), multiset(SwapOut(rest, index)), multiset(Pick(reservoir, Indices(left))),
              multiset(Pick(reservoir, Indices(SwapOut(left, m)))), multiset(Pick(reservoir, Indices(winners))), multiset(reservoir),
              reservoir[index]);
      rest := SwapOut(rest, index);
      left := SwapOut(left, m);
    }
    PickNothing(reservoir, Indices(left));
  }

  lemma Balance<T>(rest: multiset<T>, now: multiset<T>, left: multiset<T>, fewer: multiset<T>, taken: multiset<T>, all: multiset<T>, x: T)
    requires now + multiset{x} == rest && fewer + multiset{x} == left && rest + taken == all + left
    ensures now + taken == all + fewer
  {
    forall y: T ensures (now + taken)[y] == (all + fewer)[y] {
      assert (rest + taken)[y] == (all + left)[y];
    }
  }

  method GreatestPlace(winners: seq<Candidate>) returns (m: nat)
    requires winners != []
    ensures m < |winners| && forall i :: 0 <= i < |winners| ==> winners[i].index <= winners[m].index
  {
    m := 0;
    for i := 1 to |winners|
      invariant m < |winners| && forall j :: 0 <= j < i ==> winners[j].index <= winners[m].index
    {
      if winners[i].index > winners[m].index { m := i; }
    }
  }

  lemma TakeOne<T>(reservoir: seq<T>, rest: seq<T>, left: seq<Candidate>, m: nat)
    requires Places(Indices(left), |rest|) && |rest| <= |reservoir| && m < |left|
    requires forall i :: 0 <= i < |left| ==> left[i].index <= left[m].index
    requires forall i :: 0 <= i < |left| ==> rest[left[i].index] == reservoir[left[i].index]
    ensures left[m].index < |rest|
    ensures var now, fewer := SwapOut(rest, left[m].index), SwapOut(left, m);
      && Places(Indices(fewer), |now|)
      && (forall i :: 0 <= i < |fewer| ==> now[fewer[i].index] == reservoir[fewer[i].index])
      && multiset(now) + multiset{reservoir[left[m].index]} == multiset(rest)
      && multiset(Pick(reservoir, Indices(fewer))) + multiset{reservoir[left[m].index]} == multiset(Pick(reservoir, Indices(left)))
  {
    assert Indices(left)[m] == left[m].index;
    var now, fewer, n := SwapOut(rest, left[m].index), SwapOut(left, m), |left| - 1;
    forall i | 0 <= i < |fewer| ensures fewer[i].index < left[m].index && fewer[i].index < |now| {
      var k := if i == m then n else i;
      assert fewer[i] == left[k] && Indices(left)[k] != Indices(left)[m];
    }
    forall i, j | 0 <= i < j < |fewer| ensures fewer[i].index != fewer[j].index {
      var k, l := if i == m then n else i, if j == m then n else j;
      assert Indices(left)[k] != Indices(left)[l];
    }
    assert Pick(reservoir, Indices(fewer)) == SwapOut(Pick(reservoir, Indices(left)), m);
  }

  /** When the removal at the end of a sweep stays in range. The branch that goes by decreasing index is
      taken when the window covers the reservoir or wraps; the other needs a safe order. */
  ghost predicate StaysInRange(winners: seq<Candidate>, cursor: nat, scanned: nat, size: nat) {
    scanned == size || cursor + scanned > size || SafeOrder(Backwards(Indices(winners)), size)
  }

  /** The removal at the end of the sweep; None when it leaves the range. */
  method RemoveWinners<T>(reservoir: seq<T>, winners: seq<Candidate>, cursor: nat, scanned: nat) returns (r: Option<seq<T>>)
    requires Places(Indices(winners), |reservoir|)
    ensures r.Some? <==> StaysInRange(winners, cursor, scanned, |reservoir|)
    ensures r.Some? ==> multiset(r.value) + multiset(Pick(reservoir, Indices(winners))) == multiset(reservoir)
    ensures r.Some? ==> |r.value| == |reservoir| - |winners|
  {
    hide SafeOrder;
    if scanned == |reservoir| || cursor + scanned > |reservoir| {
      var rest := RemoveGreatestFirst(reservoir, winners);
      r := Some(rest);
    } else {
      r := RemoveLastFirst(reservoir, winners);
    }
    if r.Some? {
      assert |multiset(r.value) + multiset(Pick(reservoir, Indices(winners)))| == |multiset(reservoir)|;
    }
  }

  // ---------------------------------------------------------------- where the source goes wrong

  /** With 513 items of which the one at place 511 scores best and all others the same, the winners
      are 511 and 1 to 127, and taking them out writes behind the end of the reservoir. */
  lemma SweepWritesOutOfRange<T>(reservoir: seq<T>, score: T -> real, low: real, high: real)
    requires |reservoir| == 513 && low < high
    requires forall i :: 0 <= i < 513 ==> score(reservoir[i]) == if i == 511 then high else low
    ensures var keep := WinnersOf(WINDOW);
      var winners := Chosen(reservoir, 0, WINDOW, keep, score);
      && keep == 128 && 0 + WINDOW <= |reservoir| && WINDOW != |reservoir|
      && SwapOutAll(reservoir, Backwards(Indices(winners))) == None
  {
    hide Chosen, AreBest, SwapOutAll, Worst, At;
    var winners := Chosen(reservoir, 0, 512, 128, score);
    ChosenAreBest(reservoir, 0, 512, 128, score);
    BestArePlaces(winners, reservoir, 0, 512, score);
    LastReplacesFirst(reservoir, score, low, high);
    var order := Backwards(Indices(winners));
    PlacesBackwards(Indices(winners), 513);
    LateTail(order);
    ExactIffSafe(reservoir, order);
  }

  lemma LateTail(order: seq<nat>)
    requires |order| == 128 && order[127] == 511
    ensures !SafeOrder(order, 513)
  {
    assert !(order[127] < 513 - 127);
  }

  function AllLow(n: nat, low: real): (s: seq<Candidate>)
    ensures |s| == n && forall i :: 0 <= i < n ==> s[i] == Candidate(i, low)
  {
    seq(n, i requires 0 <= i < n => Candidate(i, low))
  }

  lemma LastReplacesFirst<T>(reservoir: seq<T>, score: T -> real, low: real, high: real)
    requires |reservoir| == 513 && low < high
    requires forall i :: 0 <= i < 513 ==> score(reservoir[i]) == if i == 511 then high else low
    ensures Chosen(reservoir, 0, 512, 128, score) == AllLow(128, low)[0 := Candidate(511, high)]
  {
    hide Worst, At;
    FlatWinners(reservoir, score, low, high, 511);
    FlatWorst(AllLow(128, low), 128, low);
    Unwrapped(0, 511, 513);
    ChosenStep(reservoir, 0, 512, 128, score);
  }

  lemma ChosenStep<T>(reservoir: seq<T>, cursor: nat, o: nat, keep: nat, score: T -> real)
    requires |reservoir| > 0 && o > 0 && keep > 0
    ensures var winners := Chosen(reservoir, cursor, o - 1, keep, score);
      var index := At(cursor, o - 1, |reservoir|);
      var candidate := Candidate(index, score(reservoir[index]));
      Chosen(reservoir, cursor, o, keep, score)
      == if |winners| < keep then winners + [candidate]
         else if candidate.score > winners[Worst(winners, |winners|)].score then winners[Worst(winners, |winners|) := candidate]
         else winners
  {
    hide Worst, At;
  }

  lemma BestArePlaces<T>(winners: seq<Candidate>, reservoir: seq<T>, cursor: nat, o: nat, score: T -> real)
    requires |reservoir| > 0 && AreBest(winners, reservoir, cursor, o, score)
    ensures Places(Indices(winners), |reservoir|)
  {
  }

  lemma {:induction false} FlatWinners<T>(reservoir: seq<T>, score: T -> real, low: real, high: real, o: nat)
    requires |reservoir| == 513 && o <= 511
    requires forall i :: 0 <= i < 513 ==> score(reservoir[i]) == if i == 511 then high else low
    ensures Chosen(reservoir, 0, o, 128, score) == AllLow(Min(o, 128), low)
  {
    hide Worst, At;
    if o > 0 {
      FlatWinners(reservoir, score, low, high, o - 1);
      Unwrapped(0, o - 1, 513);
      ChosenStep(reservoir, 0, o, 128, score);
      if o > 128 { FlatWorst(AllLow(128, low), 128, low); }
    }
  }

  lemma {:induction false} FlatWorst(winners: seq<Candidate>, n: nat, low: real)
    requires 0 < n <= |winners| && forall i :: 0 <= i < n ==> winners[i].score == low
    ensures Worst(winners, n) == 0
  {
    if n > 1 { FlatWorst(winners, n - 1, low); }
  }
}
