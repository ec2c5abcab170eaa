/** The documents a query selects, and that the locations of its plan touch exactly those. */
module QueryMeaning {
  import opened Basics
  import opened Layout
  import opened WordIterator
  import opened ChunkFormat
  import opened ChunkReader
  import opened Iterators
  import Q = QuerySyntax

  /** "#DocEnd" */
  const DOC_END: Text := [35, 68, 111, 99, 69, 110, 100]

  /** "$", put before the words of a title. */
  const TITLE_MARK: Text := [36]

  /** What indexing guarantees: document ends are the postings of the marker, and every other term
      stands inside documents. */
  ghost predicate WellIndexed(ix: Index) {
    var docs := Spans(ix.documents);
    && Ordered(docs)
    && (HasTerm(ix, DOC_END) <==> docs != [])
    && (docs != [] ==> LocationsOf(ix, DOC_END) == Ends(docs))
    && (forall t :: HasTerm(ix, t) && t != DOC_END ==> Inside(Locations(LocationsOf(ix, t)), docs))
    && (forall t :: Below(Locations(LocationsOf(ix, t))))
  }

  /** createISR finds a word in the anchor index, or in body or title of the body index. */
  ghost predicate Known(ix: Index, anchor: bool, t: Text) {
    HasTerm(ix, t) || (!anchor && HasTerm(ix, TITLE_MARK + t))
  }

  ghost function Indexed(ix: Index, anchor: bool): Text -> bool {
    t => Known(ix, anchor, t)
  }

  ghost function TermHits(ix: Index, anchor: bool, t: Text): iset<nat> {
    Locations(LocationsOf(ix, t)) + if anchor then iset{} else Locations(LocationsOf(ix, TITLE_MARK + t))
  }

  ghost function WordSets(ix: Index, anchor: bool, words: seq<Text>): (s: seq<iset<nat>>)
    ensures |s| == |words| && forall i :: 0 <= i < |words| ==> s[i] == TermHits(ix, anchor, words[i])
  {
    seq(|words|, i requires 0 <= i < |words| => TermHits(ix, anchor, words[i]))
  }

  /** The locations the iterator tree of a plan stands for. */
  ghost function PlanHits(ix: Index, anchor: bool, p: Q.Plan): iset<nat> {
    match p
    case Term(t) => TermHits(ix, anchor, t)
    case Union(ps) => OrHits(seq(|ps|, i requires 0 <= i < |ps| => PlanHits(ix, anchor, ps[i])))
    case Both(ps) => AndHits(seq(|ps|, i requires 0 <= i < |ps| => PlanHits(ix, anchor, ps[i])), Spans(ix.documents))
    case Sequence(words) => PhraseHits(WordSets(ix, anchor, words))
    case Except(positive, ps) =>
      ContainerHits(PlanHits(ix, anchor, positive), seq(|ps|, i requires 0 <= i < |ps| => PlanHits(ix, anchor, ps[i])),
                    Spans(ix.documents))
  }

  ghost function PlanSets(ix: Index, anchor: bool, ps: seq<Q.Plan>): (s: seq<iset<nat>>)
    ensures |s| == |ps| && forall i :: 0 <= i < |ps| ==> s[i] == PlanHits(ix, anchor, ps[i])
  {
    seq(|ps|, i requires 0 <= i < |ps| => PlanHits(ix, anchor, ps[i]))
  }

  /** The plan's iterator tree selects document d. */
  ghost predicate Selects(ix: Index, anchor: bool, p: Q.Plan, d: nat) {
    Layout.Hits(PlanHits(ix, anchor, p), Spans(ix.documents), d)
  }

  // ---------------------------------------------------------------- the meaning of a query

  /** Document d satisfies some alternative. */
  ghost predicate Matches(ix: Index, anchor: bool, q: Q.Query, d: nat) {
    exists i :: 0 <= i < |q.alternatives| && MatchesConjunction(ix, anchor, q.alternatives[i], d)
  }

  /** All positive operands hold, of which there is at least one, and no negated one does. */
  ghost predicate MatchesConjunction(ix: Index, anchor: bool, conj: Q.Conjunction, d: nat) {
    && (exists i :: 0 <= i < |conj.operands| && !conj.operands[i].negated)
    && forall i :: 0 <= i < |conj.operands| ==> (MatchesAtom(ix, anchor, conj.operands[i].atom, d) <==> !conj.operands[i].negated)
  }

  ghost predicate MatchesAtom(ix: Index, anchor: bool, a: Q.Atom, d: nat) {
    match a
    case Single(word) => Layout.Hits(TermHits(ix, anchor, word), Spans(ix.documents), d)
    case Quoted(words) => words != [] && exists s: nat :: RunIn(ix, anchor, words, d, s)
    case Group(q) => Matches(ix, anchor, q, d)
  }

  /** The words stand one behind another from s on, the last one in document d. */
  ghost predicate RunIn(ix: Index, anchor: bool, words: seq<Text>, d: nat, s: nat)
    requires words != []
  {
    Run(WordSets(ix, anchor, words), s) && InDoc(Spans(ix.documents), d, s + |words| - 1)
  }

  // ---------------------------------------------------------------- phrases and their flaw

  ghost predicate EndsTrueRun(sets: seq<iset<nat>>, h: nat) {
    sets != [] && h + 1 >= |sets| && Run(sets, h + 1 - |sets|)
  }

  /** The last locations of all runs, as a phrase is meant. */
  ghost function TrueRuns(sets: seq<iset<nat>>): iset<nat> {
    iset h: nat | EndsTrueRun(sets, h)
  }

  /** A word with a location below its place makes the whole phrase find nothing. */
  lemma WrappedPhraseFindsNothing(sets: seq<iset<nat>>)
    requires Wraps(sets)
    ensures PhraseHits(sets) == iset{}
  {
  }

  /** The phrase iterator is right exactly when no subtraction wraps or there was nothing to find. */
  lemma PhraseRightIff(sets: seq<iset<nat>>)
    ensures PhraseHits(sets) == TrueRuns(sets) <==> !Wraps(sets) || TrueRuns(sets) == iset{}
  {
    hide Run;
    if Wraps(sets) {
      WrappedPhraseFindsNothing(sets);
    } else {
      assert forall h :: EndsRun(sets, h) <==> EndsTrueRun(sets, h);
      assert PhraseHits(sets) == TrueRuns(sets);
    }
  }

  /** "b a" occurs at locations 5 and 6, but a also stands at location 0: the phrase is not found. */
  lemma PhraseLostExample()
    ensures var sets := [iset{5}, iset{0, 6}];
      6 in TrueRuns(sets) && PhraseHits(sets) == iset{}
  {
    var sets := [iset{5}, iset{0, 6}];
    assert 0 in sets[1];
    assert Wraps(sets);
    assert Run(sets, 5);
    assert EndsTrueRun(sets, 6);
  }

  /** In no phrase of the query does a word have a location below its place. */
  ghost predicate NoWraps(ix: Index, anchor: bool, q: Q.Query) {
    forall i :: 0 <= i < |q.alternatives| ==> NoWrapsIn(ix, anchor, q.alternatives[i])
  }

  ghost predicate NoWrapsIn(ix: Index, anchor: bool, conj: Q.Conjunction) {
    forall i :: 0 <= i < |conj.operands| ==> NoWrapsAtom(ix, anchor, conj.operands[i].atom)
  }

  ghost predicate NoWrapsAtom(ix: Index, anchor: bool, a: Q.Atom) {
    match a
    case Single(_) => true
    case Quoted(words) => !Wraps(WordSets(ix, anchor, words))
    case Group(q) => NoWraps(ix, anchor, q)
  }

  // ---------------------------------------------------------------- what each kind of plan selects

  lemma UnionTouches(sets: seq<iset<nat>>, docs: seq<Span>, d: nat)
    ensures Layout.Hits(OrHits(sets), docs, d) <==> exists i :: 0 <= i < |sets| && Layout.Hits(sets[i], docs, d)
  {
    if Layout.Hits(OrHits(sets), docs, d) {
      var h :| h in OrHits(sets) && InDoc(docs, d, h);
      var i :| 0 <= i < |sets| && h in sets[i];
      assert Layout.Hits(sets[i], docs, d);
    }
    if i :| 0 <= i < |sets| && Layout.Hits(sets[i], docs, d) {
      var h :| h in sets[i] && InDoc(docs, d, h);
      assert InSome(sets, h);
    }
  }

  lemma BothTouch(sets: seq<iset<nat>>, docs: seq<Span>, d: nat)
    requires Ordered(docs)
    ensures Layout.Hits(AndHits(sets, docs), docs, d) <==> d < |docs| && AllTouch(sets, docs, d)
  {
    hide AllTouch;
    if Layout.Hits(AndHits(sets, docs), docs, d) {
      var h :| h in AndHits(sets, docs) && InDoc(docs, d, h);
      var c: nat :| c < |docs| && docs[c].end == h && AllTouch(sets, docs, c);
      SameDoc(docs, c, d, h);
    }
    if d < |docs| && AllTouch(sets, docs, d) {
      assert EndsShared(sets, docs, docs[d].end);
      assert InDoc(docs, d, docs[d].end);
    }
  }

  lemma ExceptTouches(P: iset<nat>, N: seq<iset<nat>>, docs: seq<Span>, d: nat)
    requires Ordered(docs)
    ensures Layout.Hits(ContainerHits(P, N, docs), docs, d) <==> Layout.Hits(P, docs, d) && !Excluded(N, docs, d)
  {
    hide Excluded, Home, Admitted;
    if Layout.Hits(ContainerHits(P, N, docs), docs, d) {
      var h :| h in ContainerHits(P, N, docs) && InDoc(docs, d, h);
      InDocIsHome(docs, d, h);
      HomeDecides(P, N, docs, h, d);
    }
    if Layout.Hits(P, docs, d) && !Excluded(N, docs, d) {
      var h :| h in P && InDoc(docs, d, h);
      InDocIsHome(docs, d, h);
      HomeDecides(P, N, docs, h, d);
    }
  }

  lemma SequenceTouches(ix: Index, anchor: bool, words: seq<Text>, d: nat)
    requires words != [] && !Wraps(WordSets(ix, anchor, words))
    ensures Layout.Hits(PhraseHits(WordSets(ix, anchor, words)), Spans(ix.documents), d)
       <==> exists s: nat :: RunIn(ix, anchor, words, d, s)
  {
    hide Wraps, Run;
    var sets, docs := WordSets(ix, anchor, words), Spans(ix.documents);
    if Layout.Hits(PhraseHits(sets), docs, d) {
      var h :| h in PhraseHits(sets) && InDoc(docs, d, h);
      HitIsRun(sets, h);
      assert RunIn(ix, anchor, words, d, h + 1 - |words|);
    }
    if s: nat :| RunIn(ix, anchor, words, d, s) {
      RunIsHit(sets, s);
      assert s + |words| - 1 in PhraseHits(sets) && InDoc(docs, d, s + |words| - 1);
    }
  }

  // ---------------------------------------------------------------- plan and query agree

  /** Some plan of the list selects d. */
  ghost predicate SomeSelects(ix: Index, anchor: bool, ps: seq<Q.Plan>, d: nat) {
    exists i :: 0 <= i < |ps| && Selects(ix, anchor, ps[i], d)
  }

  ghost predicate AllSelect(ix: Index, anchor: bool, ps: seq<Q.Plan>, d: nat) {
    forall i :: 0 <= i < |ps| ==> Selects(ix, anchor, ps[i], d)
  }

  lemma SomeMore(ix: Index, anchor: bool, ps: seq<Q.Plan>, p: Q.Plan, d: nat)
    ensures SomeSelects(ix, anchor, ps + [p], d) <==> SomeSelects(ix, anchor, ps, d) || Selects(ix, anchor, p, d)
    ensures AllSelect(ix, anchor, ps + [p], d) <==> AllSelect(ix, anchor, ps, d) && Selects(ix, anchor, p, d)
  {
    hide Selects;
    var s := ps + [p];
    assert forall i :: 0 <= i < |ps| ==> s[i] == ps[i];
    assert s[|ps|] == p;
  }

  lemma UnionSelects(ix: Index, anchor: bool, ps: seq<Q.Plan>, d: nat)
    ensures Selects(ix, anchor, Q.Union(ps), d) <==> SomeSelects(ix, anchor, ps, d)
  {
    assert PlanHits(ix, anchor, Q.Union(ps)) == OrHits(PlanSets(ix, anchor, ps));
    UnionTouches(PlanSets(ix, anchor, ps), Spans(ix.documents), d);
    assert forall i :: 0 <= i < |ps| ==> (Selects(ix, anchor, ps[i], d) <==> Layout.Hits(PlanSets(ix, anchor, ps)[i], Spans(ix.documents), d));
  }

  lemma BothSelects(ix: Index, anchor: bool, ps: seq<Q.Plan>, d: nat)
    requires WellIndexed(ix) && ps != []
    ensures Selects(ix, anchor, Q.Both(ps), d) <==> d < |ix.documents| && AllSelect(ix, anchor, ps, d)
  {
    assert PlanHits(ix, anchor, Q.Both(ps)) == AndHits(PlanSets(ix, anchor, ps), Spans(ix.documents));
    BothTouch(PlanSets(ix, anchor, ps), Spans(ix.documents), d);
    assert forall i :: 0 <= i < |ps| ==> (Selects(ix, anchor, ps[i], d) <==> Layout.Hits(PlanSets(ix, anchor, ps)[i], Spans(ix.documents), d));
  }

  lemma ExceptSelects(ix: Index, anchor: bool, p: Q.Plan, ps: seq<Q.Plan>, d: nat)
    requires WellIndexed(ix)
    ensures Selects(ix, anchor, Q.Except(p, ps), d) <==> Selects(ix, anchor, p, d) && !SomeSelects(ix, anchor, ps, d)
  {
    var N := PlanSets(ix, anchor, ps);
    assert PlanHits(ix, anchor, Q.Except(p, ps)) == ContainerHits(PlanHits(ix, anchor, p), N, Spans(ix.documents));
    ExceptTouches(PlanHits(ix, anchor, p), N, Spans(ix.documents), d);
    assert forall i :: 0 <= i < |ps| ==> (Selects(ix, anchor, ps[i], d) <==> Layout.Hits(N[i], Spans(ix.documents), d));
  }

  /** The intended plan of a query selects exactly the documents that match it. */
  lemma {:induction false} PlanMeansQuery(ix: Index, anchor: bool, q: Q.Query, d: nat)
    requires WellIndexed(ix) && NoWraps(ix, anchor, q)
    ensures var p := Q.PlanOf(q, Indexed(ix, anchor));
      Matches(ix, anchor, q, d) <==> p.Some? && Selects(ix, anchor, p.value, d)
    decreases q, 1
  {
    hide Selects, NoWrapsIn, MatchesConjunction, WellIndexed, Indexed;
    var alts := q.alternatives;
    AlternativesMean(ix, anchor, q, |alts|, d);
    assert alts[..|alts|] == alts;
    var ps := Q.AlternativePlans(alts, Indexed(ix, anchor));
    if |ps| > 1 { UnionSelects(ix, anchor, ps, d); }
  }

  lemma {:induction false} AlternativesMean(ix: Index, anchor: bool, q: Q.Query, n: nat, d: nat)
    requires WellIndexed(ix) && NoWraps(ix, anchor, q) && n <= |q.alternatives|
    ensures SomeSelects(ix, anchor, Q.AlternativePlans(q.alternatives[..n], Indexed(ix, anchor)), d)
       <==> exists i :: 0 <= i < n && MatchesConjunction(ix, anchor, q.alternatives[i], d)
    decreases q, 0, n
  {
    hide Selects, NoWrapsIn, MatchesConjunction, WellIndexed, Indexed, SomeSelects, Q.ConjunctionPlan, Q.AlternativePlans;
    var indexed := Indexed(ix, anchor);
    if n == 0 {
      NoneSelect(ix, anchor, d);
      assert q.alternatives[..0] == [];
      NoAlternatives(indexed);
    } else {
      var conj := q.alternatives[n - 1];
      assert conj in q.alternatives;
      AlternativesMean(ix, anchor, q, n - 1, d);
      ConjunctionMeans(ix, anchor, conj, d);
      Q.AlternativesStep(q.alternatives, n - 1, indexed);
      var p := Q.ConjunctionPlan(conj, indexed);
      if p.Some? {
        SomeMore(ix, anchor, Q.AlternativePlans(q.alternatives[..n - 1], indexed), p.value, d);
      }
    }
  }

  lemma NoneSelect(ix: Index, anchor: bool, d: nat)
    ensures !SomeSelects(ix, anchor, [], d) && AllSelect(ix, anchor, [], d)
  {
  }

  lemma NoAlternatives(indexed: Text -> bool)
    ensures Q.AlternativePlans([], indexed) == []
  {
  }

  /** Operand plans of one sign against the operands of that sign. */
  ghost predicate SomeOperand(ix: Index, anchor: bool, conj: Q.Conjunction, n: nat, negated: bool, d: nat)
    requires n <= |conj.operands|
  {
    exists i :: 0 <= i < n && conj.operands[i].negated == negated && MatchesAtom(ix, anchor, conj.operands[i].atom, d)
  }

  ghost predicate AllOperands(ix: Index, anchor: bool, conj: Q.Conjunction, n: nat, d: nat)
    requires n <= |conj.operands|
  {
    forall i :: 0 <= i < n && !conj.operands[i].negated ==> MatchesAtom(ix, anchor, conj.operands[i].atom, d)
  }

  ghost predicate NoneMissing(conj: Q.Conjunction, n: nat, indexed: Text -> bool)
    requires n <= |conj.operands|
  {
    forall i :: 0 <= i < n && !conj.operands[i].negated ==> Q.AtomPlan(conj.operands[i].atom, indexed).Some?
  }

  lemma {:induction false} OperandsMean(ix: Index, anchor: bool, conj: Q.Conjunction, n: nat, d: nat)
    requires WellIndexed(ix) && NoWrapsIn(ix, anchor, conj) && n <= |conj.operands|
    ensures var indexed := Indexed(ix, anchor);
      && (SomeSelects(ix, anchor, Q.OperandPlans(conj, n, true, indexed), d) <==> SomeOperand(ix, anchor, conj, n, true, d))
      && (NoneMissing(conj, n, indexed) ==>
            && (AllSelect(ix, anchor, Q.OperandPlans(conj, n, false, indexed), d) <==> AllOperands(ix, anchor, conj, n, d))
            && (Q.OperandPlans(conj, n, false, indexed) == [] <==> forall i :: 0 <= i < n ==> conj.operands[i].negated))
      && (AllOperands(ix, anchor, conj, n, d) ==> NoneMissing(conj, n, indexed))
    decreases conj, n
  {
    hide Selects, NoWrapsAtom, MatchesAtom, WellIndexed, Indexed, SomeSelects, AllSelect, Q.OperandPlans, Q.AtomPlan;
    var indexed := Indexed(ix, anchor);
    if n == 0 {
      NoneSelect(ix, anchor, d);
      Q.NoPlans(conj, indexed);
    } else {
      var op := conj.operands[n - 1];
      assert op in conj.operands && op == Q.Operand(op.explicitAnd, op.negated, op.atom);
      OperandsMean(ix, anchor, conj, n - 1, d);
      AtomMeans(ix, anchor, op.atom, d);
      Q.PlansStep(conj, n - 1, true, indexed);
      Q.PlansStep(conj, n - 1, false, indexed);
      var p := Q.AtomPlan(op.atom, indexed);
      if p.Some? {
        SomeMore(ix, anchor, Q.OperandPlans(conj, n - 1, op.negated, indexed), p.value, d);
      }
    }
  }

  lemma {:induction false} ConjunctionMeans(ix: Index, anchor: bool, conj: Q.Conjunction, d: nat)
    requires WellIndexed(ix) && NoWrapsIn(ix, anchor, conj)
    ensures var p := Q.ConjunctionPlan(conj, Indexed(ix, anchor));
      MatchesConjunction(ix, anchor, conj, d) <==> p.Some? && Selects(ix, anchor, p.value, d)
    decreases conj, |conj.operands| + 1
  {
    hide Selects, NoWrapsAtom, MatchesAtom, WellIndexed, Indexed, Q.OperandPlans, Q.AtomPlan, AllSelect, SomeSelects;
    var indexed := Indexed(ix, anchor);
    var n := |conj.operands|;
    OperandsMean(ix, anchor, conj, n, d);
    MatchesInParts(ix, anchor, conj, d);
    MissingIsNone(conj, indexed);
    var P, N := Q.OperandPlans(conj, n, false, indexed), Q.OperandPlans(conj, n, true, indexed);
    if NoneMissing(conj, n, indexed) && P != [] {
      var positive := if |P| == 1 then P[0] else Q.Both(P);
      PositiveSelects(ix, anchor, P, positive, d);
      if N == [] {
        NoneSelect(ix, anchor, d);
      } else {
        ExceptSelects(ix, anchor, positive, N, d);
      }
    }
  }

  lemma PositiveSelects(ix: Index, anchor: bool, P: seq<Q.Plan>, positive: Q.Plan, d: nat)
    requires WellIndexed(ix) && P != [] && positive == if |P| == 1 then P[0] else Q.Both(P)
    ensures Selects(ix, anchor, positive, d) <==> AllSelect(ix, anchor, P, d)
  {
    if |P| > 1 {
      BothSelects(ix, anchor, P, d);
      if AllSelect(ix, anchor, P, d) { assert Selects(ix, anchor, P[0], d); }
    }
  }

  lemma MissingIsNone(conj: Q.Conjunction, indexed: Text -> bool)
    ensures Q.ConjunctionPlan(conj, indexed)
         == if NoneMissing(conj, |conj.operands|, indexed)
            then Q.ConjunctionOf(Q.OperandPlans(conj, |conj.operands|, false, indexed), Q.OperandPlans(conj, |conj.operands|, true, indexed))
            else None
  {
    hide Q.AtomPlan, Q.OperandPlans;
  }

  lemma MatchesInParts(ix: Index, anchor: bool, conj: Q.Conjunction, d: nat)
    ensures MatchesConjunction(ix, anchor, conj, d)
       <==> && (exists i :: 0 <= i < |conj.operands| && !conj.operands[i].negated)
            && AllOperands(ix, anchor, conj, |conj.operands|, d) && !SomeOperand(ix, anchor, conj, |conj.operands|, true, d)
  {
    hide MatchesAtom;
  }

  lemma {:induction false} AtomMeans(ix: Index, anchor: bool, a: Q.Atom, d: nat)
    requires WellIndexed(ix) && NoWrapsAtom(ix, anchor, a)
    ensures var p := Q.AtomPlan(a, Indexed(ix, anchor));
      MatchesAtom(ix, anchor, a, d) <==> p.Some? && Selects(ix, anchor, p.value, d)
    decreases a
  {
    match a
    case Single(word) =>
      UnknownHasNoHits(ix, anchor, word);
    case Quoted(words) =>
      QuotedMeans(ix, anchor, words, d);
    case Group(q) =>
      PlanMeansQuery(ix, anchor, q, d);
  }

  lemma UnknownHasNoHits(ix: Index, anchor: bool, word: Text)
    ensures !Known(ix, anchor, word) ==> TermHits(ix, anchor, word) == iset{}
  {
  }

  lemma RunPlace(ix: Index, anchor: bool, words: seq<Text>, d: nat, s: nat, i: nat)
    requires i < |words| && RunIn(ix, anchor, words, d, s)
    ensures s + i in TermHits(ix, anchor, words[i])
  {
    hide TermHits;
    assert s + i in WordSets(ix, anchor, words)[i];
  }

  lemma NoRun(ix: Index, anchor: bool, words: seq<Text>, d: nat, i: nat)
    requires i < |words| && TermHits(ix, anchor, words[i]) == iset{}
    ensures forall s: nat :: !RunIn(ix, anchor, words, d, s)
  {
    hide TermHits, RunIn;
    forall s: nat ensures !RunIn(ix, anchor, words, d, s) {
      if RunIn(ix, anchor, words, d, s) { RunPlace(ix, anchor, words, d, s, i); }
    }
  }

  lemma QuotedMeans(ix: Index, anchor: bool, words: seq<Text>, d: nat)
    requires WellIndexed(ix) && !Wraps(WordSets(ix, anchor, words))
    ensures var p := Q.AtomPlan(Q.Quoted(words), Indexed(ix, anchor));
      MatchesAtom(ix, anchor, Q.Quoted(words), d) <==> p.Some? && Selects(ix, anchor, p.value, d)
  {
    hide Wraps, WellIndexed, TermHits;
    var indexed := Indexed(ix, anchor);
    if w :| w in words && !indexed(w) {
      UnknownHasNoHits(ix, anchor, w);
      var i: nat :| i < |words| && words[i] == w;
      NoRun(ix, anchor, words, d, i);
    } else {
      FilterAll(words, indexed);
      if |words| == 1 {
        SingleRun(ix, anchor, words, d);
      } else if |words| > 1 {
        SequenceTouches(ix, anchor, words, d);
      }
    }
  }

  lemma SingleRun(ix: Index, anchor: bool, words: seq<Text>, d: nat)
    requires |words| == 1
    ensures (exists s: nat :: RunIn(ix, anchor, words, d, s)) <==> Layout.Hits(TermHits(ix, anchor, words[0]), Spans(ix.documents), d)
  {
    hide TermHits;
    var sets := WordSets(ix, anchor, words);
    assert sets[0] == TermHits(ix, anchor, words[0]);
    if s: nat :| RunIn(ix, anchor, words, d, s) {
      assert s + 0 in sets[0];
    }
    if Layout.Hits(TermHits(ix, anchor, words[0]), Spans(ix.documents), d) {
      var h :| h in TermHits(ix, anchor, words[0]) && InDoc(Spans(ix.documents), d, h);
      assert Run(sets, h);
      assert RunIn(ix, anchor, words, d, h);
    }
  }

  lemma {:induction false} FilterAll(words: seq<Text>, indexed: Text -> bool)
    requires forall w :: w in words ==> indexed(w)
    ensures Q.Filter(words, indexed) == words
  {
    if words != [] {
      FilterAll(words[..|words| - 1], indexed);
    }
  }
}
