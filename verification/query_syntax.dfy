/** What the recursive-descent compiler of src/index/src/lib/query_compiler.cpp makes of a token list,
    as a function; and what a query written in its grammar means. */
module QuerySyntax {
  import opened Basics

  datatype Token = Word(text: Text) | Or | And | Not | LParen | RParen | Quote

  /** The iterator tree to be built. Single children are not wrapped. */
  datatype Plan =
    | Term(text: Text)
    | Union(alternatives: seq<Plan>)
    | Both(parts: seq<Plan>)
    | Sequence(words: seq<Text>)
    | Except(positive: Plan, negatives: seq<Plan>)

  function AddSome(ps: seq<Plan>, p: Option<Plan>): seq<Plan> {
    if p.Some? then ps + [p.value] else ps
  }

  /** The end of parseOr: no child, one child, or a union. */
  function UnionOf(children: seq<Plan>): Option<Plan> {
    if children == [] then None else if |children| == 1 then Some(children[0]) else Some(Union(children))
  }

  /** The end of parseAnd. */
  function ConjunctionOf(positives: seq<Plan>, negatives: seq<Plan>): Option<Plan> {
    if positives == [] then None
    else
      var positive := if |positives| == 1 then positives[0] else Both(positives);
      Some(if negatives == [] then positive else Except(positive, negatives))
  }

  /** The end of the quoted branch of parsePrimary. */
  function SequenceOf(words: seq<Text>, missing: bool): Option<Plan> {
    if missing || words == [] then None
    else if |words| == 1 then Some(Term(words[0]))
    else Some(Sequence(words))
  }

  // ---------------------------------------------------------------- parsing

  /** parseOr from position c; indexed tells which words createISR finds. */
  function ParseOr(ts: seq<Token>, c: nat, indexed: Text -> bool): (r: (Option<Plan>, nat))
    requires c <= |ts|
    ensures c <= r.1 <= |ts|
    decreases |ts| - c, 3
  {
    var (left, c1) := ParseAnd(ts, c, [], [], indexed);
    ParseOrRest(ts, c1, AddSome([], left), indexed)
  }

  function ParseOrRest(ts: seq<Token>, c: nat, children: seq<Plan>, indexed: Text -> bool): (r: (Option<Plan>, nat))
    requires c <= |ts|
    ensures c <= r.1 <= |ts|
    decreases |ts| - c, 2
  {
    if c < |ts| && ts[c].Or? then
      var (right, c1) := ParseAnd(ts, c + 1, [], [], indexed);
      ParseOrRest(ts, c1, AddSome(children, right), indexed)
    else (UnionOf(children), c)
  }

  /** The loop of parseAnd: a missing positive operand ends it at once, leaving the rest unread. */
  function ParseAnd(ts: seq<Token>, c: nat, positives: seq<Plan>, negatives: seq<Plan>, indexed: Text -> bool)
    : (r: (Option<Plan>, nat))
    requires c <= |ts|
    ensures c <= r.1 <= |ts|
    decreases |ts| - c, 1
  {
    if c == |ts| || ts[c].Or? || ts[c].RParen? then (ConjunctionOf(positives, negatives), c)
    else
      var c1 := if ts[c].And? then c + 1 else c;
      if c1 == |ts| then (ConjunctionOf(positives, negatives), c1)
      else
        var isNot := ts[c1].Not?;
        var c2 := if isNot then c1 + 1 else c1;
        if c2 == |ts| then (ConjunctionOf(positives, negatives), c2)
        else
          var (node, c3) := ParsePrimary(ts, c2, indexed);
          if node.None? then
            if isNot then ParseAnd(ts, c3, positives, negatives, indexed) else (None, c3)
          else if isNot then ParseAnd(ts, c3, positives, negatives + [node.value], indexed)
          else ParseAnd(ts, c3, positives + [node.value], negatives, indexed)
  }

  function ParsePrimary(ts: seq<Token>, c: nat, indexed: Text -> bool): (r: (Option<Plan>, nat))
    requires c < |ts|
    ensures c < r.1 <= |ts|
    decreases |ts| - c, 0
  {
    match ts[c]
    case Word(text) => (if indexed(text) then Some(Term(text)) else None, c + 1)
    case LParen =>
      var (node, c1) := ParseOr(ts, c + 1, indexed);
      (node, if c1 < |ts| && ts[c1].RParen? then c1 + 1 else c1)
    case Quote =>
      var c1 := QuoteEnd(ts, c + 1);
      var words := QuotedWords(ts[c + 1..c1]);
      (SequenceOf(Filter(words, indexed), exists w :: w in words && !indexed(w)), if c1 < |ts| then c1 + 1 else c1)
    case _ => (None, c + 1)
  }

  /** The position of the closing quote, or the end of the tokens. */
  function QuoteEnd(ts: seq<Token>, c: nat): (r: nat)
    requires c <= |ts|
    ensures c <= r <= |ts|
    ensures r < |ts| ==> ts[r].Quote?
    ensures forall i :: c <= i < r ==> !ts[i].Quote?
    decreases |ts| - c
  {
    if c == |ts| || ts[c].Quote? then c else QuoteEnd(ts, c + 1)
  }

  /** Tokens other than words are skipped between quotes. */
  function QuotedWords(ts: seq<Token>): seq<Text> {
    if ts == [] then []
    else
      var front := QuotedWords(ts[..|ts| - 1]);
      var last := ts[|ts| - 1];
      if last.Word? then front + [last.text] else front
  }

  function Filter(words: seq<Text>, indexed: Text -> bool): seq<Text> {
    if words == [] then []
    else
      var front := Filter(words[..|words| - 1], indexed);
      var last := words[|words| - 1];
      if indexed(last) then front + [last] else front
  }

  // ---------------------------------------------------------------- the grammar

  /** Alternatives of conjunctions of operands; an operand may follow an explicit AND and be negated. */
  datatype Query = Query(alternatives: seq<Conjunction>)

  datatype Conjunction = Conjunction(operands: seq<Operand>)

  datatype Operand = Operand(explicitAnd: bool, negated: bool, atom: Atom)

  datatype Atom = Single(word: Text) | Quoted(words: seq<Text>) | Group(query: Query)

  function Print(q: Query): seq<Token> {
    PrintAlternatives(q.alternatives)
  }

  function PrintAlternatives(alts: seq<Conjunction>): seq<Token> {
    if alts == [] then []
    else if |alts| == 1 then PrintOperands(alts[0].operands)
    else PrintOperands(alts[0].operands) + ([Or] + PrintAlternatives(alts[1..]))
  }

  function PrintOperands(ops: seq<Operand>): seq<Token> {
    if ops == [] then [] else PrintOperand(ops[0]) + PrintOperands(ops[1..])
  }

  function PrintOperand(op: Operand): seq<Token> {
    (if op.explicitAnd then [And] else []) + ((if op.negated then [Not] else []) + PrintAtom(op.atom))
  }

  function PrintAtom(a: Atom): (ts: seq<Token>)
    ensures |ts| > 0 && !ts[0].And? && !ts[0].Not? && !ts[0].Or? && !ts[0].RParen?
  {
    match a
    case Single(word) => [Word(word)]
    case Quoted(words) => [Quote] + (PrintWords(words) + [Quote])
    case Group(q) => [LParen] + (Print(q) + [RParen])
  }

  function PrintWords(words: seq<Text>): (ts: seq<Token>)
    ensures |ts| == |words| && forall i :: 0 <= i < |ts| ==> ts[i] == Word(words[i])
  {
    seq(|words|, i requires 0 <= i < |words| => Word(words[i]))
  }

  // ---------------------------------------------------------------- the intended plan

  function PlanOf(q: Query, indexed: Text -> bool): Option<Plan> {
    UnionOf(AlternativePlans(q.alternatives, indexed))
  }

  function AlternativePlans(alts: seq<Conjunction>, indexed: Text -> bool): seq<Plan> {
    if alts == [] then []
    else AddSome(AlternativePlans(alts[..|alts| - 1], indexed), ConjunctionPlan(alts[|alts| - 1], indexed))
  }

  /** A conjunction selects nothing when a positive operand does, or when it has none. */
  function ConjunctionPlan(conj: Conjunction, indexed: Text -> bool): Option<Plan> {
    if exists op :: op in conj.operands && !op.negated && AtomPlan(op.atom, indexed).None? then None
    else ConjunctionOf(OperandPlans(conj, |conj.operands|, false, indexed), OperandPlans(conj, |conj.operands|, true, indexed))
  }

  /** The plans of the positive, or of the negated, ones among the first n operands. */
  function OperandPlans(conj: Conjunction, n: nat, negated: bool, indexed: Text -> bool): seq<Plan>
    requires n <= |conj.operands|
    decreases conj, n
  {
    if n == 0 then []
    else
      var last := conj.operands[n - 1];
      var front := OperandPlans(conj, n - 1, negated, indexed);
      if last.negated == negated then AddSome(front, AtomPlan(last.atom, indexed)) else front
  }

  function AtomPlan(a: Atom, indexed: Text -> bool): Option<Plan>
    decreases a
  {
    match a
    case Single(word) => if indexed(word) then Some(Term(word)) else None
    case Quoted(words) => SequenceOf(Filter(words, indexed), exists w :: w in words && !indexed(w))
    case Group(q) => PlanOf(q, indexed)
  }

  // ---------------------------------------------------------------- parsing what was printed

  /** In every conjunction, only the last operand may be positive and select nothing. */
  predicate Clean(q: Query, indexed: Text -> bool) {
    forall i :: 0 <= i < |q.alternatives| ==> CleanConjunction(q.alternatives[i], indexed)
  }

  predicate CleanConjunction(conj: Conjunction, indexed: Text -> bool) {
    forall i :: 0 <= i < |conj.operands| ==>
      && CleanAtom(conj.operands[i].atom, indexed)
      && (i < |conj.operands| - 1 && !conj.operands[i].negated ==> AtomPlan(conj.operands[i].atom, indexed).Some?)
  }

  predicate CleanAtom(a: Atom, indexed: Text -> bool) {
    match a
    case Group(q) => Clean(q, indexed)
    case _ => true
  }

  ghost predicate Holds(ts: seq<Token>, c: nat, part: seq<Token>) {
    c + |part| <= |ts| && ts[c..c + |part|] == part
  }

  lemma HoldsParts(ts: seq<Token>, c: nat, a: seq<Token>, b: seq<Token>)
    requires Holds(ts, c, a + b)
    ensures Holds(ts, c, a) && Holds(ts, c + |a|, b)
  {
    var s := a + b;
    assert ts[c..c + |a|] == s[..|a|];
    assert ts[c + |a|..c + |a| + |b|] == s[|a|..];
  }

  /** What may follow a query: the end of the tokens or a closing parenthesis. */
  ghost predicate Closed(ts: seq<Token>, c: nat) {
    c == |ts| || (c < |ts| && ts[c].RParen?)
  }

  /** What may follow a conjunction. */
  ghost predicate Stops(ts: seq<Token>, c: nat) {
    c == |ts| || (c < |ts| && (ts[c].RParen? || ts[c].Or?))
  }

  // Single steps of the parser, of printing and of the intended plan.

  lemma OrStarts(ts: seq<Token>, c: nat, left: Option<Plan>, c1: nat, indexed: Text -> bool)
    requires c <= |ts| && ParseAnd(ts, c, [], [], indexed) == (left, c1)
    ensures ParseOr(ts, c, indexed) == ParseOrRest(ts, c1, AddSome([], left), indexed)
  {
    hide ParseAnd, ParseOrRest;
  }

  lemma OrContinues(ts: seq<Token>, c: nat, children: seq<Plan>, right: Option<Plan>, c1: nat, indexed: Text -> bool)
    requires c < |ts| && ts[c].Or? && ParseAnd(ts, c + 1, [], [], indexed) == (right, c1)
    ensures ParseOrRest(ts, c, children, indexed) == ParseOrRest(ts, c1, AddSome(children, right), indexed)
  {
    hide ParseAnd;
  }

  lemma OrEnds(ts: seq<Token>, c: nat, children: seq<Plan>, indexed: Text -> bool)
    requires c <= |ts| && (c < |ts| ==> !ts[c].Or?)
    ensures ParseOrRest(ts, c, children, indexed) == (UnionOf(children), c)
  {
    hide ParseAnd;
  }

  lemma AndEnds(ts: seq<Token>, c: nat, positives: seq<Plan>, negatives: seq<Plan>, indexed: Text -> bool)
    requires c <= |ts| && Stops(ts, c)
    ensures ParseAnd(ts, c, positives, negatives, indexed) == (ConjunctionOf(positives, negatives), c)
  {
    hide ParsePrimary;
  }

  lemma AndContinues(ts: seq<Token>, c: nat, positives: seq<Plan>, negatives: seq<Plan>, op: Operand, c2: nat,
                     node: Option<Plan>, c3: nat, indexed: Text -> bool)
    requires OperandAt(ts, c, op, c2) && ParsePrimary(ts, c2, indexed) == (node, c3)
    ensures ParseAnd(ts, c, positives, negatives, indexed)
         == if !op.negated && node.None? then (None, c3)
            else if op.negated then ParseAnd(ts, c3, positives, AddSome(negatives, node), indexed)
            else ParseAnd(ts, c3, AddSome(positives, node), negatives, indexed)
  {
    hide ParsePrimary;
  }

  /** An operand's optional AND and NOT stand at c, its atom at c2. */
  ghost predicate OperandAt(ts: seq<Token>, c: nat, op: Operand, c2: nat) {
    && c < |ts| && !ts[c].Or? && !ts[c].RParen? && (ts[c].And? <==> op.explicitAnd)
    && var c1 := if op.explicitAnd then c + 1 else c;
       && c1 < |ts| && (ts[c1].Not? <==> op.negated)
       && c2 == (if op.negated then c1 + 1 else c1) && c2 < |ts|
  }

  lemma PlansStep(conj: Conjunction, k: nat, negated: bool, indexed: Text -> bool)
    requires k < |conj.operands|
    ensures OperandPlans(conj, k + 1, negated, indexed)
         == if conj.operands[k].negated == negated
            then AddSome(OperandPlans(conj, k, negated, indexed), AtomPlan(conj.operands[k].atom, indexed))
            else OperandPlans(conj, k, negated, indexed)
  {
    hide AtomPlan;
  }

  lemma AlternativesStep(alts: seq<Conjunction>, k: nat, indexed: Text -> bool)
    requires k < |alts|
    ensures AlternativePlans(alts[..k + 1], indexed)
         == AddSome(AlternativePlans(alts[..k], indexed), ConjunctionPlan(alts[k], indexed))
  {
    hide ConjunctionPlan;
    assert alts[..k + 1][..k] == alts[..k];
  }

  lemma PrintStep(ops: seq<Operand>, k: nat)
    requires k < |ops|
    ensures PrintOperands(ops[k..]) == PrintOperand(ops[k]) + PrintOperands(ops[k + 1..])
  {
    hide PrintOperand;
    assert ops[k..][1..] == ops[k + 1..];
  }

  /** The tokens of the alternatives from k on, after the first one with the OR before it. */
  function Tail(alts: seq<Conjunction>, k: nat): seq<Token>
    requires k <= |alts|
  {
    if k == |alts| then [] else [Or] + PrintAlternatives(alts[k..])
  }

  lemma TailStep(alts: seq<Conjunction>, k: nat)
    requires k < |alts|
    ensures PrintAlternatives(alts[k..]) == PrintOperands(alts[k].operands) + Tail(alts, k + 1)
  {
    hide PrintOperands;
    assert alts[k..][1..] == alts[k + 1..];
  }

  lemma First(ts: seq<Token>, c: nat, t: Token, rest: seq<Token>)
    requires Holds(ts, c, [t] + rest)
    ensures c < |ts| && ts[c] == t
  {
    assert ts[c] == ts[c..c + 1 + |rest|][0];
  }

  /** The parser reads a whole printed query and builds the intended plan, for every clean query. */
  lemma {:induction false} ParsesQuery(ts: seq<Token>, c: nat, q: Query, indexed: Text -> bool)
    requires Clean(q, indexed) && Holds(ts, c, Print(q)) && Closed(ts, c + |Print(q)|)
    ensures ParseOr(ts, c, indexed) == (PlanOf(q, indexed), c + |Print(q)|)
    decreases q, 1
  {
    hide ParseOr, ParseOrRest, ParseAnd, PrintOperands, ConjunctionPlan, CleanConjunction, Holds;
    var alts := q.alternatives;
    if alts == [] {
      NoTokens(ts, c);
      AndEnds(ts, c, [], [], indexed);
      OrStarts(ts, c, None, c, indexed);
      OrEnds(ts, c, [], indexed);
    } else {
      TailStep(alts, 0);
      assert alts[0..] == alts && alts[..0] == [];
      var first := PrintOperands(alts[0].operands);
      HoldsParts(ts, c, first, Tail(alts, 1));
      TailStops(ts, c + |first|, alts, 1);
      assert alts[0] in alts && alts[0].operands[0..] == alts[0].operands;
      NoPlans(alts[0], indexed);
      ParsesOperands(ts, c, alts[0], 0, indexed);
      OrStarts(ts, c, ConjunctionPlan(alts[0], indexed), c + |first|, indexed);
      FirstAlternative(alts, indexed);
      ParsesRest(ts, c + |first|, q, 1, indexed);
    }
  }

  lemma NoTokens(ts: seq<Token>, c: nat)
    requires Holds(ts, c, [])
    ensures c <= |ts|
  {
  }

  lemma TailStops(ts: seq<Token>, c: nat, alts: seq<Conjunction>, k: nat)
    requires k <= |alts| && Holds(ts, c, Tail(alts, k)) && Closed(ts, c + |Tail(alts, k)|)
    ensures Stops(ts, c) && (k < |alts| ==> c < |ts| && ts[c].Or?)
  {
    hide PrintAlternatives;
    if k < |alts| { First(ts, c, Or, PrintAlternatives(alts[k..])); }
  }

  lemma {:induction false} ParsesRest(ts: seq<Token>, c: nat, q: Query, k: nat, indexed: Text -> bool)
    requires Clean(q, indexed) && k <= |q.alternatives|
    requires Holds(ts, c, Tail(q.alternatives, k)) && Closed(ts, c + |Tail(q.alternatives, k)|)
    ensures c <= |ts|
    ensures ParseOrRest(ts, c, AlternativePlans(q.alternatives[..k], indexed), indexed)
         == (PlanOf(q, indexed), c + |Tail(q.alternatives, k)|)
    decreases q, 0, |q.alternatives| - k
  {
    hide ParseOrRest, ParseAnd, PrintOperands, ConjunctionPlan, CleanConjunction, Holds, AlternativePlans, PrintAlternatives;
    var alts := q.alternatives;
    TailStops(ts, c, alts, k);
    if k == |alts| {
      assert alts[..k] == alts;
      OrEnds(ts, c, AlternativePlans(alts, indexed), indexed);
    } else {
      HoldsParts(ts, c, [Or], PrintAlternatives(alts[k..]));
      TailStep(alts, k);
      var first := PrintOperands(alts[k].operands);
      HoldsParts(ts, c + 1, first, Tail(alts, k + 1));
      TailStops(ts, c + 1 + |first|, alts, k + 1);
      assert alts[k] in alts && alts[k].operands[0..] == alts[k].operands;
      NoPlans(alts[k], indexed);
      ParsesOperands(ts, c + 1, alts[k], 0, indexed);
      OrContinues(ts, c, AlternativePlans(alts[..k], indexed), ConjunctionPlan(alts[k], indexed), c + 1 + |first|, indexed);
      AlternativesStep(alts, k, indexed);
      ParsesRest(ts, c + 1 + |first|, q, k + 1, indexed);
    }
  }

  lemma {:induction false} ParsesOperands(ts: seq<Token>, c: nat, conj: Conjunction, k: nat, indexed: Text -> bool)
    requires CleanConjunction(conj, indexed) && k <= |conj.operands|
    requires Holds(ts, c, PrintOperands(conj.operands[k..])) && Stops(ts, c + |PrintOperands(conj.operands[k..])|)
    requires forall i :: 0 <= i < k && !conj.operands[i].negated ==> AtomPlan(conj.operands[i].atom, indexed).Some?
    ensures c <= |ts|
    ensures ParseAnd(ts, c, OperandPlans(conj, k, false, indexed),
                     OperandPlans(conj, k, true, indexed), indexed)
         == (ConjunctionPlan(conj, indexed), c + |PrintOperands(conj.operands[k..])|)
    decreases conj, |conj.operands| - k
  {
    hide ParseAnd, ParsePrimary, Holds, OperandPlans, AtomPlan, PrintOperand, Stops, OperandAt, PrintOperands;
    var ops := conj.operands;
    var P, N := OperandPlans(conj, k, false, indexed), OperandPlans(conj, k, true, indexed);
    if k == |ops| {
      assert ops[k..] == [];
      PrintsNothing();
      NoTokens(ts, c);
      AndEnds(ts, c, P, N, indexed);
    } else {
      var op := ops[k];
      assert op in ops;
      PrintStep(ops, k);
      HoldsParts(ts, c, PrintOperand(op), PrintOperands(ops[k + 1..]));
      var c2 := OperandStarts(ts, c, op);
      ParsesAtom(ts, c2, op.atom, indexed);
      var node, c3 := AtomPlan(op.atom, indexed), c + |PrintOperand(op)|;
      AndContinues(ts, c, P, N, op, c2, node, c3, indexed);
      if op.negated || node.Some? {
        PlansStep(conj, k, false, indexed);
        PlansStep(conj, k, true, indexed);
        ParsesOperands(ts, c3, conj, k + 1, indexed);
      } else {
        assert ops[k + 1..] == [];
        PrintsNothing();
      }
    }
  }

  lemma NoPlans(conj: Conjunction, indexed: Text -> bool)
    ensures forall negated :: OperandPlans(conj, 0, negated, indexed) == []
  {
  }

  lemma PrintsNothing()
    ensures PrintOperands([]) == []
  {
  }

  /** The optional AND and NOT in front of an atom are recognised as such. */
  lemma OperandStarts(ts: seq<Token>, c: nat, op: Operand) returns (c2: nat)
    requires Holds(ts, c, PrintOperand(op))
    ensures OperandAt(ts, c, op, c2)
    ensures Holds(ts, c2, PrintAtom(op.atom)) && c2 + |PrintAtom(op.atom)| == c + |PrintOperand(op)|
  {
    hide PrintAtom;
    var a := if op.explicitAnd then [And] else [];
    var n := if op.negated then [Not] else [];
    HoldsParts(ts, c, a, n + PrintAtom(op.atom));
    HoldsParts(ts, c + |a|, n, PrintAtom(op.atom));
    c2 := c + |a| + |n|;
    assert ts[c2] == ts[c2..c2 + |PrintAtom(op.atom)|][0];
    if op.explicitAnd { assert ts[c] == ts[c..c + 1][0]; }
    if op.negated { assert ts[c + |a|] == ts[c + |a|..c + |a| + 1][0]; }
  }

  lemma {:induction false} ParsesAtom(ts: seq<Token>, c: nat, a: Atom, indexed: Text -> bool)
    requires CleanAtom(a, indexed) && c < |ts| && Holds(ts, c, PrintAtom(a))
    ensures ParsePrimary(ts, c, indexed) == (AtomPlan(a, indexed), c + |PrintAtom(a)|)
    decreases a
  {
    hide ParseOr, Filter, SequenceOf, Clean, Print, PlanOf, QuotedWords, Holds;
    match a
    case Single(word) =>
      assert ts[c] == Word(word) by { assert [Word(word)] + [] == [Word(word)]; First(ts, c, Word(word), []); }
    case Quoted(words) =>
      First(ts, c, Quote, PrintWords(words) + [Quote]);
      ReadsQuoted(ts, c, words);
    case Group(q) =>
      HoldsParts(ts, c, [LParen], Print(q) + [RParen]);
      First(ts, c, LParen, []);
      HoldsParts(ts, c + 1, Print(q), [RParen]);
      First(ts, c + 1 + |Print(q)|, RParen, []);
      ParsesQuery(ts, c + 1, q, indexed);
  }

  lemma ReadsQuoted(ts: seq<Token>, c: nat, words: seq<Text>)
    requires c < |ts| && Holds(ts, c, [Quote] + (PrintWords(words) + [Quote]))
    ensures var end := c + 1 + |words|;
      && end < |ts| && QuoteEnd(ts, c + 1) == end && QuotedWords(ts[c + 1..end]) == words
  {
    hide QuotedWords, QuoteEnd;
    HoldsParts(ts, c, [Quote], PrintWords(words) + [Quote]);
    HoldsParts(ts, c + 1, PrintWords(words), [Quote]);
    var end := c + 1 + |words|;
    First(ts, end, Quote, []);
    forall i | c + 1 <= i < end ensures !ts[i].Quote? {
      assert ts[i] == ts[c + 1..end][i - c - 1];
    }
    QuoteEndIs(ts, c + 1, end);
    WordsBack(words);
    assert ts[c + 1..end] == PrintWords(words);
  }

  lemma {:induction false} QuoteEndIs(ts: seq<Token>, c: nat, end: nat)
    requires c <= end < |ts| && ts[end].Quote? && forall i :: c <= i < end ==> !ts[i].Quote?
    ensures QuoteEnd(ts, c) == end
    decreases end - c
  {
    if c < end { QuoteEndIs(ts, c + 1, end); }
  }

  lemma {:induction false} WordsBack(words: seq<Text>)
    ensures QuotedWords(PrintWords(words)) == words
  {
    if words != [] {
      var n := |words| - 1;
      assert PrintWords(words)[..n] == PrintWords(words[..n]);
      WordsBack(words[..n]);
    }
  }

  // ---------------------------------------------------------------- the parser does not leave parentheses

  predicate StartsAtom(t: Token) { t.Word? || t.LParen? || t.Quote? }

  /** From p on, taking quoted text as one piece, the tokens up to g close n parentheses more than they
      open, none of them before it was opened; an AND and a NOT have something behind them. */
  ghost predicate Closes(ts: seq<Token>, p: nat, g: nat, n: nat)
    decreases g - p
  {
    && p <= g <= |ts|
    && if p == g then n == 0 && Closed(ts, g)
       else match ts[p]
         case And => p + 1 < g && (StartsAtom(ts[p + 1]) || ts[p + 1].Not?) && Closes(ts, p + 1, g, n)
         case Not => p + 1 < g && StartsAtom(ts[p + 1]) && Closes(ts, p + 1, g, n)
         case LParen => Closes(ts, p + 1, g, n + 1)
         case RParen => n > 0 && Closes(ts, p + 1, g, n - 1)
         case Quote => var e := QuoteEnd(ts, p + 1); e < g && Closes(ts, e + 1, g, n)
         case _ => Closes(ts, p + 1, g, n)
  }

  /** Wherever it starts among them, no part of the parser closes a parenthesis that it did not open. */
  lemma {:induction false} OrStays(ts: seq<Token>, c: nat, g: nat, n: nat, indexed: Text -> bool) returns (m: nat)
    requires Closes(ts, c, g, n)
    ensures n <= m && Closes(ts, ParseOr(ts, c, indexed).1, g, m)
    decreases |ts| - c, 3
  {
    var r := ParseAnd(ts, c, [], [], indexed);
    m := AndStays(ts, c, g, n, [], [], indexed);
    m := RestStays(ts, r.1, g, m, AddSome([], r.0), indexed);
  }

  lemma {:induction false} RestStays(ts: seq<Token>, c: nat, g: nat, n: nat, children: seq<Plan>, indexed: Text -> bool) returns (m: nat)
    requires Closes(ts, c, g, n)
    ensures n <= m && Closes(ts, ParseOrRest(ts, c, children, indexed).1, g, m)
    decreases |ts| - c, 2
  {
    m := n;
    if c < |ts| && ts[c].Or? {
      var r := ParseAnd(ts, c + 1, [], [], indexed);
      m := AndStays(ts, c + 1, g, n, [], [], indexed);
      m := RestStays(ts, r.1, g, m, AddSome(children, r.0), indexed);
    }
  }

  lemma {:induction false} AndStays(ts: seq<Token>, c: nat, g: nat, n: nat, positives: seq<Plan>, negatives: seq<Plan>,
                                    indexed: Text -> bool) returns (m: nat)
    requires Closes(ts, c, g, n)
    ensures n <= m && Closes(ts, ParseAnd(ts, c, positives, negatives, indexed).1, g, m)
    decreases |ts| - c, 1
  {
    if c == |ts| || ts[c].Or? || ts[c].RParen? { return n; }
    var c1 := if ts[c].And? then c + 1 else c;
    var isNot := ts[c1].Not?;
    var c2 := if isNot then c1 + 1 else c1;
    var r := ParsePrimary(ts, c2, indexed);
    m := PrimaryStays(ts, c2, g, n, indexed);
    if r.0.None? {
      if isNot { m := AndStays(ts, r.1, g, m, positives, negatives, indexed); }
    } else if isNot {
      m := AndStays(ts, r.1, g, m, positives, negatives + [r.0.value], indexed);
    } else {
      m := AndStays(ts, r.1, g, m, positives + [r.0.value], negatives, indexed);
    }
  }

  lemma {:induction false} PrimaryStays(ts: seq<Token>, c: nat, g: nat, n: nat, indexed: Text -> bool) returns (m: nat)
    requires Closes(ts, c, g, n) && c < g && StartsAtom(ts[c])
    ensures n <= m && Closes(ts, ParsePrimary(ts, c, indexed).1, g, m)
    decreases |ts| - c, 0
  {
    m := n;
    if ts[c].LParen? {
      var e := ParseOr(ts, c + 1, indexed).1;
      m := OrStays(ts, c + 1, g, n + 1, indexed);
      if ts[e].RParen? { m := m - 1; }
    }
  }

  /** A printed query closes what it opens. */
  lemma {:induction false} QueryCloses(ts: seq<Token>, c: nat, q: Query, k: nat, g: nat, n: nat)
    requires k < |q.alternatives| && Holds(ts, c, PrintAlternatives(q.alternatives[k..]))
    requires Closes(ts, c + |PrintAlternatives(q.alternatives[k..])|, g, n)
    ensures Closes(ts, c, g, n)
    decreases q, |q.alternatives| - k
  {
    hide PrintAlternatives, PrintOperands, Holds, Closes;
    var alts := q.alternatives;
    TailStep(alts, k);
    var first := PrintOperands(alts[k].operands);
    HoldsParts(ts, c, first, Tail(alts, k + 1));
    if k + 1 < |alts| {
      HoldsParts(ts, c + |first|, [Or], PrintAlternatives(alts[k + 1..]));
      First(ts, c + |first|, Or, []);
      QueryCloses(ts, c + |first| + 1, q, k + 1, g, n);
      OrCloses(ts, c + |first|, g, n);
    }
    assert alts[k] in alts && alts[k].operands[0..] == alts[k].operands;
    OperandsClose(ts, c, alts[k], 0, g, n);
  }

  lemma OrCloses(ts: seq<Token>, c: nat, g: nat, n: nat)
    requires c < |ts| && ts[c].Or? && Closes(ts, c + 1, g, n)
    ensures Closes(ts, c, g, n)
  {
  }

  lemma {:induction false} OperandsClose(ts: seq<Token>, c: nat, conj: Conjunction, k: nat, g: nat, n: nat)
    requires k <= |conj.operands| && Holds(ts, c, PrintOperands(conj.operands[k..]))
    requires Closes(ts, c + |PrintOperands(conj.operands[k..])|, g, n)
    ensures Closes(ts, c, g, n)
    decreases conj, |conj.operands| - k
  {
    hide PrintOperand, PrintOperands, Holds, Closes;
    var ops := conj.operands;
    if k == |ops| {
      assert ops[k..] == [];
      PrintsNothing();
    } else {
      PrintStep(ops, k);
      HoldsParts(ts, c, PrintOperand(ops[k]), PrintOperands(ops[k + 1..]));
      OperandsClose(ts, c + |PrintOperand(ops[k])|, conj, k + 1, g, n);
      var c2 := OperandStarts(ts, c, ops[k]);
      assert ops[k] in ops;
      AtomCloses(ts, c2, ops[k].atom, g, n);
      OperandCloses(ts, c, ops[k], c2, g, n);
    }
  }

  lemma OperandCloses(ts: seq<Token>, c: nat, op: Operand, c2: nat, g: nat, n: nat)
    requires OperandAt(ts, c, op, c2) && Closes(ts, c2, g, n) && c2 < g && StartsAtom(ts[c2])
    ensures Closes(ts, c, g, n)
  {
    if op.negated { assert Closes(ts, c2 - 1, g, n); }
  }

  lemma {:induction false} AtomCloses(ts: seq<Token>, c: nat, a: Atom, g: nat, n: nat)
    requires Holds(ts, c, PrintAtom(a)) && Closes(ts, c + |PrintAtom(a)|, g, n)
    ensures Closes(ts, c, g, n) && c < g && StartsAtom(ts[c])
    decreases a
  {
    hide Print, QuotedWords, Closes, Holds;
    match a
    case Single(word) =>
      assert [Word(word)] + [] == [Word(word)];
      First(ts, c, Word(word), []);
      WordCloses(ts, c, g, n);
    case Quoted(words) =>
      First(ts, c, Quote, PrintWords(words) + [Quote]);
      ReadsQuoted(ts, c, words);
      QuoteCloses(ts, c, g, n);
    case Group(q) => GroupCloses(ts, c, q, g, n);
  }

  lemma {:induction false} GroupCloses(ts: seq<Token>, c: nat, q: Query, g: nat, n: nat)
    requires Holds(ts, c, [LParen] + (Print(q) + [RParen])) && Closes(ts, c + 2 + |Print(q)|, g, n)
    ensures Closes(ts, c, g, n) && c < g && ts[c].LParen?
    decreases q, |q.alternatives| + 1
  {
    hide Print, Closes, Holds;
    var e := c + 1 + |Print(q)|;
    HoldsParts(ts, c, [LParen], Print(q) + [RParen]);
    First(ts, c, LParen, []);
    HoldsParts(ts, c + 1, Print(q), [RParen]);
    First(ts, e, RParen, []);
    ParenthesesClose(ts, c, e, g, n);
    if q.alternatives == [] {
      PrintsNoAlternatives(q);
    } else {
      assert q.alternatives[0..] == q.alternatives;
      PrintIs(q);
      QueryCloses(ts, c + 1, q, 0, g, n + 1);
    }
    ParenthesesClose(ts, c, e, g, n);
  }

  lemma PrintsNoAlternatives(q: Query)
    requires q.alternatives == []
    ensures Print(q) == []
  {
  }

  lemma PrintIs(q: Query)
    ensures Print(q) == PrintAlternatives(q.alternatives)
  {
  }

  lemma WordCloses(ts: seq<Token>, c: nat, g: nat, n: nat)
    requires c < |ts| && ts[c].Word? && Closes(ts, c + 1, g, n)
    ensures c < g && Closes(ts, c, g, n)
  {
  }

  lemma QuoteCloses(ts: seq<Token>, c: nat, g: nat, n: nat)
    requires c < |ts| && ts[c].Quote? && Closes(ts, QuoteEnd(ts, c + 1) + 1, g, n)
    ensures c < g && Closes(ts, c, g, n)
  {
  }

  /** A closing parenthesis at e leaves one more to close before it, an opening one at c one less. */
  lemma ParenthesesClose(ts: seq<Token>, c: nat, e: nat, g: nat, n: nat)
    requires c < e
    ensures e < |ts| && ts[e].RParen? && Closes(ts, e + 1, g, n) ==> Closes(ts, e, g, n + 1)
    ensures c < |ts| && ts[c].LParen? && Closes(ts, c + 1, g, n + 1) ==> c < g && Closes(ts, c, g, n)
  {
  }

  // ---------------------------------------------------------------- queries that are not clean

  lemma OperandLength(op: Operand)
    ensures |PrintOperand(op)| > 0
  {
    hide PrintAtom;
  }

  /** The operands before k are clean, and none of them is positive and selects nothing. */
  predicate ReadUpTo(conj: Conjunction, k: nat, indexed: Text -> bool)
    requires k <= |conj.operands|
  {
    forall i :: 0 <= i < k ==>
      && CleanAtom(conj.operands[i].atom, indexed)
      && (!conj.operands[i].negated ==> AtomPlan(conj.operands[i].atom, indexed).Some?)
  }

  lemma ReadMore(conj: Conjunction, k: nat, indexed: Text -> bool)
    requires k < |conj.operands| && ReadUpTo(conj, k, indexed) && CleanAtom(conj.operands[k].atom, indexed)
    requires conj.operands[k].negated || AtomPlan(conj.operands[k].atom, indexed).Some?
    ensures ReadUpTo(conj, k + 1, indexed)
  {
    hide AtomPlan, CleanAtom;
  }

  lemma ReadToLastIsClean(conj: Conjunction, k: nat, indexed: Text -> bool)
    requires k <= |conj.operands| && ReadUpTo(conj, k, indexed) && k + 1 >= |conj.operands|
    requires k < |conj.operands| ==> CleanAtom(conj.operands[k].atom, indexed)
    ensures CleanConjunction(conj, indexed)
  {
    hide AtomPlan, CleanAtom;
  }

  /** A clean operand moves the parser on to the next one, or stops it when it is positive and selects
      nothing. */
  lemma OperandRead(ts: seq<Token>, c: nat, conj: Conjunction, k: nat, indexed: Text -> bool)
    requires k < |conj.operands| && CleanAtom(conj.operands[k].atom, indexed) && Holds(ts, c, PrintOperands(conj.operands[k..]))
    ensures c <= |ts|
    ensures var op, c3 := conj.operands[k], c + |PrintOperand(conj.operands[k])|;
      && Holds(ts, c3, PrintOperands(conj.operands[k + 1..])) && c < c3 <= |ts|
      && c3 + |PrintOperands(conj.operands[k + 1..])| == c + |PrintOperands(conj.operands[k..])|
      && ParseAnd(ts, c, OperandPlans(conj, k, false, indexed), OperandPlans(conj, k, true, indexed), indexed)
         == if !op.negated && AtomPlan(op.atom, indexed).None? then (None, c3)
            else ParseAnd(ts, c3, OperandPlans(conj, k + 1, false, indexed), OperandPlans(conj, k + 1, true, indexed), indexed)
  {
    hide ParseAnd, ParsePrimary, Holds, OperandPlans, AtomPlan, PrintOperand, PrintOperands, CleanAtom;
    var ops, op := conj.operands, conj.operands[k];
    PrintStep(ops, k);
    HoldsParts(ts, c, PrintOperand(op), PrintOperands(ops[k + 1..]));
    HeldEnds(ts, c + |PrintOperand(op)|, PrintOperands(ops[k + 1..]));
    OperandLength(op);
    var c2 := OperandStarts(ts, c, op);
    ParsesAtom(ts, c2, op.atom, indexed);
    AndContinues(ts, c, OperandPlans(conj, k, false, indexed), OperandPlans(conj, k, true, indexed), op, c2,
                 AtomPlan(op.atom, indexed), c + |PrintOperand(op)|, indexed);
    PlansStep(conj, k, false, indexed);
    PlansStep(conj, k, true, indexed);
  }

  lemma HeldEnds(ts: seq<Token>, c: nat, part: seq<Token>)
    requires Holds(ts, c, part)
    ensures c + |part| <= |ts|
  {
  }

  /** In front of an operand the alternatives end. */
  lemma OperandEndsOr(ts: seq<Token>, c: nat, conj: Conjunction, k: nat, children: seq<Plan>, indexed: Text -> bool)
    requires k < |conj.operands| && Holds(ts, c, PrintOperands(conj.operands[k..]))
    ensures c < |ts| && !ts[c].Or? && !ts[c].RParen? && ParseOrRest(ts, c, children, indexed) == (UnionOf(children), c)
    ensures |PrintOperands(conj.operands[k..])| > 0
  {
    hide ParseOrRest, Holds, PrintOperand;
    OperandLength(conj.operands[k]);
    PrintStep(conj.operands, k);
    HoldsParts(ts, c, PrintOperand(conj.operands[k]), PrintOperands(conj.operands[k + 1..]));
    var _ := OperandStarts(ts, c, conj.operands[k]);
    OrEnds(ts, c, children, indexed);
  }

  /** From a conjunction that is not clean, what is in it or in a group of it, the parser does not come to
      the end of that conjunction, not even with the alternatives that it finds on its way. */
  lemma {:induction false} CutsOperands(ts: seq<Token>, c: nat, conj: Conjunction, k: nat, children: seq<Plan>, indexed: Text -> bool)
    requires !CleanConjunction(conj, indexed) && k <= |conj.operands| && ReadUpTo(conj, k, indexed)
    requires Holds(ts, c, PrintOperands(conj.operands[k..]))
    ensures c <= |ts|
    ensures var r := ParseAnd(ts, c, OperandPlans(conj, k, false, indexed), OperandPlans(conj, k, true, indexed), indexed);
      ParseOrRest(ts, r.1, AddSome(children, r.0), indexed).1 < c + |PrintOperands(conj.operands[k..])|
    decreases conj, |conj.operands| - k
  {
    hide ParseAnd, ParseOrRest, Holds, OperandPlans, AtomPlan, PrintOperand, PrintOperands, CleanAtom, CleanConjunction, ReadUpTo;
    var ops := conj.operands;
    if k == |ops| {
      ReadToLastIsClean(conj, k, indexed);
      assert false;
    } else if CleanAtom(ops[k].atom, indexed) {
      OperandRead(ts, c, conj, k, indexed);
      if ops[k].negated || AtomPlan(ops[k].atom, indexed).Some? {
        ReadMore(conj, k, indexed);
        CutsOperands(ts, c + |PrintOperand(ops[k])|, conj, k + 1, children, indexed);
      } else {
        if k + 1 == |ops| { ReadToLastIsClean(conj, k, indexed); }
        OperandEndsOr(ts, c + |PrintOperand(ops[k])|, conj, k + 1, children, indexed);
      }
    } else {
      assert ops[k] in ops;
      UncleanIsGroup(ops[k].atom, indexed);
      PrintStep(ops, k);
      HoldsParts(ts, c, PrintOperand(ops[k]), PrintOperands(ops[k + 1..]));
      HeldEnds(ts, c, PrintOperand(ops[k]));
      GroupCuts(ts, c, ops[k], OperandPlans(conj, k, false, indexed), OperandPlans(conj, k, true, indexed), children, indexed);
    }
  }

  lemma UncleanIsGroup(a: Atom, indexed: Text -> bool)
    requires !CleanAtom(a, indexed)
    ensures a.Group? && !Clean(a.query, indexed) && a.query.alternatives != []
  {
    hide CleanConjunction;
  }

  /** A group that is not clean keeps the parser before its closing parenthesis. */
  lemma {:induction false} GroupCuts(ts: seq<Token>, c: nat, op: Operand, P: seq<Plan>, N: seq<Plan>, children: seq<Plan>, indexed: Text -> bool)
    requires op.atom.Group? && !Clean(op.atom.query, indexed) && Holds(ts, c, PrintOperand(op)) && c <= |ts|
    ensures var r := ParseAnd(ts, c, P, N, indexed);
      ParseOrRest(ts, r.1, AddSome(children, r.0), indexed).1 < c + |PrintOperand(op)|
    decreases op
  {
    hide ParseOr, ParseAnd, ParseOrRest, ParsePrimary, Holds, Print, Closes, Clean, Closed, OperandAt;
    var c2 := OperandStarts(ts, c, op);
    var g := GroupSpan(ts, c2, op.atom.query);
    UncleanIsGroup(op.atom, indexed);
    StopsInside(ts, c2 + 1, op.atom.query, indexed);
    var m := GroupInside(ts, c2, op.atom.query, indexed);
    var p := ParsePrimary(ts, c2, indexed);
    AndContinues(ts, c, P, N, op, c2, p.0, p.1, indexed);
    if op.negated || p.0.Some? {
      var P' := if op.negated then P else AddSome(P, p.0);
      var N' := if op.negated then AddSome(N, p.0) else N;
      m := AndStays(ts, p.1, g, m, P', N', indexed);
    }
    var r := ParseAnd(ts, c, P, N, indexed);
    m := RestStays(ts, r.1, g, m, AddSome(children, r.0), indexed);
    ClosesBefore(ts, ParseOrRest(ts, r.1, AddSome(children, r.0), indexed).1, g, m);
  }

  lemma ClosesBefore(ts: seq<Token>, p: nat, g: nat, n: nat)
    requires Closes(ts, p, g, n)
    ensures p <= g <= |ts|
  {
  }

  /** The closing parenthesis of a printed group. */
  lemma GroupSpan(ts: seq<Token>, c: nat, q: Query) returns (g: nat)
    requires Holds(ts, c, PrintAtom(Group(q)))
    ensures g == c + 1 + |Print(q)| == c + |PrintAtom(Group(q))| - 1 && g < |ts| && ts[c].LParen?
    ensures Holds(ts, c + 1, Print(q)) && Closed(ts, g)
  {
    hide Print, Holds;
    HoldsParts(ts, c, [LParen], Print(q) + [RParen]);
    First(ts, c, LParen, []);
    HoldsParts(ts, c + 1, Print(q), [RParen]);
    g := c + 1 + |Print(q)|;
    First(ts, g, RParen, []);
  }

  /** A group whose query is left early is itself left before its closing parenthesis is read. */
  lemma GroupInside(ts: seq<Token>, c: nat, q: Query, indexed: Text -> bool) returns (m: nat)
    requires q.alternatives != [] && Holds(ts, c, PrintAtom(Group(q))) && c < |ts|
    requires c + 1 <= |ts| && ParseOr(ts, c + 1, indexed).1 < c + 1 + |Print(q)|
    ensures Closes(ts, ParsePrimary(ts, c, indexed).1, c + 1 + |Print(q)|, m)
  {
    hide ParseOr, Print, Holds, PrintAlternatives;
    var g := GroupSpan(ts, c, q);
    assert q.alternatives[0..] == q.alternatives;
    PrintIs(q);
    QueryCloses(ts, c + 1, q, 0, g, 0);
    m := OrStays(ts, c + 1, g, 0, indexed);
    if ts[ParseOr(ts, c + 1, indexed).1].RParen? { m := m - 1; }
  }

  /** From the first alternative that is not clean on, the end is not reached. */
  lemma {:induction false} CutsRest(ts: seq<Token>, c: nat, q: Query, k: nat, indexed: Text -> bool)
    requires k <= |q.alternatives| && !Clean(q, indexed)
    requires forall i :: 0 <= i < k ==> CleanConjunction(q.alternatives[i], indexed)
    requires Holds(ts, c, Tail(q.alternatives, k)) && Closed(ts, c + |Tail(q.alternatives, k)|)
    ensures c <= |ts|
    ensures ParseOrRest(ts, c, AlternativePlans(q.alternatives[..k], indexed), indexed).1 < c + |Tail(q.alternatives, k)|
    decreases q, |q.alternatives| - k
  {
    hide ParseOrRest, ParseAnd, PrintOperands, ConjunctionPlan, CleanConjunction, Holds, AlternativePlans, PrintAlternatives;
    var alts := q.alternatives;
    TailStops(ts, c, alts, k);
    HoldsParts(ts, c, [Or], PrintAlternatives(alts[k..]));
    TailStep(alts, k);
    var first := PrintOperands(alts[k].operands);
    HoldsParts(ts, c + 1, first, Tail(alts, k + 1));
    TailStops(ts, c + 1 + |first|, alts, k + 1);
    var all := AlternativePlans(alts[..k], indexed);
    assert alts[k] in alts && alts[k].operands[0..] == alts[k].operands;
    NoPlans(alts[k], indexed);
    if CleanConjunction(alts[k], indexed) {
      ParsesOperands(ts, c + 1, alts[k], 0, indexed);
      OrContinues(ts, c, all, ConjunctionPlan(alts[k], indexed), c + 1 + |first|, indexed);
      AlternativesStep(alts, k, indexed);
      CutsRest(ts, c + 1 + |first|, q, k + 1, indexed);
    } else {
      CutsOperands(ts, c + 1, alts[k], 0, all, indexed);
      var r := ParseAnd(ts, c + 1, [], [], indexed);
      OrContinues(ts, c, all, r.0, r.1, indexed);
    }
  }

  /** A query that is not clean, anywhere in it, is not read to its end. */
  lemma {:induction false} StopsInside(ts: seq<Token>, c: nat, q: Query, indexed: Text -> bool)
    requires !Clean(q, indexed) && Holds(ts, c, Print(q)) && Closed(ts, c + |Print(q)|)
    ensures c <= |ts| && ParseOr(ts, c, indexed).1 < c + |Print(q)|
    decreases q, |q.alternatives| + 1
  {
    hide ParseOr, ParseOrRest, ParseAnd, PrintOperands, ConjunctionPlan, CleanConjunction, Holds, AlternativePlans;
    var alts := q.alternatives;
    TailStep(alts, 0);
    assert alts[0..] == alts;
    var first := PrintOperands(alts[0].operands);
    HoldsParts(ts, c, first, Tail(alts, 1));
    TailStops(ts, c + |first|, alts, 1);
    assert alts[0] in alts && alts[0].operands[0..] == alts[0].operands;
    NoPlans(alts[0], indexed);
    if CleanConjunction(alts[0], indexed) {
      ParsesOperands(ts, c, alts[0], 0, indexed);
      OrStarts(ts, c, ConjunctionPlan(alts[0], indexed), c + |first|, indexed);
      FirstAlternative(alts, indexed);
      CutsRest(ts, c + |first|, q, 1, indexed);
    } else {
      CutsOperands(ts, c, alts[0], 0, [], indexed);
      var r := ParseAnd(ts, c, [], [], indexed);
      OrStarts(ts, c, r.0, r.1, indexed);
    }
  }

  lemma FirstAlternative(alts: seq<Conjunction>, indexed: Text -> bool)
    requires alts != []
    ensures AlternativePlans(alts[..1], indexed) == AddSome([], ConjunctionPlan(alts[0], indexed))
  {
    hide ConjunctionPlan;
    AlternativesStep(alts, 0, indexed);
    assert alts[..0] == [];
  }

  /** The tokens of any query, with whatever groups, are read to their end exactly when it is clean. */
  lemma ReadsAllIffClean(ts: seq<Token>, c: nat, q: Query, indexed: Text -> bool)
    requires Holds(ts, c, Print(q)) && Closed(ts, c + |Print(q)|)
    ensures c <= |ts| && (ParseOr(ts, c, indexed).1 == c + |Print(q)| <==> Clean(q, indexed))
  {
    hide ParseOr, Print, Clean;
    if Clean(q, indexed) {
      ParsesQuery(ts, c, q, indexed);
    } else {
      StopsInside(ts, c, q, indexed);
    }
  }

  // ---------------------------------------------------------------- when the plan is the intended one

  /** The operand k is positive and stops the parser for good: it selects nothing and has another operand
      behind it, or it is a group in which the parser stops for good before it found anything. */
  predicate BlockedAt(conj: Conjunction, k: nat, indexed: Text -> bool)
    requires k < |conj.operands|
    decreases conj, 0
  {
    && ReadUpTo(conj, k, indexed) && !conj.operands[k].negated
    && if CleanAtom(conj.operands[k].atom, indexed) then k + 1 < |conj.operands| && AtomPlan(conj.operands[k].atom, indexed).None?
       else BlockedEmpty(conj.operands[k].atom, indexed)
  }

  predicate Blocked(conj: Conjunction, indexed: Text -> bool)
    decreases conj, 1
  {
    exists k :: 0 <= k < |conj.operands| && BlockedAt(conj, k, indexed)
  }

  predicate BlockedEmpty(a: Atom, indexed: Text -> bool)
    decreases a
  {
    match a
    case Group(q) =>
      exists i :: 0 <= i < |q.alternatives| && Blocked(q.alternatives[i], indexed)
                  && forall j :: 0 <= j < i ==> CleanConjunction(q.alternatives[j], indexed) && ConjunctionPlan(q.alternatives[j], indexed).None?
    case _ => false
  }

  /** The parser reads the alternatives before i and stops for good in alternative i. */
  predicate BlockedIn(q: Query, i: nat, indexed: Text -> bool) {
    && i < |q.alternatives| && Blocked(q.alternatives[i], indexed)
    && forall j :: 0 <= j < i ==> CleanConjunction(q.alternatives[j], indexed)
  }

  /** From alternative i on, none has a plan. */
  predicate NoneFrom(q: Query, i: nat, indexed: Text -> bool) {
    forall j :: i <= j < |q.alternatives| ==> ConjunctionPlan(q.alternatives[j], indexed).None?
  }

  /** Position e is in front of an operand. */
  ghost predicate Stuck(ts: seq<Token>, e: nat) {
    e < |ts| && !ts[e].Or? && !ts[e].RParen?
  }

  lemma {:induction false} BlockedOperands(ts: seq<Token>, c: nat, conj: Conjunction, n: nat, k: nat, indexed: Text -> bool)
    requires n <= k < |conj.operands| && BlockedAt(conj, k, indexed) && Holds(ts, c, PrintOperands(conj.operands[n..]))
    ensures c <= |ts|
    ensures var r := ParseAnd(ts, c, OperandPlans(conj, n, false, indexed), OperandPlans(conj, n, true, indexed), indexed);
      r.0.None? && Stuck(ts, r.1)
    decreases conj, k - n
  {
    hide ParseAnd, ParsePrimary, Holds, OperandPlans, PrintOperand, PrintOperands, CleanAtom, AtomPlan, ConjunctionPlan, CleanConjunction, BlockedEmpty;
    var ops := conj.operands;
    if n < k {
      OperandRead(ts, c, conj, n, indexed);
      BlockedOperands(ts, c + |PrintOperand(ops[n])|, conj, n + 1, k, indexed);
    } else if CleanAtom(ops[k].atom, indexed) {
      OperandRead(ts, c, conj, k, indexed);
      OperandEndsOr(ts, c + |PrintOperand(ops[k])|, conj, k + 1, [], indexed);
    } else {
      assert ops[k] in ops;
      PrintStep(ops, k);
      HoldsParts(ts, c, PrintOperand(ops[k]), PrintOperands(ops[k + 1..]));
      HeldEnds(ts, c, PrintOperand(ops[k]));
      var c2 := OperandStarts(ts, c, ops[k]);
      BlockedGroup(ts, c2, ops[k].atom, indexed);
      var p := ParsePrimary(ts, c2, indexed);
      AndContinues(ts, c, OperandPlans(conj, k, false, indexed), OperandPlans(conj, k, true, indexed), ops[k], c2, p.0, p.1, indexed);
    }
  }

  lemma {:induction false} BlockedGroup(ts: seq<Token>, c: nat, a: Atom, indexed: Text -> bool)
    requires BlockedEmpty(a, indexed) && Holds(ts, c, PrintAtom(a)) && c < |ts|
    ensures var r := ParsePrimary(ts, c, indexed); r.0.None? && Stuck(ts, r.1)
    decreases a
  {
    hide ParseOr, Print, Holds, Blocked, CleanConjunction, ConjunctionPlan, PrintAtom;
    var q := a.query;
    var g := GroupSpan(ts, c, q);
    var i: nat :| i < |q.alternatives| && Blocked(q.alternatives[i], indexed)
      && forall j :: 0 <= j < i ==> CleanConjunction(q.alternatives[j], indexed) && ConjunctionPlan(q.alternatives[j], indexed).None?;
    ReadsUpToBlock(ts, c + 1, q, i, indexed);
    NonePlans(q.alternatives, i, indexed);
  }

  lemma {:induction false} NonePlans(alts: seq<Conjunction>, i: nat, indexed: Text -> bool)
    requires i <= |alts| && forall j :: 0 <= j < i ==> ConjunctionPlan(alts[j], indexed).None?
    ensures AlternativePlans(alts[..i], indexed) == []
  {
    hide ConjunctionPlan;
    if i > 0 {
      NonePlans(alts, i - 1, indexed);
      AlternativesStep(alts, i - 1, indexed);
    }
  }

  /** What was read is the union of the alternatives before the one that blocks. */
  lemma {:induction false} ReadsUpToBlock(ts: seq<Token>, c: nat, q: Query, i: nat, indexed: Text -> bool)
    requires BlockedIn(q, i, indexed) && Holds(ts, c, Print(q)) && Closed(ts, c + |Print(q)|)
    ensures c <= |ts|
    ensures var r := ParseOr(ts, c, indexed); r.0 == UnionOf(AlternativePlans(q.alternatives[..i], indexed)) && Stuck(ts, r.1)
    decreases q, |q.alternatives| + 1
  {
    hide ParseOr, ParseOrRest, ParseAnd, PrintOperands, ConjunctionPlan, CleanConjunction, Holds, AlternativePlans, Blocked;
    var alts := q.alternatives;
    TailStep(alts, 0);
    assert alts[0..] == alts && alts[..0] == [];
    var first := PrintOperands(alts[0].operands);
    HoldsParts(ts, c, first, Tail(alts, 1));
    TailStops(ts, c + |first|, alts, 1);
    assert alts[0] in alts && alts[0].operands[0..] == alts[0].operands;
    NoPlans(alts[0], indexed);
    NonePlans(alts, 0, indexed);
    if i > 0 {
      ParsesOperands(ts, c, alts[0], 0, indexed);
      OrStarts(ts, c, ConjunctionPlan(alts[0], indexed), c + |first|, indexed);
      FirstAlternative(alts, indexed);
      RestUpToBlock(ts, c + |first|, q, 1, i, indexed);
    } else {
      var e := BlockEnds(ts, c, alts[0], [], indexed);
      OrStarts(ts, c, None, e, indexed);
    }
  }

  lemma BlockEnds(ts: seq<Token>, c: nat, conj: Conjunction, children: seq<Plan>, indexed: Text -> bool) returns (e: nat)
    requires Blocked(conj, indexed) && Holds(ts, c, PrintOperands(conj.operands))
    ensures c <= |ts| && ParseAnd(ts, c, [], [], indexed) == (None, e) && Stuck(ts, e)
    ensures ParseOrRest(ts, e, children, indexed) == (UnionOf(children), e)
    decreases conj, |conj.operands| + 1
  {
    hide ParseAnd, ParseOrRest, Holds, PrintOperands, BlockedAt;
    var k: nat :| k < |conj.operands| && BlockedAt(conj, k, indexed);
    assert conj.operands[0..] == conj.operands;
    NoPlans(conj, indexed);
    BlockedOperands(ts, c, conj, 0, k, indexed);
    e := ParseAnd(ts, c, [], [], indexed).1;
    OrEnds(ts, e, children, indexed);
  }

  lemma {:induction false} RestUpToBlock(ts: seq<Token>, c: nat, q: Query, k: nat, i: nat, indexed: Text -> bool)
    requires k <= i && BlockedIn(q, i, indexed)
    requires Holds(ts, c, Tail(q.alternatives, k)) && Closed(ts, c + |Tail(q.alternatives, k)|)
    ensures c <= |ts|
    ensures var r := ParseOrRest(ts, c, AlternativePlans(q.alternatives[..k], indexed), indexed);
      r.0 == UnionOf(AlternativePlans(q.alternatives[..i], indexed)) && Stuck(ts, r.1)
    decreases q, i - k
  {
    hide ParseOrRest, ParseAnd, PrintOperands, ConjunctionPlan, CleanConjunction, Holds, AlternativePlans, PrintAlternatives, Blocked;
    var alts := q.alternatives;
    TailStops(ts, c, alts, k);
    HoldsParts(ts, c, [Or], PrintAlternatives(alts[k..]));
    TailStep(alts, k);
    var first := PrintOperands(alts[k].operands);
    HoldsParts(ts, c + 1, first, Tail(alts, k + 1));
    TailStops(ts, c + 1 + |first|, alts, k + 1);
    var all := AlternativePlans(alts[..k], indexed);
    assert alts[k] in alts && alts[k].operands[0..] == alts[k].operands;
    NoPlans(alts[k], indexed);
    if k < i {
      ParsesOperands(ts, c + 1, alts[k], 0, indexed);
      OrContinues(ts, c, all, ConjunctionPlan(alts[k], indexed), c + 1 + |first|, indexed);
      AlternativesStep(alts, k, indexed);
      RestUpToBlock(ts, c + 1 + |first|, q, k + 1, i, indexed);
    } else {
      var e := BlockEnds(ts, c + 1, alts[k], all, indexed);
      OrContinues(ts, c, all, None, e, indexed);
    }
  }

  /** Exactly when the parser builds the intended plan although it stops for good in alternative i: when
      neither that alternative nor any behind it has a plan. */
  lemma IntendedIffNoneFrom(ts: seq<Token>, c: nat, q: Query, i: nat, indexed: Text -> bool)
    requires BlockedIn(q, i, indexed) && Holds(ts, c, Print(q)) && Closed(ts, c + |Print(q)|)
    ensures c <= |ts| && (ParseOr(ts, c, indexed).0 == PlanOf(q, indexed) <==> NoneFrom(q, i, indexed))
  {
    hide ParseOr, Print, Holds, Closed, Stuck, Blocked, ConjunctionPlan, CleanConjunction, AlternativePlans;
    ReadsUpToBlock(ts, c, q, i, indexed);
    var alts := q.alternatives;
    assert alts[..|alts|] == alts;
    var more := PlansFrom(alts, i, |alts|, indexed);
    UnionsDiffer(AlternativePlans(alts[..i], indexed), more);
  }

  /** The plans of the alternatives from i on. */
  lemma {:induction false} PlansFrom(alts: seq<Conjunction>, i: nat, n: nat, indexed: Text -> bool) returns (more: seq<Plan>)
    requires i <= n <= |alts|
    ensures AlternativePlans(alts[..n], indexed) == AlternativePlans(alts[..i], indexed) + more
    ensures more == [] <==> forall j :: i <= j < n ==> ConjunctionPlan(alts[j], indexed).None?
    decreases n
  {
    hide ConjunctionPlan, AlternativePlans;
    if n == i { return []; }
    more := PlansFrom(alts, i, n - 1, indexed);
    AlternativesStep(alts, n - 1, indexed);
    var p := ConjunctionPlan(alts[n - 1], indexed);
    assert AlternativePlans(alts[..i], indexed) + AddSome(more, p) == AddSome(AlternativePlans(alts[..i], indexed) + more, p);
    more := AddSome(more, p);
  }

  lemma UnionsDiffer(all: seq<Plan>, more: seq<Plan>)
    ensures UnionOf(all) == UnionOf(all + more) <==> more == []
  {
    if more == [] {
      assert all + more == all;
    } else if |all| == 1 {
      NotInItself(all[0], all + more);
    }
  }

  lemma NotInItself(p: Plan, ps: seq<Plan>)
    requires p in ps
    ensures p != Union(ps)
  {
    var i :| 0 <= i < |ps| && ps[i] == p;
    assert ps[i] != Union(ps);
  }

  /** The queries whose plan is the intended one although a word is missing, as far as that is known
      from the first alternative that is not clean. */
  predicate Intended(q: Query, indexed: Text -> bool) {
    Clean(q, indexed) || exists i :: 0 <= i < |q.alternatives| && BlockedIn(q, i, indexed) && NoneFrom(q, i, indexed)
  }

  lemma IntendedPlan(ts: seq<Token>, c: nat, q: Query, indexed: Text -> bool)
    requires Intended(q, indexed) && Holds(ts, c, Print(q)) && Closed(ts, c + |Print(q)|)
    ensures c <= |ts| && ParseOr(ts, c, indexed).0 == PlanOf(q, indexed)
  {
    hide ParseOr, Print, Holds, Closed, Clean, BlockedIn, NoneFrom, PlanOf;
    if Clean(q, indexed) {
      ParsesQuery(ts, c, q, indexed);
      ReadsAllIffClean(ts, c, q, indexed);
    } else {
      var i: nat :| i < |q.alternatives| && BlockedIn(q, i, indexed) && NoneFrom(q, i, indexed);
      IntendedIffNoneFrom(ts, c, q, i, indexed);
    }
  }

  /** The parser reads the query to its end, or it stops for good somewhere in it: it does not leave a group
    early and read on outside. */
  predicate Settled(q: Query, indexed: Text -> bool) {
    Clean(q, indexed) || exists i :: 0 <= i < |q.alternatives| && BlockedIn(q, i, indexed)
  }

  /** Exactly when such a query gets the intended plan. */
  lemma IntendedIff(ts: seq<Token>, c: nat, q: Query, indexed: Text -> bool)
    requires Settled(q, indexed) && Holds(ts, c, Print(q)) && Closed(ts, c + |Print(q)|)
    ensures c <= |ts| && (ParseOr(ts, c, indexed).0 == PlanOf(q, indexed) <==> Intended(q, indexed))
  {
    hide ParseOr, Print, Holds, Closed, Clean, BlockedIn, NoneFrom, PlanOf;
    ReadsAllIffClean(ts, c, q, indexed);
    if Intended(q, indexed) {
      IntendedPlan(ts, c, q, indexed);
    } else {
      var i: nat :| i < |q.alternatives| && BlockedIn(q, i, indexed);
      IntendedIffNoneFrom(ts, c, q, i, indexed);
    }
  }

  /** Every query whose groups are clean is such a one. */
  lemma {:induction false} CleanGroupsSettle(q: Query, n: nat, indexed: Text -> bool)
    requires forall j :: 0 <= j < |q.alternatives| ==> CleanGroups(q.alternatives[j], indexed)
    requires n <= |q.alternatives| && forall j :: 0 <= j < n ==> CleanConjunction(q.alternatives[j], indexed)
    ensures Settled(q, indexed)
    decreases |q.alternatives| - n
  {
    hide CleanConjunction, CleanGroups, Blocked;
    if n == |q.alternatives| {
      assert Clean(q, indexed);
    } else if CleanConjunction(q.alternatives[n], indexed) {
      CleanGroupsSettle(q, n + 1, indexed);
    } else {
      FirstMissingBlocks(q.alternatives[n], 0, indexed);
      assert BlockedIn(q, n, indexed);
    }
  }

  /** All groups inside are clean. */
  predicate CleanGroups(conj: Conjunction, indexed: Text -> bool) {
    forall i :: 0 <= i < |conj.operands| ==> CleanAtom(conj.operands[i].atom, indexed)
  }

  lemma {:induction false} FirstMissingBlocks(conj: Conjunction, k: nat, indexed: Text -> bool)
    requires CleanGroups(conj, indexed) && !CleanConjunction(conj, indexed) && k <= |conj.operands| && ReadUpTo(conj, k, indexed)
    ensures Blocked(conj, indexed)
    decreases |conj.operands| - k
  {
    hide CleanAtom, AtomPlan, CleanConjunction, ReadUpTo;
    if k + 1 >= |conj.operands| {
      ReadToLastIsClean(conj, k, indexed);
      assert false;
    } else if conj.operands[k].negated || AtomPlan(conj.operands[k].atom, indexed).Some? {
      ReadMore(conj, k, indexed);
      FirstMissingBlocks(conj, k + 1, indexed);
    } else {
      assert BlockedAt(conj, k, indexed);
    }
  }

  /** "a b | c" with a not indexed: the alternative c is lost. */
  lemma MissingWordLosesAlternative(a: Text, b: Text, w: Text)
    requires a != b && a != w
    ensures var indexed := (t: Text) => t != a;
      var q := Query([Conjunction([Operand(false, false, Single(a)), Operand(false, false, Single(b))]),
                      Conjunction([Operand(false, false, Single(w))])]);
      && Print(q) == [Word(a), Word(b), Or, Word(w)]
      && PlanOf(q, indexed) == Some(Term(w))
      && ParseOr(Print(q), 0, indexed).0 == None
  {
    var indexed := (t: Text) => t != a;
    var c0, c1 := Conjunction([Operand(false, false, Single(a)), Operand(false, false, Single(b))]),
      Conjunction([Operand(false, false, Single(w))]);
    var q := Query([c0, c1]);
    var ts := [Word(a), Word(b), Or, Word(w)];
    assert PrintOperands(c1.operands) == [Word(w)] by { PrintStep(c1.operands, 0); assert c1.operands[0..] == c1.operands; }
    assert PrintOperands(c0.operands) == [Word(a), Word(b)] by {
      PrintStep(c0.operands, 0);
      PrintStep(c0.operands, 1);
      assert c0.operands[0..] == c0.operands && c0.operands[2..] == [];
    }
    TailStep(q.alternatives, 0);
    TailStep(q.alternatives, 1);
    assert q.alternatives[0..] == q.alternatives;
    assert Print(q) == ts;
    assert ConjunctionPlan(c0, indexed) == None by { assert c0.operands[0] in c0.operands; }
    assert ConjunctionPlan(c1, indexed) == Some(Term(w)) by {
      PlansStep(c1, 0, false, indexed);
      PlansStep(c1, 0, true, indexed);
      NoPlans(c1, indexed);
    }
    AlternativesStep(q.alternatives, 0, indexed);
    AlternativesStep(q.alternatives, 1, indexed);
    assert q.alternatives[..2] == q.alternatives;
    assert ParsePrimary(ts, 0, indexed) == (None, 1);
    AndContinues(ts, 0, [], [], c0.operands[0], 0, None, 1, indexed);
    OrStarts(ts, 0, None, 1, indexed);
    OrEnds(ts, 1, [], indexed);
  }

  /** "a NOT (x y)" with x not indexed: y, which was to be excluded with x, becomes required instead, and
      the last parenthesis is left. */
  lemma NegatedGroupSpills(a: Text, x: Text, y: Text)
    requires a != x && x != y
    ensures var indexed := (t: Text) => t != x;
      var q := Query([Conjunction([Operand(false, false, Single(a)), Operand(false, true, Group(BothOf(x, y)))])]);
      && Print(q) == [Word(a), Not, LParen, Word(x), Word(y), RParen]
      && PlanOf(q, indexed) == Some(Term(a))
      && ParseOr(Print(q), 0, indexed) == (Some(Both([Term(a), Term(y)])), 5)
  {
    var indexed := (t: Text) => t != x;
    var conj := Conjunction([Operand(false, false, Single(a)), Operand(false, true, Group(BothOf(x, y)))]);
    SpillPrinted(a, x, y);
    SpillIntended(x, y, indexed);
    var ts := [Word(a), Not, LParen, Word(x), Word(y), RParen];
    assert conj.operands[0..] == conj.operands;
    assert PlanOf(Query([conj]), indexed) == Some(Term(a)) by {
      PlansStep(conj, 0, false, indexed);
      PlansStep(conj, 0, true, indexed);
      PlansStep(conj, 1, false, indexed);
      PlansStep(conj, 1, true, indexed);
      NoPlans(conj, indexed);
      AlternativesStep([conj], 0, indexed);
      assert [conj][..1] == [conj];
    }
    SpillRead(ts, a, x, y, indexed);
  }

  function BothOf(x: Text, y: Text): Query {
    Query([Conjunction([Operand(false, false, Single(x)), Operand(false, false, Single(y))])])
  }

  lemma SpillPrinted(a: Text, x: Text, y: Text)
    ensures Print(BothOf(x, y)) == [Word(x), Word(y)]
    ensures Print(Query([Conjunction([Operand(false, false, Single(a)), Operand(false, true, Group(BothOf(x, y)))])]))
         == [Word(a), Not, LParen, Word(x), Word(y), RParen]
  {
    var inner := BothOf(x, y).alternatives[0].operands;
    assert Print(BothOf(x, y)) == [Word(x), Word(y)] by {
      PrintStep(inner, 0);
      PrintStep(inner, 1);
      assert inner[0..] == inner && inner[2..] == [];
    }
    hide BothOf;
    var ops := [Operand(false, false, Single(a)), Operand(false, true, Group(BothOf(x, y)))];
    PrintStep(ops, 0);
    PrintStep(ops, 1);
    assert ops[0..] == ops && ops[2..] == [];
    assert PrintOperand(ops[1]) == [Not, LParen, Word(x), Word(y), RParen];
  }

  lemma SpillIntended(x: Text, y: Text, indexed: Text -> bool)
    requires !indexed(x)
    ensures AtomPlan(Group(BothOf(x, y)), indexed) == None
  {
    var q := BothOf(x, y);
    var conj := q.alternatives[0];
    assert conj.operands[0] in conj.operands && AtomPlan(conj.operands[0].atom, indexed).None?;
    assert ConjunctionPlan(conj, indexed) == None;
    AlternativesStep(q.alternatives, 0, indexed);
    assert q.alternatives[..1] == q.alternatives;
  }

  lemma SpillRead(ts: seq<Token>, a: Text, x: Text, y: Text, indexed: Text -> bool)
    requires ts == [Word(a), Not, LParen, Word(x), Word(y), RParen] && indexed(a) && !indexed(x) && indexed(y)
    ensures ParseOr(ts, 0, indexed) == (Some(Both([Term(a), Term(y)])), 5)
  {
    hide ParseAnd, ParseOrRest;
    var yes := Operand(false, false, Single(a));
    var no := Operand(false, true, Single(a));
    assert ParseOr(ts, 3, indexed) == (None, 4) by {
      assert ParsePrimary(ts, 3, indexed) == (None, 4);
      AndContinues(ts, 3, [], [], yes, 3, None, 4, indexed);
      OrStarts(ts, 3, None, 4, indexed);
      OrEnds(ts, 4, [], indexed);
    }
    assert ParsePrimary(ts, 2, indexed) == (None, 4);
    AndContinues(ts, 0, [], [], yes, 0, Some(Term(a)), 1, indexed);
    assert AddSome([], Some(Term(a))) == [Term(a)];
    AndContinues(ts, 1, [Term(a)], [], no, 2, None, 4, indexed);
    AndContinues(ts, 4, [Term(a)], [], yes, 4, Some(Term(y)), 5, indexed);
    assert AddSome([Term(a)], Some(Term(y))) == [Term(a), Term(y)];
    AndEnds(ts, 5, [Term(a), Term(y)], [], indexed);
    var both := Both([Term(a), Term(y)]);
    OrStarts(ts, 0, Some(both), 5, indexed);
    assert AddSome([], Some(both)) == [both];
    OrEnds(ts, 5, [both], indexed);
  }
}
