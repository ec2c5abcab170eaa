/** Token lists that no query prints to: quotes and parentheses left open, other tokens between quotes, stray
    tokens where an operand should be. What the parser of src/index/src/lib/query_compiler.cpp makes of
    them, in terms of the tokens of queries. */
module QuerySpelling {
  import opened Basics
  import opened QuerySyntax

  // ---------------------------------------------------------------- token lists that are read alike

  /** A token that cannot be an operand. The parser skips it where it expects one. */
  predicate Stray(t: Token) { t.And? || t.Or? || t.Not? || t.RParen? }

  predicate Connective(t: Token) { t.And? || t.Not? }

  /** Nothing follows but at most an AND, a NOT, or both, without operand. */
  ghost predicate AtEnd(ts: seq<Token>, c: nat) {
    c <= |ts| && (ts[c..] == [] || ts[c..] == [And] || ts[c..] == [Not] || ts[c..] == [And, Not])
  }

  /** With n parentheses open, nothing more is read. */
  ghost predicate Ends(ts: seq<Token>, c: nat, n: nat) {
    AtEnd(ts, c) || (n == 0 && c < |ts| && ts[c].RParen?)
  }

  /** Both end; if exactly, then in the same way. */
  ghost predicate BothStop(ts: seq<Token>, c: nat, us: seq<Token>, d: nat, n: nat, exact: bool) {
    Ends(ts, c, n) && Ends(us, d, n) && (exact ==> (AtEnd(ts, c) <==> AtEnd(us, d)) && (c == |ts| <==> d == |us|))
  }

  /** Behind the closing quote at e, or the end. */
  function Behind(ts: seq<Token>, e: nat): nat { if e < |ts| then e + 1 else e }

  /** After an AND or a NOT: an operand in both; or a stray token, and in the other list one as well or a
      word that is not indexed. */
  ghost predicate BothStray(ts: seq<Token>, c: nat, us: seq<Token>, d: nat, indexed: Text -> bool) {
    c < |ts| && d < |us| && Stray(ts[c]) && (Stray(us[d]) || (us[d].Word? && !indexed(us[d].text)))
  }

  ghost predicate BothAtoms(ts: seq<Token>, c: nat, us: seq<Token>, d: nat) {
    c < |ts| && d < |us| && StartsAtom(ts[c]) && StartsAtom(us[d])
  }

  /** From c and d on, with n parentheses open, the two lists are the same but for this: closing quotes and
      parentheses may be missing at the end of the first one, or connectives may be left over there;
      tokens between quotes may differ as long as the words are the same; and for a stray token there may
      be another one, or a word that is not indexed. If exactly, the first list moreover closes no more
      parentheses than it opens unless the second does so at the same place. */
  ghost predicate Alike(ts: seq<Token>, c: nat, us: seq<Token>, d: nat, n: nat, exact: bool, indexed: Text -> bool)
    decreases |ts| - c + |us| - d, 1
  {
    && c <= |ts| && d <= |us|
    && (|| BothStop(ts, c, us, d, n, exact)
        || (AtEnd(ts, c) && (exact ==> c == |ts|) && n > 0 && d < |us| && us[d].RParen? && Alike(ts, c, us, d + 1, n - 1, exact, indexed))
        || (c < |ts| && d < |us| &&
            match ts[c]
            case Word(_) => us[d] == ts[c] && Alike(ts, c + 1, us, d + 1, n, exact, indexed)
            case Or => us[d].Or? && Alike(ts, c + 1, us, d + 1, n, exact, indexed)
            case LParen => us[d].LParen? && Alike(ts, c + 1, us, d + 1, n + 1, exact, indexed)
            case RParen => us[d].RParen? && n > 0 && Alike(ts, c + 1, us, d + 1, n - 1, exact, indexed)
            case Quote =>
              && us[d].Quote?
              && var e, f := QuoteEnd(ts, c + 1), QuoteEnd(us, d + 1);
                 && QuotedWords(ts[c + 1..e]) == QuotedWords(us[d + 1..f])
                 && Alike(ts, Behind(ts, e), us, Behind(us, f), n, exact, indexed)
            case And =>
              && us[d].And?
              && (|| (BothAtoms(ts, c + 1, us, d + 1) && Alike(ts, c + 1, us, d + 1, n, exact, indexed))
                  || (c + 1 < |ts| && d + 1 < |us| && ts[c + 1].Not? && us[d + 1].Not? && AlikeNegated(ts, c + 1, us, d + 1, n, exact, indexed))
                  || (c + 1 < |ts| && !ts[c + 1].Not? && BothStray(ts, c + 1, us, d + 1, indexed) && !us[d + 1].Not?
                      && Alike(ts, c + 2, us, d + 2, n, exact, indexed)))
            case Not => us[d].Not? && AlikeNegated(ts, c, us, d, n, exact, indexed)))
  }

  /** The same where both stand at a NOT. */
  ghost predicate AlikeNegated(ts: seq<Token>, c: nat, us: seq<Token>, d: nat, n: nat, exact: bool, indexed: Text -> bool)
    decreases |ts| - c + |us| - d, 0
  {
    && c < |ts| && d < |us|
    && (|| (BothAtoms(ts, c + 1, us, d + 1) && Alike(ts, c + 1, us, d + 1, n, exact, indexed))
        || (BothStray(ts, c + 1, us, d + 1, indexed) && Alike(ts, c + 2, us, d + 2, n, exact, indexed)))
  }

  // ---------------------------------------------------------------- and get the same plan

  /** The parser builds the same plan from both, and stops in both where they are alike again. */
  lemma {:induction false} OrAlike(ts: seq<Token>, c: nat, us: seq<Token>, d: nat, n: nat, exact: bool, indexed: Text -> bool) returns (m: nat)
    requires Alike(ts, c, us, d, n, exact, indexed)
    ensures c <= |ts| && d <= |us|
    ensures var r, s := ParseOr(ts, c, indexed), ParseOr(us, d, indexed);
      r.0 == s.0 && n <= m && Alike(ts, r.1, us, s.1, m, exact, indexed)
    decreases |ts| - c + |us| - d, 3
  {
    hide Alike, ParseAnd, ParseOrRest;
    AlikeInRange(ts, c, us, d, n, exact, indexed);
    m := AndAlike(ts, c, us, d, n, exact, [], [], indexed);
    var r, s := ParseAnd(ts, c, [], [], indexed), ParseAnd(us, d, [], [], indexed);
    m := RestAlike(ts, r.1, us, s.1, m, exact, AddSome([], r.0), indexed);
  }

  lemma AlikePlans(ts: seq<Token>, us: seq<Token>, exact: bool, indexed: Text -> bool)
    requires Alike(ts, 0, us, 0, 0, exact, indexed)
    ensures ParseOr(ts, 0, indexed).0 == ParseOr(us, 0, indexed).0
  {
    hide Alike, ParseOr;
    var _ := OrAlike(ts, 0, us, 0, 0, exact, indexed);
  }

  lemma AlikeInRange(ts: seq<Token>, c: nat, us: seq<Token>, d: nat, n: nat, exact: bool, indexed: Text -> bool)
    requires Alike(ts, c, us, d, n, exact, indexed)
    ensures c <= |ts| && d <= |us|
  {
  }

  lemma {:induction false} RestAlike(ts: seq<Token>, c: nat, us: seq<Token>, d: nat, n: nat, exact: bool, children: seq<Plan>, indexed: Text -> bool)
    returns (m: nat)
    requires Alike(ts, c, us, d, n, exact, indexed)
    ensures c <= |ts| && d <= |us|
    ensures var r, s := ParseOrRest(ts, c, children, indexed), ParseOrRest(us, d, children, indexed);
      r.0 == s.0 && n <= m && Alike(ts, r.1, us, s.1, m, exact, indexed)
    decreases |ts| - c + |us| - d, 2
  {
    hide Alike, ParseAnd;
    m := n;
    AlikeInRange(ts, c, us, d, n, exact, indexed);
    OrsTogether(ts, c, us, d, n, exact, indexed);
    if c < |ts| && ts[c].Or? {
      m := AndAlike(ts, c + 1, us, d + 1, n, exact, [], [], indexed);
      var r, s := ParseAnd(ts, c + 1, [], [], indexed), ParseAnd(us, d + 1, [], [], indexed);
      m := RestAlike(ts, r.1, us, s.1, m, exact, AddSome(children, r.0), indexed);
    }
  }

  /** One list is at an OR exactly if the other is. */
  lemma OrsTogether(ts: seq<Token>, c: nat, us: seq<Token>, d: nat, n: nat, exact: bool, indexed: Text -> bool)
    requires Alike(ts, c, us, d, n, exact, indexed)
    ensures c < |ts| && ts[c].Or? <==> d < |us| && us[d].Or?
    ensures c < |ts| && ts[c].Or? ==> Alike(ts, c + 1, us, d + 1, n, exact, indexed)
  {
    EndsNoOr(ts, c);
    EndsNoOr(us, d);
  }

  lemma EndsNoOr(ts: seq<Token>, c: nat)
    requires c <= |ts|
    ensures AtEnd(ts, c) && c < |ts| ==> Connective(ts[c])
  {
    if c < |ts| { assert ts[c] == ts[c..][0]; }
  }

  /** At the end, connectives without operand are passed over. */
  lemma EndReads(ts: seq<Token>, c: nat, positives: seq<Plan>, negatives: seq<Plan>, indexed: Text -> bool)
    requires AtEnd(ts, c)
    ensures ParseAnd(ts, c, positives, negatives, indexed) == (ConjunctionOf(positives, negatives), |ts|)
  {
    hide ParsePrimary;
    if c < |ts| { assert ts[c] == ts[c..][0]; }
    if c + 1 < |ts| { assert ts[c + 1] == ts[c..][1]; }
    assert |ts[c..]| == |ts| - c;
  }

  lemma {:induction false} EndForward(ts: seq<Token>, c: nat, us: seq<Token>, d: nat, n: nat, exact: bool, indexed: Text -> bool)
    requires AtEnd(ts, c) && (exact ==> c == |ts|) && Alike(ts, c, us, d, n, exact, indexed)
    ensures Alike(ts, |ts|, us, d, n, exact, indexed)
    decreases |us| - d
  {
    assert AtEnd(ts, |ts|);
    if c < |ts| { assert ts[c] == ts[c..][0]; }
    if c + 1 < |ts| { assert ts[c + 1] == ts[c..][1]; }
    assert |ts[c..]| == |ts| - c;
    if !BothStop(ts, c, us, d, n, exact) { EndForward(ts, c, us, d + 1, n - 1, exact, indexed); }
  }

  /** Both lists are where an operand's atom should be: at atoms, or at stray tokens. */
  ghost predicate AtOperand(ts: seq<Token>, c: nat, us: seq<Token>, d: nat, n: nat, exact: bool, indexed: Text -> bool) {
    || (BothAtoms(ts, c, us, d) && Alike(ts, c, us, d, n, exact, indexed))
    || (BothStray(ts, c, us, d, indexed) && Alike(ts, c + 1, us, d + 1, n, exact, indexed))
  }

  /** What stands at an AND. */
  lemma AtAnd(ts: seq<Token>, c: nat, us: seq<Token>, d: nat, n: nat, exact: bool, indexed: Text -> bool)
    requires Alike(ts, c, us, d, n, exact, indexed) && c < |ts| && d < |us| && ts[c].And?
    requires !BothStop(ts, c, us, d, n, exact) && !(AtEnd(ts, c) && us[d].RParen?)
    ensures us[d].And?
    ensures || (BothAtoms(ts, c + 1, us, d + 1) && Alike(ts, c + 1, us, d + 1, n, exact, indexed))
            || (c + 1 < |ts| && d + 1 < |us| && ts[c + 1].Not? && us[d + 1].Not? && AlikeNegated(ts, c + 1, us, d + 1, n, exact, indexed))
            || (c + 1 < |ts| && !ts[c + 1].Not? && BothStray(ts, c + 1, us, d + 1, indexed) && !us[d + 1].Not?
                && Alike(ts, c + 2, us, d + 2, n, exact, indexed))
  {
    hide AlikeNegated, AtEnd, BothStop;
  }

  /** What stands at anything else that a conjunction goes on with. */
  lemma AtOther(ts: seq<Token>, c: nat, us: seq<Token>, d: nat, n: nat, exact: bool, indexed: Text -> bool)
    requires Alike(ts, c, us, d, n, exact, indexed) && c < |ts| && d < |us| && !ts[c].And? && !ts[c].Or? && !ts[c].RParen?
    requires !BothStop(ts, c, us, d, n, exact) && !(AtEnd(ts, c) && us[d].RParen?)
    ensures !us[d].And? && !us[d].Or? && !us[d].RParen?
    ensures if ts[c].Not? then us[d].Not? && AlikeNegated(ts, c, us, d, n, exact, indexed) else BothAtoms(ts, c, us, d)
  {
    hide AlikeNegated, AtEnd, BothStop, QuoteEnd, QuotedWords;
  }

  /** The optional AND and NOT in front of an operand are the same in both. */
  lemma OperandsTogether(ts: seq<Token>, c: nat, us: seq<Token>, d: nat, n: nat, exact: bool, indexed: Text -> bool) returns (op: Operand, k: nat)
    requires Alike(ts, c, us, d, n, exact, indexed) && c < |ts| && d < |us|
    requires !BothStop(ts, c, us, d, n, exact) && !(AtEnd(ts, c) && us[d].RParen?) && !ts[c].Or? && !ts[c].RParen?
    ensures AtOperand(ts, c + k, us, d + k, n, exact, indexed) && OperandAt(ts, c, op, c + k) && OperandAt(us, d, op, d + k)
  {
    hide Alike, AtEnd, BothStop;
    if ts[c].And? {
      AtAnd(ts, c, us, d, n, exact, indexed);
    } else {
      AtOther(ts, c, us, d, n, exact, indexed);
    }
    var explicitAnd := ts[c].And?;
    k := if explicitAnd then 1 else 0;
    var negated := ts[c + k].Not?;
    k := if negated then k + 1 else k;
    op := Operand(explicitAnd, negated, Single([]));
  }

  lemma {:induction false} AndAlike(ts: seq<Token>, c: nat, us: seq<Token>, d: nat, n: nat, exact: bool, positives: seq<Plan>, negatives: seq<Plan>,
                                    indexed: Text -> bool) returns (m: nat)
    requires Alike(ts, c, us, d, n, exact, indexed)
    ensures c <= |ts| && d <= |us|
    ensures var r, s := ParseAnd(ts, c, positives, negatives, indexed), ParseAnd(us, d, positives, negatives, indexed);
      r.0 == s.0 && n <= m && Alike(ts, r.1, us, s.1, m, exact, indexed)
    decreases |ts| - c + |us| - d, 1
  {
    hide Alike, ParseAnd, ParsePrimary, AtEnd, AtOperand;
    AlikeInRange(ts, c, us, d, n, exact, indexed);
    m := n;
    var stopped := StopTogether(ts, c, us, d, n, exact, positives, negatives, indexed);
    if stopped { return; }
    var op, k := OperandsTogether(ts, c, us, d, n, exact, indexed);
    m := PrimaryAlike(ts, c + k, us, d + k, n, exact, indexed);
    var r, s := ParsePrimary(ts, c + k, indexed), ParsePrimary(us, d + k, indexed);
    AndContinues(ts, c, positives, negatives, op, c + k, r.0, r.1, indexed);
    AndContinues(us, d, positives, negatives, op, d + k, s.0, s.1, indexed);
    if op.negated {
      m := AndAlike(ts, r.1, us, s.1, m, exact, positives, AddSome(negatives, r.0), indexed);
    } else if r.0.Some? {
      m := AndAlike(ts, r.1, us, s.1, m, exact, AddSome(positives, r.0), negatives, indexed);
    }
  }

  /** Where a conjunction ends in one of them it ends in the other. */
  lemma StopTogether(ts: seq<Token>, c: nat, us: seq<Token>, d: nat, n: nat, exact: bool, positives: seq<Plan>, negatives: seq<Plan>, indexed: Text -> bool)
    returns (stopped: bool)
    requires Alike(ts, c, us, d, n, exact, indexed)
    ensures c <= |ts| && d <= |us|
    ensures stopped ==>
      var r, s := ParseAnd(ts, c, positives, negatives, indexed), ParseAnd(us, d, positives, negatives, indexed);
      r.0 == s.0 && Alike(ts, r.1, us, s.1, n, exact, indexed)
    ensures !stopped ==> c < |ts| && d < |us| && !BothStop(ts, c, us, d, n, exact) && !(AtEnd(ts, c) && us[d].RParen?)
    ensures !stopped ==> !ts[c].Or? && !ts[c].RParen?
  {
    hide Alike, ParseAnd, AtEnd, ConjunctionOf;
    AlikeInRange(ts, c, us, d, n, exact, indexed);
    if BothStop(ts, c, us, d, n, exact) {
      stopped := true;
      EndStops(ts, c, n, positives, negatives, indexed);
      EndStops(us, d, n, positives, negatives, indexed);
      BothEnd(ts, ParseAnd(ts, c, positives, negatives, indexed).1, us, ParseAnd(us, d, positives, negatives, indexed).1, n, exact, indexed);
    } else if AtEnd(ts, c) && d < |us| && us[d].RParen? {
      stopped := true;
      EndReads(ts, c, positives, negatives, indexed);
      AndEnds(us, d, positives, negatives, indexed);
      EndsBefore(ts, c, us, d, n, exact, indexed);
      EndForward(ts, c, us, d, n, exact, indexed);
    } else {
      NotAtEnd(ts, c, us, d, n, exact, indexed);
      stopped := ts[c].Or? || ts[c].RParen?;
      if stopped {
        AndEnds(ts, c, positives, negatives, indexed);
        AndEnds(us, d, positives, negatives, indexed);
      }
    }
  }

  lemma EndsBefore(ts: seq<Token>, c: nat, us: seq<Token>, d: nat, n: nat, exact: bool, indexed: Text -> bool)
    requires Alike(ts, c, us, d, n, exact, indexed) && !BothStop(ts, c, us, d, n, exact) && AtEnd(ts, c) && d < |us| && us[d].RParen?
    ensures exact ==> c == |ts|
  {
    EndsNoOr(ts, c);
  }

  lemma EndStops(ts: seq<Token>, c: nat, n: nat, positives: seq<Plan>, negatives: seq<Plan>, indexed: Text -> bool)
    requires Ends(ts, c, n)
    ensures c <= |ts|
    ensures var r := ParseAnd(ts, c, positives, negatives, indexed);
      r.0 == ConjunctionOf(positives, negatives) && Ends(ts, r.1, n) && (if AtEnd(ts, c) then r.1 == |ts| else r.1 == c)
  {
    hide ParseAnd, ConjunctionOf;
    if AtEnd(ts, c) {
      EndReads(ts, c, positives, negatives, indexed);
      assert AtEnd(ts, |ts|);
    } else {
      AndEnds(ts, c, positives, negatives, indexed);
    }
  }

  lemma BothEnd(ts: seq<Token>, c: nat, us: seq<Token>, d: nat, n: nat, exact: bool, indexed: Text -> bool)
    requires BothStop(ts, c, us, d, n, exact)
    ensures Alike(ts, c, us, d, n, exact, indexed)
  {
  }

  lemma NotAtEnd(ts: seq<Token>, c: nat, us: seq<Token>, d: nat, n: nat, exact: bool, indexed: Text -> bool)
    requires Alike(ts, c, us, d, n, exact, indexed) && !BothStop(ts, c, us, d, n, exact) && !(AtEnd(ts, c) && d < |us| && us[d].RParen?)
    ensures c < |ts| && d < |us| && (ts[c].Or? <==> us[d].Or?) && (ts[c].RParen? <==> us[d].RParen?)
  {
    hide AtEnd;
  }

  lemma {:induction false} PrimaryAlike(ts: seq<Token>, c: nat, us: seq<Token>, d: nat, n: nat, exact: bool, indexed: Text -> bool) returns (m: nat)
    requires AtOperand(ts, c, us, d, n, exact, indexed)
    ensures c < |ts| && d < |us|
    ensures var r, s := ParsePrimary(ts, c, indexed), ParsePrimary(us, d, indexed);
      r.0 == s.0 && n <= m && Alike(ts, r.1, us, s.1, m, exact, indexed)
    decreases |ts| - c + |us| - d, 0
  {
    hide Alike, AtEnd, ParseOr, QuoteEnd, QuotedWords, Filter;
    m := n;
    if Stray(ts[c]) { return; }
    AtomsTogether(ts, c, us, d, n, exact, indexed);
    if ts[c].LParen? {
      m := OrAlike(ts, c + 1, us, d + 1, n + 1, exact, indexed);
      m := CloseAlike(ts, ParseOr(ts, c + 1, indexed).1, us, ParseOr(us, d + 1, indexed).1, m, exact, indexed);
    } else if ts[c].Quote? {
      QuoteRead(ts, c, indexed);
      QuoteRead(us, d, indexed);
    }
  }

  lemma QuoteRead(ts: seq<Token>, c: nat, indexed: Text -> bool)
    requires c < |ts| && ts[c].Quote?
    ensures var e := QuoteEnd(ts, c + 1);
      var words := QuotedWords(ts[c + 1..e]);
      ParsePrimary(ts, c, indexed) == (SequenceOf(Filter(words, indexed), exists w :: w in words && !indexed(w)), Behind(ts, e))
  {
    hide QuotedWords, Filter, SequenceOf;
  }

  /** At atoms, the lists have the same word, or both open a group, or quote the same words. */
  lemma AtomsTogether(ts: seq<Token>, c: nat, us: seq<Token>, d: nat, n: nat, exact: bool, indexed: Text -> bool)
    requires BothAtoms(ts, c, us, d) && Alike(ts, c, us, d, n, exact, indexed)
    ensures (ts[c].LParen? <==> us[d].LParen?) && (ts[c].Quote? <==> us[d].Quote?)
    ensures ts[c].Word? ==> us[d] == ts[c] && Alike(ts, c + 1, us, d + 1, n, exact, indexed)
    ensures ts[c].LParen? ==> Alike(ts, c + 1, us, d + 1, n + 1, exact, indexed)
    ensures ts[c].Quote? ==>
      var e, f := QuoteEnd(ts, c + 1), QuoteEnd(us, d + 1);
      QuotedWords(ts[c + 1..e]) == QuotedWords(us[d + 1..f]) && Alike(ts, Behind(ts, e), us, Behind(us, f), n, exact, indexed)
  {
    hide QuoteEnd, QuotedWords;
    AtomIsNoEnd(ts, c);
  }

  lemma AtomIsNoEnd(ts: seq<Token>, c: nat)
    requires c < |ts| && StartsAtom(ts[c])
    ensures !AtEnd(ts, c)
  {
    assert ts[c] == ts[c..][0];
  }

  /** The closing parenthesis of a group, where there is one. */
  lemma CloseAlike(ts: seq<Token>, c: nat, us: seq<Token>, d: nat, m: nat, exact: bool, indexed: Text -> bool) returns (k: nat)
    requires m > 0 && Alike(ts, c, us, d, m, exact, indexed)
    ensures m - 1 <= k
    ensures Alike(ts, if c < |ts| && ts[c].RParen? then c + 1 else c, us, if d < |us| && us[d].RParen? then d + 1 else d, k, exact, indexed)
  {
    hide QuoteEnd, QuotedWords;
    k := if d < |us| && us[d].RParen? then m - 1 else m;
    EndIsNoParen(ts, c);
    EndIsNoParen(us, d);
  }

  lemma EndIsNoParen(ts: seq<Token>, c: nat)
    ensures AtEnd(ts, c) && c < |ts| ==> !ts[c].RParen?
  {
    if c < |ts| { assert ts[c] == ts[c..][0]; }
  }

  // ---------------------------------------------------------------- quotes

  function Quotes(ts: seq<Token>): nat {
    if ts == [] then 0 else (if ts[0].Quote? then 1 else 0) + Quotes(ts[1..])
  }

  /** After these tokens a quote is open. */
  predicate InQuote(ts: seq<Token>) { Quotes(ts) % 2 == 1 }

  lemma {:induction false} QuotesJoin(a: seq<Token>, b: seq<Token>)
    ensures Quotes(a + b) == Quotes(a) + Quotes(b)
  {
    if a == [] {
      assert a + b == b;
    } else {
      assert (a + b)[1..] == a[1..] + b;
      QuotesJoin(a[1..], b);
    }
  }

  lemma QuotesStep(a: seq<Token>, c: nat)
    requires c < |a|
    ensures Quotes(a[c..]) == (if a[c].Quote? then 1 else 0) + Quotes(a[c + 1..])
  {
    assert a[c..][1..] == a[c + 1..];
  }

  /** The words of a text are the words of its parts; a token that is no word adds nothing. */
  lemma {:induction false} WordsJoin(a: seq<Token>, b: seq<Token>)
    ensures QuotedWords(a + b) == QuotedWords(a) + QuotedWords(b)
    decreases |b|
  {
    if b == [] {
      assert a + b == a;
    } else {
      var n := |b| - 1;
      assert (a + b)[..|a + b| - 1] == a + b[..n] && (a + b)[|a + b| - 1] == b[n];
      WordsJoin(a, b[..n]);
    }
  }

  lemma WordsOfOne(t: Token)
    ensures QuotedWords([t]) == if t.Word? then [t.text] else []
  {
    assert [t][..0] == [];
  }

  /** Words with anything but words and quotes among them quote the words alone. */
  lemma {:induction false} NoiseInWords(a: seq<Token>, noise: seq<Token>, b: seq<Token>)
    requires forall i :: 0 <= i < |noise| ==> !noise[i].Word?
    ensures QuotedWords(a + noise + b) == QuotedWords(a + b)
  {
    WordsJoin(a + noise, b);
    WordsJoin(a, noise);
    WordsJoin(a, b);
    NoWords(noise);
    assert QuotedWords(a) + [] == QuotedWords(a);
  }

  lemma {:induction false} NoWords(noise: seq<Token>)
    requires forall i :: 0 <= i < |noise| ==> !noise[i].Word?
    ensures QuotedWords(noise) == []
  {
    if noise != [] { NoWords(noise[..|noise| - 1]); }
  }

  /** The next quote is in a, or else in what follows. */
  lemma {:induction false} QuoteEndIn(a: seq<Token>, x: seq<Token>, c: nat)
    requires c <= |a|
    ensures var e := QuoteEnd(a + x, c);
      if Quotes(a[c..]) > 0 then e < |a| && e == QuoteEnd(a, c) && Quotes(a[e + 1..]) + 1 == Quotes(a[c..])
      else e == |a| + QuoteEnd(x, 0)
    decreases |a| - c
  {
    if c == |a| {
      QuoteEndShift(a, x, 0);
    } else {
      QuotesStep(a, c);
      assert (a + x)[c] == a[c];
      if !a[c].Quote? { QuoteEndIn(a, x, c + 1); }
    }
  }

  lemma {:induction false} QuoteEndShift(a: seq<Token>, x: seq<Token>, k: nat)
    requires k <= |x|
    ensures QuoteEnd(a + x, |a| + k) == |a| + QuoteEnd(x, k)
    decreases |x| - k
  {
    if k < |x| {
      assert (a + x)[|a| + k] == x[k];
      QuoteEndShift(a, x, k + 1);
    }
  }

  // ---------------------------------------------------------------- lists with the same beginning

  /** What has to hold where the lists part, after a: outside quotes they are alike from there, and there is
      no connective right before; inside, they quote the same words and are alike behind the quote. */
  ghost predicate PartAlike(a: seq<Token>, x: seq<Token>, y: seq<Token>, exact: bool, indexed: Text -> bool) {
    if InQuote(a) then
      var e, f := QuoteEnd(x, 0), QuoteEnd(y, 0);
      && QuotedWords(x[..e]) == QuotedWords(y[..f])
      && AlikeAnyhow(a + x, |a| + Behind(x, e), a + y, |a| + Behind(y, f), exact, indexed)
    else
      && (a == [] || !Connective(a[|a| - 1]))
      && AlikeAnyhow(a + x, |a|, a + y, |a|, exact, indexed)
  }

  ghost predicate AlikeAnyhow(ts: seq<Token>, c: nat, us: seq<Token>, d: nat, exact: bool, indexed: Text -> bool) {
    forall n: nat :: Alike(ts, c, us, d, n, exact, indexed)
  }

  lemma {:induction false} SameBeginning(a: seq<Token>, x: seq<Token>, y: seq<Token>, c: nat, n: nat, exact: bool, indexed: Text -> bool)
    requires PartAlike(a, x, y, exact, indexed) && c <= |a| && (InQuote(a[c..]) <==> InQuote(a))
    ensures Alike(a + x, c, a + y, c, n, exact, indexed)
    decreases |a| - c
  {
    hide Alike, PartAlike, QuoteEnd, QuotedWords, Quotes;
    var ts, us := a + x, a + y;
    if c == |a| {
      NoQuotes(a);
      PartsOutside(a, x, y, n, exact, indexed);
    } else {
      assert ts[c] == a[c] == us[c];
      QuotesStep(a, c);
      match a[c]
      case Quote =>
        if Quotes(a[c + 1..]) > 0 {
          var e := QuoteInside(a, x, y, c);
          SameBeginning(a, x, y, e + 1, n, exact, indexed);
          QuoteAlike(ts, c, us, c, n, exact, indexed);
        } else {
          PartsInside(a, x, y, c, n, exact, indexed);
        }
      case And => ConnectiveAlike(a, x, y, c, n, exact, indexed);
      case Not => ConnectiveAlike(a, x, y, c, n, exact, indexed);
      case LParen =>
        SameBeginning(a, x, y, c + 1, n + 1, exact, indexed);
        TokenAlike(ts, c, us, c, n, exact, indexed);
      case RParen =>
        if n > 0 { SameBeginning(a, x, y, c + 1, n - 1, exact, indexed); }
        TokenAlike(ts, c, us, c, n, exact, indexed);
      case _ =>
        SameBeginning(a, x, y, c + 1, n, exact, indexed);
        TokenAlike(ts, c, us, c, n, exact, indexed);
    }
  }

  lemma PartsOutside(a: seq<Token>, x: seq<Token>, y: seq<Token>, n: nat, exact: bool, indexed: Text -> bool)
    requires PartAlike(a, x, y, exact, indexed) && !InQuote(a)
    ensures Alike(a + x, |a|, a + y, |a|, n, exact, indexed)
  {
    hide Alike;
  }

  lemma NoQuotes(a: seq<Token>)
    ensures a[|a|..] == [] && Quotes([]) == 0
  {
  }

  /** A quoted text that ends before the lists part. */
  lemma QuoteInside(a: seq<Token>, x: seq<Token>, y: seq<Token>, c: nat) returns (e: nat)
    requires c < |a| && a[c].Quote? && Quotes(a[c + 1..]) > 0
    ensures e == QuoteEnd(a + x, c + 1) == QuoteEnd(a + y, c + 1) && c < e < |a|
    ensures QuotedWords((a + x)[c + 1..e]) == QuotedWords((a + y)[c + 1..e])
    ensures Quotes(a[c..]) == Quotes(a[e + 1..]) + 2
  {
    hide QuotedWords, Quotes;
    e := QuoteEnd(a + x, c + 1);
    QuoteEndIn(a, x, c + 1);
    QuoteEndIn(a, y, c + 1);
    QuotesStep(a, c);
    assert (a + x)[c + 1..e] == a[c + 1..e] && (a + y)[c + 1..e] == a[c + 1..e];
  }

  lemma SliceJoin(a: seq<Token>, x: seq<Token>, c: nat, e: nat)
    requires c <= |a| && e <= |x|
    ensures (a + x)[c..|a| + e] == a[c..] + x[..e]
  {
  }

  /** The quote that is open where the lists part. */
  lemma PartsInside(a: seq<Token>, x: seq<Token>, y: seq<Token>, c: nat, n: nat, exact: bool, indexed: Text -> bool)
    requires PartAlike(a, x, y, exact, indexed) && c < |a| && a[c].Quote? && Quotes(a[c + 1..]) == 0 && InQuote(a)
    ensures Alike(a + x, c, a + y, c, n, exact, indexed)
  {
    hide Alike, Quotes, QuotedWords;
    var ts, us, e, f := a + x, a + y, QuoteEnd(x, 0), QuoteEnd(y, 0);
    QuoteEndIn(a, x, c + 1);
    QuoteEndIn(a, y, c + 1);
    hide QuoteEnd;
    SliceJoin(a, x, c + 1, e);
    SliceJoin(a, y, c + 1, f);
    WordsJoin(a[c + 1..], x[..e]);
    WordsJoin(a[c + 1..], y[..f]);
    assert Behind(ts, |a| + e) == |a| + Behind(x, e) && Behind(us, |a| + f) == |a| + Behind(y, f);
    QuoteAlike(ts, c, us, c, n, exact, indexed);
  }

  lemma QuoteAlike(ts: seq<Token>, c: nat, us: seq<Token>, d: nat, n: nat, exact: bool, indexed: Text -> bool)
    requires c < |ts| && d < |us| && ts[c].Quote? && us[d].Quote?
    requires var e, f := QuoteEnd(ts, c + 1), QuoteEnd(us, d + 1);
      QuotedWords(ts[c + 1..e]) == QuotedWords(us[d + 1..f]) && Alike(ts, Behind(ts, e), us, Behind(us, f), n, exact, indexed)
    ensures Alike(ts, c, us, d, n, exact, indexed)
  {
    hide QuoteEnd, QuotedWords;
  }

  /** One token, the same in both, that is neither a quote nor a connective. */
  lemma TokenAlike(ts: seq<Token>, c: nat, us: seq<Token>, d: nat, n: nat, exact: bool, indexed: Text -> bool)
    requires c < |ts| && d < |us| && ts[c] == us[d] && !ts[c].Quote? && !Connective(ts[c])
    requires !ts[c].RParen? || n > 0 ==>
      Alike(ts, c + 1, us, d + 1, if ts[c].LParen? then n + 1 else if ts[c].RParen? then n - 1 else n, exact, indexed)
    ensures Alike(ts, c, us, d, n, exact, indexed)
  {
    EndIsNoParen(ts, c);
    EndIsNoParen(us, d);
  }

  /** A connective before the place where the lists part has what follows it there too. */
  lemma {:induction false} ConnectiveAlike(a: seq<Token>, x: seq<Token>, y: seq<Token>, c: nat, n: nat, exact: bool, indexed: Text -> bool)
    requires PartAlike(a, x, y, exact, indexed) && c < |a| && Connective(a[c]) && (InQuote(a[c..]) <==> InQuote(a))
    ensures Alike(a + x, c, a + y, c, n, exact, indexed)
    decreases |a| - c, 0
  {
    hide Alike, AlikeNegated, PartAlike, InQuote;
    NextInside(a, x, y, c, exact, indexed);
    var k := if a[c].And? && a[c + 1].Not? then 1 else 0;
    if k > 0 { NextInside(a, x, y, c + 1, exact, indexed); }
    if StartsAtom(a[c + k + 1]) {
      SameBeginning(a, x, y, c + k + 1, n, exact, indexed);
    } else {
      QuotesPass(a, c + k + 1);
      SameBeginning(a, x, y, c + k + 2, n, exact, indexed);
    }
    ConnectiveStep(a, x, y, c, k, n, exact, indexed);
  }

  lemma ConnectiveStep(a: seq<Token>, x: seq<Token>, y: seq<Token>, c: nat, k: nat, n: nat, exact: bool, indexed: Text -> bool)
    requires c + k + 1 < |a| && Connective(a[c]) && k == if a[c].And? && a[c + 1].Not? then 1 else 0
    requires Alike(a + x, if StartsAtom(a[c + k + 1]) then c + k + 1 else c + k + 2,
                   a + y, if StartsAtom(a[c + k + 1]) then c + k + 1 else c + k + 2, n, exact, indexed)
    ensures Alike(a + x, c, a + y, c, n, exact, indexed)
  {
    hide Alike;
    InBoth(a, x, y);
    OperandAlike(a + x, c, a + y, c, k, n, exact, indexed);
  }

  lemma InBoth(a: seq<Token>, x: seq<Token>, y: seq<Token>)
    ensures forall i :: 0 <= i < |a| ==> (a + x)[i] == a[i] == (a + y)[i]
  {
  }

  lemma QuotesPass(a: seq<Token>, c: nat)
    requires c < |a| && !a[c].Quote?
    ensures InQuote(a[c..]) <==> InQuote(a[c + 1..])
  {
    QuotesStep(a, c);
  }

  lemma NextInside(a: seq<Token>, x: seq<Token>, y: seq<Token>, c: nat, exact: bool, indexed: Text -> bool)
    requires PartAlike(a, x, y, exact, indexed) && c < |a| && Connective(a[c]) && (InQuote(a[c..]) <==> InQuote(a))
    ensures c + 1 < |a| && (InQuote(a[c + 1..]) <==> InQuote(a))
  {
    hide Alike;
    QuotesPass(a, c);
  }

  /** The same connectives and the same token behind them, in the operand position. */
  lemma OperandAlike(ts: seq<Token>, c: nat, us: seq<Token>, d: nat, k: nat, n: nat, exact: bool, indexed: Text -> bool)
    requires c + k + 1 < |ts| && d + k + 1 < |us| && ts[c] == us[d] && Connective(ts[c])
    requires ts[c + 1] == us[d + 1] && ts[c + k] == us[d + k] && ts[c + k + 1] == us[d + k + 1]
    requires k == if ts[c].And? && ts[c + 1].Not? then 1 else 0
    requires if StartsAtom(ts[c + k + 1]) then Alike(ts, c + k + 1, us, d + k + 1, n, exact, indexed)
             else Alike(ts, c + k + 2, us, d + k + 2, n, exact, indexed)
    ensures Alike(ts, c, us, d, n, exact, indexed)
  {
    hide QuoteEnd, QuotedWords;
    if ts[c + k].Not? { assert AlikeNegated(ts, c + k, us, d + k, n, exact, indexed); }
  }

  // ---------------------------------------------------------------- what may be different

  /** Every list is like itself, from any place on. */
  lemma {:induction false} SuffixAlike(ts: seq<Token>, c: nat, us: seq<Token>, d: nat, n: nat, exact: bool, indexed: Text -> bool)
    requires c <= |ts| && d <= |us| && ts[c..] == us[d..]
    ensures Alike(ts, c, us, d, n, exact, indexed)
    decreases |ts| - c, 1
  {
    hide Alike, QuoteEnd, QuotedWords, AtEnd;
    assert |ts[c..]| == |ts| - c && |us[d..]| == |us| - d;
    if AtEndOf(ts, c, us, d) {
      BothEnd(ts, c, us, d, n, exact, indexed);
      return;
    }
    SameTokens(ts, c, us, d);
    match ts[c]
    case Quote =>
      var e := SameQuote(ts, c, us, d);
      SuffixAlike(ts, Behind(ts, c + 1 + e), us, Behind(us, d + 1 + e), n, exact, indexed);
      QuoteAlike(ts, c, us, d, n, exact, indexed);
    case LParen =>
      SuffixAlike(ts, c + 1, us, d + 1, n + 1, exact, indexed);
      TokenAlike(ts, c, us, d, n, exact, indexed);
    case RParen =>
      if n > 0 { SuffixAlike(ts, c + 1, us, d + 1, n - 1, exact, indexed); }
      TokenAlike(ts, c, us, d, n, exact, indexed);
    case Word(_) =>
      SuffixAlike(ts, c + 1, us, d + 1, n, exact, indexed);
      TokenAlike(ts, c, us, d, n, exact, indexed);
    case Or =>
      SuffixAlike(ts, c + 1, us, d + 1, n, exact, indexed);
      TokenAlike(ts, c, us, d, n, exact, indexed);
    case And => SuffixOperand(ts, c, us, d, n, exact, indexed);
    case Not => SuffixOperand(ts, c, us, d, n, exact, indexed);
  }

  lemma {:induction false} SuffixOperand(ts: seq<Token>, c: nat, us: seq<Token>, d: nat, n: nat, exact: bool, indexed: Text -> bool)
    requires c < |ts| && d < |us| && ts[c..] == us[d..] && !AtEndOf(ts, c, us, d) && Connective(ts[c])
    ensures Alike(ts, c, us, d, n, exact, indexed)
    decreases |ts| - c, 0
  {
    hide Alike, AtEndOf;
    SameTokens(ts, c, us, d);
    var k := if ts[c].And? && ts[c + 1].Not? then 1 else 0;
    if StartsAtom(ts[c + k + 1]) {
      SuffixAlike(ts, c + k + 1, us, d + k + 1, n, exact, indexed);
    } else {
      SuffixAlike(ts, c + k + 2, us, d + k + 2, n, exact, indexed);
    }
    OperandAlike(ts, c, us, d, k, n, exact, indexed);
  }

  ghost predicate AtEndOf(ts: seq<Token>, c: nat, us: seq<Token>, d: nat) { AtEnd(ts, c) && AtEnd(us, d) }

  /** Not at the end: the next tokens are the same, and a connective has something behind it. */
  lemma SameTokens(ts: seq<Token>, c: nat, us: seq<Token>, d: nat)
    requires c <= |ts| && d <= |us| && ts[c..] == us[d..] && !AtEndOf(ts, c, us, d)
    ensures c < |ts| && d < |us| && ts[c] == us[d] && ts[c + 1..] == us[d + 1..]
    ensures |ts| - c == |us| - d
    ensures Connective(ts[c]) ==> c + 1 < |ts| && ts[c + 1] == us[d + 1] && ts[c + 2..] == us[d + 2..]
    ensures ts[c].And? && ts[c + 1].Not? ==> c + 2 < |ts| && ts[c + 2] == us[d + 2] && ts[c + 3..] == us[d + 3..]
  {
    var s := ts[c..];
    assert |s| == |ts| - c == |us| - d;
    assert ts[c] == s[0] == us[d] && ts[c + 1..] == s[1..] == us[d + 1..];
    if |s| > 1 { assert ts[c + 1] == s[1] == us[d + 1] && ts[c + 2..] == s[2..] == us[d + 2..]; }
    if |s| > 2 { assert ts[c + 2] == s[2] == us[d + 2] && ts[c + 3..] == s[3..] == us[d + 3..]; }
    if |s| == 1 { assert s == [s[0]]; }
    if |s| == 2 { assert s == [s[0], s[1]]; }
  }

  lemma SameQuote(ts: seq<Token>, c: nat, us: seq<Token>, d: nat) returns (e: nat)
    requires c < |ts| && d < |us| && ts[c + 1..] == us[d + 1..]
    ensures QuoteEnd(ts, c + 1) == c + 1 + e && QuoteEnd(us, d + 1) == d + 1 + e
    ensures ts[c + 1..c + 1 + e] == us[d + 1..d + 1 + e]
    ensures Behind(ts, c + 1 + e) <= |ts| && Behind(us, d + 1 + e) <= |us|
    ensures ts[Behind(ts, c + 1 + e)..] == us[Behind(us, d + 1 + e)..]
  {
    hide QuoteEnd;
    var s := ts[c + 1..];
    e := QuoteEnd(s, 0);
    QuoteEndFrom(ts, c + 1, s);
    QuoteEndFrom(us, d + 1, s);
    CutAt(ts, c + 1, s, e);
    CutAt(us, d + 1, s, e);
    CutAt(ts, c + 1, s, Behind(s, e));
    CutAt(us, d + 1, s, Behind(s, e));
  }

  lemma QuoteEndFrom(ts: seq<Token>, c: nat, s: seq<Token>)
    requires c <= |ts| && ts[c..] == s
    ensures QuoteEnd(ts, c) == c + QuoteEnd(s, 0)
  {
    hide QuoteEnd;
    assert ts == ts[..c] + s;
    QuoteEndShift(ts[..c], s, 0);
  }

  lemma CutAt(ts: seq<Token>, c: nat, s: seq<Token>, e: nat)
    requires c <= |ts| && ts[c..] == s && e <= |s|
    ensures |s| == |ts| - c && ts[c..c + e] == s[..e] && ts[c + e..] == s[e..]
  {
  }

  lemma SuffixAnyhow(ts: seq<Token>, c: nat, us: seq<Token>, d: nat, exact: bool, indexed: Text -> bool)
    requires c <= |ts| && d <= |us| && ts[c..] == us[d..]
    ensures AlikeAnyhow(ts, c, us, d, exact, indexed)
  {
    hide Alike;
    forall n: nat ensures Alike(ts, c, us, d, n, exact, indexed) { SuffixAlike(ts, c, us, d, n, exact, indexed); }
  }

  /** Between quotes, a token that is no word can be left out: "rock and roll" means rock roll. */
  lemma NoiseInQuotes(a: seq<Token>, t: Token, b: seq<Token>, exact: bool, indexed: Text -> bool)
    requires InQuote(a) && !t.Word? && !t.Quote?
    ensures Alike(a + ([t] + b), 0, a + b, 0, 0, exact, indexed)
    ensures ParseOr(a + ([t] + b), 0, indexed).0 == ParseOr(a + b, 0, indexed).0
  {
    hide ParseOr, Alike, QuotedWords, Quotes;
    var x, e := [t] + b, QuoteEnd(b, 0);
    QuoteBehindNoise(t, b);
    hide QuoteEnd;
    var k := Behind(b, e);
    NoiseShifts(a, t, b, k);
    SuffixAnyhow(a + x, |a| + 1 + k, a + b, |a| + k, exact, indexed);
    assert a[0..] == a;
    SameBeginning(a, x, b, 0, 0, exact, indexed);
    AlikePlans(a + ([t] + b), a + b, exact, indexed);
  }

  lemma QuoteBehindNoise(t: Token, b: seq<Token>)
    requires !t.Word? && !t.Quote?
    ensures var x, e := [t] + b, QuoteEnd(b, 0);
      QuoteEnd(x, 0) == e + 1 && Behind(x, e + 1) == Behind(b, e) + 1 && QuotedWords(x[..e + 1]) == QuotedWords(b[..e])
  {
    hide QuotedWords;
    var x, e := [t] + b, QuoteEnd(b, 0);
    QuoteEndShift([t], b, 0);
    QuoteEndStep(x, t);
    hide QuoteEnd;
    assert x[..e + 1] == [] + [t] + b[..e] && [] + b[..e] == b[..e];
    NoiseInWords([], [t], b[..e]);
  }

  lemma NoiseShifts(a: seq<Token>, t: Token, b: seq<Token>, k: nat)
    requires k <= |b|
    ensures (a + ([t] + b))[|a| + 1 + k..] == (a + b)[|a| + k..]
  {
    SuffixOf(a, b, k);
    SuffixOf(a + [t], b, k);
    assert a + [t] + b == a + ([t] + b);
  }

  lemma SuffixOf(a: seq<Token>, b: seq<Token>, k: nat)
    requires k <= |b|
    ensures (a + b)[|a| + k..] == b[k..]
  {
  }

  lemma QuoteEndStep(x: seq<Token>, t: Token)
    requires x != [] && x[0] == t && !t.Quote?
    ensures QuoteEnd(x, 0) == QuoteEnd(x, 1)
  {
  }

  /** The tokens that close what is open: a quote, and parentheses. */
  function Closers(quote: bool, parentheses: nat): seq<Token> {
    (if quote then [Quote] else []) + seq(parentheses, _ => RParen)
  }

  /** Closing quote and parentheses can be left out at the end of any tokens, unless these end in a
      connective. */
  lemma ClosersLeftOut(a: seq<Token>, parentheses: nat, indexed: Text -> bool)
    requires InQuote(a) || a == [] || !Connective(a[|a| - 1])
    ensures Alike(a, 0, a + Closers(InQuote(a), parentheses), 0, 0, false, indexed)
    ensures ParseOr(a, 0, indexed).0 == ParseOr(a + Closers(InQuote(a), parentheses), 0, indexed).0
  {
    hide ParseOr, Alike, Closers, InQuote;
    ClosersAlike(a, parentheses, indexed);
    AlikePlans(a, a + Closers(InQuote(a), parentheses), false, indexed);
  }

  lemma ClosersAlike(a: seq<Token>, parentheses: nat, indexed: Text -> bool)
    requires InQuote(a) || a == [] || !Connective(a[|a| - 1])
    ensures Alike(a, 0, a + Closers(InQuote(a), parentheses), 0, 0, false, indexed)
  {
    hide Alike, QuotedWords, Quotes;
    var y := Closers(InQuote(a), parentheses);
    var us := a + y;
    var from := if InQuote(a) then |a| + 1 else |a|;
    forall n: nat ensures Alike(a + [], |a|, us, from, n, false, indexed) {
      assert a + [] == a;
      assert forall i :: from <= i < |us| ==> us[i].RParen?;
      ParenthesesMissing(a, us, from, n, false, indexed);
    }
    assert AlikeAnyhow(a + [], |a|, us, from, false, indexed);
    assert InQuote(a) ==> y[..0] == [] && QuoteEnd(y, 0) == 0;
    assert a[0..] == a && a + [] == a;
    SameBeginning(a, [], y, 0, 0, false, indexed);
  }

  lemma {:induction false} ParenthesesMissing(a: seq<Token>, us: seq<Token>, d: nat, n: nat, exact: bool, indexed: Text -> bool)
    requires d <= |us| && (forall i :: d <= i < |us| ==> us[i].RParen?) && (exact ==> n >= |us| - d)
    ensures Alike(a, |a|, us, d, n, exact, indexed)
    decreases |us| - d
  {
    assert AtEnd(a, |a|);
    if d < |us| {
      if n > 0 { ParenthesesMissing(a, us, d + 1, n - 1, exact, indexed); }
    } else {
      assert AtEnd(us, d);
    }
  }

  /** Of a list whose parentheses are closed at its end, as every printed query is, closing tokens at the
      end can be left out, and what is left is still read to its end. */
  lemma {:induction false} UnclosedAlike(a: seq<Token>, quote: bool, k: nat, c: nat, n: nat, indexed: Text -> bool)
    requires var us := a + Closers(quote, k); c <= |a| && Closes(us, c, |us|, n)
    ensures Alike(a, c, a + Closers(quote, k), c, n, true, indexed)
    decreases |a| - c
  {
    hide Alike, AlikeNegated, Closes, QuoteEnd, QuotedWords;
    var y := Closers(quote, k);
    var us, g := a + y, |a + y|;
    InBoth(a, y, y);
    if c == |a| {
      OnlyParentheses(a, quote, k, n);
      ParenthesesMissing(a, us, c, n, true, indexed);
    } else if a[c].Quote? {
      var e := QuoteEnd(us, c + 1);
      ClosesQuote(us, c, g, n);
      QuoteUnclosed(a, quote, k, c);
      if e < |a| {
        UnclosedAlike(a, quote, k, e + 1, n, indexed);
      } else {
        ParenthesesCount(us, |a| + 1, n);
        ParenthesesMissing(a, us, |a| + 1, n, true, indexed);
      }
      QuoteAlike(a, c, us, c, n, true, indexed);
    } else if Connective(a[c]) {
      ClosesOperand(a, quote, k, c, n);
      var i := if a[c].And? && us[c + 1].Not? then 1 else 0;
      UnclosedAlike(a, quote, k, c + i + 1, n, indexed);
      OperandAlike(a, c, us, c, i, n, true, indexed);
    } else {
      ClosesToken(us, c, g, n);
      UnclosedAlike(a, quote, k, c + 1, if a[c].LParen? then n + 1 else if a[c].RParen? then n - 1 else n, indexed);
      TokenAlike(a, c, us, c, n, true, indexed);
    }
  }

  lemma ClosesToken(us: seq<Token>, c: nat, g: nat, n: nat)
    requires c < g && Closes(us, c, g, n) && !us[c].Quote? && !Connective(us[c])
    ensures us[c].RParen? ==> n > 0
    ensures Closes(us, c + 1, g, if us[c].LParen? then n + 1 else if us[c].RParen? then n - 1 else n)
  {
  }

  lemma ClosesQuote(us: seq<Token>, c: nat, g: nat, n: nat)
    requires c < g && Closes(us, c, g, n) && us[c].Quote?
    ensures var e := QuoteEnd(us, c + 1); c < e < g && Closes(us, e + 1, g, n)
  {
    hide QuoteEnd;
  }

  /** Where closing parentheses are all that is left, there are as many as are open. */
  lemma {:induction false} ParenthesesCount(us: seq<Token>, c: nat, n: nat)
    requires Closes(us, c, |us|, n) && forall i :: c <= i < |us| ==> us[i].RParen?
    ensures n == |us| - c
    decreases |us| - c
  {
    hide Closes;
    ClosesRange(us, c, n);
    if c < |us| {
      ClosesToken(us, c, |us|, n);
      ParenthesesCount(us, c + 1, n - 1);
    }
  }

  lemma ClosesRange(us: seq<Token>, c: nat, n: nat)
    requires Closes(us, c, |us|, n)
    ensures c <= |us| && (c == |us| ==> n == 0)
  {
  }

  lemma OnlyParentheses(a: seq<Token>, quote: bool, k: nat, n: nat)
    requires var us := a + Closers(quote, k); Closes(us, |a|, |us|, n)
    ensures var us := a + Closers(quote, k); n == |us| - |a| && forall i :: |a| <= i < |us| ==> us[i].RParen?
  {
    hide Closes;
    var us := a + Closers(quote, k);
    if quote {
      ClosesQuote(us, |a|, |us|, n);
      assert false;
    } else {
      ParenthesesCount(us, |a|, n);
    }
  }

  /** A quote in a is closed in a, or by the quote that was left out. */
  lemma QuoteUnclosed(a: seq<Token>, quote: bool, k: nat, c: nat)
    requires c < |a|
    ensures var us := a + Closers(quote, k);
      var e := QuoteEnd(us, c + 1);
      e < |us| ==> && QuoteEnd(a, c + 1) == Min(e, |a|) && a[c + 1..Min(e, |a|)] == us[c + 1..e]
                   && (e >= |a| ==> e == |a| && forall i :: |a| < i < |us| ==> us[i].RParen?)
  {
    hide QuoteEnd;
    var us := a + Closers(quote, k);
    var e := QuoteEnd(us, c + 1);
    InBoth(a, Closers(quote, k), []);
    if e < |us| {
      if e < |a| { QuoteEndIs(a, c + 1, e); } else { QuoteEndNone(a, c + 1); }
    }
  }

  lemma {:induction false} QuoteEndNone(a: seq<Token>, c: nat)
    requires c <= |a| && forall i :: c <= i < |a| ==> !a[i].Quote?
    ensures QuoteEnd(a, c) == |a|
    decreases |a| - c
  {
    if c < |a| { QuoteEndNone(a, c + 1); }
  }

  /** A connective in a has its operand's first token in a. */
  lemma ClosesOperand(a: seq<Token>, quote: bool, k: nat, c: nat, n: nat)
    requires var us := a + Closers(quote, k); c < |a| && Connective(a[c]) && Closes(us, c, |us|, n)
    ensures var us := a + Closers(quote, k);
      var i := if a[c].And? && us[c + 1].Not? then 1 else 0;
      c + i + 1 < |a| && StartsAtom(us[c + i + 1]) && Closes(us, c + i + 1, |us|, n)
  {
    var us := a + Closers(quote, k);
    assert us[c] == a[c];
    var i := if a[c].And? && us[c + 1].Not? then 1 else 0;
    assert Closes(us, c + i + 1, |us|, n) && StartsAtom(us[c + i + 1]);
    if c + i + 1 >= |a| { OnlyParentheses(a, quote, k, n); }
  }

  lemma PrintCloses(q: Query)
    ensures Closes(Print(q), 0, |Print(q)|, 0)
  {
    hide Print, PrintAlternatives, Closes;
    var ts := Print(q);
    NothingToClose(ts);
    if q.alternatives == [] {
      PrintsNoAlternatives(q);
    } else {
      assert q.alternatives[0..] == q.alternatives;
      PrintIs(q);
      assert ts[0..|ts|] == ts;
      QueryCloses(ts, 0, q, 0, |ts|, 0);
    }
  }

  lemma NothingToClose(ts: seq<Token>)
    ensures Closes(ts, |ts|, |ts|, 0)
  {
  }

  /** A clean query whose last quote and parentheses are left open gets the intended plan, and is read to
      the end. */
  lemma ReadsUnclosed(q: Query, a: seq<Token>, quote: bool, k: nat, indexed: Text -> bool)
    requires Clean(q, indexed) && Print(q) == a + Closers(quote, k)
    ensures ParseOr(a, 0, indexed) == (PlanOf(q, indexed), |a|)
  {
    hide Clean, Print, Closers, Closes, ParseOr, Alike, PlanOf;
    var us := Print(q);
    PrintCloses(q);
    UnclosedAlike(a, quote, k, 0, 0, indexed);
    var m := OrAlike(a, 0, us, 0, 0, true, indexed);
    assert us[0..|us|] == us;
    ParsesQuery(us, 0, q, indexed);
    AlikeToEnd(a, ParseOr(a, 0, indexed).1, us, m, indexed);
  }

  lemma AlikeToEnd(ts: seq<Token>, c: nat, us: seq<Token>, n: nat, indexed: Text -> bool)
    requires Alike(ts, c, us, |us|, n, true, indexed)
    ensures c == |ts|
  {
  }

  /** After NOT, a token that cannot be an operand counts as a word that is not indexed: the NOT is without
      effect. */
  lemma StrayAfterNot(a: seq<Token>, explicitAnd: bool, t: Token, b: seq<Token>, u: Text, exact: bool, indexed: Text -> bool)
    requires !InQuote(a) && (a == [] || !Connective(a[|a| - 1])) && Stray(t) && !indexed(u)
    ensures var p := (if explicitAnd then [And] else []) + [Not];
      && Alike(a + (p + [t] + b), 0, a + (p + [Word(u)] + b), 0, 0, exact, indexed)
      && ParseOr(a + (p + [t] + b), 0, indexed).0 == ParseOr(a + (p + [Word(u)] + b), 0, indexed).0
  {
    hide ParseOr, Alike, Quotes, AlikeNegated;
    var p := (if explicitAnd then [And] else []) + [Not];
    var x, y := p + [t] + b, p + [Word(u)] + b;
    var ts, us, k := a + x, a + y, |a| + |p|;
    assert ts[k] == t && us[k] == Word(u) && ts[k - 1] == Not == us[k - 1] && (explicitAnd ==> ts[|a|] == And == us[|a|]);
    assert ts[k + 1..] == b == us[k + 1..];
    forall n: nat ensures Alike(ts, |a|, us, |a|, n, exact, indexed) {
      SuffixAlike(ts, k + 1, us, k + 1, n, exact, indexed);
      StrayOperand(ts, |a|, us, k, n, exact, indexed);
    }
    assert a[0..] == a;
    SameBeginning(a, x, y, 0, 0, exact, indexed);
    AlikePlans(a + (p + [t] + b), a + (p + [Word(u)] + b), exact, indexed);
  }

  /** After AND, it counts as a word that is not indexed as well: the conjunction has no plan. */
  lemma StrayAfterAnd(a: seq<Token>, t: Token, b: seq<Token>, u: Text, exact: bool, indexed: Text -> bool)
    requires !InQuote(a) && (a == [] || !Connective(a[|a| - 1])) && Stray(t) && !t.Not? && !indexed(u)
    ensures Alike(a + ([And] + [t] + b), 0, a + ([And] + [Word(u)] + b), 0, 0, exact, indexed)
    ensures ParseOr(a + ([And] + [t] + b), 0, indexed).0 == ParseOr(a + ([And] + [Word(u)] + b), 0, indexed).0
  {
    hide ParseOr, Alike, Quotes, AlikeNegated;
    var x, y := [And] + [t] + b, [And] + [Word(u)] + b;
    var ts, us, k := a + x, a + y, |a| + 1;
    assert ts[k] == t && us[k] == Word(u) && ts[k - 1] == And == us[k - 1];
    assert ts[k + 1..] == b == us[k + 1..];
    forall n: nat ensures Alike(ts, |a|, us, |a|, n, exact, indexed) {
      SuffixAlike(ts, k + 1, us, k + 1, n, exact, indexed);
      StrayOperand(ts, |a|, us, k, n, exact, indexed);
    }
    assert a[0..] == a;
    SameBeginning(a, x, y, 0, 0, exact, indexed);
    AlikePlans(a + ([And] + [t] + b), a + ([And] + [Word(u)] + b), exact, indexed);
  }

  lemma StrayOperand(ts: seq<Token>, c: nat, us: seq<Token>, k: nat, n: nat, exact: bool, indexed: Text -> bool)
    requires c < k < |ts| && k < |us| && BothStray(ts, k, us, k, indexed) && !us[k].Not? && Alike(ts, k + 1, us, k + 1, n, exact, indexed)
    requires || (k == c + 1 && ts[c].And? && us[c].And? && !ts[k].Not?)
             || (k == c + 1 && ts[c].Not? && us[c].Not?)
             || (k == c + 2 && ts[c].And? && us[c].And? && ts[c + 1].Not? && us[c + 1].Not?)
    ensures Alike(ts, c, us, c, n, exact, indexed)
  {
    hide QuoteEnd, QuotedWords;
    if ts[k - 1].Not? { assert AlikeNegated(ts, k - 1, us, k - 1, n, exact, indexed); }
  }

  /** Connectives without operand at the end are as if they were not there. */
  lemma ConnectivesLeftOver(a: seq<Token>, x: seq<Token>, indexed: Text -> bool)
    requires !InQuote(a) && (a == [] || !Connective(a[|a| - 1])) && (x == [And] || x == [Not] || x == [And, Not])
    ensures Alike(a + x, 0, a, 0, 0, false, indexed)
    ensures ParseOr(a + x, 0, indexed).0 == ParseOr(a, 0, indexed).0
  {
    hide ParseOr, Alike, Quotes;
    assert (a + x)[|a|..] == x && (a + [])[|a|..] == [] && a + [] == a && a[0..] == a;
    forall n: nat ensures Alike(a + x, |a|, a + [], |a|, n, false, indexed) { BothEnd(a + x, |a|, a + [], |a|, n, false, indexed); }
    SameBeginning(a, x, [], 0, 0, false, indexed);
    AlikePlans(a + x, a, false, indexed);
  }

  // ---------------------------------------------------------------- the ways to spell a query

  /** The tokens lead to those of the query by steps that make no difference to the parser. */
  ghost predicate Spells(ts: seq<Token>, q: Query, indexed: Text -> bool) {
    exists steps: seq<seq<Token>> :: Leads(steps, ts, Print(q), indexed)
  }

  ghost predicate Leads(steps: seq<seq<Token>>, ts: seq<Token>, us: seq<Token>, indexed: Text -> bool) {
    && steps != [] && steps[0] == ts && steps[|steps| - 1] == us
    && forall i {:trigger steps[i]} :: 0 <= i < |steps| - 1 ==> EitherAlike(steps[i], steps[i + 1], indexed)
  }

  ghost predicate EitherAlike(ts: seq<Token>, us: seq<Token>, indexed: Text -> bool) {
    Alike(ts, 0, us, 0, 0, false, indexed) || Alike(us, 0, ts, 0, 0, false, indexed)
  }

  /** However a query is spelled, the plan is that of the query as printed. */
  lemma SpellsPlan(ts: seq<Token>, q: Query, indexed: Text -> bool)
    requires Spells(ts, q, indexed)
    ensures ParseOr(ts, 0, indexed).0 == ParseOr(Print(q), 0, indexed).0
  {
    hide ParseOr, Print;
    var steps :| Leads(steps, ts, Print(q), indexed);
    StepsKeepPlan(steps, |steps| - 1, indexed);
  }

  lemma {:induction false} StepsKeepPlan(steps: seq<seq<Token>>, n: nat, indexed: Text -> bool)
    requires n < |steps| && Leads(steps, steps[0], steps[|steps| - 1], indexed)
    ensures ParseOr(steps[0], 0, indexed).0 == ParseOr(steps[n], 0, indexed).0
  {
    hide ParseOr, Alike;
    if n > 0 {
      StepsKeepPlan(steps, n - 1, indexed);
      var ts, us := steps[n - 1], steps[n];
      assert EitherAlike(ts, us, indexed);
      if Alike(ts, 0, us, 0, 0, false, indexed) {
        var _ := OrAlike(ts, 0, us, 0, 0, false, indexed);
      } else {
        var _ := OrAlike(us, 0, ts, 0, 0, false, indexed);
      }
    }
  }

  /** A query is spelled by its own tokens. */
  lemma PrintSpells(q: Query, indexed: Text -> bool)
    ensures Spells(Print(q), q, indexed)
  {
    hide Print;
    assert Leads([Print(q)], Print(q), Print(q), indexed);
  }

  /** One step more, in either direction, still spells the query. */
  lemma StepSpells(ts: seq<Token>, us: seq<Token>, q: Query, exact: bool, indexed: Text -> bool)
    requires Alike(ts, 0, us, 0, 0, exact, indexed)
    ensures Spells(us, q, indexed) <==> Spells(ts, q, indexed)
  {
    hide Print, Alike;
    AlikeLoosely(ts, 0, us, 0, 0, exact, indexed);
    if Spells(us, q, indexed) {
      var steps :| Leads(steps, us, Print(q), indexed);
      LeadsFrom(ts, us, steps, Print(q), indexed);
    }
    if Spells(ts, q, indexed) {
      var steps :| Leads(steps, ts, Print(q), indexed);
      LeadsFrom(us, ts, steps, Print(q), indexed);
    }
  }

  lemma LeadsFrom(ts: seq<Token>, us: seq<Token>, steps: seq<seq<Token>>, vs: seq<Token>, indexed: Text -> bool)
    requires Leads(steps, us, vs, indexed) && EitherAlike(ts, us, indexed)
    ensures Leads([ts] + steps, ts, vs, indexed)
  {
    hide EitherAlike;
    var more := [ts] + steps;
    forall i | 0 <= i < |more| - 1 ensures EitherAlike(more[i], more[i + 1], indexed) {
      if i > 0 { assert more[i] == steps[i - 1] && more[i + 1] == steps[i]; }
    }
  }

  lemma {:induction false} AlikeLoosely(ts: seq<Token>, c: nat, us: seq<Token>, d: nat, n: nat, exact: bool, indexed: Text -> bool)
    requires Alike(ts, c, us, d, n, exact, indexed)
    ensures Alike(ts, c, us, d, n, false, indexed)
    decreases |ts| - c + |us| - d, 1
  {
    hide AtEnd, QuoteEnd, QuotedWords;
    EndsNoOr(ts, c);
    if BothStop(ts, c, us, d, n, exact) { return; }
    if AtEnd(ts, c) && us[d].RParen? { AlikeLoosely(ts, c, us, d + 1, n - 1, exact, indexed); return; }
    match ts[c]
    case Word(_) => AlikeLoosely(ts, c + 1, us, d + 1, n, exact, indexed);
    case Or => AlikeLoosely(ts, c + 1, us, d + 1, n, exact, indexed);
    case LParen => AlikeLoosely(ts, c + 1, us, d + 1, n + 1, exact, indexed);
    case RParen => AlikeLoosely(ts, c + 1, us, d + 1, n - 1, exact, indexed);
    case Quote =>
      AlikeLoosely(ts, Behind(ts, QuoteEnd(ts, c + 1)), us, Behind(us, QuoteEnd(us, d + 1)), n, exact, indexed);
    case And =>
      if BothAtoms(ts, c + 1, us, d + 1) {
        AlikeLoosely(ts, c + 1, us, d + 1, n, exact, indexed);
      } else if ts[c + 1].Not? {
        NegatedLoosely(ts, c + 1, us, d + 1, n, exact, indexed);
      } else {
        AlikeLoosely(ts, c + 2, us, d + 2, n, exact, indexed);
      }
    case Not => NegatedLoosely(ts, c, us, d, n, exact, indexed);
  }

  lemma {:induction false} NegatedLoosely(ts: seq<Token>, c: nat, us: seq<Token>, d: nat, n: nat, exact: bool, indexed: Text -> bool)
    requires AlikeNegated(ts, c, us, d, n, exact, indexed)
    ensures AlikeNegated(ts, c, us, d, n, false, indexed)
    decreases |ts| - c + |us| - d, 0
  {
    hide Alike;
    if BothAtoms(ts, c + 1, us, d + 1) {
      AlikeLoosely(ts, c + 1, us, d + 1, n, exact, indexed);
    } else {
      AlikeLoosely(ts, c + 2, us, d + 2, n, exact, indexed);
    }
  }

  /** A query, clean or not, is spelled by its tokens without closing ones at the end. */
  lemma UnclosedSpells(q: Query, a: seq<Token>, quote: bool, k: nat, indexed: Text -> bool)
    requires Print(q) == a + Closers(quote, k)
    ensures Spells(a, q, indexed)
  {
    hide Print, Closers, Closes, Alike, Spells;
    PrintCloses(q);
    UnclosedAlike(a, quote, k, 0, 0, indexed);
    PrintSpells(q, indexed);
    StepSpells(a, Print(q), q, true, indexed);
  }
}
