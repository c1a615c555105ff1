/** The answers of the analyses, characterised in both directions. */
module Precision {
  import opened Peg
  import opened Analysis
  import opened LeftRecursion

  // ---------- fixed lengths ----------

  /** How many bytes the ways through a pattern read, whether or not they can be taken; none are listed for a
      pattern with a repetition on a way, or with too many calls. */
  function Ways(g: Rules, t: Tree, count: nat): Option<set<nat>>
    decreases if count > MAX_RULES then 0 else MAX_RULES - count, t
  {
    match t
    case TChar(_) => Some({1})
    case TSet(_) => Some({1})
    case TAny => Some({1})
    case TRep(_) => None
    case TCapture(_, p) => Ways(g, p, count)
    case TGrammar(rs) => if rs == [] then None else Ways(rs, rs[0], count)
    case TCall(k) => if count >= MAX_RULES || k >= |g| then None else Ways(g, g[k], count + 1)
    case TSeq(p1, p2) =>
      var w1, w2 := Ways(g, p1, count), Ways(g, p2, count);
      if w1.None? || w2.None? then None else Some(Sums(w1.value, w2.value))
    case TChoice(p1, p2) =>
      var w1, w2 := Ways(g, p1, count), Ways(g, p2, count);
      if w1.None? || w2.None? then None else Some(w1.value + w2.value)
    case _ => Some({0})
  }

  function Sums(a: set<nat>, b: set<nat>): set<nat> { set m, n | m in a && n in b :: m + n }

  lemma SumIn(a: set<nat>, b: set<nat>, m: nat, n: nat)
    requires m in a && n in b
    ensures m + n in Sums(a, b)
  {
  }

  lemma SumFrom(a: set<nat>, b: set<nat>, x: nat) returns (m: nat, n: nat)
    requires x in Sums(a, b)
    ensures m in a && n in b && x == m + n
  {
    m, n :| m in a && n in b && x == m + n;
  }

  /** A sum is the only one exactly if both its parts are. */
  lemma OneSum(a: set<nat>, b: set<nat>, m: nat, n: nat)
    requires m in a && n in b
    ensures m + n in Sums(a, b)
    ensures Sums(a, b) == {m + n} <==> a == {m} && b == {n}
  {
    hide Sums;
    SumIn(a, b, m, n);
    if Sums(a, b) == {m + n} {
      forall x | x in a ensures x == m { SumIn(a, b, x, n); }
      forall y | y in b ensures y == n { SumIn(a, b, m, y); }
    } else {
      var x :| x in Sums(a, b) && x != m + n;
      var m', n' := SumFrom(a, b, x);
    }
  }

  /** The length is fixed, to n, exactly if all ways through the pattern read n bytes. */
  lemma {:induction false} FixedLenIff(g: Rules, t: Tree, count: nat, len: nat) returns (n: nat)
    ensures Ways(g, t, count).Some? ==> n in Ways(g, t, count).value
    ensures FixedLenX(g, t, count, len) == if Ways(g, t, count) == Some({n}) then len + n else -1
    decreases if count > MAX_RULES then 0 else MAX_RULES - count, t
  {
    n := 0;
    match t
    case TChar(_) => n := 1;
    case TSet(_) => n := 1;
    case TAny => n := 1;
    case TCapture(_, p) => n := FixedLenIff(g, p, count, len);
    case TGrammar(rs) => if rs != [] { n := FixedLenIff(rs, rs[0], count, len); }
    case TCall(k) => if count < MAX_RULES && k < |g| { n := FixedLenIff(g, g[k], count + 1, len); }
    case TSeq(p1, p2) =>
      var n1 := FixedLenIff(g, p1, count, len);
      var n2 := FixedLenIff(g, p2, count, len + n1);
      n := n1 + n2;
      if Ways(g, t, count).Some? { OneSum(Ways(g, p1, count).value, Ways(g, p2, count).value, n1, n2); }
    case TChoice(p1, p2) =>
      n := FixedLenIff(g, p1, count, len);
      var n2 := FixedLenIff(g, p2, count, len);
      if Ways(g, t, count).Some? { OneUnion(Ways(g, p1, count).value, Ways(g, p2, count).value, n, n2); }
    case _ =>
  }

  lemma OneUnion(a: set<nat>, b: set<nat>, m: nat, n: nat)
    requires m in a && n in b
    ensures a + b == {m} <==> a == {m} && b == {n} && m == n
  {
    if a + b == {m} {
      assert forall x :: x in a ==> x in a + b;
      assert forall y :: y in b ==> y in a + b;
    }
  }

  // ---------- captures ----------

  /** A capture, or a call or sub-grammar with captures in its rules; a call counts for all rules from its own on. */
  ghost predicate Captures(g: Rules, q: Tree, depth: nat) {
    match q
    case TCapture(_, _) => true
    case TConstCapture(_, _) => true
    case TCall(k) => k < |g| && (depth == 0 || exists m: nat :: k <= m < |g| && HasCaptures(g, g[m], depth - 1))
    case TGrammar(rs) => rs == [] || exists m: nat :: m < |rs| && HasCaptures(rs, rs[m], depth)
    case _ => false
  }

  lemma {:induction false} RulesCaptureIff(g: Rules, m: nat, depth: nat)
    ensures RulesCapture(g, m, depth) <==> exists n: nat :: m <= n < |g| && HasCaptures(g, g[n], depth)
    decreases |g| - m
  {
    if m < |g| {
      RulesCaptureIff(g, m + 1, depth);
      if HasCaptures(g, g[m], depth) { assert m <= m < |g|; }
    }
  }

  /** The answer is yes exactly if one of these stands in the pattern. */
  lemma {:induction false} HasCapturesIff(g: Rules, t: Tree, depth: nat)
    ensures HasCaptures(g, t, depth) <==> exists q :: Within(q, t) && Captures(g, q, depth)
    decreases t
  {
    assert Within(t, t);
    match t
    case TCall(k) =>
      if k < |g| && depth > 0 { RulesCaptureIff(g, k, depth - 1); }
      assert HasCaptures(g, t, depth) <==> Captures(g, t, depth);
    case TGrammar(rs) =>
      RulesCaptureIff(rs, 0, depth);
      assert HasCaptures(g, t, depth) <==> Captures(g, t, depth);
    case TRep(p) => HasCapturesIff(g, p, depth);
    case TNot(p) => HasCapturesIff(g, p, depth);
    case TAnd(p) => HasCapturesIff(g, p, depth);
    case TBehind(_, p) => HasCapturesIff(g, p, depth);
    case TSeq(p1, p2) =>
      HasCapturesIff(g, p1, depth);
      HasCapturesIff(g, p2, depth);
    case TChoice(p1, p2) =>
      HasCapturesIff(g, p1, depth);
      HasCapturesIff(g, p2, depth);
    case _ => assert HasCaptures(g, t, depth) <==> Captures(g, t, depth);
  }

  // ---------- first sets ----------

  /** Neither a look-ahead, nor its negation for a set of bytes, in the pattern and its sub-grammars. */
  ghost predicate NoFilter(t: Tree)
    decreases t
  {
    match t
    case TNot(p) => ToCharset(p).None?
    case TAnd(_) => false
    case TRep(p) => NoFilter(p)
    case TCapture(_, p) => NoFilter(p)
    case TSeq(p1, p2) => NoFilter(p1) && NoFilter(p2)
    case TChoice(p1, p2) => NoFilter(p1) && NoFilter(p2)
    case TGrammar(rs) => forall k :: 0 <= k < |rs| ==> NoFilter(rs[k])
    case _ => true
  }

  /** A match may begin by reading the byte. */
  predicate Starts(g: Rules, t: Tree, c: Byte, depth: nat)
    decreases depth, t
  {
    match t
    case TChar(b) => b == c
    case TSet(cs) => c in cs
    case TAny => true
    case TRep(p) => Starts(g, p, c, depth)
    case TCapture(_, p) => Starts(g, p, c, depth)
    case TSeq(p1, p2) => Starts(g, p1, c, depth) || (Nullable(g, p1, depth) && Starts(g, p2, c, depth))
    case TChoice(p1, p2) => Starts(g, p1, c, depth) || Starts(g, p2, c, depth)
    case TGrammar(rs) => rs == [] || Starts(rs, rs[0], c, depth)
    case TCall(k) => depth == 0 || k >= |g| || Starts(g, g[k], c, depth - 1)
    case _ => false
  }

  /** The first set holds exactly the bytes that a match may begin with, and those that may follow an empty one. */
  lemma {:induction false} FirstIff(g: Rules, t: Tree, follow: set<Byte>, depth: nat, c: Byte)
    requires NoFilter(t) && forall k :: 0 <= k < |g| ==> NoFilter(g[k])
    ensures c in GetFirst(g, t, follow, depth).cs <==>
            Starts(g, t, c, depth) || (Nullable(g, t, depth) && c in follow)
    ensures GetFirst(g, t, follow, depth).e <==> Nullable(g, t, depth)
    decreases depth, t
  {
    match t
    case TRep(p) => FirstIff(g, p, follow, depth, c);
    case TCapture(_, p) => FirstIff(g, p, follow, depth, c);
    case TSeq(p1, p2) =>
      FirstIff(g, p2, follow, depth, c);
      FirstIff(g, p1, if Nullable(g, p1, depth) then GetFirst(g, p2, follow, depth).cs else FULL, depth, c);
    case TChoice(p1, p2) =>
      FirstIff(g, p1, follow, depth, c);
      FirstIff(g, p2, follow, depth, c);
    case TGrammar(rs) => if rs != [] { FirstIff(rs, rs[0], follow, depth, c); }
    case TCall(k) => if depth > 0 && k < |g| { FirstIff(g, g[k], follow, depth - 1, c); }
    case _ =>
  }

  // ---------- failing on the first byte only ----------

  /** What a match may begin with, and whether all that comes behind it is sure to succeed. */
  function Heads(g: Rules, t: Tree, depth: nat): set<(Tree, bool)>
    decreases depth, t
  {
    match t
    case TCapture(_, p) => Heads(g, p, depth)
    case TAnd(p) => Heads(g, p, depth)
    case TGrammar(rs) => if rs == [] then {(t, true)} else Heads(rs, rs[0], depth)
    case TCall(k) => if depth == 0 || k >= |g| then {(t, true)} else Heads(g, g[k], depth - 1)
    case TSeq(p1, p2) => if NoFail(g, p2, depth) then Heads(g, p1, depth) else Doubtful(Heads(g, p1, depth))
    case TChoice(p1, p2) => Heads(g, p1, depth) + Heads(g, p2, depth)
    case _ => {(t, true)}
  }

  function Doubtful(heads: set<(Tree, bool)>): set<(Tree, bool)> { set h | h in heads :: (h.0, false) }

  /** One byte is tested, and nothing else. */
  predicate IsByte(t: Tree) { t.TChar? || t.TSet? || t.TAny? || t.TFalse? }

  ghost predicate AllBytes(heads: set<(Tree, bool)>) { forall h :: h in heads ==> IsByte(h.0) && h.1 }

  lemma DoubtfulSome(heads: set<(Tree, bool)>, h: (Tree, bool))
    requires h in heads
    ensures !AllBytes(Doubtful(heads)) && Doubtful(heads) != {}
  {
    assert (h.0, false) in Doubtful(heads);
  }

  /** A pattern can fail on its first byte only, exactly if every match begins with a test of one byte, and all that
      comes behind it is sure to succeed. */
  lemma {:induction false} HeadFailIff(g: Rules, t: Tree, depth: nat) returns (h: (Tree, bool))
    ensures h in Heads(g, t, depth)
    ensures HeadFail(g, t, depth) <==> AllBytes(Heads(g, t, depth))
    decreases depth, t
  {
    h := (t, true);
    match t
    case TCapture(_, p) => h := HeadFailIff(g, p, depth);
    case TAnd(p) => h := HeadFailIff(g, p, depth);
    case TGrammar(rs) => if rs != [] { h := HeadFailIff(rs, rs[0], depth); }
    case TCall(k) => if depth > 0 && k < |g| { h := HeadFailIff(g, g[k], depth - 1); }
    case TSeq(p1, p2) =>
      h := HeadFailIff(g, p1, depth);
      if !NoFail(g, p2, depth) {
        DoubtfulSome(Heads(g, p1, depth), h);
        h := (h.0, false);
      }
    case TChoice(p1, p2) =>
      h := HeadFailIff(g, p1, depth);
      var h2 := HeadFailIff(g, p2, depth);
      assert AllBytes(Heads(g, t, depth)) <==> AllBytes(Heads(g, p1, depth)) && AllBytes(Heads(g, p2, depth));
    case _ =>
  }
}
