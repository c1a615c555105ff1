/** What the check of a grammar rejects: left recursion and empty loops. */
module LeftRecursion {
  // Both checks are meant: the one of the library, and the corrected one.  `blind` says that a sub-grammar that
  // consumes wipes out what has been noted before it, as it does in the library.

  import opened Peg
  import opened Analysis
  import opened Verification
  import opened Settling

  // ---------- what stands to the left ----------

  /** What a pattern does to the note that a match may have consumed nothing so far. */
  datatype Effect = Keeps | Sets | Clears

  function EffectOf(g: Rules, t: Tree, blind: bool, depth: nat): Effect
    decreases depth, t
  {
    match t
    case TTrue => Sets
    case TBehind(_, _) => Sets
    case TConstCapture(_, _) => Sets
    case TNot(p) => if EffectOf(g, p, blind, depth) == Clears then Clears else Sets
    case TAnd(p) => if EffectOf(g, p, blind, depth) == Clears then Clears else Sets
    case TRep(p) => if EffectOf(g, p, blind, depth) == Clears then Clears else Sets
    case TCapture(_, p) => EffectOf(g, p, blind, depth)
    case TCall(k) => if depth == 0 || k >= |g| then Keeps else EffectOf(g, g[k], blind, depth - 1)
    case TSeq(p1, p2) => if EffectOf(g, p1, blind, depth) == Sets then EffectOf(g, p2, blind, depth) else Keeps
    case TChoice(p1, p2) =>
      var last := EffectOf(g, p2, blind, depth);
      if last == Keeps then EffectOf(g, p1, blind, depth) else last
    case TGrammar(_) => if Nullable(g, t, Plenty(g, t)) then Sets else if blind then Clears else Keeps
    case _ => Keeps
  }

  function After(nb: bool, e: Effect): bool {
    match e
    case Keeps => nb
    case Sets => true
    case Clears => false
  }

  /** A call of rule `k` stands in `t` with nothing to its left that must consume. */
  predicate LeftCall(g: Rules, t: Tree, k: nat, blind: bool, depth: nat) {
    match t
    case TCall(m) => m == k
    case TNot(p) => LeftCall(g, p, k, blind, depth)
    case TAnd(p) => LeftCall(g, p, k, blind, depth)
    case TRep(p) => LeftCall(g, p, k, blind, depth)
    case TCapture(_, p) => LeftCall(g, p, k, blind, depth)
    case TChoice(p1, p2) => LeftCall(g, p1, k, blind, depth) || LeftCall(g, p2, k, blind, depth)
    case TSeq(p1, p2) =>
      LeftCall(g, p1, k, blind, depth) || (EffectOf(g, p1, blind, depth) == Sets && LeftCall(g, p2, k, blind, depth))
    case _ => false
  }

  /** So many left calls in a row start at `t`; a call that names no rule goes on for ever. */
  ghost predicate Chain(g: Rules, t: Tree, n: nat, blind: bool, depth: nat)
    decreases n
  {
    n > 0 ==> exists k: nat :: LeftCall(g, t, k, blind, depth) && (k >= |g| || Chain(g, g[k], n - 1, blind, depth))
  }

  lemma FirstCall(g: Rules, t: Tree, n: nat, blind: bool, depth: nat) returns (k: nat)
    requires n > 0 && Chain(g, t, n, blind, depth)
    ensures LeftCall(g, t, k, blind, depth) && (k >= |g| || Chain(g, g[k], n - 1, blind, depth))
  {
    k :| LeftCall(g, t, k, blind, depth) && (k >= |g| || Chain(g, g[k], n - 1, blind, depth));
  }

  lemma OneMoreCall(g: Rules, t: Tree, k: nat, n: nat, blind: bool, depth: nat)
    requires n > 0 && LeftCall(g, t, k, blind, depth) && (k >= |g| || Chain(g, g[k], n - 1, blind, depth))
    ensures Chain(g, t, n, blind, depth)
  {
  }

  lemma MoreChain(g: Rules, t: Tree, p: Tree, n: nat, blind: bool, depth: nat)
    requires n > 0 && forall k: nat :: LeftCall(g, p, k, blind, depth) ==> LeftCall(g, t, k, blind, depth)
    ensures Chain(g, p, n, blind, depth) ==> Chain(g, t, n, blind, depth)
  {
    hide Chain, LeftCall;
    if Chain(g, p, n, blind, depth) {
      var k := FirstCall(g, p, n, blind, depth);
      OneMoreCall(g, t, k, n, blind, depth);
    }
  }

  lemma SameChain(g: Rules, t: Tree, p: Tree, n: nat, blind: bool, depth: nat)
    requires n > 0 && forall k: nat :: LeftCall(g, t, k, blind, depth) <==> LeftCall(g, p, k, blind, depth)
    ensures Chain(g, t, n, blind, depth) <==> Chain(g, p, n, blind, depth)
  {
    hide Chain, LeftCall;
    MoreChain(g, t, p, n, blind, depth);
    MoreChain(g, p, t, n, blind, depth);
  }

  lemma EitherChain(g: Rules, t: Tree, p1: Tree, p2: Tree, n: nat, blind: bool, depth: nat)
    requires n > 0 && (t == TChoice(p1, p2) || (t == TSeq(p1, p2) && EffectOf(g, p1, blind, depth) == Sets))
    ensures Chain(g, t, n, blind, depth) <==> Chain(g, p1, n, blind, depth) || Chain(g, p2, n, blind, depth)
  {
    hide Chain;
    MoreChain(g, t, p1, n, blind, depth);
    MoreChain(g, t, p2, n, blind, depth);
    if Chain(g, t, n, blind, depth) {
      var k := FirstCall(g, t, n, blind, depth);
      if LeftCall(g, p1, k, blind, depth) {
        OneMoreCall(g, p1, k, n, blind, depth);
      } else {
        OneMoreCall(g, p2, k, n, blind, depth);
      }
    }
  }

  function Check(g: Rules, t: Tree, budget: nat, nb: bool, blind: bool): Verdict {
    if blind then VerifyRule(g, t, budget, nb) else VerifyFully(g, t, budget, nb)
  }

  /** What is noted behind a pattern that passes. */
  lemma {:induction false} NotedBehind(g: Rules, t: Tree, budget: nat, nb: bool, blind: bool, depth: nat)
    requires budget <= depth && Check(g, t, budget, nb, blind).Passes?
    ensures Check(g, t, budget, nb, blind).nb == After(nb, EffectOf(g, t, blind, depth))
    decreases budget, t
  {
    match t
    case TNot(p) => NotedBehind(g, p, budget, true, blind, depth);
    case TAnd(p) => NotedBehind(g, p, budget, true, blind, depth);
    case TRep(p) => NotedBehind(g, p, budget, true, blind, depth);
    case TCapture(_, p) => NotedBehind(g, p, budget, nb, blind, depth);
    case TCall(k) => NotedBehind(g, g[k], budget - 1, nb, blind, depth - 1);
    case TSeq(p1, p2) =>
      NotedBehind(g, p1, budget, false, blind, depth);
      if Check(g, p1, budget, false, blind).nb { NotedBehind(g, p2, budget, nb, blind, depth); }
    case TChoice(p1, p2) =>
      NotedBehind(g, p1, budget, nb, blind, depth);
      NotedBehind(g, p2, budget, Check(g, p1, budget, nb, blind).nb, blind, depth);
    case _ =>
  }

  /** A pattern is rejected exactly if more left calls in a row start at it than are allowed. */
  lemma {:induction false} RejectedIff(g: Rules, t: Tree, budget: nat, nb: bool, blind: bool, depth: nat)
    requires budget <= depth
    ensures Check(g, t, budget, nb, blind).Rejected? <==> Chain(g, t, budget + 1, blind, depth)
    decreases budget, t
  {
    match t
    case TNot(p) =>
      RejectedIff(g, p, budget, true, blind, depth);
      SameChain(g, t, p, budget + 1, blind, depth);
    case TAnd(p) =>
      RejectedIff(g, p, budget, true, blind, depth);
      SameChain(g, t, p, budget + 1, blind, depth);
    case TRep(p) =>
      RejectedIff(g, p, budget, true, blind, depth);
      SameChain(g, t, p, budget + 1, blind, depth);
    case TCapture(_, p) =>
      RejectedIff(g, p, budget, nb, blind, depth);
      SameChain(g, t, p, budget + 1, blind, depth);
    case TCall(k) =>
      if budget > 0 && k < |g| { RejectedIff(g, g[k], budget - 1, nb, blind, depth); }
      assert LeftCall(g, t, k, blind, depth);
    case TSeq(p1, p2) =>
      RejectedIff(g, p1, budget, false, blind, depth);
      MoreChain(g, t, p1, budget + 1, blind, depth);
      if Check(g, p1, budget, false, blind).Passes? {
        NotedBehind(g, p1, budget, false, blind, depth);
        if Check(g, p1, budget, false, blind).nb {
          RejectedIff(g, p2, budget, nb, blind, depth);
          EitherChain(g, t, p1, p2, budget + 1, blind, depth);
        } else {
          SameChain(g, t, p1, budget + 1, blind, depth);
        }
      }
    case TChoice(p1, p2) =>
      RejectedIff(g, p1, budget, nb, blind, depth);
      MoreChain(g, t, p1, budget + 1, blind, depth);
      if Check(g, p1, budget, nb, blind).Passes? {
        RejectedIff(g, p2, budget, Check(g, p1, budget, nb, blind).nb, blind, depth);
        EitherChain(g, t, p1, p2, budget + 1, blind, depth);
      }
    case _ =>
  }

  lemma {:induction false} NeverClears(g: Rules, t: Tree, depth: nat)
    ensures EffectOf(g, t, false, depth) != Clears
    decreases depth, t
  {
    match t
    case TNot(p) => NeverClears(g, p, depth);
    case TAnd(p) => NeverClears(g, p, depth);
    case TRep(p) => NeverClears(g, p, depth);
    case TCapture(_, p) => NeverClears(g, p, depth);
    case TCall(k) => if depth > 0 && k < |g| { NeverClears(g, g[k], depth - 1); }
    case TSeq(_, p2) => NeverClears(g, p2, depth);
    case TChoice(p1, p2) =>
      NeverClears(g, p1, depth);
      NeverClears(g, p2, depth);
    case _ =>
  }

  /** With the corrected check the second part of a sequence counts exactly if the first is nullable. */
  lemma {:induction false} SetsIffNullable(g: Rules, t: Tree, levels: nat, budget: nat, nb: bool, depth: nat)
    requires Sure(g, t, levels) && RulesSure(g, levels) && budget + MAX_RULES * levels <= depth
    requires VerifyFully(g, t, budget, nb).Passes?
    ensures EffectOf(g, t, false, depth) == Sets <==> Nullable(g, t, depth)
    decreases budget, t
  {
    NeverClears(g, t, depth);
    match t
    case TNot(p) => NeverClears(g, p, depth);
    case TAnd(p) => NeverClears(g, p, depth);
    case TRep(p) => NeverClears(g, p, depth);
    case TCapture(_, p) => SetsIffNullable(g, p, levels, budget, nb, depth);
    case TCall(k) =>
      assert RuleSure(g, levels, k);
      SetsIffNullable(g, g[k], levels, budget - 1, nb, depth - 1);
    case TSeq(p1, p2) =>
      SetsIffNullable(g, p1, levels, budget, false, depth);
      NotedBehind(g, p1, budget, false, false, depth);
      if VerifyFully(g, p1, budget, false).nb { SetsIffNullable(g, p2, levels, budget, nb, depth); }
    case TChoice(p1, p2) =>
      SetsIffNullable(g, p1, levels, budget, nb, depth);
      SetsIffNullable(g, p2, levels, budget, VerifyFully(g, p1, budget, nb).nb, depth);
    case TGrammar(_) => GrammarCheckSettles(g, t, Levels(t), false, depth, Plenty(g, t));
    case _ =>
  }

  // ---------- rules to the left of themselves ----------

  /** Each rule calls the next one from its left. */
  predicate Path(g: Rules, ks: seq<nat>, blind: bool, depth: nat) {
    && (forall i :: 0 <= i < |ks| ==> ks[i] < |g|)
    && forall i :: 0 < i < |ks| ==> LeftCall(g, g[ks[i - 1]], ks[i], blind, depth)
  }

  predicate Circle(g: Rules, ks: seq<nat>, blind: bool, depth: nat) {
    |ks| >= 2 && Path(g, ks, blind, depth) && ks[0] == ks[|ks| - 1]
  }

  /** A rule that is reached again from itself with nothing consumed: left recursion. */
  ghost predicate LeftRecursive(g: Rules, k: nat, blind: bool) {
    exists ks :: Circle(g, ks, blind, MAX_RULES) && ks[0] == k
  }

  /** All calls name rules. */
  ghost predicate Named(g: Rules) {
    forall m: nat, k: nat | m < |g| && Calls(g[m], k) :: k < |g|
  }

  lemma {:induction false} LeftCallCalls(g: Rules, t: Tree, k: nat, blind: bool, depth: nat)
    requires LeftCall(g, t, k, blind, depth)
    ensures Calls(t, k)
    decreases t
  {
    match t
    case TNot(p) => LeftCallCalls(g, p, k, blind, depth);
    case TAnd(p) => LeftCallCalls(g, p, k, blind, depth);
    case TRep(p) => LeftCallCalls(g, p, k, blind, depth);
    case TCapture(_, p) => LeftCallCalls(g, p, k, blind, depth);
    case TSeq(p1, p2) => LeftCallCalls(g, if LeftCall(g, p1, k, blind, depth) then p1 else p2, k, blind, depth);
    case TChoice(p1, p2) => LeftCallCalls(g, if LeftCall(g, p1, k, blind, depth) then p1 else p2, k, blind, depth);
    case _ =>
  }

  /** The rules of a chain. */
  lemma {:induction false} ChainPath(g: Rules, k: nat, n: nat, blind: bool, depth: nat) returns (ks: seq<nat>)
    requires Named(g) && k < |g| && Chain(g, g[k], n, blind, depth)
    ensures |ks| == n + 1 && ks[0] == k && Path(g, ks, blind, depth)
    decreases n
  {
    if n == 0 { return [k]; }
    var m: nat :| LeftCall(g, g[k], m, blind, depth) && (m >= |g| || Chain(g, g[m], n - 1, blind, depth));
    LeftCallCalls(g, g[k], m, blind, depth);
    var rest := ChainPath(g, m, n - 1, blind, depth);
    ks := [k] + rest;
  }

  /** Round and round a circle. */
  lemma {:induction false} CircleChain(g: Rules, ks: seq<nat>, i: nat, n: nat, blind: bool, depth: nat)
    requires Circle(g, ks, blind, depth) && i < |ks|
    ensures Chain(g, g[ks[i]], n, blind, depth)
    decreases n
  {
    if n > 0 {
      var j := if i == |ks| - 1 then 1 else i + 1;
      CircleChain(g, ks, j, n - 1, blind, depth);
      assert LeftCall(g, g[ks[j - 1]], ks[j], blind, depth);
    }
  }

  /** Among more numbers than there are below a bound, two are equal. */
  lemma {:induction false} Pigeonhole(ks: seq<nat>, n: nat) returns (i: nat, j: nat)
    requires |ks| > n && forall i :: 0 <= i < |ks| ==> ks[i] < n
    ensures i < j < |ks| && ks[i] == ks[j]
    decreases n
  {
    var last := |ks| - 1;
    if m: nat :| m < last && ks[m] == ks[last] {
      return m, last;
    }
    // the last number is taken out, and the greatest below the bound takes its place
    var rest := seq(last, i requires 0 <= i < last => if ks[i] == n - 1 then ks[last] else ks[i]);
    i, j := Pigeonhole(rest, n - 1);
  }

  /** Every rule on a path from a used rule is used. */
  lemma PathUsed(g: Rules, ks: seq<nat>, i: nat, blind: bool, depth: nat)
    requires Path(g, ks, blind, depth) && i < |ks| && Used(g, ks[0])
    ensures Used(g, ks[i])
  {
    if i > 0 { LeftCallCalls(g, g[ks[i - 1]], ks[i], blind, depth); }
  }

  /** In a grammar with no more rules than allowed, the rules pass exactly if no rule is left recursive. */
  lemma LeftRecursionIff(rs: Rules, blind: bool)
    requires Named(rs) && |rs| <= MAX_RULES
    ensures (forall k: nat | k < |rs| && Used(rs, k) :: Check(rs, rs[k], MAX_RULES, false, blind).Passes?) <==>
            (forall k: nat | k < |rs| && Used(rs, k) :: !LeftRecursive(rs, k, blind))
  {
    forall k: nat | k < |rs| && Used(rs, k)
      ensures LeftRecursive(rs, k, blind) ==> Check(rs, rs[k], MAX_RULES, false, blind).Rejected?
      ensures Check(rs, rs[k], MAX_RULES, false, blind).Rejected? ==>
                exists m: nat | m < |rs| && Used(rs, m) :: LeftRecursive(rs, m, blind)
    {
      RejectedIff(rs, rs[k], MAX_RULES, false, blind, MAX_RULES);
      if LeftRecursive(rs, k, blind) {
        var ks :| Circle(rs, ks, blind, MAX_RULES) && ks[0] == k;
        CircleChain(rs, ks, 0, MAX_RULES + 1, blind, MAX_RULES);
      }
      if Check(rs, rs[k], MAX_RULES, false, blind).Rejected? {
        var m := Recurs(rs, k, blind);
      }
    }
  }

  lemma Recurs(rs: Rules, k: nat, blind: bool) returns (m: nat)
    requires Named(rs) && |rs| <= MAX_RULES && k < |rs| && Used(rs, k)
    requires Chain(rs, rs[k], MAX_RULES + 1, blind, MAX_RULES)
    ensures m < |rs| && Used(rs, m) && LeftRecursive(rs, m, blind)
  {
    var ks := ChainPath(rs, k, MAX_RULES + 1, blind, MAX_RULES);
    var i, j := Pigeonhole(ks, |rs|);
    PathUsed(rs, ks, i, blind, MAX_RULES);
    m := ks[i];
    assert Circle(rs, ks[i..j + 1], blind, MAX_RULES);
  }

  // ---------- loops ----------

  /** `q` stands in `t`, outside its sub-grammars. */
  predicate Within(q: Tree, t: Tree) {
    q == t ||
    match t
    case TNot(p) => Within(q, p)
    case TAnd(p) => Within(q, p)
    case TRep(p) => Within(q, p)
    case TBehind(_, p) => Within(q, p)
    case TCapture(_, p) => Within(q, p)
    case TSeq(p1, p2) => Within(q, p1) || Within(q, p2)
    case TChoice(p1, p2) => Within(q, p1) || Within(q, p2)
    case _ => false
  }

  lemma {:induction false} CallsIff(t: Tree, k: nat)
    ensures Calls(t, k) <==> Within(TCall(k), t)
    decreases t
  {
    match t
    case TNot(p) => CallsIff(p, k);
    case TAnd(p) => CallsIff(p, k);
    case TRep(p) => CallsIff(p, k);
    case TBehind(_, p) => CallsIff(p, k);
    case TCapture(_, p) => CallsIff(p, k);
    case TSeq(p1, p2) =>
      CallsIff(p1, k);
      CallsIff(p2, k);
    case TChoice(p1, p2) =>
      CallsIff(p1, k);
      CallsIff(p2, k);
    case _ =>
  }

  /** The rules that are checked: the first one, and those that some rule calls, were it only itself. */
  lemma UsedIff(g: Rules, k: nat)
    ensures Used(g, k) <==> k == 0 || exists m: nat :: m < |g| && Within(TCall(k), g[m])
  {
    forall m: nat | m < |g|
      ensures Calls(g[m], k) <==> Within(TCall(k), g[m])
    {
      CallsIff(g[m], k);
    }
  }

  ghost predicate EmptyLoop(g: Rules, t: Tree) {
    exists p :: Within(TRep(p), t) && Nullable(g, p, Plenty(g, p))
  }

  lemma {:induction false} LoopsIff(g: Rules, t: Tree)
    ensures CheckLoops(g, t) <==> EmptyLoop(g, t)
    decreases t
  {
    match t
    case TRep(p) =>
      LoopsIff(g, p);
      assert Within(TRep(p), t);
    case TNot(p) => LoopsIff(g, p);
    case TAnd(p) => LoopsIff(g, p);
    case TBehind(_, p) => LoopsIff(g, p);
    case TCapture(_, p) => LoopsIff(g, p);
    case TSeq(p1, p2) =>
      LoopsIff(g, p1);
      LoopsIff(g, p2);
    case TChoice(p1, p2) =>
      LoopsIff(g, p1);
      LoopsIff(g, p2);
    case _ =>
  }

  /** A grammar passes exactly if none of its used rules is left recursive or has an empty loop. */
  lemma GrammarPassesIff(rs: Rules)
    requires Named(rs) && |rs| <= MAX_RULES
    ensures VerifyGrammar(rs) <==>
            forall k: nat | k < |rs| && Used(rs, k) :: !LeftRecursive(rs, k, true) && !EmptyLoop(rs, rs[k])
  {
    LeftRecursionIff(rs, true);
    forall k: nat | k < |rs|
      ensures CheckLoops(rs, rs[k]) <==> EmptyLoop(rs, rs[k])
      ensures Check(rs, rs[k], MAX_RULES, false, true) == VerifyRule(rs, rs[k], MAX_RULES, false)
    {
      LoopsIff(rs, rs[k]);
    }
  }

  /** A rule that calls itself behind a byte passes. */
  lemma RightRecursionPasses(c: Byte, d: Byte)
    ensures VerifyGrammar([TChoice(TSeq(TChar(c), TCall(0)), TChar(d))])
  {
    var first, second := TSeq(TChar(c), TCall(0)), TChar(d);
    var rs := [TChoice(first, second)];
    assert VerifyRule(rs, first, MAX_RULES, false) == Passes(false);
    assert VerifyRule(rs, TChoice(first, second), MAX_RULES, false) == Passes(false);
    assert !CheckLoops(rs, TChar(c)) && !CheckLoops(rs, TCall(0)) && !CheckLoops(rs, second);
    assert !CheckLoops(rs, first);
    assert !CheckLoops(rs, TChoice(first, second));
  }

  /** So does a bad rule that nothing calls. */
  lemma UnusedPasses(c: Byte)
    ensures VerifyGrammar([TChar(c), TRep(TTrue)]) && CheckLoops([TChar(c), TRep(TTrue)], TRep(TTrue))
  {
    var rs := [TChar(c), TRep(TTrue)];
    assert VerifyRule(rs, rs[0], MAX_RULES, false) == Passes(false) && !CheckLoops(rs, rs[0]);
    assert !Calls(rs[0], 1) && !Calls(TTrue, 1) && !Calls(rs[1], 1);
    assert !Used(rs, 1);
  }
}
