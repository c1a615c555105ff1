/** On verified patterns the depth of the analyses makes no difference once it is large enough. */
module Settling {
  // In the library the analyses follow calls without end; in this model they follow them up to a depth.

  import opened Peg
  import opened Analysis
  import opened Verification

  /** A pattern that stands where verification vouches for its calls. */
  ghost predicate Sure(g: Rules, t: Tree, levels: nat) {
    Verified(g, t) && Dependable(t) && CallsUsed(g, t) && Levels(t) <= levels
  }

  ghost predicate RulesSure(g: Rules, levels: nat) {
    forall k: nat | k < |g| && Used(g, k) :: RuleSure(g, levels, k)
  }

  ghost predicate RuleSure(g: Rules, levels: nat, k: nat)
    requires k < |g|
  {
    Sure(g, g[k], levels) && VerifyFully(g, g[k], MAX_RULES, false).Passes?
  }

  lemma {:induction false} LevelsOfRule(rs: Rules, m: nat, k: nat)
    requires m <= k < |rs|
    ensures Levels(rs[k]) <= LevelsFrom(rs, m)
    decreases k - m
  {
    if m < k { LevelsOfRule(rs, m + 1, k); }
  }

  lemma SubGrammarSure(g: Rules, t: Tree)
    requires t.TGrammar? && Verified(g, t) && Dependable(t)
    ensures Levels(t) >= 1 && RulesSure(t.rules, Levels(t) - 1)
  {
    forall k: nat | k < |t.rules| && Used(t.rules, k)
      ensures RuleSure(t.rules, Levels(t) - 1, k)
    {
      CallsUsedIntro(t.rules, t.rules[k]);
      LevelsOfRule(t.rules, 0, k);
    }
  }

  /** The calls that may follow: the budget of a rule on its way from its start, or a fresh one behind one call. */
  function Left(left: bool, budget: nat): nat { if left then budget else MAX_RULES + 1 }

  lemma {:induction false} NoFailNullable(g: Rules, t: Tree, d: nat)
    requires NoFail(g, t, d)
    ensures Nullable(g, t, d)
    decreases d, t
  {
    match t
    case TSeq(p1, p2) => NoFailNullable(g, p1, d); NoFailNullable(g, p2, d);
    case TChoice(p1, p2) => if NoFail(g, p1, d) { NoFailNullable(g, p1, d); } else { NoFailNullable(g, p2, d); }
    case TCapture(_, p) => NoFailNullable(g, p, d);
    case TGrammar(rs) => if rs != [] { NoFailNullable(rs, rs[0], d); }
    case TCall(k) => if d > 0 && k < |g| { NoFailNullable(g, g[k], d - 1); }
    case _ =>
  }

  /** Nullable and nofail settle, and verification knows of every pattern that may be passed. */
  lemma {:induction false} CheckSettles(
    g: Rules, t: Tree, levels: nat, left: bool, budget: nat, nb: bool, nofail: bool, d: nat, d': nat)
    requires Sure(g, t, levels) && RulesSure(g, levels)
    requires left ==> VerifyFully(g, t, budget, nb).Passes?
    requires d >= Left(left, budget) + MAX_RULES * levels && d' >= Left(left, budget) + MAX_RULES * levels
    ensures CheckAux(g, t, nofail, d) == CheckAux(g, t, nofail, d')
    ensures left && CheckAux(g, t, nofail, d) ==> VerifyFully(g, t, budget, nb).nb
    decreases levels, Left(left, budget), t
  {
    match t
    case TAnd(p) =>
      CheckSettles(g, p, levels, left, budget, true, nofail, d, d');
      if left { AccumulatorStays(g, p, budget); }
    case TNot(p) => if left { AccumulatorStays(g, p, budget); }
    case TRep(p) => if left { AccumulatorStays(g, p, budget); }
    case TSeq(p1, p2) =>
      CheckSettles(g, p1, levels, left, budget, false, nofail, d, d');
      if CheckAux(g, p1, nofail, d) { CheckSettles(g, p2, levels, left, budget, nb, nofail, d, d'); }
    case TChoice(p1, p2) =>
      CheckSettles(g, p1, levels, left, budget, nb, nofail, d, d');
      CheckSettles(g, p2, levels, left, budget, left && VerifyFully(g, p1, budget, nb).nb, nofail, d, d');
      if left && VerifyFully(g, p1, budget, nb).nb { AccumulatorStays(g, p2, budget); }
    case TCapture(_, p) => CheckSettles(g, p, levels, left, budget, nb, nofail, d, d');
    case TCall(k) =>
      assert RuleSure(g, levels, k);
      CheckSettles(g, g[k], levels, true, if left then budget - 1 else MAX_RULES, left && nb, nofail, d - 1, d' - 1);
    case TGrammar(rs) => GrammarCheckSettles(g, t, levels, nofail, d, d');
    case _ =>
  }

  lemma {:induction false} GrammarCheckSettles(g: Rules, t: Tree, levels: nat, nofail: bool, d: nat, d': nat)
    requires t.TGrammar? && Sure(g, t, levels)
    requires d >= MAX_RULES * levels && d' >= MAX_RULES * levels
    ensures CheckAux(g, t, nofail, d) == CheckAux(g, t, nofail, d')
    ensures CheckAux(g, t, nofail, d) ==> Nullable(g, t, Plenty(g, t))
    decreases levels, 0, t, 0
  {
    var rs, below, p := t.rules, Levels(t) - 1, Plenty(g, t);
    SubGrammarSure(g, t);
    assert RuleSure(rs, below, 0);
    CheckSettles(rs, rs[0], below, true, MAX_RULES, false, nofail, d, d');
    CheckSettles(rs, rs[0], below, true, MAX_RULES, false, nofail, d, p);
    if nofail && CheckAux(g, t, nofail, d) { NoFailNullable(g, t, p); }
  }

  /** First sets settle. */
  lemma {:induction false} FirstSettles(
    g: Rules, t: Tree, follow: set<Byte>, levels: nat, left: bool, budget: nat, nb: bool, d: nat, d': nat)
    requires Sure(g, t, levels) && RulesSure(g, levels)
    requires left ==> VerifyFully(g, t, budget, nb).Passes?
    requires d >= Left(left, budget) + MAX_RULES * levels && d' >= Left(left, budget) + MAX_RULES * levels
    ensures GetFirst(g, t, follow, d) == GetFirst(g, t, follow, d')
    decreases levels, Left(left, budget), t
  {
    match t
    case TAnd(p) => FirstSettles(g, p, follow, levels, left, budget, true, d, d');
    case TRep(p) => FirstSettles(g, p, follow, levels, left, budget, true, d, d');
    case TCapture(_, p) => FirstSettles(g, p, follow, levels, left, budget, nb, d, d');
    case TSeq(p1, p2) =>
      CheckSettles(g, p1, levels, left, budget, false, false, d, d');
      if Nullable(g, p1, d) {
        FirstSettles(g, p2, follow, levels, left, budget, nb, d, d');
        FirstSettles(g, p1, GetFirst(g, p2, follow, d).cs, levels, left, budget, false, d, d');
      } else {
        FirstSettles(g, p1, FULL, levels, left, budget, false, d, d');
      }
    case TChoice(p1, p2) =>
      FirstSettles(g, p1, follow, levels, left, budget, nb, d, d');
      FirstSettles(g, p2, follow, levels, left, budget, left && VerifyFully(g, p1, budget, nb).nb, d, d');
    case TCall(k) =>
      assert RuleSure(g, levels, k);
      FirstSettles(g, g[k], follow, levels, true, if left then budget - 1 else MAX_RULES, left && nb, d - 1, d' - 1);
    case TGrammar(rs) =>
      SubGrammarSure(g, t);
      assert RuleSure(rs, Levels(t) - 1, 0);
      FirstSettles(rs, rs[0], follow, Levels(t) - 1, true, MAX_RULES, false, d, d');
    case _ =>
  }

  /** Headfail settles, with room for a nofail that starts afresh. */
  lemma {:induction false} HeadSettles(
    g: Rules, t: Tree, levels: nat, left: bool, budget: nat, nb: bool, d: nat, d': nat)
    requires Sure(g, t, levels) && RulesSure(g, levels)
    requires left ==> VerifyFully(g, t, budget, nb).Passes?
    requires d >= Left(left, budget) + MAX_RULES * (levels + 1) + 1
    requires d' >= Left(left, budget) + MAX_RULES * (levels + 1) + 1
    ensures HeadFail(g, t, d) == HeadFail(g, t, d')
    decreases levels, Left(left, budget), t
  {
    match t
    case TAnd(p) => HeadSettles(g, p, levels, left, budget, true, d, d');
    case TCapture(_, p) => HeadSettles(g, p, levels, left, budget, nb, d, d');
    case TSeq(p1, p2) =>
      CheckSettles(g, p2, levels, false, 0, false, true, d, d');
      HeadSettles(g, p1, levels, left, budget, false, d, d');
    case TChoice(p1, p2) =>
      HeadSettles(g, p1, levels, left, budget, nb, d, d');
      HeadSettles(g, p2, levels, left, budget, left && VerifyFully(g, p1, budget, nb).nb, d, d');
    case TCall(k) =>
      assert RuleSure(g, levels, k);
      HeadSettles(g, g[k], levels, true, if left then budget - 1 else MAX_RULES, left && nb, d - 1, d' - 1);
    case TGrammar(rs) =>
      SubGrammarSure(g, t);
      assert RuleSure(rs, Levels(t) - 1, 0);
      HeadSettles(rs, rs[0], Levels(t) - 1, true, MAX_RULES, false, d, d');
    case _ =>
  }

  /** The answers of the analyses for a pattern inside a verified grammar: whatever the depth, if only it is large
      enough, and so those of the recursion without a bound. */
  lemma AnalysesSettle(owner: Tree, t: Tree, nofail: bool, follow: set<Byte>, d: nat, d': nat)
    requires owner.TGrammar? && Verified([], owner) && Dependable(owner)
    requires Verified(owner.rules, t) && Dependable(t) && CallsUsed(owner.rules, t)
    requires d >= Plenty(owner.rules, t) && d' >= Plenty(owner.rules, t)
    ensures CheckAux(owner.rules, t, nofail, d) == CheckAux(owner.rules, t, nofail, d')
    ensures GetFirst(owner.rules, t, follow, d) == GetFirst(owner.rules, t, follow, d')
    ensures HeadFail(owner.rules, t, d) == HeadFail(owner.rules, t, d')
  {
    var g, levels := owner.rules, Max(Levels(t), LevelsFrom(owner.rules, 0));
    SubGrammarSure([], owner);
    forall k: nat | k < |g| && Used(g, k)
      ensures RuleSure(g, levels, k)
    {
      assert RuleSure(g, Levels(owner) - 1, k);
    }
    CheckSettles(g, t, levels, false, 0, false, nofail, d, d');
    FirstSettles(g, t, follow, levels, false, 0, false, d, d');
    HeadSettles(g, t, levels, false, 0, false, d, d');
  }

  /** The same for a pattern that is not inside a grammar. */
  lemma AnalysesSettleOutside(t: Tree, nofail: bool, follow: set<Byte>, d: nat, d': nat)
    requires Verified([], t) && Dependable(t) && d >= Plenty([], t) && d' >= Plenty([], t)
    ensures CheckAux([], t, nofail, d) == CheckAux([], t, nofail, d')
    ensures GetFirst([], t, follow, d) == GetFirst([], t, follow, d')
    ensures HeadFail([], t, d) == HeadFail([], t, d')
  {
    OpenCallsNowhere(t);
    CheckSettles([], t, Levels(t), false, 0, false, nofail, d, d');
    FirstSettles([], t, follow, Levels(t), false, 0, false, d, d');
    HeadSettles([], t, Levels(t), false, 0, false, d, d');
  }
}
