/** Verification of grammars, and so an end for every match. */
module Verification {
  import opened Peg
  import opened Analysis

  // ---------- how many calls the analyses follow ----------

  /** How deep grammars nest inside a tree. */
  function Levels(t: Tree): nat
    decreases t, 1
  {
    match t
    case TGrammar(rs) => 1 + LevelsFrom(rs, 0)
    case TRep(p) => Levels(p)
    case TNot(p) => Levels(p)
    case TAnd(p) => Levels(p)
    case TBehind(_, p) => Levels(p)
    case TCapture(_, p) => Levels(p)
    case TSeq(p1, p2) => Max(Levels(p1), Levels(p2))
    case TChoice(p1, p2) => Max(Levels(p1), Levels(p2))
    case _ => 0
  }

  function Max(m: nat, n: nat): nat { if m < n then n else m }

  /** The most among the rules from number `m` on. */
  function LevelsFrom(rs: Rules, m: nat): nat
    decreases TGrammar(rs), 0, |rs| - m
  {
    if m < |rs| then Max(Levels(rs[m]), LevelsFrom(rs, m + 1)) else 0
  }

  /** So many calls that the analyses of a verified pattern never need more (module Settling). */
  function Plenty(g: Rules, t: Tree): nat {
    MAX_RULES * (2 + Max(Levels(t), LevelsFrom(g, 0))) + 2
  }

  // ---------- the checks ----------

  /** `Passes(nb)`: a match may get past the pattern without consuming anything iff `nb`. */
  datatype Verdict = Rejected | Passes(nb: bool)

  /** Follows the calls that may happen before anything is consumed, at most `budget` of them. */
  function VerifyRule(g: Rules, t: Tree, budget: nat, nb: bool): Verdict
    decreases budget, t
  {
    match t
    case TChar(_) => Passes(nb)
    case TSet(_) => Passes(nb)
    case TAny => Passes(nb)
    case TFalse => Passes(nb)
    case TTrue => Passes(true)
    case TBehind(_, _) => Passes(true)
    case TConstCapture(_, _) => Passes(true)
    case TNot(p) => VerifyRule(g, p, budget, true)
    case TAnd(p) => VerifyRule(g, p, budget, true)
    case TRep(p) => VerifyRule(g, p, budget, true)
    case TCapture(_, p) => VerifyRule(g, p, budget, nb)
    case TCall(k) => if budget == 0 || k >= |g| then Rejected else VerifyRule(g, g[k], budget - 1, nb)
    case TSeq(p1, p2) =>
      (match VerifyRule(g, p1, budget, false)
       case Rejected => Rejected
       case Passes(nb1) => if nb1 then VerifyRule(g, p2, budget, nb) else Passes(nb))
    case TChoice(p1, p2) =>
      (match VerifyRule(g, p1, budget, nb)
       case Rejected => Rejected
       case Passes(nb1) => VerifyRule(g, p2, budget, nb1))
    case TGrammar(_) => Passes(Nullable(g, t, Plenty(g, t)))
  }

  /** Whether the pattern has a loop whose body may match nothing; sub-grammars were checked before. */
  predicate CheckLoops(g: Rules, t: Tree) {
    match t
    case TRep(p) => Nullable(g, p, Plenty(g, p)) || CheckLoops(g, p)
    case TSeq(p1, p2) => CheckLoops(g, p1) || CheckLoops(g, p2)
    case TChoice(p1, p2) => CheckLoops(g, p1) || CheckLoops(g, p2)
    case TNot(p) => CheckLoops(g, p)
    case TAnd(p) => CheckLoops(g, p)
    case TBehind(_, p) => CheckLoops(g, p)
    case TCapture(_, p) => CheckLoops(g, p)
    case _ => false
  }

  /** Whether `t` calls rule `k` of the enclosing grammar. */
  predicate Calls(t: Tree, k: nat) {
    match t
    case TCall(m) => m == k
    case TRep(p) => Calls(p, k)
    case TNot(p) => Calls(p, k)
    case TAnd(p) => Calls(p, k)
    case TBehind(_, p) => Calls(p, k)
    case TCapture(_, p) => Calls(p, k)
    case TSeq(p1, p2) => Calls(p1, k) || Calls(p2, k)
    case TChoice(p1, p2) => Calls(p1, k) || Calls(p2, k)
    case _ => false
  }

  /** Only a rule that is called, or the initial one, has a name; the others are not verified. */
  predicate Used(g: Rules, k: nat) {
    k == 0 || exists m: nat | m < |g| :: Calls(g[m], k)
  }

  predicate VerifyGrammar(rs: Rules) {
    forall k: nat | k < |rs| && Used(rs, k) ::
      VerifyRule(rs, rs[k], MAX_RULES, false).Passes? && !CheckLoops(rs, rs[k])
  }

  /** Every grammar inside the tree was verified when it was built, and its calls name its rules. */
  ghost predicate Verified(g: Rules, t: Tree)
    decreases t
  {
    match t
    case TCall(k) => k < |g|
    case TGrammar(rs) => rs != [] && VerifyGrammar(rs) && forall k :: 0 <= k < |rs| ==> Verified(rs, rs[k])
    case TRep(p) => Verified(g, p)
    case TNot(p) => Verified(g, p)
    case TAnd(p) => Verified(g, p)
    case TBehind(_, p) => Verified(g, p)
    case TCapture(_, p) => Verified(g, p)
    case TSeq(p1, p2) => Verified(g, p1) && Verified(g, p2)
    case TChoice(p1, p2) => Verified(g, p1) && Verified(g, p2)
    case _ => true
  }

  /** VerifyRule as it should be.  VerifyRule has two blind spots: it takes for granted that look-behinds contain
      no calls of the grammar they stand in; and where it comes to a sub-grammar it forgets that a match may already
      have got past the pattern (`nb`).  Here the second is mended. */
  function VerifyFully(g: Rules, t: Tree, budget: nat, nb: bool): Verdict
    decreases budget, t
  {
    match t
    case TChar(_) => Passes(nb)
    case TSet(_) => Passes(nb)
    case TAny => Passes(nb)
    case TFalse => Passes(nb)
    case TTrue => Passes(true)
    case TBehind(_, _) => Passes(true)
    case TConstCapture(_, _) => Passes(true)
    case TNot(p) => VerifyFully(g, p, budget, true)
    case TAnd(p) => VerifyFully(g, p, budget, true)
    case TRep(p) => VerifyFully(g, p, budget, true)
    case TCapture(_, p) => VerifyFully(g, p, budget, nb)
    case TCall(k) => if budget == 0 || k >= |g| then Rejected else VerifyFully(g, g[k], budget - 1, nb)
    case TSeq(p1, p2) =>
      (match VerifyFully(g, p1, budget, false)
       case Rejected => Rejected
       case Passes(nb1) => if nb1 then VerifyFully(g, p2, budget, nb) else Passes(nb))
    case TChoice(p1, p2) =>
      (match VerifyFully(g, p1, budget, nb)
       case Rejected => Rejected
       case Passes(nb1) => VerifyFully(g, p2, budget, nb1))
    case TGrammar(_) => Passes(nb || Nullable(g, t, Plenty(g, t)))
  }

  /** No calls outside sub-grammars. */
  predicate Closed(t: Tree) {
    match t
    case TCall(_) => false
    case TRep(p) => Closed(p)
    case TNot(p) => Closed(p)
    case TAnd(p) => Closed(p)
    case TBehind(_, p) => Closed(p)
    case TCapture(_, p) => Closed(p)
    case TSeq(p1, p2) => Closed(p1) && Closed(p2)
    case TChoice(p1, p2) => Closed(p1) && Closed(p2)
    case _ => true
  }

  /** What the checks should have asked for: no look-behind calls a rule of the grammar around it, and every used
      rule passes verification with nothing forgotten at sub-grammars. */
  ghost predicate Dependable(t: Tree)
    decreases t
  {
    match t
    case TBehind(_, p) => Closed(p) && Dependable(p)
    case TGrammar(rs) =>
      (forall k: nat | k < |rs| && Used(rs, k) :: VerifyFully(rs, rs[k], MAX_RULES, false).Passes?) &&
      forall k :: 0 <= k < |rs| ==> Dependable(rs[k])
    case TRep(p) => Dependable(p)
    case TNot(p) => Dependable(p)
    case TAnd(p) => Dependable(p)
    case TCapture(_, p) => Dependable(p)
    case TSeq(p1, p2) => Dependable(p1) && Dependable(p2)
    case TChoice(p1, p2) => Dependable(p1) && Dependable(p2)
    case _ => true
  }

  // ---------- what the answer means ----------

  lemma {:induction false} AccumulatorStays(g: Rules, t: Tree, budget: nat)
    requires VerifyFully(g, t, budget, true).Passes?
    ensures VerifyFully(g, t, budget, true).nb
    decreases budget, t
  {
    match t
    case TNot(p) => AccumulatorStays(g, p, budget);
    case TAnd(p) => AccumulatorStays(g, p, budget);
    case TRep(p) => AccumulatorStays(g, p, budget);
    case TCapture(_, p) => AccumulatorStays(g, p, budget);
    case TCall(k) => AccumulatorStays(g, g[k], budget - 1);
    case TSeq(p1, p2) => if VerifyFully(g, p1, budget, false).nb { AccumulatorStays(g, p2, budget); }
    case TChoice(p1, p2) =>
      AccumulatorStays(g, p1, budget);
      AccumulatorStays(g, p2, budget);
    case _ =>
  }

  /** A pattern that can succeed without consuming is reported as such. */
  lemma {:induction false} EmptyMatchPasses(
    g: Rules, t: Tree, s: Input, i: nat, fuel: nat, budget: nat, nb: bool)
    requires VerifyFully(g, t, budget, nb).Passes?
    requires i <= |s| && Eval(g, t, s, i, fuel).Some? && Eval(g, t, s, i, fuel).value.Ok?
    requires Eval(g, t, s, i, fuel).value.end == i
    ensures VerifyFully(g, t, budget, nb).nb
    decreases budget, t
  {
    match t
    case TNot(p) => AccumulatorStays(g, p, budget);
    case TAnd(p) => AccumulatorStays(g, p, budget);
    case TRep(p) => AccumulatorStays(g, p, budget);
    case TCapture(_, p) => EmptyMatchPasses(g, p, s, i, fuel, budget, nb);
    case TCall(k) => EmptyMatchPasses(g, g[k], s, i, fuel - 1, budget - 1, nb);
    case TSeq(p1, p2) =>
      EmptyMatchPasses(g, p1, s, i, fuel, budget, false);
      EmptyMatchPasses(g, p2, s, i, fuel, budget, nb);
    case TChoice(p1, p2) =>
      if Eval(g, p1, s, i, fuel).value.Ok? {
        EmptyMatchPasses(g, p1, s, i, fuel, budget, nb);
        AccumulatorStays(g, p2, budget);
      } else {
        EmptyMatchPasses(g, p2, s, i, fuel, budget, VerifyFully(g, p1, budget, nb).nb);
      }
    case TGrammar(_) => if !Nullable(g, t, Plenty(g, t)) { NotNullableConsumes(g, t, s, i, fuel, Plenty(g, t)); }
    case _ =>
  }

  // ---------- every match ends ----------

  /** What the rules and patterns of accepted grammars satisfy. */
  ghost predicate Safe(g: Rules, t: Tree) {
    Verified(g, t) && Dependable(t) && !CheckLoops(g, t) && CallsUsed(g, t)
  }

  ghost predicate CallsUsed(g: Rules, t: Tree) {
    match t
    case TCall(k) => Used(g, k)
    case TRep(p) => CallsUsed(g, p)
    case TNot(p) => CallsUsed(g, p)
    case TAnd(p) => CallsUsed(g, p)
    case TBehind(_, p) => CallsUsed(g, p)
    case TCapture(_, p) => CallsUsed(g, p)
    case TSeq(p1, p2) => CallsUsed(g, p1) && CallsUsed(g, p2)
    case TChoice(p1, p2) => CallsUsed(g, p1) && CallsUsed(g, p2)
    case _ => true
  }

  lemma {:induction false} CallsUsedIntro(g: Rules, t: Tree)
    requires forall k: nat | Calls(t, k) :: Used(g, k)
    ensures CallsUsed(g, t)
    decreases t
  {
    match t
    case TCall(k) => assert Calls(t, k);
    case TRep(p) => CallsUsedPart(g, t, p);
    case TNot(p) => CallsUsedPart(g, t, p);
    case TAnd(p) => CallsUsedPart(g, t, p);
    case TBehind(_, p) => CallsUsedPart(g, t, p);
    case TCapture(_, p) => CallsUsedPart(g, t, p);
    case TSeq(p1, p2) =>
      CallsUsedPart(g, t, p1);
      CallsUsedPart(g, t, p2);
    case TChoice(p1, p2) =>
      CallsUsedPart(g, t, p1);
      CallsUsedPart(g, t, p2);
    case _ =>
  }

  lemma {:induction false} CallsUsedPart(g: Rules, t: Tree, p: Tree)
    requires p < t && forall k: nat | Calls(p, k) :: Calls(t, k)
    requires forall k: nat | Calls(t, k) :: Used(g, k)
    ensures CallsUsed(g, p)
    decreases t, 0
  {
    forall k: nat | Calls(p, k) ensures Used(g, k) { assert Calls(t, k); }
    CallsUsedIntro(g, p);
  }

  ghost predicate RulesSafe(g: Rules, owner: Tree) {
    forall k: nat | k < |g| && Used(g, k) :: RuleSafe(g, owner, k)
  }

  ghost predicate RuleSafe(g: Rules, owner: Tree, k: nat)
    requires k < |g|
  {
    g[k] < owner && Safe(g, g[k]) &&
    VerifyFully(g, g[k], MAX_RULES, false).Passes?
  }

  lemma GrammarSafe(g: Rules, t: Tree)
    requires t.TGrammar? && Verified(g, t) && Dependable(t)
    ensures RulesSafe(t.rules, t)
  {
    forall k: nat | k < |t.rules| && Used(t.rules, k) ensures RuleSafe(t.rules, t, k) {
      CallsUsedIntro(t.rules, t.rules[k]);
    }
  }

  /** Matching ends.  The measure: the enclosing grammar or look-behind, the input left, whether something
      has been consumed since the last rule was entered afresh, the left calls still allowed, the pattern. */
  lemma {:induction false} MatchEnds(
    g: Rules, t: Tree, owner: Tree, left: bool, budget: nat, nb: bool, s: Input, i: nat) returns (fuel: nat)
    requires i <= |s| && Safe(g, t) && t < owner && (Closed(t) || RulesSafe(g, owner))
    requires left ==> VerifyFully(g, t, budget, nb).Passes?
    ensures Eval(g, t, s, i, fuel).Some?
    decreases owner, |s| - i, !left, budget, t
  {
    match t
    case TSeq(p1, p2) => fuel := SequenceEnds(g, t, owner, left, budget, nb, s, i);
    case TChoice(p1, p2) =>
      var f1 := MatchEnds(g, p1, owner, left, budget, nb, s, i);
      var nb1 := left && VerifyFully(g, p1, budget, nb).nb;
      var f2 := MatchEnds(g, p2, owner, left, budget, nb1, s, i);
      fuel := f1 + f2;
      EvalMonotone(g, p1, s, i, f1, fuel);
      EvalMonotone(g, p2, s, i, f2, fuel);
    case TRep(p) => fuel := RepetitionEnds(g, t, owner, left, budget, s, i);
    case TNot(p) => fuel := MatchEnds(g, p, owner, left, budget, true, s, i);
    case TAnd(p) => fuel := MatchEnds(g, p, owner, left, budget, true, s, i);
    case TCapture(_, p) => fuel := MatchEnds(g, p, owner, left, budget, nb, s, i);
    case TBehind(n, p) => if n <= i { fuel := MatchEnds(g, p, t, false, 0, false, s, i - n); } else { fuel := 0; }
    case TGrammar(rs) =>
      GrammarSafe(g, t);
      assert RuleSafe(rs, t, 0);
      fuel := MatchEnds(rs, rs[0], t, false, 0, false, s, i);
    case TCall(k) =>
      assert RuleSafe(g, owner, k);
      var f := MatchEnds(g, g[k], owner, true, if left then budget - 1 else MAX_RULES, left && nb, s, i);
      fuel := f + 1;
    case _ => fuel := 0;
  }

  lemma {:induction false} SequenceEnds(
    g: Rules, t: Tree, owner: Tree, left: bool, budget: nat, nb: bool, s: Input, i: nat) returns (fuel: nat)
    requires t.TSeq? && i <= |s| && Safe(g, t) && t < owner && (Closed(t) || RulesSafe(g, owner))
    requires left ==> VerifyFully(g, t, budget, nb).Passes?
    ensures Eval(g, t, s, i, fuel).Some?
    decreases owner, |s| - i, !left, budget, t, 0
  {
    var TSeq(p1, p2) := t;
    fuel := MatchEnds(g, p1, owner, left, budget, false, s, i);
    var r1 := Eval(g, p1, s, i, fuel).value;
    if r1.Ok? {
      var still := left && r1.end == i;
      if still { EmptyMatchPasses(g, p1, s, i, fuel, budget, false); }
      var f1 := fuel;
      var f2 := MatchEnds(g, p2, owner, still, budget, nb, s, r1.end);
      fuel := f1 + f2;
      EvalMonotone(g, p1, s, i, f1, fuel);
      EvalMonotone(g, p2, s, r1.end, f2, fuel);
    }
  }

  lemma {:induction false} RepetitionEnds(
    g: Rules, t: Tree, owner: Tree, left: bool, budget: nat, s: Input, i: nat) returns (fuel: nat)
    requires t.TRep? && i <= |s| && Safe(g, t) && t < owner && (Closed(t) || RulesSafe(g, owner))
    requires left ==> VerifyFully(g, t.p, budget, true).Passes?
    ensures Eval(g, t, s, i, fuel).Some?
    decreases owner, |s| - i, !left, budget, t, 0
  {
    var f1 := MatchEnds(g, t.p, owner, left, budget, true, s, i);
    fuel := f1 + 1;
    EvalMonotone(g, t.p, s, i, f1, fuel);
    var r1 := Eval(g, t.p, s, i, fuel).value;
    if r1.Ok? {
      NotNullableConsumes(g, t.p, s, i, fuel, Plenty(g, t.p));
      var f2 := MatchEnds(g, t, owner, false, budget, true, s, r1.end);
      fuel := f1 + f2 + 1;
      EvalMonotone(g, t.p, s, i, f1, fuel);
      EvalMonotone(g, t, s, r1.end, f2, fuel - 1);
    }
  }

  /** Acceptance implies termination: a pattern that passed the checks has a meaning at every position. */
  lemma AcceptedTerminates(t: Tree, s: Input, i: nat) returns (r: Result)
    requires i <= |s| && Verified([], t) && !CheckLoops([], t) && Dependable(t)
    ensures Means([], t, s, i, r)
  {
    OpenCallsNowhere(t);
    var owner := TNot(t);
    assert owner.p == t;
    var fuel := MatchEnds([], t, owner, false, 0, false, s, i);
    r := Eval([], t, s, i, fuel).value;
  }

  lemma {:induction false} OpenCallsNowhere(t: Tree)
    requires Verified([], t)
    ensures Closed(t) && CallsUsed([], t)
    decreases t
  {
    match t
    case TRep(p) => OpenCallsNowhere(p);
    case TNot(p) => OpenCallsNowhere(p);
    case TAnd(p) => OpenCallsNowhere(p);
    case TBehind(_, p) => OpenCallsNowhere(p);
    case TCapture(_, p) => OpenCallsNowhere(p);
    case TSeq(p1, p2) =>
      OpenCallsNowhere(p1);
      OpenCallsNowhere(p2);
    case TChoice(p1, p2) =>
      OpenCallsNowhere(p1);
      OpenCallsNowhere(p2);
    case _ =>
  }

  // ---------- what the checks let through ----------

  /** On the way of VerifyRule no sub-grammar that consumes is reached when a match may already have got past. */
  predicate NbKept(g: Rules, t: Tree, budget: nat, nb: bool)
    decreases budget, t
  {
    match t
    case TNot(p) => NbKept(g, p, budget, true)
    case TAnd(p) => NbKept(g, p, budget, true)
    case TRep(p) => NbKept(g, p, budget, true)
    case TCapture(_, p) => NbKept(g, p, budget, nb)
    case TCall(k) => budget > 0 && k < |g| ==> NbKept(g, g[k], budget - 1, nb)
    case TSeq(p1, p2) =>
      NbKept(g, p1, budget, false) && (VerifyRule(g, p1, budget, false) == Passes(true) ==> NbKept(g, p2, budget, nb))
    case TChoice(p1, p2) =>
      NbKept(g, p1, budget, nb) &&
      (VerifyRule(g, p1, budget, nb).Passes? ==> NbKept(g, p2, budget, VerifyRule(g, p1, budget, nb).nb))
    case TGrammar(_) => nb ==> Nullable(g, t, Plenty(g, t))
    case _ => true
  }

  /** Then nothing is forgotten. */
  lemma {:induction false} ChecksAgree(g: Rules, t: Tree, budget: nat, nb: bool)
    requires NbKept(g, t, budget, nb)
    ensures VerifyRule(g, t, budget, nb) == VerifyFully(g, t, budget, nb)
    decreases budget, t
  {
    match t
    case TNot(p) => ChecksAgree(g, p, budget, true);
    case TAnd(p) => ChecksAgree(g, p, budget, true);
    case TRep(p) => ChecksAgree(g, p, budget, true);
    case TCapture(_, p) => ChecksAgree(g, p, budget, nb);
    case TCall(k) => if budget > 0 && k < |g| { ChecksAgree(g, g[k], budget - 1, nb); }
    case TSeq(p1, p2) =>
      ChecksAgree(g, p1, budget, false);
      if VerifyRule(g, p1, budget, false) == Passes(true) { ChecksAgree(g, p2, budget, nb); }
    case TChoice(p1, p2) =>
      ChecksAgree(g, p1, budget, nb);
      if VerifyRule(g, p1, budget, nb).Passes? { ChecksAgree(g, p2, budget, VerifyRule(g, p1, budget, nb).nb); }
    case _ =>
  }

  /** In any case VerifyRule errs on one side only: it follows fewer calls, and admits less often that a match may
      get past. */
  lemma {:induction false} ForgetfulAcceptsMore(g: Rules, t: Tree, budget: nat, nb: bool, nb': bool)
    requires VerifyFully(g, t, budget, nb).Passes? && (nb' ==> nb)
    ensures VerifyRule(g, t, budget, nb').Passes?
    ensures VerifyRule(g, t, budget, nb').nb ==> VerifyFully(g, t, budget, nb).nb
    decreases budget, t
  {
    match t
    case TNot(p) => ForgetfulAcceptsMore(g, p, budget, true, true);
    case TAnd(p) => ForgetfulAcceptsMore(g, p, budget, true, true);
    case TRep(p) => ForgetfulAcceptsMore(g, p, budget, true, true);
    case TCapture(_, p) => ForgetfulAcceptsMore(g, p, budget, nb, nb');
    case TCall(k) => ForgetfulAcceptsMore(g, g[k], budget - 1, nb, nb');
    case TSeq(p1, p2) =>
      ForgetfulAcceptsMore(g, p1, budget, false, false);
      if VerifyFully(g, p1, budget, false).nb { ForgetfulAcceptsMore(g, p2, budget, nb, nb'); }
      if VerifyFully(g, p1, budget, false) == Passes(true) && nb { AccumulatorStays(g, p2, budget); }
    case TChoice(p1, p2) =>
      ForgetfulAcceptsMore(g, p1, budget, nb, nb');
      ForgetfulAcceptsMore(g, p2, budget, VerifyFully(g, p1, budget, nb).nb, VerifyRule(g, p1, budget, nb').nb);
    case _ =>
  }

  /** A rule that looks behind at its own failure. */
  function BehindItself(): Rules { [TBehind(0, TNot(TCall(0)))] }

  /** A rule that repeats a sub-grammar and then calls itself. */
  function RepeatThenCall(c: Byte): Rules { [TSeq(TRep(TGrammar([TChar(c)])), TCall(0))] }

  lemma {:induction false} BehindItselfLoops(s: Input, i: nat, fuel: nat)
    requires i <= |s|
    ensures Eval(BehindItself(), BehindItself()[0], s, i, fuel).None?
    decreases fuel
  {
    var rs := BehindItself();
    if fuel > 0 { BehindItselfLoops(s, i, fuel - 1); }
    assert Eval(rs, TCall(0), s, i, fuel).None?;
    assert Eval(rs, TNot(TCall(0)), s, i - 0, fuel).None?;
  }

  /** Accepted, well formed, and yet without a meaning on any input. */
  lemma BehindBlindSpot(s: Input, i: nat, r: Result)
    requires i <= |s|
    ensures Verified([], TGrammar(BehindItself())) && !CheckLoops([], TGrammar(BehindItself()))
    ensures FixedLen([], TNot(TCall(0))) == 0
    ensures !Means([], TGrammar(BehindItself()), s, i, r)
  {
    var rs := BehindItself();
    assert VerifyRule(rs, rs[0], MAX_RULES, false) == Passes(true);
    forall fuel: nat ensures Eval([], TGrammar(rs), s, i, fuel) != Some(r) { BehindItselfLoops(s, i, fuel); }
  }

  lemma {:induction false} RepeatThenCallLoops(c: Byte, s: Input, i: nat, fuel: nat)
    requires i <= |s|
    ensures Eval(RepeatThenCall(c), RepeatThenCall(c)[0], s, i, fuel).None?
    decreases fuel
  {
    var rs := RepeatThenCall(c);
    var rep := rs[0].p1;
    var r := Eval(rs, rep, s, i, fuel);
    if r.Some? {
      NoFailSucceeds(rs, rep, s, i, fuel, 0);
      if fuel > 0 { RepeatThenCallLoops(c, s, r.value.end, fuel - 1); }
      assert Eval(rs, TCall(0), s, r.value.end, fuel).None?;
    }
  }

  lemma NotNullableGrammar(g: Rules, rs: Rules, depth: nat)
    requires |rs| == 1 && rs[0].TChar?
    ensures !Nullable(g, TGrammar(rs), depth)
  {
    assert !CheckAux(rs, rs[0], false, depth);
  }

  /** Accepted, well formed, and yet without a meaning on any input. */
  lemma SubGrammarBlindSpot(c: Byte, s: Input, i: nat, r: Result)
    requires i <= |s|
    ensures Verified([], TGrammar(RepeatThenCall(c))) && !CheckLoops([], TGrammar(RepeatThenCall(c)))
    ensures !Means([], TGrammar(RepeatThenCall(c)), s, i, r)
  {
    var rs, sub := RepeatThenCall(c), [TChar(c)];
    assert !Nullable(sub, sub[0], Plenty(sub, sub[0])) && VerifyRule(sub, sub[0], MAX_RULES, false) == Passes(false);
    NotNullableGrammar(rs, sub, Plenty(rs, TGrammar(sub)));
    assert VerifyRule(rs, TGrammar(sub), MAX_RULES, true) == Passes(false);
    assert VerifyRule(rs, rs[0].p1, MAX_RULES, false) == Passes(false);
    assert VerifyRule(rs, rs[0], MAX_RULES, false) == Passes(false);
    assert !CheckLoops(rs, TGrammar(sub));
    assert !CheckLoops(rs, rs[0].p1) && !CheckLoops(rs, rs[0].p2);
    assert !CheckLoops(rs, rs[0]);
    assert VerifyGrammar(sub) && VerifyGrammar(rs);
    assert Verified(rs, TGrammar(sub));
    forall fuel: nat ensures Eval([], TGrammar(rs), s, i, fuel) != Some(r) { RepeatThenCallLoops(c, s, i, fuel); }
  }

  /** A sub-grammar that is repeated does no harm when no call comes behind it: such a grammar is dependable, though
      VerifyRule forgets something on its way. */
  lemma HarmlessRepetition(c: Byte, d: Byte)
    ensures var t := TGrammar([TSeq(TRep(TGrammar([TChar(c)])), TChar(d))]);
            Dependable(t) && !NbKept(t.rules, t.rules[0], MAX_RULES, false)
  {
    var sub, rs := [TChar(c)], [TSeq(TRep(TGrammar([TChar(c)])), TChar(d))];
    NotNullableGrammar(rs, sub, Plenty(rs, TGrammar(sub)));
    assert VerifyFully(sub, sub[0], MAX_RULES, false) == Passes(false) && Dependable(sub[0]);
    assert VerifyFully(rs, TGrammar(sub), MAX_RULES, true) == Passes(true);
    assert VerifyFully(rs, rs[0].p1, MAX_RULES, false) == Passes(true);
    assert VerifyFully(rs, rs[0], MAX_RULES, false) == Passes(false);
    assert Dependable(TGrammar(sub)) && Dependable(rs[0].p1) && Dependable(rs[0].p2) && Dependable(rs[0]);
    assert !NbKept(rs, TGrammar(sub), MAX_RULES, true) && !NbKept(rs, rs[0].p1, MAX_RULES, false);
  }
}
