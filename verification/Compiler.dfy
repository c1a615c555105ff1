/** The whole compiler: what running the compiled pattern means. */
module Compiler {
  import opened Peg
  import opened Analysis
  import opened Machine
  import opened CodeGen
  import opened Continuations
  import opened Linking
  import opened Correctness
  import opened Peephole
  import opened Verification
  import opened JumpChains
  import opened Shortcuts

  /** The code before the jump optimiser. */
  function Assemble(t: Tree, depth: nat): seq<Instr> {
    Gen([], t, false, None, FULL, depth, true) + [IEnd]
  }

  function Compile(t: Tree, depth: nat): seq<Instr> { Optimize(Assemble(t, depth)) }

  /** What the machine reports for a meaning: the end and the flat capture list, or giving up. */
  function Report(r: Result): Outcome {
    match r
    case Fail => GiveUp
    case Ok(end, caps) => Accept(end, Flatten(caps))
  }

  lemma AssembleWhole(t: Tree, depth: nat)
    requires WellFormed([], t, depth)
    ensures Whole(Assemble(t, depth), 0)
  {
    GenWhole([], t, false, None, FULL, depth, true);
    WholeOne(IEnd, 0);
    WholeConcat(Gen([], t, false, None, FULL, depth, true), [IEnd], 0);
  }

  /** The code computes the meaning before it is optimised. */
  lemma AssembledReports(t: Tree, depth: nat, s: Input, start: nat, fuel: nat)
    requires WellFormed([], t, depth) && start <= |s| && Eval([], t, s, start, fuel).Some?
    requires Unfired([], t, false, None, FULL, depth)
    ensures Evals(Assemble(t, depth), s, Initial(start), Report(Eval([], t, s, start, fuel).value))
  {
    hide WellFormed, Unfired;
    var code, block := Assemble(t, depth), Gen([], t, false, None, FULL, depth, true);
    var c, r := Ctx(code, s), Eval([], t, s, start, fuel).value;
    var x := Site(c, [], [], depth, false);
    PlainIff([], t, false, None, FULL, depth);
    AssembleWhole(t, depth);
    WholeStands(c, block);
    NoCalls(x, fuel);
    GenBehaves(x, t, false, None, FULL, 0, start, fuel);
    var stk, o := Push(Choice(GIVE_UP, start, []), Bottom), Report(r);
    if r.Ok? {
      var none: seq<Cap> := [];
      assert none + Flatten(r.caps) == Flatten(r.caps);
      assert Run(code, s, State(|block|, r.end, stk, Flatten(r.caps)), 1) == Some(o);
    } else {
      assert Run(code, s, State(GIVE_UP, start, Bottom, []), 1) == Some(o);
    }
    assert OptHolds(false, c, FULL, |block|, stk) && Kont(c, r, |block|, FULL, stk, [], o);
  }

  lemma {:induction false} NoCalls(x: Site, fuel: nat)
    requires x.g == [] && x.env == []
    ensures CallsOk(x, fuel)
    decreases fuel
  {
    if fuel > 0 {
      NoCalls(x, fuel - 1);
      var less := fuel - 1;
      forall k: nat, i: nat ensures RuleOk(x, k, i, less) {
      }
    }
  }

  /** Running the compiled pattern reports the meaning of the pattern: exactly its end position and exactly
      the flat list of its captures, or giving up. */
  lemma CompiledReports(t: Tree, depth: nat, s: Input, start: nat, r: Result)
    requires WellFormed([], t, depth) && start <= |s| && Means([], t, s, start, r)
    requires Unfired([], t, false, None, FULL, depth)
    ensures Evals(Compile(t, depth), s, Initial(start), Report(r))
  {
    var fuel: nat :| Eval([], t, s, start, fuel) == Some(r);
    AssembledReports(t, depth, s, start, fuel);
    AssembleWhole(t, depth);
    OptimizeKeepsRuns(Assemble(t, depth), 0, s, Initial(start), Report(r));
  }

  /** On accepted patterns every run ends, never stuck, and its outcome is `o` iff `o` reports the meaning. */
  lemma CompilerCorrect(t: Tree, depth: nat, s: Input, start: nat, o: Outcome)
    requires WellFormed([], t, depth) && Verified([], t) && !CheckLoops([], t) && Dependable(t) && start <= |s|
    requires Unfired([], t, false, None, FULL, depth)
    ensures Evals(Compile(t, depth), s, Initial(start), o) <==> exists r :: Means([], t, s, start, r) && o == Report(r)
    ensures exists o' :: Evals(Compile(t, depth), s, Initial(start), o')
  {
    var r := AcceptedTerminates(t, s, start);
    CompiledReports(t, depth, s, start, r);
    if Evals(Compile(t, depth), s, Initial(start), o) {
      EvalsUnique(Compile(t, depth), s, Initial(start), o, Report(r));
    }
    forall r' | Means([], t, s, start, r') ensures r' == r { MeansUnique([], t, s, start, r, r'); }
  }

  /** In the code of an accepted pattern every chain of jumps ends, before and after optimisation. */
  lemma CompiledChainsEnd(t: Tree, depth: nat)
    requires WellFormed([], t, depth) && Verified([], t) && Dependable(t)
    ensures ChainsEnd(Assemble(t, depth), 0) && LabelsInside(Assemble(t, depth))
    ensures ChainsEnd(Compile(t, depth), 0)
  {
    hide Gen, Halts, Whole, WellFormed, Verified, Dependable;
    var code, block := Assemble(t, depth), Gen([], t, false, None, FULL, depth, true);
    var x := Site(Ctx(code, []), [], [], depth, true);
    AssembleWhole(t, depth);
    WholeStands(x.c, block);
    OpenCallsNowhere(t);
    HaltsHere(code, |block|);
    SoundIntro(x, t);
    JumpsEnd(x, t, false, None, FULL, 0, |block|);
    forall q: nat | q < |code| ensures Halts(code, q) && LabelInside(code, q) {
      if q < |block| { assert WordOk(code, q); }
    }
    WholePadded(code, 0);
    OptimizeFromKeepsChains(code, 0);
  }

  // ---------- rule numbers ----------

  /** A grammar of 257 rules: the first matches byte 1 and calls rule `k`, the others match nothing. */
  function ManyRules(k: nat): Rules {
    [TSeq(TChar(1), TCall(k))] + seq(256, _ => TTrue)
  }

  /** Rule 256 does not fit the field that holds a rule's number, and the call goes to rule 0. */
  lemma TruncatedCall(depth: nat)
    ensures GenGrammar(TGrammar(ManyRules(256)), depth, true) == GenGrammar(TGrammar(ManyRules(0)), depth, true)
  {
    var a, b := ManyRules(256), ManyRules(0);
    assert a[0].p1 == b[0].p1 == TChar(1);
    assert Gen(a, TCall(256), false, None, FULL, depth, true) == Gen(b, TCall(0), false, None, FULL, depth, true);
    assert GenSeq(a, a[0], false, None, FULL, depth, true) == GenSeq(b, b[0], false, None, FULL, depth, true);
    forall k: nat | k < 257 ensures RuleCodes(a, depth, true)[k] == RuleCodes(b, depth, true)[k] {
      assert k > 0 ==> a[k] == b[k] == TTrue;
    }
    assert RuleCodes(a, depth, true) == RuleCodes(b, depth, true);
  }

  lemma ManyRulesAccepted(k: nat)
    requires k < 257
    ensures Verified([], TGrammar(ManyRules(k))) && !CheckLoops([], TGrammar(ManyRules(k)))
  {
    var rs := ManyRules(k);
    forall m: nat | m < |rs|
      ensures VerifyRule(rs, rs[m], MAX_RULES, false).Passes? && !CheckLoops(rs, rs[m]) && Verified(rs, rs[m])
    {
      assert m > 0 ==> rs[m] == TTrue;
      if m == 0 {
        assert rs[0] == TSeq(TChar(1), TCall(k)) && VerifyRule(rs, TChar(1), MAX_RULES, false) == Passes(false);
        assert Verified(rs, TChar(1)) && Verified(rs, TCall(k));
        assert !CheckLoops(rs, TChar(1)) && !CheckLoops(rs, TCall(k));
      }
    }
    assert VerifyGrammar(rs);
  }

  /** So the meaning of a grammar with more than 256 rules may be lost: here an accepted pattern matches the input,
      and its code gives up.  `WellFormed` asks that called rules have numbers below 256. */
  lemma RuleNumberTruncated(depth: nat)
    ensures Verified([], TGrammar(ManyRules(256))) && !CheckLoops([], TGrammar(ManyRules(256)))
    ensures |ManyRules(256)| <= MAX_RULES
    ensures Means([], TGrammar(ManyRules(256)), [1], 0, Ok(1, []))
    ensures Evals(Compile(TGrammar(ManyRules(256)), depth), [1], Initial(0), GiveUp)
  {
    hide Verified, CheckLoops, Evals, Optimize;
    var a, b, s: Input := ManyRules(256), ManyRules(0), [1];
    var none: seq<CapTree> := [];
    assert none + none == none;
    assert a[256] == TTrue && a[0] == TSeq(TChar(1), TCall(256)) && b[0] == TSeq(TChar(1), TCall(0));
    assert Eval(a, TCall(256), s, 1, 1) == Some(Ok(1, []));
    assert Eval([], TGrammar(a), s, 0, 1) == Some(Ok(1, []));
    assert Eval(b, TCall(0), s, 1, 1) == Some(Fail);
    assert Eval([], TGrammar(b), s, 0, 1) == Some(Fail);
    TruncatedCall(depth);
    ManyRulesAccepted(256);
    forall k | 0 <= k < |b| ensures WellFormed(b, b[k], depth) {
      assert k > 0 ==> b[k] == TTrue;
    }
    CompiledReports(TGrammar(b), depth, s, 0, Fail);
  }

  // ---------- sets taken for tests ----------

  lemma GuardedAccepted(p: Tree, depth: nat)
    requires p.TSet? || p.TAny?
    ensures var t := Guarded(p); WellFormed([], t, depth) && Verified([], t) && !CheckLoops([], t) && Dependable(t)
  {
    var t := Guarded(p);
    var others := TSet(FULL - ZERO_ONE);
    var no := TNot(others);
    assert WellFormed([], others, depth) && Verified([], others) && !CheckLoops([], others) && Dependable(others);
    assert t.p1 == TSeq(no, p) && WellFormed([], no, depth);
    assert Verified([], no) && !CheckLoops([], no) && Dependable(no);
    assert WellFormed([], p, depth) && Verified([], p) && !CheckLoops([], p) && Dependable(p);
    assert WellFormed([], t.p1, depth) && Verified([], t.p1) && !CheckLoops([], t.p1) && Dependable(t.p1);
  }

  lemma GuardedMeans()
    ensures Means([], Guarded(TSet({32, 33})), [0], 0, Fail) && Means([], Guarded(TAny), [0], 0, Ok(1, []))
  {
    var s: Input, none: seq<CapTree> := [0], [];
    var t, t', no := Guarded(TSet({32, 33})), Guarded(TAny), TNot(TSet(FULL - ZERO_ONE));
    assert none + none == none;
    assert Eval([], no, s, 0, 0) == Some(Ok(0, [])) && Eval([], TChar(97), s, 0, 0) == Some(Fail);
    assert Eval([], t.p1, s, 0, 0) == Some(Fail) && Eval([], t'.p1, s, 0, 0) == Some(Ok(1, []));
    assert Eval([], t, s, 0, 0) == Some(Fail) && Eval([], t', s, 0, 0) == Some(Ok(1, []));
  }

  /** An accepted pattern that fails on byte 0, and whose code matches it: a set behind a test is taken for the set of
      the test, and any byte is let through. */
  lemma ShortcutMisfires(depth: nat)
    ensures var t := Guarded(TSet({32, 33}));
            WellFormed([], t, depth) && Verified([], t) && !CheckLoops([], t) && Dependable(t) &&
            Means([], t, [0], 0, Fail) && Evals(Compile(t, depth), [0], Initial(0), Accept(1, []))
  {
    hide Guarded, WellFormed, Verified, CheckLoops, Dependable, Means, Gen, Unfired, Evals, Optimize;
    GuardedAccepted(TSet({32, 33}), depth);
    GuardedAccepted(TAny, depth);
    GuardedMeans();
    GuardedCode(depth);
    assert Compile(Guarded(TSet({32, 33})), depth) == Compile(Guarded(TAny), depth);
    CompiledReports(Guarded(TAny), depth, [0], 0, Ok(1, []));
  }

  // ---------- patterns on which the chase never ends ----------

  /** A rule that matches nothing, over and over, and then itself. */
  function Endless(): Rules { [TSeq(TRep(TGrammar([TFalse])), TCall(0))] }

  lemma FailingRuleCode(depth: nat)
    ensures GenGrammar(TGrammar([TFalse]), depth, true) == [ICall(4), IPad, IJmp(4), IPad, IFail, IRet]
  {
    var codes := RuleCodes([TFalse], depth, true);
    assert codes == [[IFail]];
    assert codes[1..] == [] && Bodies(codes) == [IFail] + [IRet] + Bodies([]);
    assert GrammarCode(codes) == [ICall(4), IPad, IJmp(4), IPad, IFail, IRet];
    LinkSkips(GrammarCode(codes), RulePositions(codes), 0, 6);
  }

  lemma NothingStarts(rs: Rules, depth: nat)
    ensures var none := TGrammar([TFalse]);
            GetFirst(rs, none, FULL, depth) == First({}, false) && HeadFail(rs, none, depth)
  {
  }

  /** The loop is skipped by a jump, because nothing can start it, and the call at the end of the rule is a jump too. */
  lemma EndlessCode(depth: nat)
    ensures var code := GenGrammar(TGrammar(Endless()), depth, true);
            |code| == 17 && code[4] == IJmp(10) && code[14] == IJmp(-10)
  {
    hide GetFirst, HeadFail, Link, RulePositions;
    var rs, none := Endless(), TGrammar([TFalse]);
    FailingRuleCode(depth);
    NothingStarts(rs, depth);
    var inner := Gen(rs, none, false, None, FULL, depth, true);
    assert inner == GenGrammar(none, depth, true);
    var loop := TestedRep({}, inner);
    var fl := SeqFollow(rs, TRep(none), TCall(0), FULL, depth);
    assert GenRep(rs, TRep(none), false, fl, depth, true) == loop;
    assert loop == [IJmp(10), IPad] + inner + [IJmp(-8), IPad];
    var body := loop + [IOpenCall(0), IPad];
    assert GenSeq(rs, rs[0], false, None, FULL, depth, true) == body;
    var codes := RuleCodes(rs, depth, true);
    assert codes == [body];
    assert codes[1..] == [] && Bodies(codes) == body + [IRet] + Bodies([]);
    EndlessLinked(body, codes);
  }

  lemma EndlessLinked(body: seq<Instr>, codes: seq<seq<Instr>>)
    requires codes == [body] && Bodies(codes) == body + [IRet] && |body| == 12
    requires forall q :: 0 <= q < 12 && q != 10 ==> !body[q].IOpenCall?
    requires body[0] == IJmp(10) && body[10] == IOpenCall(0)
    ensures var code := Link(GrammarCode(codes), RulePositions(codes));
            |code| == 17 && code[4] == IJmp(10) && code[14] == IJmp(-10)
  {
    var code, positions := GrammarCode(codes), RulePositions(codes);
    assert code == [ICall(4), IPad, IJmp(15), IPad] + body + [IRet];
    assert codes[..0] == [] && Bodies([]) == [] && positions == [4];
    LinkSkips(code, positions, 0, 14);
    assert FinalTarget(code, 16, 17) == 16 && TailCall(code, 14);
    var linked := LinkAt(code, positions, 14);
    assert linked == code[14 := IJmp(-10)];
    LinkSkips(linked, positions, 15, 17);
  }

  lemma {:induction false} RoundAndRound(code: seq<Instr>, p: int, q: int, n: nat)
    requires JumpAt(code, p) && JumpAt(code, q) && p + code[p].off == q && q + code[q].off == p
    ensures !EndsAfter(code, p, n)
    decreases n
  {
    if n > 0 { RoundAndRound(code, q, p, n - 1); }
  }

  /** An accepted grammar in whose code a chain of jumps goes round for ever, so that the chase for its end does, too.
      It is not dependable: the loop over the sub-grammar hides the left recursion. */
  lemma ChaseNeverEnds(depth: nat)
    ensures var t := TGrammar(Endless());
            WellFormed([], t, depth) && Verified([], t) && !CheckLoops([], t) && !ChainsEnd(Assemble(t, depth), 0)
  {
    hide GenGrammar, Verified, CheckLoops, Optimize, Link;
    var t, rs := TGrammar(Endless()), Endless();
    var code := Assemble(t, depth);
    EndlessCode(depth);
    assert Gen([], t, false, None, FULL, depth, true) == GenGrammar(t, depth, true);
    assert code[4] == IJmp(10) && code[14] == IJmp(-10);
    if Halts(code, 4) {
      var n: nat :| EndsAfter(code, 4, n);
      RoundAndRound(code, 4, 14, n);
      assert false;
    }
    assert !ChainsEnd(code, 0);
    EndlessAccepted();
  }

  lemma EndlessAccepted()
    ensures Verified([], TGrammar(Endless())) && !CheckLoops([], TGrammar(Endless()))
  {
    var rs, none := Endless(), TGrammar([TFalse]);
    assert Verified([TFalse], TFalse) && !CheckLoops([TFalse], TFalse) && VerifyGrammar([TFalse]);
    assert Verified(rs, none) && Verified(rs, TRep(none)) && Verified(rs, TCall(0)) && Verified(rs, rs[0]);
    assert VerifyRule(rs, TRep(none), MAX_RULES, false) == Passes(false);
    assert VerifyRule(rs, rs[0], MAX_RULES, false) == Passes(false);
    assert !CheckLoops(rs, rs[0]);
    assert VerifyGrammar(rs);
  }
}
