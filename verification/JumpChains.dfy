/** Chains of jumps in generated code end, inside the code: the chase for a final target terminates. */
module JumpChains {
  // Chains can only run on through code that may be passed without consuming anything, and from there through
  // tail calls into other rules; that is left recursion, which verification excludes.

  import opened Peg
  import opened Analysis
  import opened Machine
  import opened CodeGen
  import opened Continuations
  import opened Layout
  import opened Linking
  import opened Correctness
  import opened Peephole
  import opened Verification

  predicate JumpAt(code: seq<Instr>, q: int) { 0 <= q < |code| && code[q].IJmp? }

  /** The chain of jumps from `q` ends after exactly `n` of them, at a word of the code. */
  predicate EndsAfter(code: seq<Instr>, q: int, n: nat)
    decreases n
  {
    if JumpAt(code, q) then n > 0 && EndsAfter(code, q + code[q].off, n - 1) else n == 0 && 0 <= q < |code|
  }

  ghost predicate Halts(code: seq<Instr>, q: int) { exists n: nat :: EndsAfter(code, q, n) }

  lemma HaltsHere(code: seq<Instr>, q: int)
    requires 0 <= q < |code| && !code[q].IJmp?
    ensures Halts(code, q)
  {
    assert EndsAfter(code, q, 0);
  }

  lemma HaltsNext(code: seq<Instr>, q: int)
    requires JumpAt(code, q) && Halts(code, q + code[q].off)
    ensures Halts(code, q)
  {
    var n: nat :| EndsAfter(code, q + code[q].off, n);
    assert EndsAfter(code, q, n + 1);
  }

  // ---------- the bound of FinalTarget is no restriction ----------

  lemma {:induction false} EndsAfterOnce(code: seq<Instr>, q: int, n: nat, m: nat)
    requires EndsAfter(code, q, n) && EndsAfter(code, q, m)
    ensures n == m
    decreases n
  {
    if JumpAt(code, q) { EndsAfterOnce(code, q + code[q].off, n - 1, m - 1); }
  }

  ghost predicate EndsWithin(code: seq<Instr>, q: int, n: nat) { exists m: nat | m <= n :: EndsAfter(code, q, m) }

  /** The jumps of a chain that ends stand at different addresses. */
  lemma {:induction false} ChainVisits(code: seq<Instr>, q: int, n: nat) returns (visited: set<int>)
    requires EndsAfter(code, q, n)
    ensures |visited| == n && forall p | p in visited :: 0 <= p < |code| && EndsWithin(code, p, n)
    decreases n
  {
    if n == 0 {
      visited := {};
    } else {
      var rest := ChainVisits(code, q + code[q].off, n - 1);
      if q in rest {
        var m: nat :| m <= n - 1 && EndsAfter(code, q, m);
        EndsAfterOnce(code, q, n, m);
      }
      visited := rest + {q};
      forall p | p in visited ensures 0 <= p < |code| && EndsWithin(code, p, n) {
        if p in rest {
          var m: nat :| m <= n - 1 && EndsAfter(code, p, m);
        } else {
          assert EndsAfter(code, p, n);
        }
      }
    }
  }

  function Below(n: nat): (r: set<int>)
    ensures |r| == n && forall p :: p in r <==> 0 <= p < n
  {
    if n == 0 then {} else Below(n - 1) + {n - 1}
  }

  lemma SubsetSize(a: set<int>, b: set<int>)
    requires a <= b
    ensures |a| <= |b|
  {
    var rest := b - a;
    assert a + rest == b && a * rest == {};
    assert |a + rest| + |a * rest| == |a| + |rest|;
  }

  /** Once a chain has ended, looking for more jumps changes nothing. */
  lemma {:induction false} FinalTargetStable(code: seq<Instr>, q: int, n: nat, k: nat)
    requires EndsAfter(code, q, n) && n <= k
    ensures FinalTarget(code, q, k) == FinalTarget(code, q, n)
    decreases n
  {
    if JumpAt(code, q) { FinalTargetStable(code, q + code[q].off, n - 1, k - 1); }
  }

  lemma {:induction false} FinalTargetEnds(code: seq<Instr>, q: int, n: nat, k: nat)
    requires EndsAfter(code, q, n) && n <= k
    ensures 0 <= FinalTarget(code, q, k) < |code| && !code[FinalTarget(code, q, k)].IJmp?
    decreases n
  {
    if JumpAt(code, q) { FinalTargetEnds(code, q + code[q].off, n - 1, k - 1); }
  }

  /** Where chains end at all, cutting them after as many jumps as there are words loses nothing. */
  lemma FinalTargetFinal(code: seq<Instr>, q: int)
    requires Halts(code, q)
    ensures forall n: nat | EndsAfter(code, q, n) :: n <= |code|
    ensures 0 <= FinalTarget(code, q, |code|) < |code| && !code[FinalTarget(code, q, |code|)].IJmp?
  {
    var n: nat :| EndsAfter(code, q, n);
    var visited := ChainVisits(code, q, n);
    SubsetSize(visited, Below(|code|));
    FinalTargetEnds(code, q, n, |code|);
    forall m: nat | EndsAfter(code, q, m) ensures m <= |code| { EndsAfterOnce(code, q, n, m); }
  }

  /** A chain of jumps inside code that stands behind other code. */
  lemma {:induction false} ShiftChain(before: seq<Instr>, code: seq<Instr>, q: int, n: nat)
    requires EndsAfter(code, q, n)
    ensures EndsAfter(before + code, |before| + q, n)
    ensures FinalTarget(before + code, |before| + q, n) == |before| + FinalTarget(code, q, n)
    decreases n
  {
    assert 0 <= q < |code| && (before + code)[|before| + q] == code[q];
    if JumpAt(code, q) { ShiftChain(before, code, q + code[q].off, n - 1); }
  }

  lemma ShiftedTarget(before: seq<Instr>, code: seq<Instr>, q: int)
    requires Halts(code, q)
    ensures Halts(before + code, |before| + q)
    ensures FinalTarget(before + code, |before| + q, |before + code|) == |before| + FinalTarget(code, q, |code|)
  {
    var n: nat :| EndsAfter(code, q, n);
    FinalTargetFinal(code, q);
    ShiftChain(before, code, q, n);
    FinalTargetStable(code, q, n, |code|);
    FinalTargetStable(before + code, |before| + q, n, |before + code|);
  }

  // ---------- where the code of a tree starts ----------

  /** The rules of a verified grammar, in place. */
  ghost predicate RulesPlaced(x: Site) { RulesAt(x) && RulesSafe(x.g, TGrammar(x.g)) }

  /** What is known of a tree whose code is looked at: its calls name verified rules, its look-behinds have
      none, and its sub-grammars are well formed and verified. */
  ghost predicate Sound(x: Site, t: Tree)
    decreases t
  {
    match t
    case TCall(k) => k < |x.g| && k < RULE_FIELD && Used(x.g, k)
    case TGrammar(_) => WellFormed([], t, x.depth) && Verified([], t) && Dependable(t)
    case TBehind(_, p) => Closed(p) && Sound(x, p)
    case TRep(p) => Sound(x, p)
    case TNot(p) => Sound(x, p)
    case TAnd(p) => Sound(x, p)
    case TCapture(_, p) => Sound(x, p)
    case TSeq(p1, p2) => Sound(x, p1) && Sound(x, p2)
    case TChoice(p1, p2) => Sound(x, p1) && Sound(x, p2)
    case _ => true
  }

  lemma {:induction false} SoundIntro(x: Site, t: Tree)
    requires WellFormed(x.g, t, x.depth) && Verified(x.g, t) && Dependable(t) && CallsUsed(x.g, t)
    ensures Sound(x, t)
    decreases t
  {
    match t
    case TRep(p) => SoundIntro(x, p);
    case TNot(p) => SoundIntro(x, p);
    case TAnd(p) => SoundIntro(x, p);
    case TBehind(_, p) => SoundIntro(x, p);
    case TCapture(_, p) => SoundIntro(x, p);
    case TSeq(p1, p2) =>
      SoundIntro(x, p1);
      SoundIntro(x, p2);
    case TChoice(p1, p2) =>
      SoundIntro(x, p1);
      SoundIntro(x, p2);
    case _ =>
  }

  /** The chain behind the code of `t` may be relied on: always for a pattern without calls, and otherwise
      where verification says that `t` may be passed. */
  ghost predicate EndReliable(x: Site, t: Tree, end: int, budget: nat, nb: bool) {
    (Closed(t) && Halts(x.c.code, end)) ||
    (VerifyFully(x.g, t, budget, nb).Passes? &&
     (VerifyFully(x.g, t, budget, nb).nb ==> Halts(x.c.code, end)))
  }

  /** A test is a jump only if its set is empty. */
  lemma TestHalts(c: Ctx, pc: int, cs: set<Byte>, yes: int, no: int)
    requires TestAt(c, pc, cs, yes, no) && (cs == {} ==> Halts(c.code, no))
    ensures Halts(c.code, pc)
  {
    if cs == {} { HaltsNext(c.code, pc); } else { HaltsHere(c.code, pc); }
  }

  lemma GuardHalts(c: Ctx, pc: int, f: First, enter: int, skip: int)
    requires GuardAt(c, pc, f, enter, skip) && Halts(c.code, enter) && Halts(c.code, skip)
    ensures Halts(c.code, pc)
  {
    if !f.e { TestHalts(c, pc, f.cs, enter, skip); }
  }

  /** The chain of jumps from the start of a tree's code ends. */
  lemma {:induction false} StartHalts(
    x: Site, t: Tree, opt: bool, tt: Option<Known>, fl: set<Byte>, pc: int, end: int, budget: nat, nb: bool)
    requires Sound(x, t) && RulesPlaced(x) && GenAt(x, t, opt, tt, fl, pc, end) && EndReliable(x, t, end, budget, nb)
    ensures Halts(x.c.code, pc)
    decreases budget, t, 1
  {
    match t
    case TTrue =>
    case TSeq(_, _) => SequenceStartHalts(x, t, opt, tt, fl, pc, end, budget, nb);
    case TChoice(_, _) => ChoiceStartHalts(x, t, opt, tt, fl, pc, end, budget, nb);
    case TRep(_) => RepStartHalts(x, t, opt, tt, fl, pc, end, budget, nb);
    case TNot(_) => NotStartHalts(x, t, opt, tt, fl, pc, end, budget, nb);
    case TAnd(_) => AndStartHalts(x, t, opt, tt, fl, pc, end, budget, nb);
    case TBehind(n, p) =>
      var body := Gen(x.g, p, false, None, FULL, x.depth, x.short);
      var start := BehindLayout(x.c, pc, n, body, x.env);
      if n > 0 { HaltsHere(x.c.code, pc); } else { StartHalts(x, p, false, None, FULL, start, end, budget, nb); }
    case TCapture(key, p) =>
      var _ := CaptureLayout(x.c, pc, key, Gen(x.g, p, false, tt, fl, x.depth, x.short), x.env);
      HaltsHere(x.c.code, pc);
    case TConstCapture(key, value) =>
      ConstCaptureLayout(x.c, pc, key, value, x.env);
      HaltsHere(x.c.code, pc);
    case TGrammar(_) =>
      assert Gen(x.g, t, opt, tt, fl, x.depth, x.short) == GenGrammar(t, x.depth, x.short);
      var _ := GrammarInPlace(x, t, pc);
      HaltsHere(x.c.code, pc);
    case TCall(k) => CallStartHalts(x, t, opt, tt, fl, pc, end, budget, nb);
    case TChar(b) => LeafStartHalts(x, CharInstr(b, tt), pc);
    case TSet(cs) => LeafStartHalts(x, CharsetInstr(cs, tt), pc);
    case TAny => LeafStartHalts(x, IAny, pc);
    case TFalse => LeafStartHalts(x, IFail, pc);
  }

  lemma LeafStartHalts(x: Site, ins: Instr, pc: int)
    requires !ins.IJmp? && !ins.IOpenCall?
    requires At(x.c, pc, Emit(ins), x.env) || At(x.c, pc, [ins], x.env)
    ensures Halts(x.c.code, pc)
  {
    if At(x.c, pc, Emit(ins), x.env) { AtEmit(x.c, pc, ins, x.env); } else { AtOne(x.c, pc, ins, x.env); }
    HaltsHere(x.c.code, pc);
  }

  lemma {:induction false} CallStartHalts(
    x: Site, t: Tree, opt: bool, tt: Option<Known>, fl: set<Byte>, pc: int, end: int, budget: nat, nb: bool)
    requires t.TCall?
    requires Sound(x, t) && RulesPlaced(x) && GenAt(x, t, opt, tt, fl, pc, end) && EndReliable(x, t, end, budget, nb)
    ensures Halts(x.c.code, pc)
    decreases budget, t, 0
  {
    var k := t.rule;
    AtWord(x.c, pc, Emit(IOpenCall(k)), 0, x.env);
    if JumpAt(x.c.code, pc) {
      assert RuleAt(x, k) && RuleSafe(x.g, TGrammar(x.g), k);
      SoundIntro(x, x.g[k]);
      RuleStartHalts(x, k, budget - 1, nb);
      HaltsNext(x.c.code, pc);
    } else {
      HaltsHere(x.c.code, pc);
    }
  }

  /** The chain from the start of a rule ends: at the latest with the return behind the rule. */
  lemma {:induction false} RuleStartHalts(x: Site, k: nat, budget: nat, nb: bool)
    requires RulesPlaced(x) && k < |x.g| == |x.env| && RuleAt(x, k) && Sound(x, x.g[k])
    requires VerifyFully(x.g, x.g[k], budget, nb).Passes?
    ensures Halts(x.c.code, x.env[k])
    decreases budget, x.g[k], 2
  {
    var body := Gen(x.g, x.g[k], false, None, FULL, x.depth, x.short);
    var ret := x.env[k] + |body|;
    AtSplit(x.c, x.env[k], body + [IRet], body, [IRet], x.env);
    AtOne(x.c, ret, IRet, x.env);
    HaltsHere(x.c.code, ret);
    StartHalts(x, x.g[k], false, None, FULL, x.env[k], ret, budget, nb);
  }

  lemma {:induction false} SequenceStartHalts(
    x: Site, t: Tree, opt: bool, tt: Option<Known>, fl: set<Byte>, pc: int, end: int, budget: nat, nb: bool)
    requires t.TSeq?
    requires Sound(x, t) && RulesPlaced(x) && EndReliable(x, t, end, budget, nb)
    requires BlockAt(x, GenSeq(x.g, t, opt, tt, fl, x.depth, x.short), pc, end)
    ensures Halts(x.c.code, pc)
    decreases budget, t, 0
  {
    hide At, Halts, GetFirst;
    var TSeq(p1, p2) := t;
    var fl1, tt2 := SeqFollow(x.g, p1, p2, fl, x.depth), SeqTest(x.g, p1, tt);
    var code1, code2 := Gen(x.g, p1, false, tt, fl1, x.depth, x.short), Gen(x.g, p2, opt, tt2, fl, x.depth, x.short);
    AtSplit(x.c, pc, GenSeq(x.g, t, opt, tt, fl, x.depth, x.short), code1, code2, x.env);
    var mid := pc + |code1|;
    if (Closed(t) && Halts(x.c.code, end)) || VerifyFully(x.g, p1, budget, false).nb {
      StartHalts(x, p2, opt, tt2, fl, mid, end, budget, nb);
    }
    StartHalts(x, p1, false, tt, fl1, pc, mid, budget, false);
  }

  lemma ChoiceEnds(x: Site, t: Tree, end: int, budget: nat, nb: bool) returns (nb1: bool)
    requires t.TChoice? && EndReliable(x, t, end, budget, nb)
    ensures EndReliable(x, t.p2, end, budget, nb1)
  {
    nb1 := VerifyFully(x.g, t.p1, budget, nb).Passes? && VerifyFully(x.g, t.p1, budget, nb).nb;
  }

  lemma {:induction false} ChoiceStartHalts(
    x: Site, t: Tree, opt: bool, tt: Option<Known>, fl: set<Byte>, pc: int, end: int, budget: nat, nb: bool)
    requires t.TChoice?
    requires Sound(x, t) && RulesPlaced(x) && EndReliable(x, t, end, budget, nb)
    requires BlockAt(x, GenChoice(x.g, t, opt, fl, x.depth, x.short), pc, end)
    ensures Halts(x.c.code, pc)
    decreases budget, t, 0
  {
    hide At, Halts, GetFirst;
    var nb1 := ChoiceEnds(x, t, end, budget, nb);
    if opt && t.p2.TTrue? && !Deterministic(x.g, t.p1, t.p2, fl, x.depth) {
      ReusedChoiceLayout(x.c, pc, Gen(x.g, t.p1, true, None, FULL, x.depth, x.short), x.env);
      HaltsHere(x.c.code, pc);
    } else {
      var start2 := ChoiceEntry(x, t, opt, fl, pc, end);
      StartHalts(x, t.p2, opt, None, fl, start2, end, budget, nb1);
    }
  }

  /** A choice with code of its own starts with a test or a choice; at most it jumps to the second alternative. */
  lemma ChoiceEntry(x: Site, t: Tree, opt: bool, fl: set<Byte>, pc: int, end: int) returns (start2: int)
    requires t.TChoice? && (Deterministic(x.g, t.p1, t.p2, fl, x.depth) || !(opt && t.p2.TTrue?))
    requires At(x.c, pc, GenChoice(x.g, t, opt, fl, x.depth, x.short), x.env)
    requires end == pc + |GenChoice(x.g, t, opt, fl, x.depth, x.short)|
    ensures GenAt(x, t.p2, opt, None, fl, start2, end)
    ensures Halts(x.c.code, start2) ==> Halts(x.c.code, pc)
  {
    hide At, GenChoice, Halts, GetFirst;
    var f1 := GetFirst(x.g, t.p1, FULL, x.depth);
    if Deterministic(x.g, t.p1, t.p2, fl, x.depth) {
      var start1, mid, end';
      start1, mid, start2, end' := ByteChoiceLayout(x, t, opt, fl, pc);
      if Halts(x.c.code, start2) { TestHalts(x.c, pc, f1.cs, start1, start2); }
    } else {
      var choice, commit, end' := StackChoiceLayout(x, t, opt, fl, pc);
      start2 := commit + 2;
      HaltsHere(x.c.code, choice);
      if Halts(x.c.code, start2) { GuardHalts(x.c, pc, f1, choice, start2); }
    }
  }

  /** A pattern that verification enters with the accumulator set may be passed. */
  lemma EndHalts(x: Site, t: Tree, end: int, budget: nat, nb: bool)
    requires t.TRep? || t.TNot? || t.TAnd?
    requires EndReliable(x, t, end, budget, nb)
    ensures Halts(x.c.code, end) && EndReliable(x, t.p, end, budget, true)
  {
    if !(Closed(t) && Halts(x.c.code, end)) { AccumulatorStays(x.g, t.p, budget); }
  }

  lemma SpanStartHalts(x: Site, t: Tree, opt: bool, fl: set<Byte>, pc: int)
    requires t.TRep? && ToCharset(t.p).Some? && At(x.c, pc, GenRep(x.g, t, opt, fl, x.depth, x.short), x.env)
    ensures Halts(x.c.code, pc)
  {
    LeafStartHalts(x, ISpan(ToCharset(t.p).value), pc);
  }

  lemma RepStartHalts(
    x: Site, t: Tree, opt: bool, tt: Option<Known>, fl: set<Byte>, pc: int, end: int, budget: nat, nb: bool)
    requires t.TRep?
    requires Sound(x, t) && EndReliable(x, t, end, budget, nb)
    requires BlockAt(x, GenRep(x.g, t, opt, fl, x.depth, x.short), pc, end)
    ensures Halts(x.c.code, pc)
  {
    hide At, Halts, EndReliable, GetFirst, Sound, TestAt, GenRep, Gen;
    EndHalts(x, t, end, budget, nb);
    if ToCharset(t.p).Some? {
      SpanStartHalts(x, t, opt, fl, pc);
    } else if DeterministicRep(x.g, t.p, fl, x.depth) {
      var start, back := ByteRepLayout(x, t, opt, fl, pc);
      TestHalts(x.c, pc, GetFirst(x.g, t.p, FULL, x.depth).cs, start, end);
    } else {
      var enter, end' := StackRepLayout(x, t, opt, fl, pc);
      HaltsHere(x.c.code, enter);
      GuardHalts(x.c, pc, GetFirst(x.g, t.p, FULL, x.depth), enter, end);
    }
  }

  lemma NotStartHalts(
    x: Site, t: Tree, opt: bool, tt: Option<Known>, fl: set<Byte>, pc: int, end: int, budget: nat, nb: bool)
    requires t.TNot?
    requires Sound(x, t) && EndReliable(x, t, end, budget, nb)
    requires BlockAt(x, GenNot(x.g, t, x.depth, x.short), pc, end)
    ensures Halts(x.c.code, pc)
  {
    hide At, Halts, EndReliable, GetFirst, Sound, TestAt, GenNot, Gen;
    EndHalts(x, t, end, budget, nb);
    if HeadFail(x.g, t.p, x.depth) {
      var start, end' := ByteNotLayout(x, t, pc);
      TestHalts(x.c, pc, GetFirst(x.g, t.p, FULL, x.depth).cs, start, end);
    } else {
      var start, end' := StackNotLayout(x, t, pc);
      HaltsHere(x.c.code, start);
      GuardHalts(x.c, pc, GetFirst(x.g, t.p, FULL, x.depth), start, end);
    }
  }

  lemma {:induction false} AndStartHalts(
    x: Site, t: Tree, opt: bool, tt: Option<Known>, fl: set<Byte>, pc: int, end: int, budget: nat, nb: bool)
    requires t.TAnd?
    requires Sound(x, t) && RulesPlaced(x) && EndReliable(x, t, end, budget, nb)
    requires BlockAt(x, GenAnd(x.g, t, tt, x.depth, x.short), pc, end)
    ensures Halts(x.c.code, pc)
    decreases budget, t, 0
  {
    hide At, Halts, GetFirst;
    EndHalts(x, t, end, budget, nb);
    var mid := AndEntry(x, t, tt, pc, end);
    if !Halts(x.c.code, pc) { StartHalts(x, t.p, false, tt, FULL, pc, mid, budget, true); }
  }

  /** A lookahead starts with a choice, or with the code of its body. */
  lemma AndEntry(x: Site, t: Tree, tt: Option<Known>, pc: int, end: int) returns (mid: int)
    requires t.TAnd? && At(x.c, pc, GenAnd(x.g, t, tt, x.depth, x.short), x.env)
    requires end == pc + |GenAnd(x.g, t, tt, x.depth, x.short)|
    requires Halts(x.c.code, end)
    ensures Halts(x.c.code, pc) || (GenAt(x, t.p, false, tt, FULL, pc, mid) && Halts(x.c.code, mid))
  {
    if StepsBack(x.g, t.p, x.depth) {
      var end';
      mid, end' := StepBackLayout(x, t, tt, pc);
      if mid < end { HaltsHere(x.c.code, mid); }
    } else {
      var end' := CommitAndLayoutOf(x, t, tt, pc);
      HaltsHere(x.c.code, pc);
      mid := pc;
    }
  }

  // ---------- every word of the code ----------

  /** The chain of jumps from `q` ends, and if `q` has a label, it is inside the code. */
  ghost predicate WordOk(code: seq<Instr>, q: int) {
    Halts(code, q) && (0 <= q < |code| && HasLabel(code[q]) ==> 0 <= q + code[q].off < |code|)
  }

  /** All words of the range are in order. */
  ghost predicate AllHalt(c: Ctx, from: int, to: int) {
    forall q | from <= q < to :: WordOk(c.code, q)
  }

  ghost predicate StartsHalt(x: Site) {
    |x.env| == |x.g| && forall k: nat | k < |x.g| && Used(x.g, k) :: Halts(x.c.code, x.env[k])
  }

  /** The words of one instruction. */
  lemma WordsHalt(c: Ctx, pc: int, ins: Instr)
    requires Whole(c.code, 0) && Holds(c, pc, ins) && (ins.IJmp? ==> Halts(c.code, pc + ins.off))
    requires HasLabel(ins) ==> 0 <= pc + ins.off < |c.code|
    ensures AllHalt(c, pc, pc + Size(ins)) && Halts(c.code, pc)
  {
    assert WholeAt(c.code, pc, 0);
    if ins.IJmp? { HaltsNext(c.code, pc); } else { HaltsHere(c.code, pc); }
    forall q | pc <= q < pc + Size(ins) ensures WordOk(c.code, q) {
      if q > pc { HaltsHere(c.code, q); }
    }
  }

  lemma HaltsInside(code: seq<Instr>, q: int)
    requires Halts(code, q)
    ensures 0 <= q < |code|
  {
  }

  lemma TestWordsHalt(c: Ctx, pc: int, cs: set<Byte>, yes: int, no: int)
    requires Whole(c.code, 0) && TestAt(c, pc, cs, yes, no) && Halts(c.code, no)
    ensures AllHalt(c, pc, yes) && Halts(c.code, pc)
  {
    HaltsInside(c.code, no);
    WordsHalt(c, pc, TestInstr(cs, no - pc));
  }

  lemma GuardWordsHalt(c: Ctx, pc: int, f: First, enter: int, skip: int)
    requires Whole(c.code, 0) && GuardAt(c, pc, f, enter, skip) && Halts(c.code, skip)
    ensures AllHalt(c, pc, enter)
  {
    if !f.e { TestWordsHalt(c, pc, f.cs, enter, skip); }
  }

  /** Every chain of jumps in the code of a tree ends, if the chain behind it does and those of the rules do. */
  lemma {:induction false} JumpsEnd(
    x: Site, t: Tree, opt: bool, tt: Option<Known>, fl: set<Byte>, pc: int, end: int)
    requires Whole(x.c.code, 0) && Sound(x, t) && StartsHalt(x) && Halts(x.c.code, end)
    requires GenAt(x, t, opt, tt, fl, pc, end)
    ensures AllHalt(x.c, pc, end) && Halts(x.c.code, pc)
    decreases t, 3
  {
    WordsOfTree(x, t, opt, tt, fl, pc, end);
    if pc < end { assert WordOk(x.c.code, pc); }
  }

  lemma {:induction false} WordsOfTree(
    x: Site, t: Tree, opt: bool, tt: Option<Known>, fl: set<Byte>, pc: int, end: int)
    requires Whole(x.c.code, 0) && Sound(x, t) && StartsHalt(x) && Halts(x.c.code, end)
    requires GenAt(x, t, opt, tt, fl, pc, end)
    ensures AllHalt(x.c, pc, end)
    decreases t, 2
  {
    match t
    case TTrue =>
    case TSeq(_, _) => SequenceJumpsEnd(x, t, opt, tt, fl, pc, end);
    case TChoice(_, _) => ChoiceJumpsEnd(x, t, opt, tt, fl, pc, end);
    case TRep(_) => RepJumpsEnd(x, t, opt, tt, fl, pc, end);
    case TNot(_) => NotJumpsEnd(x, t, opt, tt, fl, pc, end);
    case TAnd(_) => AndJumpsEnd(x, t, opt, tt, fl, pc, end);
    case TBehind(_, _) => BehindJumpsEnd(x, t, opt, tt, fl, pc, end);
    case TCapture(_, _) => CaptureJumpsEnd(x, t, opt, tt, fl, pc, end);
    case TConstCapture(_, _) => ConstCaptureJumpsEnd(x, t, opt, tt, fl, pc, end);
    case TGrammar(_) => GrammarJumpsEnd(x, t, opt, tt, fl, pc, end);
    case TCall(_) => CallJumpsEnd(x, t, opt, tt, fl, pc, end);
    case TChar(b) => LeafJumpsEnd(x, CharInstr(b, tt), pc);
    case TSet(cs) => LeafJumpsEnd(x, CharsetInstr(cs, tt), pc);
    case TAny => LeafJumpsEnd(x, IAny, pc);
    case TFalse => LeafJumpsEnd(x, IFail, pc);
  }

  lemma {:induction false} SequenceJumpsEnd(
    x: Site, t: Tree, opt: bool, tt: Option<Known>, fl: set<Byte>, pc: int, end: int)
    requires t.TSeq?
    requires Whole(x.c.code, 0) && Sound(x, t) && StartsHalt(x) && Halts(x.c.code, end)
    requires BlockAt(x, GenSeq(x.g, t, opt, tt, fl, x.depth, x.short), pc, end)
    ensures AllHalt(x.c, pc, end)
    decreases t, 0
  {
    hide At, Halts, StartsHalt, GetFirst;
    var TSeq(p1, p2) := t;
    var fl1, tt2 := SeqFollow(x.g, p1, p2, fl, x.depth), SeqTest(x.g, p1, tt);
    var code1, code2 := Gen(x.g, p1, false, tt, fl1, x.depth, x.short), Gen(x.g, p2, opt, tt2, fl, x.depth, x.short);
    AtSplit(x.c, pc, code1 + code2, code1, code2, x.env);
    JumpsEnd(x, p2, opt, tt2, fl, pc + |code1|, end);
    JumpsEnd(x, p1, false, tt, fl1, pc, pc + |code1|);
  }

  lemma {:induction false} BehindJumpsEnd(
    x: Site, t: Tree, opt: bool, tt: Option<Known>, fl: set<Byte>, pc: int, end: int)
    requires t.TBehind?
    requires Whole(x.c.code, 0) && Sound(x, t) && StartsHalt(x) && Halts(x.c.code, end)
    requires GenAt(x, t, opt, tt, fl, pc, end)
    ensures AllHalt(x.c, pc, end)
    decreases t, 0
  {
    var start := BehindLayout(x.c, pc, t.n, Gen(x.g, t.p, false, None, FULL, x.depth, x.short), x.env);
    JumpsEnd(x, t.p, false, None, FULL, start, end);
    if t.n > 0 { WordsHalt(x.c, pc, IBehind(t.n)); }
  }

  lemma {:induction false} CaptureJumpsEnd(
    x: Site, t: Tree, opt: bool, tt: Option<Known>, fl: set<Byte>, pc: int, end: int)
    requires t.TCapture?
    requires Whole(x.c.code, 0) && Sound(x, t) && StartsHalt(x) && Halts(x.c.code, end)
    requires GenAt(x, t, opt, tt, fl, pc, end)
    ensures AllHalt(x.c, pc, end)
    decreases t, 0
  {
    hide At, Halts, StartsHalt, GetFirst;
    var end' := CaptureLayout(x.c, pc, t.key, Gen(x.g, t.p, false, tt, fl, x.depth, x.short), x.env);
    WordsHalt(x.c, pc, IOpenCapture(false, t.key));
    WordsHalt(x.c, end - 1, ICloseCapture);
    assert Halts(x.c.code, end - 1);
    JumpsEnd(x, t.p, false, tt, fl, pc + 2, end - 1);
  }

  lemma ConstCaptureJumpsEnd(
    x: Site, t: Tree, opt: bool, tt: Option<Known>, fl: set<Byte>, pc: int, end: int)
    requires t.TConstCapture?
    requires Whole(x.c.code, 0) && Sound(x, t) && StartsHalt(x) && Halts(x.c.code, end)
    requires GenAt(x, t, opt, tt, fl, pc, end)
    ensures AllHalt(x.c, pc, end)
  {
    ConstCaptureLayout(x.c, pc, t.key, t.value, x.env);
    WordsHalt(x.c, pc, IOpenCapture(true, t.key));
    WordsHalt(x.c, pc + 2, ICloseConstCapture(t.value));
  }

  lemma CallJumpsEnd(x: Site, t: Tree, opt: bool, tt: Option<Known>, fl: set<Byte>, pc: int, end: int)
    requires t.TCall?
    requires Whole(x.c.code, 0) && Sound(x, t) && StartsHalt(x) && Halts(x.c.code, end)
    requires GenAt(x, t, opt, tt, fl, pc, end)
    ensures AllHalt(x.c, pc, end)
  {
    AtWord(x.c, pc, Emit(IOpenCall(t.rule)), 0, x.env);
    WordsHalt(x.c, pc, x.c.code[pc]);
  }

  lemma LeafJumpsEnd(x: Site, ins: Instr, pc: int)
    requires Whole(x.c.code, 0) && !ins.IJmp? && !ins.IOpenCall? && !HasLabel(ins)
    requires At(x.c, pc, Emit(ins), x.env) || At(x.c, pc, [ins], x.env)
    ensures AllHalt(x.c, pc, pc + Size(ins))
  {
    if At(x.c, pc, Emit(ins), x.env) { AtEmit(x.c, pc, ins, x.env); } else { AtOne(x.c, pc, ins, x.env); }
    WordsHalt(x.c, pc, ins);
  }

  lemma {:induction false} ChoiceJumpsEnd(
    x: Site, t: Tree, opt: bool, tt: Option<Known>, fl: set<Byte>, pc: int, end: int)
    requires t.TChoice?
    requires Whole(x.c.code, 0) && Sound(x, t) && StartsHalt(x) && Halts(x.c.code, end)
    requires BlockAt(x, GenChoice(x.g, t, opt, fl, x.depth, x.short), pc, end)
    ensures AllHalt(x.c, pc, end)
    decreases t, 1
  {
    hide At, Halts, StartsHalt, GenChoice;
    if Deterministic(x.g, t.p1, t.p2, fl, x.depth) {
      var start1, mid, start2, end' := ByteChoiceLayout(x, t, opt, fl, pc);
      ByteChoiceJumpsEnd(x, t, opt, fl, pc, start1, mid, start2, end);
    } else if opt && t.p2.TTrue? {
      var _ := ReusedChoiceLayoutOf(x, t, fl, pc);
      JumpsEnd(x, t.p1, true, None, FULL, pc + 2, end);
      HaltsInside(x.c.code, end);
      WordsHalt(x.c, pc, IPartialCommit(2));
    } else {
      var choice, commit, end' := StackChoiceLayout(x, t, opt, fl, pc);
      StackChoiceJumpsEnd(x, t, opt, fl, pc, choice, commit, end);
    }
  }

  lemma {:induction false} ByteChoiceJumpsEnd(
    x: Site, t: Tree, opt: bool, fl: set<Byte>, pc: int, start1: int, mid: int, start2: int, end: int)
    requires Whole(x.c.code, 0) && t.TChoice? && Sound(x, t) && StartsHalt(x) && Halts(x.c.code, end)
    requires ByteChoiceAt(x, t, opt, fl, pc, start1, mid, start2, end)
    ensures AllHalt(x.c, pc, end)
    decreases t, 0
  {
    hide At, Halts, StartsHalt, GetFirst, Gen, GenAt;
    JumpsEnd(x, t.p2, opt, None, fl, start2, end);
    ByteChoiceWords(x, t, opt, fl, pc, start1, mid, start2, end);
    JumpsEnd(x, t.p1, false, Tested(GetFirst(x.g, t.p1, FULL, x.depth).cs, x.short), fl, start1, mid);
  }

  lemma {:induction false} StackChoiceJumpsEnd(
    x: Site, t: Tree, opt: bool, fl: set<Byte>, pc: int, choice: int, commit: int, end: int)
    requires Whole(x.c.code, 0) && t.TChoice? && Sound(x, t) && StartsHalt(x) && Halts(x.c.code, end)
    requires StackChoiceAt(x, t, opt, fl, pc, choice, commit, end)
    ensures AllHalt(x.c, pc, end)
    decreases t, 0
  {
    hide At, Halts, StartsHalt, GetFirst, Gen, GenAt;
    JumpsEnd(x, t.p2, opt, None, fl, commit + 2, end);
    StackChoiceWords(x, t, opt, fl, pc, choice, commit, end);
    JumpsEnd(x, t.p1, t.p2.TTrue?, GuardTest(GetFirst(x.g, t.p1, FULL, x.depth), x.short), FULL, choice + 2, commit);
  }

  lemma ByteChoiceWords(
    x: Site, t: Tree, opt: bool, fl: set<Byte>, pc: int, start1: int, mid: int, start2: int, end: int)
    requires Whole(x.c.code, 0) && t.TChoice? && ByteChoiceAt(x, t, opt, fl, pc, start1, mid, start2, end)
    requires Halts(x.c.code, start2) && Halts(x.c.code, end)
    ensures AllHalt(x.c, pc, start1) && AllHalt(x.c, mid, start2) && Halts(x.c.code, mid)
  {
    if !t.p2.TTrue? { WordsHalt(x.c, mid, IJmp(end - mid)); }
    TestWordsHalt(x.c, pc, GetFirst(x.g, t.p1, FULL, x.depth).cs, start1, start2);
  }

  lemma StackChoiceWords(x: Site, t: Tree, opt: bool, fl: set<Byte>, pc: int, choice: int, commit: int, end: int)
    requires Whole(x.c.code, 0) && t.TChoice? && StackChoiceAt(x, t, opt, fl, pc, choice, commit, end)
    requires Halts(x.c.code, commit + 2) && Halts(x.c.code, end)
    ensures AllHalt(x.c, pc, choice + 2) && AllHalt(x.c, commit, commit + 2) && Halts(x.c.code, commit)
  {
    HaltsInside(x.c.code, commit + 2);
    HaltsInside(x.c.code, end);
    WordsHalt(x.c, commit, ICommit(end - commit));
    WordsHalt(x.c, choice, IChoice(commit + 2 - choice));
    GuardWordsHalt(x.c, pc, GetFirst(x.g, t.p1, FULL, x.depth), choice, commit + 2);
  }

  lemma SpanJumpsEnd(x: Site, t: Tree, opt: bool, fl: set<Byte>, pc: int)
    requires t.TRep? && ToCharset(t.p).Some? && Whole(x.c.code, 0)
    requires At(x.c, pc, GenRep(x.g, t, opt, fl, x.depth, x.short), x.env)
    ensures AllHalt(x.c, pc, pc + |GenRep(x.g, t, opt, fl, x.depth, x.short)|)
  {
    LeafJumpsEnd(x, ISpan(ToCharset(t.p).value), pc);
  }

  lemma {:induction false} RepJumpsEnd(
    x: Site, t: Tree, opt: bool, tt: Option<Known>, fl: set<Byte>, pc: int, end: int)
    requires t.TRep?
    requires Whole(x.c.code, 0) && Sound(x, t) && StartsHalt(x) && Halts(x.c.code, end)
    requires BlockAt(x, GenRep(x.g, t, opt, fl, x.depth, x.short), pc, end)
    ensures AllHalt(x.c, pc, end)
    decreases t, 0
  {
    hide At, Halts, StartsHalt, GetFirst, GenRep, Gen;
    if ToCharset(t.p).Some? {
      SpanJumpsEnd(x, t, opt, fl, pc);
    } else if DeterministicRep(x.g, t.p, fl, x.depth) {
      var start, back := ByteRepLayout(x, t, opt, fl, pc);
      ByteRepJumpsEnd(x, t.p, pc, start, back);
    } else {
      var enter, end' := StackRepLayout(x, t, opt, fl, pc);
      StackRepJumpsEnd(x, t.p, opt, pc, enter, end);
    }
  }

  lemma {:induction false} ByteRepJumpsEnd(x: Site, p: Tree, pc: int, start: int, back: int)
    requires Whole(x.c.code, 0) && Sound(x, p) && StartsHalt(x) && Halts(x.c.code, back + 2)
    requires ByteRepAt(x, p, pc, start, back)
    ensures AllHalt(x.c, pc, back + 2)
    decreases p, 4
  {
    hide At, Halts, StartsHalt, GetFirst, Gen, GenAt;
    ByteRepWords(x, p, pc, start, back);
    JumpsEnd(x, p, false, Tested(GetFirst(x.g, p, FULL, x.depth).cs, x.short), FULL, start, back);
  }

  lemma {:induction false} StackRepJumpsEnd(x: Site, p: Tree, opt: bool, pc: int, enter: int, end: int)
    requires Whole(x.c.code, 0) && Sound(x, p) && StartsHalt(x) && Halts(x.c.code, end)
    requires StackRepAt(x, p, opt, pc, enter, end)
    ensures AllHalt(x.c, pc, end)
    decreases p, 4
  {
    hide At, Halts, StartsHalt, GetFirst, Gen, GenAt;
    StackRepWords(x, p, opt, pc, enter, end);
    JumpsEnd(x, p, false, None, FULL, enter + 2, end - 2);
  }

  lemma ByteRepWords(x: Site, p: Tree, pc: int, start: int, back: int)
    requires Whole(x.c.code, 0) && ByteRepAt(x, p, pc, start, back) && Halts(x.c.code, back + 2)
    ensures AllHalt(x.c, pc, start) && AllHalt(x.c, back, back + 2) && Halts(x.c.code, back)
  {
    TestWordsHalt(x.c, pc, GetFirst(x.g, p, FULL, x.depth).cs, start, back + 2);
    WordsHalt(x.c, back, IJmp(pc - back));
  }

  lemma StackRepWords(x: Site, p: Tree, opt: bool, pc: int, enter: int, end: int)
    requires Whole(x.c.code, 0) && StackRepAt(x, p, opt, pc, enter, end) && Halts(x.c.code, end)
    ensures AllHalt(x.c, pc, enter + 2) && AllHalt(x.c, end - 2, end) && Halts(x.c.code, end - 2)
  {
    GuardWordsHalt(x.c, pc, GetFirst(x.g, p, FULL, x.depth), enter, end);
    WordsHalt(x.c, enter, x.c.code[enter]);
    WordsHalt(x.c, end - 2, x.c.code[end - 2]);
  }

  lemma ByteNotJumpsEnd(x: Site, t: Tree, pc: int, end: int)
    requires t.TNot? && HeadFail(x.g, t.p, x.depth) && Whole(x.c.code, 0) && Halts(x.c.code, end)
    requires BlockAt(x, GenNot(x.g, t, x.depth, x.short), pc, end)
    ensures AllHalt(x.c, pc, end)
  {
    hide At, Halts, GetFirst;
    var f := GetFirst(x.g, t.p, FULL, x.depth);
    var start, end' := TestedNotLayout(x.c, pc, f, x.env);
    WordsHalt(x.c, start, IFail);
    GuardWordsHalt(x.c, pc, f, start, end);
  }

  lemma {:induction false} NotJumpsEnd(
    x: Site, t: Tree, opt: bool, tt: Option<Known>, fl: set<Byte>, pc: int, end: int)
    requires t.TNot?
    requires Whole(x.c.code, 0) && Sound(x, t) && StartsHalt(x) && Halts(x.c.code, end)
    requires BlockAt(x, GenNot(x.g, t, x.depth, x.short), pc, end)
    ensures AllHalt(x.c, pc, end)
    decreases t, 0
  {
    hide At, Halts, StartsHalt, GetFirst, GenNot, Gen, GenAt;
    if HeadFail(x.g, t.p, x.depth) {
      ByteNotJumpsEnd(x, t, pc, end);
    } else {
      var start, end' := StackNotLayout(x, t, pc);
      StackNotJumpsEnd(x, t.p, pc, start, end);
    }
  }

  lemma {:induction false} StackNotJumpsEnd(x: Site, p: Tree, pc: int, start: int, end: int)
    requires Whole(x.c.code, 0) && Sound(x, p) && StartsHalt(x) && Halts(x.c.code, end)
    requires StackNotAt(x, p, pc, start, end)
    ensures AllHalt(x.c, pc, end)
    decreases p, 4
  {
    hide At, Halts, StartsHalt, GetFirst, Gen, GenAt;
    StackNotWords(x.c, pc, GetFirst(x.g, p, FULL, x.depth), start, end);
    JumpsEnd(x, p, false, None, FULL, start + 2, end - 1);
  }

  lemma StackNotWords(c: Ctx, pc: int, f: First, start: int, end: int)
    requires Whole(c.code, 0) && Halts(c.code, end)
    requires GuardAt(c, pc, f, start, end) && Holds(c, start, IChoice(end - start)) && Holds(c, end - 1, IFailTwice)
    ensures AllHalt(c, pc, start + 2) && AllHalt(c, end - 1, end) && Halts(c.code, end - 1)
  {
    HaltsInside(c.code, end);
    WordsHalt(c, end - 1, IFailTwice);
    WordsHalt(c, start, IChoice(end - start));
    GuardWordsHalt(c, pc, f, start, end);
  }

  lemma {:induction false} AndJumpsEnd(
    x: Site, t: Tree, opt: bool, tt: Option<Known>, fl: set<Byte>, pc: int, end: int)
    requires t.TAnd?
    requires Whole(x.c.code, 0) && Sound(x, t) && StartsHalt(x) && Halts(x.c.code, end)
    requires BlockAt(x, GenAnd(x.g, t, tt, x.depth, x.short), pc, end)
    ensures AllHalt(x.c, pc, end)
    decreases t, 0
  {
    hide At, Halts, StartsHalt, GenAnd, Gen, GenAt;
    if StepsBack(x.g, t.p, x.depth) {
      var mid, end' := StepBackLayout(x, t, tt, pc);
      StepBackJumpsEnd(x, t.p, tt, pc, mid, end);
    } else {
      var end' := CommitAndLayoutOf(x, t, tt, pc);
      CommitAndJumpsEnd(x, t.p, tt, pc, end);
    }
  }

  lemma {:induction false} StepBackJumpsEnd(x: Site, p: Tree, tt: Option<Known>, pc: int, mid: int, end: int)
    requires Whole(x.c.code, 0) && Sound(x, p) && StartsHalt(x) && Halts(x.c.code, end)
    requires StepBackAt(x, p, tt, pc, mid, end)
    ensures AllHalt(x.c, pc, end)
    decreases p, 4
  {
    hide At, Halts, StartsHalt, Gen, GenAt;
    if mid < end { WordsHalt(x.c, mid, IBehind(FixedLen(x.g, p))); }
    JumpsEnd(x, p, false, tt, FULL, pc, mid);
  }

  lemma {:induction false} CommitAndJumpsEnd(x: Site, p: Tree, tt: Option<Known>, pc: int, end: int)
    requires Whole(x.c.code, 0) && Sound(x, p) && StartsHalt(x) && Halts(x.c.code, end)
    requires CommitAndAt(x, p, tt, pc, end)
    ensures AllHalt(x.c, pc, end)
    decreases p, 4
  {
    hide At, Halts, StartsHalt, Gen, GenAt;
    CommitAndWords(x.c, pc, end);
    JumpsEnd(x, p, false, tt, FULL, pc + 2, end - 3);
  }

  lemma CommitAndWords(c: Ctx, pc: int, end: int)
    requires Whole(c.code, 0) && Halts(c.code, end)
    requires Holds(c, pc, IChoice(end - 1 - pc)) && Holds(c, end - 3, IBackCommit(3)) && Holds(c, end - 1, IFail)
    ensures AllHalt(c, pc, pc + 2) && AllHalt(c, end - 3, end) && Halts(c.code, end - 3)
  {
    HaltsInside(c.code, end);
    WordsHalt(c, pc, IChoice(end - 1 - pc));
    WordsHalt(c, end - 3, IBackCommit(3));
    WordsHalt(c, end - 1, IFail);
  }

  // ---------- grammars ----------

  /** Every word behind the head of a grammar's code belongs to a rule or its return. */
  lemma {:induction false} BodyOf(codes: seq<seq<Instr>>, q: nat) returns (k: nat)
    requires q < |Bodies(codes)|
    ensures k < |codes| && |Bodies(codes[..k])| <= q <= |Bodies(codes[..k])| + |codes[k]|
    decreases codes
  {
    var first := codes[0] + [IRet];
    if q < |first| {
      k := 0;
    } else {
      var k' := BodyOf(codes[1..], q - |first|);
      k := k' + 1;
      assert codes[..k][1..] == codes[1..][..k'];
    }
  }

  /** Where the return behind a rule stands. */
  lemma RuleReturns(x: Site, k: nat) returns (ret: int)
    requires k < |x.g| == |x.env| && RuleAt(x, k)
    ensures GenAt(x, x.g[k], false, None, FULL, x.env[k], ret) && Holds(x.c, ret, IRet) && Halts(x.c.code, ret)
  {
    var body := Gen(x.g, x.g[k], false, None, FULL, x.depth, x.short);
    ret := x.env[k] + |body|;
    AtSplit(x.c, x.env[k], body + [IRet], body, [IRet], x.env);
    AtOne(x.c, ret, IRet, x.env);
    HaltsHere(x.c.code, ret);
  }

  lemma RuleSound(x: Site, t: Tree, k: nat)
    requires t == TGrammar(x.g) && k < |x.g| == |x.env| && RuleAt(x, k) && Verified([], t) && Dependable(t)
    ensures Sound(x, x.g[k])
  {
    forall m: nat | Calls(x.g[k], m) ensures Used(x.g, m) {
    }
    CallsUsedIntro(x.g, x.g[k]);
    SoundIntro(x, x.g[k]);
  }

  /** The chains from the starts of the rules end: this is what the search for left recursion is good for. */
  lemma RuleStartsHalt(x: Site, t: Tree)
    requires t == TGrammar(x.g) && RulesPlaced(x) && Verified([], t) && Dependable(t)
    ensures StartsHalt(x)
  {
    forall k: nat | k < |x.g| && Used(x.g, k) ensures Halts(x.c.code, x.env[k]) {
      assert RuleAt(x, k) && RuleSafe(x.g, t, k);
      RuleSound(x, t, k);
      RuleStartHalts(x, k, MAX_RULES, false);
    }
  }

  lemma {:induction false} GrammarJumpsEnd(
    x: Site, t: Tree, opt: bool, tt: Option<Known>, fl: set<Byte>, pc: int, end: int)
    requires t.TGrammar?
    requires Whole(x.c.code, 0) && Sound(x, t) && Halts(x.c.code, end)
    requires BlockAt(x, GenGrammar(t, x.depth, x.short), pc, end)
    ensures AllHalt(x.c, pc, end)
    decreases t, 0
  {
    hide At, Halts, StartsHalt, Whole;
    var codes := RuleCodes(t.rules, x.depth, x.short);
    var inner := GrammarInPlace(x, t, pc);
    GrammarSafe(x.g, t);
    RuleStartsHalt(inner, t);
    GrammarHeadWords(x.c, pc, inner.env[0], end);
    forall q | pc + 4 <= q < end ensures WordOk(x.c.code, q) {
      var k := BodyOf(codes, q - (pc + 4));
      assert RuleAt(inner, k);
      RuleJumpsEnd(inner, t, k, q);
    }
  }

  lemma GrammarHeadWords(c: Ctx, pc: int, entry: int, end: int)
    requires Whole(c.code, 0) && Halts(c.code, end) && Halts(c.code, entry)
    requires Holds(c, pc, ICall(entry - pc)) && Holds(c, pc + 2, IJmp(end - (pc + 2)))
    ensures AllHalt(c, pc, pc + 4)
  {
    HaltsInside(c.code, entry);
    WordsHalt(c, pc, ICall(entry - pc));
    WordsHalt(c, pc + 2, IJmp(end - (pc + 2)));
  }

  lemma {:induction false} RuleJumpsEnd(x: Site, t: Tree, k: nat, q: int)
    requires t == TGrammar(x.g) && Verified([], t) && Dependable(t) && Whole(x.c.code, 0) && StartsHalt(x)
    requires k < |x.g| && RuleAt(x, k) && x.env[k] <= q <= x.env[k] + |RuleCodes(x.g, x.depth, x.short)[k]|
    ensures WordOk(x.c.code, q)
    decreases x.g[k], 4
  {
    RuleSound(x, t, k);
    var ret := RuleReturns(x, k);
    JumpsEnd(x, x.g[k], false, None, FULL, x.env[k], ret);
  }

  // ---------- chains while the code is being linked and optimised ----------

  /** All chains of jumps in `code`, from word `from` on, end. */
  ghost predicate ChainsEnd(code: seq<Instr>, from: nat) { forall q | from <= q < |code| :: Halts(code, q) }

  lemma {:induction false} ChainBeforeLinking(code: seq<Instr>, linked: seq<Instr>, q: int, n: nat)
    requires KeepsOthers(code, linked) && EndsAfter(linked, q, n)
    ensures Halts(code, q)
    decreases n
  {
    if JumpAt(code, q) {
      ChainBeforeLinking(code, linked, q + code[q].off, n - 1);
      HaltsNext(code, q);
    } else {
      HaltsHere(code, q);
    }
  }

  /** Linking only adds jumps, so chains end in code that is still being linked. */
  lemma ChainsBeforeLinking(code: seq<Instr>, linked: seq<Instr>, from: nat)
    requires KeepsOthers(code, linked) && ChainsEnd(linked, from)
    ensures ChainsEnd(code, from)
  {
    forall q | from <= q < |code| ensures Halts(code, q) {
      assert Halts(linked, q);
      var n: nat :| EndsAfter(linked, q, n);
      ChainBeforeLinking(code, linked, q, n);
    }
  }

  /** The chains in the rules of a verified grammar end, inside the grammar's code. */
  lemma GrammarChainsEnd(g: Rules, t: Tree, depth: nat, short: bool)
    requires t.TGrammar? && WellFormed(g, t, depth) && Verified(g, t) && Dependable(t)
    ensures ChainsEnd(GenGrammar(t, depth, short), 4)
  {
    var code, codes := GenGrammar(t, depth, short), RuleCodes(t.rules, depth, short);
    var x := Site(Ctx(code, []), [], [], depth, short);
    assert code == Gen([], t, false, None, FULL, depth, short);
    GenWhole([], t, false, None, FULL, depth, short);
    WholeStands(x.c, code);
    var inner := GrammarInPlace(x, t, 0);
    GrammarSafe(g, t);
    RuleStartsHalt(inner, t);
    forall q | 4 <= q < |code| ensures Halts(code, q) {
      var k := BodyOf(codes, q - 4);
      assert RuleAt(inner, k);
      RuleJumpsEnd(inner, t, k, q);
    }
  }

  lemma {:induction false} ChainTail(code: seq<Instr>, q: int, jumps: nat, n: nat) returns (m: nat)
    requires EndsAfter(code, q, n)
    ensures m <= n && EndsAfter(code, FinalTarget(code, q, jumps), m)
    decreases jumps
  {
    if jumps > 0 && JumpAt(code, q) { m := ChainTail(code, q + code[q].off, jumps - 1, n - 1); } else { m := n; }
  }

  lemma {:induction false} ChainAfterRewriting(code: seq<Instr>, code': seq<Instr>, i: nat, ft: int, q: int, n: nat)
    requires Rewrites(code, code', i, ft) && NoNewJumps(code, code') && EndsAfter(code, q, n)
    ensures Halts(code', q)
    decreases n
  {
    if !JumpAt(code', q) {
      HaltsHere(code', q);
    } else if q == i && code'[q] != code[q] {
      var jumps: nat :| FinalTarget(code, i + code[i].off, jumps) == ft;
      var m := ChainTail(code, i + code[i].off, jumps, n - 1);
      ChainAfterRewriting(code, code', i, ft, ft, m);
      HaltsNext(code', q);
    } else {
      ChainAfterRewriting(code, code', i, ft, q + code[q].off, n - 1);
      HaltsNext(code', q);
    }
  }

  lemma ChainsAfterRewriting(code: seq<Instr>, code': seq<Instr>, i: nat, ft: int)
    requires Rewrites(code, code', i, ft) && NoNewJumps(code, code') && ChainsEnd(code, 0)
    ensures ChainsEnd(code', 0)
  {
    forall q | 0 <= q < |code'| ensures Halts(code', q) {
      assert Halts(code, q);
      var n: nat :| EndsAfter(code, q, n);
      ChainAfterRewriting(code, code', i, ft, q, n);
    }
  }

  /** Optimising one instruction keeps the ends of all chains. */
  lemma OptimizeAtKeepsChains(code: seq<Instr>, i: nat)
    requires i < |code| && Padded(code) && ChainsEnd(code, 0)
    ensures ChainsEnd(OptimizeAt(code, i), 0)
  {
    var code1, ft1, ft2 := OptimizeSteps(code, i);
    ChainsAfterRewriting(code, code1, i, ft1);
    ChainsAfterRewriting(code1, OptimizeAt(code, i), i, ft2);
  }

  lemma {:induction false} OptimizeFromKeepsChains(code: seq<Instr>, i: nat)
    requires Padded(code) && ChainsEnd(code, 0)
    ensures ChainsEnd(OptimizeFrom(code, i), 0)
    decreases |code| - i
  {
    if i < |code| {
      var code' := OptimizeAt(code, i);
      OptimizeAtKeepsChains(code, i);
      PaddingStays(code, i);
      OptimizeFromKeepsChains(code', i + Size(code'[i]));
    }
  }

  // ---------- labels ----------

  /** Every label stays inside the code. */
  ghost predicate LabelsInside(code: seq<Instr>) {
    forall q: nat | q < |code| :: LabelInside(code, q)
  }

  ghost predicate LabelInside(code: seq<Instr>, q: nat)
    requires q < |code|
  {
    HasLabel(code[q]) ==> 0 <= q + code[q].off < |code|
  }

  /** The final label of an instruction is inside the code, too. */
  lemma FinalLabelInside(code: seq<Instr>, q: nat)
    requires q < |code| && HasLabel(code[q]) && LabelInside(code, q) && ChainsEnd(code, 0)
    ensures 0 <= FinalLabel(code, q) < |code|
  {
    FinalTargetFinal(code, q + code[q].off);
  }

  lemma RelabelKeepsLabels(code: seq<Instr>, i: nat)
    requires i < |code| && HasLabel(code[i]) && ChainsEnd(code, 0) && LabelsInside(code)
    ensures LabelsInside(Relabel(code, i))
  {
    assert LabelInside(code, i);
    FinalLabelInside(code, i);
    forall q: nat | q < |code| ensures LabelInside(Relabel(code, i), q) { assert LabelInside(code, q); }
  }

  lemma OptimizeAtKeepsLabels(code: seq<Instr>, i: nat)
    requires i < |code| && Padded(code) && ChainsEnd(code, 0) && LabelsInside(code)
    ensures LabelsInside(OptimizeAt(code, i))
  {
    if HasLabel(code[i]) {
      RelabelKeepsLabels(code, i);
    } else if code[i].IJmp? {
      var ft := FinalTarget(code, i, |code|);
      FinalTargetFinal(code, i);
      if Commits(code[ft]) {
        var code1, ft1, ft2 := OptimizeSteps(code, i);
        ChainsAfterRewriting(code, code1, i, ft1);
        assert LabelInside(code, ft);
        FinalLabelInside(code, ft);
        forall q: nat | q < |code| ensures LabelInside(code1, q) { assert LabelInside(code, q); }
        RelabelKeepsLabels(code1, i);
      } else {
        forall q: nat | q < |code| ensures LabelInside(OptimizeAt(code, i), q) { assert LabelInside(code, q); }
      }
    }
  }
}
