/** The code generator as it works: a growing array, with offsets patched later. */
module Generator {
  // Every method is proved against the function of module CodeGen that specifies it.

  import opened Peg
  import opened Analysis
  import opened Machine
  import opened CodeGen
  import opened Patching
  import opened Verification
  import opened Linking
  import opened Correctness
  import opened JumpChains
  import opened Peephole
  import opened Compiler

  /** Stands for "no instruction". */
  const NOINST: int := -1

  /** What the test instruction at `tt`, if there is one, has checked. */
  function TestedAt(code: seq<Instr>, tt: int): Option<Known> {
    if 0 <= tt < |code| && code[tt].ITestChar? then Some(KnownByte(code[tt].c))
    else if 0 <= tt < |code| && code[tt].ITestSet? then Some(KnownSet(code[tt].cs))
    else None
  }

  lemma TestedAtPrefix(code: seq<Instr>, more: seq<Instr>, tt: int)
    requires tt < |code|
    ensures TestedAt(code + more, tt) == TestedAt(code, tt)
  {
  }

  /** What is known of the code of a grammar before it is linked: the first words are no calls, instructions
      are whole and calls name rules, the last word is a return, and once linked all chains of jumps end. */
  ghost predicate LinkReady(block: seq<Instr>, relative: seq<int>) {
    |block| > 4 && (forall q :: 0 <= q < 4 ==> !block[q].IOpenCall?) && Whole(block, |relative|) &&
    block[|block| - 1] == IRet && ChainsEnd(Link(block, relative), 4)
  }

  lemma GrammarReady(g: Rules, t: Tree, depth: nat)
    requires t.TGrammar? && WellFormed(g, t, depth) && Verified(g, t) && Dependable(t)
    ensures LinkReady(GrammarCode(RuleCodes(t.rules, depth, true)), RulePositions(RuleCodes(t.rules, depth, true)))
  {
    var codes := RuleCodes(t.rules, depth, true);
    assert GenGrammar(t, depth, true) == Link(GrammarCode(codes), RulePositions(codes));
    GrammarChainsEnd(g, t, depth, true);
    GrammarCodeWhole(t.rules, depth);
    EndsWithReturn(codes);
  }

  lemma GrammarCodeWhole(rs: Rules, depth: nat)
    requires forall k :: 0 <= k < |rs| ==> WellFormed(rs, rs[k], depth)
    ensures Whole(GrammarCode(RuleCodes(rs, depth, true)), |rs|)
  {
    var codes := RuleCodes(rs, depth, true);
    forall k | 0 <= k < |codes| ensures Whole(codes[k], |codes|) {
      GenWhole(rs, rs[k], false, None, FULL, depth, true);
    }
    GrammarWhole(codes, 0);
  }

  /** The last word of a grammar's code is the return of its last rule. */
  lemma EndsWithReturn(codes: seq<seq<Instr>>)
    requires codes != []
    ensures var block := GrammarCode(codes); block != [] && block[|block| - 1] == IRet
  {
    var last := |codes| - 1;
    BodiesSnoc(codes, last);
    assert codes[..last + 1] == codes;
  }

  /** Linking one open call: the target of what follows it is inside the code and final, and the rest of the
      linking leads to the same result. */
  lemma LinkStep(block: seq<Instr>, current: seq<Instr>, relative: seq<int>, j: nat)
    requires LinkReady(block, relative) && |current| == |block| && 4 <= j < |current| && current[j].IOpenCall?
    requires LinkFrom(current, relative, j) == Link(block, relative)
    requires Whole(current, |relative|) && current[|block| - 1] == IRet
    ensures var next := LinkAt(current, relative, j);
            j + 2 < |current| && Halts(current, j + 2) && current[j].rule < |relative| &&
            Whole(next, |relative|) && next[|block| - 1] == IRet &&
            LinkFrom(next, relative, j + 2) == Link(block, relative)
  {
    var next := LinkAt(current, relative, j);
    assert WholeAt(current, j, |relative|);
    LinkKeepsOthers(current, relative, j);
    ChainsBeforeLinking(current, Link(block, relative), 4);
    forall q: nat | q < |next| ensures WholeAt(next, q, |relative|) {
      assert WholeAt(current, q, |relative|) && Size(next[q]) == Size(current[q]);
    }
    LinkSkips(next, relative, j + 1, j + 2);
  }

  lemma LinkInPlace(before: seq<Instr>, current: seq<Instr>, relative: seq<int>, j: nat, ft: int)
    requires j < |current| && current[j].IOpenCall? && current[j].rule < |relative| && Halts(current, j + 2)
    requires ft == |before| + FinalTarget(current, j + 2, |current|)
    ensures var i := |before| + j; var code := before + current;
            0 <= ft < |code| &&
            var marked := code[i := if code[ft].IRet? then IJmp(0) else ICall(0)];
            OffsetAt(marked, i) &&
            Patched(marked, i, |before| + relative[current[j].rule]) == before + LinkAt(current, relative, j)
  {
    FinalTargetFinal(current, j + 2);
    var code := before + current;
    assert code[ft] == current[ft - |before|];
    assert code[|before| + j] == current[j];
  }

  class CompileState {
    /** The instructions emitted so far; `codesize` words are allocated for them. */
    var code: seq<Instr>
    var codesize: nat

    ghost predicate Valid()
      reads this
    {
      |code| <= codesize && 1 <= codesize
    }

    constructor ()
      ensures Valid() && code == []
    {
      code := [];
      codesize := 2;
    }

    // ---------- emitting and patching ----------

    method NextInstruction() returns (i: nat)
      requires Valid()
      modifies this
      ensures Valid() && i == |old(code)| && code == old(code) + [IPad]
    {
      if |code| == codesize { codesize := codesize * 2; }
      i := |code|;
      code := code + [IPad];
    }

    method AddInstruction(ins: Instr) returns (i: nat)
      requires Valid()
      modifies this
      ensures Valid() && i == |old(code)| && code == old(code) + [ins]
    {
      i := NextInstruction();
      code := code[i := ins];
    }

    method AddOffset(ins: Instr) returns (i: nat)
      requires Valid()
      modifies this
      ensures Valid() && i == |old(code)|
      ensures code == if Size(ins) == 2 then old(code) + Emit(ins) else old(code) + [ins] + Pads(1)
    {
      i := AddInstruction(ins);
      var space := NextInstruction();
    }

    method AddCharset()
      requires Valid()
      modifies this
      ensures Valid() && code == old(code) + Pads(CHARSET_INST_SIZE - 1)
    {
      for i := 0 to CHARSET_INST_SIZE - 1
        invariant Valid() && code == old(code) + Pads(i)
      {
        var space := NextInstruction();
      }
    }

    method JumpToThere(i: int, target: int)
      requires Valid() && OffsetAt(code, i)
      modifies this
      ensures Valid() && code == Patched(old(code), i, target)
    {
      if i >= 0 { code := code[i := SetOffset(code[i], target - i)]; }
    }

    method JumpToHere(i: int)
      requires Valid() && OffsetAt(code, i)
      modifies this
      ensures Valid() && code == Patched(old(code), i, |code|)
    {
      JumpToThere(i, |code|);
    }

    // ---------- bytes and tests ----------

    method CodeChar(c: Byte, tt: int)
      requires Valid() && tt < |code|
      modifies this
      ensures Valid()
      ensures code == old(code) + [CharInstr(c, TestedAt(old(code), tt))]
    {
      if tt >= 0 && code[tt].ITestChar? && code[tt].c == c {
        var i := AddInstruction(IAny);
      } else {
        var i := AddInstruction(IChar(c));
      }
    }

    method CodeCharset(cs: set<Byte>, tt: int)
      requires Valid() && tt < |code|
      modifies this
      ensures Valid()
      ensures code == old(code) + Emit(CharsetInstr(cs, TestedAt(old(code), tt)))
    {
      if cs == {} {
        var i := AddInstruction(IFail);
      } else if cs == FULL {
        var i := AddInstruction(IAny);
      } else if IsSingleton(cs) {
        CodeChar(TheByte(cs), tt);
      } else if tt >= 0 && code[tt].ITestSet? && cs == Misread(code[tt].cs) {
        var i := AddInstruction(IAny);
      } else {
        var i := AddInstruction(ISet(cs));
        AddCharset();
        assert Emit(ISet(cs)) == [ISet(cs)] + Pads(CHARSET_INST_SIZE - 1);
      }
    }

    method CodeTestset(cs: set<Byte>, e: bool) returns (test: int)
      requires Valid()
      modifies this
      ensures Valid()
      ensures test == TestPosition(First(cs, e), |old(code)|)
      ensures code == old(code) + OpenTest(First(cs, e))
    {
      if e { return NOINST; }
      if cs == {} {
        test := AddOffset(IJmp(0));
      } else if cs == FULL {
        test := AddOffset(ITestAny(0));
      } else if IsSingleton(cs) {
        test := AddOffset(ITestChar(TheByte(cs), 0));
      } else {
        test := AddOffset(ITestSet(cs, 0));
        AddCharset();
      }
    }

    // ---------- trees ----------

    method Generate(g: Rules, t: Tree, opt: bool, tt: int, fl: set<Byte>, depth: nat)
      requires Valid() && tt < |code| && WellFormed(g, t, depth) && Verified(g, t) && Dependable(t)
      modifies this
      ensures Valid()
      ensures code == old(code) + Gen(g, t, opt, TestedAt(old(code), tt), fl, depth, true)
      decreases t, 3
    {
      match t
      case TChar(c) => CodeChar(c, tt);
      case TAny => var i := AddInstruction(IAny);
      case TSet(cs) => CodeCharset(cs, tt);
      case TTrue =>
      case TFalse => var i := AddInstruction(IFail);
      case TChoice(_, _) => CodeChoice(g, t, opt, fl, depth);
      case TRep(_) => CodeRep(g, t, opt, fl, depth);
      case TBehind(_, _) => CodeBehind(g, t, depth);
      case TNot(_) => CodeNot(g, t, depth);
      case TAnd(_) => CodeAnd(g, t, tt, depth);
      case TCapture(_, _) => CodeCapture(g, t, tt, fl, depth);
      case TConstCapture(key, value) =>
        var open := AddOffset(IOpenCapture(true, key));
        var close := AddInstruction(ICloseConstCapture(value));
      case TSeq(_, _) => CodeSequence(g, t, opt, tt, fl, depth);
      case TCall(k) => var i := AddOffset(IOpenCall(k % RULE_FIELD));
      case TGrammar(_) => CodeGrammar(g, t, depth);
    }

    method CodeSequence(g: Rules, t: Tree, opt: bool, tt: int, fl: set<Byte>, depth: nat)
      requires t.TSeq?
      requires Valid() && tt < |code| && WellFormed(g, t, depth) && Verified(g, t) && Dependable(t)
      modifies this
      ensures Valid()
      ensures code == old(code) + GenSeq(g, t, opt, TestedAt(old(code), tt), fl, depth, true)
      decreases t, 0
    {
      ghost var a := code;
      if NeedFollow(t.p1) {
        Generate(g, t.p1, false, tt, GetFirst(g, t.p2, fl, depth).cs, depth);
      } else {
        Generate(g, t.p1, false, tt, FULL, depth);
      }
      ghost var code1 := Gen(g, t.p1, false, TestedAt(a, tt), SeqFollow(g, t.p1, t.p2, fl, depth), depth, true);
      TestedAtPrefix(a, code1, tt);
      var tt2 := if FixedLen(g, t.p1) != 0 then NOINST else tt;
      Generate(g, t.p2, opt, tt2, fl, depth);
      Assoc(a, code1, Gen(g, t.p2, opt, SeqTest(g, t.p1, TestedAt(a, tt)), fl, depth, true));
    }

    method CodeBehind(g: Rules, t: Tree, depth: nat)
      requires t.TBehind?
      requires Valid() && WellFormed(g, t, depth) && Verified(g, t) && Dependable(t)
      modifies this
      ensures Valid()
      ensures code == old(code) + BehindCode(t.n, Gen(g, t.p, false, None, FULL, depth, true))
      decreases t, 0
    {
      ghost var a := code;
      if t.n > 0 {
        var i := AddInstruction(IBehind(t.n));
      } else {
        assert a == a + [];
      }
      Generate(g, t.p, false, NOINST, FULL, depth);
      Assoc(a, if t.n > 0 then [IBehind(t.n)] else [], Gen(g, t.p, false, None, FULL, depth, true));
    }

    method CodeCapture(g: Rules, t: Tree, tt: int, fl: set<Byte>, depth: nat)
      requires t.TCapture?
      requires Valid() && tt < |code| && WellFormed(g, t, depth) && Verified(g, t) && Dependable(t)
      modifies this
      ensures Valid()
      ensures code ==
              old(code) + CaptureCode(t.key, Gen(g, t.p, false, TestedAt(old(code), tt), fl, depth, true))
      decreases t, 0
    {
      ghost var a, body := code, Gen(g, t.p, false, TestedAt(code, tt), fl, depth, true);
      var open := AddOffset(IOpenCapture(false, t.key));
      TestedAtPrefix(a, Emit(IOpenCapture(false, t.key)), tt);
      Generate(g, t.p, false, tt, fl, depth);
      var close := AddInstruction(ICloseCapture);
      Assoc4(a, Emit(IOpenCapture(false, t.key)), body, [ICloseCapture]);
    }

    method CodeNot(g: Rules, t: Tree, depth: nat)
      requires t.TNot?
      requires Valid() && WellFormed(g, t, depth) && Verified(g, t) && Dependable(t)
      modifies this
      ensures Valid()
      ensures code == old(code) + GenNot(g, t, depth, true)
      decreases t, 0
    {
      ghost var a := code;
      var f := GetFirst(g, t.p, FULL, depth);
      var test := CodeTestset(f.cs, f.e);
      if HeadFail(g, t.p, depth) {
        var fail := AddInstruction(IFail);
        TestedNotFilled(a, f, code, test);
      } else {
        var pchoice := AddOffset(IChoice(0));
        Generate(g, t.p, false, NOINST, FULL, depth);
        var failtwice := AddInstruction(IFailTwice);
        ChoiceNotFilled(a, f, Gen(g, t.p, false, None, FULL, depth, true), code, test, pchoice);
        JumpToHere(pchoice);
      }
      JumpToHere(test);
    }

    method CodeAnd(g: Rules, t: Tree, tt: int, depth: nat)
      requires t.TAnd?
      requires Valid() && tt < |code| && WellFormed(g, t, depth) && Verified(g, t) && Dependable(t)
      modifies this
      ensures Valid()
      ensures code == old(code) + GenAnd(g, t, TestedAt(old(code), tt), depth, true)
      decreases t, 0
    {
      ghost var a, body := code, Gen(g, t.p, false, TestedAt(code, tt), FULL, depth, true);
      var n := FixedLen(g, t.p);
      if 0 <= n <= MAX_BEHIND && !HasCaptures(g, t.p, depth) {
        Generate(g, t.p, false, tt, FULL, depth);
        if n > 0 {
          var behind := AddInstruction(IBehind(n));
        }
        Assoc(a, body, if n > 0 then [IBehind(n)] else []);
      } else {
        var pchoice := AddOffset(IChoice(0));
        TestedAtPrefix(a, Emit(IChoice(0)), tt);
        Generate(g, t.p, false, tt, FULL, depth);
        var pcommit := AddOffset(IBackCommit(0));
        CommitAndFilled(a, body, code, pchoice, pcommit);
        JumpToHere(pchoice);
        var fail := AddInstruction(IFail);
        JumpToHere(pcommit);
      }
    }

    method CodeChoice(g: Rules, t: Tree, opt: bool, fl: set<Byte>, depth: nat)
      requires t.TChoice?
      requires Valid() && WellFormed(g, t, depth) && Verified(g, t) && Dependable(t)
      modifies this
      ensures Valid()
      ensures code == old(code) + GenChoice(g, t, opt, fl, depth, true)
      decreases t, 1
    {
      ghost var a := code;
      var emptyp2 := t.p2.TTrue?;
      var f1 := GetFirst(g, t.p1, FULL, depth);
      if HeadFail(g, t.p1, depth) || (!f1.e && f1.cs !! GetFirst(g, t.p2, fl, depth).cs) {
        ByteChoice(g, t, f1.cs, opt, fl, depth);
      } else if opt && emptyp2 {
        var commit := AddOffset(IPartialCommit(0));
        ReusedChoiceFilled(a);
        JumpToHere(commit);
        Generate(g, t.p1, true, NOINST, FULL, depth);
        Assoc(a, Emit(IPartialCommit(2)), Gen(g, t.p1, true, None, FULL, depth, true));
      } else {
        StackChoice(g, t, f1, opt, fl, depth);
      }
    }

    /** The first branch of CodeChoice: test(fail(p1)) -> L1; p1; jmp L2; L1: p2; L2: */
    method ByteChoice(g: Rules, t: Tree, cs: set<Byte>, opt: bool, fl: set<Byte>, depth: nat)
      requires t.TChoice?
      requires Valid() && WellFormed(g, t, depth) && Verified(g, t) && Dependable(t)
      modifies this
      ensures Valid()
      ensures code == old(code) +
        TestedChoice(cs, Gen(g, t.p1, false, Tested(cs, true), fl, depth, true),
                     Gen(g, t.p2, opt, None, fl, depth, true), t.p2.TTrue?)
      decreases t, 0
    {
      ghost var a := code;
      ghost var code1 := Gen(g, t.p1, false, Tested(cs, true), fl, depth, true);
      ghost var code2 := Gen(g, t.p2, opt, None, fl, depth, true);
      var jmp := NOINST;
      var test := CodeTestset(cs, false);
      Generate(g, t.p1, false, test, fl, depth);
      assert code == a + Emit(TestInstr(cs, 0)) + code1;
      if t.p2.TTrue? {
        LastChoiceFilled(a, cs, code1, code, test);
      } else {
        jmp := AddOffset(IJmp(0));
        TestedChoiceFilled(a, cs, code1, code2, code, test, jmp);
      }
      JumpToHere(test);
      Generate(g, t.p2, opt, NOINST, fl, depth);
      JumpToHere(jmp);
    }

    /** The last branch of CodeChoice: test(fail(p1)) -> L1; choice L1; p1; commit L2; L1: p2; L2: */
    method StackChoice(g: Rules, t: Tree, f1: First, opt: bool, fl: set<Byte>, depth: nat)
      requires t.TChoice?
      requires Valid() && WellFormed(g, t, depth) && Verified(g, t) && Dependable(t)
      modifies this
      ensures Valid()
      ensures code == old(code) +
        GuardedChoice(f1, Gen(g, t.p1, t.p2.TTrue?, GuardTest(f1, true), FULL, depth, true),
                      Gen(g, t.p2, opt, None, fl, depth, true))
      decreases t, 0
    {
      ghost var a := code;
      ghost var code1 := Gen(g, t.p1, t.p2.TTrue?, GuardTest(f1, true), FULL, depth, true);
      var test := CodeTestset(f1.cs, f1.e);
      var pchoice := AddOffset(IChoice(0));
      Generate(g, t.p1, t.p2.TTrue?, test, FULL, depth);
      var pcommit := AddOffset(ICommit(0));
      GuardedChoiceFilled(a, f1, code1, Gen(g, t.p2, opt, None, fl, depth, true), code, test, pchoice, pcommit);
      JumpToHere(pchoice);
      JumpToHere(test);
      Generate(g, t.p2, opt, NOINST, fl, depth);
      JumpToHere(pcommit);
    }

    method CodeRep(g: Rules, t: Tree, opt: bool, fl: set<Byte>, depth: nat)
      requires t.TRep?
      requires Valid() && WellFormed(g, t, depth) && Verified(g, t) && Dependable(t)
      modifies this
      ensures Valid()
      ensures code == old(code) + GenRep(g, t, opt, fl, depth, true)
      decreases t, 1
    {
      var f := GetFirst(g, t.p, FULL, depth);
      if ToCharset(t.p).Some? {
        var i := AddInstruction(ISpan(ToCharset(t.p).value));
        AddCharset();
      } else if HeadFail(g, t.p, depth) || (!f.e && f.cs !! fl) {
        ByteRep(g, t, f.cs, depth);
      } else {
        StackRep(g, t, f, opt, depth);
      }
    }

    /** L1: test(fail(p)) -> L2; p; jmp L1; L2: */
    method ByteRep(g: Rules, t: Tree, cs: set<Byte>, depth: nat)
      requires t.TRep?
      requires Valid() && WellFormed(g, t, depth) && Verified(g, t) && Dependable(t)
      modifies this
      ensures Valid()
      ensures code == old(code) + TestedRep(cs, Gen(g, t.p, false, Tested(cs, true), FULL, depth, true))
      decreases t, 0
    {
      ghost var a, body := code, Gen(g, t.p, false, Tested(cs, true), FULL, depth, true);
      var test := CodeTestset(cs, false);
      Generate(g, t.p, false, test, FULL, depth);
      var jmp := AddOffset(IJmp(0));
      TestedRepFilled(a, cs, body, code, test, jmp);
      JumpToHere(test);
      JumpToThere(jmp, test);
    }

    /** The entry of the enclosing optional part is used again, or a choice is opened. */
    method OpenLoop(opt: bool) returns (pchoice: int)
      requires Valid()
      modifies this
      ensures Valid()
      ensures pchoice == if opt then NOINST else |old(code)|
      ensures code == old(code) + Emit(if opt then IPartialCommit(2) else IChoice(0))
    {
      pchoice := NOINST;
      if opt {
        var reuse := AddOffset(IPartialCommit(0));
        ReusedChoiceFilled(old(code));
        JumpToHere(reuse);
      } else {
        pchoice := AddOffset(IChoice(0));
      }
    }

    /** test(fail(p)) -> L2; choice L2 (or, if opt, partialcommit L1); L1: p; partialcommit L1; L2: */
    method StackRep(g: Rules, t: Tree, f: First, opt: bool, depth: nat)
      requires t.TRep?
      requires Valid() && WellFormed(g, t, depth) && Verified(g, t) && Dependable(t)
      modifies this
      ensures Valid()
      ensures code == old(code) + CommitRep(f, Gen(g, t.p, false, None, FULL, depth, true), opt)
      decreases t, 0
    {
      hide CommitRep, OptionalTest;
      ghost var a, body := code, Gen(g, t.p, false, None, FULL, depth, true);
      var test := CodeTestset(f.cs, f.e);
      var pchoice := OpenLoop(opt);
      ghost var c := code;
      var l2 := |code|;
      Generate(g, t.p, false, NOINST, FULL, depth);
      var commit := AddOffset(IPartialCommit(0));
      LoopClosed(c, body, code, commit, l2);
      JumpToThere(commit, l2);
      if opt { OptRepFilled(a, f, body, code, test); } else { CommitRepFilled(a, f, body, code, test, pchoice); }
      JumpToHere(pchoice);
      JumpToHere(test);
    }

    // ---------- grammars ----------

    /** Follows a chain of jumps to its end. */
    method FindFinalTarget(i: int) returns (pc: int)
      requires Valid() && Halts(code, i)
      ensures pc == FinalTarget(code, i, |code|) && 0 <= pc < |code| && !code[pc].IJmp?
    {
      ghost var n: nat :| EndsAfter(code, i, n);
      ghost var left := n;
      pc := i;
      FinalTargetFinal(code, i);
      FinalTargetStable(code, i, n, |code|);
      while code[pc].IJmp?
        invariant 0 <= pc < |code| && EndsAfter(code, pc, left)
        invariant FinalTarget(code, pc, left) == FinalTarget(code, i, n)
        decreases left
      {
        pc := pc + code[pc].off;
        left := left - 1;
      }
    }

    /** Emits all rules, each followed by a return, and notes where they start. */
    method CodeRules(t: Tree, depth: nat, ghost base: nat) returns (positions: array<int>)
      requires t.TGrammar? && Valid() && base + 4 == |code|
      requires WellFormed([], t, depth) && Verified([], t) && Dependable(t)
      modifies this
      ensures Valid() && fresh(positions)
      ensures code == old(code) + Bodies(RuleCodes(t.rules, depth, true))
      ensures positions.Length == MAX_RULES
      ensures forall k :: 0 <= k < |t.rules| ==>
                positions[k] == base + RulePositions(RuleCodes(t.rules, depth, true))[k]
      decreases t, 1
    {
      ghost var a, codes := code, RuleCodes(t.rules, depth, true);
      positions := new int[MAX_RULES];
      assert codes[..0] == [] && a == a + [];
      for k := 0 to |t.rules|
        invariant Valid() && fresh(positions)
        invariant code == a + Bodies(codes[..k])
        invariant forall m :: 0 <= m < k ==> positions[m] == base + RulePositions(codes)[m]
      {
        ghost var before := Bodies(codes[..k]);
        positions[k] := |code|;
        Generate(t.rules, t.rules[k], false, NOINST, FULL, depth);
        var ret := AddInstruction(IRet);
        BodiesSnoc(codes, k);
        Assoc4(a, before, codes[k], [IRet]);
      }
      assert codes[..|codes|] == codes;
    }

    method CodeGrammar(g: Rules, t: Tree, depth: nat)
      requires t.TGrammar?
      requires Valid() && WellFormed(g, t, depth) && Verified(g, t) && Dependable(t)
      modifies this
      ensures Valid()
      ensures code == old(code) + GenGrammar(t, depth, true)
      decreases t, 2
    {
      hide Gen, Bodies, RulePositions, LinkReady;
      ghost var a, codes := code, RuleCodes(t.rules, depth, true);
      var firstcall := AddOffset(ICall(0));
      var jumptoend := AddOffset(IJmp(0));
      var start := |code|;
      GrammarFilled(a, Bodies(codes));
      JumpToHere(firstcall);
      var positions := CodeRules(t, depth, |a|);
      JumpToHere(jumptoend);
      GrammarReady(g, t, depth);
      CorrectCalls(positions, start, |code|, a, RulePositions(codes), GrammarCode(codes));
    }

    /** The body of the loop in CorrectCalls. */
    method CorrectCall(positions: array<int>, i: nat, ghost before: seq<Instr>, ghost current: seq<Instr>,
                       ghost relative: seq<int>)
      requires Valid() && code == before + current && |before| <= i < |code| && code[i].IOpenCall?
      requires current[i - |before|].rule < |relative| && Halts(current, i - |before| + 2)
      requires |relative| <= positions.Length
      requires forall k :: 0 <= k < |relative| ==> positions[k] == |before| + relative[k]
      modifies this
      ensures Valid() && code == before + LinkAt(current, relative, i - |before|)
    {
      ghost var j := i - |before|;
      var rulepos := positions[code[i].rule];
      ShiftedTarget(before, current, j + 2);
      var ft := FindFinalTarget(i + 2);
      LinkInPlace(before, current, relative, j, ft);
      code := code[i := if code[ft].IRet? then IJmp(0) else ICall(0)];
      JumpToThere(i, rulepos);
    }

    /** Turns the open calls of a grammar into calls, or into jumps where only a return follows.  `before` is the
        code in front of the grammar and `block` that of the grammar. */
    method CorrectCalls(positions: array<int>, from: nat, to: nat,
                        ghost before: seq<Instr>, ghost relative: seq<int>, ghost block: seq<Instr>)
      requires Valid() && code == before + block && to == |code| && from == |before| + 4
      requires LinkReady(block, relative)
      requires |relative| <= positions.Length
      requires forall k :: 0 <= k < |relative| ==> positions[k] == |before| + relative[k]
      modifies this
      ensures Valid() && code == before + Link(block, relative)
    {
      ghost var current := block;
      LinkSkips(block, relative, 0, 4);
      var i := from;
      while i < to
        invariant Valid() && |before| + 4 <= i <= to == |code| && code == before + current && |current| == |block|
        invariant LinkFrom(current, relative, i - |before|) == Link(block, relative)
        invariant Whole(current, |relative|) && current[|block| - 1] == IRet
      {
        current := CorrectWord(positions, i, before, relative, block, current);
        i := i + Size(code[i]);
      }
    }

    /** One instruction of a grammar's code. */
    method CorrectWord(positions: array<int>, i: nat, ghost before: seq<Instr>, ghost relative: seq<int>,
                       ghost block: seq<Instr>, ghost current: seq<Instr>) returns (ghost current': seq<Instr>)
      requires Valid() && |before| + 4 <= i < |code| && code == before + current && |current| == |block|
      requires LinkReady(block, relative) && |relative| <= positions.Length
      requires forall k :: 0 <= k < |relative| ==> positions[k] == |before| + relative[k]
      requires LinkFrom(current, relative, i - |before|) == Link(block, relative)
      requires Whole(current, |relative|) && current[|block| - 1] == IRet
      modifies this
      ensures Valid() && code == before + current' && |current'| == |block|
      ensures LinkFrom(current', relative, i + Size(code[i]) - |before|) == Link(block, relative)
      ensures Whole(current', |relative|) && current'[|block| - 1] == IRet && i + Size(code[i]) <= |code|
    {
      hide LinkReady, Link;
      ghost var j := i - |before|;
      assert WholeAt(current, j, |relative|) && code[i] == current[j];
      current' := current;
      if code[i].IOpenCall? {
        LinkStep(block, current, relative, j);
        CorrectCall(positions, i, before, current, relative);
        current' := LinkAt(current, relative, j);
      } else {
        LinkSkips(current, relative, j, j + Size(current[j]));
      }
    }

    // ---------- the jump optimiser ----------

    method FindFinalLabel(i: nat) returns (target: int)
      requires Valid() && i < |code| && HasLabel(code[i]) && LabelInside(code, i) && ChainsEnd(code, 0)
      ensures target == FinalLabel(code, i) && 0 <= target < |code|
    {
      target := FindFinalTarget(i + code[i].off);
    }

    method PeepholeJump(i: nat)
      requires Valid() && i < |code| && code[i].IJmp?
      requires Padded(code) && ChainsEnd(code, 0) && LabelsInside(code)
      modifies this
      ensures Valid() && Padded(code) && ChainsEnd(code, 0) && LabelsInside(code)
      ensures code == OptimizeAt(old(code), i)
    {
      ghost var was := code;
      OptimizeAtKeepsChains(code, i);
      OptimizeAtKeepsLabels(code, i);
      PaddingStays(code, i);
      var ft := FindFinalTarget(i);
      if Leaves(code[ft]) {
        assert PadAt(code, i + 1);
        code := code[i := code[ft]][i + 1 := IAny];
      } else if Commits(code[ft]) {
        assert LabelInside(code, ft);
        var fft := FindFinalLabel(ft);
        JumpToCommit(was, i, ft);
        code := code[i := WithOffset(code[ft], fft - i)];
        var target := FindFinalLabel(i);
        code := code[i := WithOffset(code[i], target - i)];
      } else {
        code := code[i := IJmp(ft - i)];
      }
    }

    method PeepholeLabel(i: nat)
      requires Valid() && i < |code| && HasLabel(code[i])
      requires Padded(code) && ChainsEnd(code, 0) && LabelsInside(code)
      modifies this
      ensures Valid() && Padded(code) && ChainsEnd(code, 0) && LabelsInside(code)
      ensures code == OptimizeAt(old(code), i)
    {
      OptimizeAtKeepsChains(code, i);
      OptimizeAtKeepsLabels(code, i);
      PaddingStays(code, i);
      assert LabelInside(code, i);
      var target := FindFinalLabel(i);
      code := code[i := WithOffset(code[i], target - i)];
    }

    /** Threads every label and every jump to its final target. */
    method OptimizeJumps()
      requires Valid() && Padded(code) && ChainsEnd(code, 0) && LabelsInside(code)
      modifies this
      ensures Valid() && code == Optimize(old(code))
    {
      var i := 0;
      while i < |code|
        invariant Valid() && Padded(code) && ChainsEnd(code, 0) && LabelsInside(code)
        invariant |code| == |old(code)| && OptimizeFrom(code, i) == Optimize(old(code))
        decreases |code| - i
      {
        if HasLabel(code[i]) {
          PeepholeLabel(i);
        } else if code[i].IJmp? {
          PeepholeJump(i);
        }
        i := i + Size(code[i]);
      }
    }
  }

  /** When a jump to a commit has become that commit, its label is threaded, too. */
  lemma JumpToCommit(code: seq<Instr>, i: nat, ft: int)
    requires i < |code| && code[i].IJmp? && Padded(code) && ChainsEnd(code, 0) && LabelsInside(code)
    requires ft == FinalTarget(code, i, |code|) && 0 <= ft < |code| && Commits(code[ft])
    ensures var code1 := code[i := WithOffset(code[ft], FinalLabel(code, ft) - i)];
            ChainsEnd(code1, 0) && LabelInside(code1, i) && OptimizeAt(code, i) == Relabel(code1, i)
  {
    var code1, ft1, ft2 := OptimizeSteps(code, i);
    ChainsAfterRewriting(code, code1, i, ft1);
    assert LabelInside(code, ft);
    FinalLabelInside(code, ft);
  }

  /** The whole compilation of a verified pattern. */
  method CompilePattern(t: Tree, depth: nat) returns (code: seq<Instr>)
    requires WellFormed([], t, depth) && Verified([], t) && Dependable(t)
    ensures code == Compile(t, depth)
  {
    var compst := new CompileState();
    compst.Generate([], t, false, NOINST, FULL, depth);
    assert [] + Gen([], t, false, None, FULL, depth, true) == Gen([], t, false, None, FULL, depth, true);
    var end := compst.AddInstruction(IEnd);
    AssembleWhole(t, depth);
    WholePadded(Assemble(t, depth), 0);
    CompiledChainsEnd(t, depth);
    compst.OptimizeJumps();
    code := compst.code;
  }
}
