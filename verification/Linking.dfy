/** Linking the open calls of a grammar: what linked code looks like, and where each rule stands. */
module Linking {
  import opened Peg
  import opened Analysis
  import opened Machine
  import opened CodeGen
  import opened Continuations
  import opened Layout

  // ---------- the words of linked code ----------

  /** Word `q` of `code` became a call of its rule in `linked`, or a jump to it where only a return follows. */
  ghost predicate CallLinked(code: seq<Instr>, linked: seq<Instr>, positions: seq<int>, q: nat)
    requires q < |code| == |linked| && code[q].IOpenCall? && code[q].rule < |positions|
  {
    linked[q] == ICall(positions[code[q].rule] - q) ||
    (linked[q] == IJmp(positions[code[q].rule] - q) && ReturnsFrom(linked, q + 2))
  }

  predicate Linkable(code: seq<Instr>, positions: seq<int>, q: nat)
    requires q < |code|
  {
    code[q].IOpenCall? && code[q].rule < |positions|
  }

  /** `linked` differs from `code` in open calls only. */
  ghost predicate KeepsOthers(code: seq<Instr>, linked: seq<Instr>) {
    |code| == |linked| && forall q :: 0 <= q < |code| && !code[q].IOpenCall? ==> linked[q] == code[q]
  }

  /** A chain of jumps to a return survives linking. */
  lemma {:induction false} ReturnSurvives(code: seq<Instr>, linked: seq<Instr>, q: int, n: nat)
    requires KeepsOthers(code, linked)
    requires 0 <= FinalTarget(code, q, n) < |code| && code[FinalTarget(code, q, n)].IRet?
    ensures FinalTarget(linked, q, n) == FinalTarget(code, q, n)
    decreases n
  {
    if n > 0 && 0 <= q < |code| && code[q].IJmp? { ReturnSurvives(code, linked, q + code[q].off, n - 1); }
  }

  /** Linking changes open calls only. */
  lemma {:induction false} LinkKeepsOthers(code: seq<Instr>, positions: seq<int>, i: nat)
    ensures KeepsOthers(code, LinkFrom(code, positions, i))
    decreases |code| - i
  {
    if i < |code| { LinkKeepsOthers(LinkAt(code, positions, i), positions, i + 1); }
  }

  /** Linking from word `i` on links every open call from there on and changes nothing else. */
  lemma {:induction false} LinkedWord(code: seq<Instr>, positions: seq<int>, i: nat, q: nat)
    requires q < |code|
    ensures var linked := LinkFrom(code, positions, i);
            if q >= i && Linkable(code, positions, q) then CallLinked(code, linked, positions, q)
            else linked[q] == code[q]
    decreases |code| - i
  {
    if i < |code| {
      LinkedWord(LinkAt(code, positions, i), positions, i + 1, q);
      if q == i && Linkable(code, positions, i) && TailCall(code, i) {
        LinkKeepsOthers(code, positions, i);
        ReturnSurvives(code, LinkFrom(code, positions, i), i + 2, |code|);
      }
    }
  }

  /** Words that are not open calls are passed over. */
  lemma {:induction false} LinkSkips(code: seq<Instr>, positions: seq<int>, i: nat, k: nat)
    requires i <= k <= |code| && forall q :: i <= q < k ==> !code[q].IOpenCall?
    ensures LinkFrom(code, positions, i) == LinkFrom(code, positions, k)
    decreases k - i
  {
    if i < k { LinkSkips(code, positions, i + 1, k); }
  }

  // ---------- whole instructions ----------

  /** The instruction at word `q` is whole, and if it is an open call, it names one of the first `n` rules. */
  ghost predicate WholeAt(code: seq<Instr>, q: nat, n: nat)
    requires q < |code|
  {
    (code[q].IOpenCall? ==> code[q].rule < n) &&
    q + Size(code[q]) <= |code| && forall y :: q < y < q + Size(code[q]) ==> code[y] == IPad
  }

  ghost predicate Whole(code: seq<Instr>, n: nat) {
    forall q: nat | q < |code| :: WholeAt(code, q, n)
  }

  lemma WholeConcat(a: seq<Instr>, b: seq<Instr>, n: nat)
    requires Whole(a, n) && Whole(b, n)
    ensures Whole(a + b, n)
  {
    forall q: nat | q < |a + b| ensures WholeAt(a + b, q, n) {
      if q < |a| {
        assert WholeAt(a, q, n);
      } else {
        assert WholeAt(b, q - |a|, n);
        assert (a + b)[q] == b[q - |a|];
        forall y | q < y < q + Size(b[q - |a|]) ensures (a + b)[y] == IPad { assert (a + b)[y] == b[y - |a|]; }
      }
    }
  }

  lemma WholeOne(ins: Instr, n: nat)
    requires ins.IOpenCall? ==> ins.rule < n
    ensures Whole(Emit(ins), n) && (Size(ins) == 1 ==> Whole([ins], n))
  {
  }

  lemma Whole3(a: seq<Instr>, b: seq<Instr>, c: seq<Instr>, n: nat)
    requires Whole(a, n) && Whole(b, n) && Whole(c, n)
    ensures Whole(a + b + c, n)
  {
    WholeConcat(a, b, n);
    WholeConcat(a + b, c, n);
  }

  lemma TestWhole(f: First, skip: nat, n: nat)
    ensures Whole(OptionalTest(f, skip), n)
  {
    WholeOne(TestInstr(f.cs, TestSize(f.cs) + skip), n);
  }

  lemma TestedChoiceWhole(cs: set<Byte>, code1: seq<Instr>, code2: seq<Instr>, empty2: bool, n: nat)
    requires Whole(code1, n) && Whole(code2, n)
    ensures Whole(TestedChoice(cs, code1, code2, empty2), n)
  {
    var jmp := if empty2 then [] else Emit(IJmp(2 + |code2|));
    var test := TestInstr(cs, TestSize(cs) + |code1| + |jmp|);
    WholeOne(IJmp(2 + |code2|), n);
    WholeOne(test, n);
    Whole3(Emit(test), code1, jmp, n);
    WholeConcat(Emit(test) + code1 + jmp, code2, n);
  }

  lemma ReusedChoiceWhole(code1: seq<Instr>, n: nat)
    requires Whole(code1, n)
    ensures Whole(ReusedChoice(code1), n)
  {
    WholeOne(IPartialCommit(2), n);
    WholeConcat(Emit(IPartialCommit(2)), code1, n);
  }

  lemma GuardedChoiceWhole(f: First, code1: seq<Instr>, code2: seq<Instr>, n: nat)
    requires Whole(code1, n) && Whole(code2, n)
    ensures Whole(GuardedChoice(f, code1, code2), n)
  {
    var test, enter, leave := OptionalTest(f, 2 + |code1| + 2), IChoice(2 + |code1| + 2), ICommit(2 + |code2|);
    TestWhole(f, 2 + |code1| + 2, n);
    WholeOne(enter, n);
    WholeOne(leave, n);
    Whole3(test, Emit(enter), code1, n);
    Whole3(test + Emit(enter) + code1, Emit(leave), code2, n);
  }

  lemma RepWhole(f: First, body: seq<Instr>, opt: bool, n: nat)
    requires Whole(body, n)
    ensures Whole(TestedRep(f.cs, body), n) && Whole(CommitRep(f, body, opt), n)
  {
    var test, back := TestInstr(f.cs, TestSize(f.cs) + |body| + 2), IJmp(-(TestSize(f.cs) + |body|));
    WholeOne(test, n);
    WholeOne(back, n);
    Whole3(Emit(test), body, Emit(back), n);
    var enter := if opt then IPartialCommit(2) else IChoice(2 + |body| + 2);
    TestWhole(f, 2 + |body| + 2, n);
    WholeOne(enter, n);
    WholeOne(IPartialCommit(-|body|), n);
    Whole3(OptionalTest(f, 2 + |body| + 2), Emit(enter), body, n);
    WholeConcat(OptionalTest(f, 2 + |body| + 2) + Emit(enter) + body, Emit(IPartialCommit(-|body|)), n);
  }

  lemma PredicateWhole(f: First, body: seq<Instr>, len: nat, n: nat)
    requires Whole(body, n)
    ensures Whole(TestedNot(f), n) && Whole(ChoiceNot(f, body), n)
    ensures Whole(StepBackAnd(body, len), n) && Whole(CommitAnd(body), n) && Whole(BehindCode(len, body), n)
  {
    WholeOne(IFail, n);
    WholeOne(IFailTwice, n);
    WholeOne(IBehind(len), n);
    WholeOne(IBackCommit(3), n);
    WholeOne(IChoice(2 + |body| + 1), n);
    WholeOne(IChoice(2 + |body| + 2), n);
    TestWhole(f, 1, n);
    TestWhole(f, 2 + |body| + 1, n);
    WholeConcat(OptionalTest(f, 1), [IFail], n);
    Whole3(OptionalTest(f, 2 + |body| + 1), Emit(IChoice(2 + |body| + 1)), body, n);
    WholeConcat(OptionalTest(f, 2 + |body| + 1) + Emit(IChoice(2 + |body| + 1)) + body, [IFailTwice], n);
    var behind := if len > 0 then [IBehind(len)] else [];
    WholeConcat(body, behind, n);
    WholeConcat(behind, body, n);
    Whole3(Emit(IChoice(2 + |body| + 2)), body, Emit(IBackCommit(3)), n);
    WholeConcat(Emit(IChoice(2 + |body| + 2)) + body + Emit(IBackCommit(3)), [IFail], n);
  }

  lemma CaptureWhole(key: nat, value: nat, body: seq<Instr>, n: nat)
    requires Whole(body, n)
    ensures Whole(CaptureCode(key, body), n) && Whole(ConstCaptureCode(key, value), n)
  {
    WholeOne(IOpenCapture(false, key), n);
    WholeOne(IOpenCapture(true, key), n);
    WholeOne(ICloseCapture, n);
    WholeOne(ICloseConstCapture(value), n);
    Whole3(Emit(IOpenCapture(false, key)), body, [ICloseCapture], n);
    WholeConcat(Emit(IOpenCapture(true, key)), [ICloseConstCapture(value)], n);
  }

  lemma {:induction false} BodiesWhole(codes: seq<seq<Instr>>, n: nat)
    requires forall k :: 0 <= k < |codes| ==> Whole(codes[k], n)
    ensures Whole(Bodies(codes), n)
  {
    if codes != [] {
      BodiesWhole(codes[1..], n);
      WholeOne(IRet, n);
      Whole3(codes[0], [IRet], Bodies(codes[1..]), n);
    }
  }

  /** Linking keeps instructions whole. */
  lemma {:induction false} LinkWhole(code: seq<Instr>, positions: seq<int>, i: nat, n: nat)
    requires Whole(code, n)
    ensures Whole(LinkFrom(code, positions, i), n)
    decreases |code| - i
  {
    if i < |code| {
      var code1 := LinkAt(code, positions, i);
      assert WholeAt(code, i, n);
      forall q: nat | q < |code1| ensures WholeAt(code1, q, n) {
        assert WholeAt(code, q, n);
        assert Size(code1[q]) == Size(code[q]);
      }
      LinkWhole(code1, positions, i + 1, n);
    }
  }

  lemma GrammarWhole(codes: seq<seq<Instr>>, n: nat)
    requires forall k :: 0 <= k < |codes| ==> Whole(codes[k], |codes|)
    ensures Whole(GrammarCode(codes), |codes|)
    ensures Whole(Link(GrammarCode(codes), RulePositions(codes)), n)
  {
    var code, positions := GrammarCode(codes), RulePositions(codes);
    BodiesWhole(codes, |codes|);
    WholeOne(ICall(4), |codes|);
    WholeOne(IJmp(2 + |Bodies(codes)|), |codes|);
    Whole3(Emit(ICall(4)), Emit(IJmp(2 + |Bodies(codes)|)), Bodies(codes), |codes|);
    LinkWhole(code, positions, 0, |codes|);
    var linked := Link(code, positions);
    forall q: nat | q < |linked| ensures WholeAt(linked, q, n) {
      assert WholeAt(linked, q, |codes|) && WholeAt(code, q, |codes|);
      LinkedWord(code, positions, 0, q);
    }
  }

  lemma WholeNone(n: nat)
    ensures Whole([], n)
  {
  }

  /** The code of a tree is made of whole instructions, and its open calls name rules of the enclosing grammar. */
  lemma {:induction false} GenWhole(
    g: Rules, t: Tree, opt: bool, tt: Option<Known>, fl: set<Byte>, depth: nat, short: bool)
    requires WellFormed(g, t, depth)
    ensures Whole(Gen(g, t, opt, tt, fl, depth, short), |g|)
    decreases t, 1
  {
    hide Whole;
    match t
    case TTrue => WholeNone(|g|);
    case TChar(c) => WholeOne(CharInstr(c, tt), |g|);
    case TAny => WholeOne(IAny, |g|);
    case TSet(cs) => WholeOne(CharsetInstr(cs, tt), |g|);
    case TFalse => WholeOne(IFail, |g|);
    case TCall(k) => WholeOne(IOpenCall(k), |g|);
    case TConstCapture(key, value) =>
      WholeNone(|g|);
      CaptureWhole(key, value, [], |g|);
    case TCapture(key, p) =>
      GenWhole(g, p, false, tt, fl, depth, short);
      CaptureWhole(key, 0, Gen(g, p, false, tt, fl, depth, short), |g|);
    case TSeq(_, _) => SequenceWhole(g, t, opt, tt, fl, depth, short);
    case TChoice(_, _) => ChoiceWhole(g, t, opt, fl, depth, short);
    case TRep(_) => RepetitionWhole(g, t, opt, fl, depth, short);
    case TNot(p) =>
      GenWhole(g, p, false, None, FULL, depth, short);
      PredicateWhole(GetFirst(g, p, FULL, depth), Gen(g, p, false, None, FULL, depth, short), 0, |g|);
    case TAnd(p) =>
      GenWhole(g, p, false, tt, FULL, depth, short);
      var len := if FixedLen(g, p) >= 0 then FixedLen(g, p) else 0;
      PredicateWhole(GetFirst(g, p, FULL, depth), Gen(g, p, false, tt, FULL, depth, short), len, |g|);
    case TBehind(n, p) =>
      GenWhole(g, p, false, None, FULL, depth, short);
      PredicateWhole(GetFirst(g, p, FULL, depth), Gen(g, p, false, None, FULL, depth, short), n, |g|);
    case TGrammar(_) => RulesWhole(g, t, depth, short);
  }

  lemma {:induction false} SequenceWhole(
    g: Rules, t: Tree, opt: bool, tt: Option<Known>, fl: set<Byte>, depth: nat, short: bool)
    requires t.TSeq? && WellFormed(g, t, depth)
    ensures Whole(GenSeq(g, t, opt, tt, fl, depth, short), |g|)
    decreases t, 0
  {
    hide Whole;
    var fl1, tt2 := SeqFollow(g, t.p1, t.p2, fl, depth), SeqTest(g, t.p1, tt);
    GenWhole(g, t.p1, false, tt, fl1, depth, short);
    GenWhole(g, t.p2, opt, tt2, fl, depth, short);
    WholeConcat(Gen(g, t.p1, false, tt, fl1, depth, short), Gen(g, t.p2, opt, tt2, fl, depth, short), |g|);
  }

  lemma {:induction false} ChoiceWhole(g: Rules, t: Tree, opt: bool, fl: set<Byte>, depth: nat, short: bool)
    requires t.TChoice? && WellFormed(g, t, depth)
    ensures Whole(GenChoice(g, t, opt, fl, depth, short), |g|)
    decreases t, 0
  {
    hide Whole;
    var p1, p2 := t.p1, t.p2;
    var f1, code2 := GetFirst(g, p1, FULL, depth), Gen(g, p2, opt, None, fl, depth, short);
    GenWhole(g, p2, opt, None, fl, depth, short);
    if Deterministic(g, p1, p2, fl, depth) {
      GenWhole(g, p1, false, Tested(f1.cs, short), fl, depth, short);
      TestedChoiceWhole(f1.cs, Gen(g, p1, false, Tested(f1.cs, short), fl, depth, short), code2, p2.TTrue?, |g|);
    } else if opt && p2.TTrue? {
      GenWhole(g, p1, true, None, FULL, depth, short);
      ReusedChoiceWhole(Gen(g, p1, true, None, FULL, depth, short), |g|);
    } else {
      GenWhole(g, p1, p2.TTrue?, GuardTest(f1, short), FULL, depth, short);
      GuardedChoiceWhole(f1, Gen(g, p1, p2.TTrue?, GuardTest(f1, short), FULL, depth, short), code2, |g|);
    }
  }

  lemma {:induction false} RepetitionWhole(g: Rules, t: Tree, opt: bool, fl: set<Byte>, depth: nat, short: bool)
    requires t.TRep? && WellFormed(g, t, depth)
    ensures Whole(GenRep(g, t, opt, fl, depth, short), |g|)
    decreases t, 0
  {
    hide Whole;
    var f := GetFirst(g, t.p, FULL, depth);
    if ToCharset(t.p).Some? {
      WholeOne(ISpan(ToCharset(t.p).value), |g|);
    } else {
      var tt := if DeterministicRep(g, t.p, fl, depth) then Tested(f.cs, short) else None;
      GenWhole(g, t.p, false, tt, FULL, depth, short);
      RepWhole(f, Gen(g, t.p, false, tt, FULL, depth, short), opt, |g|);
    }
  }

  lemma {:induction false} RulesWhole(g: Rules, t: Tree, depth: nat, short: bool)
    requires t.TGrammar? && WellFormed(g, t, depth)
    ensures Whole(GenGrammar(t, depth, short), |g|)
    decreases t, 0
  {
    hide Whole;
    var rs, codes := t.rules, RuleCodes(t.rules, depth, short);
    forall k | 0 <= k < |rs| ensures Whole(codes[k], |rs|) {
      GenWhole(rs, rs[k], false, None, FULL, depth, short);
    }
    assert GenGrammar(t, depth, short) == Link(GrammarCode(codes), RulePositions(codes));
    GrammarWhole(codes, |g|);
  }

  // ---------- linked code in place ----------

  /** Positions inside code that stands at `pc`, as addresses. */
  ghost function Shifted(positions: seq<int>, pc: int): (env: seq<int>)
    ensures |env| == |positions| && forall k :: 0 <= k < |env| ==> env[k] == pc + positions[k]
  {
    seq(|positions|, k requires 0 <= k < |positions| => pc + positions[k])
  }

  lemma {:induction false} BodiesSplit(codes: seq<seq<Instr>>, k: nat)
    requires k < |codes|
    ensures Bodies(codes) == Bodies(codes[..k]) + (codes[k] + [IRet]) + Bodies(codes[k + 1..])
  {
    if k == 0 {
      assert codes[..0] == [];
    } else {
      BodiesSplit(codes[1..], k - 1);
      assert codes[1..][..k - 1] == codes[..k][1..];
      assert codes[1..][k..] == codes[k + 1..];
    }
  }

  lemma BodiesSnoc(codes: seq<seq<Instr>>, k: nat)
    requires k < |codes|
    ensures Bodies(codes[..k + 1]) == Bodies(codes[..k]) + codes[k] + [IRet]
  {
    var front := codes[..k + 1];
    BodiesSplit(front, k);
    assert front[..k] == codes[..k] && front[k + 1..] == [];
    assert Bodies(codes[..k]) + (codes[k] + [IRet]) + [] == Bodies(codes[..k]) + codes[k] + [IRet];
  }

  /** A chain of jumps to a return, inside code that stands at `pc`. */
  lemma {:induction false} ReturnInPlace(c: Ctx, pc: int, linked: seq<Instr>, env: seq<int>, q: int, n: nat)
    requires At(c, pc, linked, env)
    requires 0 <= FinalTarget(linked, q, n) < |linked| && linked[FinalTarget(linked, q, n)].IRet?
    ensures FinalTarget(c.code, pc + q, n) == pc + FinalTarget(linked, q, n)
    ensures 0 <= pc + FinalTarget(linked, q, n) < |c.code| && c.code[pc + FinalTarget(linked, q, n)].IRet?
    decreases n
  {
    AtWord(c, pc, linked, FinalTarget(linked, q, n), env);
    if 0 <= q < |linked| {
      AtWord(c, pc, linked, q, env);
      if n > 0 && linked[q].IJmp? { ReturnInPlace(c, pc, linked, env, q + linked[q].off, n - 1); }
    }
  }

  /** Word `q` of some code, once linked and in place. */
  lemma LinkedWordAt(c: Ctx, pc: int, code: seq<Instr>, positions: seq<int>, env: seq<int>, q: nat)
    requires At(c, pc, Link(code, positions), env) && q < |code|
    requires code[q].IOpenCall? ==> code[q].rule < |positions|
    ensures 0 <= pc + q < |c.code| && WordAt(c.code, pc + q, code[q], Shifted(positions, pc))
  {
    var linked := Link(code, positions);
    LinkedWord(code, positions, 0, q);
    AtWord(c, pc, linked, q, env);
    if code[q].IOpenCall? {
      assert Linkable(code, positions, q) && CallLinked(code, linked, positions, q);
      if linked[q].IJmp? {
        var n: nat :| 0 <= FinalTarget(linked, q + 2, n) < |linked| && linked[FinalTarget(linked, q + 2, n)].IRet?;
        ReturnInPlace(c, pc, linked, env, q + 2, n);
      }
    }
  }

  /** A part of linked code is in place with its open calls linked. */
  lemma LinkedPartAt(c: Ctx, pc: int, code: seq<Instr>, positions: seq<int>, env: seq<int>,
                     before: seq<Instr>, part: seq<Instr>, after: seq<Instr>)
    requires At(c, pc, Link(code, positions), env) && Whole(code, |positions|)
    requires code == before + part + after && part != []
    ensures At(c, pc + |before|, part, Shifted(positions, pc))
  {
    hide At, Link, Shifted;
    AtWord(c, pc, Link(code, positions), 0, env);
    var env' := Shifted(positions, pc);
    forall x: nat | x < |part| ensures WordAt(c.code, pc + |before| + x, part[x], env') {
      PartOf(before, part, after, x);
      assert WholeAt(code, |before| + x, |positions|);
      LinkedWordAt(c, pc, code, positions, env, |before| + x);
    }
    AtIntro(c, pc + |before|, part, env');
  }

  lemma PartOf(before: seq<Instr>, part: seq<Instr>, after: seq<Instr>, x: nat)
    requires x < |part|
    ensures (before + part + after)[|before| + x] == part[x]
  {
  }

  /** Where the rules of a grammar whose code stands at `pc` are. */
  ghost function RuleAddresses(codes: seq<seq<Instr>>, pc: int): (env: seq<int>)
    ensures |env| == |codes|
  {
    Shifted(RulePositions(codes), pc)
  }

  lemma Regroup(a: seq<Instr>, b: seq<Instr>, c: seq<Instr>, d: seq<Instr>)
    ensures a + (b + c + d) == a + b + c + d
    ensures a + b + c == [] + a + (b + c)
  {
  }

  /** Each rule of a linked grammar stands at its address, followed by a return. */
  lemma RuleInPlace(c: Ctx, pc: int, codes: seq<seq<Instr>>, env: seq<int>, k: nat)
    requires At(c, pc, Link(GrammarCode(codes), RulePositions(codes)), env)
    requires Whole(GrammarCode(codes), |codes|) && k < |codes|
    ensures At(c, RuleAddresses(codes, pc)[k], codes[k] + [IRet], RuleAddresses(codes, pc))
  {
    hide At, Link;
    var head := Emit(ICall(4)) + Emit(IJmp(2 + |Bodies(codes)|));
    var before, rule, after := Bodies(codes[..k]), codes[k] + [IRet], Bodies(codes[k + 1..]);
    BodiesSplit(codes, k);
    Regroup(head, before, rule, after);
    LinkedPartAt(c, pc, GrammarCode(codes), RulePositions(codes), env, head + before, rule, after);
  }

  /** The first words of a linked grammar: a call of the first rule, then a jump to the end. */
  lemma GrammarHead(c: Ctx, pc: int, codes: seq<seq<Instr>>, env: seq<int>)
    requires At(c, pc, Link(GrammarCode(codes), RulePositions(codes)), env)
    requires Whole(GrammarCode(codes), |codes|) && codes != []
    ensures var end := pc + |GrammarCode(codes)|;
            Holds(c, pc, ICall(RuleAddresses(codes, pc)[0] - pc)) && Holds(c, pc + 2, IJmp(end - (pc + 2)))
  {
    hide At, Whole, Link;
    var call, jmp := Emit(ICall(4)), Emit(IJmp(2 + |Bodies(codes)|));
    assert codes[..0] == [];
    Regroup(call, jmp, Bodies(codes), []);
    LinkedPartAt(c, pc, GrammarCode(codes), RulePositions(codes), env, [], call, jmp + Bodies(codes));
    AtEmit(c, pc, ICall(4), RuleAddresses(codes, pc));
    LinkedPartAt(c, pc, GrammarCode(codes), RulePositions(codes), env, call, jmp, Bodies(codes));
    AtEmit(c, pc + 2, IJmp(2 + |Bodies(codes)|), RuleAddresses(codes, pc));
  }

  /** Code whose open calls are all linked stands as it is. */
  lemma WholeStands(c: Ctx, block: seq<Instr>)
    requires Whole(c.code, 0) && block <= c.code
    ensures At(c, 0, block, [])
  {
    forall x: nat | x < |block| ensures WordAt(c.code, 0 + x, block[x], []) { assert WholeAt(c.code, x, 0); }
    AtIntro(c, 0, block, []);
  }
}
