/** Filling in the offsets of emitted code gives its shapes. */
module Patching {
  // The instructions were emitted before their targets were known.

  import opened Peg
  import opened Analysis
  import opened Machine
  import opened CodeGen

  /** Instructions with an offset word. */
  predicate HasOffset(ins: Instr) {
    ins.IPartialCommit? || ins.ITestAny? || ins.IJmp? || ins.ICall? || ins.IChoice? || ins.ICommit? ||
    ins.IBackCommit? || ins.ITestChar? || ins.ITestSet?
  }

  /** The instruction at `i` can be patched; a negative `i` stands for none. */
  predicate OffsetAt(code: seq<Instr>, i: int) {
    0 <= i ==> i < |code| && HasOffset(code[i])
  }

  function SetOffset(ins: Instr, off: int): (r: Instr)
    requires HasOffset(ins)
    ensures HasOffset(r) && Size(r) == Size(ins)
  {
    ins.(off := off)
  }

  /** The effect of patching the instruction at `i` to go to `target`; a negative `i` stands for none. */
  function Patched(code: seq<Instr>, i: int, target: int): (r: seq<Instr>)
    ensures |r| == |code|
  {
    if 0 <= i < |code| && HasOffset(code[i]) then code[i := SetOffset(code[i], target - i)] else code
  }

  /** `x` is `x0` with its instruction's offset set to `off`. */
  ghost predicate Fills(x0: seq<Instr>, x: seq<Instr>, off: int) {
    |x0| == |x| > 0 && HasOffset(x0[0]) && x == x0[0 := SetOffset(x0[0], off)]
  }

  lemma FillsEmit(ins: Instr, off: int)
    requires HasOffset(ins)
    ensures Fills(Emit(ins), Emit(SetOffset(ins, off)), off)
  {
  }

  lemma PatchOne(a: seq<Instr>, x0: seq<Instr>, x: seq<Instr>, b: seq<Instr>, off: int)
    requires Fills(x0, x, off)
    ensures OffsetAt(a + x0 + b, |a|) && Patched(a + x0 + b, |a|, |a| + off) == a + x + b
  {
    assert (a + x0 + b)[|a|] == x0[0];
  }

  /** Patching an instruction with nothing behind it. */
  lemma PatchLast(a: seq<Instr>, x0: seq<Instr>, x: seq<Instr>, off: int)
    requires Fills(x0, x, off)
    ensures OffsetAt(a + x0, |a|) && Patched(a + x0, |a|, |a| + off) == a + x
  {
    assert (a + x0)[|a|] == x0[0];
  }

  lemma TestOffset(cs: set<Byte>, off: int)
    ensures HasOffset(TestInstr(cs, off)) && SetOffset(TestInstr(cs, 0), off) == TestInstr(cs, off)
    ensures |Emit(TestInstr(cs, off))| == TestSize(cs)
  {
  }

  lemma FillsTest(cs: set<Byte>, off: int)
    ensures Fills(Emit(TestInstr(cs, 0)), Emit(TestInstr(cs, off)), off) && |Emit(TestInstr(cs, 0))| == TestSize(cs)
  {
    TestOffset(cs, 0);
    TestOffset(cs, off);
    FillsEmit(TestInstr(cs, 0), off);
  }

  /** A test with its offset still open, or nothing. */
  function OpenTest(f: First): seq<Instr> { if f.e then [] else Emit(TestInstr(f.cs, 0)) }

  /** Where the open test of a pattern stands, or -1. */
  function TestPosition(f: First, here: nat): int { if f.e then -1 else here }

  /** `t` is the optional test `t0` with its offset set to `off`. */
  ghost predicate FillsTo(e: bool, t0: seq<Instr>, t: seq<Instr>, off: int) {
    if e then t0 == t == [] else Fills(t0, t, off)
  }

  lemma PatchTest(e: bool, a: seq<Instr>, t0: seq<Instr>, t: seq<Instr>, b: seq<Instr>, off: int)
    requires FillsTo(e, t0, t, off)
    ensures var i := if e then -1 else |a|;
            OffsetAt(a + t0 + b, i) && Patched(a + t0 + b, i, |a| + off) == a + t + b
  {
    if !e { PatchOne(a, t0, t, b, off); }
  }

  // ---------- concatenation, regrouped ----------

  lemma Assoc(a: seq<Instr>, b: seq<Instr>, c: seq<Instr>)
    ensures a + b + c == a + (b + c)
  {
  }

  lemma Assoc4(a: seq<Instr>, b: seq<Instr>, c: seq<Instr>, d: seq<Instr>)
    ensures a + b + c + d == a + (b + c + d) == a + b + (c + d)
  {
    Assoc(a + b, c, d);
    Assoc(a, b, c + d);
    Assoc(b, c, d);
  }

  lemma Assoc5(a: seq<Instr>, b: seq<Instr>, c: seq<Instr>, d: seq<Instr>, e: seq<Instr>)
    ensures a + b + c + d + e == a + (b + c + d + e) == a + b + (c + d + e)
  {
    Assoc4(a, b, c, d);
    Assoc(a, b + c + d, e);
    Assoc4(a + b, c, d, e);
  }

  lemma Assoc6(a: seq<Instr>, b: seq<Instr>, c: seq<Instr>, d: seq<Instr>, e: seq<Instr>, f: seq<Instr>)
    ensures a + b + c + d + e + f == a + (b + c + d + e + f)
  {
    Assoc5(a, b, c, d, e);
    Assoc(a, b + c + d + e, f);
  }

  // ---------- the order in which the shapes are filled in, on the parts alone ----------

  /** x -> b; y -> c: an instruction that skips the next two parts, the second of which skips the last. */
  lemma FillBoth(
    a: seq<Instr>, x0: seq<Instr>, x: seq<Instr>, b: seq<Instr>, y0: seq<Instr>, y: seq<Instr>, c: seq<Instr>)
    requires Fills(x0, x, |x0| + |b| + |y0|) && Fills(y0, y, |y0| + |c|)
    ensures var s1 := a + x0 + b + y0;
            var s2 := Patched(s1, |a|, |s1|) + c;
            OffsetAt(s1, |a|) && OffsetAt(s2, |a| + |x0| + |b|) &&
            Patched(s2, |a| + |x0| + |b|, |s2|) == a + (x + b + y + c)
  {
    Assoc(a + x0, b, y0);
    PatchOne(a, x0, x, b + y0, |x0| + |b| + |y0|);
    Assoc(a + x, b, y0);
    PatchOne(a + x + b, y0, y, c, |y0| + |c|);
    Assoc5(a, x, b, y, c);
  }

  /** The same without the second instruction. */
  lemma FillFirst(a: seq<Instr>, x0: seq<Instr>, x: seq<Instr>, b: seq<Instr>)
    requires Fills(x0, x, |x0| + |b|)
    ensures OffsetAt(a + x0 + b, |a|) && Patched(a + x0 + b, |a|, |a + x0 + b|) == a + (x + b)
  {
    PatchOne(a, x0, x, b, |x0| + |b|);
    Assoc(a, x, b);
  }

  /** A loop: the first instruction skips the body and the jump back. */
  lemma FillLoop(a: seq<Instr>, x0: seq<Instr>, x: seq<Instr>, b: seq<Instr>, y0: seq<Instr>, y: seq<Instr>)
    requires Fills(x0, x, |x0| + |b| + |y0|) && Fills(y0, y, -(|x0| + |b|))
    ensures var s1 := a + x0 + b + y0;
            OffsetAt(s1, |a|) && OffsetAt(Patched(s1, |a|, |s1|), |a| + |x0| + |b|) &&
            Patched(Patched(s1, |a|, |s1|), |a| + |x0| + |b|, |a|) == a + (x + b + y)
  {
    Assoc(a + x0, b, y0);
    PatchOne(a, x0, x, b + y0, |x0| + |b| + |y0|);
    Assoc(a + x, b, y0);
    PatchLast(a + x + b, y0, y, -(|x0| + |b|));
    Assoc4(a, x, b, y);
  }

  /** An optional test, then an instruction; both skip the next two parts. */
  lemma FillGuard(e: bool, a: seq<Instr>, t0: seq<Instr>, t: seq<Instr>, x0: seq<Instr>, x: seq<Instr>,
                  b: seq<Instr>, y: seq<Instr>)
    requires var skip := |x0| + |b| + |y|; FillsTo(e, t0, t, |t0| + skip) && Fills(x0, x, skip)
    ensures var s1, i := a + t0 + x0 + b + y, if e then -1 else |a|;
            OffsetAt(s1, |a| + |t0|) && OffsetAt(Patched(s1, |a| + |t0|, |s1|), i) &&
            Patched(Patched(s1, |a| + |t0|, |s1|), i, |s1|) == a + (t + x + b + y)
  {
    var skip := |x0| + |b| + |y|;
    Assoc(a + t0 + x0, b, y);
    PatchOne(a + t0, x0, x, b + y, skip);
    Assoc4(a + t0, x, b, y);
    PatchTest(e, a, t0, t, x + b + y, |t0| + skip);
    Assoc4(a + t, x, b, y);
    Assoc5(a, t, x, b, y);
  }

  /** An optional test that skips three parts. */
  lemma FillTest(e: bool, a: seq<Instr>, t0: seq<Instr>, t: seq<Instr>, x: seq<Instr>, b: seq<Instr>, y: seq<Instr>)
    requires FillsTo(e, t0, t, |t0| + |x| + |b| + |y|)
    ensures var s1, i := a + t0 + x + b + y, if e then -1 else |a|;
            OffsetAt(s1, i) && Patched(s1, i, |s1|) == a + (t + x + b + y)
  {
    Assoc4(a + t0, x, b, y);
    PatchTest(e, a, t0, t, x + b + y, |t0| + |x| + |b| + |y|);
    Assoc4(a + t, x, b, y);
    Assoc5(a, t, x, b, y);
  }

  // ---------- the shapes ----------

  lemma FillsOptionalTest(f: First, skip: nat)
    ensures FillsTo(f.e, OpenTest(f), OptionalTest(f, skip), |OpenTest(f)| + skip)
    ensures |OpenTest(f)| == |OptionalTest(f, skip)|
  {
    if !f.e { FillsTest(f.cs, TestSize(f.cs) + skip); }
  }

  lemma ReusedChoiceFilled(a: seq<Instr>)
    ensures OffsetAt(a + Emit(IPartialCommit(0)), |a|)
    ensures Patched(a + Emit(IPartialCommit(0)), |a|, |a| + 2) == a + Emit(IPartialCommit(2))
  {
    FillsEmit(IPartialCommit(0), 2);
    PatchLast(a, Emit(IPartialCommit(0)), Emit(IPartialCommit(2)), 2);
  }

  lemma TestedChoiceFilled(a: seq<Instr>, cs: set<Byte>, code1: seq<Instr>, code2: seq<Instr>,
                           s1: seq<Instr>, test: int, jmp: int)
    requires s1 == a + Emit(TestInstr(cs, 0)) + code1 + Emit(IJmp(0))
    requires test == |a| && jmp == |a| + TestSize(cs) + |code1|
    ensures var s2 := Patched(s1, test, |s1|) + code2;
            OffsetAt(s1, test) && OffsetAt(s2, jmp) &&
            Patched(s2, jmp, |s2|) == a + TestedChoice(cs, code1, code2, false)
  {
    hide TestInstr, Emit;
    var off := TestSize(cs) + |code1| + 2;
    FillsTest(cs, off);
    FillsEmit(IJmp(0), 2 + |code2|);
    FillBoth(a, Emit(TestInstr(cs, 0)), Emit(TestInstr(cs, off)), code1, Emit(IJmp(0)), Emit(IJmp(2 + |code2|)), code2);
  }

  lemma LastChoiceFilled(a: seq<Instr>, cs: set<Byte>, code1: seq<Instr>, s1: seq<Instr>, test: int)
    requires s1 == a + Emit(TestInstr(cs, 0)) + code1 && test == |a|
    ensures OffsetAt(s1, test) && Patched(s1, test, |s1|) == a + TestedChoice(cs, code1, [], true)
  {
    var off := TestSize(cs) + |code1|;
    FillsTest(cs, off);
    FillFirst(a, Emit(TestInstr(cs, 0)), Emit(TestInstr(cs, off)), code1);
    assert Emit(TestInstr(cs, off)) + code1 + [] + [] == Emit(TestInstr(cs, off)) + code1;
  }

  lemma GuardedChoiceFilled(a: seq<Instr>, f: First, code1: seq<Instr>, code2: seq<Instr>,
                            s1: seq<Instr>, test: int, pchoice: int, pcommit: int)
    requires s1 == a + OpenTest(f) + Emit(IChoice(0)) + code1 + Emit(ICommit(0))
    requires test == TestPosition(f, |a|) && pchoice == |a| + |OpenTest(f)| && pcommit == pchoice + 2 + |code1|
    ensures var s2 := Patched(s1, pchoice, |s1|);
            var s3 := Patched(s2, test, |s2|) + code2;
            OffsetAt(s1, pchoice) && OffsetAt(s2, test) && OffsetAt(s3, pcommit) &&
            Patched(s3, pcommit, |s3|) == a + GuardedChoice(f, code1, code2)
  {
    hide Emit, OptionalTest, OpenTest, Patched, OffsetAt;
    var skip := 2 + |code1| + 2;
    var guard, enter := OptionalTest(f, skip), Emit(IChoice(skip));
    var leave0, leave := Emit(ICommit(0)), Emit(ICommit(2 + |code2|));
    FillsOptionalTest(f, skip);
    FillsEmit(IChoice(0), skip);
    FillsEmit(ICommit(0), 2 + |code2|);
    FillGuard(f.e, a, OpenTest(f), guard, Emit(IChoice(0)), enter, code1, leave0);
    GroupLast(a, guard, enter, code1, leave0, leave, code2);
  }

  lemma GroupLast(
    a: seq<Instr>, t: seq<Instr>, x: seq<Instr>, b: seq<Instr>, y0: seq<Instr>, y: seq<Instr>, c: seq<Instr>)
    requires Fills(y0, y, |y0| + |c|)
    ensures var s := a + (t + x + b + y0) + c;
            OffsetAt(s, |a| + |t| + |x| + |b|) &&
            Patched(s, |a| + |t| + |x| + |b|, |s|) == a + (t + x + b + y + c)
  {
    Assoc5(a, t, x, b, y0);
    PatchOne(a + t + x + b, y0, y, c, |y0| + |c|);
    Assoc6(a, t, x, b, y, c);
  }

  lemma TestedRepFilled(a: seq<Instr>, cs: set<Byte>, body: seq<Instr>, s1: seq<Instr>, test: int, jmp: int)
    requires s1 == a + Emit(TestInstr(cs, 0)) + body + Emit(IJmp(0))
    requires test == |a| && jmp == |a| + TestSize(cs) + |body|
    ensures var s2 := Patched(s1, test, |s1|);
            OffsetAt(s1, test) && OffsetAt(s2, jmp) && Patched(s2, jmp, test) == a + TestedRep(cs, body)
  {
    var off, back := TestSize(cs) + |body| + 2, -(TestSize(cs) + |body|);
    FillsTest(cs, off);
    FillsEmit(IJmp(0), back);
    FillLoop(a, Emit(TestInstr(cs, 0)), Emit(TestInstr(cs, off)), body, Emit(IJmp(0)), Emit(IJmp(back)));
  }

  /** The partial commit at the end of a loop goes back to the body. */
  lemma LoopClosed(a: seq<Instr>, body: seq<Instr>, s1: seq<Instr>, commit: int, l2: int)
    requires s1 == a + body + Emit(IPartialCommit(0)) && l2 == |a| && commit == |a| + |body|
    ensures OffsetAt(s1, commit) && Patched(s1, commit, l2) == a + body + Emit(IPartialCommit(-|body|))
  {
    FillsEmit(IPartialCommit(0), -|body|);
    PatchLast(a + body, Emit(IPartialCommit(0)), Emit(IPartialCommit(-|body|)), -|body|);
  }

  lemma CommitRepFilled(a: seq<Instr>, f: First, body: seq<Instr>, s1: seq<Instr>, test: int, pchoice: int)
    requires s1 == a + OpenTest(f) + Emit(IChoice(0)) + body + Emit(IPartialCommit(-|body|))
    requires test == TestPosition(f, |a|) && pchoice == |a| + |OpenTest(f)|
    ensures var s2 := Patched(s1, pchoice, |s1|);
            OffsetAt(s1, pchoice) && OffsetAt(s2, test) && Patched(s2, test, |s2|) == a + CommitRep(f, body, false)
  {
    var skip, back := 2 + |body| + 2, Emit(IPartialCommit(-|body|));
    FillsOptionalTest(f, skip);
    FillsEmit(IChoice(0), skip);
    FillGuard(f.e, a, OpenTest(f), OptionalTest(f, skip), Emit(IChoice(0)), Emit(IChoice(skip)), body, back);
  }

  lemma OptRepFilled(a: seq<Instr>, f: First, body: seq<Instr>, s1: seq<Instr>, test: int)
    requires s1 == a + OpenTest(f) + Emit(IPartialCommit(2)) + body + Emit(IPartialCommit(-|body|))
    requires test == TestPosition(f, |a|)
    ensures OffsetAt(s1, test) && Patched(s1, test, |s1|) == a + CommitRep(f, body, true)
  {
    var skip, back := 2 + |body| + 2, Emit(IPartialCommit(-|body|));
    FillsOptionalTest(f, skip);
    FillTest(f.e, a, OpenTest(f), OptionalTest(f, skip), Emit(IPartialCommit(2)), body, back);
  }

  lemma TestedNotFilled(a: seq<Instr>, f: First, s1: seq<Instr>, test: int)
    requires s1 == a + OpenTest(f) + [IFail] && test == TestPosition(f, |a|)
    ensures OffsetAt(s1, test) && Patched(s1, test, |s1|) == a + TestedNot(f)
  {
    FillsOptionalTest(f, 1);
    PatchTest(f.e, a, OpenTest(f), OptionalTest(f, 1), [IFail], |OpenTest(f)| + 1);
    Assoc(a, OptionalTest(f, 1), [IFail]);
  }

  lemma ChoiceNotFilled(a: seq<Instr>, f: First, body: seq<Instr>, s1: seq<Instr>, test: int, pchoice: int)
    requires s1 == a + OpenTest(f) + Emit(IChoice(0)) + body + [IFailTwice]
    requires test == TestPosition(f, |a|) && pchoice == |a| + |OpenTest(f)|
    ensures var s2 := Patched(s1, pchoice, |s1|);
            OffsetAt(s1, pchoice) && OffsetAt(s2, test) && Patched(s2, test, |s2|) == a + ChoiceNot(f, body)
  {
    var skip := 2 + |body| + 1;
    FillsOptionalTest(f, skip);
    FillsEmit(IChoice(0), skip);
    FillGuard(f.e, a, OpenTest(f), OptionalTest(f, skip), Emit(IChoice(0)), Emit(IChoice(skip)), body, [IFailTwice]);
  }

  lemma CommitAndFilled(a: seq<Instr>, body: seq<Instr>, s1: seq<Instr>, pchoice: int, pcommit: int)
    requires s1 == a + Emit(IChoice(0)) + body + Emit(IBackCommit(0))
    requires pchoice == |a| && pcommit == |a| + 2 + |body|
    ensures var s2 := Patched(s1, pchoice, |s1|) + [IFail];
            OffsetAt(s1, pchoice) && OffsetAt(s2, pcommit) && Patched(s2, pcommit, |s2|) == a + CommitAnd(body)
  {
    var skip := 2 + |body| + 2;
    FillsEmit(IChoice(0), skip);
    FillsEmit(IBackCommit(0), 3);
    FillBoth(a, Emit(IChoice(0)), Emit(IChoice(skip)), body, Emit(IBackCommit(0)), Emit(IBackCommit(3)), [IFail]);
  }

  lemma GrammarFilled(a: seq<Instr>, bodies: seq<Instr>)
    ensures var s1 := a + Emit(ICall(0)) + Emit(IJmp(0));
            var s2 := Patched(s1, |a|, |s1|) + bodies;
            OffsetAt(s1, |a|) && OffsetAt(s2, |a| + 2) &&
            Patched(s2, |a| + 2, |s2|) == a + (Emit(ICall(4)) + Emit(IJmp(2 + |bodies|)) + bodies)
  {
    var call, jmp := Emit(ICall(4)), Emit(IJmp(2 + |bodies|));
    FillsEmit(ICall(0), 4);
    FillsEmit(IJmp(0), 2 + |bodies|);
    PatchOne(a, Emit(ICall(0)), call, Emit(IJmp(0)), 4);
    PatchOne(a + call, Emit(IJmp(0)), jmp, bodies, 2 + |bodies|);
    Assoc4(a, call, jmp, bodies);
  }
}
