/** Generated code in place: where the parts of each shape stand, relative to where the shape begins. */
module Layout {
  import opened Peg
  import opened Analysis
  import opened Machine
  import opened CodeGen
  import opened Continuations

  /** Word `w` stands at `q`; an open call has been linked to the rule addresses `env`. */
  ghost predicate WordAt(code: seq<Instr>, q: int, w: Instr, env: seq<int>)
    requires 0 <= q < |code|
  {
    if w.IOpenCall? then
      w.rule < |env| &&
      (code[q] == ICall(env[w.rule] - q) || (code[q] == IJmp(env[w.rule] - q) && ReturnsFrom(code, q + 2)))
    else code[q] == w
  }

  /** `block`, linked, stands at `pc`. */
  ghost predicate At(c: Ctx, pc: int, block: seq<Instr>, env: seq<int>)
    decreases |block|
  {
    if block == [] then 0 <= pc <= |c.code|
    else 0 <= pc < |c.code| && WordAt(c.code, pc, block[0], env) && At(c, pc + 1, block[1..], env)
  }

  lemma {:induction false} AtSplit(
    c: Ctx, pc: int, block: seq<Instr>, a: seq<Instr>, b: seq<Instr>, env: seq<int>)
    requires At(c, pc, block, env) && block == a + b
    ensures At(c, pc, a, env) && At(c, pc + |a|, b, env)
    decreases |a|
  {
    if a == [] {
      assert block == b;
    } else {
      assert block[1..] == a[1..] + b;
      AtSplit(c, pc + 1, block[1..], a[1..], b, env);
    }
  }

  lemma {:induction false} AtWord(c: Ctx, pc: int, block: seq<Instr>, x: nat, env: seq<int>)
    requires At(c, pc, block, env) && x < |block|
    ensures 0 <= pc && pc + |block| <= |c.code| && WordAt(c.code, pc + x, block[x], env)
    decreases |block|
  {
    if x > 0 {
      AtWord(c, pc + 1, block[1..], x - 1, env);
    } else if |block| > 1 {
      AtWord(c, pc + 1, block[1..], 0, env);
    }
  }

  lemma {:induction false} AtIntro(c: Ctx, pc: int, block: seq<Instr>, env: seq<int>)
    requires 0 <= pc && pc + |block| <= |c.code|
    requires forall x :: 0 <= x < |block| ==> WordAt(c.code, pc + x, block[x], env)
    ensures At(c, pc, block, env)
    decreases |block|
  {
    if block != [] {
      forall x | 0 <= x < |block[1..]| ensures WordAt(c.code, pc + 1 + x, block[1..][x], env) {
        assert block[1..][x] == block[x + 1] && WordAt(c.code, pc + (x + 1), block[x + 1], env);
      }
      assert WordAt(c.code, pc + 0, block[0], env);
      AtIntro(c, pc + 1, block[1..], env);
    }
  }

  lemma AtSplit3(c: Ctx, pc: int, block: seq<Instr>, x: seq<Instr>, y: seq<Instr>, z: seq<Instr>, env: seq<int>)
    requires At(c, pc, block, env) && block == x + y + z
    ensures At(c, pc, x, env) && At(c, pc + |x|, y, env) && At(c, pc + |x| + |y|, z, env)
  {
    AtSplit(c, pc, block, x + y, z, env);
    AtSplit(c, pc, x + y, x, y, env);
  }

  /** An instruction in place is the word at its address. */
  lemma AtEmit(c: Ctx, pc: int, ins: Instr, env: seq<int>)
    requires At(c, pc, Emit(ins), env) && !ins.IOpenCall?
    ensures Holds(c, pc, ins)
  {
    assert Emit(ins)[0] == ins;
    assert WordAt(c.code, pc + 0, Emit(ins)[0], env);
  }

  lemma AtOne(c: Ctx, pc: int, ins: Instr, env: seq<int>)
    requires At(c, pc, [ins], env) && !ins.IOpenCall?
    ensures Holds(c, pc, ins)
  {
    assert WordAt(c.code, pc + 0, [ins][0], env);
  }

  lemma AtTest(c: Ctx, pc: int, cs: set<Byte>, off: int, env: seq<int>)
    requires At(c, pc, Emit(TestInstr(cs, off)), env)
    ensures |Emit(TestInstr(cs, off))| == TestSize(cs)
    ensures TestAt(c, pc, cs, pc + TestSize(cs), pc + off)
  {
    AtEmit(c, pc, TestInstr(cs, off), env);
  }

  /** Words taken by an optional test. */
  ghost function GuardSize(f: First): nat { if f.e then 0 else TestSize(f.cs) }

  lemma AtGuard(c: Ctx, pc: int, f: First, n: nat, env: seq<int>)
    requires At(c, pc, OptionalTest(f, n), env)
    ensures |OptionalTest(f, n)| == GuardSize(f)
    ensures !f.e ==> TestAt(c, pc, f.cs, pc + GuardSize(f), pc + GuardSize(f) + n)
  {
    if !f.e { AtTest(c, pc, f.cs, TestSize(f.cs) + n, env); }
  }

  /** The optional test of `f` at `pc`, with its two ways out. */
  ghost predicate GuardAt(c: Ctx, pc: int, f: First, enter: int, skip: int) {
    if f.e then enter == pc else TestAt(c, pc, f.cs, enter, skip)
  }

  lemma TestedChoiceLayout(c: Ctx, pc: int, cs: set<Byte>, code1: seq<Instr>, code2: seq<Instr>, empty2: bool,
                           env: seq<int>) returns (start1: int, mid: int, start2: int, end: int)
    requires At(c, pc, TestedChoice(cs, code1, code2, empty2), env)
    ensures TestAt(c, pc, cs, start1, start2)
    ensures At(c, start1, code1, env) && mid == start1 + |code1|
    ensures if empty2 then start2 == mid else start2 == mid + 2 && Holds(c, mid, IJmp(end - mid))
    ensures At(c, start2, code2, env) && end == start2 + |code2|
    ensures end == pc + |TestedChoice(cs, code1, code2, empty2)|
  {
    hide At, TestInstr;
    var jmp := if empty2 then [] else Emit(IJmp(2 + |code2|));
    var off := TestSize(cs) + |code1| + |jmp|;
    var test := Emit(TestInstr(cs, off));
    AtSplit(c, pc, TestedChoice(cs, code1, code2, empty2), test + code1 + jmp, code2, env);
    AtSplit3(c, pc, test + code1 + jmp, test, code1, jmp, env);
    AtTest(c, pc, cs, off, env);
    start1, mid, start2, end := pc + |test|, pc + |test| + |code1|, pc + off, pc + off + |code2|;
    if !empty2 { AtEmit(c, mid, IJmp(2 + |code2|), env); }
  }

  lemma GuardedChoiceLayout(c: Ctx, pc: int, f: First, code1: seq<Instr>, code2: seq<Instr>, env: seq<int>)
    returns (choice: int, commit: int, end: int)
    requires At(c, pc, GuardedChoice(f, code1, code2), env)
    ensures GuardAt(c, pc, f, choice, commit + 2)
    ensures Holds(c, choice, IChoice(commit + 2 - choice))
    ensures At(c, choice + 2, code1, env) && commit == choice + 2 + |code1|
    ensures Holds(c, commit, ICommit(end - commit))
    ensures At(c, commit + 2, code2, env) && end == commit + 2 + |code2|
    ensures end == pc + |GuardedChoice(f, code1, code2)|
  {
    hide At;
    var test, enter := OptionalTest(f, 2 + |code1| + 2), Emit(IChoice(2 + |code1| + 2));
    var leave := Emit(ICommit(2 + |code2|));
    AtSplit3(c, pc, GuardedChoice(f, code1, code2), test + enter + code1, leave, code2, env);
    AtSplit3(c, pc, test + enter + code1, test, enter, code1, env);
    AtGuard(c, pc, f, 2 + |code1| + 2, env);
    choice := pc + |test|;
    commit, end := choice + 2 + |code1|, choice + 2 + |code1| + 2 + |code2|;
    AtEmit(c, choice, IChoice(2 + |code1| + 2), env);
    AtEmit(c, commit, ICommit(2 + |code2|), env);
  }

  lemma ReusedChoiceLayout(c: Ctx, pc: int, code1: seq<Instr>, env: seq<int>)
    requires At(c, pc, ReusedChoice(code1), env)
    ensures Holds(c, pc, IPartialCommit(2)) && At(c, pc + 2, code1, env)
    ensures |ReusedChoice(code1)| == 2 + |code1|
  {
    AtSplit(c, pc, ReusedChoice(code1), Emit(IPartialCommit(2)), code1, env);
    AtEmit(c, pc, IPartialCommit(2), env);
  }

  lemma TestedRepLayout(c: Ctx, pc: int, cs: set<Byte>, body: seq<Instr>, env: seq<int>)
    returns (start: int, back: int, end: int)
    requires At(c, pc, TestedRep(cs, body), env)
    ensures TestAt(c, pc, cs, start, end) && At(c, start, body, env)
    ensures back == start + |body| && end == back + 2 && Holds(c, back, IJmp(pc - back))
    ensures end == pc + |TestedRep(cs, body)|
  {
    var off := TestSize(cs) + |body| + 2;
    var test, jmp := Emit(TestInstr(cs, off)), IJmp(-(TestSize(cs) + |body|));
    AtSplit3(c, pc, TestedRep(cs, body), test, body, Emit(jmp), env);
    AtTest(c, pc, cs, off, env);
    start, back, end := pc + |test|, pc + |test| + |body|, pc + off;
    AtEmit(c, back, jmp, env);
  }

  lemma CommitRepLayout(c: Ctx, pc: int, f: First, body: seq<Instr>, opt: bool, env: seq<int>)
    returns (enter: int, back: int, end: int)
    requires At(c, pc, CommitRep(f, body, opt), env)
    ensures GuardAt(c, pc, f, enter, end)
    ensures Holds(c, enter, if opt then IPartialCommit(2) else IChoice(end - enter))
    ensures At(c, enter + 2, body, env) && back == enter + 2 + |body|
    ensures Holds(c, back, IPartialCommit(enter + 2 - back)) && end == back + 2
    ensures end == pc + |CommitRep(f, body, opt)|
  {
    hide At;
    var ins := if opt then IPartialCommit(2) else IChoice(2 + |body| + 2);
    var test := OptionalTest(f, 2 + |body| + 2);
    AtSplit(c, pc, CommitRep(f, body, opt), test + Emit(ins) + body, Emit(IPartialCommit(-|body|)), env);
    AtSplit3(c, pc, test + Emit(ins) + body, test, Emit(ins), body, env);
    AtGuard(c, pc, f, 2 + |body| + 2, env);
    enter := pc + |test|;
    back, end := enter + 2 + |body|, enter + 2 + |body| + 2;
    AtEmit(c, enter, ins, env);
    AtEmit(c, back, IPartialCommit(-|body|), env);
  }

  lemma TestedNotLayout(c: Ctx, pc: int, f: First, env: seq<int>) returns (start: int, end: int)
    requires At(c, pc, TestedNot(f), env)
    ensures GuardAt(c, pc, f, start, end)
    ensures Holds(c, start, IFail) && end == start + 1 && end == pc + |TestedNot(f)|
  {
    AtSplit(c, pc, TestedNot(f), OptionalTest(f, 1), [IFail], env);
    AtGuard(c, pc, f, 1, env);
    start, end := pc + GuardSize(f), pc + GuardSize(f) + 1;
    AtOne(c, start, IFail, env);
  }

  lemma ChoiceNotLayout(c: Ctx, pc: int, f: First, body: seq<Instr>, env: seq<int>) returns (start: int, end: int)
    requires At(c, pc, ChoiceNot(f, body), env)
    ensures GuardAt(c, pc, f, start, end)
    ensures Holds(c, start, IChoice(end - start)) && At(c, start + 2, body, env)
    ensures end - 1 == start + 2 + |body| && Holds(c, end - 1, IFailTwice)
    ensures end == pc + |ChoiceNot(f, body)|
  {
    hide At;
    var test, choice := OptionalTest(f, 2 + |body| + 1), Emit(IChoice(2 + |body| + 1));
    AtSplit(c, pc, ChoiceNot(f, body), test + choice + body, [IFailTwice], env);
    AtSplit3(c, pc, test + choice + body, test, choice, body, env);
    AtGuard(c, pc, f, 2 + |body| + 1, env);
    start, end := pc + |test|, pc + |test| + 2 + |body| + 1;
    AtEmit(c, start, IChoice(2 + |body| + 1), env);
    AtOne(c, end - 1, IFailTwice, env);
  }

  lemma StepBackAndLayout(c: Ctx, pc: int, body: seq<Instr>, n: nat, env: seq<int>)
    requires At(c, pc, StepBackAnd(body, n), env)
    ensures At(c, pc, body, env) && (n > 0 ==> Holds(c, pc + |body|, IBehind(n)))
    ensures |StepBackAnd(body, n)| == |body| + if n > 0 then 1 else 0
  {
    AtSplit(c, pc, StepBackAnd(body, n), body, if n > 0 then [IBehind(n)] else [], env);
    if n > 0 { AtOne(c, pc + |body|, IBehind(n), env); }
  }

  lemma CommitAndLayout(c: Ctx, pc: int, body: seq<Instr>, env: seq<int>) returns (end: int)
    requires At(c, pc, CommitAnd(body), env)
    ensures Holds(c, pc, IChoice(end - 1 - pc)) && At(c, pc + 2, body, env)
    ensures end - 3 == pc + 2 + |body| && Holds(c, end - 3, IBackCommit(3)) && Holds(c, end - 1, IFail)
    ensures end == pc + |CommitAnd(body)|
  {
    var choice := Emit(IChoice(2 + |body| + 2));
    AtSplit(c, pc, CommitAnd(body), choice + body + Emit(IBackCommit(3)), [IFail], env);
    AtSplit3(c, pc, choice + body + Emit(IBackCommit(3)), choice, body, Emit(IBackCommit(3)), env);
    end := pc + 2 + |body| + 3;
    AtEmit(c, pc, IChoice(2 + |body| + 2), env);
    AtEmit(c, end - 3, IBackCommit(3), env);
    AtOne(c, end - 1, IFail, env);
  }

  lemma BehindLayout(c: Ctx, pc: int, n: nat, body: seq<Instr>, env: seq<int>) returns (start: int)
    requires At(c, pc, BehindCode(n, body), env)
    ensures start == pc + (if n > 0 then 1 else 0) && (n > 0 ==> Holds(c, pc, IBehind(n)))
    ensures At(c, start, body, env) && pc + |BehindCode(n, body)| == start + |body|
  {
    AtSplit(c, pc, BehindCode(n, body), if n > 0 then [IBehind(n)] else [], body, env);
    start := pc + if n > 0 then 1 else 0;
    if n > 0 { AtOne(c, pc, IBehind(n), env); }
  }

  lemma CaptureLayout(c: Ctx, pc: int, key: nat, body: seq<Instr>, env: seq<int>) returns (end: int)
    requires At(c, pc, CaptureCode(key, body), env)
    ensures Holds(c, pc, IOpenCapture(false, key)) && At(c, pc + 2, body, env)
    ensures end - 1 == pc + 2 + |body| && Holds(c, end - 1, ICloseCapture)
    ensures end == pc + |CaptureCode(key, body)|
  {
    AtSplit3(c, pc, CaptureCode(key, body), Emit(IOpenCapture(false, key)), body, [ICloseCapture], env);
    AtEmit(c, pc, IOpenCapture(false, key), env);
    end := pc + 2 + |body| + 1;
    AtOne(c, end - 1, ICloseCapture, env);
  }

  lemma ConstCaptureLayout(c: Ctx, pc: int, key: nat, value: nat, env: seq<int>)
    requires At(c, pc, ConstCaptureCode(key, value), env)
    ensures Holds(c, pc, IOpenCapture(true, key)) && Holds(c, pc + 2, ICloseConstCapture(value))
    ensures |ConstCaptureCode(key, value)| == 3
  {
    AtSplit(c, pc, ConstCaptureCode(key, value), Emit(IOpenCapture(true, key)), [ICloseConstCapture(value)], env);
    AtEmit(c, pc, IOpenCapture(true, key), env);
    AtOne(c, pc + 2, ICloseConstCapture(value), env);
  }
}
