/** No run of generated code ever gets stuck, whether it ends or not: the stack always fits the code. */
module Discipline {
  // The lemmas follow the shapes of code as those of module Continuations do, but for any number of steps instead of
  // an outcome: a block is safe if it is safe in front of every safe continuation.

  import opened Peg
  import opened Analysis
  import opened Machine
  import opened CodeGen
  import opened Continuations
  import opened Layout
  import opened Linking
  import opened Correctness
  import opened Peephole
  import opened Compiler

  // ---------- safe states ----------

  /** The run does not get stuck within `n` steps. */
  ghost predicate Safe(c: Ctx, st: State, n: nat)
    decreases n
  {
    n == 0 ||
    match Step(c.code, c.s, st)
    case Next(st') => Safe(c, st', n - 1)
    case Done(_) => true
    case Stuck => false
  }

  lemma {:induction false} SafeLess(c: Ctx, st: State, n: nat, m: nat)
    requires Safe(c, st, n) && m <= n
    ensures Safe(c, st, m)
    decreases m
  {
    if m > 0 && Step(c.code, c.s, st).Next? { SafeLess(c, Step(c.code, c.s, st).st, n - 1, m - 1); }
  }

  ghost predicate FailSafe(c: Ctx, stk: Stack, n: nat) {
    Backtrack(stk).Next? && Safe(c, Backtrack(stk).st, n)
  }

  /** Where only a return follows, there is a frame, and going on behind the call is safe. */
  ghost predicate FrameSafe(c: Ctx, st: State, n: nat) {
    st.stk.Push? && st.stk.top.Frame? && Safe(c, State(st.stk.top.pc, st.pos, st.stk.below, st.caps), n)
  }

  ghost predicate Ready(c: Ctx, st: State, n: nat) {
    Safe(c, st, n) && (ReturnsFrom(c.code, st.pc) ==> FrameSafe(c, st, n))
  }

  lemma ReadyLess(c: Ctx, st: State, n: nat, m: nat)
    requires Ready(c, st, n) && m <= n
    ensures Ready(c, st, m)
  {
    SafeLess(c, st, n, m);
    if ReturnsFrom(c.code, st.pc) { SafeLess(c, State(st.stk.top.pc, st.pos, st.stk.below, st.caps), n, m); }
  }

  /** A return follows a jump exactly if it follows its target. */
  lemma ReturnBehindJump(code: seq<Instr>, q: int)
    requires 0 <= q < |code| && ReturnsFrom(code, q)
    ensures code[q].IRet? || (code[q].IJmp? && ReturnsFrom(code, q + code[q].off))
  {
    var n: nat :| 0 <= FinalTarget(code, q, n) < |code| && code[FinalTarget(code, q, n)].IRet?;
    if code[q].IJmp? {
      assert n > 0;
      assert FinalTarget(code, q + code[q].off, n - 1) == FinalTarget(code, q, n);
    }
  }

  /** One step in front of a state that is ready. */
  lemma StepReady(c: Ctx, st: State, st': State, n: nat)
    requires Step(c.code, c.s, st) == Next(st') && 0 <= st.pc < |c.code| && !c.code[st.pc].IRet?
    requires Safe(c, st', if n == 0 then 0 else n - 1)
    requires c.code[st.pc].IJmp? ==> Ready(c, st', n)
    ensures Ready(c, st, n)
  {
    if ReturnsFrom(c.code, st.pc) { ReturnBehindJump(c.code, st.pc); }
  }

  lemma FailReady(c: Ctx, st: State, n: nat)
    requires Step(c.code, c.s, st) == Backtrack(st.stk) && FailSafe(c, st.stk, n)
    requires 0 <= st.pc < |c.code| && !c.code[st.pc].IRet? && !c.code[st.pc].IJmp?
    ensures Ready(c, st, n)
  {
    SafeLess(c, Backtrack(st.stk).st, n, if n == 0 then 0 else n - 1);
    StepReady(c, st, Backtrack(st.stk).st, n);
  }

  // ---------- safe blocks ----------

  /** The stack and captures that a block may leave: captures only grow, and in `opt` code the choice on top may have
      been updated. */
  ghost predicate Leaves(opt: bool, stk: Stack, caps: seq<Cap>, stk': Stack, caps': seq<Cap>) {
    |caps| <= |caps'| &&
    if opt then
      stk.Push? && stk.top.Choice? && stk'.Push? && stk'.top.Choice? && stk'.top.pc == stk.top.pc &&
      stk'.below == stk.below && |stk.top.caps| <= |stk'.top.caps| <= |caps'|
    else stk' == stk
  }

  /** Failing is safe with every stack that the block may leave. */
  ghost predicate Retreat(c: Ctx, opt: bool, stk: Stack, caps: seq<Cap>, n: nat) {
    forall stk', caps' | Leaves(opt, stk, caps, stk', caps') :: FailSafe(c, stk', n)
  }

  /** So is going on behind the block. */
  ghost predicate Onward(c: Ctx, end: int, opt: bool, stk: Stack, caps: seq<Cap>, n: nat) {
    forall j: nat, stk', caps' | Leaves(opt, stk, caps, stk', caps') :: Ready(c, State(end, j, stk', caps'), n)
  }

  ghost predicate Cont(c: Ctx, end: int, opt: bool, stk: Stack, caps: seq<Cap>, n: nat) {
    (opt ==> stk.Push? && stk.top.Choice? && |stk.top.caps| <= |caps|) &&
    Retreat(c, opt, stk, caps, n) && Onward(c, end, opt, stk, caps, n)
  }

  ghost predicate Good(c: Ctx, pc: int, end: int, opt: bool, max: nat) {
    forall n: nat, i: nat, stk, caps | n <= max && Cont(c, end, opt, stk, caps, n) ::
      Ready(c, State(pc, i, stk, caps), n)
  }

  lemma ContNow(c: Ctx, end: int, opt: bool, stk: Stack, caps: seq<Cap>, n: nat, j: nat)
    requires Cont(c, end, opt, stk, caps, n)
    ensures Leaves(opt, stk, caps, stk, caps) && FailSafe(c, stk, n) && Ready(c, State(end, j, stk, caps), n)
  {
    assert Leaves(opt, stk, caps, stk, caps);
  }

  lemma ContLater(c: Ctx, end: int, opt: bool, stk: Stack, caps: seq<Cap>, n: nat, stk': Stack, caps': seq<Cap>)
    requires Cont(c, end, opt, stk, caps, n) && Leaves(opt, stk, caps, stk', caps')
    ensures Cont(c, end, opt, stk', caps', n)
  {
    forall stk'', caps'' | Leaves(opt, stk', caps', stk'', caps'')
      ensures FailSafe(c, stk'', n)
    {
      assert Leaves(opt, stk, caps, stk'', caps'');
    }
    forall j: nat, stk'', caps'' | Leaves(opt, stk', caps', stk'', caps'')
      ensures Ready(c, State(end, j, stk'', caps''), n)
    {
      assert Leaves(opt, stk, caps, stk'', caps'');
    }
  }

  lemma ContLess(c: Ctx, end: int, opt: bool, stk: Stack, caps: seq<Cap>, n: nat, m: nat)
    requires Cont(c, end, opt, stk, caps, n) && m <= n
    ensures Cont(c, end, opt, stk, caps, m)
  {
    forall stk', caps' | Leaves(opt, stk, caps, stk', caps')
      ensures FailSafe(c, stk', m)
    {
      assert FailSafe(c, stk', n);
      SafeLess(c, Backtrack(stk').st, n, m);
    }
    forall j: nat, stk', caps' | Leaves(opt, stk, caps, stk', caps')
      ensures Ready(c, State(end, j, stk', caps'), m)
    {
      ReadyLess(c, State(end, j, stk', caps'), n, m);
    }
  }

  lemma EmptyGood(c: Ctx, pc: int, opt: bool, max: nat)
    ensures Good(c, pc, pc, opt, max)
  {
    forall n: nat, i: nat, stk, caps | n <= max && Cont(c, pc, opt, stk, caps, n)
      ensures Ready(c, State(pc, i, stk, caps), n)
    {
      ContNow(c, pc, opt, stk, caps, n, i);
    }
  }

  /** An instruction that fails or goes on, without touching stack or captures. */
  predicate Simple(ins: Instr) {
    ins.IAny? || ins.IChar? || ins.ISet? || ins.ISpan? || ins.IBehind? || ins.IFail?
  }

  lemma SimpleGood(c: Ctx, pc: int, ins: Instr, opt: bool, max: nat)
    requires Holds(c, pc, ins) && Simple(ins)
    ensures Good(c, pc, pc + Size(ins), opt, max)
  {
    var end := pc + Size(ins);
    forall n: nat, i: nat, stk, caps | n <= max && Cont(c, end, opt, stk, caps, n)
      ensures Ready(c, State(pc, i, stk, caps), n)
    {
      var st := State(pc, i, stk, caps);
      ContNow(c, end, opt, stk, caps, n, i);
      if Step(c.code, c.s, st) == Backtrack(stk) {
        FailReady(c, st, n);
      } else {
        var st' := Step(c.code, c.s, st).st;
        ContNow(c, end, opt, stk, caps, n, st'.pos);
        SafeLess(c, st', n, if n == 0 then 0 else n - 1);
        StepReady(c, st, st', n);
      }
    }
  }

  lemma SeqGood(c: Ctx, pc: int, mid: int, end: int, opt: bool, max: nat)
    requires Good(c, pc, mid, false, max) && Good(c, mid, end, opt, max)
    ensures Good(c, pc, end, opt, max)
  {
    forall n: nat, i: nat, stk, caps | n <= max && Cont(c, end, opt, stk, caps, n)
      ensures Ready(c, State(pc, i, stk, caps), n)
    {
      SeqCont(c, mid, end, opt, max, stk, caps, n);
    }
  }

  lemma SeqCont(c: Ctx, mid: int, end: int, opt: bool, max: nat, stk: Stack, caps: seq<Cap>, n: nat)
    requires Good(c, mid, end, opt, max) && Cont(c, end, opt, stk, caps, n) && n <= max
    ensures Cont(c, mid, false, stk, caps, n)
  {
    forall stk', caps' | Leaves(false, stk, caps, stk', caps')
      ensures FailSafe(c, stk', n) && Cont(c, end, opt, stk', caps', n)
    {
      assert Leaves(opt, stk, caps, stk', caps');
      ContLater(c, end, opt, stk, caps, n, stk', caps');
    }
    forall j: nat, stk', caps' | Leaves(false, stk, caps, stk', caps')
      ensures Ready(c, State(mid, j, stk', caps'), n)
    {
      assert Cont(c, end, opt, stk', caps', n);
    }
  }

  lemma DropOptGood(c: Ctx, pc: int, end: int, opt: bool, max: nat)
    requires Good(c, pc, end, false, max)
    ensures Good(c, pc, end, opt, max)
  {
    EmptyGood(c, end, opt, max);
    SeqGood(c, pc, end, end, opt, max);
  }

  // ---------- jumps and tests ----------

  lemma JumpGood(c: Ctx, pc: int, end: int, opt: bool, max: nat)
    requires Holds(c, pc, IJmp(end - pc))
    ensures Good(c, pc, end, opt, max)
  {
    forall n: nat, i: nat, stk, caps | n <= max && Cont(c, end, opt, stk, caps, n)
      ensures Ready(c, State(pc, i, stk, caps), n)
    {
      ContNow(c, end, opt, stk, caps, n, i);
      SafeLess(c, State(end, i, stk, caps), n, if n == 0 then 0 else n - 1);
      StepReady(c, State(pc, i, stk, caps), State(end, i, stk, caps), n);
    }
  }

  /** A test goes one way or the other; if a return follows it, a return follows where it jumps to. */
  lemma TestReady(c: Ctx, pc: int, cs: set<Byte>, yes: int, no: int, i: nat, stk: Stack, caps: seq<Cap>, n: nat)
    requires TestAt(c, pc, cs, yes, no)
    requires Ready(c, State(yes, i, stk, caps), n) && Ready(c, State(no, i, stk, caps), n)
    ensures Ready(c, State(pc, i, stk, caps), n)
  {
    TestSteps(c, pc, cs, yes, no, i, stk, caps);
    var st' := State(if i < |c.s| && c.s[i] in cs then yes else no, i, stk, caps);
    SafeLess(c, st', n, if n == 0 then 0 else n - 1);
    StepReady(c, State(pc, i, stk, caps), st', n);
  }

  lemma TestGood(c: Ctx, pc: int, cs: set<Byte>, yes: int, no: int, end: int, opt: bool, max: nat)
    requires TestAt(c, pc, cs, yes, no) && Good(c, yes, end, opt, max) && Good(c, no, end, opt, max)
    ensures Good(c, pc, end, opt, max)
  {
    forall n: nat, i: nat, stk, caps | n <= max && Cont(c, end, opt, stk, caps, n)
      ensures Ready(c, State(pc, i, stk, caps), n)
    {
      TestReady(c, pc, cs, yes, no, i, stk, caps, n);
    }
  }

  /** A test that may be missing. */
  lemma GuardGood(c: Ctx, pc: int, f: First, enter: int, skip: int, end: int, opt: bool, max: nat)
    requires GuardAt(c, pc, f, enter, skip) && Good(c, enter, end, opt, max) && Good(c, skip, end, opt, max)
    ensures Good(c, pc, end, opt, max)
  {
    if !f.e { TestGood(c, pc, f.cs, enter, skip, end, opt, max); }
  }

  /** test -> L1; p1; jmp L2; L1: p2; L2:   (no jump when p2 is empty) */
  lemma TestedChoiceGood(c: Ctx, pc: int, cs: set<Byte>, start1: int, mid: int, start2: int, end: int, opt: bool,
                         max: nat)
    requires TestAt(c, pc, cs, start1, start2) && Good(c, start1, mid, false, max) && Good(c, start2, end, opt, max)
    requires (start2 == mid == end) || Holds(c, mid, IJmp(end - mid))
    ensures Good(c, pc, end, opt, max)
  {
    if start2 == mid == end {
      DropOptGood(c, start1, end, opt, max);
    } else {
      JumpGood(c, mid, end, opt, max);
      SeqGood(c, start1, mid, end, opt, max);
    }
    TestGood(c, pc, cs, start1, start2, end, opt, max);
  }

  // ---------- captures ----------

  /** An open capture is closed by an instruction that finds it in the list. */
  lemma CaptureGood(c: Ctx, pc: int, end: int, isConst: bool, key: nat, opt: bool, max: nat)
    requires Holds(c, pc, IOpenCapture(isConst, key)) && Good(c, pc + 2, end - 1, false, max)
    requires 0 <= end - 1 < |c.code| && (c.code[end - 1].ICloseCapture? || c.code[end - 1].ICloseConstCapture?)
    ensures Good(c, pc, end, opt, max)
  {
    forall n: nat, i: nat, stk, caps | n <= max && Cont(c, end, opt, stk, caps, n)
      ensures Ready(c, State(pc, i, stk, caps), n)
    {
      var caps1 := caps + [Open(isConst, key, i)];
      CaptureCont(c, end, opt, stk, caps, caps1, n);
      var st' := State(pc + 2, i, stk, caps1);
      SafeLess(c, st', n, if n == 0 then 0 else n - 1);
      StepReady(c, State(pc, i, stk, caps), st', n);
    }
  }

  lemma CaptureCont(c: Ctx, end: int, opt: bool, stk: Stack, caps: seq<Cap>, caps1: seq<Cap>, n: nat)
    requires 0 <= end - 1 < |c.code| && (c.code[end - 1].ICloseCapture? || c.code[end - 1].ICloseConstCapture?)
    requires Cont(c, end, opt, stk, caps, n) && |caps| < |caps1|
    ensures Cont(c, end - 1, false, stk, caps1, n)
  {
    var close := end - 1;
    forall stk', caps' | Leaves(false, stk, caps1, stk', caps')
      ensures FailSafe(c, stk', n)
    {
      assert Leaves(opt, stk, caps, stk', caps');
    }
    forall j: nat, stk', caps' | Leaves(false, stk, caps1, stk', caps')
      ensures Ready(c, State(close, j, stk', caps'), n)
    {
      var st := State(close, j, stk', caps');
      var st' := Step(c.code, c.s, st).st;
      assert Leaves(opt, stk, caps, stk, st'.caps);
      SafeLess(c, st', n, if n == 0 then 0 else n - 1);
      StepReady(c, st, st', n);
    }
  }

  // ---------- choices ----------

  /** choice L1; p1; commit L2; L1: p2; L2: */
  lemma ChoiceGood(c: Ctx, pc: int, commit: int, end: int, opt1: bool, opt: bool, max: nat)
    requires Holds(c, pc, IChoice(commit + 2 - pc)) && Holds(c, commit, ICommit(end - commit))
    requires Good(c, pc + 2, commit, opt1, max) && Good(c, commit + 2, end, opt, max)
    ensures Good(c, pc, end, opt, max)
  {
    forall n: nat, i: nat, stk, caps | n <= max && Cont(c, end, opt, stk, caps, n)
      ensures Ready(c, State(pc, i, stk, caps), n)
    {
      var stk1 := Push(Choice(commit + 2, i, caps), stk);
      ChoiceRetreat(c, commit, end, opt1, opt, max, i, stk, caps, n);
      ChoiceOnward(c, commit, end, opt1, opt, i, stk, caps, n);
      var st' := State(pc + 2, i, stk1, caps);
      assert Cont(c, commit, opt1, stk1, caps, n);
      SafeLess(c, st', n, if n == 0 then 0 else n - 1);
      StepReady(c, State(pc, i, stk, caps), st', n);
    }
  }

  lemma ChoiceRetreat(c: Ctx, commit: int, end: int, opt1: bool, opt: bool, max: nat, i: nat, stk: Stack,
                      caps: seq<Cap>, n: nat)
    requires Good(c, commit + 2, end, opt, max) && Cont(c, end, opt, stk, caps, n) && n <= max
    ensures Retreat(c, opt1, Push(Choice(commit + 2, i, caps), stk), caps, n)
  {
    var stk1 := Push(Choice(commit + 2, i, caps), stk);
    forall stk', caps' | Leaves(opt1, stk1, caps, stk', caps')
      ensures FailSafe(c, stk', n)
    {
      ContLater(c, end, opt, stk, caps, n, stk, stk'.top.caps);
      assert Ready(c, State(commit + 2, stk'.top.pos, stk, stk'.top.caps), n);
    }
  }

  lemma ChoiceOnward(c: Ctx, commit: int, end: int, opt1: bool, opt: bool, i: nat, stk: Stack, caps: seq<Cap>, n: nat)
    requires Holds(c, commit, ICommit(end - commit)) && Cont(c, end, opt, stk, caps, n)
    ensures Onward(c, commit, opt1, Push(Choice(commit + 2, i, caps), stk), caps, n)
  {
    var stk1 := Push(Choice(commit + 2, i, caps), stk);
    forall j: nat, stk', caps' | Leaves(opt1, stk1, caps, stk', caps')
      ensures Ready(c, State(commit, j, stk', caps'), n)
    {
      assert Leaves(opt, stk, caps, stk, caps');
      var st' := State(end, j, stk, caps');
      SafeLess(c, st', n, if n == 0 then 0 else n - 1);
      StepReady(c, State(commit, j, stk', caps'), st', n);
    }
  }

  /** partialcommit; p1 -- the optional pattern reuses the choice on top of the stack */
  lemma ReusedGood(c: Ctx, pc: int, end: int, max: nat)
    requires Holds(c, pc, IPartialCommit(2)) && Good(c, pc + 2, end, true, max)
    ensures Good(c, pc, end, true, max)
  {
    forall n: nat, i: nat, stk, caps | n <= max && Cont(c, end, true, stk, caps, n)
      ensures Ready(c, State(pc, i, stk, caps), n)
    {
      var stk1 := Push(Choice(stk.top.pc, i, caps), stk.below);
      ContLater(c, end, true, stk, caps, n, stk1, caps);
      var st' := State(pc + 2, i, stk1, caps);
      SafeLess(c, st', n, if n == 0 then 0 else n - 1);
      StepReady(c, State(pc, i, stk, caps), st', n);
    }
  }

  // ---------- repetitions ----------

  /** Leaving the loop is safe wherever it stops. */
  ghost predicate ExitSafe(c: Ctx, exit: int, below: Stack, caps: seq<Cap>, n: nat) {
    forall i: nat, caps' | |caps| <= |caps'| :: Safe(c, State(exit, i, below, caps'), n)
  }

  lemma ExitLess(c: Ctx, exit: int, below: Stack, caps: seq<Cap>, n: nat, caps': seq<Cap>, m: nat)
    requires ExitSafe(c, exit, below, caps, n) && |caps| <= |caps'| && m <= n
    ensures ExitSafe(c, exit, below, caps', m)
  {
    forall i: nat, caps'' | |caps'| <= |caps''|
      ensures Safe(c, State(exit, i, below, caps''), m)
    {
      SafeLess(c, State(exit, i, below, caps''), n, m);
    }
  }

  /** L1: p; partialcommit L1; L2: */
  lemma {:induction false} LoopReady(
    c: Ctx, loop: int, back: int, max: nat, exit: int, i: nat, below: Stack, caps: seq<Cap>, n: nat)
    requires Good(c, loop, back, false, max) && Holds(c, back, IPartialCommit(loop - back)) && n <= max
    requires ExitSafe(c, exit, below, caps, n)
    ensures Ready(c, State(loop, i, Push(Choice(exit, i, caps), below), caps), n)
    decreases n
  {
    var stk := Push(Choice(exit, i, caps), below);
    forall j: nat, stk', caps' | Leaves(false, stk, caps, stk', caps')
      ensures Ready(c, State(back, j, stk', caps'), n)
    {
      var st' := State(loop, j, Push(Choice(exit, j, caps'), below), caps');
      if n > 0 {
        ExitLess(c, exit, below, caps, n, caps', n - 1);
        LoopReady(c, loop, back, max, exit, j, below, caps', n - 1);
      }
      StepReady(c, State(back, j, stk', caps'), st', n);
    }
    assert Cont(c, back, false, stk, caps, n);
  }

  /** Entering the loop with a choice of its own, or, in `opt` position, with the one on the stack. */
  lemma CommitRepGood(c: Ctx, pc: int, back: int, end: int, opt: bool, max: nat)
    requires Holds(c, pc, if opt then IPartialCommit(2) else IChoice(end - pc))
    requires Good(c, pc + 2, back, false, max) && Holds(c, back, IPartialCommit(pc + 2 - back))
    ensures Good(c, pc, end, opt, max)
  {
    forall n: nat, i: nat, stk, caps | n <= max && Cont(c, end, opt, stk, caps, n)
      ensures Ready(c, State(pc, i, stk, caps), n)
    {
      var exit, below := if opt then stk.top.pc else end, if opt then stk.below else stk;
      LoopExit(c, end, opt, stk, caps, n);
      LoopReady(c, pc + 2, back, max, exit, i, below, caps, n);
      var st' := State(pc + 2, i, Push(Choice(exit, i, caps), below), caps);
      SafeLess(c, st', n, if n == 0 then 0 else n - 1);
      StepReady(c, State(pc, i, stk, caps), st', n);
    }
  }

  lemma LoopExit(c: Ctx, end: int, opt: bool, stk: Stack, caps: seq<Cap>, n: nat)
    requires Cont(c, end, opt, stk, caps, n)
    ensures ExitSafe(c, if opt then stk.top.pc else end, if opt then stk.below else stk, caps, n)
  {
    var exit, below := if opt then stk.top.pc else end, if opt then stk.below else stk;
    forall i: nat, caps' | |caps| <= |caps'|
      ensures Safe(c, State(exit, i, below, caps'), n)
    {
      if opt {
        var stk' := Push(Choice(exit, i, caps'), below);
        assert Leaves(opt, stk, caps, stk', caps') && FailSafe(c, stk', n);
      } else {
        assert Leaves(opt, stk, caps, stk, caps') && Ready(c, State(end, i, stk, caps'), n);
      }
    }
  }

  /** A return follows a test only where the test always jumps. */
  lemma ReturnBehindTest(c: Ctx, pc: int, cs: set<Byte>, yes: int, no: int)
    requires TestAt(c, pc, cs, yes, no) && ReturnsFrom(c.code, pc)
    ensures ReturnsFrom(c.code, no)
  {
    ReturnBehindJump(c.code, pc);
  }

  /** L1: test -> L2; p; jmp L1; L2: */
  lemma {:induction false} TestedRepReady(
    c: Ctx, pc: int, cs: set<Byte>, start: int, back: int, end: int, opt: bool, max: nat, i: nat, stk: Stack,
    caps: seq<Cap>, n: nat)
    requires TestAt(c, pc, cs, start, end) && Good(c, start, back, false, max) && Holds(c, back, IJmp(pc - back))
    requires Cont(c, end, opt, stk, caps, n) && n <= max
    ensures Ready(c, State(pc, i, stk, caps), n)
    decreases n
  {
    forall stk', caps' | Leaves(false, stk, caps, stk', caps')
      ensures FailSafe(c, stk', n) && Cont(c, end, opt, stk', caps', n)
    {
      ContLater(c, end, opt, stk, caps, n, stk', caps');
      ContNow(c, end, opt, stk', caps', n, i);
    }
    forall j: nat, stk', caps' | Leaves(false, stk, caps, stk', caps')
      ensures Ready(c, State(back, j, stk', caps'), n)
    {
      if n > 0 {
        ContLess(c, end, opt, stk', caps', n, n - 1);
        TestedRepReady(c, pc, cs, start, back, end, opt, max, j, stk', caps', n - 1);
      }
      RoundReady(c, pc, cs, start, back, end, opt, j, stk', caps', n);
    }
    assert Cont(c, back, false, stk, caps, n);
    ContNow(c, end, opt, stk, caps, n, i);
    TestReady(c, pc, cs, start, end, i, stk, caps, n);
  }

  lemma RoundReady(c: Ctx, pc: int, cs: set<Byte>, start: int, back: int, end: int, opt: bool, j: nat, stk: Stack,
                   caps: seq<Cap>, n: nat)
    requires TestAt(c, pc, cs, start, end) && Holds(c, back, IJmp(pc - back)) && Cont(c, end, opt, stk, caps, n)
    requires n > 0 ==> Safe(c, State(pc, j, stk, caps), n - 1)
    ensures Ready(c, State(back, j, stk, caps), n)
  {
    if ReturnsFrom(c.code, back) {
      ReturnBehindJump(c.code, back);
      ReturnBehindTest(c, pc, cs, start, end);
      ContNow(c, end, opt, stk, caps, n, j);
    }
  }

  lemma TestedRepGood(c: Ctx, pc: int, cs: set<Byte>, start: int, back: int, end: int, opt: bool, max: nat)
    requires TestAt(c, pc, cs, start, end) && Good(c, start, back, false, max) && Holds(c, back, IJmp(pc - back))
    ensures Good(c, pc, end, opt, max)
  {
    forall n: nat, i: nat, stk, caps | n <= max && Cont(c, end, opt, stk, caps, n)
      ensures Ready(c, State(pc, i, stk, caps), n)
    {
      TestedRepReady(c, pc, cs, start, back, end, opt, max, i, stk, caps, n);
    }
  }

  // ---------- predicates ----------

  /** choice L1; p; failtwice; L1: */
  lemma NotGood(c: Ctx, pc: int, end: int, opt: bool, max: nat)
    requires Holds(c, pc, IChoice(end - pc)) && Holds(c, end - 1, IFailTwice) && Good(c, pc + 2, end - 1, false, max)
    ensures Good(c, pc, end, opt, max)
  {
    forall n: nat, i: nat, stk, caps | n <= max && Cont(c, end, opt, stk, caps, n)
      ensures Ready(c, State(pc, i, stk, caps), n)
    {
      ContNow(c, end, opt, stk, caps, n, i);
      var twice, stk1 := end - 1, Push(Choice(end, i, caps), stk);
      forall j: nat, stk', caps' | Leaves(false, stk1, caps, stk', caps')
        ensures Ready(c, State(twice, j, stk', caps'), n)
      {
        SafeLess(c, Backtrack(stk).st, n, if n == 0 then 0 else n - 1);
        StepReady(c, State(twice, j, stk', caps'), Backtrack(stk).st, n);
      }
      assert Cont(c, end - 1, false, stk1, caps, n);
      SafeLess(c, State(pc + 2, i, stk1, caps), n, if n == 0 then 0 else n - 1);
      StepReady(c, State(pc, i, stk, caps), State(pc + 2, i, stk1, caps), n);
    }
  }

  /** choice L1; p; backcommit L2; L1: fail; L2: */
  lemma AndGood(c: Ctx, pc: int, end: int, opt: bool, max: nat)
    requires Holds(c, pc, IChoice(end - 1 - pc)) && Holds(c, end - 3, IBackCommit(3)) && Holds(c, end - 1, IFail)
    requires Good(c, pc + 2, end - 3, false, max)
    ensures Good(c, pc, end, opt, max)
  {
    forall n: nat, i: nat, stk, caps | n <= max && Cont(c, end, opt, stk, caps, n)
      ensures Ready(c, State(pc, i, stk, caps), n)
    {
      ContNow(c, end, opt, stk, caps, n, i);
      var back, stk1 := end - 3, Push(Choice(end - 1, i, caps), stk);
      FailReady(c, State(end - 1, i, stk, caps), n);
      forall j: nat, stk', caps' | Leaves(false, stk1, caps, stk', caps')
        ensures Ready(c, State(back, j, stk', caps'), n)
      {
        SafeLess(c, State(end, i, stk, caps), n, if n == 0 then 0 else n - 1);
        StepReady(c, State(back, j, stk', caps'), State(end, i, stk, caps), n);
      }
      assert Cont(c, back, false, stk1, caps, n);
      SafeLess(c, State(pc + 2, i, stk1, caps), n, if n == 0 then 0 else n - 1);
      StepReady(c, State(pc, i, stk, caps), State(pc + 2, i, stk1, caps), n);
    }
  }

  // ---------- calls ----------

  /** A rule is safe wherever its frame is on top, failing is safe, and so is going on behind the call. */
  ghost predicate RuleSafe(c: Ctx, entry: int, max: nat) {
    forall n: nat, i: nat, stk: Stack, caps |
      n <= max && stk.Push? && stk.top.Frame? && FailSafe(c, stk, n) && ExitSafe(c, stk.top.pc, stk.below, caps, n) ::
      Ready(c, State(entry, i, stk, caps), n)
  }

  /** A body and the return behind it. */
  lemma BodySafe(c: Ctx, entry: int, ret: int, max: nat)
    requires Good(c, entry, ret, false, max) && Holds(c, ret, IRet)
    ensures RuleSafe(c, entry, max)
  {
    forall n: nat, i: nat, stk: Stack, caps |
      n <= max && stk.Push? && stk.top.Frame? && FailSafe(c, stk, n) && ExitSafe(c, stk.top.pc, stk.below, caps, n)
      ensures Ready(c, State(entry, i, stk, caps), n)
    {
      forall j: nat, stk', caps' | Leaves(false, stk, caps, stk', caps')
        ensures Ready(c, State(ret, j, stk', caps'), n)
      {
        SafeLess(c, State(stk.top.pc, j, stk.below, caps'), n, if n == 0 then 0 else n - 1);
      }
      assert Cont(c, ret, false, stk, caps, n);
    }
  }

  lemma CallGood(c: Ctx, pc: int, entry: int, opt: bool, max: nat)
    requires Holds(c, pc, ICall(entry - pc)) && (max > 0 ==> RuleSafe(c, entry, max - 1))
    ensures Good(c, pc, pc + 2, opt, max)
  {
    forall n: nat, i: nat, stk, caps | n <= max && Cont(c, pc + 2, opt, stk, caps, n)
      ensures Ready(c, State(pc, i, stk, caps), n)
    {
      var stk1 := Push(Frame(pc + 2), stk);
      if n > 0 {
        ContLess(c, pc + 2, opt, stk, caps, n, n - 1);
        BehindCall(c, pc + 2, opt, stk, caps, n - 1);
        ContNow(c, pc + 2, opt, stk, caps, n - 1, i);
        assert FailSafe(c, stk1, n - 1) && Ready(c, State(entry, i, stk1, caps), n - 1);
      }
      StepReady(c, State(pc, i, stk, caps), State(entry, i, stk1, caps), n);
    }
  }

  lemma BehindCall(c: Ctx, end: int, opt: bool, stk: Stack, caps: seq<Cap>, n: nat)
    requires Cont(c, end, opt, stk, caps, n)
    ensures ExitSafe(c, end, stk, caps, n)
  {
    forall j: nat, caps' | |caps| <= |caps'|
      ensures Safe(c, State(end, j, stk, caps'), n)
    {
      assert Leaves(opt, stk, caps, stk, caps') && Ready(c, State(end, j, stk, caps'), n);
    }
  }

  /** A jump in front of a return leaves the frame of the enclosing rule to the rule that it goes to. */
  lemma TailCallGood(c: Ctx, pc: int, entry: int, opt: bool, max: nat)
    requires Holds(c, pc, IJmp(entry - pc)) && ReturnsFrom(c.code, pc + 2)
    requires max > 0 ==> RuleSafe(c, entry, max - 1)
    ensures Good(c, pc, pc + 2, opt, max)
  {
    forall n: nat, i: nat, stk, caps | n <= max && Cont(c, pc + 2, opt, stk, caps, n)
      ensures Ready(c, State(pc, i, stk, caps), n)
    {
      ContNow(c, pc + 2, opt, stk, caps, n, i);
      if n > 0 {
        FrameBehind(c, pc + 2, opt, stk, caps, n);
        ExitLess(c, stk.top.pc, stk.below, caps, n, caps, n - 1);
        ContLess(c, pc + 2, opt, stk, caps, n, n - 1);
        ContNow(c, pc + 2, opt, stk, caps, n - 1, i);
        assert Ready(c, State(entry, i, stk, caps), n - 1);
      }
    }
  }

  lemma FrameBehind(c: Ctx, end: int, opt: bool, stk: Stack, caps: seq<Cap>, n: nat)
    requires Cont(c, end, opt, stk, caps, n) && ReturnsFrom(c.code, end)
    ensures stk.Push? && stk.top.Frame? && ExitSafe(c, stk.top.pc, stk.below, caps, n)
  {
    ContNow(c, end, opt, stk, caps, n, 0);
    forall j: nat, caps' | |caps| <= |caps'|
      ensures Safe(c, State(stk.top.pc, j, stk.below, caps'), n)
    {
      assert Leaves(opt, stk, caps, stk, caps') && Ready(c, State(end, j, stk, caps'), n);
    }
  }

  // ---------- the code of a tree ----------

  /** The rules that the calls of a tree lead to. */
  ghost predicate CallsSafe(x: Site, max: nat) {
    |x.env| == |x.g| && (max > 0 ==> forall k: nat | k < |x.g| :: RuleSafe(x.c, x.env[k], max - 1))
  }

  /** The code of a well-formed tree is safe, whatever the tree means and whether it means anything. */
  lemma {:induction false} GenGood(
    x: Site, t: Tree, opt: bool, tt: Option<Known>, fl: set<Byte>, pc: int, end: int, max: nat)
    requires WellFormed(x.g, t, x.depth) && CallsSafe(x, max) && GenAt(x, t, opt, tt, fl, pc, end)
    ensures Good(x.c, pc, end, opt, max)
    decreases t, 2
  {
    hide Good, At;
    match t
    case TTrue => EmptyGood(x.c, pc, opt, max);
    case TChar(b) => LeafGood(x, t, CharInstr(b, tt), opt, pc, max);
    case TSet(cs) => LeafGood(x, t, CharsetInstr(cs, tt), opt, pc, max);
    case TAny => LeafGood(x, t, IAny, opt, pc, max);
    case TFalse => LeafGood(x, t, IFail, opt, pc, max);
    case TConstCapture(key, value) =>
      ConstCaptureLayout(x.c, pc, key, value, x.env);
      EmptyGood(x.c, pc + 2, false, max);
      CaptureGood(x.c, pc, pc + 3, true, key, opt, max);
    case TCapture(_, _) => NodeGood(x, t, opt, tt, fl, pc, end, max);
    case TSeq(_, _) => SequenceGood(x, t, opt, tt, fl, pc, end, max);
    case TChoice(_, _) => TreeChoiceGood(x, t, opt, fl, pc, end, max);
    case TRep(_) => TreeRepGood(x, t, opt, fl, pc, end, max);
    case TNot(_) => TreeNotGood(x, t, opt, pc, end, max);
    case TAnd(_) => TreeAndGood(x, t, opt, tt, pc, end, max);
    case TBehind(_, _) => TreeBehindGood(x, t, opt, pc, end, max);
    case TCall(_) => TreeCallGood(x, t, opt, tt, fl, pc, end, max);
    case TGrammar(_) => TreeGrammarGood(x, t, opt, pc, end, max);
  }

  lemma LeafGood(x: Site, t: Tree, ins: Instr, opt: bool, pc: int, max: nat)
    requires At(x.c, pc, if t.TSet? then Emit(ins) else [ins], x.env) && Simple(ins) && (!t.TSet? ==> Size(ins) == 1)
    ensures Good(x.c, pc, pc + Size(ins), opt, max)
  {
    if t.TSet? { AtEmit(x.c, pc, ins, x.env); } else { AtOne(x.c, pc, ins, x.env); }
    SimpleGood(x.c, pc, ins, opt, max);
  }

  lemma {:induction false} SequenceGood(
    x: Site, t: Tree, opt: bool, tt: Option<Known>, fl: set<Byte>, pc: int, end: int, max: nat)
    requires t.TSeq? && WellFormed(x.g, t, x.depth) && CallsSafe(x, max)
    requires BlockAt(x, GenSeq(x.g, t, opt, tt, fl, x.depth, x.short), pc, end)
    ensures Good(x.c, pc, end, opt, max)
    decreases t, 0
  {
    hide Good, At;
    var TSeq(p1, p2) := t;
    var fl1, tt2 := SeqFollow(x.g, p1, p2, fl, x.depth), SeqTest(x.g, p1, tt);
    var code1, code2 := Gen(x.g, p1, false, tt, fl1, x.depth, x.short), Gen(x.g, p2, opt, tt2, fl, x.depth, x.short);
    AtSplit(x.c, pc, GenSeq(x.g, t, opt, tt, fl, x.depth, x.short), code1, code2, x.env);
    GenGood(x, p1, false, tt, fl1, pc, pc + |code1|, max);
    GenGood(x, p2, opt, tt2, fl, pc + |code1|, end, max);
    SeqGood(x.c, pc, pc + |code1|, end, opt, max);
  }

  lemma {:induction false} TreeChoiceGood(x: Site, t: Tree, opt: bool, fl: set<Byte>, pc: int, end: int, max: nat)
    requires t.TChoice? && WellFormed(x.g, t, x.depth) && CallsSafe(x, max)
    requires BlockAt(x, GenChoice(x.g, t, opt, fl, x.depth, x.short), pc, end)
    ensures Good(x.c, pc, end, opt, max)
    decreases t, 1
  {
    hide Good, At, GenChoice, GetFirst;
    if Deterministic(x.g, t.p1, t.p2, fl, x.depth) {
      var start1, mid, start2, _ := ByteChoiceLayout(x, t, opt, fl, pc);
      ByteChoiceGood(x, t, opt, fl, pc, start1, mid, start2, end, max);
    } else if opt && t.p2.TTrue? {
      var _ := ReusedChoiceLayoutOf(x, t, fl, pc);
      GenGood(x, t.p1, true, None, FULL, pc + 2, end, max);
      ReusedGood(x.c, pc, end, max);
    } else {
      var choice, commit, _ := StackChoiceLayout(x, t, opt, fl, pc);
      StackChoiceGood(x, t, opt, fl, pc, choice, commit, end, max);
    }
  }

  lemma {:induction false} ByteChoiceGood(
    x: Site, t: Tree, opt: bool, fl: set<Byte>, pc: int, start1: int, mid: int, start2: int, end: int, max: nat)
    requires t.TChoice? && WellFormed(x.g, t, x.depth) && CallsSafe(x, max)
    requires ByteChoiceAt(x, t, opt, fl, pc, start1, mid, start2, end)
    ensures Good(x.c, pc, end, opt, max)
    decreases t, 0
  {
    hide Good, At, GetFirst;
    var cs := GetFirst(x.g, t.p1, FULL, x.depth).cs;
    GenGood(x, t.p1, false, Tested(cs, x.short), fl, start1, mid, max);
    GenGood(x, t.p2, opt, None, fl, start2, end, max);
    TestedChoiceGood(x.c, pc, cs, start1, mid, start2, end, opt, max);
  }

  lemma {:induction false} StackChoiceGood(
    x: Site, t: Tree, opt: bool, fl: set<Byte>, pc: int, choice: int, commit: int, end: int, max: nat)
    requires t.TChoice? && WellFormed(x.g, t, x.depth) && CallsSafe(x, max)
    requires StackChoiceAt(x, t, opt, fl, pc, choice, commit, end)
    ensures Good(x.c, pc, end, opt, max)
    decreases t, 0
  {
    hide Good, At, Gen, GenAt, GetFirst;
    var f1 := GetFirst(x.g, t.p1, FULL, x.depth);
    GenGood(x, t.p1, t.p2.TTrue?, GuardTest(f1, x.short), FULL, choice + 2, commit, max);
    GenGood(x, t.p2, opt, None, fl, commit + 2, end, max);
    ChoiceGood(x.c, choice, commit, end, t.p2.TTrue?, opt, max);
    GuardGood(x.c, pc, f1, choice, commit + 2, end, opt, max);
  }

  lemma {:induction false} TreeRepGood(x: Site, t: Tree, opt: bool, fl: set<Byte>, pc: int, end: int, max: nat)
    requires t.TRep? && WellFormed(x.g, t, x.depth) && CallsSafe(x, max)
    requires BlockAt(x, GenRep(x.g, t, opt, fl, x.depth, x.short), pc, end)
    ensures Good(x.c, pc, end, opt, max)
    decreases t, 1
  {
    hide Good, At, GenRep, GetFirst;
    if ToCharset(t.p).Some? {
      SpanGood(x, t, opt, fl, pc, end, max);
    } else if DeterministicRep(x.g, t.p, fl, x.depth) {
      var start, back := ByteRepLayout(x, t, opt, fl, pc);
      ByteRepGood(x, t.p, opt, pc, start, back, max);
    } else {
      var enter, _ := StackRepLayout(x, t, opt, fl, pc);
      StackRepGood(x, t.p, opt, pc, enter, end, max);
    }
  }

  lemma SpanGood(x: Site, t: Tree, opt: bool, fl: set<Byte>, pc: int, end: int, max: nat)
    requires t.TRep? && ToCharset(t.p).Some? && BlockAt(x, GenRep(x.g, t, opt, fl, x.depth, x.short), pc, end)
    ensures Good(x.c, pc, end, opt, max)
  {
    AtEmit(x.c, pc, ISpan(ToCharset(t.p).value), x.env);
    SimpleGood(x.c, pc, ISpan(ToCharset(t.p).value), opt, max);
  }

  lemma {:induction false} ByteRepGood(x: Site, p: Tree, opt: bool, pc: int, start: int, back: int, max: nat)
    requires WellFormed(x.g, p, x.depth) && CallsSafe(x, max) && ByteRepAt(x, p, pc, start, back)
    ensures Good(x.c, pc, back + 2, opt, max)
    decreases p, 3
  {
    hide Good, At, Gen, GenAt, GetFirst, WellFormed;
    var cs := GetFirst(x.g, p, FULL, x.depth).cs;
    GenGood(x, p, false, Tested(cs, x.short), FULL, start, back, max);
    TestedRepGood(x.c, pc, cs, start, back, back + 2, opt, max);
  }

  lemma {:induction false} StackRepGood(x: Site, p: Tree, opt: bool, pc: int, enter: int, end: int, max: nat)
    requires WellFormed(x.g, p, x.depth) && CallsSafe(x, max) && StackRepAt(x, p, opt, pc, enter, end)
    ensures Good(x.c, pc, end, opt, max)
    decreases p, 3
  {
    hide Good, At, Gen, GenAt, GetFirst, WellFormed;
    GenGood(x, p, false, None, FULL, enter + 2, end - 2, max);
    CommitRepGood(x.c, enter, end - 2, end, opt, max);
    EmptyGood(x.c, end, opt, max);
    GuardGood(x.c, pc, GetFirst(x.g, p, FULL, x.depth), enter, end, end, opt, max);
  }

  lemma {:induction false} TreeNotGood(x: Site, t: Tree, opt: bool, pc: int, end: int, max: nat)
    requires t.TNot? && WellFormed(x.g, t, x.depth) && CallsSafe(x, max)
    requires BlockAt(x, GenNot(x.g, t, x.depth, x.short), pc, end)
    ensures Good(x.c, pc, end, opt, max)
    decreases t, 1
  {
    hide Good, At, GenNot, GetFirst;
    if HeadFail(x.g, t.p, x.depth) {
      var start, _ := ByteNotLayout(x, t, pc);
      ByteNotGood(x.c, GetFirst(x.g, t.p, FULL, x.depth).cs, opt, pc, start, max);
    } else {
      var start, _ := StackNotLayout(x, t, pc);
      StackNotGood(x, t.p, opt, pc, start, end, max);
    }
  }

  lemma ByteNotGood(c: Ctx, cs: set<Byte>, opt: bool, pc: int, start: int, max: nat)
    requires TestAt(c, pc, cs, start, start + 1) && Holds(c, start, IFail)
    ensures Good(c, pc, start + 1, opt, max)
  {
    hide Good;
    EmptyGood(c, start + 1, opt, max);
    SimpleGood(c, start, IFail, opt, max);
    TestGood(c, pc, cs, start, start + 1, start + 1, opt, max);
  }

  lemma {:induction false} StackNotGood(x: Site, p: Tree, opt: bool, pc: int, start: int, end: int, max: nat)
    requires WellFormed(x.g, p, x.depth) && CallsSafe(x, max) && StackNotAt(x, p, pc, start, end)
    ensures Good(x.c, pc, end, opt, max)
    decreases p, 3
  {
    hide Good, At, Gen, GenAt, GetFirst, WellFormed;
    GenGood(x, p, false, None, FULL, start + 2, end - 1, max);
    NotGood(x.c, start, end, opt, max);
    EmptyGood(x.c, end, opt, max);
    GuardGood(x.c, pc, GetFirst(x.g, p, FULL, x.depth), start, end, end, opt, max);
  }

  lemma {:induction false} TreeAndGood(x: Site, t: Tree, opt: bool, tt: Option<Known>, pc: int, end: int, max: nat)
    requires t.TAnd? && WellFormed(x.g, t, x.depth) && CallsSafe(x, max)
    requires BlockAt(x, GenAnd(x.g, t, tt, x.depth, x.short), pc, end)
    ensures Good(x.c, pc, end, opt, max)
    decreases t, 1
  {
    hide Good, At, GenAnd, Gen, GenAt;
    if StepsBack(x.g, t.p, x.depth) {
      var mid, _ := StepBackLayout(x, t, tt, pc);
      StepBackGood(x, t.p, opt, tt, pc, mid, end, max);
    } else {
      var _ := CommitAndLayoutOf(x, t, tt, pc);
      GenGood(x, t.p, false, tt, FULL, pc + 2, end - 3, max);
      AndGood(x.c, pc, end, opt, max);
    }
  }

  lemma {:induction false} StepBackGood(
    x: Site, p: Tree, opt: bool, tt: Option<Known>, pc: int, mid: int, end: int, max: nat)
    requires WellFormed(x.g, p, x.depth) && CallsSafe(x, max) && StepBackAt(x, p, tt, pc, mid, end)
    ensures Good(x.c, pc, end, opt, max)
    decreases p, 3
  {
    hide Good, At, Gen, GenAt, GetFirst, WellFormed;
    var n := FixedLen(x.g, p);
    GenGood(x, p, false, tt, FULL, pc, mid, max);
    if n > 0 { SimpleGood(x.c, mid, IBehind(n), opt, max); } else { EmptyGood(x.c, mid, opt, max); }
    SeqGood(x.c, pc, mid, end, opt, max);
  }

  lemma {:induction false} TreeBehindGood(x: Site, t: Tree, opt: bool, pc: int, end: int, max: nat)
    requires t.TBehind? && WellFormed(x.g, t, x.depth) && CallsSafe(x, max)
    requires BlockAt(x, BehindCode(t.n, Gen(x.g, t.p, false, None, FULL, x.depth, x.short)), pc, end)
    ensures Good(x.c, pc, end, opt, max)
    decreases t, 0
  {
    hide Good, At, BehindCode;
    var start := BehindLayout(x.c, pc, t.n, Gen(x.g, t.p, false, None, FULL, x.depth, x.short), x.env);
    GenGood(x, t.p, false, None, FULL, start, end, max);
    DropOptGood(x.c, start, end, opt, max);
    if t.n > 0 { SimpleGood(x.c, pc, IBehind(t.n), false, max); } else { EmptyGood(x.c, pc, false, max); }
    SeqGood(x.c, pc, start, end, opt, max);
  }

  lemma {:induction false} NodeGood(
    x: Site, t: Tree, opt: bool, tt: Option<Known>, fl: set<Byte>, pc: int, end: int, max: nat)
    requires t.TCapture? && WellFormed(x.g, t, x.depth) && CallsSafe(x, max)
    requires BlockAt(x, CaptureCode(t.key, Gen(x.g, t.p, false, tt, fl, x.depth, x.short)), pc, end)
    ensures Good(x.c, pc, end, opt, max)
    decreases t, 0
  {
    hide Good, At, CaptureCode, Gen, GetFirst;
    var _ := CaptureLayout(x.c, pc, t.key, Gen(x.g, t.p, false, tt, fl, x.depth, x.short), x.env);
    GenGood(x, t.p, false, tt, fl, pc + 2, end - 1, max);
    CaptureGood(x.c, pc, end, false, t.key, opt, max);
  }

  lemma TreeCallGood(x: Site, t: Tree, opt: bool, tt: Option<Known>, fl: set<Byte>, pc: int, end: int, max: nat)
    requires t.TCall?
    requires WellFormed(x.g, t, x.depth) && CallsSafe(x, max) && GenAt(x, t, opt, tt, fl, pc, end)
    ensures Good(x.c, pc, end, opt, max)
  {
    var k := t.rule;
    AtWord(x.c, pc, Emit(IOpenCall(k)), 0, x.env);
    if Holds(x.c, pc, ICall(x.env[k] - pc)) {
      CallGood(x.c, pc, x.env[k], opt, max);
    } else {
      TailCallGood(x.c, pc, x.env[k], opt, max);
    }
  }

  /** A rule in place is safe. */
  lemma {:induction false} RuleGood(x: Site, k: nat, max: nat)
    requires k < |x.g| == |x.env| && RuleAt(x, k) && CallsSafe(x, max)
    ensures RuleSafe(x.c, x.env[k], max)
    decreases x.g[k], 3
  {
    hide Good, At, RuleSafe;
    var body := Gen(x.g, x.g[k], false, None, FULL, x.depth, x.short);
    var start, ret := x.env[k], x.env[k] + |body|;
    AtSplit(x.c, start, body + [IRet], body, [IRet], x.env);
    AtOne(x.c, ret, IRet, x.env);
    GenGood(x, x.g[k], false, None, FULL, start, ret, max);
    BodySafe(x.c, start, ret, max);
  }

  /** The rules of a grammar in place are safe, by induction on the number of steps. */
  lemma {:induction false} RulesGood(x: Site, t: Tree, max: nat)
    requires t == TGrammar(x.g) && RulesAt(x)
    ensures CallsSafe(x, max + 1)
    decreases t, 0, max
  {
    hide RuleSafe, RuleAt;
    if max > 0 { RulesGood(x, t, max - 1); }
    forall k: nat | k < |x.g|
      ensures RuleSafe(x.c, x.env[k], max)
    {
      assert RuleAt(x, k);
      RuleGood(x, k, max);
    }
  }

  lemma {:induction false} TreeGrammarGood(x: Site, t: Tree, opt: bool, pc: int, end: int, max: nat)
    requires t.TGrammar? && WellFormed(x.g, t, x.depth) && BlockAt(x, GenGrammar(t, x.depth, x.short), pc, end)
    ensures Good(x.c, pc, end, opt, max)
    decreases t, 0, max
  {
    hide Good, At, GenGrammar;
    var inner := GrammarInPlace(x, t, pc);
    if max > 0 { RulesGood(inner, t, max - 1); }
    CallGood(x.c, pc, inner.env[0], false, max);
    JumpGood(x.c, pc + 2, end, opt, max);
    SeqGood(x.c, pc, pc + 2, end, opt, max);
  }

  // ---------- whole programs ----------

  /** No run from `st` ever gets stuck. */
  ghost predicate NeverStuck(code: seq<Instr>, s: Input, st: State) {
    forall n: nat :: Safe(Ctx(code, s), st, n)
  }

  lemma AssembledNeverStuck(t: Tree, depth: nat, s: Input, start: nat)
    requires WellFormed([], t, depth)
    ensures NeverStuck(Assemble(t, depth), s, Initial(start))
  {
    var code, block := Assemble(t, depth), Gen([], t, false, None, FULL, depth, true);
    var c := Ctx(code, s);
    AssembleWhole(t, depth);
    WholeStands(c, block);
    forall n: nat
      ensures Safe(c, Initial(start), n)
    {
      GenGood(Site(c, [], [], depth, true), t, false, None, FULL, 0, |block|, n);
      EndCont(c, |block|, start, n);
    }
  }

  /** The end is safe with the first choice alone on the stack, and so is giving up. */
  lemma EndCont(c: Ctx, end: int, start: nat, n: nat)
    requires Holds(c, end, IEnd)
    ensures Cont(c, end, false, Initial(start).stk, [], n)
  {
    var stk := Initial(start).stk;
    if ReturnsFrom(c.code, end) {
      ReturnBehindJump(c.code, end);
      assert false;
    }
    assert FailSafe(c, stk, n);
  }

  // ---------- the optimiser ----------

  lemma {:induction false} ChainNeverStuck(code: seq<Instr>, s: Input, st: State, jumps: nat)
    requires NeverStuck(code, s, st)
    ensures NeverStuck(code, s, st.(pc := FinalTarget(code, st.pc, jumps)))
    decreases jumps
  {
    if jumps > 0 && 0 <= st.pc < |code| && code[st.pc].IJmp? {
      NextNeverStuck(code, s, st);
      ChainNeverStuck(code, s, st.(pc := st.pc + code[st.pc].off), jumps - 1);
    }
  }

  lemma NextNeverStuck(code: seq<Instr>, s: Input, st: State)
    requires NeverStuck(code, s, st)
    ensures !Step(code, s, st).Stuck?
    ensures Step(code, s, st).Next? ==> NeverStuck(code, s, Step(code, s, st).st)
  {
    var c := Ctx(code, s);
    assert Safe(c, st, 1);
    if Step(code, s, st).Next? {
      forall n: nat
        ensures Safe(c, Step(code, s, st).st, n)
      {
        assert Safe(c, st, n + 1);
      }
    }
  }

  /** A run of the rewritten code is as safe as the runs that it follows. */
  lemma {:induction false} SafeAhead(
    code: seq<Instr>, code': seq<Instr>, i: nat, ft: int, s: Input, st: State, st': State, n: nat)
    requires Rewrites(code, code', i, ft) && StateAhead(code, st, st') && NeverStuck(code, s, st)
    ensures Safe(Ctx(code', s), st', n)
    decreases n, 1
  {
    var jumps: nat :| FinalTarget(code, st.pc, jumps) == st'.pc;
    ChainNeverStuck(code, s, st, jumps);
    var q, cur := st'.pc, st.(pc := st'.pc);
    NextNeverStuck(code, s, cur);
    if 0 <= q < |code| && n > 0 {
      if q == i && code[i].IJmp? {
        var next := cur.(pc := i + code[i].off);
        var jumps': nat :| FinalTarget(code, next.pc, jumps') == ft;
        ChainNeverStuck(code, s, next, jumps');
        if code'[i] == IJmp(ft - i) {
          AheadRefl(code, ft);
          SafeAhead(code, code', i, ft, s, next.(pc := ft), st'.(pc := ft), n - 1);
        } else {
          SafeAheadStep(code, code', i, ft, s, next.(pc := ft), st', n);
        }
      } else {
        if q != i && HasLabel(code[q]) { AheadRefl(code, q + code[q].off); }
        SafeAheadStep(code, code', i, ft, s, cur, st', n);
      }
    }
  }

  lemma {:induction false} SafeAheadStep(
    code: seq<Instr>, code': seq<Instr>, i: nat, ft: int, s: Input, st: State, st': State, n: nat)
    requires Rewrites(code, code', i, ft) && NeverStuck(code, s, st) && n > 0
    requires st.pos == st'.pos && st.caps == st'.caps && StackAhead(code, st.stk, st'.stk)
    requires 0 <= st.pc < |code| && 0 <= st'.pc < |code|
    requires Stands(code, code[st.pc], st.pc, code'[st'.pc], st'.pc)
    ensures Safe(Ctx(code', s), st', n)
    decreases n, 0
  {
    ExecAhead(code, s, code[st.pc], code'[st'.pc], st, st');
    NextNeverStuck(code, s, st);
    if Step(code, s, st).Next? {
      SafeAhead(code, code', i, ft, s, Step(code, s, st).st, Step(code', s, st').st, n - 1);
    }
  }

  lemma RewriteNeverStuck(code: seq<Instr>, code': seq<Instr>, i: nat, ft: int, s: Input, st: State)
    requires Rewrites(code, code', i, ft) && NeverStuck(code, s, st)
    ensures NeverStuck(code', s, st)
  {
    AheadRefl(code, st.pc);
    StackAheadRefl(code, st.stk);
    forall n: nat
      ensures Safe(Ctx(code', s), st, n)
    {
      SafeAhead(code, code', i, ft, s, st, st, n);
    }
  }

  lemma {:induction false} OptimizeFromNeverStuck(code: seq<Instr>, i: nat, s: Input, st: State)
    requires Padded(code) && NeverStuck(code, s, st)
    ensures NeverStuck(OptimizeFrom(code, i), s, st)
    decreases |code| - i
  {
    if i < |code| {
      var code' := OptimizeAt(code, i);
      var code1, ft1, ft2 := OptimizeSteps(code, i);
      RewriteNeverStuck(code, code1, i, ft1, s, st);
      RewriteNeverStuck(code1, code', i, ft2, s, st);
      PaddingStays(code, i);
      OptimizeFromNeverStuck(code', i + Size(code'[i]), s, st);
    }
  }

  /** No run of the code of a well-formed pattern ever gets stuck, before and after optimisation: whether the pattern
      is accepted or not, and whether the run ends or not. */
  lemma CompiledNeverStuck(t: Tree, depth: nat, s: Input, start: nat)
    requires WellFormed([], t, depth)
    ensures NeverStuck(Assemble(t, depth), s, Initial(start)) && NeverStuck(Compile(t, depth), s, Initial(start))
  {
    AssembledNeverStuck(t, depth, s, start);
    AssembleWhole(t, depth);
    WholePadded(Assemble(t, depth), 0);
    OptimizeFromNeverStuck(Assemble(t, depth), 0, s, Initial(start));
  }

  // ---------- what every step finds ----------

  /** The state after `n` steps, if the run gets that far. */
  ghost function Reached(code: seq<Instr>, s: Input, st: State, n: nat): Option<State>
    decreases n
  {
    if n == 0 then Some(st)
    else
      match Step(code, s, st)
      case Next(st') => Reached(code, s, st', n - 1)
      case _ => None
  }

  ghost predicate HasChoice(stk: Stack) { stk.Push? && (stk.top.Choice? || HasChoice(stk.below)) }

  /** What the instructions that use the stack or the captures expect to find. */
  ghost predicate Disciplined(code: seq<Instr>, st: State) {
    if st.pc == GIVE_UP then st.stk == Bottom
    else
      0 <= st.pc < |code| &&
      match code[st.pc]
      case ICommit(_) => st.stk.Push? && st.stk.top.Choice?
      case IPartialCommit(_) => st.stk.Push? && st.stk.top.Choice?
      case IBackCommit(_) => st.stk.Push? && st.stk.top.Choice?
      case IRet => st.stk.Push? && st.stk.top.Frame?
      case IFailTwice => st.stk.Push? && HasChoice(st.stk.below)
      case IFail => HasChoice(st.stk)
      case IEnd => st.stk.Push? && st.stk.below.Bottom?
      case ICloseCapture => st.caps != []
      case ICloseConstCapture(_) => st.caps != []
      case IOpenCall(_) => false
      case IPad => false
      case _ => true
  }

  lemma {:induction false} BacktrackFinds(stk: Stack)
    ensures Backtrack(stk).Next? <==> HasChoice(stk)
    decreases stk
  {
    if stk.Push? { BacktrackFinds(stk.below); }
  }

  lemma {:induction false} ReachedNeverStuck(code: seq<Instr>, s: Input, st: State, k: nat)
    requires NeverStuck(code, s, st) && Reached(code, s, st, k).Some?
    ensures NeverStuck(code, s, Reached(code, s, st, k).value)
    decreases k
  {
    NextNeverStuck(code, s, st);
    if k > 0 { ReachedNeverStuck(code, s, Step(code, s, st).st, k - 1); }
  }

  /** On every run of a compiled pattern, accepted or not, at every step: commits find a choice on top of the stack,
      returns a frame, the end exactly one entry, giving up an empty stack, failing a choice to resume. */
  lemma StackDiscipline(t: Tree, depth: nat, s: Input, start: nat, k: nat)
    requires WellFormed([], t, depth) && Reached(Compile(t, depth), s, Initial(start), k).Some?
    ensures Disciplined(Compile(t, depth), Reached(Compile(t, depth), s, Initial(start), k).value)
  {
    var code := Compile(t, depth);
    var st := Reached(code, s, Initial(start), k).value;
    CompiledNeverStuck(t, depth, s, start);
    ReachedNeverStuck(code, s, Initial(start), k);
    NextNeverStuck(code, s, st);
    StuckUnlessDisciplined(code, s, st);
  }

  lemma StuckUnlessDisciplined(code: seq<Instr>, s: Input, st: State)
    requires !Step(code, s, st).Stuck?
    ensures Disciplined(code, st)
  {
    BacktrackFinds(st.stk);
    if st.stk.Push? { BacktrackFinds(st.stk.below); }
  }
}
