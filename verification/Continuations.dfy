/** Blocks of code, and the outcomes of the runs that go through them into a continuation. */
module Continuations {
  // `Behaves` says what a block does in terms of a `Result`, in front of every continuation: if the result is a
  // success, a run that enters the block has the outcome of the continuation at the end position; if it is a
  // failure, the outcome of failing.  Code without choice points is right only in front of a continuation that
  // fails on any next byte outside the follow set `fl`, and `Kont` grants no more. The lemmas build the behaviour
  // of composite blocks out of that of their parts.

  import opened Peg
  import opened Machine
  import opened CodeGen

  datatype Ctx = Ctx(code: seq<Instr>, s: Input)

  /** What is known of the rest of the run, for the result `r` of a block that ends at `end`. */
  ghost predicate Kont(c: Ctx, r: Result, end: int, fl: set<Byte>, stk: Stack, caps: seq<Cap>, o: Outcome) {
    match r
    case Fail => FailEvals(c.code, c.s, stk, o)
    case Ok(j, cs) =>
      Evals(c.code, c.s, State(end, j, stk, caps + Flatten(cs)), o) &&
      (j < |c.s| && c.s[j] !in fl ==> FailEvals(c.code, c.s, stk, o))
  }

  /** In `opt` code the choice of the enclosing optional pattern is on top, and what follows commits it. */
  ghost predicate OptHolds(opt: bool, c: Ctx, fl: set<Byte>, end: int, stk: Stack) {
    opt ==>
      fl == FULL && stk.Push? && stk.top.Choice? &&
      0 <= end < |c.code| && c.code[end] == ICommit(stk.top.pc - end)
  }

  ghost predicate Behaves(c: Ctx, r: Result, pc: int, end: int, i: nat, fl: set<Byte>, opt: bool) {
    match c
    case Ctx(code, s) =>
      forall stk, caps, o | OptHolds(opt, c, fl, end, stk) && Kont(c, r, end, fl, stk, caps, o) ::
        Evals(code, s, State(pc, i, stk, caps), o)
  }

  /** `ins` is the instruction at `pc`. */
  ghost predicate Holds(c: Ctx, pc: int, ins: Instr) {
    0 <= pc < |c.code| && c.code[pc] == ins
  }

  /** The test of `cs` stands at `pc`: it goes on to `yes` when the next byte is in `cs`, and to `no` otherwise. */
  ghost predicate TestAt(c: Ctx, pc: int, cs: set<Byte>, yes: int, no: int) {
    Holds(c, pc, TestInstr(cs, no - pc)) && yes == pc + TestSize(cs)
  }

  function SeqResult(r1: Result, r2: Result): Result {
    if r1.Fail? || r2.Fail? then Fail else Ok(r2.end, r1.caps + r2.caps)
  }

  function ChoiceResult(r1: Result, r2: Result): Result {
    if r1.Ok? then r1 else r2
  }

  // ---------- straight-line code ----------

  lemma EmptyBehaves(c: Ctx, pc: int, i: nat, fl: set<Byte>, opt: bool)
    ensures Behaves(c, Ok(i, []), pc, pc, i, fl, opt)
  {
    forall stk, caps, o | OptHolds(opt, c, fl, pc, stk) && Kont(c, Ok(i, []), pc, fl, stk, caps, o)
      ensures Evals(c.code, c.s, State(pc, i, stk, caps), o)
    {
      assert caps + Flatten([]) == caps;
    }
  }

  /** An instruction that either fails or moves to the end of the block without touching stack and captures. */
  lemma InstrBehaves(c: Ctx, r: Result, pc: int, end: int, i: nat, fl: set<Byte>, opt: bool)
    requires r.Ok? ==> r.caps == []
    requires forall stk, caps :: Step(c.code, c.s, State(pc, i, stk, caps)) ==
               if r.Ok? then Next(State(end, r.end, stk, caps)) else Backtrack(stk)
    ensures Behaves(c, r, pc, end, i, fl, opt)
  {
    forall stk, caps, o | OptHolds(opt, c, fl, end, stk) && Kont(c, r, end, fl, stk, caps, o)
      ensures Evals(c.code, c.s, State(pc, i, stk, caps), o)
    {
      assert caps + Flatten([]) == caps;
      var st := State(pc, i, stk, caps);
      if r.Ok? { StepEvals(c.code, c.s, st, State(end, r.end, stk, caps), o); } else { StepFails(c.code, c.s, st, o); }
    }
  }

  lemma SeqBehaves(c: Ctx, r1: Result, r2: Result, pc: int, mid: int, end: int, i: nat,
                   fl1: set<Byte>, fl: set<Byte>, opt: bool)
    requires Behaves(c, r1, pc, mid, i, fl1, false)
    requires r1.Ok? ==> Behaves(c, r2, mid, end, r1.end, fl, opt)
    requires r1.Ok? && r2.Ok? && r1.end < |c.s| && c.s[r1.end] !in fl1 ==>
               r2.end == r1.end && c.s[r1.end] !in fl
    ensures Behaves(c, SeqResult(r1, r2), pc, end, i, fl, opt)
  {
    hide Evals, FailEvals, Flatten;
    forall stk, caps, o | OptHolds(opt, c, fl, end, stk) && Kont(c, SeqResult(r1, r2), end, fl, stk, caps, o)
      ensures Evals(c.code, c.s, State(pc, i, stk, caps), o)
    {
      if r1.Ok? {
        var caps1 := caps + Flatten(r1.caps);
        if r2.Ok? {
          FlattenConcat(r1.caps, r2.caps);
          assert caps1 + Flatten(r2.caps) == caps + Flatten(r1.caps + r2.caps);
        }
        assert Kont(c, r2, end, fl, stk, caps1, o);
      }
      assert OptHolds(false, c, fl1, mid, stk) && Kont(c, r1, mid, fl1, stk, caps, o);
    }
  }

  lemma CaptureBehaves(c: Ctx, r: Result, pc: int, end: int, i: nat, key: nat, fl: set<Byte>, opt: bool)
    requires Holds(c, pc, IOpenCapture(false, key)) && Holds(c, end - 1, ICloseCapture)
    requires Behaves(c, r, pc + 2, end - 1, i, fl, false)
    ensures Behaves(c, if r.Ok? then Ok(r.end, [Node(key, i, r.caps, r.end)]) else Fail, pc, end, i, fl, opt)
  {
    var r' := if r.Ok? then Ok(r.end, [Node(key, i, r.caps, r.end)]) else Fail;
    forall stk, caps, o | OptHolds(opt, c, fl, end, stk) && Kont(c, r', end, fl, stk, caps, o)
      ensures Evals(c.code, c.s, State(pc, i, stk, caps), o)
    {
      var caps1 := caps + [Open(false, key, i)];
      if r.Ok? {
        var caps2 := caps1 + Flatten(r.caps);
        FlattenOne(Node(key, i, r.caps, r.end));
        assert caps2 + [Close(r.end)] == caps + FlattenTree(Node(key, i, r.caps, r.end));
        StepEvals(c.code, c.s, State(end - 1, r.end, stk, caps2), State(end, r.end, stk, caps2 + [Close(r.end)]), o);
      }
      assert OptHolds(false, c, fl, end - 1, stk) && Kont(c, r, end - 1, fl, stk, caps1, o);
      StepEvals(c.code, c.s, State(pc, i, stk, caps), State(pc + 2, i, stk, caps1), o);
    }
  }

  lemma ConstCaptureBehaves(c: Ctx, pc: int, i: nat, key: nat, value: nat, fl: set<Byte>, opt: bool)
    requires Holds(c, pc, IOpenCapture(true, key)) && Holds(c, pc + 2, ICloseConstCapture(value))
    ensures Behaves(c, Ok(i, [Const(key, value, i)]), pc, pc + 3, i, fl, opt)
  {
    var r := Ok(i, [Const(key, value, i)]);
    forall stk, caps, o | OptHolds(opt, c, fl, pc + 3, stk) && Kont(c, r, pc + 3, fl, stk, caps, o)
      ensures Evals(c.code, c.s, State(pc, i, stk, caps), o)
    {
      var caps1 := caps + [Open(true, key, i)];
      var caps2 := caps1 + [CloseConst(value, i)];
      FlattenOne(Const(key, value, i));
      assert caps2 == caps + FlattenTree(Const(key, value, i));
      StepEvals(c.code, c.s, State(pc + 2, i, stk, caps1), State(pc + 3, i, stk, caps2), o);
      StepEvals(c.code, c.s, State(pc, i, stk, caps), State(pc + 2, i, stk, caps1), o);
    }
  }

  // ---------- tests and choices ----------

  lemma TestSteps(c: Ctx, pc: int, cs: set<Byte>, yes: int, no: int, i: nat, stk: Stack, caps: seq<Cap>)
    requires TestAt(c, pc, cs, yes, no)
    ensures Step(c.code, c.s, State(pc, i, stk, caps)) ==
            Next(State(if i < |c.s| && c.s[i] in cs then yes else no, i, stk, caps))
  {
  }

  /** A test in front of code that behaves the same way on both sides of it. */
  lemma GuardBehaves(c: Ctx, r: Result, cs: set<Byte>, pc: int, yes: int, no: int, end: int, i: nat,
                     fl: set<Byte>, opt: bool)
    requires TestAt(c, pc, cs, yes, no)
    requires Behaves(c, r, if i < |c.s| && c.s[i] in cs then yes else no, end, i, fl, opt)
    ensures Behaves(c, r, pc, end, i, fl, opt)
  {
    var next := if i < |c.s| && c.s[i] in cs then yes else no;
    forall stk, caps, o | OptHolds(opt, c, fl, end, stk) && Kont(c, r, end, fl, stk, caps, o)
      ensures Evals(c.code, c.s, State(pc, i, stk, caps), o)
    {
      TestSteps(c, pc, cs, yes, no, i, stk, caps);
      StepEvals(c.code, c.s, State(pc, i, stk, caps), State(next, i, stk, caps), o);
    }
  }

  /** A jump at the end of a block. */
  lemma JumpBehaves(c: Ctx, r: Result, pc: int, mid: int, end: int, i: nat, fl: set<Byte>, opt: bool)
    requires Behaves(c, r, pc, mid, i, fl, false) && Holds(c, mid, IJmp(end - mid))
    ensures Behaves(c, r, pc, end, i, fl, opt)
  {
    forall stk, caps, o | OptHolds(opt, c, fl, end, stk) && Kont(c, r, end, fl, stk, caps, o)
      ensures Evals(c.code, c.s, State(pc, i, stk, caps), o)
    {
      if r.Ok? {
        var caps1 := caps + Flatten(r.caps);
        StepEvals(c.code, c.s, State(mid, r.end, stk, caps1), State(end, r.end, stk, caps1), o);
      }
      assert OptHolds(false, c, fl, mid, stk) && Kont(c, r, mid, fl, stk, caps, o);
    }
  }

  /** The first alternative without a choice point stands for the whole choice, as long as the second
      alternative would fail too, or succeed on nothing in front of a byte outside the follow set. */
  lemma CommittedBehaves(c: Ctx, r1: Result, r2: Result, pc: int, end: int, i: nat, fl: set<Byte>, opt: bool)
    requires Behaves(c, r1, pc, end, i, fl, opt)
    requires r1.Fail? && r2.Ok? ==> r2.end == i && i < |c.s| && c.s[i] !in fl
    ensures Behaves(c, ChoiceResult(r1, r2), pc, end, i, fl, opt)
  {
    forall stk, caps, o | OptHolds(opt, c, fl, end, stk) && Kont(c, ChoiceResult(r1, r2), end, fl, stk, caps, o)
      ensures Evals(c.code, c.s, State(pc, i, stk, caps), o)
    {
      assert Kont(c, r1, end, fl, stk, caps, o);
    }
  }

  /** Code that is not in `opt` position may be used there. */
  lemma DropOpt(c: Ctx, r: Result, pc: int, end: int, i: nat, fl: set<Byte>, opt: bool)
    requires Behaves(c, r, pc, end, i, fl, false)
    ensures Behaves(c, r, pc, end, i, fl, opt)
  {
    forall stk, caps, o | OptHolds(opt, c, fl, end, stk) && Kont(c, r, end, fl, stk, caps, o)
      ensures Evals(c.code, c.s, State(pc, i, stk, caps), o)
    {
      assert OptHolds(false, c, fl, end, stk);
    }
  }

  /** A block that fails may be given any end and any follow set. */
  lemma FailBehaves(c: Ctx, pc: int, mid: int, end: int, i: nat, fl: set<Byte>)
    requires Behaves(c, Fail, pc, mid, i, FULL, false)
    ensures Behaves(c, Fail, pc, end, i, fl, false)
  {
    forall stk, caps, o | OptHolds(false, c, fl, end, stk) && Kont(c, Fail, end, fl, stk, caps, o)
      ensures Evals(c.code, c.s, State(pc, i, stk, caps), o)
    {
      assert OptHolds(false, c, FULL, mid, stk) && Kont(c, Fail, mid, FULL, stk, caps, o);
    }
  }

  /** choice L1; p1; commit L2; L1: p2; L2: */
  lemma PlainChoiceBehaves(c: Ctx, r1: Result, r2: Result, pc: int, commit: int, end: int, i: nat,
                           fl: set<Byte>, opt1: bool, opt: bool)
    requires Holds(c, pc, IChoice(commit + 2 - pc)) && Holds(c, commit, ICommit(end - commit))
    requires Behaves(c, r1, pc + 2, commit, i, FULL, opt1)
    requires opt1 ==> end == commit + 2
    requires r1.Fail? ==> Behaves(c, r2, commit + 2, end, i, fl, opt)
    ensures Behaves(c, ChoiceResult(r1, r2), pc, end, i, fl, opt)
  {
    forall stk, caps, o | OptHolds(opt, c, fl, end, stk) && Kont(c, ChoiceResult(r1, r2), end, fl, stk, caps, o)
      ensures Evals(c.code, c.s, State(pc, i, stk, caps), o)
    {
      var stk1 := Push(Choice(commit + 2, i, caps), stk);
      if r1.Ok? {
        var caps1 := caps + Flatten(r1.caps);
        StepEvals(c.code, c.s, State(commit, r1.end, stk1, caps1), State(end, r1.end, stk, caps1), o);
      }
      assert OptHolds(opt1, c, FULL, commit, stk1) && Kont(c, r1, commit, FULL, stk1, caps, o);
      StepEvals(c.code, c.s, State(pc, i, stk, caps), State(pc + 2, i, stk1, caps), o);
    }
  }

  /** The commit behind `opt` code does not care what the top choice remembers. */
  lemma RetopCommit(c: Ctx, end: int, j: nat, stk: Stack, pos: nat, caps0: seq<Cap>, caps: seq<Cap>, o: Outcome)
    requires OptHolds(true, c, FULL, end, stk)
    requires Evals(c.code, c.s, State(end, j, stk, caps), o)
    ensures Evals(c.code, c.s, State(stk.top.pc, j, stk.below, caps), o)
    ensures Evals(c.code, c.s, State(end, j, Push(Choice(stk.top.pc, pos, caps0), stk.below), caps), o)
  {
    var target := State(stk.top.pc, j, stk.below, caps);
    StepEvalsBack(c.code, c.s, State(end, j, stk, caps), target, o);
    StepEvals(c.code, c.s, State(end, j, Push(Choice(stk.top.pc, pos, caps0), stk.below), caps), target, o);
  }

  /** partialcommit; p1 -- the optional pattern reuses the choice on top of the stack */
  lemma OptChoiceBehaves(c: Ctx, r1: Result, pc: int, end: int, i: nat, fl: set<Byte>)
    requires Holds(c, pc, IPartialCommit(2)) && Behaves(c, r1, pc + 2, end, i, FULL, true)
    ensures Behaves(c, ChoiceResult(r1, Ok(i, [])), pc, end, i, fl, true)
  {
    forall stk, caps, o | OptHolds(true, c, fl, end, stk) && Kont(c, ChoiceResult(r1, Ok(i, [])), end, fl, stk, caps, o)
      ensures Evals(c.code, c.s, State(pc, i, stk, caps), o)
    {
      var stk1 := Push(Choice(stk.top.pc, i, caps), stk.below);
      assert caps + Flatten([]) == caps;
      if r1.Ok? {
        RetopCommit(c, end, r1.end, stk, i, caps, caps + Flatten(r1.caps), o);
      } else {
        RetopCommit(c, end, i, stk, i, caps, caps, o);
      }
      assert OptHolds(true, c, FULL, end, stk1) && Kont(c, r1, end, FULL, stk1, caps, o);
      StepEvals(c.code, c.s, State(pc, i, stk, caps), State(pc + 2, i, stk1, caps), o);
    }
  }

  // ---------- repetitions ----------

  /** One round of the repetition without a choice: `r` is the round, `r'` the rest. */
  lemma RoundBehaves(c: Ctx, r: Result, r': Result, pc: int, body: int, back: int, end: int, i: nat, fl: set<Byte>)
    requires Behaves(c, r, body, back, i, FULL, false) && Holds(c, back, IJmp(pc - back))
    requires r.Ok? && Behaves(c, r', pc, end, r.end, fl, false)
    ensures Behaves(c, SeqResult(r, r'), body, end, i, fl, false)
  {
    JumpBehaves(c, r, body, back, pc, i, FULL, false);
    SeqBehaves(c, r, r', body, pc, end, i, FULL, fl, false);
  }

  /** Inside the loop of a repetition: the choice on top is updated by each round, and its exit continues
      with what is below it. */
  ghost predicate LoopBehaves(c: Ctx, r: Result, loop: int, i: nat)
    requires r.Ok?
  {
    forall exit, below, caps, o | Evals(c.code, c.s, State(exit, r.end, below, caps + Flatten(r.caps)), o) ::
      Evals(c.code, c.s, State(loop, i, Push(Choice(exit, i, caps), below), caps), o)
  }

  lemma LoopRound(c: Ctx, r: Result, r': Result, loop: int, back: int, i: nat)
    requires Behaves(c, r, loop, back, i, FULL, false) && Holds(c, back, IPartialCommit(loop - back))
    requires r.Ok? && r'.Ok? && LoopBehaves(c, r', loop, r.end)
    ensures LoopBehaves(c, SeqResult(r, r'), loop, i)
  {
    forall exit, below, caps, o |
      Evals(c.code, c.s, State(exit, r'.end, below, caps + Flatten(r.caps + r'.caps)), o)
      ensures Evals(c.code, c.s, State(loop, i, Push(Choice(exit, i, caps), below), caps), o)
    {
      var caps1 := caps + Flatten(r.caps);
      FlattenConcat(r.caps, r'.caps);
      assert caps1 + Flatten(r'.caps) == caps + Flatten(r.caps + r'.caps);
      var stk := Push(Choice(exit, i, caps), below);
      StepEvals(c.code, c.s, State(back, r.end, stk, caps1),
                State(loop, r.end, Push(Choice(exit, r.end, caps1), below), caps1), o);
      assert OptHolds(false, c, FULL, back, stk) && Kont(c, r, back, FULL, stk, caps, o);
    }
  }

  lemma LoopLast(c: Ctx, loop: int, back: int, i: nat)
    requires Behaves(c, Fail, loop, back, i, FULL, false)
    ensures LoopBehaves(c, Ok(i, []), loop, i)
  {
    forall exit, below, caps, o | Evals(c.code, c.s, State(exit, i, below, caps + Flatten([])), o)
      ensures Evals(c.code, c.s, State(loop, i, Push(Choice(exit, i, caps), below), caps), o)
    {
      assert caps + Flatten([]) == caps;
      var stk := Push(Choice(exit, i, caps), below);
      assert OptHolds(false, c, FULL, back, stk) && Kont(c, Fail, back, FULL, stk, caps, o);
    }
  }

  /** Entering the loop with a choice of its own, or, in `opt` position, with the one on the stack. */
  lemma EnterLoop(c: Ctx, r: Result, pc: int, end: int, i: nat, fl: set<Byte>, opt: bool)
    requires Holds(c, pc, if opt then IPartialCommit(2) else IChoice(end - pc))
    requires r.Ok? && LoopBehaves(c, r, pc + 2, i)
    ensures Behaves(c, r, pc, end, i, fl, opt)
  {
    forall stk, caps, o | OptHolds(opt, c, fl, end, stk) && Kont(c, r, end, fl, stk, caps, o)
      ensures Evals(c.code, c.s, State(pc, i, stk, caps), o)
    {
      var exit, below := if opt then stk.top.pc else end, if opt then stk.below else stk;
      if opt { RetopCommit(c, end, r.end, stk, i, caps, caps + Flatten(r.caps), o); }
      StepEvals(c.code, c.s, State(pc, i, stk, caps), State(pc + 2, i, Push(Choice(exit, i, caps), below), caps), o);
    }
  }

  // ---------- predicates ----------

  /** choice L1; p; failtwice; L1: */
  lemma PlainNotBehaves(c: Ctx, r: Result, pc: int, end: int, i: nat, fl: set<Byte>, opt: bool)
    requires Holds(c, pc, IChoice(end - pc)) && Holds(c, end - 1, IFailTwice)
    requires Behaves(c, r, pc + 2, end - 1, i, FULL, false)
    ensures Behaves(c, if r.Ok? then Fail else Ok(i, []), pc, end, i, fl, opt)
  {
    var r' := if r.Ok? then Fail else Ok(i, []);
    forall stk, caps, o | OptHolds(opt, c, fl, end, stk) && Kont(c, r', end, fl, stk, caps, o)
      ensures Evals(c.code, c.s, State(pc, i, stk, caps), o)
    {
      assert caps + Flatten([]) == caps;
      var stk1 := Push(Choice(end, i, caps), stk);
      if r.Ok? {
        StepEvals(c.code, c.s, State(end - 1, r.end, stk1, caps + Flatten(r.caps)), Backtrack(stk).st, o);
      }
      assert OptHolds(false, c, FULL, end - 1, stk1) && Kont(c, r, end - 1, FULL, stk1, caps, o);
      StepEvals(c.code, c.s, State(pc, i, stk, caps), State(pc + 2, i, stk1, caps), o);
    }
  }

  /** choice L1; p; backcommit L2; L1: fail; L2: */
  lemma PlainAndBehaves(c: Ctx, r: Result, pc: int, end: int, i: nat, fl: set<Byte>, opt: bool)
    requires Holds(c, pc, IChoice(end - 1 - pc)) && Holds(c, end - 3, IBackCommit(3)) && Holds(c, end - 1, IFail)
    requires Behaves(c, r, pc + 2, end - 3, i, FULL, false)
    ensures Behaves(c, if r.Ok? then Ok(i, []) else Fail, pc, end, i, fl, opt)
  {
    var r' := if r.Ok? then Ok(i, []) else Fail;
    forall stk, caps, o | OptHolds(opt, c, fl, end, stk) && Kont(c, r', end, fl, stk, caps, o)
      ensures Evals(c.code, c.s, State(pc, i, stk, caps), o)
    {
      assert caps + Flatten([]) == caps;
      var stk1 := Push(Choice(end - 1, i, caps), stk);
      if r.Ok? {
        StepEvals(c.code, c.s, State(end - 3, r.end, stk1, caps + Flatten(r.caps)), State(end, i, stk, caps), o);
      } else {
        StepFails(c.code, c.s, State(end - 1, i, stk, caps), o);
      }
      assert OptHolds(false, c, FULL, end - 3, stk1) && Kont(c, r, end - 3, FULL, stk1, caps, o);
      StepEvals(c.code, c.s, State(pc, i, stk, caps), State(pc + 2, i, stk1, caps), o);
    }
  }

  // ---------- calls ----------

  /** Following jumps does not change the outcome. */
  lemma {:induction false} ChainEvals(c: Ctx, q: int, n: nat, j: nat, stk: Stack, caps: seq<Cap>, o: Outcome)
    requires Evals(c.code, c.s, State(q, j, stk, caps), o)
    ensures Evals(c.code, c.s, State(FinalTarget(c.code, q, n), j, stk, caps), o)
    decreases n
  {
    if n > 0 && 0 <= q < |c.code| && c.code[q].IJmp? {
      StepEvalsBack(c.code, c.s, State(q, j, stk, caps), State(q + c.code[q].off, j, stk, caps), o);
      ChainEvals(c, q + c.code[q].off, n - 1, j, stk, caps, o);
    }
  }

  /** A run that goes on to a return has a frame to return to. */
  lemma ReturnEvals(c: Ctx, q: int, j: nat, stk: Stack, caps: seq<Cap>, o: Outcome)
    requires ReturnsFrom(c.code, q) && Evals(c.code, c.s, State(q, j, stk, caps), o)
    ensures stk.Push? && stk.top.Frame?
    ensures Evals(c.code, c.s, State(stk.top.pc, j, stk.below, caps), o)
  {
    var n: nat :| 0 <= FinalTarget(c.code, q, n) < |c.code| && c.code[FinalTarget(c.code, q, n)].IRet?;
    ChainEvals(c, q, n, j, stk, caps, o);
    var st := State(FinalTarget(c.code, q, n), j, stk, caps);
    var m: nat :| Run(c.code, c.s, st, m) == Some(o);
    assert Step(c.code, c.s, st).Next?;
    StepEvalsBack(c.code, c.s, st, State(stk.top.pc, j, stk.below, caps), o);
  }

  ghost predicate RuleKont(c: Ctx, r: Result, stk: Stack, caps: seq<Cap>, o: Outcome) {
    if r.Fail? then FailEvals(c.code, c.s, stk, o)
    else
      stk.Push? && stk.top.Frame? &&
      Evals(c.code, c.s, State(stk.top.pc, r.end, stk.below, caps + Flatten(r.caps)), o)
  }

  /** A rule: entered with a frame on top, it returns to the frame. */
  ghost predicate RuleBehaves(c: Ctx, r: Result, entry: int, i: nat) {
    forall stk, caps, o | RuleKont(c, r, stk, caps, o) ::
      Evals(c.code, c.s, State(entry, i, stk, caps), o)
  }

  lemma BodyBehaves(c: Ctx, r: Result, entry: int, ret: int, i: nat)
    requires Behaves(c, r, entry, ret, i, FULL, false) && Holds(c, ret, IRet)
    ensures RuleBehaves(c, r, entry, i)
  {
    forall stk, caps, o | RuleKont(c, r, stk, caps, o)
      ensures Evals(c.code, c.s, State(entry, i, stk, caps), o)
    {
      if r.Ok? {
        var caps1 := caps + Flatten(r.caps);
        StepEvals(c.code, c.s, State(ret, r.end, stk, caps1), State(stk.top.pc, r.end, stk.below, caps1), o);
      }
      assert OptHolds(false, c, FULL, ret, stk) && Kont(c, r, ret, FULL, stk, caps, o);
    }
  }

  lemma CallBehaves(c: Ctx, r: Result, pc: int, entry: int, i: nat, fl: set<Byte>, opt: bool)
    requires Holds(c, pc, ICall(entry - pc)) && RuleBehaves(c, r, entry, i)
    ensures Behaves(c, r, pc, pc + 2, i, fl, opt)
  {
    forall stk, caps, o | OptHolds(opt, c, fl, pc + 2, stk) && Kont(c, r, pc + 2, fl, stk, caps, o)
      ensures Evals(c.code, c.s, State(pc, i, stk, caps), o)
    {
      assert RuleKont(c, r, Push(Frame(pc + 2), stk), caps, o);
      StepEvals(c.code, c.s, State(pc, i, stk, caps), State(entry, i, Push(Frame(pc + 2), stk), caps), o);
    }
  }

  /** A jump instead of a call, where a return follows. */
  lemma TailCallBehaves(c: Ctx, r: Result, pc: int, entry: int, i: nat, fl: set<Byte>, opt: bool)
    requires Holds(c, pc, IJmp(entry - pc)) && ReturnsFrom(c.code, pc + 2) && RuleBehaves(c, r, entry, i)
    ensures Behaves(c, r, pc, pc + 2, i, fl, opt)
  {
    forall stk, caps, o | OptHolds(opt, c, fl, pc + 2, stk) && Kont(c, r, pc + 2, fl, stk, caps, o)
      ensures Evals(c.code, c.s, State(pc, i, stk, caps), o)
    {
      if r.Ok? { ReturnEvals(c, pc + 2, r.end, stk, caps + Flatten(r.caps), o); }
      assert RuleKont(c, r, stk, caps, o);
      StepEvals(c.code, c.s, State(pc, i, stk, caps), State(entry, i, stk, caps), o);
    }
  }
}
