/** The matching machine as it works, with arrays for its stack and captures. */
module Vm {
  // Stack entries hold only a capture level, and the list of captures is never undone, only cut back.  Each step
  // is proved to be a step of the machine of module Machine, whose stack entries hold whole capture lists.

  import opened Peg
  import opened Machine

  const INIT_BACKTRACKSTACK: nat := 21
  const MAX_BACKTRACK: nat := 65535
  const INIT_CAPLISTSIZE: nat := 1000
  const MAX_CAPLISTSIZE: nat := 0x7FFF_FFFF

  /** The size of the capture array after so many doublings. */
  function Doubled(j: nat): (n: nat)
    ensures n >= INIT_CAPLISTSIZE
  {
    if j == 0 then INIT_CAPLISTSIZE else 2 * Doubled(j - 1)
  }

  /** The last size whose double does not fit an int. */
  const CAPTURE_FAULT: nat := 2_097_152_000

  ghost predicate IsSize(n: nat) { exists j: nat | j <= 21 :: n == Doubled(j) }

  lemma LastSize()
    ensures Doubled(20) == 1_048_576_000 && Doubled(21) == CAPTURE_FAULT
  {
    assert Doubled(5) == 32000;
    assert Doubled(10) == 1_024_000;
    assert Doubled(15) == 32_768_000;
  }

  lemma {:induction false} DoubledGrows(j: nat, k: nat)
    requires j <= k
    ensures Doubled(j) <= Doubled(k)
    decreases k
  {
    if j < k { DoubledGrows(j, k - 1); }
  }

  /** Every size but the last can be doubled, and the limit of the list lies behind them all. */
  lemma NextSize(n: nat)
    requires IsSize(n)
    ensures n <= CAPTURE_FAULT < MAX_CAPLISTSIZE
    ensures n < CAPTURE_FAULT ==> 2 * n <= CAPTURE_FAULT && IsSize(2 * n)
  {
    var j: nat :| j <= 21 && n == Doubled(j);
    LastSize();
    DoubledGrows(j, 21);
    if n < CAPTURE_FAULT {
      DoubledGrows(j, 20);
      assert Doubled(j + 1) == 2 * n;
    }
  }

  /** A negative position stands for the null address that marks a call. */
  const NULL: int := -1

  type Position = x: int | NULL <= x witness 0

  datatype BTEntry = BTEntry(s: Position, p: int, caplevel: nat)

  // ---------- what the arrays stand for ----------

  /** Choices remember levels that do not exceed `n`, and their levels grow towards the top of the stack. */
  ghost predicate Levels(entries: seq<BTEntry>, n: nat)
    decreases |entries|
  {
    entries == [] ||
    (var k := |entries| - 1;
     if entries[k].s < 0 then Levels(entries[..k], n)
     else entries[k].caplevel <= n && Levels(entries[..k], entries[k].caplevel))
  }

  ghost function AbsEntry(e: BTEntry, caps: seq<Cap>): Entry {
    if e.s < 0 then Frame(e.p) else Choice(e.p, e.s, if e.caplevel <= |caps| then caps[..e.caplevel] else caps)
  }

  ghost function AbsStack(entries: seq<BTEntry>, caps: seq<Cap>): Stack
    decreases |entries|
  {
    if entries == [] then Bottom
    else
      var k := |entries| - 1;
      Push(AbsEntry(entries[k], caps), AbsStack(entries[..k], caps))
  }

  /** Captures above the levels of a stack do not matter to it. */
  lemma {:induction false} AbsStackPrefix(entries: seq<BTEntry>, n: nat, caps: seq<Cap>, caps': seq<Cap>)
    requires Levels(entries, n) && n <= |caps| && n <= |caps'| && caps[..n] == caps'[..n]
    ensures AbsStack(entries, caps) == AbsStack(entries, caps')
    decreases |entries|
  {
    if entries != [] {
      var k := |entries| - 1;
      var e := entries[k];
      if e.s >= 0 {
        assert caps[..n][..e.caplevel] == caps[..e.caplevel] && caps'[..n][..e.caplevel] == caps'[..e.caplevel];
        AbsStackPrefix(entries[..k], e.caplevel, caps, caps');
      } else {
        AbsStackPrefix(entries[..k], n, caps, caps');
      }
    }
  }

  lemma {:induction false} LevelsMonotone(entries: seq<BTEntry>, n: nat, m: nat)
    requires Levels(entries, n) && n <= m
    ensures Levels(entries, m)
    decreases |entries|
  {
    if entries != [] && entries[|entries| - 1].s < 0 { LevelsMonotone(entries[..|entries| - 1], n, m); }
  }

  /** Growing the capture list leaves the stack as it is. */
  lemma GrowCaps(entries: seq<BTEntry>, caps: seq<Cap>, cap: Cap)
    requires Levels(entries, |caps|)
    ensures Levels(entries, |caps + [cap]|) && AbsStack(entries, caps + [cap]) == AbsStack(entries, caps)
  {
    LevelsMonotone(entries, |caps|, |caps| + 1);
    assert (caps + [cap])[..|caps|] == caps[..|caps|];
    AbsStackPrefix(entries, |caps|, caps, caps + [cap]);
  }

  /** Cutting the capture list back to the level of the top choice leaves what is below as it is. */
  lemma CutCaps(entries: seq<BTEntry>, e: BTEntry, caps: seq<Cap>)
    requires Levels(entries + [e], |caps|) && e.s >= 0
    ensures e.caplevel <= |caps| && Levels(entries, e.caplevel)
    ensures AbsStack(entries, caps[..e.caplevel]) == AbsStack(entries, caps)
    ensures AbsStack(entries + [e], caps) == Push(Choice(e.p, e.s, caps[..e.caplevel]), AbsStack(entries, caps))
  {
    assert (entries + [e])[..|entries|] == entries;
    var n := e.caplevel;
    assert caps[..n][..n] == caps[..n];
    AbsStackPrefix(entries, n, caps[..n], caps);
  }

  lemma PushEntry(entries: seq<BTEntry>, e: BTEntry, caps: seq<Cap>)
    requires Levels(entries, |caps|) && (e.s >= 0 ==> e.caplevel == |caps|)
    ensures Levels(entries + [e], |caps|)
    ensures AbsStack(entries + [e], caps) == Push(AbsEntry(e, caps), AbsStack(entries, caps))
  {
    assert (entries + [e])[..|entries|] == entries;
  }

  lemma PopEntry(entries: seq<BTEntry>, n: nat, caps: seq<Cap>)
    requires entries != [] && Levels(entries, n)
    ensures Levels(entries[..|entries| - 1], n)
    ensures AbsStack(entries, caps) ==
            Push(AbsEntry(entries[|entries| - 1], caps), AbsStack(entries[..|entries| - 1], caps))
  {
    var k := |entries| - 1;
    if entries[k].s >= 0 { LevelsMonotone(entries[..k], entries[k].caplevel, n); }
  }

  /** The highest choice moves on to the position and the captures of now. */
  lemma RenewEntry(was: seq<BTEntry>, e: BTEntry, n: nat, caps: seq<Cap>)
    requires was != [] && Levels(was, n) && |caps| == n && e.s >= 0 && e.caplevel == n
    requires was[|was| - 1].s >= 0 && e.p == was[|was| - 1].p
    ensures Levels(was[..|was| - 1] + [e], n)
    ensures var st := AbsStack(was, caps);
            st.Push? && st.top.Choice? &&
            AbsStack(was[..|was| - 1] + [e], caps) == Push(Choice(st.top.pc, e.s, caps), st.below)
  {
    PopEntry(was, n, caps);
    PushEntry(was[..|was| - 1], e, caps);
    assert caps[..|caps|] == caps;
  }

  // ---------- how much a run needs ----------

  ghost function Depth(stk: Stack): nat {
    if stk.Bottom? then 0 else 1 + Depth(stk.below)
  }

  lemma {:induction false} AbsDepth(entries: seq<BTEntry>, caps: seq<Cap>)
    ensures Depth(AbsStack(entries, caps)) == |entries|
    decreases |entries|
  {
    if entries != [] { AbsDepth(entries[..|entries| - 1], caps); }
  }

  /** In none of the first `n` steps from `st` does the stack hold more than `max` entries. */
  ghost predicate StaysBelow(code: seq<Instr>, s: Input, st: State, n: nat, max: nat)
    decreases n
  {
    Depth(st.stk) <= max &&
    (n > 0 && Step(code, s, st).Next? ==> StaysBelow(code, s, Step(code, s, st).st, n - 1, max))
  }

  /** In none of the first `n` steps from `st` are there more than `max` captures. */
  ghost predicate CapturesBelow(code: seq<Instr>, s: Input, st: State, n: nat, max: nat)
    decreases n
  {
    |st.caps| <= max &&
    (n > 0 && Step(code, s, st).Next? ==> CapturesBelow(code, s, Step(code, s, st).st, n - 1, max))
  }

  // ---------- the machine ----------

  datatype Status = Running | Matched | GaveUp | StackError | CaptureError

  class Matcher {
    const code: seq<Instr>
    const input: Input
    var pc: int
    var s: nat
    /** The backtrack stack: its entries are those below `next`, its limit is the length of the array. */
    var stack: array<BTEntry>
    var next: nat
    /** The capture list: its entries are those below `captop`. */
    var capture: array<Cap>
    var captop: nat
    var capsize: nat

    ghost predicate Valid()
      reads this
    {
      next <= stack.Length && 1 <= stack.Length <= MAX_BACKTRACK &&
      captop < capsize == capture.Length && IsSize(capsize)
    }

    ghost function Entries(): (e: seq<BTEntry>)
      requires Valid()
      reads this, stack
      ensures |e| == next
    {
      stack[..next]
    }

    ghost function Caps(): (c: seq<Cap>)
      requires Valid()
      reads this, capture
      ensures |c| == captop
    {
      capture[..captop]
    }

    ghost predicate Sound()
      reads this, stack, capture
    {
      Valid() && Levels(Entries(), captop)
    }

    /** The state of the abstract machine. */
    ghost function Abs(): State
      requires Valid()
      reads this, stack, capture
    {
      State(pc, s, AbsStack(Entries(), Caps()), Caps())
    }

    constructor (code: seq<Instr>, input: Input, start: nat)
      ensures this.code == code && this.input == input && fresh(stack) && fresh(capture)
      ensures Sound() && Abs() == Initial(start)
    {
      this.code := code;
      this.input := input;
      pc, s := 0, start;
      stack := new BTEntry[INIT_BACKTRACKSTACK](_ => BTEntry(NULL, 0, 0));
      next := 1;
      capture := new Cap[INIT_CAPLISTSIZE](_ => Close(0));
      captop, capsize := 0, INIT_CAPLISTSIZE;
      new;
      stack[0] := BTEntry(start, GIVE_UP, 0);
      ghost var e := BTEntry(start, GIVE_UP, 0);
      assert capsize == Doubled(0);
      assert Entries() == [e] && [e][..0] == [] && Caps() == [];
      assert AbsStack([e], []) == Push(AbsEntry(e, []), Bottom);
    }

    // ---------- the two growable arrays ----------

    method Expand() returns (grew: bool)
      requires Valid()
      modifies this`stack
      ensures Valid() && Entries() == old(Entries())
      ensures grew == (old(stack).Length < MAX_BACKTRACK)
      ensures if grew then fresh(stack) && old(stack).Length < stack.Length else stack == old(stack)
    {
      var n, source := stack.Length, stack;
      if n >= MAX_BACKTRACK { return false; }
      var newsize := 2 * n;
      if newsize > MAX_BACKTRACK { newsize := MAX_BACKTRACK; }
      var block := new BTEntry[newsize](_ => BTEntry(NULL, 0, 0));
      for i := 0 to n
        invariant stack == source && block[..i] == source[..i]
        modifies block
      {
        block[i] := source[i];
      }
      assert block[..next] == block[..n][..next] == source[..n][..next];
      stack := block;
      return true;
    }

    method StackPush(e: BTEntry) returns (ok: bool)
      requires Valid()
      modifies this`stack, this`next, stack
      ensures Valid() && (stack == old(stack) || fresh(stack))
      ensures ok == (old(next) < MAX_BACKTRACK)
      ensures Entries() == if ok then old(Entries()) + [e] else old(Entries())
    {
      if next == stack.Length {
        var grew := Expand();
        if !grew { return false; }
      }
      stack[next] := e;
      next := next + 1;
      return true;
    }

    /** Doubles the capture array.  The limit is never met: the size that does not fit an int comes first. */
    method DoubleCap() returns (ok: bool)
      requires next <= stack.Length && 1 <= stack.Length <= MAX_BACKTRACK
      requires captop == capsize == capture.Length < CAPTURE_FAULT && IsSize(capsize)
      modifies this`capture, this`capsize
      ensures ok && Valid() && fresh(capture) && capture[..captop] == old(capture[..captop])
    {
      NextSize(captop);
      if captop >= MAX_CAPLISTSIZE { return false; }
      var n, source, newcapsize := captop, capture, 2 * captop;
      if newcapsize > MAX_CAPLISTSIZE { newcapsize := MAX_CAPLISTSIZE; }
      var block := new Cap[newcapsize](_ => Close(0));
      for i := 0 to n
        invariant block[..i] == source[..i]
        modifies block
      {
        block[i] := source[i];
      }
      capture := block;
      capsize := 2 * n;
      return true;
    }

    /** Fails where the array would have to grow beyond an int. */
    method PushCapture(cap: Cap) returns (ok: bool)
      requires Valid()
      modifies this`capture, this`captop, this`capsize, capture
      ensures Valid() && (capture == old(capture) || fresh(capture))
      ensures ok == (old(captop) + 1 != CAPTURE_FAULT)
      ensures Caps() == if ok then old(Caps()) + [cap] else old(Caps())
    {
      NextSize(capsize);
      if captop + 1 == CAPTURE_FAULT { return false; }
      capture[captop] := cap;
      assert capture[..captop + 1] == old(Caps()) + [cap];
      captop := captop + 1;
      ok := true;
      if captop >= capsize { ok := DoubleCap(); }
    }

    /** A capture instruction of `size` words. */
    method Capture(cap: Cap, size: nat) returns (ok: bool)
      requires Sound()
      modifies this`pc, this`capture, this`captop, this`capsize, capture
      ensures Sound() && (capture == old(capture) || fresh(capture)) && ok == (old(captop) + 1 != CAPTURE_FAULT)
      ensures ok ==> Abs() == old(Abs()).(pc := old(pc) + size, caps := old(Abs()).caps + [cap])
    {
      GrowCaps(Entries(), Caps(), cap);
      ok := PushCapture(cap);
      if ok { pc := pc + size; }
    }

    // ---------- failure ----------

    /** Removes pending calls, down to the highest choice. */
    method SkipCalls()
      requires Sound() && Backtrack(Abs().stk).Next?
      modifies this`next
      ensures next < stack.Length && Valid() && Caps() == old(Caps()) && Levels(stack[..next + 1], captop)
      ensures Backtrack(AbsStack(stack[..next + 1], Caps())) == old(Backtrack(Abs().stk)) && stack[next].s != NULL
    {
      ghost var caps, target := Caps(), Backtrack(Abs().stk);
      next := next - 1;
      while stack[next].s == NULL
        invariant next < stack.Length && Valid() && Caps() == caps && Levels(stack[..next + 1], captop)
        invariant Backtrack(AbsStack(stack[..next + 1], caps)) == target
        decreases next
      {
        assert stack[..next + 1][..next] == stack[..next];
        PopEntry(stack[..next + 1], captop, caps);
        next := next - 1;
      }
    }

    /** Removes pending calls, then resumes the choice below them. */
    method Fail()
      requires Sound() && Backtrack(Abs().stk).Next?
      modifies this`pc, this`s, this`next, this`captop
      ensures Sound() && Abs() == Backtrack(old(Abs()).stk).st
    {
      ghost var caps := Caps();
      SkipCalls();
      ghost var e := stack[next];
      assert stack[..next + 1] == stack[..next] + [e];
      CutCaps(stack[..next], e, caps);
      s := stack[next].s;
      captop := stack[next].caplevel;
      pc := stack[next].p;
      assert Caps() == caps[..e.caplevel];
    }

    /** Matches `n` bytes and goes on. */
    method Advance(size: nat, n: nat)
      requires Sound()
      modifies this`pc, this`s
      ensures Sound() && Abs() == old(Abs()).(pc := old(pc) + size, pos := old(s) + n)
    {
      pc := pc + size;
      s := s + n;
    }

    method JumpBy(delta: int)
      requires Sound()
      modifies this`pc
      ensures Sound() && Abs() == old(Abs()).(pc := old(pc) + delta)
    {
      pc := pc + delta;
    }

    method Span(cs: set<Byte>)
      requires Sound()
      modifies this`pc, this`s
      ensures Sound()
      ensures Abs() == old(Abs()).(pc := old(pc) + CHARSET_INST_SIZE, pos := SpanEnd(input, old(s), cs))
    {
      while s < |input|
        invariant s <= old(s) || s <= |input|
        invariant SpanEnd(input, s, cs) == SpanEnd(input, old(s), cs)
        invariant Sound() && Abs() == old(Abs()).(pos := s)
      {
        if input[s] !in cs { break; }
        s := s + 1;
      }
      pc := pc + CHARSET_INST_SIZE;
    }

    // ---------- instructions that use the stack ----------

    method PushChoice(off: int) returns (ok: bool)
      requires Sound()
      modifies this`pc, this`stack, this`next, stack
      ensures Sound() && (stack == old(stack) || fresh(stack)) && ok == (old(next) < MAX_BACKTRACK)
      ensures var st := old(Abs());
              ok ==> Abs() == State(st.pc + 2, st.pos, Stack.Push(Choice(st.pc + off, st.pos, st.caps), st.stk),
                                    st.caps)
    {
      hide Levels, AbsStack;
      ghost var e, caps := BTEntry(s, pc + off, captop), Caps();
      PushEntry(Entries(), e, caps);
      assert caps[..|caps|] == caps;
      ok := StackPush(BTEntry(s, pc + off, captop));
      if ok { pc := pc + 2; }
    }

    method PushCall(off: int) returns (ok: bool)
      requires Sound()
      modifies this`pc, this`stack, this`next, stack
      ensures Sound() && (stack == old(stack) || fresh(stack)) && ok == (old(next) < MAX_BACKTRACK)
      ensures var st := old(Abs());
              ok ==> Abs() == State(st.pc + off, st.pos, Stack.Push(Frame(st.pc + 2), st.stk), st.caps)
    {
      PushEntry(Entries(), BTEntry(NULL, pc + 2, 0), Caps());
      ok := StackPush(BTEntry(NULL, pc + 2, 0));
      if ok { pc := pc + off; }
    }

    method Return()
      requires Sound() && Abs().stk.Push? && Abs().stk.top.Frame?
      modifies this`pc, this`next
      ensures Sound()
      ensures var st := old(Abs()); Abs() == State(st.stk.top.pc, st.pos, st.stk.below, st.caps)
    {
      PopEntry(Entries(), captop, Caps());
      pc := stack[next - 1].p;
      next := next - 1;
      assert Entries() == old(Entries())[..next];
    }

    method Commit(off: int)
      requires Sound() && Abs().stk.Push? && Abs().stk.top.Choice?
      modifies this`pc, this`next
      ensures Sound()
      ensures var st := old(Abs()); Abs() == State(st.pc + off, st.pos, st.stk.below, st.caps)
    {
      PopEntry(Entries(), captop, Caps());
      next := next - 1;
      pc := pc + off;
      assert Entries() == old(Entries())[..next];
    }

    method PartialCommit(off: int)
      requires Sound() && Abs().stk.Push? && Abs().stk.top.Choice?
      modifies this`pc, stack
      ensures Sound()
      ensures var st := old(Abs());
              Abs() == State(st.pc + off, st.pos, Stack.Push(Choice(st.stk.top.pc, st.pos, st.caps), st.stk.below),
                             st.caps)
    {
      ghost var was, caps := Entries(), Caps();
      var e := BTEntry(s, stack[next - 1].p, captop);
      RenewEntry(was, e, captop, caps);
      stack[next - 1] := e;
      pc := pc + off;
      assert Entries() == was[..|was| - 1] + [e] && Caps() == caps;
    }

    method BackCommit(off: int)
      requires Sound() && Abs().stk.Push? && Abs().stk.top.Choice?
      modifies this`pc, this`s, this`next, this`captop
      ensures Sound()
      ensures var st := old(Abs()); Abs() == State(st.pc + off, st.stk.top.pos, st.stk.below, st.stk.top.caps)
    {
      ghost var caps, e := Caps(), stack[next - 1];
      assert Entries() == Entries()[..next - 1] + [e];
      CutCaps(Entries()[..next - 1], e, caps);
      s := stack[next - 1].s;
      captop := stack[next - 1].caplevel;
      next := next - 1;
      pc := pc + off;
      assert Entries() == old(Entries())[..next] && Caps() == caps[..captop];
    }

    method FailTwice()
      requires Sound() && Abs().stk.Push? && Backtrack(Abs().stk.below).Next?
      modifies this`pc, this`s, this`next, this`captop
      ensures Sound() && Abs() == Backtrack(old(Abs()).stk.below).st
    {
      PopEntry(Entries(), captop, Caps());
      assert Entries()[..next - 1] == stack[..next - 1];
      next := next - 1;
      Fail();
    }

    // ---------- the step loop ----------

    /** Whether the next byte is in `cs`. */
    predicate NextIn(cs: set<Byte>)
      reads this
    {
      s < |input| && input[s] in cs
    }

    /** A round whose instruction only looks at the input. */
    method StepInput()
      requires Sound() && pc != GIVE_UP && Step(code, input, Abs()) != Stuck && LooksAtInput(code[pc])
      modifies this`pc, this`s, this`next, this`captop
      ensures Sound() && Step(code, input, old(Abs())) == Next(Abs())
    {
      hide AbsStack, AbsEntry, Levels;
      match code[pc]
      case IAny => if s < |input| { Advance(1, 1); } else { Fail(); }
      case IChar(c) => if s < |input| && input[s] == c { Advance(1, 1); } else { Fail(); }
      case ISet(cs) => if NextIn(cs) { Advance(CHARSET_INST_SIZE, 1); } else { Fail(); }
      case ISpan(cs) => Span(cs);
      case ITestAny(off) => JumpBy(if s < |input| then 2 else off);
      case ITestChar(c, off) => JumpBy(if s < |input| && input[s] == c then 2 else off);
      case ITestSet(cs, off) => JumpBy(if NextIn(cs) then 1 + CHARSET_INST_SIZE else off);
      case IBehind(n) =>
        if n > s { Fail(); } else {
          pc, s := pc + 1, s - n;
        }
    }

    /** One round of the loop: the machine makes the step of the abstract machine, or one of its arrays is full. */
    method StepOnce() returns (status: Status)
      requires Sound() && Step(code, input, Abs()) != Stuck
      modifies this, stack, capture
      ensures Sound() && (stack == old(stack) || fresh(stack)) && (capture == old(capture) || fresh(capture))
      ensures var was := old(Abs()); Reflects(code, input, was, status, Abs())
    {
      hide AbsStack, AbsEntry, Levels;
      if pc == GIVE_UP { return GaveUp; }
      status := Running;
      if LooksAtInput(code[pc]) {
        StepInput();
        return;
      }
      AbsDepth(Entries(), Caps());
      match code[pc]
      case IJmp(off) => JumpBy(off);
      case IChoice(off) =>
        var ok := PushChoice(off);
        if !ok { status := StackError; }
      case ICall(off) =>
        var ok := PushCall(off);
        if !ok { status := StackError; }
      case IRet => Return();
      case ICommit(off) => Commit(off);
      case IPartialCommit(off) => PartialCommit(off);
      case IBackCommit(off) => BackCommit(off);
      case IFail => Fail();
      case IFailTwice => FailTwice();
      case IOpenCapture(isConst, key) =>
        var ok := Capture(Open(isConst, key, s), 2);
        if !ok { status := CaptureError; }
      case ICloseCapture =>
        var ok := Capture(Close(s), 1);
        if !ok { status := CaptureError; }
      case ICloseConstCapture(v) =>
        var ok := Capture(CloseConst(v, s), 1);
        if !ok { status := CaptureError; }
      case IEnd => status := Matched;
    }
  }

  predicate LooksAtInput(ins: Instr) {
    ins.IAny? || ins.IChar? || ins.ISet? || ins.ISpan? || ins.IBehind? ||
    ins.ITestAny? || ins.ITestChar? || ins.ITestSet?
  }

  /** What a round of the loop says about the step of the abstract machine from `was`. */
  ghost predicate Reflects(code: seq<Instr>, input: Input, was: State, status: Status, now: State) {
    match status
    case Running => Step(code, input, was) == Next(now)
    case Matched => now == was && Step(code, input, was) == Done(Accept(now.pos, now.caps))
    case GaveUp => Step(code, input, was) == Done(GiveUp)
    case StackError =>
      Step(code, input, was).Next? && Depth(was.stk) == MAX_BACKTRACK < Depth(Step(code, input, was).st.stk)
    case CaptureError =>
      Step(code, input, was).Next? && Depth(Step(code, input, was).st.stk) <= MAX_BACKTRACK &&
      |Step(code, input, was).st.caps| == CAPTURE_FAULT
  }

  datatype MatchResult = Success(end: nat, caps: seq<Cap>) | NoMatch | StackOverflow | CaptureOverflow

  function ResultOf(o: Outcome): MatchResult {
    match o
    case Accept(end, caps) => Success(end, caps)
    case GiveUp => NoMatch
  }

  /** What comes first on the run from `st`, within `n` steps: its outcome, a stack that is too deep, or a capture
      list that is too long. */
  ghost function Verdict(code: seq<Instr>, s: Input, st: State, n: nat): Option<MatchResult>
    decreases n
  {
    if n == 0 then None else
    match Step(code, s, st)
    case Next(st') =>
      if Depth(st'.stk) > MAX_BACKTRACK then Some(StackOverflow)
      else if |st'.caps| >= CAPTURE_FAULT then Some(CaptureOverflow)
      else Verdict(code, s, st', n - 1)
    case Done(o) => Some(ResultOf(o))
    case Stuck => None
  }

  /** A run that ends has a verdict, and that is its outcome exactly if both stay small enough. */
  lemma {:induction false} VerdictOfRun(code: seq<Instr>, s: Input, st: State, n: nat, o: Outcome)
    requires Run(code, s, st, n) == Some(o) && Depth(st.stk) <= MAX_BACKTRACK && |st.caps| < CAPTURE_FAULT
    ensures Verdict(code, s, st, n).Some?
    ensures var small := StaysBelow(code, s, st, n, MAX_BACKTRACK) && CapturesBelow(code, s, st, n, CAPTURE_FAULT - 1);
            var v := Verdict(code, s, st, n).value;
            if small then v == ResultOf(o) else v == StackOverflow || v == CaptureOverflow
    decreases n
  {
    if Step(code, s, st).Next? {
      var st' := Step(code, s, st).st;
      if Depth(st'.stk) <= MAX_BACKTRACK && |st'.caps| < CAPTURE_FAULT { VerdictOfRun(code, s, st', n - 1, o); }
    }
  }

  /** The whole run: exactly its verdict is reported, for every run that has one. */
  method Match(code: seq<Instr>, input: Input, start: nat, ghost n: nat) returns (r: MatchResult)
    requires Verdict(code, input, Initial(start), n).Some?
    ensures Verdict(code, input, Initial(start), n) == Some(r)
  {
    var m := new Matcher(code, input, start);
    ghost var left, v := n, Verdict(code, input, Initial(start), n);
    while true
      invariant m.code == code && m.input == input && m.Sound() && fresh(m.stack) && fresh(m.capture)
      invariant Verdict(code, input, m.Abs(), left) == v
      decreases left
    {
      AbsDepth(m.Entries(), m.Caps());
      var status := m.StepOnce();
      AbsDepth(m.Entries(), m.Caps());
      NextSize(m.capsize);
      match status
      case Running => left := left - 1;
      case Matched => return Success(m.s, m.capture[..m.captop]);
      case GaveUp => return NoMatch;
      case StackError => return StackOverflow;
      case CaptureError => return CaptureOverflow;
    }
  }
}
