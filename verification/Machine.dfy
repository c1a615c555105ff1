/** The matching machine: one step, and the outcome of a run. */
module Machine {
  // Code is a sequence of words.  An instruction that carries an offset or a byte set owns the words that follow
  // it; they appear here as `IPad` and are never executed.  Offsets are relative, in words.

  import opened Peg

  datatype Instr =
    | IAny | IRet | IEnd | IFailTwice | IFail | ICloseCapture
    | IBehind(n: nat)
    | IChar(c: Byte)
    | ICloseConstCapture(value: nat)
    | ISet(cs: set<Byte>) | ISpan(cs: set<Byte>)
    | IPartialCommit(off: int)
    | ITestAny(off: int)
    | IJmp(off: int)
    | ICall(off: int)
    | IOpenCall(rule: nat)
    | IChoice(off: int)
    | ICommit(off: int)
    | IBackCommit(off: int)
    | IOpenCapture(isConst: bool, key: nat)
    | ITestChar(c: Byte, off: int)
    | ITestSet(cs: set<Byte>, off: int)
    | IPad

  /** Words of a byte-set instruction: one for the opcode and eight for the 32 bytes of the set. */
  const CHARSET_INST_SIZE: nat := 9

  function Size(ins: Instr): (r: nat)
    ensures r >= 1
  {
    match ins
    case IPartialCommit(_) => 2
    case ITestAny(_) => 2
    case IJmp(_) => 2
    case ICall(_) => 2
    case IOpenCall(_) => 2
    case IChoice(_) => 2
    case ICommit(_) => 2
    case IBackCommit(_) => 2
    case IOpenCapture(_, _) => 2
    case ITestChar(_, _) => 2
    case ISet(_) => CHARSET_INST_SIZE
    case ISpan(_) => CHARSET_INST_SIZE
    case ITestSet(_, _) => 1 + CHARSET_INST_SIZE
    case _ => 1
  }

  /** An entry of the capture list. */
  datatype Cap =
    | Open(isConst: bool, key: nat, pos: nat)
    | Close(pos: nat)
    | CloseConst(value: nat, pos: nat)

  /** The flat capture list of a forest, as the machine records it. */
  function Flatten(forest: seq<CapTree>): seq<Cap> {
    if forest == [] then [] else FlattenTree(forest[0]) + Flatten(forest[1..])
  }

  function FlattenTree(c: CapTree): seq<Cap> {
    match c
    case Node(key, start, subs, end) => [Open(false, key, start)] + Flatten(subs) + [Close(end)]
    case Const(key, value, pos) => [Open(true, key, pos), CloseConst(value, pos)]
  }

  lemma {:induction false} FlattenConcat(a: seq<CapTree>, b: seq<CapTree>)
    ensures Flatten(a + b) == Flatten(a) + Flatten(b)
  {
    hide FlattenTree;
    if a == [] {
      assert a + b == b;
    } else {
      var first, rest := FlattenTree(a[0]), a[1..];
      FlattenConcat(rest, b);
      assert (a + b)[0] == a[0] && (a + b)[1..] == rest + b;
      assert first + (Flatten(rest) + Flatten(b)) == (first + Flatten(rest)) + Flatten(b);
    }
  }

  lemma FlattenOne(c: CapTree)
    ensures Flatten([c]) == FlattenTree(c)
  {
    assert [c][1..] == [];
  }

  /** An entry of the backtrack stack: a choice remembers where to resume, the position and the captures
      so far; a frame remembers where a rule returns to. */
  datatype Entry = Choice(pc: int, pos: nat, caps: seq<Cap>) | Frame(pc: int)

  datatype Stack = Bottom | Push(top: Entry, below: Stack)

  datatype State = State(pc: int, pos: nat, stk: Stack, caps: seq<Cap>)

  datatype Outcome = Accept(end: nat, caps: seq<Cap>) | GiveUp

  /** `Stuck` stands for every assertion of the step loop that would be violated: a commit without a
      choice on top, a return without a frame, an end with a stack that is not a single entry, ... */
  datatype StepResult = Next(st: State) | Done(o: Outcome) | Stuck

  /** The address of the give-up instruction, which lies outside the code. */
  const GIVE_UP: int := -1

  /** Failure: drop pending calls, then resume the choice below them. */
  function Backtrack(stk: Stack): (r: StepResult)
    ensures !r.Done?
  {
    match stk
    case Bottom => Stuck
    case Push(Frame(_), below) => Backtrack(below)
    case Push(Choice(pc, pos, caps), below) => Next(State(pc, pos, below, caps))
  }

  function SpanEnd(s: Input, i: nat, cs: set<Byte>): (r: nat)
    ensures i <= r && (i <= |s| ==> r <= |s|)
    decreases |s| - i
  {
    if i < |s| && s[i] in cs then SpanEnd(s, i + 1, cs) else i
  }

  function Step(code: seq<Instr>, s: Input, st: State): StepResult {
    if st.pc == GIVE_UP then (if st.stk.Bottom? then Done(GiveUp) else Stuck)
    else if !(0 <= st.pc < |code|) then Stuck
    else Exec(code[st.pc], s, st)
  }

  function Exec(ins: Instr, s: Input, st: State): StepResult {
    var State(pc, i, stk, caps) := st;
    match ins
    case IAny => if i < |s| then Next(State(pc + 1, i + 1, stk, caps)) else Backtrack(stk)
    case IChar(c) => if i < |s| && s[i] == c then Next(State(pc + 1, i + 1, stk, caps)) else Backtrack(stk)
    case ISet(cs) =>
      if i < |s| && s[i] in cs then Next(State(pc + CHARSET_INST_SIZE, i + 1, stk, caps)) else Backtrack(stk)
    case ISpan(cs) => Next(State(pc + CHARSET_INST_SIZE, SpanEnd(s, i, cs), stk, caps))
    case ITestAny(off) => Next(State(if i < |s| then pc + 2 else pc + off, i, stk, caps))
    case ITestChar(c, off) => Next(State(if i < |s| && s[i] == c then pc + 2 else pc + off, i, stk, caps))
    case ITestSet(cs, off) =>
      Next(State(if i < |s| && s[i] in cs then pc + 1 + CHARSET_INST_SIZE else pc + off, i, stk, caps))
    case IBehind(n) => if n > i then Backtrack(stk) else Next(State(pc + 1, i - n, stk, caps))
    case IJmp(off) => Next(State(pc + off, i, stk, caps))
    case IChoice(off) => Next(State(pc + 2, i, Push(Choice(pc + off, i, caps), stk), caps))
    case ICall(off) => Next(State(pc + off, i, Push(Frame(pc + 2), stk), caps))
    case IRet =>
      if stk.Push? && stk.top.Frame? then Next(State(stk.top.pc, i, stk.below, caps)) else Stuck
    case ICommit(off) =>
      if stk.Push? && stk.top.Choice? then Next(State(pc + off, i, stk.below, caps)) else Stuck
    case IPartialCommit(off) =>
      if stk.Push? && stk.top.Choice?
      then Next(State(pc + off, i, Push(Choice(stk.top.pc, i, caps), stk.below), caps))
      else Stuck
    case IBackCommit(off) =>
      if stk.Push? && stk.top.Choice? then Next(State(pc + off, stk.top.pos, stk.below, stk.top.caps)) else Stuck
    case IFail => Backtrack(stk)
    case IFailTwice => if stk.Push? then Backtrack(stk.below) else Stuck
    case IOpenCapture(isConst, key) => Next(State(pc + 2, i, stk, caps + [Open(isConst, key, i)]))
    case ICloseCapture => if caps != [] then Next(State(pc + 1, i, stk, caps + [Close(i)])) else Stuck
    case ICloseConstCapture(v) => if caps != [] then Next(State(pc + 1, i, stk, caps + [CloseConst(v, i)])) else Stuck
    case IEnd => if stk.Push? && stk.below.Bottom? then Done(Accept(i, caps)) else Stuck
    case IOpenCall(_) => Stuck
    case IPad => Stuck
  }

  /** The outcome after at most `n` steps, if the run is over by then. */
  function Run(code: seq<Instr>, s: Input, st: State, n: nat): Option<Outcome>
    decreases n
  {
    if n == 0 then None else
    match Step(code, s, st)
    case Next(st') => Run(code, s, st', n - 1)
    case Done(o) => Some(o)
    case Stuck => None
  }

  /** The run from `st` ends with outcome `o`, without ever getting stuck. */
  ghost predicate Evals(code: seq<Instr>, s: Input, st: State, o: Outcome) {
    exists n: nat :: Run(code, s, st, n) == Some(o)
  }

  /** The run that starts by failing with stack `stk` ends with outcome `o`. */
  ghost predicate FailEvals(code: seq<Instr>, s: Input, stk: Stack, o: Outcome) {
    Backtrack(stk).Next? && Evals(code, s, Backtrack(stk).st, o)
  }

  /** The state in which a match starts: one choice that gives up. */
  function Initial(start: nat): State {
    State(0, start, Push(Choice(GIVE_UP, start, []), Bottom), [])
  }

  /** The chain of jumps from `i`, cut after `n` of them. */
  function FinalTarget(code: seq<Instr>, i: int, n: nat): int
    decreases n
  {
    if n > 0 && 0 <= i < |code| && code[i].IJmp? then FinalTarget(code, i + code[i].off, n - 1) else i
  }

  /** The chain of jumps from `q` leads to a return. */
  ghost predicate ReturnsFrom(code: seq<Instr>, q: int) {
    exists n: nat :: 0 <= FinalTarget(code, q, n) < |code| && code[FinalTarget(code, q, n)].IRet?
  }

  // ---------- steps and outcomes ----------

  lemma StepEvals(code: seq<Instr>, s: Input, st: State, st': State, o: Outcome)
    requires Step(code, s, st) == Next(st') && Evals(code, s, st', o)
    ensures Evals(code, s, st, o)
  {
    var n: nat :| Run(code, s, st', n) == Some(o);
    assert Run(code, s, st, n + 1) == Some(o);
  }

  lemma StepEvalsBack(code: seq<Instr>, s: Input, st: State, st': State, o: Outcome)
    requires Step(code, s, st) == Next(st') && Evals(code, s, st, o)
    ensures Evals(code, s, st', o)
  {
    var n: nat :| Run(code, s, st, n) == Some(o);
    assert Run(code, s, st', n - 1) == Some(o);
  }

  /** A step that fails has the outcome of failing. */
  lemma StepFails(code: seq<Instr>, s: Input, st: State, o: Outcome)
    requires Step(code, s, st) == Backtrack(st.stk) && FailEvals(code, s, st.stk, o)
    ensures Evals(code, s, st, o)
  {
    StepEvals(code, s, st, Backtrack(st.stk).st, o);
  }

  lemma {:induction false} RunMonotone(code: seq<Instr>, s: Input, st: State, n: nat, m: nat)
    requires n <= m && Run(code, s, st, n).Some?
    ensures Run(code, s, st, m) == Run(code, s, st, n)
    decreases n
  {
    if Step(code, s, st).Next? {
      RunMonotone(code, s, Step(code, s, st).st, n - 1, m - 1);
    }
  }

  /** A run has at most one outcome. */
  lemma EvalsUnique(code: seq<Instr>, s: Input, st: State, o: Outcome, o': Outcome)
    requires Evals(code, s, st, o) && Evals(code, s, st, o')
    ensures o == o'
  {
    var n: nat :| Run(code, s, st, n) == Some(o);
    var m: nat :| Run(code, s, st, m) == Some(o');
    RunMonotone(code, s, st, n, if n < m then m else n);
    RunMonotone(code, s, st, m, if n < m then m else n);
  }
}
