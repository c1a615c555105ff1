/** The jump optimiser works on finished code in place, and never changes what a run of it does. */
module Peephole {
  import opened Peg
  import opened Machine
  import opened Linking

  // ---------- the optimiser ----------

  /** The instructions whose offset is a label to be threaded through jumps. */
  predicate HasLabel(ins: Instr) {
    match ins
    case IPartialCommit(_) => true
    case ITestAny(_) => true
    case ICall(_) => true
    case IChoice(_) => true
    case ICommit(_) => true
    case IBackCommit(_) => true
    case ITestChar(_, _) => true
    case ITestSet(_, _) => true
    case _ => false
  }

  function WithOffset(ins: Instr, off: int): (r: Instr)
    requires HasLabel(ins)
    ensures HasLabel(r) && r.off == off && Size(r) == Size(ins)
  {
    ins.(off := off)
  }

  /** Instructions that end a straight line and do not care where they stand. */
  predicate Leaves(ins: Instr) { ins.IRet? || ins.IFail? || ins.IFailTwice? || ins.IEnd? }

  /** Instructions that always go to their label. */
  predicate Commits(ins: Instr) { ins.ICommit? || ins.IPartialCommit? || ins.IBackCommit? }

  function FinalLabel(code: seq<Instr>, i: nat): int
    requires i < |code| && HasLabel(code[i])
  {
    FinalTarget(code, i + code[i].off, |code|)
  }

  function Relabel(code: seq<Instr>, i: nat): (r: seq<Instr>)
    requires i < |code| && HasLabel(code[i])
    ensures |r| == |code|
  {
    code[i := WithOffset(code[i], FinalLabel(code, i) - i)]
  }

  /** The optimisation of the instruction at `i`. */
  function OptimizeAt(code: seq<Instr>, i: nat): (r: seq<Instr>)
    requires i < |code|
    ensures |r| == |code|
  {
    if HasLabel(code[i]) then Relabel(code, i)
    else if code[i].IJmp? then
      var ft := FinalTarget(code, i, |code|);
      if !(0 <= ft < |code|) then code
      else if Leaves(code[ft]) then
        if i + 1 < |code| then code[i := code[ft]][i + 1 := IAny] else code
      else if Commits(code[ft]) then
        Relabel(code[i := WithOffset(code[ft], FinalLabel(code, ft) - i)], i)
      else code[i := IJmp(ft - i)]
    else code
  }

  function OptimizeFrom(code: seq<Instr>, i: nat): (r: seq<Instr>)
    ensures |r| == |code|
    decreases |code| - i
  {
    if i >= |code| then code
    else
      var code' := OptimizeAt(code, i);
      OptimizeFrom(code', i + Size(code'[i]))
  }

  function Optimize(code: seq<Instr>): (r: seq<Instr>)
    ensures |r| == |code|
  {
    OptimizeFrom(code, 0)
  }

  // ---------- simulation ----------

  /** `q'` is further along the chain of jumps from `q`. */
  ghost predicate Ahead(code: seq<Instr>, q: int, q': int) {
    exists n: nat :: FinalTarget(code, q, n) == q'
  }

  ghost predicate EntryAhead(code: seq<Instr>, e: Entry, e': Entry) {
    match e
    case Choice(pc, pos, caps) => e'.Choice? && e'.pos == pos && e'.caps == caps && Ahead(code, pc, e'.pc)
    case Frame(pc) => e'.Frame? && Ahead(code, pc, e'.pc)
  }

  ghost predicate StackAhead(code: seq<Instr>, stk: Stack, stk': Stack)
    decreases stk
  {
    match stk
    case Bottom => stk'.Bottom?
    case Push(e, below) => stk'.Push? && EntryAhead(code, e, stk'.top) && StackAhead(code, below, stk'.below)
  }

  ghost predicate StateAhead(code: seq<Instr>, st: State, st': State) {
    st.pos == st'.pos && st.caps == st'.caps && Ahead(code, st.pc, st'.pc) && StackAhead(code, st.stk, st'.stk)
  }

  /** Results of a step that the simulation accepts: stuck runs need not be matched. */
  ghost predicate ResultAhead(code: seq<Instr>, r: StepResult, r': StepResult) {
    match r
    case Next(st) => r'.Next? && StateAhead(code, st, r'.st)
    case Done(_) => r' == r
    case Stuck => true
  }

  lemma AheadRefl(code: seq<Instr>, q: int)
    ensures Ahead(code, q, q)
  {
    assert FinalTarget(code, q, 0) == q;
  }

  lemma {:induction false} StackAheadRefl(code: seq<Instr>, stk: Stack)
    ensures StackAhead(code, stk, stk)
    decreases stk
  {
    if stk.Push? {
      AheadRefl(code, stk.top.pc);
      StackAheadRefl(code, stk.below);
    }
  }

  lemma {:induction false} BacktrackAhead(code: seq<Instr>, stk: Stack, stk': Stack)
    requires StackAhead(code, stk, stk')
    ensures ResultAhead(code, Backtrack(stk), Backtrack(stk'))
    decreases stk
  {
    if stk.Push? && stk.top.Frame? { BacktrackAhead(code, stk.below, stk'.below); }
  }

  /** `ins'` at `at'` may stand for `ins` at `at`: it is the same instruction, or one whose label is further
      along; and it stands elsewhere only if its place does not matter. */
  ghost predicate Stands(code: seq<Instr>, ins: Instr, at: int, ins': Instr, at': int) {
    if HasLabel(ins) then
      HasLabel(ins') && ins' == WithOffset(ins, ins'.off) && Ahead(code, at + ins.off, at' + ins'.off) &&
      (at == at' || Commits(ins))
    else ins' == ins && (at == at' || Leaves(ins))
  }

  lemma ExecAhead(code: seq<Instr>, s: Input, ins: Instr, ins': Instr, st: State, st': State)
    requires Stands(code, ins, st.pc, ins', st'.pc)
    requires st.pos == st'.pos && st.caps == st'.caps && StackAhead(code, st.stk, st'.stk)
    ensures ResultAhead(code, Exec(ins, s, st), Exec(ins', s, st'))
  {
    hide Ahead;
    BacktrackAhead(code, st.stk, st'.stk);
    if ins.IFailTwice? && st.stk.Push? { BacktrackAhead(code, st.stk.below, st'.stk.below); }
    var next := Exec(ins, s, st);
    if next.Next? { AheadRefl(code, next.st.pc); }
    AheadRefl(code, st.pc + 2);
  }

  /** Following the chain of jumps takes some steps and changes nothing else. */
  lemma {:induction false} CatchUp(code: seq<Instr>, s: Input, st: State, jumps: nat, n: nat, o: Outcome)
    returns (n': nat)
    requires Run(code, s, st, n) == Some(o)
    ensures n' <= n && Run(code, s, st.(pc := FinalTarget(code, st.pc, jumps)), n') == Some(o)
    decreases jumps
  {
    if jumps > 0 && 0 <= st.pc < |code| && code[st.pc].IJmp? {
      n' := CatchUp(code, s, st.(pc := st.pc + code[st.pc].off), jumps - 1, n - 1, o);
    } else {
      n' := n;
    }
  }

  /** `code'` is `code` with the instruction at `i` replaced: by one that may stand for it, or, for a jump, by
      one that may stand for the instruction at its final target `ft`, or by a jump there.  A word that
      belonged to the old instruction may become anything. */
  ghost predicate Rewrites(code: seq<Instr>, code': seq<Instr>, i: nat, ft: int) {
    |code'| == |code| && i < |code| &&
    (forall q :: 0 <= q < |code| && q != i && !code[q].IPad? ==> code'[q] == code[q]) &&
    if !code[i].IJmp? then Stands(code, code[i], i, code'[i], i)
    else
      Ahead(code, i + code[i].off, ft) &&
      (code'[i] == IJmp(ft - i) || (0 <= ft < |code| && Stands(code, code[ft], ft, code'[i], i)))
  }

  /** A run of `code` is matched by a run of the rewritten code, even when that is further along. */
  lemma {:induction false} Simulate(
    code: seq<Instr>, code': seq<Instr>, i: nat, ft: int, s: Input, st: State, st': State, n: nat, o: Outcome)
    requires Rewrites(code, code', i, ft) && StateAhead(code, st, st') && Run(code, s, st, n) == Some(o)
    ensures Evals(code', s, st', o)
    decreases n, 1
  {
    var jumps: nat :| FinalTarget(code, st.pc, jumps) == st'.pc;
    var n' := CatchUp(code, s, st, jumps, n, o);
    var q, cur := st'.pc, st.(pc := st'.pc);
    AheadRefl(code, q);
    if !(0 <= q < |code|) {
      assert Step(code, s, cur) == Done(o) == Step(code', s, st');
      assert Run(code', s, st', 1) == Some(o);
    } else if q == i && code[i].IJmp? {
      var next := cur.(pc := i + code[i].off);
      var jumps': nat :| FinalTarget(code, next.pc, jumps') == ft;
      var n'' := CatchUp(code, s, next, jumps', n' - 1, o);
      if code'[i] == IJmp(ft - i) {
        AheadRefl(code, ft);
        Simulate(code, code', i, ft, s, next.(pc := ft), st'.(pc := ft), n'', o);
        StepEvals(code', s, st', st'.(pc := ft), o);
      } else {
        SimulateStep(code, code', i, ft, s, next.(pc := ft), st', n'', o);
      }
    } else {
      if q != i && HasLabel(code[q]) { AheadRefl(code, q + code[q].off); }
      SimulateStep(code, code', i, ft, s, cur, st', n', o);
    }
  }

  lemma {:induction false} SimulateStep(
    code: seq<Instr>, code': seq<Instr>, i: nat, ft: int, s: Input, st: State, st': State, n: nat, o: Outcome)
    requires Rewrites(code, code', i, ft) && Run(code, s, st, n) == Some(o)
    requires st.pos == st'.pos && st.caps == st'.caps && StackAhead(code, st.stk, st'.stk)
    requires 0 <= st.pc < |code| && 0 <= st'.pc < |code|
    requires Stands(code, code[st.pc], st.pc, code'[st'.pc], st'.pc)
    ensures Evals(code', s, st', o)
    decreases n, 0
  {
    ExecAhead(code, s, code[st.pc], code'[st'.pc], st, st');
    var r, r' := Step(code, s, st), Step(code', s, st');
    if r.Next? {
      Simulate(code, code', i, ft, s, r.st, r'.st, n - 1, o);
      StepEvals(code', s, st', r'.st, o);
    } else {
      assert Run(code', s, st', 1) == Some(o);
    }
  }

  // ---------- the optimiser preserves every run ----------

  /** What the optimiser relies on: a jump owns the word behind it. */
  ghost predicate Padded(code: seq<Instr>) {
    forall q :: 0 <= q < |code| && code[q].IJmp? ==> PadAt(code, q + 1)
  }

  ghost predicate PadAt(code: seq<Instr>, q: int) { 0 <= q < |code| && code[q].IPad? }

  lemma WholePadded(code: seq<Instr>, n: nat)
    requires Whole(code, n)
    ensures Padded(code)
  {
    forall q | 0 <= q < |code| && code[q].IJmp? ensures PadAt(code, q + 1) { assert WholeAt(code, q, n); }
  }

  lemma RewriteKeepsRuns(code: seq<Instr>, code': seq<Instr>, i: nat, ft: int, s: Input, st: State, o: Outcome)
    requires Rewrites(code, code', i, ft) && Evals(code, s, st, o)
    ensures Evals(code', s, st, o)
  {
    var n: nat :| Run(code, s, st, n) == Some(o);
    AheadRefl(code, st.pc);
    StackAheadRefl(code, st.stk);
    Simulate(code, code', i, ft, s, st, st, n, o);
  }

  lemma RelabelRewrites(code: seq<Instr>, i: nat)
    requires i < |code| && HasLabel(code[i])
    ensures Rewrites(code, Relabel(code, i), i, 0)
  {
  }

  /** One optimisation keeps the outcome of every run. */
  lemma OptimizeAtKeepsRuns(code: seq<Instr>, i: nat, s: Input, st: State, o: Outcome)
    requires i < |code| && Padded(code) && Evals(code, s, st, o)
    ensures Evals(OptimizeAt(code, i), s, st, o)
  {
    var code1, ft1, ft2 := OptimizeSteps(code, i);
    RewriteKeepsRuns(code, code1, i, ft1, s, st, o);
    RewriteKeepsRuns(code1, OptimizeAt(code, i), i, ft2, s, st, o);
  }

  ghost predicate NoNewJumps(code: seq<Instr>, code': seq<Instr>) {
    |code| == |code'| && forall p :: 0 <= p < |code'| && code'[p].IJmp? ==> code[p].IJmp?
  }

  lemma NothingRewritten(code: seq<Instr>, i: nat)
    requires i < |code|
    ensures exists ft :: Rewrites(code, code, i, ft)
  {
    if code[i].IJmp? {
      var ft := i + code[i].off;
      AheadRefl(code, ft);
      assert Rewrites(code, code, i, ft);
    } else {
      if HasLabel(code[i]) { AheadRefl(code, i + code[i].off); }
      assert Rewrites(code, code, i, 0);
    }
  }

  /** One optimisation is at most two rewritings of the same instruction. */
  lemma OptimizeSteps(code: seq<Instr>, i: nat) returns (code1: seq<Instr>, ft1: int, ft2: int)
    requires i < |code| && Padded(code)
    ensures Rewrites(code, code1, i, ft1) && Rewrites(code1, OptimizeAt(code, i), i, ft2)
    ensures NoNewJumps(code, code1) && NoNewJumps(code1, OptimizeAt(code, i))
    ensures var ft := FinalTarget(code, i, |code|);
            code[i].IJmp? && 0 <= ft < |code| && Commits(code[ft]) ==>
              code1 == code[i := WithOffset(code[ft], FinalLabel(code, ft) - i)] &&
              OptimizeAt(code, i) == Relabel(code1, i)
  {
    code1, ft1, ft2 := OptimizeAt(code, i), 0, 0;
    var ft := FinalTarget(code, i, |code|);
    if HasLabel(code[i]) {
      RelabelRewrites(code, i);
    } else if code[i].IJmp? && 0 <= ft < |code| {
      assert ft == FinalTarget(code, i + code[i].off, |code| - 1);
      assert PadAt(code, i + 1);
      ft1 := ft;
      if Commits(code[ft]) {
        code1 := code[i := WithOffset(code[ft], FinalLabel(code, ft) - i)];
        RelabelRewrites(code1, i);
        return;
      }
    } else {
      NothingRewritten(code, i);
      ft1 :| Rewrites(code, code, i, ft1);
    }
    NothingRewritten(code1, i);
    ft2 :| Rewrites(code1, code1, i, ft2);
  }

  lemma PaddingStays(code: seq<Instr>, i: nat)
    requires i < |code| && Padded(code)
    ensures Padded(OptimizeAt(code, i))
  {
    var code' := OptimizeAt(code, i);
    forall q | 0 <= q < |code'| && code'[q].IJmp? ensures PadAt(code', q + 1) {
      assert code[q].IJmp? && PadAt(code, q + 1);
    }
  }

  lemma {:induction false} OptimizeFromKeepsRuns(code: seq<Instr>, i: nat, s: Input, st: State, o: Outcome)
    requires Padded(code) && Evals(code, s, st, o)
    ensures Evals(OptimizeFrom(code, i), s, st, o)
    decreases |code| - i
  {
    if i < |code| {
      var code' := OptimizeAt(code, i);
      OptimizeAtKeepsRuns(code, i, s, st, o);
      PaddingStays(code, i);
      OptimizeFromKeepsRuns(code', i + Size(code'[i]), s, st, o);
    }
  }

  /** The optimiser keeps the outcome and the captures of every run of whole code, from every state. */
  lemma OptimizeKeepsRuns(code: seq<Instr>, n: nat, s: Input, st: State, o: Outcome)
    requires Whole(code, n) && Evals(code, s, st, o)
    ensures Evals(Optimize(code), s, st, o)
  {
    WholePadded(code, n);
    OptimizeFromKeepsRuns(code, 0, s, st, o);
  }
}
