/** The generated code computes the meaning of the tree. */
module Correctness {
  import opened Peg
  import opened Analysis
  import opened Machine
  import opened CodeGen
  import opened Continuations
  import opened Layout
  import opened Linking

  ghost predicate TestHolds(tt: Option<Known>, s: Input, i: nat) {
    tt.Some? ==> tt.value.KnownByte? && i < |s| && s[i] == tt.value.c
  }

  /** Code that contains the rules `g` at the addresses `env`. */
  datatype Site = Site(c: Ctx, env: seq<int>, g: Rules, depth: nat, short: bool)

  /** Rule `k` behaves like its meaning at `i`, where that needs at most the given fuel. */
  ghost predicate RuleOk(x: Site, k: nat, i: nat, fuel: nat) {
    k < |x.g| == |x.env| && i <= |x.c.s| && Eval(x.g, x.g[k], x.c.s, i, fuel).Some? ==>
      RuleBehaves(x.c, Eval(x.g, x.g[k], x.c.s, i, fuel).value, x.env[k], i)
  }

  ghost predicate RulesOk(x: Site, fuel: nat) { forall k: nat, i: nat :: RuleOk(x, k, i, fuel) }

  /** The rules behave like their meaning wherever that needs less than the given fuel. */
  ghost predicate CallsOk(x: Site, fuel: nat)
    decreases fuel
  {
    |x.env| == |x.g| && (fuel > 0 ==> RulesOk(x, fuel - 1) && CallsOk(x, fuel - 1))
  }

  /** The meaning of `t` at `i` is defined within the given fuel, and so is that of the calls in it, and sets are not
      compared with tests. */
  ghost predicate Ready(x: Site, t: Tree, i: nat, fuel: nat) {
    !x.short && i <= |x.c.s| && WellFormed(x.g, t, x.depth) && CallsOk(x, fuel) && Eval(x.g, t, x.c.s, i, fuel).Some?
  }

  ghost function Meaning(x: Site, t: Tree, i: nat, fuel: nat): Result
    requires i <= |x.c.s| && Eval(x.g, t, x.c.s, i, fuel).Some?
  {
    Eval(x.g, t, x.c.s, i, fuel).value
  }

  /** `block`, linked, stands from `pc` to `end`. */
  ghost predicate BlockAt(x: Site, block: seq<Instr>, pc: int, end: int) {
    At(x.c, pc, block, x.env) && end == pc + |block|
  }

  /** The code of `t` stands from `pc` to `end`. */
  ghost predicate GenAt(x: Site, t: Tree, opt: bool, tt: Option<Known>, fl: set<Byte>, pc: int, end: int) {
    BlockAt(x, Gen(x.g, t, opt, tt, fl, x.depth, x.short), pc, end)
  }

  ghost predicate Pre(x: Site, t: Tree, opt: bool, tt: Option<Known>, fl: set<Byte>, pc: int, i: nat, fuel: nat) {
    PreAt(x, t, tt, Gen(x.g, t, opt, tt, fl, x.depth, x.short), pc, i, fuel)
  }

  /** The code of `t` at `pc` behaves like the meaning of `t` at `i`. */
  ghost predicate Post(x: Site, t: Tree, opt: bool, tt: Option<Known>, fl: set<Byte>, pc: int, i: nat, fuel: nat)
    requires Ready(x, t, i, fuel)
  {
    PostAt(x, t, opt, fl, Gen(x.g, t, opt, tt, fl, x.depth, x.short), pc, i, fuel)
  }

  ghost predicate PreAt(x: Site, t: Tree, tt: Option<Known>, block: seq<Instr>, pc: int, i: nat, fuel: nat) {
    Ready(x, t, i, fuel) && TestHolds(tt, x.c.s, i) && At(x.c, pc, block, x.env)
  }

  /** `block` at `pc` behaves like the meaning of `t` at `i`. */
  ghost predicate PostAt(x: Site, t: Tree, opt: bool, fl: set<Byte>, block: seq<Instr>, pc: int, i: nat, fuel: nat)
    requires Ready(x, t, i, fuel)
  {
    Behaves(x.c, Meaning(x, t, i, fuel), pc, pc + |block|, i, fl, opt)
  }

  /** The code of a tree, wherever it stands, behaves like the meaning of the tree. */
  lemma {:induction false} GenBehaves(
    x: Site, t: Tree, opt: bool, tt: Option<Known>, fl: set<Byte>, pc: int, i: nat, fuel: nat)
    requires Pre(x, t, opt, tt, fl, pc, i, fuel)
    ensures Post(x, t, opt, tt, fl, pc, i, fuel)
    decreases fuel, t, 3
  {
    hide Behaves, At;
    match t
    case TChar(_) => LeafBehaves(x, t, opt, tt, fl, pc, i, fuel);
    case TSet(_) => LeafBehaves(x, t, opt, tt, fl, pc, i, fuel);
    case TAny => LeafBehaves(x, t, opt, tt, fl, pc, i, fuel);
    case TTrue => EmptyBehaves(x.c, pc, i, fl, opt);
    case TFalse => LeafBehaves(x, t, opt, tt, fl, pc, i, fuel);
    case TConstCapture(key, value) =>
      ConstCaptureLayout(x.c, pc, key, value, x.env);
      ConstCaptureBehaves(x.c, pc, i, key, value, fl, opt);
    case TSeq(_, _) => SequenceBehaves(x, t, opt, tt, fl, pc, i, fuel);
    case TChoice(_, _) => ChoiceBehaves(x, t, opt, tt, fl, pc, i, fuel);
    case TRep(_) => RepBehaves(x, t, opt, tt, fl, pc, i, fuel);
    case TNot(_) => NotBehaves(x, t, opt, tt, fl, pc, i, fuel);
    case TAnd(_) => AndBehaves(x, t, opt, tt, fl, pc, i, fuel);
    case TBehind(_, _) => BehindBehaves(x, t, opt, tt, fl, pc, i, fuel);
    case TCapture(_, _) => NodeBehaves(x, t, opt, tt, fl, pc, i, fuel);
    case TCall(_) => RuleCallBehaves(x, t, opt, tt, fl, pc, i, fuel);
    case TGrammar(_) => GrammarBehaves(x, t, opt, tt, fl, pc, i, fuel);
  }

  lemma {:induction false} NodeBehaves(
    x: Site, t: Tree, opt: bool, tt: Option<Known>, fl: set<Byte>, pc: int, i: nat, fuel: nat)
    requires t.TCapture?
    requires PreAt(x, t, tt, CaptureCode(t.key, Gen(x.g, t.p, false, tt, fl, x.depth, x.short)), pc, i, fuel)
    ensures PostAt(x, t, opt, fl, CaptureCode(t.key, Gen(x.g, t.p, false, tt, fl, x.depth, x.short)), pc, i, fuel)
    decreases fuel, t, 0
  {
    hide Behaves, At, Gen;
    var end := CaptureLayout(x.c, pc, t.key, Gen(x.g, t.p, false, tt, fl, x.depth, x.short), x.env);
    GenBehaves(x, t.p, false, tt, fl, pc + 2, i, fuel);
    CaptureBehaves(x.c, Meaning(x, t.p, i, fuel), pc, end, i, t.key, fl, opt);
  }

  lemma LeafBehaves(x: Site, t: Tree, opt: bool, tt: Option<Known>, fl: set<Byte>, pc: int, i: nat, fuel: nat)
    requires t.TChar? || t.TSet? || t.TAny? || t.TFalse?
    requires Pre(x, t, opt, tt, fl, pc, i, fuel)
    ensures Post(x, t, opt, tt, fl, pc, i, fuel)
  {
    var ins := match t case TChar(b) => CharInstr(b, tt) case TSet(cs) => CharsetInstr(cs, tt)
                       case TAny => IAny case _ => IFail;
    if t.TSet? { AtEmit(x.c, pc, ins, x.env); } else { AtOne(x.c, pc, ins, x.env); }
    InstrBehaves(x.c, Eval(x.g, t, x.c.s, i, fuel).value, pc, pc + Size(ins), i, fl, opt);
  }

  /** Behind the first part, a test that is still relied on holds; and where the next byte is outside the follow set of
      the first part, the second part fails or matches nothing. */
  lemma BehindFirst(x: Site, p1: Tree, p2: Tree, tt: Option<Known>, fl: set<Byte>, i: nat, j: nat, fuel: nat)
    requires i <= |x.c.s| && TestHolds(tt, x.c.s, i) && Eval(x.g, p1, x.c.s, i, fuel).Some?
    requires var r1 := Eval(x.g, p1, x.c.s, i, fuel).value; r1.Ok? && j == r1.end <= |x.c.s|
    requires Eval(x.g, p2, x.c.s, j, fuel).Some?
    ensures TestHolds(SeqTest(x.g, p1, tt), x.c.s, j)
    ensures var r2 := Eval(x.g, p2, x.c.s, j, fuel).value;
            r2.Ok? && j < |x.c.s| && x.c.s[j] !in SeqFollow(x.g, p1, p2, fl, x.depth) ==> r2.end == j && x.c.s[j] !in fl
  {
    if FixedLen(x.g, p1) == 0 { FixedLenExact(x.g, p1, x.c.s, i, fuel, 0, 0); }
    if j < |x.c.s| && x.c.s[j] !in SeqFollow(x.g, p1, p2, fl, x.depth) && Eval(x.g, p2, x.c.s, j, fuel).value.Ok? {
      FirstSound(x.g, p2, fl, x.depth, x.c.s, j, fuel);
    }
  }

  lemma {:induction false} SequenceBehaves(
    x: Site, t: Tree, opt: bool, tt: Option<Known>, fl: set<Byte>, pc: int, i: nat, fuel: nat)
    requires t.TSeq? && PreAt(x, t, tt, GenSeq(x.g, t, opt, tt, fl, x.depth, x.short), pc, i, fuel)
    ensures PostAt(x, t, opt, fl, GenSeq(x.g, t, opt, tt, fl, x.depth, x.short), pc, i, fuel)
    decreases fuel, t, 0
  {
    hide Behaves, At, Gen;
    var TSeq(p1, p2) := t;
    var fl1, tt2 := SeqFollow(x.g, p1, p2, fl, x.depth), SeqTest(x.g, p1, tt);
    var code1, code2 := Gen(x.g, p1, false, tt, fl1, x.depth, x.short), Gen(x.g, p2, opt, tt2, fl, x.depth, x.short);
    AtSplit(x.c, pc, GenSeq(x.g, t, opt, tt, fl, x.depth, x.short), code1, code2, x.env);
    var mid := pc + |code1|;
    GenBehaves(x, p1, false, tt, fl1, pc, i, fuel);
    var r1 := Meaning(x, p1, i, fuel);
    var r2 := Fail;
    if r1.Ok? {
      r2 := Meaning(x, p2, r1.end, fuel);
      BehindFirst(x, p1, p2, tt, fl, i, r1.end, fuel);
      GenBehaves(x, p2, opt, tt2, fl, mid, r1.end, fuel);
    }
    SeqBehaves(x.c, r1, r2, pc, mid, mid + |code2|, i, fl1, fl, opt);
  }

  // ---------- tests and choices ----------

  ghost predicate Inside(c: Ctx, i: nat, cs: set<Byte>) { i < |c.s| && c.s[i] in cs }

  /** Whether the optional test lets the pattern start. */
  ghost predicate Enters(c: Ctx, i: nat, f: First) { f.e || Inside(c, i, f.cs) }

  /** When the test lets the first alternative start and it fails, the second alternative fails too, or
      succeeds on nothing in front of a byte outside the follow set. */
  lemma TestedFailure(g: Rules, p1: Tree, p2: Tree, fl: set<Byte>, depth: nat, s: Input, i: nat, fuel: nat)
    requires Deterministic(g, p1, p2, fl, depth)
    requires i < |s| && s[i] in GetFirst(g, p1, FULL, depth).cs
    requires Eval(g, p1, s, i, fuel) == Some(Fail) && Eval(g, p2, s, i, fuel).Some?
    ensures Eval(g, p2, s, i, fuel).value.Ok? ==> Eval(g, p2, s, i, fuel).value.end == i && s[i] !in fl
  {
    if HeadFail(g, p1, depth) {
      HeadFailSucceeds(g, p1, FULL, depth, s, i, fuel);
    } else if Eval(g, p2, s, i, fuel).value.Ok? {
      FirstSound(g, p2, fl, depth, s, i, fuel);
    }
  }

  /** When a usable test refuses the next byte, the pattern fails. */
  lemma TestRefused(g: Rules, p: Tree, depth: nat, s: Input, i: nat, fuel: nat)
    requires i <= |s| && !(i < |s| && s[i] in GetFirst(g, p, FULL, depth).cs)
    requires HeadFail(g, p, depth) || !GetFirst(g, p, FULL, depth).e
    requires Eval(g, p, s, i, fuel).Some?
    ensures Eval(g, p, s, i, fuel).value.Fail?
  {
    if HeadFail(g, p, depth) { HeadFailNotEmpty(g, p, FULL, depth); }
    if Eval(g, p, s, i, fuel).value.Ok? { GuardedNeedsFirst(g, p, depth, s, i, fuel); }
  }

  lemma {:induction false} ChoiceBehaves(
    x: Site, t: Tree, opt: bool, tt: Option<Known>, fl: set<Byte>, pc: int, i: nat, fuel: nat)
    requires t.TChoice? && PreAt(x, t, tt, GenChoice(x.g, t, opt, fl, x.depth, x.short), pc, i, fuel)
    ensures PostAt(x, t, opt, fl, GenChoice(x.g, t, opt, fl, x.depth, x.short), pc, i, fuel)
    decreases fuel, t, 2
  {
    hide Behaves, At, GenChoice;
    var p1, p2 := t.p1, t.p2;
    if Deterministic(x.g, p1, p2, fl, x.depth) {
      var start1, mid, start2, end := ByteChoiceLayout(x, t, opt, fl, pc);
      ByteChoiceBehaves(x, t, opt, fl, pc, start1, mid, start2, end, i, fuel);
    } else if opt && p2.TTrue? {
      var end := ReusedChoiceLayoutOf(x, t, fl, pc);
      ReusedChoiceBehaves(x, t, fl, pc, end, i, fuel);
    } else {
      var choice, commit, end := StackChoiceLayout(x, t, opt, fl, pc);
      StackChoiceBehaves(x, t, opt, fl, pc, choice, commit, end, i, fuel);
    }
  }

  ghost predicate ByteChoiceAt(
    x: Site, t: Tree, opt: bool, fl: set<Byte>, pc: int, start1: int, mid: int, start2: int, end: int)
    requires t.TChoice?
  {
    var cs := GetFirst(x.g, t.p1, FULL, x.depth).cs;
    TestAt(x.c, pc, cs, start1, start2) &&
    GenAt(x, t.p1, false, Tested(cs, x.short), fl, start1, mid) &&
    (if t.p2.TTrue? then start2 == mid else start2 == mid + 2 && Holds(x.c, mid, IJmp(end - mid))) &&
    GenAt(x, t.p2, opt, None, fl, start2, end)
  }

  lemma ByteChoiceLayout(x: Site, t: Tree, opt: bool, fl: set<Byte>, pc: int)
    returns (start1: int, mid: int, start2: int, end: int)
    requires t.TChoice? && Deterministic(x.g, t.p1, t.p2, fl, x.depth)
    requires At(x.c, pc, GenChoice(x.g, t, opt, fl, x.depth, x.short), x.env)
    ensures ByteChoiceAt(x, t, opt, fl, pc, start1, mid, start2, end)
    ensures end == pc + |GenChoice(x.g, t, opt, fl, x.depth, x.short)|
  {
    hide At, GetFirst, TestedChoice, GuardedChoice, ReusedChoice, Gen;
    var cs := GetFirst(x.g, t.p1, FULL, x.depth).cs;
    var code1 := Gen(x.g, t.p1, false, Tested(cs, x.short), fl, x.depth, x.short);
    var code2 := Gen(x.g, t.p2, opt, None, fl, x.depth, x.short);
    start1, mid, start2, end := TestedChoiceLayout(x.c, pc, cs, code1, code2, t.p2.TTrue?, x.env);
  }

  lemma ReusedChoiceLayoutOf(x: Site, t: Tree, fl: set<Byte>, pc: int) returns (end: int)
    requires t.TChoice? && !Deterministic(x.g, t.p1, t.p2, fl, x.depth) && t.p2.TTrue?
    requires At(x.c, pc, GenChoice(x.g, t, true, fl, x.depth, x.short), x.env)
    ensures Holds(x.c, pc, IPartialCommit(2)) && GenAt(x, t.p1, true, None, FULL, pc + 2, end)
    ensures end == pc + |GenChoice(x.g, t, true, fl, x.depth, x.short)|
  {
    hide At, GetFirst, TestedChoice, GuardedChoice, ReusedChoice, Gen;
    var code1 := Gen(x.g, t.p1, true, None, FULL, x.depth, x.short);
    ReusedChoiceLayout(x.c, pc, code1, x.env);
    end := pc + 2 + |code1|;
  }

  ghost predicate StackChoiceAt(x: Site, t: Tree, opt: bool, fl: set<Byte>, pc: int, choice: int, commit: int, end: int)
    requires t.TChoice?
  {
    var f1 := GetFirst(x.g, t.p1, FULL, x.depth);
    GuardAt(x.c, pc, f1, choice, commit + 2) &&
    Holds(x.c, choice, IChoice(commit + 2 - choice)) && Holds(x.c, commit, ICommit(end - commit)) &&
    GenAt(x, t.p1, t.p2.TTrue?, GuardTest(f1, x.short), FULL, choice + 2, commit) &&
    GenAt(x, t.p2, opt, None, fl, commit + 2, end)
  }

  lemma StackChoiceLayout(x: Site, t: Tree, opt: bool, fl: set<Byte>, pc: int)
    returns (choice: int, commit: int, end: int)
    requires t.TChoice? && !Deterministic(x.g, t.p1, t.p2, fl, x.depth) && !(opt && t.p2.TTrue?)
    requires At(x.c, pc, GenChoice(x.g, t, opt, fl, x.depth, x.short), x.env)
    ensures StackChoiceAt(x, t, opt, fl, pc, choice, commit, end)
    ensures end == pc + |GenChoice(x.g, t, opt, fl, x.depth, x.short)|
  {
    hide At, GetFirst, TestedChoice, GuardedChoice, ReusedChoice, Gen;
    var f1 := GetFirst(x.g, t.p1, FULL, x.depth);
    var code1 := Gen(x.g, t.p1, t.p2.TTrue?, GuardTest(f1, x.short), FULL, x.depth, x.short);
    var code2 := Gen(x.g, t.p2, opt, None, fl, x.depth, x.short);
    choice, commit, end := GuardedChoiceLayout(x.c, pc, f1, code1, code2, x.env);
  }

  /** A choice that one byte decides. */
  lemma {:induction false} ByteChoiceBehaves(
    x: Site, t: Tree, opt: bool, fl: set<Byte>, pc: int, start1: int, mid: int, start2: int, end: int,
    i: nat, fuel: nat)
    requires t.TChoice? && Ready(x, t, i, fuel) && Deterministic(x.g, t.p1, t.p2, fl, x.depth)
    requires ByteChoiceAt(x, t, opt, fl, pc, start1, mid, start2, end)
    ensures Behaves(x.c, Meaning(x, t, i, fuel), pc, end, i, fl, opt)
    decreases fuel, t, 1
  {
    hide Behaves, At;
    var TChoice(p1, p2) := t;
    var Site(c, env, g, depth, short) := x;
    var cs := GetFirst(g, p1, FULL, depth).cs;
    if Inside(c, i, cs) {
      GenBehaves(x, p1, false, Tested(cs, short), fl, start1, i, fuel);
      var r1 := Meaning(x, p1, i, fuel);
      if r1.Fail? { TestedFailure(g, p1, p2, fl, depth, c.s, i, fuel); }
      if p2.TTrue? {
        DropOpt(c, r1, start1, end, i, fl, opt);
      } else {
        JumpBehaves(c, r1, start1, mid, end, i, fl, opt);
      }
      CommittedBehaves(c, r1, Meaning(x, t, i, fuel), start1, end, i, fl, opt);
    } else {
      TestRefused(g, p1, depth, c.s, i, fuel);
      GenBehaves(x, p2, opt, None, fl, start2, i, fuel);
    }
    GuardBehaves(c, Meaning(x, t, i, fuel), cs, pc, start1, start2, end, i, fl, opt);
  }

  /** An optional pattern at the end of another one, whose choice it shares. */
  lemma {:induction false} ReusedChoiceBehaves(x: Site, t: Tree, fl: set<Byte>, pc: int, end: int, i: nat, fuel: nat)
    requires t.TChoice? && t.p2.TTrue? && Ready(x, t, i, fuel)
    requires Holds(x.c, pc, IPartialCommit(2)) && GenAt(x, t.p1, true, None, FULL, pc + 2, end)
    ensures Behaves(x.c, Meaning(x, t, i, fuel), pc, end, i, fl, true)
    decreases fuel, t, 1
  {
    hide Behaves, At, Gen;
    GenBehaves(x, t.p1, true, None, FULL, pc + 2, i, fuel);
    OptChoiceBehaves(x.c, Meaning(x, t.p1, i, fuel), pc, end, i, fl);
    assert Meaning(x, t.p2, i, fuel) == Ok(i, []);
  }

  /** A choice with a choice point, perhaps behind a test. */
  lemma {:induction false} StackChoiceBehaves(
    x: Site, t: Tree, opt: bool, fl: set<Byte>, pc: int, choice: int, commit: int, end: int, i: nat, fuel: nat)
    requires t.TChoice? && Ready(x, t, i, fuel)
    requires StackChoiceAt(x, t, opt, fl, pc, choice, commit, end)
    ensures Behaves(x.c, Meaning(x, t, i, fuel), pc, end, i, fl, opt)
    decreases fuel, t, 1
  {
    hide Behaves, At;
    var f1, r1 := GetFirst(x.g, t.p1, FULL, x.depth), Meaning(x, t.p1, i, fuel);
    if r1.Fail? { GenBehaves(x, t.p2, opt, None, fl, commit + 2, i, fuel); }
    FirstAlternative(x, t.p1, t.p2.TTrue?, choice, commit, i, fuel);
    GuardedChoiceBehaves(x.c, r1, Meaning(x, t, i, fuel), f1, pc, choice, commit, end, i, fl, t.p2.TTrue?, opt);
  }

  lemma {:induction false} FirstAlternative(
    x: Site, p: Tree, opt: bool, choice: int, commit: int, i: nat, fuel: nat)
    requires Ready(x, p, i, fuel)
    requires GenAt(x, p, opt, GuardTest(GetFirst(x.g, p, FULL, x.depth), x.short), FULL, choice + 2, commit)
    ensures if Enters(x.c, i, GetFirst(x.g, p, FULL, x.depth))
            then Behaves(x.c, Meaning(x, p, i, fuel), choice + 2, commit, i, FULL, opt)
            else Meaning(x, p, i, fuel).Fail?
    decreases fuel, p, 4
  {
    hide Behaves, At, Gen;
    var f := GetFirst(x.g, p, FULL, x.depth);
    if Enters(x.c, i, f) {
      GenBehaves(x, p, opt, GuardTest(f, x.short), FULL, choice + 2, i, fuel);
    } else {
      TestRefused(x.g, p, x.depth, x.c.s, i, fuel);
    }
  }

  lemma GuardedChoiceBehaves(c: Ctx, r1: Result, r: Result, f1: First, pc: int, choice: int, commit: int, end: int,
                             i: nat, fl: set<Byte>, opt1: bool, opt: bool)
    requires GuardAt(c, pc, f1, choice, commit + 2)
    requires Holds(c, choice, IChoice(commit + 2 - choice)) && Holds(c, commit, ICommit(end - commit))
    requires opt1 ==> end == commit + 2
    requires r1.Ok? ==> r == r1
    requires r1.Fail? ==> Behaves(c, r, commit + 2, end, i, fl, opt)
    requires if Enters(c, i, f1) then Behaves(c, r1, choice + 2, commit, i, FULL, opt1) else r1.Fail?
    ensures Behaves(c, r, pc, end, i, fl, opt)
  {
    if Enters(c, i, f1) { PlainChoiceBehaves(c, r1, r, choice, commit, end, i, fl, opt1, opt); }
    if !f1.e { GuardBehaves(c, r, f1.cs, pc, choice, commit + 2, end, i, fl, opt); }
  }

  // ---------- repetitions ----------

  /** A span of a byte set is the repetition of that set. */
  lemma {:induction false} SpanMeaning(g: Rules, p: Tree, s: Input, i: nat, fuel: nat)
    requires i <= |s| && ToCharset(p).Some? && Eval(g, TRep(p), s, i, fuel).Some?
    ensures Eval(g, TRep(p), s, i, fuel) == Some(Ok(SpanEnd(s, i, ToCharset(p).value), []))
    decreases fuel
  {
    var cs := ToCharset(p).value;
    assert Eval(g, p, s, i, fuel) == Some(if i < |s| && s[i] in cs then Ok(i + 1, []) else Fail);
    if i < |s| && s[i] in cs {
      SpanMeaning(g, p, s, i + 1, fuel - 1);
      var none: seq<CapTree> := [];
      assert none + none == none;
    }
  }

  lemma SpanBehaves(x: Site, t: Tree, opt: bool, fl: set<Byte>, pc: int, i: nat, fuel: nat)
    requires t.TRep? && ToCharset(t.p).Some? && Ready(x, t, i, fuel)
    requires At(x.c, pc, GenRep(x.g, t, opt, fl, x.depth, x.short), x.env)
    ensures PostAt(x, t, opt, fl, GenRep(x.g, t, opt, fl, x.depth, x.short), pc, i, fuel)
  {
    AtEmit(x.c, pc, ISpan(ToCharset(t.p).value), x.env);
    SpanMeaning(x.g, t.p, x.c.s, i, fuel);
    InstrBehaves(x.c, Meaning(x, t, i, fuel), pc, pc + CHARSET_INST_SIZE, i, fl, opt);
  }

  lemma {:induction false} RepBehaves(
    x: Site, t: Tree, opt: bool, tt: Option<Known>, fl: set<Byte>, pc: int, i: nat, fuel: nat)
    requires t.TRep? && PreAt(x, t, tt, GenRep(x.g, t, opt, fl, x.depth, x.short), pc, i, fuel)
    ensures PostAt(x, t, opt, fl, GenRep(x.g, t, opt, fl, x.depth, x.short), pc, i, fuel)
    decreases fuel, t, 2
  {
    hide Behaves, At, GenRep;
    if ToCharset(t.p).Some? {
      SpanBehaves(x, t, opt, fl, pc, i, fuel);
    } else if DeterministicRep(x.g, t.p, fl, x.depth) {
      var start, back := ByteRepLayout(x, t, opt, fl, pc);
      TestRounds(x, t.p, fl, pc, start, back, i, fuel);
      DropOpt(x.c, Meaning(x, t, i, fuel), pc, back + 2, i, fl, opt);
    } else {
      var enter, end := StackRepLayout(x, t, opt, fl, pc);
      StackRepBehaves(x, t, opt, fl, pc, enter, end, i, fuel);
    }
  }

  ghost predicate ByteRepAt(x: Site, p: Tree, pc: int, start: int, back: int) {
    var cs := GetFirst(x.g, p, FULL, x.depth).cs;
    TestAt(x.c, pc, cs, start, back + 2) && GenAt(x, p, false, Tested(cs, x.short), FULL, start, back) &&
    Holds(x.c, back, IJmp(pc - back))
  }

  lemma ByteRepLayout(x: Site, t: Tree, opt: bool, fl: set<Byte>, pc: int) returns (start: int, back: int)
    requires t.TRep? && ToCharset(t.p).None? && DeterministicRep(x.g, t.p, fl, x.depth)
    requires At(x.c, pc, GenRep(x.g, t, opt, fl, x.depth, x.short), x.env)
    ensures ByteRepAt(x, t.p, pc, start, back) && back + 2 == pc + |GenRep(x.g, t, opt, fl, x.depth, x.short)|
  {
    hide At, GetFirst, CommitRep, TestedRep, Gen;
    var cs := GetFirst(x.g, t.p, FULL, x.depth).cs;
    var end;
    var body := Gen(x.g, t.p, false, Tested(cs, x.short), FULL, x.depth, x.short);
    start, back, end := TestedRepLayout(x.c, pc, cs, body, x.env);
  }

  ghost predicate StackRepAt(x: Site, p: Tree, opt: bool, pc: int, enter: int, end: int) {
    GuardAt(x.c, pc, GetFirst(x.g, p, FULL, x.depth), enter, end) &&
    Holds(x.c, enter, if opt then IPartialCommit(2) else IChoice(end - enter)) &&
    GenAt(x, p, false, None, FULL, enter + 2, end - 2) &&
    Holds(x.c, end - 2, IPartialCommit(enter + 2 - (end - 2)))
  }

  lemma StackRepLayout(x: Site, t: Tree, opt: bool, fl: set<Byte>, pc: int) returns (enter: int, end: int)
    requires t.TRep? && ToCharset(t.p).None? && !DeterministicRep(x.g, t.p, fl, x.depth)
    requires At(x.c, pc, GenRep(x.g, t, opt, fl, x.depth, x.short), x.env)
    ensures StackRepAt(x, t.p, opt, pc, enter, end) && end == pc + |GenRep(x.g, t, opt, fl, x.depth, x.short)|
  {
    hide At, GetFirst, CommitRep, TestedRep, Gen;
    var f, body := GetFirst(x.g, t.p, FULL, x.depth), Gen(x.g, t.p, false, None, FULL, x.depth, x.short);
    var back;
    enter, back, end := CommitRepLayout(x.c, pc, f, body, opt, x.env);
  }

  /** A repetition with a choice point, perhaps behind a test. */
  lemma {:induction false} StackRepBehaves(
    x: Site, t: Tree, opt: bool, fl: set<Byte>, pc: int, enter: int, end: int, i: nat, fuel: nat)
    requires t.TRep? && Ready(x, t, i, fuel)
    requires StackRepAt(x, t.p, opt, pc, enter, end)
    ensures Behaves(x.c, Meaning(x, t, i, fuel), pc, end, i, fl, opt)
    decreases fuel, t, 1
  {
    hide Behaves, At, Gen;
    var c, p := x.c, t.p;
    var f := GetFirst(x.g, p, FULL, x.depth);
    var r := Meaning(x, t, i, fuel);
    CommitRounds(x, p, enter + 2, end - 2, i, fuel);
    if Enters(c, i, f) {
      EnterLoop(c, r, enter, end, i, fl, opt);
    } else {
      TestRefused(x.g, p, x.depth, c.s, i, fuel);
      EmptyBehaves(c, end, i, fl, opt);
    }
    if !f.e { GuardBehaves(c, r, f.cs, pc, enter, end, end, i, fl, opt); }
  }

  /** The rounds of a repetition without a choice point. */
  lemma {:induction false} TestRounds(
    x: Site, p: Tree, fl: set<Byte>, pc: int, start: int, back: int, i: nat, fuel: nat)
    requires Ready(x, TRep(p), i, fuel) && DeterministicRep(x.g, p, fl, x.depth)
    requires ByteRepAt(x, p, pc, start, back)
    ensures Behaves(x.c, Meaning(x, TRep(p), i, fuel), pc, back + 2, i, fl, false)
    decreases fuel, TRep(p), 0
  {
    hide Behaves, At, Gen;
    var Site(c, env, g, depth, short) := x;
    var cs := GetFirst(g, p, FULL, depth).cs;
    var end := back + 2;
    var r, rr := Meaning(x, p, i, fuel), Meaning(x, TRep(p), i, fuel);
    if Inside(c, i, cs) {
      GenBehaves(x, p, false, Tested(cs, short), FULL, start, i, fuel);
      if r.Ok? {
        TestRounds(x, p, fl, pc, start, back, r.end, fuel - 1);
        RoundBehaves(c, r, Meaning(x, TRep(p), r.end, fuel - 1), pc, start, back, end, i, fl);
      } else if HeadFail(g, p, depth) {
        HeadFailSucceeds(g, p, FULL, depth, c.s, i, fuel);
      } else {
        FailBehaves(c, start, back, end, i, fl);
        CommittedBehaves(c, Fail, rr, start, end, i, fl, false);
      }
    } else {
      TestRefused(g, p, depth, c.s, i, fuel);
      EmptyBehaves(c, end, i, fl, false);
    }
    GuardBehaves(c, rr, cs, pc, start, end, end, i, fl, false);
  }

  /** The rounds of a repetition whose choice is updated by partial commits. */
  lemma {:induction false} CommitRounds(x: Site, p: Tree, loop: int, back: int, i: nat, fuel: nat)
    requires Ready(x, TRep(p), i, fuel) && GenAt(x, p, false, None, FULL, loop, back)
    requires Holds(x.c, back, IPartialCommit(loop - back))
    ensures Meaning(x, TRep(p), i, fuel).Ok? && LoopBehaves(x.c, Meaning(x, TRep(p), i, fuel), loop, i)
    decreases fuel, TRep(p), 0
  {
    var r := Meaning(x, p, i, fuel);
    GenBehaves(x, p, false, None, FULL, loop, i, fuel);
    if r.Ok? {
      CommitRounds(x, p, loop, back, r.end, fuel - 1);
      LoopRound(x.c, r, Meaning(x, TRep(p), r.end, fuel - 1), loop, back, i);
    } else {
      LoopLast(x.c, loop, back, i);
    }
  }

  // ---------- predicates ----------

  lemma {:induction false} NotBehaves(
    x: Site, t: Tree, opt: bool, tt: Option<Known>, fl: set<Byte>, pc: int, i: nat, fuel: nat)
    requires t.TNot? && PreAt(x, t, tt, GenNot(x.g, t, x.depth, x.short), pc, i, fuel)
    ensures PostAt(x, t, opt, fl, GenNot(x.g, t, x.depth, x.short), pc, i, fuel)
    decreases fuel, t, 1
  {
    hide Behaves, At, GenNot;
    if HeadFail(x.g, t.p, x.depth) {
      var start, end := ByteNotLayout(x, t, pc);
      ByteNotBehaves(x, t, opt, fl, pc, start, end, i, fuel);
    } else {
      var start, end := StackNotLayout(x, t, pc);
      StackNotBehaves(x, t, opt, fl, pc, start, end, i, fuel);
    }
  }

  lemma ByteNotLayout(x: Site, t: Tree, pc: int) returns (start: int, end: int)
    requires t.TNot? && HeadFail(x.g, t.p, x.depth) && At(x.c, pc, GenNot(x.g, t, x.depth, x.short), x.env)
    ensures TestAt(x.c, pc, GetFirst(x.g, t.p, FULL, x.depth).cs, start, end) && Holds(x.c, start, IFail)
    ensures end == start + 1 == pc + |GenNot(x.g, t, x.depth, x.short)|
  {
    HeadFailNotEmpty(x.g, t.p, FULL, x.depth);
    start, end := TestedNotLayout(x.c, pc, GetFirst(x.g, t.p, FULL, x.depth), x.env);
  }

  ghost predicate StackNotAt(x: Site, p: Tree, pc: int, start: int, end: int) {
    GuardAt(x.c, pc, GetFirst(x.g, p, FULL, x.depth), start, end) &&
    Holds(x.c, start, IChoice(end - start)) && Holds(x.c, end - 1, IFailTwice) &&
    GenAt(x, p, false, None, FULL, start + 2, end - 1)
  }

  lemma StackNotLayout(x: Site, t: Tree, pc: int) returns (start: int, end: int)
    requires t.TNot? && !HeadFail(x.g, t.p, x.depth) && At(x.c, pc, GenNot(x.g, t, x.depth, x.short), x.env)
    ensures StackNotAt(x, t.p, pc, start, end) && end == pc + |GenNot(x.g, t, x.depth, x.short)|
  {
    hide At, GetFirst, TestedNot, ChoiceNot, Gen;
    var f, body := GetFirst(x.g, t.p, FULL, x.depth), Gen(x.g, t.p, false, None, FULL, x.depth, x.short);
    start, end := ChoiceNotLayout(x.c, pc, f, body, x.env);
  }

  lemma ByteNotBehaves(x: Site, t: Tree, opt: bool, fl: set<Byte>, pc: int, start: int, end: int, i: nat, fuel: nat)
    requires t.TNot? && Ready(x, t, i, fuel) && HeadFail(x.g, t.p, x.depth)
    requires TestAt(x.c, pc, GetFirst(x.g, t.p, FULL, x.depth).cs, start, end)
    requires Holds(x.c, start, IFail) && end == start + 1
    ensures Behaves(x.c, Meaning(x, t, i, fuel), pc, end, i, fl, opt)
  {
    var c, cs := x.c, GetFirst(x.g, t.p, FULL, x.depth).cs;
    HeadFailExact(x.g, t.p, x.depth, c.s, i, fuel);
    if Inside(c, i, cs) { InstrBehaves(c, Fail, start, end, i, fl, opt); } else { EmptyBehaves(c, end, i, fl, opt); }
    GuardBehaves(c, Meaning(x, t, i, fuel), cs, pc, start, end, end, i, fl, opt);
  }

  lemma {:induction false} StackNotBehaves(
    x: Site, t: Tree, opt: bool, fl: set<Byte>, pc: int, start: int, end: int, i: nat, fuel: nat)
    requires t.TNot? && Ready(x, t, i, fuel)
    requires StackNotAt(x, t.p, pc, start, end)
    ensures Behaves(x.c, Meaning(x, t, i, fuel), pc, end, i, fl, opt)
    decreases fuel, t, 0
  {
    hide Behaves, At, Gen;
    var c, f := x.c, GetFirst(x.g, t.p, FULL, x.depth);
    if Enters(c, i, f) {
      GenBehaves(x, t.p, false, None, FULL, start + 2, i, fuel);
      PlainNotBehaves(c, Meaning(x, t.p, i, fuel), start, end, i, fl, opt);
    } else {
      TestRefused(x.g, t.p, x.depth, c.s, i, fuel);
      EmptyBehaves(c, end, i, fl, opt);
    }
    if !f.e { GuardBehaves(c, Meaning(x, t, i, fuel), f.cs, pc, start, end, end, i, fl, opt); }
  }

  lemma {:induction false} AndBehaves(
    x: Site, t: Tree, opt: bool, tt: Option<Known>, fl: set<Byte>, pc: int, i: nat, fuel: nat)
    requires t.TAnd? && PreAt(x, t, tt, GenAnd(x.g, t, tt, x.depth, x.short), pc, i, fuel)
    ensures PostAt(x, t, opt, fl, GenAnd(x.g, t, tt, x.depth, x.short), pc, i, fuel)
    decreases fuel, t, 1
  {
    hide Behaves, At, GenAnd;
    if StepsBack(x.g, t.p, x.depth) {
      var mid, end := StepBackLayout(x, t, tt, pc);
      StepBackBehaves(x, t, opt, tt, fl, pc, mid, end, i, fuel);
    } else {
      var end := CommitAndLayoutOf(x, t, tt, pc);
      CommitAndBehaves(x, t, opt, tt, fl, pc, end, i, fuel);
    }
  }

  /** The body, then a step back of its length, unless that is zero. */
  ghost predicate StepBackAt(x: Site, p: Tree, tt: Option<Known>, pc: int, mid: int, end: int) {
    var n := FixedLen(x.g, p);
    GenAt(x, p, false, tt, FULL, pc, mid) &&
    if n > 0 then end == mid + 1 && Holds(x.c, mid, IBehind(n)) else end == mid
  }

  lemma StepBackLayout(x: Site, t: Tree, tt: Option<Known>, pc: int) returns (mid: int, end: int)
    requires t.TAnd? && StepsBack(x.g, t.p, x.depth) && At(x.c, pc, GenAnd(x.g, t, tt, x.depth, x.short), x.env)
    ensures StepBackAt(x, t.p, tt, pc, mid, end) && end == pc + |GenAnd(x.g, t, tt, x.depth, x.short)|
  {
    hide At, StepBackAnd, CommitAnd, Gen;
    var body, n := Gen(x.g, t.p, false, tt, FULL, x.depth, x.short), FixedLen(x.g, t.p);
    StepBackAndLayout(x.c, pc, body, n, x.env);
    mid := pc + |body|;
    end := mid + if n > 0 then 1 else 0;
  }

  ghost predicate CommitAndAt(x: Site, p: Tree, tt: Option<Known>, pc: int, end: int) {
    Holds(x.c, pc, IChoice(end - 1 - pc)) && Holds(x.c, end - 3, IBackCommit(3)) && Holds(x.c, end - 1, IFail) &&
    GenAt(x, p, false, tt, FULL, pc + 2, end - 3)
  }

  lemma CommitAndLayoutOf(x: Site, t: Tree, tt: Option<Known>, pc: int) returns (end: int)
    requires t.TAnd? && !StepsBack(x.g, t.p, x.depth) && At(x.c, pc, GenAnd(x.g, t, tt, x.depth, x.short), x.env)
    ensures CommitAndAt(x, t.p, tt, pc, end) && end == pc + |GenAnd(x.g, t, tt, x.depth, x.short)|
  {
    hide At, StepBackAnd, CommitAnd, Gen;
    end := CommitAndLayout(x.c, pc, Gen(x.g, t.p, false, tt, FULL, x.depth, x.short), x.env);
  }

  lemma {:induction false} CommitAndBehaves(
    x: Site, t: Tree, opt: bool, tt: Option<Known>, fl: set<Byte>, pc: int, end: int, i: nat, fuel: nat)
    requires t.TAnd? && Ready(x, t, i, fuel) && TestHolds(tt, x.c.s, i) && CommitAndAt(x, t.p, tt, pc, end)
    ensures Behaves(x.c, Meaning(x, t, i, fuel), pc, end, i, fl, opt)
    decreases fuel, t, 0
  {
    hide Behaves, At, Gen;
    GenBehaves(x, t.p, false, tt, FULL, pc + 2, i, fuel);
    PlainAndBehaves(x.c, Meaning(x, t.p, i, fuel), pc, end, i, fl, opt);
  }

  /** A match of fixed length without captures, then a step back of that length. */
  lemma {:induction false} StepBackBehaves(
    x: Site, t: Tree, opt: bool, tt: Option<Known>, fl: set<Byte>, pc: int, mid: int, end: int, i: nat, fuel: nat)
    requires t.TAnd? && Ready(x, t, i, fuel) && TestHolds(tt, x.c.s, i)
    requires StepsBack(x.g, t.p, x.depth) && StepBackAt(x, t.p, tt, pc, mid, end)
    ensures Behaves(x.c, Meaning(x, t, i, fuel), pc, end, i, fl, opt)
    decreases fuel, t, 0
  {
    hide Behaves, At, Gen;
    var n, r := FixedLen(x.g, t.p), Meaning(x, t.p, i, fuel);
    GenBehaves(x, t.p, false, tt, FULL, pc, i, fuel);
    if r.Ok? {
      NoCapturesYieldsNone(x.g, t.p, x.c.s, i, fuel, x.depth);
      FixedLenExact(x.g, t.p, x.c.s, i, fuel, 0, 0);
    }
    MatchThenBack(x.c, r, n, pc, mid, end, i, fl, opt);
  }

  lemma MatchThenBack(c: Ctx, r: Result, n: nat, pc: int, mid: int, end: int, i: nat, fl: set<Byte>, opt: bool)
    requires if n > 0 then end == mid + 1 && Holds(c, mid, IBehind(n)) else end == mid
    requires Behaves(c, r, pc, mid, i, FULL, false)
    requires r.Ok? ==> r.end == i + n && r.caps == []
    ensures Behaves(c, if r.Ok? then Ok(i, []) else Fail, pc, end, i, fl, opt)
  {
    if n > 0 { InstrBehaves(c, Ok(i, []), mid, end, i + n, fl, opt); } else { EmptyBehaves(c, mid, i, fl, opt); }
    SeqBehaves(c, r, Ok(i, []), pc, mid, end, i, FULL, fl, opt);
  }

  lemma BodyReady(x: Site, t: Tree, i: nat, fuel: nat)
    requires t.TBehind? && Ready(x, t, i, fuel)
    ensures t.n > i ==> Meaning(x, t, i, fuel) == Fail
    ensures t.n <= i ==> Ready(x, t.p, i - t.n, fuel)
  {
  }

  /** The body of a look-behind that starts as far back as it is long ends where it should, without captures. */
  lemma BodyOfBehind(x: Site, t: Tree, i: nat, fuel: nat)
    requires t.TBehind? && Ready(x, t, i, fuel) && t.n <= i && Ready(x, t.p, i - t.n, fuel)
    ensures Meaning(x, t.p, i - t.n, fuel).Ok? ==> Meaning(x, t.p, i - t.n, fuel) == Ok(i, [])
    ensures Meaning(x, t, i, fuel) == if Meaning(x, t.p, i - t.n, fuel).Ok? then Ok(i, []) else Fail
  {
    if Meaning(x, t.p, i - t.n, fuel).Ok? {
      BehindYieldsNone(x.g, t.p, x.c.s, i - t.n, fuel, x.depth, 0, 0);
      FixedLenOpen(x.g, t.p, 0, 0);
      FixedLenExact(x.g, t.p, x.c.s, i - t.n, fuel, 0, 0);
    }
  }

  /** A step back, then a match of that length. */
  lemma {:induction false} BehindBehaves(
    x: Site, t: Tree, opt: bool, tt: Option<Known>, fl: set<Byte>, pc: int, i: nat, fuel: nat)
    requires t.TBehind?
    requires PreAt(x, t, tt, BehindCode(t.n, Gen(x.g, t.p, false, None, FULL, x.depth, x.short)), pc, i, fuel)
    ensures PostAt(x, t, opt, fl, BehindCode(t.n, Gen(x.g, t.p, false, None, FULL, x.depth, x.short)), pc, i, fuel)
    decreases fuel, t, 0
  {
    hide Behaves, At, Gen, BehindCode, Ready, Meaning, Eval, WellFormed;
    var c, body := x.c, Gen(x.g, t.p, false, None, FULL, x.depth, x.short);
    var start := BehindLayout(c, pc, t.n, body, x.env);
    var end := start + |body|;
    BodyReady(x, t, i, fuel);
    if i < t.n {
      InstrBehaves(c, Fail, pc, end, i, fl, opt);
    } else {
      BodyOfBehind(x, t, i, fuel);
      GenBehaves(x, t.p, false, None, FULL, start, i - t.n, fuel);
      BackThenMatch(c, Meaning(x, t.p, i - t.n, fuel), t.n, pc, start, end, i, fl, opt);
    }
  }

  lemma BackThenMatch(c: Ctx, r: Result, n: nat, pc: int, start: int, end: int, i: nat, fl: set<Byte>, opt: bool)
    requires n <= i && if n > 0 then start == pc + 1 && Holds(c, pc, IBehind(n)) else start == pc
    requires Behaves(c, r, start, end, i - n, FULL, false)
    requires r.Ok? ==> r.end == i && r.caps == []
    ensures Behaves(c, if r.Ok? then Ok(i, []) else Fail, pc, end, i, fl, opt)
  {
    EmptyBehaves(c, end, i, fl, opt);
    SeqBehaves(c, r, Ok(i, []), start, end, end, i - n, FULL, fl, opt);
    if n > 0 {
      InstrBehaves(c, Ok(i - n, []), pc, start, i, FULL, false);
    } else {
      EmptyBehaves(c, pc, i, FULL, false);
    }
    SeqBehaves(c, Ok(i - n, []), SeqResult(r, Ok(i, [])), pc, start, end, i, FULL, fl, opt);
  }

  // ---------- calls and grammars ----------

  lemma RuleCallBehaves(x: Site, t: Tree, opt: bool, tt: Option<Known>, fl: set<Byte>, pc: int, i: nat, fuel: nat)
    requires t.TCall? && Pre(x, t, opt, tt, fl, pc, i, fuel)
    ensures Post(x, t, opt, tt, fl, pc, i, fuel)
  {
    var k, r := t.rule, Meaning(x, t, i, fuel);
    AtWord(x.c, pc, Emit(IOpenCall(k)), 0, x.env);
    assert RuleOk(x, k, i, fuel - 1);
    if Holds(x.c, pc, ICall(x.env[k] - pc)) {
      CallBehaves(x.c, r, pc, x.env[k], i, fl, opt);
    } else {
      TailCallBehaves(x.c, r, pc, x.env[k], i, fl, opt);
    }
  }

  /** All rules stand at their addresses. */
  ghost predicate RulesAt(x: Site) {
    |x.env| == |x.g| && forall k: nat | k < |x.g| :: RuleAt(x, k)
  }

  ghost predicate RuleAt(x: Site, k: nat)
    requires k < |x.g| == |x.env|
  {
    WellFormed(x.g, x.g[k], x.depth) && At(x.c, x.env[k], RuleCodes(x.g, x.depth, x.short)[k] + [IRet], x.env)
  }

  /** A rule in place behaves like its meaning. */
  lemma {:induction false} RuleBehavesAt(x: Site, k: nat, i: nat, fuel: nat)
    requires k < |x.g| == |x.env| && RuleAt(x, k) && Ready(x, x.g[k], i, fuel)
    ensures RuleBehaves(x.c, Meaning(x, x.g[k], i, fuel), x.env[k], i)
    decreases fuel, x.g[k], 4
  {
    hide Behaves, At;
    var body := Gen(x.g, x.g[k], false, None, FULL, x.depth, x.short);
    AtSplit(x.c, x.env[k], body + [IRet], body, [IRet], x.env);
    AtOne(x.c, x.env[k] + |body|, IRet, x.env);
    GenBehaves(x, x.g[k], false, None, FULL, x.env[k], i, fuel);
    BodyBehaves(x.c, Meaning(x, x.g[k], i, fuel), x.env[k], x.env[k] + |body|, i);
  }

  /** When all rules are in place, calls behave. */
  lemma {:induction false} CallsBehave(x: Site, t: Tree, fuel: nat)
    requires !x.short && t == TGrammar(x.g) && RulesAt(x)
    ensures CallsOk(x, fuel)
    decreases fuel, t, 0
  {
    if fuel > 0 {
      var less := fuel - 1;
      CallsBehave(x, t, less);
      forall k: nat, i: nat ensures RuleOk(x, k, i, less) {
        if k < |x.g| && i <= |x.c.s| && Eval(x.g, x.g[k], x.c.s, i, less).Some? {
          assert RuleAt(x, k);
          RuleBehavesAt(x, k, i, less);
        }
      }
    }
  }

  lemma {:induction false} GrammarBehaves(
    x: Site, t: Tree, opt: bool, tt: Option<Known>, fl: set<Byte>, pc: int, i: nat, fuel: nat)
    requires t.TGrammar? && PreAt(x, t, tt, GenGrammar(t, x.depth, x.short), pc, i, fuel)
    ensures PostAt(x, t, opt, fl, GenGrammar(t, x.depth, x.short), pc, i, fuel)
    decreases fuel, t, 1
  {
    hide Behaves, At, GenGrammar;
    var inner := GrammarInPlace(x, t, pc);
    CallsBehave(inner, t, fuel);
    RuleBehavesAt(inner, 0, i, fuel);
    var r := Meaning(x, t, i, fuel);
    CallBehaves(x.c, r, pc, inner.env[0], i, fl, false);
    JumpBehaves(x.c, r, pc, pc + 2, pc + |GenGrammar(t, x.depth, x.short)|, i, fl, opt);
  }

  /** The site of the rules of a grammar in place. */
  lemma GrammarInPlace(x: Site, t: Tree, pc: int) returns (inner: Site)
    requires t.TGrammar? && WellFormed(x.g, t, x.depth)
    requires At(x.c, pc, GenGrammar(t, x.depth, x.short), x.env)
    ensures inner.c == x.c && inner.g == t.rules && inner.depth == x.depth && inner.short == x.short && RulesAt(inner)
    ensures inner.env == RuleAddresses(RuleCodes(t.rules, x.depth, x.short), pc)
    ensures var end := pc + |GenGrammar(t, x.depth, x.short)|;
            Holds(x.c, pc, ICall(inner.env[0] - pc)) && Holds(x.c, pc + 2, IJmp(end - (pc + 2)))
  {
    var codes := RuleCodes(t.rules, x.depth, x.short);
    assert GenGrammar(t, x.depth, x.short) == Link(GrammarCode(codes), RulePositions(codes));
    inner := Site(x.c, RuleAddresses(codes, pc), t.rules, x.depth, x.short);
    forall k | 0 <= k < |codes| ensures Whole(codes[k], |codes|) {
      GenWhole(t.rules, t.rules[k], false, None, FULL, x.depth, x.short);
    }
    GrammarWhole(codes, 0);
    GrammarHead(x.c, pc, codes, x.env);
    forall k: nat | k < |inner.g| ensures RuleAt(inner, k) {
      RuleInPlace(x.c, pc, codes, x.env, k);
    }
  }
}
