/** What the code generator emits for a tree, given the context of the tree. */
module CodeGen {
  // `opt` says that the code ends an optional pattern whose choice is still on the stack, `tt` is the byte that a
  // dominating ITestChar has already checked, `fl` is the follow set.

  import opened Peg
  import opened Analysis
  import opened Machine

  /** Tree nodes keep a rule's number in one byte. */
  const RULE_FIELD: nat := 256

  function Pads(n: nat): seq<Instr> { seq(n, _ => IPad) }

  /** An instruction with the words it owns. */
  function Emit(ins: Instr): (r: seq<Instr>)
    ensures |r| == Size(ins)
  {
    [ins] + Pads(Size(ins) - 1)
  }

  /** The least byte of `cs` that is not below `b`, or 255. */
  function LeastByte(cs: set<Byte>, b: Byte): Byte
    decreases 256 - b, cs
  {
    if b == 255 || b in cs then b else LeastByte(cs, b + 1)
  }

  function TheByte(cs: set<Byte>): Byte { LeastByte(cs, 0) }

  /** A set that holds exactly one byte. */
  predicate IsSingleton(cs: set<Byte>) { cs == {TheByte(cs)} }

  /** What a passed test in front of some code has checked of the next byte. */
  datatype Known = KnownByte(c: Byte) | KnownSet(cs: set<Byte>)

  /** What the comparison of a byte set with an earlier test finds there: it starts one word early, at the offset,
      which is still zero, so that the set of the test appears four bytes further on. */
  function Misread(cs: set<Byte>): set<Byte> {
    set c: Byte | c in cs && c < 224 :: Further(c)
  }

  /** The same bit four bytes further on. */
  function Further(c: Byte): Byte
    requires c < 224
  {
    c + 32
  }

  /** Whether a set is taken for that of the test in front of it; no byte and no set of all bytes is. */
  predicate Fires(cs: set<Byte>, tt: Option<Known>) {
    cs != {} && cs != FULL && !IsSingleton(cs) && tt.Some? && tt.value.KnownSet? && cs == Misread(tt.value.cs)
  }

  /** The instruction for a byte set. */
  function CharsetInstr(cs: set<Byte>, tt: Option<Known>): Instr {
    if cs == {} then IFail
    else if cs == FULL then IAny
    else if IsSingleton(cs) then CharInstr(TheByte(cs), tt)
    else if Fires(cs, tt) then IAny
    else ISet(cs)
  }

  function CharInstr(c: Byte, tt: Option<Known>): Instr {
    if tt == Some(KnownByte(c)) then IAny else IChar(c)
  }

  /** The test instruction for a byte set: it jumps by `off` unless the next byte is in the set. */
  function TestInstr(cs: set<Byte>, off: int): Instr {
    if cs == {} then IJmp(off)
    else if cs == FULL then ITestAny(off)
    else if IsSingleton(cs) then ITestChar(TheByte(cs), off)
    else ITestSet(cs, off)
  }

  /** What a passed test on `cs` leaves for a comparison: a byte, or, if sets are compared at all, the set of an
      ITestSet. */
  function Tested(cs: set<Byte>, short: bool): Option<Known> {
    if cs == {} || cs == FULL then None
    else if IsSingleton(cs) then Some(KnownByte(TheByte(cs)))
    else if short then Some(KnownSet(cs))
    else None
  }

  function TestSize(cs: set<Byte>): nat { Size(TestInstr(cs, 0)) }

  /** What the tree constructors and finalfix establish: calls name rules (by a number that fits its field),
      grammars have a first rule, look-behinds know their length and have no captures. */
  ghost predicate WellFormed(g: Rules, t: Tree, depth: nat)
    decreases t
  {
    match t
    case TRep(p) => WellFormed(g, p, depth)
    case TNot(p) => WellFormed(g, p, depth)
    case TAnd(p) => WellFormed(g, p, depth)
    case TCapture(_, p) => WellFormed(g, p, depth)
    case TSeq(p1, p2) => WellFormed(g, p1, depth) && WellFormed(g, p2, depth)
    case TChoice(p1, p2) => WellFormed(g, p1, depth) && WellFormed(g, p2, depth)
    case TBehind(n, p) =>
      n == FixedLen([], p) && n <= MAX_BEHIND && !HasCaptures([], p, depth) && WellFormed(g, p, depth)
    case TCall(k) => k < |g| && k < RULE_FIELD
    case TGrammar(rs) =>
      rs != [] && |rs| <= MAX_RULES && forall k :: 0 <= k < |rs| ==> WellFormed(rs, rs[k], depth)
    case _ => true
  }

  // ---------- shapes of code, given the code of the parts ----------

  /** test -> L1; p1; jmp L2; L1: p2; L2:   (no jump when p2 is empty) */
  function TestedChoice(cs: set<Byte>, code1: seq<Instr>, code2: seq<Instr>, empty2: bool): seq<Instr> {
    var jmp := if empty2 then [] else Emit(IJmp(2 + |code2|));
    Emit(TestInstr(cs, TestSize(cs) + |code1| + |jmp|)) + code1 + jmp + code2
  }

  /** test -> L1; choice L1; p1; commit L2; L1: p2; L2: */
  function GuardedChoice(f: First, code1: seq<Instr>, code2: seq<Instr>): seq<Instr> {
    OptionalTest(f, 2 + |code1| + 2) + Emit(IChoice(2 + |code1| + 2)) + code1 + Emit(ICommit(2 + |code2|)) + code2
  }

  /** The test that skips `n` words, where the first set allows one. */
  function OptionalTest(f: First, n: nat): seq<Instr> {
    if f.e then [] else Emit(TestInstr(f.cs, TestSize(f.cs) + n))
  }

  /** partialcommit; p1 */
  function ReusedChoice(code1: seq<Instr>): seq<Instr> {
    Emit(IPartialCommit(2)) + code1
  }

  /** L1: test -> L2; p; jmp L1; L2: */
  function TestedRep(cs: set<Byte>, body: seq<Instr>): seq<Instr> {
    Emit(TestInstr(cs, TestSize(cs) + |body| + 2)) + body + Emit(IJmp(-(TestSize(cs) + |body|)))
  }

  /** test -> L2; choice L2 (or partialcommit L1); L1: p; partialcommit L1; L2: */
  function CommitRep(f: First, body: seq<Instr>, opt: bool): seq<Instr> {
    OptionalTest(f, 2 + |body| + 2) + Emit(if opt then IPartialCommit(2) else IChoice(2 + |body| + 2))
    + body + Emit(IPartialCommit(-|body|))
  }

  /** test -> L1; fail; L1: */
  function TestedNot(f: First): seq<Instr> {
    OptionalTest(f, 1) + [IFail]
  }

  /** test -> L1; choice L1; p; failtwice; L1: */
  function ChoiceNot(f: First, body: seq<Instr>): seq<Instr> {
    OptionalTest(f, 2 + |body| + 1) + Emit(IChoice(2 + |body| + 1)) + body + [IFailTwice]
  }

  /** p; behind n */
  function StepBackAnd(body: seq<Instr>, n: nat): seq<Instr> {
    body + if n > 0 then [IBehind(n)] else []
  }

  /** choice L1; p; backcommit L2; L1: fail; L2: */
  function CommitAnd(body: seq<Instr>): seq<Instr> {
    Emit(IChoice(2 + |body| + 2)) + body + Emit(IBackCommit(3)) + [IFail]
  }

  function BehindCode(n: nat, body: seq<Instr>): seq<Instr> {
    (if n > 0 then [IBehind(n)] else []) + body
  }

  function CaptureCode(key: nat, body: seq<Instr>): seq<Instr> {
    Emit(IOpenCapture(false, key)) + body + [ICloseCapture]
  }

  function ConstCaptureCode(key: nat, value: nat): seq<Instr> {
    Emit(IOpenCapture(true, key)) + [ICloseConstCapture(value)]
  }

  // ---------- which shape a tree gets ----------

  /** Whether a choice needs no choice point: one byte decides between the alternatives. */
  predicate Deterministic(g: Rules, p1: Tree, p2: Tree, fl: set<Byte>, depth: nat) {
    HeadFail(g, p1, depth) ||
    (!GetFirst(g, p1, FULL, depth).e && GetFirst(g, p1, FULL, depth).cs !! GetFirst(g, p2, fl, depth).cs)
  }

  /** Whether a repetition needs no choice point. */
  predicate DeterministicRep(g: Rules, p: Tree, fl: set<Byte>, depth: nat) {
    HeadFail(g, p, depth) || (!GetFirst(g, p, FULL, depth).e && GetFirst(g, p, FULL, depth).cs !! fl)
  }

  /** Whether a predicate can be coded as a match followed by a step back. */
  predicate StepsBack(g: Rules, p: Tree, depth: nat) {
    0 <= FixedLen(g, p) <= MAX_BEHIND && !HasCaptures(g, p, depth)
  }

  /** The follow set of the first part of a sequence. */
  function SeqFollow(g: Rules, p1: Tree, p2: Tree, fl: set<Byte>, depth: nat): set<Byte> {
    if NeedFollow(p1) then GetFirst(g, p2, fl, depth).cs else FULL
  }

  /** The test still protects the second part if the first cannot consume. */
  function SeqTest(g: Rules, p1: Tree, tt: Option<Known>): Option<Known> {
    if FixedLen(g, p1) != 0 then None else tt
  }

  /** What the optional test of a guarded choice has checked. */
  function GuardTest(f: First, short: bool): Option<Known> {
    if f.e then None else Tested(f.cs, short)
  }

  /** The code of tree `t`; its open calls are not linked yet. */
  function Gen(g: Rules, t: Tree, opt: bool, tt: Option<Known>, fl: set<Byte>, depth: nat, short: bool): seq<Instr>
    decreases t, 1
  {
    match t
    case TChar(c) => [CharInstr(c, tt)]
    case TAny => [IAny]
    case TSet(cs) => Emit(CharsetInstr(cs, tt))
    case TTrue => []
    case TFalse => [IFail]
    case TChoice(_, _) => GenChoice(g, t, opt, fl, depth, short)
    case TRep(_) => GenRep(g, t, opt, fl, depth, short)
    case TNot(_) => GenNot(g, t, depth, short)
    case TAnd(_) => GenAnd(g, t, tt, depth, short)
    case TSeq(_, _) => GenSeq(g, t, opt, tt, fl, depth, short)
    case TBehind(n, p) => BehindCode(n, Gen(g, p, false, None, FULL, depth, short))
    case TCapture(key, p) => CaptureCode(key, Gen(g, p, false, tt, fl, depth, short))
    case TConstCapture(key, value) => ConstCaptureCode(key, value)
    case TCall(k) => Emit(IOpenCall(k % RULE_FIELD))
    case TGrammar(_) => GenGrammar(t, depth, short)
  }

  function GenSeq(g: Rules, t: Tree, opt: bool, tt: Option<Known>, fl: set<Byte>, depth: nat, short: bool): seq<Instr>
    requires t.TSeq?
    decreases t, 0
  {
    Gen(g, t.p1, false, tt, SeqFollow(g, t.p1, t.p2, fl, depth), depth, short) +
    Gen(g, t.p2, opt, SeqTest(g, t.p1, tt), fl, depth, short)
  }

  function GenChoice(g: Rules, t: Tree, opt: bool, fl: set<Byte>, depth: nat, short: bool): seq<Instr>
    requires t.TChoice?
    decreases t, 0
  {
    var p1, p2 := t.p1, t.p2;
    var f1 := GetFirst(g, p1, FULL, depth);
    if Deterministic(g, p1, p2, fl, depth) then
      TestedChoice(f1.cs, Gen(g, p1, false, Tested(f1.cs, short), fl, depth, short),
                   Gen(g, p2, opt, None, fl, depth, short), p2.TTrue?)
    else if opt && p2.TTrue? then
      ReusedChoice(Gen(g, p1, true, None, FULL, depth, short))
    else
      GuardedChoice(f1, Gen(g, p1, p2.TTrue?, GuardTest(f1, short), FULL, depth, short),
                    Gen(g, p2, opt, None, fl, depth, short))
  }

  function GenRep(g: Rules, t: Tree, opt: bool, fl: set<Byte>, depth: nat, short: bool): seq<Instr>
    requires t.TRep?
    decreases t, 0
  {
    var f := GetFirst(g, t.p, FULL, depth);
    if ToCharset(t.p).Some? then Emit(ISpan(ToCharset(t.p).value))
    else if DeterministicRep(g, t.p, fl, depth) then
      TestedRep(f.cs, Gen(g, t.p, false, Tested(f.cs, short), FULL, depth, short))
    else CommitRep(f, Gen(g, t.p, false, None, FULL, depth, short), opt)
  }

  function GenNot(g: Rules, t: Tree, depth: nat, short: bool): seq<Instr>
    requires t.TNot?
    decreases t, 0
  {
    var f := GetFirst(g, t.p, FULL, depth);
    if HeadFail(g, t.p, depth) then TestedNot(f) else ChoiceNot(f, Gen(g, t.p, false, None, FULL, depth, short))
  }

  function GenAnd(g: Rules, t: Tree, tt: Option<Known>, depth: nat, short: bool): seq<Instr>
    requires t.TAnd?
    decreases t, 0
  {
    var body := Gen(g, t.p, false, tt, FULL, depth, short);
    if StepsBack(g, t.p, depth) then StepBackAnd(body, FixedLen(g, t.p)) else CommitAnd(body)
  }

  function GenGrammar(t: Tree, depth: nat, short: bool): seq<Instr>
    requires t.TGrammar?
    decreases t, 0
  {
    var codes := seq(|t.rules|, k requires 0 <= k < |t.rules| =>
                       Gen(t.rules, t.rules[k], false, None, FULL, depth, short));
    Link(GrammarCode(codes), RulePositions(codes))
  }

  /** The code of the rules of a grammar. */
  function RuleCodes(rs: Rules, depth: nat, short: bool): (codes: seq<seq<Instr>>)
    ensures |codes| == |rs|
  {
    seq(|rs|, k requires 0 <= k < |rs| => Gen(rs, rs[k], false, None, FULL, depth, short))
  }

  /** No set of the tree is ever taken for that of a test in front of it. */
  predicate Unfired(g: Rules, t: Tree, opt: bool, tt: Option<Known>, fl: set<Byte>, depth: nat)
    decreases t, 1
  {
    match t
    case TSet(cs) => !Fires(cs, tt)
    case TSeq(_, _) => UnfiredSeq(g, t, opt, tt, fl, depth)
    case TChoice(_, _) => UnfiredChoice(g, t, opt, fl, depth)
    case TRep(_) => UnfiredRep(g, t, fl, depth)
    case TNot(p) => HeadFail(g, p, depth) || Unfired(g, p, false, None, FULL, depth)
    case TAnd(p) => Unfired(g, p, false, tt, FULL, depth)
    case TBehind(_, p) => Unfired(g, p, false, None, FULL, depth)
    case TCapture(_, p) => Unfired(g, p, false, tt, fl, depth)
    case TGrammar(rs) => forall k :: 0 <= k < |rs| ==> Unfired(rs, rs[k], false, None, FULL, depth)
    case _ => true
  }

  predicate UnfiredSeq(g: Rules, t: Tree, opt: bool, tt: Option<Known>, fl: set<Byte>, depth: nat)
    requires t.TSeq?
    decreases t, 0
  {
    Unfired(g, t.p1, false, tt, SeqFollow(g, t.p1, t.p2, fl, depth), depth) &&
    Unfired(g, t.p2, opt, SeqTest(g, t.p1, tt), fl, depth)
  }

  predicate UnfiredChoice(g: Rules, t: Tree, opt: bool, fl: set<Byte>, depth: nat)
    requires t.TChoice?
    decreases t, 0
  {
    var p1, p2 := t.p1, t.p2;
    var f1 := GetFirst(g, p1, FULL, depth);
    if Deterministic(g, p1, p2, fl, depth) then
      Unfired(g, p1, false, Tested(f1.cs, true), fl, depth) && Unfired(g, p2, opt, None, fl, depth)
    else if opt && p2.TTrue? then
      Unfired(g, p1, true, None, FULL, depth)
    else
      Unfired(g, p1, p2.TTrue?, GuardTest(f1, true), FULL, depth) && Unfired(g, p2, opt, None, fl, depth)
  }

  predicate UnfiredRep(g: Rules, t: Tree, fl: set<Byte>, depth: nat)
    requires t.TRep?
    decreases t, 0
  {
    var f := GetFirst(g, t.p, FULL, depth);
    ToCharset(t.p).Some? ||
    Unfired(g, t.p, false, if DeterministicRep(g, t.p, fl, depth) then Tested(f.cs, true) else None, FULL, depth)
  }

  // ---------- grammars ----------

  /** The code of all rules, each followed by a return. */
  function Bodies(codes: seq<seq<Instr>>): seq<Instr> {
    if codes == [] then [] else codes[0] + [IRet] + Bodies(codes[1..])
  }

  /** call L1; jmp L2; L1: rule; ret; rule; ret; ... L2: */
  function GrammarCode(codes: seq<seq<Instr>>): seq<Instr> {
    Emit(ICall(4)) + Emit(IJmp(2 + |Bodies(codes)|)) + Bodies(codes)
  }

  /** Where the code of each rule starts inside the code of the grammar. */
  function RulePositions(codes: seq<seq<Instr>>): (r: seq<int>)
    ensures |r| == |codes|
  {
    seq(|codes|, k requires 0 <= k < |codes| => 4 + |Bodies(codes[..k])|)
  }

  /** Turns the open calls of a grammar's code, from word `i` on, into calls, or into jumps where the call
      would be followed by a return. */
  function LinkFrom(code: seq<Instr>, positions: seq<int>, i: nat): (r: seq<Instr>)
    ensures |r| == |code|
    decreases |code| - i
  {
    if i >= |code| then code
    else LinkFrom(LinkAt(code, positions, i), positions, i + 1)
  }

  function LinkAt(code: seq<Instr>, positions: seq<int>, i: nat): (r: seq<Instr>)
    requires i < |code|
    ensures |r| == |code|
  {
    if code[i].IOpenCall? && code[i].rule < |positions| then
      var off := positions[code[i].rule] - i;
      code[i := if TailCall(code, i) then IJmp(off) else ICall(off)]
    else code
  }

  /** Whether what follows the call at `i` only returns. */
  predicate TailCall(code: seq<Instr>, i: nat) {
    var ft := FinalTarget(code, i + 2, |code|);
    0 <= ft < |code| && code[ft].IRet?
  }

  function Link(code: seq<Instr>, positions: seq<int>): (r: seq<Instr>)
    ensures |r| == |code|
  {
    LinkFrom(code, positions, 0)
  }
}
