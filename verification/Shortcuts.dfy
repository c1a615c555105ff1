/** Byte sets that are taken for the set of a test in front of them, and what comes of it. */
module Shortcuts {
  import opened Peg
  import opened Analysis
  import opened Machine
  import opened CodeGen

  // ---------- which sets, and why it is wrong ----------

  /** The least byte of a set. */
  lemma {:induction false} LeastByteIs(cs: set<Byte>, b: Byte, c: Byte)
    requires c in cs && b <= c
    ensures LeastByte(cs, b) in cs && LeastByte(cs, b) <= c
    decreases 256 - b
  {
    if b < 255 && b !in cs { LeastByteIs(cs, b + 1, c); }
  }

  /** A set that is taken for a test's set lacks the least byte of the test's set. */
  lemma MisreadLacksLeast(cs: set<Byte>)
    requires cs != {}
    ensures TheByte(cs) in cs && TheByte(cs) !in Misread(cs)
  {
    var c :| c in cs;
    LeastByteIs(cs, 0, c);
    forall d: Byte | d in cs && d < 224
      ensures Further(d) != TheByte(cs)
    {
      LeastByteIs(cs, 0, d);
    }
  }

  /** What an instruction does with one byte, as far as bytes are concerned: passes it, or fails. */
  predicate Passes(ins: Instr, b: Byte) {
    match ins
    case IAny => true
    case IChar(c) => b == c
    case ISet(cs) => b in cs
    case _ => false
  }

  /** Behind a passed test on some set, the instruction for a byte set does its work exactly if the set is not taken
      for that of the test. */
  lemma ShortcutIff(cs: set<Byte>, test: set<Byte>)
    requires test != {}
    ensures (forall b :: b in test ==> (Passes(CharsetInstr(cs, Tested(test, true)), b) <==> b in cs)) <==>
            !Fires(cs, Tested(test, true))
  {
    var tt := Tested(test, true);
    if IsSingleton(cs) && tt == Some(KnownByte(TheByte(cs))) {
      assert test == {TheByte(cs)};
    } else if Fires(cs, tt) {
      MisreadLacksLeast(test);
      assert Passes(CharsetInstr(cs, tt), TheByte(test));
    }
  }

  // ---------- when the code is the intended one ----------

  /** What is known without the comparison of sets. */
  function Forget(tt: Option<Known>): Option<Known> {
    if tt.Some? && tt.value.KnownSet? then None else tt
  }

  /** Code that is shorter, or the same, exactly if nothing fired. */
  ghost predicate Related(unfired: bool, a: seq<Instr>, b: seq<Instr>) {
    |a| <= |b| && (unfired <==> |a| == |b|) && (unfired ==> a == b)
  }

  /** The code is the intended one exactly if no set is taken for that of a test; otherwise it is shorter. */
  lemma {:induction false} PlainIff(g: Rules, t: Tree, opt: bool, tt: Option<Known>, fl: set<Byte>, depth: nat)
    ensures Related(Unfired(g, t, opt, tt, fl, depth), Gen(g, t, opt, tt, fl, depth, true),
                    Gen(g, t, opt, Forget(tt), fl, depth, false))
    decreases t, 1
  {
    hide Related;
    hide Related;
    match t
    case TSet(cs) => PlainSet(cs, tt);
    case TSeq(_, _) => PlainSeq(g, t, opt, tt, fl, depth);
    case TChoice(_, _) => PlainChoice(g, t, opt, fl, depth);
    case TRep(_) => PlainRep(g, t, opt, fl, depth);
    case TNot(_) => PlainNot(g, t, depth);
    case TAnd(_) => PlainAnd(g, t, tt, depth);
    case TBehind(n, p) =>
      PlainIff(g, p, false, None, FULL, depth);
      PlainBehind(Unfired(g, p, false, None, FULL, depth), n, Gen(g, p, false, None, FULL, depth, true),
                  Gen(g, p, false, None, FULL, depth, false));
    case TCapture(key, p) =>
      PlainIff(g, p, false, tt, fl, depth);
      PlainCapture(Unfired(g, p, false, tt, fl, depth), key, Gen(g, p, false, tt, fl, depth, true),
                   Gen(g, p, false, Forget(tt), fl, depth, false));
    case TGrammar(_) => PlainGrammar(g, t, opt, tt, fl, depth);
    case _ => PlainSame(Gen(g, t, opt, tt, fl, depth, true));
  }

  lemma PlainSame(a: seq<Instr>)
    ensures Related(true, a, a)
  {
  }

  lemma PlainBehind(u: bool, n: nat, a: seq<Instr>, b: seq<Instr>)
    requires Related(u, a, b)
    ensures Related(u, BehindCode(n, a), BehindCode(n, b))
  {
  }

  lemma PlainCapture(u: bool, key: nat, a: seq<Instr>, b: seq<Instr>)
    requires Related(u, a, b)
    ensures Related(u, CaptureCode(key, a), CaptureCode(key, b))
  {
  }

  lemma {:induction false} PlainNot(g: Rules, t: Tree, depth: nat)
    requires t.TNot?
    ensures Related(HeadFail(g, t.p, depth) || Unfired(g, t.p, false, None, FULL, depth), GenNot(g, t, depth, true),
                    GenNot(g, t, depth, false))
    decreases t, 0
  {
    PlainIff(g, t.p, false, None, FULL, depth);
  }

  lemma {:induction false} PlainAnd(g: Rules, t: Tree, tt: Option<Known>, depth: nat)
    requires t.TAnd?
    ensures Related(Unfired(g, t.p, false, tt, FULL, depth), GenAnd(g, t, tt, depth, true),
                    GenAnd(g, t, Forget(tt), depth, false))
    decreases t, 0
  {
    PlainIff(g, t.p, false, tt, FULL, depth);
  }

  lemma PlainSet(cs: set<Byte>, tt: Option<Known>)
    ensures Related(!Fires(cs, tt), Emit(CharsetInstr(cs, tt)), Emit(CharsetInstr(cs, Forget(tt))))
  {
  }

  lemma {:induction false} PlainSeq(g: Rules, t: Tree, opt: bool, tt: Option<Known>, fl: set<Byte>, depth: nat)
    requires t.TSeq?
    ensures Related(UnfiredSeq(g, t, opt, tt, fl, depth), GenSeq(g, t, opt, tt, fl, depth, true),
                    GenSeq(g, t, opt, Forget(tt), fl, depth, false))
    decreases t, 0
  {
    PlainIff(g, t.p1, false, tt, SeqFollow(g, t.p1, t.p2, fl, depth), depth);
    PlainIff(g, t.p2, opt, SeqTest(g, t.p1, tt), fl, depth);
  }

  lemma {:induction false} PlainChoice(g: Rules, t: Tree, opt: bool, fl: set<Byte>, depth: nat)
    requires t.TChoice?
    ensures Related(UnfiredChoice(g, t, opt, fl, depth), GenChoice(g, t, opt, fl, depth, true),
                    GenChoice(g, t, opt, fl, depth, false))
    decreases t, 0
  {
    var p1, p2 := t.p1, t.p2;
    var f1 := GetFirst(g, p1, FULL, depth);
    if Deterministic(g, p1, p2, fl, depth) {
      PlainIff(g, p1, false, Tested(f1.cs, true), fl, depth);
      PlainIff(g, p2, opt, None, fl, depth);
      PlainTested(Unfired(g, p1, false, Tested(f1.cs, true), fl, depth), Unfired(g, p2, opt, None, fl, depth), f1.cs,
                  Gen(g, p1, false, Tested(f1.cs, true), fl, depth, true),
                  Gen(g, p1, false, Tested(f1.cs, false), fl, depth, false),
                  Gen(g, p2, opt, None, fl, depth, true), Gen(g, p2, opt, None, fl, depth, false), p2.TTrue?);
    } else if opt && p2.TTrue? {
      PlainIff(g, p1, true, None, FULL, depth);
    } else {
      PlainIff(g, p1, p2.TTrue?, GuardTest(f1, true), FULL, depth);
      PlainIff(g, p2, opt, None, fl, depth);
      PlainGuarded(Unfired(g, p1, p2.TTrue?, GuardTest(f1, true), FULL, depth), Unfired(g, p2, opt, None, fl, depth),
                   f1,
                   Gen(g, p1, p2.TTrue?, GuardTest(f1, true), FULL, depth, true),
                   Gen(g, p1, p2.TTrue?, GuardTest(f1, false), FULL, depth, false),
                   Gen(g, p2, opt, None, fl, depth, true), Gen(g, p2, opt, None, fl, depth, false));
    }
  }

  lemma PlainTested(u1: bool, u2: bool, cs: set<Byte>, a1: seq<Instr>, b1: seq<Instr>, a2: seq<Instr>, b2: seq<Instr>,
                    empty2: bool)
    requires Related(u1, a1, b1) && Related(u2, a2, b2)
    ensures Related(u1 && u2, TestedChoice(cs, a1, a2, empty2), TestedChoice(cs, b1, b2, empty2))
  {
  }

  lemma PlainGuarded(u1: bool, u2: bool, f: First, a1: seq<Instr>, b1: seq<Instr>, a2: seq<Instr>, b2: seq<Instr>)
    requires Related(u1, a1, b1) && Related(u2, a2, b2)
    ensures Related(u1 && u2, GuardedChoice(f, a1, a2), GuardedChoice(f, b1, b2))
  {
  }

  lemma {:induction false} PlainRep(g: Rules, t: Tree, opt: bool, fl: set<Byte>, depth: nat)
    requires t.TRep?
    ensures Related(UnfiredRep(g, t, fl, depth), GenRep(g, t, opt, fl, depth, true),
                    GenRep(g, t, opt, fl, depth, false))
    decreases t, 0
  {
    var f := GetFirst(g, t.p, FULL, depth);
    if ToCharset(t.p).None? && DeterministicRep(g, t.p, fl, depth) {
      PlainIff(g, t.p, false, Tested(f.cs, true), FULL, depth);
      PlainTestedRep(Unfired(g, t.p, false, Tested(f.cs, true), FULL, depth), f.cs,
                     Gen(g, t.p, false, Tested(f.cs, true), FULL, depth, true),
                     Gen(g, t.p, false, Tested(f.cs, false), FULL, depth, false));
    } else if ToCharset(t.p).None? {
      PlainIff(g, t.p, false, None, FULL, depth);
      PlainCommitRep(Unfired(g, t.p, false, None, FULL, depth), f, Gen(g, t.p, false, None, FULL, depth, true),
                     Gen(g, t.p, false, None, FULL, depth, false), opt);
    }
  }

  lemma PlainTestedRep(u: bool, cs: set<Byte>, a: seq<Instr>, b: seq<Instr>)
    requires Related(u, a, b)
    ensures Related(u, TestedRep(cs, a), TestedRep(cs, b))
  {
  }

  lemma PlainCommitRep(u: bool, f: First, a: seq<Instr>, b: seq<Instr>, opt: bool)
    requires Related(u, a, b)
    ensures Related(u, CommitRep(f, a, opt), CommitRep(f, b, opt))
  {
  }

  lemma {:induction false} PlainGrammar(
    g: Rules, t: Tree, opt: bool, tt: Option<Known>, fl: set<Byte>, depth: nat)
    requires t.TGrammar?
    ensures Related(Unfired(g, t, opt, tt, fl, depth), GenGrammar(t, depth, true), GenGrammar(t, depth, false))
    decreases t, 0
  {
    var rs, a, b := t.rules, RuleCodes(t.rules, depth, true), RuleCodes(t.rules, depth, false);
    var flags := seq(|rs|, k requires 0 <= k < |rs| => Unfired(rs, rs[k], false, None, FULL, depth));
    forall k | 0 <= k < |rs|
      ensures Related(flags[k], a[k], b[k])
    {
      PlainIff(rs, rs[k], false, None, FULL, depth);
    }
    PlainBodies(flags, a, b);
    assert forall k :: 0 <= k < |rs| ==> (flags[k] <==> Unfired(rs, rs[k], false, None, FULL, depth));
    if forall k :: 0 <= k < |rs| ==> flags[k] { assert a == b; }
  }

  lemma {:induction false} PlainBodies(flags: seq<bool>, a: seq<seq<Instr>>, b: seq<seq<Instr>>)
    requires |flags| == |a| == |b| && forall k :: 0 <= k < |a| ==> Related(flags[k], a[k], b[k])
    ensures |Bodies(a)| <= |Bodies(b)|
    ensures |Bodies(a)| == |Bodies(b)| <==> forall k :: 0 <= k < |a| ==> flags[k]
    decreases |a|
  {
    if a != [] {
      PlainBodies(flags[1..], a[1..], b[1..]);
      assert (forall k :: 0 <= k < |a| ==> flags[k]) <==>
             flags[0] && forall k :: 0 <= k < |a| - 1 ==> flags[1..][k];
    }
  }

  // ---------- a pattern whose code is wrong ----------

  const ZERO_ONE: set<Byte> := {0, 1}

  /** Not followed by anything but byte 0 or 1, and then `p`; or the letter a. */
  function Guarded(p: Tree): Tree {
    TChoice(TSeq(TNot(TSet(FULL - ZERO_ONE)), p), TChar(97))
  }

  lemma NotOneByte(a: Byte, b: Byte)
    requires a < b
    ensures !IsSingleton({a, b}) && {a, b} != FULL
  {
    var cs: set<Byte> := {a, b};
    assert a in cs && b in cs;
    var c: Byte := if a == 0 && b == 1 then 2 else if a == 0 then 1 else 0;
    assert c in FULL && c !in cs;
  }

  lemma ZeroOneMisread()
    ensures Tested(ZERO_ONE, true) == Some(KnownSet(ZERO_ONE))
    ensures Misread(ZERO_ONE) == {32, 33} && Fires({32, 33}, Tested(ZERO_ONE, true))
    ensures FULL - (FULL - ZERO_ONE) == ZERO_ONE
  {
    NotOneByte(0, 1);
    NotOneByte(32, 33);
    assert Further(0) == 32 && Further(1) == 33;
    assert 0 in ZERO_ONE && 1 in ZERO_ONE;
  }

  /** One byte decides the choice, and the test for that byte stands in front of `p`. */
  lemma GuardedFirst(p: Tree, depth: nat)
    requires p == TAny || p == TSet({32, 33})
    ensures GetFirst([], Guarded(p).p1, FULL, depth) == First(ZERO_ONE, false)
    ensures Deterministic([], Guarded(p).p1, Guarded(p).p2, FULL, depth)
  {
    ZeroOneMisread();
  }

  lemma GuardedSeq(p: Tree, depth: nat)
    requires p == TAny || p == TSet({32, 33})
    ensures GenSeq([], Guarded(p).p1, false, Tested(ZERO_ONE, true), FULL, depth, true) ==
            Gen([], TNot(TSet(FULL - ZERO_ONE)), false, Tested(ZERO_ONE, true), FULL, depth, true) + [IAny]
  {
    ZeroOneMisread();
    assert SeqTest([], TNot(TSet(FULL - ZERO_ONE)), Tested(ZERO_ONE, true)) == Tested(ZERO_ONE, true);
    assert Gen([], p, false, Tested(ZERO_ONE, true), FULL, depth, true) == [IAny];
    assert SeqFollow([], TNot(TSet(FULL - ZERO_ONE)), p, FULL, depth) == FULL;
  }

  /** The test of the choice lets bytes 0 and 1 pass, and the set of bytes 32 and 33 is taken for its set. */
  lemma GuardedCode(depth: nat)
    ensures Gen([], Guarded(TSet({32, 33})), false, None, FULL, depth, true) ==
            Gen([], Guarded(TAny), false, None, FULL, depth, true)
    ensures Unfired([], Guarded(TAny), false, None, FULL, depth)
    ensures !Unfired([], Guarded(TSet({32, 33})), false, None, FULL, depth)
  {
    var t, t' := Guarded(TSet({32, 33})), Guarded(TAny);
    ZeroOneMisread();
    GuardedFirst(TSet({32, 33}), depth);
    GuardedFirst(TAny, depth);
    GuardedSeq(TSet({32, 33}), depth);
    GuardedSeq(TAny, depth);
    assert Gen([], t.p1, false, Tested(ZERO_ONE, true), FULL, depth, true) ==
           Gen([], t'.p1, false, Tested(ZERO_ONE, true), FULL, depth, true);
    assert GenChoice([], t, false, FULL, depth, true) == GenChoice([], t', false, FULL, depth, true);
    GuardedUnfired(TAny, depth);
    GuardedUnfired(TSet({32, 33}), depth);
  }

  lemma GuardedUnfired(p: Tree, depth: nat)
    requires p == TAny || p == TSet({32, 33})
    ensures Unfired([], Guarded(p), false, None, FULL, depth) <==> p == TAny
  {
    var t, tt := Guarded(p), Tested(ZERO_ONE, true);
    var no := TNot(TSet(FULL - ZERO_ONE));
    ZeroOneMisread();
    GuardedFirst(p, depth);
    assert SeqTest([], no, tt) == tt;
    assert Unfired([], p, false, tt, FULL, depth) <==> p == TAny;
    assert UnfiredSeq([], t.p1, false, tt, FULL, depth) <==> p == TAny;
    assert UnfiredChoice([], t, false, FULL, depth) <==> Unfired([], t.p1, false, tt, FULL, depth);
  }
}
