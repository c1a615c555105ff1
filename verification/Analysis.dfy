/** The analyses of the pattern compiler and what they promise. */
module Analysis {
  // The analyses follow rule calls.  `depth` bounds how many calls are followed; when it is used up the answer is
  // the cautious one.  What the analyses promise holds at every depth.  On verified patterns CheckAux, GetFirst
  // and HeadFail give the same answers at every depth that is large enough (module Settling), which are those of
  // a recursion without a bound; HasCaptures on recursive rules has no such answer.

  import opened Peg

  /** Limits of the compiler: calls followed by FixedLenX, bytes an IBehind may step back. */
  const MAX_RULES: nat := 1000
  const MAX_BEHIND: nat := 0x7FFF

  function ToCharset(t: Tree): Option<set<Byte>> {
    match t
    case TSet(cs) => Some(cs)
    case TChar(c) => Some({c})
    case TAny => Some(FULL)
    case _ => None
  }

  /** With `nofail`: "the pattern never fails"; without: "the pattern may succeed without consuming". */
  function CheckAux(g: Rules, t: Tree, nofail: bool, depth: nat): bool
    decreases depth, t
  {
    match t
    case TChar(_) => false
    case TSet(_) => false
    case TAny => false
    case TFalse => false
    case TRep(_) => true
    case TTrue => true
    case TNot(_) => !nofail
    case TBehind(_, _) => !nofail
    case TAnd(p) => if nofail then CheckAux(g, p, nofail, depth) else true
    case TSeq(p1, p2) => CheckAux(g, p1, nofail, depth) && CheckAux(g, p2, nofail, depth)
    case TChoice(p1, p2) => CheckAux(g, p2, nofail, depth) || CheckAux(g, p1, nofail, depth)
    case TCapture(_, p) => CheckAux(g, p, nofail, depth)
    case TConstCapture(_, _) => true
    case TGrammar(rs) => if rs == [] then !nofail else CheckAux(rs, rs[0], nofail, depth)
    case TCall(k) => if depth == 0 || k >= |g| then !nofail else CheckAux(g, g[k], nofail, depth - 1)
  }

  predicate Nullable(g: Rules, t: Tree, depth: nat) { CheckAux(g, t, false, depth) }

  predicate NoFail(g: Rules, t: Tree, depth: nat) { CheckAux(g, t, true, depth) }

  /** The number of bytes a match of `t` consumes, added to `len`; -1 when it is not fixed. */
  function FixedLenX(g: Rules, t: Tree, count: nat, len: nat): (r: int)
    ensures r == -1 || r >= len
    decreases if count > MAX_RULES then 0 else MAX_RULES - count, t
  {
    match t
    case TChar(_) => len + 1
    case TSet(_) => len + 1
    case TAny => len + 1
    case TFalse => len
    case TTrue => len
    case TNot(_) => len
    case TAnd(_) => len
    case TBehind(_, _) => len
    case TRep(_) => -1
    case TCapture(_, p) => FixedLenX(g, p, count, len)
    case TConstCapture(_, _) => len
    case TGrammar(rs) => if rs == [] then -1 else FixedLenX(rs, rs[0], count, len)
    case TCall(k) => if count >= MAX_RULES || k >= |g| then -1 else FixedLenX(g, g[k], count + 1, len)
    case TSeq(p1, p2) =>
      var n := FixedLenX(g, p1, count, len);
      if n < 0 then -1 else FixedLenX(g, p2, count, n)
    case TChoice(p1, p2) =>
      var n1 := FixedLenX(g, p1, count, len);
      if n1 < 0 then -1 else
      var n2 := FixedLenX(g, p2, count, len);
      if n1 == n2 then n1 else -1
  }

  function FixedLen(g: Rules, t: Tree): int { FixedLenX(g, t, 0, 0) }

  /** A call also looks at the rules after the one it names.  Without rules, a call is still open and counts
      as having no captures. */
  function HasCaptures(g: Rules, t: Tree, depth: nat): bool
    decreases depth, t
  {
    match t
    case TCapture(_, _) => true
    case TConstCapture(_, _) => true
    case TCall(k) => k < |g| && (depth == 0 || RulesCapture(g, k, depth - 1))
    case TGrammar(rs) => rs == [] || RulesCapture(rs, 0, depth)
    case TRep(p) => HasCaptures(g, p, depth)
    case TNot(p) => HasCaptures(g, p, depth)
    case TAnd(p) => HasCaptures(g, p, depth)
    case TBehind(_, p) => HasCaptures(g, p, depth)
    case TSeq(p1, p2) => HasCaptures(g, p1, depth) || HasCaptures(g, p2, depth)
    case TChoice(p1, p2) => HasCaptures(g, p1, depth) || HasCaptures(g, p2, depth)
    case _ => false
  }

  /** Whether a rule from number `m` on has captures. */
  function RulesCapture(g: Rules, m: nat, depth: nat): bool
    decreases depth, TGrammar(g), |g| - m
  {
    m < |g| && (HasCaptures(g, g[m], depth) || RulesCapture(g, m + 1, depth))
  }

  /** A first set, and whether the pattern may accept the empty input (then no test can guard it). */
  datatype First = First(cs: set<Byte>, e: bool)

  function GetFirst(g: Rules, t: Tree, follow: set<Byte>, depth: nat): First
    decreases depth, t
  {
    match t
    case TChar(c) => First({c}, false)
    case TSet(cs) => First(cs, false)
    case TAny => First(FULL, false)
    case TTrue => First(follow, true)
    case TFalse => First({}, false)
    case TChoice(p1, p2) =>
      var f1, f2 := GetFirst(g, p1, follow, depth), GetFirst(g, p2, follow, depth);
      First(f1.cs + f2.cs, f1.e || f2.e)
    case TSeq(p1, p2) =>
      if !Nullable(g, p1, depth) then GetFirst(g, p1, FULL, depth)
      else
        var f2 := GetFirst(g, p2, follow, depth);
        var f1 := GetFirst(g, p1, f2.cs, depth);
        First(f1.cs, f1.e && f2.e)
    case TRep(p) => First(GetFirst(g, p, follow, depth).cs + follow, true)
    case TCapture(_, p) => GetFirst(g, p, follow, depth)
    case TConstCapture(_, _) => First(follow, true)
    case TGrammar(rs) => if rs == [] then First(FULL, true) else GetFirst(rs, rs[0], follow, depth)
    case TCall(k) => if depth == 0 || k >= |g| then First(FULL, true) else GetFirst(g, g[k], follow, depth - 1)
    case TAnd(p) =>
      var f := GetFirst(g, p, follow, depth);
      First(f.cs * follow, f.e)
    case TNot(p) => if ToCharset(p).Some? then First(FULL - ToCharset(p).value, true) else First(follow, true)
    case TBehind(_, _) => First(follow, true)
  }

  /** Whether the pattern can fail only because of the next byte. */
  predicate HeadFail(g: Rules, t: Tree, depth: nat)
    decreases depth, t
  {
    match t
    case TChar(_) => true
    case TSet(_) => true
    case TAny => true
    case TFalse => true
    case TCapture(_, p) => HeadFail(g, p, depth)
    case TGrammar(rs) => rs != [] && HeadFail(rs, rs[0], depth)
    case TAnd(p) => HeadFail(g, p, depth)
    case TCall(k) => depth != 0 && k < |g| && HeadFail(g, g[k], depth - 1)
    case TSeq(p1, p2) => NoFail(g, p2, depth) && HeadFail(g, p1, depth)
    case TChoice(p1, p2) => HeadFail(g, p1, depth) && HeadFail(g, p2, depth)
    case _ => false
  }

  predicate NeedFollow(t: Tree) {
    match t
    case TChoice(_, _) => true
    case TRep(_) => true
    case TCapture(_, p) => NeedFollow(p)
    case TSeq(_, p2) => NeedFollow(p2)
    case _ => false
  }

  // ---------- what the analyses promise ----------

  /** A pattern that is not nullable consumes whenever it succeeds. */
  lemma {:induction false} NotNullableConsumes(g: Rules, t: Tree, s: Input, i: nat, fuel: nat, depth: nat)
    requires i <= |s| && !Nullable(g, t, depth)
    requires Eval(g, t, s, i, fuel).Some? && Eval(g, t, s, i, fuel).value.Ok?
    ensures Eval(g, t, s, i, fuel).value.end > i
    decreases fuel, t
  {
    match t
    case TChar(_) => case TSet(_) => case TAny => case TTrue => case TFalse =>
    case TRep(_) => case TNot(_) => case TAnd(_) => case TBehind(_, _) => case TConstCapture(_, _) =>
    case TSeq(p1, p2) =>
      if !Nullable(g, p1, depth) {
        NotNullableConsumes(g, p1, s, i, fuel, depth);
      } else {
        NotNullableConsumes(g, p2, s, Eval(g, p1, s, i, fuel).value.end, fuel, depth);
      }
    case TChoice(p1, p2) =>
      if Eval(g, p1, s, i, fuel).value.Ok? {
        NotNullableConsumes(g, p1, s, i, fuel, depth);
      } else {
        NotNullableConsumes(g, p2, s, i, fuel, depth);
      }
    case TCapture(_, p) => NotNullableConsumes(g, p, s, i, fuel, depth);
    case TCall(k) => NotNullableConsumes(g, g[k], s, i, fuel - 1, depth - 1);
    case TGrammar(rs) => NotNullableConsumes(rs, rs[0], s, i, fuel, depth);
  }

  /** A nofail pattern succeeds on every input. */
  lemma {:induction false} NoFailSucceeds(g: Rules, t: Tree, s: Input, i: nat, fuel: nat, depth: nat)
    requires i <= |s| && NoFail(g, t, depth)
    requires Eval(g, t, s, i, fuel).Some?
    ensures Eval(g, t, s, i, fuel).value.Ok?
    decreases fuel, t
  {
    match t
    case TChar(_) => case TSet(_) => case TAny => case TTrue => case TFalse =>
    case TNot(_) => case TBehind(_, _) => case TConstCapture(_, _) =>
    case TRep(p) =>
      var r := Eval(g, p, s, i, fuel).value;
      if r.Ok? { NoFailSucceeds(g, t, s, r.end, fuel - 1, depth); }
    case TAnd(p) => NoFailSucceeds(g, p, s, i, fuel, depth);
    case TSeq(p1, p2) =>
      NoFailSucceeds(g, p1, s, i, fuel, depth);
      NoFailSucceeds(g, p2, s, Eval(g, p1, s, i, fuel).value.end, fuel, depth);
    case TChoice(p1, p2) =>
      if NoFail(g, p1, depth) {
        NoFailSucceeds(g, p1, s, i, fuel, depth);
      } else if Eval(g, p1, s, i, fuel).value.Fail? {
        NoFailSucceeds(g, p2, s, i, fuel, depth);
      }
    case TCapture(_, p) => NoFailSucceeds(g, p, s, i, fuel, depth);
    case TCall(k) => NoFailSucceeds(g, g[k], s, i, fuel - 1, depth - 1);
    case TGrammar(rs) => NoFailSucceeds(rs, rs[0], s, i, fuel, depth);
  }

  /** When the length is fixed, every success consumes exactly that many bytes. */
  lemma {:induction false} FixedLenExact(g: Rules, t: Tree, s: Input, i: nat, fuel: nat, count: nat, len: nat)
    requires i <= |s| && FixedLenX(g, t, count, len) >= 0
    requires Eval(g, t, s, i, fuel).Some? && Eval(g, t, s, i, fuel).value.Ok?
    ensures Eval(g, t, s, i, fuel).value.end - i == FixedLenX(g, t, count, len) - len
    decreases fuel, t
  {
    match t
    case TChar(_) => case TSet(_) => case TAny => case TTrue => case TFalse =>
    case TRep(_) => case TNot(_) => case TAnd(_) => case TBehind(_, _) => case TConstCapture(_, _) =>
    case TSeq(p1, p2) =>
      FixedLenExact(g, p1, s, i, fuel, count, len);
      FixedLenExact(g, p2, s, Eval(g, p1, s, i, fuel).value.end, fuel, count, FixedLenX(g, p1, count, len));
    case TChoice(p1, p2) =>
      if Eval(g, p1, s, i, fuel).value.Ok? {
        FixedLenExact(g, p1, s, i, fuel, count, len);
      } else {
        FixedLenExact(g, p2, s, i, fuel, count, len);
      }
    case TCapture(_, p) => FixedLenExact(g, p, s, i, fuel, count, len);
    case TCall(k) => FixedLenExact(g, g[k], s, i, fuel - 1, count + 1, len);
    case TGrammar(rs) => FixedLenExact(rs, rs[0], s, i, fuel, count, len);
  }

  /** A pattern without captures yields none. */
  lemma {:induction false} NoCapturesYieldsNone(g: Rules, t: Tree, s: Input, i: nat, fuel: nat, depth: nat)
    requires i <= |s| && !HasCaptures(g, t, depth)
    requires Eval(g, t, s, i, fuel).Some? && Eval(g, t, s, i, fuel).value.Ok?
    ensures Eval(g, t, s, i, fuel).value.caps == []
    decreases fuel, t
  {
    match t
    case TChar(_) => case TSet(_) => case TAny => case TTrue => case TFalse =>
    case TNot(_) => case TAnd(_) => case TBehind(_, _) => case TConstCapture(_, _) => case TCapture(_, _) =>
    case TRep(p) =>
      var r := Eval(g, p, s, i, fuel).value;
      if r.Ok? {
        NoCapturesYieldsNone(g, p, s, i, fuel, depth);
        NoCapturesYieldsNone(g, t, s, r.end, fuel - 1, depth);
      }
    case TSeq(p1, p2) =>
      NoCapturesYieldsNone(g, p1, s, i, fuel, depth);
      NoCapturesYieldsNone(g, p2, s, Eval(g, p1, s, i, fuel).value.end, fuel, depth);
    case TChoice(p1, p2) =>
      if Eval(g, p1, s, i, fuel).value.Ok? {
        NoCapturesYieldsNone(g, p1, s, i, fuel, depth);
      } else {
        NoCapturesYieldsNone(g, p2, s, i, fuel, depth);
      }
    case TCall(k) => NoCapturesYieldsNone(g, g[k], s, i, fuel - 1, depth - 1);
    case TGrammar(rs) => NoCapturesYieldsNone(rs, rs[0], s, i, fuel, depth);
  }

  /** A length that is fixed without knowing the rules stays the same once the rules are known. */
  lemma {:induction false} FixedLenOpen(g: Rules, t: Tree, count: nat, len: nat)
    requires FixedLenX([], t, count, len) >= 0
    ensures FixedLenX(g, t, count, len) == FixedLenX([], t, count, len)
    decreases t
  {
    match t
    case TSeq(p1, p2) =>
      FixedLenOpen(g, p1, count, len);
      FixedLenOpen(g, p2, count, FixedLenX(g, p1, count, len));
    case TChoice(p1, p2) =>
      FixedLenOpen(g, p1, count, len);
      FixedLenOpen(g, p2, count, len);
    case TCapture(_, p) => FixedLenOpen(g, p, count, len);
    case _ =>
  }

  /** Neither length nor captures of a look-behind's body depend on the rules: it yields no captures. */
  lemma {:induction false} BehindYieldsNone(
    g: Rules, t: Tree, s: Input, i: nat, fuel: nat, depth: nat, count: nat, len: nat)
    requires i <= |s| && !HasCaptures([], t, depth) && FixedLenX([], t, count, len) >= 0
    requires Eval(g, t, s, i, fuel).Some? && Eval(g, t, s, i, fuel).value.Ok?
    ensures Eval(g, t, s, i, fuel).value.caps == []
    decreases t
  {
    match t
    case TSeq(p1, p2) =>
      BehindYieldsNone(g, p1, s, i, fuel, depth, count, len);
      var j := Eval(g, p1, s, i, fuel).value.end;
      BehindYieldsNone(g, p2, s, j, fuel, depth, count, FixedLenX([], p1, count, len));
    case TChoice(p1, p2) =>
      if Eval(g, p1, s, i, fuel).value.Ok? {
        BehindYieldsNone(g, p1, s, i, fuel, depth, count, len);
      } else {
        BehindYieldsNone(g, p2, s, i, fuel, depth, count, len);
      }
    case TGrammar(rs) => NoCapturesYieldsNone(rs, rs[0], s, i, fuel, depth);
    case _ =>
  }

  /** A success in front of a byte outside the first set consumes nothing, and that byte is outside the
      follow set as well; so the pattern followed by anything that needs a follow byte fails. */
  lemma {:induction false} FirstSound(
    g: Rules, t: Tree, follow: set<Byte>, depth: nat, s: Input, i: nat, fuel: nat)
    requires i < |s| && s[i] !in GetFirst(g, t, follow, depth).cs
    requires Eval(g, t, s, i, fuel).Some? && Eval(g, t, s, i, fuel).value.Ok?
    ensures Eval(g, t, s, i, fuel).value.end == i && s[i] !in follow
    decreases fuel, t
  {
    match t
    case TChar(_) => case TSet(_) => case TAny => case TTrue => case TFalse =>
    case TBehind(_, _) => case TConstCapture(_, _) =>
    case TRep(p) =>
      if Eval(g, p, s, i, fuel).value.Ok? {
        FirstSound(g, p, follow, depth, s, i, fuel);
        FirstSound(g, t, follow, depth, s, i, fuel - 1);
      }
    case TSeq(p1, p2) =>
      if !Nullable(g, p1, depth) {
        FirstSound(g, p1, FULL, depth, s, i, fuel);
      } else {
        FirstSound(g, p1, GetFirst(g, p2, follow, depth).cs, depth, s, i, fuel);
        FirstSound(g, p2, follow, depth, s, i, fuel);
      }
    case TChoice(p1, p2) =>
      if Eval(g, p1, s, i, fuel).value.Ok? {
        FirstSound(g, p1, follow, depth, s, i, fuel);
      } else {
        FirstSound(g, p2, follow, depth, s, i, fuel);
      }
    case TNot(p) =>
    case TAnd(p) =>
      if s[i] in follow { FirstSound(g, p, follow, depth, s, i, fuel); }
    case TCapture(_, p) => FirstSound(g, p, follow, depth, s, i, fuel);
    case TCall(k) => FirstSound(g, g[k], follow, depth - 1, s, i, fuel - 1);
    case TGrammar(rs) => FirstSound(rs, rs[0], follow, depth, s, i, fuel);
  }

  /** A pattern whose first set may guard it fails at the end of the input. */
  lemma {:induction false} FirstFailsAtEnd(
    g: Rules, t: Tree, follow: set<Byte>, depth: nat, s: Input, fuel: nat)
    requires !GetFirst(g, t, follow, depth).e
    requires Eval(g, t, s, |s|, fuel).Some?
    ensures Eval(g, t, s, |s|, fuel).value.Fail?
    decreases fuel, t
  {
    match t
    case TChar(_) => case TSet(_) => case TAny => case TTrue => case TFalse =>
    case TBehind(_, _) => case TConstCapture(_, _) => case TRep(_) => case TNot(_) =>
    case TSeq(p1, p2) =>
      if !Nullable(g, p1, depth) {
        FirstFailsAtEnd(g, p1, FULL, depth, s, fuel);
      } else if !GetFirst(g, p1, GetFirst(g, p2, follow, depth).cs, depth).e {
        FirstFailsAtEnd(g, p1, GetFirst(g, p2, follow, depth).cs, depth, s, fuel);
      } else if Eval(g, p1, s, |s|, fuel).value.Ok? {
        FirstFailsAtEnd(g, p2, follow, depth, s, fuel);
      }
    case TChoice(p1, p2) =>
      FirstFailsAtEnd(g, p1, follow, depth, s, fuel);
      FirstFailsAtEnd(g, p2, follow, depth, s, fuel);
    case TAnd(p) => FirstFailsAtEnd(g, p, follow, depth, s, fuel);
    case TCapture(_, p) => FirstFailsAtEnd(g, p, follow, depth, s, fuel);
    case TCall(k) => FirstFailsAtEnd(g, g[k], follow, depth - 1, s, fuel - 1);
    case TGrammar(rs) => FirstFailsAtEnd(rs, rs[0], follow, depth, s, fuel);
  }

  /** A headfail pattern succeeds in front of every byte of its first set. */
  lemma {:induction false} HeadFailSucceeds(
    g: Rules, t: Tree, follow: set<Byte>, depth: nat, s: Input, i: nat, fuel: nat)
    requires HeadFail(g, t, depth)
    requires i < |s| && s[i] in GetFirst(g, t, follow, depth).cs
    requires Eval(g, t, s, i, fuel).Some?
    ensures Eval(g, t, s, i, fuel).value.Ok?
    decreases fuel, t
  {
    match t
    case TChar(_) => case TSet(_) => case TAny => case TFalse =>
    case TSeq(p1, p2) =>
      if !Nullable(g, p1, depth) {
        HeadFailSucceeds(g, p1, FULL, depth, s, i, fuel);
      } else {
        HeadFailSucceeds(g, p1, GetFirst(g, p2, follow, depth).cs, depth, s, i, fuel);
      }
      NoFailSucceeds(g, p2, s, Eval(g, p1, s, i, fuel).value.end, fuel, depth);
    case TChoice(p1, p2) =>
      if s[i] in GetFirst(g, p1, follow, depth).cs {
        HeadFailSucceeds(g, p1, follow, depth, s, i, fuel);
      } else if Eval(g, p1, s, i, fuel).value.Fail? {
        HeadFailSucceeds(g, p2, follow, depth, s, i, fuel);
      }
    case TAnd(p) => HeadFailSucceeds(g, p, follow, depth, s, i, fuel);
    case TCapture(_, p) => HeadFailSucceeds(g, p, follow, depth, s, i, fuel);
    case TCall(k) => HeadFailSucceeds(g, g[k], follow, depth - 1, s, i, fuel - 1);
    case TGrammar(rs) => HeadFailSucceeds(rs, rs[0], follow, depth, s, i, fuel);
  }

  /** A headfail pattern never accepts the empty input, whatever follows it. */
  lemma {:induction false} HeadFailNotEmpty(g: Rules, t: Tree, follow: set<Byte>, depth: nat)
    requires HeadFail(g, t, depth)
    ensures !GetFirst(g, t, follow, depth).e
    decreases depth, t
  {
    match t
    case TChar(_) => case TSet(_) => case TAny => case TFalse =>
    case TSeq(p1, p2) =>
      HeadFailNotEmpty(g, p1, FULL, depth);
      HeadFailNotEmpty(g, p1, GetFirst(g, p2, follow, depth).cs, depth);
    case TChoice(p1, p2) =>
      HeadFailNotEmpty(g, p1, follow, depth);
      HeadFailNotEmpty(g, p2, follow, depth);
    case TAnd(p) => HeadFailNotEmpty(g, p, follow, depth);
    case TCapture(_, p) => HeadFailNotEmpty(g, p, follow, depth);
    case TCall(k) => HeadFailNotEmpty(g, g[k], follow, depth - 1);
    case TGrammar(rs) => HeadFailNotEmpty(rs, rs[0], follow, depth);
  }

  /** A headfail pattern fails exactly when the next byte is absent or outside its first set. */
  lemma HeadFailExact(g: Rules, t: Tree, depth: nat, s: Input, i: nat, fuel: nat)
    requires i <= |s| && HeadFail(g, t, depth) && Eval(g, t, s, i, fuel).Some?
    ensures Eval(g, t, s, i, fuel).value.Fail? <==> (i == |s| || s[i] !in GetFirst(g, t, FULL, depth).cs)
  {
    if i == |s| {
      HeadFailNotEmpty(g, t, FULL, depth);
      FirstFailsAtEnd(g, t, FULL, depth, s, fuel);
    } else if s[i] in GetFirst(g, t, FULL, depth).cs {
      HeadFailSucceeds(g, t, FULL, depth, s, i, fuel);
    } else if Eval(g, t, s, i, fuel).value.Ok? {
      FirstSound(g, t, FULL, depth, s, i, fuel);
    }
  }

  /** When the first set guards the pattern, a success needs a next byte inside the set. */
  lemma GuardedNeedsFirst(g: Rules, t: Tree, depth: nat, s: Input, i: nat, fuel: nat)
    requires i <= |s| && !GetFirst(g, t, FULL, depth).e
    requires Eval(g, t, s, i, fuel).Some? && Eval(g, t, s, i, fuel).value.Ok?
    ensures i < |s| && s[i] in GetFirst(g, t, FULL, depth).cs
  {
    if i == |s| {
      FirstFailsAtEnd(g, t, FULL, depth, s, fuel);
    } else if s[i] !in GetFirst(g, t, FULL, depth).cs {
      FirstSound(g, t, FULL, depth, s, i, fuel);
    }
  }

  // ---------- how cautious the checks are ----------

  /** The pattern without what looks ahead or behind: taken to hold, or with `nofail` to fail. */
  function Sightless(t: Tree, nofail: bool): Tree {
    match t
    case TNot(_) => if nofail then TFalse else TTrue
    case TBehind(_, _) => if nofail then TFalse else TTrue
    case TAnd(p) => if nofail then TAnd(Sightless(p, nofail)) else TTrue
    case TRep(p) => TRep(Sightless(p, nofail))
    case TCapture(key, p) => TCapture(key, Sightless(p, nofail))
    case TSeq(p1, p2) => TSeq(Sightless(p1, nofail), Sightless(p2, nofail))
    case TChoice(p1, p2) => TChoice(Sightless(p1, nofail), Sightless(p2, nofail))
    case TGrammar(rs) => TGrammar(seq(|rs|, i requires 0 <= i < |rs| => Sightless(rs[i], nofail)))
    case _ => t
  }

  function SightlessRules(g: Rules, nofail: bool): Rules {
    seq(|g|, i requires 0 <= i < |g| => Sightless(g[i], nofail))
  }

  /** A pattern is nullable, or nofail, exactly if it matches the empty input once it no longer looks around. */
  lemma {:induction false} CheckAuxIff(g: Rules, t: Tree, nofail: bool, fuel: nat, depth: nat)
    requires fuel <= depth && Eval(SightlessRules(g, nofail), Sightless(t, nofail), [], 0, fuel).Some?
    ensures CheckAux(g, t, nofail, depth) <==>
            Eval(SightlessRules(g, nofail), Sightless(t, nofail), [], 0, fuel).value.Ok?
    decreases fuel, t
  {
    var g', t' := SightlessRules(g, nofail), Sightless(t, nofail);
    match t
    case TCapture(_, p) => CheckAuxIff(g, p, nofail, fuel, depth);
    case TAnd(p) => if nofail { CheckAuxIff(g, p, nofail, fuel, depth); }
    case TSeq(p1, p2) =>
      CheckAuxIff(g, p1, nofail, fuel, depth);
      if Eval(g', t'.p1, [], 0, fuel).value.Ok? { CheckAuxIff(g, p2, nofail, fuel, depth); }
    case TChoice(p1, p2) =>
      CheckAuxIff(g, p1, nofail, fuel, depth);
      if Eval(g', t'.p1, [], 0, fuel).value.Fail? { CheckAuxIff(g, p2, nofail, fuel, depth); }
    case TRep(_) => NoFailSucceeds(g', t', [], 0, fuel, 0);
    case TCall(k) => CheckAuxIff(g, g[k], nofail, fuel - 1, depth - 1);
    case TGrammar(rs) =>
      assert t'.rules == SightlessRules(rs, nofail);
      CheckAuxIff(rs, rs[0], nofail, fuel, depth);
    case _ =>
  }

  /** With look-ahead it may be nullable and yet never match. */
  lemma NullableNeverMatches(s: Input, i: nat, fuel: nat, depth: nat)
    requires i <= |s|
    ensures Nullable([], TNot(TTrue), depth) && Eval([], TNot(TTrue), s, i, fuel) == Some(Fail)
  {
    assert Eval([], TTrue, s, i, fuel) == Some(Ok(i, []));
  }
}
