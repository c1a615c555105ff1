/** Rotating sequences and choices keeps their meaning. */
module Associativity {
  import opened Peg

  function FirstSibling(t: Tree): Tree {
    match t
    case TSeq(p, _) => p
    case TChoice(p, _) => p
    case _ => t
  }

  /** Op (Op a b) c becomes Op a (Op b c), until the first sibling is something else. */
  function Rotated(t: Tree): (r: Tree)
    decreases FirstSibling(t)
  {
    match t
    case TSeq(TSeq(a, b), c) => Rotated(TSeq(a, TSeq(b, c)))
    case TChoice(TChoice(a, b), c) => Rotated(TChoice(a, TChoice(b, c)))
    case _ => t
  }

  lemma {:induction false} RotatedKeepsMeaning(g: Rules, t: Tree, s: Input, i: nat, fuel: nat)
    requires i <= |s|
    ensures Eval(g, Rotated(t), s, i, fuel) == Eval(g, t, s, i, fuel)
    decreases FirstSibling(t)
  {
    match t
    case TSeq(TSeq(a, b), c) =>
      RotatedKeepsMeaning(g, TSeq(a, TSeq(b, c)), s, i, fuel);
      SeqAssociative(g, a, b, c, s, i, fuel);
    case TChoice(TChoice(a, b), c) =>
      RotatedKeepsMeaning(g, TChoice(a, TChoice(b, c)), s, i, fuel);
      ChoiceAssociative(g, a, b, c, s, i, fuel);
    case _ =>
  }

  lemma SeqAssociative(g: Rules, a: Tree, b: Tree, c: Tree, s: Input, i: nat, fuel: nat)
    requires i <= |s|
    ensures Eval(g, TSeq(TSeq(a, b), c), s, i, fuel) == Eval(g, TSeq(a, TSeq(b, c)), s, i, fuel)
  {
    var ra := Eval(g, a, s, i, fuel);
    if ra.Some? && ra.value.Ok? {
      var rb := Eval(g, b, s, ra.value.end, fuel);
      assert Eval(g, TSeq(b, c), s, ra.value.end, fuel) ==
             Then(rb, if rb.Some? && rb.value.Ok? then Eval(g, c, s, rb.value.end, fuel) else None);
      if rb.Some? && rb.value.Ok? {
        var rc := Eval(g, c, s, rb.value.end, fuel);
        if rc.Some? && rc.value.Ok? {
          assert ra.value.caps + rb.value.caps + rc.value.caps == ra.value.caps + (rb.value.caps + rc.value.caps);
        }
      }
    }
  }

  /** The result of a first part, and of a second that only counts when the first succeeds. */
  function Then(r: Option<Result>, next: Option<Result>): Option<Result> {
    match r
    case Some(Ok(j, c1)) =>
      (match next
       case Some(Ok(k, c2)) => Some(Ok(k, c1 + c2))
       case other => other)
    case other => other
  }

  lemma ChoiceEval(g: Rules, p: Tree, q: Tree, s: Input, i: nat, fuel: nat)
    requires i <= |s|
    ensures var r := Eval(g, p, s, i, fuel);
            Eval(g, TChoice(p, q), s, i, fuel) == if r == Some(Fail) then Eval(g, q, s, i, fuel) else r
  {
  }

  lemma ChoiceAssociative(g: Rules, a: Tree, b: Tree, c: Tree, s: Input, i: nat, fuel: nat)
    requires i <= |s|
    ensures Eval(g, TChoice(TChoice(a, b), c), s, i, fuel) == Eval(g, TChoice(a, TChoice(b, c)), s, i, fuel)
  {
    hide Eval;
    ChoiceEval(g, a, b, s, i, fuel);
    ChoiceEval(g, b, c, s, i, fuel);
    ChoiceEval(g, TChoice(a, b), c, s, i, fuel);
    ChoiceEval(g, a, TChoice(b, c), s, i, fuel);
  }

  /** The number of nodes outside sub-grammars. */
  function Nodes(t: Tree): nat {
    match t
    case TSeq(p, q) => 1 + Nodes(p) + Nodes(q)
    case TChoice(p, q) => 1 + Nodes(p) + Nodes(q)
    case TRep(p) => 1 + Nodes(p)
    case TNot(p) => 1 + Nodes(p)
    case TAnd(p) => 1 + Nodes(p)
    case TBehind(_, p) => 1 + Nodes(p)
    case TCapture(_, p) => 1 + Nodes(p)
    case _ => 1
  }

  lemma {:induction false} RotatedNodes(t: Tree)
    ensures Nodes(Rotated(t)) == Nodes(t)
    decreases FirstSibling(t)
  {
    match t
    case TSeq(TSeq(a, b), c) => RotatedNodes(TSeq(a, TSeq(b, c)));
    case TChoice(TChoice(a, b), c) => RotatedNodes(TChoice(a, TChoice(b, c)));
    case _ =>
  }

  /** Every sequence and choice rotated, from the top down; a sub-grammar was finished before. */
  function RightNested(t: Tree): Tree
    decreases Nodes(t), 1
  {
    RotatedNodes(t);
    NestedSiblings(Rotated(t))
  }

  function NestedSiblings(t: Tree): Tree
    decreases Nodes(t), 0
  {
    match t
    case TSeq(p, q) => TSeq(RightNested(p), RightNested(q))
    case TChoice(p, q) => TChoice(RightNested(p), RightNested(q))
    case TRep(p) => TRep(RightNested(p))
    case TNot(p) => TNot(RightNested(p))
    case TAnd(p) => TAnd(RightNested(p))
    case TBehind(n, p) => TBehind(n, RightNested(p))
    case TCapture(key, p) => TCapture(key, RightNested(p))
    case other => other
  }

  function RightNestedRules(g: Rules): (r: Rules)
    ensures |r| == |g| && forall k :: 0 <= k < |g| ==> r[k] == RightNested(g[k])
  {
    seq(|g|, k requires 0 <= k < |g| => RightNested(g[k]))
  }

  /** The finished rules and trees mean what the unfinished ones mean. */
  lemma {:induction false} RightNestedKeepsMeaning(g: Rules, t: Tree, s: Input, i: nat, fuel: nat)
    requires i <= |s|
    ensures Eval(RightNestedRules(g), RightNested(t), s, i, fuel) == Eval(g, t, s, i, fuel)
    decreases fuel, Nodes(t), 1
  {
    RotatedKeepsMeaning(g, t, s, i, fuel);
    RotatedNodes(t);
    SiblingsKeepMeaning(g, Rotated(t), s, i, fuel);
  }

  lemma {:induction false} SiblingsKeepMeaning(g: Rules, t: Tree, s: Input, i: nat, fuel: nat)
    requires i <= |s|
    ensures Eval(RightNestedRules(g), NestedSiblings(t), s, i, fuel) == Eval(g, t, s, i, fuel)
    decreases fuel, Nodes(t), 0
  {
    match t
    case TSeq(p, q) =>
      RightNestedKeepsMeaning(g, p, s, i, fuel);
      var r := Eval(g, p, s, i, fuel);
      if r.Some? && r.value.Ok? { RightNestedKeepsMeaning(g, q, s, r.value.end, fuel); }
    case TChoice(p, q) =>
      RightNestedKeepsMeaning(g, p, s, i, fuel);
      RightNestedKeepsMeaning(g, q, s, i, fuel);
    case TRep(p) =>
      RightNestedKeepsMeaning(g, p, s, i, fuel);
      var r := Eval(g, p, s, i, fuel);
      if fuel > 0 && r.Some? && r.value.Ok? { SiblingsKeepMeaning(g, t, s, r.value.end, fuel - 1); }
    case TNot(p) => RightNestedKeepsMeaning(g, p, s, i, fuel);
    case TAnd(p) => RightNestedKeepsMeaning(g, p, s, i, fuel);
    case TBehind(n, p) => if n <= i { RightNestedKeepsMeaning(g, p, s, i - n, fuel); }
    case TCapture(_, p) => RightNestedKeepsMeaning(g, p, s, i, fuel);
    case TCall(k) => if fuel > 0 && k < |g| { RightNestedKeepsMeaning(g, g[k], s, i, fuel - 1); }
    case _ =>
  }

  /** No sequence or choice has one of its own kind as its first sibling. */
  predicate IsRightNested(t: Tree) {
    match t
    case TSeq(p, q) => !p.TSeq? && IsRightNested(p) && IsRightNested(q)
    case TChoice(p, q) => !p.TChoice? && IsRightNested(p) && IsRightNested(q)
    case TRep(p) => IsRightNested(p)
    case TNot(p) => IsRightNested(p)
    case TAnd(p) => IsRightNested(p)
    case TBehind(_, p) => IsRightNested(p)
    case TCapture(_, p) => IsRightNested(p)
    case _ => true
  }

  lemma {:induction false} RightNestedIs(t: Tree)
    ensures IsRightNested(RightNested(t))
    ensures RightNested(t).TSeq? <==> t.TSeq?
    ensures RightNested(t).TChoice? <==> t.TChoice?
    decreases Nodes(t)
  {
    RotatedNodes(t);
    RotatedTop(t);
    assert RightNested(t) == NestedSiblings(Rotated(t));
    match Rotated(t)
    case TSeq(p, q) => RightNestedIs(p); RightNestedIs(q);
    case TChoice(p, q) => RightNestedIs(p); RightNestedIs(q);
    case TRep(p) => RightNestedIs(p);
    case TNot(p) => RightNestedIs(p);
    case TAnd(p) => RightNestedIs(p);
    case TBehind(_, p) => RightNestedIs(p);
    case TCapture(_, p) => RightNestedIs(p);
    case _ =>
  }

  lemma {:induction false} RotatedTop(t: Tree)
    ensures Rotated(t).TSeq? <==> t.TSeq?
    ensures Rotated(t).TChoice? <==> t.TChoice?
    ensures Rotated(t).TSeq? ==> !Rotated(t).p1.TSeq?
    ensures Rotated(t).TChoice? ==> !Rotated(t).p1.TChoice?
    ensures !t.TSeq? && !t.TChoice? ==> Rotated(t) == t
    decreases FirstSibling(t)
  {
    match t
    case TSeq(TSeq(a, b), c) => RotatedTop(TSeq(a, TSeq(b, c)));
    case TChoice(TChoice(a, b), c) => RotatedTop(TChoice(a, TChoice(b, c)));
    case _ =>
  }

  /** What stands at the ends of nested sequences and choices, from left to right. */
  function Leaves(t: Tree): seq<Tree> {
    match t
    case TSeq(p, q) => Leaves(p) + Leaves(q)
    case TChoice(p, q) => Leaves(p) + Leaves(q)
    case _ => [t]
  }

  lemma {:induction false} RotatedKeepsLeaves(t: Tree)
    ensures Leaves(Rotated(t)) == Leaves(t)
    decreases FirstSibling(t)
  {
    match t
    case TSeq(TSeq(a, b), c) =>
      RotatedKeepsLeaves(TSeq(a, TSeq(b, c)));
      assert Leaves(TSeq(a, b)) == Leaves(a) + Leaves(b) && Leaves(TSeq(b, c)) == Leaves(b) + Leaves(c);
      assert Leaves(a) + Leaves(b) + Leaves(c) == Leaves(a) + (Leaves(b) + Leaves(c));
    case TChoice(TChoice(a, b), c) =>
      RotatedKeepsLeaves(TChoice(a, TChoice(b, c)));
      assert Leaves(TChoice(a, b)) == Leaves(a) + Leaves(b) && Leaves(TChoice(b, c)) == Leaves(b) + Leaves(c);
      assert Leaves(a) + Leaves(b) + Leaves(c) == Leaves(a) + (Leaves(b) + Leaves(c));
    case _ =>
  }
}
