/** Repetition by copies, "at least n" and "at most n", and how it is laid out in the array. */
module Repetition {
  import opened Peg
  import Analysis
  import opened FlatTrees
  import opened Finishing

  // ---------- what the trees mean ----------

  function AtLeast(p: Tree, n: nat): Tree {
    if n == 0 then TRep(p) else TSeq(p, AtLeast(p, n - 1))
  }

  function AtMost(p: Tree, n: nat): Tree
    requires n >= 1
  {
    if n == 1 then TChoice(p, TTrue) else TChoice(TSeq(p, AtMost(p, n - 1)), TTrue)
  }

  /** Exactly n matches of a pattern, one behind the other. */
  function Copies(g: Rules, p: Tree, s: Input, i: nat, n: nat, fuel: nat): (r: Option<Result>)
    requires i <= |s|
    ensures r.Some? && r.value.Ok? ==> i <= r.value.end <= |s|
    decreases n
  {
    if n == 0 then Some(Ok(i, []))
    else
      match Eval(g, p, s, i, fuel)
      case Some(Ok(j, c)) => Extended(c, Copies(g, p, s, j, n - 1, fuel))
      case other => other
  }

  /** Captures in front of those of a result. */
  function Extended(c: seq<CapTree>, r: Option<Result>): Option<Result> {
    match r
    case Some(Ok(k, more)) => Some(Ok(k, c + more))
    case other => other
  }

  /** At least n: the tree succeeds exactly if n matches in a row are possible, and then goes on as far as it can. */
  lemma {:induction false} AtLeastMeans(g: Rules, p: Tree, s: Input, i: nat, n: nat, fuel: nat)
    requires i <= |s|
    ensures var first, r := Copies(g, p, s, i, n, fuel), Eval(g, AtLeast(p, n), s, i, fuel);
            if first.Some? && first.value.Ok?
            then r == Extended(first.value.caps, Eval(g, TRep(p), s, first.value.end, fuel))
            else r == first
    decreases n
  {
    if n == 0 {
      NoneInFront(Eval(g, TRep(p), s, i, fuel));
    } else {
      var one := Eval(g, p, s, i, fuel);
      if one.Some? && one.value.Ok? {
        var j := one.value.end;
        AtLeastMeans(g, p, s, j, n - 1, fuel);
        var rest := Copies(g, p, s, j, n - 1, fuel);
        if rest.Some? && rest.value.Ok? {
          TwiceInFront(one.value.caps, rest.value.caps, Eval(g, TRep(p), s, rest.value.end, fuel));
        }
      }
    }
  }

  lemma NoneInFront(r: Option<Result>)
    ensures Extended([], r) == r
  {
    if r.Some? && r.value.Ok? { assert [] + r.value.caps == r.value.caps; }
  }

  lemma TwiceInFront(c1: seq<CapTree>, c2: seq<CapTree>, r: Option<Result>)
    ensures Extended(c1, Extended(c2, r)) == Extended(c1 + c2, r)
  {
    if r.Some? && r.value.Ok? { assert c1 + (c2 + r.value.caps) == c1 + c2 + r.value.caps; }
  }

  /** At most n: the tree never fails; it stops behind the first m matches, where m is n or no further match exists. */
  lemma {:induction false} AtMostMeans(g: Rules, p: Tree, s: Input, i: nat, n: nat, fuel: nat) returns (m: nat)
    requires i <= |s| && n >= 1 && Eval(g, AtMost(p, n), s, i, fuel).Some?
    ensures Eval(g, AtMost(p, n), s, i, fuel).value.Ok?
    ensures m <= n && Copies(g, p, s, i, m, fuel) == Eval(g, AtMost(p, n), s, i, fuel)
    ensures m == n || Eval(g, p, s, Eval(g, AtMost(p, n), s, i, fuel).value.end, fuel) == Some(Fail)
    decreases n
  {
    var one := Eval(g, p, s, i, fuel);
    if one == Some(Fail) { return 0; }
    var j := one.value.end;
    if n == 1 {
      assert Copies(g, p, s, j, 0, fuel) == Some(Ok(j, [])) && one.value.caps + [] == one.value.caps;
      return 1;
    }
    assert Eval(g, TSeq(p, AtMost(p, n - 1)), s, i, fuel) ==
           Extended(one.value.caps, Eval(g, AtMost(p, n - 1), s, j, fuel));
    m := AtMostMeans(g, p, s, j, n - 1, fuel);
    m := m + 1;
  }

  // ---------- how they are laid out ----------

  function Bare(tag: Tag): Header { Header(tag, 0, 0, 0) }

  /** n copies in sequence in front of a tree. */
  function InFront(t: Shape, n: nat, last: Shape): Shape {
    if n == 0 then last else Binary(Bare(SeqTag), t, InFront(t, n - 1, last))
  }

  function AtLeastShape(t: Shape, n: nat): Shape {
    InFront(t, n, Unary(Bare(RepTag), t))
  }

  function AtMostShape(t: Shape, n: nat): Shape
    requires n >= 1
  {
    var rest := if n == 1 then t else Binary(Bare(SeqTag), t, AtMostShape(t, n - 1));
    Binary(Bare(ChoiceTag), rest, Leaf(Bare(TrueTag)))
  }

  lemma {:induction false} AtLeastSize(t: Shape, n: nat)
    ensures Size(AtLeastShape(t, n)) == (n + 1) * (Size(t) + 1)
    decreases n
  {
    if n > 0 {
      AtLeastSize(t, n - 1);
      OneMore(n, Size(t) + 1);
    }
  }

  lemma OneMore(n: nat, w: nat)
    ensures (n + 1) * w == n * w + w
  {
  }

  lemma {:induction false} AtMostSize(t: Shape, n: nat)
    requires n >= 1
    ensures Size(AtMostShape(t, n)) == n * (Size(t) + 3) - 1
    decreases n
  {
    if n > 1 {
      AtMostSize(t, n - 1);
      OneMore(n - 1, Size(t) + 3);
    }
  }

  /** Writes a node in front of a copy of a tree; the position behind it is that of the second sibling. */
  method SeqAux(a: array<Slot>, tree: nat, sib: seq<Slot>, ghost t: Shape) returns (second: nat)
    requires Stands(sib, 0, t) && |sib| == Size(t) && tree + 1 + |sib| <= a.Length
    modifies a
    ensures second == tree + 1 + |sib|
    ensures IsNode(a[tree], SeqTag, |sib| + 1) && Stands(a[..], tree + 1, t)
    ensures forall k :: 0 <= k < tree || second <= k < a.Length ==> a[k] == old(a[k])
  {
    a[tree] := Retagged(a[tree], SeqTag, |sib| + 1);
    CopySlots(a, tree + 1, sib, t);
    second := tree + |sib| + 1;
  }

  method CopySlots(a: array<Slot>, i: nat, sib: seq<Slot>, ghost t: Shape)
    requires Stands(sib, 0, t) && |sib| == Size(t) && i + |sib| <= a.Length
    modifies a
    ensures Stands(a[..], i, t)
    ensures forall k :: 0 <= k < i || i + |sib| <= k < a.Length ==> a[k] == old(a[k])
  {
    var j := 0;
    while j < |sib|
      invariant j <= |sib|
      invariant a[i..i + j] == sib[..j]
      invariant forall k :: 0 <= k < i || i + j <= k < a.Length ==> a[k] == old(a[k])
    {
      a[i + j] := sib[j];
      j := j + 1;
      assert a[i..i + j] == a[i..i + j - 1] + [sib[j - 1]];
    }
    assert a[..][i..i + |sib|] == a[i..i + |sib|] == sib == sib[0..|sib|];
    StandsMoved(sib, a[..], 0, i, t);
  }

  /** k copies, each behind a sequence node, stand between p and e. */
  ghost predicate Chain(a: seq<Slot>, p: nat, e: nat, t: Shape, k: nat)
    decreases k
  {
    if k == 0 then p == e <= |a|
    else
      p + 1 + Size(t) <= e <= |a| && IsNode(a[p], SeqTag, Size(t) + 1) && Stands(a, p + 1, t) &&
      Chain(a, p + 1 + Size(t), e, t, k - 1)
  }

  lemma {:induction false} ChainGrows(a: seq<Slot>, a': seq<Slot>, p: nat, e: nat, t: Shape, k: nat)
    requires Chain(a, p, e, t, k) && |a'| == |a| && e + 1 + Size(t) <= |a|
    requires forall x :: 0 <= x < e ==> a'[x] == a[x]
    requires IsNode(a'[e], SeqTag, Size(t) + 1) && Stands(a', e + 1, t)
    ensures Chain(a', p, e + 1 + Size(t), t, k + 1)
    decreases k
  {
    if k > 0 {
      ChainStarts(a, p, e, t, k);
      StandsStill(a, a', p + 1, t);
      ChainGrows(a, a', p + 1 + Size(t), e, t, k - 1);
    }
  }

  lemma {:induction false} ChainStarts(a: seq<Slot>, p: nat, e: nat, t: Shape, k: nat)
    requires Chain(a, p, e, t, k)
    ensures p <= e
    decreases k
  {
    if k > 0 { ChainStarts(a, p + 1 + Size(t), e, t, k - 1); }
  }

  lemma {:induction false} ChainStands(a: seq<Slot>, p: nat, e: nat, t: Shape, k: nat, last: Shape)
    requires Chain(a, p, e, t, k) && Stands(a, e, last)
    ensures Stands(a, p, InFront(t, k, last))
    decreases k
  {
    if k > 0 {
      ChainStands(a, p + 1 + Size(t), e, t, k - 1, last);
      StandsJoined(a, p, Bare(SeqTag), t, InFront(t, k - 1, last), p + 1 + Size(t));
    }
  }

  /** `p^n`, for n copies or more. */
  method StarAtLeast(n0: nat, tree1: seq<Slot>, ghost t: Shape) returns (a: array<Slot>)
    requires Stands(tree1, 0, t) && |tree1| == Size(t)
    ensures fresh(a) && a.Length == (n0 + 1) * (|tree1| + 1) && Stands(a[..], 0, AtLeastShape(t, n0))
  {
    var size1, n := |tree1|, n0;
    AtLeastSize(t, n);
    a := new Slot[(n + 1) * (size1 + 1)](_ => Bits({}));
    FillAtLeast(a, n0, tree1, t);
  }

  method FillAtLeast(a: array<Slot>, n0: nat, tree1: seq<Slot>, ghost t: Shape)
    requires Stands(tree1, 0, t) && |tree1| == Size(t) && a.Length == Size(AtLeastShape(t, n0))
    modifies a
    ensures Stands(a[..], 0, AtLeastShape(t, n0))
  {
    var tree: nat, n := 0, n0;
    while n > 0
      invariant 0 <= n <= n0 && a.Length - tree == Size(AtLeastShape(t, n))
      invariant Chain(a[..], 0, tree, t, n0 - n)
    {
      ghost var was, e := a[..], tree;
      tree := SeqAux(a, tree, tree1, t);
      ChainGrows(was, a[..], 0, e, t, n0 - n);
      n := n - 1;
    }
    ghost var was, last := a[..], Unary(Bare(RepTag), t);
    a[tree] := Retagged(a[tree], RepTag, 0);
    CopySlots(a, tree + 1, tree1, t);
    ChainStill(was, a[..], 0, tree, t, n0);
    assert Stands(a[..], tree, last);
    ChainStands(a[..], 0, tree, t, n0, last);
  }

  lemma {:induction false} ChainStill(a: seq<Slot>, a': seq<Slot>, p: nat, e: nat, t: Shape, k: nat)
    requires Chain(a, p, e, t, k) && |a'| == |a|
    requires forall x :: 0 <= x < e ==> a'[x] == a[x]
    ensures Chain(a', p, e, t, k)
    decreases k
  {
    if k > 0 {
      StandsStill(a, a', p + 1, t);
      ChainStill(a, a', p + 1 + Size(t), e, t, k - 1);
    }
  }

  /** k optional copies stand between p and e, of n in all: before each a choice and a sequence node, and behind
      everything inside it an empty pattern. */
  ghost predicate OptChain(a: seq<Slot>, p: nat, e: nat, t: Shape, k: nat, n: nat)
    requires k < n
    decreases k
  {
    p + Size(AtMostShape(t, n)) <= |a| &&
    if k == 0 then p == e
    else
      var all, inner := Size(AtMostShape(t, n)), p + 2 + Size(t);
      IsNode(a[p], ChoiceTag, all - 1) && IsNode(a[p + 1], SeqTag, Size(t) + 1) && Stands(a, p + 2, t) &&
      Holds(a[p + all - 1], Bare(TrueTag)) && inner <= e && OptChain(a, inner, e, t, k - 1, n - 1)
  }

  lemma OptChainStarts(a: seq<Slot>, p: nat, t: Shape, n: nat)
    requires n >= 1 && p + Size(AtMostShape(t, n)) <= |a|
    ensures OptChain(a, p, p, t, 0, n)
  {
  }

  /** The outermost copy of a chain. */
  ghost predicate OptHead(a: seq<Slot>, p: nat, t: Shape, n: nat)
    requires n >= 1
  {
    var all := Size(AtMostShape(t, n));
    p + all <= |a| && p + 2 <= |a| &&
    IsNode(a[p], ChoiceTag, all - 1) && IsNode(a[p + 1], SeqTag, Size(t) + 1) && Stands(a, p + 2, t) &&
    Holds(a[p + all - 1], Bare(TrueTag))
  }

  lemma OptChainSplit(a: seq<Slot>, p: nat, e: nat, t: Shape, k: nat, n: nat)
    requires 0 < k < n
    ensures OptChain(a, p, e, t, k, n) <==>
            OptHead(a, p, t, n) && p + 2 + Size(t) <= e && OptChain(a, p + 2 + Size(t), e, t, k - 1, n - 1)
  {
  }

  lemma {:induction false} OptChainEnds(a: seq<Slot>, p: nat, e: nat, t: Shape, k: nat, n: nat)
    requires k < n && OptChain(a, p, e, t, k, n)
    ensures p <= e && e + Size(AtMostShape(t, n - k)) <= p + Size(AtMostShape(t, n)) <= |a|
    decreases k
  {
    if k > 0 { OptChainEnds(a, p + 2 + Size(t), e, t, k - 1, n - 1); }
  }

  /** Another copy, in the free part between e and f. */
  lemma {:induction false} OptChainGrows(a: seq<Slot>, a': seq<Slot>, p: nat, e: nat, f: nat, t: Shape, k: nat, n: nat)
    requires k + 1 < n && OptChain(a, p, e, t, k, n) && |a'| == |a| && f == e + Size(AtMostShape(t, n - k)) <= |a|
    requires forall x :: 0 <= x < e || f <= x < |a| ==> a'[x] == a[x]
    requires IsNode(a'[e], ChoiceTag, f - e - 1) && IsNode(a'[e + 1], SeqTag, Size(t) + 1) && Stands(a', e + 2, t)
    requires Holds(a'[f - 1], Bare(TrueTag))
    ensures OptChain(a', p, e + 2 + Size(t), t, k + 1, n)
    decreases k
  {
    hide OptChain;
    var inner := p + 2 + Size(t);
    if k == 0 {
      OptChainHere(a, p, e, t, n);
      InnerFits(t, n);
      OptChainStarts(a', inner, t, n - 1);
    } else {
      OptChainSplit(a, p, e, t, k, n);
      OptChainEnds(a, inner, e, t, k - 1, n - 1);
      InnerFits(t, n);
      StandsStill(a, a', p + 2, t);
      OptChainGrows(a, a', inner, e, f, t, k - 1, n - 1);
    }
    OptChainSplit(a', p, e + 2 + Size(t), t, k + 1, n);
  }

  lemma OptChainHere(a: seq<Slot>, p: nat, e: nat, t: Shape, n: nat)
    requires n >= 1 && OptChain(a, p, e, t, 0, n)
    ensures p == e && p + Size(AtMostShape(t, n)) <= |a|
  {
  }

  /** The inner tree of all optional copies but one, in front of the empty pattern. */
  lemma InnerFits(t: Shape, n: nat)
    requires n > 1
    ensures Size(AtMostShape(t, n)) == 2 + Size(t) + Size(AtMostShape(t, n - 1)) + 1
  {
  }

  lemma {:induction false} OptChainStands(a: seq<Slot>, p: nat, e: nat, t: Shape, k: nat, n: nat)
    requires k < n && OptChain(a, p, e, t, k, n) && Stands(a, e, AtMostShape(t, n - k))
    ensures Stands(a, p, AtMostShape(t, n))
    decreases k
  {
    if k > 0 {
      var inner, rest := p + 2 + Size(t), AtMostShape(t, n - 1);
      OptChainStands(a, inner, e, t, k - 1, n - 1);
      StandsJoined(a, p + 1, Bare(SeqTag), t, rest, inner);
      StandsJoined(a, p, Bare(ChoiceTag), Binary(Bare(SeqTag), t, rest), Leaf(Bare(TrueTag)),
                   p + Size(AtMostShape(t, n)) - 1);
    }
  }

  /** `p^-n`, for n copies or fewer. */
  method StarAtMost(n0: nat, tree1: seq<Slot>, ghost t: Shape) returns (a: array<Slot>)
    requires n0 >= 1 && Stands(tree1, 0, t) && |tree1| == Size(t)
    ensures fresh(a) && a.Length == n0 * (|tree1| + 3) - 1 && Stands(a[..], 0, AtMostShape(t, n0))
  {
    var size1, n := |tree1|, n0;
    AtMostSize(t, n);
    a := new Slot[n * (size1 + 3) - 1](_ => Bits({}));
    FillAtMost(a, n0, tree1, t);
  }

  method FillAtMost(a: array<Slot>, n0: nat, tree1: seq<Slot>, ghost t: Shape)
    requires n0 >= 1 && Stands(tree1, 0, t) && |tree1| == Size(t) && a.Length == Size(AtMostShape(t, n0))
    modifies a
    ensures Stands(a[..], 0, AtMostShape(t, n0))
  {
    hide Stands, OptChain;
    var tree: nat, n, size1 := 0, n0, |tree1|;
    OptChainStarts(a[..], 0, t, n0);
    while n > 1
      invariant 1 <= n <= n0 && tree + Size(AtMostShape(t, n)) <= a.Length
      invariant OptChain(a[..], 0, tree, t, n0 - n, n0)
    {
      ghost var was, e, f := a[..], tree, tree + Size(AtMostShape(t, n));
      AtMostSize(t, n);
      tree := OneOptional(a, tree, n * (size1 + 3) - 2, tree1, t);
      OptChainGrows(was, a[..], 0, e, f, t, n0 - n, n0);
      n := n - 1;
    }
    LastOptional(a, tree, n0, tree1, t);
    OptChainStands(a[..], 0, tree, t, n0 - 1, n0);
  }

  /** The innermost choice has no sequence. */
  method LastOptional(a: array<Slot>, tree: nat, ghost n0: nat, tree1: seq<Slot>, ghost t: Shape)
    requires n0 >= 1 && Stands(tree1, 0, t) && |tree1| == Size(t)
    requires OptChain(a[..], 0, tree, t, n0 - 1, n0) && tree + |tree1| + 2 <= a.Length
    modifies a
    ensures OptChain(a[..], 0, tree, t, n0 - 1, n0) && Stands(a[..], tree, AtMostShape(t, 1))
  {
    ghost var was, size1 := a[..], |tree1|;
    a[tree] := Retagged(a[tree], ChoiceTag, |tree1| + 1);
    a[tree + |tree1| + 1] := Retagged(a[tree + |tree1| + 1], TrueTag, 0);
    CopySlots(a, tree + 1, tree1, t);
    OptChainStill(was, a[..], 0, tree, tree + size1 + 2, t, n0 - 1, n0);
    StandsJoined(a[..], tree, Bare(ChoiceTag), t, Leaf(Bare(TrueTag)), tree + size1 + 1);
  }

  /** A choice between one more copy and nothing; the position of what follows the copy. */
  method OneOptional(a: array<Slot>, tree: nat, ps: nat, tree1: seq<Slot>, ghost t: Shape) returns (inner: nat)
    requires Stands(tree1, 0, t) && |tree1| == Size(t) && 2 + |tree1| <= ps && tree + ps < a.Length
    modifies a
    ensures inner == tree + 2 + |tree1|
    ensures IsNode(a[tree], ChoiceTag, ps) && IsNode(a[tree + 1], SeqTag, |tree1| + 1) && Stands(a[..], tree + 2, t)
    ensures Holds(a[tree + ps], Bare(TrueTag))
    ensures forall k :: 0 <= k < tree || tree + ps < k < a.Length ==> a[k] == old(a[k])
  {
    a[tree] := Retagged(a[tree], ChoiceTag, ps);
    a[tree + ps] := Retagged(a[tree + ps], TrueTag, 0);
    inner := SeqAux(a, tree + 1, tree1, t);
  }

  lemma {:induction false} OptChainStill(a: seq<Slot>, a': seq<Slot>, p: nat, e: nat, f: nat, t: Shape, k: nat, n: nat)
    requires k < n && OptChain(a, p, e, t, k, n) && |a'| == |a| && f == e + Size(AtMostShape(t, n - k)) <= |a|
    requires forall x :: 0 <= x < e || f <= x < |a| ==> a'[x] == a[x]
    ensures OptChain(a', p, e, t, k, n)
    decreases k
  {
    if k > 0 {
      OptChainEnds(a, p, e, t, k, n);
      OptChainEnds(a, p + 2 + Size(t), e, t, k - 1, n - 1);
      StandsStill(a, a', p + 2, t);
      OptChainStill(a, a', p + 2 + Size(t), e, f, t, k - 1, n - 1);
    }
  }

  // ---------- whether the body may be empty ----------

  /** The grammar around a tree: where it stands and the chain of its rules. */
  datatype Place = Outside | Inside(pos: nat, chain: Shape)

  function Origin(x: Place): nat { if x.Inside? then x.pos else 0 }

  function PositionsIn(x: Place): seq<int> { if x.Inside? then RulePositions(x.chain, 1) else [] }

  function EnvOf(x: Place): Env { Env(PositionsIn(x), map[]) }

  function RulesOf(x: Place, kt: seq<Name>): Rules {
    if x.Inside? then DenoteRules(x.chain, 1, EnvOf(x), kt) else []
  }

  /** What the constructors build: finished calls lead to rules of the grammar around them, rules stand in grammars, and
      constant captures are over the empty pattern. */
  predicate Built(t: Shape, rel: int, positions: seq<int>)
    decreases t, 0
  {
    match t
    case Leaf(n) => n.tag == CallTag ==> rel + n.u in positions
    case SetLeaf(_, _) => true
    case Unary(n, sub) =>
      if n.tag == GrammarTag then sub.Binary? && BuiltRules(sub, 1, RulePositions(sub, 1))
      else Built(sub, rel + 1, positions) && (n.tag == CaptureTag && n.cap == ROSIE_CONST ==> sub.n.tag == TrueTag)
    case Binary(n, left, right) =>
      n.tag != RuleTag && Built(left, rel + 1, positions) && Built(right, rel + 1 + Size(left), positions)
  }

  predicate BuiltRules(chain: Shape, rel: int, positions: seq<int>)
    decreases chain, 1
  {
    chain.Binary? ==>
      chain.n.tag == RuleTag && Built(chain.left, rel + 1, positions) &&
      BuiltRules(chain.right, rel + 1 + Size(chain.left), positions)
  }

  ghost predicate PlaceOk(a: seq<Slot>, x: Place) {
    x.Inside? ==>
      Stands(a, x.pos + 1, x.chain) && TagsOk(x.chain) && BuiltRules(x.chain, 1, RulePositions(x.chain, 1))
  }

  ghost predicate TreeAt(a: seq<Slot>, i: nat, t: Shape, x: Place) {
    Stands(a, i, t) && TagsOk(t) && Built(t, i - Origin(x), PositionsIn(x)) && PlaceOk(a, x)
  }

  /** The first rule of a chain, and the others. */
  lemma ChainParts(a: seq<Slot>, chain: Shape, rel: nat, x: Place)
    requires x.Inside? && Stands(a, x.pos + rel, chain) && TagsOk(chain) && chain.Binary?
    requires BuiltRules(chain, rel, PositionsIn(x)) && PlaceOk(a, x)
    ensures var next := rel + 1 + Size(chain.left);
            TreeAt(a, x.pos + rel + 1, chain.left, x) && Stands(a, x.pos + next, chain.right) &&
            TagsOk(chain.right) && BuiltRules(chain.right, next, PositionsIn(x))
  {
    assert Built(chain.left, rel + 1, PositionsIn(x));
  }

  lemma NotEmpty(chain: Shape, rel: int, p: int)
    requires p in RulePositions(chain, rel)
    ensures chain.Binary?
  {
  }

  lemma ChainUnrolled(chain: Shape, rel: int, env: Env, kt: seq<Name>)
    requires chain.Binary?
    ensures var next := rel + 1 + Size(chain.left);
            RulePositions(chain, rel) == [rel] + RulePositions(chain.right, next) &&
            DenoteRules(chain, rel, env, kt) ==
            [Denote(chain.left, rel + 1, env, kt)] + DenoteRules(chain.right, next, env, kt)
  {
  }

  /** The body of the rule at a position. */
  lemma {:induction false} BodyAt(a: seq<Slot>, chain: Shape, rel: nat, p: int, x: Place, kt: seq<Name>)
    returns (body: Shape)
    requires x.Inside? && Stands(a, x.pos + rel, chain) && TagsOk(chain) && p in RulePositions(chain, rel)
    requires BuiltRules(chain, rel, PositionsIn(x)) && PlaceOk(a, x)
    ensures p >= 0 && TreeAt(a, x.pos + p + 1, body, x)
    ensures var k := RuleNumber(RulePositions(chain, rel), p);
            k < |DenoteRules(chain, rel, EnvOf(x), kt)| &&
            DenoteRules(chain, rel, EnvOf(x), kt)[k] == Denote(body, p + 1, EnvOf(x), kt)
    decreases chain
  {
    hide Stands, TagsOk, BuiltRules, Built, Denote, DenoteRules, RulePositions, TreeAt, PlaceOk, EnvOf, PositionsIn;
    NotEmpty(chain, rel, p);
    ChainParts(a, chain, rel, x);
    ChainUnrolled(chain, rel, EnvOf(x), kt);
    if p == rel {
      body := chain.left;
    } else {
      body := BodyAt(a, chain.right, rel + 1 + Size(chain.left), p, x, kt);
    }
  }

  /** What the analysis says of the pattern of a tree at a place. */
  function Aux(t: Shape, i: nat, x: Place, kt: seq<Name>, nofail: bool, depth: nat): bool {
    Analysis.CheckAux(RulesOf(x, kt), Denote(t, i - Origin(x), EnvOf(x), kt), nofail, depth)
  }

  lemma AuxLeaf(t: Shape, i: nat, x: Place, kt: seq<Name>, nofail: bool, depth: nat)
    requires (t.Leaf? || t.SetLeaf?) && TagsOk(t) && t.n.tag != CallTag
    ensures Aux(t, i, x, kt, nofail, depth) == (t.n.tag == TrueTag)
  {
  }

  lemma AuxUnary(t: Shape, i: nat, x: Place, kt: seq<Name>, nofail: bool, depth: nat)
    requires t.Unary? && t.n.tag != GrammarTag && TagsOk(t) && Built(t, i - Origin(x), PositionsIn(x))
    ensures var sub := Aux(t.sub, i + 1, x, kt, nofail, depth);
            Aux(t, i, x, kt, nofail, depth) ==
            if t.n.tag == RepTag then true
            else if t.n.tag == NotTag || t.n.tag == BehindTag then !nofail
            else if t.n.tag == AndTag then nofail ==> sub
            else sub
  {
    if t.n.tag == CaptureTag && t.n.cap == ROSIE_CONST { AuxLeaf(t.sub, i + 1, x, kt, nofail, depth); }
  }

  lemma AuxBinary(t: Shape, i: nat, x: Place, kt: seq<Name>, nofail: bool, depth: nat)
    requires t.Binary? && IsOp(t.n.tag)
    ensures var left, right := Aux(t.left, i + 1, x, kt, nofail, depth),
                               Aux(t.right, i + 1 + Size(t.left), x, kt, nofail, depth);
            Aux(t, i, x, kt, nofail, depth) == if t.n.tag == SeqTag then left && right else left || right
  {
  }

  /** The node in its slot, and its siblings as trees at the same place. */
  lemma NodeAt(a: seq<Slot>, i: nat, t: Shape, x: Place)
    requires TreeAt(a, i, t, x)
    ensures i < |a| && a[i].Used? && a[i].n.tag == t.n.tag
    ensures t.n.tag == CallTag ==> a[i].n.u == t.n.u
    ensures t.Binary? ==> a[i].n.u == Size(t.left) + 1
    ensures t.Unary? && t.n.tag != GrammarTag ==> TreeAt(a, i + 1, t.sub, x)
    ensures t.Binary? ==> IsOp(t.n.tag) && TreeAt(a, i + 1, t.left, x) && TreeAt(a, i + 1 + Size(t.left), t.right, x)
  {
  }

  /** Follows the tree in the array; `nofail` asks whether the pattern never fails, otherwise whether it may match the
      empty string.  Calls are followed `depth` deep. */
  method CheckAux(a: seq<Slot>, i: nat, nofail: bool, depth: nat, ghost t: Shape, ghost x: Place, ghost kt: seq<Name>)
    returns (r: bool)
    requires TreeAt(a, i, t, x)
    ensures r == Aux(t, i, x, kt, nofail, depth)
    decreases depth, t
  {
    hide Aux, Denote, Stands, Built, PlaceOk;
    NodeAt(a, i, t, x);
    match a[i].n.tag
    case CharTag | SetTag | AnyTag | FalseTag | OpenCallTag =>
      AuxLeaf(t, i, x, kt, nofail, depth);
      r := false;
    case TrueTag =>
      AuxLeaf(t, i, x, kt, nofail, depth);
      r := true;
    case RepTag =>
      AuxUnary(t, i, x, kt, nofail, depth);
      r := true;
    case NotTag | BehindTag =>
      AuxUnary(t, i, x, kt, nofail, depth);
      r := !nofail;
    case AndTag =>
      AuxUnary(t, i, x, kt, nofail, depth);
      if nofail { r := CheckAux(a, i + 1, nofail, depth, t.sub, x, kt); } else { r := true; }
    case CaptureTag =>
      AuxUnary(t, i, x, kt, nofail, depth);
      r := CheckAux(a, i + 1, nofail, depth, t.sub, x, kt);
    case SeqTag =>
      AuxBinary(t, i, x, kt, nofail, depth);
      r := CheckAux(a, i + 1, nofail, depth, t.left, x, kt);
      if r { r := CheckAux(a, i + a[i].n.u, nofail, depth, t.right, x, kt); }
    case ChoiceTag =>
      AuxBinary(t, i, x, kt, nofail, depth);
      r := CheckAux(a, i + a[i].n.u, nofail, depth, t.right, x, kt);
      if !r { r := CheckAux(a, i + 1, nofail, depth, t.left, x, kt); }
    case GrammarTag => r := CheckFirstRule(a, i, nofail, depth, t, x, kt);
    case CallTag => r := CheckCall(a, i, nofail, depth, t, x, kt);
    case RuleTag => assert false;
  }

  /** A grammar starts with its first rule. */
  method CheckFirstRule(
    a: seq<Slot>, i: nat, nofail: bool, depth: nat, ghost t: Shape, ghost x: Place, ghost kt: seq<Name>)
    returns (r: bool)
    requires TreeAt(a, i, t, x) && t.Unary? && t.n.tag == GrammarTag
    ensures r == Aux(t, i, x, kt, nofail, depth)
    decreases depth, t, 0
  {
    FirstRuleAt(a, i, t, x);
    r := CheckAux(a, i + 2, nofail, depth, t.sub.left, Inside(i, t.sub), kt);
    FirstRuleDenotes(i, t, x, kt, nofail, depth);
  }

  lemma FirstRuleAt(a: seq<Slot>, i: nat, t: Shape, x: Place)
    requires TreeAt(a, i, t, x) && t.Unary? && t.n.tag == GrammarTag
    ensures t.sub.Binary? && TreeAt(a, i + 2, t.sub.left, Inside(i, t.sub))
  {
    assert Stands(a, i + 1, t.sub) && TagsOk(t.sub) && BuiltRules(t.sub, 1, RulePositions(t.sub, 1));
    assert Stands(a, i + 2, t.sub.left) && Built(t.sub.left, 2, RulePositions(t.sub, 1));
  }

  lemma FirstRuleDenotes(i: nat, t: Shape, x: Place, kt: seq<Name>, nofail: bool, depth: nat)
    requires t.Unary? && t.n.tag == GrammarTag && t.sub.Binary?
    ensures Aux(t, i, x, kt, nofail, depth) == Aux(t.sub.left, i + 2, Inside(i, t.sub), kt, nofail, depth)
  {
    hide RulePositions;
    var inner := Inside(i, t.sub);
    var rs := RulesOf(inner, kt);
    assert Denote(t, i - Origin(x), EnvOf(x), kt) == TGrammar(rs);
    assert rs != [] && rs[0] == Denote(t.sub.left, 2, EnvOf(inner), kt);
  }

  /** A call leads to a rule, and from there to its body. */
  method CheckCall(
    a: seq<Slot>, i: nat, nofail: bool, depth: nat, ghost t: Shape, ghost x: Place, ghost kt: seq<Name>)
    returns (r: bool)
    requires TreeAt(a, i, t, x) && t.Leaf? && t.n.tag == CallTag && i < |a| && a[i].Used? && a[i].n.u == t.n.u
    ensures r == Aux(t, i, x, kt, nofail, depth)
    decreases depth, t, 0
  {
    hide Aux, TreeAt;
    AuxOfCall(t, i, x, kt, nofail, depth);
    if depth == 0 { return !nofail; }
    ghost var body := CalledBody(a, i, t, x, kt, nofail, depth);
    r := CheckAux(a, i + a[i].n.u + 1, nofail, depth - 1, body, x, kt);
  }

  lemma AuxOfCall(t: Shape, i: nat, x: Place, kt: seq<Name>, nofail: bool, depth: nat)
    requires t.Leaf? && t.n.tag == CallTag
    ensures var k, rs := RuleNumber(PositionsIn(x), i - Origin(x) + t.n.u), RulesOf(x, kt);
            Aux(t, i, x, kt, nofail, depth) ==
            if depth == 0 || k >= |rs| then !nofail else Analysis.CheckAux(rs, rs[k], nofail, depth - 1)
  {
  }

  lemma CalledBody(a: seq<Slot>, i: nat, t: Shape, x: Place, kt: seq<Name>, nofail: bool, depth: nat)
    returns (body: Shape)
    requires TreeAt(a, i, t, x) && t.Leaf? && t.n.tag == CallTag && depth > 0
    ensures i + t.n.u >= 0 && TreeAt(a, i + t.n.u + 1, body, x)
    ensures Aux(t, i, x, kt, nofail, depth) == Aux(body, i + t.n.u + 1, x, kt, nofail, depth - 1)
  {
    hide TreeAt, Denote, DenoteRules, RulePositions, Stands, TagsOk, BuiltRules, RuleNumber, EnvOf;
    var p := i - Origin(x) + t.n.u;
    CallPlace(a, i, t, x);
    body := BodyAt(a, x.chain, 1, p, x, kt);
    AuxOfCall(t, i, x, kt, nofail, depth);
  }

  lemma CallPlace(a: seq<Slot>, i: nat, t: Shape, x: Place)
    requires TreeAt(a, i, t, x) && t.Leaf? && t.n.tag == CallTag
    ensures x.Inside? && i - x.pos + t.n.u in RulePositions(x.chain, 1) && PlaceOk(a, x)
    ensures Stands(a, x.pos + 1, x.chain) && TagsOk(x.chain) && BuiltRules(x.chain, 1, PositionsIn(x))
  {
  }

  // ---------- the operator ----------

  /** The pattern that a tree outside grammars denotes. */
  function Pattern(t: Shape, kt: seq<Name>): Tree { Denote(t, 0, EnvOf(Outside), kt) }

  /** `p^n`: n copies or more, or for a negative n that many or fewer.  A loop must not have a body that may match the
      empty string. */
  method LpStar(n: int, tree1: seq<Slot>, depth: nat, ghost t: Shape, ghost kt: seq<Name>) returns (a: array?<Slot>)
    requires TreeAt(tree1, 0, t, Outside) && |tree1| == Size(t)
    ensures a == null <==> n >= 0 && Analysis.Nullable([], Pattern(t, kt), depth)
    ensures a != null ==> fresh(a) && Stands(a[..], 0, StarShape(t, n)) && a.Length == Size(StarShape(t, n))
  {
    if n >= 0 {
      var nullable := CheckAux(tree1, 0, false, depth, t, Outside, kt);
      if nullable { return null; }
      AtLeastSize(t, n);
      a := StarAtLeast(n, tree1, t);
    } else {
      AtMostSize(t, -n);
      a := StarAtMost(-n, tree1, t);
    }
  }

  function StarShape(t: Shape, n: int): Shape {
    if n >= 0 then AtLeastShape(t, n) else AtMostShape(t, -n)
  }

  function Star(p: Tree, n: int): Tree {
    if n >= 0 then AtLeast(p, n) else AtMost(p, -n)
  }

  lemma {:induction false} AtLeastDenotes(t: Shape, n: nat, rel: int, env: Env, kt: seq<Name>)
    requires Unfinished(t)
    ensures Denote(AtLeastShape(t, n), rel, env, kt) == AtLeast(Denote(t, rel, env, kt), n)
    decreases n
  {
    UnfinishedAnywhere(t, rel, rel + 1, env, kt);
    if n > 0 {
      var j := rel + 1 + Size(t);
      AtLeastDenotes(t, n - 1, j, env, kt);
      UnfinishedAnywhere(t, rel, j, env, kt);
    }
  }

  lemma {:induction false} AtMostDenotes(t: Shape, n: nat, rel: int, env: Env, kt: seq<Name>)
    requires Unfinished(t) && n >= 1
    ensures Denote(AtMostShape(t, n), rel, env, kt) == AtMost(Denote(t, rel, env, kt), n)
    decreases n
  {
    UnfinishedAnywhere(t, rel, rel + 1, env, kt);
    if n > 1 {
      var j := rel + 2 + Size(t);
      UnfinishedAnywhere(t, rel, rel + 2, env, kt);
      UnfinishedAnywhere(t, rel, j, env, kt);
      AtMostDenotes(t, n - 1, j, env, kt);
    }
  }

  /** The tree that is laid out denotes the repetition of the pattern that is copied. */
  lemma StarDenotes(t: Shape, n: int, rel: int, env: Env, kt: seq<Name>)
    requires Unfinished(t)
    ensures Denote(StarShape(t, n), rel, env, kt) == Star(Denote(t, rel, env, kt), n)
  {
    if n >= 0 { AtLeastDenotes(t, n, rel, env, kt); } else { AtMostDenotes(t, -n, rel, env, kt); }
  }
}
