/** The last pass over a tree: calls are resolved, nodes lean to the right. */
module Finishing {
  import opened Peg
  import opened Associativity
  import opened FlatTrees

  type Name = seq<Byte>

  /** The grammar around the tree: where it starts, and the positions of its rules relative to that. */
  datatype Context = NoGrammar | InGrammar(pos: nat, table: map<Name, int>)

  predicate KeyOk(kt: seq<Name>, key: int) { 1 <= key <= |kt| }

  /** Open calls have keys of the symbol table. */
  predicate KeysOk(t: Shape, kt: seq<Name>)
  {
    match t
    case Leaf(n) => n.tag == OpenCallTag ==> KeyOk(kt, n.key)
    case SetLeaf(_, _) => true
    case Unary(n, sub) => n.tag == GrammarTag || KeysOk(sub, kt)
    case Binary(_, left, right) => KeysOk(left, kt) && KeysOk(right, kt)
  }

  /** Every open call outside sub-grammars names a rule of the grammar around it. */
  predicate Resolvable(t: Shape, ctx: Context, kt: seq<Name>)
    requires KeysOk(t, kt)
  {
    match t
    case Leaf(n) => n.tag == OpenCallTag ==> ctx.InGrammar? && kt[n.key - 1] in ctx.table
    case SetLeaf(_, _) => true
    case Unary(n, sub) => n.tag == GrammarTag || Resolvable(sub, ctx, kt)
    case Binary(_, left, right) => Resolvable(left, ctx, kt) && Resolvable(right, ctx, kt)
  }

  lemma {:induction false} RotationResolves(t: Shape, ctx: Context, kt: seq<Name>)
    ensures KeysOk(RotatedShape(t), kt) == KeysOk(t, kt)
    ensures KeysOk(t, kt) ==> Resolvable(RotatedShape(t), ctx, kt) == Resolvable(t, ctx, kt)
    decreases FirstOf(t)
  {
    if LeftNested(t) {
      RotationResolves(Turned(t), ctx, kt);
      assert Turned(t).right == Binary(t.left.n, t.left.right, t.right);
    }
  }

  /** The finished tree that stands at position i. */
  function Fixed(t: Shape, i: nat, ctx: Context, kt: seq<Name>): (r: Shape)
    requires KeysOk(t, kt) && Resolvable(t, ctx, kt)
    ensures Size(r) == Size(t)
    decreases Size(t), 1
  {
    RotationResolves(t, ctx, kt);
    FixedSiblings(RotatedShape(t), i, ctx, kt)
  }

  function FixedSiblings(t: Shape, i: nat, ctx: Context, kt: seq<Name>): (r: Shape)
    requires KeysOk(t, kt) && Resolvable(t, ctx, kt)
    ensures Size(r) == Size(t)
    decreases Size(t), 0
  {
    match t
    case Leaf(n) => Leaf(if n.tag == OpenCallTag then Resolved(n, i, ctx, kt) else n)
    case SetLeaf(n, bits) => SetLeaf(n, bits)
    case Unary(n, sub) => Unary(n, if n.tag == GrammarTag then sub else Fixed(sub, i + 1, ctx, kt))
    case Binary(n, left, right) => Binary(n, Fixed(left, i + 1, ctx, kt), Fixed(right, i + 1 + Size(left), ctx, kt))
  }

  function Resolved(n: Header, i: nat, ctx: Context, kt: seq<Name>): (r: Header)
    requires ctx.InGrammar? && KeyOk(kt, n.key) && kt[n.key - 1] in ctx.table
    ensures r.tag == CallTag
  {
    n.(tag := CallTag, u := ctx.table[kt[n.key - 1]] - (i - ctx.pos))
  }

  /** A rule of the grammar around the tree is at its position, and its key, once set, is a key of its name. */
  ghost predicate RuleAt(a: seq<Slot>, ctx: Context, kt: seq<Name>, name: Name)
    requires ctx.InGrammar? && name in ctx.table
  {
    var p := ctx.pos + ctx.table[name];
    ctx.table[name] > 0 && p < |a| && a[p].Used? && a[p].n.tag == RuleTag &&
    (a[p].n.key == 0 || (KeyOk(kt, a[p].n.key) && kt[a[p].n.key - 1] == name))
  }

  ghost predicate TableOk(a: seq<Slot>, ctx: Context, kt: seq<Name>) {
    ctx.InGrammar? ==>
      && (forall name :: name in ctx.table ==> RuleAt(a, ctx, kt, name))
      && (forall x, y :: x in ctx.table && y in ctx.table && ctx.table[x] == ctx.table[y] ==> x == y)
  }

  /** The rule nodes of a list of rules. */
  predicate InSpine(t: Shape, i: nat, p: int) {
    t.Binary? && t.n.tag == RuleTag && (p == i || InSpine(t.right, i + 1 + Size(t.left), p))
  }

  /** No rule of the grammar around the tree is inside a rule. */
  ghost predicate RulesStay(t: Shape, i: nat, ctx: Context) {
    ctx.InGrammar? ==> forall name :: name in ctx.table ==> Stays(t, i, ctx.pos + ctx.table[name])
  }

  predicate Stays(t: Shape, i: nat, p: int) {
    p < i || i + Size(t) <= p || InSpine(t, i, p)
  }

  lemma {:induction false} SpineRange(t: Shape, i: nat, p: int)
    requires InSpine(t, i, p)
    ensures i <= p < i + Size(t)
    decreases t
  {
    if p != i { SpineRange(t.right, i + 1 + Size(t.left), p); }
  }

  /** An open call becomes a call of the rule of its name, and the rule gets the key of the call. */
  method FixOneCall(a: array<Slot>, i: nat, ctx: Context, kt: seq<Name>, ghost t: Shape) returns (ok: bool)
    requires Stands(a[..], i, t) && t.Leaf? && t.n.tag == OpenCallTag && KeysOk(t, kt)
    requires ctx.InGrammar? && TableOk(a[..], ctx, kt) && RulesStay(t, i, ctx)
    modifies a
    ensures ok <==> Resolvable(t, ctx, kt)
    ensures ok ==> Stands(a[..], i, Fixed(t, i, ctx, kt)) && TableOk(a[..], ctx, kt)
    ensures forall k :: 0 <= k < i || i + Size(t) <= k < a.Length ==> Clean(a[k]) == Clean(old(a[k]))
  {
    assert a[i] == Used(t.n);
    var name := kt[a[i].n.key - 1];
    if name !in ctx.table { return false; }
    var n := ctx.table[name];
    assert RuleAt(a[..], ctx, kt, name);
    var p := ctx.pos + n;
    assert Stays(t, i, p);
    a[i] := Used(a[i].n.(tag := CallTag, u := n - (i - ctx.pos)));
    a[p] := Used(a[p].n.(key := a[i].n.key));
    ok := true;
    assert a[i] == Used(Resolved(t.n, i, ctx, kt));
    forall x | x in ctx.table
      ensures RuleAt(a[..], ctx, kt, x)
    {
      assert old(RuleAt(a[..], ctx, kt, x)) && Stays(t, i, ctx.pos + ctx.table[x]);
    }
  }

  lemma RulesStayIn(t: Shape, i: nat, ctx: Context)
    requires RulesStay(t, i, ctx)
    ensures t.Unary? ==> RulesStay(t.sub, i + 1, ctx)
    ensures t.Binary? ==> RulesStay(t.left, i + 1, ctx) && RulesStay(t.right, i + 1 + Size(t.left), ctx)
  {
    if ctx.InGrammar? {
      forall name | name in ctx.table
        ensures t.Unary? ==> Stays(t.sub, i + 1, ctx.pos + ctx.table[name])
        ensures t.Binary? ==> Stays(t.left, i + 1, ctx.pos + ctx.table[name])
        ensures t.Binary? ==> Stays(t.right, i + 1 + Size(t.left), ctx.pos + ctx.table[name])
      {
        var p := ctx.pos + ctx.table[name];
        assert Stays(t, i, p);
        if t.Binary? && InSpine(t, i, p) && p != i { SpineRange(t.right, i + 1 + Size(t.left), p); }
      }
    }
  }

  /** What does not change around a tree without rules leaves the table in order. */
  lemma TableStays(a: seq<Slot>, a': seq<Slot>, t: Shape, i: nat, ctx: Context, kt: seq<Name>)
    requires |a| == |a'| && i + Size(t) <= |a|
    requires TableOk(a, ctx, kt) && RulesStay(t, i, ctx) && t.n.tag != RuleTag
    requires forall k :: 0 <= k < i || i + Size(t) <= k < |a| ==> a'[k] == a[k]
    ensures TableOk(a', ctx, kt)
  {
    if ctx.InGrammar? {
      forall name | name in ctx.table
        ensures RuleAt(a', ctx, kt, name)
      {
        assert RuleAt(a, ctx, kt, name) && Stays(t, i, ctx.pos + ctx.table[name]);
      }
    }
  }

  lemma RulesStayTurned(t: Shape, i: nat, ctx: Context)
    requires IsOp(t.n.tag) && RulesStay(t, i, ctx)
    ensures RulesStay(RotatedShape(t), i, ctx)
  {
    if ctx.InGrammar? {
      forall name | name in ctx.table
        ensures Stays(RotatedShape(t), i, ctx.pos + ctx.table[name])
      {
        assert Stays(t, i, ctx.pos + ctx.table[name]);
      }
    }
  }

  /** A tree as the last pass expects it, with the rules of the grammar around it. */
  ghost predicate Fixable(a: seq<Slot>, i: nat, t: Shape, ctx: Context, kt: seq<Name>) {
    Stands(a, i, t) && TagsOk(t) && KeysOk(t, kt) && TableOk(a, ctx, kt) && RulesStay(t, i, ctx)
  }

  /** Finishes the tree at position i in place, or reports an open call that has no rule. */
  method FinalFix(a: array<Slot>, i: nat, ctx: Context, kt: seq<Name>, ghost t: Shape) returns (ok: bool)
    requires Fixable(a[..], i, t, ctx, kt)
    modifies a
    ensures ok <==> Resolvable(t, ctx, kt)
    ensures ok ==> Stands(a[..], i, Fixed(t, i, ctx, kt)) && TableOk(a[..], ctx, kt)
    ensures forall k :: 0 <= k < i || i + Size(t) <= k < a.Length ==> Clean(a[k]) == Clean(old(a[k]))
    decreases Size(t), 2
  {
    FirstSlot(a[..], i, t);
    var tag := a[i].n.tag;
    if tag == GrammarTag { return true; }
    if tag == OpenCallTag {
      if ctx.NoGrammar? { return false; }
      ok := FixOneCall(a, i, ctx, kt, t);
      return;
    }
    RotationResolves(t, ctx, kt);
    RotatedTags(t);
    if IsOp(tag) { Rotate(a, i, ctx, kt, t); }
    ok := FixSiblings(a, i, ctx, kt, RotatedShape(t));
  }

  method Rotate(a: array<Slot>, i: nat, ctx: Context, kt: seq<Name>, ghost t: Shape)
    requires Fixable(a[..], i, t, ctx, kt) && IsOp(t.n.tag)
    modifies a
    ensures Stands(a[..], i, RotatedShape(t)) && TableOk(a[..], ctx, kt) && RulesStay(RotatedShape(t), i, ctx)
    ensures forall k :: 0 <= k < i || i + Size(t) <= k < a.Length ==> a[k] == old(a[k])
  {
    ghost var was := a[..];
    CorrectAssociativity(a, i, t);
    TableStays(was, a[..], t, i, ctx, kt);
    RulesStayTurned(t, i, ctx);
  }

  /** The siblings of a node that is in order itself. */
  method FixSiblings(a: array<Slot>, i: nat, ctx: Context, kt: seq<Name>, ghost t: Shape) returns (ok: bool)
    requires Fixable(a[..], i, t, ctx, kt)
    requires t.n.tag != GrammarTag && t.n.tag != OpenCallTag
    modifies a
    ensures ok <==> Resolvable(t, ctx, kt)
    ensures ok ==> Stands(a[..], i, FixedSiblings(t, i, ctx, kt)) && TableOk(a[..], ctx, kt)
    ensures forall k :: 0 <= k < i || i + Size(t) <= k < a.Length ==> Clean(a[k]) == Clean(old(a[k]))
    decreases Size(t), 1
  {
    FirstSlot(a[..], i, t);
    RulesStayIn(t, i, ctx);
    ok := true;
    match Siblings(a[i].n.tag)
    case 1 =>
      ok := FinalFix(a, i + 1, ctx, kt, t.sub);
    case 2 =>
      ok := FixBoth(a, i, ctx, kt, t);
    case _ =>
  }

  method FixBoth(a: array<Slot>, i: nat, ctx: Context, kt: seq<Name>, ghost t: Shape) returns (ok: bool)
    requires Fixable(a[..], i, t, ctx, kt)
    requires t.Binary?
    modifies a
    ensures ok <==> Resolvable(t, ctx, kt)
    ensures ok ==> Stands(a[..], i, FixedSiblings(t, i, ctx, kt)) && TableOk(a[..], ctx, kt)
    ensures forall k :: 0 <= k < i || i + Size(t) <= k < a.Length ==> Clean(a[k]) == Clean(old(a[k]))
    decreases Size(t), 0
  {
    hide Stands, Fixable, FixedSiblings, TableOk, KeysOk;
    ghost var was := a[..];
    PairParts(was, i, ctx, kt, t);
    ok := FixPair(a, i + 1, i + a[i].n.u, ctx, kt, t.left, t.right);
    if ok { PairJoined(was, a[..], i, ctx, kt, t); }
  }

  lemma PairParts(a: seq<Slot>, i: nat, ctx: Context, kt: seq<Name>, t: Shape)
    requires Fixable(a, i, t, ctx, kt) && t.Binary?
    ensures i + Size(t) <= |a| && a[i].Used? && a[i].n.u == Size(t.left) + 1
    ensures KeysOk(t, kt) && (Resolvable(t, ctx, kt) <==> Resolvable(t.left, ctx, kt) && Resolvable(t.right, ctx, kt))
    ensures Fixable(a, i + 1, t.left, ctx, kt) && Fixable(a, i + 1 + Size(t.left), t.right, ctx, kt)
  {
    FirstSlot(a, i, t);
    RulesStayIn(t, i, ctx);
  }

  lemma PairJoined(was: seq<Slot>, a: seq<Slot>, i: nat, ctx: Context, kt: seq<Name>, t: Shape)
    requires Fixable(was, i, t, ctx, kt) && t.Binary? && Resolvable(t, ctx, kt) && |a| == |was|
    requires Clean(a[i]) == Clean(was[i]) && Stands(a, i + 1, Fixed(t.left, i + 1, ctx, kt))
    requires Stands(a, i + 1 + Size(t.left), Fixed(t.right, i + 1 + Size(t.left), ctx, kt))
    ensures Stands(a, i, FixedSiblings(t, i, ctx, kt))
  {
  }

  /** Two trees, one behind the other. */
  method FixPair(a: array<Slot>, i: nat, j: nat, ctx: Context, kt: seq<Name>, ghost left: Shape, ghost right: Shape)
    returns (ok: bool)
    requires Fixable(a[..], i, left, ctx, kt) && Fixable(a[..], j, right, ctx, kt) && j == i + Size(left)
    modifies a
    ensures ok <==> Resolvable(left, ctx, kt) && Resolvable(right, ctx, kt)
    ensures ok ==> Stands(a[..], i, Fixed(left, i, ctx, kt)) && Stands(a[..], j, Fixed(right, j, ctx, kt))
    ensures ok ==> TableOk(a[..], ctx, kt)
    ensures forall k :: 0 <= k < i || j + Size(right) <= k < a.Length ==> Clean(a[k]) == Clean(old(a[k]))
    decreases Size(left) + Size(right), 4
  {
    ok := FixFirst(a, i, ctx, kt, left, right, j);
    if !ok { return; }
    ok := FixSecond(a, j, ctx, kt, right, Fixed(left, i, ctx, kt), i);
  }

  /** The second sibling is finished while the first stays as it is. */
  method FixSecond(a: array<Slot>, i: nat, ctx: Context, kt: seq<Name>, ghost t: Shape, ghost left: Shape, ghost j: nat)
    returns (ok: bool)
    requires Fixable(a[..], i, t, ctx, kt)
    requires Stands(a[..], j, left) && j + Size(left) == i
    modifies a
    ensures ok <==> Resolvable(t, ctx, kt)
    ensures ok ==> Stands(a[..], i, Fixed(t, i, ctx, kt)) && TableOk(a[..], ctx, kt)
    ensures Stands(a[..], j, left)
    ensures forall k :: 0 <= k < i || i + Size(t) <= k < a.Length ==> Clean(a[k]) == Clean(old(a[k]))
    decreases Size(t), 3
  {
    ghost var was := a[..];
    ok := FinalFix(a, i, ctx, kt, t);
    StandsStill(was, a[..], j, left);
  }

  /** The first sibling is finished while the second stays as it is. */
  method FixFirst(a: array<Slot>, i: nat, ctx: Context, kt: seq<Name>, ghost t: Shape, ghost right: Shape, ghost j: nat)
    returns (ok: bool)
    requires Fixable(a[..], i, t, ctx, kt)
    requires Stands(a[..], j, right) && i + Size(t) == j
    modifies a
    ensures ok <==> Resolvable(t, ctx, kt)
    ensures ok ==> Stands(a[..], i, Fixed(t, i, ctx, kt)) && TableOk(a[..], ctx, kt)
    ensures Stands(a[..], j, right)
    ensures forall k :: 0 <= k < i || i + Size(t) <= k < a.Length ==> Clean(a[k]) == Clean(old(a[k]))
    decreases Size(t), 3
  {
    ghost var was := a[..];
    ok := FinalFix(a, i, ctx, kt, t);
    StandsStill(was, a[..], j, right);
  }

  // ---------- what a tree in the array denotes ----------

  /** The rules of the grammar around a tree: their positions in order, and the position of each name. */
  datatype Env = Env(positions: seq<int>, names: map<Name, int>)

  /** The number of the rule at a position, or no rule's number. */
  function RuleNumber(positions: seq<int>, p: int): (k: nat)
    ensures k <= |positions| && (k < |positions| ==> positions[k] == p)
  {
    if positions == [] then 0 else if positions[0] == p then 0 else 1 + RuleNumber(positions[1..], p)
  }

  function RulePositions(chain: Shape, rel: int): seq<int> {
    if chain.Binary? then [rel] + RulePositions(chain.right, rel + 1 + Size(chain.left)) else []
  }

  /** The pattern that a tree denotes, at a position relative to the grammar around it: an open call names its rule,
      a call points to it. */
  function Denote(t: Shape, rel: int, env: Env, kt: seq<Name>): Tree
    decreases t, 2
  {
    match t
    case SetLeaf(_, bits) => TSet(bits)
    case Leaf(n) => DenotedLeaf(n, rel, env, kt)
    case Unary(n, sub) =>
      if n.tag == GrammarTag then TGrammar(DenoteRules(sub, 1, Env(RulePositions(sub, 1), map[]), kt))
      else Over(n, Denote(sub, rel + 1, env, kt))
    case Binary(n, left, right) =>
      Pair(n, Denote(left, rel + 1, env, kt), Denote(right, rel + 1 + Size(left), env, kt))
  }

  function DenotedLeaf(n: Header, rel: int, env: Env, kt: seq<Name>): Tree
  {
    match n.tag
    case CharTag => TChar(if 0 <= n.u < 256 then n.u else 0)
    case AnyTag => TAny
    case TrueTag => TTrue
    case OpenCallTag =>
      if KeyOk(kt, n.key) && kt[n.key - 1] in env.names
      then TCall(RuleNumber(env.positions, env.names[kt[n.key - 1]])) else TFalse
    case CallTag => TCall(RuleNumber(env.positions, rel + n.u))
    case _ => TFalse
  }

  function Natural(i: int): nat { if i < 0 then 0 else i }

  /** A node of one sibling over the pattern of that sibling. */
  function Over(n: Header, p: Tree): Tree
  {
    match n.tag
    case RepTag => TRep(p)
    case NotTag => TNot(p)
    case AndTag => TAnd(p)
    case BehindTag => TBehind(Natural(n.u), p)
    case _ =>
      if n.cap == ROSIE_CONST then TConstCapture(Natural(n.key), Natural(n.u)) else TCapture(Natural(n.key), p)
  }

  /** A node of two siblings in front of their patterns. */
  function Pair(n: Header, p: Tree, q: Tree): Tree
  {
    match n.tag
    case SeqTag => TSeq(p, q)
    case ChoiceTag => TChoice(p, q)
    case _ => TFalse
  }

  function DenoteRules(chain: Shape, rel: int, env: Env, kt: seq<Name>): seq<Tree>
    decreases chain, 3
  {
    if chain.Binary? then
      [Denote(chain.left, rel + 1, env, kt)] + DenoteRules(chain.right, rel + 1 + Size(chain.left), env, kt)
    else []
  }

  /** Before the last pass there are no finished calls outside sub-grammars, and rules only as rules. */
  predicate Unfinished(t: Shape)
  {
    match t
    case Leaf(n) => n.tag != CallTag
    case SetLeaf(_, _) => true
    case Unary(n, sub) => n.tag == GrammarTag || Unfinished(sub)
    case Binary(n, left, right) => n.tag != RuleTag && Unfinished(left) && Unfinished(right)
  }

  /** Open calls do not depend on where they stand. */
  lemma {:induction false} UnfinishedAnywhere(t: Shape, rel: int, rel': int, env: Env, kt: seq<Name>)
    requires Unfinished(t)
    ensures Denote(t, rel, env, kt) == Denote(t, rel', env, kt)
    decreases t
  {
    match t
    case Unary(n, sub) =>
      if n.tag != GrammarTag { UnfinishedAnywhere(sub, rel + 1, rel' + 1, env, kt); }
    case Binary(n, left, right) =>
      UnfinishedAnywhere(left, rel + 1, rel' + 1, env, kt);
      UnfinishedAnywhere(right, rel + 1 + Size(left), rel' + 1 + Size(left), env, kt);
    case _ =>
  }

  /** A rotation in the array is a rotation of the pattern. */
  lemma {:induction false} RotationDenotes(t: Shape, rel: int, env: Env, kt: seq<Name>)
    requires Unfinished(t)
    ensures Unfinished(RotatedShape(t))
    ensures Denote(RotatedShape(t), rel, env, kt) == Rotated(Denote(t, rel, env, kt))
    decreases FirstOf(t)
  {
    if LeftNested(t) {
      var x, y, z, u := t.left.left, t.left.right, t.right, Turned(t);
      TurnedDenotes(t, x, y, z, rel, env, kt);
      RotationDenotes(u, rel, env, kt);
    } else {
      NotNestedDenotes(t, rel, env, kt);
    }
  }

  lemma NotNestedDenotes(t: Shape, rel: int, env: Env, kt: seq<Name>)
    requires Unfinished(t) && !LeftNested(t)
    ensures Rotated(Denote(t, rel, env, kt)) == Denote(t, rel, env, kt)
  {
    if t.Binary? { assert Unfinished(t.left); }
  }

  lemma RotatedPair(n: Header, n': Header, x: Tree, y: Tree, z: Tree)
    requires IsOp(n.tag) && n'.tag == n.tag
    ensures Rotated(Pair(n, Pair(n', x, y), z)) == Rotated(Pair(n, x, Pair(n', y, z)))
  {
    RotatesSeq(x, y, z);
    RotatesChoice(x, y, z);
    hide Rotated;
    if n.tag == SeqTag {
      assert Pair(n, Pair(n', x, y), z) == TSeq(TSeq(x, y), z) && Pair(n, x, Pair(n', y, z)) == TSeq(x, TSeq(y, z));
    } else {
      assert Pair(n, Pair(n', x, y), z) == TChoice(TChoice(x, y), z);
      assert Pair(n, x, Pair(n', y, z)) == TChoice(x, TChoice(y, z));
    }
  }

  lemma RotatesSeq(x: Tree, y: Tree, z: Tree)
    ensures Rotated(TSeq(TSeq(x, y), z)) == Rotated(TSeq(x, TSeq(y, z)))
  {
  }

  lemma RotatesChoice(x: Tree, y: Tree, z: Tree)
    ensures Rotated(TChoice(TChoice(x, y), z)) == Rotated(TChoice(x, TChoice(y, z)))
  {
  }

  lemma TurnedDenotes(t: Shape, x: Shape, y: Shape, z: Shape, rel: int, env: Env, kt: seq<Name>)
    requires LeftNested(t) && Unfinished(t) && x == t.left.left && y == t.left.right && z == t.right
    ensures Unfinished(Turned(t))
    ensures Rotated(Denote(t, rel, env, kt)) == Rotated(Denote(Turned(t), rel, env, kt))
  {
    hide Denote, RulePositions, DenoteRules, Rotated, Pair;
    var u := Turned(t);
    assert u.right == Binary(t.left.n, y, z) && Unfinished(t.left) && Unfinished(u.right);
    UnfinishedAnywhere(x, rel + 2, rel + 1, env, kt);
    UnfinishedAnywhere(z, rel + 1 + Size(t.left), rel + 2 + Size(x) + Size(y), env, kt);
    DenotePair(t.n, t.left, z, rel, env, kt);
    DenotePair(t.left.n, x, y, rel + 1, env, kt);
    DenotePair(t.n, x, u.right, rel, env, kt);
    DenotePair(t.left.n, y, z, rel + 1 + Size(x), env, kt);
    RotatedPair(t.n, t.left.n, Denote(x, rel + 1, env, kt), Denote(y, rel + 2 + Size(x), env, kt),
                Denote(z, rel + 1 + Size(t.left), env, kt));
  }

  lemma DenotePair(n: Header, l: Shape, r: Shape, rel: int, env: Env, kt: seq<Name>)
    ensures Denote(Binary(n, l, r), rel, env, kt) ==
            Pair(n, Denote(l, rel + 1, env, kt), Denote(r, rel + 1 + Size(l), env, kt))
  {
  }

  /** The last pass leaves the pattern that leans to the right, its calls pointing to the rules they named. */
  lemma {:induction false} FixedDenotes(t: Shape, i: nat, ctx: Context, kt: seq<Name>, rel: int, env: Env)
    requires Unfinished(t) && KeysOk(t, kt) && Resolvable(t, ctx, kt)
    requires ctx.InGrammar? ==> rel == i - ctx.pos && env.names == ctx.table
    ensures Denote(Fixed(t, i, ctx, kt), rel, env, kt) == RightNested(Denote(t, rel, env, kt))
    decreases Size(t), 1
  {
    RotationResolves(t, ctx, kt);
    RotationDenotes(t, rel, env, kt);
    SiblingsDenote(RotatedShape(t), i, ctx, kt, rel, env);
  }

  lemma {:induction false} SiblingsDenote(t: Shape, i: nat, ctx: Context, kt: seq<Name>, rel: int, env: Env)
    requires Unfinished(t) && KeysOk(t, kt) && Resolvable(t, ctx, kt)
    requires ctx.InGrammar? ==> rel == i - ctx.pos && env.names == ctx.table
    ensures Denote(FixedSiblings(t, i, ctx, kt), rel, env, kt) == NestedSiblings(Denote(t, rel, env, kt))
    decreases Size(t), 0
  {
    match t
    case SetLeaf(n, bits) => DenoteSet(n, bits, i, ctx, kt, rel, env);
    case Leaf(n) => DenoteLeaf(n, i, ctx, kt, rel, env);
    case Unary(n, _) =>
      if n.tag == GrammarTag { DenoteGrammar(t, rel, env, kt); } else { OverFixed(t, i, ctx, kt, rel, env); }
    case Binary(_, _, _) => PairFixed(t, i, ctx, kt, rel, env);
  }

  lemma {:induction false} OverFixed(t: Shape, i: nat, ctx: Context, kt: seq<Name>, rel: int, env: Env)
    requires Unfinished(t) && KeysOk(t, kt) && Resolvable(t, ctx, kt) && t.Unary? && t.n.tag != GrammarTag
    requires ctx.InGrammar? ==> rel == i - ctx.pos && env.names == ctx.table
    ensures Denote(FixedSiblings(t, i, ctx, kt), rel, env, kt) == NestedSiblings(Denote(t, rel, env, kt))
    decreases Size(t.sub), 2
  {
    FixedDenotes(t.sub, i + 1, ctx, kt, rel + 1, env);
    OverDenotes(t, i, ctx, kt, rel, env);
  }

  lemma {:induction false} PairFixed(t: Shape, i: nat, ctx: Context, kt: seq<Name>, rel: int, env: Env)
    requires Unfinished(t) && KeysOk(t, kt) && Resolvable(t, ctx, kt) && t.Binary?
    requires ctx.InGrammar? ==> rel == i - ctx.pos && env.names == ctx.table
    ensures Denote(FixedSiblings(t, i, ctx, kt), rel, env, kt) == NestedSiblings(Denote(t, rel, env, kt))
    decreases Size(t.left) + Size(t.right), 2
  {
    hide Denote, Fixed, NestedSiblings, RightNested;
    FixedDenotes(t.left, i + 1, ctx, kt, rel + 1, env);
    FixedDenotes(t.right, i + 1 + Size(t.left), ctx, kt, rel + 1 + Size(t.left), env);
    PairDenotes(t, i, ctx, kt, rel, env);
  }

  lemma DenoteSet(n: Header, bits: set<Byte>, i: nat, ctx: Context, kt: seq<Name>, rel: int,
                  env: Env)
    ensures Denote(FixedSiblings(SetLeaf(n, bits), i, ctx, kt), rel, env, kt) ==
            NestedSiblings(Denote(SetLeaf(n, bits), rel, env, kt))
  {
  }

  lemma OverDenotes(t: Shape, i: nat, ctx: Context, kt: seq<Name>, rel: int, env: Env)
    requires KeysOk(t, kt) && Resolvable(t, ctx, kt) && t.Unary? && t.n.tag != GrammarTag
    requires Denote(Fixed(t.sub, i + 1, ctx, kt), rel + 1, env, kt) == RightNested(Denote(t.sub, rel + 1, env, kt))
    ensures Denote(FixedSiblings(t, i, ctx, kt), rel, env, kt) == NestedSiblings(Denote(t, rel, env, kt))
  {
    NestedOver(t.n, Denote(t.sub, rel + 1, env, kt));
  }

  lemma PairDenotes(t: Shape, i: nat, ctx: Context, kt: seq<Name>, rel: int, env: Env)
    requires KeysOk(t, kt) && Resolvable(t, ctx, kt) && t.Binary?
    requires Denote(Fixed(t.left, i + 1, ctx, kt), rel + 1, env, kt) == RightNested(Denote(t.left, rel + 1, env, kt))
    requires Denote(Fixed(t.right, i + 1 + Size(t.left), ctx, kt), rel + 1 + Size(t.left), env, kt) ==
             RightNested(Denote(t.right, rel + 1 + Size(t.left), env, kt))
    ensures Denote(FixedSiblings(t, i, ctx, kt), rel, env, kt) == NestedSiblings(Denote(t, rel, env, kt))
  {
    hide Denote;
    var fl, fr := Fixed(t.left, i + 1, ctx, kt), Fixed(t.right, i + 1 + Size(t.left), ctx, kt);
    assert FixedSiblings(t, i, ctx, kt) == Binary(t.n, fl, fr);
    PairStep(t.n, t.left, t.right, fl, fr, rel, env, kt);
  }

  lemma {:induction false} PairStep(n: Header, l: Shape, r: Shape, fl: Shape, fr: Shape, rel: int, env: Env,
                                    kt: seq<Name>)
    requires Size(fl) == Size(l) && Denote(fl, rel + 1, env, kt) == RightNested(Denote(l, rel + 1, env, kt))
    requires Denote(fr, rel + 1 + Size(l), env, kt) == RightNested(Denote(r, rel + 1 + Size(l), env, kt))
    ensures Denote(Binary(n, fl, fr), rel, env, kt) == NestedSiblings(Denote(Binary(n, l, r), rel, env, kt))
  {
    hide NestedSiblings, RightNested;
    NestedPair(n, Denote(l, rel + 1, env, kt), Denote(r, rel + 1 + Size(l), env, kt));
  }

  lemma DenoteLeaf(n: Header, i: nat, ctx: Context, kt: seq<Name>, rel: int, env: Env)
    requires KeysOk(Leaf(n), kt) && Resolvable(Leaf(n), ctx, kt)
    requires ctx.InGrammar? ==> rel == i - ctx.pos && env.names == ctx.table
    ensures Denote(FixedSiblings(Leaf(n), i, ctx, kt), rel, env, kt) == NestedSiblings(Denote(Leaf(n), rel, env, kt))
  {
    if n.tag == OpenCallTag { assert rel + Resolved(n, i, ctx, kt).u == ctx.table[kt[n.key - 1]]; }
  }

  lemma DenoteGrammar(t: Shape, rel: int, env: Env, kt: seq<Name>)
    requires t.Unary? && t.n.tag == GrammarTag
    ensures NestedSiblings(Denote(t, rel, env, kt)) == Denote(t, rel, env, kt)
  {
    assert Denote(t, rel, env, kt).TGrammar?;
  }

  lemma NestedOver(n: Header, p: Tree)
    ensures NestedSiblings(Over(n, p)) == Over(n, RightNested(p))
  {
  }

  lemma NestedPair(n: Header, p: Tree, q: Tree)
    ensures NestedSiblings(Pair(n, p, q)) == Pair(n, RightNested(p), RightNested(q))
  {
  }

  // ---------- whole grammars ----------

  /** A list of rules that are not finished yet. */
  predicate RuleChain(t: Shape)
  {
    if t.Binary? then t.n.tag == RuleTag && Unfinished(t.left) && RuleChain(t.right) else t.Leaf? && t.n.tag == TrueTag
  }

  lemma {:induction false} FixedRules(t: Shape, i: nat, ctx: Context, kt: seq<Name>, rel: int, env: Env)
    requires RuleChain(t) && KeysOk(t, kt) && Resolvable(t, ctx, kt)
    requires ctx.InGrammar? && rel == i - ctx.pos && env.names == ctx.table
    ensures RulePositions(Fixed(t, i, ctx, kt), rel) == RulePositions(t, rel)
    ensures DenoteRules(Fixed(t, i, ctx, kt), rel, env, kt) == RightNestedRules(DenoteRules(t, rel, env, kt))
    decreases t
  {
    assert RotatedShape(t) == t;
    if t.Binary? {
      FixedRules(t.right, i + 1 + Size(t.left), ctx, kt, rel + 1 + Size(t.left), env);
      FixedRule(t, i, ctx, kt, rel, env);
    }
  }

  lemma FixedRule(t: Shape, i: nat, ctx: Context, kt: seq<Name>, rel: int, env: Env)
    requires RuleChain(t) && KeysOk(t, kt) && Resolvable(t, ctx, kt) && t.Binary?
    requires ctx.InGrammar? && rel == i - ctx.pos && env.names == ctx.table
    requires var j, rel', r := i + 1 + Size(t.left), rel + 1 + Size(t.left), t.right;
             RulePositions(Fixed(r, j, ctx, kt), rel') == RulePositions(r, rel') &&
             DenoteRules(Fixed(r, j, ctx, kt), rel', env, kt) == RightNestedRules(DenoteRules(r, rel', env, kt))
    ensures RulePositions(Fixed(t, i, ctx, kt), rel) == RulePositions(t, rel)
    ensures DenoteRules(Fixed(t, i, ctx, kt), rel, env, kt) == RightNestedRules(DenoteRules(t, rel, env, kt))
  {
    hide Denote, DenoteRules, RulePositions;
    var l, r, j, rel' := t.left, t.right, i + 1 + Size(t.left), rel + 1 + Size(t.left);
    FixedDenotes(l, i + 1, ctx, kt, rel + 1, env);
    assert RotatedShape(t) == t && Fixed(t, i, ctx, kt) == FixedSiblings(t, i, ctx, kt);
    RuleStep(t.n, l, r, Fixed(l, i + 1, ctx, kt), Fixed(r, j, ctx, kt), rel, rel', env, kt);
  }

  lemma RuleStep(n: Header, l: Shape, r: Shape, fl: Shape, fr: Shape, rel: int, rel': int, env: Env, kt: seq<Name>)
    requires rel' == rel + 1 + Size(l) && Size(fl) == Size(l)
    requires Denote(fl, rel + 1, env, kt) == RightNested(Denote(l, rel + 1, env, kt))
    requires RulePositions(fr, rel') == RulePositions(r, rel')
    requires DenoteRules(fr, rel', env, kt) == RightNestedRules(DenoteRules(r, rel', env, kt))
    ensures RulePositions(Binary(n, fl, fr), rel) == RulePositions(Binary(n, l, r), rel)
    ensures DenoteRules(Binary(n, fl, fr), rel, env, kt) ==
            RightNestedRules(DenoteRules(Binary(n, l, r), rel, env, kt))
  {
    RulesInFront(n, fl, fr, rel, rel', env, kt);
    RulesInFront(n, l, r, rel, rel', env, kt);
    OneRuleMore(Denote(l, rel + 1, env, kt), DenoteRules(r, rel', env, kt));
  }

  lemma RulesInFront(n: Header, l: Shape, r: Shape, rel: int, rel': int, env: Env, kt: seq<Name>)
    requires rel' == rel + 1 + Size(l)
    ensures DenoteRules(Binary(n, l, r), rel, env, kt) == [Denote(l, rel + 1, env, kt)] + DenoteRules(r, rel', env, kt)
    ensures RulePositions(Binary(n, l, r), rel) == [rel] + RulePositions(r, rel')
  {
  }

  lemma OneRuleMore(d: Tree, rest: Rules)
    ensures RightNestedRules([d] + rest) == [RightNested(d)] + RightNestedRules(rest)
  {
  }

  /** A grammar at position `ctx.pos` whose rules are finished means what it meant with open calls: every rule, at
      every position of every input, and with the same amount of work. */
  lemma FinishedGrammar(
    chain: Shape, ctx: Context, kt: seq<Name>, s: Input, p: nat, k: nat, fuel: nat)
    requires RuleChain(chain) && KeysOk(chain, kt) && Resolvable(chain, ctx, kt) && ctx.InGrammar?
    requires p <= |s|
    ensures var before := DenoteRules(chain, 1, Env(RulePositions(chain, 1), ctx.table), kt);
            var fixed := Fixed(chain, ctx.pos + 1, ctx, kt);
            var after := DenoteRules(fixed, 1, Env(RulePositions(fixed, 1), ctx.table), kt);
            |after| == |before| &&
            (k < |before| ==> Eval(after, after[k], s, p, fuel) == Eval(before, before[k], s, p, fuel))
  {
    var env := Env(RulePositions(chain, 1), ctx.table);
    FixedRules(chain, ctx.pos + 1, ctx, kt, 1, env);
    var before := DenoteRules(chain, 1, env, kt);
    if k < |before| { RightNestedKeepsMeaning(before, before[k], s, p, fuel); }
  }
}
