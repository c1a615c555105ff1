/** Pattern trees in one array with relative offsets, as the library builds them. */
module FlatTrees {
  import opened Peg

  datatype Tag =
    | CharTag | SetTag | AnyTag | TrueTag | FalseTag | RepTag | SeqTag | ChoiceTag | NotTag | AndTag
    | CallTag | OpenCallTag | RuleTag | GrammarTag | BehindTag | CaptureTag

  /** `u` is the distance to the second sibling, or a number. */
  datatype Header = Header(tag: Tag, cap: nat, key: int, u: int)

  /** One slot of the array: a node, or a part of the byte set that follows a set node. */
  datatype Slot = Used(n: Header) | Bits(cs: set<Byte>)

  /** The bits that one slot of 12 bytes has room for; the 32 bytes of a set take three slots. */
  const SLOT_BITS: nat := 96

  /** The part of a byte set in its `k`-th slot. */
  function Part(cs: set<Byte>, k: nat): Slot {
    Bits(set c: Byte | c in cs && c / SLOT_BITS == k)
  }

  /** The kind of a constant capture. */
  const ROSIE_CONST: nat := 1

  function Siblings(tag: Tag): nat {
    match tag
    case RepTag | NotTag | AndTag | GrammarTag | BehindTag | CaptureTag => 1
    case SeqTag | ChoiceTag | RuleTag => 2
    case _ => 0
  }

  predicate IsOp(tag: Tag) { tag == SeqTag || tag == ChoiceTag }

  /** The tree that a part of the array stands for. */
  datatype Shape =
    | Leaf(n: Header)
    | SetLeaf(n: Header, bits: set<Byte>)
    | Unary(n: Header, sub: Shape)
    | Binary(n: Header, left: Shape, right: Shape)

  /** Every node has the siblings of its kind. */
  predicate TagsOk(t: Shape) {
    match t
    case Leaf(n) => Siblings(n.tag) == 0 && n.tag != SetTag
    case SetLeaf(n, _) => n.tag == SetTag
    case Unary(n, sub) => Siblings(n.tag) == 1 && TagsOk(sub)
    case Binary(n, left, right) => Siblings(n.tag) == 2 && TagsOk(left) && TagsOk(right)
  }

  /** The slots of a tree: the first sibling comes next, the second one behind it. */
  function Flat(t: Shape): (r: seq<Slot>)
    ensures |r| == Size(t)
  {
    match t
    case Leaf(n) => [Used(n)]
    case SetLeaf(n, bits) => [Used(n), Part(bits, 0), Part(bits, 1), Part(bits, 2)]
    case Unary(n, sub) => [Used(n)] + Flat(sub)
    case Binary(n, left, right) => [Used(n.(u := Size(left) + 1))] + Flat(left) + Flat(right)
  }

  function Size(t: Shape): (n: nat)
    ensures n >= 1
  {
    match t
    case Leaf(_) => 1
    case SetLeaf(_, _) => 4
    case Unary(_, sub) => 1 + Size(sub)
    case Binary(_, left, right) => 1 + Size(left) + Size(right)
  }

  /** Keys of rules are set only when the rule is called, and nobody reads what stands beside the offset of a
      sequence or choice, or in a loop or an empty pattern; these are left out when arrays are compared. */
  function Clean(s: Slot): Slot {
    match s
    case Bits(_) => s
    case Used(n) => Used(CleanNode(n))
  }

  function CleanNode(n: Header): Header {
    match n.tag
    case RuleTag => n.(key := 0)
    case SeqTag | ChoiceTag => n.(key := 0, cap := 0)
    case RepTag | TrueTag => n.(key := 0, cap := 0, u := 0)
    case _ => n
  }

  /** The slot holds the node, as far as it is ever read. */
  predicate Holds(s: Slot, n: Header) {
    s.Used? && CleanNode(s.n) == CleanNode(n)
  }

  /** The tree stands at position i: its node, and behind it its siblings. */
  ghost predicate Stands(a: seq<Slot>, i: nat, t: Shape)
    decreases t
  {
    i + Size(t) <= |a| &&
    match t
    case Leaf(n) => Holds(a[i], n)
    case SetLeaf(n, bits) => Holds(a[i], n) && SetAt(a, i + 1, bits)
    case Unary(n, sub) => Holds(a[i], n) && Stands(a, i + 1, sub)
    case Binary(n, left, right) =>
      Holds(a[i], n.(u := Size(left) + 1)) && Stands(a, i + 1, left) && Stands(a, i + 1 + Size(left), right)
  }

  /** The three parts of a byte set stand at position i. */
  predicate SetAt(a: seq<Slot>, i: nat, bits: set<Byte>)
    requires i + 3 <= |a|
  {
    a[i] == Part(bits, 0) && a[i + 1] == Part(bits, 1) && a[i + 2] == Part(bits, 2)
  }

  /** The parts hold all of the set. */
  lemma SetAtOnce(a: seq<Slot>, i: nat, bits: set<Byte>, bits': set<Byte>)
    requires i + 3 <= |a| && SetAt(a, i, bits) && SetAt(a, i, bits')
    ensures bits == bits'
  {
    forall c: Byte
      ensures c in bits <==> c in bits'
    {
      var k := c / SLOT_BITS;
      assert a[i + k] == Part(bits, k) == Part(bits', k);
      assert (c in bits <==> c in Part(bits, k).cs) && (c in bits' <==> c in Part(bits', k).cs);
    }
  }

  ghost predicate Same(a: seq<Slot>, b: seq<Slot>) {
    |a| == |b| && forall k :: 0 <= k < |a| ==> Clean(a[k]) == Clean(b[k])
  }

  /** That is, its slots stand there. */
  lemma {:induction false} StandsFlat(a: seq<Slot>, i: nat, t: Shape)
    requires i + Size(t) <= |a|
    ensures Stands(a, i, t) <==> Same(a[i..i + Size(t)], Flat(t))
    decreases t
  {
    hide Same, Flat, Clean;
    match t
    case Leaf(_) => StandsLeaf(a, i, t);
    case SetLeaf(_, _) => StandsSet(a, i, t);
    case Unary(_, sub) =>
      StandsFlat(a, i + 1, sub);
      FlatUnary(a, i, t, i + Size(t));
    case Binary(n, left, right) =>
      StandsFlat(a, i + 1, left);
      StandsFlat(a, i + 1 + Size(left), right);
      FlatBinary(a, i, t, i + 1 + Size(left), i + Size(t));
  }

  lemma FlatUnary(a: seq<Slot>, i: nat, t: Shape, e: nat)
    requires t.Unary? && e == i + Size(t) <= |a|
    requires Stands(a, i + 1, t.sub) <==> Same(a[i + 1..e], Flat(t.sub))
    ensures Stands(a, i, t) <==> Same(a[i..e], Flat(t))
  {
    FlatParts(a, i, Used(t.n), Flat(t.sub), [], Flat(t), e, e);
  }

  lemma FlatBinary(a: seq<Slot>, i: nat, t: Shape, j: nat, e: nat)
    requires t.Binary? && j == i + 1 + Size(t.left) && e == i + Size(t) <= |a|
    requires Stands(a, i + 1, t.left) <==> Same(a[i + 1..j], Flat(t.left))
    requires Stands(a, j, t.right) <==> Same(a[j..e], Flat(t.right))
    ensures Stands(a, i, t) <==> Same(a[i..e], Flat(t))
  {
    FlatParts(a, i, Used(t.n.(u := Size(t.left) + 1)), Flat(t.left), Flat(t.right), Flat(t), j, e);
  }

  lemma StandsLeaf(a: seq<Slot>, i: nat, t: Shape)
    requires t.Leaf? && i + 1 <= |a|
    ensures Stands(a, i, t) <==> Same(a[i..i + 1], Flat(t))
  {
    assert Flat(t)[0] == Used(t.n) && a[i..i + 1][0] == a[i];
  }

  lemma StandsSet(a: seq<Slot>, i: nat, t: Shape)
    requires t.SetLeaf? && i + 4 <= |a|
    ensures Stands(a, i, t) <==> Same(a[i..i + 4], Flat(t))
  {
    var s, f := a[i..i + 4], Flat(t);
    assert s[0] == a[i] && f[0] == Used(t.n);
    forall k: nat | k < 3
      ensures s[k + 1] == a[i + 1 + k] && f[k + 1] == Part(t.bits, k)
      ensures Clean(s[k + 1]) == Clean(f[k + 1]) <==> a[i + 1 + k] == Part(t.bits, k)
    {
    }
    assert SetAt(a, i + 1, t.bits) <==> forall k: nat | k < 3 :: a[i + 1 + k] == Part(t.bits, k);
  }

  /** The parts of a node's slots are compared one by one. */
  lemma FlatParts(
    a: seq<Slot>, i: nat, n: Slot, p: seq<Slot>, q: seq<Slot>, f: seq<Slot>, j: nat, e: nat)
    requires f == [n] + p + q && j == i + 1 + |p| && e == j + |q| <= |a|
    ensures Same(a[i..e], f) <==> Clean(a[i]) == Clean(n) && Same(a[i + 1..j], p) && Same(a[j..e], q)
  {
    var s := a[i..e];
    ThreeParts(n, p, q, f);
    SliceOfSlice(a, i, |f|, 1, 1 + |p|, s);
    SliceOfSlice(a, i, |f|, 1 + |p|, |f|, s);
    assert s[0] == a[i];
    SameParts(s, f, 1, 1 + |p|);
    SameParts(s, f, 1 + |p|, |f|);
    if Clean(a[i]) == Clean(n) && Same(s[1..1 + |p|], p) && Same(s[1 + |p|..|f|], q) {
      SameJoined(s, f, 1, 1 + |p|);
      SameJoined(s, f, 1 + |p|, |f|);
    }
  }

  lemma SliceOfSlice<T>(a: seq<T>, i: nat, n: nat, lo: nat, hi: nat, s: seq<T>)
    requires i + n <= |a| && lo <= hi <= n && s == a[i..i + n]
    ensures s[lo..hi] == a[i + lo..i + hi]
  {
    assert forall k :: 0 <= k < hi - lo ==> s[lo..hi][k] == a[i + lo..i + hi][k];
  }

  lemma ThreeParts<T>(x: T, p: seq<T>, q: seq<T>, f: seq<T>)
    requires f == [x] + p + q
    ensures f[0] == x && f[1..1 + |p|] == p && f[1 + |p|..|f|] == q
  {
  }

  lemma SameParts(a: seq<Slot>, b: seq<Slot>, lo: nat, hi: nat)
    requires |a| == |b| && lo <= hi <= |a|
    ensures Same(a, b) ==> Same(a[lo..hi], b[lo..hi])
  {
  }

  lemma SameJoined(a: seq<Slot>, b: seq<Slot>, lo: nat, hi: nat)
    requires |a| == |b| && lo <= hi <= |a| && Same(a[lo..hi], b[lo..hi])
    ensures forall k :: lo <= k < hi ==> Clean(a[k]) == Clean(b[k])
  {
    forall k | lo <= k < hi
      ensures Clean(a[k]) == Clean(b[k])
    {
      assert a[lo..hi][k - lo] == a[k] && b[lo..hi][k - lo] == b[k];
    }
  }

  /** A part of the array that does not change keeps its tree. */
  lemma {:induction false} StandsStill(a: seq<Slot>, a': seq<Slot>, i: nat, t: Shape)
    requires |a| == |a'| && Stands(a, i, t)
    requires forall k :: i <= k < i + Size(t) ==> Clean(a'[k]) == Clean(a[k])
    ensures Stands(a', i, t)
    decreases t
  {
    match t
    case Leaf(_) =>
    case SetLeaf(_, _) => assert forall k :: i < k < i + 4 ==> Clean(a'[k]) == Clean(a[k]);
    case Unary(_, sub) => StandsStill(a, a', i + 1, sub);
    case Binary(_, left, right) =>
      StandsStill(a, a', i + 1, left);
      StandsStill(a, a', i + 1 + Size(left), right);
  }

  /** A part that is copied elsewhere takes its tree along. */
  lemma StandsMoved(a: seq<Slot>, a': seq<Slot>, i: nat, i': nat, t: Shape)
    requires Stands(a, i, t) && i' + Size(t) <= |a'|
    requires a'[i'..i' + Size(t)] == a[i..i + Size(t)]
    ensures Stands(a', i', t)
  {
    StandsFlat(a, i, t);
    StandsFlat(a', i', t);
  }

  // ---------- rotation ----------

  /** A sequence in front of a sequence, or a choice in front of a choice. */
  predicate LeftNested(t: Shape) {
    t.Binary? && IsOp(t.n.tag) && t.left.Binary? && t.left.n.tag == t.n.tag
  }

  /** Op (Op x y) z becomes Op x (Op y z). */
  function Turned(t: Shape): (r: Shape)
    requires LeftNested(t)
    ensures r.Binary? && r.n == t.n && Size(r) == Size(t) && r.left < t.left
  {
    Binary(t.n, t.left.left, Binary(t.left.n, t.left.right, t.right))
  }

  function FirstOf(t: Shape): Shape {
    if t.Binary? then t.left else t
  }

  function RotatedShape(t: Shape): (r: Shape)
    ensures Size(r) == Size(t) && r.n == t.n && !LeftNested(r)
    decreases FirstOf(t)
  {
    if LeftNested(t) then RotatedShape(Turned(t)) else t
  }

  /** Copies downwards inside the array. */
  method MemMove(a: array<Slot>, dst: nat, src: nat, n: nat)
    requires dst <= src && src + n <= a.Length
    modifies a
    ensures a[dst..dst + n] == old(a[src..src + n])
    ensures forall k :: 0 <= k < dst || dst + n <= k < a.Length ==> a[k] == old(a[k])
  {
    var j := 0;
    while j < n
      invariant j <= n
      invariant a[dst..dst + j] == old(a[src..src + j])
      invariant forall k :: 0 <= k < dst || dst + j <= k < a.Length ==> a[k] == old(a[k])
    {
      a[dst + j] := a[src + j];
      j := j + 1;
      assert old(a[src..src + j]) == old(a[src..src + j - 1]) + [old(a[src + j - 1])];
      assert a[dst..dst + j] == a[dst..dst + j - 1] + [a[dst + j - 1]];
    }
  }

  /** Writes tag and offset; what is beside them stays, whatever it was. */
  function Retagged(s: Slot, tag: Tag, u: int): Slot {
    match s
    case Used(n) => Used(n.(tag := tag, u := u))
    case Bits(_) => Used(Header(tag, 0, 0, u))
  }

  lemma FirstSlot(a: seq<Slot>, i: nat, t: Shape)
    requires Stands(a, i, t)
    ensures a[i].Used? && a[i].n.tag == t.n.tag
    ensures t.Binary? && Siblings(t.n.tag) == 2 ==> a[i].n.u == Size(t.left) + 1
  {
  }

  /** One rotation: the first sibling of the first sibling moves up, and behind it a new node joins the other two. */
  method RotateOnce(a: array<Slot>, i: nat, ghost t: Shape)
    requires LeftNested(t) && Stands(a[..], i, t)
    modifies a
    ensures Stands(a[..], i, Turned(t))
    ensures forall k :: 0 <= k < i || i + Size(t) <= k < a.Length ==> a[k] == old(a[k])
  {
    hide Stands, Holds;
    ghost var was := a[..];
    TakenApart(was, i, t);
    var n1size := a[i].n.u - 1;
    var n11size := a[i + 1].n.u - 1;
    var n12size := n1size - n11size - 1;
    MemMove(a, i + 1, i + 2, n11size);
    a[i] := Used(a[i].n.(u := n11size + 1));
    a[i + n11size + 1] := Retagged(a[i + n11size + 1], a[i].n.tag, n12size + 1);
    Assembled(was, a[..], i, t, i + 1 + Size(t.left.left));
  }

  lemma TakenApart(a: seq<Slot>, i: nat, t: Shape)
    requires LeftNested(t) && Stands(a, i, t)
    ensures IsNode(a[i], t.n.tag, Size(t.left) + 1) && IsNode(a[i + 1], t.n.tag, Size(t.left.left) + 1)
    ensures Stands(a, i + 2, t.left.left)
    ensures Stands(a, i + 2 + Size(t.left.left), t.left.right)
    ensures Stands(a, i + 1 + Size(t.left), t.right)
  {
    FirstSlot(a, i, t);
    FirstSlot(a, i + 1, t.left);
  }

  /** The node of a sequence or choice with the given offset. */
  predicate IsNode(s: Slot, tag: Tag, u: int) {
    s.Used? && s.n.tag == tag && s.n.u == u
  }

  lemma {:induction false} Assembled(was: seq<Slot>, now: seq<Slot>, i: nat, t: Shape, j: nat)
    requires LeftNested(t) && |was| == |now| && i + Size(t) <= |was| && j == i + 1 + Size(t.left.left)
    requires Stands(was, i + 2, t.left.left) && Stands(was, j + 1, t.left.right)
    requires Stands(was, i + 1 + Size(t.left), t.right)
    requires IsNode(now[i], t.n.tag, Size(t.left.left) + 1)
    requires now[i + 1..j] == was[i + 2..j + 1]
    requires IsNode(now[j], t.n.tag, Size(t.left.right) + 1)
    requires forall k :: j + 1 <= k < i + Size(t) ==> now[k] == was[k]
    ensures Stands(now, i, Turned(t))
  {
    hide Same, Flat, Holds, TagsOk;
    var r := Turned(t);
    StandsMoved(was, now, i + 2, i + 1, t.left.left);
    StandsStill(was, now, j + 1, t.left.right);
    StandsStill(was, now, i + 1 + Size(t.left), t.right);
    StandsJoined(now, j, t.left.n, t.left.right, t.right, i + 1 + Size(t.left));
    StandsJoined(now, i, t.n, t.left.left, r.right, j);
  }

  lemma StandsJoined(a: seq<Slot>, i: nat, n: Header, l: Shape, r: Shape, j: nat)
    requires IsOp(n.tag) && j == i + 1 + Size(l) && j + Size(r) <= |a|
    requires IsNode(a[i], n.tag, Size(l) + 1) && Stands(a, i + 1, l) && Stands(a, j, r)
    ensures Stands(a, i, Binary(n, l, r))
  {
  }

  lemma TurnedTags(t: Shape)
    requires LeftNested(t) && TagsOk(t)
    ensures TagsOk(Turned(t))
  {
    assert TagsOk(t.left) && TagsOk(Turned(t).right);
  }

  lemma {:induction false} RotatedTags(t: Shape)
    requires TagsOk(t)
    ensures TagsOk(RotatedShape(t))
    decreases FirstOf(t)
  {
    if LeftNested(t) {
      TurnedTags(t);
      RotatedTags(Turned(t));
    }
  }

  /** Rotates in place until the first sibling is of another kind. */
  method CorrectAssociativity(a: array<Slot>, i: nat, ghost t: Shape)
    requires Stands(a[..], i, t) && TagsOk(t) && IsOp(t.n.tag)
    modifies a
    ensures Stands(a[..], i, RotatedShape(t))
    ensures forall k :: 0 <= k < i || i + Size(t) <= k < a.Length ==> a[k] == old(a[k])
  {
    ghost var cur := t;
    FirstTwo(a[..], i, cur);
    while a[i + 1].n.tag == a[i].n.tag
      invariant TagsOk(cur) && cur.Binary? && cur.n == t.n && Size(cur) == Size(t)
      invariant Stands(a[..], i, cur)
      invariant a[i].Used? && a[i].n.tag == cur.n.tag && a[i + 1].Used? && a[i + 1].n.tag == cur.left.n.tag
      invariant cur.left.n.tag == cur.n.tag ==> cur.left.Binary?
      invariant RotatedShape(cur) == RotatedShape(t)
      invariant forall k :: 0 <= k < i || i + Size(t) <= k < a.Length ==> a[k] == old(a[k])
      decreases cur.left
    {
      RotateOnce(a, i, cur);
      TurnedTags(cur);
      cur := Turned(cur);
      FirstTwo(a[..], i, cur);
    }
  }

  lemma FirstTwo(a: seq<Slot>, i: nat, t: Shape)
    requires Stands(a, i, t) && TagsOk(t) && IsOp(t.n.tag)
    ensures a[i].Used? && a[i].n.tag == t.n.tag && t.Binary?
    ensures a[i + 1].Used? && a[i + 1].n.tag == t.left.n.tag && (t.left.n.tag == t.n.tag ==> t.left.Binary?)
  {
    FirstSlot(a, i, t);
    FirstSlot(a, i + 1, t.left);
    assert TagsOk(t.left);
  }
}
