/** Keys in flat trees keep naming the same strings. */
module Keys {
  import opened Peg
  import opened FlatTrees
  import opened KTables
  import opened Searching

  /** The tree stands at position i, with every field of every node. */
  ghost predicate Exact(a: seq<Slot>, i: nat, t: Shape)
    decreases t
  {
    i + Size(t) <= |a| &&
    match t
    case Leaf(n) => a[i] == Used(n)
    case SetLeaf(n, bits) => a[i] == Used(n) && SetAt(a, i + 1, bits)
    case Unary(n, sub) => a[i] == Used(n) && Exact(a, i + 1, sub)
    case Binary(n, left, right) =>
      a[i] == Used(n.(u := Size(left) + 1)) && Exact(a, i + 1, left) && Exact(a, i + 1 + Size(left), right)
  }

  lemma {:induction false} ExactStill(a: seq<Slot>, a': seq<Slot>, i: nat, t: Shape)
    requires |a| == |a'| && Exact(a, i, t)
    requires forall k :: i <= k < i + Size(t) ==> a'[k] == a[k]
    ensures Exact(a', i, t)
    decreases t
  {
    match t
    case Unary(_, sub) => ExactStill(a, a', i + 1, sub);
    case Binary(_, left, right) =>
      ExactStill(a, a', i + 1, left);
      ExactStill(a, a', i + 1 + Size(left), right);
    case _ =>
  }

  // ---------- what keys name ----------

  /** The name of a key; keys start at 1, and 0 names nothing. */
  function Named(kt: seq<Name>, key: int): Option<Name> {
    if 1 <= key <= |kt| then Some(kt[key - 1]) else None
  }

  /** The kinds of nodes whose key is shifted when tables are joined. */
  predicate HasKey(tag: Tag) {
    tag == OpenCallTag || tag == CallTag || tag == RuleTag || tag == CaptureTag
  }

  predicate IsConst(n: Header) { n.tag == CaptureTag && n.cap == ROSIE_CONST }

  /** Every key, and every value of a constant capture, is 0 or an index of the table. */
  predicate KeysIn(t: Shape, kt: seq<Name>) {
    (HasKey(t.n.tag) ==> 0 <= t.n.key <= |kt|) && (IsConst(t.n) ==> 0 <= t.n.u <= |kt|) &&
    match t
    case Unary(_, sub) => KeysIn(sub, kt)
    case Binary(_, left, right) => KeysIn(left, kt) && KeysIn(right, kt)
    case _ => true
  }

  /** The names at a node, as far as the node has any. */
  datatype Label = Label(tag: Tag, name: Option<Name>, value: Option<Name>)

  function LabelOf(n: Header, kt: seq<Name>): Label {
    Label(n.tag, if HasKey(n.tag) then Named(kt, n.key) else None,
          if IsConst(n) then Named(kt, n.u) else None)
  }

  /** The names of a tree, from the root on. */
  function Labels(t: Shape, kt: seq<Name>): seq<Label> {
    match t
    case Leaf(n) => [LabelOf(n, kt)]
    case SetLeaf(n, _) => [LabelOf(n, kt)]
    case Unary(n, sub) => [LabelOf(n, kt)] + Labels(sub, kt)
    case Binary(n, left, right) => [LabelOf(n, kt)] + Labels(left, kt) + Labels(right, kt)
  }

  // ---------- joining ----------

  function ShiftedKey(key: int, n: nat): int { if key > 0 then key + n else key }

  function ShiftedNode(h: Header, n: nat): Header {
    if h.tag == CaptureTag then h.(key := ShiftedKey(h.key, n), u := ShiftedKey(h.u, n))
    else if HasKey(h.tag) then h.(key := ShiftedKey(h.key, n))
    else h
  }

  function Shifted(t: Shape, n: nat): (r: Shape)
    ensures Size(r) == Size(t)
  {
    match t
    case Leaf(h) => Leaf(ShiftedNode(h, n))
    case SetLeaf(h, bits) => SetLeaf(ShiftedNode(h, n), bits)
    case Unary(h, sub) => Unary(ShiftedNode(h, n), Shifted(sub, n))
    case Binary(h, left, right) => Binary(ShiftedNode(h, n), Shifted(left, n), Shifted(right, n))
  }

  /** The node in its slot, and its siblings behind it. */
  lemma NodeExact(a: seq<Slot>, i: nat, t: Shape)
    requires TagsOk(t) && Exact(a, i, t)
    ensures i + Size(t) <= |a| && a[i].Used? && a[i].n.tag == t.n.tag
    ensures a[i].n == if t.Binary? then t.n.(u := Size(t.left) + 1) else t.n
    ensures Siblings(t.n.tag) == 1 ==> t.Unary? && TagsOk(t.sub) && Exact(a, i + 1, t.sub)
    ensures Siblings(t.n.tag) == 2 ==>
              t.Binary? && TagsOk(t.left) && TagsOk(t.right) && Exact(a, i + 1, t.left) &&
              Exact(a, i + 1 + Size(t.left), t.right)
  {
  }

  /** A shifted node in front of shifted siblings, or of the slots that belong to a leaf. */
  lemma ShiftedAt(was: seq<Slot>, a: seq<Slot>, i: nat, t: Shape, n: nat)
    requires TagsOk(t) && Exact(was, i, t) && |a| == |was| && was[i].Used? && a[i] == Used(ShiftedNode(was[i].n, n))
    requires Siblings(t.n.tag) == 0 ==> forall k :: i < k < i + Size(t) ==> a[k] == was[k]
    requires t.Unary? ==> Exact(a, i + 1, Shifted(t.sub, n))
    requires t.Binary? ==>
               Exact(a, i + 1, Shifted(t.left, n)) && Exact(a, i + 1 + Size(t.left), Shifted(t.right, n))
    ensures Exact(a, i, Shifted(t, n))
  {
    if t.SetLeaf? { assert SetAt(a, i + 1, t.bits); }
  }

  /** Shifts the keys of a tree in place. */
  method CorrectKeys(a: array<Slot>, i: nat, n: nat, ghost t: Shape)
    requires TagsOk(t) && Exact(a[..], i, t)
    modifies a
    ensures Exact(a[..], i, Shifted(t, n))
    ensures forall k :: 0 <= k < i || i + Size(t) <= k < a.Length ==> a[k] == old(a[k])
    decreases Size(t), 0
  {
    hide Exact, Shifted, ShiftedNode, TagsOk;
    if n == 0 {
      ShiftedByNothing(t);
      return;
    }
    ghost var was := a[..];
    NodeExact(was, i, t);
    var h := a[i].n;
    a[i] := Used(ShiftedNode(h, n));
    match Siblings(h.tag) {
      case 1 =>
        ExactStill(was, a[..], i + 1, t.sub);
        CorrectKeys(a, i + 1, n, t.sub);
      case 2 =>
        ExactStill(was, a[..], i + 1, t.left);
        ExactStill(was, a[..], i + h.u, t.right);
        CorrectBoth(a, i + 1, i + h.u, n, t.left, t.right);
      case _ => LeafOnly(t);
    }
    ShiftedAt(was, a[..], i, t, n);
  }

  lemma LeafOnly(t: Shape)
    requires TagsOk(t) && Siblings(t.n.tag) == 0
    ensures t.Leaf? || t.SetLeaf?
  {
  }

  method CorrectBoth(a: array<Slot>, i: nat, j: nat, n: nat, ghost l: Shape, ghost r: Shape)
    requires TagsOk(l) && TagsOk(r) && Exact(a[..], i, l) && Exact(a[..], j, r) && j == i + Size(l)
    modifies a
    ensures Exact(a[..], i, Shifted(l, n)) && Exact(a[..], j, Shifted(r, n))
    ensures forall k :: 0 <= k < i || j + Size(r) <= k < a.Length ==> a[k] == old(a[k])
    decreases Size(l) + Size(r), 1
  {
    ghost var was := a[..];
    CorrectKeys(a, i, n, l);
    ExactStill(was, a[..], j, r);
    ghost var now := a[..];
    CorrectKeys(a, j, n, r);
    ExactStill(now, a[..], i, Shifted(l, n));
  }

  lemma {:induction false} ShiftedByNothing(t: Shape)
    ensures Shifted(t, 0) == t
    decreases t
  {
    match t
    case Unary(_, sub) => ShiftedByNothing(sub);
    case Binary(_, left, right) =>
      ShiftedByNothing(left);
      ShiftedByNothing(right);
    case _ =>
  }

  lemma ShiftedLabel(h: Header, before: seq<Name>, kt: seq<Name>)
    requires (HasKey(h.tag) ==> 0 <= h.key <= |kt|) && (IsConst(h) ==> 0 <= h.u <= |kt|)
    ensures LabelOf(ShiftedNode(h, |before|), before + kt) == LabelOf(h, kt)
  {
  }

  /** Behind the names of another table every shifted key names what it named before. */
  lemma {:induction false} ShiftKeepsNames(t: Shape, before: seq<Name>, kt: seq<Name>)
    requires KeysIn(t, kt)
    ensures Labels(Shifted(t, |before|), before + kt) == Labels(t, kt)
    decreases t
  {
    hide LabelOf, ShiftedNode;
    ShiftedLabel(t.n, before, kt);
    match t
    case Unary(_, sub) => ShiftKeepsNames(sub, before, kt);
    case Binary(_, left, right) =>
      ShiftKeepsNames(left, before, kt);
      ShiftKeepsNames(right, before, kt);
    case _ =>
  }

  /** In front of the names of another table every key names what it named before. */
  lemma {:induction false} PrefixKeepsNames(t: Shape, kt: seq<Name>, behind: seq<Name>)
    requires KeysIn(t, kt)
    ensures Labels(t, kt + behind) == Labels(t, kt)
    decreases t
  {
    match t
    case Unary(_, sub) => PrefixKeepsNames(sub, kt, behind);
    case Binary(_, left, right) =>
      PrefixKeepsNames(left, kt, behind);
      PrefixKeepsNames(right, kt, behind);
    case _ =>
  }

  /** A new table with the names of another. */
  method CopiedTable(k: Ktable) returns (copy: Ktable, ok: bool)
    requires k.Valid()
    ensures fresh(copy) && fresh(copy.elements) && fresh(copy.block) && copy.Valid()
    ensures ok <==> |k.Names()| <= KTABLE_MAX_SIZE
    ensures ok ==> copy.Names() == k.Names()
  {
    copy := new Ktable();
    var r := Concat(k, copy);
    ok := r.Shift?;
    assert [] + k.Names() == k.Names();
  }

  /** A new table with the names of two others, or of the one that both are. */
  method JoinedTable(k1: Ktable, k2: Ktable) returns (joined: Ktable, ok: bool)
    requires k1.Valid() && k2.Valid() && (k1 != k2 ==> k1.elements != k2.elements && k1.block != k2.block)
    ensures ok <==> (if k1 == k2 then |k1.Names()| else |k1.Names()| + |k2.Names()|) <= KTABLE_MAX_SIZE
    ensures fresh(joined) && joined.Valid()
    ensures ok ==> joined.Names() == if k1 == k2 then k1.Names() else k1.Names() + k2.Names()
  {
    joined, ok := CopiedTable(k1);
    if ok && k1 != k2 {
      var r := Concat(k2, joined);
      ok := r.Shift?;
    }
  }

  /** Shifts the keys of a tree; a table is not touched by that. */
  method ShiftBeside(kt: Ktable, a: array<Slot>, i: nat, n: nat, ghost t: Shape)
    requires kt.Valid() && TagsOk(t) && Exact(a[..], i, t)
    modifies a
    ensures kt.Valid() && kt.Names() == old(kt.Names())
    ensures Exact(a[..], i, Shifted(t, n))
    ensures forall k :: 0 <= k < i || i + Size(t) <= k < a.Length ==> a[k] == old(a[k])
  {
    CorrectKeys(a, i, n, t);
  }

  /** Joins two patterns' tables; the keys of the second tree are shifted unless both share one table. Afterwards
      every key of either tree names what it named before. */
  method JoinKtables(k1: Ktable, k2: Ktable, a: array<Slot>, i2: nat, ghost t1: Shape, ghost t2: Shape)
    returns (joined: Ktable, ok: bool, ghost t2': Shape)
    requires k1.Valid() && k2.Valid() && (k1 != k2 ==> k1.elements != k2.elements && k1.block != k2.block)
    requires TagsOk(t2) && Exact(a[..], i2, t2) && KeysIn(t1, k1.Names()) && KeysIn(t2, k2.Names())
    modifies a
    ensures ok <==> old(if k1 == k2 then |k1.Names()| else |k1.Names()| + |k2.Names()|) <= KTABLE_MAX_SIZE
    ensures ok ==> fresh(joined) && joined.Valid()
    ensures ok ==> Labels(t1, joined.Names()) == old(Labels(t1, k1.Names()))
    ensures ok ==> Exact(a[..], i2, t2') && Labels(t2', joined.Names()) == old(Labels(t2, k2.Names()))
    ensures forall k :: 0 <= k < i2 || i2 + Size(t2) <= k < a.Length ==> a[k] == old(a[k])
  {
    ghost var names1, names2 := k1.Names(), k2.Names();
    var n1 := k1.next - 1;
    t2' := t2;
    joined, ok := JoinedTable(k1, k2);
    if ok && k1 != k2 {
      JoinKeepsNames(t1, t2, names1, names2, joined.Names());
      ShiftBeside(joined, a, i2, n1, t2);
      t2' := Shifted(t2, |names1|);
    }
  }

  lemma JoinKeepsNames(t1: Shape, t2: Shape, names1: seq<Name>, names2: seq<Name>, all: seq<Name>)
    requires KeysIn(t1, names1) && KeysIn(t2, names2) && all == names1 + names2
    ensures Labels(t1, all) == Labels(t1, names1) && Labels(Shifted(t2, |names1|), all) == Labels(t2, names2)
  {
    PrefixKeepsNames(t1, names1, names2);
    ShiftKeepsNames(t2, names1, names2);
  }

  // ---------- compacting ----------

  /** Keys replaced by a table of new keys: those of captures, with the values of constant ones, and of rules. */
  function Mapped(t: Shape, m: seq<int>): (r: Shape)
    requires MapIn(t, |m|)
    ensures Size(r) == Size(t)
    decreases t, 0
  {
    match t
    case Unary(h, sub) =>
      if IsConst(h) then Unary(h.(key := m[h.key], u := m[h.u]), sub)
      else if h.tag == CaptureTag then Unary(h.(key := m[h.key]), Mapped(sub, m))
      else if h.tag == GrammarTag then Unary(h, MappedRules(sub, m))
      else Unary(h, Mapped(sub, m))
    case Binary(h, left, right) => Binary(h, Mapped(left, m), Mapped(right, m))
    case _ => t
  }

  function MappedRules(t: Shape, m: seq<int>): (r: Shape)
    requires RulesIn(t, |m|)
    ensures Size(r) == Size(t)
    decreases t, 1
  {
    if t.Binary? then Binary(t.n.(key := m[t.n.key]), Mapped(t.left, m), MappedRules(t.right, m)) else t
  }

  /** The keys are positions in a table of n entries, a constant capture holds nothing but its value, and rules
      stand only in the lists of grammars, which say how many there are. */
  predicate MapIn(t: Shape, n: nat)
    decreases t, 0
  {
    match t
    case Unary(h, sub) =>
      (h.tag == CaptureTag ==> 0 <= h.key < n) && (IsConst(h) ==> 0 <= h.u < n && sub.Leaf?) &&
      (if h.tag == GrammarTag then RulesIn(sub, n) && h.u == RuleCount(sub) else MapIn(sub, n))
    case Binary(h, left, right) => h.tag != RuleTag && MapIn(left, n) && MapIn(right, n)
    case _ => true
  }

  predicate RulesIn(t: Shape, n: nat)
    decreases t, 1
  {
    if t.Binary? then t.n.tag == RuleTag && 0 <= t.n.key < n && MapIn(t.left, n) && RulesIn(t.right, n)
    else t.Leaf?
  }

  function RuleCount(t: Shape): nat { if t.Binary? then 1 + RuleCount(t.right) else 0 }

  /** Replaces the keys of a tree in place. */
  method UpdateCaptureKeys(a: array<Slot>, i: nat, m: seq<int>, ghost t: Shape)
    requires TagsOk(t) && Exact(a[..], i, t) && MapIn(t, |m|)
    modifies a
    ensures Exact(a[..], i, Mapped(t, m))
    ensures forall k :: 0 <= k < i || i + Size(t) <= k < a.Length ==> a[k] == old(a[k])
    decreases Size(t), 1
  {
    hide Exact, TagsOk, Mapped;
    NodeExact(a[..], i, t);
    var h := a[i].n;
    var siblings := Siblings(h.tag);
    if h.tag == CaptureTag {
      UpdateCapture(a, i, m, t);
    } else if h.tag == GrammarTag {
      UpdateRules(a, i + 1, h.u, m, t.sub);
    } else if siblings == 1 {
      UpdateCaptureKeys(a, i + 1, m, t.sub);
    } else if siblings == 2 {
      UpdateBoth(a, i + 1, i + h.u, m, t.left, t.right);
    }
    if h.tag != CaptureTag { MappedAt(old(a[..]), a[..], i, t, m); }
  }

  /** A node whose key is not mapped, in front of mapped siblings. */
  lemma MappedAt(was: seq<Slot>, a: seq<Slot>, i: nat, t: Shape, m: seq<int>)
    requires TagsOk(t) && Exact(was, i, t) && MapIn(t, |m|) && t.n.tag != CaptureTag && |a| == |was|
    requires a[i] == was[i]
    requires Siblings(t.n.tag) == 0 ==> forall k :: i < k < i + Size(t) ==> a[k] == was[k]
    requires t.n.tag == GrammarTag ==> Exact(a, i + 1, MappedRules(t.sub, m))
    requires Siblings(t.n.tag) == 1 && t.n.tag != GrammarTag ==> Exact(a, i + 1, Mapped(t.sub, m))
    requires Siblings(t.n.tag) == 2 ==>
               Exact(a, i + 1, Mapped(t.left, m)) && Exact(a, i + 1 + Size(t.left), Mapped(t.right, m))
    ensures Exact(a, i, Mapped(t, m))
  {
    if t.SetLeaf? { assert SetAt(a, i + 1, t.bits); }
  }

  method UpdateCapture(a: array<Slot>, i: nat, m: seq<int>, ghost t: Shape)
    requires TagsOk(t) && Exact(a[..], i, t) && MapIn(t, |m|) && t.n.tag == CaptureTag
    modifies a
    ensures Exact(a[..], i, Mapped(t, m))
    ensures forall k :: 0 <= k < i || i + Size(t) <= k < a.Length ==> a[k] == old(a[k])
    decreases Size(t), 0
  {
    ghost var was := a[..];
    var h := a[i].n;
    a[i] := Used(h.(key := m[h.key]));
    if h.cap == ROSIE_CONST {
      a[i] := Used(a[i].n.(u := m[h.u]));
      ExactStill(was, a[..], i + 1, t.sub);
    } else {
      ExactStill(was, a[..], i + 1, t.sub);
      UpdateCaptureKeys(a, i + 1, m, t.sub);
    }
  }

  method UpdateBoth(a: array<Slot>, i: nat, j: nat, m: seq<int>, ghost l: Shape, ghost r: Shape)
    requires TagsOk(l) && TagsOk(r) && Exact(a[..], i, l) && Exact(a[..], j, r) && j == i + Size(l)
    requires MapIn(l, |m|) && MapIn(r, |m|)
    modifies a
    ensures Exact(a[..], i, Mapped(l, m)) && Exact(a[..], j, Mapped(r, m))
    ensures forall k :: 0 <= k < i || j + Size(r) <= k < a.Length ==> a[k] == old(a[k])
    decreases Size(l) + Size(r), 1
  {
    ghost var was := a[..];
    UpdateCaptureKeys(a, i, m, l);
    ExactStill(was, a[..], j, r);
    ghost var now := a[..];
    UpdateCaptureKeys(a, j, m, r);
    ExactStill(now, a[..], i, Mapped(l, m));
  }

  /** The rules of a grammar, one after the other; the end of the list is not touched. */
  method UpdateRules(a: array<Slot>, i: nat, n: nat, m: seq<int>, ghost t: Shape)
    requires TagsOk(t) && Exact(a[..], i, t) && RulesIn(t, |m|) && n == RuleCount(t)
    modifies a
    ensures Exact(a[..], i, MappedRules(t, m))
    ensures forall k :: 0 <= k < i || i + Size(t) <= k < a.Length ==> a[k] == old(a[k])
    decreases Size(t), 1
  {
    if n > 0 {
      ghost var was := a[..];
      var h := a[i].n;
      UpdateRule(a, i, m, t);
      ExactStill(was, a[..], i + h.u, t.right);
      ghost var now := a[..];
      UpdateRules(a, i + h.u, n - 1, m, t.right);
      ExactStill(now, a[..], i + 1, Mapped(t.left, m));
    }
  }

  method UpdateRule(a: array<Slot>, i: nat, m: seq<int>, ghost t: Shape)
    requires TagsOk(t) && Exact(a[..], i, t) && RulesIn(t, |m|) && t.Binary?
    modifies a
    ensures a[i] == Used(t.n.(key := m[t.n.key], u := Size(t.left) + 1))
    ensures Exact(a[..], i + 1, Mapped(t.left, m))
    ensures forall k :: 0 <= k < i || i + 1 + Size(t.left) <= k < a.Length ==> a[k] == old(a[k])
    decreases Size(t), 0
  {
    ghost var was := a[..];
    var h := a[i].n;
    a[i] := Used(h.(key := m[h.key]));
    ExactStill(was, a[..], i + 1, t.left);
    UpdateCaptureKeys(a, i + 1, m, t.left);
  }

  /** The first n new keys name in the new table what the old ones name in the old table. */
  ghost predicate Filled(m: seq<int>, n: nat, kt: seq<Name>, kt': seq<Name>) {
    1 <= n <= |m| && m[0] == 0 && |m| == |kt| + 1 &&
    forall k :: 1 <= k < n ==> 1 <= m[k] <= |kt'| && kt'[m[k] - 1] == kt[k - 1]
  }

  /** They all do. */
  ghost predicate Carries(m: seq<int>, kt: seq<Name>, kt': seq<Name>) {
    Filled(m, |m|, kt, kt')
  }

  /** Equal labels everywhere but at calls. */
  ghost predicate SameButCalls(ls: seq<Label>, ls': seq<Label>) {
    |ls| == |ls'| && forall k :: 0 <= k < |ls| ==> ls[k] == ls'[k] || ls[k].tag == CallTag || ls[k].tag == OpenCallTag
  }

  lemma SameJoined(x: Label, x': Label, ls: seq<Label>, ls': seq<Label>)
    requires SameButCalls(ls, ls') && (x == x' || x.tag == CallTag || x.tag == OpenCallTag)
    ensures SameButCalls([x] + ls, [x'] + ls')
  {
  }

  lemma SameBoth(l: seq<Label>, l': seq<Label>, r: seq<Label>, r': seq<Label>)
    requires SameButCalls(l, l') && SameButCalls(r, r')
    ensures SameButCalls(l + r, l' + r')
  {
  }

  lemma CarriedLabel(h: Header, h': Header, m: seq<int>, kt: seq<Name>, kt': seq<Name>)
    requires Carries(m, kt, kt') && h'.tag == h.tag && h'.cap == h.cap
    requires h.tag == CaptureTag || h.tag == RuleTag ==> 0 <= h.key < |m| && h'.key == m[h.key]
    requires IsConst(h) ==> 0 <= h.u < |m| && h'.u == m[h.u]
    ensures LabelOf(h, kt) == LabelOf(h', kt') || h.tag == CallTag || h.tag == OpenCallTag
  {
  }

  /** Captures and rules keep their names, and constant captures their values. */
  lemma {:induction false} MappedKeepsNames(t: Shape, m: seq<int>, kt: seq<Name>, kt': seq<Name>)
    requires TagsOk(t) && MapIn(t, |m|) && Carries(m, kt, kt')
    ensures SameButCalls(Labels(t, kt), Labels(Mapped(t, m), kt'))
    decreases t, 0
  {
    var t' := Mapped(t, m);
    CarriedLabel(t.n, t'.n, m, kt, kt');
    match t
    case Unary(h, sub) =>
      if h.tag == GrammarTag {
        MappedRulesKeepNames(sub, m, kt, kt');
      } else if IsConst(h) {
        CarriedLabel(sub.n, sub.n, m, kt, kt');
      } else {
        MappedKeepsNames(sub, m, kt, kt');
      }
      SameJoined(LabelOf(h, kt), LabelOf(t'.n, kt'), Labels(sub, kt), Labels(t'.sub, kt'));
    case Binary(h, left, right) =>
      MappedKeepsNames(left, m, kt, kt');
      MappedKeepsNames(right, m, kt, kt');
      SameJoined(LabelOf(h, kt), LabelOf(t'.n, kt'), Labels(left, kt), Labels(t'.left, kt'));
      SameBoth([LabelOf(h, kt)] + Labels(left, kt), [LabelOf(t'.n, kt')] + Labels(t'.left, kt'),
               Labels(right, kt), Labels(t'.right, kt'));
    case _ =>
  }

  lemma {:induction false} MappedRulesKeepNames(t: Shape, m: seq<int>, kt: seq<Name>, kt': seq<Name>)
    requires TagsOk(t) && RulesIn(t, |m|) && Carries(m, kt, kt')
    ensures SameButCalls(Labels(t, kt), Labels(MappedRules(t, m), kt'))
    decreases t, 1
  {
    if t.Binary? {
      var t' := MappedRules(t, m);
      CarriedLabel(t.n, t'.n, m, kt, kt');
      MappedKeepsNames(t.left, m, kt, kt');
      MappedRulesKeepNames(t.right, m, kt, kt');
      SameJoined(LabelOf(t.n, kt), LabelOf(t'.n, kt'), Labels(t.left, kt), Labels(t'.left, kt'));
      SameBoth([LabelOf(t.n, kt)] + Labels(t.left, kt), [LabelOf(t'.n, kt')] + Labels(t'.left, kt'),
               Labels(t.right, kt), Labels(t'.right, kt'));
    }
  }

  /** The keys of calls are left alone, so that a call names its old rule in the new table exactly if its key
      happens to be unchanged. */
  lemma StaleCallKey(m: seq<int>, kt: seq<Name>, kt': seq<Name>, key: int)
    requires Carries(m, kt, kt') && StrictlySorted(kt') && 1 <= key <= |kt|
    ensures Named(kt', key) == Named(kt, key) <==> m[key] == key
  {
    if key <= |kt'| { IndexUnique(kt', key - 1, m[key] - 1); }
  }

  method NewKey(kt: Ktable, ckt: Ktable, idx: nat) returns (newidx: nat)
    requires kt.Valid() && 1 <= idx < kt.next
    requires ckt.Valid() && StrictlySorted(ckt.Names()) && Members(ckt.Names()) == Members(kt.Names())
    ensures 1 <= newidx <= |ckt.Names()| && ckt.Names()[newidx - 1] == kt.Names()[idx - 1]
  {
    var name := kt.NameOf(kt.elements[idx]);
    assert name == kt.Names()[idx - 1] && name in Members(kt.Names());
    newidx := CompactSearch(ckt, name);
  }

  method FillOne(kt: Ktable, ckt: Ktable, mapping: array<int>, idx: nat, newidx: nat)
    requires kt.Valid() && ckt.Valid() && 1 <= idx < kt.next && 1 <= newidx < ckt.next
    requires Filled(mapping[..], idx, kt.Names(), ckt.Names()) && ckt.Names()[newidx - 1] == kt.Names()[idx - 1]
    modifies mapping
    ensures kt.Valid() && kt.Names() == old(kt.Names()) && ckt.Valid() && ckt.Names() == old(ckt.Names())
    ensures Filled(mapping[..], idx + 1, kt.Names(), ckt.Names())
  {
    hide Ktable.Valid, Ktable.Names;
    mapping[idx] := newidx;
  }

  method MapOne(kt: Ktable, ckt: Ktable, mapping: array<int>, idx: nat)
    requires kt.Valid() && ckt.Valid() && 1 <= idx < kt.next
    requires StrictlySorted(ckt.Names()) && Members(ckt.Names()) == Members(kt.Names())
    requires Filled(mapping[..], idx, kt.Names(), ckt.Names())
    modifies mapping
    ensures kt.Valid() && kt.Names() == old(kt.Names()) && ckt.Valid() && ckt.Names() == old(ckt.Names())
    ensures Filled(mapping[..], idx + 1, kt.Names(), ckt.Names())
  {
    var newidx := NewKey(kt, ckt, idx);
    FillOne(kt, ckt, mapping, idx, newidx);
  }

  /** From every old key to the new one of the same name. */
  method KeyMapping(kt: Ktable, ckt: Ktable) returns (mapping: array<int>)
    requires kt.Valid() && ckt.Valid() && StrictlySorted(ckt.Names()) && Members(ckt.Names()) == Members(kt.Names())
    ensures fresh(mapping) && Carries(mapping[..], kt.Names(), ckt.Names())
  {
    mapping := new int[kt.next](_ => 0);
    for idx := 1 to kt.next
      invariant kt.Valid() && ckt.Valid() && kt.Names() == old(kt.Names()) && ckt.Names() == old(ckt.Names())
      invariant Filled(mapping[..], idx, kt.Names(), ckt.Names())
      modifies mapping
    {
      MapOne(kt, ckt, mapping, idx);
    }
  }

  /** Replaces a pattern's table by a compacted one. */
  method CompactKtable(kt: Ktable, a: array<Slot>, i: nat, ghost t: Shape)
    returns (ckt: Ktable, ghost m: seq<int>)
    requires kt.Valid() && TagsOk(t) && Exact(a[..], i, t) && MapIn(t, |kt.Names()| + 1)
    modifies a
    ensures fresh(ckt) && ckt.Valid() && StrictlySorted(ckt.Names())
    ensures Members(ckt.Names()) == old(Members(kt.Names())) && Carries(m, old(kt.Names()), ckt.Names())
    ensures Exact(a[..], i, Mapped(t, m))
    ensures SameButCalls(old(Labels(t, kt.Names())), Labels(Mapped(t, m), ckt.Names()))
    ensures forall k :: 0 <= k < i || i + Size(t) <= k < a.Length ==> a[k] == old(a[k])
  {
    hide Ktable.Valid, Ktable.Names, Members, Labels, SameButCalls, Exact, Mapped, StrictlySorted;
    ckt := Compact(kt);
    var mapping := KeyMapping(kt, ckt);
    m := mapping[..];
    MappedKeepsNames(t, m, kt.Names(), ckt.Names());
    UpdateBeside(ckt, a, i, mapping[..], t);
  }

  /** Replaces the keys of a tree; a table is not touched by that. */
  method UpdateBeside(kt: Ktable, a: array<Slot>, i: nat, m: seq<int>, ghost t: Shape)
    requires kt.Valid() && TagsOk(t) && Exact(a[..], i, t) && MapIn(t, |m|)
    modifies a
    ensures kt.Valid() && kt.Names() == old(kt.Names())
    ensures Exact(a[..], i, Mapped(t, m))
    ensures forall k :: 0 <= k < i || i + Size(t) <= k < a.Length ==> a[k] == old(a[k])
  {
    UpdateCaptureKeys(a, i, m, t);
  }
}
