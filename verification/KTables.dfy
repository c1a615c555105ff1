/** Symbol tables: joined, sorted and compacted. */
module KTables {
  import opened Peg

  type Name = seq<Byte>

  const KTABLE_INIT_SIZE: nat := 64
  const KTABLE_AVG_ELEMENT_LEN: nat := 34
  const KTABLE_MAX_SIZE: nat := 16777215

  // ---------- the order of names ----------

  /** Compares the first n bytes. */
  function MemCmp(a: Name, b: Name, n: nat): int
    requires n <= |a| && n <= |b|
    decreases n
  {
    if n == 0 then 0 else if a[0] != b[0] then a[0] as int - b[0] as int else MemCmp(a[1..], b[1..], n - 1)
  }

  /** The common part decides, and then the length. */
  function NameCmp(a: Name, b: Name): int {
    var shorter := |a| < |b|;
    var res := MemCmp(a, b, if shorter then |a| else |b|);
    if res == 0 then (if |a| == |b| then 0 else if shorter then -1 else 1) else res
  }

  lemma NameCmpTail(a: Name, b: Name)
    requires a != [] && b != [] && a[0] == b[0]
    ensures NameCmp(a, b) == NameCmp(a[1..], b[1..])
  {
  }

  /** Only equal names compare as equal, and the order of two names does not depend on which comes first. */
  lemma {:induction false} NameCmpSign(a: Name, b: Name)
    ensures NameCmp(a, b) == 0 <==> a == b
    ensures NameCmp(a, b) < 0 <==> NameCmp(b, a) > 0
    decreases a
  {
    if a != [] && b != [] && a[0] == b[0] {
      NameCmpTail(a, b);
      NameCmpTail(b, a);
      NameCmpSign(a[1..], b[1..]);
      assert a == [a[0]] + a[1..] && b == [b[0]] + b[1..];
    }
  }

  lemma {:induction false} NameCmpTransitive(a: Name, b: Name, c: Name)
    requires NameCmp(a, b) <= 0 && NameCmp(b, c) <= 0
    ensures NameCmp(a, c) <= 0
    ensures NameCmp(a, b) < 0 || NameCmp(b, c) < 0 ==> NameCmp(a, c) < 0
    decreases a
  {
    if a != [] && b != [] && c != [] && a[0] == b[0] == c[0] {
      NameCmpTail(a, b);
      NameCmpTail(b, c);
      NameCmpTail(a, c);
      NameCmpTransitive(a[1..], b[1..], c[1..]);
    }
  }

  /** The order of a dictionary: at the first place where the names differ the smaller byte comes first, and a name
      comes before those that go on behind it. */
  ghost predicate Before(a: Name, b: Name) {
    exists k: nat :: DiffersAt(a, b, k) && (k == |a| || (k < |b| && a[k] < b[k]))
  }

  /** The names agree up to here and no further. */
  predicate DiffersAt(a: Name, b: Name, k: nat) {
    && k <= |a| && k <= |b| && a[..k] == b[..k]
    && (if k == |a| || k == |b| then |a| != |b| else a[k] != b[k])
  }

  lemma {:induction false} NameCmpBefore(a: Name, b: Name)
    ensures NameCmp(a, b) < 0 <==> Before(a, b)
    decreases a
  {
    if a == [] || b == [] || a[0] != b[0] {
      assert a != b ==> DiffersAt(a, b, 0);
      assert forall k: nat :: DiffersAt(a, b, k) && k > 0 ==> a[..k][0] == a[0] && b[..k][0] == b[0];
    } else {
      NameCmpTail(a, b);
      NameCmpBefore(a[1..], b[1..]);
      forall k: nat | k > 0
        ensures DiffersAt(a, b, k) <==> DiffersAt(a[1..], b[1..], k - 1)
      {
        DiffersTail(a, b, k);
      }
      if Before(a[1..], b[1..]) {
        var k: nat :| DiffersAt(a[1..], b[1..], k) && (k == |a| - 1 || (k < |b| - 1 && a[1..][k] < b[1..][k]));
        assert DiffersAt(a, b, k + 1);
      }
      if Before(a, b) {
        var k: nat :| DiffersAt(a, b, k) && (k == |a| || (k < |b| && a[k] < b[k]));
        assert DiffersAt(a[1..], b[1..], k - 1);
      }
    }
  }

  lemma DiffersTail(a: Name, b: Name, k: nat)
    requires a != [] && b != [] && a[0] == b[0] && k > 0
    ensures DiffersAt(a, b, k) <==> DiffersAt(a[1..], b[1..], k - 1)
  {
    if k <= |a| && k <= |b| {
      assert a[..k] == [a[0]] + a[1..][..k - 1] && b[..k] == [b[0]] + b[1..][..k - 1];
      assert a[1..][..k - 1] == a[..k][1..] && b[1..][..k - 1] == b[..k][1..];
    }
  }

  // ---------- the table ----------

  datatype Element = Element(start: nat, len: nat)

  lemma SameSlice(a: seq<Byte>, b: seq<Byte>, from: nat, to: nat)
    requires from <= to <= |b| <= |a| && a[..|b|] == b
    ensures a[from..to] == b[from..to]
  {
    assert forall k :: from <= k < to ==> a[k] == a[..|b|][k] == b[k];
  }

  /** A larger block with the same bytes in front. */
  method CopyBlock(source: array<Byte>, newsize: nat) returns (temp: array<Byte>)
    requires source.Length <= newsize
    ensures fresh(temp) && temp.Length == newsize && temp[..source.Length] == source[..]
  {
    temp := new Byte[newsize](_ => 0);
    for i := 0 to source.Length
      invariant temp[..i] == source[..i]
      modifies temp
    {
      temp[i] := source[i];
    }
  }

  class Ktable {
    var block: array<Byte>
    var blocknext: nat
    var elements: array<Element>
    var next: nat

    ghost predicate Valid()
      reads this, elements
    {
      && 1 <= next <= elements.Length && blocknext <= block.Length && 1 <= block.Length
      && forall i :: 1 <= i < next ==> elements[i].start + elements[i].len <= blocknext
    }

    /** The name of an element; indexes start at 1. */
    function NameOf(el: Element): Name
      requires el.start + el.len <= block.Length
      reads this, block
    {
      block[el.start..el.start + el.len]
    }

    ghost function Names(): (r: seq<Name>)
      requires Valid()
      reads this, elements, block
      ensures |r| == next - 1
    {
      seq(next - 1, i requires 0 <= i < next - 1 && Valid() reads this, elements, block => NameOf(elements[i + 1]))
    }

    constructor ()
      ensures Valid() && fresh(elements) && fresh(block) && Names() == []
    {
      elements := new Element[1 + KTABLE_INIT_SIZE](_ => Element(0, 0));
      next := 1;
      block := new Byte[(1 + KTABLE_INIT_SIZE) * KTABLE_AVG_ELEMENT_LEN](_ => 0);
      blocknext := 0;
    }

    method ExtendElements()
      requires Valid()
      modifies this`elements
      ensures Valid() && fresh(elements) && elements.Length == 2 * old(elements).Length && Names() == old(Names())
    {
      var source, n := elements, elements.Length;
      var temp := new Element[2 * n](_ => Element(0, 0));
      for i := 0 to n
        invariant forall j :: 0 <= j < i ==> temp[j] == source[j]
        modifies temp
      {
        temp[i] := source[i];
      }
      elements := temp;
      assert forall i :: 0 <= i < next - 1 ==> Names()[i] == old(Names())[i];
    }

    method ExtendBlock(atLeast: nat)
      requires Valid()
      modifies this`block
      ensures Valid() && fresh(block) && block.Length - blocknext >= atLeast && Names() == old(Names())
    {
      hide Ktable.Names;
      var source, n := block, block.Length;
      var newsize := 2 * n;
      if atLeast > n { newsize := newsize + atLeast; }
      var temp := CopyBlock(source, newsize);
      forall i | 1 <= i < next
        ensures temp[elements[i].start..elements[i].start + elements[i].len] == NameOf(elements[i])
      {
        SameSlice(temp[..], block[..], elements[i].start, elements[i].start + elements[i].len);
      }
      MoveTo(temp);
    }

    /** Another block, with all the names in the same places. */
    method MoveTo(temp: array<Byte>)
      requires Valid() && temp.Length >= block.Length
      requires forall i :: 1 <= i < next ==>
                 temp[elements[i].start..elements[i].start + elements[i].len] == NameOf(elements[i])
      modifies this`block
      ensures block == temp && Valid() && Names() == old(Names())
    {
      ghost var was := Names();
      block := temp;
      assert forall i :: 0 <= i < next - 1 ==> Names()[i] == was[i];
    }

    /** Adds a name at the end and returns its index. */
    method Add(name: Name) returns (index: nat)
      requires Valid()
      modifies this, elements, block
      ensures Valid() && Names() == old(Names()) + [name] && index == |Names()|
      ensures (elements == old(elements) || fresh(elements)) && (block == old(block) || fresh(block))
    {
      if next == elements.Length { ExtendElements(); }
      if block.Length - blocknext < |name| { ExtendBlock(|name|); }
      Write(name);
      index := next - 1;
    }

    method Write(name: Name)
      requires Valid() && next < elements.Length && |name| <= block.Length - blocknext
      modifies this`next, this`blocknext, elements, block
      ensures Valid() && Names() == old(Names()) + [name]
    {
      ghost var was, old_els, n := Names(), elements[..], next;
      StoreName(name);
      elements[next] := Element(blocknext, |name|);
      blocknext, next := blocknext + |name|, next + 1;
      assert Names()[n - 1] == name;
      forall i | 0 <= i < n - 1
        ensures Names()[i] == was[i]
      {
        assert elements[i + 1] == old_els[i + 1];
      }
    }

    /** Copies the name behind the others, which stay as they are. */
    method StoreName(name: Name)
      requires Valid() && |name| <= block.Length - blocknext
      modifies block
      ensures Valid() && Names() == old(Names()) && block[blocknext..blocknext + |name|] == name
    {
      for i := 0 to |name|
        invariant block[blocknext..blocknext + i] == name[..i]
        invariant forall j :: 0 <= j < blocknext ==> block[j] == old(block[j])
      {
        block[blocknext + i] := name[i];
        assert block[blocknext..blocknext + i + 1] == block[blocknext..blocknext + i] + [name[i]];
      }
      forall i | 0 <= i < next - 1
        ensures Names()[i] == old(Names())[i]
      {
        var el := elements[i + 1];
        assert forall k :: 0 <= k < el.len ==> NameOf(el)[k] == old(NameOf(el))[k];
      }
    }
  }

  // ---------- joining ----------

  datatype Joined = TooMany | Shift(n: nat)

  /** Adds the names of `kt1` at the end of `kt2`; the keys of what belongs to `kt1` must be shifted by the result,
      which is zero when no key has to change. */
  method Concat(kt1: Ktable, kt2: Ktable) returns (r: Joined)
    requires kt1 != kt2 && kt1.Valid() && kt2.Valid()
    requires kt1.elements != kt2.elements && kt1.block != kt2.block
    modifies kt2, kt2.elements, kt2.block
    ensures kt1.Valid() && kt2.Valid() && kt1.Names() == old(kt1.Names())
    ensures kt2.elements == old(kt2.elements) || fresh(kt2.elements)
    ensures kt2.block == old(kt2.block) || fresh(kt2.block)
    ensures r.TooMany? <==> old(|kt1.Names()| + |kt2.Names()|) > KTABLE_MAX_SIZE
    ensures r.TooMany? ==> kt2.Names() == old(kt2.Names())
    ensures r.Shift? ==> kt2.Names() == old(kt2.Names()) + kt1.Names()
    ensures r.Shift? ==> r.n == if kt1.Names() == [] then 0 else old(|kt2.Names()|)
  {
    var n1, n2 := kt1.next - 1, kt2.next - 1;
    ghost var names1, names2 := kt1.Names(), kt2.Names();
    if n1 + n2 > KTABLE_MAX_SIZE { return TooMany; }
    if n1 == 0 { return Shift(0); }
    for i := 1 to n1 + 1
      invariant kt1.Valid() && kt2.Valid() && kt1.Names() == names1 && kt1.next == n1 + 1
      invariant kt2.elements == old(kt2.elements) || fresh(kt2.elements)
      invariant kt2.block == old(kt2.block) || fresh(kt2.block)
      invariant kt2.Names() == names2 + names1[..i - 1]
    {
      ConcatOne(kt1, kt2, i, names1, names2);
    }
    assert names1[..n1] == names1;
    return Shift(n2);
  }

  method ConcatOne(kt1: Ktable, kt2: Ktable, i: nat, ghost names1: seq<Name>, ghost names2: seq<Name>)
    requires kt1 != kt2 && kt1.Valid() && kt2.Valid() && 1 <= i < kt1.next
    requires kt1.elements != kt2.elements && kt1.block != kt2.block
    requires kt1.Names() == names1 && kt2.Names() == names2 + names1[..i - 1]
    modifies kt2, kt2.elements, kt2.block
    ensures kt1.Valid() && kt2.Valid() && kt1.Names() == names1 && kt2.Names() == names2 + names1[..i]
    ensures kt2.elements == old(kt2.elements) || fresh(kt2.elements)
    ensures kt2.block == old(kt2.block) || fresh(kt2.block)
  {
    var name := kt1.NameOf(kt1.elements[i]);
    assert name == kt1.Names()[i - 1] == names1[i - 1];
    assert names1[..i] == names1[..i - 1] + [names1[i - 1]];
    var lastidx := kt2.Add(name);
  }

  // ---------- sorting out duplicates ----------

  predicate Sorted(names: seq<Name>) {
    forall i, j :: 0 <= i < j < |names| ==> NameCmp(names[i], names[j]) <= 0
  }

  predicate StrictlySorted(names: seq<Name>) {
    forall i, j :: 0 <= i < j < |names| ==> NameCmp(names[i], names[j]) < 0
  }

  lemma SortedBefore(names: seq<Name>)
    requires Sorted(names)
    ensures forall i, j :: 0 <= i < j < |names| ==> names[i] == names[j] || Before(names[i], names[j])
  {
    forall i, j | 0 <= i < j < |names|
      ensures names[i] == names[j] || Before(names[i], names[j])
    {
      NameCmpSign(names[i], names[j]);
      NameCmpBefore(names[i], names[j]);
    }
  }

  lemma StrictlySortedBefore(names: seq<Name>)
    requires StrictlySorted(names)
    ensures forall i, j :: 0 <= i < j < |names| ==> Before(names[i], names[j])
  {
    forall i, j | 0 <= i < j < |names|
      ensures Before(names[i], names[j])
    {
      NameCmpBefore(names[i], names[j]);
    }
  }

  /** Where a name belongs among sorted names. */
  lemma InsertSorted(names: seq<Name>, k: nat, x: Name)
    requires Sorted(names) && k <= |names|
    requires k > 0 ==> NameCmp(names[k - 1], x) <= 0
    requires k < |names| ==> NameCmp(x, names[k]) < 0
    ensures Sorted(names[..k] + [x] + names[k..])
  {
    var r := names[..k] + [x] + names[k..];
    forall i, j | 0 <= i < j < |r|
      ensures NameCmp(r[i], r[j]) <= 0
    {
      if j == k {
        if i < k - 1 { NameCmpTransitive(names[i], names[k - 1], x); }
      } else if i == k {
        if j > k + 1 { NameCmpTransitive(x, names[k], names[j - 1]); }
      }
    }
  }

  method Insert(index: seq<Name>, x: Name) returns (r: seq<Name>)
    requires Sorted(index)
    ensures Sorted(r) && multiset(r) == multiset(index) + multiset{x}
  {
    var k: nat := |index|;
    while k > 0 && NameCmp(x, index[k - 1]) < 0
      invariant k <= |index| && (k < |index| ==> NameCmp(x, index[k]) < 0)
    {
      k := k - 1;
    }
    if k > 0 { NameCmpSign(x, index[k - 1]); }
    InsertSorted(index, k, x);
    assert index == index[..k] + index[k..];
    r := index[..k] + [x] + index[k..];
  }

  /** The names in order, each as often as in the table. */
  method SortedIndex(kt: Ktable) returns (index: seq<Name>)
    requires kt.Valid()
    ensures Sorted(index) && multiset(index) == multiset(kt.Names())
    ensures forall i, j :: 0 <= i < j < |index| ==> index[i] == index[j] || Before(index[i], index[j])
  {
    hide DiffersAt;
    index := [];
    ghost var names := kt.Names();
    for i := 1 to kt.next
      invariant Sorted(index) && multiset(index) == multiset(names[..i - 1])
    {
      var x := kt.NameOf(kt.elements[i]);
      assert x == names[i - 1] && names[..i] == names[..i - 1] + [x];
      index := Insert(index, x);
    }
    assert names[..|names|] == names;
    SortedBefore(index);
  }

  function Members(names: seq<Name>): set<Name> {
    set x | x in names
  }

  lemma MembersSnoc(names: seq<Name>, x: Name)
    ensures Members(names + [x]) == Members(names) + {x}
  {
  }

  /** A new table with the same names, each once and in order. */
  method Compact(orig: Ktable) returns (kt: Ktable)
    requires orig.Valid()
    ensures fresh(kt) && fresh(kt.elements) && fresh(kt.block) && kt.Valid()
    ensures StrictlySorted(kt.Names()) && Members(kt.Names()) == Members(orig.Names())
    ensures forall i, j :: 0 <= i < j < |kt.Names()| ==> Before(kt.Names()[i], kt.Names()[j])
  {
    var index := SortedIndex(orig);
    kt := new Ktable();
    SameMembers(index, orig.Names());
    if orig.next == 1 { return; }
    AddAll(kt, index);
    StrictlySortedBefore(kt.Names());
  }

  method AddAll(kt: Ktable, index: seq<Name>)
    requires kt.Valid() && kt.Names() == [] && Sorted(index) && index != []
    modifies kt, kt.elements, kt.block
    ensures kt.Valid() && (kt.elements == old(kt.elements) || fresh(kt.elements))
    ensures kt.block == old(kt.block) || fresh(kt.block)
    ensures StrictlySorted(kt.Names()) && Members(kt.Names()) == Members(index)
  {
    var idx := kt.Add(index[0]);
    assert kt.Names() == [index[0]] == index[..1];
    var prev := index[0];
    for i := 1 to |index|
      invariant kt.Valid() && (kt.elements == old(kt.elements) || fresh(kt.elements))
      invariant kt.block == old(kt.block) || fresh(kt.block)
      invariant StrictlySorted(kt.Names()) && kt.Names() != []
      invariant prev == index[i - 1] == kt.Names()[|kt.Names()| - 1]
      invariant Members(kt.Names()) == Members(index[..i])
    {
      prev := AddIfNew(kt, prev, index, i);
    }
    assert index[..|index|] == index;
  }

  /** One round of the compaction: a name that differs from the one before it is added. */
  method AddIfNew(kt: Ktable, prev: Name, index: seq<Name>, i: nat) returns (prev': Name)
    requires kt.Valid() && 0 < i < |index| && Sorted(index)
    requires StrictlySorted(kt.Names()) && kt.Names() != []
    requires prev == index[i - 1] == kt.Names()[|kt.Names()| - 1] && Members(kt.Names()) == Members(index[..i])
    modifies kt, kt.elements, kt.block
    ensures kt.Valid() && (kt.elements == old(kt.elements) || fresh(kt.elements))
    ensures kt.block == old(kt.block) || fresh(kt.block)
    ensures StrictlySorted(kt.Names()) && kt.Names() != []
    ensures prev' == index[i] == kt.Names()[|kt.Names()| - 1] && Members(kt.Names()) == Members(index[..i + 1])
  {
    var name := index[i];
    ghost var names := kt.Names();
    NameCmpSign(prev, name);
    assert index[..i + 1] == index[..i] + [name];
    MembersSnoc(index[..i], name);
    assert name == prev ==> name in names;
    prev' := prev;
    if NameCmp(prev, name) != 0 {
      AppendStrict(names, name);
      MembersSnoc(names, name);
      var idx := kt.Add(name);
      prev' := name;
    }
  }

  /** The compacted table depends on nothing but which names there are. */
  lemma {:induction false} StrictlySortedUnique(a: seq<Name>, b: seq<Name>)
    requires StrictlySorted(a) && StrictlySorted(b) && Members(a) == Members(b)
    ensures a == b
    decreases |a|
  {
    if a != [] { assert a[0] in Members(a); }
    if b != [] { assert b[0] in Members(b); }
    if a != [] && b != [] {
      LeastFirst(a, b);
      LeastFirst(b, a);
      NameCmpSign(a[0], b[0]);
      NameCmpSign(b[0], a[0]);
      TailMembers(a);
      TailMembers(b);
      StrictlySortedUnique(a[1..], b[1..]);
      assert a == [a[0]] + a[1..] && b == [b[0]] + b[1..];
    }
  }

  lemma LeastFirst(a: seq<Name>, b: seq<Name>)
    requires StrictlySorted(a) && Members(a) == Members(b) && a != [] && b != []
    ensures NameCmp(a[0], b[0]) <= 0
  {
    assert b[0] in Members(a);
    var i :| 0 <= i < |a| && a[i] == b[0];
    if i == 0 { NameCmpSign(a[0], b[0]); }
  }

  lemma TailMembers(a: seq<Name>)
    requires StrictlySorted(a) && a != []
    ensures StrictlySorted(a[1..]) && Members(a[1..]) == Members(a) - {a[0]}
  {
    assert a == [a[0]] + a[1..];
    forall i | 1 <= i < |a|
      ensures a[i] != a[0]
    {
      NameCmpSign(a[0], a[i]);
    }
  }

  lemma SameMembers(a: seq<Name>, b: seq<Name>)
    requires multiset(a) == multiset(b)
    ensures |a| == |b| && Members(a) == Members(b)
  {
    assert |multiset(a)| == |a| && |multiset(b)| == |b|;
    forall x
      ensures x in a <==> x in b
    {
      assert x in a <==> x in multiset(a);
      assert x in b <==> x in multiset(b);
    }
  }

  lemma AppendStrict(names: seq<Name>, x: Name)
    requires StrictlySorted(names) && names != [] && NameCmp(names[|names| - 1], x) < 0
    ensures StrictlySorted(names + [x])
  {
    forall i | 0 <= i < |names|
      ensures NameCmp(names[i], x) < 0
    {
      if i < |names| - 1 { NameCmpTransitive(names[i], names[|names| - 1], x); }
    }
  }

  /** Two names have one index exactly if they are equal. */
  lemma IndexUnique(names: seq<Name>, i: nat, j: nat)
    requires StrictlySorted(names) && i < |names| && j < |names|
    ensures names[i] == names[j] <==> i == j
  {
    NameCmpSign(names[i], names[j]);
    NameCmpSign(names[j], names[i]);
  }
}
