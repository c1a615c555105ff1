/** Multiplication, and powers of five from cached squares. */
module Products {
  import opened Bignum
  import opened Bigints

  // ---------- mult ----------

  /** The words made so far and what the carry still makes of the others are the whole row. */
  ghost predicate RowSoFar(done: seq<Word>, c: seq<Word>, x: seq<Word>, i: nat, y: Word, carry: Word)
    requires |c| == |x| && i <= |x|
  {
    && done + AddMulWords(c[i..], x[i..], y, carry) == AddMulWords(c, x, y, 0)
    && AddMulCarry(c[i..], x[i..], y, carry) == AddMulCarry(c, x, y, 0)
  }

  lemma RowStarts(c: seq<Word>, x: seq<Word>, y: Word)
    requires |c| == |x|
    ensures RowSoFar([], c, x, 0, y, 0)
  {
    assert c[0..] == c && x[0..] == x;
  }

  lemma RowDone(done: seq<Word>, c: seq<Word>, x: seq<Word>, y: Word, carry: Word)
    requires |c| == |x| && RowSoFar(done, c, x, |c|, y, carry)
    ensures done == AddMulWords(c, x, y, 0) && carry == AddMulCarry(c, x, y, 0)
  {
  }

  lemma AddMulStep(done: seq<Word>, c: seq<Word>, x: seq<Word>, i: nat, y: Word, carry: Word)
    requires |c| == |x| && i < |x| && RowSoFar(done, c, x, i, y, carry)
    ensures var t := x[i] * y + c[i] + carry;
            0 <= t / W < W && RowSoFar(done + [t % W], c, x, i + 1, y, t / W)
  {
    AddMulRound(x[i], y, c[i], carry);
    assert c[i..][0] == c[i] && c[i..][1..] == c[i + 1..] && x[i..][0] == x[i] && x[i..][1..] == x[i + 1..];
    var t := x[i] * y + c[i] + carry;
    var rest := AddMulWords(c[i + 1..], x[i + 1..], y, t / W);
    assert (done + [t % W]) + rest == done + ([t % W] + rest);
  }

  /** One word of a row. */
  method AddMulWord(c: Bigint, j: nat, ghost cw: seq<Word>, ghost aw: seq<Word>, i: nat, x: Word, y: Word, carry: Word)
    returns (carry': Word)
    requires |cw| == |aw| && i < |aw| && j + i < c.x.Length && x == aw[i] && c.x[j + i] == cw[i]
    requires RowSoFar(c.x[j..j + i], cw, aw, i, y, carry)
    modifies c.x
    ensures RowSoFar(c.x[j..j + i + 1], cw, aw, i + 1, y, carry')
    ensures forall p :: 0 <= p < c.x.Length && p != j + i ==> c.x[p] == old(c.x[p])
  {
    ghost var done := c.x[j..j + i];
    AddMulStep(done, cw, aw, i, y, carry);
    var z := x * y + c.x[j + i] + carry;
    carry' := z / W;
    c.x[j + i] := z % W;
    assert c.x[j..j + i + 1] == done + [z % W];
  }

  /** Adds y * a to the words of c from j on, and writes the carry above them. */
  method MulAddRow(c: Bigint, j: nat, a: Bigint, y: Word)
    requires c.Valid() && a.Valid() && Apart(a, c) && j + a.wds < c.x.Length
    modifies c.x
    ensures forall p :: 0 <= p < j || j + a.wds < p < c.x.Length ==> c.x[p] == old(c.x[p])
    ensures c.x[j..j + a.wds] == AddMulWords(old(c.x[j..j + a.wds]), a.Words(), y, 0)
    ensures c.x[j + a.wds] == AddMulCarry(old(c.x[j..j + a.wds]), a.Words(), y, 0)
  {
    hide RowSoFar, AddMulWords, AddMulCarry;
    ghost var cw, aw := c.x[j..j + a.wds], a.Words();
    var i := 0;
    var carry: Word := 0;
    RowStarts(cw, aw, y);
    assert c.x[j..j] == [];
    while i < a.wds
      invariant i <= a.wds
      invariant RowSoFar(c.x[j..j + i], cw, aw, i, y, carry)
      invariant forall p :: 0 <= p < j || j + i <= p < c.x.Length ==> c.x[p] == old(c.x[p])
    {
      carry := AddMulWord(c, j, cw, aw, i, a.x[i], y, carry);
      i := i + 1;
    }
    RowDone(c.x[j..j + i], cw, aw, y, carry);
    c.x[j + a.wds] := carry;
  }

  /** What is added above some words counts for that many words more. */
  lemma {:induction false} AddAbove(lo: seq<Word>, mid: seq<Word>, row: seq<Word>, d: nat)
    requires Val(row) == Val(mid) + d
    ensures Val(lo + row) == Val(lo + mid) + Pow(|lo|) * d
    decreases lo
  {
    if lo == [] {
      assert lo + row == row && lo + mid == mid;
    } else {
      AddAbove(lo[1..], mid, row, d);
      assert (lo + row)[1..] == lo[1..] + row && (lo + mid)[1..] == lo[1..] + mid;
      MulAssoc(W, Pow(|lo| - 1), d);
    }
  }

  /** The first j rows, each a word of b times a at the word's place. */
  function Rows(a: seq<Word>, b: seq<Word>, j: nat): nat
    requires j <= |b|
    decreases j
  {
    if j == 0 then 0 else Rows(a, b, j - 1) + Pow(j - 1) * (b[j - 1] * Val(a))
  }

  /** Together they are the product. */
  lemma {:induction false} RowsAreProduct(a: seq<Word>, b: seq<Word>, j: nat)
    requires j <= |b|
    ensures Rows(a, b, j) == Val(b[..j]) * Val(a)
    decreases j
  {
    if j > 0 {
      RowsAreProduct(a, b, j - 1);
      PrefixValue(b, j - 1);
      RowSum(Rows(a, b, j - 1), Val(a), Val(b[..j - 1]), b[j - 1], Pow(j - 1), Val(b[..j]));
    }
  }

  lemma RowSum(v: int, a: int, b: int, y: int, p: int, b': int)
    requires v == b * a && b' == b + y * p
    ensures v + p * (y * a) == b' * a
  {
    assert p * (y * a) == (y * p) * a;
    assert (b + y * p) * a == b * a + (y * p) * a;
  }

  lemma RowWords(mid: seq<Word>, a: seq<Word>, y: Word)
    requires |mid| == |a|
    ensures Val(AddMulWords(mid, a, y, 0) + [AddMulCarry(mid, a, y, 0)]) == Val(mid) + y * Val(a)
  {
    AddMulValue(mid, a, y, 0);
    ValSnoc(AddMulWords(mid, a, y, 0), AddMulCarry(mid, a, y, 0));
  }

  lemma RowStep(lo: seq<Word>, mid: seq<Word>, a: seq<Word>, b: seq<Word>, j: nat)
    requires |lo| == j < |b| && |mid| == |a| && Val(lo + mid) == Rows(a, b, j)
    ensures Val(lo + (AddMulWords(mid, a, b[j], 0) + [AddMulCarry(mid, a, b[j], 0)])) == Rows(a, b, j + 1)
  {
    hide Val, Pow, AddMulWords, AddMulCarry;
    RowWords(mid, a, b[j]);
    AddAbove(lo, mid, AddMulWords(mid, a, b[j], 0) + [AddMulCarry(mid, a, b[j], 0)], b[j] * Val(a));
  }

  lemma PrefixValue(b: seq<Word>, j: nat)
    requires j < |b|
    ensures Val(b[..j + 1]) == Val(b[..j]) + b[j] * Pow(j)
  {
    assert b[..j + 1] == b[..j] + [b[j]];
    ValSnoc(b[..j], b[j]);
  }

  /** a * b, in a new number. */
  method Mult(a0: Bigint, b0: Bigint) returns (c: Bigint)
    requires a0.Trimmed() && b0.Trimmed() && a0.wds >= 1 && b0.wds >= 1
    ensures fresh(c) && fresh(c.x) && c.Trimmed()
    ensures c.Value() == a0.Value() * b0.Value()
  {
    hide Rows, Val;
    var a, b := a0, b0;
    if a.wds < b.wds { a, b := b, a; }
    var k, wa, wb := a.k, a.wds, b.wds;
    var wc := wa + wb;
    if wc > a.x.Length { k := k + 1; }
    c := new Bigint.Balloc(k);
    ClearLow(c, wc);
    MulRows(c, a, b);
    RowsAreProduct(a.Words(), b.Words(), wb);
    assert b.Words()[..wb] == b.Words();
    Commute(b.Value(), a.Value());
    ghost var w := c.x[..wc];
    while wc > 0 && c.x[wc - 1] == 0
      invariant wc <= |w| && c.x[..|w|] == w && Val(c.x[..wc]) == Val(w)
      invariant wc == 0 ==> |w| > 0 && c.x[0] == 0
      decreases wc
    {
      assert c.x[..wc][..wc - 1] == c.x[..wc - 1];
      DropTopZero(c.x[..wc]);
      wc := wc - 1;
    }
    c.wds := wc;
  }

  lemma DropTopZero(w: seq<Word>)
    requires w != [] && w[|w| - 1] == 0
    ensures Val(w[..|w| - 1]) == Val(w)
  {
    assert w == w[..|w| - 1] + [0];
    ValSnocZero(w[..|w| - 1]);
  }

  lemma FirstZeros(w: seq<Word>, n: nat)
    requires n <= |w| && w == Zeros(|w|)
    ensures w[..n] == Zeros(n) && Val(w[..n]) == 0 && forall i :: 0 <= i < |w| ==> w[i] == 0
  {
    assert forall i :: 0 <= i < n ==> w[..n][i] == 0;
    assert w[..n] == Zeros(n);
  }

  /** The rows of a product; a zero word of the multiplier is skipped. */
  method MulRows(c: Bigint, a: Bigint, b: Bigint)
    requires c.Valid() && a.Valid() && b.Valid() && Apart(a, c) && Apart(b, c)
    requires a.wds + b.wds <= c.x.Length && c.x[..a.wds + b.wds] == Zeros(a.wds + b.wds)
    modifies c.x
    ensures Val(c.x[..a.wds + b.wds]) == Rows(a.Words(), b.Words(), b.wds)
  {
    hide Val;
    var j := 0;
    ghost var aw, bw, n := a.Words(), b.Words(), a.wds + b.wds;
    FirstZeros(c.x[..n], a.wds);
    assert c.x[..n][..a.wds] == c.x[..0 + a.wds];
    assert forall i :: 0 <= i < n ==> c.x[i] == c.x[..n][i];
    while j < b.wds
      invariant j <= b.wds
      invariant Val(c.x[..j + a.wds]) == Rows(aw, bw, j)
      invariant forall i :: j + a.wds <= i < n ==> c.x[i] == 0
    {
      Row(c, a, b, j);
      j := j + 1;
    }
  }

  method Row(c: Bigint, a: Bigint, b: Bigint, j: nat)
    requires c.Valid() && a.Valid() && b.Valid() && Apart(a, c) && Apart(b, c) && j < b.wds
    requires a.wds + b.wds <= c.x.Length && c.x[j + a.wds] == 0
    requires Val(c.x[..j + a.wds]) == Rows(a.Words(), b.Words(), j)
    modifies c.x
    ensures Val(c.x[..j + 1 + a.wds]) == Rows(a.Words(), b.Words(), j + 1)
    ensures forall i :: j + 1 + a.wds <= i < c.x.Length ==> c.x[i] == old(c.x[i])
  {
    hide Val, Rows, AddMulWords, AddMulCarry;
    var y := b.x[j];
    ghost var lo, mid, aw, n := c.x[..j], c.x[j..j + a.wds], a.Words(), j + a.wds;
    ghost var mid', carry := AddMulWords(mid, aw, y, 0), AddMulCarry(mid, aw, y, 0);
    assert c.x[..n] == lo + mid;
    RowStep(lo, mid, aw, b.Words(), j);
    if y != 0 {
      MulAddRow(c, j, a, y);
      assert c.x[..j] == lo;
    } else {
      AddNothing(mid, aw);
    }
    assert c.x[..n + 1] == lo + (mid' + [carry]);
  }

  lemma {:induction false} AddNothing(c: seq<Word>, x: seq<Word>)
    requires |c| == |x|
    ensures AddMulWords(c, x, 0, 0) == c && AddMulCarry(c, x, 0, 0) == 0
    decreases c
  {
    if x != [] {
      DivUnique(x[0] * 0 + c[0] + 0, 0, c[0]);
      AddNothing(c[1..], x[1..]);
    }
  }

  // ---------- pow5mult ----------

  function Raise(b: nat, n: nat): (r: nat)
    ensures b >= 1 ==> r >= 1
  {
    if n == 0 then 1 else
      var r := Raise(b, n - 1);
      if b >= 1 then MulMono(1, b, r); b * r else b * r
  }

  lemma {:induction false} RaiseSum(b: nat, m: nat, n: nat)
    ensures Raise(b, m + n) == Raise(b, m) * Raise(b, n)
    decreases m
  {
    if m > 0 {
      RaiseSum(b, m - 1, n);
      MulAssoc(b, Raise(b, m - 1), Raise(b, n));
    }
  }

  lemma {:induction false} RaiseFour(n: nat)
    ensures Raise(625, n) == Raise(5, 4 * n)
    decreases n
  {
    if n > 0 {
      RaiseFour(n - 1);
      RaiseSum(5, 4, 4 * (n - 1));
      FifthPowers();
    }
  }

  lemma FifthPowers()
    ensures Raise(5, 0) == 1 && Raise(5, 1) == 5 && Raise(5, 2) == 25 && Raise(5, 3) == 125 && Raise(5, 4) == 625
  {
  }

  /** The list p5s: its nodes are 625, 625^2, 625^4 and so on, as far as they were ever needed. */
  class PowerCache {
    var p5s: Bigint?
    ghost var chain: seq<Bigint>

    constructor ()
      ensures Valid() && chain == []
    {
      p5s := null;
      chain := [];
    }

    ghost predicate Valid()
      reads this, chain, set b | b in chain :: b.x
    {
      && p5s == (if chain == [] then null else chain[0])
      && forall i :: 0 <= i < |chain| ==> NodeAt(i)
    }

    ghost predicate NodeAt(i: nat)
      requires i < |chain|
      reads this, chain, set b | b in chain :: b.x
    {
      && chain[i].Trimmed() && chain[i].wds >= 1 && chain[i].Value() == Raise(625, Two(i))
      && chain[i].next == (if i + 1 < |chain| then chain[i + 1] else null)
      && chain[i] !in chain[i + 1..]
    }

    /** A number that the cache does not hold. */
    ghost predicate Foreign(b: Bigint)
      reads this, chain
    {
      b !in chain && forall c :: c in chain ==> c.x != b.x
    }

    /** The node after the j-th, squared into being if it is needed for the first time. */
    method Next(p5: Bigint, ghost j: nat) returns (p51: Bigint)
      requires Valid() && j < |chain| && p5 == chain[j]
      modifies this, p5`next
      ensures Valid() && j + 1 < |chain| && p51 == chain[j + 1]
      ensures chain == old(chain) || (chain == old(chain) + [p51] && fresh(p51) && fresh(p51.x))
    {
      hide Raise, Two;
      assert NodeAt(j);
      var n := p5.next;
      if n == null {
        ghost var c := chain;
        p51 := Mult(p5, p5);
        SquaredNode(p5.Value(), j);
        assert p51.wds >= 1;
        p51.next := null;
        assert forall i :: 0 <= i < |c| ==> NodeAt(i);
        label Before:
        p5.next := p51;
        chain := chain + [p51];
        forall i | 0 <= i < |chain|
          ensures NodeAt(i)
        {
          if i < j {
            assert old@Before(NodeAt(i));
            assert c[i + 1..][j - i - 1] == p5;
            assert chain[i + 1..] == c[i + 1..] + [p51];
          }
        }
      } else {
        p51 := n;
      }
    }
  }

  lemma SquaredNode(v: nat, j: nat)
    requires v == Raise(625, Two(j))
    ensures v * v == Raise(625, Two(j + 1)) && v * v > 0
  {
    RaiseSum(625, Two(j), Two(j));
    assert Two(j + 1) == Two(j) + Two(j);
  }

  /** The bits of the exponent, lowest first, choose the squares. */
  lemma PowerStep(v: nat, v': nat, j: nat, k: nat)
    requires v' == if k % 2 == 1 then v * Raise(625, Two(j)) else v
    ensures v' * Raise(625, Two(j + 1) * (k / 2)) == v * Raise(625, Two(j) * k)
  {
    var t, r := Two(j), Raise(625, Two(j + 1) * (k / 2));
    if k % 2 == 1 {
      assert t * k == t + 2 * t * (k / 2) by { assert k == 1 + 2 * (k / 2); Split(t, k / 2); }
      RaiseSum(625, t, Two(j + 1) * (k / 2));
      MulAssoc(v, Raise(625, t), r);
    } else {
      assert t * k == 2 * t * (k / 2) by { assert k == 2 * (k / 2); MulAssoc(t, 2, k / 2); }
    }
  }

  lemma Split(t: int, h: int)
    ensures t * (1 + 2 * h) == t + 2 * t * h
  {
  }

  lemma MulPositive(a: nat, b: nat)
    requires a > 0 && b > 0
    ensures a * b > 0
  {
  }

  lemma FirstNode(cache: PowerCache, k: nat)
    requires cache.Valid() && cache.chain != []
    ensures cache.p5s == cache.chain[0] && Raise(625, Two(0) * k) == Raise(625, k)
  {
    assert Two(0) == 1;
  }

  lemma NodeHolds(cache: PowerCache, j: nat)
    requires cache.Valid() && j < |cache.chain|
    ensures cache.chain[j].Trimmed() && cache.chain[j].wds >= 1
    ensures cache.chain[j].Value() == Raise(625, Two(j)) > 0
  {
    assert cache.NodeAt(j);
  }

  /** b * 625^k, by the squares that the bits of k choose. */
  method MulCached(cache: PowerCache, b0: Bigint, k0: nat) returns (b: Bigint)
    requires cache.Valid() && b0.Trimmed() && b0.Value() > 0 && cache.Foreign(b0) && k0 >= 1 && cache.chain != []
    modifies cache, cache.chain
    ensures cache.Valid() && Grown(old(cache.chain), cache.chain)
    ensures b.Trimmed() && cache.Foreign(b) && (b == b0 || (fresh(b) && fresh(b.x)))
    ensures b.Value() == old(b0.Value()) * Raise(625, k0)
  {
    hide Raise, Two, PowerCache.Valid, PowerCache.NodeAt;
    b := b0;
    var k, p5 := k0, cache.p5s;
    ghost var j, v := 0, b.Value() * Raise(625, k0);
    FirstNode(cache, k0);
    while true
      invariant cache.Valid() && Grown(old(cache.chain), cache.chain)
      invariant j < |cache.chain| && p5 == cache.chain[j]
      invariant b.Trimmed() && b.Value() > 0 && cache.Foreign(b) && (b == b0 || (fresh(b) && fresh(b.x)))
      invariant k >= 1 && b.Value() * Raise(625, Two(j) * k) == v
      decreases k
    {
      NodeHolds(cache, j);
      ghost var v0 := b.Value();
      if k % 2 == 1 {
        MulPositive(b.Value(), p5.Value());
        b := Mult(b, p5);
      }
      PowerStep(v0, b.Value(), j, k);
      k := k / 2;
      if k == 0 { break; }
      p5 := cache.Next(p5, j);
      j := j + 1;
    }
  }

  /** The cache only grows, and only by new numbers. */
  twostate predicate Grown(before: seq<Bigint>, new after: seq<Bigint>) {
    before <= after && forall c :: c in after ==> c in before || (fresh(c) && fresh(c.x))
  }

  /** The first node, 625. */
  method StartCache(cache: PowerCache)
    requires cache.Valid() && cache.p5s == null
    modifies cache
    ensures cache.Valid() && |cache.chain| == 1 && fresh(cache.chain[0]) && fresh(cache.chain[0].x)
  {
    var p := I2b(625);
    p.next := null;
    cache.p5s, cache.chain := p, [p];
    assert Raise(625, Two(0)) == 625;
  }

  /** b * 5^k. The cache grows by the squares that were missing. */
  method Pow5mult(cache: PowerCache, b0: Bigint, k0: nat) returns (b: Bigint)
    requires cache.Valid() && b0.Trimmed() && b0.Value() > 0 && cache.Foreign(b0)
    modifies cache, cache.chain, b0, b0.x
    ensures cache.Valid() && Grown(old(cache.chain), cache.chain)
    ensures b.Trimmed() && cache.Foreign(b) && (b == b0 || (fresh(b) && fresh(b.x)))
    ensures b.Value() == old(b0.Value()) * Raise(5, k0)
  {
    hide Raise, Two;
    b := b0;
    var i, k := k0 % 4, k0 / 4;
    ghost var v := b.Value();
    FifthPowers();
    if i != 0 { b := Multadd(b, if i == 1 then 5 else if i == 2 then 25 else 125, 0); }
    Product(v, k0, b.Value());
    if k == 0 { return; }
    if cache.p5s == null { StartCache(cache); }
    b := MulCached(cache, b, k);
  }

  lemma Product(v: nat, k: nat, v': nat)
    requires v' == Raise(5, k % 4) * v && v > 0
    ensures v' * Raise(625, k / 4) == v * Raise(5, k) && v' > 0
  {
    RaiseSum(5, k % 4, 4 * (k / 4));
    RaiseFour(k / 4);
    MulAssoc(v, Raise(5, k % 4), Raise(5, 4 * (k / 4)));
    MulMono(1, Raise(5, k % 4), v);
  }
}
