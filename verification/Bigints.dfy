/** The mutable numbers of dtoa.c; their operations compute exact values. */
module Bigints {
  import opened Bignum

  /**
   * A number of wds words in a buffer of 2^k words. The cache of powers of five links its numbers through next.
   * An exact remainder of zero may be left with no words at all, but then the word at the bottom is zero.
   */
  class Bigint {
    var next: Bigint?
    const k: nat
    var sign: bool
    const x: array<Word>
    var wds: nat

    constructor Balloc(k: nat)
      ensures fresh(x) && this.k == k && Valid() && wds == 0 && !sign
    {
      this.k := k;
      x := new Word[Two(k)];
      wds := 0;
      sign := false;
      next := null;
    }

    ghost predicate Valid()
      reads this
    {
      x.Length == Two(k) && wds <= x.Length
    }

    ghost predicate Trimmed()
      reads this, x
    {
      Valid() && (wds == 0 ==> x[0] == 0) && (wds >= 2 ==> x[wds - 1] != 0)
    }

    ghost function Words(): seq<Word>
      requires Valid()
      reads this, x
    {
      x[..wds]
    }

    ghost function Value(): nat
      requires Valid()
      reads this, x
    {
      Val(Words())
    }
  }

  ghost predicate Apart(a: Bigint, b: Bigint) {
    a != b && a.x != b.x
  }

  // ---------- the top word ----------

  lemma SplitTop(w: seq<Word>)
    requires w != []
    ensures Val(w) == Val(w[..|w| - 1]) + w[|w| - 1] * Pow(|w| - 1) && Val(w[..|w| - 1]) < Pow(|w| - 1)
  {
    assert w == w[..|w| - 1] + [w[|w| - 1]];
    ValSnoc(w[..|w| - 1], w[|w| - 1]);
    ValBound(w[..|w| - 1]);
  }

  lemma TopNotZero(w: seq<Word>)
    requires w != [] && Pow(|w| - 1) <= Val(w)
    ensures w[|w| - 1] != 0
  {
    SplitTop(w);
  }

  lemma LongerIsLarger(a: seq<Word>, b: seq<Word>)
    requires |a| < |b| && b[|b| - 1] != 0
    ensures Val(a) < Val(b)
  {
    ValBound(a);
    PowMono(|a|, |b| - 1);
    ValTop(b);
  }

  /** A product with a word that is not zero does not lose its top word. */
  lemma ProductKeepsTop(w: seq<Word>, v: seq<Word>, m: nat)
    requires w != [] && |v| == |w| && w[|w| - 1] != 0 && m >= 1 && Val(v) >= m * Val(w)
    ensures v[|v| - 1] != 0
  {
    ValTop(w);
    MulMono(1, m, Val(w));
    TopNotZero(v);
  }

  // ---------- i2b, multadd ----------

  method I2b(i: Word) returns (b: Bigint)
    ensures fresh(b) && fresh(b.x) && b.Trimmed() && b.wds == 1 && b.Value() == i
  {
    b := new Bigint.Balloc(1);
    b.x[0] := i;
    b.wds := 1;
    assert b.Words() == [i] && [i][1..] == [] && Val([i]) == i + W * Val([i][1..]);
  }

  /** The words made so far and what the carry still makes of the others are the whole product. */
  ghost predicate ProductSoFar(done: seq<Word>, w: seq<Word>, i: nat, m: Word, carry: Word, a: Word)
    requires i <= |w|
  {
    && done + MulWords(w[i..], m, carry) == MulWords(w, m, a)
    && MulCarry(w[i..], m, carry) == MulCarry(w, m, a)
  }

  lemma MulStep(done: seq<Word>, w: seq<Word>, i: nat, m: Word, carry: Word, a: Word)
    requires i < |w| && ProductSoFar(done, w, i, m, carry, a)
    ensures RoundCarry(w[i], m, carry) < W
    ensures ProductSoFar(done + [(w[i] * m + carry) % W], w, i + 1, m, RoundCarry(w[i], m, carry), a)
  {
    ProductBound(w[i], m, carry);
    assert w[i..][0] == w[i] && w[i..][1..] == w[i + 1..];
    var y, rest := (w[i] * m + carry) % W, MulWords(w[i + 1..], m, RoundCarry(w[i], m, carry));
    assert (done + [y]) + rest == done + ([y] + rest);
  }

  lemma ProductStarts(w: seq<Word>, m: Word, a: Word)
    ensures ProductSoFar([], w, 0, m, a, a)
  {
    assert w[0..] == w && [] + MulWords(w, m, a) == MulWords(w, m, a);
  }

  lemma ProductDone(done: seq<Word>, w: seq<Word>, m: Word, carry: Word, a: Word)
    requires ProductSoFar(done, w, |w|, m, carry, a)
    ensures done == MulWords(w, m, a) && carry == MulCarry(w, m, a)
  {
    assert w[|w|..] == [] && done + [] == done;
  }

  lemma ProductWords(w: seq<Word>, m: Word, a: Word)
    requires w != [] && m > 0
    ensures var v, carry := MulWords(w, m, a), MulCarry(w, m, a);
            if carry != 0 then Val(v + [carry]) == m * Val(w) + a
            else Val(v) == m * Val(w) + a && (w[|w| - 1] != 0 ==> v[|v| - 1] != 0)
  {
    var v := MulWords(w, m, a);
    MulValue(w, m, a);
    ValSnocZero(v);
    if MulCarry(w, m, a) == 0 && w[|w| - 1] != 0 { ProductKeepsTop(w, v, m); }
  }

  /** The words of a product, in place; the carry is returned. */
  method MulInPlace(b: Bigint, m: Word, a: Word) returns (carry: Word)
    requires b.Valid()
    modifies b.x
    ensures b.Words() == MulWords(old(b.Words()), m, a) && carry == MulCarry(old(b.Words()), m, a)
  {
    hide ProductSoFar, MulWords, MulCarry;
    ghost var w := b.Words();
    var i := 0;
    carry := a;
    ProductStarts(w, m, a);
    assert b.x[..0] == [];
    while i < b.wds
      invariant i <= b.wds
      invariant ProductSoFar(b.x[..i], w, i, m, carry, a)
      invariant b.x[i..b.wds] == w[i..]
    {
      ghost var done := b.x[..i];
      assert b.x[i] == b.x[i..b.wds][0] == w[i];
      var y := b.x[i] * m + carry;
      ProductBound(b.x[i], m, carry);
      MulStep(done, w, i, m, carry, a);
      carry := y / W;
      b.x[i] := y % W;
      i := i + 1;
      assert b.x[..i] == done + [y % W];
    }
    ProductDone(b.x[..i], w, m, carry, a);
  }

  /** One more word for a carry, in the same number or in a larger one. */
  method TakeCarry(b: Bigint, carry: Word) returns (r: Bigint)
    requires b.Valid() && carry != 0
    modifies b, b.x
    ensures r.Trimmed() && r.wds >= 1 && r.Words() == old(b.Words()) + [carry]
    ensures r == b || (fresh(r) && fresh(r.x))
  {
    ghost var v := b.Words();
    var wds := b.wds;
    r := b;
    if wds >= b.x.Length {
      r := new Bigint.Balloc(b.k + 1);
      Bcopy(r, b);
    }
    r.x[wds] := carry;
    r.wds := wds + 1;
    assert r.Words() == v + [carry];
  }

  /** b * m + a, in the same number when it fits. */
  method Multadd(b: Bigint, m: Word, a: Word) returns (r: Bigint)
    requires b.Trimmed() && b.wds >= 1 && m > 0
    modifies b, b.x
    ensures r.Trimmed() && r.wds >= 1
    ensures r.Value() == m * old(b.Value()) + a
    ensures r == b || (fresh(r) && fresh(r.x))
  {
    hide Val, MulWords, MulCarry;
    ghost var w := b.Words();
    var carry := MulInPlace(b, m, a);
    ProductWords(w, m, a);
    r := b;
    if carry != 0 { r := TakeCarry(b, carry); }
  }

  method Bcopy(x: Bigint, y: Bigint)
    requires Apart(x, y) && x.Valid() && y.Valid() && y.wds <= x.x.Length
    modifies x`sign, x`wds, x.x
    ensures x.Valid() && x.sign == y.sign && x.wds == y.wds && x.x[..x.wds] == y.x[..y.wds]
  {
    x.sign := y.sign;
    x.wds := y.wds;
    var i := 0;
    while i < y.wds
      invariant i <= y.wds == x.wds && x.sign == y.sign
      invariant x.x[..i] == y.x[..i]
    {
      x.x[i] := y.x[i];
      i := i + 1;
    }
  }

  // ---------- cmp ----------

  /** The sign of a - b. A number with no words is below every positive number. */
  method Cmp(a: Bigint, b: Bigint) returns (r: int)
    requires a.Trimmed() && b.Trimmed() && b.wds >= 1 && (a.wds == 0 ==> b.Value() > 0)
    ensures Sign(r, 0) == Sign(a.Value(), b.Value())
  {
    var i, j := a.wds, b.wds;
    ghost var aw, bw := a.Words(), b.Words();
    if i != j {
      if i < j && j >= 2 { LongerIsLarger(aw, bw); }
      if j < i { LongerIsLarger(bw, aw); }
      return i - j;
    }
    assert aw[..j] == aw && bw[..j] == bw;
    while true
      invariant 1 <= j <= b.wds
      invariant CmpWords(aw[..j], bw[..j]) == CmpWords(aw, bw)
      decreases j
    {
      j := j - 1;
      assert aw[..j + 1][..j] == aw[..j] && bw[..j + 1][..j] == bw[..j];
      if a.x[j] != b.x[j] {
        CmpValue(aw, bw);
        return if a.x[j] < b.x[j] then -1 else 1;
      }
      if j <= 0 { break; }
    }
    CmpValue(aw, bw);
    return 0;
  }

  // ---------- lshift ----------

  /** Below bit k a word shifted left by k is clear, so an inclusive or with a smaller word is a sum. */
  lemma ShiftWord(xw: Word, k: nat, z: nat)
    requires 0 < k < 32 && z < Two(k)
    ensures (xw * Two(k)) % W + z == (xw * Two(k) + z) % W < W
    ensures xw / Two(32 - k) == (xw * Two(k) + z) / W < Two(k)
  {
    TwoSum(k, 32 - k);
    TwoWord();
    ShiftParts(xw, Two(k), Two(32 - k), z);
  }

  lemma ShiftParts(xw: nat, p: nat, q: nat, z: nat)
    requires p >= 1 && q >= 1 && p * q == W && z < p && xw < W
    ensures (xw * p) % W + z == (xw * p + z) % W < W
    ensures xw / q == (xw * p + z) / W < p
  {
    var hi, lo := xw / q, xw % q;
    Distribute(xw, hi, lo, p, q);
    MulMono(lo, q - 1, p);
    Distribute(q - 1 + 1, 1, 0, p, q);
    assert (q - 1) * p == q * p - p;
    if hi >= p { MulMono(p, hi, q); }
    ShiftRest(xw * p, hi, lo * p, z);
  }

  lemma ShiftRest(v: nat, hi: nat, low: nat, z: nat)
    requires v == hi * W + low && low + z < W
    ensures v % W + z == (v + z) % W < W && hi == (v + z) / W
  {
    DivUnique(v, hi, low);
    DivUnique(v + z, hi, low + z);
  }

  lemma Distribute(n: int, hi: int, lo: int, p: int, q: int)
    requires n == hi * q + lo
    ensures n * p == hi * (p * q) + lo * p
  {
  }

  lemma DivUnique(n: nat, hi: nat, lo: nat)
    requires n == hi * W + lo && lo < W
    ensures n / W == hi && n % W == lo
  {
  }

  lemma WordPower(k: nat)
    requires k < 32
    ensures Two(k) < W
  {
    TwoSum(k, 32 - k);
    TwoWord();
    assert Two(32 - k) >= 2;
    MulMono(2, Two(32 - k), Two(k));
  }

  /** The word with bit k alone. */
  function Bit(k: nat): Word
    requires k < 32
  {
    WordPower(k);
    Two(k)
  }

  /** b * 2^k, in a new number. */
  method Lshift(b: Bigint, k: nat) returns (b1: Bigint)
    requires b.Trimmed() && b.wds >= 1
    ensures fresh(b1) && fresh(b1.x) && b1.Valid() && b1.wds >= 1
    ensures b1.Value() == b.Value() * Two(k)
    ensures b.Value() > 0 ==> b1.Trimmed()
  {
    hide Val, MulWords, MulCarry, Zeros;
    var n, k1 := k / 32, b.k;
    var n1, i := n + b.wds + 1, b.x.Length;
    while n1 > i
      invariant i == Two(k1)
      decreases n1 - i
    {
      k1 := k1 + 1;
      i := 2 * i;
    }
    b1 := new Bigint.Balloc(k1);
    var z := ShiftedWords(b1, n, b, k % 32);
    if z != 0 { n1 := n1 + 1; }
    b1.wds := n1 - 1;
    ghost var r := b1.x[..n + b.wds + 1];
    assert b1.Words() == r[..b1.wds];
    ShiftedValue(r, b1.Words(), n, b.Words(), k, z);
  }

  /** The words of b shifted by n words and k bits. */
  method ShiftedWords(b1: Bigint, n: nat, b: Bigint, k: nat) returns (z: Word)
    requires b.Valid() && b.wds >= 1 && b1.Valid() && Apart(b, b1) && k < 32
    requires n + b.wds < b1.x.Length
    modifies b1.x
    ensures b1.x[..n + b.wds + 1][..n] == Zeros(n)
    ensures b1.x[..n + b.wds + 1][n..n + b.wds] == MulWords(b.Words(), Bit(k), 0)
    ensures z == MulCarry(b.Words(), Bit(k), 0) && (z != 0 ==> b1.x[n + b.wds] == z)
  {
    ClearLow(b1, n);
    if k != 0 {
      z := ShiftInto(b1, n, b, k);
    } else {
      z := 0;
      CopyInto(b1, n, b);
      MulOne(b.Words());
    }
    assert b1.x[..n + b.wds + 1][..n] == b1.x[..n];
    assert b1.x[..n + b.wds + 1][n..n + b.wds] == b1.x[n..n + b.wds];
  }

  method ClearLow(b: Bigint, n: nat)
    requires b.Valid() && n <= b.x.Length
    modifies b.x
    ensures b.x[..n] == Zeros(n)
  {
    var i := 0;
    while i < n
      invariant i <= n
      invariant forall j :: 0 <= j < i ==> b.x[j] == 0
    {
      b.x[i] := 0;
      i := i + 1;
    }
  }

  lemma ShiftRound(xw: Word, k: nat, z: Word)
    requires 0 < k < 32 && z < Bit(k)
    ensures (xw * Two(k)) % W + z == (xw * Bit(k) + z) % W
    ensures xw / Two(32 - k) == RoundCarry(xw, Bit(k), z) < Bit(k)
  {
    ShiftWord(xw, k, z);
  }

  /** The word loop of a shift by some bits. */
  method ShiftInto(b1: Bigint, n: nat, b: Bigint, k: nat) returns (z: Word)
    requires b.Valid() && b.wds >= 1 && b1.Valid() && Apart(b, b1) && 0 < k < 32
    requires n + b.wds < b1.x.Length
    modifies b1.x
    ensures b1.x[..n] == old(b1.x[..n])
    ensures b1.x[n..n + b.wds] == MulWords(b.Words(), Bit(k), 0)
    ensures z == MulCarry(b.Words(), Bit(k), 0)
    ensures b1.x[n + b.wds] == z
  {
    hide ProductSoFar, MulWords, MulCarry, Two;
    ghost var w, m := b.Words(), Bit(k);
    var i := 0;
    z := 0;
    ProductStarts(w, m, 0);
    assert b1.x[n..n] == [];
    while i < b.wds
      invariant i <= b.wds && z < m
      invariant b1.x[..n] == old(b1.x[..n])
      invariant ProductSoFar(b1.x[n..n + i], w, i, m, z, 0)
    {
      ghost var done := b1.x[n..n + i];
      MulStep(done, w, i, m, z, 0);
      ShiftRound(w[i], k, z);
      var y := (b.x[i] * Two(k)) % W + z;
      z := b.x[i] / Two(32 - k);
      b1.x[n + i] := y;
      i := i + 1;
      assert b1.x[n..n + i] == done + [y];
    }
    ProductDone(b1.x[n..n + i], w, m, z, 0);
    b1.x[n + b.wds] := z;
    assert b1.x[n..n + b.wds] == MulWords(w, m, 0);
  }

  /** A shift by whole words copies them. */
  method CopyInto(b1: Bigint, n: nat, b: Bigint)
    requires b.Valid() && b.wds >= 1 && b1.Valid() && Apart(b, b1)
    requires n + b.wds < b1.x.Length
    modifies b1.x
    ensures b1.x[..n] == old(b1.x[..n])
    ensures b1.x[n..n + b.wds] == b.Words()
  {
    var i := 0;
    while i < b.wds
      invariant i <= b.wds
      invariant b1.x[..n] == old(b1.x[..n])
      invariant b1.x[n..n + i] == b.x[..i]
    {
      b1.x[n + i] := b.x[i];
      i := i + 1;
    }
  }

  lemma {:induction false} MulOne(w: seq<Word>)
    ensures MulWords(w, 1, 0) == w && MulCarry(w, 1, 0) == 0
    decreases w
  {
    if w != [] {
      DivUnique(w[0], 0, w[0]);
      MulOne(w[1..]);
    }
  }

  lemma ShiftedParts(r: seq<Word>, n: nat, words: seq<Word>, z: Word)
    requires |r| == n + |words| + 1 && r[..n] == Zeros(n) && r[n..n + |words|] == words
    requires z != 0 ==> r[n + |words|] == z
    ensures r[..if z == 0 then n + |words| else n + |words| + 1] == Zeros(n) + (words + if z == 0 then [] else [z])
  {
    var m := n + |words|;
    assert r[..m] == r[..n] + r[n..m];
    assert r[..m + 1] == r[..m] + [r[m]];
  }

  lemma ShiftedValue(r: seq<Word>, v: seq<Word>, n: nat, w: seq<Word>, k: nat, z: Word)
    requires w != [] && (|w| >= 2 ==> w[|w| - 1] != 0)
    requires |r| == n + |w| + 1 && n == k / 32
    requires r[..n] == Zeros(n) && r[n..n + |w|] == MulWords(w, Bit(k % 32), 0)
    requires z == MulCarry(w, Bit(k % 32), 0) && (z != 0 ==> r[n + |w|] == z)
    requires v == r[..if z == 0 then n + |w| else n + |w| + 1]
    ensures Val(v) == Val(w) * Two(k) && (Val(w) > 0 ==> v[|v| - 1] != 0)
  {
    hide MulWords, MulCarry, Two;
    var m := Bit(k % 32);
    var u := MulWords(w, m, 0) + if z == 0 then [] else [z];
    ShiftedParts(r, n, MulWords(w, m, 0), z);
    ValConcat(Zeros(n), u);
    ProductWords(w, m, 0);
    if Val(w) > 0 { TopOfPositive(w); }
    assert z == 0 ==> u == MulWords(w, m, 0);
    ShiftTotal(n, k, m, Val(w), Val(u));
  }

  lemma TopOfPositive(w: seq<Word>)
    requires w != [] && (|w| >= 2 ==> w[|w| - 1] != 0) && Val(w) > 0
    ensures w[|w| - 1] != 0
  {
  }

  lemma ShiftTotal(n: nat, k: nat, m: nat, vw: nat, vu: nat)
    requires n == k / 32 && m == Two(k % 32) && vu == m * vw
    ensures Pow(n) * vu == vw * Two(k)
  {
    assert k == 32 * n + k % 32;
    PowTwo(n);
    TwoSum(32 * n, k % 32);
    MulAssoc(Two(32 * n), m, vw);
    Commute(Two(k), vw);
  }

  lemma Commute(a: int, b: int)
    ensures a * b == b * a
  {
  }

  lemma MulAssoc(a: int, b: int, c: int)
    ensures a * (b * c) == (a * b) * c
  {
  }
}
