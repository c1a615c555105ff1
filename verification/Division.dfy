/** One digit of a quotient, from an estimate that is off by at most one. */
module Division {
  import opened Bignum
  import opened Bigints

  // ---------- dshift ----------

  /** The number of leading zero bits, found by halving steps. */
  method Hi0bits(w: Word) returns (k: nat)
    ensures w == 0 ==> k == 32
    ensures w > 0 ==> k < 32 && Two(31 - k) <= w < Two(32 - k)
  {
    SmallPowers();
    var x := w;
    k := 0;
    x, k := ShiftIfClear(w, x, k, 16, 0x1_0000, 0x1_0000);
    x, k := ShiftIfClear(w, x, k, 8, 0x100, 0x100_0000);
    x, k := ShiftIfClear(w, x, k, 4, 0x10, 0x1000_0000);
    x, k := ShiftIfClear(w, x, k, 2, 4, 0x4000_0000);
    if x < 0x8000_0000 {
      if x < 0x4000_0000 { return 32; }
      x, k := ShiftIfClear(w, x, k, 1, 2, 0x8000_0000);
    }
    LeadingZeros(w, k);
  }

  /** When the highest d bits of x are clear, that is, when x is below the limit, x moves up by d bits. */
  method ShiftIfClear(ghost w: Word, x: Word, k: nat, d: nat, m: nat, limit: nat) returns (x': Word, k': nat)
    requires m == Two(d) && limit * m == W && x == w * Two(k)
    ensures k <= k' <= k + d && x' == w * Two(k')
    ensures x >= 1 && x * m >= limit ==> x' >= limit
    ensures x == 0 ==> x' == 0
  {
    x', k' := x, k;
    if x < limit {
      TwoSum(k, d);
      MulAssoc(w, Two(k), m);
      MulStrict(x, limit, m);
      x', k' := x * m, k + d;
    }
  }

  lemma MulStrict(a: int, b: int, c: nat)
    requires a < b && c > 0
    ensures a * c < b * c
  {
  }

  lemma SmallPowers()
    ensures Two(1) == 2 && Two(2) == 4 && Two(4) == 0x10 && Two(8) == 0x100 && Two(16) == 0x1_0000
    ensures Two(0) == 1 && Two(31) == 0x8000_0000 && Two(32) == W
  {
    TwoSum(8, 8);
    TwoWord();
    assert Two(32) == 2 * Two(31);
  }

  lemma LeadingZeros(w: nat, k: nat)
    requires k < 32 && Two(31) <= w * Two(k) < Two(32)
    ensures Two(31 - k) <= w < Two(32 - k)
  {
    TwoSum(31 - k, k);
    TwoSum(32 - k, k);
    CancelAtMost(Two(31 - k), w, Two(k));
    CancelBelow(w, Two(32 - k), Two(k));
  }

  lemma CancelAtMost(a: nat, b: nat, c: nat)
    requires a * c <= b * c && c >= 1
    ensures a <= b
  {
    if b < a { MulMono(b + 1, a, c); }
  }

  lemma CancelBelow(a: nat, b: nat, c: nat)
    requires a * c < b * c
    ensures a < b
  {
    if b <= a { MulMono(b, a, c); }
  }

  predicate HasFourLeadingZeros(w: Word) { 0x800_0000 <= w < 0x1000_0000 }

  /** The number has 28 bits above some number of whole words: its top word has exactly four leading zero bits. */
  ghost predicate FourLeadingZeros(v: nat) {
    exists m: nat :: TopBits(v, m)
  }

  ghost predicate TopBits(v: nat, m: nat) {
    Two(27) * Pow(m) <= v < Two(28) * Pow(m)
  }

  /** How much more to shift, after p2, for a divisor with four leading zero bits. */
  method Dshift(b: Bigint, p2: int) returns (i: nat)
    requires b.Trimmed() && b.wds >= 1 && b.Value() > 0
    ensures i < 32
    ensures p2 >= 0 ==> FourLeadingZeros(b.Value() * Two(p2 + i))
  {
    hide Two, FourLeadingZeros, HasFourLeadingZeros;
    var h := Hi0bits(b.x[b.wds - 1]);
    TopOfPositive(b.Words());
    var rv := h - 4;
    if p2 > 0 { rv := rv - p2; }
    i := rv % 32;
    if p2 >= 0 {
      assert (31 - h + p2 + i - 27) % 32 == 0;
      ScaledDivisor(b.Words(), h, p2 + i, (31 - h + p2 + i - 27) / 32);
    }
  }

  lemma ScaledDivisor(w: seq<Word>, h: nat, e: nat, c: nat)
    requires w != [] && h < 32 && Two(31 - h) <= w[|w| - 1] < Two(32 - h)
    requires 31 - h + e == 27 + 32 * c
    ensures FourLeadingZeros(Val(w) * Two(e))
  {
    hide Val, Two, Pow;
    var n := |w| - 1;
    TopBounds(w, Two(31 - h), Two(32 - h));
    ScaledBound(31 - h, n, e, 27, c);
    ScaledBound(32 - h, n, e, 28, c);
    Between(Two(31 - h) * Pow(n), Val(w), Two(32 - h) * Pow(n), Two(e));
    assert TopBits(Val(w) * Two(e), n + c);
  }

  /** Bounds on the top word are bounds on the number. */
  lemma TopBounds(w: seq<Word>, lo: nat, hi: nat)
    requires w != [] && lo <= w[|w| - 1] < hi
    ensures lo * Pow(|w| - 1) <= Val(w) < hi * Pow(|w| - 1)
  {
    hide Val, Pow;
    var t: nat, p := w[|w| - 1], Pow(|w| - 1);
    SplitTop(w);
    MulMono(lo, t, p);
    MulMono(t + 1, hi, p);
    assert (t + 1) * p == t * p + p;
  }

  lemma Between(a: nat, b: nat, c: nat, m: nat)
    requires a <= b < c && m >= 1
    ensures a * m <= b * m < c * m
  {
    MulMono(a, b, m);
    MulMono(b + 1, c, m);
  }

  lemma ScaledBound(k: nat, n: nat, e: nat, r: nat, c: nat)
    requires k + e == r + 32 * c
    ensures Two(k) * Pow(n) * Two(e) == Two(r) * Pow(n + c)
  {
    PowTwo(n);
    PowTwo(n + c);
    TwoSum(k, 32 * n);
    TwoSum(k + 32 * n, e);
    TwoSum(r, 32 * (n + c));
    assert k + 32 * n + e == r + 32 * (n + c);
  }

  lemma TopWordScaled(w: seq<Word>)
    requires w != [] && w[|w| - 1] != 0 && FourLeadingZeros(Val(w))
    ensures HasFourLeadingZeros(w[|w| - 1])
  {
    var m: nat :| TopBits(Val(w), m);
    var n, t: nat, p := |w| - 1, w[|w| - 1], Pow(m);
    WordsOfSize(w, m);
    TwoWord();
    TopBounds(w, t, t + 1);
    CancelBelow(Two(27), t + 1, p);
    CancelBelow(t, Two(28), p);
  }

  lemma WordsOfSize(w: seq<Word>, m: nat)
    requires w != [] && w[|w| - 1] != 0 && TopBits(Val(w), m)
    ensures |w| == m + 1
  {
    var n := |w| - 1;
    ValBound(w);
    ValTop(w);
    TwoWord();
    MulMono(1, Two(27), Pow(m));
    MulMono(Two(28), W, Pow(m));
    if n < m { PowMono(n + 1, m); }
    if n > m { PowMono(m + 1, n); }
  }

  // ---------- quorem ----------

  /** b - q * s in place: for the estimate of the quotient, and once more, with q = 1, when the estimate was low. */
  method SubtractMultiple(b: Bigint, s: Bigint, q: Word)
    requires b.Valid() && s.Valid() && Apart(b, s) && b.wds == s.wds
    modifies b.x
    ensures b.Words() == SubMulWords(old(b.Words()), s.Words(), q, 0, 0)
  {
    hide Val, SubMulWords;
    ghost var bw, sw := b.Words(), s.Words();
    var i := 0;
    var carry: Word, borrow: nat := 0, 0;
    assert bw[0..] == bw && sw[0..] == sw;
    while i < s.wds
      invariant i <= s.wds && borrow <= 1
      invariant b.x[..i] + SubMulWords(bw[i..], sw[i..], q, carry, borrow) == SubMulWords(bw, sw, q, 0, 0)
      invariant b.x[i..b.wds] == bw[i..]
    {
      ghost var done := b.x[..i];
      assert b.x[i] == b.x[i..b.wds][0] == bw[i];
      SubMulStep(done, bw, sw, i, q, carry, borrow);
      var ys := s.x[i] * q + carry;
      var y := Difference(b.x[i], ys % W, borrow);
      carry := ys / W;
      borrow := y / W % 2;
      b.x[i] := y % W;
      i := i + 1;
      assert b.x[..i] == done + [y % W];
    }
  }

  lemma SubMulStep(
    done: seq<Word>, b: seq<Word>, s: seq<Word>, i: nat, q: Word, carry: Word, borrow: nat)
    requires |b| == |s| && i < |b| && borrow <= 1
    ensures RoundCarry(s[i], q, carry) < W
    ensures var y := Difference(b[i], (s[i] * q + carry) % W, borrow);
            done + SubMulWords(b[i..], s[i..], q, carry, borrow) ==
            (done + [y % W]) + SubMulWords(b[i + 1..], s[i + 1..], q, RoundCarry(s[i], q, carry), y / W % 2)
  {
    ProductBound(s[i], q, carry);
    assert b[i..][0] == b[i] && b[i..][1..] == b[i + 1..] && s[i..][0] == s[i] && s[i..][1..] == s[i + 1..];
  }

  /** Leaves out the zero words on top, the highest at n; a number of one zero word is left with no words. */
  method DropZeros(b: Bigint, top: nat) returns (n: nat)
    requires b.Valid() && b.wds == top + 1 && b.x[top] == 0
    modifies b`wds
    ensures b.Trimmed() && b.wds == n <= top && b.Value() == old(b.Value())
  {
    n := top;
    ghost var w := b.Words();
    var e := n - 1;
    DropTop(w);
    assert w[..n] == b.x[..n];
    while e > 0 && b.x[e] == 0
      invariant e == n - 1 <= top - 1 && n >= 0 && b.wds == |w| == top + 1
      invariant n > 0 ==> Val(b.x[..n]) == Val(w)
      invariant n == 0 ==> top == 0
      decreases e
    {
      assert b.x[..n][..n - 1] == b.x[..n - 1];
      DropTop(b.x[..n]);
      n, e := n - 1, e - 1;
    }
    b.wds := n;
  }

  lemma DropTop(w: seq<Word>)
    requires w != [] && w[|w| - 1] == 0
    ensures Val(w[..|w| - 1]) == Val(w)
  {
    assert w == w[..|w| - 1] + [0];
    ValSnocZero(w[..|w| - 1]);
  }

  /** The estimate from the top words is the quotient or one less. */
  lemma Estimate(vb: nat, vs: nat, bt: nat, st: nat, p: nat, q: nat)
    requires bt * p <= vb < (bt + 1) * p && st * p <= vs < (st + 1) * p && p >= 1
    requires q == bt / (st + 1) && q + 1 <= st
    ensures q * vs <= vb < (q + 2) * vs
  {
    DivBounds(bt, st + 1);
    NotAbove(vb, vs, bt, st, p, q);
    NotFarBelow(vb, vs, bt, st, p, q);
  }

  lemma DivBounds(n: nat, d: nat)
    requires d >= 1
    ensures 0 <= n / d && (n / d) * d <= n < (n / d + 1) * d
  {
    var q := n / d;
    assert n == q * d + n % d;
    assert (q + 1) * d == q * d + d;
    if q < 0 { MulMono(q + 1, 0, d); }
  }

  lemma NotAbove(vb: nat, vs: nat, bt: nat, st: nat, p: nat, q: nat)
    requires bt * p <= vb && vs < (st + 1) * p && q * (st + 1) <= bt
    ensures q * vs <= vb
  {
    MulMono(vs, (st + 1) * p, q);
    MulAssoc(q, st + 1, p);
    MulMono(q * (st + 1), bt, p);
  }

  lemma NotFarBelow(vb: nat, vs: nat, bt: nat, st: nat, p: nat, q: nat)
    requires vb < (bt + 1) * p && st * p <= vs && bt < (q + 1) * (st + 1) && q + 1 <= st
    ensures vb < (q + 2) * vs
  {
    MulMono(bt + 1, (q + 1) * (st + 1), p);
    MulAssoc(q + 1, st + 1, p);
    assert (st + 1) * p == st * p + p;
    MulDistribute(q + 1, st * p, p);
    MulMono(st * p, vs, q + 1);
    MulMono(q + 1, st, p);
    MulDistribute(vs, q + 1, 1);
  }

  lemma MulDistribute(a: int, b: int, c: int)
    ensures a * (b + c) == a * b + a * c
  {
  }

  /** One round of quorem: b - q * s, without zero words on top. */
  method Reduce(b: Bigint, s: Bigint, q: Word) returns (n: nat)
    requires b.Trimmed() && s.Trimmed() && Apart(b, s) && b.wds == s.wds >= 1
    requires q * s.Value() <= b.Value()
    modifies b, b.x
    ensures b.Trimmed() && b.wds <= s.wds
    ensures b.Value() == old(b.Value()) - q * s.Value()
  {
    SubMulExact(b.Words(), s.Words(), q);
    SubtractMultiple(b, s, q);
    n := s.wds - 1;
    if b.x[n] == 0 { n := DropZeros(b, n); }
  }

  /**
   * The quotient of b by s, and in b the remainder. The divisor has exactly four leading zero bits, and the
   * dividend no more words than the divisor; a dividend below ten times the divisor is such a one.
   */
  method Quorem(b: Bigint, s: Bigint) returns (q: nat)
    requires b.Trimmed() && s.Trimmed() && Apart(b, s) && 1 <= s.wds && b.wds <= s.wds
    requires HasFourLeadingZeros(s.x[s.wds - 1])
    modifies b, b.x
    ensures b.Trimmed() && b.wds <= s.wds
    ensures old(b.Value()) == q * s.Value() + b.Value() && b.Value() < s.Value()
  {
    DivisorPositive(s.Words());
    if b.wds < s.wds {
      LongerIsLarger(b.Words(), s.Words());
      return 0;
    }
    q := TakeEstimate(b, s);
    var j := Cmp(b, s);
    if j >= 0 {
      if b.wds < s.wds { LongerIsLarger(b.Words(), s.Words()); }
      OneMore(q, s.Value());
      q := q + 1;
      var n := Reduce(b, s, 1);
    }
  }

  method TakeEstimate(b: Bigint, s: Bigint) returns (q: nat)
    requires b.Trimmed() && s.Trimmed() && Apart(b, s) && b.wds == s.wds >= 1
    requires HasFourLeadingZeros(s.x[s.wds - 1])
    modifies b, b.x
    ensures b.Trimmed() && b.wds <= s.wds
    ensures old(b.Value()) == q * s.Value() + b.Value() && b.Value() < 2 * s.Value()
  {
    var n := s.wds - 1;
    var q0 := TopQuotient(b.x[n], s.x[n]);
    EstimateOfTops(b.Words(), s.Words());
    Multiples(b.Value(), s.Value(), q0);
    if q0 != 0 { n := Reduce(b, s, q0); }
    q := q0;
  }

  lemma OneMore(q: nat, v: nat)
    ensures (q + 1) * v == q * v + v
  {
  }

  lemma DivisorPositive(s: seq<Word>)
    requires s != [] && HasFourLeadingZeros(s[|s| - 1])
    ensures Val(s) > 0 && s[|s| - 1] != 0
  {
    ValTop(s);
  }

  lemma Multiples(vb: nat, vs: nat, q: nat)
    requires q * vs <= vb < (q + 2) * vs
    ensures (q + 1) * vs == q * vs + vs && vb - q * vs < 2 * vs
  {
  }

  /** The divisor's top word is taken one too large, so that the estimate is never too large. */
  function TopQuotient(bt: Word, st: Word): (q: Word)
    requires HasFourLeadingZeros(st)
    ensures q < 32
  {
    var d: nat := st + 1;
    SmallQuotient(bt, d);
    bt / d
  }

  lemma SmallQuotient(bt: Word, d: nat)
    requires 0x800_0000 <= d
    ensures 0 <= bt / d < 32
  {
    DivBounds(bt, d);
    if bt / d >= 32 { MulMono(32, bt / d, d); }
  }

  lemma EstimateOfTops(b: seq<Word>, s: seq<Word>)
    requires |b| == |s| >= 1 && HasFourLeadingZeros(s[|s| - 1])
    ensures var q := TopQuotient(b[|b| - 1], s[|s| - 1]);
            q * Val(s) <= Val(b) && Val(b) < (q + 2) * Val(s)
  {
    var n, bt: nat, st: nat := |b| - 1, b[|b| - 1], s[|s| - 1];
    TopBounds(b, bt, bt + 1);
    TopBounds(s, st, st + 1);
    var q: nat := TopQuotient(bt, st);
    assert q == bt / (st + 1);
    Estimate(Val(b), Val(s), bt, st, Pow(n), q);
  }

  // ---------- diff ----------

  /** A difference is a multiple of one subtracted; there is nothing to carry. */
  lemma DiffStep(done: seq<Word>, a: seq<Word>, b: seq<Word>, i: nat, borrow: nat)
    requires |a| == |b| && i < |a| && borrow <= 1
    ensures var y := Difference(a[i], b[i], borrow);
            done + SubMulWords(a[i..], b[i..], 1, 0, borrow) ==
            (done + [y % W]) + SubMulWords(a[i + 1..], b[i + 1..], 1, 0, y / W % 2)
  {
    SubMulStep(done, a, b, i, 1, 0, borrow);
    DivUnique(b[i] * 1 + 0, 0, b[i]);
  }

  /** The first i words of c and what is still to do make the whole difference. */
  ghost predicate DiffSoFar(done: seq<Word>, a: seq<Word>, b: seq<Word>, i: nat, borrow: nat)
    requires |a| == |b| && i <= |a|
  {
    borrow <= 1 && done + SubMulWords(a[i..], b[i..], 1, 0, borrow) == SubMulWords(a, b, 1, 0, 0)
  }

  lemma DiffStarts(a: seq<Word>, b: seq<Word>)
    requires |a| == |b|
    ensures DiffSoFar([], a, b, 0, 0)
  {
    assert a[0..] == a && b[0..] == b;
  }

  lemma DiffDone(done: seq<Word>, a: seq<Word>, b: seq<Word>, borrow: nat)
    requires |a| == |b| && DiffSoFar(done, a, b, |a|, borrow)
    ensures done == SubMulWords(a, b, 1, 0, 0)
  {
  }

  /** One word of the difference. */
  method DiffWord(c: Bigint, ghost aw: seq<Word>, ghost bw: seq<Word>, i: nat, x: Word, y: Word, borrow: nat)
    returns (borrow': nat)
    requires |aw| == |bw| && i < |aw| && i < c.x.Length && x == aw[i] && y == bw[i]
    requires DiffSoFar(c.x[..i], aw, bw, i, borrow)
    modifies c.x
    ensures DiffSoFar(c.x[..i + 1], aw, bw, i + 1, borrow')
  {
    ghost var done := c.x[..i];
    DiffStep(done, aw, bw, i, borrow);
    var d := Difference(x, y, borrow);
    borrow' := d / W % 2;
    c.x[i] := d % W;
    assert c.x[..i + 1] == done + [d % W];
  }

  /** The words of a - b; above the words of b only the borrow is left to subtract. */
  method DiffWords(c: Bigint, a: Bigint, b: Bigint)
    requires c.Valid() && a.Valid() && b.Valid() && Apart(a, c) && Apart(b, c)
    requires b.wds <= a.wds <= c.x.Length
    modifies c.x
    ensures c.x[..a.wds] == SubMulWords(a.Words(), b.Words() + Zeros(a.wds - b.wds), 1, 0, 0)
  {
    hide SubMulWords, DiffSoFar;
    ghost var aw, bw := a.Words(), b.Words() + Zeros(a.wds - b.wds);
    var i, borrow: nat := 0, 0;
    DiffStarts(aw, bw);
    assert c.x[..0] == [];
    while i < b.wds
      invariant i <= b.wds && DiffSoFar(c.x[..i], aw, bw, i, borrow)
    {
      borrow := DiffWord(c, aw, bw, i, a.x[i], b.x[i], borrow);
      i := i + 1;
    }
    while i < a.wds
      invariant b.wds <= i <= a.wds && DiffSoFar(c.x[..i], aw, bw, i, borrow)
    {
      borrow := DiffWord(c, aw, bw, i, a.x[i], 0, borrow);
      i := i + 1;
    }
    DiffDone(c.x[..i], aw, bw, borrow);
  }

  lemma PaddedValue(b: seq<Word>, n: nat)
    ensures Val(b + Zeros(n)) == Val(b)
  {
    ValConcat(b, Zeros(n));
  }

  /** Leaves out the zero words on top of a number that is not zero. */
  method TopOf(c: Bigint, n: nat) returns (wa: nat)
    requires c.Valid() && 1 <= n <= c.x.Length && Val(c.x[..n]) > 0
    ensures 1 <= wa <= n && c.x[wa - 1] != 0 && Val(c.x[..wa]) == Val(c.x[..n])
  {
    wa := n;
    while c.x[wa - 1] == 0
      invariant 1 <= wa <= n && Val(c.x[..wa]) == Val(c.x[..n])
      decreases wa
    {
      assert c.x[..wa][..wa - 1] == c.x[..wa - 1];
      DropTop(c.x[..wa]);
      wa := wa - 1;
    }
  }

  /** The words of the difference of a larger and a smaller number, and how many there are. */
  method DiffInto(c: Bigint, a: Bigint, b: Bigint) returns (wa: nat)
    requires c.Valid() && a.Valid() && b.Valid() && Apart(a, c) && Apart(b, c)
    requires 1 <= b.wds <= a.wds <= c.x.Length && b.Value() < a.Value()
    modifies c.x
    ensures 1 <= wa <= c.x.Length && c.x[wa - 1] != 0 && Val(c.x[..wa]) == a.Value() - b.Value()
  {
    DiffWords(c, a, b);
    PaddedValue(b.Words(), a.wds - b.wds);
    SubMulExact(a.Words(), b.Words() + Zeros(a.wds - b.wds), 1);
    wa := TopOf(c, a.wds);
  }

  /** The distance of a and b, in a new number, and whether a was the smaller one. */
  method Diff(a0: Bigint, b0: Bigint) returns (c: Bigint)
    requires a0.Trimmed() && b0.Trimmed() && a0.wds >= 1 && b0.wds >= 1
    ensures fresh(c) && fresh(c.x) && c.Trimmed() && c.wds >= 1
    ensures c.sign <==> a0.Value() < b0.Value()
    ensures c.Value() == if c.sign then b0.Value() - a0.Value() else a0.Value() - b0.Value()
  {
    var a, b := a0, b0;
    var i := Cmp(a, b);
    if i == 0 {
      c := new Bigint.Balloc(0);
      c.x[0] := 0;
      c.wds := 1;
      assert c.Words() == Zeros(1);
      return;
    }
    if i < 0 { a, b := b0, a0; }
    if a.wds < b.wds { LongerIsLarger(a.Words(), b.Words()); }
    c := new Bigint.Balloc(a.k);
    c.sign := i < 0;
    var wa := DiffInto(c, a, b);
    c.wds := wa;
  }
}
