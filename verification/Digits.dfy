/** The decimal digits of a quotient, rounded half to even. */
module Digits {
  import opened Bignum
  import opened Bigints
  import opened Division
  import opened Products

  // ---------- decimal strings ----------

  predicate IsDigit(c: char) { '0' <= c <= '9' }

  function DigitOf(c: char): (d: int)
    ensures IsDigit(c) ==> 0 <= d <= 9
  {
    c as int - '0' as int
  }

  function CharOf(d: nat): (c: char)
    requires d <= 9
    ensures IsDigit(c) && DigitOf(c) == d
  {
    ('0' as int + d) as char
  }

  /** The number that a string of digits denotes. */
  function DecVal(ds: string): int
    decreases |ds|
  {
    if ds == [] then 0 else 10 * DecVal(ds[..|ds| - 1]) + DigitOf(ds[|ds| - 1])
  }

  lemma DecSnoc(ds: string, c: char)
    ensures DecVal(ds + [c]) == 10 * DecVal(ds) + DigitOf(c)
  {
    assert (ds + [c])[..|ds|] == ds;
  }

  function Ten(n: nat): (r: nat)
    ensures r >= 1
  {
    if n == 0 then 1 else 10 * Ten(n - 1)
  }

  predicate AllDigits(ds: string) { forall i :: 0 <= i < |ds| ==> IsDigit(ds[i]) }

  lemma {:induction false} DecBound(ds: string)
    requires AllDigits(ds)
    ensures 0 <= DecVal(ds) < Ten(|ds|)
    decreases |ds|
  {
    if ds != [] { DecBound(ds[..|ds| - 1]); }
  }

  // ---------- rounding ----------

  /** m is the integer nearest to n / d; of two that are equally near, the even one. */
  ghost predicate IsRounded(n: int, d: int, m: int) {
    && -d <= 2 * (n - m * d) <= d
    && (2 * (n - m * d) == d || 2 * (n - m * d) == -d ==> m % 2 == 0)
  }

  /** There is only one. */
  lemma RoundedOnce(n: int, d: int, m: int, m': int)
    requires d > 0 && IsRounded(n, d, m) && IsRounded(n, d, m')
    ensures m == m'
  {
    NotAfter(n, d, m, m');
    NotAfter(n, d, m', m);
  }

  lemma NotAfter(n: int, d: int, m: int, m': int)
    requires d > 0 && IsRounded(n, d, m) && IsRounded(n, d, m')
    ensures m' <= m
  {
    if m < m' {
      assert m' * d - m * d == (m' - m) * d;
      MulMono(1, m' - m, d);
      if m' - m >= 2 { MulMono(2, m' - m, d); }
    }
  }

  /** A quotient and a remainder round up on more than a half, and on a half when the quotient is odd. */
  lemma RoundByRemainder(n: int, d: int, q: int, r: int, up: bool)
    requires n == q * d + r && 0 <= r < d
    requires up <==> 2 * r > d || (2 * r == d && q % 2 == 1)
    ensures IsRounded(n, d, if up then q + 1 else q)
  {
    assert (q + 1) * d == q * d + d;
  }

  // ---------- the digit loop ----------

  /** What digits and an exponent one higher or not say of n / d, rounded to ilim digits. */
  ghost predicate Spelled(ds: string, n: nat, d: nat, ilim: nat, bump: int) {
    && 1 <= |ds| <= ilim && AllDigits(ds) && ds[0] != '0' && ds[|ds| - 1] != '0'
    && 0 <= bump <= 1
    && IsRounded(n * Ten(ilim - 1), d, DecVal(ds) * Ten(ilim - |ds| + bump))
    && (bump == 1 <==> DecVal(ds) * Ten(ilim - |ds| + bump) == Ten(ilim))
  }

  /** The first i digits are the quotient so far, and r is what is left of the dividend. */
  ghost predicate Generated(ds: string, n: nat, d: nat, r: nat) {
    && |ds| >= 1 && AllDigits(ds) && ds[0] != '0'
    && n * Ten(|ds| - 1) == DecVal(ds) * d + r && r < d
  }

  lemma LittleLeft(ds: string, n: nat, d: nat, r: nat)
    requires Generated(ds, n, d, r)
    ensures r < d
  {
  }

  lemma FirstDigit(n: nat, d: nat, q: nat, r: nat)
    requires d <= n < 10 * d && n == q * d + r && r < d
    ensures 1 <= q <= 9 && Generated([CharOf(q)], n, d, r)
  {
    if q >= 10 { MulMono(10, q, d); }
    var ds := [CharOf(q)];
    DecSnoc([], CharOf(q));
    assert ds == [] + [CharOf(q)];
  }

  lemma NextDigit(ds: string, n: nat, d: nat, r: nat, q: nat, r': nat)
    requires Generated(ds, n, d, r) && 10 * r == q * d + r' && r' < d
    ensures q <= 9 && Generated(ds + [CharOf(q)], n, d, r')
    ensures r > 0 && r' == 0 ==> q >= 1
  {
    if q >= 10 { MulMono(10, q, d); }
    DecSnoc(ds, CharOf(q));
    NextSum(n, d, r, q, r', DecVal(ds), Ten(|ds| - 1));
  }

  lemma NextSum(n: int, d: int, r: int, q: int, r': int, v: int, t: int)
    requires n * t == v * d + r && 10 * r == q * d + r'
    ensures n * (10 * t) == (10 * v + q) * d + r'
  {
  }

  lemma ZeroTest(b: Bigint)
    requires b.Trimmed()
    ensures (b.x[0] == 0 && b.wds <= 1) <==> b.Value() == 0
  {
    if b.wds >= 2 { ValTop(b.Words()); }
    if b.wds == 1 {
      assert b.Words() == [b.x[0]] && b.Words()[1..] == [];
      assert b.Value() == b.x[0] + W * Val(b.Words()[1..]);
    }
  }

  lemma RoomForTenfold(w: seq<Word>, s: seq<Word>)
    requires |w| >= 2 ==> w[|w| - 1] != 0
    requires s != [] && HasFourLeadingZeros(s[|s| - 1]) && Val(w) < 10 * Val(s)
    ensures |w| <= |s|
  {
    var t: nat := s[|s| - 1];
    TopBounds(s, t, t + 1);
    MulMono(10 * (t + 1), W, Pow(|s| - 1));
    MulAssoc(10, t + 1, Pow(|s| - 1));
    if |w| > |s| {
      ValTop(w);
      PowMono(|s|, |w| - 1);
    }
  }

  /** A divisor ready for quorem, and a dividend below ten times the divisor. */
  ghost predicate Ready(b: Bigint, s: Bigint)
    reads b, b.x, s, s.x
  {
    && b.Trimmed() && s.Trimmed() && Apart(b, s) && s.wds >= 1 && HasFourLeadingZeros(s.x[s.wds - 1])
    && b.Value() < 10 * s.Value()
  }

  /** The digit loop: one quotient after the other, until nothing is left or ilim digits are out. */
  method Generate(b0: Bigint, s: Bigint, ilim: nat, s0: array<char>) returns (b: Bigint, i: nat)
    requires Ready(b0, s) && s.Value() <= b0.Value() && 1 <= ilim <= s0.Length
    modifies b0, b0.x, s0
    ensures b.Trimmed() && (b == b0 || (fresh(b) && fresh(b.x)))
    ensures i <= ilim && Generated(s0[..i], old(b0.Value()), s.Value(), b.Value())
    ensures if b.Value() == 0 then s0[i - 1] != '0' else i == ilim
  {
    hide Generated, Val;
    ghost var n, d := b0.Value(), s.Value();
    b := b0;
    RoomForTenfold(b.Words(), s.Words());
    var dig := Quorem(b, s);
    FirstDigit(n, d, dig, b.Value());
    s0[0] := CharOf(dig);
    i := 1;
    assert s0[..1] == [CharOf(dig)];
    while true
      invariant b.Trimmed() && (b == b0 || (fresh(b) && fresh(b.x))) && Apart(b, s)
      invariant 1 <= i <= ilim && Generated(s0[..i], n, d, b.Value())
      invariant b.Value() == 0 ==> s0[i - 1] != '0'
      decreases ilim - i
    {
      ZeroTest(b);
      if b.x[0] == 0 && b.wds <= 1 { return; }
      if i >= ilim { break; }
      b := OneDigit(b, s, i, s0, n);
      i := i + 1;
    }
  }

  /** One round of the digit loop: ten times what is left, divided. */
  method OneDigit(b0: Bigint, s: Bigint, i: nat, s0: array<char>, ghost n: nat) returns (b: Bigint)
    requires b0.Trimmed() && b0.Value() > 0 && Apart(b0, s) && 1 <= i < s0.Length
    requires s.Trimmed() && s.wds >= 1 && HasFourLeadingZeros(s.x[s.wds - 1])
    requires Generated(s0[..i], n, s.Value(), b0.Value())
    modifies b0, b0.x, s0
    ensures b.Trimmed() && (b == b0 || (fresh(b) && fresh(b.x))) && Apart(b, s)
    ensures Generated(s0[..i + 1], n, s.Value(), b.Value())
    ensures b.Value() == 0 ==> s0[i] != '0'
  {
    hide Generated;
    ghost var ds, r := s0[..i], b0.Value();
    LittleLeft(ds, n, s.Value(), r);
    b := Multadd(b0, 10, 0);
    RoomForTenfold(b.Words(), s.Words());
    var dig := Quorem(b, s);
    NextDigit(ds, n, s.Value(), r, dig, b.Value());
    s0[i] := CharOf(dig);
    assert s0[..i + 1] == ds + [CharOf(dig)];
  }

  lemma PrefixVal(ds: string, k: nat)
    requires k < |ds|
    ensures DecVal(ds[..k + 1]) == 10 * DecVal(ds[..k]) + DigitOf(ds[k])
  {
    assert ds[..k + 1] == ds[..k] + [ds[k]];
    DecSnoc(ds[..k], ds[k]);
  }

  lemma {:induction false} TenSum(a: nat, b: nat)
    ensures Ten(a + b) == Ten(a) * Ten(b)
    decreases a
  {
    if a > 0 {
      TenSum(a - 1, b);
      MulAssoc(10, Ten(a - 1), Ten(b));
    }
  }

  lemma BelowTen(v: nat, a: nat, b: nat)
    requires v < Ten(a)
    ensures v * Ten(b) < Ten(a + b)
  {
    TenSum(a, b);
    MulStrict(v, Ten(a), Ten(b));
  }

  /** Steps back over nines; none but nines leave no digit. */
  method SkipNines(s0: array<char>, n: nat) returns (s: nat, all: bool)
    requires 1 <= n <= s0.Length && AllDigits(s0[..n])
    ensures s < n && (all ==> s == 0) && (!all ==> s0[s] != '9')
    ensures all ==> DecVal(s0[..n]) + 1 == Ten(n)
    ensures !all ==> DecVal(s0[..n]) + 1 == (DecVal(s0[..s + 1]) + 1) * Ten(n - s - 1)
  {
    ghost var ds := s0[..n];
    s := n;
    assert ds[..n] == ds;
    while true
      invariant 1 <= s <= n
      invariant DecVal(ds) + 1 == (DecVal(ds[..s]) + 1) * Ten(n - s)
      decreases s
    {
      s := s - 1;
      PrefixVal(ds, s);
      assert s0[s] == ds[s] && ds[..s + 1] == s0[..s + 1];
      if s0[s] != '9' { return s, false; }
      MulAssoc(DecVal(ds[..s]) + 1, 10, Ten(n - s - 1));
      if s == 0 { return 0, true; }
    }
  }

  /** One more in the last place: nines at the end carry, and of nothing but nines a one remains. */
  method RoundUp(s0: array<char>, n: nat) returns (s: nat, bump: nat)
    requires 1 <= n <= s0.Length && AllDigits(s0[..n]) && s0[0] != '0'
    modifies s0
    ensures 1 <= s <= n && bump <= 1 && AllDigits(s0[..s]) && s0[0] != '0' && s0[s - 1] != '0'
    ensures DecVal(s0[..s]) * Ten(n - s + bump) == DecVal(old(s0[..n])) + 1
    ensures bump == 1 <==> DecVal(s0[..s]) * Ten(n - s + bump) == Ten(n)
  {
    var all;
    s, all := SkipNines(s0, n);
    if all {
      s0[0] := '1';
      DecSnoc([], '1');
      assert s0[..1] == [] + ['1'];
      return 1, 1;
    }
    ghost var ds := s0[..n];
    assert ds[..s + 1] == s0[..s + 1];
    OneMore(ds, s);
    s0[s] := Successor(s0[s]);
    s, bump := s + 1, 0;
    assert s0[..s] == ds[..s - 1] + [Successor(ds[s - 1])];
  }

  function Successor(c: char): (d: char)
    requires IsDigit(c) && c != '9'
    ensures IsDigit(d) && d != '0' && DigitOf(d) == DigitOf(c) + 1
  {
    (c as int + 1) as char
  }

  lemma OneMore(ds: string, s: nat)
    requires AllDigits(ds) && s < |ds| && ds[s] != '9'
    requires DecVal(ds) + 1 == (DecVal(ds[..s + 1]) + 1) * Ten(|ds| - s - 1)
    ensures var u := ds[..s] + [Successor(ds[s])];
            AllDigits(u) && DecVal(u) * Ten(|ds| - s - 1) == DecVal(ds) + 1 < Ten(|ds|)
  {
    var u := ds[..s] + [Successor(ds[s])];
    PrefixVal(ds, s);
    DecSnoc(ds[..s], Successor(ds[s]));
    DecBound(u);
    BelowTen(DecVal(u), s + 1, |ds| - s - 1);
  }

  /** The zeros at the end go. */
  method TrimZeros(s0: array<char>, n: nat) returns (s: nat)
    requires 1 <= n <= s0.Length && AllDigits(s0[..n]) && s0[0] != '0'
    ensures 1 <= s <= n && AllDigits(s0[..s]) && s0[s - 1] != '0'
    ensures DecVal(s0[..s]) * Ten(n - s) == DecVal(s0[..n]) < Ten(n)
  {
    ghost var ds := s0[..n];
    DecBound(ds);
    s := n - 1;
    assert ds[..n] == ds;
    while s0[s] == '0'
      invariant 0 <= s < n
      invariant DecVal(ds) == DecVal(ds[..s + 1]) * Ten(n - s - 1)
      decreases s
    {
      PrefixVal(ds, s);
      MulAssoc(DecVal(ds[..s]), 10, Ten(n - s - 1));
      s := s - 1;
    }
    s := s + 1;
    assert s0[..s] == ds[..s];
  }

  lemma OddLast(ds: string)
    requires ds != []
    ensures DecVal(ds) % 2 == DigitOf(ds[|ds| - 1]) % 2
  {
  }

  /** More than half of a last place is left, or exactly half and the last digit is odd. */
  method RoundsUp(b0: Bigint, s: Bigint, dig: char) returns (up: bool)
    requires b0.Trimmed() && s.Trimmed() && s.wds >= 1 && b0.Value() > 0
    ensures up <==> 2 * b0.Value() > s.Value() || (2 * b0.Value() == s.Value() && DigitOf(dig) % 2 == 1)
  {
    assert Two(1) == 2;
    var b := Lshift(b0, 1);
    var j := Cmp(b, s);
    up := j > 0 || (j == 0 && dig as int % 2 == 1);
  }

  lemma RoundedDigits(ds: string, n: nat, d: nat, r: nat, up: bool)
    requires Generated(ds, n, d, r)
    requires up <==> 2 * r > d || (2 * r == d && DigitOf(ds[|ds| - 1]) % 2 == 1)
    ensures IsRounded(n * Ten(|ds| - 1), d, if up then DecVal(ds) + 1 else DecVal(ds))
  {
    OddLast(ds);
    RoundByRemainder(n * Ten(|ds| - 1), d, DecVal(ds), r, up);
  }

  /** The remainder decides about the last place: a half goes to the even digit. */
  method RoundOff(b: Bigint, s: Bigint, n: nat, s0: array<char>, ghost vb: nat) returns (n': nat, bump: nat)
    requires b.Trimmed() && s.Trimmed() && s.wds >= 1 && b.Value() > 0 && 1 <= n <= s0.Length
    requires Generated(s0[..n], vb, s.Value(), b.Value())
    modifies s0
    ensures n' <= n && Spelled(s0[..n'], vb, s.Value(), n, bump)
  {
    var up := RoundsUp(b, s, s0[n - 1]);
    RoundedDigits(s0[..n], vb, s.Value(), b.Value(), up);
    if up {
      n', bump := RoundUp(s0, n);
    } else {
      n' := TrimZeros(s0, n);
      bump := 0;
    }
  }

  /**
   * The digits of b / s, at most ilim of them: exact when nothing is left, otherwise rounded half to even in the
   * last place. The digits end with a zero byte; the exponent grows by one when all digits were nines.
   */
  method WriteDigits(b0: Bigint, s: Bigint, ilim: nat, k0: int, s0: array<char>) returns (n: nat, decpt: int)
    requires Ready(b0, s) && s.Value() <= b0.Value() && 1 <= ilim < s0.Length
    modifies b0, b0.x, s0
    ensures n < s0.Length && s0[n] == '\0'
    ensures Spelled(s0[..n], old(b0.Value()), s.Value(), ilim, decpt - 1 - k0)
  {
    var k := k0;
    ghost var vb, vs := b0.Value(), s.Value();
    var b;
    b, n := Generate(b0, s, ilim, s0);
    ZeroTest(b);
    if b.x[0] == 0 && b.wds <= 1 {
      ExactDigits(s0[..n], vb, vs, ilim);
    } else {
      var bump;
      n, bump := RoundOff(b, s, n, s0, vb);
      k := k + bump;
    }
    ghost var ds := s0[..n];
    s0[n] := '\0';
    assert s0[..n] == ds;
    decpt := k + 1;
  }

  lemma ExactDigits(ds: string, n: nat, d: nat, ilim: nat)
    requires Generated(ds, n, d, 0) && 1 <= |ds| <= ilim && ds[|ds| - 1] != '0'
    ensures Spelled(ds, n, d, ilim, 0)
  {
    var m := ilim - |ds|;
    DecBound(ds);
    BelowTen(DecVal(ds), |ds|, m);
    TenSum(|ds| - 1, m);
    MulAssoc(n, Ten(|ds| - 1), Ten(m));
    Swap(DecVal(ds), d, Ten(m));
  }

  lemma Swap(a: int, b: int, c: int)
    ensures (a * b) * c == (a * c) * b
  {
  }

  // ---------- the whole conversion ----------

  /** The exponents of two and five of the dividend and of the divisor for m * 2^be / 10^k. */
  function Exponents(be: int, k: int): (e: (nat, nat, nat, nat))
    ensures e.0 as int - e.2 == be - k && e.1 as int - e.3 == -k
  {
    var b2, s2 := if be <= 0 then 0 else be, if be <= 0 then -be else 0;
    if k >= 0 then (b2, 0, s2 + k, k) else (b2 - k, -k, s2, 0)
  }

  /** v * 5^f * 2^t */
  function Scaled(v: nat, f: nat, t: nat): nat
    decreases t, f
  {
    if t > 0 then 2 * Scaled(v, f, t - 1) else if f > 0 then 5 * Scaled(v, f - 1, t) else v
  }

  lemma {:induction false} ScaledProduct(v: nat, f: nat, t: nat)
    ensures Scaled(v, f, t) == v * Raise(5, f) * Two(t)
    decreases t, f
  {
    if t > 0 {
      ScaledProduct(v, f, t - 1);
      Regroup(v * Raise(5, f), 2, Two(t - 1));
    } else if f > 0 {
      ScaledProduct(v, f - 1, t);
      Regroup(v, 5, Raise(5, f - 1));
    }
  }

  lemma Regroup(a: int, b: int, c: int)
    ensures b * (a * c) == a * (b * c)
  {
  }

  function Dividend(m: nat, be: int, k: int): nat {
    Scaled(m, Exponents(be, k).1, Exponents(be, k).0)
  }

  function Divisor(be: int, k: int): nat {
    Scaled(1, Exponents(be, k).3, Exponents(be, k).2)
  }

  /** The same quotient, with both numbers scaled. */
  ghost predicate SameRatio(n: nat, d: nat, n': nat, d': nat) {
    exists x: nat, y: nat :: Scales(n, d, n', d', x, y)
  }

  ghost predicate Scales(n: nat, d: nat, n': nat, d': nat, x: nat, y: nat) {
    x >= 1 && y >= 1 && n * x == n' * y && d * x == d' * y
  }

  lemma ScaleRounded(n: int, d: int, m: int, x: int)
    requires x >= 1
    ensures IsRounded(n * x, d * x, m) <==> IsRounded(n, d, m)
  {
    assert n * x - m * (d * x) == (n - m * d) * x;
    ScaleOrder(2 * (n - m * d), d, x);
    ScaleOrder(-d, 2 * (n - m * d), x);
  }

  lemma ScaleOrder(a: int, b: int, x: int)
    requires x >= 1
    ensures (a * x <= b * x <==> a <= b) && (a * x == b * x <==> a == b)
  {
    if a < b { MulMono(a + 1, b, x); }
    if b < a { MulMono(b + 1, a, x); }
  }

  lemma SpelledScaled(ds: string, n: nat, d: nat, n': nat, d': nat, ilim: nat, bump: int)
    requires SameRatio(n, d, n', d') && Spelled(ds, n', d', ilim, bump)
    ensures Spelled(ds, n, d, ilim, bump)
  {
    var x: nat, y: nat :| Scales(n, d, n', d', x, y);
    var t, m := Ten(ilim - 1), DecVal(ds) * Ten(ilim - |ds| + bump);
    ScaleRounded(n' * t, d', m, y);
    ScaleRounded(n * t, d, m, x);
    Swap(n, x, t);
    Swap(n', y, t);
  }

  lemma RatioOrder(n: nat, d: nat, n': nat, d': nat)
    requires SameRatio(n, d, n', d')
    ensures (n < d <==> n' < d') && (n < 10 * d <==> n' < 10 * d') && (d <= 10 * n <==> d' <= 10 * n')
    ensures SameRatio(10 * n, d, 10 * n', d')
  {
    var x: nat, y: nat :| Scales(n, d, n', d', x, y);
    ScaleOrder(d, n, x);
    ScaleOrder(d', n', y);
    ScaleOrder(10 * d, n, x);
    ScaleOrder(10 * d', n', y);
    ScaleOrder(d, 10 * n, x);
    ScaleOrder(d', 10 * n', y);
    assert Scales(10 * n, d, 10 * n', d', x, y);
  }

  /** The powers of five, by the cache. */
  method FivePowers(cache: PowerCache, m: Bigint, b5: nat, s5: nat) returns (b: Bigint, s: Bigint)
    requires cache.Valid() && m.Trimmed() && m.Value() > 0 && cache.Foreign(m)
    modifies cache, cache.chain, m, m.x
    ensures cache.Valid() && cache.Foreign(b) && cache.Foreign(s) && b.Trimmed() && s.Trimmed() && Apart(b, s)
    ensures (b == m || (fresh(b) && fresh(b.x))) && fresh(s) && fresh(s.x)
    ensures b.Value() == old(m.Value()) * Raise(5, b5) && s.Value() == Raise(5, s5)
  {
    b := m;
    if b5 > 0 { b := Pow5mult(cache, b, b5); }
    assert forall i :: 0 <= i < |cache.chain| ==> cache.chain[i] in old(cache.chain) || fresh(cache.chain[i]);
    s := I2b(1);
    if s5 > 0 { s := Pow5mult(cache, s, s5); }
  }

  method ShiftBy(b0: Bigint, n: nat) returns (b: Bigint)
    requires b0.Trimmed() && b0.Value() > 0
    ensures b.Trimmed() && b.Value() == b0.Value() * Two(n) && b.Value() > 0
    ensures b == b0 || (fresh(b) && fresh(b.x))
  {
    b := b0;
    MulMono(1, b0.Value(), Two(n));
    if n > 0 { b := Lshift(b, n); }
  }

  /** Both numbers shifted, by so much more that the divisor has four leading zero bits. */
  method ShiftBoth(b0: Bigint, s0: Bigint, b2: nat, s2: nat) returns (b: Bigint, s: Bigint, i: nat)
    requires b0.Trimmed() && s0.Trimmed() && Apart(b0, s0) && b0.Value() > 0 && s0.Value() > 0
    ensures b.Trimmed() && s.Trimmed() && b.wds >= 1 && s.wds >= 1 && Apart(b, s)
    ensures b == b0 || (fresh(b) && fresh(b.x))
    ensures s == s0 || (fresh(s) && fresh(s.x))
    ensures HasFourLeadingZeros(s.x[s.wds - 1])
    ensures b.Value() == b0.Value() * Two(b2 + i) && s.Value() == s0.Value() * Two(s2 + i)
  {
    hide Two, HasFourLeadingZeros;
    i := Dshift(s0, s2);
    b := ShiftBy(b0, b2 + i);
    s := ShiftBy(s0, s2 + i);
    TopOfPositive(s.Words());
    TopWordScaled(s.Words());
  }

  /** Leaving out common powers of two and shifting both sides keeps the fraction. */
  lemma RatioKept(v: nat, be: int, k: int, g: nat, i: nat, n: nat, d: nat)
    requires var (b2, b5, s2, s5) := Exponents(be, k);
             g <= b2 && g <= s2 && n == v * Raise(5, b5) * Two(b2 - g + i) && d == Raise(5, s5) * Two(s2 - g + i)
    ensures SameRatio(Dividend(v, be, k), Divisor(be, k), n, d)
  {
    hide Raise, Two, Scaled;
    var (b2, b5, s2, s5) := Exponents(be, k);
    Shifted(v * Raise(5, b5), b2, g, i);
    Shifted(Raise(5, s5), s2, g, i);
    ScaledProduct(v, b5, b2);
    ScaledProduct(1, s5, s2);
    assert Scales(Dividend(v, be, k), Divisor(be, k), n, d, Two(i), Two(g));
  }

  /** Powers of five by the cache, common powers of two left out, and both sides shifted for the divisor's top word. */
  method Prepare(cache: PowerCache, m: Bigint, be: int, k: int) returns (b: Bigint, s: Bigint)
    requires cache.Valid() && m.Trimmed() && m.Value() > 0 && cache.Foreign(m)
    modifies cache, cache.chain, m, m.x
    ensures cache.Valid() && cache.Foreign(b) && cache.Foreign(s)
    ensures b.Trimmed() && s.Trimmed() && b.wds >= 1 && s.wds >= 1 && Apart(b, s)
    ensures (b == m || (fresh(b) && fresh(b.x))) && fresh(s) && fresh(s.x)
    ensures HasFourLeadingZeros(s.x[s.wds - 1])
    ensures SameRatio(Dividend(old(m.Value()), be, k), Divisor(be, k), b.Value(), s.Value())
  {
    hide Raise, Two, Scaled, SameRatio, Dividend, Divisor;
    var (b2, b5, s2, s5) := Exponents(be, k);
    var m2, g := b2, 0;
    if m2 > 0 && s2 > 0 { g := if m2 < s2 then m2 else s2; }
    b, s := FivePowers(cache, m, b5, s5);
    ghost var v := old(m.Value());
    MulMono(1, v, Raise(5, b5));
    var i;
    b, s, i := ShiftBoth(b, s, b2 - g, s2 - g);
    RatioKept(v, be, k, g, i, b.Value(), s.Value());
  }

  lemma Shifted(v: nat, e: nat, g: nat, i: nat)
    requires g <= e
    ensures v * Two(e) * Two(i) == v * Two(e - g + i) * Two(g)
  {
    TwoSum(e, i);
    TwoSum(e - g + i, g);
    MulAssoc(v, Two(e), Two(i));
    MulAssoc(v, Two(e - g + i), Two(g));
  }

  // ---------- how many digits ----------

  /** The modes without a search for the shortest text: so many digits, or so many behind the decimal point. */
  datatype Mode = Significant | Fraction

  /** The number of digits that are asked for, when the first of them counts 10^k; in fraction mode it may be zero or
      negative. */
  function Wanted(mode: Mode, ndigits: int, k: int): int {
    match mode
    case Significant => if ndigits <= 0 then 1 else ndigits
    case Fraction => ndigits + k + 1
  }

  /** Digits and decimal point of n / d, where the quotient counts 10^k.  With no digit asked for, the nearest multiple
      of the place behind the last one is nothing, or, above one half, a one there. */
  ghost predicate Written(ds: string, n: nat, d: nat, k: int, ilim: int, decpt: int) {
    if ilim >= 1 then Spelled(ds, n, d, ilim, decpt - 1 - k)
    else
      (ds == "" && decpt == k + 1 - ilim && IsRounded(n, d * Ten(1 - ilim), 0)) ||
      (ds == "1" && decpt == k + 2 - ilim && IsRounded(n, d * Ten(1 - ilim), 1))
  }

  lemma WrittenScaled(ds: string, n: nat, d: nat, n': nat, d': nat, k: int, ilim: int, decpt: int)
    requires SameRatio(n, d, n', d') && Written(ds, n', d', k, ilim, decpt)
    ensures Written(ds, n, d, k, ilim, decpt)
  {
    if ilim >= 1 {
      SpelledScaled(ds, n, d, n', d', ilim, decpt - 1 - k);
    } else {
      var x: nat, y: nat :| Scales(n, d, n', d', x, y);
      var t, m := Ten(1 - ilim), if ds == "" then 0 else 1;
      ScaleRounded(n', d' * t, m, y);
      ScaleRounded(n, d * t, m, x);
      Swap(d, x, t);
      Swap(d', y, t);
    }
  }

  /** The text with its decimal point is the multiple of 10^(k - up) that is nearest to n / d * 10^k, half to even. */
  ghost predicate Nearest(ds: string, n: nat, d: nat, k: int, up: int, decpt: int) {
    && up + decpt - k - |ds| >= 0
    && IsRounded(n * Ten(if up >= 0 then up else 0), d * Ten(if up >= 0 then 0 else -up),
                 DecVal(ds) * Ten(up + decpt - k - |ds|))
  }

  /** In fraction mode the number is rounded to a multiple of 10^-ndigits. */
  lemma NearestMultiple(ds: string, n: nat, d: nat, k: int, ndigits: int, decpt: int)
    requires Written(ds, n, d, k, Wanted(Fraction, ndigits, k), decpt)
    ensures Nearest(ds, n, d, k, k + ndigits, decpt)
  {
    var ilim := Wanted(Fraction, ndigits, k);
    assert d * Ten(0) == d && n * Ten(0) == n;
    if ilim >= 1 {
      assert decpt + ndigits - |ds| == ilim - |ds| + (decpt - 1 - k);
    } else if ds == "1" {
      DecSnoc([], '1');
      assert ds == [] + ['1'];
    }
  }

  /** In the other mode it is rounded to the last of so many digits that are counted from its first, one at least. */
  lemma NearestSignificant(ds: string, n: nat, d: nat, k: int, ndigits: int, decpt: int)
    requires Written(ds, n, d, k, Wanted(Significant, ndigits, k), decpt)
    ensures ndigits <= 1 ==> |ds| == 1 && Nearest(ds, n, d, k, 0, decpt)
    ensures ndigits >= 1 ==> 1 <= |ds| <= ndigits && Nearest(ds, n, d, k, ndigits - 1, decpt)
  {
    assert d * Ten(0) == d && n * Ten(0) == n;
  }

  /** Nothing below one half of the place behind the last digit that is asked for. */
  lemma NoDigits(n: nat, d: nat, ilim: int)
    requires ilim <= 0 && n < 10 * d && (ilim == 0 ==> n <= 5 * d)
    ensures IsRounded(n, d * Ten(1 - ilim), 0)
  {
    if ilim < 0 {
      TenSum(2, -1 - ilim);
      assert Ten(1) == 10 && Ten(2) == 100;
      MulMono(1, Ten(-1 - ilim), 100 * d);
      MulAssoc(d, 100, Ten(-1 - ilim));
    } else {
      assert Ten(1) == 10 * Ten(0);
    }
  }

  /** The place where no digit is asked for: nothing, or a one in front of it. */
  method WriteNone(b: Bigint, s0: Bigint, k0: int, ilim: int, ndigits: int, text: array<char>)
    returns (n: nat, decpt: int)
    requires Ready(b, s0) && b.wds >= 1 && b.Value() > 0 && 1 < text.Length
    requires ilim <= 0 && ilim == Wanted(Fraction, ndigits, k0)
    modifies s0, s0.x, text
    ensures n < text.Length && text[n] == '\0'
    ensures Written(text[..n], old(b.Value()), old(s0.Value()), k0, ilim, decpt)
  {
    var k, none := k0, ilim < 0;
    ghost var vb, vs := b.Value(), s0.Value();
    if !none {
      var s := Multadd(s0, 5, 0);
      var c := Cmp(b, s);
      none := c <= 0;
    }
    if none {
      NoDigits(vb, vs, ilim);
      k, n := -1 - ndigits, 0;
    } else {
      assert Ten(1) == 10 * Ten(0);
      text[0] := '1';
      k, n := k + 1, 1;
    }
    text[n] := '\0';
    assert text[..n] == if none then "" else "1";
    decpt := k + 1;
  }

  /** The check of the exponent, and the digits. */
  method CheckAndWrite(b0: Bigint, s: Bigint, k0: int, kCheck: bool, mode: Mode, ndigits: int, text: array<char>,
                       ghost num: nat, ghost den: nat)
    returns (n: nat, decpt: int)
    requires Ready(b0, s) && b0.wds >= 1 && Wanted(mode, ndigits, k0) < text.Length && 1 < text.Length
    requires SameRatio(num, den, b0.Value(), s.Value())
    requires !kCheck ==> den <= num
    requires den <= 10 * num
    modifies b0, b0.x, s, s.x, text
    ensures n < text.Length && text[n] == '\0'
    ensures if num < den then Written(text[..n], 10 * num, den, k0 - 1, Wanted(mode, ndigits, k0 - 1), decpt)
            else Written(text[..n], num, den, k0, Wanted(mode, ndigits, k0), decpt)
  {
    hide SameRatio, Written, Ten;
    var k, b, ilim := k0, b0, Wanted(mode, ndigits, k0);
    var ilim1 := if mode == Fraction then ilim - 1 else ilim;
    ghost var vb, vs := b.Value(), s.Value();
    RatioOrder(num, den, vb, vs);
    if kCheck {
      var c := Cmp(b, s);
      if c < 0 {
        k := k - 1;
        b := Multadd(b, 10, 0);
        ilim := ilim1;
      }
    }
    ghost var vb' := b.Value();
    if ilim <= 0 && mode == Fraction {
      n, decpt := WriteNone(b, s, k, ilim, ndigits, text);
    } else {
      n, decpt := WriteDigits(b, s, ilim, k, text);
    }
    WrittenScaled(text[..n], if num < den then 10 * num else num, den, vb', vs, k, ilim, decpt);
  }

  /** A fraction below one has its first digit one place further back. */
  ghost function First(num: nat, den: nat, k: int): (nat, int) {
    if num < den then (10 * num, k - 1) else (num, k)
  }

  /**
   * The digits of m * 2^be, and the position of its decimal point: the number is between 10^k and 10^(k+1), or with
   * the exponent still to be checked one place lower. In front of the digits stands the quotient by 10^k or, after a
   * failed check, by 10^(k-1).
   */
  method Convert(cache: PowerCache, m: Bigint, be: int, k: int, kCheck: bool, mode: Mode, ndigits: int,
                 text: array<char>)
    returns (n: nat, decpt: int)
    requires cache.Valid() && m.Trimmed() && m.Value() > 0 && cache.Foreign(m)
    requires Wanted(mode, ndigits, k) < text.Length && 1 < text.Length
    requires Dividend(m.Value(), be, k) < 10 * Divisor(be, k)
    requires Divisor(be, k) <= 10 * Dividend(m.Value(), be, k)
    requires !kCheck ==> Divisor(be, k) <= Dividend(m.Value(), be, k)
    modifies cache, cache.chain, m, m.x, text
    ensures cache.Valid() && n < text.Length && text[n] == '\0'
    ensures var num, den := Dividend(old(m.Value()), be, k), Divisor(be, k);
            if num < den then Written(text[..n], 10 * num, den, k - 1, Wanted(mode, ndigits, k - 1), decpt)
            else Written(text[..n], num, den, k, Wanted(mode, ndigits, k), decpt)
    ensures var (num, k') := First(Dividend(old(m.Value()), be, k), Divisor(be, k), k);
            match mode
            case Fraction => Nearest(text[..n], num, Divisor(be, k), k', k' + ndigits, decpt)
            case Significant =>
              Nearest(text[..n], num, Divisor(be, k), k', if ndigits >= 1 then ndigits - 1 else 0, decpt)
  {
    hide Written, Nearest;
    ghost var num, den := Dividend(m.Value(), be, k), Divisor(be, k);
    var b, s := Prepare(cache, m, be, k);
    RatioOrder(num, den, b.Value(), s.Value());
    n, decpt := CheckAndWrite(b, s, k, kCheck, mode, ndigits, text, num, den);
    ghost var (first, k') := First(num, den, k);
    match mode {
      case Fraction => NearestMultiple(text[..n], first, den, k', ndigits, decpt);
      case Significant => NearestSignificant(text[..n], first, den, k', ndigits, decpt);
    }
  }
}
