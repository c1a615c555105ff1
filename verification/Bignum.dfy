/** Numbers of 32-bit words, and the word loops as functions. */
module Bignum {

  const W: nat := 0x1_0000_0000

  type Word = w: int | 0 <= w < W witness 0

  // ---------- values ----------

  function Val(x: seq<Word>): nat {
    if x == [] then 0 else x[0] + W * Val(x[1..])
  }

  function Pow(n: nat): (r: nat)
    ensures r >= 1
  {
    if n == 0 then 1 else W * Pow(n - 1)
  }

  lemma {:induction false} ValBound(x: seq<Word>)
    ensures Val(x) < Pow(|x|)
    decreases x
  {
    if x != [] { ValBound(x[1..]); }
  }

  lemma {:induction false} PowMono(n: nat, m: nat)
    requires n <= m
    ensures Pow(n) <= Pow(m)
    decreases m
  {
    if n < m { PowMono(n, m - 1); }
  }

  /** A number whose top word is not zero is at least the power of one word less. */
  lemma {:induction false} ValTop(x: seq<Word>)
    requires x != [] && x[|x| - 1] != 0
    ensures Pow(|x| - 1) <= Val(x)
    decreases x
  {
    if |x| > 1 { ValTop(x[1..]); }
  }

  /** Zero words on top do not count. */
  lemma {:induction false} ValSnocZero(x: seq<Word>)
    ensures Val(x + [0]) == Val(x)
    decreases x
  {
    if x == [] {
      assert [0][1..] == [] && Val([0]) == 0 + W * Val([0][1..]);
    } else {
      ValSnocZero(x[1..]);
      assert (x + [0])[1..] == x[1..] + [0];
    }
  }

  lemma MulMono(a: int, b: int, c: nat)
    requires a <= b
    ensures a * c <= b * c
  {
  }

  lemma MulAdd(q: int, a: int, b: int)
    ensures q * (a + W * b) == q * a + W * (q * b)
  {
  }

  // ---------- b - q * s ----------

  /** One round: the product and the difference run together, with a carry and a borrow. */
  function RoundCarry(sw: Word, q: Word, carry: Word): (r: Word)
    ensures r * W <= sw * q + carry < r * W + W
  {
    ProductBound(sw, q, carry);
    (sw * q + carry) / W
  }

  /** With the difference computed modulo 2^64, bit 32 of it is the borrow. */
  function Difference(bw: Word, lo: Word, borrow: nat): nat {
    (bw - lo - borrow) % 0x1_0000_0000_0000_0000
  }

  lemma ProductBound(a: Word, b: Word, c: Word)
    ensures 0 <= a * b + c < W * W && (a * b + c) / W < W
  {
    MulMono(a, W - 1, b);
    MulMono(b, W - 1, W - 1);
    assert (W - 1) * (W - 1) + (W - 1) == W * (W - 1);
  }

  lemma DifferenceParts(bw: Word, lo: Word, borrow: nat)
    requires borrow <= 1
    ensures var y := Difference(bw, lo, borrow);
            y / W % 2 <= 1 && y % W == bw - lo - borrow + (y / W % 2) * W
  {
    var d := bw - lo - borrow;
    var y := Difference(bw, lo, borrow);
    if d < 0 {
      assert y == d + 0x1_0000_0000_0000_0000 == (W - 1) * W + (d + W);
      assert y / W == W - 1 && y % W == d + W;
    }
  }

  /** The words of b - q * s - carry - borrow, and what is still owed at the end. */
  function SubMulWords(b: seq<Word>, s: seq<Word>, q: Word, carry: Word, borrow: nat): (r: seq<Word>)
    requires |b| == |s| && borrow <= 1
    ensures |r| == |b|
    decreases b
  {
    if b == [] then []
    else
      var carry' := RoundCarry(s[0], q, carry);
      var y := Difference(b[0], (s[0] * q + carry) % W, borrow);
      [y % W] + SubMulWords(b[1..], s[1..], q, carry', y / W % 2)
  }

  function SubMulOwed(b: seq<Word>, s: seq<Word>, q: Word, carry: Word, borrow: nat): nat
    requires |b| == |s| && borrow <= 1
    decreases b
  {
    if b == [] then carry + borrow
    else
      var y := Difference(b[0], (s[0] * q + carry) % W, borrow);
      SubMulOwed(b[1..], s[1..], q, RoundCarry(s[0], q, carry), y / W % 2)
  }

  lemma {:induction false} SubMulValue(b: seq<Word>, s: seq<Word>, q: Word, carry: Word, borrow: nat)
    requires |b| == |s| && borrow <= 1
    ensures Val(SubMulWords(b, s, q, carry, borrow)) ==
            Val(b) - q * Val(s) - carry - borrow + SubMulOwed(b, s, q, carry, borrow) * Pow(|b|)
    decreases b
  {
    if b != [] {
      var carry', lo := RoundCarry(s[0], q, carry), (s[0] * q + carry) % W;
      var y := Difference(b[0], lo, borrow);
      var borrow' := y / W % 2;
      var rest := SubMulWords(b[1..], s[1..], q, carry', borrow');
      var owed, p := SubMulOwed(b[1..], s[1..], q, carry', borrow'), Pow(|b| - 1);
      SubMulValue(b[1..], s[1..], q, carry', borrow');
      DifferenceParts(b[0], lo, borrow);
      assert ([y % W] + rest)[1..] == rest;
      RoundSum(b[0], s[0], q, carry, borrow, carry', borrow', lo, y % W, Val(b[1..]), Val(s[1..]), Val(rest), owed, p);
    }
  }

  lemma RoundSum(bw: int, sw: int, q: int, carry: int, borrow: int, carry': int, borrow': int,
                 lo: int, w: int,
                 vb: int, vs: int, vr: int, owed: int, p: int)
    requires sw * q + carry == carry' * W + lo && w == bw - lo - borrow + borrow' * W
    requires vr == vb - q * vs - carry' - borrow' + owed * p
    ensures w + W * vr == (bw + W * vb) - q * (sw + W * vs) - carry - borrow + owed * (W * p)
  {
    MulAdd(q, sw, vs);
    assert owed * (W * p) == W * (owed * p);
  }

  /** When the result is not negative, nothing is owed. */
  lemma SubMulExact(b: seq<Word>, s: seq<Word>, q: Word)
    requires |b| == |s| && q * Val(s) <= Val(b)
    ensures Val(SubMulWords(b, s, q, 0, 0)) == Val(b) - q * Val(s)
  {
    SubMulValue(b, s, q, 0, 0);
    ValBound(SubMulWords(b, s, q, 0, 0));
    NothingOwed(Val(SubMulWords(b, s, q, 0, 0)), Val(b) - q * Val(s), SubMulOwed(b, s, q, 0, 0), Pow(|b|));
  }

  lemma NothingOwed(v: nat, d: nat, c: nat, p: nat)
    requires v == d + c * p && v < p
    ensures c == 0 && v == d
  {
    if c > 0 { MulMono(1, c, p); }
  }

  // ---------- m * x + a ----------

  function MulWords(x: seq<Word>, m: Word, carry: Word): (r: seq<Word>)
    ensures |r| == |x|
    decreases x
  {
    if x == [] then []
    else [(x[0] * m + carry) % W] + MulWords(x[1..], m, RoundCarry(x[0], m, carry))
  }

  function MulCarry(x: seq<Word>, m: Word, carry: Word): Word
    decreases x
  {
    if x == [] then carry else MulCarry(x[1..], m, RoundCarry(x[0], m, carry))
  }

  lemma {:induction false} MulValue(x: seq<Word>, m: Word, carry: Word)
    ensures Val(MulWords(x, m, carry) + [MulCarry(x, m, carry)]) == m * Val(x) + carry
    decreases x
  {
    if x == [] {
      assert [carry][1..] == [] && Val([carry]) == carry + W * Val([carry][1..]);
    } else {
      var carry', lo := RoundCarry(x[0], m, carry), (x[0] * m + carry) % W;
      MulValue(x[1..], m, carry');
      var rest := MulWords(x[1..], m, carry') + [MulCarry(x[1..], m, carry')];
      assert MulWords(x, m, carry) + [MulCarry(x, m, carry)] == [lo] + rest;
      assert ([lo] + rest)[1..] == rest;
      MulAdd(m, x[0], Val(x[1..]));
    }
  }

  // ---------- comparison ----------

  /** The sign of the comparison of two numbers of the same length, decided by the highest different word. */
  function CmpWords(a: seq<Word>, b: seq<Word>): (r: int)
    requires |a| == |b|
    decreases |a|
  {
    if a == [] then 0
    else
      var k := |a| - 1;
      if a[k] != b[k] then (if a[k] < b[k] then -1 else 1) else CmpWords(a[..k], b[..k])
  }

  lemma {:induction false} ValSnoc(x: seq<Word>, w: Word)
    ensures Val(x + [w]) == Val(x) + w * Pow(|x|)
    decreases x
  {
    if x == [] {
      assert [w][1..] == [] && Val([w]) == w + W * Val([w][1..]);
    } else {
      ValSnoc(x[1..], w);
      assert (x + [w])[1..] == x[1..] + [w];
      assert w * (W * Pow(|x| - 1)) == W * (w * Pow(|x| - 1));
    }
  }

  /** The sign of a - b. */
  function Sign(a: int, b: int): int {
    if a < b then -1 else if a > b then 1 else 0
  }

  lemma HigherWordDecides(va: nat, vb: nat, wa: nat, wb: nat, p: nat)
    requires va < p && vb < p && wa < wb
    ensures va + wa * p < vb + wb * p
  {
    MulMono(wa + 1, wb, p);
  }

  lemma {:induction false} CmpValue(a: seq<Word>, b: seq<Word>)
    requires |a| == |b|
    ensures CmpWords(a, b) == Sign(Val(a), Val(b))
    decreases |a|
  {
    if a != [] {
      var k := |a| - 1;
      var a', b', wa, wb := a[..k], b[..k], a[k], b[k];
      assert a == a' + [wa] && b == b' + [wb];
      ValSnoc(a', wa);
      ValSnoc(b', wb);
      ValBound(a');
      ValBound(b');
      if wa < wb {
        HigherWordDecides(Val(a'), Val(b'), wa, wb, Pow(k));
      } else if wa > wb {
        HigherWordDecides(Val(b'), Val(a'), wb, wa, Pow(k));
      } else {
        CmpValue(a', b');
      }
    }
  }

  // ---------- c + y * x ----------

  function AddMulWords(c: seq<Word>, x: seq<Word>, y: Word, carry: Word): (r: seq<Word>)
    requires |c| == |x|
    ensures |r| == |x|
    decreases c, x, y, carry
  {
    if x == [] then []
    else
      AddMulRound(x[0], y, c[0], carry);
      [(x[0] * y + c[0] + carry) % W] + AddMulWords(c[1..], x[1..], y, (x[0] * y + c[0] + carry) / W)
  }

  function AddMulCarry(c: seq<Word>, x: seq<Word>, y: Word, carry: Word): Word
    requires |c| == |x|
    decreases c, x, y, carry
  {
    if x == [] then carry
    else
      AddMulRound(x[0], y, c[0], carry);
      AddMulCarry(c[1..], x[1..], y, (x[0] * y + c[0] + carry) / W)
  }

  /** A product of two words has room for two more words. */
  lemma AddMulRound(a: Word, b: Word, c: Word, d: Word)
    ensures 0 <= a * b + c + d < W * W && 0 <= (a * b + c + d) / W < W
  {
    MulMono(a, W - 1, b);
    MulMono(b, W - 1, W - 1);
    assert (W - 1) * (W - 1) + 2 * (W - 1) == W * W - 1;
    assert a * b >= 0;
  }

  lemma {:induction false} AddMulValue(c: seq<Word>, x: seq<Word>, y: Word, carry: Word)
    requires |c| == |x|
    ensures Val(AddMulWords(c, x, y, carry)) + AddMulCarry(c, x, y, carry) * Pow(|x|) == Val(c) + y * Val(x) + carry
    decreases x
  {
    if x != [] {
      AddMulRound(x[0], y, c[0], carry);
      var t := x[0] * y + c[0] + carry;
      AddMulValue(c[1..], x[1..], y, t / W);
      var rest := AddMulWords(c[1..], x[1..], y, t / W);
      assert ([t % W] + rest)[1..] == rest;
      AddMulSum(x[0], y, c[0], carry, t / W, t % W, Val(c[1..]), Val(x[1..]), Val(rest),
                AddMulCarry(c[1..], x[1..], y, t / W), Pow(|x| - 1));
    }
  }

  lemma AddMulSum(xw: int, y: int, cw: int, carry: int, carry': int, lo: int,
                  vc: int, vx: int, vr: int, top: int, p: int)
    requires xw * y + cw + carry == carry' * W + lo
    requires vr + top * p == vc + y * vx + carry'
    ensures (lo + W * vr) + top * (W * p) == (cw + W * vc) + y * (xw + W * vx) + carry
  {
    MulAdd(y, xw, vx);
    assert top * (W * p) == W * (top * p);
  }

  lemma {:induction false} ValConcat(x: seq<Word>, y: seq<Word>)
    ensures Val(x + y) == Val(x) + Pow(|x|) * Val(y)
    decreases x
  {
    if x == [] {
      assert x + y == y;
    } else {
      ValConcat(x[1..], y);
      assert (x + y)[1..] == x[1..] + y;
      assert W * (Pow(|x| - 1) * Val(y)) == (W * Pow(|x| - 1)) * Val(y);
    }
  }

  function Zeros(n: nat): (z: seq<Word>)
    ensures |z| == n && Val(z) == 0 && forall i :: 0 <= i < n ==> z[i] == 0
  {
    if n == 0 then []
    else
      var z := [0] + Zeros(n - 1);
      assert z[1..] == Zeros(n - 1);
      z
  }

  // ---------- powers of two ----------

  function Two(k: nat): (r: nat)
    ensures r >= 1
  {
    if k == 0 then 1 else 2 * Two(k - 1)
  }

  lemma {:induction false} TwoSum(a: nat, b: nat)
    ensures Two(a + b) == Two(a) * Two(b)
    decreases a
  {
    if a > 0 {
      TwoSum(a - 1, b);
      assert 2 * (Two(a - 1) * Two(b)) == (2 * Two(a - 1)) * Two(b);
    }
  }

  lemma TwoWord()
    ensures Two(32) == W && Two(28) == 0x1000_0000 && Two(27) == 0x800_0000
  {
    assert Two(8) == 0x100;
    TwoSum(8, 8);
    TwoSum(16, 8);
    TwoSum(16, 16);
    assert Two(25) == 2 * Two(24) && Two(26) == 2 * Two(25) && Two(27) == 2 * Two(26) && Two(28) == 2 * Two(27);
  }

  lemma {:induction false} PowTwo(n: nat)
    ensures Pow(n) == Two(32 * n)
    decreases n
  {
    if n > 0 {
      PowTwo(n - 1);
      TwoSum(32, 32 * (n - 1));
      TwoWord();
    }
  }
}
