/** Growable byte buffers, and the integers stored in them. */
module Buffers {
  import opened Peg

  const INITIAL_BUFFER_SIZE: nat := 8192

  // ---------- integers as bytes ----------

  /** The 32 bits of an int, low byte first. */
  function IntBytes(i: int): (r: seq<Byte>)
    ensures |r| == 4
  {
    var u := i % 0x1_0000_0000;
    [u % 256, u / 256 % 256, u / 65536 % 256, u / 16777216 % 256]
  }

  function PeekInt(b: seq<Byte>, i: nat): int
    requires i + 4 <= |b|
  {
    var b0: int, b1: int, b2: int, b3: int := b[i], b[i + 1], b[i + 2], b[i + 3];
    var u := b0 + 256 * b1 + 65536 * b2 + 16777216 * b3;
    if u < 0x8000_0000 then u else u - 0x1_0000_0000
  }

  /** The 16 bits of a short, low byte first. */
  function ShortBytes(i: int): (r: seq<Byte>)
    ensures |r| == 2
  {
    [i % 256, i / 256 % 256]
  }

  /** The low byte is read as a signed char, so its sign bit runs over the high byte. */
  function PeekShort(b: seq<Byte>, i: nat): int
    requires i + 2 <= |b|
  {
    var b0: int, b1: int := b[i], b[i + 1];
    if b0 >= 128 then b0 - 256
    else
      var u := b0 + 256 * b1;
      if u < 0x8000 then u else u - 0x1_0000
  }

  lemma BaseDigits(u: int)
    requires 0 <= u < 0x1_0000_0000
    ensures u == u % 256 + 256 * (u / 256 % 256) + 65536 * (u / 65536 % 256) + 16777216 * (u / 16777216 % 256)
  {
    var q1 := u / 256;
    var q2 := q1 / 256;
    var q3 := q2 / 256;
    assert q2 == u / 65536 && q3 == u / 16777216;
    assert q3 % 256 == q3;
  }

  /** Low byte first, and the low 32 bits of a negative number. */
  lemma IntLowFirst(i: int)
    requires -0x8000_0000 <= i < 0x8000_0000
    ensures var b := IntBytes(i);
            var b0: int, b1: int, b2: int, b3: int := b[0], b[1], b[2], b[3];
            b0 + 0x100 * b1 + 0x1_0000 * b2 + 0x100_0000 * b3 == if i >= 0 then i else i + 0x1_0000_0000
  {
    BaseDigits(i % 0x1_0000_0000);
  }

  lemma ShortLowFirst(i: int)
    requires -0x8000 <= i < 0x8000
    ensures var b0: int, b1: int := ShortBytes(i)[0], ShortBytes(i)[1];
            b0 + 0x100 * b1 == if i >= 0 then i else i + 0x1_0000
  {
    assert i == 256 * (i / 256) + i % 256;
  }

  /** `part` stands at `i` in `b`. */
  predicate Stands(b: seq<Byte>, i: nat, part: seq<Byte>)
    decreases |part|
  {
    if part == [] then i <= |b| else i < |b| && b[i] == part[0] && Stands(b, i + 1, part[1..])
  }

  lemma {:induction false} StandsSplit(b: seq<Byte>, i: nat, x: seq<Byte>, y: seq<Byte>)
    requires Stands(b, i, x + y)
    ensures Stands(b, i, x) && Stands(b, i + |x|, y)
    decreases |x|
  {
    if x == [] {
      assert x + y == y;
    } else {
      assert (x + y)[1..] == x[1..] + y;
      StandsSplit(b, i + 1, x[1..], y);
    }
  }

  lemma {:induction false} StandsJoin(b: seq<Byte>, i: nat, x: seq<Byte>, y: seq<Byte>)
    requires Stands(b, i, x) && Stands(b, i + |x|, y)
    ensures Stands(b, i, x + y)
    decreases |x|
  {
    if x == [] {
      assert x + y == y;
    } else {
      assert (x + y)[1..] == x[1..] + y;
      StandsJoin(b, i + 1, x[1..], y);
    }
  }

  lemma ByteStands(b: seq<Byte>, i: nat)
    requires i < |b|
    ensures Stands(b, i, [b[i]])
  {
  }

  lemma StandsSplit3(b: seq<Byte>, i: nat, x: seq<Byte>, y: seq<Byte>, z: seq<Byte>)
    requires Stands(b, i, x + y + z)
    ensures Stands(b, i, x) && Stands(b, i + |x|, y) && Stands(b, i + |x| + |y|, z)
  {
    StandsSplit(b, i, x + y, z);
    StandsSplit(b, i, x, y);
  }

  lemma {:induction false} StandsSlice(b: seq<Byte>, i: nat, part: seq<Byte>)
    requires Stands(b, i, part)
    ensures i + |part| <= |b| && b[i..i + |part|] == part
    decreases |part|
  {
    if part != [] { StandsSlice(b, i + 1, part[1..]); }
  }

  lemma {:induction false} SliceStands(b: seq<Byte>, i: nat, part: seq<Byte>)
    requires i + |part| <= |b| && b[i..i + |part|] == part
    ensures Stands(b, i, part)
    decreases |part|
  {
    if part != [] {
      assert b[i + 1..i + |part|] == part[1..] && b[i] == part[0];
      SliceStands(b, i + 1, part[1..]);
    }
  }

  /** Every int is read back. */
  lemma IntRoundTrip(b: seq<Byte>, p: nat, i: int)
    requires -0x8000_0000 <= i < 0x8000_0000 && Stands(b, p, IntBytes(i))
    ensures p + 4 <= |b| && PeekInt(b, p) == i
  {
    var u, bytes := i % 0x1_0000_0000, IntBytes(i);
    assert u == if i >= 0 then i else i + 0x1_0000_0000;
    StandsSlice(b, p, bytes);
    var slice := b[p..p + 4];
    assert b[p] == slice[0] && b[p + 1] == slice[1] && b[p + 2] == slice[2] && b[p + 3] == slice[3];
    BaseDigits(u);
  }

  /** A short is read back exactly when its low byte is below 128 or its high byte is 255. */
  lemma ShortRoundTrip(b: seq<Byte>, p: nat, i: int)
    requires -0x8000 <= i < 0x8000 && Stands(b, p, ShortBytes(i))
    ensures p + 2 <= |b| && (PeekShort(b, p) == i <==> i % 256 < 128 || i / 256 % 256 == 255)
  {
    StandsSlice(b, p, ShortBytes(i));
    var slice := b[p..p + 2];
    assert slice[0] == b[p] && slice[1] == b[p + 1];
    assert i == 256 * (i / 256) + i % 256;
  }

  // ---------- the buffer ----------

  class Buffer {
    var data: array<Byte>
    var n: nat

    ghost predicate Valid()
      reads this
    {
      n <= data.Length && 1 <= data.Length
    }

    ghost function Contents(): (c: seq<Byte>)
      requires Valid()
      reads this, data
      ensures |c| == n
    {
      data[..n]
    }

    constructor ()
      ensures Valid() && fresh(data) && Contents() == []
    {
      data := new Byte[INITIAL_BUFFER_SIZE](_ => 0);
      n := 0;
    }

    method Resize(newsize: nat)
      requires Valid() && n <= newsize && 1 <= newsize
      modifies this`data
      ensures Valid() && fresh(data) && data.Length == newsize && Contents() == old(Contents())
    {
      var block, source, used := new Byte[newsize](_ => 0), data, n;
      for i := 0 to used
        invariant data == source && block[..i] == source[..i]
        modifies block
      {
        block[i] := source[i];
      }
      data := block;
    }

    /** Makes room for `additional` more bytes: by doubling, or by just enough. */
    method PrepSize(additional: nat)
      requires Valid()
      modifies this`data
      ensures Valid() && (data == old(data) || fresh(data))
      ensures data.Length - n >= additional && Contents() == old(Contents())
    {
      if data.Length - n < additional {
        var newsize := data.Length * 2;
        if newsize - n < additional { newsize := n + additional; }
        Resize(newsize);
      }
    }

    method AddString(s: seq<Byte>)
      requires Valid()
      modifies this, data
      ensures Valid() && (data == old(data) || fresh(data)) && Contents() == old(Contents()) + s
    {
      if |s| > 0 {
        PrepSize(|s|);
        AddStringUnsafe(s);
      }
    }

    /** Appends without looking at the capacity. */
    method AddStringUnsafe(s: seq<Byte>)
      requires Valid() && n + |s| <= data.Length
      modifies this`n, data
      ensures Valid() && Contents() == old(Contents()) + s && data.Length == old(data.Length)
    {
      var start := n;
      ghost var was := Contents();
      for i := 0 to |s|
        invariant n == start && data[..start] == was && data[start..start + i] == s[..i]
      {
        data[start + i] := s[i];
      }
      n := start + |s|;
      assert data[..n] == data[..start] + data[start..n];
    }

    method AddCharUnsafe(c: Byte)
      requires Valid() && n < data.Length
      modifies this`n, data
      ensures Valid() && Contents() == old(Contents()) + [c]
    {
      data[n] := c;
      n := n + 1;
    }

    method AddInt(i: int)
      requires Valid()
      modifies this, data
      ensures Valid() && (data == old(data) || fresh(data)) && Contents() == old(Contents()) + IntBytes(i)
    {
      AddString(IntBytes(i));
    }

    method AddShort(i: int)
      requires Valid()
      modifies this, data
      ensures Valid() && (data == old(data) || fresh(data)) && Contents() == old(Contents()) + ShortBytes(i)
    {
      AddString(ShortBytes(i));
    }
  }
}
