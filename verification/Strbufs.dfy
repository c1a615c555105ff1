/** Growable strings with room for a NUL; some appends do not look for room. */
module Strbufs {
  import opened Peg

  const STRBUF_DEFAULT_SIZE: nat := 1023

  /** Negative: what the size is multiplied by when it must grow.  Positive: what it is rounded up to. */
  const STRBUF_DEFAULT_INCREMENT: int := -2

  predicate GoodIncrement(increment: int) { increment != 0 && increment != -1 }

  function RoundedUp(size: nat, increment: nat): (r: nat)
    requires increment > 0
    ensures size <= r < size + increment
  {
    (size + increment - 1) / increment * increment
  }

  /** The new size for a length and a NUL: exactly that when the string shrinks; the size multiplied as often as needed;
      or, for a positive increment, the old size rounded up. */
  method CalculateNewSize(size: nat, len: nat, increment: int) returns (newsize: nat)
    requires size > 0 && len > 0 && GoodIncrement(increment)
    ensures size > len + 1 ==> newsize == len + 1
    ensures size <= len + 1 && increment < 0 ==>
              newsize >= len + 1 && (newsize == size || newsize < -increment * (len + 1))
    ensures size <= len + 1 && increment > 0 ==> newsize == RoundedUp(size, increment)
  {
    var reqsize := len + 1;
    if size > reqsize { return reqsize; }
    newsize := size;
    if increment < 0 {
      while newsize < reqsize
        invariant 0 < newsize && (newsize == size || newsize < -increment * reqsize)
        decreases reqsize - newsize
      {
        Grows(newsize, reqsize, -increment);
        newsize := newsize * -increment;
      }
    } else {
      newsize := (newsize + increment - 1) / increment * increment;
    }
  }

  lemma Grows(size: nat, bound: nat, m: nat)
    requires 0 < size < bound && m >= 2
    ensures size < size * m < m * bound
  {
  }

  /** With a positive increment the new size is large enough exactly if the NUL falls into a block that the old size
      had already begun: what is asked for plays no part in it. */
  lemma LinearGrowthIff(size: nat, len: nat, increment: nat)
    requires increment > 0
    ensures RoundedUp(size, increment) >= len + 1 <==> len / increment < (size + increment - 1) / increment
  {
    var q, a := (size + increment - 1) / increment, len / increment;
    if q <= a { Monotone(q, a, increment); } else { Monotone(a + 1, q, increment); }
  }

  lemma Monotone(a: nat, b: nat, m: nat)
    requires a <= b
    ensures a * m <= b * m && (a + 1) * m == a * m + m
  {
  }

  class Strbuf {
    var buf: array<Byte>
    var length: nat
    /** Negative, as nothing in the library sets another one; see LinearGrowthIff. */
    const increment: int

    ghost predicate Valid()
      reads this
    {
      length < buf.Length && increment < -1
    }

    /** The room that is left in front of the NUL. */
    function Empty(): nat
      requires Valid()
      reads this
    {
      buf.Length - length - 1
    }

    ghost function Text(): seq<Byte>
      requires Valid()
      reads this, buf
    {
      buf[..length]
    }

    constructor (len: nat)
      ensures Valid() && fresh(buf) && Text() == [] && Empty() >= len
    {
      buf := new Byte[if len == 0 then STRBUF_DEFAULT_SIZE else len + 1](_ => 0);
      length := 0;
      increment := STRBUF_DEFAULT_INCREMENT;
    }

    method Reset()
      requires Valid()
      modifies this`length
      ensures Valid() && Text() == [] && Empty() == buf.Length - 1
    {
      length := 0;
    }

    method Resize(len: nat)
      requires Valid() && len > 0 && length <= len
      modifies this`buf
      ensures Valid() && fresh(buf) && Text() == old(Text()) && buf.Length > len
    {
      var newsize := CalculateNewSize(buf.Length, len, increment);
      var source, n := buf, length;
      var target := new Byte[newsize](_ => 0);
      for i := 0 to n
        invariant target[..i] == source[..i]
        modifies target
      {
        target[i] := source[i];
      }
      buf := target;
    }

    method EnsureEmpty(len: nat)
      requires Valid()
      modifies this`buf
      ensures Valid() && Text() == old(Text()) && Empty() >= len
      ensures if old(Empty()) >= len then buf == old(buf) else fresh(buf)
    {
      if len > Empty() { Resize(length + len); }
    }

    method AppendCharUnsafe(c: Byte)
      requires Valid() && Empty() > 0
      modifies this`length, buf
      ensures Valid() && Text() == old(Text()) + [c]
    {
      buf[length] := c;
      length := length + 1;
    }

    method AppendMemUnsafe(s: seq<Byte>)
      requires Valid() && Empty() >= |s|
      modifies this`length, buf
      ensures Valid() && Text() == old(Text()) + s
    {
      var n := length;
      for i := 0 to |s|
        invariant length == n && buf[..n + i] == old(Text()) + s[..i]
      {
        buf[n + i] := s[i];
        assert buf[..n + i + 1] == buf[..n + i] + [s[i]];
        assert s[..i + 1] == s[..i] + [s[i]];
      }
      assert s[..|s|] == s;
      length := length + |s|;
    }

    method AppendChar(c: Byte)
      requires Valid()
      modifies this, buf
      ensures Valid() && Text() == old(Text()) + [c] && (buf == old(buf) || fresh(buf))
    {
      EnsureEmpty(1);
      AppendCharUnsafe(c);
    }

    method AppendMem(s: seq<Byte>)
      requires Valid()
      modifies this, buf
      ensures Valid() && Text() == old(Text()) + s && (buf == old(buf) || fresh(buf))
    {
      EnsureEmpty(|s|);
      AppendMemUnsafe(s);
    }

    /** Looks for room byte by byte, and makes more only when there is none. */
    method AppendString(s: seq<Byte>)
      requires Valid()
      modifies this, buf
      ensures Valid() && Text() == old(Text()) + s
      ensures buf == old(buf) || fresh(buf)
      ensures old(Empty()) >= |s| ==> buf == old(buf)
    {
      for i := 0 to |s|
        invariant Valid() && Text() == old(Text()) + s[..i]
        invariant buf == old(buf) || fresh(buf)
        invariant old(Empty()) >= |s| ==> buf == old(buf)
      {
        AppendNext(s[i]);
        assert s[..i + 1] == s[..i] + [s[i]];
      }
      assert s[..|s|] == s;
    }

    method AppendNext(c: Byte)
      requires Valid()
      modifies this, buf
      ensures Valid() && Text() == old(Text()) + [c]
      ensures if old(Empty()) > 0 then buf == old(buf) else fresh(buf)
    {
      if Empty() < 1 { Resize(length + 1); }
      AppendCharUnsafe(c);
    }

    method EnsureNull()
      requires Valid()
      modifies buf
      ensures Valid() && Text() == old(Text()) && buf[length] == 0
    {
      buf[length] := 0;
    }
  }
}
