/** The byte format: which bytes the decoder accepts, and as what. */
module ByteFormat {
  import opened Peg
  import opened Buffers
  import opened Decoder

  // ---------- the format ----------

  /** A number of 32 bits, low byte first. */
  predicate IntAt(b: seq<Byte>, i: nat, v: int) { -0x8000_0000 <= v < 0x8000_0000 && Stands(b, i, IntBytes(v)) }

  /** A number of 16 bits, low byte first; a low byte from 128 on stands for a negative number by itself. */
  predicate ShortAt(b: seq<Byte>, i: nat, v: int) {
    i + 2 <= |b| &&
    if b[i] >= 128 then v == b[i] as int - 256 else -0x8000 <= v < 0x8000 && Stands(b, i, ShortBytes(v))
  }

  /** How many bytes a match takes. */
  function Size(m: Match): nat {
    match m
    case Regular(_, name, subs, _) => 4 + 2 + |name| + SizeAll(subs) + 4
    case Constant(_, name, data, subs, _) => 4 + 2 + |name| + 2 + |data| + SizeAll(subs) + 4
  }

  function SizeAll(subs: seq<Match>): nat {
    if subs == [] then 0 else Size(subs[0]) + SizeAll(subs[1..])
  }

  /** Start, name, value of a constant capture, parts and end.  The start is written as a negative number, or zero;
      the length of the name too, for a constant capture. */
  predicate MatchAt(b: seq<Byte>, i: nat, m: Match)
    decreases m
  {
    match m
    case Regular(s, name, subs, e) =>
      var k := i + 6 + |name|;
      && s >= 0 && IntAt(b, i, -s)
      && |name| > 0 && ShortAt(b, i + 4, |name|) && Stands(b, i + 6, name)
      && PartsAt(b, k, subs) && e >= 0 && IntAt(b, k + SizeAll(subs), e)
    case Constant(s, name, data, subs, e) =>
      var k := i + 6 + |name|;
      && s >= 0 && IntAt(b, i, -s)
      && ShortAt(b, i + 4, -|name|) && Stands(b, i + 6, name)
      && ShortAt(b, k, |data|) && Stands(b, k + 2, data)
      && PartsAt(b, k + 2 + |data|, subs) && e >= 0 && IntAt(b, k + 2 + |data| + SizeAll(subs), e)
  }

  /** Parts follow one another; none of them starts at zero. */
  predicate PartsAt(b: seq<Byte>, i: nat, subs: seq<Match>)
    decreases subs
  {
    subs == [] || (subs[0].s > 0 && MatchAt(b, i, subs[0]) && PartsAt(b, i + Size(subs[0]), subs[1..]))
  }

  // ---------- numbers ----------

  lemma IntIff(b: seq<Byte>, i: nat, v: int)
    ensures IntAt(b, i, v) <==> i + 4 <= |b| && PeekInt(b, i) == v
  {
    if IntAt(b, i, v) { IntRoundTrip(b, i, v); }
    if i + 4 <= |b| && PeekInt(b, i) == v {
      var b0: int, b1: int, b2: int, b3: int := b[i], b[i + 1], b[i + 2], b[i + 3];
      FourDigits(b0, b1, b2, b3);
      assert v % 0x1_0000_0000 == b0 + 0x100 * b1 + 0x1_0000 * b2 + 0x100_0000 * b3;
      assert b[i..i + 4] == IntBytes(v);
      SliceStands(b, i, IntBytes(v));
    }
  }

  lemma FourDigits(b0: int, b1: int, b2: int, b3: int)
    requires 0 <= b0 < 256 && 0 <= b1 < 256 && 0 <= b2 < 256 && 0 <= b3 < 256
    ensures var u := b0 + 0x100 * b1 + 0x1_0000 * b2 + 0x100_0000 * b3;
            0 <= u < 0x1_0000_0000 && u % 256 == b0 && u / 256 % 256 == b1 && u / 65536 % 256 == b2 &&
            u / 16777216 % 256 == b3
  {
    var u := b0 + 0x100 * b1 + 0x1_0000 * b2 + 0x100_0000 * b3;
    assert u / 256 == b1 + 0x100 * b2 + 0x1_0000 * b3;
    assert u / 65536 == b2 + 0x100 * b3;
    assert u / 16777216 == b3;
  }

  lemma ShortIff(b: seq<Byte>, i: nat, v: int)
    requires i + 2 <= |b|
    ensures ShortAt(b, i, v) <==> PeekShort(b, i) == v
  {
    if b[i] < 128 {
      if ShortAt(b, i, v) {
        StandsSlice(b, i, ShortBytes(v));
        assert b[i..i + 2][0] == b[i];
        ShortRoundTrip(b, i, v);
      }
      if PeekShort(b, i) == v {
        var b0: int, b1: int := b[i], b[i + 1];
        assert v % 256 == b0 && v / 256 % 256 == b1;
        assert b[i..i + 2] == ShortBytes(v);
        SliceStands(b, i, ShortBytes(v));
      }
    }
  }

  // ---------- the decoder reads the format and nothing else ----------

  lemma {:induction false} FormatRead(b: seq<Byte>, i: nat, m: Match)
    requires MatchAt(b, i, m)
    ensures i + Size(m) <= |b| && DecodeMatch(b, i) == Read(m, i + Size(m))
    decreases m, 1
  {
    hide PeekInt, PeekShort, IntAt, ShortAt, Stands, DecodeSubs;
    IntIff(b, i, -m.s);
    match m
    case Regular(s, name, subs, e) =>
      var k := i + 6 + |name|;
      StandsSlice(b, i + 6, name);
      ShortIff(b, i + 4, |name|);
      IntIff(b, k + SizeAll(subs), e);
      PartsRead(b, k, subs, e);
    case Constant(s, name, data, subs, e) =>
      var k := i + 6 + |name|;
      StandsSlice(b, i + 6, name);
      StandsSlice(b, k + 2, data);
      ShortIff(b, i + 4, -|name|);
      ShortIff(b, k, |data|);
      IntIff(b, k + 2 + |data| + SizeAll(subs), e);
      PartsRead(b, k + 2 + |data|, subs, e);
  }

  lemma {:induction false} PartsRead(b: seq<Byte>, i: nat, subs: seq<Match>, e: int)
    requires PartsAt(b, i, subs) && e >= 0 && IntAt(b, i + SizeAll(subs), e)
    ensures i + SizeAll(subs) <= |b| && DecodeSubs(b, i) == Read(subs, i + SizeAll(subs))
    decreases subs, 0
  {
    hide PeekInt, PeekShort, IntAt, ShortAt, Stands, DecodeMatch, MatchAt;
    if subs == [] {
      IntIff(b, i, e);
    } else {
      StartIs(b, i, subs[0]);
      FormatRead(b, i, subs[0]);
      PartsRead(b, i + Size(subs[0]), subs[1..], e);
      assert [subs[0]] + subs[1..] == subs;
    }
  }

  lemma StartIs(b: seq<Byte>, i: nat, m: Match)
    requires MatchAt(b, i, m)
    ensures i + 4 <= |b| && PeekInt(b, i) == -m.s
  {
    IntIff(b, i, -m.s);
  }

  lemma {:induction false} ReadFormat(b: seq<Byte>, i: nat)
    requires DecodeMatch(b, i).Read?
    ensures var r := DecodeMatch(b, i); MatchAt(b, i, r.value) && r.next == i + Size(r.value)
    decreases |b| - i, 1
  {
    hide PeekInt, PeekShort, IntAt, ShortAt, Stands, DecodeSubs;
    var m := DecodeMatch(b, i).value;
    IntIff(b, i, -m.s);
    ShortIff(b, i + 4, PeekShort(b, i + 4));
    SliceStands(b, i + 6, m.name);
    match m
    case Regular(s, name, subs, e) =>
      var k := i + 6 + |name|;
      ReadParts(b, k);
      IntIff(b, k + SizeAll(subs), e);
    case Constant(s, name, data, subs, e) =>
      var k := i + 6 + |name|;
      ShortIff(b, k, |data|);
      SliceStands(b, k + 2, data);
      ReadParts(b, k + 2 + |data|);
      IntIff(b, k + 2 + |data| + SizeAll(subs), e);
  }

  lemma {:induction false} ReadParts(b: seq<Byte>, i: nat)
    requires i <= |b| && DecodeSubs(b, i).Read?
    ensures var r := DecodeSubs(b, i);
            PartsAt(b, i, r.value) && r.next == i + SizeAll(r.value) && r.next + 4 <= |b| && PeekInt(b, r.next) >= 0
    decreases |b| - i, 2
  {
    hide PeekInt, PeekShort, IntAt, ShortAt, Stands, DecodeMatch, MatchAt;
    if PeekInt(b, i) < 0 {
      var m, j := DecodeMatch(b, i).value, DecodeMatch(b, i).next;
      ReadFormat(b, i);
      StartIs(b, i, m);
      ReadParts(b, j);
      var rest := DecodeSubs(b, j).value;
      assert ([m] + rest)[1..] == rest;
    }
  }

  /** Bytes are decoded as a match exactly if they are that match in the format. */
  lemma DecodeIff(b: seq<Byte>, i: nat, m: Match, next: nat)
    ensures DecodeMatch(b, i) == Read(m, next) <==> MatchAt(b, i, m) && next == i + Size(m)
  {
    hide DecodeMatch, MatchAt;
    if DecodeMatch(b, i).Read? { ReadFormat(b, i); }
    if MatchAt(b, i, m) { FormatRead(b, i, m); }
  }
}
