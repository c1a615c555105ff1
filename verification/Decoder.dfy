/** The decoder of the byte format, and the round trip. */
module Decoder {
  import opened Peg
  import opened Buffers
  import opened Output

  /** A decoded match, as it is built for the caller. */
  datatype Match =
    | Regular(s: int, name: seq<Byte>, subs: seq<Match>, e: int)
    | Constant(s: int, name: seq<Byte>, data: seq<Byte>, subs: seq<Match>, e: int)

  datatype Decoded<+T> = Corrupt | Read(value: T, next: nat)

  /** The match that starts at `i`: start, name (with the value, for a constant capture), children, end. */
  function DecodeMatch(b: seq<Byte>, i: nat): (r: Decoded<Match>)
    ensures r.Read? ==> i < r.next <= |b|
    decreases |b| - i, 1
  {
    if i + 4 > |b| || PeekInt(b, i) > 0 || i + 6 > |b| then Corrupt
    else
      var s, len := -PeekInt(b, i), PeekShort(b, i + 4);
      if len <= 0 then
        match DecodeData(b, i + 6 - len)
        case Corrupt => Corrupt
        case Read(data, j) =>
          (match DecodeSubs(b, j)
           case Corrupt => Corrupt
           case Read(subs, k) =>
             if k + 4 > |b| then Corrupt
             else Read(Constant(s, b[i + 6..i + 6 - len], data, subs, PeekInt(b, k)), k + 4))
      else if i + 6 + len > |b| then Corrupt
      else
        match DecodeSubs(b, i + 6 + len)
        case Corrupt => Corrupt
        case Read(subs, k) =>
          if k + 4 > |b| then Corrupt else Read(Regular(s, b[i + 6..i + 6 + len], subs, PeekInt(b, k)), k + 4)
  }

  /** The value of a constant capture behind its length. */
  function DecodeData(b: seq<Byte>, i: nat): (r: Decoded<seq<Byte>>)
    ensures r.Read? ==> i + 2 <= r.next <= |b|
  {
    if i + 2 > |b| then Corrupt
    else
      var len := PeekShort(b, i);
      if len < 0 || i + 2 + len > |b| then Corrupt else Read(b[i + 2..i + 2 + len], i + 2 + len)
  }

  /** Matches follow each other as long as there is a negative number, the start of a match. */
  function DecodeSubs(b: seq<Byte>, i: nat): (r: Decoded<seq<Match>>)
    requires i <= |b|
    ensures r.Read? ==> i <= r.next <= |b|
    decreases |b| - i, 2
  {
    if i + 4 > |b| then Corrupt
    else if PeekInt(b, i) >= 0 then Read([], i)
    else
      match DecodeMatch(b, i)
      case Corrupt => Corrupt
      case Read(m, j) =>
        (match DecodeSubs(b, j)
         case Corrupt => Corrupt
         case Read(rest, k) => Read([m] + rest, k))
  }

  /** The decoder itself: a position that advances through the data. */
  method PushMatch(b: seq<Byte>, start: nat) returns (r: Decoded<Match>)
    requires start <= |b|
    ensures r == DecodeMatch(b, start)
    decreases |b| - start, 1
  {
    hide PeekShort, PeekInt;
    var s := start;
    if s + 4 > |b| { return Corrupt; }
    var pos := PeekInt(b, s);
    s := s + 4;
    if pos > 0 { return Corrupt; }
    if s + 2 > |b| { return Corrupt; }
    var shortlen := PeekShort(b, s);
    s := s + 2;
    var name, data := [], [];
    if shortlen <= 0 {
      if s - shortlen + 2 > |b| { return Corrupt; }
      name := b[s..s - shortlen];
      s := s - shortlen;
      var len := PeekShort(b, s);
      s := s + 2;
      if len < 0 || s + len > |b| { return Corrupt; }
      data := b[s..s + len];
      s := s + len;
    } else {
      if s + shortlen > |b| { return Corrupt; }
      name := b[s..s + shortlen];
      s := s + shortlen;
    }
    var subs := PushSubs(b, s);
    if subs.Corrupt? { return Corrupt; }
    s := subs.next;
    if s + 4 > |b| { return Corrupt; }
    var e := PeekInt(b, s);
    s := s + 4;
    var m := if shortlen <= 0 then Constant(-pos, name, data, subs.value, e) else Regular(-pos, name, subs.value, e);
    r := Read(m, s);
  }

  /** The loop over the children. */
  method PushSubs(b: seq<Byte>, start: nat) returns (r: Decoded<seq<Match>>)
    requires start <= |b|
    ensures r == DecodeSubs(b, start)
    decreases |b| - start, 2
  {
    var s, subs: seq<Match> := start, [];
    PrependNone(DecodeSubs(b, s));
    while s + 4 <= |b| && PeekInt(b, s) < 0
      invariant start <= s <= |b|
      invariant DecodeSubs(b, start) == Prepend(subs, DecodeSubs(b, s))
      decreases |b| - s
    {
      var sub := PushMatch(b, s);
      if sub.Corrupt? { return Corrupt; }
      PrependSnoc(subs, sub.value, DecodeSubs(b, sub.next));
      subs := subs + [sub.value];
      s := sub.next;
    }
    if s + 4 > |b| { return Corrupt; }
    assert subs + [] == subs;
    r := Read(subs, s);
  }

  function Prepend(subs: seq<Match>, r: Decoded<seq<Match>>): Decoded<seq<Match>> {
    match r
    case Corrupt => Corrupt
    case Read(rest, k) => Read(subs + rest, k)
  }

  lemma PrependNone(r: Decoded<seq<Match>>)
    ensures Prepend([], r) == r
  {
    if r.Read? { assert [] + r.value == r.value; }
  }

  lemma PrependSnoc(subs: seq<Match>, m: Match, r: Decoded<seq<Match>>)
    ensures Prepend(subs + [m], r) == Prepend(subs, Prepend([m], r))
  {
    if r.Read? { assert subs + [m] + r.value == subs + ([m] + r.value); }
  }

  // ---------- decoding inverts encoding ----------

  function MatchOf(x: Source, t: CapTree): Match {
    match t
    case Node(key, start, subs, end) => Regular(start + 1, Name(x, key), MatchesOf(x, subs), end + 1)
    case Const(key, value, pos) => Constant(pos + 1, Name(x, key), Name(x, value), [], pos + 1)
  }

  function MatchesOf(x: Source, forest: seq<CapTree>): seq<Match> {
    if forest == [] then [] else [MatchOf(x, forest[0])] + MatchesOf(x, forest[1..])
  }

  /** A short that is read back. */
  predicate ShortOk(i: int) { -0x8000 <= i < 0x8000 && (i % 256 < 128 || i / 256 % 256 == 255) }

  /** What the format can hold: positions of 31 bits, names whose length is read back and, for a capture that
      is no constant, is not zero.  Lengths from 1 to 127 are always in order. */
  predicate Fits(x: Source, t: CapTree) {
    match t
    case Node(key, start, subs, end) =>
      start + 1 < 0x8000_0000 && end + 1 < 0x8000_0000 &&
      |Name(x, key)| > 0 && ShortOk(|Name(x, key)|) && FitsAll(x, subs)
    case Const(key, value, pos) =>
      pos + 1 < 0x8000_0000 && ShortOk(-|Name(x, key)|) && ShortOk(|Name(x, value)|)
  }

  predicate FitsAll(x: Source, forest: seq<CapTree>) {
    forest == [] || (Fits(x, forest[0]) && FitsAll(x, forest[1..]))
  }

  /** The byte encoding of a tree, by itself. */
  function BytesOf(x: Source, t: CapTree): seq<Byte> {
    match t
    case Node(key, start, subs, end) =>
      ByteOpen(x, false, key, start) + BytesOfAll(x, subs) + IntBytes(end + 1)
    case Const(key, value, pos) =>
      ByteOpen(x, true, key, pos) + (NameBytes(Name(x, value), false) + IntBytes(pos + 1))
  }

  function BytesOfAll(x: Source, forest: seq<CapTree>): seq<Byte> {
    if forest == [] then [] else BytesOf(x, forest[0]) + BytesOfAll(x, forest[1..])
  }

  lemma {:induction false} RenderBytes(x: Source, t: CapTree, first: bool)
    ensures Render(Encoder.Bytes, x, t, first) == BytesOf(x, t)
    decreases t
  {
    if t.Node? { RenderAllBytes(x, t.subs, true); }
  }

  lemma {:induction false} RenderAllBytes(x: Source, forest: seq<CapTree>, first: bool)
    ensures RenderAll(Encoder.Bytes, x, forest, first) == BytesOfAll(x, forest)
    decreases forest
  {
    if forest != [] {
      RenderBytes(x, forest[0], first);
      RenderAllBytes(x, forest[1..], false);
    }
  }

  /** The head of a match: its start, the length of its name, and its name. */
  lemma ReadHead(b: seq<Byte>, i: nat, start: nat, negate: bool, name: seq<Byte>)
    requires start + 1 < 0x8000_0000 && ShortOk(if negate then -|name| else |name|)
    requires Stands(b, i, IntBytes(-(start + 1)) + NameBytes(name, negate))
    ensures i + 6 + |name| <= |b| && b[i + 6..i + 6 + |name|] == name
    ensures PeekInt(b, i) == -(start + 1) && PeekShort(b, i + 4) == if negate then -|name| else |name|
  {
    var len := if negate then -|name| else |name|;
    StandsSplit(b, i, IntBytes(-(start + 1)), NameBytes(name, negate));
    StandsSplit(b, i + 4, ShortBytes(len), name);
    IntRoundTrip(b, i, -(start + 1));
    ShortRoundTrip(b, i + 4, len);
    StandsSlice(b, i + 6, name);
  }

  lemma ReadData(b: seq<Byte>, i: nat, data: seq<Byte>)
    requires ShortOk(|data|) && Stands(b, i, NameBytes(data, false))
    ensures DecodeData(b, i) == Read(data, i + 2 + |data|)
  {
    StandsSplit(b, i, ShortBytes(|data|), data);
    ShortRoundTrip(b, i, |data|);
    StandsSlice(b, i + 2, data);
  }

  /** A match with a name, from what stands in its place. */
  lemma RegularAt(b: seq<Byte>, i: nat, s: int, name: seq<Byte>, subs: seq<Match>, k: nat)
    requires i + 6 + |name| <= |b| && b[i + 6..i + 6 + |name|] == name != []
    requires s > 0 && PeekInt(b, i) == -s && PeekShort(b, i + 4) == |name|
    requires DecodeSubs(b, i + 6 + |name|) == Read(subs, k) && k + 4 <= |b|
    ensures DecodeMatch(b, i) == Read(Regular(s, name, subs, PeekInt(b, k)), k + 4)
  {
  }

  /** The parts of an encoded capture. */
  lemma NodeParts(x: Source, t: CapTree, b: seq<Byte>, i: nat, j: nat, k: nat)
    requires t.Node? && Fits(x, t) && Stands(b, i, BytesOf(x, t))
    requires j == i + 6 + |Name(x, t.key)| && k == j + |BytesOfAll(x, t.subs)|
    ensures j <= |b| && b[i + 6..j] == Name(x, t.key) && PeekInt(b, i) == -(t.start + 1)
    ensures PeekShort(b, i + 4) == |Name(x, t.key)| && Stands(b, j, BytesOfAll(x, t.subs))
    ensures k + 4 <= |b| && PeekInt(b, k) == t.end + 1 && |BytesOf(x, t)| == k + 4 - i
  {
    StandsSplit3(b, i, ByteOpen(x, false, t.key, t.start), BytesOfAll(x, t.subs), IntBytes(t.end + 1));
    ReadHead(b, i, t.start, false, Name(x, t.key));
    IntRoundTrip(b, k, t.end + 1);
  }

  /** Wherever the encoding of a tree stands, the decoder rebuilds the tree and consumes exactly its bytes. */
  lemma {:induction false} ReadBack(x: Source, t: CapTree, b: seq<Byte>, i: nat)
    requires Fits(x, t) && Stands(b, i, BytesOf(x, t))
    ensures DecodeMatch(b, i) == Read(MatchOf(x, t), i + |BytesOf(x, t)|)
    ensures i + 4 <= |b| && PeekInt(b, i) < 0
    decreases t
  {
    hide PeekShort, DecodeMatch, Stands;
    match t
    case Node(key, start, subs, end) =>
      var j := i + 6 + |Name(x, key)|;
      var k := j + |BytesOfAll(x, subs)|;
      NodeParts(x, t, b, i, j, k);
      ReadAllBack(x, subs, b, j, k);
      RegularAt(b, i, start + 1, Name(x, key), MatchesOf(x, subs), k);
    case Const(_, _, _) => ReadConstBack(x, t, b, i);
  }

  /** A constant match, from what stands in its place. */
  lemma ConstantAt(
    b: seq<Byte>, i: nat, s: int, name: seq<Byte>, data: seq<Byte>, j: nat)
    requires i + 6 + |name| <= |b| && b[i + 6..i + 6 + |name|] == name
    requires s > 0 && PeekInt(b, i) == -s && PeekShort(b, i + 4) == -|name|
    requires DecodeData(b, i + 6 + |name|) == Read(data, j) && j + 4 <= |b| && PeekInt(b, j) >= 0
    ensures DecodeMatch(b, i) == Read(Constant(s, name, data, [], PeekInt(b, j)), j + 4)
  {
  }

  lemma ReadConstBack(x: Source, t: CapTree, b: seq<Byte>, i: nat)
    requires t.Const? && Fits(x, t) && Stands(b, i, BytesOf(x, t))
    ensures DecodeMatch(b, i) == Read(MatchOf(x, t), i + |BytesOf(x, t)|)
    ensures i + 4 <= |b| && PeekInt(b, i) < 0
  {
    var name, data, tail := Name(x, t.key), Name(x, t.value), IntBytes(t.pos + 1);
    var j := i + 6 + |name| + 2 + |data|;
    StandsSplit(b, i, ByteOpen(x, true, t.key, t.pos), NameBytes(data, false) + tail);
    StandsSplit(b, i + 6 + |name|, NameBytes(data, false), tail);
    ReadHead(b, i, t.pos, true, name);
    ReadData(b, i + 6 + |name|, data);
    IntRoundTrip(b, j, t.pos + 1);
    ConstantAt(b, i, t.pos + 1, name, data, j);
  }

  /** Children are decoded up to the number that is not negative, the end of their parent. */
  lemma {:induction false} ReadAllBack(x: Source, forest: seq<CapTree>, b: seq<Byte>, i: nat, k: nat)
    requires FitsAll(x, forest) && Stands(b, i, BytesOfAll(x, forest))
    requires k == i + |BytesOfAll(x, forest)| && k + 4 <= |b| && PeekInt(b, k) >= 0
    ensures DecodeSubs(b, i) == Read(MatchesOf(x, forest), k)
    decreases forest
  {
    hide BytesOf, Fits, MatchOf, DecodeMatch, Stands, PeekInt;
    if forest != [] {
      var one, rest := BytesOf(x, forest[0]), BytesOfAll(x, forest[1..]);
      StandsSplit(b, i, one, rest);
      ReadBack(x, forest[0], b, i);
      ReadAllBack(x, forest[1..], b, i + |one|, k);
      SubsInFront(b, i, MatchOf(x, forest[0]), i + |one|, MatchesOf(x, forest[1..]), k);
    }
  }

  lemma SubsInFront(b: seq<Byte>, i: nat, m: Match, j: nat, rest: seq<Match>, k: nat)
    requires i + 4 <= |b| && PeekInt(b, i) < 0 && DecodeMatch(b, i) == Read(m, j) && j <= |b|
    requires DecodeSubs(b, j) == Read(rest, k)
    ensures DecodeSubs(b, i) == Read([m] + rest, k)
  {
  }

  /** Decoding inverts encoding: the decoder applied to what the loop over the captures has written rebuilds
      the capture tree and consumes all bytes. */
  lemma RoundTrip(x: Source, t: CapTree)
    requires Fits(x, t)
    ensures var out := Render(Encoder.Bytes, x, t, true); DecodeMatch(out, 0) == Read(MatchOf(x, t), |out|)
  {
    var out := BytesOf(x, t);
    RenderBytes(x, t, true);
    assert out[0..|out|] == out;
    SliceStands(out, 0, out);
    ReadBack(x, t, out, 0);
  }

  /** The name must not be empty: the decoder takes a capture without a name for a constant. */
  lemma EmptyNameMisread(x: Source, key: nat, start: nat, subs: seq<CapTree>, end: nat, next: nat)
    requires Name(x, key) == [] && start + 1 < 0x8000_0000
    ensures var t := Node(key, start, subs, end);
            DecodeMatch(Render(Encoder.Bytes, x, t, true), 0) != Read(MatchOf(x, t), next)
  {
    var t := Node(key, start, subs, end);
    var out := BytesOf(x, t);
    RenderBytes(x, t, true);
    assert out[0..|out|] == out;
    SliceStands(out, 0, out);
    StandsSplit3(out, 0, ByteOpen(x, false, key, start), BytesOfAll(x, subs), IntBytes(end + 1));
    ReadHead(out, 0, start, false, []);
  }

  // ---------- and only for these trees ----------

  /** Positions that fit the 31 bits of the format. */
  predicate InRange(t: CapTree) {
    match t
    case Node(_, start, subs, end) => start + 1 < 0x8000_0000 && end + 1 < 0x8000_0000 && AllInRange(subs)
    case Const(_, _, pos) => pos + 1 < 0x8000_0000
  }

  predicate AllInRange(forest: seq<CapTree>) {
    forest == [] || (InRange(forest[0]) && AllInRange(forest[1..]))
  }

  /** A short is read back exactly when it is one of those, whatever its size. */
  lemma ShortReadBack(b: seq<Byte>, p: nat, i: int)
    requires Stands(b, p, ShortBytes(i))
    ensures p + 2 <= |b| && (PeekShort(b, p) == i <==> ShortOk(i))
  {
    StandsSlice(b, p, ShortBytes(i));
    if -0x8000 <= i < 0x8000 { ShortRoundTrip(b, p, i); }
  }

  /** The first bytes of a match, when the length of its name is not read back. */
  lemma PeekHead(b: seq<Byte>, i: nat, start: nat, negate: bool, name: seq<Byte>)
    requires start + 1 < 0x8000_0000 && Stands(b, i, IntBytes(-(start + 1)) + NameBytes(name, negate))
    ensures i + 6 <= |b| && PeekInt(b, i) == -(start + 1)
    ensures PeekShort(b, i + 4) == (if negate then -|name| else |name|) <==> ShortOk(if negate then -|name| else |name|)
  {
    var len := if negate then -|name| else |name|;
    StandsSplit(b, i, IntBytes(-(start + 1)), NameBytes(name, negate));
    StandsSplit(b, i + 4, ShortBytes(len), name);
    IntRoundTrip(b, i, -(start + 1));
    ShortReadBack(b, i + 4, len);
  }

  /** A tree that does not fit is never read back. */
  lemma {:induction false} Misread(x: Source, t: CapTree, b: seq<Byte>, i: nat)
    requires InRange(t) && !Fits(x, t) && Stands(b, i, BytesOf(x, t))
    ensures DecodeMatch(b, i).Read? ==> DecodeMatch(b, i).value != MatchOf(x, t)
    ensures i + 4 <= |b| && PeekInt(b, i) < 0
    decreases t
  {
    match t
    case Node(key, start, subs, end) =>
      var head, mid := ByteOpen(x, false, key, start), BytesOfAll(x, subs);
      StandsSplit3(b, i, head, mid, IntBytes(end + 1));
      PeekHead(b, i, start, false, Name(x, key));
      if |Name(x, key)| > 0 && ShortOk(|Name(x, key)|) {
        ReadHead(b, i, start, false, Name(x, key));
        MisreadAll(x, subs, b, i + |head|);
      }
    case Const(key, value, pos) => MisreadConst(x, t, b, i);
  }

  lemma MisreadConst(x: Source, t: CapTree, b: seq<Byte>, i: nat)
    requires t.Const? && InRange(t) && !Fits(x, t) && Stands(b, i, BytesOf(x, t))
    ensures DecodeMatch(b, i).Read? ==> DecodeMatch(b, i).value != MatchOf(x, t)
    ensures i + 4 <= |b| && PeekInt(b, i) < 0
  {
    hide Stands;
    var head, mid := ByteOpen(x, true, t.key, t.pos), NameBytes(Name(x, t.value), false);
    StandsSplit(b, i, head, mid + IntBytes(t.pos + 1));
    StandsSplit(b, i + |head|, mid, IntBytes(t.pos + 1));
    PeekHead(b, i, t.pos, true, Name(x, t.key));
    if ShortOk(-|Name(x, t.key)|) {
      ReadHead(b, i, t.pos, true, Name(x, t.key));
      StandsSplit(b, i + |head|, ShortBytes(|Name(x, t.value)|), Name(x, t.value));
      ShortReadBack(b, i + |head|, |Name(x, t.value)|);
    }
  }

  /** Nor is a list of trees of which one does not fit. */
  lemma {:induction false} MisreadAll(x: Source, forest: seq<CapTree>, b: seq<Byte>, i: nat)
    requires AllInRange(forest) && !FitsAll(x, forest) && Stands(b, i, BytesOfAll(x, forest))
    ensures i <= |b|
    ensures DecodeSubs(b, i).Read? ==> DecodeSubs(b, i).value != MatchesOf(x, forest)
    decreases forest
  {
    hide BytesOf, DecodeMatch, Stands, Fits;
    var one, rest := BytesOf(x, forest[0]), BytesOfAll(x, forest[1..]);
    StandsSplit(b, i, one, rest);
    if Fits(x, forest[0]) {
      ReadBack(x, forest[0], b, i);
      MisreadAll(x, forest[1..], b, i + |one|);
    } else {
      Misread(x, forest[0], b, i);
    }
    var d := DecodeSubs(b, i);
    if d.Read? && d.value == MatchesOf(x, forest) {
      FirstSub(b, i, MatchOf(x, forest[0]), MatchesOf(x, forest[1..]));
    }
  }

  /** A list of children is decoded to a given list only if its first child is, and the others are behind it. */
  lemma FirstSub(b: seq<Byte>, i: nat, m: Match, rest: seq<Match>)
    requires i + 4 <= |b| && PeekInt(b, i) < 0 && DecodeSubs(b, i).Read? && DecodeSubs(b, i).value == [m] + rest
    ensures DecodeMatch(b, i).Read? && DecodeMatch(b, i).value == m
    ensures DecodeSubs(b, DecodeMatch(b, i).next).Read? && DecodeSubs(b, DecodeMatch(b, i).next).value == rest
  {
    var one := DecodeMatch(b, i);
    var others := DecodeSubs(b, one.next);
    var d := DecodeSubs(b, i).value;
    assert d == [one.value] + others.value;
    assert d[0] == m && d[1..] == rest && d[1..] == others.value;
  }

  /** Exactly the trees that fit the format are read back from what the loop over the captures has written. */
  lemma RoundTripIff(x: Source, t: CapTree)
    requires InRange(t)
    ensures var out := Render(Encoder.Bytes, x, t, true);
            (DecodeMatch(out, 0) == Read(MatchOf(x, t), |out|) <==> Fits(x, t)) &&
            (DecodeMatch(out, 0).Read? && DecodeMatch(out, 0).value == MatchOf(x, t) <==> Fits(x, t))
  {
    if Fits(x, t) {
      RoundTrip(x, t);
    } else {
      var out := BytesOf(x, t);
      RenderBytes(x, t, true);
      assert out[0..|out|] == out;
      SliceStands(out, 0, out);
      Misread(x, t, out, 0);
    }
  }

  lemma ConstExample(input: Input)
    ensures var x := Source([[97], [98], [99, 100]], input);
            Render(Bytes, x, Const(1, 2, 1), true) == [254, 255, 255, 255, 255, 255, 98, 2, 0, 99, 100, 2, 0, 0, 0]
  {
    assert IntBytes(-2) == [254, 255, 255, 255] && ShortBytes(-1) == [255, 255] && ShortBytes(2) == [2, 0];
  }

  /** The bytes of a capture with a constant capture in it. */
  lemma LayoutExample(input: Input)
    ensures var x := Source([[97], [98], [99, 100]], input);
            Render(Bytes, x, Node(0, 0, [Const(1, 2, 1)], 2), true) ==
              [255, 255, 255, 255, 1, 0, 97] +
              [254, 255, 255, 255, 255, 255, 98, 2, 0, 99, 100, 2, 0, 0, 0] +
              [3, 0, 0, 0]
  {
    ConstExample(input);
    assert IntBytes(-1) == [255, 255, 255, 255] && ShortBytes(1) == [1, 0];
    var x, sub := Source([[97], [98], [99, 100]], input), Const(1, 2, 1);
    assert RenderAll(Bytes, x, [sub], true) == Render(Bytes, x, sub, true) + RenderAll(Bytes, x, [], false);
  }
}
