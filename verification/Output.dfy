/** Capture output: the loop over the flat capture list, and the two encoders. */
module Output {
  // The loop keeps an explicit stack instead of recursing, and the JSON encoder decides about commas and brackets
  // by looking at neighbouring list entries.  `Render` is what they must amount to: a plain recursion over the
  // capture tree.

  import opened Peg
  import opened Machine
  import opened Buffers

  const MAX_CAPDEPTH: nat := 65535

  datatype Encoder = Bytes | Json

  /** What the encoders read: the names of the keys, and the input. */
  datatype Source = Source(names: seq<seq<Byte>>, input: Input)

  function Name(x: Source, key: nat): seq<Byte> {
    if key < |x.names| then x.names[key] else []
  }

  predicate IsOpen(c: Cap) { c.Open? }

  // ---------- the byte encoder ----------

  /** The name of a capture behind its length, which is negated for a constant capture. */
  function NameBytes(name: seq<Byte>, negate: bool): seq<Byte> {
    ShortBytes(if negate then -|name| else |name|) + name
  }

  function ByteOpen(x: Source, isConst: bool, key: nat, pos: nat): seq<Byte> {
    IntBytes(-(pos + 1)) + NameBytes(Name(x, key), isConst)
  }

  function ByteClose(x: Source, close: Cap): seq<Byte> {
    match close
    case CloseConst(value, pos) => NameBytes(Name(x, value), false) + IntBytes(pos + 1)
    case _ => IntBytes(close.pos + 1)
  }

  // ---------- the JSON encoder ----------

  /** ASCII text as bytes. */
  function Ascii(t: string): (r: seq<Byte>)
    ensures |r| == |t|
  {
    seq(|t|, i requires 0 <= i < |t| => t[i] as int % 256)
  }

  function Decimal(n: nat): seq<Byte> {
    if n < 10 then [48 + n] else Decimal(n / 10) + [48 + n % 10]
  }

  function HexDigit(d: nat): Byte
    requires d < 16
  {
    if d < 10 then 48 + d else 87 + d
  }

  /** Quote, backslash, and the control characters except NUL are escaped. */
  function Escaped(c: Byte): (r: seq<Byte>)
    ensures 1 <= |r| <= 6
  {
    if c == 34 then [92, 34]
    else if c == 92 then [92, 92]
    else if c == 8 then [92, 98]
    else if c == 9 then [92, 116]
    else if c == 10 then [92, 110]
    else if c == 12 then [92, 102]
    else if c == 13 then [92, 114]
    else if 0 < c < 32 || c == 127 then [92, 117, 48, 48, HexDigit(c / 16), HexDigit(c % 16)]
    else [c]
  }

  function EscapedAll(t: seq<Byte>): (r: seq<Byte>)
    ensures |r| <= 6 * |t|
  {
    if t == [] then [] else Escaped(t[0]) + EscapedAll(t[1..])
  }

  function Quoted(t: seq<Byte>): seq<Byte> { [34] + EscapedAll(t) + [34] }

  /** The text between two positions. */
  function Slice(input: Input, start: nat, end: nat): seq<Byte> {
    if start <= end <= |input| then input[start..end] else []
  }

  /** `first` says that the capture has no elder sibling, `bare` that it has no children. */
  function JsonOpen(x: Source, key: nat, pos: nat, first: bool, bare: bool): seq<Byte> {
    (if first then [] else Ascii(",")) + Ascii("{\"type\":\"") + Name(x, key) + Ascii("\"") +
    Ascii(",\"s\":") + Decimal(pos + 1) + if bare then [] else Ascii(",\"subs\":[")
  }

  function JsonClose(x: Source, close: Cap, start: nat, bare: bool): seq<Byte> {
    (if bare then [] else Ascii("]")) + Ascii(",\"e\":") + Decimal(close.pos + 1) + Ascii(",\"data\":") +
    DataOf(x, close, start) + Ascii("}")
  }

  /** The value of a constant capture, or the text from the opening to the closing of the capture. */
  function DataOf(x: Source, close: Cap, start: nat): seq<Byte> {
    if close.CloseConst? then Ascii("\"") + Name(x, close.value) + Ascii("\"")
    else Quoted(Slice(x.input, start, close.pos))
  }

  // ---------- what the output must be ----------

  function OpenOut(enc: Encoder, x: Source, isConst: bool, key: nat, pos: nat, first: bool, bare: bool): seq<Byte> {
    match enc
    case Bytes => ByteOpen(x, isConst, key, pos)
    case Json => JsonOpen(x, key, pos, first, bare)
  }

  function CloseOut(enc: Encoder, x: Source, close: Cap, start: nat, bare: bool): seq<Byte> {
    match enc
    case Bytes => ByteClose(x, close)
    case Json => JsonClose(x, close, start, bare)
  }

  /** The output for a capture: its opening, its children separated as the encoder does it, its closing. */
  function Render(enc: Encoder, x: Source, c: CapTree, first: bool): seq<Byte> {
    match c
    case Node(key, start, subs, end) =>
      OpenOut(enc, x, false, key, start, first, subs == []) + RenderAll(enc, x, subs, true) +
      CloseOut(enc, x, Close(end), start, subs == [])
    case Const(key, value, pos) =>
      OpenOut(enc, x, true, key, pos, first, true) + CloseOut(enc, x, CloseConst(value, pos), pos, true)
  }

  function RenderAll(enc: Encoder, x: Source, forest: seq<CapTree>, first: bool): seq<Byte> {
    if forest == [] then [] else Render(enc, x, forest[0], first) + RenderAll(enc, x, forest[1..], false)
  }

  /** How deep captures are nested. */
  function Height(c: CapTree): nat {
    match c
    case Node(_, _, subs, _) => 1 + HeightAll(subs)
    case Const(_, _, _) => 1
  }

  function HeightAll(forest: seq<CapTree>): nat {
    if forest == [] then 0
    else if Height(forest[0]) >= HeightAll(forest[1..]) then Height(forest[0]) else HeightAll(forest[1..])
  }

  // ---------- what is left to do, inside the loop ----------

  /** The open captures, innermost first: what is left of the children of each, the entry that will close it,
      where it started, whether it has no children, and how many elder siblings it has. */
  datatype Pending =
    | Nothing
    | Inside(rest: seq<CapTree>, close: Cap, start: nat, bare: bool, count: nat, outer: Pending)

  datatype CapFrame = CapFrame(start: nat, count: nat)

  function PendingCaps(p: Pending): seq<Cap> {
    match p
    case Nothing => []
    case Inside(rest, close, _, _, _, outer) => Flatten(rest) + ([close] + PendingCaps(outer))
  }

  function PendingOut(enc: Encoder, x: Source, p: Pending, count: nat): seq<Byte> {
    match p
    case Nothing => []
    case Inside(rest, close, start, bare, c, outer) =>
      RenderAll(enc, x, rest, count == 0) + (CloseOut(enc, x, close, start, bare) + PendingOut(enc, x, outer, c + 1))
  }

  /** The explicit stack of the loop. */
  function Frames(p: Pending): seq<CapFrame> {
    match p
    case Nothing => []
    case Inside(_, _, start, _, count, outer) => Frames(outer) + [CapFrame(start, count)]
  }

  function PendingHeight(p: Pending): nat {
    match p
    case Nothing => 0
    case Inside(rest, _, _, _, _, outer) =>
      var here := |Frames(p)| + HeightAll(rest);
      if here >= PendingHeight(outer) then here else PendingHeight(outer)
  }

  ghost predicate WellPending(p: Pending) {
    p.Inside? ==>
      !IsOpen(p.close) && (p.bare ==> p.rest == []) && (p.outer.Inside? ==> !p.outer.bare) && WellPending(p.outer)
  }

  lemma HeadOpen(p: Pending, rest: seq<Cap>)
    requires WellPending(p) && p.Inside?
    ensures PendingCaps(p) != [] && (IsOpen((PendingCaps(p) + rest)[0]) <==> p.rest != [])
  {
    if p.rest != [] { assert IsOpen(FlattenTree(p.rest[0])[0]); }
  }

  /** The pending work after the next child of the innermost capture has been opened. */
  function Opened(p: Pending, count: nat): Pending
    requires p.Inside? && p.rest != []
  {
    var outer := p.(rest := p.rest[1..]);
    match p.rest[0]
    case Node(_, start, subs, end) => Inside(subs, Close(end), start, subs == [], count, outer)
    case Const(_, value, pos) => Inside([], CloseConst(value, pos), pos, true, count, outer)
  }

  function OpenEntry(c: CapTree): Cap {
    match c
    case Node(key, start, _, _) => Open(false, key, start)
    case Const(key, _, pos) => Open(true, key, pos)
  }

  lemma OpenCaps(p: Pending, count: nat)
    requires p.Inside? && p.rest != []
    ensures PendingCaps(p) == [OpenEntry(p.rest[0])] + PendingCaps(Opened(p, count))
  {
    var t, tail, q := p.rest[0], p.rest[1..], Opened(p, count);
    var after := [p.close] + PendingCaps(p.outer);
    assert FlattenTree(t) == [OpenEntry(t)] + Flatten(q.rest) + [q.close];
    Regroup5([OpenEntry(t)], Flatten(q.rest), [q.close], Flatten(tail), after);
  }

  lemma OpenOutput(enc: Encoder, x: Source, p: Pending, count: nat)
    requires p.Inside? && p.rest != []
    ensures var q, e := Opened(p, count), OpenEntry(p.rest[0]);
            PendingOut(enc, x, p, count) ==
            OpenOut(enc, x, e.isConst, e.key, e.pos, count == 0, q.bare) + PendingOut(enc, x, q, 0)
  {
    var t, tail, q := p.rest[0], p.rest[1..], Opened(p, count);
    var e := OpenEntry(t);
    var outOpen := OpenOut(enc, x, e.isConst, e.key, e.pos, count == 0, q.bare);
    var outSubs, outClose := RenderAll(enc, x, q.rest, true), CloseOut(enc, x, q.close, q.start, q.bare);
    var outAfter := CloseOut(enc, x, p.close, p.start, p.bare) + PendingOut(enc, x, p.outer, p.count + 1);
    var outTail := RenderAll(enc, x, tail, false);
    RenderParts(enc, x, p, count);
    assert PendingOut(enc, x, p, count) == (outOpen + outSubs + outClose) + outTail + outAfter;
    Regroup5(outOpen, outSubs, outClose, outTail, outAfter);
    assert PendingOut(enc, x, p.(rest := tail), count + 1) == outTail + outAfter;
    assert PendingOut(enc, x, q, 0) == outSubs + (outClose + (outTail + outAfter));
  }

  lemma RenderParts(enc: Encoder, x: Source, p: Pending, count: nat)
    requires p.Inside? && p.rest != []
    ensures var q, e := Opened(p, count), OpenEntry(p.rest[0]);
            Render(enc, x, p.rest[0], count == 0) ==
            OpenOut(enc, x, e.isConst, e.key, e.pos, count == 0, q.bare) + RenderAll(enc, x, q.rest, true) +
            CloseOut(enc, x, q.close, q.start, q.bare)
  {
    if p.rest[0].Const? {
      var e := OpenEntry(p.rest[0]);
      var outOpen := OpenOut(enc, x, e.isConst, e.key, e.pos, count == 0, true);
      assert outOpen + [] == outOpen;
    }
  }

  lemma OpenStep(enc: Encoder, x: Source, p: Pending, count: nat)
    requires WellPending(p) && p.Inside? && p.rest != [] && !p.bare
    ensures var q, e := Opened(p, count), OpenEntry(p.rest[0]);
            WellPending(q) && PendingCaps(p) == [e] + PendingCaps(q) &&
            Frames(q) == Frames(p) + [CapFrame(e.pos, count)] &&
            PendingOut(enc, x, p, count) ==
              OpenOut(enc, x, e.isConst, e.key, e.pos, count == 0, q.bare) + PendingOut(enc, x, q, 0)
  {
    OpenCaps(p, count);
    OpenOutput(enc, x, p, count);
  }

  lemma Regroup5<T>(a: seq<T>, b: seq<T>, c: seq<T>, d: seq<T>, e: seq<T>)
    ensures (a + b + c) + d + e == a + (b + (c + (d + e)))
  {
  }

  lemma OpenHeight(p: Pending, count: nat)
    requires WellPending(p) && p.Inside? && p.rest != []
    ensures var q := Opened(p, count);
            PendingHeight(q) <= PendingHeight(p) && |Frames(p)| + 1 <= PendingHeight(p) &&
            (PendingHeight(p) <= PendingHeight(q) || PendingHeight(p) <= |Frames(p)| + 1)
  {
    var q, outer := Opened(p, count), p.(rest := p.rest[1..]);
    assert |Frames(q)| == |Frames(p)| + 1 == |Frames(outer)| + 1;
    assert Height(p.rest[0]) == 1 + HeightAll(q.rest);
  }

  // ---------- the loop ----------

  method EncodeName(buf: Buffer, name: seq<Byte>, negate: bool)
    requires buf.Valid()
    modifies buf, buf.data
    ensures buf.Valid() && (buf.data == old(buf.data) || fresh(buf.data))
    ensures buf.Contents() == old(buf.Contents()) + NameBytes(name, negate)
  {
    buf.AddShort(if negate then -|name| else |name|);
    buf.AddString(name);
  }

  lemma Assoc(a: seq<Byte>, b: seq<Byte>, c: seq<Byte>)
    ensures a + b + c == a + (b + c)
  {
  }

  method AddQuoted(buf: Buffer, t: seq<Byte>)
    requires buf.Valid()
    modifies buf, buf.data
    ensures buf.Valid() && (buf.data == old(buf.data) || fresh(buf.data))
    ensures buf.Contents() == old(buf.Contents()) + Quoted(t)
  {
    ghost var was, done := buf.Contents(), [34];
    buf.PrepSize(2 + 6 * |t|);
    buf.AddCharUnsafe(34);
    assert done == [34] + EscapedAll(t[..0]);
    for i := 0 to |t|
      invariant buf.Valid() && (buf.data == old(buf.data) || fresh(buf.data))
      invariant buf.Contents() == was + done && done == [34] + EscapedAll(t[..i])
      invariant buf.data.Length - buf.n >= 1 + 6 * (|t| - i)
    {
      var e := Escaped(t[i]);
      assert t[..i + 1] == t[..i] + [t[i]];
      EscapedSnoc(t[..i], t[i]);
      Assoc(was, done, e);
      Assoc([34], EscapedAll(t[..i]), e);
      buf.AddStringUnsafe(e);
      done := done + e;
    }
    assert t[..|t|] == t;
    buf.AddString([34]);
    Assoc(was, done, [34]);
  }

  lemma {:induction false} EscapedSnoc(t: seq<Byte>, c: Byte)
    ensures EscapedAll(t + [c]) == EscapedAll(t) + Escaped(c)
    decreases t
  {
    if t == [] {
      assert [c][1..] == [];
    } else {
      EscapedSnoc(t[1..], c);
      assert (t + [c])[0] == t[0] && (t + [c])[1..] == t[1..] + [c];
      Assoc(Escaped(t[0]), EscapedAll(t[1..]), Escaped(c));
    }
  }

  /** Appends one more piece to the `done` that has been written behind `was`. */
  method Append(buf: Buffer, t: seq<Byte>, ghost was: seq<Byte>, ghost done: seq<Byte>)
    requires buf.Valid() && buf.Contents() == was + done
    modifies buf, buf.data
    ensures buf.Valid() && (buf.data == old(buf.data) || fresh(buf.data))
    ensures buf.Contents() == was + (done + t)
  {
    buf.AddString(t);
    Assoc(was, done, t);
  }

  method EncodeOpen(enc: Encoder, x: Source, buf: Buffer, c: Cap, count: nat, next: Cap)
    requires buf.Valid() && c.Open?
    modifies buf, buf.data
    ensures buf.Valid() && (buf.data == old(buf.data) || fresh(buf.data))
    ensures buf.Contents() ==
            old(buf.Contents()) + OpenOut(enc, x, c.isConst, c.key, c.pos, count == 0, !IsOpen(next))
  {
    hide IntBytes, NameBytes, Decimal, Ascii, Name;
    ghost var was := buf.Contents();
    match enc
    case Bytes =>
      buf.AddInt(-(c.pos + 1));
      EncodeName(buf, Name(x, c.key), c.isConst);
      Assoc(was, IntBytes(-(c.pos + 1)), NameBytes(Name(x, c.key), c.isConst));
    case Json =>
      var comma: seq<Byte> := if count > 0 then Ascii(",") else [];
      var subs: seq<Byte> := if IsOpen(next) then Ascii(",\"subs\":[") else [];
      buf.AddString(comma);
      ghost var done := comma;
      Append(buf, Ascii("{\"type\":\""), was, done);
      done := done + Ascii("{\"type\":\"");
      Append(buf, Name(x, c.key), was, done);
      done := done + Name(x, c.key);
      Append(buf, Ascii("\""), was, done);
      done := done + Ascii("\"");
      Append(buf, Ascii(",\"s\":"), was, done);
      done := done + Ascii(",\"s\":");
      Append(buf, Decimal(c.pos + 1), was, done);
      done := done + Decimal(c.pos + 1);
      Append(buf, subs, was, done);
  }

  method EncodeClose(enc: Encoder, x: Source, buf: Buffer, c: Cap, start: nat, prior: Cap)
    requires buf.Valid() && !c.Open?
    modifies buf, buf.data
    ensures buf.Valid() && (buf.data == old(buf.data) || fresh(buf.data))
    ensures buf.Contents() == old(buf.Contents()) + CloseOut(enc, x, c, start, IsOpen(prior))
  {
    hide IntBytes, NameBytes, Decimal, Ascii, Name, DataOf;
    ghost var was := buf.Contents();
    match enc
    case Bytes =>
      if c.CloseConst? {
        EncodeName(buf, Name(x, c.value), false);
        Assoc(was, NameBytes(Name(x, c.value), false), IntBytes(c.pos + 1));
      }
      buf.AddInt(c.pos + 1);
    case Json =>
      var bracket: seq<Byte> := if IsOpen(prior) then [] else Ascii("]");
      buf.AddString(bracket);
      ghost var done := bracket;
      Append(buf, Ascii(",\"e\":"), was, done);
      done := done + Ascii(",\"e\":");
      Append(buf, Decimal(c.pos + 1), was, done);
      done := done + Decimal(c.pos + 1);
      Append(buf, Ascii(",\"data\":"), was, done);
      done := done + Ascii(",\"data\":");
      EncodeData(buf, x, c, start);
      Assoc(was, done, DataOf(x, c, start));
      done := done + DataOf(x, c, start);
      Append(buf, Ascii("}"), was, done);
  }

  method EncodeData(buf: Buffer, x: Source, c: Cap, start: nat)
    requires buf.Valid()
    modifies buf, buf.data
    ensures buf.Valid() && (buf.data == old(buf.data) || fresh(buf.data))
    ensures buf.Contents() == old(buf.Contents()) + DataOf(x, c, start)
  {
    if c.CloseConst? {
      ghost var was := buf.Contents();
      buf.AddString(Ascii("\""));
      Append(buf, Name(x, c.value), was, Ascii("\""));
      Append(buf, Ascii("\""), was, Ascii("\"") + Name(x, c.value));
    } else {
      AddQuoted(buf, Slice(x.input, start, c.pos));
    }
  }

  /** The pending work once the outermost capture has been opened. */
  function Root(tree: CapTree): Pending {
    match tree
    case Node(_, start, subs, end) => Inside(subs, Close(end), start, subs == [], 0, Nothing)
    case Const(_, value, pos) => Inside([], CloseConst(value, pos), pos, true, 0, Nothing)
  }

  lemma RootStep(enc: Encoder, x: Source, tree: CapTree)
    ensures var p, e := Root(tree), OpenEntry(tree);
            WellPending(p) && FlattenTree(tree) == [e] + PendingCaps(p) && PendingHeight(p) == Height(tree) &&
            Frames(p) == [CapFrame(e.pos, 0)] &&
            Render(enc, x, tree, true) ==
              OpenOut(enc, x, e.isConst, e.key, e.pos, true, p.bare) + PendingOut(enc, x, p, 0)
  {
    var p, e := Root(tree), OpenEntry(tree);
    var none: seq<Byte> := [];
    var outOpen := OpenOut(enc, x, e.isConst, e.key, e.pos, true, p.bare);
    var outClose := CloseOut(enc, x, p.close, p.start, p.bare);
    var outSubs := RenderAll(enc, x, p.rest, true);
    assert [p.close] + PendingCaps(Nothing) == [p.close];
    assert FlattenTree(tree) == [e] + Flatten(p.rest) + [p.close];
    assert [e] + Flatten(p.rest) + [p.close] == [e] + (Flatten(p.rest) + [p.close]);
    assert outClose + none == outClose && outOpen + none == outOpen;
    assert PendingOut(enc, x, p, 0) == outSubs + (outClose + none) == outSubs + outClose;
    Assoc(outOpen, outSubs, outClose);
    assert Render(enc, x, tree, true) == outOpen + outSubs + outClose;
    assert Frames(Nothing) + [CapFrame(e.pos, 0)] == [CapFrame(e.pos, 0)];
  }

  /** What the loop keeps: entry `i` comes next, `stack` and `count` are those of the pending work `p`, and
      what has been written, followed by what is pending, is `total`. */
  ghost predicate InLoop(enc: Encoder, x: Source, caps: seq<Cap>, i: nat, stack: seq<CapFrame>, count: nat,
                         written: seq<Byte>, p: Pending, total: seq<Byte>, height: nat, rest: seq<Cap>)
  {
    1 <= i <= |caps| && WellPending(p) && caps[i..] == PendingCaps(p) + rest && stack == Frames(p) &&
    written + PendingOut(enc, x, p, count) == total && |stack| <= MAX_CAPDEPTH &&
    PendingHeight(p) <= height && (height > MAX_CAPDEPTH ==> PendingHeight(p) > MAX_CAPDEPTH) &&
    (p.Inside? && p.rest == [] ==> IsOpen(caps[i - 1]) == p.bare)
  }

  /** The next entry is an Open iff the innermost capture has another child. */
  lemma AtOpen(enc: Encoder, x: Source, caps: seq<Cap>, i: nat, stack: seq<CapFrame>, count: nat,
               written: seq<Byte>, p: Pending, total: seq<Byte>, height: nat, rest: seq<Cap>)
    requires InLoop(enc, x, caps, i, stack, count, written, p, total, height, rest) && p.Inside?
    ensures i < |caps| && (IsOpen(caps[i]) <==> p.rest != [])
  {
    HeadOpen(p, rest);
    assert caps[i..][0] == caps[i];
  }

  lemma OpenInLoop(enc: Encoder, x: Source, caps: seq<Cap>, i: nat, stack: seq<CapFrame>, count: nat,
                   written: seq<Byte>, p: Pending, total: seq<Byte>, height: nat, rest: seq<Cap>)
    requires InLoop(enc, x, caps, i, stack, count, written, p, total, height, rest) && p.Inside? && p.rest != []
    ensures i + 1 < |caps| && caps[i] == OpenEntry(p.rest[0]) && |stack| + 1 <= height
    ensures var e := caps[i];
            var out := OpenOut(enc, x, e.isConst, e.key, e.pos, count == 0, !IsOpen(caps[i + 1]));
            |stack| < MAX_CAPDEPTH ==>
              InLoop(enc, x, caps, i + 1, stack + [CapFrame(e.pos, count)], 0, written + out, Opened(p, count), total,
                     height, rest)
  {
    var q, e := Opened(p, count), OpenEntry(p.rest[0]);
    OpenStep(enc, x, p, count);
    OpenHeight(p, count);
    HeadOpen(q, rest);
    OneInFront(e, PendingCaps(q), rest, caps, i);
    Assoc(written, OpenOut(enc, x, e.isConst, e.key, e.pos, count == 0, q.bare), PendingOut(enc, x, q, 0));
  }

  lemma OneInFront(e: Cap, pending: seq<Cap>, rest: seq<Cap>, caps: seq<Cap>, i: nat)
    requires i <= |caps| && caps[i..] == ([e] + pending) + rest && pending != []
    ensures i + 1 < |caps| && caps[i] == e && caps[i + 1..] == pending + rest && caps[i + 1] == (pending + rest)[0]
  {
    assert caps[i..] == [e] + (pending + rest);
    assert caps[i] == caps[i..][0] && caps[i + 1..] == caps[i..][1..] && caps[i + 1] == caps[i..][1];
  }

  lemma AtClose(enc: Encoder, x: Source, caps: seq<Cap>, i: nat, stack: seq<CapFrame>, count: nat,
                written: seq<Byte>, p: Pending, total: seq<Byte>, height: nat, rest: seq<Cap>)
    requires InLoop(enc, x, caps, i, stack, count, written, p, total, height, rest) && p.Inside? && p.rest == []
    ensures i < |caps| && !IsOpen(caps[i]) && |stack| > 0
  {
    NothingInFront(p.close, PendingCaps(p.outer), rest, caps, i);
  }

  /** When no child is left, the list goes on with the closing entry. */
  lemma NothingInFront(close: Cap, pending: seq<Cap>, rest: seq<Cap>, caps: seq<Cap>, i: nat)
    requires i <= |caps| && caps[i..] == [] + ([close] + pending) + rest
    ensures i < |caps| && caps[i] == close && caps[i + 1..] == pending + rest
  {
    assert caps[i..] == [close] + (pending + rest);
    assert caps[i] == caps[i..][0] && caps[i + 1..] == caps[i..][1..];
  }

  /** The output of a closing comes between what is written and what is pending. */
  lemma CloseOutput(enc: Encoder, x: Source, p: Pending, count: nat, written: seq<Byte>)
    requires p.Inside? && p.rest == []
    ensures written + PendingOut(enc, x, p, count) ==
            (written + CloseOut(enc, x, p.close, p.start, p.bare)) + PendingOut(enc, x, p.outer, p.count + 1)
  {
    var none: seq<Byte> := [];
    var out, after := CloseOut(enc, x, p.close, p.start, p.bare), PendingOut(enc, x, p.outer, p.count + 1);
    assert none + (out + after) == out + after;
    Assoc(written, out, after);
  }

  lemma CloseInLoop(enc: Encoder, x: Source, caps: seq<Cap>, i: nat, stack: seq<CapFrame>, count: nat,
                    written: seq<Byte>, p: Pending, total: seq<Byte>, height: nat, rest: seq<Cap>,
                    stack': seq<CapFrame>, count': nat, written': seq<Byte>)
    requires InLoop(enc, x, caps, i, stack, count, written, p, total, height, rest) && p.Inside? && p.rest == []
    requires i < |caps| && |stack| > 0 && stack' == stack[..|stack| - 1] && count' == stack[|stack| - 1].count + 1
    requires written' == written + CloseOut(enc, x, caps[i], stack[|stack| - 1].start, IsOpen(caps[i - 1]))
    ensures InLoop(enc, x, caps, i + 1, stack', count', written', p.outer, total, height, rest)
  {
    NothingInFront(p.close, PendingCaps(p.outer), rest, caps, i);
    LastFrame(Frames(p.outer), CapFrame(p.start, p.count), stack);
    CloseOutput(enc, x, p, count, written);
  }

  lemma LastFrame(below: seq<CapFrame>, top: CapFrame, stack: seq<CapFrame>)
    requires stack == below + [top]
    ensures stack[|stack| - 1] == top && stack[..|stack| - 1] == below
  {
  }

  lemma RootCaps(e: Cap, pending: seq<Cap>, rest: seq<Cap>, caps: seq<Cap>)
    requires caps == [e] + pending + rest && pending != []
    ensures caps[0] == e && caps[1..] == pending + rest && caps[1] == (pending + rest)[0]
  {
    assert caps == [e] + (pending + rest);
  }

  lemma RootInLoop(enc: Encoder, x: Source, caps: seq<Cap>, was: seq<Byte>, tree: CapTree, rest: seq<Cap>)
    requires caps == FlattenTree(tree) + rest
    ensures |caps| >= 2 && caps[0] == OpenEntry(tree)
    ensures var e := caps[0];
            var out := OpenOut(enc, x, e.isConst, e.key, e.pos, true, !IsOpen(caps[1]));
            InLoop(enc, x, caps, 1, [CapFrame(e.pos, 0)], 0, was + out, Root(tree),
                   was + Render(enc, x, tree, true), Height(tree), rest)
  {
    var p, e := Root(tree), OpenEntry(tree);
    RootStep(enc, x, tree);
    RootCaps(e, PendingCaps(p), rest, caps);
    HeadOpen(p, rest);
    Assoc(was, OpenOut(enc, x, e.isConst, e.key, e.pos, true, p.bare), PendingOut(enc, x, p, 0));
  }

  /** Writes the capture list of one tree, whatever comes behind it.  It fails exactly if the captures are nested
      too deeply. */
  method CapLoop(enc: Encoder, x: Source, caps: seq<Cap>, buf: Buffer, ghost tree: CapTree, ghost rest: seq<Cap>)
    returns (ok: bool)
    requires buf.Valid() && caps == FlattenTree(tree) + rest
    modifies buf, buf.data
    ensures buf.Valid() && ok == (Height(tree) <= MAX_CAPDEPTH)
    ensures ok ==> buf.Contents() == old(buf.Contents()) + Render(enc, x, tree, true)
  {
    hide Render, Height, FlattenTree, OpenOut, PendingCaps;
    ghost var total, height, p := buf.Contents() + Render(enc, x, tree, true), Height(tree), Root(tree);
    RootInLoop(enc, x, caps, buf.Contents(), tree, rest);
    var i: nat, stack, count: nat := 1, [CapFrame(caps[0].pos, 0)], 0;
    EncodeOpen(enc, x, buf, caps[0], 0, caps[1]);
    while |stack| > 0
      invariant buf.Valid() && (buf.data == old(buf.data) || fresh(buf.data))
      invariant InLoop(enc, x, caps, i, stack, count, buf.Contents(), p, total, height, rest)
      decreases |caps| - i
    {
      i, stack, count, ok, p := OpenAll(enc, x, caps, i, stack, count, buf, p, total, height, rest);
      if !ok { return false; }
      count := CloseOne(enc, x, caps, i, stack, count, buf, p, total, height, rest);
      i, stack, p := i + 1, stack[..|stack| - 1], p.outer;
    }
    return true;
  }

  /** The end of a round: closes the innermost capture and counts it among its siblings. */
  method CloseOne(enc: Encoder, x: Source, caps: seq<Cap>, i: nat, stack: seq<CapFrame>, count0: nat, buf: Buffer,
                  ghost p: Pending, ghost total: seq<Byte>, ghost height: nat, ghost rest: seq<Cap>)
    returns (count: nat)
    requires buf.Valid() && p.Inside? && p.rest == []
    requires InLoop(enc, x, caps, i, stack, count0, buf.Contents(), p, total, height, rest)
    modifies buf, buf.data
    ensures buf.Valid() && (buf.data == old(buf.data) || fresh(buf.data)) && |stack| > 0 && i < |caps|
    ensures InLoop(enc, x, caps, i + 1, stack[..|stack| - 1], count, buf.Contents(), p.outer, total, height, rest)
  {
    ghost var written := buf.Contents();
    AtClose(enc, x, caps, i, stack, count0, written, p, total, height, rest);
    var top := stack[|stack| - 1];
    EncodeClose(enc, x, buf, caps[i], top.start, caps[i - 1]);
    count := top.count + 1;
    CloseInLoop(enc, x, caps, i, stack, count0, written, p, total, height, rest, stack[..|stack| - 1], count,
                buf.Contents());
  }

  /** The inner loop: opens captures as long as Opens follow each other. */
  method OpenAll(enc: Encoder, x: Source, caps: seq<Cap>, i0: nat, stack0: seq<CapFrame>, count0: nat, buf: Buffer,
                 ghost p0: Pending, ghost total: seq<Byte>, ghost height: nat, ghost rest: seq<Cap>)
    returns (i: nat, stack: seq<CapFrame>, count: nat, ok: bool, ghost p: Pending)
    requires buf.Valid() && p0.Inside?
    requires InLoop(enc, x, caps, i0, stack0, count0, buf.Contents(), p0, total, height, rest)
    modifies buf, buf.data
    ensures buf.Valid() && (buf.data == old(buf.data) || fresh(buf.data)) && i0 <= i
    ensures if ok then InLoop(enc, x, caps, i, stack, count, buf.Contents(), p, total, height, rest) &&
                       p.Inside? && p.rest == []
            else height > MAX_CAPDEPTH
  {
    i, stack, count, p := i0, stack0, count0, p0;
    AtOpen(enc, x, caps, i, stack, count, buf.Contents(), p, total, height, rest);
    while IsOpen(caps[i])
      invariant buf.Valid() && (buf.data == old(buf.data) || fresh(buf.data)) && i0 <= i
      invariant InLoop(enc, x, caps, i, stack, count, buf.Contents(), p, total, height, rest) && p.Inside?
      invariant i < |caps| && (IsOpen(caps[i]) <==> p.rest != [])
      decreases |caps| - i
    {
      OpenInLoop(enc, x, caps, i, stack, count, buf.Contents(), p, total, height, rest);
      if |stack| == MAX_CAPDEPTH {
        ok := false;
        return;
      }
      stack := stack + [CapFrame(caps[i].pos, count)];
      EncodeOpen(enc, x, buf, caps[i], count, caps[i + 1]);
      p := Opened(p, count);
      count, i := 0, i + 1;
      AtOpen(enc, x, caps, i, stack, count, buf.Contents(), p, total, height, rest);
    }
    ok := true;
  }
}
