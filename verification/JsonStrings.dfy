/** Strings of the JSON codec: escapes both ways, surrogate pairs and UTF-8. */
module JsonStrings {
  import opened Peg
  import opened Buffers
  import opened Strbufs
  import Output

  // ---------- encoding ----------

  /** As in the capture encoder, but NUL is escaped too. */
  function Escape(c: Byte): (r: seq<Byte>)
    ensures 1 <= |r| <= 6
  {
    if c == 0 then [92, 117, 48, 48, 48, 48] else Output.Escaped(c)
  }

  function EscapeAll(s: seq<Byte>): seq<Byte> {
    if s == [] then [] else Escape(s[0]) + EscapeAll(s[1..])
  }

  function JsonString(s: seq<Byte>): seq<Byte> { [34] + EscapeAll(s) + [34] }

  lemma {:induction false} EscapeAllSnoc(s: seq<Byte>, c: Byte)
    ensures EscapeAll(s + [c]) == EscapeAll(s) + Escape(c)
    decreases |s|
  {
    if s == [] {
      assert s + [c] == [c];
    } else {
      assert (s + [c])[1..] == s[1..] + [c];
      EscapeAllSnoc(s[1..], c);
    }
  }

  /** The room that is made first is enough for every append without a check. */
  method AppendString(json: Strbuf, s: seq<Byte>)
    requires json.Valid()
    modifies json, json.buf
    ensures json.Valid() && json.Text() == old(json.Text()) + JsonString(s)
    ensures json.buf == old(json.buf) || fresh(json.buf)
  {
    hide EscapeAll;
    EscapeNone();
    json.EnsureEmpty(6 * |s| + 2);
    ghost var was, room := json.Text() + [34], json.buf;
    json.AppendCharUnsafe(34);
    for i := 0 to |s|
      invariant json.Valid() && json.buf == room && json.Empty() >= 6 * (|s| - i) + 1
      invariant json.Text() == was + EscapeAll(s[..i])
    {
      AppendEscaped(json, s, i, was);
    }
    assert s[..|s|] == s;
    json.AppendCharUnsafe(34);
    assert was + EscapeAll(s) + [34] == old(json.Text()) + JsonString(s);
  }

  method AppendEscaped(json: Strbuf, s: seq<Byte>, i: nat, ghost was: seq<Byte>)
    requires json.Valid() && json.Empty() >= 6 && i < |s| && json.Text() == was + EscapeAll(s[..i])
    modifies json, json.buf
    ensures json.Valid() && json.Text() == was + EscapeAll(s[..i + 1]) && json.buf == old(json.buf)
    ensures json.Empty() >= old(json.Empty()) - 6
  {
    assert s[..i + 1] == s[..i] + [s[i]];
    EscapeAllSnoc(s[..i], s[i]);
    var esc := Escape(s[i]);
    if esc != [s[i]] {
      json.AppendString(esc);
    } else {
      json.AppendCharUnsafe(s[i]);
    }
  }

  // ---------- code points ----------

  /** The code points that UTF-8 can carry. */
  predicate IsScalar(cp: int) { 0 <= cp < 0xD800 || 0xE000 <= cp < 0x11_0000 }

  /** The 16-bit units of a code point. */
  function Utf16(cp: int): seq<int>
    requires IsScalar(cp)
  {
    if cp < 0x1_0000 then [cp] else [0xD800 + (cp - 0x1_0000) / 0x400, 0xDC00 + (cp - 0x1_0000) % 0x400]
  }

  /** The bytes of a code point; none when it is too large. */
  function Utf8(cp: nat): (r: seq<Byte>)
    ensures |r| <= 4
  {
    if cp < 0x80 then [cp]
    else if cp < 0x800 then [0xC0 + cp / 0x40, 0x80 + cp % 0x40]
    else if cp < 0x1_0000 then [0xE0 + cp / 0x1000, 0x80 + cp / 0x40 % 0x40, 0x80 + cp % 0x40]
    else if cp < 0x20_0000 then
      [0xF0 + cp / 0x4_0000, 0x80 + cp / 0x1000 % 0x40, 0x80 + cp / 0x40 % 0x40, 0x80 + cp % 0x40]
    else []
  }

  /** The continuation byte at k, without its mark, or -1. */
  function Tail(b: seq<Byte>, k: nat): int {
    if k < |b| && 0x80 <= b[k] < 0xC0 then b[k] - 0x80 else -1
  }

  /** The code point in front of some bytes, as UTF-8 is defined in section 3 of RFC 3629: in the shortest form, and
      never half of a surrogate pair; -1 when there is none. */
  function Utf8Value(b: seq<Byte>): int {
    if b == [] then -1
    else if b[0] < 0x80 then b[0]
    else
      var t1, t2, t3 := Tail(b, 1), Tail(b, 2), Tail(b, 3);
      if 0xC0 <= b[0] < 0xE0 && t1 >= 0 then
        var cp := (b[0] - 0xC0) * 0x40 + t1;
        if cp >= 0x80 then cp else -1
      else if 0xE0 <= b[0] < 0xF0 && t1 >= 0 && t2 >= 0 then
        var cp := (b[0] - 0xE0) * 0x1000 + t1 * 0x40 + t2;
        if cp >= 0x800 && IsScalar(cp) then cp else -1
      else if 0xF0 <= b[0] < 0xF8 && t1 >= 0 && t2 >= 0 && t3 >= 0 then
        var cp := (b[0] - 0xF0) * 0x4_0000 + t1 * 0x1000 + t2 * 0x40 + t3;
        if cp >= 0x1_0000 && IsScalar(cp) then cp else -1
      else -1
  }

  lemma Base64Digits(cp: nat)
    requires cp < 0x20_0000
    ensures cp == cp / 0x4_0000 * 0x4_0000 + cp / 0x1000 % 0x40 * 0x1000 + cp / 0x40 % 0x40 * 0x40 + cp % 0x40
  {
    var a := cp / 0x40;
    var b := a / 0x40;
    assert b == cp / 0x1000 && b / 0x40 == cp / 0x4_0000;
  }

  lemma FourBytesBack(cp: nat, rest: seq<Byte>)
    requires IsScalar(cp) && cp >= 0x1_0000
    ensures Utf8Value(Utf8(cp) + rest) == cp
  {
    Base64Digits(cp);
    var b, u := Utf8(cp) + rest, Utf8(cp);
    assert b[0] == u[0] && b[1] == u[1] && b[2] == u[2] && b[3] == u[3];
  }

  /** What is written for a code point is read as that code point. */
  lemma Utf8RoundTrip(cp: nat, rest: seq<Byte>)
    requires IsScalar(cp)
    ensures Utf8Value(Utf8(cp) + rest) == cp
  {
    if cp >= 0x1_0000 {
      FourBytesBack(cp, rest);
    } else {
      Base64Digits(cp);
      var b := Utf8(cp) + rest;
      assert b[0] == Utf8(cp)[0];
    }
  }

  // ---------- decoding ----------

  /** A text ends with a NUL; there may be others in it. */
  predicate Terminated(d: seq<Byte>) { d != [] && d[|d| - 1] == 0 }

  function HexDigitToInt(c: Byte): int {
    if 48 <= c <= 57 then c - 48
    else if 97 <= c <= 102 then c - 87
    else if 65 <= c <= 70 then c - 55
    else -1
  }

  /** Four hexadecimal digits, or -1; a NUL ends the reading. */
  function Hex4(d: seq<Byte>, p: nat): (r: int)
    requires Terminated(d) && p < |d|
    ensures r >= 0 ==> p + 4 < |d| && r < 0x1_0000
  {
    var a := HexDigitToInt(d[p]);
    if a < 0 then -1 else
    var b := HexDigitToInt(d[p + 1]);
    if b < 0 then -1 else
    var c := HexDigitToInt(d[p + 2]);
    if c < 0 then -1 else
    var e := HexDigitToInt(d[p + 3]);
    if e < 0 then -1 else a * 4096 + b * 256 + c * 16 + e
  }

  /** A `\u` escape stands at p. */
  predicate Slash(d: seq<Byte>, p: nat) {
    p + 2 < |d| && d[p] == 92 && d[p + 1] == 117
  }

  /** The escapes of the units stand one behind the other. */
  predicate UnitsAt(d: seq<Byte>, p: nat, units: seq<int>)
    requires Terminated(d)
    decreases |units|
  {
    units == [] ||
    (Slash(d, p) && Hex4(d, p + 2) == units[0] && units[0] >= 0 && UnitsAt(d, p + 6, units[1..]))
  }

  datatype Code = Code(cp: nat, len: nat) | BadCode

  /** The code point of the escape at p, which may take two units. */
  function UnicodeEscape(d: seq<Byte>, p: nat): (r: Code)
    requires Terminated(d) && Slash(d, p)
    ensures r.Code? ==> p + r.len < |d| && 1 <= |Utf8(r.cp)| < r.len
  {
    var code := Hex4(d, p + 2);
    if code < 0 then BadCode
    else if code / 0x800 == 0x1B then
      if code / 0x400 % 2 == 1 then BadCode
      else if d[p + 6] != 92 || d[p + 7] != 117 then BadCode
      else
        var low := Hex4(d, p + 8);
        if low < 0 || low / 0x400 != 0x37 then BadCode
        else Code(code % 0x400 * 0x400 + low % 0x400 + 0x1_0000, 12)
    else Code(code, 6)
  }

  lemma TwoUnits(d: seq<Byte>, p: nat, u: int, v: int)
    requires Terminated(d)
    ensures UnitsAt(d, p, [u]) <==> Slash(d, p) && Hex4(d, p + 2) == u >= 0
    ensures UnitsAt(d, p, [u, v]) <==> UnitsAt(d, p, [u]) && UnitsAt(d, p + 6, [v])
  {
    assert [u, v][1..] == [v] && [v][1..] == [] && [u][1..] == [];
  }

  /** The two units of a pair stand for one code point. */
  lemma PairOf(high: int, low: int, cp: int)
    requires 0xD800 <= high < 0xDC00 && 0xDC00 <= low < 0xE000
    ensures (high - 0xD800) * 0x400 + low - 0xDC00 + 0x1_0000 == cp <==>
            0x1_0000 <= cp < 0x11_0000 && Utf16(cp) == [high, low]
  {
  }

  lemma SurrogateBits(u: int)
    requires 0 <= u < 0x1_0000
    ensures u / 0x800 == 0x1B <==> 0xD800 <= u < 0xE000
    ensures 0xD800 <= u < 0xE000 ==> (u / 0x400 % 2 == 1 <==> u >= 0xDC00)
    ensures u / 0x400 == 0x37 <==> 0xDC00 <= u < 0xE000
    ensures 0xD800 <= u < 0xDC00 ==> u % 0x400 == u - 0xD800
    ensures 0xDC00 <= u < 0xE000 ==> u % 0x400 == u - 0xDC00
  {
  }

  /** An escape is accepted exactly if it spells the units of a code point, and then stands for that one: half a
      pair is an error. */
  lemma EscapeIff(d: seq<Byte>, p: nat, cp: nat, len: nat)
    requires Terminated(d) && Slash(d, p)
    ensures UnicodeEscape(d, p) == Code(cp, len) <==>
            IsScalar(cp) && len == 6 * |Utf16(cp)| && UnitsAt(d, p, Utf16(cp))
  {
    var high := Hex4(d, p + 2);
    if IsScalar(cp) {
      TwoUnits(d, p, Utf16(cp)[0], if cp < 0x1_0000 then 0 else Utf16(cp)[1]);
    }
    if high >= 0 {
      SurrogateBits(high);
      if 0xD800 <= high < 0xDC00 && Slash(d, p + 6) {
        var low := Hex4(d, p + 8);
        if low >= 0 {
          SurrogateBits(low);
          if 0xDC00 <= low < 0xE000 { PairOf(high, low, cp); }
        }
        if cp >= 0x1_0000 && IsScalar(cp) { TwoUnits(d, p + 6, Utf16(cp)[1], 0); }
      }
    }
  }

  /** The byte of a one-letter escape; `u` stands for itself, and 0 for no escape. */
  function EscapeToChar(c: Byte): Byte {
    match c
    case 34 => 34
    case 92 => 92
    case 47 => 47
    case 98 => 8
    case 116 => 9
    case 110 => 10
    case 102 => 12
    case 114 => 13
    case 117 => 117
    case _ => 0
  }

  datatype StringError = UnexpectedEnd | InvalidUnicode | InvalidEscape

  datatype Chars = Good(text: seq<Byte>, next: nat) | BadString(error: StringError, at: nat)

  function Behind(text: seq<Byte>, r: Chars): Chars {
    if r.Good? then Good(text + r.text, r.next) else r
  }

  /** The characters from p to the closing quote. */
  function ReadChars(d: seq<Byte>, p: nat): (r: Chars)
    requires Terminated(d) && p < |d|
    ensures r.Good? ==> p + |r.text| < r.next < |d|
    ensures r.BadString? ==> p <= r.at < |d|
    decreases |d| - p
  {
    if d[p] == 34 then Good([], p + 1)
    else if d[p] == 0 then BadString(UnexpectedEnd, p)
    else if d[p] == 92 then
      var c := EscapeToChar(d[p + 1]);
      if c == 117 then
        var u := UnicodeEscape(d, p);
        if u.BadCode? then BadString(InvalidUnicode, p) else Behind(Utf8(u.cp), ReadChars(d, p + u.len))
      else if c == 0 then BadString(InvalidEscape, p)
      else Behind([c], ReadChars(d, p + 2))
    else Behind([d[p]], ReadChars(d, p + 1))
  }

  /** What stands behind a backslash, and behind any other byte of a string. */
  lemma EscapeRead(d: seq<Byte>, p: nat)
    requires Terminated(d) && p < |d| && d[p] == 92
    ensures p + 1 < |d|
    ensures EscapeToChar(d[p + 1]) == 117 ==>
              var u := UnicodeEscape(d, p);
              if u.BadCode? then ReadChars(d, p) == BadString(InvalidUnicode, p)
              else p + u.len < |d| && ReadChars(d, p) == Behind(Utf8(u.cp), ReadChars(d, p + u.len))
    ensures EscapeToChar(d[p + 1]) == 0 ==> ReadChars(d, p) == BadString(InvalidEscape, p)
    ensures var c := EscapeToChar(d[p + 1]);
            c != 0 && c != 117 ==> p + 2 < |d| && ReadChars(d, p) == Behind([c], ReadChars(d, p + 2))
  {
  }

  lemma PlainRead(d: seq<Byte>, p: nat)
    requires Terminated(d) && p < |d| && d[p] != 34 && d[p] != 92
    ensures d[p] == 0 ==> ReadChars(d, p) == BadString(UnexpectedEnd, p)
    ensures d[p] != 0 ==> p + 1 < |d| && ReadChars(d, p) == Behind([d[p]], ReadChars(d, p + 1))
  {
  }

  lemma EscapeNone()
    ensures EscapeAll([]) == []
  {
  }

  lemma BehindTwice(a: seq<Byte>, b: seq<Byte>, r: Chars)
    ensures Behind(a, Behind(b, r)) == Behind(a + b, r)
  {
    if r.Good? { assert a + (b + r.text) == a + b + r.text; }
  }

  /** One byte, escaped, is read back. */
  lemma EscapedByteBack(d: seq<Byte>, p: nat, c: Byte)
    requires Terminated(d) && Stands(d, p, Escape(c)) && p + |Escape(c)| < |d|
    ensures ReadChars(d, p) == Behind([c], ReadChars(d, p + |Escape(c)|))
  {
    var esc := Escape(c);
    StandsSlice(d, p, esc);
    var slice := d[p..p + |esc|];
    assert forall k :: 0 <= k < |esc| ==> d[p + k] == slice[k];
    assert d[p] == slice[0];
    if |esc| == 6 {
      assert d[p + 1] == slice[1] && d[p + 2] == slice[2] && d[p + 3] == slice[3];
      assert d[p + 4] == slice[4] && d[p + 5] == slice[5];
      assert Hex4(d, p + 2) == c;
      assert UnicodeEscape(d, p) == Code(c, 6);
    } else if |esc| == 2 {
      assert d[p + 1] == slice[1];
    }
  }

  lemma StringEnds(d: seq<Byte>, p: nat)
    requires Terminated(d) && Stands(d, p, EscapeAll([]) + [34])
    ensures EscapeAll([]) == [] && p + 1 < |d| && ReadChars(d, p) == Good([], p + 1)
  {
    assert EscapeAll([]) + [34] == [34] && Stands(d, p, [34]);
  }

  /** Every string of bytes is read back. */
  lemma {:induction false} StringRoundTrip(d: seq<Byte>, p: nat, s: seq<Byte>)
    requires Terminated(d) && Stands(d, p, EscapeAll(s) + [34])
    ensures p + |EscapeAll(s)| + 1 < |d|
    ensures ReadChars(d, p) == Good(s, p + |EscapeAll(s)| + 1)
    decreases |s|
  {
    hide ReadChars, Escape, Terminated;
    if s == [] {
      StringEnds(d, p);
    } else {
      var e, rest := Escape(s[0]), EscapeAll(s[1..]) + [34];
      assert EscapeAll(s) + [34] == e + rest;
      StandsSplit(d, p, e, rest);
      StringRoundTrip(d, p + |e|, s[1..]);
      EscapedByteBack(d, p, s[0]);
      assert [s[0]] + s[1..] == s;
    }
  }

  /** The closing quote. */
  lemma CaptureEnds(d: seq<Byte>, p: nat)
    requires Terminated(d) && Stands(d, p, Output.EscapedAll([]) + [34])
    ensures Output.EscapedAll([]) == [] && p + 1 < |d| && ReadChars(d, p) == Good([], p + 1)
  {
    assert Output.EscapedAll([]) + [34] == [34] && Stands(d, p, [34]);
  }

  /** A string written by the capture encoder is read back exactly if it holds no NUL. */
  lemma {:induction false} CaptureStringIff(d: seq<Byte>, p: nat, s: seq<Byte>)
    requires Terminated(d) && Stands(d, p, Output.EscapedAll(s) + [34])
    ensures p + |Output.EscapedAll(s)| + 1 < |d|
    ensures 0 !in s ==> ReadChars(d, p) == Good(s, p + |Output.EscapedAll(s)| + 1)
    ensures 0 in s ==> ReadChars(d, p).BadString?
    decreases |s|
  {
    hide ReadChars, Output.Escaped, Terminated;
    if s == [] {
      CaptureEnds(d, p);
    } else {
      var c, e, rest := s[0], Output.Escaped(s[0]), Output.EscapedAll(s[1..]) + [34];
      assert Output.EscapedAll(s) + [34] == e + rest;
      assert s == [c] + s[1..];
      StandsSplit(d, p, e, rest);
      CaptureStringIff(d, p + |e|, s[1..]);
      CaptureByte(d, p, c);
    }
  }

  lemma CaptureByte(d: seq<Byte>, p: nat, c: Byte)
    requires Terminated(d) && Stands(d, p, Output.Escaped(c)) && p + |Output.Escaped(c)| < |d|
    ensures c != 0 ==> ReadChars(d, p) == Behind([c], ReadChars(d, p + |Output.Escaped(c)|))
    ensures c == 0 ==> ReadChars(d, p).BadString?
  {
    if c != 0 { EscapedByteBack(d, p, c); }
  }

  /** A byte that must not stand in a string as it is. */
  predicate NeedsEscape(c: Byte) { c == 34 || c == 92 || c == 0 }

  predicate Plain(s: seq<Byte>) { s == [] || (!NeedsEscape(s[0]) && Plain(s[1..])) }

  /** The capture encoder writes names and constant values as they are: they are read back exactly if they hold no
      quote, no backslash and no NUL. */
  lemma {:induction false} RawStringIff(d: seq<Byte>, p: nat, s: seq<Byte>)
    requires Terminated(d) && Stands(d, p, s + [34])
    ensures p + |s| + 1 < |d|
    ensures ReadChars(d, p) == Good(s, p + |s| + 1) <==> Plain(s)
    decreases |s|
  {
    if s == [] {
      assert Stands(d, p, [34]);
    } else {
      assert (s + [34])[1..] == s[1..] + [34];
      RawStringIff(d, p + 1, s[1..]);
      assert d[p] == s[0] && s == [s[0]] + s[1..];
      if s[0] == 92 {
        EscapeShortens(d, p);
      } else if !NeedsEscape(s[0]) {
        BehindOne(s[0], ReadChars(d, p + 1), s[1..], p + |s| + 1);
      }
    }
  }

  lemma BehindOne(c: Byte, r: Chars, s: seq<Byte>, next: nat)
    ensures Behind([c], r) == Good([c] + s, next) <==> r == Good(s, next)
  {
    if r.Good? { assert ([c] + r.text)[1..] == r.text && ([c] + s)[1..] == s; }
  }

  /** Behind an escape the text is shorter than what is read. */
  lemma EscapeShortens(d: seq<Byte>, p: nat)
    requires Terminated(d) && p < |d| && d[p] == 92
    ensures ReadChars(d, p).Good? ==> p + |ReadChars(d, p).text| + 1 < ReadChars(d, p).next
  {
  }
}
