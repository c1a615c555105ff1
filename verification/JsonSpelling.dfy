/** What a JSON string may look like, and what it stands for. */
module JsonSpelling {
  // A string is a row of pieces: a byte as it is, an escape of one letter, or a code point as one or two escapes of
  // four hexadecimal digits, as section 7 of RFC 8259 has it.  Unlike there, control characters may stand for
  // themselves, and any bytes from 128 on.

  import opened Peg
  import opened Buffers
  import opened JsonStrings
  import Output

  const LOWER := "0123456789abcdef"
  const UPPER := "0123456789ABCDEF"

  /** The hexadecimal digit of a value, in either case. */
  function Digit(v: int, upper: bool): Byte
    requires 0 <= v < 16
  {
    (if upper then UPPER else LOWER)[v] as int
  }

  /** The four digits of a 16-bit unit. */
  function Digits(u: int, upper: seq<bool>): (r: seq<Byte>)
    requires 0 <= u < 0x1_0000 && |upper| == 4
    ensures |r| == 4
  {
    [Digit(u / 0x1000, upper[0]), Digit(u / 0x100 % 0x10, upper[1]),
     Digit(u / 0x10 % 0x10, upper[2]), Digit(u % 0x10, upper[3])]
  }

  /** The letters that may stand behind a backslash, and the bytes that they stand for. */
  const LETTERS := "\"\\/bfnrt"
  const BYTES: seq<Byte> := [34, 92, 47, 8, 12, 10, 13, 9]

  datatype Piece = Raw(c: Byte) | Letter(n: nat) | CodePoint(cp: nat, upper: seq<bool>)

  predicate Proper(x: Piece) {
    match x
    case Raw(c) => c != 34 && c != 92 && c != 0
    case Letter(n) => n < |BYTES|
    case CodePoint(cp, upper) => IsScalar(cp) && |upper| == 4 * |Utf16(cp)|
  }

  /** How a piece is written. */
  function Spelling(x: Piece): (r: seq<Byte>)
    requires Proper(x)
    ensures |r| >= 1
  {
    match x
    case Raw(c) => [c]
    case Letter(n) => [92, LETTERS[n] as int]
    case CodePoint(cp, upper) =>
      var units := Utf16(cp);
      if |units| == 1 then [92, 117] + Digits(units[0], upper)
      else [92, 117] + Digits(units[0], upper[..4]) + [92, 117] + Digits(units[1], upper[4..])
  }

  /** What it stands for. */
  function Sense(x: Piece): seq<Byte>
    requires Proper(x)
  {
    match x
    case Raw(c) => [c]
    case Letter(n) => [BYTES[n]]
    case CodePoint(cp, _) => Utf8(cp)
  }

  predicate AllProper(xs: seq<Piece>) { forall i :: 0 <= i < |xs| ==> Proper(xs[i]) }

  function SpellingAll(xs: seq<Piece>): seq<Byte>
    requires AllProper(xs)
  {
    if xs == [] then [] else Spelling(xs[0]) + SpellingAll(xs[1..])
  }

  function SenseAll(xs: seq<Piece>): seq<Byte>
    requires AllProper(xs)
  {
    if xs == [] then [] else Sense(xs[0]) + SenseAll(xs[1..])
  }

  // ---------- hexadecimal digits ----------

  lemma DigitIff(c: Byte, v: int)
    ensures HexDigitToInt(c) == v >= 0 <==> 0 <= v < 16 && (Digit(v, false) == c || Digit(v, true) == c)
  {
  }

  lemma DigitsOf(u: int, a: int, b: int, c: int, e: int)
    requires 0 <= a < 16 && 0 <= b < 16 && 0 <= c < 16 && 0 <= e < 16
    ensures u == a * 0x1000 + b * 0x100 + c * 0x10 + e <==>
            0 <= u < 0x1_0000 && a == u / 0x1000 && b == u / 0x100 % 0x10 && c == u / 0x10 % 0x10 && e == u % 0x10
  {
    var q := u / 0x10;
    var q' := q / 0x10;
    assert q' == u / 0x100 && q' / 0x10 == u / 0x1000;
  }

  /** Four bytes that are read as a unit are its digits, each in one case or the other. */
  lemma HexSpelled(d: seq<Byte>, p: nat) returns (upper: seq<bool>)
    requires Terminated(d) && p < |d| && Hex4(d, p) >= 0
    ensures |upper| == 4 && Stands(d, p, Digits(Hex4(d, p), upper))
  {
    hide HexDigitToInt;
    var u, a, b := Hex4(d, p), HexDigitToInt(d[p]), HexDigitToInt(d[p + 1]);
    var c, e := HexDigitToInt(d[p + 2]), HexDigitToInt(d[p + 3]);
    DigitIff(d[p], a);
    DigitIff(d[p + 1], b);
    DigitIff(d[p + 2], c);
    DigitIff(d[p + 3], e);
    DigitsOf(u, a, b, c, e);
    upper := [Digit(a, true) == d[p], Digit(b, true) == d[p + 1], Digit(c, true) == d[p + 2],
              Digit(e, true) == d[p + 3]];
    assert d[p..p + 4] == Digits(u, upper);
    SliceStands(d, p, Digits(u, upper));
  }

  /** And such digits are read as the unit. */
  lemma HexBack(d: seq<Byte>, p: nat, u: int, upper: seq<bool>)
    requires Terminated(d) && 0 <= u < 0x1_0000 && |upper| == 4 && Stands(d, p, Digits(u, upper))
    ensures p + 4 <= |d| && Hex4(d, p) == u
  {
    var digits := Digits(u, upper);
    StandsSlice(d, p, digits);
    var slice := d[p..p + 4];
    assert d[p] == slice[0] && d[p + 1] == slice[1] && d[p + 2] == slice[2] && d[p + 3] == slice[3];
    var a, b, c, e := u / 0x1000, u / 0x100 % 0x10, u / 0x10 % 0x10, u % 0x10;
    DigitsOf(u, a, b, c, e);
    DigitIff(d[p], a);
    DigitIff(d[p + 1], b);
    DigitIff(d[p + 2], c);
    DigitIff(d[p + 3], e);
  }

  // ---------- pieces are read ----------

  lemma UnitBack(d: seq<Byte>, p: nat, u: int, upper: seq<bool>)
    requires Terminated(d) && 0 <= u < 0x1_0000 && |upper| == 4 && Stands(d, p, [92, 117] + Digits(u, upper))
    ensures UnitsAt(d, p, [u])
  {
    StandsSplit(d, p, [92, 117], Digits(u, upper));
    StandsSlice(d, p, [92, 117]);
    var slice := d[p..p + 2];
    assert d[p] == slice[0] && d[p + 1] == slice[1];
    HexBack(d, p + 2, u, upper);
    TwoUnits(d, p, u, 0);
  }

  /** The escapes of a code point, in upper and lower case as one likes, are read as its UTF-8. */
  lemma CodePointBack(d: seq<Byte>, p: nat, cp: nat, upper: seq<bool>)
    requires Terminated(d) && IsScalar(cp) && |upper| == 4 * |Utf16(cp)|
    requires Stands(d, p, Spelling(CodePoint(cp, upper)))
    ensures UnitsAt(d, p, Utf16(cp)) && Slash(d, p)
    ensures p + 6 * |Utf16(cp)| < |d| && ReadChars(d, p) == Behind(Utf8(cp), ReadChars(d, p + 6 * |Utf16(cp)|))
  {
    hide Digits, Stands, UnitsAt, Utf8;
    var units := Utf16(cp);
    if |units| == 1 {
      UnitBack(d, p, units[0], upper);
    } else {
      var first, second := [92, 117] + Digits(units[0], upper[..4]), [92, 117] + Digits(units[1], upper[4..]);
      assert Spelling(CodePoint(cp, upper)) == first + second;
      StandsSplit(d, p, first, second);
      UnitBack(d, p, units[0], upper[..4]);
      UnitBack(d, p + 6, units[1], upper[4..]);
      TwoUnits(d, p, units[0], units[1]);
    }
    EscapeIff(d, p, cp, 6 * |units|);
    EscapeRead(d, p);
  }

  lemma LetterBack(d: seq<Byte>, p: nat, n: nat)
    requires Terminated(d) && n < |BYTES| && Stands(d, p, Spelling(Letter(n))) && p + 2 < |d|
    ensures ReadChars(d, p) == Behind([BYTES[n]], ReadChars(d, p + 2))
  {
    hide ReadChars;
    StandsSlice(d, p, Spelling(Letter(n)));
    var slice := d[p..p + 2];
    assert d[p] == slice[0] == 92 && d[p + 1] == slice[1] == LETTERS[n] as int;
    EscapeRead(d, p);
  }

  lemma PieceBack(d: seq<Byte>, p: nat, x: Piece)
    requires Terminated(d) && Proper(x) && Stands(d, p, Spelling(x)) && p + |Spelling(x)| < |d|
    ensures ReadChars(d, p) == Behind(Sense(x), ReadChars(d, p + |Spelling(x)|))
  {
    hide ReadChars, Digits, Utf8;
    match x
    case Raw(_) => PlainRead(d, p);
    case Letter(n) => LetterBack(d, p, n);
    case CodePoint(cp, upper) => CodePointBack(d, p, cp, upper);
  }

  /** Pieces and a closing quote are read as what the pieces stand for. */
  lemma {:induction false} PiecesBack(d: seq<Byte>, p: nat, xs: seq<Piece>)
    requires Terminated(d) && AllProper(xs) && Stands(d, p, SpellingAll(xs) + [34])
    ensures p + |SpellingAll(xs)| + 1 < |d|
    ensures ReadChars(d, p) == Good(SenseAll(xs), p + |SpellingAll(xs)| + 1)
    decreases |xs|
  {
    hide ReadChars, Spelling, Sense;
    if xs == [] {
      assert SpellingAll(xs) + [34] == [34];
      StringEndsAt(d, p);
    } else {
      var first, rest := Spelling(xs[0]), SpellingAll(xs[1..]) + [34];
      assert SpellingAll(xs) + [34] == first + rest;
      StandsSplit(d, p, first, rest);
      PiecesBack(d, p + |first|, xs[1..]);
      PieceBack(d, p, xs[0]);
    }
  }

  lemma StringEndsAt(d: seq<Byte>, p: nat)
    requires Terminated(d) && Stands(d, p, [34])
    ensures p + 1 < |d| && ReadChars(d, p) == Good([], p + 1)
  {
  }

  // ---------- what is read was made of pieces ----------

  lemma UnitSpelled(d: seq<Byte>, p: nat, u: int) returns (upper: seq<bool>)
    requires Terminated(d) && UnitsAt(d, p, [u])
    ensures 0 <= u < 0x1_0000 && |upper| == 4 && Stands(d, p, [92, 117] + Digits(u, upper))
  {
    TwoUnits(d, p, u, 0);
    upper := HexSpelled(d, p + 2);
    assert Stands(d, p + 1, [117]) && [92, 117][1..] == [117];
    StandsJoin(d, p, [92, 117], Digits(u, upper));
  }

  lemma CodePointSpelled(d: seq<Byte>, p: nat, cp: nat) returns (upper: seq<bool>)
    requires Terminated(d) && IsScalar(cp) && UnitsAt(d, p, Utf16(cp))
    ensures |upper| == 4 * |Utf16(cp)| && Stands(d, p, Spelling(CodePoint(cp, upper)))
  {
    hide Digits, Stands, UnitsAt;
    var units := Utf16(cp);
    if |units| == 1 {
      upper := UnitSpelled(d, p, units[0]);
    } else {
      TwoUnits(d, p, units[0], units[1]);
      var upper1 := UnitSpelled(d, p, units[0]);
      var upper2 := UnitSpelled(d, p + 6, units[1]);
      upper := upper1 + upper2;
      var first, second := [92, 117] + Digits(units[0], upper1), [92, 117] + Digits(units[1], upper2);
      assert upper[..4] == upper1 && upper[4..] == upper2;
      assert Spelling(CodePoint(cp, upper)) == first + second;
      StandsJoin(d, p, first, second);
    }
  }

  /** The first piece of what is read. */
  lemma FirstPiece(d: seq<Byte>, p: nat) returns (x: Piece)
    requires Terminated(d) && p < |d| && d[p] != 34 && ReadChars(d, p).Good?
    ensures Proper(x) && Stands(d, p, Spelling(x)) && p + |Spelling(x)| < |d|
  {
    if d[p] != 92 {
      PlainRead(d, p);
      x := Raw(d[p]);
      ByteStands(d, p);
    } else {
      EscapeRead(d, p);
      if EscapeToChar(d[p + 1]) == 117 {
        var u := UnicodeEscape(d, p);
        EscapeIff(d, p, u.cp, u.len);
        var upper := CodePointSpelled(d, p, u.cp);
        x := CodePoint(u.cp, upper);
      } else {
        var n := LetterFound(d[p + 1]);
        x := Letter(n);
        assert d[p..p + 2] == Spelling(x);
        SliceStands(d, p, Spelling(x));
      }
    }
  }

  lemma LetterFound(c: Byte) returns (n: nat)
    requires EscapeToChar(c) != 0 && EscapeToChar(c) != 117
    ensures n < |BYTES| && LETTERS[n] as int == c
  {
    n := match c
      case 34 => 0
      case 92 => 1
      case 47 => 2
      case 98 => 3
      case 102 => 4
      case 110 => 5
      case 114 => 6
      case _ => 7;
  }

  lemma {:induction false} ReadPieces(d: seq<Byte>, p: nat) returns (xs: seq<Piece>)
    requires Terminated(d) && p < |d| && ReadChars(d, p).Good?
    ensures AllProper(xs) && Stands(d, p, SpellingAll(xs) + [34])
    ensures ReadChars(d, p) == Good(SenseAll(xs), p + |SpellingAll(xs)| + 1)
    decreases |d| - p
  {
    hide Spelling, Sense, Stands;
    if d[p] == 34 {
      xs := [];
      assert SpellingAll(xs) + [34] == [34];
      ByteStands(d, p);
    } else {
      var x := FirstPiece(d, p);
      PieceBack(d, p, x);
      var rest := ReadPieces(d, p + |Spelling(x)|);
      xs := [x] + rest;
      ThenPieces(d, p, x, rest);
    }
  }

  lemma ThenPieces(d: seq<Byte>, p: nat, x: Piece, rest: seq<Piece>)
    requires Proper(x) && AllProper(rest)
    requires Stands(d, p, Spelling(x)) && Stands(d, p + |Spelling(x)|, SpellingAll(rest) + [34])
    ensures AllProper([x] + rest) && SpellingAll([x] + rest) == Spelling(x) + SpellingAll(rest)
    ensures SenseAll([x] + rest) == Sense(x) + SenseAll(rest)
    ensures Stands(d, p, SpellingAll([x] + rest) + [34])
  {
    hide Spelling, Sense, Proper, Stands;
    assert ([x] + rest)[1..] == rest;
    var a, b := Spelling(x), SpellingAll(rest) + [34];
    assert SpellingAll([x] + rest) + [34] == a + b;
    StandsJoin(d, p, a, b);
  }

  /** A string is accepted exactly if it is made of pieces, and is what they stand for; anything else, such as a
      backslash before another letter or `\u` before what is no digit, is refused. */
  lemma StringIff(d: seq<Byte>, p: nat, text: seq<Byte>, next: nat)
    requires Terminated(d) && p < |d|
    ensures ReadChars(d, p) == Good(text, next) <==>
            exists xs :: AllProper(xs) && Stands(d, p, SpellingAll(xs) + [34]) && text == SenseAll(xs) &&
                         next == p + |SpellingAll(xs)| + 1
  {
    if ReadChars(d, p) == Good(text, next) {
      var xs := ReadPieces(d, p);
    }
    forall xs | AllProper(xs) && Stands(d, p, SpellingAll(xs) + [34])
      ensures ReadChars(d, p) == Good(SenseAll(xs), p + |SpellingAll(xs)| + 1)
    {
      PiecesBack(d, p, xs);
    }
  }

  // ---------- strings that were not escaped ----------

  /** The digits of an escape are no quotes. */
  lemma NoQuoteInside(d: seq<Byte>, p: nat, e: nat)
    requires Terminated(d) && Slash(d, p) && UnicodeEscape(d, p).Code? && p < e < |d| && d[e] == 34
    ensures e >= p + UnicodeEscape(d, p).len
  {
    assert HexDigitToInt(34) == -1;
    assert e != p + 2 && e != p + 3 && e != p + 4 && e != p + 5;
  }

  /** Reading towards a quote, one either stops there with less text than there is space, or has met the quote behind
      a backslash: then there is a quote in the text, and it came early.  Behind an escape one is late by a byte. */
  lemma {:induction false} TowardsQuote(d: seq<Byte>, q: nat, e: nat) returns (i: int)
    requires Terminated(d) && q <= e < |d| && d[e] == 34 && ReadChars(d, q).Good?
    ensures var text, late := ReadChars(d, q).text, if d[q] == 92 then 1 else 0;
            if i < 0 then |text| + late <= e - q else i < |text| && text[i] == 34 && i + late <= e - q
    decreases |d| - q
  {
    hide UnicodeEscape, Utf8;
    i := -1;
    if d[q] == 92 {
      EscapeRead(d, q);
      if EscapeToChar(d[q + 1]) == 117 {
        var u := UnicodeEscape(d, q);
        NoQuoteInside(d, q, e);
        i := TowardsQuote(d, q + u.len, e);
        if i >= 0 { i := i + |Utf8(u.cp)|; }
      } else if q + 1 == e {
        i := 0;
      } else {
        i := TowardsQuote(d, q + 2, e);
        if i >= 0 { i := i + 1; }
      }
    } else if d[q] != 34 {
      PlainRead(d, q);
      i := TowardsQuote(d, q + 1, e);
      if i >= 0 { i := i + 1; }
    }
  }

  /** Where the first quote is, or the end. */
  function FirstQuote(s: seq<Byte>): (k: nat)
    ensures k <= |s| && (k < |s| ==> s[k] == 34) && forall i :: 0 <= i < k ==> s[i] != 34
  {
    if s == [] || s[0] == 34 then 0 else 1 + FirstQuote(s[1..])
  }

  lemma BackslashFirst(d: seq<Byte>, p: nat, s: seq<Byte>)
    requires Terminated(d) && Stands(d, p, s + [34]) && s != [] && s[0] == 92 && p < |d| && ReadChars(d, p).Good?
    ensures ReadChars(d, p).text != s
  {
    hide ReadChars;
    var k := FirstQuote(s);
    StandsSplit(d, p, s, [34]);
    StandsSlice(d, p, s);
    assert k < |s| ==> d[p..p + |s|][k] == d[p + k];
    assert d[p..p + |s|][0] == d[p];
    var i := TowardsQuote(d, p, p + k);
  }

  /** A text between quotes that was not escaped is read as itself, wherever the reading ends, only if nothing in it
      needs an escape. */
  lemma {:induction false} RawTextIff(d: seq<Byte>, p: nat, s: seq<Byte>)
    requires Terminated(d) && Stands(d, p, s + [34])
    ensures p < |d| && (ReadChars(d, p).Good? && ReadChars(d, p).text == s <==> Plain(s))
    decreases |s|
  {
    hide UnicodeEscape;
    RawStringIff(d, p, s);
    if s != [] && ReadChars(d, p).Good? {
      assert (s + [34])[1..] == s[1..] + [34];
      var text := ReadChars(d, p).text;
      if s[0] == 92 {
        BackslashFirst(d, p, s);
      } else if s[0] != 34 {
        PlainRead(d, p);
        RawTextIff(d, p + 1, s[1..]);
        assert text[1..] == ReadChars(d, p + 1).text;
      }
    }
  }

  // ---------- control characters ----------

  predicate IsControl(c: Byte) { c < 32 || c == 127 }

  predicate Controls(s: seq<Byte>) { exists i :: 0 <= i < |s| && IsControl(s[i]) }

  lemma ControlsJoin(a: seq<Byte>, b: seq<Byte>)
    ensures Controls(a + b) <==> Controls(a) || Controls(b)
  {
    var all := a + b;
    assert forall i :: 0 <= i < |a| ==> all[i] == a[i];
    assert forall i :: 0 <= i < |b| ==> all[|a| + i] == b[i];
    if Controls(all) {
      var i :| 0 <= i < |all| && IsControl(all[i]);
      assert if i < |a| then IsControl(a[i]) else IsControl(b[i - |a|]);
    }
    if Controls(a) {
      var i :| 0 <= i < |a| && IsControl(a[i]);
      assert IsControl(all[i]);
    }
    if Controls(b) {
      var i :| 0 <= i < |b| && IsControl(b[i]);
      assert IsControl(all[|a| + i]);
    }
  }

  lemma EscapedControls(c: Byte)
    ensures Controls(Output.Escaped(c)) <==> c == 0
    ensures !Controls(Escape(c))
  {
    if c == 0 { assert IsControl(Output.Escaped(c)[0]); }
  }

  /** The codec never writes a control character; the capture encoder only writes NUL. */
  lemma {:induction false} ControlsIff(t: seq<Byte>)
    ensures Controls(Output.EscapedAll(t)) <==> 0 in t
    ensures !Controls(EscapeAll(t))
    decreases |t|
  {
    if t != [] {
      EscapedControls(t[0]);
      ControlsIff(t[1..]);
      ControlsJoin(Output.Escaped(t[0]), Output.EscapedAll(t[1..]));
      ControlsJoin(Escape(t[0]), EscapeAll(t[1..]));
      assert t == [t[0]] + t[1..];
    }
  }
}
