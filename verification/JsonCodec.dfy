/** The JSON encoder and parser, against the texts and values of module Json. */
module JsonCodec {
  import opened Peg
  import opened Strbufs
  import opened JsonStrings
  import opened Json

  // ---------- encoding ----------

  function Separator(first: bool): seq<Byte> { if first then [] else [44] }

  lemma {:induction false} ItemsSnoc(items: seq<Value>, v: Value)
    ensures EncodedItems(items + [v]) == EncodedItems(items) + Separator(items == []) + Encoded(v)
    ensures ItemsDepth(items + [v]) == Max(ItemsDepth(items), Depth(v))
    decreases |items|
  {
    if items == [] {
      assert items + [v] == [v];
    } else {
      var rest := items[1..];
      assert (items + [v])[1..] == rest + [v];
      ItemsSnoc(rest, v);
      if rest == [] {
        assert items == [items[0]];
      } else {
        JoinedText(Encoded(items[0]) + [44], EncodedItems(rest), [44], Encoded(v));
      }
    }
  }

  lemma JoinedText(a: seq<Byte>, b: seq<Byte>, c: seq<Byte>, d: seq<Byte>)
    ensures a + (b + c + d) == a + b + c + d
  {
  }

  lemma {:induction false} ItemDepth(items: seq<Value>, i: nat)
    requires i < |items|
    ensures Depth(items[i]) <= ItemsDepth(items)
    decreases |items|
  {
    if i > 0 { ItemDepth(items[1..], i - 1); }
  }

  lemma {:induction false} MembersSnoc(ms: seq<Member>, m: Member)
    ensures EncodedMembers(ms + [m]) == EncodedMembers(ms) + Separator(ms == []) + EncodedMember(m)
    ensures MembersDepth(ms + [m]) == Max(MembersDepth(ms), Depth(m.value))
    decreases |ms|
  {
    if ms == [] {
      assert ms + [m] == [m];
    } else {
      var rest := ms[1..];
      assert (ms + [m])[1..] == rest + [m];
      MembersSnoc(rest, m);
      if rest == [] {
        assert ms == [ms[0]];
      } else {
        JoinedText(EncodedMember(ms[0]) + [44], EncodedMembers(rest), [44], EncodedMember(m));
      }
    }
  }

  lemma {:induction false} MemberDepth(ms: seq<Member>, i: nat)
    requires i < |ms|
    ensures Depth(ms[i].value) <= MembersDepth(ms)
    decreases |ms|
  {
    if i > 0 { MemberDepth(ms[1..], i - 1); }
  }

  /** Writes a value, unless tables are nested too deeply in it. */
  method AppendData(json: Strbuf, v: Value, depth: nat, max: nat) returns (ok: bool)
    requires json.Valid() && depth <= max
    modifies json, json.buf
    ensures json.Valid() && (json.buf == old(json.buf) || fresh(json.buf))
    ensures ok <==> depth + Depth(v) <= max
    ensures ok ==> json.Text() == old(json.Text()) + Encoded(v)
    decreases v, 0
  {
    ok := true;
    match v
    case JNull => json.AppendMem(NULL);
    case JBool(b) => json.AppendMem(if b then TRUE else FALSE);
    case JString(s) => AppendString(json, s);
    case JArray(items) =>
      if depth + 1 > max { return false; }
      if items != [] {
        ok := AppendArray(json, items, depth + 1, max);
      } else {
        ok := AppendObject(json, [], depth + 1, max);
      }
    case JObject(ms) =>
      if depth + 1 > max { return false; }
      ok := AppendObject(json, ms, depth + 1, max);
  }

  method AppendArray(json: Strbuf, items: seq<Value>, depth: nat, max: nat) returns (ok: bool)
    requires json.Valid() && depth <= max
    modifies json, json.buf
    ensures json.Valid() && (json.buf == old(json.buf) || fresh(json.buf))
    ensures ok <==> depth + ItemsDepth(items) <= max
    ensures ok ==> json.Text() == old(json.Text()) + ([91] + EncodedItems(items) + [93])
    decreases items, 1
  {
    json.AppendChar(91);
    ghost var was := json.Text();
    for i := 0 to |items|
      invariant json.Valid() && (json.buf == old(json.buf) || fresh(json.buf))
      invariant depth + ItemsDepth(items[..i]) <= max && json.Text() == was + EncodedItems(items[..i])
    {
      ok := AppendItem(json, items, i, depth, max, was);
      if !ok { return; }
    }
    assert items[..|items|] == items;
    json.AppendChar(93);
    JoinedText(old(json.Text()), [91], EncodedItems(items), [93]);
    ok := true;
  }

  /** One round: a comma except before the first item, and the item. */
  method AppendItem(json: Strbuf, items: seq<Value>, i: nat, depth: nat, max: nat, ghost was: seq<Byte>)
    returns (ok: bool)
    requires json.Valid() && depth <= max && i < |items|
    requires depth + ItemsDepth(items[..i]) <= max && json.Text() == was + EncodedItems(items[..i])
    modifies json, json.buf
    ensures json.Valid() && (json.buf == old(json.buf) || fresh(json.buf))
    ensures ok ==> depth + ItemsDepth(items[..i + 1]) <= max && json.Text() == was + EncodedItems(items[..i + 1])
    ensures !ok ==> depth + ItemsDepth(items) > max
    decreases items, 0
  {
    assert items[..i + 1] == items[..i] + [items[i]];
    ItemsSnoc(items[..i], items[i]);
    ItemDepth(items, i);
    ghost var text := EncodedItems(items[..i]);
    if i > 0 { json.AppendChar(44); }
    assert json.Text() == was + text + Separator(i == 0);
    ok := AppendData(json, items[i], depth, max);
    JoinedText(was, text, Separator(i == 0), Encoded(items[i]));
  }

  method AppendObject(json: Strbuf, ms: seq<Member>, depth: nat, max: nat) returns (ok: bool)
    requires json.Valid() && depth <= max
    modifies json, json.buf
    ensures json.Valid() && (json.buf == old(json.buf) || fresh(json.buf))
    ensures ok <==> depth + MembersDepth(ms) <= max
    ensures ok ==> json.Text() == old(json.Text()) + ([123] + EncodedMembers(ms) + [125])
    decreases ms, 1
  {
    json.AppendChar(123);
    ghost var was := json.Text();
    for i := 0 to |ms|
      invariant json.Valid() && (json.buf == old(json.buf) || fresh(json.buf))
      invariant depth + MembersDepth(ms[..i]) <= max && json.Text() == was + EncodedMembers(ms[..i])
    {
      ok := AppendMember(json, ms, i, depth, max, was);
      if !ok { return; }
    }
    assert ms[..|ms|] == ms;
    json.AppendChar(125);
    JoinedText(old(json.Text()), [123], EncodedMembers(ms), [125]);
    ok := true;
  }

  method AppendMember(json: Strbuf, ms: seq<Member>, i: nat, depth: nat, max: nat, ghost was: seq<Byte>)
    returns (ok: bool)
    requires json.Valid() && depth <= max && i < |ms|
    requires depth + MembersDepth(ms[..i]) <= max && json.Text() == was + EncodedMembers(ms[..i])
    modifies json, json.buf
    ensures json.Valid() && (json.buf == old(json.buf) || fresh(json.buf))
    ensures ok ==> depth + MembersDepth(ms[..i + 1]) <= max && json.Text() == was + EncodedMembers(ms[..i + 1])
    ensures !ok ==> depth + MembersDepth(ms) > max
    decreases ms, 0
  {
    assert ms[..i + 1] == ms[..i] + [ms[i]];
    MembersSnoc(ms[..i], ms[i]);
    MemberDepth(ms, i);
    ghost var text := EncodedMembers(ms[..i]);
    if i > 0 { json.AppendChar(44); }
    assert json.Text() == was + text + Separator(i == 0);
    ok := AppendOne(json, ms[i], depth, max);
    JoinedText(was, text, Separator(i == 0), EncodedMember(ms[i]));
  }

  method AppendOne(json: Strbuf, m: Member, depth: nat, max: nat) returns (ok: bool)
    requires json.Valid() && depth <= max
    modifies json, json.buf
    ensures json.Valid() && (json.buf == old(json.buf) || fresh(json.buf))
    ensures ok <==> depth + Depth(m.value) <= max
    ensures ok ==> json.Text() == old(json.Text()) + EncodedMember(m)
    decreases m
  {
    AppendString(json, m.key);
    json.AppendChar(58);
    ok := AppendData(json, m.value, depth, max);
    assert EncodedMember(m) == JsonString(m.key) + [58] + Encoded(m.value);
  }

  /** The text of a value, in an emptied string. */
  method Encode(json: Strbuf, v: Value, max: nat) returns (ok: bool)
    requires json.Valid()
    modifies json, json.buf
    ensures json.Valid() && (json.buf == old(json.buf) || fresh(json.buf))
    ensures ok <==> Depth(v) <= max
    ensures ok ==> json.Text() == Encoded(v)
  {
    json.Reset();
    ok := AppendData(json, v, 0, max);
  }

  // ---------- decoding ----------

  class Parser {
    const data: seq<Byte>
    const tmp: Strbuf
    const maxDepth: nat
    var ptr: nat
    var depth: nat

    /** A text is never longer than the room for strings. */
    ghost predicate Valid()
      reads this, tmp
    {
      Terminated(data) && ptr < |data| && tmp.Valid() && tmp.buf.Length >= |data|
    }

    constructor (text: seq<Byte>, maxDepth: nat)
      ensures Valid() && fresh(tmp) && fresh(tmp.buf)
      ensures data == text + [0] && ptr == 0 && depth == 0 && this.maxDepth == maxDepth
    {
      data := text + [0];
      tmp := new Strbuf(|text|);
      this.maxDepth := maxDepth;
      ptr, depth := 0, 0;
    }

    method DecodeHex4(p: nat) returns (r: int)
      requires Terminated(data) && p < |data|
      ensures r == Hex4(data, p)
    {
      var digit := new int[4];
      for i := 0 to 4
        invariant p + i < |data|
        invariant forall j :: 0 <= j < i ==> digit[j] == HexDigitToInt(data[p + j]) >= 0
        modifies digit
      {
        digit[i] := HexDigitToInt(data[p + i]);
        if digit[i] < 0 { return -1; }
      }
      r := digit[0] * 4096 + digit[1] * 256 + digit[2] * 16 + digit[3];
    }

    /** Appends the bytes of an escaped code point, without looking for room. */
    method AppendUnicodeEscape() returns (ok: bool)
      requires Valid() && Slash(data, ptr) && tmp.length < ptr
      modifies this`ptr, tmp, tmp.buf
      ensures Valid() && tmp.buf == old(tmp.buf) && tmp.length < ptr
      ensures ok <==> UnicodeEscape(data, old(ptr)).Code?
      ensures ptr == old(ptr) + if ok then UnicodeEscape(data, old(ptr)).len else 0
      ensures ok ==> tmp.Text() == old(tmp.Text()) + Utf8(UnicodeEscape(data, old(ptr)).cp)
    {
      hide Utf8, Hex4;
      var escapeLen := 6;
      var codepoint := DecodeHex4(ptr + 2);
      if codepoint < 0 { return false; }
      if codepoint / 0x800 == 0x1B {
        if codepoint / 0x400 % 2 == 1 { return false; }
        if data[ptr + 6] != 92 || data[ptr + 7] != 117 { return false; }
        var low := DecodeHex4(ptr + 8);
        if low < 0 { return false; }
        if low / 0x400 != 0x37 { return false; }
        codepoint := codepoint % 0x400 * 0x400 + low % 0x400 + 0x1_0000;
        escapeLen := 12;
      }
      var utf8 := Utf8(codepoint);
      if utf8 == [] { return false; }
      tmp.AppendMemUnsafe(utf8);
      ptr := ptr + escapeLen;
      ok := true;
    }

    /** Reads a string into the room set aside for it; an error leaves the position where it was met. */
    method NextString() returns (r: Chars)
      requires Valid() && data[ptr] == 34
      modifies this`ptr, tmp, tmp.buf
      ensures Valid() && tmp.buf == old(tmp.buf)
      ensures r == ReadChars(data, old(ptr) + 1)
      ensures ptr == if r.Good? then r.next else r.at
    {
      ptr := ptr + 1;
      tmp.Reset();
      while data[ptr] != 34
        invariant Valid() && tmp.buf == old(tmp.buf) && tmp.length < ptr
        invariant ReadChars(data, old(ptr) + 1) == Behind(tmp.Text(), ReadChars(data, ptr))
        decreases |data| - ptr
      {
        var error := NextChar(old(ptr) + 1);
        if error.BadString? { return error; }
      }
      ptr := ptr + 1;
      tmp.EnsureNull();
      r := Good(tmp.buf[..tmp.length], ptr);
    }

    /** One round: a byte, or an escape. */
    method NextChar(ghost start: nat) returns (error: Chars)
      requires Valid() && data[ptr] != 34 && tmp.length < ptr && start < |data|
      requires ReadChars(data, start) == Behind(tmp.Text(), ReadChars(data, ptr))
      modifies this`ptr, tmp, tmp.buf
      ensures Valid() && tmp.buf == old(tmp.buf) && tmp.length < ptr
      ensures error.BadString? ==> ReadChars(data, start) == error && ptr == error.at
      ensures error.Good? ==> ReadChars(data, start) == Behind(tmp.Text(), ReadChars(data, ptr)) && ptr > old(ptr)
    {
      hide ReadChars, UnicodeEscape, Utf8;
      ghost var text, p := tmp.Text(), ptr;
      error := Good([], 0);
      var ch := data[ptr];
      if ch == 0 {
        PlainRead(data, p);
        return BadString(UnexpectedEnd, ptr);
      }
      if ch == 92 {
        EscapeRead(data, p);
        ch := EscapeToChar(data[ptr + 1]);
        if ch == 117 {
          ghost var u := UnicodeEscape(data, p);
          var ok := AppendUnicodeEscape();
          if !ok { return BadString(InvalidUnicode, ptr); }
          BehindTwice(text, Utf8(u.cp), ReadChars(data, p + u.len));
          return;
        }
        if ch == 0 { return BadString(InvalidEscape, ptr); }
        BehindTwice(text, [ch], ReadChars(data, p + 2));
        ptr := ptr + 1;
      } else {
        PlainRead(data, p);
        BehindTwice(text, [ch], ReadChars(data, p + 1));
      }
      tmp.AppendCharUnsafe(ch);
      ptr := ptr + 1;
    }

    method NextToken() returns (t: Lexed)
      requires Valid()
      modifies this`ptr, tmp, tmp.buf
      ensures Valid() && tmp.buf == old(tmp.buf)
      ensures t == Lex(data, old(ptr)) && ptr == t.next
    {
      while data[ptr] in {32, 9, 10, 13}
        invariant Valid() && Lex(data, ptr) == Lex(data, old(ptr))
        decreases |data| - ptr
        modifies this`ptr
      {
        ptr := ptr + 1;
      }
      var index, ch := ptr, data[ptr];
      if ch == 0 { return Lexed(End, index, ptr); }
      if ch in {123, 125, 91, 93, 44, 58} {
        ptr := ptr + 1;
        return Lexed(SingleToken(ch), index, ptr);
      }
      if ch == 34 {
        var r := NextString();
        return if r.Good? then Lexed(Text(r.text), index, ptr) else Lexed(Bad, ptr, ptr);
      }
      t := Word(data, index);
      ptr := t.next;
    }

    /** The value whose first token has just been read, from p on. */
    method ProcessValue(t: Lexed, ghost p: nat) returns (r: Parsed)
      requires Valid() && p < |data| && t == Lex(data, p) && ptr == t.next
      modifies this`ptr, this`depth, tmp, tmp.buf
      ensures Valid() && tmp.buf == old(tmp.buf)
      ensures r == ParseValue(data, p, old(depth), maxDepth)
      ensures r.Parsed? ==> ptr == r.next && depth == old(depth)
      decreases |data| - p, 0
    {
      match t.tok
      case Text(s) => return Parsed(JString(s), ptr);
      case Number => return Fails(NumberMet);
      case Boolean(b) => return Parsed(JBool(b), ptr);
      case ObjBegin => r := ParseObjectContext();
      case ArrBegin => r := ParseArrayContext();
      case Null => return Parsed(JNull, ptr);
      case _ => return Fails(Syntax(ValueHere, t.index));
    }

    method ParseArrayContext() returns (r: Parsed)
      requires Valid()
      modifies this`ptr, this`depth, tmp, tmp.buf
      ensures Valid() && tmp.buf == old(tmp.buf)
      ensures r == ParseArray(data, old(ptr), old(depth) + 1, maxDepth)
      ensures r.Parsed? ==> ptr == r.next && depth == old(depth)
      decreases |data| - ptr, 2
    {
      depth := depth + 1;
      if depth > maxDepth { return Fails(TooDeep(depth, ptr)); }
      ghost var p := ptr;
      var t := NextToken();
      if t.tok.ArrEnd? {
        depth := depth - 1;
        return Parsed(JObject([]), ptr);
      }
      var items := [];
      while true
        invariant Valid() && tmp.buf == old(tmp.buf) && depth == old(depth) + 1
        invariant old(ptr) <= p < |data| && t == Lex(data, p) && ptr == t.next
        invariant ParseItems(data, old(ptr), depth, maxDepth, []) == ParseItems(data, p, depth, maxDepth, items)
        decreases |data| - p
      {
        var item := ProcessValue(t, p);
        if item.Fails? { return item; }
        items := items + [item.v];
        t := NextToken();
        if t.tok.ArrEnd? {
          depth := depth - 1;
          return Parsed(JArray(items), ptr);
        }
        if !t.tok.Comma? { return Fails(Syntax(ArraySep, t.index)); }
        p := ptr;
        t := NextToken();
      }
    }

    method ParseObjectContext() returns (r: Parsed)
      requires Valid()
      modifies this`ptr, this`depth, tmp, tmp.buf
      ensures Valid() && tmp.buf == old(tmp.buf)
      ensures r == ParseObject(data, old(ptr), old(depth) + 1, maxDepth)
      ensures r.Parsed? ==> ptr == r.next && depth == old(depth)
      decreases |data| - ptr, 2
    {
      hide ParseMembers, Lex, Put;
      depth := depth + 1;
      if depth > maxDepth { return Fails(TooDeep(depth, ptr)); }
      ghost var p := ptr;
      var t := NextToken();
      if t.tok.ObjEnd? {
        depth := depth - 1;
        return Parsed(JObject([]), ptr);
      }
      var members := [];
      while true
        invariant Valid() && tmp.buf == old(tmp.buf) && depth == old(depth) + 1
        invariant old(ptr) <= p < |data| && t == Lex(data, p) && ptr == t.next
        invariant ParseMembers(data, old(ptr), depth, maxDepth, []) == ParseMembers(data, p, depth, maxDepth, members)
        decreases |data| - p
      {
        var key, value := ParseMember(t, p, members);
        if value.Fails? { return value; }
        members := Put(members, key, value.v);
        t := NextToken();
        if t.tok.ObjEnd? {
          depth := depth - 1;
          return Parsed(JObject(members), ptr);
        }
        if !t.tok.Comma? { return Fails(Syntax(ObjectSep, t.index)); }
        p := ptr;
        t := NextToken();
      }
    }

    /** A key, a colon and a value. */
    method ParseMember(t: Lexed, ghost p: nat, ghost acc: seq<Member>) returns (key: seq<Byte>, value: Parsed)
      requires Valid() && p < |data| && t == Lex(data, p) && ptr == t.next
      modifies this`ptr, this`depth, tmp, tmp.buf
      ensures Valid() && tmp.buf == old(tmp.buf)
      ensures value.Fails? ==> ParseMembers(data, p, old(depth), maxDepth, acc) == value
      ensures value.Parsed? ==> ptr == value.next > p && depth == old(depth)
      ensures value.Parsed? ==> ParseMembers(data, p, depth, maxDepth, acc) ==
                                AfterMember(data, ptr, depth, maxDepth, Put(acc, key, value.v))
      decreases |data| - p, 1
    {
      key, value := [], Fails(NumberMet);
      if !t.tok.Text? { return key, Fails(Syntax(KeyHere, t.index)); }
      key := t.tok.s;
      var c := NextToken();
      if !c.tok.Colon? { return key, Fails(Syntax(ColonHere, c.index)); }
      ghost var q := ptr;
      var u := NextToken();
      value := ProcessValue(u, q);
    }
  }

  method Decode(text: seq<Byte>, max: nat) returns (r: Parsed)
    ensures r == Decoded(text, max)
  {
    if |text| >= 2 && (text[0] == 0 || text[1] == 0) { return Fails(Wide); }
    var json := new Parser(text, max);
    var t := json.NextToken();
    r := json.ProcessValue(t, 0);
    if r.Parsed? {
      t := json.NextToken();
      if !t.tok.End? { return Fails(Syntax(EndHere, t.index)); }
      r := Parsed(r.v, json.ptr);
    }
  }

  /** What is encoded in one place is decoded in another, exactly if both allow the nesting. */
  method Transfer(v: Value, encodeMax: nat, decodeMax: nat) returns (r: Parsed)
    requires IsLua(v) && Depth(v) <= encodeMax
    ensures Depth(v) <= decodeMax <==> r == Parsed(v, |Encoded(v)|)
  {
    var json := new Strbuf(0);
    var ok := Encode(json, v, encodeMax);
    RoundTrip(v, decodeMax, []);
    r := Decode(json.buf[..json.length], decodeMax);
  }
}
