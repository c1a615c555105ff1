/** JSON texts of Lua values: what the encoder writes, and what the parser reads. */
module Json {
  import opened Peg
  import opened Buffers
  import opened JsonStrings

  /** A table is an array, or has keys, in the order in which they are visited; the empty table has no keys. */
  datatype Value =
    | JNull
    | JBool(b: bool)
    | JString(s: seq<Byte>)
    | JArray(items: seq<Value>)
    | JObject(members: seq<Member>)

  datatype Member = Member(key: seq<Byte>, value: Value)

  predicate HasMember(ms: seq<Member>, key: seq<Byte>) {
    ms != [] && (ms[0].key == key || HasMember(ms[1..], key))
  }

  /** The value is one that Lua has: no array is empty, and no key occurs twice. */
  predicate IsLua(v: Value)
    decreases v
  {
    match v
    case JArray(items) => items != [] && AllLua(items)
    case JObject(ms) => MembersLua(ms)
    case _ => true
  }

  predicate AllLua(items: seq<Value>)
    decreases items
  {
    items == [] || (IsLua(items[0]) && AllLua(items[1..]))
  }

  predicate MembersLua(ms: seq<Member>)
    decreases ms
  {
    ms == [] || (IsLua(ms[0].value) && !HasMember(ms[1..], ms[0].key) && MembersLua(ms[1..]))
  }

  /** How deep tables are nested. */
  function Depth(v: Value): nat
    decreases v
  {
    match v
    case JArray(items) => 1 + ItemsDepth(items)
    case JObject(ms) => 1 + MembersDepth(ms)
    case _ => 0
  }

  function Max(a: nat, b: nat): nat { if a < b then b else a }

  function ItemsDepth(items: seq<Value>): nat
    decreases items
  {
    if items == [] then 0 else Max(Depth(items[0]), ItemsDepth(items[1..]))
  }

  function MembersDepth(ms: seq<Member>): nat
    decreases ms
  {
    if ms == [] then 0 else Max(Depth(ms[0].value), MembersDepth(ms[1..]))
  }

  // ---------- what is written ----------

  const NULL: seq<Byte> := [110, 117, 108, 108]
  const TRUE: seq<Byte> := [116, 114, 117, 101]
  const FALSE: seq<Byte> := [102, 97, 108, 115, 101]

  function Encoded(v: Value): (r: seq<Byte>)
    ensures r != []
    decreases v
  {
    match v
    case JNull => NULL
    case JBool(b) => if b then TRUE else FALSE
    case JString(s) => JsonString(s)
    case JArray(items) => if items == [] then [123, 125] else [91] + EncodedItems(items) + [93]
    case JObject(ms) => [123] + EncodedMembers(ms) + [125]
  }

  function EncodedItems(items: seq<Value>): seq<Byte>
    decreases items
  {
    if items == [] then []
    else if |items| == 1 then Encoded(items[0])
    else Encoded(items[0]) + [44] + EncodedItems(items[1..])
  }

  function EncodedMember(m: Member): seq<Byte>
    decreases m
  {
    JsonString(m.key) + [58] + Encoded(m.value)
  }

  function EncodedMembers(ms: seq<Member>): seq<Byte>
    decreases ms
  {
    if ms == [] then []
    else if |ms| == 1 then EncodedMember(ms[0])
    else EncodedMember(ms[0]) + [44] + EncodedMembers(ms[1..])
  }

  // ---------- tokens ----------

  datatype Token =
    | ObjBegin | ObjEnd | ArrBegin | ArrEnd | Colon | Comma
    | Text(s: seq<Byte>) | Number | Boolean(b: bool) | Null | End | Bad

  /** A token, where it stands, and where the next one may; an error stays where it was met. */
  datatype Lexed = Lexed(tok: Token, index: nat, next: nat)

  predicate IsLetterOf(c: Byte, lower: Byte) { c == lower || c == lower - 32 }

  /** What an unknown number may begin with, besides a digit or a minus sign. */
  predicate IsInvalidNumber(d: seq<Byte>, p: nat)
    requires Terminated(d) && p < |d|
  {
    d[p] == 43 ||
    (p + 2 < |d| && IsLetterOf(d[p], 105) && IsLetterOf(d[p + 1], 110) && IsLetterOf(d[p + 2], 102)) ||
    (p + 2 < |d| && IsLetterOf(d[p], 110) && IsLetterOf(d[p + 1], 97) && IsLetterOf(d[p + 2], 110))
  }

  function Word(d: seq<Byte>, p: nat): (r: Lexed)
    requires Terminated(d) && p < |d|
    ensures p == r.index <= r.next < |d|
    ensures r.tok.Boolean? || r.tok.Null? ==> r.next > p
  {
    if d[p] == 45 || 48 <= d[p] <= 57 then Lexed(Number, p, p)
    else if Stands(d, p, TRUE) then Lexed(Boolean(true), p, (StandsSlice(d, p, TRUE); WordEnds(d, p, TRUE); p + 4))
    else if Stands(d, p, FALSE) then
      Lexed(Boolean(false), p, (StandsSlice(d, p, FALSE); WordEnds(d, p, FALSE); p + 5))
    else if Stands(d, p, NULL) then Lexed(Null, p, (StandsSlice(d, p, NULL); WordEnds(d, p, NULL); p + 4))
    else if IsInvalidNumber(d, p) then Lexed(Number, p, p)
    else Lexed(Bad, p, p)
  }

  /** A word without a NUL ends before the end of the text. */
  lemma WordEnds(d: seq<Byte>, p: nat, word: seq<Byte>)
    requires Terminated(d) && Stands(d, p, word) && word != [] && word[|word| - 1] != 0
    ensures p + |word| < |d|
  {
    StandsSlice(d, p, word);
    assert d[p + |word| - 1] == d[p..p + |word|][|word| - 1];
  }

  function SingleToken(c: Byte): Token {
    match c
    case 123 => ObjBegin
    case 125 => ObjEnd
    case 91 => ArrBegin
    case 93 => ArrEnd
    case 44 => Comma
    case _ => Colon
  }

  function Lex(d: seq<Byte>, p: nat): (r: Lexed)
    requires Terminated(d) && p < |d|
    ensures p <= r.index < |d| && p <= r.next < |d|
    ensures !r.tok.End? && !r.tok.Bad? && !r.tok.Number? ==> r.next > p
    decreases |d| - p
  {
    match d[p]
    case 32 => Lex(d, p + 1)
    case 9 => Lex(d, p + 1)
    case 10 => Lex(d, p + 1)
    case 13 => Lex(d, p + 1)
    case 123 => Lexed(ObjBegin, p, p + 1)
    case 125 => Lexed(ObjEnd, p, p + 1)
    case 91 => Lexed(ArrBegin, p, p + 1)
    case 93 => Lexed(ArrEnd, p, p + 1)
    case 44 => Lexed(Comma, p, p + 1)
    case 58 => Lexed(Colon, p, p + 1)
    case 0 => Lexed(End, p, p)
    case 34 =>
      var r := ReadChars(d, p + 1);
      if r.Good? then Lexed(Text(r.text), p, r.next) else Lexed(Bad, r.at, r.at)
    case _ => Word(d, p)
  }

  // ---------- values ----------

  datatype Expected = ValueHere | KeyHere | ColonHere | ObjectSep | ArraySep | EndHere

  datatype Failure = NumberMet | Syntax(exp: Expected, index: nat) | TooDeep(depth: nat, index: nat) | Wide

  datatype Parsed = Parsed(v: Value, next: nat) | Fails(why: Failure)

  /** Sets a key, whose last value counts. */
  function Put(ms: seq<Member>, key: seq<Byte>, v: Value): seq<Member> {
    if ms == [] then [Member(key, v)]
    else if ms[0].key == key then [Member(key, v)] + ms[1..]
    else [ms[0]] + Put(ms[1..], key, v)
  }

  /** The value whose first token is the next one from p on. */
  function ParseValue(d: seq<Byte>, p: nat, depth: nat, max: nat): (r: Parsed)
    requires Terminated(d) && p < |d|
    ensures r.Parsed? ==> p <= r.next < |d|
    decreases |d| - p, 0
  {
    var t := Lex(d, p);
    match t.tok
    case Text(s) => Parsed(JString(s), t.next)
    case Boolean(b) => Parsed(JBool(b), t.next)
    case Null => Parsed(JNull, t.next)
    case Number => Fails(NumberMet)
    case ObjBegin => ParseObject(d, t.next, depth + 1, max)
    case ArrBegin => ParseArray(d, t.next, depth + 1, max)
    case _ => Fails(Syntax(ValueHere, t.index))
  }

  /** An array behind its bracket; the empty one is the empty table. */
  function ParseArray(d: seq<Byte>, p: nat, depth: nat, max: nat): (r: Parsed)
    requires Terminated(d) && p < |d|
    ensures r.Parsed? ==> p <= r.next < |d|
    decreases |d| - p, 2
  {
    if depth > max then Fails(TooDeep(depth, p))
    else
      var t := Lex(d, p);
      if t.tok.ArrEnd? then Parsed(JObject([]), t.next) else ParseItems(d, p, depth, max, [])
  }

  function ParseObject(d: seq<Byte>, p: nat, depth: nat, max: nat): (r: Parsed)
    requires Terminated(d) && p < |d|
    ensures r.Parsed? ==> p <= r.next < |d|
    decreases |d| - p, 2
  {
    if depth > max then Fails(TooDeep(depth, p))
    else
      var t := Lex(d, p);
      if t.tok.ObjEnd? then Parsed(JObject([]), t.next) else ParseMembers(d, p, depth, max, [])
  }

  /** The rest of an array, behind the items so far. */
  function ParseItems(d: seq<Byte>, p: nat, depth: nat, max: nat, acc: seq<Value>): (r: Parsed)
    requires Terminated(d) && p < |d|
    ensures r.Parsed? ==> p <= r.next < |d|
    decreases |d| - p, 1
  {
    match ParseValue(d, p, depth, max)
    case Fails(why) => Fails(why)
    case Parsed(v, next) => AfterItem(d, next, depth, max, acc + [v])
  }

  function AfterItem(d: seq<Byte>, p: nat, depth: nat, max: nat, acc: seq<Value>): (r: Parsed)
    requires Terminated(d) && p < |d|
    ensures r.Parsed? ==> p <= r.next < |d|
    decreases |d| - p, 0
  {
    var w := Lex(d, p);
    match w.tok
    case ArrEnd => Parsed(JArray(acc), w.next)
    case Comma => ParseItems(d, w.next, depth, max, acc)
    case _ => Fails(Syntax(ArraySep, w.index))
  }

  /** The rest of an object, behind the members so far. */
  function ParseMembers(d: seq<Byte>, p: nat, depth: nat, max: nat, acc: seq<Member>): (r: Parsed)
    requires Terminated(d) && p < |d|
    ensures r.Parsed? ==> p <= r.next < |d|
    decreases |d| - p, 1
  {
    var t := Lex(d, p);
    if !t.tok.Text? then Fails(Syntax(KeyHere, t.index)) else
    var c := Lex(d, t.next);
    if !c.tok.Colon? then Fails(Syntax(ColonHere, c.index)) else
    match ParseValue(d, c.next, depth, max)
    case Fails(why) => Fails(why)
    case Parsed(v, next) => AfterMember(d, next, depth, max, Put(acc, t.tok.s, v))
  }

  function AfterMember(d: seq<Byte>, p: nat, depth: nat, max: nat, acc: seq<Member>): (r: Parsed)
    requires Terminated(d) && p < |d|
    ensures r.Parsed? ==> p <= r.next < |d|
    decreases |d| - p, 0
  {
    var w := Lex(d, p);
    match w.tok
    case ObjEnd => Parsed(JObject(acc), w.next)
    case Comma => ParseMembers(d, w.next, depth, max, acc)
    case _ => Fails(Syntax(ObjectSep, w.index))
  }

  /** A text of one value; a text whose first or second byte is a NUL is taken for UTF-16 or UTF-32. */
  function Decoded(text: seq<Byte>, max: nat): Parsed {
    if |text| >= 2 && (text[0] == 0 || text[1] == 0) then Fails(Wide)
    else
      var d := text + [0];
      match ParseValue(d, 0, 0, max)
      case Fails(why) => Fails(why)
      case Parsed(v, next) =>
        var w := Lex(d, next);
        if w.tok.End? then Parsed(v, w.next) else Fails(Syntax(EndHere, w.index))
  }

  // ---------- the round trip ----------

  lemma StandsOne(d: seq<Byte>, p: nat, c: Byte)
    requires Stands(d, p, [c])
    ensures p < |d| && d[p] == c
  {
  }

  lemma StandsThree(d: seq<Byte>, p: nat, a: Byte, x: seq<Byte>, b: Byte)
    requires Stands(d, p, [a] + x + [b])
    ensures p + 1 + |x| < |d| && d[p] == a && Stands(d, p + 1, x + [b])
    ensures Stands(d, p + 1, x) && d[p + 1 + |x|] == b
  {
    assert [a] + x + [b] == [a] + (x + [b]);
    StandsSplit(d, p, [a], x + [b]);
    StandsSplit(d, p + 1, x, [b]);
  }

  lemma StandsLink(d: seq<Byte>, p: nat, x: seq<Byte>, c: Byte, rest: seq<Byte>)
    requires Stands(d, p, x + [c] + rest)
    ensures Stands(d, p, x) && p + |x| < |d| && d[p + |x|] == c && Stands(d, p + |x| + 1, rest)
  {
    StandsSplit3(d, p, x, [c], rest);
    StandsOne(d, p + |x|, c);
  }

  /** A written string is one token. */
  lemma LexString(d: seq<Byte>, p: nat, s: seq<Byte>)
    requires Terminated(d) && Stands(d, p, JsonString(s))
    ensures p + |JsonString(s)| < |d| && Lex(d, p) == Lexed(Text(s), p, p + |JsonString(s)|)
  {
    hide EscapeAll, ReadChars;
    StandsThree(d, p, 34, EscapeAll(s), 34);
    StringRoundTrip(d, p + 1, s);
  }

  lemma LexWord(d: seq<Byte>, p: nat, word: seq<Byte>)
    requires Terminated(d) && Stands(d, p, word) && word in [NULL, TRUE, FALSE]
    ensures p + |word| < |d|
    ensures Lex(d, p) == Lexed(if word == NULL then Null else Boolean(word == TRUE), p, p + |word|)
  {
    WordEnds(d, p, word);
  }

  /** No written value begins like the end of a table. */
  lemma LexValue(d: seq<Byte>, p: nat, v: Value)
    requires Terminated(d) && Stands(d, p, Encoded(v)) && IsLua(v)
    ensures p + |Encoded(v)| < |d|
    ensures Lex(d, p).tok != ArrEnd
  {
    match v
    case JString(s) => LexString(d, p, s);
    case JArray(items) => StandsThree(d, p, 91, EncodedItems(items), 93); WordEnds(d, p, Encoded(v));
    case JObject(ms) => StandsThree(d, p, 123, EncodedMembers(ms), 125); WordEnds(d, p, Encoded(v));
    case _ => LexWord(d, p, Encoded(v));
  }

  /** Every value whose nesting is allowed is read back, and only those. */
  lemma {:induction false} ValueBack(d: seq<Byte>, p: nat, v: Value, depth: nat, max: nat)
    requires Terminated(d) && Stands(d, p, Encoded(v)) && IsLua(v) && depth <= max
    ensures p + |Encoded(v)| < |d|
    ensures depth + Depth(v) <= max ==> ParseValue(d, p, depth, max) == Parsed(v, p + |Encoded(v)|)
    ensures depth + Depth(v) > max ==> ParseValue(d, p, depth, max).Fails?
    decreases v, 0
  {
    match v
    case JString(s) => LexString(d, p, s);
    case JArray(items) => ArrayBack(d, p, items, depth, max);
    case JObject(ms) => ObjectBack(d, p, ms, depth, max);
    case _ => LexWord(d, p, Encoded(v));
  }

  lemma {:induction false} ArrayBack(d: seq<Byte>, p: nat, items: seq<Value>, depth: nat, max: nat)
    requires Terminated(d) && Stands(d, p, [91] + EncodedItems(items) + [93]) && items != [] && AllLua(items)
    requires depth <= max
    ensures p + |EncodedItems(items)| + 2 < |d|
    ensures depth + 1 + ItemsDepth(items) <= max ==>
            ParseValue(d, p, depth, max) == Parsed(JArray(items), p + |EncodedItems(items)| + 2)
    ensures depth + 1 + ItemsDepth(items) > max ==> ParseValue(d, p, depth, max).Fails?
    decreases items, 1
  {
    hide ParseItems, EncodedItems, AllLua, ItemsDepth;
    StandsThree(d, p, 91, EncodedItems(items), 93);
    WordEnds(d, p, [91] + EncodedItems(items) + [93]);
    if depth < max {
      ItemsBack(d, p + 1, items, depth + 1, max, []);
      assert [] + items == items;
    }
  }

  /** A brace opens an object: it is closed at once, or members follow, if the nesting allows. */
  lemma OpensObject(d: seq<Byte>, p: nat, depth: nat, max: nat)
    requires Terminated(d) && p + 1 < |d| && d[p] == 123
    ensures depth >= max ==> ParseValue(d, p, depth, max).Fails?
    ensures depth < max && d[p + 1] == 125 ==> ParseValue(d, p, depth, max) == Parsed(JObject([]), p + 2)
    ensures depth < max && Lex(d, p + 1).tok != ObjEnd ==>
              ParseValue(d, p, depth, max) == ParseMembers(d, p + 1, depth + 1, max, [])
  {
    hide ParseMembers;
  }

  lemma {:induction false} ObjectBack(d: seq<Byte>, p: nat, ms: seq<Member>, depth: nat, max: nat)
    requires Terminated(d) && Stands(d, p, [123] + EncodedMembers(ms) + [125]) && MembersLua(ms)
    requires depth <= max
    ensures p + |EncodedMembers(ms)| + 2 < |d|
    ensures depth + 1 + MembersDepth(ms) <= max ==>
            ParseValue(d, p, depth, max) == Parsed(JObject(ms), p + |EncodedMembers(ms)| + 2)
    ensures depth + 1 + MembersDepth(ms) > max ==> ParseValue(d, p, depth, max).Fails?
    decreases ms, 1
  {
    hide ParseMembers, ParseValue, Lex, Stands, MembersLua, EncodedMember, Depth;
    StandsThree(d, p, 123, EncodedMembers(ms), 125);
    WordEnds(d, p, [123] + EncodedMembers(ms) + [125]);
    OpensObject(d, p, depth, max);
    if depth < max && ms != [] {
      NoneYet(ms);
      MembersBack(d, p + 1, ms, depth + 1, max, [], ms, p + |EncodedMembers(ms)| + 2,
                  ParseMembers(d, p + 1, depth + 1, max, []));
    }
  }

  lemma {:induction false} ItemsBack(d: seq<Byte>, p: nat, items: seq<Value>, depth: nat, max: nat, acc: seq<Value>)
    requires Terminated(d) && Stands(d, p, EncodedItems(items) + [93]) && items != [] && AllLua(items) && depth <= max
    ensures p + |EncodedItems(items)| + 1 < |d| && Lex(d, p).tok != ArrEnd
    ensures depth + ItemsDepth(items) <= max ==>
            ParseItems(d, p, depth, max, acc) == Parsed(JArray(acc + items), p + |EncodedItems(items)| + 1)
    ensures depth + ItemsDepth(items) > max ==> ParseItems(d, p, depth, max, acc).Fails?
    decreases items, 0
  {
    hide ParseItems, AfterItem, ParseValue, Lex, Encoded, Depth, IsLua, Stands;
    var v, q := items[0], p + |Encoded(items[0])|;
    if |items| == 1 {
      assert items == [v] && items[1..] == [];
      assert EncodedItems(items) + [93] == Encoded(v) + [93] + [];
      StandsLink(d, p, Encoded(v), 93, []);
      ItemBack(d, p, v, depth, max, acc);
      AfterItemEnd(d, q, depth, max, acc + [v]);
    } else {
      var rest := EncodedItems(items[1..]) + [93];
      assert EncodedItems(items) + [93] == Encoded(v) + [44] + rest;
      StandsLink(d, p, Encoded(v), 44, rest);
      ItemBack(d, p, v, depth, max, acc);
      ItemsBack(d, q + 1, items[1..], depth, max, acc + [v]);
      AfterItemComma(d, q, depth, max, acc + [v]);
      assert acc + [v] + items[1..] == acc + items;
    }
  }

  lemma AfterItemEnd(d: seq<Byte>, p: nat, depth: nat, max: nat, acc: seq<Value>)
    requires Terminated(d) && p < |d| && d[p] == 93
    ensures p + 1 < |d| && AfterItem(d, p, depth, max, acc) == Parsed(JArray(acc), p + 1)
  {
  }

  lemma AfterItemComma(d: seq<Byte>, p: nat, depth: nat, max: nat, acc: seq<Value>)
    requires Terminated(d) && p < |d| && d[p] == 44
    ensures p + 1 < |d| && AfterItem(d, p, depth, max, acc) == ParseItems(d, p + 1, depth, max, acc)
  {
  }

  lemma {:induction false} ItemBack(d: seq<Byte>, p: nat, v: Value, depth: nat, max: nat, acc: seq<Value>)
    requires Terminated(d) && Stands(d, p, Encoded(v)) && IsLua(v) && depth <= max
    ensures p + |Encoded(v)| < |d| && Lex(d, p).tok != ArrEnd
    ensures depth + Depth(v) <= max ==>
            ParseItems(d, p, depth, max, acc) == AfterItem(d, p + |Encoded(v)|, depth, max, acc + [v])
    ensures depth + Depth(v) > max ==> ParseItems(d, p, depth, max, acc).Fails?
    decreases v, 1
  {
    hide ParseValue, Lex, Encoded, Depth, IsLua, AfterItem, Stands;
    LexValue(d, p, v);
    ValueBack(d, p, v, depth, max);
  }

  lemma {:induction false} PutNew(ms: seq<Member>, m: Member)
    requires !HasMember(ms, m.key)
    ensures Put(ms, m.key, m.value) == ms + [m]
    decreases |ms|
  {
    if ms != [] {
      PutNew(ms[1..], m);
      assert [ms[0]] + (ms[1..] + [m]) == ms + [m];
    }
  }

  lemma {:induction false} MemberAdded(ms: seq<Member>, m: Member, key: seq<Byte>)
    ensures HasMember(ms + [m], key) <==> HasMember(ms, key) || m.key == key
    decreases |ms|
  {
    if ms == [] {
      assert ms + [m] == [m];
    } else {
      assert (ms + [m])[1..] == ms[1..] + [m];
      MemberAdded(ms[1..], m, key);
    }
  }

  /** None of the members is there yet. */
  predicate AllNew(acc: seq<Member>, ms: seq<Member>)
    decreases |ms|
  {
    ms == [] || (!HasMember(acc, ms[0].key) && AllNew(acc, ms[1..]))
  }

  lemma {:induction false} StillNew(acc: seq<Member>, m: Member, ms: seq<Member>)
    requires AllNew(acc, ms) && !HasMember(ms, m.key)
    ensures AllNew(acc + [m], ms)
    decreases |ms|
  {
    if ms != [] {
      MemberAdded(acc, m, ms[0].key);
      StillNew(acc, m, ms[1..]);
    }
  }

  lemma {:induction false} NoneYet(ms: seq<Member>)
    ensures AllNew([], ms)
    decreases |ms|
  {
    if ms != [] { NoneYet(ms[1..]); }
  }

  lemma {:induction false} MembersBack(d: seq<Byte>, p: nat, ms: seq<Member>, depth: nat, max: nat, acc: seq<Member>,
                                       all: seq<Member>, end: nat, r: Parsed)
    requires Terminated(d) && Stands(d, p, EncodedMembers(ms) + [125]) && ms != [] && MembersLua(ms) && depth <= max
    requires AllNew(acc, ms) && all == acc + ms && end == p + |EncodedMembers(ms)| + 1
    requires p < |d| && r == ParseMembers(d, p, depth, max, acc)
    ensures end < |d| && Lex(d, p).tok != ObjEnd
    ensures if depth + MembersDepth(ms) <= max then r == Parsed(JObject(all), end) else r.Fails?
    decreases ms, 0
  {
    hide ParseMembers, Lex, EncodedMember;
    var m, rest := ms[0], ms[1..];
    assert ms == [m] + rest;
    if rest == [] {
      OneMember(m);
      assert ms == [m];
      LastMember(d, p, m, depth, max, acc);
    } else {
      MoreMembers(ms);
      NextMember(d, p, m, EncodedMembers(rest) + [125], depth, max, acc);
      StillNew(acc, m, rest);
      assert acc + [m] + rest == all;
      MembersBack(d, p + |EncodedMember(m)| + 1, rest, depth, max, acc + [m], all, end,
                  ParseMembers(d, p + |EncodedMember(m)| + 1, depth, max, acc + [m]));
    }
  }

  lemma OneMember(m: Member)
    ensures EncodedMembers([m]) == EncodedMember(m) && MembersDepth([m]) == Depth(m.value)
    ensures MembersLua([m]) <==> IsLua(m.value)
  {
  }

  lemma MoreMembers(ms: seq<Member>)
    requires ms != [] && ms[1..] != [] && MembersLua(ms)
    ensures EncodedMembers(ms) + [125] == EncodedMember(ms[0]) + [44] + (EncodedMembers(ms[1..]) + [125])
    ensures |EncodedMembers(ms)| == |EncodedMember(ms[0])| + 1 + |EncodedMembers(ms[1..])|
    ensures MembersDepth(ms) == Max(Depth(ms[0].value), MembersDepth(ms[1..]))
    ensures IsLua(ms[0].value) && !HasMember(ms[1..], ms[0].key) && MembersLua(ms[1..])
  {
  }

  lemma {:induction false} LastMember(d: seq<Byte>, p: nat, m: Member, depth: nat, max: nat, acc: seq<Member>)
    requires Terminated(d) && Stands(d, p, EncodedMember(m) + [125]) && IsLua(m.value) && depth <= max
    requires !HasMember(acc, m.key)
    ensures p + |EncodedMember(m)| + 1 < |d| && Lex(d, p).tok != ObjEnd
    ensures depth + Depth(m.value) <= max ==>
            ParseMembers(d, p, depth, max, acc) == Parsed(JObject(acc + [m]), p + |EncodedMember(m)| + 1)
    ensures depth + Depth(m.value) > max ==> ParseMembers(d, p, depth, max, acc).Fails?
    decreases m, 2
  {
    var text := EncodedMember(m);
    assert text + [125] == text + [125] + [];
    StandsLink(d, p, text, 125, []);
    MemberBack(d, p, m, depth, max, acc);
    AfterMemberEnd(d, p + |text|, depth, max, acc + [m]);
  }

  lemma {:induction false} NextMember(d: seq<Byte>, p: nat, m: Member, rest: seq<Byte>, depth: nat, max: nat,
                                      acc: seq<Member>)
    requires Terminated(d) && Stands(d, p, EncodedMember(m) + [44] + rest) && IsLua(m.value) && depth <= max
    requires !HasMember(acc, m.key)
    ensures p + |EncodedMember(m)| + 1 < |d| && Stands(d, p + |EncodedMember(m)| + 1, rest)
    ensures Lex(d, p).tok != ObjEnd
    ensures depth + Depth(m.value) <= max ==>
            ParseMembers(d, p, depth, max, acc) ==
            ParseMembers(d, p + |EncodedMember(m)| + 1, depth, max, acc + [m])
    ensures depth + Depth(m.value) > max ==> ParseMembers(d, p, depth, max, acc).Fails?
    decreases m, 2
  {
    hide ParseMembers, Lex, ParseValue, EncodedMember;
    StandsLink(d, p, EncodedMember(m), 44, rest);
    MemberBack(d, p, m, depth, max, acc);
    AfterMemberComma(d, p + |EncodedMember(m)|, depth, max, acc + [m]);
  }

  lemma AfterMemberEnd(d: seq<Byte>, p: nat, depth: nat, max: nat, acc: seq<Member>)
    requires Terminated(d) && p < |d| && d[p] == 125
    ensures p + 1 < |d| && AfterMember(d, p, depth, max, acc) == Parsed(JObject(acc), p + 1)
  {
  }

  lemma AfterMemberComma(d: seq<Byte>, p: nat, depth: nat, max: nat, acc: seq<Member>)
    requires Terminated(d) && p < |d| && d[p] == 44
    ensures p + 1 < |d| && AfterMember(d, p, depth, max, acc) == ParseMembers(d, p + 1, depth, max, acc)
  {
  }

  /** A key, a colon and a value. */
  lemma {:induction false} MemberBack(d: seq<Byte>, p: nat, m: Member, depth: nat, max: nat, acc: seq<Member>)
    requires Terminated(d) && Stands(d, p, EncodedMember(m)) && IsLua(m.value) && depth <= max
    requires !HasMember(acc, m.key)
    ensures p + |EncodedMember(m)| < |d| && Lex(d, p).tok != ObjEnd
    ensures depth + Depth(m.value) <= max ==>
            ParseMembers(d, p, depth, max, acc) == AfterMember(d, p + |EncodedMember(m)|, depth, max, acc + [m])
    ensures depth + Depth(m.value) > max ==> ParseMembers(d, p, depth, max, acc).Fails?
    decreases m, 1
  {
    hide ParseValue, Lex, Encoded;
    var q := p + |JsonString(m.key)| + 1;
    MemberParts(d, p, m, q);
    ValueBack(d, q, m.value, depth, max);
    MemberRead(d, p, m, q, q + |Encoded(m.value)|, depth + Depth(m.value) <= max, depth, max, acc);
  }

  lemma MemberParts(d: seq<Byte>, p: nat, m: Member, q: nat)
    requires Terminated(d) && Stands(d, p, EncodedMember(m)) && q == p + |JsonString(m.key)| + 1
    ensures q < |d| && d[q - 1] == 58 && Stands(d, q, Encoded(m.value))
    ensures Lex(d, p) == Lexed(Text(m.key), p, q - 1) && |EncodedMember(m)| == q - p + |Encoded(m.value)|
  {
    StandsLink(d, p, JsonString(m.key), 58, Encoded(m.value));
    LexString(d, p, m.key);
  }

  lemma MemberRead(d: seq<Byte>, p: nat, m: Member, q: nat, e: nat, fits: bool, depth: nat, max: nat, acc: seq<Member>)
    requires Terminated(d) && p < q - 1 && q < |d| && e < |d| && d[q - 1] == 58
    requires Lex(d, p) == Lexed(Text(m.key), p, q - 1) && !HasMember(acc, m.key)
    requires if fits then ParseValue(d, q, depth, max) == Parsed(m.value, e) else ParseValue(d, q, depth, max).Fails?
    ensures if fits then ParseMembers(d, p, depth, max, acc) == AfterMember(d, e, depth, max, acc + [m])
            else ParseMembers(d, p, depth, max, acc).Fails?
  {
    assert Lex(d, q - 1) == Lexed(Colon, q - 1, q);
    PutNew(acc, m);
  }

  /** Decoding undoes encoding exactly if the nesting is allowed; and whatever follows a NUL behind the text is not
      looked at. */
  lemma RoundTrip(v: Value, max: nat, junk: seq<Byte>)
    requires IsLua(v)
    ensures Depth(v) <= max ==> Decoded(Encoded(v), max) == Parsed(v, |Encoded(v)|)
    ensures Depth(v) > max ==> Decoded(Encoded(v), max).Fails?
    ensures Depth(v) <= max ==> Decoded(Encoded(v) + [0] + junk, max) == Parsed(v, |Encoded(v)|)
  {
    hide ParseValue, Encoded;
    DecodedText(v, max, []);
    assert Encoded(v) + [] == Encoded(v);
    DecodedText(v, max, [0] + junk);
    assert Encoded(v) + ([0] + junk) == Encoded(v) + [0] + junk;
  }

  lemma DecodedText(v: Value, max: nat, more: seq<Byte>)
    requires IsLua(v) && (more != [] ==> more[0] == 0)
    ensures Depth(v) <= max ==> Decoded(Encoded(v) + more, max) == Parsed(v, |Encoded(v)|)
    ensures Depth(v) > max ==> Decoded(Encoded(v) + more, max).Fails?
  {
    var n, d := |Encoded(v)|, Encoded(v) + more + [0];
    assert d[0..0 + n] == Encoded(v);
    SliceStands(d, 0, Encoded(v));
    ValueBack(d, 0, v, 0, max);
    FirstTwo(v);
    DecodedIf(Encoded(v), more, v, max);
  }

  lemma DecodedIf(text: seq<Byte>, more: seq<Byte>, v: Value, max: nat)
    requires |text| >= 2 && text[0] != 0 && text[1] != 0 && (more != [] ==> more[0] == 0)
    ensures ParseValue(text + more + [0], 0, 0, max) == Parsed(v, |text|) ==>
            Decoded(text + more, max) == Parsed(v, |text|)
    ensures ParseValue(text + more + [0], 0, 0, max).Fails? ==> Decoded(text + more, max).Fails?
  {
    var d := text + more + [0];
    assert (text + more)[0] == text[0] && (text + more)[1] == text[1];
    assert d[|text|] == 0;
  }

  lemma FirstOfMembers(ms: seq<Member>)
    requires ms != []
    ensures EncodedMembers(ms) != [] && EncodedMembers(ms)[0] == 34
  {
    assert EncodedMember(ms[0])[0] == 34;
    if |ms| > 1 { assert EncodedMembers(ms)[0] == EncodedMember(ms[0])[0]; }
  }

  /** A text has at least two bytes, of which none is a NUL. */
  lemma {:induction false} FirstTwo(v: Value)
    ensures |Encoded(v)| >= 2 && Encoded(v)[0] != 0 && Encoded(v)[1] != 0
    decreases v
  {
    match v
    case JString(s) => if s != [] { assert Encoded(v)[1] == Escape(s[0])[0]; }
    case JArray(items) =>
      if items != [] {
        FirstTwo(items[0]);
        assert Encoded(v)[1] == Encoded(items[0])[0];
      }
    case JObject(ms) =>
      if ms != [] { FirstOfMembers(ms); }
    case _ =>
  }

  // ---------- what may follow a text ----------

  /** White space, and then nothing or a NUL. */
  predicate Quiet(more: seq<Byte>)
    decreases |more|
  {
    more == [] || more[0] == 0 || (more[0] in [32, 9, 10, 13] && Quiet(more[1..]))
  }

  /** The next token is the end exactly if nothing but that is left. */
  lemma {:induction false} LexEnds(d: seq<Byte>, p: nat, more: seq<Byte>)
    requires Terminated(d) && p < |d| && d[p..] == more + [0]
    ensures Lex(d, p).tok.End? <==> Quiet(more)
    decreases |more|
  {
    assert d[p] == d[p..][0];
    if more != [] && d[p] in [32, 9, 10, 13] {
      assert d[p + 1..] == d[p..][1..] == more[1..] + [0];
      LexEnds(d, p + 1, more[1..]);
    }
  }

  /** What stands behind the text of a value is accepted exactly if it is quiet. */
  lemma TrailingIff(v: Value, more: seq<Byte>, max: nat)
    requires IsLua(v) && Depth(v) <= max
    ensures Decoded(Encoded(v) + more, max).Parsed? <==> Quiet(more)
    ensures Quiet(more) ==> Decoded(Encoded(v) + more, max).v == v
    ensures var r := Decoded(Encoded(v) + more, max);
            !Quiet(more) ==> r.why.Syntax? && r.why.exp == EndHere
  {
    var text := Encoded(v);
    var d := text + more + [0];
    assert d[0..0 + |text|] == text && d[|text|..] == more + [0];
    SliceStands(d, 0, text);
    ValueBack(d, 0, v, 0, max);
    FirstTwo(v);
    LexEnds(d, |text|, more);
    assert (text + more)[0] == text[0] && (text + more)[1] == text[1];
  }
}
