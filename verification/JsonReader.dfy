/** The JSON output of a match, read back by the grammar of JSON. */
module JsonReader {
  // The reader knows nothing of captures.  It reads the JSON of RFC 8259 without white space, signs, fractions and
  // literals, none of which the encoder writes.

  import opened Peg
  import opened Machine
  import opened Buffers
  import opened JsonStrings
  import opened Output
  import JsonSpelling

  // ---------- the reader ----------

  datatype Value = Text(s: seq<Byte>) | Number(n: nat) | List(items: seq<Value>) | Record(members: seq<Member>)

  datatype Member = Member(key: seq<Byte>, v: Value)

  datatype Found = Found(v: Value, next: nat) | NoValue

  predicate IsDigit(c: Byte) { 48 <= c < 58 }

  datatype Numeral = Numeral(n: nat, next: nat)

  /** Goes on with a number of which `n` has been read. */
  function ReadDigits(d: seq<Byte>, p: nat, n: nat): (r: Numeral)
    requires Terminated(d) && p < |d|
    ensures p <= r.next < |d|
    decreases |d| - p
  {
    if IsDigit(d[p]) then ReadDigits(d, p + 1, 10 * n + (d[p] - 48)) else Numeral(n, p)
  }

  function ReadValue(d: seq<Byte>, p: nat): (r: Found)
    requires Terminated(d) && p < |d|
    ensures r.Found? ==> p < r.next < |d|
    decreases |d| - p, 0
  {
    if d[p] == 34 then
      var r := ReadChars(d, p + 1);
      if r.Good? then Found(Text(r.text), r.next) else NoValue
    else if d[p] == 91 then
      if d[p + 1] == 93 then Found(List([]), p + 2) else ReadItems(d, p + 1, [])
    else if d[p] == 123 then
      if d[p + 1] == 125 then Found(Record([]), p + 2) else ReadMembers(d, p + 1, [])
    else if !IsDigit(d[p]) || (d[p] == 48 && IsDigit(d[p + 1])) then NoValue
    else
      var r := ReadDigits(d, p + 1, d[p] - 48);
      Found(Number(r.n), r.next)
  }

  /** A list from an item on, behind the items that have been read. */
  function ReadItems(d: seq<Byte>, p: nat, items: seq<Value>): (r: Found)
    requires Terminated(d) && p < |d|
    ensures r.Found? ==> p < r.next < |d|
    decreases |d| - p, 1
  {
    var r := ReadValue(d, p);
    if r.NoValue? then NoValue else MoreItems(d, r.next, items + [r.v])
  }

  /** A list from behind an item on. */
  function MoreItems(d: seq<Byte>, p: nat, items: seq<Value>): (r: Found)
    requires Terminated(d) && p < |d|
    ensures r.Found? ==> p < r.next < |d|
    decreases |d| - p, 0
  {
    if d[p] == 44 then ReadItems(d, p + 1, items)
    else if d[p] == 93 then Found(List(items), p + 1)
    else NoValue
  }

  function ReadMembers(d: seq<Byte>, p: nat, ms: seq<Member>): (r: Found)
    requires Terminated(d) && p < |d|
    ensures r.Found? ==> p < r.next < |d|
    decreases |d| - p, 1
  {
    if d[p] != 34 then NoValue
    else
      var key := ReadChars(d, p + 1);
      if key.BadString? || d[key.next] != 58 then NoValue
      else
        var r := ReadValue(d, key.next + 1);
        if r.NoValue? then NoValue else MoreMembers(d, r.next, ms + [Member(key.text, r.v)])
  }

  function MoreMembers(d: seq<Byte>, p: nat, ms: seq<Member>): (r: Found)
    requires Terminated(d) && p < |d|
    ensures r.Found? ==> p < r.next < |d|
    decreases |d| - p, 0
  {
    if d[p] == 44 then ReadMembers(d, p + 1, ms)
    else if d[p] == 125 then Found(Record(ms), p + 1)
    else NoValue
  }

  // ---------- what a capture should be read as ----------

  /** Type, start, parts if there are any, end and data of a capture; positions count from 1. */
  function ValueOf(x: Source, c: CapTree): Value {
    match c
    case Node(key, start, subs, end) =>
      Record(
        [Member(Ascii("type"), Text(Name(x, key))), Member(Ascii("s"), Number(start + 1))] +
        (if subs == [] then [] else [Member(Ascii("subs"), List(ValuesOf(x, subs)))]) +
        [Member(Ascii("e"), Number(end + 1)), Member(Ascii("data"), Text(Slice(x.input, start, end)))])
    case Const(key, value, pos) =>
      Record([Member(Ascii("type"), Text(Name(x, key))), Member(Ascii("s"), Number(pos + 1)),
              Member(Ascii("e"), Number(pos + 1)), Member(Ascii("data"), Text(Name(x, value)))])
  }

  function ValuesOf(x: Source, forest: seq<CapTree>): seq<Value> {
    if forest == [] then [] else [ValueOf(x, forest[0])] + ValuesOf(x, forest[1..])
  }

  /** Names and constant values without quote, backslash and NUL, and texts without NUL. */
  predicate Clean(x: Source, c: CapTree) {
    match c
    case Node(key, start, subs, end) => Plain(Name(x, key)) && AllClean(x, subs) && 0 !in Slice(x.input, start, end)
    case Const(key, value, _) => Plain(Name(x, key)) && Plain(Name(x, value))
  }

  predicate AllClean(x: Source, forest: seq<CapTree>) {
    forest == [] || (Clean(x, forest[0]) && AllClean(x, forest[1..]))
  }

  // ---------- numbers ----------

  lemma {:induction false} DecimalRead(d: seq<Byte>, p: nat, n: nat)
    requires Terminated(d) && Stands(d, p, Decimal(n)) && p + |Decimal(n)| < |d|
    ensures IsDigit(d[p]) && (n > 0 ==> d[p] != 48) && |Decimal(n)| >= 1
    ensures ReadDigits(d, p + 1, d[p] - 48) == ReadDigits(d, p + |Decimal(n)|, n)
    decreases n
  {
    if n >= 10 {
      StandsSplit(d, p, Decimal(n / 10), [48 + n % 10]);
      DecimalRead(d, p, n / 10);
    }
  }

  lemma NumberRead(d: seq<Byte>, p: nat, n: nat)
    requires Terminated(d) && n > 0 && Stands(d, p, Decimal(n)) && p + |Decimal(n)| < |d|
    requires !IsDigit(d[p + |Decimal(n)|])
    ensures p < |d| && ReadValue(d, p) == Found(Number(n), p + |Decimal(n)|)
  {
    DecimalRead(d, p, n);
  }

  // ---------- members ----------

  /** A key, with what stands around it. */
  function Field(key: seq<Byte>): seq<Byte> { [34] + key + [34, 58] }

  lemma FieldRead(d: seq<Byte>, p: nat, key: seq<Byte>, ms: seq<Member>)
    requires Terminated(d) && Plain(key) && Stands(d, p, Field(key)) && p + |Field(key)| < |d|
    ensures var r := ReadValue(d, p + |Field(key)|);
            ReadMembers(d, p, ms) ==
            if r.NoValue? then NoValue else MoreMembers(d, r.next, ms + [Member(key, r.v)])
  {
    hide ReadValue;
    assert Field(key) == [34] + ((key + [34]) + [58]);
    StandsSplit(d, p, [34], (key + [34]) + [58]);
    StandsSplit(d, p + 1, key + [34], [58]);
    RawStringIff(d, p + 1, key);
  }

  lemma CommaStep(d: seq<Byte>, p: nat, ms: seq<Member>)
    requires Terminated(d) && Stands(d, p, [44])
    ensures p + 1 < |d| && MoreMembers(d, p, ms) == ReadMembers(d, p + 1, ms)
  {
  }

  lemma BraceStep(d: seq<Byte>, p: nat, ms: seq<Member>)
    requires Terminated(d) && Stands(d, p, [125])
    ensures p + 1 < |d| && MoreMembers(d, p, ms) == Found(Record(ms), p + 1)
  {
  }

  /** A comma, a key and a number. */
  lemma NumberMember(d: seq<Byte>, p: nat, key: seq<Byte>, n: nat, rest: seq<Byte>, ms: seq<Member>)
    requires Terminated(d) && Plain(key) && n > 0 && rest != [] && !IsDigit(rest[0])
    requires Stands(d, p, [44] + Field(key) + Decimal(n) + rest)
    ensures var q := p + 1 + |Field(key)| + |Decimal(n)|;
            q < |d| && Stands(d, q, rest) && p < |d| &&
            MoreMembers(d, p, ms) == MoreMembers(d, q, ms + [Member(key, Number(n))])
  {
    hide ReadMembers, ReadValue;
    var q := p + 1 + |Field(key)|;
    assert [44] + Field(key) + Decimal(n) + rest == [44] + (Field(key) + (Decimal(n) + rest));
    StandsSplit(d, p, [44], Field(key) + (Decimal(n) + rest));
    StandsSplit(d, p + 1, Field(key), Decimal(n) + rest);
    StandsSplit(d, q, Decimal(n), rest);
    FieldRead(d, p + 1, key, ms);
    NumberRead(d, q, n);
  }

  /** What has been read stays in front. */
  lemma {:induction false} MembersKeep(d: seq<Byte>, p: nat, ms: seq<Member>)
    requires Terminated(d) && p < |d|
    ensures MoreMembers(d, p, ms).Found? ==> MoreMembers(d, p, ms).v.Record? && ms <= MoreMembers(d, p, ms).v.members
    ensures ReadMembers(d, p, ms).Found? ==> ReadMembers(d, p, ms).v.Record? && ms <= ReadMembers(d, p, ms).v.members
    decreases |d| - p
  {
    hide ReadValue, ReadChars;
    if d[p] == 44 { MembersKeep(d, p + 1, ms); }
    if ReadMembers(d, p, ms).Found? {
      var key := ReadChars(d, p + 1);
      var r := ReadValue(d, key.next + 1);
      MembersKeep(d, r.next, ms + [Member(key.text, r.v)]);
    }
  }

  lemma {:induction false} ItemsKeep(d: seq<Byte>, p: nat, items: seq<Value>)
    requires Terminated(d) && p < |d|
    ensures MoreItems(d, p, items).Found? ==> MoreItems(d, p, items).v.List? && items <= MoreItems(d, p, items).v.items
    ensures ReadItems(d, p, items).Found? ==> ReadItems(d, p, items).v.List? && items <= ReadItems(d, p, items).v.items
    decreases |d| - p
  {
    hide ReadValue;
    if d[p] == 44 { ItemsKeep(d, p + 1, items); }
    var r := ReadValue(d, p);
    if r.Found? { ItemsKeep(d, r.next, items + [r.v]); }
  }

  lemma PrefixThen(ms: seq<Member>, m: Member, all: seq<Member>)
    requires ms + [m] <= all
    ensures |ms| < |all| && all[..|ms|] == ms && all[|ms|] == m
  {
    assert all[|ms|] == (ms + [m])[|ms|];
    assert forall i :: 0 <= i < |ms| ==> all[i] == (ms + [m])[i];
  }

  /** The members read begin with `ms`, and then comes something else than `m`. */
  ghost predicate Differs(r: Found, ms: seq<Member>, m: Member) {
    r.Found? ==> r.v.Record? && |ms| < |r.v.members| && r.v.members[..|ms|] == ms && r.v.members[|ms|] != m
  }

  /** A key and a text; `ok` says whether the text is read as `s`. */
  lemma TextMember(d: seq<Byte>, p: nat, key: seq<Byte>, s: seq<Byte>, next: nat, ok: bool, ms: seq<Member>)
    requires Terminated(d) && Plain(key) && Stands(d, p, Field(key))
    requires p + |Field(key)| < |d| && d[p + |Field(key)|] == 34 && next < |d|
    requires var r := ReadChars(d, p + |Field(key)| + 1);
             if ok then r == Good(s, next) else r.BadString? || r.text != s
    ensures ok ==> ReadMembers(d, p, ms) == MoreMembers(d, next, ms + [Member(key, Text(s))])
    ensures !ok ==> Differs(ReadMembers(d, p, ms), ms, Member(key, Text(s)))
  {
    hide ReadMembers, MoreMembers, ReadChars, Field;
    var q := p + |Field(key)|;
    FieldRead(d, p, key, ms);
    var r := ReadValue(d, q);
    if r.Found? && !ok {
      MembersKeep(d, r.next, ms + [Member(key, r.v)]);
      var all := MoreMembers(d, r.next, ms + [Member(key, r.v)]);
      if all.Found? { PrefixThen(ms, Member(key, r.v), all.v.members); }
    }
  }

  // ---------- the parts of a capture ----------

  function Opening(name: seq<Byte>, pos: nat): seq<Byte> {
    [123] + (Field(Ascii("type")) + ([34] + name + [34])) + ([44] + Field(Ascii("s")) + Decimal(pos + 1))
  }

  function Inner(bare: bool, subs: seq<Byte>): seq<Byte> {
    if bare then [] else [44] + Field(Ascii("subs")) + ([91] + subs + [93])
  }

  function Closing(pos: nat, body: seq<Byte>): seq<Byte> {
    [44] + Field(Ascii("e")) + Decimal(pos + 1) + ([44] + (Field(Ascii("data")) + ([34] + body + [34])) + [125])
  }

  lemma PlainKeys()
    ensures Plain(Ascii("type")) && Plain(Ascii("s")) && Plain(Ascii("subs"))
    ensures Plain(Ascii("e")) && Plain(Ascii("data"))
  {
    assert Ascii("type") == [116, 121, 112, 101] && Ascii("s") == [115] && Ascii("subs") == [115, 117, 98, 115];
    assert Ascii("e") == [101] && Ascii("data") == [100, 97, 116, 97];
  }

  lemma OpeningLabels()
    ensures Ascii("{\"type\":\"") == [123] + Field(Ascii("type")) + [34] && Ascii("\"") == [34]
    ensures Ascii(",\"s\":") == [44] + Field(Ascii("s"))
    ensures Ascii(",\"subs\":[") == [44] + Field(Ascii("subs")) + [91]
  {
  }

  lemma ClosingLabels()
    ensures Ascii(",\"e\":") == [44] + Field(Ascii("e")) && Ascii(",\"data\":") == [44] + Field(Ascii("data"))
    ensures Ascii("]") == [93] && Ascii("}") == [125] && Ascii(",") == [44] && Ascii("\"") == [34]
  {
  }

  lemma OpeningFlat(f: seq<Byte>, name: seq<Byte>, s: seq<Byte>, dec: seq<Byte>)
    ensures [] + ([123] + f + [34]) + name + [34] + ([44] + s) + dec ==
            [123] + (f + ([34] + name + [34])) + ([44] + s + dec)
  {
    Assoc([123] + f, [34], name);
    Assoc([123] + f, [34] + name, [34]);
    Assoc([123], f, [34] + name + [34]);
    Assoc([123] + (f + ([34] + name + [34])), [44] + s, dec);
  }

  lemma ClosingFlat(e: seq<Byte>, dec: seq<Byte>, f: seq<Byte>, body: seq<Byte>)
    ensures ([44] + e) + dec + ([44] + f) + ([34] + body + [34]) + [125] ==
            [44] + e + dec + ([44] + (f + ([34] + body + [34])) + [125])
  {
    var quoted := [34] + body + [34];
    Assoc([44] + e + dec, [44] + f, quoted);
    Assoc([44], f, quoted);
    Assoc([44] + e + dec, [44] + f + quoted, [125]);
  }

  lemma NodeFlat(o: seq<Byte>, i: seq<Byte>, subs: seq<Byte>, c: seq<Byte>)
    ensures (o + (i + [91])) + subs + ([93] + c) == o + (i + ([91] + subs + [93])) + c
    ensures (o + []) + [] + ([] + c) == o + [] + c
  {
    Assoc(o, i + [91], subs);
    Assoc(i, [91], subs);
    Assoc(o + (i + ([91] + subs)), [93], c);
    Assoc(o, i + ([91] + subs), [93]);
    Assoc(i, [91] + subs, [93]);
  }

  lemma BehindBracket(b: seq<Byte>, e: seq<Byte>, dec: seq<Byte>, f: seq<Byte>, data: seq<Byte>)
    ensures b + e + dec + f + data + [125] == b + (e + dec + f + data + [125])
  {
    Assoc(b, e, dec);
    Assoc(b, e + dec, f);
    Assoc(b, e + dec + f, data);
    Assoc(b, e + dec + f + data, [125]);
  }

  lemma OpenText(x: Source, key: nat, pos: nat, bare: bool)
    ensures JsonOpen(x, key, pos, true, bare) ==
            Opening(Name(x, key), pos) + if bare then [] else [44] + Field(Ascii("subs")) + [91]
  {
    hide Decimal, Name, Ascii, Field;
    OpeningLabels();
    OpeningFlat(Field(Ascii("type")), Name(x, key), Field(Ascii("s")), Decimal(pos + 1));
  }

  lemma CloseText(x: Source, close: Cap, start: nat, body: seq<Byte>, bare: bool)
    requires DataOf(x, close, start) == [34] + body + [34]
    ensures JsonClose(x, close, start, bare) == (if bare then [] else [93]) + Closing(close.pos, body)
  {
    hide Decimal, Name, Ascii, Field, DataOf;
    ClosingLabels();
    var e, dec, f := Ascii(",\"e\":"), Decimal(close.pos + 1), Ascii(",\"data\":");
    BehindBracket(if bare then [] else [93], e, dec, f, [34] + body + [34]);
    ClosingFlat(Field(Ascii("e")), dec, Field(Ascii("data")), body);
  }

  lemma NodeText(x: Source, key: nat, start: nat, subs: seq<CapTree>, end: nat)
    ensures Render(Json, x, Node(key, start, subs, end), true) ==
            Opening(Name(x, key), start) + Inner(subs == [], RenderAll(Json, x, subs, true)) +
            Closing(end, EscapedAll(Slice(x.input, start, end)))
  {
    hide JsonOpen, JsonClose, Opening, Closing, EscapedAll;
    var body := EscapedAll(Slice(x.input, start, end));
    OpenText(x, key, start, subs == []);
    CloseText(x, Close(end), start, body, subs == []);
    NodeFlat(Opening(Name(x, key), start), [44] + Field(Ascii("subs")), RenderAll(Json, x, subs, true),
             Closing(end, body));
  }

  lemma ConstText(x: Source, key: nat, value: nat, pos: nat)
    ensures Render(Json, x, Const(key, value, pos), true) ==
            Opening(Name(x, key), pos) + Inner(true, []) + Closing(pos, Name(x, value))
  {
    hide JsonOpen, JsonClose, Opening, Closing;
    ClosingLabels();
    OpenText(x, key, pos, true);
    CloseText(x, CloseConst(value, pos), pos, Name(x, value), true);
  }

  /** A capture behind another one: a comma in front, and nothing else. */
  lemma CommaFirst(x: Source, c: CapTree)
    ensures Render(Json, x, c, false) == [44] + Render(Json, x, c, true)
  {
    hide RenderAll, JsonClose, Decimal;
    ClosingLabels();
    match c
    case Node(key, start, subs, end) =>
      CommaOpen(x, key, start, subs == []);
      var o, r, close := JsonOpen(x, key, start, true, subs == []), RenderAll(Json, x, subs, true),
                         JsonClose(x, Close(end), start, subs == []);
      Assoc([44], o, r);
      Assoc([44], o + r, close);
    case Const(key, value, pos) =>
      CommaOpen(x, key, pos, true);
      Assoc([44], JsonOpen(x, key, pos, true, true), JsonClose(x, CloseConst(value, pos), pos, true));
  }

  lemma CommaOpen(x: Source, key: nat, pos: nat, bare: bool)
    ensures JsonOpen(x, key, pos, false, bare) == [44] + JsonOpen(x, key, pos, true, bare)
  {
    hide Decimal, Name;
    ClosingLabels();
    var a, b, c, e, f, g: seq<Byte> := Ascii("{\"type\":\""), Name(x, key), Ascii("\""), Ascii(",\"s\":"),
      Decimal(pos + 1), if bare then [] else Ascii(",\"subs\":[");
    assert [] + a == a;
    Assoc([44], a, b);
    Assoc([44], a + b, c);
    Assoc([44], a + b + c, e);
    Assoc([44], a + b + c + e, f);
    Assoc([44], a + b + c + e + f, g);
  }

  // ---------- the parts are read ----------

  lemma OpeningParts(d: seq<Byte>, p: nat, name: seq<Byte>, pos: nat, rest: seq<Byte>)
    requires Stands(d, p, Opening(name, pos) + rest)
    ensures var f, s := Field(Ascii("type")), [44] + Field(Ascii("s")) + Decimal(pos + 1);
            var q := p + 1 + |f|;
            && |Opening(name, pos)| == 3 + |f| + |name| + |s|
            && Stands(d, p, [123]) && Stands(d, p + 1, f) && Stands(d, q, [34]) && Stands(d, q + 1, name + [34])
            && Stands(d, q + 2 + |name|, s + rest) && Stands(d, p + |Opening(name, pos)|, rest)
  {
    hide Field, Ascii, Decimal, Stands;
    var f, s := Field(Ascii("type")), [44] + Field(Ascii("s")) + Decimal(pos + 1);
    var q := p + 1 + |f|;
    StandsSplit(d, p, Opening(name, pos), rest);
    StandsSplit3(d, p, [123], f + ([34] + name + [34]), s);
    StandsSplit(d, p + 1, f, [34] + name + [34]);
    Assoc([34], name, [34]);
    StandsSplit(d, q, [34], name + [34]);
    StandsJoin(d, q + 2 + |name|, s, rest);
  }

  lemma RecordStart(d: seq<Byte>, p: nat, key: seq<Byte>)
    requires Terminated(d) && Stands(d, p, [123]) && Stands(d, p + 1, Field(key))
    ensures p + 1 < |d| && ReadValue(d, p) == ReadMembers(d, p + 1, [])
  {
    StandsSlice(d, p + 1, Field(key));
    assert d[p + 1] == Field(key)[0] == 34;
  }

  /** Both ways of reading a text that was not escaped. */
  lemma RawRead(d: seq<Byte>, p: nat, s: seq<Byte>)
    requires Terminated(d) && Stands(d, p, s + [34])
    ensures p + |s| + 1 < |d|
    ensures var r := ReadChars(d, p);
            if Plain(s) then r == Good(s, p + |s| + 1) else r.BadString? || r.text != s
  {
    RawStringIff(d, p, s);
    JsonSpelling.RawTextIff(d, p, s);
  }

  lemma OpeningRead(d: seq<Byte>, p: nat, name: seq<Byte>, pos: nat, rest: seq<Byte>)
    requires Terminated(d) && Stands(d, p, Opening(name, pos) + rest) && rest != [] && !IsDigit(rest[0])
    ensures p < |d| && p + |Opening(name, pos)| < |d| && Stands(d, p + |Opening(name, pos)|, rest)
    ensures Plain(name) ==>
              ReadValue(d, p) ==
              MoreMembers(d, p + |Opening(name, pos)|,
                          [Member(Ascii("type"), Text(name)), Member(Ascii("s"), Number(pos + 1))])
    ensures !Plain(name) ==> Differs(ReadValue(d, p), [], Member(Ascii("type"), Text(name)))
  {
    hide ReadValue, ReadChars, ReadMembers, MoreMembers, Ascii, Decimal, Opening, Field, Plain, Stands;
    PlainKeys();
    OpeningParts(d, p, name, pos, rest);
    var q := p + 1 + |Field(Ascii("type"))|;
    RawRead(d, q + 1, name);
    RecordStart(d, p, Ascii("type"));
    var m, m' := Member(Ascii("type"), Text(name)), Member(Ascii("s"), Number(pos + 1));
    assert [] + [m] == [m] && [m] + [m'] == [m, m'];
    QuoteAt(d, q);
    NumberMember(d, q + 2 + |name|, Ascii("s"), pos + 1, rest, [m]);
    TextMember(d, p + 1, Ascii("type"), name, q + 2 + |name|, Plain(name), []);
  }

  lemma QuoteAt(d: seq<Byte>, q: nat)
    requires Stands(d, q, [34])
    ensures q < |d| && d[q] == 34
  {
  }

  /** Where the text of the data stands, behind its quote. */
  function DataAt(p: nat, pos: nat): nat {
    p + |[44] + Field(Ascii("e")) + Decimal(pos + 1)| + 1 + |Field(Ascii("data"))| + 1
  }

  lemma ClosingParts(d: seq<Byte>, p: nat, pos: nat, body: seq<Byte>)
    requires Stands(d, p, Closing(pos, body))
    ensures var e, f, q := [44] + Field(Ascii("e")) + Decimal(pos + 1), Field(Ascii("data")), DataAt(p, pos);
            && p + |Closing(pos, body)| == q + |body| + 2
            && Stands(d, p, e + ([44] + (f + ([34] + body + [34])) + [125])) && Stands(d, p + |e|, [44])
            && Stands(d, p + |e| + 1, f) && Stands(d, q - 1, [34]) && Stands(d, q, body + [34])
            && Stands(d, q + |body| + 1, [125])
  {
    hide Field, Ascii, Decimal, Stands;
    var e, f, q := [44] + Field(Ascii("e")) + Decimal(pos + 1), Field(Ascii("data")), DataAt(p, pos);
    var quoted := [34] + body + [34];
    StandsSplit(d, p, e, [44] + (f + quoted) + [125]);
    StandsSplit3(d, p + |e|, [44], f + quoted, [125]);
    StandsSplit(d, p + |e| + 1, f, quoted);
    Assoc([34], body, [34]);
    StandsSplit(d, q - 1, [34], body + [34]);
  }

  lemma ClosingRead(d: seq<Byte>, p: nat, pos: nat, body: seq<Byte>, s: seq<Byte>, ok: bool, ms: seq<Member>)
    requires Terminated(d) && Stands(d, p, Closing(pos, body)) && DataAt(p, pos) < |d|
    requires var r := ReadChars(d, DataAt(p, pos));
             if ok then r == Good(s, DataAt(p, pos) + |body| + 1) else r.BadString? || r.text != s
    ensures p < |d|
    ensures ok ==> MoreMembers(d, p, ms) ==
                   Found(Record(ms + [Member(Ascii("e"), Number(pos + 1)), Member(Ascii("data"), Text(s))]),
                         p + |Closing(pos, body)|)
    ensures !ok ==> Differs(MoreMembers(d, p, ms), ms + [Member(Ascii("e"), Number(pos + 1))],
                            Member(Ascii("data"), Text(s)))
  {
    hide ReadMembers, MoreMembers, ReadChars, Ascii, Decimal, Closing, Field, Plain;
    PlainKeys();
    ClosingParts(d, p, pos, body);
    var e, f, q := [44] + Field(Ascii("e")) + Decimal(pos + 1), Field(Ascii("data")), DataAt(p, pos);
    var m, m' := Member(Ascii("e"), Number(pos + 1)), Member(Ascii("data"), Text(s));
    NumberMember(d, p, Ascii("e"), pos + 1, [44] + (f + ([34] + body + [34])) + [125], ms);
    CommaStep(d, p + |e|, ms + [m]);
    TextMember(d, p + |e| + 1, Ascii("data"), s, q + |body| + 1, ok, ms + [m]);
    BraceStep(d, q + |body| + 1, ms + [m] + [m']);
    assert ms + [m] + [m'] == ms + [m, m'];
  }

  // ---------- captures are read ----------

  /** Another value, or none. */
  ghost predicate NotRead(r: Found, v: Value) { r.Found? ==> r.v != v }

  lemma DiffersInside(r: Found, ms: seq<Member>, m: Member, rest: seq<Member>)
    requires Differs(r, ms, m)
    ensures NotRead(r, Record(ms + [m] + rest))
  {
    assert (ms + [m] + rest)[|ms|] == m;
  }

  lemma ConstIff(x: Source, key: nat, value: nat, pos: nat, d: seq<Byte>, p: nat)
    requires var text := Render(Json, x, Const(key, value, pos), true);
             Terminated(d) && Stands(d, p, text) && p + |text| < |d|
    ensures var text := Render(Json, x, Const(key, value, pos), true);
            if Clean(x, Const(key, value, pos)) then
              ReadValue(d, p) == Found(ValueOf(x, Const(key, value, pos)), p + |text|)
            else NotRead(ReadValue(d, p), ValueOf(x, Const(key, value, pos)))
  {
    hide ReadValue, MoreMembers, Render, Ascii, Opening, Closing, Name, Plain, Stands;
    ConstText(x, key, value, pos);
    var o, c, name, s := Opening(Name(x, key), pos), Closing(pos, Name(x, value)), Name(x, key), Name(x, value);
    assert o + [] + c == o + c;
    ClosingStarts(pos, s);
    OpeningRead(d, p, name, pos, c);
    ClosingParts(d, p + |o|, pos, s);
    RawRead(d, DataAt(p + |o|, pos), s);
    var ms := [Member(Ascii("type"), Text(name)), Member(Ascii("s"), Number(pos + 1))];
    var e, data := Member(Ascii("e"), Number(pos + 1)), Member(Ascii("data"), Text(s));
    ClosingRead(d, p + |o|, pos, s, s, Plain(s), ms);
    var full := ValueOf(x, Const(key, value, pos)).members;
    assert full == [] + [ms[0]] + full[1..] == ms + [e, data] == ms + [e] + [data] + [];
    if !Plain(name) {
      DiffersInside(ReadValue(d, p), [], ms[0], full[1..]);
    } else if !Plain(s) {
      DiffersInside(ReadValue(d, p), ms + [e], data, []);
    }
  }

  lemma ClosingStarts(pos: nat, body: seq<Byte>)
    ensures Closing(pos, body) != [] && Closing(pos, body)[0] == 44
  {
  }

  lemma RenderStarts(x: Source, c: CapTree)
    ensures Render(Json, x, c, true) != [] && Render(Json, x, c, true)[0] == 123
  {
    match c
    case Node(key, start, subs, end) => NodeText(x, key, start, subs, end);
    case Const(key, value, pos) => ConstText(x, key, value, pos);
  }

  lemma {:induction false} NodeIff(x: Source, key: nat, start: nat, subs: seq<CapTree>, end: nat, d: seq<Byte>, p: nat)
    requires var text := Render(Json, x, Node(key, start, subs, end), true);
             Terminated(d) && Stands(d, p, text) && p + |text| < |d|
    ensures var text := Render(Json, x, Node(key, start, subs, end), true);
            if Clean(x, Node(key, start, subs, end)) then
              ReadValue(d, p) == Found(ValueOf(x, Node(key, start, subs, end)), p + |text|)
            else NotRead(ReadValue(d, p), ValueOf(x, Node(key, start, subs, end)))
    decreases subs, 3
  {
    hide ReadValue, MoreMembers, Render, Ascii, Opening, Closing, Inner, Name, Slice, EscapedAll, Plain, Stands;
    NodeText(x, key, start, subs, end);
    var name, s := Name(x, key), Slice(x.input, start, end);
    var o, i, c := Opening(name, start), Inner(subs == [], RenderAll(Json, x, subs, true)), Closing(end, EscapedAll(s));
    assert o + i + c == o + (i + c);
    ClosingStarts(end, EscapedAll(s));
    InnerStarts(subs == [], RenderAll(Json, x, subs, true), c);
    OpeningRead(d, p, name, start, i + c);
    StandsSplit(d, p + |o|, i, c);
    var q := p + |o| + |i|;
    ClosingParts(d, q, end, EscapedAll(s));
    CaptureStringIff(d, DataAt(q, end), s);
    var ms := [Member(Ascii("type"), Text(name)), Member(Ascii("s"), Number(start + 1))];
    var parts := if subs == [] then [] else [Member(Ascii("subs"), List(ValuesOf(x, subs)))];
    var e, data := Member(Ascii("e"), Number(end + 1)), Member(Ascii("data"), Text(s));
    if subs != [] { InnerIff(x, subs, c, d, p + |o|, ms); } else { InnerNone(RenderAll(Json, x, subs, true)); }
    ClosingRead(d, q, end, EscapedAll(s), s, 0 !in s, ms + parts);
    var full := ms + parts + [e, data];
    assert full == [] + [ms[0]] + full[1..] == ms + parts + [e] + [data] + [];
    if !Plain(name) {
      DiffersInside(ReadValue(d, p), [], ms[0], full[1..]);
    } else if !AllClean(x, subs) {
      assert full == ms + [parts[0]] + [e, data];
      DiffersInside(ReadValue(d, p), ms, parts[0], [e, data]);
    } else {
      assert ms + [] == ms;
      if 0 in s { DiffersInside(ReadValue(d, p), ms + parts + [e], data, []); }
    }
  }

  lemma InnerNone(subs: seq<Byte>)
    ensures Inner(true, subs) == []
  {
  }

  lemma InnerStarts(bare: bool, subs: seq<Byte>, c: seq<Byte>)
    requires c != [] && c[0] == 44
    ensures Inner(bare, subs) + c != [] && (Inner(bare, subs) + c)[0] == 44
  {
  }

  /** The parts of a capture, between its start and its end. */
  lemma {:induction false} InnerIff(x: Source, subs: seq<CapTree>, c: seq<Byte>, d: seq<Byte>, p: nat, ms: seq<Member>)
    requires Terminated(d) && subs != [] && c != []
    requires Stands(d, p, Inner(false, RenderAll(Json, x, subs, true)) + c)
    ensures p < |d| && p + |Inner(false, RenderAll(Json, x, subs, true))| < |d|
    ensures var m := Member(Ascii("subs"), List(ValuesOf(x, subs)));
            var q := p + |Inner(false, RenderAll(Json, x, subs, true))|;
            if AllClean(x, subs) then MoreMembers(d, p, ms) == MoreMembers(d, q, ms + [m])
            else Differs(MoreMembers(d, p, ms), ms, m)
    decreases subs, 2
  {
    hide ReadValue, ReadMembers, MoreMembers, Render, RenderAll, Ascii, Stands, Field, Plain;
    PlainKeys();
    var f, items := Field(Ascii("subs")), RenderAll(Json, x, subs, true);
    var list := [91] + items + [93];
    StandsSplit(d, p, Inner(false, items), c);
    StandsSplit(d, p, [44] + f, list);
    StandsSplit(d, p, [44], f);
    CommaStep(d, p, ms);
    FieldRead(d, p + 1, Ascii("subs"), ms);
    ListIff(x, subs, d, p + 1 + |f|);
    var r := ReadValue(d, p + 1 + |f|);
    if r.Found? {
      MembersKeep(d, r.next, ms + [Member(Ascii("subs"), r.v)]);
      var all := MoreMembers(d, r.next, ms + [Member(Ascii("subs"), r.v)]);
      if all.Found? { PrefixThen(ms, Member(Ascii("subs"), r.v), all.v.members); }
    }
  }

  lemma {:induction false} ListIff(x: Source, subs: seq<CapTree>, d: seq<Byte>, p: nat)
    requires var text := [91] + RenderAll(Json, x, subs, true) + [93];
             Terminated(d) && subs != [] && Stands(d, p, text) && p + |text| < |d|
    ensures var text := [91] + RenderAll(Json, x, subs, true) + [93];
            if AllClean(x, subs) then ReadValue(d, p) == Found(List(ValuesOf(x, subs)), p + |text|)
            else NotRead(ReadValue(d, p), List(ValuesOf(x, subs)))
    decreases subs, 1
  {
    hide ReadItems, Render, Stands;
    var items := RenderAll(Json, x, subs, true);
    Assoc([91], items, [93]);
    StandsSplit(d, p, [91], items + [93]);
    RenderStarts(x, subs[0]);
    ListStart(d, p, items + [93]);
    ForestIff(x, subs, d, p + 1, []);
    assert [] + ValuesOf(x, subs) == ValuesOf(x, subs);
  }

  lemma ListStart(d: seq<Byte>, p: nat, text: seq<Byte>)
    requires Terminated(d) && Stands(d, p, [91]) && Stands(d, p + 1, text) && text != [] && text[0] == 123
    ensures p + 1 < |d| && ReadValue(d, p) == ReadItems(d, p + 1, [])
  {
  }

  /** Captures with commas between them, and a bracket behind. */
  lemma {:induction false} ForestIff(x: Source, forest: seq<CapTree>, d: seq<Byte>, p: nat, items: seq<Value>)
    requires var text := RenderAll(Json, x, forest, true);
             Terminated(d) && forest != [] && Stands(d, p, text + [93]) && p + |text| + 1 < |d|
    ensures var text := RenderAll(Json, x, forest, true);
            if AllClean(x, forest) then
              ReadItems(d, p, items) == Found(List(items + ValuesOf(x, forest)), p + |text| + 1)
            else NotRead(ReadItems(d, p, items), List(items + ValuesOf(x, forest)))
    decreases forest, 0
  {
    hide ReadValue, MoreItems, Render, Stands, ValueOf, Clean;
    var first, tail := Render(Json, x, forest[0], true), forest[1..];
    var others := RenderAll(Json, x, tail, false);
    Assoc(first, others, [93]);
    StandsSplit(d, p, first, others + [93]);
    TreeIff(x, forest[0], d, p);
    var r, v, q := ReadValue(d, p), ValueOf(x, forest[0]), p + |first|;
    assert items + ValuesOf(x, forest) == items + [v] + ValuesOf(x, tail);
    if r.Found? {
      ItemsKeep(d, r.next, items + [r.v]);
      var all := MoreItems(d, r.next, items + [r.v]);
      if all.Found? && r.v != v { OtherItem(all.v.items, items, r.v, v, ValuesOf(x, tail)); }
    }
    if Clean(x, forest[0]) {
      if tail == [] {
        assert others == [];
        BracketStep(d, q, items + [v]);
        assert items + [v] + ValuesOf(x, tail) == items + [v];
        assert AllClean(x, forest);
        assert ReadItems(d, p, items) == Found(List(items + [v]), q + 1);
        assert |RenderAll(Json, x, forest, true)| == |first|;
      } else {
        CommaFirst(x, tail[0]);
        var more := RenderAll(Json, x, tail, true);
        Assoc([44], Render(Json, x, tail[0], true), RenderAll(Json, x, tail[1..], false));
        assert others == [44] + more;
        Assoc([44], more, [93]);
        StandsSplit(d, q, [44], more + [93]);
        ItemsCommaStep(d, q, items + [v]);
        ForestIff(x, tail, d, q + 1, items + [v]);
      }
    }
  }

  lemma OtherItem(all: seq<Value>, items: seq<Value>, w: Value, v: Value, rest: seq<Value>)
    requires items + [w] <= all && w != v
    ensures all != items + [v] + rest
  {
    assert all[|items|] == (items + [w])[|items|] == w && (items + [v] + rest)[|items|] == v;
  }

  lemma BracketStep(d: seq<Byte>, p: nat, items: seq<Value>)
    requires Terminated(d) && Stands(d, p, [] + [93])
    ensures p + 1 < |d| && MoreItems(d, p, items) == Found(List(items), p + 1)
  {
  }

  lemma ItemsCommaStep(d: seq<Byte>, p: nat, items: seq<Value>)
    requires Terminated(d) && Stands(d, p, [44])
    ensures p + 1 < |d| && MoreItems(d, p, items) == ReadItems(d, p + 1, items)
  {
  }

  /** The output for a capture is read as type, start, parts, end and data of the capture exactly if all its names
      and constant values could be written as they are and no text in it holds a NUL. */
  lemma {:induction false} TreeIff(x: Source, c: CapTree, d: seq<Byte>, p: nat)
    requires var text := Render(Json, x, c, true); Terminated(d) && Stands(d, p, text) && p + |text| < |d|
    ensures var text := Render(Json, x, c, true);
            if Clean(x, c) then ReadValue(d, p) == Found(ValueOf(x, c), p + |text|)
            else NotRead(ReadValue(d, p), ValueOf(x, c))
    decreases c, 0
  {
    match c
    case Node(key, start, subs, end) => NodeIff(x, key, start, subs, end, d, p);
    case Const(key, value, pos) => ConstIff(x, key, value, pos, d, p);
  }

  /** A whole text: a value, and nothing behind it. */
  function ReadText(text: seq<Byte>): Found {
    var r := ReadValue(text + [0], 0);
    if r.Found? && r.next == |text| then r else NoValue
  }

  lemma OutputReadIff(x: Source, c: CapTree)
    ensures var text := Render(Json, x, c, true);
            ReadText(text) == Found(ValueOf(x, c), |text|) <==> Clean(x, c)
  {
    hide Render, ReadValue, ValueOf, Clean;
    var text := Render(Json, x, c, true);
    assert (text + [0])[0..|text|] == text;
    SliceStands(text + [0], 0, text);
    TreeIff(x, c, text + [0], 0);
  }
}
