/** Which JSON texts the parser accepts, exactly, and what value it takes each of them for. */
module JsonGrammar {
  // A text is taken apart into the pieces that section 2 of RFC 8259 names.  Numbers are left out, as in the parser.

  import opened Peg
  import opened Buffers
  import opened JsonStrings
  import opened Json
  import opened JsonSpelling
  import Output

  // ---------- texts ----------

  /** A value with the white space in front of it. */
  datatype Doc = Doc(space: seq<Byte>, body: Body)

  /** `blank` is what stands in an array or object that is empty. */
  datatype Body =
    | NullWord
    | BoolWord(b: bool)
    | Quote(xs: seq<Piece>)
    | Array(items: seq<Item>, blank: seq<Byte>)
    | Object(entries: seq<Entry>, blank: seq<Byte>)

  datatype Item = Item(doc: Doc, behind: seq<Byte>)

  datatype Entry = Entry(before: seq<Byte>, key: seq<Piece>, mid: seq<Byte>, doc: Doc, behind: seq<Byte>)

  predicate Blank(space: seq<Byte>) {
    forall i :: 0 <= i < |space| ==> space[i] == 32 || space[i] == 9 || space[i] == 10 || space[i] == 13
  }

  predicate ProperDoc(doc: Doc) { Blank(doc.space) && ProperBody(doc.body) }

  predicate ProperBody(b: Body) {
    match b
    case Quote(xs) => AllProper(xs)
    case Array(items, blank) => Blank(blank) && ProperItems(items)
    case Object(entries, blank) => Blank(blank) && ProperEntries(entries)
    case _ => true
  }

  predicate ProperItems(items: seq<Item>) {
    items == [] || (ProperDoc(items[0].doc) && Blank(items[0].behind) && ProperItems(items[1..]))
  }

  predicate ProperEntries(entries: seq<Entry>) {
    entries == [] ||
    (Blank(entries[0].before) && AllProper(entries[0].key) && Blank(entries[0].mid) && ProperDoc(entries[0].doc) &&
     Blank(entries[0].behind) && ProperEntries(entries[1..]))
  }

  // ---------- how they are written ----------

  function Spell(doc: Doc): seq<Byte>
    requires ProperDoc(doc)
    decreases doc
  {
    doc.space + SpellBody(doc.body)
  }

  function SpellBody(b: Body): seq<Byte>
    requires ProperBody(b)
    decreases b
  {
    match b
    case NullWord => NULL
    case BoolWord(b) => if b then TRUE else FALSE
    case Quote(xs) => [34] + (SpellingAll(xs) + [34])
    case Array(items, blank) => [91] + (if items == [] then blank + [93] else SpellItems(items))
    case Object(entries, blank) => [123] + (if entries == [] then blank + [125] else SpellEntries(entries))
  }

  /** Items with commas between them, and the closing bracket. */
  function SpellItems(items: seq<Item>): seq<Byte>
    requires items != [] && ProperItems(items)
    decreases items
  {
    Spell(items[0].doc) + (items[0].behind + (if |items| == 1 then [93] else [44] + SpellItems(items[1..])))
  }

  function SpellEntries(entries: seq<Entry>): seq<Byte>
    requires entries != [] && ProperEntries(entries)
    decreases entries
  {
    SpellKey(entries[0]) +
    (Spell(entries[0].doc) +
     (entries[0].behind + (if |entries| == 1 then [125] else [44] + SpellEntries(entries[1..]))))
  }

  /** A key and a colon. */
  function SpellKey(e: Entry): seq<Byte>
    requires AllProper(e.key)
  {
    e.before + ([34] + (SpellingAll(e.key) + [34])) + (e.mid + [58])
  }

  // ---------- what they stand for ----------

  function Sense(doc: Doc): Value
    requires ProperDoc(doc)
    decreases doc
  {
    SenseBody(doc.body)
  }

  function SenseBody(b: Body): Value
    requires ProperBody(b)
    decreases b
  {
    match b
    case NullWord => JNull
    case BoolWord(b) => JBool(b)
    case Quote(xs) => JString(SenseAll(xs))
    case Array(items, _) => if items == [] then JObject([]) else JArray(SenseItems(items))
    case Object(entries, _) => JObject(PutAll([], SenseEntries(entries)))
  }

  function SenseItems(items: seq<Item>): seq<Value>
    requires ProperItems(items)
    decreases items
  {
    if items == [] then [] else [Sense(items[0].doc)] + SenseItems(items[1..])
  }

  function SenseEntries(entries: seq<Entry>): seq<Member>
    requires ProperEntries(entries)
    decreases entries
  {
    if entries == [] then []
    else [Member(SenseAll(entries[0].key), Sense(entries[0].doc))] + SenseEntries(entries[1..])
  }

  /** One assignment after the other. */
  function PutAll(acc: seq<Member>, ms: seq<Member>): seq<Member>
    decreases |ms|
  {
    if ms == [] then acc else PutAll(Put(acc, ms[0].key, ms[0].value), ms[1..])
  }

  /** Nested at most so deep. */
  predicate Shallow(doc: Doc, n: nat)
    decreases doc
  {
    match doc.body
    case Array(items, _) => n > 0 && ShallowItems(items, n - 1)
    case Object(entries, _) => n > 0 && ShallowEntries(entries, n - 1)
    case _ => true
  }

  predicate ShallowItems(items: seq<Item>, n: nat)
    decreases items
  {
    items == [] || (Shallow(items[0].doc, n) && ShallowItems(items[1..], n))
  }

  predicate ShallowEntries(entries: seq<Entry>, n: nat)
    decreases entries
  {
    entries == [] || (Shallow(entries[0].doc, n) && ShallowEntries(entries[1..], n))
  }

  // ---------- the last value of a key counts ----------

  /** The value of a key in a table. */
  function Lookup(ms: seq<Member>, key: seq<Byte>): Option<Value> {
    if ms == [] then None else if ms[0].key == key then Some(ms[0].value) else Lookup(ms[1..], key)
  }

  /** The last value that a key is given. */
  function LastOf(ms: seq<Member>, key: seq<Byte>): Option<Value> {
    if ms == [] then None
    else if ms[|ms| - 1].key == key then Some(ms[|ms| - 1].value)
    else LastOf(ms[..|ms| - 1], key)
  }

  predicate Distinct(ms: seq<Member>) {
    ms == [] || (Lookup(ms[1..], ms[0].key).None? && Distinct(ms[1..]))
  }

  lemma {:induction false} PutIs(ms: seq<Member>, key: seq<Byte>, v: Value, other: seq<Byte>)
    ensures Lookup(Put(ms, key, v), other) == if other == key then Some(v) else Lookup(ms, other)
    decreases |ms|
  {
    if ms != [] && ms[0].key != key {
      PutIs(ms[1..], key, v, other);
      assert Put(ms, key, v)[1..] == Put(ms[1..], key, v);
    }
  }

  lemma {:induction false} PutDistinct(ms: seq<Member>, key: seq<Byte>, v: Value)
    requires Distinct(ms)
    ensures Distinct(Put(ms, key, v))
    decreases |ms|
  {
    if ms != [] {
      if ms[0].key == key {
        assert Put(ms, key, v)[1..] == ms[1..];
      } else {
        PutDistinct(ms[1..], key, v);
        PutIs(ms[1..], key, v, ms[0].key);
        assert Put(ms, key, v)[1..] == Put(ms[1..], key, v);
      }
    }
  }

  lemma {:induction false} LastOfFirst(m: Member, ms: seq<Member>, key: seq<Byte>)
    ensures LastOf([m] + ms, key) ==
            if LastOf(ms, key).Some? then LastOf(ms, key) else if m.key == key then Some(m.value) else None
    decreases |ms|
  {
    var all := [m] + ms;
    if ms == [] {
      assert all == [m] && all[..0] == [];
    } else {
      assert all[..|all| - 1] == [m] + ms[..|ms| - 1];
      LastOfFirst(m, ms[..|ms| - 1], key);
    }
  }

  /** In the table of an object each key stands once, with the last of its values. */
  lemma {:induction false} LastWins(acc: seq<Member>, ms: seq<Member>, key: seq<Byte>)
    requires Distinct(acc)
    ensures Distinct(PutAll(acc, ms))
    ensures Lookup(PutAll(acc, ms), key) == if LastOf(ms, key).Some? then LastOf(ms, key) else Lookup(acc, key)
    decreases |ms|
  {
    if ms != [] {
      PutDistinct(acc, ms[0].key, ms[0].value);
      PutIs(acc, ms[0].key, ms[0].value, key);
      LastWins(Put(acc, ms[0].key, ms[0].value), ms[1..], key);
      LastOfFirst(ms[0], ms[1..], key);
      assert ms == [ms[0]] + ms[1..];
    }
  }

  // ---------- tokens ----------

  predicate IsMark(c: Byte) { c == 123 || c == 125 || c == 91 || c == 93 || c == 44 || c == 58 }

  lemma {:induction false} LexBlank(d: seq<Byte>, p: nat, space: seq<Byte>)
    requires Terminated(d) && Blank(space) && Stands(d, p, space) && p + |space| < |d|
    ensures Lex(d, p) == Lex(d, p + |space|)
    decreases |space|
  {
    if space != [] {
      assert space[0] in space;
      LexBlank(d, p + 1, space[1..]);
    }
  }

  /** The white space in front of a token. */
  lemma {:induction false} BlankOf(d: seq<Byte>, p: nat) returns (space: seq<Byte>)
    requires Terminated(d) && p < |d|
    ensures Blank(space) && Stands(d, p, space) && p + |space| < |d| && Lex(d, p) == Lex(d, p + |space|)
    ensures var c := d[p + |space|]; c != 32 && c != 9 && c != 10 && c != 13
    decreases |d| - p
  {
    if d[p] == 32 || d[p] == 9 || d[p] == 10 || d[p] == 13 {
      var rest := BlankOf(d, p + 1);
      space := [d[p]] + rest;
    } else {
      space := [];
    }
  }

  lemma MarkBack(d: seq<Byte>, p: nat, space: seq<Byte>, c: Byte)
    requires Terminated(d) && Blank(space) && IsMark(c) && Stands(d, p, space + [c])
    ensures p + |space| + 1 < |d| && Lex(d, p) == Lexed(SingleToken(c), p + |space|, p + |space| + 1)
  {
    StandsSplit(d, p, space, [c]);
    LexBlank(d, p, space);
  }

  lemma MarkFound(d: seq<Byte>, p: nat, c: Byte) returns (space: seq<Byte>)
    requires Terminated(d) && p < |d| && IsMark(c) && Lex(d, p).tok == SingleToken(c)
    ensures Blank(space) && Stands(d, p, space + [c]) && Lex(d, p).next == p + |space| + 1
  {
    space := BlankOf(d, p);
    assert d[p + |space|] == c;
    ByteStands(d, p + |space|);
    StandsJoin(d, p, space, [c]);
  }

  lemma LexQuote(d: seq<Byte>, p: nat)
    requires Terminated(d) && p < |d| && d[p] == 34
    ensures p + 1 < |d|
    ensures var r := ReadChars(d, p + 1);
            Lex(d, p) == if r.Good? then Lexed(Text(r.text), p, r.next) else Lexed(Bad, r.at, r.at)
  {
    hide ReadChars;
  }

  lemma QuoteBack(d: seq<Byte>, p: nat, space: seq<Byte>, xs: seq<Piece>)
    requires Terminated(d) && Blank(space) && AllProper(xs)
    requires Stands(d, p, space + ([34] + (SpellingAll(xs) + [34])))
    ensures var q := p + |space|;
            var next := q + |SpellingAll(xs)| + 2;
            next < |d| && Lex(d, p) == Lexed(Text(SenseAll(xs)), q, next)
  {
    hide ReadChars, Lex, SpellingAll, SenseAll;
    StandsSplit(d, p, space, [34] + (SpellingAll(xs) + [34]));
    StandsSplit(d, p + |space|, [34], SpellingAll(xs) + [34]);
    LexBlank(d, p, space);
    PiecesBack(d, p + |space| + 1, xs);
    LexQuote(d, p + |space|);
  }

  lemma TextQuote(d: seq<Byte>, p: nat)
    requires Terminated(d) && p < |d| && d[p] != 32 && d[p] != 9 && d[p] != 10 && d[p] != 13 && Lex(d, p).tok.Text?
    ensures d[p] == 34
  {
    hide ReadChars;
  }

  lemma QuoteFound(d: seq<Byte>, p: nat) returns (space: seq<Byte>, xs: seq<Piece>)
    requires Terminated(d) && p < |d| && Lex(d, p).tok.Text?
    ensures Blank(space) && AllProper(xs) && Stands(d, p, space + ([34] + (SpellingAll(xs) + [34])))
    ensures Lex(d, p).tok.s == SenseAll(xs) && Lex(d, p).next == p + |space| + |SpellingAll(xs)| + 2
  {
    hide ReadChars, Lex, SpellingAll, SenseAll;
    space := BlankOf(d, p);
    var q := p + |space|;
    TextQuote(d, q);
    LexQuote(d, q);
    xs := ReadPieces(d, q + 1);
    ByteStands(d, q);
    StandsJoin(d, q, [34], SpellingAll(xs) + [34]);
    StandsJoin(d, p, space, [34] + (SpellingAll(xs) + [34]));
  }

  lemma WordBack(d: seq<Byte>, p: nat, space: seq<Byte>, word: seq<Byte>)
    requires Terminated(d) && Blank(space) && word in [NULL, TRUE, FALSE] && Stands(d, p, space + word)
    ensures p + |space| + |word| < |d|
    ensures Lex(d, p) ==
            Lexed(if word == NULL then Null else Boolean(word == TRUE), p + |space|, p + |space| + |word|)
  {
    hide Lex, Blank, Stands;
    StandsSplit(d, p, space, word);
    LexWord(d, p + |space|, word);
    LexBlank(d, p, space);
  }

  lemma WordFound(d: seq<Byte>, p: nat, word: seq<Byte>) returns (space: seq<Byte>)
    requires Terminated(d) && p < |d| && word in [NULL, TRUE, FALSE]
    requires Lex(d, p).tok == if word == NULL then Null else Boolean(word == TRUE)
    ensures Blank(space) && Stands(d, p, space + word) && Lex(d, p).next == p + |space| + |word|
  {
    space := BlankOf(d, p);
    assert Stands(d, p + |space|, word);
    StandsJoin(d, p, space, word);
  }

  // ---------- texts are accepted ----------

  lemma {:induction false} DocBack(d: seq<Byte>, p: nat, doc: Doc, depth: nat, max: nat)
    requires Terminated(d) && ProperDoc(doc) && depth <= max && Shallow(doc, max - depth) && Stands(d, p, Spell(doc))
    ensures p + |Spell(doc)| < |d| && ParseValue(d, p, depth, max) == Parsed(Sense(doc), p + |Spell(doc)|)
    decreases doc
  {
    hide ParseItems, ParseMembers, Lex, SpellItems, SpellEntries, Stands;
    var space := doc.space;
    match doc.body
    case NullWord => WordBack(d, p, space, NULL);
    case BoolWord(b) => WordBack(d, p, space, if b then TRUE else FALSE);
    case Quote(xs) => QuoteBack(d, p, space, xs);
    case Array(items, blank) =>
      var rest := if items == [] then blank + [93] else SpellItems(items);
      OpenBack(d, p, space, 91, rest);
      ArrayOpens(d, p, p + |space| + 1, depth, max);
      if items == [] {
        MarkBack(d, p + |space| + 1, blank, 93);
      } else {
        TextItemsBack(d, p + |space| + 1, items, depth + 1, max, []);
        assert [] + SenseItems(items) == SenseItems(items);
      }
    case Object(entries, blank) =>
      var rest := if entries == [] then blank + [125] else SpellEntries(entries);
      OpenBack(d, p, space, 123, rest);
      ObjectOpens(d, p, p + |space| + 1, depth, max);
      if entries == [] {
        assert PutAll([], SenseEntries(entries)) == [];
        MarkBack(d, p + |space| + 1, blank, 125);
      } else {
        EntriesBack(d, p + |space| + 1, entries, depth + 1, max, []);
      }
  }

  lemma ArrayOpens(d: seq<Byte>, p: nat, q: nat, depth: nat, max: nat)
    requires Terminated(d) && p < |d| && q < |d| && Lex(d, p).tok == ArrBegin && Lex(d, p).next == q
    ensures ParseValue(d, p, depth, max) ==
            if depth >= max then Fails(TooDeep(depth + 1, q))
            else if Lex(d, q).tok.ArrEnd? then Parsed(JObject([]), Lex(d, q).next)
            else ParseItems(d, q, depth + 1, max, [])
  {
    hide Lex, ParseItems;
  }

  lemma ObjectOpens(d: seq<Byte>, p: nat, q: nat, depth: nat, max: nat)
    requires Terminated(d) && p < |d| && q < |d| && Lex(d, p).tok == ObjBegin && Lex(d, p).next == q
    ensures ParseValue(d, p, depth, max) ==
            if depth >= max then Fails(TooDeep(depth + 1, q))
            else if Lex(d, q).tok.ObjEnd? then Parsed(JObject([]), Lex(d, q).next)
            else ParseMembers(d, q, depth + 1, max, [])
  {
    hide Lex, ParseMembers;
  }

  lemma OpenBack(d: seq<Byte>, p: nat, space: seq<Byte>, c: Byte, rest: seq<Byte>)
    requires Terminated(d) && Blank(space) && IsMark(c) && Stands(d, p, space + ([c] + rest))
    ensures p + |space| + 1 < |d| && Lex(d, p) == Lexed(SingleToken(c), p + |space|, p + |space| + 1)
    ensures Stands(d, p + |space| + 1, rest)
  {
    hide Lex, Stands, Blank;
    Output.Assoc(space, [c], rest);
    StandsSplit(d, p, space + [c], rest);
    MarkBack(d, p, space, c);
  }

  lemma ItemStep(d: seq<Byte>, p: nat, v: Value, next: nat, depth: nat, max: nat, acc: seq<Value>)
    requires Terminated(d) && p < |d| && next < |d| && ParseValue(d, p, depth, max) == Parsed(v, next)
    ensures ParseItems(d, p, depth, max, acc) == AfterItem(d, next, depth, max, acc + [v])
    ensures !Lex(d, p).tok.ArrEnd?
  {
    hide Lex, AfterItem, ParseArray, ParseObject;
  }

  lemma CommaItem(d: seq<Byte>, p: nat, q: nat, depth: nat, max: nat, acc: seq<Value>)
    requires Terminated(d) && p < |d| && Lex(d, p).tok == Comma && Lex(d, p).next == q
    ensures AfterItem(d, p, depth, max, acc) == ParseItems(d, q, depth, max, acc)
  {
    hide Lex, ParseItems;
  }

  lemma BracketItem(d: seq<Byte>, p: nat, q: nat, depth: nat, max: nat, acc: seq<Value>)
    requires Terminated(d) && p < |d| && Lex(d, p).tok == ArrEnd && Lex(d, p).next == q
    ensures AfterItem(d, p, depth, max, acc) == Parsed(JArray(acc), q)
  {
    hide Lex, ParseItems;
  }

  lemma {:induction false} TextItemsBack(
    d: seq<Byte>, p: nat, items: seq<Item>, depth: nat, max: nat, acc: seq<Value>)
    requires Terminated(d) && items != [] && ProperItems(items) && depth <= max && ShallowItems(items, max - depth)
    requires Stands(d, p, SpellItems(items))
    ensures p + |SpellItems(items)| < |d| && !Lex(d, p).tok.ArrEnd?
    ensures ParseItems(d, p, depth, max, acc) == Parsed(JArray(acc + SenseItems(items)), p + |SpellItems(items)|)
    decreases items
  {
    hide Lex, Spell, Sense, Shallow, ProperDoc, Stands, Blank, ParseItems, AfterItem, ParseValue;
    var doc, behind := items[0].doc, items[0].behind;
    var rest := if |items| == 1 then [93] else [44] + SpellItems(items[1..]);
    StandsSplit(d, p, Spell(doc), behind + rest);
    DocBack(d, p, doc, depth, max);
    var q := p + |Spell(doc)|;
    ItemStep(d, p, Sense(doc), q, depth, max, acc);
    if |items| == 1 {
      MarkBack(d, q, behind, 93);
      BracketItem(d, q, q + |behind| + 1, depth, max, acc + [Sense(doc)]);
      assert SenseItems(items) == [Sense(doc)] + [];
      assert acc + ([Sense(doc)] + []) == acc + [Sense(doc)];
    } else {
      OpenBack(d, q, behind, 44, SpellItems(items[1..]));
      CommaItem(d, q, q + |behind| + 1, depth, max, acc + [Sense(doc)]);
      TextItemsBack(d, q + |behind| + 1, items[1..], depth, max, acc + [Sense(doc)]);
      assert acc + ([Sense(doc)] + SenseItems(items[1..])) == acc + [Sense(doc)] + SenseItems(items[1..]);
    }
  }

  lemma KeyBack(d: seq<Byte>, p: nat, e: Entry, rest: seq<Byte>)
    requires Terminated(d) && Blank(e.before) && AllProper(e.key) && Blank(e.mid) && Stands(d, p, SpellKey(e) + rest)
    ensures var t := Lex(d, p);
            && t.tok == Text(SenseAll(e.key)) && Lex(d, t.next).tok == Colon
            && Lex(d, t.next).next == p + |SpellKey(e)| < |d| && Stands(d, p + |SpellKey(e)|, rest)
  {
    hide Lex, Stands, Blank, SpellingAll, SenseAll, AllProper;
    var quoted := [34] + (SpellingAll(e.key) + [34]);
    StandsSplit(d, p, SpellKey(e), rest);
    StandsSplit(d, p, e.before + quoted, e.mid + [58]);
    QuoteBack(d, p, e.before, e.key);
    MarkBack(d, p + |e.before + quoted|, e.mid, 58);
  }

  lemma FirstEntry(entries: seq<Entry>, acc: seq<Member>)
    requires entries != [] && ProperEntries(entries)
    ensures var k, v := SenseAll(entries[0].key), Sense(entries[0].doc);
            PutAll(acc, SenseEntries(entries)) == PutAll(Put(acc, k, v), SenseEntries(entries[1..]))
  {
    hide Put, Sense, SenseAll;
    assert SenseEntries(entries)[1..] == SenseEntries(entries[1..]);
  }

  /** A member, once its key, the colon and its value have been found. */
  lemma MemberStep(d: seq<Byte>, p: nat, k: seq<Byte>, q: nat, v: Value, next: nat, depth: nat, max: nat,
                   acc: seq<Member>)
    requires Terminated(d) && p < |d| && q < |d| && next < |d| && Lex(d, p).tok == Text(k)
    requires var c := Lex(d, Lex(d, p).next); c.tok == Colon && c.next == q
    requires ParseValue(d, q, depth, max) == Parsed(v, next)
    ensures ParseMembers(d, p, depth, max, acc) == AfterMember(d, next, depth, max, Put(acc, k, v))
  {
    hide Lex, ParseValue, AfterMember, Put;
  }

  lemma CommaMember(d: seq<Byte>, p: nat, q: nat, depth: nat, max: nat, acc: seq<Member>)
    requires Terminated(d) && p < |d| && Lex(d, p).tok == Comma && Lex(d, p).next == q
    ensures AfterMember(d, p, depth, max, acc) == ParseMembers(d, q, depth, max, acc)
  {
    hide Lex, ParseMembers;
  }

  lemma BraceMember(d: seq<Byte>, p: nat, q: nat, depth: nat, max: nat, acc: seq<Member>)
    requires Terminated(d) && p < |d| && Lex(d, p).tok == ObjEnd && Lex(d, p).next == q
    ensures AfterMember(d, p, depth, max, acc) == Parsed(JObject(acc), q)
  {
    hide Lex, ParseMembers;
  }

  lemma {:induction false} EntriesBack(
    d: seq<Byte>, p: nat, entries: seq<Entry>, depth: nat, max: nat, acc: seq<Member>)
    requires Terminated(d) && entries != [] && ProperEntries(entries)
    requires depth <= max && ShallowEntries(entries, max - depth) && Stands(d, p, SpellEntries(entries))
    ensures p + |SpellEntries(entries)| < |d| && !Lex(d, p).tok.ObjEnd?
    ensures ParseMembers(d, p, depth, max, acc) ==
            Parsed(JObject(PutAll(acc, SenseEntries(entries))), p + |SpellEntries(entries)|)
    decreases entries
  {
    hide Lex, Spell, SpellKey, Sense, Shallow, ProperDoc, Put, Stands, Blank, ParseMembers, AfterMember, ParseValue;
    FirstEntry(entries, acc);
    var e, doc, behind := entries[0], entries[0].doc, entries[0].behind;
    var rest := if |entries| == 1 then [125] else [44] + SpellEntries(entries[1..]);
    KeyBack(d, p, e, Spell(doc) + (behind + rest));
    var q := p + |SpellKey(e)|;
    StandsSplit(d, q, Spell(doc), behind + rest);
    DocBack(d, q, doc, depth, max);
    var m, q' := Member(SenseAll(e.key), Sense(doc)), q + |Spell(doc)|;
    MemberStep(d, p, m.key, q, m.value, q', depth, max, acc);
    if |entries| == 1 {
      MarkBack(d, q', behind, 125);
      BraceMember(d, q', q' + |behind| + 1, depth, max, Put(acc, m.key, m.value));
      assert entries[1..] == [];
    } else {
      OpenBack(d, q', behind, 44, SpellEntries(entries[1..]));
      CommaMember(d, q', q' + |behind| + 1, depth, max, Put(acc, m.key, m.value));
      EntriesBack(d, q' + |behind| + 1, entries[1..], depth, max, Put(acc, m.key, m.value));
    }
  }

  // ---------- what is accepted was such a text ----------

  lemma OpenFound(d: seq<Byte>, p: nat, space: seq<Byte>, c: Byte, rest: seq<Byte>)
    requires Stands(d, p, space + [c]) && Stands(d, p + |space| + 1, rest)
    ensures Stands(d, p, space + ([c] + rest))
  {
    hide Stands;
    Output.Assoc(space, [c], rest);
    StandsJoin(d, p, space + [c], rest);
  }

  lemma {:induction false} DocFound(d: seq<Byte>, p: nat, depth: nat, max: nat) returns (doc: Doc)
    requires Terminated(d) && p < |d| && depth <= max && ParseValue(d, p, depth, max).Parsed?
    ensures ProperDoc(doc) && Shallow(doc, max - depth) && Stands(d, p, Spell(doc))
    ensures ParseValue(d, p, depth, max) == Parsed(Sense(doc), p + |Spell(doc)|)
    decreases |d| - p, 0
  {
    hide Lex, Stands, Blank;
    var t := Lex(d, p);
    match t.tok
    case Text(_) =>
      var space, xs := QuoteFound(d, p);
      doc := Doc(space, Quote(xs));
    case Boolean(b) =>
      var space := WordFound(d, p, if b then TRUE else FALSE);
      doc := Doc(space, BoolWord(b));
    case Null =>
      var space := WordFound(d, p, NULL);
      doc := Doc(space, NullWord);
    case ArrBegin => doc := ArrayFound(d, p, depth, max);
    case ObjBegin => doc := ObjectFound(d, p, depth, max);
    case _ =>
  }

  lemma ArrayIs(space: seq<Byte>, items: seq<Item>, blank: seq<Byte>, n: nat)
    requires Blank(space) && Blank(blank) && ProperItems(items) && n > 0 && ShallowItems(items, n - 1)
    ensures var doc := Doc(space, Array(items, blank));
            ProperDoc(doc) && Shallow(doc, n) &&
            Spell(doc) == space + ([91] + (if items == [] then blank + [93] else SpellItems(items))) &&
            Sense(doc) == if items == [] then JObject([]) else JArray(SenseItems(items))
  {
    hide Blank, SpellItems, SenseItems;
    var doc := Doc(space, Array(items, blank));
    assert ProperBody(doc.body);
    assert SpellBody(doc.body) == [91] + (if items == [] then blank + [93] else SpellItems(items));
  }

  lemma ObjectIs(space: seq<Byte>, entries: seq<Entry>, blank: seq<Byte>, n: nat)
    requires Blank(space) && Blank(blank) && ProperEntries(entries) && n > 0 && ShallowEntries(entries, n - 1)
    ensures var doc := Doc(space, Object(entries, blank));
            ProperDoc(doc) && Shallow(doc, n) &&
            Spell(doc) == space + ([123] + (if entries == [] then blank + [125] else SpellEntries(entries))) &&
            Sense(doc) == JObject(PutAll([], SenseEntries(entries)))
  {
    hide Blank, SpellEntries, SenseEntries, PutAll;
    var doc := Doc(space, Object(entries, blank));
    assert ProperBody(doc.body);
    assert SpellBody(doc.body) == [123] + (if entries == [] then blank + [125] else SpellEntries(entries));
  }

  lemma {:induction false} ArrayFound(d: seq<Byte>, p: nat, depth: nat, max: nat) returns (doc: Doc)
    requires Terminated(d) && p < |d| && depth <= max && ParseValue(d, p, depth, max).Parsed?
    requires Lex(d, p).tok.ArrBegin?
    ensures ProperDoc(doc) && Shallow(doc, max - depth) && Stands(d, p, Spell(doc))
    ensures ParseValue(d, p, depth, max) == Parsed(Sense(doc), p + |Spell(doc)|)
    decreases |d| - Lex(d, p).next, 2
  {
    hide Lex, Stands, Blank, ParseValue, ParseItems, ProperDoc, Shallow, Spell, Sense, SpellItems;
    var q := Lex(d, p).next;
    ArrayOpens(d, p, q, depth, max);
    var space := MarkFound(d, p, 91);
    if Lex(d, q).tok.ArrEnd? {
      var blank := MarkFound(d, q, 93);
      doc := Doc(space, Array([], blank));
      ArrayIs(space, [], blank, max - depth);
      OpenFound(d, p, space, 91, blank + [93]);
    } else {
      var items := ItemsFound(d, q, depth + 1, max, []);
      doc := Doc(space, Array(items, []));
      NoBlank();
      ArrayIs(space, items, [], max - depth);
      OpenFound(d, p, space, 91, SpellItems(items));
      assert [] + SenseItems(items) == SenseItems(items);
    }
  }

  lemma NoBlank()
    ensures Blank([])
  {
  }

  lemma {:induction false} ObjectFound(d: seq<Byte>, p: nat, depth: nat, max: nat) returns (doc: Doc)
    requires Terminated(d) && p < |d| && depth <= max && ParseValue(d, p, depth, max).Parsed?
    requires Lex(d, p).tok.ObjBegin?
    ensures ProperDoc(doc) && Shallow(doc, max - depth) && Stands(d, p, Spell(doc))
    ensures ParseValue(d, p, depth, max) == Parsed(Sense(doc), p + |Spell(doc)|)
    decreases |d| - Lex(d, p).next, 2
  {
    hide Lex, Stands, Blank, ParseValue, ParseMembers, ProperDoc, Shallow, Spell, Sense, SpellEntries;
    var q := Lex(d, p).next;
    ObjectOpens(d, p, q, depth, max);
    var space := MarkFound(d, p, 123);
    if Lex(d, q).tok.ObjEnd? {
      var blank := MarkFound(d, q, 125);
      doc := Doc(space, Object([], blank));
      ObjectIs(space, [], blank, max - depth);
      OpenFound(d, p, space, 123, blank + [125]);
      assert PutAll([], SenseEntries([])) == [];
    } else {
      var entries := EntriesFound(d, q, depth + 1, max, []);
      doc := Doc(space, Object(entries, []));
      NoBlank();
      ObjectIs(space, entries, [], max - depth);
      OpenFound(d, p, space, 123, SpellEntries(entries));
    }
  }

  lemma {:induction false} ItemsFound(d: seq<Byte>, p: nat, depth: nat, max: nat, acc: seq<Value>)
    returns (items: seq<Item>)
    requires Terminated(d) && p < |d| && depth <= max && ParseItems(d, p, depth, max, acc).Parsed?
    ensures items != [] && ProperItems(items) && ShallowItems(items, max - depth) && Stands(d, p, SpellItems(items))
    ensures ParseItems(d, p, depth, max, acc) == Parsed(JArray(acc + SenseItems(items)), p + |SpellItems(items)|)
    decreases |d| - p, 1
  {
    hide Lex, Stands, Blank, ParseValue, Spell, Sense, ProperDoc, Shallow;
    var doc := DocFound(d, p, depth, max);
    var q := p + |Spell(doc)|;
    ItemStep(d, p, Sense(doc), q, depth, max, acc);
    if Lex(d, q).tok.ArrEnd? {
      var behind := MarkFound(d, q, 93);
      items := [Item(doc, behind)];
      BracketItem(d, q, q + |behind| + 1, depth, max, acc + [Sense(doc)]);
      StandsJoin(d, p, Spell(doc), behind + [93]);
      assert items[1..] == [] && acc + ([Sense(doc)] + []) == acc + [Sense(doc)];
    } else {
      var behind := MarkFound(d, q, 44);
      CommaItem(d, q, q + |behind| + 1, depth, max, acc + [Sense(doc)]);
      var rest := ItemsFound(d, q + |behind| + 1, depth, max, acc + [Sense(doc)]);
      items := [Item(doc, behind)] + rest;
      OpenFound(d, q, behind, 44, SpellItems(rest));
      StandsJoin(d, p, Spell(doc), behind + ([44] + SpellItems(rest)));
      assert items[1..] == rest && acc + [Sense(doc)] + SenseItems(rest) == acc + ([Sense(doc)] + SenseItems(rest));
    }
  }

  /** The key of a member with its colon. */
  lemma KeyFound(d: seq<Byte>, p: nat) returns (before: seq<Byte>, key: seq<Piece>, mid: seq<Byte>)
    requires Terminated(d) && p < |d| && Lex(d, p).tok.Text? && Lex(d, Lex(d, p).next).tok.Colon?
    ensures Blank(before) && AllProper(key) && Blank(mid) && Lex(d, p).tok.s == SenseAll(key)
    ensures Stands(d, p, before + ([34] + (SpellingAll(key) + [34])) + (mid + [58]))
    ensures Lex(d, Lex(d, p).next).next == p + |before + ([34] + (SpellingAll(key) + [34])) + (mid + [58])|
  {
    hide Lex, Stands, Blank;
    before, key := QuoteFound(d, p);
    mid := MarkFound(d, Lex(d, p).next, 58);
    StandsJoin(d, p, before + ([34] + (SpellingAll(key) + [34])), mid + [58]);
  }

  lemma {:induction false} EntriesFound(d: seq<Byte>, p: nat, depth: nat, max: nat, acc: seq<Member>)
    returns (entries: seq<Entry>)
    requires Terminated(d) && p < |d| && depth <= max && ParseMembers(d, p, depth, max, acc).Parsed?
    ensures entries != [] && ProperEntries(entries) && ShallowEntries(entries, max - depth)
    ensures Stands(d, p, SpellEntries(entries))
    ensures ParseMembers(d, p, depth, max, acc) ==
            Parsed(JObject(PutAll(acc, SenseEntries(entries))), p + |SpellEntries(entries)|)
    decreases |d| - p, 1
  {
    hide Lex, Stands, Blank, ParseValue, Spell, Sense, ProperDoc, Shallow, Put, AllProper, SenseAll, SpellingAll;
    var before, key, mid := KeyFound(d, p);
    var q := Lex(d, Lex(d, p).next).next;
    var doc := DocFound(d, q, depth, max);
    var next, acc' := q + |Spell(doc)|, Put(acc, SenseAll(key), Sense(doc));
    MemberStep(d, p, SenseAll(key), q, Sense(doc), next, depth, max, acc);
    if Lex(d, next).tok.ObjEnd? {
      var behind := MarkFound(d, next, 125);
      var e := Entry(before, key, mid, doc, behind);
      entries := [e];
      BraceMember(d, next, next + |behind| + 1, depth, max, acc');
      StandsJoin(d, q, Spell(doc), behind + [125]);
      StandsJoin(d, p, SpellKey(e), Spell(doc) + (behind + [125]));
      assert entries[1..] == [];
      FirstEntry(entries, acc);
    } else {
      var behind := MarkFound(d, next, 44);
      var e := Entry(before, key, mid, doc, behind);
      CommaMember(d, next, next + |behind| + 1, depth, max, acc');
      var rest := EntriesFound(d, next + |behind| + 1, depth, max, acc');
      entries := [e] + rest;
      OpenFound(d, next, behind, 44, SpellEntries(rest));
      StandsJoin(d, q, Spell(doc), behind + ([44] + SpellEntries(rest)));
      StandsJoin(d, p, SpellKey(e), Spell(doc) + (behind + ([44] + SpellEntries(rest))));
      assert entries[1..] == rest;
      FirstEntry(entries, acc);
    }
  }

  /** A value is read from p on exactly if a text of the grammar stands there whose nesting is allowed, and the value
      is what that text stands for. */
  lemma ValueIff(d: seq<Byte>, p: nat, depth: nat, max: nat, v: Value, next: nat)
    requires Terminated(d) && p < |d| && depth <= max
    ensures ParseValue(d, p, depth, max) == Parsed(v, next) <==>
            exists doc :: ProperDoc(doc) && Shallow(doc, max - depth) && Stands(d, p, Spell(doc)) &&
                          v == Sense(doc) && next == p + |Spell(doc)|
  {
    hide ParseValue, ProperDoc, Shallow, Spell, Sense, Stands;
    if ParseValue(d, p, depth, max).Parsed? { var doc := DocFound(d, p, depth, max); }
    forall doc | ProperDoc(doc) && Shallow(doc, max - depth) && Stands(d, p, Spell(doc))
      ensures ParseValue(d, p, depth, max) == Parsed(Sense(doc), p + |Spell(doc)|)
    {
      DocBack(d, p, doc, depth, max);
    }
  }

  /** The text begins with a text of the grammar, and what follows is white space, or white space, a NUL and
      anything. */
  ghost predicate Begins(text: seq<Byte>, doc: Doc, max: nat) {
    ProperDoc(doc) && Shallow(doc, max) && Spell(doc) <= text && Quiet(text[|Spell(doc)|..])
  }

  /** A whole text is accepted, as `v`, exactly if its first two bytes are no NUL, and it is a text of the grammar
      that stands for `v`, with nothing behind it that is read. */
  lemma DecodedIff(text: seq<Byte>, max: nat, v: Value)
    ensures Decoded(text, max).Parsed? && Decoded(text, max).v == v <==>
            !(|text| >= 2 && (text[0] == 0 || text[1] == 0)) && exists doc :: Begins(text, doc, max) && v == Sense(doc)
  {
    hide ParseValue, ProperDoc, Shallow, Spell, Sense, Stands, Quiet, Lex;
    var d := text + [0];
    if ParseValue(d, 0, 0, max).Parsed? {
      var doc := DocFound(d, 0, 0, max);
      StandsSlice(d, 0, Spell(doc));
      LexEnds(d, |Spell(doc)|, text[|Spell(doc)|..]);
      assert d[..|Spell(doc)|] == text[..|Spell(doc)|];
      assert Lex(d, |Spell(doc)|).tok.End? ==> Begins(text, doc, max);
    }
    forall doc | Begins(text, doc, max)
      ensures ParseValue(d, 0, 0, max) == Parsed(Sense(doc), |Spell(doc)|) && Lex(d, |Spell(doc)|).tok.End?
    {
      assert d[0..|Spell(doc)|] == Spell(doc);
      SliceStands(d, 0, Spell(doc));
      DocBack(d, 0, doc, 0, max);
      LexEnds(d, |Spell(doc)|, text[|Spell(doc)|..]);
    }
  }
}
