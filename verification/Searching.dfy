/** Searching a compacted symbol table, and when it ends. */
module Searching {
  import opened Peg
  import opened KTables

  /** Half of a number, towards zero. */
  function Half(n: int): int { if n < 0 then -(-n / 2) else n / 2 }

  /** All names before the bounds are smaller than the target, and all names behind them are larger; the bounds may
      have crossed by one. */
  ghost predicate Bracket(names: seq<Name>, target: Name, i: int, j: int) {
    1 <= i <= |names| && i - 1 <= j <= |names| &&
    (forall k :: 0 <= k < i - 1 ==> NameCmp(target, names[k]) > 0) &&
    (forall k :: j <= k < |names| ==> NameCmp(target, names[k]) < 0)
  }

  datatype Round = Found(at: int) | Absent | Narrow(i: int, j: int)

  /** One round of the search. */
  function SearchRound(names: seq<Name>, target: Name, i: int, j: int): (r: Round)
    requires 1 <= i + Half(j - i) <= |names|
  {
    var mid := i + Half(j - i);
    var test := NameCmp(target, names[mid - 1]);
    if test == 0 then Found(mid)
    else if i == j then Absent
    else if test < 0 then Narrow(i, mid - 1)
    else Narrow(mid + 1, j)
  }

  /** The rounds keep the bounds around the target. */
  lemma RoundBrackets(names: seq<Name>, target: Name, i: int, j: int)
    requires StrictlySorted(names) && Bracket(names, target, i, j)
    ensures 1 <= i + Half(j - i) <= |names|
    ensures var r := SearchRound(names, target, i, j); r.Narrow? ==> Bracket(names, target, r.i, r.j)
  {
    var mid := i + Half(j - i);
    var test := NameCmp(target, names[mid - 1]);
    if test < 0 {
      forall k | mid - 1 <= k < |names|
        ensures NameCmp(target, names[k]) < 0
      {
        if k > mid - 1 { NameCmpTransitive(target, names[mid - 1], names[k]); }
      }
    } else if test > 0 {
      forall k | 0 <= k < mid
        ensures NameCmp(target, names[k]) > 0
      {
        NameCmpSign(target, names[mid - 1]);
        NameCmpSign(target, names[k]);
        if k < mid - 1 { NameCmpTransitive(names[k], names[mid - 1], target); }
      }
    }
  }

  /** The answer after at most so many rounds: the index of the target, or 0. */
  ghost function Search(names: seq<Name>, target: Name, i: int, j: int, fuel: nat): (r: Option<int>)
    requires StrictlySorted(names) && Bracket(names, target, i, j)
    decreases fuel
  {
    if fuel == 0 then None
    else
      RoundBrackets(names, target, i, j);
      match SearchRound(names, target, i, j)
      case Found(at) => Some(at)
      case Absent => Some(0)
      case Narrow(i', j') => Search(names, target, i', j', fuel - 1)
  }

  /** Some number of rounds is enough. */
  ghost predicate SearchEnds(names: seq<Name>, target: Name, i: int, j: int)
    requires StrictlySorted(names) && Bracket(names, target, i, j)
  {
    exists fuel: nat :: Search(names, target, i, j, fuel).Some?
  }

  // ---------- when a search for an absent name ends ----------

  /** With m names left, of which r are smaller than the target: the search has to come down to one name, and spins
      as soon as none is left. */
  predicate Ends(m: nat, r: nat)
    decreases m
  {
    if m <= 1 then m == 1
    else
      var k := (m - 1) / 2;
      if r <= k then Ends(k, r) else Ends(m - k - 1, r - k - 1)
  }

  /** How many names are smaller than the target. */
  function Rank(names: seq<Name>, target: Name): (r: nat)
    ensures r <= |names|
  {
    if names == [] || NameCmp(names[0], target) >= 0 then 0 else 1 + Rank(names[1..], target)
  }

  lemma {:induction false} RankSplits(names: seq<Name>, target: Name, k: nat)
    requires StrictlySorted(names) && k < |names|
    ensures NameCmp(names[k], target) < 0 <==> k < Rank(names, target)
    decreases |names|
  {
    if NameCmp(names[0], target) >= 0 {
      if k > 0 && NameCmp(names[k], target) < 0 { NameCmpTransitive(names[0], names[k], target); }
    } else if k > 0 {
      RankSplits(names[1..], target, k - 1);
    }
  }

  lemma AbsentMeans(names: seq<Name>, target: Name, k: nat)
    requires StrictlySorted(names) && k < |names| && target !in names
    ensures NameCmp(target, names[k]) != 0
    ensures NameCmp(target, names[k]) > 0 <==> k < Rank(names, target)
  {
    RankSplits(names, target, k);
    NameCmpSign(target, names[k]);
    NameCmpSign(names[k], target);
  }

  /** Crossed bounds stay as they are. */
  lemma {:induction false} CrossedSpins(names: seq<Name>, target: Name, i: int, fuel: nat)
    requires StrictlySorted(names) && Bracket(names, target, i, i - 1)
    ensures Search(names, target, i, i - 1, fuel).None?
    decreases fuel
  {
    if fuel > 0 {
      assert SearchRound(names, target, i, i - 1) == Narrow(i, i - 1);
      CrossedSpins(names, target, i, fuel - 1);
    }
  }

  /** What is left behind one round. */
  lemma NextEnds(names: seq<Name>, target: Name, i: int, j: int)
    requires StrictlySorted(names) && Bracket(names, target, i, j) && target !in names && i < j
    requires i - 1 <= Rank(names, target) <= j
    ensures 1 <= i + Half(j - i) <= |names| && SearchRound(names, target, i, j).Narrow?
    ensures var r := SearchRound(names, target, i, j);
            Bracket(names, target, r.i, r.j) && r.j - r.i < j - i && r.i - 1 <= Rank(names, target) <= r.j &&
            Ends(j - i + 1, Rank(names, target) - (i - 1)) == Ends(r.j - r.i + 1, Rank(names, target) - (r.i - 1))
  {
    RoundBrackets(names, target, i, j);
    AbsentMeans(names, target, i + Half(j - i) - 1);
  }

  /** Between any two bounds the search for an absent name ends exactly if `Ends` says so, and finds nothing. */
  lemma {:induction false} BetweenEndsIff(names: seq<Name>, target: Name, i: int, j: int, fuel: nat)
    requires StrictlySorted(names) && Bracket(names, target, i, j) && target !in names
    requires i - 1 <= Rank(names, target) <= j
    ensures Search(names, target, i, j, fuel).Some? ==> Ends(j - i + 1, Rank(names, target) - (i - 1))
    ensures Ends(j - i + 1, Rank(names, target) - (i - 1)) && fuel > j - i ==>
            Search(names, target, i, j, fuel) == Some(0)
    decreases fuel
  {
    hide Rank, StrictlySorted;
    if i > j {
      CrossedSpins(names, target, i, fuel);
    } else if fuel > 0 {
      if i == j {
        RoundBrackets(names, target, i, j);
        AbsentMeans(names, target, i - 1);
      } else {
        NextEnds(names, target, i, j);
        var r := SearchRound(names, target, i, j);
        BetweenEndsIff(names, target, r.i, r.j, fuel - 1);
      }
    }
  }

  /** A search for an absent name ends exactly if its rank among the names is a good one. */
  lemma AbsentEndsIff(names: seq<Name>, target: Name)
    requires StrictlySorted(names) && names != [] && target !in names
    ensures SearchEnds(names, target, 1, |names|) <==> Ends(|names|, Rank(names, target))
    ensures forall fuel: nat :: Search(names, target, 1, |names|, fuel) in {None, Some(0)}
  {
    forall fuel: nat
      ensures Search(names, target, 1, |names|, fuel).Some? ==> Ends(|names|, Rank(names, target))
      ensures Search(names, target, 1, |names|, fuel) in {None, Some(0)}
    {
      BetweenEndsIff(names, target, 1, |names|, fuel);
      NothingFound(names, target, 1, |names|, fuel);
    }
    BetweenEndsIff(names, target, 1, |names|, |names|);
  }

  lemma {:induction false} NothingFound(names: seq<Name>, target: Name, i: int, j: int, fuel: nat)
    requires StrictlySorted(names) && Bracket(names, target, i, j) && target !in names
    ensures Search(names, target, i, j, fuel) in {None, Some(0)}
    decreases fuel
  {
    if fuel > 0 {
      RoundBrackets(names, target, i, j);
      AbsentMeans(names, target, i + Half(j - i) - 1);
      var r := SearchRound(names, target, i, j);
      if r.Narrow? { NothingFound(names, target, r.i, r.j, fuel - 1); }
    }
  }

  /** A search for a name that is there ends, with its index. */
  lemma {:induction false} PresentEnds(names: seq<Name>, at: nat, i: int, j: int)
    requires StrictlySorted(names) && at < |names| && Bracket(names, names[at], i, j) && i <= at + 1 <= j
    ensures Search(names, names[at], i, j, j - i + 1) == Some(at + 1)
    decreases j - i
  {
    var target, mid := names[at], i + Half(j - i);
    RoundBrackets(names, target, i, j);
    NameCmpSign(target, names[mid - 1]);
    if mid - 1 < at { NameCmpSign(names[mid - 1], target); }
    var r := SearchRound(names, target, i, j);
    if r.Narrow? {
      PresentEnds(names, at, r.i, r.j);
      SearchMore(names, target, r.i, r.j, r.j - r.i + 1, j - i);
    }
  }

  lemma {:induction false} SearchMore(names: seq<Name>, target: Name, i: int, j: int, fuel: nat, fuel': nat)
    requires StrictlySorted(names) && Bracket(names, target, i, j) && fuel <= fuel'
    requires Search(names, target, i, j, fuel).Some?
    ensures Search(names, target, i, j, fuel') == Search(names, target, i, j, fuel)
    decreases fuel
  {
    RoundBrackets(names, target, i, j);
    var r := SearchRound(names, target, i, j);
    if r.Narrow? { SearchMore(names, target, r.i, r.j, fuel - 1, fuel' - 1); }
  }

  // ---------- the tables on which every search ends ----------

  function Two(n: nat): (r: nat)
    ensures r >= 1
  {
    if n == 0 then 1 else 2 * Two(n - 1)
  }

  /** One less than a power of two, and not nothing. */
  ghost predicate Full(m: nat) { exists n: nat :: n > 0 && m + 1 == Two(n) }

  lemma {:induction false} FullEnds(n: nat, m: nat, r: nat)
    requires n > 0 && m + 1 == Two(n) && r <= m
    ensures Ends(m, r)
    decreases n
  {
    if n > 1 {
      var k := (m - 1) / 2;
      assert k + 1 == Two(n - 1);
      FullEnds(n - 1, k, if r <= k then r else r - k - 1);
    }
  }

  lemma {:induction false} OthersSpin(m: nat) returns (r: nat)
    requires !Full(m)
    ensures r <= m && !Ends(m, r)
    decreases m
  {
    if m == 0 { return 0; }
    assert Two(1) == 2 && m != 1;
    var k := (m - 1) / 2;
    if !Full(k) {
      r := OthersSpin(k);
    } else {
      if Full(m - k - 1) {
        BothFull(k, m - k - 1);
        assert false;
      }
      r := OthersSpin(m - k - 1);
      r := r + k + 1;
    }
  }

  /** Two halves that are full make a full whole. */
  lemma BothFull(k: nat, k': nat)
    requires Full(k) && Full(k') && k <= k' <= k + 1
    ensures Full(k + k' + 1)
  {
    var a: nat :| a > 0 && k + 1 == Two(a);
    var b: nat :| b > 0 && k' + 1 == Two(b);
    SameOrEven(a, b);
    assert Two(a + 1) == 2 * Two(a);
  }

  lemma {:induction false} SameOrEven(a: nat, b: nat)
    requires a > 0 && b > 0 && Two(a) <= Two(b) <= Two(a) + 1
    ensures a == b
  {
    if a < b { TwoGrows(a, b); }
    if b < a { TwoGrows(b, a); }
    assert Two(a) % 2 == 0 && Two(b) % 2 == 0;
  }

  lemma {:induction false} TwoGrows(a: nat, b: nat)
    requires a < b
    ensures 2 * Two(a) <= Two(b)
    decreases b
  {
    if a < b - 1 { TwoGrows(a, b - 1); }
  }

  /** Every search for an absent name ends in exactly those tables whose size is one less than a power of two: in all
      others there is a rank at which it spins. */
  lemma AllEndIff(m: nat)
    ensures (forall r: nat :: r <= m ==> Ends(m, r)) <==> Full(m)
  {
    if Full(m) {
      var n: nat :| n > 0 && m + 1 == Two(n);
      forall r: nat | r <= m ensures Ends(m, r) { FullEnds(n, m, r); }
    } else {
      var r := OthersSpin(m);
    }
  }

  /** An instance: below the first of two names the search goes round from 1 and 0 for ever. */
  lemma AbsentSpins(a: Name, b: Name, target: Name)
    requires NameCmp(a, b) < 0 && NameCmp(target, a) < 0
    ensures StrictlySorted([a, b]) && Bracket([a, b], target, 1, 2) && !SearchEnds([a, b], target, 1, 2)
  {
    NameCmpTransitive(target, a, b);
    NameCmpSign(target, a);
    NameCmpSign(target, b);
    NameCmpSign(a, target);
    AbsentEndsIff([a, b], target);
    assert !Ends(2, 0);
  }

  // ---------- the search itself ----------

  /** The name is there, or its search ends without it. */
  ghost predicate Searchable(names: seq<Name>, target: Name) {
    names == [] || target in names || Ends(|names|, Rank(names, target))
  }

  /** The rounds give the index of the target, or 0. */
  lemma SearchAnswers(names: seq<Name>, target: Name, r: nat)
    requires StrictlySorted(names) && names != [] && Searchable(names, target)
    requires r <= |names| && (r > 0 ==> names[r - 1] == target) && (r == 0 <==> target !in names)
    ensures exists fuel: nat :: Search(names, target, 1, |names|, fuel) == Some(r)
  {
    if r > 0 {
      PresentEnds(names, r - 1, 1, |names|);
      assert Search(names, target, 1, |names|, |names|) == Some(r);
    } else {
      BetweenEndsIff(names, target, 1, |names|, |names|);
    }
  }

  lemma OnlyOneLeft(names: seq<Name>, target: Name, i: int)
    requires StrictlySorted(names) && Bracket(names, target, i, i) && NameCmp(target, names[i - 1]) != 0
    ensures target !in names
  {
    forall k | 0 <= k < |names|
      ensures names[k] != target
    {
      NameCmpSign(target, names[k]);
    }
  }

  /** The bounds of a search that will end. */
  ghost predicate Looking(names: seq<Name>, target: Name, i: int, j: int) {
    i <= j && Bracket(names, target, i, j) &&
    (target in names || (i - 1 <= Rank(names, target) <= j && Ends(j - i + 1, Rank(names, target) - (i - 1))))
  }

  lemma RoundLooks(names: seq<Name>, target: Name, i: int, j: int, r: Round)
    requires StrictlySorted(names) && Looking(names, target, i, j) && r == SearchRound(names, target, i, j)
    ensures r.Found? ==> 1 <= r.at <= |names| && names[r.at - 1] == target
    ensures r.Absent? ==> target !in names
    ensures r.Narrow? ==> Looking(names, target, r.i, r.j) && 1 <= r.i <= r.j <= |names| && r.j - r.i < j - i
  {
    RoundBrackets(names, target, i, j);
    NameCmpSign(target, names[i + Half(j - i) - 1]);
    if r.Absent? {
      OnlyOneLeft(names, target, i);
    } else if r.Narrow? && target in names {
      var at :| 0 <= at < |names| && names[at] == target;
      NameCmpSign(target, target);
      assert r.i - 1 <= at < r.j;
    } else if r.Narrow? {
      NextEnds(names, target, i, j);
    }
  }

  lemma StartLooking(names: seq<Name>, target: Name)
    requires StrictlySorted(names) && names != [] && Searchable(names, target)
    ensures Looking(names, target, 1, |names|)
  {
  }

  /** One round on the table itself. */
  method OneRound(kt: Ktable, target: Name, i: int, j: int) returns (r: Round)
    requires kt.Valid() && 1 <= i <= j <= |kt.Names()|
    ensures r == SearchRound(kt.Names(), target, i, j)
  {
    var mid := i + (j - i) / 2;
    var name := kt.NameOf(kt.elements[mid]);
    assert name == kt.Names()[mid - 1];
    var test := NameCmp(target, name);
    if test == 0 { return Found(mid); }
    if i == j { return Absent; }
    if test < 0 { return Narrow(i, mid - 1); }
    return Narrow(mid + 1, j);
  }

  /** The index of a name in a compacted table, or 0 if it is not there, wherever the search ends at all. */
  method CompactSearch(kt: Ktable, target: Name) returns (r: nat)
    requires kt.Valid() && StrictlySorted(kt.Names()) && Searchable(kt.Names(), target)
    ensures r <= |kt.Names()| && (r > 0 ==> kt.Names()[r - 1] == target)
    ensures r == 0 <==> target !in kt.Names()
    ensures kt.Names() != [] ==>
            exists fuel: nat :: Search(kt.Names(), target, 1, |kt.Names()|, fuel) == Some(r)
  {
    hide Looking, Searchable, StrictlySorted, SearchRound, Search, Ktable.Valid, Ktable.Names;
    var len := kt.next - 1;
    if len == 0 { return 0; }
    var i, j := 1, len;
    ghost var names := kt.Names();
    StartLooking(names, target);
    while true
      invariant Looking(names, target, i, j) && 1 <= i <= j <= |names| && kt.Valid() && kt.Names() == names
      decreases j - i
    {
      var round := OneRound(kt, target, i, j);
      RoundLooks(names, target, i, j, round);
      match round
      case Found(at) =>
        SearchAnswers(names, target, at);
        return at;
      case Absent =>
        SearchAnswers(names, target, 0);
        return 0;
      case Narrow(i', j') =>
        i, j := i', j';
    }
  }
}
