/** Pattern trees and what they mean. */
module Peg {
  // A `Tree` is the parse tree of a pattern after open calls have been fixed: a call names a rule of the nearest
  // enclosing grammar by its number.  `Eval` is the reference meaning of a tree as a parsing expression: at a
  // position it fails, or succeeds at a later position with a forest of captures.

  datatype Option<+T> = None | Some(value: T)

  type Byte = b: int | 0 <= b < 256 witness 0

  type Input = seq<Byte>

  /** The full byte set. */
  const FULL: set<Byte> := set b: Byte | 0 <= b < 256

  /** A capture as a tree: a named span with its nested captures, or a constant capture. */
  datatype CapTree =
    | Node(key: nat, start: nat, subs: seq<CapTree>, end: nat)
    | Const(key: nat, value: nat, pos: nat)

  datatype Tree =
    | TChar(c: Byte)
    | TSet(cs: set<Byte>)
    | TAny
    | TTrue
    | TFalse
    | TRep(p: Tree)
    | TSeq(p1: Tree, p2: Tree)
    | TChoice(p1: Tree, p2: Tree)
    | TNot(p: Tree)
    | TAnd(p: Tree)
    | TCall(rule: nat)
    | TGrammar(rules: seq<Tree>)
    | TBehind(n: nat, p: Tree)
    | TCapture(key: nat, p: Tree)
    | TConstCapture(key: nat, value: nat)

  type Rules = seq<Tree>

  datatype Result = Fail | Ok(end: nat, caps: seq<CapTree>)

  /** The meaning of tree `t` inside grammar `g` at position `i`.  `None` says that the fuel, which bounds
      the number of nested rule calls and loop iterations, ran out. */
  function Eval(g: Rules, t: Tree, s: Input, i: nat, fuel: nat): (r: Option<Result>)
    requires i <= |s|
    ensures r.Some? && r.value.Ok? ==> i <= r.value.end <= |s|
    decreases fuel, t
  {
    match t
    case TChar(c) => Some(if i < |s| && s[i] == c then Ok(i + 1, []) else Fail)
    case TSet(cs) => Some(if i < |s| && s[i] in cs then Ok(i + 1, []) else Fail)
    case TAny => Some(if i < |s| then Ok(i + 1, []) else Fail)
    case TTrue => Some(Ok(i, []))
    case TFalse => Some(Fail)
    case TSeq(p1, p2) =>
      (match Eval(g, p1, s, i, fuel)
       case Some(Ok(j, c1)) =>
         (match Eval(g, p2, s, j, fuel)
          case Some(Ok(k, c2)) => Some(Ok(k, c1 + c2))
          case other => other)
       case other => other)
    case TChoice(p1, p2) =>
      (match Eval(g, p1, s, i, fuel)
       case Some(Fail) => Eval(g, p2, s, i, fuel)
       case other => other)
    case TRep(p) =>
      if fuel == 0 then None else
      (match Eval(g, p, s, i, fuel)
       case None => None
       case Some(Fail) => Some(Ok(i, []))
       case Some(Ok(j, c1)) =>
         (match Eval(g, t, s, j, fuel - 1)
          case Some(Ok(k, c2)) => Some(Ok(k, c1 + c2))
          case other => other))
    case TNot(p) =>
      (match Eval(g, p, s, i, fuel)
       case None => None
       case Some(Fail) => Some(Ok(i, []))
       case Some(Ok(_, _)) => Some(Fail))
    case TAnd(p) =>
      (match Eval(g, p, s, i, fuel)
       case None => None
       case Some(Fail) => Some(Fail)
       case Some(Ok(_, _)) => Some(Ok(i, [])))
    case TBehind(n, p) =>
      if i < n then Some(Fail) else
      (match Eval(g, p, s, i - n, fuel)
       case None => None
       case Some(Fail) => Some(Fail)
       case Some(Ok(_, _)) => Some(Ok(i, [])))
    case TCapture(key, p) =>
      (match Eval(g, p, s, i, fuel)
       case Some(Ok(j, c)) => Some(Ok(j, [Node(key, i, c, j)]))
       case other => other)
    case TConstCapture(key, value) => Some(Ok(i, [Const(key, value, i)]))
    case TCall(k) => if fuel == 0 || k >= |g| then None else Eval(g, g[k], s, i, fuel - 1)
    case TGrammar(rs) => if rs == [] then None else Eval(rs, rs[0], s, i, fuel)
  }

  /** More fuel never changes a result. */
  lemma {:induction false} EvalMonotone(g: Rules, t: Tree, s: Input, i: nat, fuel: nat, fuel': nat)
    requires i <= |s| && fuel <= fuel'
    requires Eval(g, t, s, i, fuel).Some?
    ensures Eval(g, t, s, i, fuel') == Eval(g, t, s, i, fuel)
    decreases fuel, t
  {
    match t
    case TChar(_) => case TSet(_) => case TAny => case TTrue => case TFalse =>
    case TConstCapture(_, _) =>
    case TSeq(p1, p2) =>
      EvalMonotone(g, p1, s, i, fuel, fuel');
      var r := Eval(g, p1, s, i, fuel).value;
      if r.Ok? { EvalMonotone(g, p2, s, r.end, fuel, fuel'); }
    case TChoice(p1, p2) =>
      EvalMonotone(g, p1, s, i, fuel, fuel');
      if Eval(g, p1, s, i, fuel).value.Fail? { EvalMonotone(g, p2, s, i, fuel, fuel'); }
    case TRep(p) =>
      EvalMonotone(g, p, s, i, fuel, fuel');
      var r := Eval(g, p, s, i, fuel).value;
      if r.Ok? { EvalMonotone(g, t, s, r.end, fuel - 1, fuel' - 1); }
    case TNot(p) => EvalMonotone(g, p, s, i, fuel, fuel');
    case TAnd(p) => EvalMonotone(g, p, s, i, fuel, fuel');
    case TBehind(n, p) => if n <= i { EvalMonotone(g, p, s, i - n, fuel, fuel'); }
    case TCapture(_, p) => EvalMonotone(g, p, s, i, fuel, fuel');
    case TCall(k) => EvalMonotone(g, g[k], s, i, fuel - 1, fuel' - 1);
    case TGrammar(rs) => EvalMonotone(rs, rs[0], s, i, fuel, fuel');
  }

  /** `r` is the meaning of `t` at `i`. */
  ghost predicate Means(g: Rules, t: Tree, s: Input, i: nat, r: Result)
    requires i <= |s|
  {
    exists fuel: nat :: Eval(g, t, s, i, fuel) == Some(r)
  }

  /** A tree has at most one meaning at a position. */
  lemma MeansUnique(g: Rules, t: Tree, s: Input, i: nat, r: Result, r': Result)
    requires i <= |s| && Means(g, t, s, i, r) && Means(g, t, s, i, r')
    ensures r == r'
  {
    var f: nat :| Eval(g, t, s, i, f) == Some(r);
    var f': nat :| Eval(g, t, s, i, f') == Some(r');
    EvalMonotone(g, t, s, i, f, if f < f' then f' else f);
    EvalMonotone(g, t, s, i, f', if f < f' then f' else f);
  }
}
