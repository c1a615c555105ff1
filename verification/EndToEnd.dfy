/** All the way from a named pattern and an input to the match. */
module EndToEnd {
  import opened Peg
  import opened Machine
  import opened CodeGen
  import opened Compiler
  import opened Verification
  import opened Matching
  import opened Buffers
  import opened Output
  import opened Decoder
  import JsonReader
  import Vm

  /** A named pattern has one capture around everything. */
  lemma OneTree(t: Tree, input: Input, start: nat, m: Result) returns (tree: CapTree)
    requires t.TCapture? && start <= |input| && Means([], t, input, start, m) && m.Ok?
    ensures m.caps == [tree] && Flatten([tree]) == FlattenTree(tree)
  {
    var fuel: nat :| Eval([], t, input, start, fuel) == Some(m);
    tree := m.caps[0];
    assert [tree][1..] == [] && FlattenTree(tree) + [] == FlattenTree(tree);
  }

  /** From a named pattern to the match that a client of the byte format sees: compile, run, write the captures,
      decode them.  The decoded match is the tree of captures that the pattern means, exactly if the tree fits the
      format; a match is missed only where the pattern fails, or where one of the two stacks or the capture list would
      overflow. */
  method MatchEncodeDecode(t: Tree, depth: nat, x: Source, start: nat)
    returns (r: Vm.MatchResult, written: bool, m: Decoded<Match>, ghost tree: CapTree)
    requires t.TCapture? && start <= |x.input|
    requires WellFormed([], t, depth) && Verified([], t) && !CheckLoops([], t) && Dependable(t)
    requires Unfired([], t, false, None, FULL, depth)
    ensures r.NoMatch? ==> Means([], t, x.input, start, Fail)
    ensures r.Success? ==> Means([], t, x.input, start, Ok(r.end, [tree])) && written == (Height(tree) <= MAX_CAPDEPTH)
    ensures r.Success? && written && InRange(tree) ==> (m.Read? && m.value == MatchOf(x, tree) <==> Fits(x, tree))
  {
    written, m := false, Corrupt;
    r := MatchPattern(t, depth, x.input, start);
    if r.Success? {
      ghost var meaning :| Means([], t, x.input, start, meaning) && r == Vm.ResultOf(Report(meaning));
      tree := OneTree(t, x.input, start, meaning);
      var buf := new Buffer();
      written := CapLoop(Encoder.Bytes, x, r.caps + [Close(0)], buf, tree, [Close(0)]);
      if written {
        var bytes := buf.data[..buf.n];
        assert bytes == Render(Encoder.Bytes, x, tree, true);
        m := PushMatch(bytes, 0);
        if InRange(tree) { RoundTripIff(x, tree); }
      }
    } else {
      tree := Const(0, 0, 0);
    }
  }

  /** From a named pattern to JSON: the text that is written is JSON, and says type, start, parts, end and data of
      every capture that the pattern means, exactly if names and texts could be written. */
  method MatchToJson(t: Tree, depth: nat, x: Source, start: nat)
    returns (r: Vm.MatchResult, written: bool, text: seq<Byte>, ghost tree: CapTree)
    requires t.TCapture? && start <= |x.input|
    requires WellFormed([], t, depth) && Verified([], t) && !CheckLoops([], t) && Dependable(t)
    requires Unfired([], t, false, None, FULL, depth)
    ensures r.NoMatch? ==> Means([], t, x.input, start, Fail)
    ensures r.Success? ==> Means([], t, x.input, start, Ok(r.end, [tree])) && written == (Height(tree) <= MAX_CAPDEPTH)
    ensures r.Success? && written ==>
              (JsonReader.ReadText(text) == JsonReader.Found(JsonReader.ValueOf(x, tree), |text|) <==>
               JsonReader.Clean(x, tree))
  {
    written, text := false, [];
    r := MatchPattern(t, depth, x.input, start);
    if r.Success? {
      ghost var meaning :| Means([], t, x.input, start, meaning) && r == Vm.ResultOf(Report(meaning));
      tree := OneTree(t, x.input, start, meaning);
      var buf := new Buffer();
      written := CapLoop(Encoder.Json, x, r.caps + [Close(0)], buf, tree, [Close(0)]);
      text := buf.data[..buf.n];
      if written {
        assert text == Render(Encoder.Json, x, tree, true);
        JsonReader.OutputReadIff(x, tree);
      }
    } else {
      tree := Const(0, 0, 0);
    }
  }
}
