/** From a pattern to the result of a match: the compiler and the machine together. */
module Matching {
  import opened Peg
  import opened Machine
  import opened CodeGen
  import opened Compiler
  import opened Verification
  import opened Generator
  import opened Vm

  /** Compiles an accepted pattern and runs it: the result is the meaning of the pattern, with exactly the flat
      list of its captures, unless the backtrack stack or the capture list overflows. */
  method MatchPattern(t: Tree, depth: nat, input: Input, start: nat) returns (r: MatchResult)
    requires WellFormed([], t, depth) && Verified([], t) && !CheckLoops([], t) && Dependable(t) && start <= |input|
    requires Unfired([], t, false, None, FULL, depth)
    ensures r.StackOverflow? || r.CaptureOverflow? ||
            exists m :: Means([], t, input, start, m) && r == ResultOf(Report(m))
  {
    var code := CompilePattern(t, depth);
    ghost var m := AcceptedTerminates(t, input, start);
    CompiledReports(t, depth, input, start, m);
    ghost var n: nat :| Run(code, input, Initial(start), n) == Some(Report(m));
    VerdictOfRun(code, input, Initial(start), n, Report(m));
    r := Match(code, input, start, n);
  }
}
