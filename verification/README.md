# Rosie's pattern compiler, matching machine and codecs, in Dafny

This project models the parts of the Rosie pattern engine that do the work and proves what they promise each other.

- **Patterns** (`Peg`) are trees with a reference meaning: at a position a tree fails, or succeeds at a later position
  with a forest of captures.
- **The compiler** decides on instructions by analysing the tree (`Analysis`, `Settling`, `Precision`), refuses grammars that may loop
  (`Verification`, and exactly which ones in `LeftRecursion`), emits optimised code (`CodeGen` as a function, `Patching` and `Generator` as a code array that is
  appended to and patched), links calls (`Linking`) and threads jumps (`Peephole`, `JumpChains`). `Shortcuts` says when a
  comparison in it goes wrong.
- **The machine** (`Machine`) is a step function over a program counter, a position, a stack and a capture list. `Vm` is
  the machine with its growable arrays.
- **The central theorem** is in `Continuations`, `Layout` and `Correctness`: the code of a tree behaves as the meaning of
  the tree in front of every continuation that fails on the bytes outside the follow set it was compiled for. `Compiler`
  draws the conclusion for whole programs, `Matching` for the imperative machine, and `EndToEnd` for matching, encoding
  and decoding together. `Discipline` proves for every well-formed tree, accepted or not, that no run of its code ever
  gets stuck, by the same continuations counted in steps.
- **Output**: the loop over the flat capture list with its two encoders (`Output`, `Buffers`), the decoder of the byte format
  (`Decoder`), which bytes it accepts (`ByteFormat`), and a reader of JSON that gets the captures back from the JSON
  output (`JsonReader`).
- **Trees and tables**: pattern trees in one array, rotated and finished in place (`Associativity`, `FlatTrees`,
  `Finishing`), repetition by copies (`Repetition`), symbol tables (`KTables`, `Searching`) and the keys into them (`Keys`).
- **Numbers**: big integers in arrays of 32-bit words (`Bignum`, `Bigints`, `Division`, `Products`) and the conversion to
  correctly rounded decimal digits (`Digits`).
- **JSON**: growable strings (`Strbufs`), string escapes and UTF-8 (`JsonStrings`), texts and values (`Json`), the encoder
  and parser themselves (`JsonCodec`), and the grammar of what the parser accepts (`JsonSpelling`, `JsonGrammar`).

Grammars are verified with unbounded recursion in the original; here an analysis takes a depth, and `Settling` proves that
on verified grammars every depth from a computable bound on gives the same answer. `Verified` says that the grammar check
passes everywhere in a tree, as the original requires before it compiles. `Dependable` is the additional condition of the
first two findings below.

## Findings

Promises that the code does not keep, each with an input and, where there is one, the exact condition under which it does.

- **A loop over a sub-grammar hides left recursion** (`src/rpeg/compiler/lptree.c:1079-1080`). The grammar check returns
  "cannot match the empty string" for a sub-grammar, whatever it was told about what comes before, so
  `A <- { X <- c }* A` is accepted although matching never ends: `Verification.SubGrammarBlindSpot`. Corrected at that one
  point, the check is `Verification.VerifyFully`; every grammar accepted by it is accepted by the original
  (`ForgetfulAcceptsMore`), both agree wherever no sub-grammar that needs input is reached with the empty string possible
  (`ChecksAgree`), and with it acceptance implies termination (`AcceptedTerminates`).
- **The grammar check does not look into a look-behind** (`src/rpeg/compiler/lptree.c:1050-1052`). It relies on the
  constructor to admit only bodies of fixed length without captures. A predicate over a call has length 0, and release
  builds drop the assertion against calls, so `A <- behind(!A)` is accepted and never ends:
  `Verification.BehindBlindSpot`.
- **The chase for the end of a chain of jumps may never end** (`src/rpeg/compiler/lpcode.c:640-653`). In the code of the
  accepted grammar `A <- { X <- FALSE }* A` the loop is skipped by a jump, because nothing can start it, and the call at
  the end of the rule becomes a jump back: `Compiler.ChaseNeverEnds`. On dependable trees the chase always ends
  (`Compiler.CompiledChainsEnd`), and `Generator.CompilePattern` asks for those.
- **A byte set is taken for another one** (`src/rpeg/compiler/lpcode.c:594-597`). Behind a test for a byte set, a set that
  equals the tested one is to be replaced by an instruction for any byte. The comparison starts one word early, at the
  offset, which is still zero, so it never finds an equal set; it finds the set of the bytes 32 above those of the test.
  `Shortcuts.ShortcutIff` says on exactly which pairs of sets the replacement is wrong: on all on which it happens.
  `Compiler.ShortcutMisfires` is an accepted pattern that fails, and whose code matches. Where no set of the tree meets such
  a test, which `CodeGen.Unfired` decides, the code is what it should be, and elsewhere it is shorter: `Shortcuts.PlainIff`.
- **Rule numbers are cut to a byte** (`src/rpeg/compiler/lptree.c:988`, `src/rpeg/compiler/lpcode.c:909`,
  `src/rpeg/compiler/lptree.h:62`). A grammar may have 1000 rules, but a call of rule 256 runs rule 0:
  `Compiler.RuleNumberTruncated`.
- **The byte format cannot hold every capture** (`src/rpeg/compiler/lpcap.c:53`, `src/rpeg/runtime/buf.c:233-236`). A name of
  length 0 is taken for a constant, and a length is read back exactly if its low byte is below 128 or its high byte is 255.
  `Decoder.RoundTripIff` says exactly which capture trees survive; `Decoder.EmptyNameMisread` is the case of the empty name.
- **The JSON capture encoder leaves things unescaped**. NUL in matched text (`src/rpeg/runtime/json.c:79`) makes the
  repository's own JSON parser see the end of its input, and names and constant values are written as they are
  (`src/rpeg/runtime/json.c:97-101`). `JsonStrings.CaptureStringIff` and `JsonSpelling.RawTextIff` say exactly which strings
  are read back, and `JsonReader.OutputReadIff` which capture trees.
- **The JSON parser stops at a NUL** (`src/lua-cjson/lua_cjson.c:411`, `src/lua-cjson/lua_cjson.c:1279-1283`). What stands
  behind a text is refused, unless it is white space, or white space and a NUL; whatever follows that NUL is not looked at.
  `Json.TrailingIff` says exactly so.
- **Linear growth does not grow** (`src/lua-cjson/strbuf.c:153-156`). With a positive increment the size that is rounded up
  is the old one, not the one that is needed; it is enough exactly if the NUL falls into a block that the buffer had begun:
  `Strbufs.LinearGrowthIff`. Nothing in the library sets a positive increment.
- **Searching a compacted table for a name that is not there may never end** (`src/rpeg/runtime/ktable.c:351-360`). A search
  among `m` names of which `r` come before the name ends exactly if `Searching.Ends(m, r)`: `Searching.AbsentEndsIff`. For
  every name to be looked for safely, the number of names must be one less than a power of two: `Searching.AllEndIff`. Two
  names are the smallest case of a search that does not end: `Searching.AbsentSpins`. A name that is there is always found:
  `Searching.PresentEnds`. The one caller searches only for those.
- **The limit of the capture list is never reached** (`src/rpeg/runtime/vm.c:81`). The list doubles from 1000 entries on, so
  the size that is doubled last is 2097152000, below the limit of INT32_MAX, and its double does not fit the int that is to
  hold it; the error for too many captures is never reported: `Vm.NextSize` and `Vm.Matcher.DoubleCap`. The model stops with
  `CaptureOverflow` where that last list would have to grow.
- **Compaction leaves the keys of calls as they were** (`src/rpeg/compiler/lptree.c:1168-1223`). Afterwards a call's key names
  its rule exactly if the key happens to be unchanged: `Keys.StaleCallKey`. The generated code does not depend on it.

## Model

| member | source | states |
|---|---|---|
| Peg.EvalMonotone | src/rpeg/compiler/lptree.h:29-45 | an answer of the reference meaning does not depend on how much recursion is allowed |
| Peg.MeansUnique | src/rpeg/compiler/lptree.h:29-45 | a tree has at most one meaning at a position |
| Analysis.NotNullableConsumes | src/rpeg/compiler/lpcode.c:176-214 | a tree that is not nullable consumes input whenever it succeeds |
| Analysis.NoFailSucceeds | src/rpeg/compiler/lpcode.c:176-214 | a tree said never to fail never fails |
| Analysis.CheckAuxIff | src/rpeg/compiler/lpcode.c:176-214 | a tree is nullable, or nofail, exactly if it matches the empty input once everything that looks ahead or behind is taken to hold, or to fail |
| Analysis.NullableNeverMatches | src/rpeg/compiler/lpcode.c:188-190 | a look-ahead that never succeeds is still nullable |
| Analysis.FixedLenExact | src/rpeg/compiler/lpcode.c:222-258 | every success of a tree of fixed length consumes exactly that length, with calls counted as the source counts them |
| Analysis.FixedLenOpen | src/rpeg/compiler/lpcode.c:222-258 | a length found outside any grammar is the length inside every grammar |
| Analysis.NoCapturesYieldsNone | src/rpeg/compiler/lpcode.c:135-155 | a tree said to have no captures yields none |
| Analysis.BehindYieldsNone | src/rpeg/compiler/lptree.c:776-788 | a look-behind body of fixed length without captures yields none in any grammar it is used in |
| Precision.FixedLenIff | src/rpeg/compiler/lpcode.c:222-258 | a length is fixed exactly if all ways through the tree read that many bytes, no repetition is on a way, and calls are not nested too deeply |
| Precision.HasCapturesIff | src/rpeg/compiler/lpcode.c:135-155 | a tree has captures exactly if one stands in it, or a call or sub-grammar with one in its rules, where a call counts for all rules from its own on |
| Analysis.FirstSound | src/rpeg/compiler/lpcode.c:276-357 | on a byte outside the first set a tree fails, or succeeds on the empty string where that byte is outside the follow set too |
| Analysis.FirstFailsAtEnd | src/rpeg/compiler/lpcode.c:276-357 | when the analysis answers 0 the tree fails at the end of the input |
| Precision.FirstIff | src/rpeg/compiler/lpcode.c:276-357 | the first set holds exactly the bytes that a match may begin with, and those that may follow an empty one; the answer 1 is given exactly for nullable trees |
| Analysis.HeadFailSucceeds | src/rpeg/compiler/lpcode.c:366-392 | a tree that can fail only on its first byte succeeds on every byte of its first set |
| Analysis.HeadFailExact | src/rpeg/compiler/lpcode.c:366-392 | such a tree fails exactly at the end of the input and on the bytes outside its first set |
| Analysis.HeadFailNotEmpty | src/rpeg/compiler/lpcode.c:366-392 | such a tree never accepts the empty string |
| Precision.HeadFailIff | src/rpeg/compiler/lpcode.c:366-392 | a tree is headfail exactly if every match begins with the test of one byte and all that comes behind is nofail |
| Analysis.GuardedNeedsFirst | src/rpeg/compiler/lpcode.c:614-633 | a tree guarded by a test instruction succeeds only where the test passes |
| Settling.SubGrammarSure | src/rpeg/compiler/lptree.c:1085-1109 | the rules of a verified sub-grammar are themselves verified one level down |
| Settling.CheckSettles | src/rpeg/compiler/lpcode.c:176-214 | on verified trees nullable and nofail give one answer at every depth from the bound on, and a nullable rule passes the check only with the empty string noted |
| Settling.FirstSettles | src/rpeg/compiler/lpcode.c:276-357 | so do the first sets |
| Settling.HeadSettles | src/rpeg/compiler/lpcode.c:366-392 | so does headfail, which follows calls in both parts of a choice |
| Settling.AnalysesSettle | src/rpeg/compiler/lpcode.c:176-392 | for every tree inside a verified grammar all three analyses give one answer at every depth from a computed bound on, as the unbounded recursion does |
| Settling.AnalysesSettleOutside | src/rpeg/compiler/lpcode.c:176-392 | the same for trees outside grammars |
| Verification.AccumulatorStays | src/rpeg/compiler/lptree.c:1042-1083 | once the empty string has been noted it stays noted |
| Verification.EmptyMatchPasses | src/rpeg/compiler/lptree.c:1042-1083 | a part that can match the empty string is never passed as one that cannot |
| Verification.MatchEnds | src/rpeg/compiler/lptree.c:1000-1109 | matching any part of an accepted grammar has a well-founded measure: grammar, rest of the input, rules left before a byte is read |
| Verification.AcceptedTerminates | src/rpeg/compiler/lptree.c:1000-1109 | an accepted, dependable tree has a meaning at every position of every input |
| Verification.OpenCallsNowhere | src/rpeg/compiler/lptree.c:141-153 | a tree verified outside grammars has no call outside a grammar |
| Verification.ChecksAgree | src/rpeg/compiler/lptree.c:1042-1083 | the check of the source and the corrected one agree wherever no sub-grammar that needs input is reached with the empty string noted |
| Verification.ForgetfulAcceptsMore | src/rpeg/compiler/lptree.c:1042-1083 | everything the corrected check accepts the source accepts, and never with more noted |
| Verification.SubGrammarBlindSpot | src/rpeg/compiler/lptree.c:1079-1080 | an accepted grammar with a loop over a sub-grammar in front of a call of itself has no meaning at any position of any input |
| Verification.BehindBlindSpot | src/rpeg/compiler/lptree.c:1050-1052 | an accepted grammar that calls itself in a look-behind has no meaning at any position of any input |
| Verification.HarmlessRepetition | src/rpeg/compiler/lptree.c:1079-1080 | a loop over a sub-grammar in front of anything that reads input is dependable although the two checks need not agree on it |
| LeftRecursion.NotedBehind | src/rpeg/compiler/lptree.c:1042-1083 | what is noted behind a tree that passes depends on the note before it and on whether the tree keeps, sets or clears it |
| LeftRecursion.SetsIffNullable | src/rpeg/compiler/lptree.c:1062-1066 | with the corrected check the second part of a sequence counts exactly if the first is nullable |
| LeftRecursion.RejectedIff | src/rpeg/compiler/lptree.c:1042-1083 | a tree is rejected exactly if more left calls in a row start at it than are allowed, by the check of the source and by the corrected one |
| LeftRecursion.LeftRecursionIff | src/rpeg/compiler/lptree.c:1085-1099 | the rules of a grammar of at most 1000 rules pass exactly if no used rule is reached from itself through left calls |
| LeftRecursion.LoopsIff | src/rpeg/compiler/lptree.c:1000-1016 | a loop is reported exactly if a repetition of a nullable body stands in the tree outside its sub-grammars |
| LeftRecursion.UsedIff | src/rpeg/compiler/lptree.c:1090-1102 | the rules that are checked are the first one and those that a rule calls |
| LeftRecursion.GrammarPassesIff | src/rpeg/compiler/lptree.c:1085-1109 | a grammar passes exactly if no used rule is left recursive or holds an empty loop |
| LeftRecursion.RightRecursionPasses | src/rpeg/compiler/lptree.c:1062-1070 | a rule that calls itself behind a byte, in one branch of a choice, passes |
| LeftRecursion.UnusedPasses | src/rpeg/compiler/lptree.c:1091 | an empty loop in a rule that nothing calls is accepted |
| Machine.FlattenConcat | src/rpeg/runtime/vm.c:592-662 | flattening two forests side by side flattens their concatenation |
| Machine.RunMonotone | src/rpeg/runtime/vm.c:290-551 | an outcome of the machine stays when more steps are allowed |
| Machine.EvalsUnique | src/rpeg/runtime/vm.c:290-551 | a run has at most one outcome |
| Continuations.SeqBehaves | src/rpeg/compiler/lpcode.c:918-935 | two blocks that behave, the second in front of the continuation and the first in front of the second, behave as the sequence, also when an outer choice is reused |
| Continuations.CaptureBehaves | src/rpeg/compiler/lpcode.c:749-762 | a block between open and close behaves as the capture, and leaves nothing on the list when it fails |
| Continuations.PlainChoiceBehaves | src/rpeg/compiler/lpcode.c:703-718 | choice, block, commit, block behaves as ordered choice, with captures of the abandoned block dropped |
| Continuations.OptChoiceBehaves | src/rpeg/compiler/lpcode.c:697-702 | reusing the choice of the enclosing optional part behaves as a choice with an empty second part |
| Continuations.GuardBehaves | src/rpeg/compiler/lpcode.c:614-633 | a test in front of a block that needs the tested bytes changes nothing |
| Continuations.LoopRound | src/rpeg/compiler/lpcode.c:798-815 | one round of the partial-commit loop behaves as one repetition |
| Continuations.LoopLast | src/rpeg/compiler/lpcode.c:798-815 | and the last, failing round leaves the loop where the last good one ended |
| Continuations.PlainNotBehaves | src/rpeg/compiler/lpcode.c:828-843 | choice, block, fail-twice behaves as negative look-ahead and keeps no captures |
| Continuations.PlainAndBehaves | src/rpeg/compiler/lpcode.c:736-742 | choice, block, back-commit behaves as positive look-ahead |
| Continuations.TailCallBehaves | src/rpeg/compiler/lpcode.c:866-867 | a jump to a rule in front of a return behaves as a call of the rule |
| Correctness.GenBehaves | src/rpeg/compiler/lpcode.c:945-978 | the code of every tree, with every optimisation but the comparison of sets, behaves as the meaning of the tree at every position in front of every continuation that fails on bytes outside the follow set, for every stack and capture list |
| Correctness.SequenceBehaves | src/rpeg/compiler/lpcode.c:918-935 | sequences, with the follow set of the first part and the known test passed on |
| Correctness.ChoiceBehaves | src/rpeg/compiler/lpcode.c:676-719 | choices: without a stack entry for disjoint first sets, with the outer entry reused, or in full |
| Correctness.RepBehaves | src/rpeg/compiler/lpcode.c:778-815 | repetitions: as a span, without a stack entry, or as a loop |
| Correctness.NotBehaves | src/rpeg/compiler/lpcode.c:828-843 | negative look-ahead, also as a single test |
| Correctness.AndBehaves | src/rpeg/compiler/lpcode.c:727-742 | positive look-ahead, also as matching and stepping back |
| Correctness.BehindBehaves | src/rpeg/compiler/lpcode.c:658-662 | look-behind, where stepping back past the start fails |
| Correctness.RuleBehavesAt | src/rpeg/compiler/lpcode.c:886-903 | each rule in its place behaves as its tree and returns to every caller |
| Correctness.CallsBehave | src/rpeg/compiler/lpcode.c:907-915 | hence every call in the grammar does |
| Correctness.GrammarBehaves | src/rpeg/compiler/lpcode.c:851-903 | the linked code of a grammar behaves as its first rule |
| Linking.GenWhole | src/rpeg/compiler/lpcode.c:945-978 | generated code is made of whole instructions, and names only rules that exist |
| Linking.RuleInPlace | src/rpeg/compiler/lpcode.c:851-903 | after linking each rule stands at the address its calls go to, followed by a return |
| Linking.LinkedWordAt | src/rpeg/compiler/lpcode.c:851-879 | linking changes nothing but calls, and those into a call of the rule, or a jump to it in front of a return |
| Peephole.Simulate | src/rpeg/compiler/lpcode.c:989-1043 | code with one rewritten jump simulates the original from every state that is equal or a jump further |
| Peephole.OptimizeKeepsRuns | src/rpeg/compiler/lpcode.c:989-1043 | threading jumps keeps the outcome of every run from every state |
| JumpChains.FinalTargetFinal | src/rpeg/compiler/lpcode.c:640-653 | a chain of jumps that ends, ends within the length of the code at an instruction that is no jump |
| JumpChains.StartHalts | src/rpeg/compiler/lpcode.c:945-978 | chains from the beginning of a part of an accepted grammar end |
| JumpChains.JumpsEnd | src/rpeg/compiler/lpcode.c:945-978 | so do chains from every instruction of the part |
| JumpChains.GrammarChainsEnd | src/rpeg/compiler/lpcode.c:851-903 | every jump chain in a grammar's code ends when calls are linked |
| JumpChains.OptimizeFromKeepsChains | src/rpeg/compiler/lpcode.c:989-1043 | chains still end after each round of the optimiser |
| Shortcuts.ShortcutIff | src/rpeg/compiler/lpcode.c:589-608 | behind a passed test on any set, the instruction for any other set passes the bytes of that set and no others exactly if the comparison with the test fails |
| Shortcuts.PlainIff | src/rpeg/compiler/lpcode.c:594-597 | the code of a tree is the code without comparisons of sets exactly if no set of it meets a test that it is taken for; otherwise it is shorter |
| Compiler.AssembledReports | src/rpeg/compiler/lpcode.c:1048-1058 | before the last optimisation a program reports the meaning of its tree, where no set is taken for a test |
| Compiler.CompiledReports | src/rpeg/compiler/lpcode.c:1048-1058 | likewise a compiled program reports the end and the flat capture list of the meaning, or gives up where the tree fails |
| Compiler.CompilerCorrect | src/rpeg/compiler/lpcode.c:1048-1058 | and, for accepted trees, reports that and nothing else on every input from every start, and always reports |
| Compiler.CompiledChainsEnd | src/rpeg/compiler/lpcode.c:640-653 | every jump chase in a compiled accepted, dependable tree ends |
| Compiler.ChaseNeverEnds | src/rpeg/compiler/lpcode.c:640-653 | in the code of an accepted grammar that is not dependable a chain of jumps goes round for ever |
| Compiler.ShortcutMisfires | src/rpeg/compiler/lpcode.c:594-597 | an accepted pattern fails on an input, and its compiled code matches there |
| Compiler.ManyRulesAccepted | src/rpeg/compiler/lptree.c:1085-1109 | grammars with hundreds of rules are accepted |
| Compiler.RuleNumberTruncated | src/rpeg/compiler/lpcode.c:907-915 | an accepted grammar of at most 1000 rules matches, and its compiled code gives up |
| Patching.TestedChoiceFilled | src/rpeg/compiler/lpcode.c:683-696 | the open offsets of a choice without stack entry, once filled in, give the block of the code function |
| Patching.GuardedChoiceFilled | src/rpeg/compiler/lpcode.c:703-718 | the same for a choice with test, choice and commit |
| Patching.CommitRepFilled | src/rpeg/compiler/lpcode.c:798-815 | and for the loop with its backward jump |
| Patching.GrammarFilled | src/rpeg/compiler/lpcode.c:886-903 | and for the call and jump in front of the rules |
| Generator.CompileState.AddInstruction | src/rpeg/compiler/lpcode.c:459-482 | appends one word and answers its position |
| Generator.CompileState.JumpToThere | src/rpeg/compiler/lpcode.c:541-552 | fills exactly one open offset |
| Generator.CompileState.CodeTestset | src/rpeg/compiler/lpcode.c:614-633 | appends the cheapest test for a set with its offset open, or nothing when the set may be skipped |
| Generator.CompileState.CodeChoice | src/rpeg/compiler/lpcode.c:676-719 | appending and patching yields the choice code of the proved function |
| Generator.CompileState.CodeRep | src/rpeg/compiler/lpcode.c:778-815 | likewise for repetitions |
| Generator.CompileState.CodeNot | src/rpeg/compiler/lpcode.c:828-843 | likewise for negative look-ahead |
| Generator.CompileState.CodeAnd | src/rpeg/compiler/lpcode.c:727-742 | likewise for positive look-ahead |
| Generator.CompileState.CodeSequence | src/rpeg/compiler/lpcode.c:918-935 | likewise for sequences |
| Generator.CompileState.CodeBehind | src/rpeg/compiler/lpcode.c:658-662 | likewise for look-behind |
| Generator.CompileState.CodeCapture | src/rpeg/compiler/lpcode.c:749-762 | likewise for captures |
| Generator.CompileState.FindFinalTarget | src/rpeg/compiler/lpcode.c:640-653 | the jump chase ends, at the end of the chain |
| Generator.CompileState.CorrectCalls | src/rpeg/compiler/lpcode.c:851-879 | one pass over the block, in place, yields the linked block |
| Generator.CompileState.CodeGrammar | src/rpeg/compiler/lpcode.c:886-903 | rules one after the other, then linked in place, yield the grammar code |
| Generator.CompileState.Generate | src/rpeg/compiler/lpcode.c:945-978 | the whole generator extends the array by the proved code, whatever stood there |
| Generator.CompileState.OptimizeJumps | src/rpeg/compiler/lpcode.c:989-1043 | the optimiser, in place and word by word, yields the optimised code |
| Generator.CompilePattern | src/rpeg/compiler/lpcode.c:1048-1058 | the imperative compiler produces the code of which the correctness theorem speaks |
| Vm.Matcher.Expand | src/rpeg/runtime/stack.c:108-127 | the stack grows up to its limit and keeps its entries |
| Vm.Matcher.StackPush | src/rpeg/runtime/stack.c:128-146 | a push adds one entry, and fails exactly at the limit |
| Vm.NextSize | src/rpeg/runtime/vm.c:80-90 | every size of the capture array is below the limit; all but the last can be doubled within an int |
| Vm.Matcher.DoubleCap | src/rpeg/runtime/vm.c:80-90 | the capture array doubles and keeps its entries, and the limit is never met |
| Vm.Matcher.PushCapture | src/rpeg/runtime/vm.c:278-286 | a capture is written below the end of the array and room for the next is made, unless that room would not fit an int |
| Vm.Matcher.Fail | src/rpeg/runtime/vm.c:456-467 | unwinding frames down to a choice restores position and captures of that choice |
| Vm.Matcher.BackCommit | src/rpeg/runtime/vm.c:442-451 | restores position and captures of the choice it removes |
| Vm.Matcher.FailTwice | src/rpeg/runtime/vm.c:452-467 | removes one entry and then fails |
| Vm.Matcher.Span | src/rpeg/runtime/vm.c:404-411 | goes to the end of the longest run of bytes of the set |
| Vm.Matcher.StepOnce | src/rpeg/runtime/vm.c:290-551 | each instruction of the imperative machine is one step of the abstract one, or else the stack is at its limit, or the captures at theirs, and the step would need more |
| Vm.Match | src/rpeg/runtime/vm.c:290-551 | the machine reports what comes first on the abstract run: its outcome, a stack deeper than allowed, or a capture list longer than can be held |
| Vm.VerdictOfRun | src/rpeg/runtime/vm.c:290-551 | for a run that ends that is its outcome exactly if stack and captures stay within bounds |
| Vm.GrowCaps | src/rpeg/runtime/vm.c:278-286 | adding captures does not change what choices on the stack remember |
| Vm.CutCaps | src/rpeg/runtime/vm.c:456-467 | cutting the list back to the level of a choice gives the captures at the time of that choice |
| Vm.AbsDepth | src/rpeg/runtime/stack.c:108-150 | the array stack is as deep as the abstract one |
| Matching.MatchPattern | src/rpeg/runtime/vm.c:290-551 | compiling an accepted tree and matching any input reports the meaning of the tree, or one of the two overflows |
| Discipline.GenGood | src/rpeg/compiler/lpcode.c:945-978 | the code of every well-formed tree, in front of every continuation and with every stack that these allow, does not get stuck within any number of steps |
| Discipline.CompiledNeverStuck | src/rpeg/runtime/vm.c:290-551 | no run of the compiled code of a well-formed tree ever gets stuck, whether the tree is accepted or not and whether the run ends or not |
| Discipline.StackDiscipline | src/rpeg/runtime/vm.c:329-467 | hence in every state it reaches commits find a choice, returns a frame, the end exactly one entry, giving up an empty stack, failing a choice below the frames, closes an open capture, and no placeholder is ever executed |
| EndToEnd.OneTree | src/rpeg/runtime/vm.c:670-748 | a pattern that is a capture yields one capture tree |
| EndToEnd.MatchEncodeDecode | src/rpeg/runtime/vm.c:750-820 | matching, encoding and decoding give back the capture tree of the meaning, exactly for the trees the format can hold |
| EndToEnd.MatchToJson | src/rpeg/runtime/vm.c:670-748 | matching and writing JSON gives a JSON text that says type, start, parts, end and data of every capture of the meaning, exactly if names and texts can be written |
| Buffers.IntRoundTrip | src/rpeg/runtime/buf.c:187-214 | every 32-bit integer is read back |
| Buffers.IntLowFirst | src/rpeg/runtime/buf.c:187-200 | the four bytes of an integer are its digits to the base 256, low digit first, with 2 to the 32 added to a negative one |
| Buffers.ShortRoundTrip | src/rpeg/runtime/buf.c:222-236 | a 16-bit integer is read back exactly if its low byte is below 128 or its high byte is 255 |
| Buffers.ShortLowFirst | src/rpeg/runtime/buf.c:222-230 | likewise the two bytes of a short |
| Buffers.Buffer.Resize | src/rpeg/runtime/buf.c:76-96 | keeps the contents |
| Buffers.Buffer.PrepSize | src/rpeg/runtime/buf.c:130-141 | makes room for what will be added without a check, and keeps the contents |
| Output.AddQuoted | src/rpeg/runtime/json.c:66-88 | writes the quoted string into the room reserved for six bytes a character |
| Output.EncodeOpen | src/rpeg/runtime/json.c:126-142 | comma exactly behind an elder sibling, and a bracket exactly in front of a child, found by looking at the next entry |
| Output.EncodeClose | src/rpeg/runtime/json.c:91-124 | closing bracket exactly behind a child, found by looking at the entry before |
| Output.CapLoop | src/rpeg/runtime/vm.c:592-662 | the loop with its explicit stack writes exactly the recursive rendering of the capture tree, in both formats, whatever follows the tree on the list, and fails exactly when the tree is too deep |
| JsonReader.DecimalRead | src/rpeg/runtime/json.c:90-95 | the digits of a position denote it, without a zero in front |
| JsonReader.TreeIff | src/rpeg/runtime/json.c:103-142 | a reader of JSON objects, lists, strings and numbers gets type, start, parts, end and data of a capture back from the output, wherever it stands, exactly if names and constant values hold no quote, backslash and NUL and texts no NUL |
| JsonReader.ForestIff | src/rpeg/runtime/json.c:126-142 | the parts of a capture are read as a list, in order |
| JsonReader.OutputReadIff | src/rpeg/runtime/json.c:103-142 | the whole output is one JSON value that says exactly this, under exactly this condition |
| Decoder.PushMatch | src/rpeg/compiler/lpcap.c:35-102 | the decoder that advances through the bytes is the recursive decoder, on all inputs, with its errors |
| Decoder.PushSubs | src/rpeg/compiler/lpcap.c:77-92 | children are read while a start follows |
| ByteFormat.DecodeIff | src/rpeg/compiler/lpcap.c:35-102 | bytes are decoded as a match exactly if they are that match in the format, whoever wrote them |
| ByteFormat.ShortIff | src/rpeg/runtime/buf.c:233-236 | a low byte from 128 on is a negative number by itself, and any other short is low byte first |
| Decoder.RoundTrip | src/rpeg/compiler/lpcap.c:35-102 | decoding what the byte encoder wrote rebuilds the capture tree and consumes every byte |
| Decoder.RoundTripIff | src/rpeg/compiler/lpcap.c:35-102 | and that holds exactly for the trees without empty names and with lengths that can be read back, anywhere in the tree |
| Decoder.Misread | src/rpeg/runtime/buf.c:233-236 | any other tree, wherever its bytes stand, is read as something else or not at all |
| Decoder.EmptyNameMisread | src/rpeg/compiler/lpcap.c:53-58 | a capture with the empty name is never read back |
| Decoder.LayoutExample | src/rpeg/runtime/capture.c:123-149 | the bytes of a capture with a constant capture in it, one by one |
| Bignum.ValBound | src/lua-cjson/dtoa.c:533-539 | n words hold less than 2 to the 32n |
| Bignum.MulValue | src/lua-cjson/dtoa.c:612-667 | multiplying by a word and adding a word, with carries, is exact |
| Bignum.SubMulExact | src/lua-cjson/dtoa.c:2160-2198 | subtracting a multiple word by word, with carry and borrow, is exact |
| Bignum.AddMulValue | src/lua-cjson/dtoa.c:843-860 | so is adding one row of a product |
| Bignum.CmpValue | src/lua-cjson/dtoa.c:1032-1064 | comparing from the top word down compares the values |
| Bigints.I2b | src/lua-cjson/dtoa.c:787-803 | a one-word number of the given value |
| Bigints.Multadd | src/lua-cjson/dtoa.c:612-667 | the value times m plus a, trimmed, in the same number or in a larger copy |
| Bigints.Bcopy | src/lua-cjson/dtoa.c:609-610 | copies sign and words |
| Bigints.Cmp | src/lua-cjson/dtoa.c:1032-1064 | the sign of the result is that of the difference of the values |
| Bigints.Lshift | src/lua-cjson/dtoa.c:970-1030 | a new, trimmed number of value times 2 to the k |
| Division.Hi0bits | src/lua-cjson/dtoa.c:706-739 | the number of leading zero bits |
| Division.Dshift | src/lua-cjson/dtoa.c:2106-2117 | after the shift it answers the top word of the divisor has exactly four leading zero bits |
| Division.Estimate | src/lua-cjson/dtoa.c:2146-2160 | the quotient of the top words is right or one too small |
| Division.SubtractMultiple | src/lua-cjson/dtoa.c:2160-2240 | both loops of the division subtract a multiple of the divisor in place |
| Division.TakeEstimate | src/lua-cjson/dtoa.c:2119-2200 | after the estimate less than twice the divisor is left |
| Division.Quorem | src/lua-cjson/dtoa.c:2119-2241 | returns the quotient and leaves the remainder, with at most one correction |
| Division.Diff | src/lua-cjson/dtoa.c:1066-1160 | a new, trimmed number of the absolute difference, with the sign of the difference |
| Products.MulAddRow | src/lua-cjson/dtoa.c:847-860 | adds one row in place and nothing else |
| Products.RowsAreProduct | src/lua-cjson/dtoa.c:805-912 | the rows of schoolbook multiplication sum to the product |
| Products.Mult | src/lua-cjson/dtoa.c:805-912 | a new, trimmed number of the product of the values, never written past its room |
| Products.PowerCache.Next | src/lua-cjson/dtoa.c:932-966 | the next node of the cache, made once, keeps node j at 625 to the 2 to the j |
| Products.MulCached | src/lua-cjson/dtoa.c:930-966 | multiplying by the cached powers for the one bits of k gives the value times 625 to the k |
| Products.Pow5mult | src/lua-cjson/dtoa.c:914-968 | the value times 5 to the k for every k, with the cache only extended |
| Digits.RoundedOnce | src/lua-cjson/dtoa.c:4306-4316 | a fraction has one integer it rounds to, half to even |
| Digits.ZeroTest | src/lua-cjson/dtoa.c:4287-4291 | the test of one word tells whether the number is zero |
| Digits.Generate | src/lua-cjson/dtoa.c:4284-4300 | the digits so far and the remainder make up the fraction exactly; the loop ends early exactly when nothing is left |
| Digits.RoundUp | src/lua-cjson/dtoa.c:4318-4327 | carries through nines add one in the last place, and bump the exponent exactly when all digits were nines |
| Digits.TrimZeros | src/lua-cjson/dtoa.c:4328-4334 | drops the trailing zeros and keeps the value |
| Digits.RoundsUp | src/lua-cjson/dtoa.c:4306-4316 | rounds up exactly above one half, or at one half behind an odd digit |
| Digits.RoundOff | src/lua-cjson/dtoa.c:4306-4334 | the digits left are the rounded fraction without trailing zeros |
| Digits.WriteDigits | src/lua-cjson/dtoa.c:4284-4345 | the text holds the fraction rounded half to even to the asked number of digits, without trailing zeros, with its decimal exponent |
| Digits.Exponents | src/lua-cjson/dtoa.c:3843-3862 | powers of two and five on both sides stand for the fraction that is converted |
| Digits.SpelledScaled | src/lua-cjson/dtoa.c:4085-4170 | equal fractions have the same digits |
| Digits.Prepare | src/lua-cjson/dtoa.c:4085-4160 | scaling by cancelled powers of two, cached powers of five and the final shift keeps the fraction and readies the divisor |
| Digits.NearestMultiple | src/lua-cjson/dtoa.c:3671-3675 | in the mode of digits behind the point the text is the multiple of that place nearest to the number, half to even, also where no digit is left |
| Digits.NearestSignificant | src/lua-cjson/dtoa.c:3891-3893 | in the mode of significant digits the text has at most ndigits digits, one at least, and is the number rounded half to even to the last of that many places |
| Digits.WriteNone | src/lua-cjson/dtoa.c:4170-4182 | with no digit asked for, nothing is written up to one half of the place in front, and a one above |
| Digits.CheckAndWrite | src/lua-cjson/dtoa.c:4161-4182 | an exponent estimated one too high is corrected, together with the number of digits asked for, before digits are written |
| Digits.Convert | src/lua-cjson/dtoa.c:4085-4345 | from mantissa, binary exponent and estimate to decimal digits and exponent, rounded half to even to the place that the mode and ndigits name, in modes 2 and 3 |
| Associativity.RotatedKeepsMeaning | src/rpeg/compiler/lptree.c:104-116 | rotating sequences and choices keeps the meaning, with captures, at every position |
| Associativity.RightNestedKeepsMeaning | src/rpeg/compiler/lptree.c:141-171 | so does rotating everywhere, with the rules of the grammar rotated too |
| Associativity.RightNestedIs | src/rpeg/compiler/lptree.c:141-171 | afterwards no sequence begins with a sequence and no choice with a choice |
| Associativity.RotatedKeepsLeaves | src/rpeg/compiler/lptree.c:104-116 | the leaves stay in their order |
| FlatTrees.StandsFlat | src/rpeg/compiler/lptree.h:47-68 | a tree stands in an array exactly if its slots in preorder do, up to fields nobody reads |
| FlatTrees.SetAtOnce | src/rpeg/compiler/lptree.c:461-467 | the three slots behind a set node hold one set |
| FlatTrees.MemMove | src/rpeg/compiler/lptree.c:111 | moves overlapping slots towards the front |
| FlatTrees.RotateOnce | src/rpeg/compiler/lptree.c:107-115 | one round of the loop turns the tree in its place and touches nothing outside it |
| FlatTrees.CorrectAssociativity | src/rpeg/compiler/lptree.c:104-116 | the loop ends with the fully rotated tree in the same slots |
| Finishing.FixOneCall | src/rpeg/compiler/lptree.c:78-95 | an open call becomes a call of the rule of its name, and fails exactly if there is none |
| Finishing.FinalFix | src/rpeg/compiler/lptree.c:141-171 | the tree is rotated and its calls are fixed in place; it fails exactly if some call has no rule; rules stay where the table says |
| Finishing.FixedDenotes | src/rpeg/compiler/lptree.c:141-171 | the finished tree denotes the rotated tree with the same calls, so no offset was set before a rotation that moves it |
| Finishing.FixedRules | src/rpeg/compiler/lptree.c:979-995 | rules of a finished grammar stand where they stood and denote the rotated rules |
| Finishing.FinishedGrammar | src/rpeg/compiler/lptree.c:141-171 | every rule of a finished grammar means what it meant before |
| Repetition.AtLeastMeans | src/rpeg/compiler/lptree.c:676-683 | the built tree matches n copies and then as many more as there are |
| Repetition.AtMostMeans | src/rpeg/compiler/lptree.c:684-695 | the built tree matches m copies, at most n, and stops early only where a copy fails |
| Repetition.AtLeastSize | src/rpeg/compiler/lptree.c:677 | the size asked for is the size of the tree |
| Repetition.AtMostSize | src/rpeg/compiler/lptree.c:688 | likewise for optional copies |
| Repetition.SeqAux | src/rpeg/compiler/lptree.c:474-478 | writes a sequence node with its first part and answers where the second belongs |
| Repetition.StarAtLeast | src/rpeg/compiler/lptree.c:676-683 | the loop fills its allocation exactly with the tree of n copies and a repetition |
| Repetition.StarAtMost | src/rpeg/compiler/lptree.c:684-695 | the loop fills its allocation exactly with n nested optional copies |
| Repetition.CheckAux | src/rpeg/compiler/lpcode.c:176-214 | on a tree in the array, with open calls and with finished sub-grammars, the loop answers what the analysis says of the pattern that the tree denotes |
| Repetition.LpStar | src/rpeg/compiler/lptree.c:668-698 | a repetition without bound is refused exactly if the analysis says that its body may be empty, everything else is built |
| Repetition.StarDenotes | src/rpeg/compiler/lptree.c:668-698 | the array that is built denotes the repetition |
| KTables.NameCmpSign | src/rpeg/runtime/ktable.c:258-266 | names compare as equal exactly if they are, and the order is antisymmetric |
| KTables.NameCmpTransitive | src/rpeg/runtime/ktable.c:258-266 | the order is transitive |
| KTables.NameCmpBefore | src/rpeg/runtime/ktable.c:258-266 | a name compares as less exactly if it has the smaller byte where the two first differ, or is a proper prefix of the other |
| KTables.Ktable.ExtendElements | src/rpeg/runtime/ktable.c:197-209 | doubles the elements and keeps the names |
| KTables.Ktable.ExtendBlock | src/rpeg/runtime/ktable.c:211-224 | makes room for a name and keeps the names |
| KTables.Ktable.Add | src/rpeg/runtime/ktable.c:231-256 | adds a name at the end and answers its index |
| KTables.Concat | src/rpeg/runtime/ktable.c:163-195 | appends one table to another and answers by how much keys shift, and refuses exactly when there are too many |
| KTables.SortedIndex | src/rpeg/runtime/ktable.c:288-305 | the names in dictionary order of their bytes, each as often as in the table |
| KTables.Compact | src/rpeg/runtime/ktable.c:310-336 | a table of exactly the same names, each once, in dictionary order of their bytes |
| KTables.StrictlySortedUnique | src/rpeg/runtime/ktable.c:310-336 | the compacted table depends on nothing but the set of names |
| KTables.IndexUnique | src/rpeg/runtime/ktable.c:310-336 | two indexes are equal exactly if their names are |
| Searching.AbsentEndsIff | src/rpeg/runtime/ktable.c:351-360 | in every strictly sorted table the search for an absent name ends exactly if the number of names and the rank of the name are of the computed kind, and then with 0 |
| Searching.PresentEnds | src/rpeg/runtime/ktable.c:351-360 | the search for a name that is there ends with its index |
| Searching.AllEndIff | src/rpeg/runtime/ktable.c:351-360 | every absent name is of that kind exactly if the number of names is one less than a power of two |
| Searching.AbsentSpins | src/rpeg/runtime/ktable.c:351-360 | below the first of two names the search never ends |
| Searching.CompactSearch | src/rpeg/runtime/ktable.c:341-361 | wherever the search ends at all, the loop answers the index of a name that is there, and 0 exactly for one that is not |
| Keys.CorrectKeys | src/rpeg/compiler/lptree.c:286-315 | shifts every key of a tree in place and nothing else |
| Keys.ShiftKeepsNames | src/rpeg/compiler/lptree.c:286-315 | behind another table's names the shifted keys name what they named |
| Keys.PrefixKeepsNames | src/rpeg/compiler/lptree.c:321-355 | in front of another table's names keys name what they named |
| Keys.JoinKtables | src/rpeg/compiler/lptree.c:321-355 | after joining, every key of both trees names what it named, whether or not they share a table; refused exactly when there are too many names |
| Keys.UpdateCaptureKeys | src/rpeg/compiler/lptree.c:1168-1223 | replaces the keys of captures and rules in place, rules by the count of their grammar |
| Keys.MappedKeepsNames | src/rpeg/compiler/lptree.c:1168-1223 | captures and rules keep their names, and constant captures their values |
| Keys.StaleCallKey | src/rpeg/compiler/lptree.c:1168-1223 | a call's key names its old rule exactly if the key is unchanged |
| Keys.KeyMapping | src/rpeg/compiler/lptree.c:1243-1257 | the table of new keys leads from every key to the same name |
| Keys.CompactKtable | src/rpeg/compiler/lptree.c:1225-1261 | compaction keeps every label of the tree but those of calls |
| Strbufs.CalculateNewSize | src/lua-cjson/strbuf.c:134-159 | exactly enough room when shrinking; with a negative increment enough when growing, and less than that factor too much; with a positive one the old size rounded up |
| Strbufs.LinearGrowthIff | src/lua-cjson/strbuf.c:153-156 | the old size rounded up is enough exactly if the NUL falls into a block that the buffer had begun |
| Strbufs.Strbuf.Resize | src/lua-cjson/strbuf.c:164-180 | keeps the text |
| Strbufs.Strbuf.EnsureEmpty | src/lua-cjson/strbuf.h:95-99 | makes room, and leaves the array alone exactly when there is room |
| Strbufs.Strbuf.AppendString | src/lua-cjson/strbuf.c:182-199 | appends, growing only where there is no room |
| Strbufs.Strbuf.AppendMemUnsafe | src/lua-cjson/strbuf.h:134-138 | appends where there is room for the bytes and a NUL |
| JsonStrings.AppendString | src/lua-cjson/lua_cjson.c:461-484 | the reservation of six bytes a character and two covers every append without a check |
| JsonStrings.Utf8RoundTrip | src/lua-cjson/lua_cjson.c:772-805 | the bytes written for a code point are its only UTF-8 form, as section 3 of RFC 3629 reads them |
| JsonStrings.EscapeIff | src/lua-cjson/lua_cjson.c:816-872 | an escape is accepted exactly if it spells the UTF-16 units of a code point, in one or two escapes, and stands for that code point; half a pair is refused |
| JsonStrings.EscapedByteBack | src/lua-cjson/lua_cjson.c:882-940 | each escaped byte is read back |
| JsonStrings.StringRoundTrip | src/lua-cjson/lua_cjson.c:882-940 | every string over all 256 bytes is read back, wherever it stands |
| JsonStrings.CaptureStringIff | src/rpeg/runtime/json.c:66-88 | a string written by the capture encoder is read back exactly if it holds no NUL |
| JsonStrings.RawStringIff | src/rpeg/runtime/json.c:97-113 | a name or constant value written as it is, is read back exactly if it holds no quote, backslash or NUL |
| JsonSpelling.CodePointBack | src/lua-cjson/lua_cjson.c:730-872 | the four hexadecimal digits of the unit or of the two units of a code point, each in either case, are read as its UTF-8 |
| JsonSpelling.StringIff | src/lua-cjson/lua_cjson.c:882-940 | a string is accepted exactly if it is a row of bytes that need no escape, letter escapes and code points in hexadecimal digits, and is then what these stand for |
| JsonSpelling.RawTextIff | src/rpeg/runtime/json.c:97-101 | a name written as it is, is read as itself, wherever the reading ends, exactly if it holds no quote, backslash or NUL |
| JsonSpelling.ControlsIff | src/lua-cjson/lua_cjson.c:151-185 | the codec writes no control character, and the capture encoder only NUL |
| Json.LexString | src/lua-cjson/lua_cjson.c:1011-1090 | a written string is one token |
| Json.LexValue | src/lua-cjson/lua_cjson.c:1011-1090 | no written value begins with the token that ends an array |
| Json.ValueBack | src/lua-cjson/lua_cjson.c:1132-1248 | a written value is read back wherever it stands if its nesting is allowed, and refused if not |
| Json.MembersBack | src/lua-cjson/lua_cjson.c:1132-1180 | members are read back with their keys in order |
| Json.ItemsBack | src/lua-cjson/lua_cjson.c:1183-1218 | items are read back in order |
| Json.RoundTrip | src/lua-cjson/lua_cjson.c:1250-1288 | decoding undoes encoding exactly if the nesting is allowed, also in front of a NUL and anything |
| Json.TrailingIff | src/lua-cjson/lua_cjson.c:1279-1283 | a text with something behind it is accepted, with its value, exactly if that is white space, or white space and a NUL and anything |
| JsonGrammar.ValueIff | src/lua-cjson/lua_cjson.c:1011-1248 | a value is read exactly where a text of the grammar of JSON stands whose nesting is allowed, and is what that text stands for |
| JsonGrammar.DecodedIff | src/lua-cjson/lua_cjson.c:1250-1288 | a whole text is accepted exactly if it is a text of the grammar with nothing behind it that is read |
| JsonGrammar.LastWins | src/lua-cjson/lua_cjson.c:1132-1180 | in the table of an object every key stands once, with the last of its values |
| JsonCodec.AppendData | src/lua-cjson/lua_cjson.c:657-698 | appends the text of a value, and refuses exactly if tables are nested too deeply |
| JsonCodec.AppendArray | src/lua-cjson/lua_cjson.c:563-583 | brackets, and commas between items |
| JsonCodec.AppendObject | src/lua-cjson/lua_cjson.c:615-654 | braces, and commas between members |
| JsonCodec.Encode | src/lua-cjson/lua_cjson.c:700-728 | the reused buffer holds the text of this value only |
| JsonCodec.Parser.DecodeHex4 | src/lua-cjson/lua_cjson.c:749-767 | the loop reads four digits, never past the NUL; `JsonSpelling` says which unit they are |
| JsonCodec.Parser.AppendUnicodeEscape | src/lua-cjson/lua_cjson.c:816-872 | appends the bytes of the code point within the room sized from the text, and advances over one escape or two |
| JsonCodec.Parser.NextString | src/lua-cjson/lua_cjson.c:882-940 | the loop reads the characters up to the closing quote, never writes past its room, and leaves errors where they were met |
| JsonCodec.Parser.NextToken | src/lua-cjson/lua_cjson.c:1011-1090 | the next token behind white space, on every text |
| JsonCodec.Parser.ParseArrayContext | src/lua-cjson/lua_cjson.c:1183-1218 | the loop reads the array of the grammar and gives the nesting back |
| JsonCodec.Parser.ParseObjectContext | src/lua-cjson/lua_cjson.c:1132-1180 | likewise for objects, where the last value of a key counts |
| JsonCodec.Parser.ProcessValue | src/lua-cjson/lua_cjson.c:1221-1248 | the recursive parser is the recursive function, with its errors |
| JsonCodec.Decode | src/lua-cjson/lua_cjson.c:1250-1288 | one value and nothing behind it |
| JsonCodec.Transfer | src/lua-cjson/lua_cjson.c:700-1288 | a value encoded here and decoded there comes back exactly if both nesting limits allow it |

## Left out

- Verification.AcceptedTerminates: one way only. Termination of an arbitrary grammar on every input is undecidable, so no
  condition that can be computed characterises it; the lemmas beside it say how the corrected check relates to the
  original one.
- Verification.MatchEnds: asks for the corrected check; the original one does not imply it, see the first finding.
- Compiler.CompilerCorrect: asks that called rules have numbers below 256, that positions of look-behind fit their field,
  that the tree is dependable, and that no set is taken for a test. Three of these are findings; `RuleNumberTruncated`,
  `ChaseNeverEnds` and `ShortcutMisfires` are what happens otherwise.
- Correctness.GenBehaves: about the code without the comparison of sets; `Shortcuts.PlainIff` says when that is the code.
- Compiler.CompiledChainsEnd: one way only, like termination itself; an accepted tree that is not dependable may still
  have chains that all end.
- Generator.CompilePattern: for the same trees, on the others the source's loop need not end. Chains of jumps in the model's
  functions are cut after as many jumps as there are words, so that `Discipline` covers every tree.
- EndToEnd.MatchEncodeDecode: with positions of 31 bits.
- Precision.FirstIff: for trees without look-ahead and negated byte sets, which cut the set down.
- Keys.CompactKtable: labels of calls are excepted, see the findings.
- Searching.CompactSearch: asks for a search that ends, by the condition of the finding.
- Strbufs.CalculateNewSize: sizes are unbounded; the source returns the size through an int. An increment of 0 or -1 is
  refused by the source.
- Json.RoundTrip: values without numbers.
- JsonGrammar.DecodedIff: texts without numbers, as the parser.
- LeftRecursion.GrammarPassesIff: grammars of more than 1000 rules are refused before they are checked.
- JsonCodec.AppendData: values without numbers.
- JsonCodec.Transfer: values without numbers.
- JsonCodec.Parser.NextToken: a number is a token without its value, and nothing behind it is read.
- JsonCodec.Parser.ProcessValue: a number ends the parse; a text with a number is only known to be one with a number.
- Digits.Convert: modes 2 and 3. It starts from an exact mantissa and exponent and an estimate of the decimal exponent that
  is right or one too high. The floating-point estimate, the quick paths in floating point, the shortest-digits loop of
  the other modes and hexadecimal numbers are not modelled, nor is reading numbers.
- Trees: halting patterns, back-references and run-time captures.
- Code: a byte set is one operand here, and nine words of code as in the source.
- Analyses: captures in rules that call themselves inside predicates, where the source recurses without bound.
- Output.CapLoop: capture lists cut short by a halting pattern are not covered, nor is the debugging encoder.
- Free lists of big integers, reference fields that are null for constants, and allocation failure.
- The library's sort is replaced by an insertion sort with the same order; nothing depends on its stability.
- The code array of the compiler is a sequence field that is replaced, so growth of the array by reallocation is not seen.
- Decoder.PushMatch: bytes that end in the middle of a match count as corrupt data, where the source reads on.
- Decoder.PushSubs: the end of the bytes ends the children, where the source looks at what follows in memory.
- The Lua interface, the engine, the command line and the file formats.
