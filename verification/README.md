# Verified model of the workflow engine

This project models the workflow engine in `rust-old/` and proves what its schedulers, its condition
language, its rollback and retry logic and its encoders keep, over every input and every run.
`dafny verify dfyconfig.toml` checks it.

## What is modelled

**The Dag pipeline.** A flow is validated by a depth-first cycle search and a reference check
(`Flow.dfy`), run locally in waves of ready steps (`Dag.dfy`) or by a coordinator with worker nodes
(`Distributed.dfy`), and its outcome is assembled (`DagFlow.dfy`, `Engine.dfy`). `Scheduler.dfy` holds
what both runners share: in-degree counters with their sentinel, the ready queue, the failed set and the
invariant every action keeps; `Causes.dfy` says what that makes of the results, in statuses and reasons alone.
`Graph.dfy` defines paths and cycles; `KahnPeel.dfy` is the fuzzer's
independent cycle detector. `Termination.dfy` bounds every distributed run and says exactly when one can go
on; `Hanging.dfy` says which flows and fleets can leave the coordinator waiting forever. `Confluence.dfy`
proves that local and distributed runs agree with one declarative answer, and `Arrival.dfy` that two
distributed runs of one flow differ where its condition fails.

**The condition compiler.** Tokenizer (`Lexer.dfy`, `LexerFacts.dfy`), recursive-descent parser
(`Parser.dfy`), the documented grammar as derivations (`Grammar.dfy`), the compile entry point
(`Compiler.dfy`), a printer with the round trip (`Printer.dfy`), documented and accepted paths
(`PathGrammar.dfy`), evaluation (`Evaluation.dfy`) with 64-bit floats (`Floats.dfy`), Boolean algebra of
source texts (`BooleanLaws.dfy`), and what texts mean for the values of the context (`ConditionMeaning.dfy`).

**Execution, undo and retry.** Sequential and hierarchical execution (`Sequential.dfy`,
`Hierarchical.dfy`), outcome and rollback (`Engine.dfy`), the retry loop and backoff (`StepExec.dfy`).

**State that must agree with something simpler.** The write-behind execution sink (`SpawnSink.dfy`), the
migration registry (`Migration.dfy`), event-stream framing against section 9.2.6 of the WHATWG HTML
standard (`Sse.dfy`), and percent-encoding against sections 2.1 and 2.3 of RFC 3986
(`UrlEncoding.dfy`).

## How nondeterminism is modelled

Handler outcomes, condition verdicts, cancellation, timeouts and rollback answers are function
parameters that every theorem quantifies over. A step's handler is started at most once in a Dag run, so
a function of the step id covers every behaviour of the handlers; in list and tree runs the functions take
the number of results recorded so far. Where several tasks act at once the model is a step system whose
runs are sequences of states: the distributed coordinator (submit, refuse, skip, receive, rebalance, stop,
dequeue, finish, panic, crash) and the sink (mirror write, send, database write).

## What the code does that its documentation does not say

- A cancelled or timed-out `run_dag` records only the steps that were ready, while runner.rs:519-521
  says that remaining steps are marked Skipped. A run first told to stop at wave `w` records exactly the
  steps that w + 1 waves reach from the flow alone (`DagRunner.RunDag`), so all of them are on record
  exactly if w + 1 waves reach every step (`DagFlow.RunDagFlow`); in flows of All steps that is the number
  of steps on the longest dependency path (`DagRunner.FiredIsDepth`). `DagFlow.StoppedChain` is a run in
  which a step gets no result.
- Rollback goes backwards through the flow's listing. That is the reverse of completion order for
  Sequential flows (`Engine.RunSequentialFlow`); a Dag run undoes a dependency before the step that uses
  it exactly when the flow lists the dependency later (`DagFlow.RollbackOrder`), as the run of
  `DagFlow.DependencyUndoneFirst` does.
- Parenthesising a condition preserves it exactly when the text is not blank and trimming removes only
  blanks that the tokenizer skips too (`Compiler.ParensAreTransparent`); it breaks the blank text
  (`Compiler.ParensBreakBlank`).
- The tokenizer takes words as paths which the documented path grammar does not derive;
  `PathGrammar.WordsAreTakenAsPaths` says which, and `a..b` is one (`PathGrammar.DoubledDotIsTaken`).
- A frame reads back as the event it stands for exactly when its data has no carriage return, its event
  name is non-empty and one line, and its id is one line without NUL
  (`Sse.FrameReadsBackExactlyWhenClean`); data is cut at a carriage return (`Sse.CarriageReturnCuts`).
- Percent-decoding takes more than triplets: a missing or signed digit, and bad triplets as themselves
  (`UrlEncoding.LenientDecoding`).
- The sink ends every quiet run with database and mirror in agreement exactly when no execution id has two
  writers (`SpawnSink.DurableIffOneWriterPerId`).
- Numbers are ordered as 64-bit floats and equal by representation, so different integers can be neither
  less nor greater than each other (`Evaluation.OrderIsNotEquality`).
- An Any step whose dependencies disagree can get a result that depends on which of them reports first: if
  the one that fails waits for no other dependency of the step, two runs return different results
  (`Arrival.AnyStepsDependOnArrival`).
- distributed.rs:31 promises one result per step, and a run that leaves the coordinator's loop returns them
  (`Distributed.ExitedRunReportsAll`). But a handler that panics ends its worker without a report
  (distributed.rs:104-138), and while another worker lives the wait at distributed.rs:219-223 never ends by
  itself; `run_distributed` passes no token, and by default a timeout of `u64::MAX` (runner.rs:394-427). So on
  two nodes or more a flow can hang (`Hanging.CanHangIff`), and with fewer panicking steps than nodes no run of
  it ever returns (`Hanging.EveryRunHangs`), the flow of one panicking step for instance
  (`Hanging.OnePanicHangs`).
- flow.rs:75 says that completed steps are rolled back. A Hierarchical run never undoes a sub-step, so it undoes
  every completed rollbackable step exactly if none of them is one (`Engine.RunHierarchicalFlow`), and calls
  itself rolled back whenever the undoing it did succeeded (`Engine.SubStepIsNotUndone` leaves one as it is).

## Model

| member | source | states |
|---|---|---|
| Flow.Dfs | rust-old/src/flow.rs:178-199 | from any consistent visited and in-stack sets the search reports a cycle only if one exists; otherwise it gives in-stack back unchanged and everything it visited is closed under dependencies and on no cycle; it ends because unvisited nodes run out |
| Flow.CheckCycles | rust-old/src/flow.rs:170-220 | cycle error exactly when some step reaches itself along a non-empty dependency path; missing-step error exactly when acyclic and some dependency is not in the flow |
| Flow.CheckReferences | rust-old/src/flow.rs:207-217 | accepts exactly when every dependency names a step of the flow; the error names the first step that misses one |
| Flow.ValidateHierarchical | rust-old/src/flow.rs:157-168 | accepts exactly when no step anywhere in the forest has dependencies; the error names the first such step in pre-order |
| Flow.Validate | rust-old/src/flow.rs:133-155 | accepts exactly the well-formed flows of each mode; cycle error exactly for cyclic Dag flows, mode error exactly for dependencies outside Dag mode, and every other error names the first step that is wrong |
| Graph.EndlessSetHasCycle | fuzz/flow_validate.fcyr:63-66 | a finite non-empty set in which every node has a successor inside holds a cycle |
| Graph.SettledGraphIsAcyclic | rust-old/src/flow.rs:197-205 | once every node is settled there is no cycle |
| KahnPeel.CountPending | fuzz/flow_validate.fcyr:92-100 | the count is zero exactly when all dependencies are deleted, and positive only if one of those left is a dependency |
| KahnPeel.PeelPass | fuzz/flow_validate.fcyr:86-108 | one pass deletes only nodes whose dependencies are deleted; without progress every node left has a dependency left |
| KahnPeel.KahnAcyclic | fuzz/flow_validate.fcyr:75-112 | the peel-off over the array of marks answers acyclic exactly when no node reaches itself |
| KahnPeel.BuiltGraph | fuzz/flow_validate.fcyr:131-155 | the flow built from an edge list has that list's graph and no dangling dependency |
| KahnPeel.Differential | fuzz/flow_validate.fcyr:63-68 | validation and peel-off give one verdict on every graph within its nodes, self-loops and repeated edges included |
| Scheduler.TriggeredMeaning | rust-old/src/engine/dag.rs:32-37 | the counter rule means: an All step waits for every dependency, an Any step for one, a step without dependencies for none |
| Scheduler.UnlockDependents | rust-old/src/engine/dag.rs:216-234 | each counter falls by the number of its occurrences with saturation and sentinel, and the ids appended to the queue are those whose counter read zero, once each, in the order of the dependents |
| Scheduler.RecordInv | rust-old/src/engine/dag.rs:187-194 | recording a result and unlocking dependents keeps the whole invariant: at most one queue entry, flight or result per step, exact counters, entry exactly when triggered, results in trigger order, no All step run over a failed dependency |
| Scheduler.DrainedIsComplete | rust-old/src/engine/dag.rs:53-79 | on an acyclic closed table the queue cannot run empty with nothing in flight before every step has a result |
| Scheduler.ExplainedIsExpected | rust-old/src/engine/dag.rs:88-142 | for unconditioned steps, Any steps included if their dependencies all block or all pass, any record whose entries have their causes before them is the declarative answer: skipped if and only if some transitive dependency's handler fails, else the handler's own outcome |
| Scheduler.FewerResultsThanSteps | rust-old/src/engine/dag.rs:23-53 | results never outnumber steps, and as many results as steps means every step has one |
| DagRunner.Register | rust-old/src/engine/dag.rs:38-40 | adds one dependent entry per listed dependency, repetitions counted |
| DagRunner.BuildIndex | rust-old/src/engine/dag.rs:26-41 | the counters start at the trigger's need and the dependents map is the reversed edge relation with multiplicity |
| DagRunner.StartQueueIs | rust-old/src/engine/dag.rs:44-48 | the first queue holds exactly the steps without dependencies, once each and in flow order |
| DagRunner.LaunchWave | rust-old/src/engine/dag.rs:80-185 | exactly the steps ready at the start of the wave are recorded or started, both in queue order, keeping the invariant |
| DagRunner.LaunchOne | rust-old/src/engine/dag.rs:85-184 | the entry at the head is skipped with its cause or started, only when triggered and no dependency failed |
| DagRunner.Finish | rust-old/src/engine/dag.rs:187-210 | one more result, the failed set and the queue updated, invariant kept |
| DagRunner.AwaitWave | rust-old/src/engine/dag.rs:187-210 | exactly the started steps get their one result, the outcome of their handler, in start order, invariant kept |
| DagRunner.RunWave | rust-old/src/engine/dag.rs:80-211 | the k-th wave resolves exactly what k + 1 waves reach from the flow alone, and adds first the skips, then the handlers' outcomes, each in queue order |
| DagRunner.FiredStays | rust-old/src/engine/dag.rs:53-79 | once a wave reaches nothing new no later wave does |
| DagRunner.FiredIsDepth | rust-old/src/engine/dag.rs:28-48 | in a closed flow of All steps, k waves reach exactly the steps from which no dependency path visits more than k steps |
| DagRunner.RunDag | rust-old/src/engine/dag.rs:13-214 | at most one result per step in every run, in trigger order; every executed result has the cause it names, said of statuses, reasons, verdicts and outcomes; a step skipped for a dependency leads to an earlier failure, and a step that waits for a failed one is so skipped; a run first told to stop at wave w executes the steps w waves reach and skips, with the stop's reason, exactly those one more wave reaches; an unstopped run records all that waves can reach, which is each step once in a validated flow |
| Causes.RecordIsTraced | rust-old/src/engine/dag.rs:80-211 | in every record both schedulers can make, conditions and Any steps admitted: a skip for a dependency leads along dependencies to an earlier failure; an All step with a dependency that failed or was skipped for a failure is so skipped; and each result is a skip for a dependency that failed, a skip for a condition that did not hold, or the outcome of a handler started when all or some dependencies were on record, none had failed and the condition held or could not be evaluated |
| Causes.NoFailureNoSkip | rust-old/src/engine/dag.rs:88-136 | with no failure on record no step is skipped for a dependency, whatever conditions were false |
| DagFlow.PresentIsClosed | rust-old/src/flow.rs:207-217 | with distinct ids the reference check on the list is closedness of the scheduler's table |
| DagFlow.SomeFailureIsReached | rust-old/src/engine/dag.rs:88-111 | in an acyclic closed flow, if some handler fails then one fails that no failing dependency keeps from starting |
| DagFlow.FailureIsRecordedIff | rust-old/src/engine/runner.rs:269-271 | the declarative record holds a Failed result exactly when some step's handler fails |
| DagFlow.CompletenessOfRuns | rust-old/src/engine/runner.rs:519-521 | a run of a validated flow first told to stop at wave w has every step on record exactly if w + 1 waves reach every step |
| DagFlow.SuccessMeansAllSucceed | rust-old/src/engine/runner.rs:269-271 | an undisturbed run has no Failed result exactly when every handler succeeds |
| DagFlow.UndoesExactly | rust-old/src/engine/runner.rs:666-679 | the rollback calls are exactly the rollbackable completed steps, once each |
| DagFlow.ExecuteFlow | rust-old/src/engine/runner.rs:141-343 | what both entry points share: accurate results, completeness, rollback, and the declarative answer for uniform flows, in a stopped run as far as it went |
| DagFlow.RunDagFlow | rust-old/src/engine/runner.rs:141-343 | validate, run, finalize: exactly-once without a timeout, the exact condition for completeness from the wave of the timeout, each result with its cause or the timeout as reason, success exactly when every handler succeeds for uniform flows, rollback of exactly the completed rollbackable steps |
| DagFlow.CancellationIsSeen | rust-old/src/engine/runner.rs:600-609 | some step is recorded as skipped for the cancellation exactly if the token is what first stops the run and the next wave would have reached another step |
| DagFlow.TailReasons | rust-old/src/engine/dag.rs:53-79 | what a stopped run does not execute is skipped for the cancellation or the timeout, whichever the first stopping wave sees, the cancellation first |
| DagFlow.RunCancellableDagFlow | rust-old/src/engine/runner.rs:523-659 | succeeds exactly without a failure and without a cancellation that left steps to start; what is not executed names what first stopped the run; rollback as without a token |
| DagFlow.RollbackOrder | rust-old/src/engine/runner.rs:666-679 | in a failed Dag run that undoes a step and its dependency, either is undone before the other exactly when it is listed later |
| DagFlow.DependencyUndoneFirst | rust-old/src/engine/runner.rs:666-679 | a failed run, rolled back, in which the dependency is undone before its user |
| DagFlow.StoppedChain | rust-old/src/engine/runner.rs:519-521 | a cancelled run in which a step has no result at all, contrary to the cited comment |
| Distributed.RunOk | rust-old/src/engine/distributed.rs:146-240 | the scheduler's invariant and the coordinator's books hold in every state of every run |
| Distributed.NextOk | rust-old/src/engine/distributed.rs:146-240 | every action of coordinator, worker or failure keeps them |
| Distributed.CounterNeverUnderflows | rust-old/src/engine/distributed.rs:187-228 | `in_flight` is submissions minus receipts, equals the number of outstanding steps, and is positive at each receive |
| Distributed.UnseenFillsUp | rust-old/src/engine/distributed.rs:242-261 | the final fill-in adds one entry for exactly the steps without a result |
| Distributed.ExitedRunReportsAll | rust-old/src/engine/distributed.rs:146-269 | every run that leaves the loop, however it was cancelled, refused, crashed or timed out, returns exactly one result per step: first the loop's own, then for exactly the steps without one, in flow order, a skip with the given reason |
| Distributed.RecordsAreTraced | rust-old/src/engine/distributed.rs:146-240 | in every state of every run each result has the cause it names; failures spread to the steps that wait for them, and only failures do |
| Distributed.LoopIsCompleteIffDrained | rust-old/src/engine/distributed.rs:205-261 | a run of a validated flow has every result from the loop itself, explained and in trigger order, so that none is reported as not scheduled, exactly if it left the loop with nothing ready or in flight |
| Distributed.UndisturbedRunDrains | rust-old/src/engine/distributed.rs:205-239 | without cancellation and timeout, a run in which no worker died leaves the loop only with nothing ready or in flight |
| Termination.NextShrinks | rust-old/src/engine/distributed.rs:146-240 | every action of coordinator, worker or failure lowers one measure of the work left |
| Termination.RunsAreBounded | rust-old/src/engine/distributed.rs:146-240 | no run, however it interleaves, is longer than six actions per step plus one per node plus two |
| Termination.GoesOnIffNotHung | rust-old/src/engine/distributed.rs:104-240 | before the exit, crashes, panics and empty fleets included, the coordinator or a worker can act exactly if the state is not hung: waiting without token or timeout, no report queued, some worker alive, and everything in flight lost or queued on a node whose worker is gone |
| Termination.RunGoesOn | rust-old/src/engine/distributed.rs:104-240 | every run goes on, without further crashes other than panics, to its exit or to a hung state |
| Termination.NeverHangs | rust-old/src/engine/distributed.rs:217-239 | with a token or timeout, with at most one node, or without crashes and panicking handlers, no run of any flow hangs |
| Hanging.PanicsAreNotRecorded | rust-old/src/engine/distributed.rs:104-138 | in no state of any run is a panic on record |
| Hanging.KillersBlockTheExit | rust-old/src/engine/distributed.rs:204-239 | in a uniform flow with a panicking step that gets started, a run leaves the loop only once every worker has died |
| Hanging.CanHangIff | rust-old/src/engine/distributed.rs:217-239 | a validated uniform flow can hang exactly if there is neither token nor timeout, there are two nodes or more, and workers may crash or some step without a failing dependency panics |
| Hanging.EveryRunHangs | rust-old/src/engine/runner.rs:394-427 | with panicking steps to start, fewer than there are nodes, and no token, timeout, refusal or other crash, no run returns, and every run goes on to a hung state |
| Hanging.OnePanicHangs | rust-old/src/engine/distributed.rs:31-42 | the flow of one step whose handler panics never returns on two nodes or more |
| Confluence.ResultsGrow | rust-old/src/engine/distributed.rs:159-234 | what is on record stays on record |
| Confluence.DistributedIsExpected | rust-old/src/engine/distributed.rs:146-269 | every run of unconditioned steps, Any steps included if their dependencies agree, that leaves the loop with nothing ready or in flight and without refusals returns exactly the declarative answer for each step |
| Confluence.AgreesWithLocal | rust-old/src/engine/distributed.rs:35-42 | the local runner and any such distributed run record the same result for every step |
| Arrival.WorkedOff | rust-old/src/engine/distributed.rs:101-240 | with a node for each step, workers can be so slow that a dependency-closed part of the flow is resolved before any step outside has been started |
| Arrival.AnyStepsDependOnArrival | rust-old/src/engine/distributed.rs:146-240 | in any unconditioned flow, for an Any step with one dependency that succeeds with all it needs, and one that fails or waits for a failure and for no other dependency of the step, two complete undisturbed runs of one configuration return different results: skipped in one, its handler's outcome in the other |
| Arrival.ForkDisagrees | rust-old/src/engine/distributed.rs:146-240 | two independent steps, one failing, and a step that waits for either are such a case |
| Lexer.ScanAt | rust-old/src/condition.rs:70-208 | one turn of the loop finds the token, blank or error that starts the remaining text |
| Lexer.Tokenize | rust-old/src/condition.rs:65-212 | the index-moving tokenizer computes the suffix-wise tokenization, errors included |
| LexerFacts.LexAppend | rust-old/src/condition.rs:65-212 | tokenizing distributes over putting texts side by side when the second starts with a separating character |
| LexerFacts.LexErrorStays | rust-old/src/condition.rs:65-212 | a text that does not tokenize is not mended by one more separating character other than a quote |
| Parser.TokenParser.Peek | rust-old/src/condition.rs:247-249 | the first remaining token, nothing moved |
| Parser.TokenParser.Advance | rust-old/src/condition.rs:251-259 | takes one token; the position only moves forward |
| Parser.TokenParser.ParseOrExpr | rust-old/src/condition.rs:265-273 | result and position reached are the or-level parse of what remained |
| Parser.TokenParser.ParseAndExpr | rust-old/src/condition.rs:275-283 | the same at the and level |
| Parser.TokenParser.ParseCmpExpr | rust-old/src/condition.rs:285-320 | the same at the comparison level, at most one comparison |
| Parser.TokenParser.ParseValueExpr | rust-old/src/condition.rs:322-361 | the same at the value level, negation and parentheses included |
| Grammar.OrComplete | rust-old/src/condition.rs:265-273 | a derivable token sequence before anything that does not continue it is parsed to its derivation's AST with exactly the rest left |
| Grammar.OrSound | rust-old/src/condition.rs:265-273 | what the parser consumes is derivable and its AST is the derivation's |
| Grammar.ParsesExactlyTheGrammar | rust-old/src/condition.rs:5-18 | parser and trailing-token check accept exactly the sequences the documented grammar derives, with the AST of the derivation |
| Grammar.DerivationIsUnique | rust-old/src/condition.rs:5-18 | the grammar is unambiguous |
| Compiler.CompileCondition | rust-old/src/condition.rs:563-587 | trim, tokenize, parse, refuse leftovers; a blank text is the condition that holds |
| Compiler.TrimLex | rust-old/src/condition.rs:564-572 | trimming changes no text that tokenizes, and a text tokenizes exactly when its trimmed form does and the blanks trimmed are the tokenizer's own |
| Compiler.ParensLex | rust-old/src/condition.rs:65-212 | a parenthesised text tokenizes to its tokens between parentheses, and fails when it fails |
| Compiler.ParensAreTransparent | fuzz/condition_expr.fcyr:337-338 | parenthesising preserves a compiling text exactly when it is not blank and its outer blanks are the tokenizer's own |
| Compiler.ParensBreakBlank | rust-old/src/condition.rs:563-587 | the blank text compiles and its parenthesised form does not |
| Compiler.BlanksAround | fuzz/condition_expr.fcyr:353-356 | blanks before and after any text leave the compiled condition, or the error, as it is |
| Printer.ShowReads | rust-old/src/condition.rs:5-18 | printed with parentheses only where precedence asks for them, an AST tokenizes to a derivation of itself at that precedence |
| Printer.PrintThenCompile | rust-old/src/condition.rs:563-587 | printing any condition and compiling the text returns that AST |
| Printer.CompiledPrintsBack | rust-old/src/condition.rs:563-587 | every text that compiles gives a printable AST, whose text compiles to that AST again |
| Printer.PrintIsInjective | rust-old/src/condition.rs:5-18 | different conditions print differently |
| PathGrammar.DocumentedPathsAre | rust-old/src/condition.rs:13-14 | the documented paths are exactly the words each of whose dots starts a new identifier |
| PathGrammar.WordsAreTakenAsPaths | rust-old/src/condition.rs:65-212 | every word compiles to a path, also those the grammar does not derive, and which those are |
| PathGrammar.DoubledDotIsTaken | rust-old/src/condition.rs:13-14 | a word outside the documented grammar that compiles to a path |
| Evaluation.ComparisonMirrors | rust-old/src/condition.rs:398-437 | exchanging operands mirrors the operator for all values of all types |
| Evaluation.Trichotomy | rust-old/src/condition.rs:463-489 | which of less, equal and greater hold of two strings, two numbers ordered as floats, and values of different types |
| Floats.ToFloatMonotone | rust-old/src/condition.rs:481-484 | conversion to the nearest 64-bit float, ties to even, keeps the order of all reals |
| Floats.SmallIntegersAreExact | rust-old/src/condition.rs:481-484 | integers up to two to the 53 convert exactly |
| Floats.ToFloatIsNearest | rust-old/src/condition.rs:481-484 | a number converts to a 64-bit float, and no other float is nearer to it |
| Floats.OverflowIsExact | rust-old/src/condition.rs:481-484 | numbers convert to two to the 1024 or more, which no 64-bit float holds, exactly from half a spacing below it |
| Evaluation.IntegersCompare | rust-old/src/condition.rs:463-489 | integers are never ordered against their values, are equal exactly when they are one integer, and compare exactly up to two to the 53 |
| Evaluation.IntegersAreExactUpTo | rust-old/src/condition.rs:463-489 | all integers of absolute value up to n are ordered exactly if and only if n is at most two to the 53 |
| Evaluation.OrderIsNotEquality | rust-old/src/condition.rs:463-489 | two different integers that are neither less nor greater, and integers against literals of their value: never equal, neither less nor greater |
| BooleanLaws.SourceReads | rust-old/src/condition.rs:563-587 | a combination of texts tokenizes to a derivation of the combined ASTs |
| BooleanLaws.AstMeans | rust-old/src/condition.rs:394-455 | short-circuit evaluation of the combination equals the strict connectives on the parts' truth values |
| BooleanLaws.TextsMeanTheirConnectives | fuzz/condition_expr.fcyr:329-398 | evaluating a combined text gives what the connectives make of the values of its parts |
| BooleanLaws.EquivalentTextsAgree | fuzz/condition_expr.fcyr:329-398 | propositionally equivalent combinations evaluate alike in every context |
| BooleanLaws.ClassicalLaws | fuzz/condition_expr.fcyr:342-384 | De Morgan, commutativity and associativity of both connectives, idempotence and double negation for all texts that parse |
| BooleanLaws.ConstantLaws | fuzz/condition_expr.fcyr:339-352 | identities and annihilators with bare constants, and negation flips |
| BooleanLaws.PaddingIsIrrelevant | fuzz/condition_expr.fcyr:353-356 | surrounding blanks do not change what any text evaluates to |
| BooleanLaws.PrecedenceOfTexts | fuzz/condition_expr.fcyr:385-391 | a text mixing both operators compiles to the same AST as the one with the and-part parenthesised, on either side |
| BooleanLaws.ConditionCache.GetCompiled | rust-old/src/condition.rs:640-657 | the memo answers as compiling would and stores that answer, errors as well |
| BooleanLaws.ConditionCache.EvaluateCached | rust-old/src/condition.rs:632-637 | cached evaluation equals uncached evaluation, whatever was cached before |
| ConditionMeaning.PathHead | rust-old/src/condition.rs:383-392 | the value at a path without dots is that field of the context, the value at a longer path that at its rest in the field its head names, and null if there is none |
| ConditionMeaning.PathDenotes | rust-old/src/condition.rs:363-392 | a path denotes the value reached by following its keys one after another, or null if they reach none |
| ConditionMeaning.StringComparisonsMean | rust-old/src/condition.rs:398-489 | the text of a path, one of the six operators and a quoted string holds exactly when the value reached is that string, is not, or is a string before, not after, after or not before it in the order of character codes |
| ConditionMeaning.NumberComparisonsMean | rust-old/src/condition.rs:398-489 | the same for a number with a dot, which counts its digits by their places and is rounded to a 64-bit float |
| ConditionMeaning.WholeComparisonsMean | rust-old/src/condition.rs:398-489 | the same for a number without a dot |
| ConditionMeaning.LiteralsConvert | rust-old/src/condition.rs:334-341 | a number literal is the float it rounds to, or null exactly if that is past the largest float |
| ConditionMeaning.PathsAloneMean | rust-old/src/condition.rs:491-504 | a path alone holds exactly when it reaches true, a non-empty string, array or object, or a number other than zero |
| ConditionMeaning.ConstantsMean | rust-old/src/condition.rs:563-587 | true and the blank text hold, false does not |
| ConditionMeaning.ConnectivesMean | rust-old/src/condition.rs:438-455 | the texts of two conditions between parentheses joined by the and-, or- and not-signs evaluate as the connectives |
| ConditionMeaning.DocumentedExample | rust-old/src/condition.rs:21-34 | the example of the module documentation gives true and false as it says |
| ConditionMeaning.CharactersAre | rust-old/src/condition.rs:65-212 | what each character alone is to the tokenizer: blank, token or error |
| ConditionMeaning.DotsNeedDigits | rust-old/src/condition.rs:160-180 | a dot after digits belongs to the number only if a digit follows, otherwise it is an error |
| ConditionMeaning.BlanksAre | rust-old/src/condition.rs:563-572 | exactly the white space characters of Unicode are each a blank condition |
| ConditionMeaning.ErrorsAre | rust-old/src/condition.rs:322-361 | which error the parser gives at the end of the text, for an open parenthesis, for a token that is no value, and for one token too many |
| Sequential.RunSequential | rust-old/src/engine/sequential.rs:8-98 | one result per step in order, each saying which of cancellation, earlier failure, timeout or condition kept the handler from running, else what the handler came to |
| Sequential.OutcomeIsUnique | rust-old/src/engine/sequential.rs:18-97 | that specification determines the whole record |
| HierarchicalRunner.SkipStepAndChildren | rust-old/src/engine/hierarchical.rs:87-106 | appends the step and its whole subtree in pre-order as skipped with the one reason |
| HierarchicalRunner.SkipChildren | rust-old/src/engine/hierarchical.rs:108-117 | the same for the subtree alone |
| HierarchicalRunner.ExecuteTree | rust-old/src/engine/hierarchical.rs:24-85 | the shared results vector ends as the recursive execution of the forest |
| HierarchicalRunner.ResultsFollowPreorder | rust-old/src/engine/hierarchical.rs:24-117 | whatever fails, is cancelled, times out or is skipped, the result ids are the pre-order traversal |
| HierarchicalRunner.HandlersRunExactlyWhenClear | rust-old/src/engine/hierarchical.rs:33-82 | a step has its handler's outcome exactly when all ancestors completed, no earlier sibling failed, and no cancellation, timeout or false condition applies; otherwise it is skipped for the first of these, below a failed step for its parent, and below a skipped one for that one's reason |
| HierarchicalRunner.AgreesWithSequential | rust-old/src/engine/hierarchical.rs:33-83 | on a forest of leaves the record is the sequential runner's |
| HierarchicalRunner.RunHierarchical | rust-old/src/engine/hierarchical.rs:11-22 | the run from an empty record, with the pre-order ids |
| Engine.RollbackCompletedSteps | rust-old/src/engine/runner.rs:661-695 | calls the handler on the completed rollbackable steps, last listed first, going on after a failure; true exactly when a handler is set and all calls succeeded |
| Engine.Finalize | rust-old/src/engine/runner.rs:438-514 | success exactly without Failed results; rollback exactly on failure when enabled; the saved state follows |
| Engine.ToUndoIsSubsequence | rust-old/src/engine/runner.rs:666-675 | the steps to undo are exactly the completed rollbackable ones, once each |
| Engine.FlowOrderIsCompletionOrder | rust-old/src/engine/sequential.rs:18-97 | when results come in flow order, the listing order of the steps to undo is their completion order |
| Engine.RunSequentialFlow | rust-old/src/engine/runner.rs:141-343 | a failed Sequential run with rollback enabled and a handler undoes exactly the rollbackable completed steps in reverse completion order, once each, and reports rolled back exactly when every call succeeded; the records saved are Running and then the final state |
| Engine.LaterListedIsUndoneFirst | rust-old/src/engine/runner.rs:679 | of two undone steps the later listed is undone first |
| Engine.UndoneFirstIff | rust-old/src/engine/runner.rs:666-679 | of two undone steps one is undone before the other exactly when it is listed later |
| Engine.RunHierarchicalFlow | rust-old/src/engine/runner.rs:141-343 | a failed Hierarchical run with rollback enabled and a handler undoes exactly the completed rollbackable steps of the top level, once each, so all of the forest exactly if none of them is a sub-step |
| Engine.SubStepIsNotUndone | rust-old/src/engine/runner.rs:666-675 | a failed run in which a completed rollbackable sub-step is not among the steps undone |
| SpawnSink.RunInv | rust-old/src/sql_store.rs:67-159 | with one writer per id, in every state of every run: per id, what is written, queued and pending is what was issued, in order, and the mirror is its effect |
| SpawnSink.ReplayGivesMirror | rust-old/src/sql_store.rs:67-159 | replaying the queue and the pending send over the database gives the mirror on every id that went through the sink |
| SpawnSink.QuietSinkIsDurable | rust-old/src/sql_store.rs:69-73 | with nothing queued or pending the database equals the mirror on those ids |
| SpawnSink.WritesFollowIssueOrder | rust-old/src/sql_store.rs:70-73 | the database sees each id's operations in issue order with none skipped, so an earlier save never overwrites a later one |
| SpawnSink.TwoWritersDiverge | rust-old/src/sql_store.rs:121-128 | for every database, id and two writers permitted for it, a run ends quiet with database and mirror different on the id |
| SpawnSink.DurableIffOneWriterPerId | rust-old/src/sql_store.rs:69-73 | for every relation of who may write what, all runs that end quiet end with database and mirror in agreement exactly when no id has two permitted writers |
| SpawnSink.Sink.Save | rust-old/src/sql_store.rs:121-128 | mirror and queue both take the record; replaying the queue still gives the mirror |
| SpawnSink.Sink.Get | rust-old/src/sql_store.rs:130-136 | reads the mirror, which is what the database will hold |
| SpawnSink.Sink.Remove | rust-old/src/sql_store.rs:148-159 | removes from the mirror and queues a delete exactly when the id was there |
| SpawnSink.Sink.WriteOne | rust-old/src/sql_store.rs:109-114 | the background task applies the oldest queued operation, mirror untouched |
| Migration.MigrationRegistry.Register | rust-old/src/migration.rs:133-145 | accepts exactly a rising version from a source not yet registered, and adds it |
| Migration.MigrationRegistry.LatestVersion | rust-old/src/migration.rs:150-152 | the greatest registered target, none for an empty registry |
| Migration.MigrationRegistry.MigrateTo | rust-old/src/migration.rs:159-192 | the loop computes the recursive migration and a success is at the target |
| Migration.MigrationRegistry.MigrateLatest | rust-old/src/migration.rs:197-202 | leaves a current flow alone, else migrates to the greatest registered target; a success is at or above every registered target |
| Migration.MigratesExactlyAlongChains | rust-old/src/migration.rs:154-192 | succeeds with a result exactly when registered edges lead from the flow's version to the target and the transforms, each given what the one before returned with its version set to the edge's target, end in it |
| Migration.FailsExactlyWhereStopped | rust-old/src/migration.rs:154-192 | fails with an error exactly if the flow is above the target, or the edges lead to a flow below it that has no edge, one past the target, or one whose transform fails, and the error says which |
| Migration.ChainAscends | rust-old/src/migration.rs:136-139 | versions rise strictly along a chain |
| Migration.StopoverChangesNothing | rust-old/src/migration.rs:159-192 | going to an intermediate version first gives the same flow or error |
| Migration.OnlyChainVersionsAreReached | rust-old/src/migration.rs:170-184 | up to the target, exactly the versions on the chain can be migrated to |
| StepExec.ExecuteStep | rust-old/src/engine/step_exec.rs:18-180 | the handler is called until its first success or the attempts are used up; the outcome, the retry and failure events and, for each strategy, the length of every sleep are stated in the step's numbers |
| StepExec.ExponentialDelay | rust-old/src/step.rs:51-61 | the delay is base times a power of two capped at the largest u64, for every attempt number |
| StepExec.LinearAndFixedDelays | rust-old/src/step.rs:51-61 | the linear delay is base times the attempt capped at the largest u64, the fixed one is base |
| StepExec.DecimalReads | rust-old/src/error.rs:7-13 | the numbers in the error texts are written in decimal without leading zeros |
| StepExec.DelaysNeverDecrease | rust-old/src/step.rs:51-61 | for every strategy no later attempt has a shorter delay than an earlier one, and all delays stay within u64 |
| StepExec.ExponentialTotal | rust-old/src/engine/step_exec.rs:117-120 | uncapped exponential sleeps over n calls total base times two to the n-1 less one |
| Sse.SseFrame | rust-old/src/stream.rs:159-174 | the buffer filled line by line is the frame that the reading theorems are about |
| Sse.FrameText | rust-old/src/stream.rs:159-174 | a frame as written: event line, id line, a line for each line of data, blank line |
| Sse.ReadFrame | rust-old/src/stream.rs:147-157 | reading a clean frame from between two frames dispatches exactly its event and returns to that state |
| Sse.StreamReadsBack | rust-old/src/stream.rs:147-157 | a concatenation of frames reads back as exactly the messages written, in order and with ids carried over, if and only if all their texts are clean |
| Sse.FrameReadsBackExactlyWhenClean | rust-old/src/stream.rs:159-174 | a single frame reads back as its event exactly when its texts are clean |
| Sse.CarriageReturnCuts | rust-old/src/stream.rs:159-174 | data with a carriage return is delivered only up to it, when what follows names no field |
| UrlEncoding.UrlEncode | rust-old/src/mcp/tools/net_tools.rs:375-383 | the loop encodes each UTF-8 byte of the text |
| UrlEncoding.UrlDecode | rust-old/src/mcp/tools/net_tools.rs:386-410 | the loop collects the decoded bytes of the whole text and reads them as UTF-8 |
| UrlEncoding.DecodeAt | rust-old/src/mcp/tools/net_tools.rs:388-403 | one turn takes one character, or a percent sign with up to two more, with the source's lenient digits |
| UrlEncoding.FromUtf8IsExact | rust-old/src/mcp/tools/net_tools.rs:404-410 | bytes are accepted exactly as the encoding of the text returned |
| UrlEncoding.Utf8ReadsBack | rust-old/src/mcp/tools/net_tools.rs:404-410 | the UTF-8 bytes of any text are accepted and read back |
| UrlEncoding.EncodedReadsBack | rust-old/src/mcp/tools/net_tools.rs:375-403 | decoding the encoding of any bytes gives those bytes, the plus sign and percent sign included |
| UrlEncoding.EncodedBytesAre | rust-old/src/mcp/tools/net_tools.rs:375-383 | a byte is written as itself exactly if it is a letter, digit, hyphen, underscore, dot or tilde, else as a triplet of upper-case digits |
| UrlEncoding.SpellingsReadBack | rust-old/src/mcp/tools/net_tools.rs:386-404 | bytes spelled by triplets with digits of either case, plus signs for blanks and characters as they are decode to those bytes |
| UrlEncoding.DecodeSpelling | rust-old/src/mcp/tools/net_tools.rs:386-410 | every such spelling of a text decodes to the text |
| UrlEncoding.BadTripletsStay | rust-old/src/mcp/tools/net_tools.rs:389-398 | two characters after a percent sign that are no hexadecimal number stand for themselves with it |
| UrlEncoding.EncodedIsSafe | rust-old/src/mcp/tools/net_tools.rs:376-382 | encoded text holds only unreserved characters and upper-case percent triplets |
| UrlEncoding.CanonicalReencodes | rust-old/src/mcp/tools/net_tools.rs:375-403 | encoding what a text decodes to gives the text back exactly when it consists of unreserved characters and upper-case triplets of bytes that are not unreserved; every more lenient spelling the decoder takes is rewritten |
| UrlEncoding.EncodingIsInjective | rust-old/src/mcp/tools/net_tools.rs:375-383 | different texts have different encodings |
| UrlEncoding.LenientDecoding | rust-old/src/mcp/tools/net_tools.rs:389-395 | a missing or signed digit still decodes, a bad triplet stands for itself |
| UrlEncoding.RoundTrip | rust-old/src/mcp/tools/net_tools.rs:374-410 | encode then decode returns every text |

## Left out

- Runtime objects: tasks, semaphores, timers and join handles become oracles and interleaved steps; `max_concurrency` only limits which interleavings occur.
- The `majra` fleet is not part of this model: it is assumed to hold each submitted item once, to give it to one worker, to lose none on rebalancing, and to refuse every step when it has no nodes.
- A handler either returns or panics. In the distributed runner a panic ends the worker and loses the step; in the local Dag runner it is recorded as Failed; out of the Sequential and Hierarchical runners it unwinds and nothing is recorded, so there the model's handlers return (`Sequential.Finished`).
- Which of the three reasons the distributed fill-in gives is a parameter; the clock and token are read once more there.
- `run_with_cancellation` is modelled for Dag flows only; in the other modes it differs from `run` in the token passed to the runner, which `Sequential.RunSequential` and `HierarchicalRunner.RunHierarchical` cover.
- `run_parallel` and the queue runner, which are thin loops over tokio and `majra`; hardware checks and `state.rs`, which are small fixed tables; and MCP glue, which is input and output.
- Event sinks, metrics, heartbeat, tracing, timestamps, durations and step outputs, except the retry events of `StepExec.ExecuteStep`.
- Conditions in the Dag, list and tree runners are verdict oracles; `build_step_context` and `render_template` are not modelled.
- JSON and SQL encoding of definitions and records, and database errors: a write in `SpawnSink` always succeeds.
- Condition texts are sequences of characters where the source tokenizes UTF-8 bytes; every character the tokenizer tells apart is ASCII.
- A literal too large for a 64-bit float is null, as in the source; not-a-number and negative zero do not occur in JSON numbers or are equal to zero. Equality of JSON numbers compares representations, so integer 1 and literal 1 differ, as the JSON library does.
- The six comparison constructors of the AST are one node with an operator.
- Migration.MigrationRegistry.Register: the source panics where this refuses and leaves the registry unchanged.
- DagRunner.RunDag: the caller's dependency lists must each be shorter than `usize::MAX`, and step ids distinct; id generation is not modelled.
- StepExec.ExecuteStep: `max_retries` must be below `u32::MAX`, where the source's addition would overflow.
- Scheduler.ExplainedIsExpected: covers unconditioned steps, and Any steps only if their dependencies all block or all pass, since otherwise the outcome can depend on arrival order, see `Arrival.AnyStepsDependOnArrival`. That condition is sufficient for agreement and not claimed to be necessary.
- Arrival.AnyStepsDependOnArrival: asks for a node for each step, so that the two runs depend on no order in which a node serves its queue.
- BooleanLaws.TextsMeanTheirConnectives: parts are put between parentheses, and are texts that tokenize untrimmed; blanks that only trimming removes are covered by `Compiler.ParensAreTransparent`.
- Termination.GoesOnIffNotHung: a wait that a token or a finite timeout can end does not count as hung, whether or not the token is ever cancelled.
- Hanging.CanHangIff: is stated for uniform flows; `Termination.NeverHangs` covers all flows in one direction.
