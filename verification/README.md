# CodeTracer's Cairo recorders, modelled in Dafny

Two recorders write the same kind of trace. The on-chain recorder observes every entry-point frame of a
transaction while the VM runs it, and replays the frames into one log. The source tracer walks a Cairo
program's functions and writes the steps, variables, calls and returns a reader steps through. This project
models the parts of both that carry an algorithm, and proves what each promises. `dafny verify dfyconfig.toml`
checks all of it.

The trace writer is an append-only log of events throughout. Code of the repository that updates objects,
arrays or maps step by step is a class or a method here, proved against a specification function. The
properties are then proved about that function.

## The on-chain observer and its emission

- `Observer`: the sink's frames, stack and pending steps, and its four operations.
- `Forest`: a list of frames as a forest, and its steps woven into one sequence: each child's steps go in at the
  step that opened it.
- `VmRun`: a machine that opens frames, executes steps, records and closes. Its log lists every step in real
  time. Legal actions are those the executor's patch can report. Every run keeps the invariant that the woven
  forest is that log.
- `FrameFilter`: which frames of a reverted transaction are compared with its published trace.
- `Emission`, `EmissionProofs`, `EmissionCounts`, `EmissionFrames`: the written container as a function of the
  frames, and its order, balance, counts and nesting.
- `FrameReading`: a frame's segment as its reader finds it, with its calls and rets matched as brackets. It is
  defined apart from the emission, and the emission equals it.
- `Recorder`: the emission as it runs, with its maps, depth counter and totals.
- `Recording`: a whole transaction, from the executor's actions through the sink to the written container.

The first main result is `EmissionProofs.ContainerIsExecutionOrder`: after any legal run, the steps the
container holds are those the VM executed, each once, in order. `EmissionFrames.StepsAreInTheirFrames` adds whose
steps they are: a reader who follows the calls and returns finds each one inside its own frame. `Recording.RecordRun`
is both of the running code.

## The source tracer

- `Expressions`, `ExprParser`, `ExprGrammar`: wrapping 64-bit evaluation, the recursive-descent parser, and the
  grammar it decides. A derivation keeps the blanks and the parentheses of its text.
- `ExprSyntax`, `ExprLaws`: what the operators are written as and how they bind, and the laws of their values.
- `WhileLoops`, `LoopFinder`: the capped simulator of recognised `while` loops, against a loop's own semantics, and
  their recognition.
- `SourceWalk`, `WalkProofs`, `SyntheticWalk`, `SyntheticValue`, `SourceTracer`: the depth-first walk as a function
  of the function table, its properties, when it writes the synthetic value, and the walk as it runs.
- `WalkText`: the lines and loops a function stops at, and what each of its frames must show of them.
- `PanicText`: text packed in felts, recovered by long division in place.
- `Columns`: the statement columns of a line.

## Indexes and lookups

- `FieldInts`: signed readings of field elements, felt texts, relative call targets.
- `Listing`, `ListingLines`, `ListingText`, `ListingReading`: the listing's decode pass and labels, a text as its
  lines, the written text with its pc-to-line table, and what a reader finds on each line.
- `SourceBinding`: statement to file to pc, through the written binding and back.
- `CopyBindings`: the fixpoint over copy bindings of observed locals.
- `SourceMap`: byte offsets to lines and columns, and the tables of line lengths.
- `Rpc`, `ChainState`: the client with its transcript and replay, and the prefetching state reader.
- `RecordingId`: the id derived from a block's time and a transaction's hash.

`Common` and `Digits` hold shared value types, decimal text and bytes.

## Where the code and its documentation differ

The model follows the code.

- The comment at `src/tracer.rs:545-546` promises the synthetic return value exactly once per recording. The
  code writes it at most once. A program whose last line calls the same function twice writes none:
  `SyntheticValue.SyntheticCanBeLost`. `SyntheticValue.WrittenIff` says exactly when it is written, by reachability
  in the function table.
- The comment at `onchain/src/record.rs:24-27` calls the id's other bits the leading bits of the transaction
  hash. The two high bits of its third byte are masked away (`RecordingId.SameIdIff`), so two hashes that differ
  there give one id: `RecordingId.HashesCollide`. The mask on the first byte clears nothing, as a hash is below the
  prime: `RecordingId.FirstByteIsKept`.
- `src/source_map.rs:93-107` and `135-138` describe the two tables of line lengths as one convention. They agree
  exactly when the source is not empty and every line of 2^32 bytes or more is 2^32 - 1 bytes long modulo 2^32:
  `SourceMap.TablesEqualIff`. `SourceMap.EmptySourceDiffers` and `SourceMap.LongLineDiffers` are inputs on which they
  differ.
- The comment at `src/tracer.rs:3642-3660` promises distinct columns. A statement past byte 2^32 of its line gets its
  column cut to 32 bits, and two can share column 1: `Columns.FarStatementIsFirst`. `Columns.ColumnsAreBeginnings` says
  exactly when the columns are right.
- A relative call whose offset has a magnitude of 2^63 or more is listed as a call of its own pc:
  `FieldInts.CallTargetExact`, with `FieldInts.FarCallReachesItself` for the offset 2^63.
- A name or statement text that holds a newline moves every later instruction off the line the table gives:
  `ListingText.Build`, with `ListingText.BrokenNameMisplaces` for one such name.

## Model

| member | source | states |
|---|---|---|
| Observer.Sink.Enter | onchain/blockifier-patch/bt_trace.rs:73-110 | a new frame hangs below the innermost open one, at the step noted there, and becomes the innermost with nothing noted |
| Observer.Sink.SyscallAt | onchain/blockifier-patch/bt_trace.rs:114-122 | only the innermost frame's noted step changes |
| Observer.Sink.RecordSteps | onchain/blockifier-patch/bt_trace.rs:126-134 | only the innermost frame's trace changes, to the VM's own |
| Observer.Sink.Exit | onchain/blockifier-patch/bt_trace.rs:136-148 | the frame gets its outcome and both stacks lose their top; without an id nothing changes |
| Forest.WeaveTopsAfterOpen | onchain/blockifier-patch/bt_trace.rs:73-110 | opening a frame without steps, anywhere, leaves the woven steps as they are |
| Forest.WeaveTopsAfterStep | onchain/src/record.rs:213-262 | one more step of the innermost open frame is woven in last, after every step of every frame before it |
| VmRun.Reachable | onchain/blockifier-patch/bt_trace.rs:48-148 | every reachable state keeps the invariant: stacks of equal length, increasing ids that form a parent chain, frames in preorder with siblings by non-decreasing parent step, closed frames fully recorded, and the woven forest equal to the log of executed steps |
| VmRun.OpenKeeps | onchain/blockifier-patch/apply.py:133-144 | opening a nested frame after its parent's step was noted keeps the invariant |
| VmRun.CloseKeeps | onchain/blockifier-patch/apply.py:29-52 | closing the innermost frame once its trace is recorded keeps the invariant |
| VmRun.RecordKeeps | onchain/blockifier-patch/apply.py:79-88 | recording the VM's trace of the innermost frame keeps the invariant |
| VmRun.FramesAreTheCalls | onchain/blockifier-patch/bt_trace.rs:73-110 | after any run, frame `id` holds the call of the id-th entry point opened, and there is no other frame |
| FrameFilter.InDropped | onchain/src/main.rs:727-737 | the walk up the parents ends, and answers whether the dropped frame is the given one or above it |
| FrameFilter.DroppedRange | onchain/src/main.rs:716-737 | between consecutive top-level frames `a` and `b`, the frames below `a` are exactly the ids in [a, b) |
| FrameFilter.Mine | onchain/src/main.rs:716-743 | the frames kept are all ids, or all but those in [tops[1], tops[2]) for a reverted transaction with three top-level frames |
| FrameFilter.RunIsObserved | onchain/blockifier-patch/bt_trace.rs:48-148 | every legal run leaves frames in the form the filter relies on |
| EmissionProofs.ContainerIsExecutionOrder | onchain/src/record.rs:4-9 | after a legal run with all frames closed, the container's steps are the VM's executed steps, each once, in execution order, a child of a dead parent included |
| EmissionFrames.StepsAreInTheirFrames | onchain/src/record.rs:213-318 | after a legal run with all frames closed, a reader who follows calls and returns on a stack meets the executed steps in order, the i-th one shown where the VM was and with the innermost open frame the one that executed it, and is left with nothing open |
| EmissionProofs.FrameWrites | onchain/src/record.rs:213-262 | a frame's segment writes its woven steps: children in at their steps, the rest at its end |
| EmissionProofs.BalancedFrame | onchain/src/record.rs:222-304 | for every pattern of call and ret opcodes, traces cut short included, a frame's segment is a balanced bracket word |
| EmissionProofs.FrameWraps | onchain/src/record.rs:252-304 | around any balanced body, which `BalancedFrame` shows every frame to have, the frame's own call and return are a balanced pair that no ret step of the body closes |
| EmissionCounts.ContainerCounts | onchain/src/record.rs:146-318 | calls and returns balance, returns are frames plus internal calls, and steps and contract events are the sums over the frames |
| EmissionCounts.EveryFrameOnce | onchain/src/record.rs:213-318 | the entry call of every frame, told by its id, is written exactly once, whatever the forest, and no other is |
| EmissionCounts.StepsConserved | onchain/src/record.rs:226-251 | the steps written are the sum of all frames' steps |
| EmissionCounts.EventsConserved | onchain/src/record.rs:269-291 | the contract events written are those of the frames |
| FrameReading.SegmentAlike | onchain/src/record.rs:173-304 | for every pattern of opcodes a frame's segment is its own call; around each step the internal call entered there, the frames its syscall opened, the step where it is shown, and a return; the late children; one return for each call still open; its contract events; and its own return |
| FrameReading.OpensAfterCall | onchain/src/record.rs:252-262 | an internal call is entered before a step if and only if the step before it decodes as a call, named after the entered pc |
| FrameReading.ReturnsWhenOpen | onchain/src/record.rs:252-262 | a return of no value follows a step if and only if it decodes as a ret and a call of this frame is open in the bracket match of its opcodes |
| FrameReading.DrainsLeftOpen | onchain/src/record.rs:263-268 | the depth counter at the end is the number of calls the bracket match leaves open |
| FrameReading.ContainerReadsWhole | onchain/src/record.rs:97-329 | the container is the start, the segments of the top-level frames in order and the revert, and holds every frame's segment whole |
| Recorder.GroupByParent | onchain/src/record.rs:146-149 | the map lists each frame's children in id order, and the top-level frames under none |
| Recorder.GroupBySlot | onchain/src/record.rs:213-221 | children with a step inside the parent's trace are keyed by it; all others come at the end |
| Recorder.Emit | onchain/src/record.rs:173-304 | one call appends the frame's whole segment to the log, counted, and the segment is the one its reader finds |
| Recorder.EmitStepLoop | onchain/src/record.rs:222-259 | every step is written with what belongs around it, and the counter ends at the number of internal calls entered and never returned from |
| Recorder.EmitClosing | onchain/src/record.rs:263-291 | exactly the internal calls entered and never returned from are closed, and the frame's contract events follow |
| Recorder.WriteContainer | onchain/src/record.rs:97-329 | fails exactly without frames; otherwise writes the specified container, which holds every frame's segment whole as its reader finds it, with totals of 1 plus all steps, of contract events, of steps on Cairo lines, and of internal calls |
| Recording.Executor.Act | onchain/blockifier-patch/apply.py:29-144 | one action of the patched executor moves the sink, the open entry points and their traces as the specified machine moves |
| Recording.Observe | onchain/blockifier-patch/bt_trace.rs:48-148 | over any legal run the sink ends in the machine's own state |
| Recording.FramesKeepTheirOutcome | onchain/blockifier-patch/apply.py:29-52 | the frame a close ends has, when the run is over, the error, return data and failure it was closed with |
| Recording.RecordRun | onchain/src/record.rs:97-329 | recording a run whose frames all closed fails exactly when no entry point ran; otherwise the written log holds every frame's segment as its reader finds it, steps through what the VM executed, in order, each step in its own frame, and leaves nothing open |
| Expressions.Wrap | src/tracer.rs:3017-3039 | the one i64 congruent to a number modulo 2^64 |
| Expressions.EvaluableIffBound | src/tracer.rs:3017-3039 | an expression evaluates exactly when all its variables are bound |
| Expressions.EvalDependsOnVars | src/tracer.rs:3017-3039 | its value depends on its own variables only |
| ExprLaws.EvalApplies | src/tracer.rs:3017-3039 | a compound expression is its operator applied to its left and right operand, in this order, when both evaluate |
| ExprLaws.ArithmeticIsExact | src/tracer.rs:3017-3039 | sums, differences and products are right modulo 2^64, and exact when they fit |
| ExprLaws.AddUndoesSub | src/tracer.rs:3017-3039 | adding undoes subtracting and the other way round, whatever wraps |
| ExprLaws.SumsAndProducts | src/tracer.rs:3017-3039 | sums and products commute, with their units |
| ExprLaws.AddAssociates | src/tracer.rs:3017-3039 | wrapping sums associate |
| ExprLaws.MulDistributes | src/tracer.rs:3017-3039 | wrapping products distribute over sums and differences |
| ExprLaws.ComparisonsAreTheOrder | src/tracer.rs:3017-3039 | exactly one of less, equal and greater is 1, the integers' own; the other three comparisons are their complements |
| ExprLaws.LogicIsTruth | src/tracer.rs:3017-3039 | conjunction and disjunction are those of being not zero, with De Morgan's laws |
| ExprLaws.CountdownHalts | src/tracer.rs:1015-1091 | the loop that counts `i` down while it is positive runs exactly `n` times from `n` below 1000 and ends with zero, and from any greater `n` is cut after 1000 |
| ExprParser.Parser.ParseOr | src/tracer.rs:2892-2904 | the method moves the cursor and answers as the specified parser does |
| ExprParser.Parser.ParseAnd | src/tracer.rs:2905-2917 | as above, for conjunctions |
| ExprParser.Parser.ParseCmp | src/tracer.rs:2918-2942 | as above, for one comparison that does not chain; `ExprSyntax` says what each is written as |
| ExprParser.Parser.ParseSum | src/tracer.rs:2943-2960 | as above, for left-associative sums |
| ExprParser.Parser.ParseTerm | src/tracer.rs:2961-2975 | as above, for left-associative products |
| ExprParser.Parser.ParseAtomic | src/tracer.rs:2976-3012 | as above, for literals below 2^63, identifiers and parentheses |
| ExprParser.RunParseExpr | src/tracer.rs:2846-2855 | `parse_expr` answers an expression exactly when a disjunction is the whole input |
| ExprGrammar.ParserDecidesGrammar | src/tracer.rs:2831-3012 | the parser answers a tree if and only if the whole input is a derivation of the documented grammar that means it |
| ExprGrammar.GrammarIsUnambiguous | src/tracer.rs:2831-2845 | two derivations of one text mean the same tree |
| ExprGrammar.ParsePrint | src/tracer.rs:2831-3012 | parsing the rendering of any tree with non-negative literals and valid identifiers gives the tree back |
| ExprSyntax.OperatorsRead | src/tracer.rs:2892-2975 | between any two names each of the eleven operators is read from the text it is written as |
| ExprSyntax.TighterFirst | src/tracer.rs:2831-2845 | products bind tightest, then sums, comparisons, conjunctions and disjunctions, on either side |
| ExprSyntax.LeftToRight | src/tracer.rs:2831-2845 | operators of one group associate to the left, other than comparisons |
| ExprSyntax.ComparisonsDoNotChain | src/tracer.rs:2918-2942 | a second comparison is refused |
| ExprSyntax.ParenthesesFirst | src/tracer.rs:2976-2990 | parentheses come first on either side of every operator |
| ExprSyntax.BlanksAround | src/tracer.rs:2857-2890 | blanks around tokens change nothing |
| ExprSyntax.AtomsRead | src/tracer.rs:2976-3012 | a name reads as a variable, a numeral as its value below 2^63 and as nothing otherwise |
| WhileLoops.CondStaysEvaluable | src/tracer.rs:1015-1091 | once the condition evaluates it does so before every iteration, and no binding is ever lost |
| WhileLoops.SimulationOfHaltingLoop | src/tracer.rs:1015-1091 | a loop that halts after fewer iterations than the cap steps its header once more than its body lines, and leaves the environment of that many iterations |
| WhileLoops.SimulationOfLongLoop | src/tracer.rs:1015-1091 | any other loop is cut after exactly as many headers and bodies as the cap |
| WhileLoops.SimulationRuns | src/tracer.rs:1015-1091 | the simulation is the loop run from the front: test, body line by line, and the rest, at most as often as the cap |
| WhileLoops.SimulateWhileLoop | src/tracer.rs:1015-1091 | the method runs exactly when every variable of the condition is bound, and then writes what the loop run from the front writes in at most 1000 iterations, and returns its environment |
| WhileLoops.RunBody | src/tracer.rs:1050-1080 | one pass runs the body's lines one after the other: a step each, with the assigned variable and its new binding where the assignment evaluates |
| LoopFinder.ParseWhileLoops | src/tracer.rs:2711-2802 | the scan finds what its specification finds |
| LoopFinder.FoundLoopsMatch | src/tracer.rs:2711-2802 | found loops are disjoint, in order, and each closes at the first line whose braces match its header's |
| LoopFinder.FoundAtTopLevel | src/tracer.rs:2711-2722 | each is directly inside the function's own braces, when every header opens one brace more than it closes |
| LoopFinder.EveryLoopIsFound | src/tracer.rs:2711-2722 | and every header directly inside those braces, with a condition that parses and a close that matches, is found unless it lies in a loop found before it |
| SourceTracer.FoundLoopsAreWellFormed | src/tracer.rs:2610-2633 | the loops found for a function are those the walk can skip past |
| SourceTracer.Tracer.EmitFunctionDfs | src/tracer.rs:550-990 | one call appends the walk's events and grows the visited set as specified, each function it enters showing its stops; it terminates on every call graph |
| SourceTracer.FindTailCall | src/tracer.rs:627-645 | the position found is the last call into a function not yet visited, and none is found exactly when there is no such call |
| SourceTracer.ScanPostStep | src/tracer.rs:657-680 | whether a line worth a step follows it |
| SourceTracer.EmitSourceTrace | src/tracer.rs:480-537 | the whole trace walks from `main`, or from the first function when there is none: balanced and nested, one call for each reachable function and none for others, every reachable function's frame showing its own lines, variables and calls in order, at most one synthetic value |
| WalkProofs.WalkVisitsReachable | src/tracer.rs:550-990 | exactly the functions reachable over the visited lines are entered, each with exactly one call |
| WalkProofs.ItemsVisit | src/tracer.rs:550-626 | part of a frame newly enters exactly what its calls reach over paths that avoid the functions already entered |
| WalkProofs.WalkNests | src/tracer.rs:550-990 | the call and return stream replays on a stack: every callee's segment lies inside its caller's, and each return carries its own function's value |
| WalkText.PlanShows | src/tracer.rs:690-903 | a body shows its stops in order: at each line that is not blank and not in a simulated loop a step for every column, the entry variables once at the first such line, the line's variables with their values, and then its calls; at a loop what the loop run writes |
| WalkText.WalkShows | src/tracer.rs:550-990 | whatever is walked, a function entered for the first time shows its body once, directly inside its own frame, and a frame left open is shown nothing but the walk's own call |
| WalkText.EnteredShow | src/tracer.rs:550-990 | every function a walk newly enters shows its stops, whatever was visited before |
| WalkProofs.WalkSynthetics | src/tracer.rs:905-989 | for every graph and visiting order the synthetic value is written at most once, unchanged, right before a return |
| SyntheticValue.WrittenIff | src/tracer.rs:627-989 | it is written, once, if and only if the function table holds a chain of tail calls from the root whose last function alone has a step after its tail call, and no function of which is reached by an earlier call of the chain's frames over functions not open there |
| SyntheticValue.LostWhenCalledBefore | src/tracer.rs:627-680 | a frame without such a step loses the value when its own body already entered the function it is handed to |
| SyntheticValue.SyntheticCanBeLost | src/tracer.rs:545-546 | a concrete program of two functions for which none is written |
| PanicText.DivideBy256 | src/tracer.rs:3591-3612 | one pass divides the digits in place: quotient times 256 plus remainder is the old value, every digit stays in 0..9, and the flag says the quotient is zero |
| PanicText.FeltDecimalToBytes | src/tracer.rs:3584-3613 | the bytes are those of the decimal's value, cut to the given room |
| PanicText.BytesOfValue | src/tracer.rs:3578-3583 | those bytes have the value modulo 256 to the length, and they are as many as the value needs, at least one, or as the room allows |
| PanicText.BytesRoundTrip | src/tracer.rs:3584-3613 | bytes with a leading one that is not zero, within the room, come back |
| PanicText.BytesToPrintableRun | src/tracer.rs:3615-3632 | the text is a longest printable run, the first of that length, trimmed |
| PanicText.DecodeCairoPanicMessage | src/tracer.rs:3550-3577 | the message is the texts recovered from the values that yield one, in order, with a blank between two |
| PanicText.PackedTextRecovered | src/tracer.rs:3550-3632 | a string of up to 31 bytes from 0x20 to 0x7e is recovered without the blanks at its ends if and only if at least four characters are left |
| PanicText.PackedMessageRecovered | src/tracer.rs:3550-3632 | a message packed in such pieces decodes to those long enough, trimmed, in order, with a blank between two |
| Columns.StatementColumns | src/tracer.rs:3661-3727 | the one-pass scan gives the columns of the two-phase specification |
| Columns.PendingMeans | src/tracer.rs:3671-3676 | the scanner's flag is set exactly after blanks that follow the line's start or a top-level semicolon |
| Columns.ColumnsAreBeginnings | src/tracer.rs:3642-3660 | on a line that is not blank the columns are exactly the first bytes after a boundary that are not blank, if and only if all of these stand below byte 2^32, and then they strictly increase; on a blank line there is column 1 alone |
| Columns.FarStatementIsFirst | src/tracer.rs:3642-3660 | a line of two statements, the second past byte 2^32, gets column 1 twice |
| Columns.SemicolonSeparates | src/tracer.rs:3661-3727 | a semicolon ends a statement and blanks before the next are passed |
| Columns.PairsHold | src/tracer.rs:3661-3727 | inside each kind of bracket or quotes a semicolon ends nothing, and after it one does |
| Columns.EscapesHold | src/tracer.rs:3661-3727 | an escaped quote does not close its literal |
| FieldInts.FeltToI64Exact | src/value_probe.rs:472-481 | the felt reads as `x` if and only if it is `x` modulo the prime, for every i64 `x` |
| FieldInts.FeltToI64None | src/value_probe.rs:472-481 | nothing is read exactly when no i64 has that residue |
| FieldInts.FeltTextReadsBack | onchain/src/listing.rs:59-68 | every felt's text reads back as the felt, as a signed decimal when a magnitude below 2^64 stands for it |
| FieldInts.CallTargetExact | onchain/src/listing.rs:224-242 | the target is pc plus the signed offset if and only if the offset's magnitude is below 2^63 and the sum is a non-negative i64; and what it is otherwise |
| FieldInts.FarCallReachesItself | onchain/src/listing.rs:224-242 | a call forward by 2^63 is listed as a call of its own pc |
| Listing.StartsIncrease | onchain/src/listing.rs:200-223 | instruction starts strictly increase |
| Listing.StartsCover | onchain/src/listing.rs:200-223 | every word belongs to an instruction |
| Listing.CoveredOnce | onchain/src/listing.rs:200-223 | and to no other |
| Listing.DecodePass | onchain/src/listing.rs:200-223 | the pass finds those starts and the instructions that decode |
| Listing.CallTargets | onchain/src/listing.rs:224-242 | the targets are exactly those of the decoded relative calls with an immediate |
| Listing.PlaceLabels | onchain/src/listing.rs:244-286 | the labels of every pc, in their order, and one name for every call target and named function |
| ListingText.WriteText | onchain/src/listing.rs:287-313 | the text, the pc-to-line table on exactly the starts, and the number of instructions |
| ListingLines.LinesIncrease | onchain/src/listing.rs:287-313 | the table is strictly increasing |
| ListingLines.PlacedRightIff | onchain/src/listing.rs:9-14 | a start is placed on its own instruction's line if and only if no label written before it holds a newline |
| ListingLines.AllPlacedRightIff | onchain/src/listing.rs:9-14 | all are if and only if no written label does |
| ListingLines.ListingIsConsistent | onchain/src/listing.rs:9-18 | with labels on one line each, line `pc_line[pc]` is that pc's instruction, its labels stand right above it, and no other line lies between |
| ListingText.Build | onchain/src/listing.rs:139-324 | the passes together: when instructions are shown on one line, the returned table points at each pc's own instruction line of the returned text if and only if no label of any start holds a newline, and then the text reads as labels and instruction of each start in turn |
| ListingText.TextAndTableAgree | onchain/src/listing.rs:9-18 | the same of the specified text and table, for any order, names and targets |
| ListingText.NewlineMisplaces | onchain/src/listing.rs:244-313 | for every name with one newline, the table says line 2 and the instruction is on line 3 |
| ListingText.BrokenNameMisplaces | onchain/src/listing.rs:244-313 | such a name in full |
| ListingReading.LineReads | onchain/src/listing.rs:287-313 | a listing line is its pc in hexadecimal of at least four digits, two blanks, and the instruction at that pc or its word as data |
| ListingReading.LabelsWorded | onchain/src/listing.rs:244-286 | the labels of a pc are the entry points, the function or the bare target, and the statement of that pc, in the listing's words |
| ListingReading.TargetsAreCalled | onchain/src/listing.rs:224-242 | in a class of at most 2^63 words a pc is a call target if and only if a decoded relative call with an immediate names it: the call's pc plus the immediate read with its sign, or the call's own pc when that magnitude is 2^63 or more |
| ListingReading.BuildListing | onchain/src/listing.rs:139-324 | the listing built under its own wording reads, at each start in turn, as its labels and then its own line, at the table's place, when nothing shown holds a newline |
| SourceBinding.InternLocations | onchain/src/source.rs:301-334 | fails exactly on a bad index or when the innermost entry that is not generated, or else the innermost, has no path with a stable name; otherwise each statement gets that entry's file, under one index per stable name, and its position counted from 1; the path kept for a name is that of its first picked entry |
| SourceBinding.PickIs | onchain/src/source.rs:286-316 | the entry picked is the first that is not generated, or the first of all when every one is; none is picked exactly when there are none |
| SourceBinding.ChosenIsShown | onchain/src/source.rs:301-334 | a statement shows the entry picked of the last key that names it and has entries |
| SourceBinding.PathIs | onchain/src/source.rs:316-319 | a key's path is that of the entry picked, when it has one with a stable name |
| SourceBinding.FirstUnderIsUnique | onchain/src/source.rs:319-327 | the path whose text is embedded for a name is that of one picked entry only |
| SourceBinding.SortByIndex | onchain/src/source.rs:335-346 | the same files, each as often, in index order |
| SourceBinding.IndexIsPosition | onchain/src/source.rs:335-346 | and so each stands at its own index |
| SourceBinding.CodeLocations | onchain/src/source.rs:295-348 | succeeds if and only if the keys are good and the first path of every stable name can be read; the document's locations and files then agree with the annotation, each text that of its name's first path |
| SourceBinding.LoadBinding | onchain/src/source.rs:377-403 | read back by position, refused exactly when an embedded text does not match its hash |
| SourceBinding.Apply | onchain/src/source.rs:475-494 | every pc gets the place of the last embedded statement whose range covers it, and a pc gets none if and only if no embedded statement covers it |
| SourceBinding.BoundHere | onchain/src/source.rs:295-494 | end to end: a pc shows the stable path, the text of the first path with that name and the 1-based position, cut to 32 bits, of the innermost entry that is not generated, or else the innermost, of the last located statement covering it, and shows nothing exactly when there is no such statement |
| SourceBinding.DisjointIsLast | onchain/src/source.rs:475-494 | with disjoint ranges that is every located statement covering the pc |
| SourceBinding.BindAndApply | onchain/src/source.rs:295-494 | the same of the running code, which succeeds if and only if the keys are good and those first paths can be read |
| CopyBindings.Observe | src/value_probe.rs:110-116 | a declaration's first argument names it and gives its value |
| CopyBindings.Spread | src/value_probe.rs:118-140 | the fixpoint terminates closed under every alias, keeps what was observed, and gives each derived local a value observed in its component |
| CopyBindings.SpreadIsLeastClosure | src/value_probe.rs:118-140 | exactly the declarations connected to an observed one are known |
| CopyBindings.AliasesAgreeIff | src/value_probe.rs:118-140 | every alias has equal values on both sides if and only if the observations agree within every component |
| CopyBindings.ObserveLocals | src/value_probe.rs:110-140 | all of it of the running code |
| SourceMap.FromSource | src/source_map.rs:22-34 | the line starts |
| SourceMap.LineIsGreatest | src/source_map.rs:37-65 | the line of an offset is the greatest that starts at or before it, and both lookups agree |
| SourceMap.LineCountsNewlines | src/source_map.rs:37-42 | that line is one more than the newlines before the offset |
| SourceMap.PositionInverts | src/source_map.rs:58-65 | line start plus column less one is the offset if and only if the column fits 32 bits |
| SourceMap.LineLengths | src/source_map.rs:108-123 | the table, each length cast to 32 bits |
| SourceMap.ReadLineLengths | src/source_map.rs:143-167 | the table, each length saturated; one zero for an empty file, nothing for a missing one |
| SourceMap.StartsAreSums | src/source_map.rs:108-123 | each line starts at the sum of the lengths before it, each with its newline |
| SourceMap.TablesEqualIff | src/source_map.rs:108-167 | the two tables agree if and only if the source is not empty and every length casts as it saturates |
| SourceMap.EmptySourceDiffers | src/source_map.rs:108-123 | the empty source has no line, against one of length zero in the table read from its file |
| SourceMap.LongLineDiffers | src/source_map.rs:108-167 | one line of 2^32 bytes has length zero in one table and 2^32 - 1 in the other |
| SourceMap.LongLineAgrees | src/source_map.rs:108-167 | one line of 2^33 - 1 bytes has length 2^32 - 1 in both |
| Rpc.Client.Answer | onchain/src/rpc.rs:81-151 | one request is counted, answered from the transcript or by the first final attempt, and kept in the transcript exactly when it is answered by the node |
| Rpc.FirstAttemptAnswers | onchain/src/rpc.rs:93-146 | of thirteen attempts the first that is a reply, or an error status other than 429 whose body is a JSON-RPC error, answers: its result, or else its error |
| Rpc.NoAttemptAnswers | onchain/src/rpc.rs:93-133 | when all thirteen are to be retried there is no answer |
| Rpc.ReplayIff | onchain/src/rpc.rs:66-79 | for every program of requests, replaying a run's transcript gives the same requests and answers if and only if the node answered the run consistently |
| Rpc.NoneRefused | onchain/src/rpc.rs:85-92 | then a request is refused exactly when the run itself got no answer to it |
| Rpc.RecordThenReplay | onchain/src/rpc.rs:66-151 | the same of two client objects |
| ChainState.PrefetchAgrees | onchain/src/state.rs:150-250 | whatever fallback filled the table, an honest node's initial reads agree with its leaves |
| ChainState.PrefetchIsTransparentIff | onchain/src/state.rs:72-75 | every sequence of reads is served as without the table if and only if the table agrees with the leaves |
| ChainState.PrefetchChangesNoAnswer | onchain/src/state.rs:72-250 | with an honest node, a table filled by any fallback leaves every sequence of reads answered as without it |
| ChainState.RpcState.Prefetch | onchain/src/state.rs:134-250 | the table holds the first answered simulation's reads, or those of the single transactions; submitted and skipped bodies add up |
| ChainState.BatchesTried | onchain/src/state.rs:150-250 | the whole batch is tried with all checks, then without fees, then without validation too, and only then each transaction alone; the first answered batch's reads are taken |
| ChainState.SubmittedAre | onchain/src/state.rs:134-149 | the transactions simulated are exactly the version 3 invocations and account deployments, each as often as given |
| ChainState.RpcState.GetStorageAt | onchain/src/state.rs:471-493 | a stored value costs a hit; otherwise one query for the contract's storage at that key and the reader's block is answered, and a contract that is not found (code 20) reads as zero |
| ChainState.RpcState.GetNonceAt | onchain/src/state.rs:495-509 | the same of a nonce, with its own query |
| ChainState.RpcState.GetClassHashAt | onchain/src/state.rs:511-525 | the same of a class hash, with its own query |
| ChainState.RpcState.GetAll | onchain/src/state.rs:470-525 | any sequence of reads; hits and queries add up to the reads |
| ChainState.PrefetchThenRead | onchain/src/state.rs:134-525 | of the running reader, against an honest node that answers by the request alone: after a prefetch of any transactions, every read of any sequence gets the answer of its own leaf query |
| ChainState.ClassesServedAsAsked | onchain/src/state.rs:289-313 | over every sequence of class requests from an empty cache, each is answered as its own query would be, a class read once costs no second query, and every other request costs one |
| ChainState.RpcState.ClassRecords | onchain/src/state.rs:289-313 | any sequence of class requests serves that run |
| ChainState.RpcState.ClassRecord | onchain/src/state.rs:289-313 | a cached class costs no query; a class is cached exactly when it was read; an unknown hash is undeclared |
| ChainState.RpcState.DeclaredClassRecord | onchain/src/state.rs:278-287 | a declared class is read at the declaring block and not cached |
| RecordingId.DerivedRecordingId | onchain/src/record.rs:28-46 | the sixteen bytes filled in place, as text |
| RecordingId.IdReads | onchain/src/record.rs:28-46 | the text is the sixteen bytes in lower-case hexadecimal, high digit first, in groups of 8, 4, 4, 4 and 12 |
| RecordingId.FollowsVersionSeven | onchain/src/record.rs:24-46 | the first 48 bits are the milliseconds, the version is 7, the variant bits are 10, and the rest are bits of the hash's first ten bytes in place |
| RecordingId.OrderedIff | onchain/src/record.rs:24-46 | whatever the hashes below the prime, one id's text comes first if and only if its time, cut to 48 bits, does |
| RecordingId.EarlierBlockFirst | onchain/src/record.rs:24-46 | an earlier block's ids come first while the time fits 48 bits |
| RecordingId.SameIdIff | onchain/src/record.rs:28-46 | for hashes below the prime, two ids are equal if and only if the cut times are and the first ten bytes of the hashes are, but for the two high bits of the third |
| RecordingId.HashesCollide | onchain/src/record.rs:24-46 | two different hashes give one id, whatever the time |
| RecordingId.FirstByteIsKept | onchain/src/record.rs:36-44 | the first byte of a hash is at most 8, so its mask clears nothing |

## Left out

- The Cairo compiler, Sierra to CASM, cairo-vm, blockifier and the Nim trace writer: decoding a word and compiling a class are functions given from outside, the writer is a log.
- The command line, files, gzip, HTTP, sleeping between retries, environment variables, report JSON and packaging: file contents and the node's replies are inputs.
- Hashes: sha256 is a function given from outside; selector, class and Poseidon hashes do not appear, nor do the checks in `apply` that compare them.
- The thread-local sink with `install`, `take` and `active`: the model starts from an installed sink.
- `steps_of`, which maps the VM's trace to steps: a frame's steps are an input.
- The names, texts and type ids the writer is handed for arguments and contract events: an event carries the values they are made of.
- The parsers of let-bindings, struct, tuple, array, span and reference literals, `compute_function_return_values` and `parse_callees_in_line`: their results are inputs of the walk. The `u256` builder's split is not claimed.
- LoopFinder.ParseWhileLoops: works on each line's braces, header and assignment as given; a loop with an empty body is found without the debug build's overflow at `src/tracer.rs:2769`.
- WhileLoops.SimulationOfHaltingLoop: stated for any cap; the code's is 1000.
- Recorder.WriteContainer: writer errors other than an empty run are not modelled.
- Listing.PlaceLabels: its contract holds for any wording of the labels; the listing's own is claimed by `ListingReading.BuildListing`. The text of an instruction, `abi_names` and the reading of entry points and identifiers from a class are inputs.
- ListingText.WriteText: lines are counted without the 32-bit limit.
- FieldInts.CallTargetExact: the addition wraps, as a release build's does.
- SourceBinding.CodeLocations: an embedded file that is not UTF-8 counts as unreadable; `stable_path` is a function given from outside, and JSON round trips are the identity.
- CopyBindings.ObserveLocals: running the program, evaluating cells and the final map keyed by name and line are not modelled.
- SourceMap.FromSource: works on bytes; a newline is one byte of UTF-8.
- Columns.StatementColumns: the bracket depth has no 32-bit limit.
- Rpc.Client.Answer: error texts are not modelled; the request's canonical text is the request itself.
- ChainState.RpcState.Prefetch: the report's refusal texts and table sizes are not modelled.
- `src/starknet.rs`: its walk of the invocation tree is a simpler case of the emission.
