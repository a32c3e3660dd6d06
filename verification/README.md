# The debug adapter's algorithms and protocols, in Dafny

This project models the self-contained algorithms and state machines of a Rust debug adapter
(`src/codelldb`, `src/lldb`) and of the VS Code extension that drives it (`extension`), and proves what
they keep on every input and on every run. `dafny verify dfyconfig.toml` checks all of it.

Code that computes by expressions and recursion is modelled by functions. Code that changes things step
by step is modelled by classes and methods with loops, each tied by its `ensures` to a function of the old
state; what holds over whole runs is proved about that function. Concurrent and asynchronous parts
are interleavings of the atomic steps of the code.

| files | what they model |
|---|---|
| `SimpleExpressions`, `SimpleParsing`, `SimpleGrammar` | the C++-style expression language: its tokens, operator table and precedence parser, and its grammar |
| `PythonGrammar`, `PythonEmission` | Python's own expression grammar (section 6.17 of the Python Language Reference), the code the compiler emits, and how Python reads it |
| `QualifiedIdents`, `Comparisons` | qualified identifiers with nested template parameters, and how they take in comparisons |
| `DapFraming`, `DapHeaders`, `DapTransform` | base-protocol framing of the Debug Adapter Protocol, and the streaming re-framer |
| `DapSession` | the dispatcher that numbers messages and matches responses to requests |
| `Cancellation`, `CancellationRuns` | the cancellation filter and its reference-counted tokens |
| `EventCork` | the polling thread and the cork of the debug event listener |
| `Breakpoints`, `BreakpointRuns`, `BreakpointLeaks`, `BreakpointOptions`, `LogMessages` | the breakpoint tables beside the debugger's breakpoints; the logpoint scanner |
| `Disassemble`, `DisassembleWindow`, `DisassemblyIndex` | the disassemble request, and the cache of disassembled ranges |
| `CStrings` | the growing C-string reader |
| `ShellQuoting`, `RebuildLoop`, `RebuildStops` | the edit-and-continue command line, read by the POSIX shell's rules, and the rebuild loop |
| `StepLedger` | the per-line step costs and their undo stack |

## What the code does not keep

Where a promise turns out false of the code, the code is modelled as it is and the exact condition is proved.

- A bare sign as the left operand of `**` is emitted without parentheses, so Python reads `-x ** y` as
  `-(x ** y)` although the operator table, and the parser, group it as `(-x) ** y`. This is the only shape
  that changes meaning (`CompilePreservesMeaning`, an equivalence).
- A parenthesised lone name or boolean is claimed by the cast rule (`BooleanNotAccepted`), and an integer literal
  claims what it can of a subscript that starts with a digit (`SubscriptNotAccepted`). Among sequences of lexemes these are the only trees of the operator table that
  are not accepted as written (`AcceptedExactly`, an equivalence). The division of program text into lexemes
  adds cases of its own. The one modelled here: a name before `<` may take in the text behind it as template
  parameters, so that `x < 10 && y > 5` is not accepted (`ComparisonSwallowed`). Every path of identifiers does so if and only if a scan of that
  text, delimiter by delimiter, closes the bracket (`NameBeforeLess`, `OneComparison`).
- An unreadable header makes the re-framer forward and drop its whole buffer, so the division into chunks then
  matters: chunk independence holds if and only if no such header is reached, or only one that ends the
  stream (`ChunkIndependence`; `EmptyHeaderBreaks` is a stream that fails).
- The disassemble handler means to pad rows after the end of readable memory, but slices the instruction list
  first; it panics exactly when too few instructions follow the address (`PanicsExactly`). A window that ends
  at or before the address is never answered (`NoReplyWithoutBase`).
- A successful request leaves a new live breakpoint that no table knows if and only if a key is requested twice
  with no live breakpoint to reuse, as by two columns of one source line (`DuplicateKeyLeaks`, `TwoColumnsLeak`). A request that
  fails does so if and only if it had got to a key with no live breakpoint to reuse (`FailedRequestLeaks`,
  `UnparsableLeaks`). Exception breakpoints (`ExceptionsRenewed`) and breakpoints in a disassembly of an earlier
  session (`LooseDuplicates`) are made anew by every request.
- Events that the polling thread receives between `cork()` and `uncork()` are dropped, as documented
  (`OfferedExactly`). Events that the debugger produces between the calls may wait in its queue and be received
  later: with a backlog they get through (`BacklogLeaks`, `LeakNeedsBacklog`, `CorkedEventDropped`).
- A save can be left without a build. For a watcher at rest this is so if and only if the last build failed after
  the save's timer had fired, or the watcher was stopped or replaced before it fired (`NoSaveLost`; `SaveLost` and
  `RestartLosesSave` are runs of either kind).
- Restarting the watcher during a build can make two runs at once (`RestartBuildsTwice`): there is never more
  than one if and only if no timer of the current watcher starts one while another watcher's is suspended
  (`OneRunAcrossWatchers`).
- Stepping forward and back as often does not always restore the costs: a forward step that was not charged is
  undone by taking back an older charge (`UnchargedStepUndoesOlder`). The costs are restored if and only if every
  forward step was charged, or no undo entry is newer than the last clear (`ForwardAndBack`).
- The range added by a lookup need not be found by the same lookup. It is if and only if it contains the address,
  which a range outside every symbol does not if it ends there, and no older range, be it empty, starts between
  its start and the address (`FoundAgainExactly`, `SingleInstructionNotCached`).
- Overlapping ranges can hide each other (`OverlapHides`). Every address in some range is found if and only if no
  range outlasts a later one with nothing beginning in time to take over (`FoundExactly`).
- A template parameter surrounded by white space other than blanks and tabs can be trimmed to something that
  is not read back; printing a parsed identifier is faithful if and only if that did not happen
  (`ParsedIsCanonical`, and for the text of one parameter `TextParamKept`).
- A brace left open in a logpoint message is dropped from the output (`ReadingRendered`).
- The 16-bit receiver counter wraps: an inspection stays cancellable exactly while the number of its receivers has
  not been a multiple of 65536 when a request arrived (`CounterWraps`). Nothing in the repository clones a receiver,
  and below 65536 receivers the filter tells exactly which requests have a live one (`HeldMeansUnfinished`).
- `ensureCargoTarget` looks for `--target` on both sides of `--`, so a program argument of that name keeps
  cargo from getting a target (`TargetEnsured`).
- A string with a NUL is passed on silently shortened if it is shorter than 256 bytes, and fails otherwise
  (`WithCStr`, `SeenAsWhole`).

## Model

| member | source | states |
|---|---|---|
| SimpleParsing.ExpressionSound | src/codelldb/src/expressions/simple_expressions.rs:21-121 | whatever the parser returns obeys the operator table, and its lexemes are exactly what was consumed |
| SimpleParsing.ReadTree | src/codelldb/src/expressions/simple_expressions.rs:101-120 | the operator stack: reading the lexemes of any readable tree of the table, under any stack that takes it, leaves exactly that tree's spine on the stack |
| SimpleParsing.UncleanStuck | src/codelldb/src/expressions/simple_expressions.rs:23-41 | a tree with one of the two misread shapes never gets past its lexemes, whatever the stack |
| SimpleParsing.AcceptedExactly | src/codelldb/src/expressions/simple_expressions.rs:21-121 | a sequence of lexemes, once text has been divided into lexemes, is accepted with a tree if and only if the tree spells it, obeys the table and has neither misread shape |
| SimpleGrammar.GrammarAccepted | src/codelldb/src/expressions/simple_expressions.rs:63-99 | the same against a grammar stated without ranks: accepted are exactly the trees whose operators exist and stand in the order of C++ with `**` in front, without the two misread shapes |
| SimpleParsing.AcceptedUniquely | src/codelldb/src/expressions/simple_expressions.rs:63-81 | the accepted tree is the only tree with these lexemes in which every operator obeys the table |
| SimpleParsing.OperationAccepted | src/codelldb/src/expressions/simple_expressions.rs:66-81 | two readable operands around a binary operator that takes them are accepted as that operation |
| SimpleParsing.SubscriptNotAccepted | src/codelldb/src/expressions/simple_expressions.rs:90-95 | `a[1 + 2]` and `a[1.5]` obey the table and are not accepted with any tree |
| SimpleParsing.BooleanNotAccepted | src/codelldb/src/expressions/simple_expressions.rs:23-31 | `(true) && b` obeys the table and is not accepted with any tree |
| SimpleParsing.GroupsOfThree | src/codelldb/src/expressions/simple_expressions.rs:66-81 | for any two binary operators, which of them is grouped first, by rank and associativity |
| SimpleParsing.TableOrder | src/codelldb/src/expressions/simple_expressions.rs:63-81 | the table orders the operators as C++ does, with `**` above the multiplications, and only `**` associates to the right |
| PythonEmission.MeaningIsTranslation | src/codelldb/src/expressions/simple_expressions.rs:101-118 | what Python reads is the translation of the chosen tree if and only if no bare sign is a left operand of `**` |
| PythonEmission.PythonReadsMeaning | src/codelldb/src/expressions/simple_expressions.rs:101-118 | the emitted code of every accepted expression is one Python expression, and which |
| PythonEmission.CompilePreservesMeaning | src/codelldb/src/expressions/simple_expressions.rs:101-118 | for every accepted expression, Python reads the emitted code as the tree the table chose, with the constants its literals stand for, if and only if no bare sign is the left operand of `**` |
| PythonEmission.CompilesExactly | src/codelldb/src/expressions/preprocess.rs:47-54 | code comes out for exactly the lexeme sequences that are, as a whole, an expression of that grammar without a misread shape |
| PythonEmission.BooleansCompile | src/codelldb/src/expressions/literals.rs:47-55 | `true` and `True` compile to the Python constant `True`, `false` and `False` to `False` |
| PythonEmission.OperatorsKeepSpelling | src/codelldb/src/expressions/simple_expressions.rs:67-79 | operators are emitted as they are spelled, except that the symbols for "or" and "and" become those words |
| PythonEmission.SignedPowerMisread | src/codelldb/src/expressions/simple_expressions.rs:108-110 | for all names, `-x ** y` is accepted as a power and read by Python as a negation |
| QualifiedIdents.QualifiedRead | src/codelldb/src/expressions/qualified_ident.rs:27-66 | printing any well-formed identifier tree and parsing it gives back the same tree and consumes exactly its text |
| QualifiedIdents.PrintInjective | src/codelldb/src/expressions/qualified_ident.rs:27-66 | different well-formed trees have different spellings |
| QualifiedIdents.QualifiedSound | src/codelldb/src/expressions/qualified_ident.rs:60-66 | an input without odd white space parses if and only if it starts as an identifier, and then to a well-formed tree |
| QualifiedIdents.StartsMeans | src/codelldb/src/expressions/qualified_ident.rs:60-66 | starting as an identifier means a letter or underscore, or `::`, any blanks and then a letter or underscore |
| QualifiedIdents.QualifiedTight | src/codelldb/src/expressions/qualified_ident.rs:35-66 | for every input, the parsed tree prints in at most the characters consumed, and in as many only if it is well formed |
| QualifiedIdents.ParsedIsCanonical | src/codelldb/src/expressions/qualified_ident.rs:35-66 | for every input, the parsed tree survives printing and parsing if and only if it is well formed |
| QualifiedIdents.NewlineNotCanonical | src/codelldb/src/expressions/qualified_ident.rs:35-43 | a parameter that is a newline is parsed as an empty one and lost when printed |
| QualifiedIdents.TextParamKept | src/codelldb/src/expressions/qualified_ident.rs:35-43 | a parameter read as text is well formed if and only if trimming its text leaves something that does not start as an identifier |
| Comparisons.ParserIsScan | src/codelldb/src/expressions/qualified_ident.rs:35-66 | at every point of a parameter list the recursive parser reaches the list's end, and the same end, if and only if a flat scan with a counter of open brackets does |
| Comparisons.NameBeforeLess | src/codelldb/src/expressions/qualified_ident.rs:51-66 | for every path of identifiers, with or without a leading `::`, and every text, the path before `<` takes in the text up to a closing `>` if and only if the scan of the text finds it, and otherwise ends before the `<` |
| Comparisons.OneComparison | src/codelldb/src/expressions/qualified_ident.rs:35-66 | with one text between `<` and `>`, a path swallows the comparison if and only if that text is empty, or not blank and, if it starts as an identifier, a path and nothing else |
| Comparisons.NoCloser | src/codelldb/src/expressions/qualified_ident.rs:45-49 | without a `>` behind it a name takes in nothing |
| Comparisons.ComparisonSwallowed | src/codelldb/src/expressions/simple_expressions.rs:31-36 | `x < 10 && y > 5` is read as a template name and a rest |
| DapFraming.ExamineEncoded | extension/novsc/dapTransform.ts:109-131 | an encoded frame is found at the head of the buffer, whatever bytes follow it |
| DapFraming.ParseEncoded | extension/novsc/dapTransform.ts:102-131 | any list of encoded frames in front of a buffer is parsed as that list, then what the buffer gives |
| DapFraming.ParseSpells | extension/novsc/dapTransform.ts:102-131 | parsing loses no byte: the frames and the remainder spell the buffer, and the remainder holds no complete frame |
| DapFraming.LengthHeaderReads | extension/novsc/dapTransform.ts:150-192 | the header printed for a length is read back as that length, for every length, and ends where it should |
| DapHeaders.LengthAnnounced | extension/novsc/dapTransform.ts:179-192 | for any header lines: the first line whose name is the length header's, in any letter case and with white space around it, decides the length, by the number after its colon, perhaps with a plus sign, up to the first byte that is no digit |
| DapHeaders.NoLength | extension/novsc/dapTransform.ts:179-192 | a header with no such line announces no length |
| DapHeaders.BadLength | extension/novsc/dapTransform.ts:179-192 | a value that is no number, or a negative one, makes the header unreadable, whatever later lines say |
| DapTransform.DapMessageTransform.Transform | extension/novsc/dapTransform.ts:68-82 | a chunk appends to the buffer and drains it |
| DapTransform.DapMessageTransform.Flush | extension/novsc/dapTransform.ts:84-94 | the incomplete rest is sent on as it is |
| DapTransform.DapMessageTransform.FlushMessages | extension/novsc/dapTransform.ts:102-148 | the loop sends and keeps exactly what draining the buffer sends and keeps |
| DapTransform.DapMessageTransform.PushSerialised | extension/novsc/dapTransform.ts:150-157 | a serialised message is sent as one frame with its byte length |
| DapTransform.DapMessageTransform.PushFramed | extension/novsc/dapTransform.ts:159-162 | a body that is not JSON is sent as the frame it came in |
| DapTransform.DrainSendsFrames | extension/novsc/dapTransform.ts:102-148 | for every buffer: what is sent is the re-framed frames the parser finds, and the rest as it is after an unreadable header |
| DapTransform.OutputParses | extension/novsc/dapTransform.ts:102-163 | for every buffer: the parser finds in the output exactly the re-framed frames, in order |
| DapTransform.ReframingRoundTrip | extension/novsc/dapTransform.ts:127-192 | each frame of the output carries, for the message at its place, what the hook returned or the message itself if it returned nothing; a frame whose body is not JSON is unchanged |
| DapTransform.DrainAppend | extension/novsc/dapTransform.ts:68-148 | draining in two steps is draining at once, as long as no unreadable header was met |
| DapTransform.ChunkIndependence | extension/novsc/dapTransform.ts:68-148 | every division of a stream into chunks sends and keeps the same bytes, if and only if parsing reaches no unreadable header, or only one that ends the stream |
| DapTransform.LastByteApart | extension/novsc/dapTransform.ts:115-123 | otherwise sending the last byte on its own makes a difference |
| DapTransform.EmptyHeaderBreaks | extension/novsc/dapTransform.ts:115-123 | an empty header and one byte more is such a stream |
| DapSession.Dispatcher.Dispatch | src/codelldb/src/dap_session.rs:52-134 | one turn of the dispatcher's loop, for each kind of arrival |
| DapSession.NumberedInOrder | src/codelldb/src/dap_session.rs:92-132 | on every run, outgoing messages of all kinds, error replies to malformed messages included, are numbered 1, 2, 3, ... in the order in which they were due |
| DapSession.PassedOnInOrder | src/codelldb/src/dap_session.rs:60-61 | on every run, subscribers get exactly the incoming requests, with their numbers, and events, in order |
| DapSession.PendingExactly | src/codelldb/src/dap_session.rs:62-72 | on every run, the pending table holds exactly the reverse requests sent whose number has since been neither answered nor reused |
| DapSession.ResolvedExactly | src/codelldb/src/dap_session.rs:62-72 | on every run, a caller is resolved with a reply if and only if that is the first response carrying the number of its request |
| DapSession.ResolvedOnce | src/codelldb/src/dap_session.rs:160-171 | on every run, no caller is resolved twice |
| DapSession.UntouchedIsUnanswered | src/codelldb/src/dap_session.rs:123-132 | in a run of fewer than 2^32 outgoing messages a number is never reused, so only a response frees it |
| Cancellation.CancellationFilter.OnRequest | src/codelldb/src/debug_session.rs:298-346 | one turn of the filter's loop |
| Cancellation.CancellationFilter.RetainLive | src/codelldb/src/debug_session.rs:304-306 | pruning keeps exactly the entries whose token has receivers |
| Cancellation.CancellationFilter.CloneReceiver | src/codelldb/src/cancellation.rs:60-65 | a clone counts one more receiver |
| Cancellation.CancellationFilter.DropReceiver | src/codelldb/src/cancellation.rs:67-71 | a drop counts one receiver less |
| CancellationRuns.FilterRefinesList | src/codelldb/src/debug_session.rs:284-346 | on every run, with any number of receivers, the filter passes on the incoming requests minus the cancel requests, in order, and its flags are those of a plain list of requests, its counters that list's modulo 65536 |
| CancellationRuns.ActiveMeansReached | src/codelldb/src/debug_session.rs:308-339 | on every run a token is active if and only if a later resumption or cancel request reached its request |
| CancellationRuns.ResumptionCancels | src/codelldb/src/debug_session.rs:318-335 | on every run a resumption activates exactly the earlier unfinished scopes, variables and evaluate requests, and not its own token |
| CancellationRuns.CancelReachesItsNumber | src/codelldb/src/debug_session.rs:309-317 | on every run a cancel request activates at most the latest request with its number, exactly if that is unfinished, and is not passed on |
| CancellationRuns.CounterWraps | src/codelldb/src/debug_session.rs:304-306 | on every run, an arrival keeps an inspection cancellable if and only if the number of its receivers is not, and at no earlier arrival was, a multiple of 65536 |
| CancellationRuns.HeldMeansUnfinished | src/codelldb/src/cancellation.rs:21-37 | on every run with fewer than 65536 receivers of each request, the unfinished requests are exactly those with a live receiver |
| EventCork.DebugEventListener.PollSection | src/codelldb/src/debug_event_listener.rs:49-60 | the critical section of the polling loop |
| EventCork.DebugEventListener.PutCork | src/codelldb/src/debug_event_listener.rs:70-74 | corking sets both flags |
| EventCork.DebugEventListener.TakeCorkOut | src/codelldb/src/debug_event_listener.rs:77-80 | uncorking clears the current flag, and by its frame leaves the sticky one |
| EventCork.FlagsTell | src/codelldb/src/debug_event_listener.rs:49-80 | in every interleaving the sticky flag says whether the listener was corked at some moment since the last critical section |
| EventCork.OfferedExactly | src/codelldb/src/debug_event_listener.rs:49-60 | in every interleaving a received event is offered exactly if the listener was uncorked at every moment since the critical section before |
| EventCork.OfferedOverRun | src/codelldb/src/debug_event_listener.rs:40-61 | the same for whole runs: which of all events produced are ever offered |
| EventCork.EveryEventDealtWith | src/codelldb/src/debug_event_listener.rs:40-61 | in every interleaving no event gets lost outside the critical section: each one produced is queued, or received, or was dealt with there |
| EventCork.OfferedAfterIdleRound | src/codelldb/src/debug_event_listener.rs:49-60 | on every run, once uncorked with nothing to read, one idle round clears the sticky flag and the next event is offered |
| EventCork.RunKeeps | src/codelldb/src/debug_event_listener.rs:40-61 | in every interleaving events are offered in the order of their production, none twice |
| EventCork.CorkedEventDropped | src/codelldb/src/debug_event_listener.rs:68-75 | an event produced while corked, with nothing else to read, is never offered, whatever happens later |
| EventCork.LeakNeedsBacklog | src/codelldb/src/debug_event_listener.rs:68-75 | an event produced while corked is offered only if another critical section came between |
| EventCork.BacklogLeaks | src/codelldb/src/debug_event_listener.rs:68-75 | with two events produced while corked, the second gets through |
| Breakpoints.Session.SetBreakpoints | src/codelldb/src/debug_session/breakpoints.rs:90-158 | the request loop and the deletion of missing keys, for source, disassembly, instruction and function breakpoints |
| Breakpoints.Session.FindOrCreate | src/codelldb/src/debug_session/breakpoints.rs:107-122 | a requested breakpoint is reused if the table has it and it is live, and otherwise created |
| Breakpoints.Session.DeleteMissing | src/codelldb/src/debug_session/breakpoints.rs:150-156 | exactly the breakpoints of keys no longer requested are deleted, whatever the order of iteration |
| Breakpoints.Session.SetNewDasmBreakpoints | src/codelldb/src/debug_session/breakpoints.rs:242-268 | breakpoints of an earlier session's disassembly are created for the lines it has and kept in no table |
| Breakpoints.Session.SetExceptionBreakpoints | src/codelldb/src/debug_session/breakpoints.rs:362-400 | all exception breakpoints are deleted and the requested ones created |
| Breakpoints.Session.BreakpointHit | src/codelldb/src/debug_session/breakpoints.rs:647-727 | hit counting and the decision to stop, log or continue |
| Breakpoints.Session.BreakpointAdded | src/codelldb/src/debug_session/breakpoints.rs:776-787 | a breakpoint that appears is tracked unless it already is or is gone |
| Breakpoints.Session.BreakpointRemoved | src/codelldb/src/debug_session/breakpoints.rs:795-810 | a removed breakpoint is forgotten |
| BreakpointRuns.RequestResult | src/codelldb/src/debug_session/breakpoints.rs:90-158 | after a successful request with distinct keys the table holds exactly those keys, one live tracked breakpoint each, reused where the old one was live; dropped ones are dead; nothing else appears, disappears or moves |
| BreakpointRuns.RequestFails | src/codelldb/src/debug_session/breakpoints.rs:270-313 | a request fails if and only if one of its breakpoints cannot be placed; it then changes no table, deletes nothing, and what it had created is live in no table |
| BreakpointRuns.RepeatChangesNothing | src/codelldb/src/debug_session/breakpoints.rs:270-360 | repeating a successful request succeeds and changes no id |
| BreakpointRuns.HitsAreTracked | src/codelldb/src/debug_session/breakpoints.rs:647-655 | on every run of requests and events, the lookup on a hit of a live breakpoint with a callback finds its entry, so only a zero modulus can panic |
| BreakpointRuns.ExceptionsSpareTables | src/codelldb/src/debug_session/breakpoints.rs:362-400 | an exception request deletes no breakpoint of any table |
| BreakpointLeaks.DuplicateKeyLeaks | src/codelldb/src/debug_session/breakpoints.rs:104-157 | a successful request leaves some new breakpoint live and in no table if and only if a key is requested again later although no live breakpoint could be reused for it |
| BreakpointLeaks.FailedRequestLeaks | src/codelldb/src/debug_session/breakpoints.rs:282-313 | a failing request leaves some new breakpoint live and in no table if and only if, before the first breakpoint that cannot be placed, it got to a key with none to reuse |
| BreakpointLeaks.TwoColumnsLeak | src/codelldb/src/debug_session/breakpoints.rs:104-157 | two requests for one new source line leave the first breakpoint live and in no table |
| BreakpointLeaks.UnparsableLeaks | src/codelldb/src/debug_session/breakpoints.rs:282-313 | an instruction request whose second address does not parse leaves its first breakpoint live and in no table |
| BreakpointRuns.LooseDuplicates | src/codelldb/src/debug_session/breakpoints.rs:242-268 | each restoring request adds one new breakpoint for each of its entries on a known line, whatever exists already, and nothing else |
| BreakpointRuns.ExceptionsRenewed | src/codelldb/src/debug_session/breakpoints.rs:362-400 | after an exception request the exception breakpoints are exactly the known filters requested, in order, each with a new id and live, and all older ones are dead |
| BreakpointRuns.NthHit | src/codelldb/src/debug_session/breakpoints.rs:695-727 | the n-th passing hit is decided by the hit condition on the count at the start plus n, comparison by comparison |
| BreakpointOptions.OptionsRecorded | src/codelldb/src/debug_session/breakpoints.rs:464-493 | after a successful request every requested breakpoint has the kind asked for, the log message and hit condition of the last request answered with it, and no hit counted; a key's table entry is the breakpoint of its last request; no other options change, and only those of deleted breakpoints are forgotten |
| BreakpointOptions.LooseOptions | src/codelldb/src/debug_session/breakpoints.rs:242-268 | each breakpoint restored from an earlier session has the options of its own request, and no other options change |
| BreakpointOptions.HitsCounted | src/codelldb/src/debug_session/breakpoints.rs:647-697 | on every run without a request for its table or its removal, a breakpoint keeps its options, and its count grows by exactly its passing hits |
| BreakpointOptions.RequestDecides | src/codelldb/src/debug_session/breakpoints.rs:695-727 | on every such run, a passing hit stops, logs or continues as the last request with the breakpoint's key says, on the number of passing hits since that request |
| LogMessages.ReplaceExpressions | src/codelldb/src/debug_session/breakpoints.rs:732-760 | the scanning loop computes the recursive scan |
| LogMessages.PiecesReplaced | src/codelldb/src/debug_session/breakpoints.rs:736-757 | text and balanced expressions in any order are rendered piece by piece, whatever follows them |
| LogMessages.ReadingRendered | src/codelldb/src/debug_session/breakpoints.rs:736-759 | however a message reads as text, balanced expressions and perhaps an unclosed brace, the output is its rendering, without that brace |
| LogMessages.EveryMessageReads | src/codelldb/src/debug_session/breakpoints.rs:732-760 | every string has such a reading, so the scan is characterised for all messages |
| Disassemble.DisassembleBytes | src/codelldb/src/debug_session/disassemble.rs:177-200 | the decoding loop yields the decoder's instructions, and a data byte wherever it finds none |
| Disassemble.PartitionPoint | src/codelldb/src/debug_session/disassemble.rs:212-228 | the result is a boundary of the predicate, and the boundary if the predicate has one |
| Disassemble.ReadMemory | src/codelldb/src/debug_session/disassemble.rs:150-175 | the bytes read are the whole range, or its end part from a boundary of readability on |
| Disassemble.FindAlignment | src/codelldb/src/debug_session/disassemble.rs:30-44 | the first number of skipped bytes at which decoding meets the address |
| Disassemble.BuildRows | src/codelldb/src/debug_session/disassemble.rs:47-133 | the rows of the reply, or the panic of the slice |
| Disassemble.HandleDisassemble | src/codelldb/src/debug_session/disassemble.rs:10-138 | the handler as a whole: window, reading, alignment, reply |
| Disassemble.DecodeTiles | src/codelldb/src/debug_session/disassemble.rs:177-200 | the decoded entries cover the buffer without gap or overlap, each at most the longest instruction |
| Disassemble.EntryBounds | src/codelldb/src/debug_session/disassemble.rs:20-27 | where an entry of a tiling can start, given how many entries come before and after it |
| DisassembleWindow.ReplyLength | src/codelldb/src/debug_session/disassemble.rs:47-133 | every reply has exactly the requested number of rows, and padding stands only in front |
| DisassembleWindow.ReplyShows | src/codelldb/src/debug_session/disassemble.rs:50-130 | every reply, row by row: first padding for the entries missing in front, with addresses modulo 2^64; then for each entry from the start index on a row at its address with exactly the bytes of memory it covers |
| DisassembleWindow.RowsAreMemory | src/codelldb/src/debug_session/disassemble.rs:150-175 | if reads yield bytes of the process's memory, every row of every reply that is not padding carries that memory at its own address, whether the window could be read in full or in part |
| DisassembleWindow.NoReplyWithoutBase | src/codelldb/src/debug_session/disassemble.rs:20-44 | if offset and count have no positive sum the request always fails |
| DisassembleWindow.PanicsExactly | src/codelldb/src/debug_session/disassemble.rs:49-61 | the handler panics if and only if fewer than offset plus count instructions are decoded from the address on |
| DisassembleWindow.EnoughEntries | src/codelldb/src/debug_session/disassemble.rs:20-50 | a window read in full, away from the ends of the address space, has the start index at least 0 and the end index at most the length |
| DisassembleWindow.FullWindowReply | src/codelldb/src/debug_session/disassemble.rs:16-138 | such a window is answered, if decoding meets the address at all, with exactly the requested number of contiguous decoded rows, whose bytes joined are the memory from the first row's start to the last row's end; with a non-positive offset, row -offset is at the address |
| DisassembleWindow.FullWindowAfter | src/codelldb/src/debug_session/disassemble.rs:45-61 | with a positive offset the k-th row shows the memory of the entry at index offset + k, counted from the one at the address |
| DisassembleWindow.ShortMemoryPanics | src/codelldb/src/debug_session/disassemble.rs:61-133 | one readable byte and two requested instructions make the handler panic |
| DisassemblyIndex.Bisect | src/codelldb/src/disassembly.rs:37-47 | on a sorted list bisection finds the number of leading elements below a bound |
| DisassemblyIndex.DisassembledRanges.FindByAddress | src/codelldb/src/disassembly.rs:37-47 | the lookup considers the last range that starts at or below the address |
| DisassemblyIndex.DisassembledRanges.AddRange | src/codelldb/src/disassembly.rs:89-117 | a new range gets the next handle and its sorted place |
| DisassemblyIndex.DisassembledRanges.GetFromAddress | src/codelldb/src/disassembly.rs:49-87 | a lookup that misses adds the symbol's range, or one that ends at the last instruction read |
| DisassemblyIndex.AddAllKeeps | src/codelldb/src/disassembly.rs:89-117 | under every sequence of inserts the index stays sorted, handles 1000, 1001, ... number exactly its ranges, and every range keeps its handle |
| DisassemblyIndex.InsertsNumbered | src/codelldb/src/disassembly.rs:89-117 | from the empty index on, after any inserts, the ranges are sorted by start and the k-th insert is there under handle 1000 + k, and nothing else |
| DisassemblyIndex.FoundContains | src/codelldb/src/disassembly.rs:37-47 | a hit contains the address |
| DisassemblyIndex.FindIsLinearSearch | src/codelldb/src/disassembly.rs:37-47 | for nonempty disjoint ranges the lookup finds a range if and only if it is in the index and contains the address |
| DisassemblyIndex.CachedForever | src/codelldb/src/disassembly.rs:49-117 | once found, a range is found again with the same handle after any further inserts |
| DisassemblyIndex.FoundExactly | src/codelldb/src/disassembly.rs:37-47 | every address in some range is found if and only if no range outlasts a later one with nothing beginning by the time that one is over |
| DisassemblyIndex.OverlapHides | src/codelldb/src/disassembly.rs:37-47 | a nested range hides the end of the one around it |
| DisassemblyIndex.FoundAgainExactly | src/codelldb/src/disassembly.rs:49-117 | after a lookup that added a range, the same lookup finds that range if and only if it contains the address and no older range starts between its start and the address |
| DisassemblyIndex.SingleInstructionNotCached | src/codelldb/src/disassembly.rs:66-80 | a range of one instruction outside every symbol is empty, and every lookup of its address adds another |
| DisassemblyIndex.LinesAndAddresses | src/codelldb/src/disassembly.rs:148-154 | on instruction lines the two maps are mutual inverses |
| DisassemblyIndex.AdapterDataRoundTrip | src/codelldb/src/disassembly.rs:156-175 | decoding the adapter data gives back every address at its line if and only if the instructions start at the range's start and every gap fits in 32 bits |
| DisassemblyIndex.SmallGapsMeans | src/codelldb/src/disassembly.rs:156-163 | that condition, gap by gap |
| CStrings.FillBuffer | src/lldb/src/strings.rs:49-57 | the API's side: the longest prefix that fits, and a NUL |
| CStrings.Attempt | src/lldb/src/strings.rs:60-84 | a buffer with an unused byte holds the whole string |
| CStrings.GetCString | src/lldb/src/strings.rs:51-87 | for every way of reporting sizes between the bytes stored and the length plus one, the loop ends with the whole string; at most two calls if the size is always the same; otherwise logarithmically many |
| CStrings.WithCStr | src/lldb/src/strings.rs:8-35 | the API sees the string and a NUL, unless the string is long and holds a NUL |
| CStrings.SeenAsWhole | src/lldb/src/strings.rs:8-35 | the API reads the string back if and only if it holds no NUL, and otherwise a shorter one |
| ShellQuoting.QuoteRead | extension/editContinue.ts:729-734 | any string whatever, quoted, is read back by the shell's rules as itself, within the word at hand |
| ShellQuoting.QuotedUnlessPlain | extension/editContinue.ts:729-734 | exactly the nonempty strings of letters, digits and `_/:=.,@%+-` go without quotes |
| ShellQuoting.ArgsRead | extension/editContinue.ts:558-567 | any list of arguments, quoted and joined, is read back as that list |
| ShellQuoting.CommandLineRead | extension/editContinue.ts:558-567 | the shell splits the command line into the assignment to the target's variable, `cargo` and the original arguments, whatever the arguments and flags; the variable is `CARGO_TARGET_`, the target in capitals with `_` for `-`, and `_RUSTFLAGS` |
| ShellQuoting.OddTargetIsNoName | extension/editContinue.ts:593-595 | a target with any other character than letters, digits, `_` and `-` gives no assignment |
| ShellQuoting.TargetEnsured | extension/editContinue.ts:597-612 | the arguments stay as they are if and only if one of them mentions a target; otherwise the target is appended to cargo's own arguments; cargo sees a target unless only the program's arguments mention one |
| RebuildLoop.EditContinue.StartWatcher | extension/editContinue.ts:322-348 | starting stops the current watcher and makes a new one current |
| RebuildLoop.EditContinue.StopWatcher | extension/editContinue.ts:350-362 | stopping disarms the timer; a run in progress goes on |
| RebuildLoop.EditContinue.Schedule | extension/editContinue.ts:364-380 | a save arms the timer |
| RebuildLoop.EditContinue.TimerFires | extension/editContinue.ts:382-406 | a firing timer starts a run, or makes the running one go round again |
| RebuildLoop.EditContinue.BuildExits | extension/editContinue.ts:407-429 | a run resumes when its build exits: it goes on to the patch, or returns early |
| RebuildLoop.EditContinue.PatchApplied | extension/editContinue.ts:431-461 | a run resumes when the patch is applied or refused: it builds again if pending, and ends otherwise |
| RebuildLoop.SingleFlight | extension/editContinue.ts:382-461 | in every interleaving at most one run of each watcher is in progress, exactly while its flag is set |
| RebuildLoop.PendingMeansFired | extension/editContinue.ts:387-394 | in every interleaving the pending flag says exactly that a timer fired after the last build began |
| RebuildLoop.RunEnds | extension/editContinue.ts:392-461 | a run ends only with its last build begun after the last timer firing, except exactly if it returns early after a firing during that build |
| RebuildLoop.RestingBehindTimer | extension/editContinue.ts:414-429 | a watcher at rest has missed a firing if and only if its last build failed or left no patch behind that firing |
| RebuildLoop.SavesOnTheWay | extension/editContinue.ts:364-394 | every save without a build after it is still awaited by the timer or the pending flag |
| RebuildLoop.NoSaveLost | extension/editContinue.ts:350-461 | for every watcher at rest, current or not, a save has no build after it if and only if the last build failed or left no patch after the save's timer had fired, or the watcher was stopped or replaced before it fired |
| RebuildLoop.SaveLost | extension/editContinue.ts:414-429 | a save during a failing build is left behind |
| RebuildLoop.RestartLosesSave | extension/editContinue.ts:330-353 | a save is left behind when the watcher is restarted before its timer fires |
| RebuildLoop.OneRunAcrossWatchers | extension/editContinue.ts:322-406 | there is never more than one run in progress across all watchers if and only if no timer of the current watcher starts one while a run of another is suspended |
| RebuildLoop.RestartBuildsTwice | extension/editContinue.ts:322-348 | after a restart two builds can run at once |
| RebuildStops.StoppedForGood | extension/editContinue.ts:322-362 | after a watcher is stopped or replaced, whatever follows, it is never current again and its timer starts no run; a build of it begins at most once more, and only if its run in progress was already to go round again |
| StepLedger.Overlay.BindTo | extension/perfOverlay.ts:239-264 | binding starts an empty ledger |
| StepLedger.Overlay.Stopped | extension/perfOverlay.ts:329-346 | a stop event rebinds if need be and consumes the last command |
| StepLedger.Overlay.Located | extension/perfOverlay.ts:524-550 | after the await, a step back pops and undoes, a forward step charges and pushes |
| StepLedger.Overlay.RecordStepCost | extension/perfOverlay.ts:552-574 | a charge adds to the line's total and hits |
| StepLedger.Overlay.UnrecordStepCost | extension/perfOverlay.ts:577-584 | an undo subtracts, and removes a line with nothing left |
| StepLedger.Overlay.ClearStepCosts | extension/perfOverlay.ts:679-688 | clearing empties the table and not the undo stack |
| StepLedger.Overlay.ToggleStepCosts | extension/perfOverlay.ts:666-677 | the toggle turns step costs of the bound session on or off |
| StepLedger.Overlay.SessionStarted | extension/perfOverlay.ts:225-234 | a session that starts is bound if none is |
| StepLedger.Overlay.SessionEnded | extension/perfOverlay.ts:292-295 | the end of the bound session, and of no other, unbinds it |
| StepLedger.FollowsSessions | extension/perfOverlay.ts:225-346 | on every run the session the overlay is bound to, and whether step costs are on, are told by the starts, ends, stops and toggles alone |
| StepLedger.CostsAreSums | extension/perfOverlay.ts:517-584 | in every interleaving of steps, reverse steps, clears and rebinds, each line's total and hits are the sum and count of its undo entries since the last clear, and the line is absent exactly if there are none |
| StepLedger.OneWalk | extension/perfOverlay.ts:316-327 | from every state with the overlay on, one command, stop and answer, whatever the command: exactly "next", "stepIn", "stepOut" and "bs/stepIn", with instructions from a known line, push and charge; "stepBack" pops and undoes one; anything else leaves stack and costs alone, but an ignored command leaves one pending before it in force |
| StepLedger.AnyWalks | extension/perfOverlay.ts:517-550 | after any mix of these steps the undo stack, and its part older than the last clear, are what the commands alone tell |
| StepLedger.CostsFollowCommands | extension/perfOverlay.ts:517-584 | from every reachable state, after any mix of steps, each line's total and hits are the sums over the charges that the commands leave |
| StepLedger.ForwardAndBack | extension/perfOverlay.ts:517-584 | from every reachable state with the overlay on, n commands, stops and answers forward and n back restore the costs if and only if every forward step was charged, or no undo entry is newer than the last clear |
| StepLedger.UnchargedStepUndoesOlder | extension/perfOverlay.ts:527-544 | a step without an instruction count and a step back take away the charge before them |

## Left out

- The combinator library: `precedence` of nom_language is not part of this repository; its stack algorithm is modelled by `ReadOperand` and `ReadOperator`. Parsers are written directly, with ordered choice and no backtracking into an optional part.
- Lexing of expressions: expressions are token sequences. Left out, apart from names before `<`, are the ways in which prefix operators can split longer lexemes, the words for operators where a name may stand, member numbers beyond 32 bits, which panic, keyword prefixes of identifiers, the spelling of literals, a dot after an integer literal in emitted code, and quotes inside an identifier's text within `__eval('...')`.
- `expressions/preprocess.rs`, `expressions/expression_format.rs`: rewriting of `$`-expressions inside Python code, and format suffixes.
- QualifiedIdents.ParsedIsCanonical: white space is ASCII white space; `trim` of Unicode spaces is not modelled.
- DapTransform.ReframingRoundTrip: JSON is an abstract pair of parse and print with parse after print the identity; a hook that throws is not modelled.
- DapFraming: bytes are characters below 256 and header text is ASCII; `Content-Length` values beyond 2^53, which JavaScript rounds, are not modelled.
- DapSession: bounded queues, lagging subscribers and the end of the session, which fails the callers still waiting; a send that fails has still used its number.
- Cancellation: callbacks registered on tokens, lost broadcast messages, and `current_cancellation` of the session.
- EventCork: a full or closed channel after an event was offered to it.
- Breakpoints: the debugger is a supply of fresh ids and a set of live ids, and reports removal only of dead ids; what a condition or a caller exclusion says of a hit is an input of the hit; lines of a current disassembly outside its instructions, which index out of range, are not modelled; messages to the client are not modelled.
- Disassemble: the decoder returns sizes between 1 and the longest instruction that fit the buffer, and a memory read fails or returns at most the bytes asked for; offsets so large that 64-bit products overflow, symbols and line information are not modelled.
- DisassemblyIndex.AdapterDataRoundTrip: instruction addresses are ascending, as the decoder yields them; sums beyond 64 bits are not modelled.
- DisassemblyIndex.CachedForever: needs nonempty disjoint ranges, because `OverlapHides` shows the lookup fails without.
- CStrings.GetCString: strings hold no NUL and sizes fit the machine word; an API that reports fewer bytes than it stored is outside the promise of the function.
- ShellQuoting.CommandLineRead: `toUpperCase` is modelled on ASCII letters; the shell's rules are sections 2.2.1, 2.2.2 and 2.3 of the POSIX Shell Command Language, without expansions, which quoting rules out.
- `editContinueRebuildCargoArgs`, `prebuildEditContinueBinary` and the configuration of sessions.
- RebuildLoop.SingleFlight: debounce delays are not measured; a timer that is armed may fire at any later time.
- StepLedger: the last-step metrics of a line, painting, and the cursor line.
- `asmModel.ts`, `variables.rs` (evaluation names, deduplication), the prefix search of completions, launching, attaching, terminals, the Python bridge, and all of the user interface.
