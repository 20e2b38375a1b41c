# maknae in Dafny

Models of the parts of maknae whose correctness is hardest to see by reading one function, and
proofs about them.

- **The agent loop** (`Budget`, `Transcript`, `AgentLoop`, `LoopStop`, `LoopExchange`, `LoopMeter`,
  `LoopBasis`, `LoopAnswers`, `LoopHistory`, `LoopSends`, `LoopBounds`, `LoopOutcome`, `DriveSession`,
  `Session`). The loop awaits a plane it does not control while another thread may raise the stop flag
  and the host may drop the run.
  A run is a sequence of atomic steps of a machine; the plane and the flag are functions of time, so a claim for every world
  is a claim for every plane. `DriveSession` is the loop in its own nested-loop form, proved to
  perform a run of that machine.
- **The egress deputy** (`Slots`, `Deputy`, `Frames`). Threads, slot pools, panics and failed spawns as
  labelled steps; a run is any sequence of labels. Frames over streams with arbitrary schedules.
- **The mutation gate** (`HunkMarks`, `DiffText`, `DiffRoundTrip`, `DiffParser`, `MutationGate`). The diff
  parser, the line marker and the classifier, from diff text to verdict.
- **The lexers, matchers and closures of the gates** (`Mask`, `MaskGrammar`, `Brackets`, `CfgParse`,
  `CfgLex`, `CfgGrammar`, `CfgRoundTrip`, `Glob`, `Closures`).
- **The bindings sync** (`PolicyBindings`, `PolicySync`). Reads of the mirror and the file are functions
  of the time of the read, so they may change between any two.

Loops and objects of the sources are methods and classes here, each proved against a function; what
the sources promise is proved about those functions.

Five promises turned out not to hold as stated; the code is modelled as it is, and the exact condition
is proved.

- A hunk that disagrees with its header is refused unless its counts are used up at some point and
  every line after the first such point is empty, a note, or reads as a file header
  (`DiffParser.HunkPassesIffTheRestSlips`, `DiffParser.AnOverlongHunkCanSlip`).
- A mutant on a changed line can be let go when its file's name does not end in `.rs`, and only then
  (`MutationGate.PromiseHoldsIffRust`, `MutationGate.AChangedMutantIsSkipped`).
- A path glob also accepts a segment followed by one newline, because of the end anchor
  (`Glob.AgreesIffNoSegmentIsSlack`, `Glob.ANewlineSlips`).
- A printed cfg predicate is read back unless a value, which only a raw string can hold, has a quote or
  a last backslash that plain quotes would end on (`CfgRoundTrip.RenderRoundTrips`,
  `CfgRoundTrip.ALoneQuoteIsLost`).
- The step guard at the top of the loop does fire, exactly when the step budget is zero
  (`LoopBounds.StepGuardFiresOnlyWithNoSteps`).

Taken as given, because the code is foreign: an open failure of the provider call means nothing was
sent (`Deputy`), and the digest of a bindings section is injective (`PolicySync.Injective`).

## Model

| member | source | states |
|---|---|---|
| Budget.NewBudget | crates/maknae-agent/src/budget.rs:15-35 | a budget is accepted exactly when it is under the ceiling, its output share is not zero and what is left clears the preamble allowance; the prompt budget is then at least 1,537 |
| Budget.MeterState.Ratio | crates/maknae-agent/src/budget.rs:93-101 | bytes per token stay between 1 and 4 whatever was reported, so nothing divides by zero |
| Budget.Meter.Record | crates/maknae-agent/src/budget.rs:84-91 | the fields after a measurement are the recorded state, and a valid meter stays valid |
| Budget.Meter.PassGate | crates/maknae-agent/src/budget.rs:117-141 | the gate's answer and the new flags are those of the specified gate, and the meter stays valid |
| Budget.ProjectedMonotone | crates/maknae-agent/src/budget.rs:105-115 | more bytes never project to fewer tokens, under any measurements |
| Budget.ProjectedCovers | crates/maknae-agent/src/budget.rs:105-115 | a projection covers four bytes a token whatever was reported, and once measured, the measurement and the growth since at the ratio in force |
| Budget.ProjectedIsLeast | crates/maknae-agent/src/budget.rs:105-115 | a projection is exactly the least number of tokens that is enough: four bytes a token, above the preamble allowance while nothing was measured, and at least the latest measurement and the growth since |
| Budget.UnderReportingCannotDisarm | crates/maknae-agent/src/budget.rs:105-121 | past four bytes per budgeted token the gate stops, whatever usage was reported, and changes nothing |
| Budget.NarrowingsAreExact | crates/maknae-agent/src/budget.rs:105-141 | every 128-bit intermediate fits and both narrowing casts of a notice lose nothing; a notice is between 80 and 100 percent |
| Budget.RatioIsObserved | crates/maknae-agent/src/budget.rs:84-101 | bytes per token as observed between the first and the latest measurement where both grew, rounded down and kept between 1 and 4; otherwise 4 |
| Budget.GateWarnsAtTheMarks | crates/maknae-agent/src/budget.rs:117-141 | the gate stops exactly past the budget and then changes nothing; below it, it warns exactly when the projection reaches 95 percent and that was not said, or 80 percent and nothing was, with the percentage rounded down, and the flags remember both marks |
| Budget.QuotientIsDivision | crates/maknae-agent/src/budget.rs:93-115 | the model's quotient is integer division |
| Budget.GateKeepsAnnounced | crates/maknae-agent/src/budget.rs:117-141 | the two warned flags say exactly what has been announced, before and after any gate |
| Budget.EveryConversationIsWarnedAtMostTwice | crates/maknae-agent/src/budget.rs:84-141 | over every interleaving of measurements and gates: at most two notices, at most one below 95 percent, none below 80, none after one at 95 or above |
| Transcript.ShedClearsTheOldest | crates/maknae-agent/src/transcript.rs:46-56 | shedding fails exactly when no turn reasons, and otherwise clears the oldest reasoning and nothing else |
| Transcript.ShedSpendsOneReasoning | crates/maknae-agent/src/transcript.rs:46-84 | each shedding leaves one reasoning fewer and never more bytes |
| Transcript.ShedKeepsOwed | crates/maknae-agent/src/transcript.rs:46-56 | shedding leaves every unanswered call unanswered and every answer in place |
| Transcript.AnswersFollowInOrder | crates/maknae-agent/src/transcript.rs:30-44 | in a valid exchange the turns after an assistant turn answer its calls one by one, in call order |
| Transcript.EveryCallIsAnsweredOnce | crates/maknae-agent/src/transcript.rs:85-90 | in a valid exchange, whatever is still owed, every assistant turn has one tool turn per call in order as far as the transcript goes and no further one; where nothing is owed, all of them |
| Transcript.UserTurnsOweNothing | crates/maknae-agent/src/transcript.rs:30-34 | a user turn of a valid exchange never follows unanswered calls |
| Transcript.BytesCountEverythingWritten | crates/maknae-agent/src/transcript.rs:58-84 | the bytes of a transcript are the length of everything written in it: texts, arguments and reasoning |
| Transcript.TextJoins | crates/maknae-agent/src/drive.rs:58-66 | the text of a reply is its text blocks in order, and that of two lists of blocks is the one text after the other |
| AgentLoop.Decide | crates/maknae-agent/src/drive.rs:68-81 | a step executes all of its calls or none: all of them exactly when they fit the cap and a step remains; without calls it answers with the reply's text, and otherwise it stops, for want of a step before anything else |
| AgentLoop.Step | crates/maknae-agent/src/drive.rs:131-347 | one atomic step of the loop keeps the machine well formed: steps within the budget, call index within the calls, meter valid |
| LoopStop.StepKeepsStopInv | crates/maknae-agent/src/drive.rs:143-149 | every prompt, read and write is preceded by its own check, checks see the flag as it stands, and a call is answered as not run exactly when its check saw the flag |
| LoopStop.AtMostOneStartAfterStop | crates/maknae-agent/src/drive.rs:169-194 | once the flag is up at most one more plane call starts, and it is the one whose check had already passed |
| LoopExchange.StepKeepsExchange | crates/maknae-agent/src/drive.rs:244-344 | between steps nothing is owed, and inside a step exactly the calls not reached yet are |
| LoopAnswers.StepKeepsAnswers | crates/maknae-agent/src/drive.rs:262-343 | the tool turns of the transcript are the answers of the trace, one for one and in order, each the rendering of the outcome its event reports |
| LoopMeter.StepKeepsMeter | crates/maknae-agent/src/drive.rs:157-198 | every prompt sent, retries after shedding included, fits the budget of the meter it was sent under, and notices follow the meter's flags |
| LoopMeter.LighterStillFits | crates/maknae-agent/src/drive.rs:176-194 | a transcript that fitted still fits after shedding |
| LoopBasis.KnownIsLatest | crates/maknae-agent/src/drive.rs:299-340 | what is known of a path is what the latest served read, applied write or stale write of it leaves, and that is the only answer the history allows |
| LoopBasis.StepKeepsBasis | crates/maknae-agent/src/drive.rs:299-340 | the basis of every write and the changed flag of every served page are that function of the trace, over all steps |
| AgentLoop.SameContentIgnoresChangeTime | crates/maknae-agent/src/plane.rs:109-111 | two versions have the same content exactly when device, inode, size and modification time agree, whatever the change time |
| LoopHistory.StepKeepsTold | crates/maknae-agent/src/drive.rs:262-340 | over all steps every answer tells what became of its own call: not run after a check that saw the flag, the router's refusal, or the plane's outcome of the very read or write, path, page, content and basis, the call was routed to |
| LoopHistory.StepKeepsReplies | crates/maknae-agent/src/drive.rs:195-260 | over all steps the assistant turns are the replies received, whole and in order, save reasoning since shed, and no step adds or drops a user turn |
| LoopSends.RecordedShows | crates/maknae-agent/src/budget.rs:84-91 | a report with tokens is stored as the latest measurement, capped at the ceiling, and as the first when it is the first; one without changes nothing |
| LoopSends.StepKeepsSends | crates/maknae-agent/src/drive.rs:157-198 | over all steps every prompt carried every reply and every answer before it, under a meter that held exactly the first and latest measurements of the trace |
| LoopBounds.EveryRunIsBounded | crates/maknae-agent/src/drive.rs:142-347 | prompts are at most the initial reasonings plus twice the steps, tool calls at most (steps - 1) times the cap, no call is attempted twice, and the loop-top guard is never what ends a run |
| LoopBounds.StepGuardFiresOnlyWithNoSteps | crates/maknae-agent/src/drive.rs:150-156 | the loop-top guard fires exactly when the budget has no step at all |
| LoopBounds.EveryRunEnds | crates/maknae-agent/src/drive.rs:142-347 | against every plane, and with any step budget, the machine reaches an outcome |
| LoopOutcome.EveryOutcomeHasItsCause | crates/maknae-agent/src/drive.rs:142-260 | at every moment of every run an answer is the text of a last reply that asks for nothing, and a halt has exactly the cause its reason names |
| LoopOutcome.QuietRunAnswers | crates/maknae-agent/src/drive.rs:142-250 | where the flag stays down, the gate opens and the reply asks for nothing, the run answers with it after one prompt |
| DriveSession.SendUntilItFits | crates/maknae-agent/src/drive.rs:176-194 | the prompt loop performs the machine's steps: it ends with a reply, an outcome, or no reasoning left to shed |
| DriveSession.OneCall | crates/maknae-agent/src/drive.rs:262-340 | one call is skipped, refused, read or written as the machine does, with the same events |
| DriveSession.RunCalls | crates/maknae-agent/src/drive.rs:244-344 | the loop over a step's calls performs the machine's steps up to the next loop top |
| DriveSession.DriveSession | crates/maknae-agent/src/drive.rs:131-347 | the nested loops perform a run of the machine, event for event, from the state given to the state left |
| DriveSession.FollowsIsRun | crates/maknae-agent/src/drive.rs:131-347 | the recorded path is the machine's own run |
| Session.EveryConversationIsSound | crates/maknae-agent/src/session.rs:72-116 | in every reachable state, runs dropped at any await included: every assistant turn is answered call by call, fully where a prompt may follow or an executed run ended; every assistant turn is its reply; each tool turn shows what became of the very read or write its call was routed to, the refusal, or not run exactly for calls met by the flag; every prompt sent carried all of it and fitted, under a meter that held exactly the measurements so far; at most two notices were issued, and every basis follows the history |
| Session.StopEndsTheConversation | crates/maknae-agent/src/session.rs:81-116 | over a whole conversation at most one more plane call starts once the flag is up |
| Session.StoppedOrDroppedCloses | crates/maknae-agent/src/session.rs:94-116 | a run that halts, or is dropped at an await, leaves the session closed |
| Session.AnsweredStaysOpen | crates/maknae-agent/src/session.rs:72-116 | a run that answers leaves the session open: the next prompt is taken, and the next run begins with it after all that went before, with what was seen and measured, and with all its steps |
| Session.EveryPromptIsKept | crates/maknae-agent/src/session.rs:72-116 | in every conversation the user turns are exactly the prompts taken, in order, and never lost |
| Session.ClosedForever | crates/maknae-agent/src/session.rs:72-93 | nothing that happens to a closed session changes it |
| Session.Session.Prompt | crates/maknae-agent/src/session.rs:72-79 | a prompt is taken exactly when the last run answered and none is waiting; otherwise nothing changes |
| Session.Session.Run | crates/maknae-agent/src/session.rs:81-116 | a run is the machine's run to its end between the two field updates, and does nothing when no prompt waits |
| Slots.Pool.TryTake | bins/maknae-egress/src/capacity.rs:35-42 | a take succeeds exactly below the cap and adds one live guard; the counter is the number of live guards |
| Slots.Pool.Drop | bins/maknae-egress/src/capacity.rs:54-58 | a drop removes one live guard and never underflows |
| Deputy.ThreadStepKeepsSound | bins/maknae-egress/src/serve.rs:182-254 | each step of a connection thread keeps what its position says about the flag, the peer and the provider |
| Deputy.StepKeepsInv | bins/maknae-egress/src/serve.rs:259-386 | every step of the acceptor or a thread, panics and failed spawns included, keeps both counters equal to the live guards and every connection honest |
| Deputy.EveryRunIsHonest | bins/maknae-egress/src/serve.rs:182-425 | in every interleaving a connection gets at most one reply begun, and one that says nothing left only if nothing did; neither pool passes its cap and at most twice the cap of threads exist |
| Deputy.PanicAfterCommitWritesNothing | bins/maknae-egress/src/serve.rs:354-386 | in every run, a thread that panics once the call or a reply has begun leaves that peer and the provider with what they had seen, in every continuation |
| Deputy.PanicBeforeCommitAnswers | bins/maknae-egress/src/serve.rs:368-403 | a panic before anything began leads, where the stream could be cloned, to exactly one unsent frame |
| Deputy.QuietThreadsAnswer | bins/maknae-egress/src/serve.rs:182-218 | left alone, an admitted connection makes its call, which may send, and is answered with exactly what the call came to |
| Deputy.QuietRefusalsAnswer | bins/maknae-egress/src/serve.rs:237-254 | left alone, a connection over capacity is told so |
| Deputy.AcceptedIsServed | bins/maknae-egress/src/serve.rs:259-312 | in every run, an accepted connection below the cap, of which nothing is known or sent yet, gets a serving thread and takes one slot; nothing else changes |
| Deputy.OverCapacityIsRefused | bins/maknae-egress/src/serve.rs:272-348 | at the cap, with a refusal slot left, it gets a refusing thread whose quiet steps tell the peer so; nothing is sent for it and no other peer sees anything |
| Deputy.FailedSpawnFallsBack | bins/maknae-egress/src/serve.rs:272-312 | a serving thread that cannot be spawned gives its slot back; the connection goes the way of one over capacity when its stream could be cloned, and is closed when not |
| Deputy.OverflowIsRefused | bins/maknae-egress/src/serve.rs:315-348 | and there it is told so |
| Deputy.UnansweredForGood | bins/maknae-egress/src/serve.rs:272-348 | with both pools full, or no way to spawn, the connection is closed, and in every continuation it is never answered and nothing is sent for it |
| Deputy.FailuresAreAnsweredOnlyOnceDecided | bins/maknae-egress/src/serve.rs:182-235 | a thread that fails before it knows who asks and what, or that cannot encode its reply, says nothing; one whose request is decided against begins exactly one refusal |
| Deputy.ExitKeepsInv | bins/maknae-egress/src/serve.rs:272-348 | a thread that leaves returns exactly its own slot |
| Deputy.EveryThreadLeaves | bins/maknae-egress/src/serve.rs:182-254 | a thread is never stuck and leaves within sixteen steps whatever it meets |
| Deputy.QuietPoolsAreWhole | bins/maknae-egress/src/serve.rs:272-348 | with no thread left and the acceptor waiting, no slot is missing |
| Frames.ReadExactBy | bins/maknae-egress/src/serve.rs:134-146 | for every schedule of short reads, interrupts and would-blocks: it succeeds exactly where the schedule allows, and then the buffer holds exactly the next bytes |
| Frames.PatienceReads | bins/maknae-egress/src/serve.rs:134-146 | as many moves as bytes are enough, however short each is and however many interrupts |
| Frames.PatienceWrites | bins/maknae-egress/src/serve.rs:149-171 | the same for writing, would-blocks included |
| Frames.ReadsIffOffered | bins/maknae-egress/src/serve.rs:134-146 | a read succeeds exactly when, before a break, a would-block or an empty move, the moves add up to the bytes wanted |
| Frames.WritesIffOffered | bins/maknae-egress/src/serve.rs:149-171 | a write succeeds exactly where a read would once the would-blocks are left out |
| Frames.BigEndianIsMostSignificantFirst | bins/maknae-egress/src/serve.rs:102 | the length of a frame is its first four bytes, the most significant first |
| Frames.WriteAllBy | bins/maknae-egress/src/serve.rs:149-171 | for every schedule the wire gains a prefix of the buffer, all of it on success, and success exactly where the schedule and the two mode changes allow |
| Frames.FrameRoundTrip | bins/maknae-egress/src/serve.rs:96-109 | a frame reads back as its body exactly when the body is within the cap; a longer one under 2^32 is refused by its declared length |
| Frames.WhatIsReadIsWhatWasWritten | bins/maknae-egress/src/serve.rs:96-109 | for every schedule, a read of a written frame that succeeds gives exactly the body, and one over the cap is refused by its length |
| Frames.PatienceReadsTheFrame | bins/maknae-egress/src/serve.rs:96-109 | and it does succeed for every body within the cap when there are as many moves as bytes |
| Frames.PatienceWritesTheFrame | bins/maknae-egress/src/serve.rs:405-425 | and so does the writer, would-blocks included |
| Frames.WriteFrame | bins/maknae-egress/src/serve.rs:405-425 | the wire gains a prefix of the frame, the whole frame on success, and success exactly where the schedule allows |
| Frames.ReadBody | bins/maknae-egress/src/serve.rs:96-109 | success gives the body the bytes declare; a declared length above the cap is refused before any buffer exists |
| HunkMarks.HunkLines | ci/gates/mutation-diff.py:154-178 | the loop marks exactly the specified lines |
| HunkMarks.MarksAreExact | ci/gates/mutation-diff.py:154-178 | written out on the hunk's own lines: a line is marked exactly when it is added, is the line before a deletion run, or is the line after a run with no addition following, unless the run ends a hunk that has context |
| DiffText.LinesRoundTrip | ci/gates/mutation-diff.py:42-46 | lines without newlines survive being joined and split |
| DiffText.UnfinishedLineIsKept | ci/gates/mutation-diff.py:42-46 | a last line without its newline is a line all the same |
| DiffText.HeaderRoundTrip | ci/gates/mutation-diff.py:18 | a printed hunk header parses to its counts and start, counts of one left out or not |
| DiffText.HeaderIsItsText | ci/gates/mutation-diff.py:18 | a line is a hunk header exactly when it is two ranges between the marks, a missing count being one, and anything after |
| DiffText.HeaderPathNamesItTwice | ci/gates/mutation-diff.py:53-57 | a git line names a file exactly when it names one non-empty path twice |
| DiffText.TrimsEveryTab | ci/gates/mutation-diff.py:104 | all tabs at the end of a target go and nothing else does |
| DiffText.BinaryLinesAre | ci/gates/mutation-diff.py:19 | a line is a binary change exactly when it is one of git's two forms |
| DiffText.UnnamedSections | ci/gates/mutation-diff.py:80-86 | a section has no name exactly when it is not deleted, was given no target and no new name, and its git line does not name one file twice |
| DiffText.RefusedWhereItStands | ci/gates/mutation-diff.py:88-122 | a binary change, a hunk before its file is named or without the shape of a header, a target that is neither nothing nor under b/, and a section without a name each refuse the diff |
| DiffText.TextWithoutAGitLine | ci/gates/mutation-diff.py:68-79 | text of blank lines is no change; any other text without a git line is refused |
| DiffRoundTrip.ReadsBack | ci/gates/mutation-diff.py:126-145 | a printed hunk body of arbitrary text, read under its own counts, gives its kinds and leaves only notes |
| DiffRoundTrip.HunkReadsBack | ci/gates/mutation-diff.py:116-147 | a printed hunk, whatever its lines look like, adds exactly its marks to the file's |
| DiffRoundTrip.FileReadsBack | ci/gates/mutation-diff.py:80-147 | a printed file section, renamed, deleted or without hunks, reads back as itself |
| DiffRoundTrip.DiffParsesBack | ci/gates/mutation-diff.py:68-151 | the parse of a printed diff names exactly the files that still exist and marks exactly the lines its hunks mark |
| DiffParser.ReadHunkBody | ci/gates/mutation-diff.py:126-145 | the body loop computes the specified reading |
| DiffParser.ParseDiff | ci/gates/mutation-diff.py:68-151 | the line loop computes the specified parse, errors included |
| DiffParser.AcceptedIffAPrefixFits | ci/gates/mutation-diff.py:126-145 | a body is accepted under declared counts exactly when some prefix of it uses them up; a shorter one is always refused |
| DiffParser.LeftOverLineRefusedUnlessItSlips | ci/gates/mutation-diff.py:92-149 | a line left over after a hunk is refused at its turn exactly unless it is empty, a note, or reads as a file header |
| DiffParser.LeftOvers | ci/gates/mutation-diff.py:88-149 | any number of left-over lines are passed over when all of them slip, and refused when one does not |
| DiffParser.HunkPassesIffTheRestSlips | ci/gates/mutation-diff.py:116-149 | a hunk under any header, wherever a file is named: what follows is reached exactly when the declared counts are used up somewhere and every line after the first such point slips; otherwise the diff is refused |
| DiffParser.AgreeingHunkPasses | ci/gates/mutation-diff.py:126-149 | a hunk that agrees with its header always passes |
| DiffParser.AnOverlongHunkCanSlip | ci/gates/mutation-diff.py:68-151 | a whole diff whose hunk is longer than its header, and which is accepted |
| MutationGate.UnmarkedSpanIsUnchanged | ci/gates/mutation-diff.py:154-178 | a span of new lines without a mark is an unchanged, contiguous copy of old lines |
| MutationGate.Overlapping | ci/gates/mutation-diff.py:181-190 | the loop collects exactly the specified hits, in order |
| MutationGate.HitsAre | ci/gates/mutation-diff.py:181-190 | the hits are the listed mutants of the package whose span holds a changed line of their file, each as often as it is listed |
| MutationGate.PassesIffNothingIsDropped | ci/gates/mutation-diff.py:193-206 | the classifier exits 0 exactly when every mutant on a changed line is in the in-diff listing |
| MutationGate.VerdictSays | ci/gates/mutation-diff.py:193-206 | run, skip, dropped and found-none each say exactly what they report: the names dropped are those of touched mutants that are not listed, and the count found is that of the touched ones |
| MutationGate.NoChangedMutantIsSkipped | ci/gates/mutation-diff.py:68-206 | end to end, from the diff text and the two trees: if the gate exits 0, a listed mutant of the package absent from the in-diff listing spans an unchanged, contiguous copy of old lines, in Rust files, in files named without hunks and in files the diff does not name |
| MutationGate.PromiseHoldsIffRust | ci/gates/mutation-diff.py:68-206 | over all uses of the gate no mutant of a file is let go wrongly exactly when the file's name ends in .rs |
| MutationGate.AChangedMutantIsSkipped | ci/gates/mutation-diff.py:146-147 | for every file that is not a Rust file, a change, its diff and listings for which the gate exits 0 without a mutant on the replaced line |
| MutationGate.OnlyRustFilesAreSeen | ci/gates/mutation-diff.py:146-147 | a file that is not Rust is never marked |
| Mask.MaskNoncode | ci/gates/unsafe_check.py:43-99 | the loop over the character array computes the specified masking |
| Mask.NewlinesStay | ci/gates/unsafe_check.py:43-99 | a newline of the output is a newline of the source, and the other way round |
| Mask.LineNumbersAgree | ci/gates/unsafe_check.py:210-211 | a line number taken in the output is the line number in the source |
| Mask.LineIsNewlinesBefore | ci/gates/unsafe_check.py:210-211 | a line number is one more than the newlines before the position |
| Mask.OutputOpensNothing | ci/gates/unsafe_check.py:43-99 | no quote, comment opener or character literal is left anywhere in the output |
| Mask.MaskIsIdempotent | ci/gates/unsafe_check.py:43-99 | masking the output again changes nothing, on every source |
| MaskGrammar.MaskFollowsGrammar | ci/gates/unsafe_check.py:14-99 | however a source divides into comments, strings, raw strings, character literals and lone characters, exactly the lone characters are kept |
| MaskGrammar.EverySourceDivides | ci/gates/unsafe_check.py:14-99 | and every source does divide so, nested comments and unterminated tails included |
| Brackets.FindMatching | ci/gates/platform-gated.py:112-128 | the stack loop computes the specified matching |
| Brackets.MatchingIsEnclosing | ci/gates/platform-gated.py:112-128 | the matcher answers a position exactly when the bracket is closed there by its own kind with a balanced word between; otherwise it fails |
| Brackets.Closing | ci/gates/mutation-diff.py:684-694 | the counting loop computes the specified count |
| Brackets.CounterFollowsStack | ci/gates/mutation-diff.py:684-694 | where the stack succeeds the counter finds the same close; where the counter finds one the stack does too, unless a bracket of the wrong kind came first |
| CfgParse.ParseOne | ci/gates/platform-gated.py:196-214 | the recursion computes the specified predicate and position |
| CfgParse.ParseArgs | ci/gates/platform-gated.py:201-207 | the argument loop computes the specified arguments |
| CfgParse.ParseCfg | ci/gates/platform-gated.py:193-218 | the parser is the specified one: all tokens must be used |
| CfgParse.ParseIsTheGrammar | ci/gates/platform-gated.py:193-218 | the parser gives a predicate exactly for the token lists that spell it, one comma after the last argument allowed, and whose `not`s take one argument |
| CfgParse.ParseInvertsTokens | ci/gates/platform-gated.py:193-226 | the parser gives back the predicate its tokens came from exactly when every `not` has one argument |
| CfgParse.ParseUsesEveryString | ci/gates/platform-gated.py:193-218 | a parsed predicate holds the strings of its tokens, all of them, in order |
| CfgLex.LexSource | ci/gates/platform-gated.py:61-109 | the lexer's loop computes the specified tokens, errors included |
| CfgGrammar.LexIsTheDivision | ci/gates/platform-gated.py:61-109 | the tokens are exactly those of a division of the source into white space, notes, nested comments, raw and plain strings, character literals, lifetimes, names, numbers and marks, each the longest; an error comes exactly where such pieces lead up to a comment or string that is never closed, and says which |
| CfgGrammar.EverySourceDivides | ci/gates/platform-gated.py:61-109 | every source is such pieces up to its end, or up to a comment or string left open |
| CfgGrammar.DivisionIsRead | ci/gates/platform-gated.py:61-109 | from any point, pieces are read as their tokens and the lexer comes to where they end |
| CfgGrammar.PieceIsStepped | ci/gates/platform-gated.py:61-109 | one turn of the lexer takes exactly one piece |
| CfgGrammar.OpenIsRefused | ci/gates/platform-gated.py:75-96 | a turn at something never closed fails with its own fault |
| CfgRoundTrip.RenderRoundTrips | ci/gates/platform-gated.py:221-226 | printing, lexing and parsing give a predicate back exactly when every `not` has one argument and every value could stand between plain quotes |
| CfgRoundTrip.ParsedRoundTrips | ci/gates/platform-gated.py:193-226 | so a predicate read from any source comes back from its print exactly when each of its values could stand between plain quotes |
| CfgRoundTrip.ALoneQuoteIsLost | ci/gates/platform-gated.py:193-226 | a source that sets a name to a raw string holding one quote: it is read as that predicate, whose print is not read back |
| Glob.SplitJoin | ci/gates/coverage_check.py:41-42 | splitting a joined list of segments gives the segments |
| Glob.MatchesIsLoose | ci/gates/coverage_check.py:52-53 | a segment's regular expression accepts the segments that fill its stars, and those that do but for one last newline |
| Glob.SegMatchIsSplit | ci/gates/coverage_check.py:38-58 | the recursion accepts a path exactly when its segments can be cut so that each `**` takes any number and every other pattern segment matches one |
| Glob.AcceptedIsMatched | ci/gates/coverage_check.py:38-58 | every path the glob promises is matched |
| Glob.AgreesIffNoSegmentIsSlack | ci/gates/coverage_check.py:52-53 | on a path the matcher is the promise for every pattern exactly when no segment ends in a newline, save after a literal star |
| Glob.ANewlineSlips | ci/gates/coverage_check.py:52-53 | a path that is matched against the promise |
| Closures.Dependents | ci/affected.py:158-164 | whatever the pop order and the cycles, the worklist ends with the least set that holds the changed packages and their dependents |
| Closures.Select | ci/affected.py:114-165 | no or unknown packages to mutate are refused; all of them are selected exactly for unreadable history, an uncertain graph, an empty diff or a changed file not pinned on one package; none and no build exactly for documentation only; otherwise those in the least closed set of the owners |
| Closures.LeftOutIsUntouched | ci/affected.py:158-165 | a package left out depends, through any chain, on no package that owns a changed file |
| Closures.PopOrderDoesNotMatter | ci/affected.py:158-164 | any two runs of the worklist end with one set, and it is what walks along dependents reach |
| Closures.BaseNameFollowsTheLastSlash | ci/affected.py:153 | the base name is what follows the last slash |
| Closures.SharedIsUnpinned | ci/affected.py:150-154 | a path is not pinned on one package exactly when nobody owns it, it is a manifest or build script wherever it lies, or it is no Rust file |
| Closures.LeastIsReachable | ci/affected.py:158-164 | the least closed set is what walks reach |
| Closures.BuildFeatures | ci/gates/platform-gated.py:474-488 | whatever the pop order and the cycles, the worklist ends with the least set that holds the requested and default features and what they turn on |
| Closures.NeedsAreEntries | ci/gates/platform-gated.py:482-487 | a feature turns on another exactly by an entry that is its name, or its name and a slash where it is a feature; entries for dependencies and weak ones turn on nothing |
| PolicyBindings.EffectiveIsStanding | crates/maknae-config/src/bindings.rs:241-269 | an account's standing, read off the list of its entries' roles, depends on the set of roles alone: none, contained, bound to the one role, or bound to none |
| PolicyBindings.MayInstallNeverRaises | crates/maknae-config/src/bindings_sync.rs:342-348 | what may be installed is exactly what does not rise in one order of standings; so over any number of syncs nobody gains a role or leaves containment |
| PolicyBindings.NoneLoosenEntries | crates/maknae-config/src/bindings_sync.rs:312-325 | no entry is reported exactly when none gains a role or leaves adversary |
| PolicyBindings.NoneLoosenAccounts | crates/maknae-config/src/bindings_sync.rs:350-387 | no account is reported exactly when no account, and no name without one, rises |
| PolicyBindings.EquivalentIsSameBindings | crates/maknae-config/src/bindings_sync.rs:303-310 | two sections are equivalent exactly when both have bindings or neither does, and the same entries stand under the same roles |
| PolicyBindings.LooseningsAre | bins/maknae/src/policy_sync.rs:80-102 | an unattended sync reports exactly the entries that gain a role or leave adversary, and the listed ones whose account rises |
| PolicyBindings.WhoseAre | crates/maknae-config/src/bindings_sync.rs:327-387 | the entries of an account are its number and the names found to be its |
| PolicyBindings.UidsAreResolved | bins/maknae/src/policy_sync.rs:80-102 | the accounts gone by are those found for the names either section mentions, and no others |
| PolicyBindings.FindLoosenings | bins/maknae/src/policy_sync.rs:80-102 | the lookup loop computes the specified loosenings, and fails exactly when some lookup fails |
| PolicyBindings.NothingLoosenedIffTighter | bins/maknae/src/policy_sync.rs:80-102 | an unattended sync finds nothing to refuse exactly when every name could be looked up and the mirror tightens the file for every entry and every account |
| PolicySync.SamePlanSameFile | crates/maknae-config/src/mirror.rs:279-318 | a mirror planned for install over two files is over one file |
| PolicySync.Host.AwaitMirror | bins/maknae/src/policy_sync.rs:152-166 | the poll loop ends with the first mirror or error, or the last read |
| PolicySync.AwaitPolls | bins/maknae/src/policy_sync.rs:152-166 | reads follow each other while there is no mirror, up to the polls allowed and one more; the first error or mirror ends them |
| PolicySync.NoMirrorIffNeverThere | bins/maknae/src/policy_sync.rs:152-166 | a sync finds no mirror exactly when none of its reads did: one at a terminal, twenty-one otherwise |
| PolicySync.LateMirrorIsTaken | bins/maknae/src/policy_sync.rs:152-166 | a mirror that appears at any poll, the last read included, is the one the sync goes on with |
| PolicySync.Host.StillAsPlanned | bins/maknae/src/policy_sync.rs:232-253 | the second look computes the specified verdict |
| PolicySync.Host.ConfirmConflicts | bins/maknae/src/policy_sync.rs:255-283 | conflicts are accepted only by an answer at a terminal |
| PolicySync.Host.RunSync | bins/maknae/src/policy_sync.rs:293-427 | the sync, step by step, computes the specified run and publishes what it says and no more |
| PolicySync.ExitsZeroIffPublished | bins/maknae/src/policy_sync.rs:293-438 | the exit code is 0 exactly when a document was published, never more than one, and never with check |
| PolicySync.EveryPublishIsJustified | bins/maknae/src/policy_sync.rs:232-427 | whatever changes between its reads, a run publishes only the mirror it planned with and read again; over bindings only the ones it planned against, unattended only when the mirror tightens them and lists no conflict; without bindings, unattended only over a file missing both times |
| PolicySync.StillSyncOutcome | bins/maknae/src/policy_sync.rs:293-427 | in a world that stands still, the outcome case by case: another configuration directory, nothing to install, a restore, no bindings key, a changed base, failed lookups, an administrator needed and for which entries, conflicts, and an install exactly otherwise |
| PolicySync.EveryRefusalHasItsCause | bins/maknae/src/policy_sync.rs:232-427 | whatever changes between its reads, each refusal of a run has happened: an unreadable input, another directory, a failed print, two different mirrors or files, a conflict without a terminal, an answer that was no, a failed lookup or publish |
| PolicySync.ShownBeforePublished | bins/maknae/src/policy_sync.rs:293-427 | nothing is published, and no check speaks of installing, before every line that shows the change, and the question or warning after it, was printed |
| PolicySync.ExitCodesTellOutcomesApart | bins/maknae/src/policy_sync.rs:429-438 | each of the six exit codes stands for exactly its outcomes |

## Left out

- Vault clients, sealing, TLS and keychains: foreign code; only the result of the provider call is kept.
- Wall-clock deadlines: a deadline is a schedule that runs out.
- Zeroization and buffer capacity in render.rs and plane.rs: not observable here.
- Routing of a call and rendering of a tool outcome: functions the loop is given.
- Diagnostic events of the plane: emitted between a prompt and its match, they decide nothing.
- `prompt_cap` of budget.rs, and the conversation id and home of a session: they enter no property here.
- Deputy: the threads are one state machine on values, not objects sharing memory; each label is one atomic step.
- Deputy: a panic of the accept loop itself is not modelled.
- Frames.ReadBody: authentication and decoding of the body are steps of `Deputy` that may fail.
- DiffText.HeaderRoundTrip: digits are ASCII, while the source's pattern also takes other decimal digits.
- Reading diffs and mutant lists from files, and the git, cargo and dep-info parts of the gates: subprocess plumbing.
- Mask.MaskNoncode: the alphanumeric test is a parameter, so the claims hold for any.
- CfgLex.LexSource: line numbers of tokens and the texts of error messages are dropped.
- `evaluate` of platform-gated.py and its item scanner: case tables and file resolution.
- Glob.MatchesIsLoose: the regular expression is its meaning, not the escaped text it is built from.
- Closures.Select: the owner of a path is a function it is given; the trust check of a pull request's history, the order of the result and its reason text are dropped.
- PolicySync.Host.RunSync: what is printed is only how many lines, and that each may fail; parsing, ownership checks and the rendering of the installed text are not modelled.
- PolicyBindings.FindLoosenings: a lookup is a function of the name, and names are looked up in any order.
- login.rs, cli.rs, stderr.rs, tty.rs, reseed.rs, listen.rs and the kernel crates: easy members only.
