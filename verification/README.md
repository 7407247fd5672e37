# Verified models of mcontrol

mcontrol is a motor-control daemon with a serial driver for MDrive motors and a
small compiler for their microcode. This project models the parts of it whose
correctness rests on an argument that spans several functions, and proves those
arguments. C and stateful Python code is modelled by classes whose methods
update fields, arrays and linked nodes in place; each method is proved against a
function or predicate on values, and the properties are proved of those. Code
that runs concurrently is modelled as a state machine, one step for each atomic
action, and its properties hold over every run.

| component | files |
|---|---|
| worker queue and scheduler (`daemon/worker.c`, `daemon/scheduler.c`) | WorkerQueue, WorkerProtocol, Scheduler |
| timer list and thread (`lib/callback.c`, `tsAdd` of `lib/message.c`) | Timespec, TimerList, TimerProtocol, TimerSafety |
| serial link (`drivers/mdrive/serial.c`) | ReplyParser, ReplyVerdicts, ReplyBuffer, ReplyChunks, ReplyRoundTrip, ReplyRefusals, EchoedReplies, CombinedReplies, ReplyReader, RefusalReader, ReplyThread, ReaderRoom, EventCuts, CheckedEvents, Transaction, TransactionSafety, TransactionRetries, TransactionReplies |
| microcode preprocessor (`parse.py`) | Preparser, Conditionals, Pragmas |
| parsing engine (`pyPEG.py`) | Regexes, Peg, PegEngine, PegLaws |
| microcode grammar and compiler (`grammar.py`, `compiler.py`, `mcodepp.py`) | Grammar, Reader, Descent, StatementReader, Microcode, Reprint, PrintParse, ProgramRoundTrip, ParseResults, Compiler, CompiledPrograms, NameKinds, Publishing, Republishing |
| motion and profile (`drivers/mdrive/motion.c`, `drivers/mdrive/profile.c`) | Motion, Profile, ProfileRepeats, Projection, Completion, PeaklessMoves |
| tables in arrays (`lib/trace.c`, `lib/motor.c`, `lib/locks.c`) | Slots, TraceMask, Trace, Motors, Locks |
| test scripts (`lib/python/cli/modules/test.py`) | Script |

`dafny verify dfyconfig.toml` checks everything.

## Where the code does not do what it is for

The models follow the code. Where a property turned out false of the code, the
project holds a concrete counterexample and the exact condition under which the
property is true.

* The timer thread reads the head of the list twice after it has released the
  lock (`lib/callback.c:96-98`). An insertion or a cancellation in between makes
  it call a timer twice and drop one that was due, call one that is not due, call
  one timer's function with another's argument, or read an empty list:
  `TimerSafety.RaceFiresTwice`, `RaceFiresEarly`, `RaceMixesCalls` and
  `RaceReadsEmptyList` are such runs. `WindowStepKeepsHeadIff` and `CycleExact` say exactly when it goes well,
  and `GentleRunsAreQuiet` what of callers is enough over a whole run.
* The `skip` stack of the preprocessor is a bitwise or of whatever the conditions
  evaluate to; a name defined without a value makes the `#else` of its `#if`
  fault (`Conditionals.ElseOfUnvaluedName`). An `#elseif` that raises is a fault,
  although an `#if` that raises counts as false (`ElseIfThatRaises`).
  `ConditionalCompilation` says exactly when a tree is processed without a fault.
* Compiled text does not always read back. A negative number without a unary
  operator comes back as a minus and a number; an assignment to `CL` or `BR`
  whose first value starts with a name comes back as a call or branch, or not at
  all; a bare command `RT` comes back as a return. `PrintParse.Reread` is exactly
  what comes back, and `Stable` exactly when it is what was written. Only the
  second case arises from text the grammar has read and the compiler accepts
  (`CompiledPrograms.EmittedStatementReadsBack`).
* A command that takes labels turns a declared variable into a label without a
  word (`compiler.py:181-188`), so that a variable can be called
  (`VariableCanBeCalled`; `CalledVariableWasForced` is the converse).
* The output of a program need not be accepted again. Publishing moves the lines
  that start with `VA` to the front (`parse.py:34-38`), so that a line that starts
  with the value of a label makes the name a variable too early
  (`Republishing.OutputCanBeRefused`); and an assignment to `CL` or `BR` that is
  read back as a jump needs a label where the first compilation saw a value
  (`CallsAsRead`). `PublishingIsFinalIff` is the exact condition under which the
  text, parsed, compiled and published once more, comes out the same. A file made
  with a single call of `compose`, as in `make.py:45`, has none of the lines that
  start with `VA` (`Publishing.MadeFileIsWholeIff`).
* The reader stamps a response with the transaction id of the moment it is
  complete (`serial.c:590`). A reply to the first frame of a call that is read
  after the retry was sent is returned as the answer to the retry
  (`TransactionSafety.LateReplyIsReturned`); `ResultsAnswerLastFrame` says when
  that cannot happen.
* A profile write that the unit carries out but whose answer is lost leaves the
  cache wrong (`Profile.SetKeepsCoherenceIff`). A load that succeeds between two
  setters makes a repeated profile write again the values that it rounded
  (`ProfileRepeats.LateLoadSendsNothingIff`, `LateLoadWritesAgain`). A load keeps
  the currents in a byte (`Profile.LoadIsCoherentIff`).
* The reschedule of a completion callback can ask for a time the timer list
  refuses, when the latency is under two milliseconds; the refusal is ignored
  and the move is awaited for ever (`Completion.NextDeadlineIsValidIff`,
  `RescheduleCanBeRefused`, `RefusedDeadlineIsStuck`).
* A short move of less than `vstart^2 / (2 accel)`, such as an absolute move to
  the present position with a start velocity, has no peak velocity: the number
  under the root of `motion.c:180` is negative, the projected time is no number,
  its deadline is refused and the move is awaited for ever
  (`Projection.PeakNeedsDistance`, `PeaklessMoves.PeaklessMoveIsStuck`).
* `mcTraceWrite` makes the slot of a vanished client inactive but does not count
  it off, so `subscriber_count` is the number of active slots plus the clients
  lost this way. An id that is unsubscribed twice is counted off twice, and the
  table then loses its sentinel (`Trace.UnsubscribedTwice`). The array of locks
  loses its terminator when it is full (`Locks.Driver.Lock`).
* Any other short move covers less than the distance asked for, by exactly
  `vstart^2 / accel` (`Projection.ShortMoveDeficit`).
* A `call` of an undefined label leaves its return address on the stack
  (`Script.UndefinedCallLeavesEntry`).
* A reply is not received the same in whatever pieces it comes. A read that ends
  where a dollar sign stands alone makes the reader take it for a reboot
  (`ReplyReader.ReplyIsDelivered` has the exact positions); and a reply with
  more bytes behind it in the same read is freed instead of queued
  (`FollowedReplyIsFreed`). An event report cut by a read is received right
  only for three cuts and under conditions (`EventCuts.EventCutIsHarmlessIff`).
* Only a response that is queued resets the reader's pointers. Event reports use
  the buffer up, and a reader without room hears nothing more
  (`ReaderRoom.EventsDeafen`, `CutOffReplyDeafens`, `DeafForever`);
  `ReplyFitsIff` says when a reply still gets through and frees the buffer.
* The checksum of a reply that comes behind the echo of its command is never
  recognised: it becomes part of the payload, and the reply is a bad checksum or,
  if the echo had a checksum, passes for good (`EchoedReplies.EchoedReplyIsGarbled`,
  `EchoedReplyIsReported`). An event report with a checksum gets a length of 127
  (`CheckedEvents.CheckedReportHasNoLength`). Two responses whose text does not fit
  one buffer are combined to a length that counts what was cut off
  (`CombinedReplies.CombinedTextIff`).
* A silent call that has drawn its only or last try reports an I/O error although
  nothing failed (`TransactionRetries.WithoutResult`).
* Micro-revolutions whose step count exceeds 32 bits do not survive the
  conversion (`Motion.MicrorevsRoundTrip`), and a microstep setting of zero is
  divided by (`Motion.Device.StepsToMicrorevs`).
* The line number at the very offset of the last line depends on the number of
  lines (`PegEngine.LineNo`).

## Model

| member | source | states |
|---|---|---|
| WorkerQueue.Worker.Append | daemon/worker.c:88-107 | the message goes to the end of the linked list, which stays well linked, and the length counter equals its length |
| WorkerQueue.Worker.Dequeue | daemon/worker.c:116-132 | the head and nothing else is unlinked; an empty queue is refused and unchanged |
| WorkerProtocol.Conservation | daemon/worker.c:88-132 | over every run, completed messages followed by the queue are the enqueued ones in order, and exactly the dispatchable completed ones were dispatched |
| WorkerProtocol.NoLostWakeup | daemon/worker.c:36-53 | a worker blocked on a non-empty queue always has the producer between its unlock and its signal, with length one, so the signal is still to come |
| WorkerProtocol.SignalledIffSingle | daemon/worker.c:88-107 | in every run the producer signals if and only if it finds a single message in the queue |
| WorkerProtocol.FailedWaitEndsWorker | daemon/worker.c:50-62 | a worker whose wait reports an error frees the lock and is gone for good: in any further run messages are only enqueued |
| WorkerProtocol.StepLowersRank | daemon/worker.c:31-62 | while work is queued every step but a new arrival lowers the amount of work left |
| WorkerProtocol.WorkIsNeverStuck | daemon/worker.c:31-62 | while work is queued and the worker lives, some step other than an arrival or a spurious wakeup is possible |
| WorkerProtocol.QueueDrains | daemon/worker.c:31-62 | from every reachable state a run without arrivals can only be as long as the rank before the queue is empty |
| Scheduler.ScheduleLeastBusy | daemon/scheduler.c:19-44 | the scan picks the first live worker with the shortest queue and enqueues there and nowhere else |
| Scheduler.SchedulingKeepsBalance | daemon/scheduler.c:19-44 | any number of enqueues keeps the live queues within one message of each other |
| Timespecs.TsAdd | lib/message.c:82-91 | the sum has the total nanoseconds of the operands, even when written over one of them |
| Timespecs.SumRange | lib/message.c:82-91 | nanoseconds in 0..1e9 stay in 0..1e9, and when the result misses being normal |
| Timespecs.OrderAgrees | lib/callback.c:153-156 | the order the list is searched with is the order of total nanoseconds, up to the tie at 1e9 |
| TimerList.InsertCut | lib/callback.c:149-182 | an insertion goes after everything no later and before everything later, so equal times stay in arrival order |
| TimerList.CallbackList.Schedule | lib/callback.c:129-184 | a bad time is refused; otherwise the doubly linked list, well formed both ways, becomes the old sequence with the timer inserted, under a fresh id |
| TimerList.CallbackList.Dequeue | lib/callback.c:209-237 | the entry of that id, wherever it is, is unlinked both ways, or nothing changes |
| TimerList.CallbackList.Pop | lib/callback.c:43-54 | exactly the first entry is unlinked |
| TimerSafety.ListAndDeadlineSafety | lib/callback.c:43-109 | in every run the list is in time order, stable for equal times, with unique ids; only invalid times were dropped; a waiting thread with no signal coming does not sleep past the head |
| TimerSafety.ChangesAreSignalled | lib/callback.c:129-237 | over every run the signals sent are the insertions and the successful cancellations, less those still to come |
| TimerSafety.FiresAtMostOnce | lib/callback.c:86-103 | when both reads in the unlocked window find the head, every call is of one timer's function with its own argument, no timer fires twice, a fired one is gone once its callback has returned, and the thread never reads an empty list |
| TimerSafety.FiresOnlyDueAndEarliest | lib/callback.c:86-98 | when the head is kept, only a due timer fires, and none listed is earlier |
| TimerSafety.WindowStepKeepsHeadIff | lib/callback.c:93-98 | a caller's step between the unlock and the second read keeps the head if and only if it neither cancels it nor inserts an earlier timer |
| TimerSafety.GentleRunsAreQuiet | lib/callback.c:86-103 | over every run in which no caller cancels the noted timer or inserts one before the head up to the second read, both reads find the noted head, no timer fires twice or with another's argument, and the thread never reads an empty list |
| TimerSafety.CycleExact | lib/callback.c:93-103 | one timer is called in whole and is the one removed afterwards if and only if both reads found the noted head |
| TimerSafety.RaceFiresTwice | lib/callback.c:97-103 | a run in which an inserted timer is called twice and the due one is removed uncalled |
| TimerSafety.RaceFiresEarly | lib/callback.c:97-98 | a run in which a timer that is not due is called |
| TimerSafety.RaceMixesCalls | lib/callback.c:97 | a run in which one timer's function is called with another's argument |
| TimerSafety.RaceReadsEmptyList | lib/callback.c:97 | a run in which the thread reads the head of an empty list |
| ReplyParser.ChecksumAcceptedIff | drivers/mdrive/serial.c:180-205 | a checksum is accepted if and only if it covers something, has its high bit set, and sum plus checksum is 0 modulo 128 |
| ReplyParser.RefusalIsOkIffStall | drivers/mdrive/serial.c:225-318 | in checksum mode a refusal counts as success exactly if the reply is empty or has a good checksum and its code, or the one the nested query gives an outermost call that heeds errors, is a stall |
| ReplyVerdicts.StatusIff | drivers/mdrive/serial.c:225-318 | each of the six statuses, exactly, by the error in force (the code of the reply, or the fetched one for an outermost call that heeds errors), the flags, the payload and the checksum mode |
| ReplyVerdicts.ClassifiedReply | drivers/mdrive/serial.c:225-318 | what classifying changes: the error in force is noted if it is looked at, a sound refusal is marked as an error, and the checksum mode is that of the reboot or is switched on by a lone NACK |
| ReplyBuffer.CalcChecksum | drivers/mdrive/serial.c:180-194 | the eight-bit loop computes the negated sum with the high bit set |
| ReplyBuffer.Response.ProcessByte | drivers/mdrive/serial.c:335-500 | one turn of the parser's switch, on the struct in place, is one step of the parser |
| ReplyBuffer.Response.ProcessResponse | drivers/mdrive/serial.c:320-505 | one call of the parser updates the struct to the result of the parser on values, and returns the bytes consumed |
| ReplyBuffer.Response.CombineWith | drivers/mdrive/serial.c:622-643 | another response of the same transaction is appended in place; one of another transaction changes nothing |
| CombinedReplies.CombinedMarks | drivers/mdrive/serial.c:622-643 | a mark of either response is a mark of the two combined, but for those that end or concern the second text only; the later error code counts; another transaction's response changes nothing |
| CombinedReplies.CombinedTextIff | drivers/mdrive/serial.c:622-643 | combined text is the payload followed by as much of the other text as leaves room for the terminator, but its length counts all of it: the payload is the two together if and only if they fit |
| ReplyChunks.ChunkIndependence | drivers/mdrive/serial.c:320-505 | feeding m bytes and then n gives exactly the state, and the bytes consumed, of feeding m + n at once |
| ReplyChunks.OpenReplyConsumesAll | drivers/mdrive/serial.c:320-505 | outside event reports a call that leaves the reply open consumes exactly its bytes |
| ReplyChunks.PiecesOfOneResponse | drivers/mdrive/serial.c:320-505 | a response of fewer than 128 bytes that only the last call closes ends as if it were fed at once, however many calls feed it |
| EventCuts.WholeReport | drivers/mdrive/serial.c:400-457 | an event report that arrives whole gives back its address and its code |
| EventCuts.EventCutIsHarmlessIff | drivers/mdrive/serial.c:320-505 | for every memory, address and code, the cuts of an event report that do not change the response: after the mark; after the quote if the address is NUL; after the address if the byte two places on in the buffer is an error mark; no other |
| CheckedEvents.CheckedReportHasNoLength | drivers/mdrive/serial.c:388-413 | an event report with a checksum keeps its address and code, and gets the length of a text of 127 characters although it has none |
| ReplyRoundTrip.ReplyRoundTrip | drivers/mdrive/serial.c:320-505 | ACK, payload, checksum, CR, LF gives back the payload with ack, good checksum and line end, and everything is consumed |
| ReplyRoundTrip.RecoveredIffCarriable | drivers/mdrive/serial.c:320-505 | among printable payloads exactly those of 1 to 62 characters without `?`, not starting with `>` or `!`, are cleanly received |
| ReplyRoundTrip.SplitReplyRecombines | drivers/mdrive/serial.c:622-643 | split after the ACK and combined, a reply has the payload, flags, counters and every classification of the whole one |
| ReplyRefusals.WireIsReceived | drivers/mdrive/serial.c:320-505 | every reply of a mark (ACK, NACK or none), a payload, the digits of an error code, a checksum or none and a line end is consumed whole and gives back mark, payload, code and flags |
| ReplyRefusals.RefusalAlone | drivers/mdrive/serial.c:388-427 | a single NACK is received as a refusal, not as an acknowledgement, without text |
| ReplyRefusals.RefusalIsReported | drivers/mdrive/serial.c:225-318 | in checksum mode a command refused by a single byte has the status of the error that the unit gives: carried out for a stall only |
| ReplyRefusals.RefusalWithPayloadIsReported | drivers/mdrive/serial.c:225-318 | the same for a refusal with a payload and a checksum, by its own code if it has one |
| ReplyRefusals.CodeIsReported | drivers/mdrive/serial.c:225-318 | out of checksum mode a reply with an error code has the status of that error, and one without is carried out |
| ReplyRefusals.CodeEndsAtText | drivers/mdrive/serial.c:429-497 | the digits of a code end at the first other character; digits behind it are payload |
| ReplyRefusals.PromptIsStripped | drivers/mdrive/serial.c:366-387 | a prompt before the line end is noted and taken off the payload; without a payload it is not noted |
| ReplyRefusals.SplitWireRecombines | drivers/mdrive/serial.c:622-643 | a reply whose mark was read alone has, combined, the payload, flags, code, count and verdict of the whole one, acknowledged or refused |
| EchoedReplies.EchoedReplyIsGarbled | drivers/mdrive/serial.c:388-425 | behind an echo, with its own checksum or without, the checksum of the reply is not recognised and ends up in the payload; nothing of the echo does |
| EchoedReplies.EchoedReplyIsReported | drivers/mdrive/serial.c:225-318 | in checksum mode such a reply is carried out if the echo had a checksum, and has a bad checksum if not |
| ReplyReader.PieceReceived | drivers/mdrive/serial.c:545-604 | one read of the next bytes of a reply: the whole reply is queued, or the ACK on its own, or a lone dollar sign as a reboot, or nothing yet |
| ReplyReader.ReplyIsDelivered | drivers/mdrive/serial.c:520-610 | for every partition of a carriable reply into reads that fit behind the load pointer, to a reader that is idle or has begun a response in an earlier transaction, the queue gets the whole reply, or the ACK and the rest if a read ends right after the ACK, and the reader is idle again with its buffer reset, if and only if no read ends where a dollar sign stands alone |
| ReplyReader.DeliveredReplyIsOk | drivers/mdrive/serial.c:622-643 | queued whole or in two and combined, the reply has the payload and is OK on every link |
| ReplyReader.FollowedReplyIsFreed | drivers/mdrive/serial.c:581-604 | a reply with more bytes behind it in the same read is queued only if they are one prompt, error mark or ACK; otherwise it is freed and the reader goes on behind it |
| RefusalReader.WireIsQueued | drivers/mdrive/serial.c:545-604 | any such reply read whole, whatever its mark and code, is queued as it was sent and the reader is idle with its buffer empty |
| RefusalReader.MarkIsQueued | drivers/mdrive/serial.c:581-604 | an ACK or a NACK that is read alone is queued at once |
| RefusalReader.MarkedReplyIsDelivered | drivers/mdrive/serial.c:545-643 | read whole or cut behind its mark, a reply is queued as one response or two, and the two combined have the payload, code and verdict of the one |
| ReaderRoom.ReplyFitsIff | drivers/mdrive/serial.c:545-604 | the reads of a reply to an idle reader fit if and only if the whole reply fits behind what is loaded, or one byte does and the ACK is read alone |
| ReaderRoom.CutOffReplyDeafens | drivers/mdrive/serial.c:545-604 | a reply that does not fit fills the buffer and leaves the reader without room and with nothing to parse |
| ReaderRoom.DeafForever | drivers/mdrive/serial.c:545-604 | such a reader reads, queues and reports nothing in any further run, whatever the transactions |
| ReaderRoom.EventReceived | drivers/mdrive/serial.c:581-604 | an event report read whole is reported, and its bytes stay in the buffer |
| ReaderRoom.EventAmongOthers | drivers/mdrive/serial.c:581-604 | an event report with more bytes behind it in the same read is reported, not freed, and the reader goes on behind it |
| ReaderRoom.EventsDeafen | drivers/mdrive/serial.c:581-604 | event reports alone bring the reader there once they fill the buffer |
| ReplyThread.AsyncReader.Read | drivers/mdrive/serial.c:545-606 | one turn of the thread's loop, on its buffer and pointers in place, is one read of the reader on values |
| ReplyThread.AsyncReader.Close | drivers/mdrive/serial.c:581-604 | a complete response is reported, queued with the pointers reset, or freed, and replaced |
| TransactionSafety.CallsAreSafe | drivers/mdrive/serial.c:752-1008 | every finished call, nested or not, copied out only a response that carries the id of its own last transmission, drew at most its tries of increasing ids, and restored the nesting count and both locks |
| TransactionSafety.ResultsAnswerLastFrame | drivers/mdrive/serial.c:800-990 | over every run in which, while a call is in progress, no reply to a frame comes in after a later id was drawn, a result holds replies to the last frame of its call and to no other |
| TransactionSafety.LateReplyIsReturned | drivers/mdrive/serial.c:581-604 | the run in which the reply to the first frame is returned, with status OK, as the answer to the second |
| TransactionSafety.TransmissionsAreDistinct | drivers/mdrive/serial.c:800-830 | frames go out under strictly increasing ids, whichever call sends them |
| TransactionRetries.WhatIsHandedOut | drivers/mdrive/serial.c:916-1007 | in every run a call that does not expect errors hands out a response only with status OK, or ERROR and a code, or because it waited for data and got an acknowledgement with an error code |
| TransactionRetries.WhenSentAgain | drivers/mdrive/serial.c:818-984 | a judgement of OK, or of ERROR with a code, or any if errors are expected, is the last one, is what the call returns and is followed by no further id; after any other an id is drawn again unless all tries were |
| TransactionRetries.WithoutResult | drivers/mdrive/serial.c:818-1000 | a call without a result has drawn all its tries, or its last write failed, or it was silent and wanted no data; in the last case it says IOERROR instead of OK if that was its last try |
| TransactionRetries.AcknowledgementsAreWaitedOut | drivers/mdrive/serial.c:916-930 | where data is expected, a bare acknowledgement without a code is judged only after a timeout |
| TransactionReplies.WhatIsDecided | drivers/mdrive/serial.c:916-947 | when a response to the current frame ends the call, is waited on or is judged, exactly, and that nothing but an echo is dropped |
| TransactionReplies.NewestIsTaken | drivers/mdrive/serial.c:873-891 | the newest response is taken, combined with what the call already has, and the others stay |
| TransactionReplies.OnlyOutermostFlushes | drivers/mdrive/serial.c:807-816 | in every run the outermost call starts with an empty queue and a nested one leaves the queue alone |
| TransactionReplies.CombinedIsCombine | drivers/mdrive/serial.c:622-643 | how a call joins two responses is how the parser combines them |
| TransactionReplies.AnsweredInTwo | drivers/mdrive/serial.c:842-984 | the run in which an acknowledgement is waited on and the data behind it is handed out after one frame |
| TransactionSafety.NoSelfDeadlock | drivers/mdrive/serial.c:840-990 | the receive lock is free whenever a call is about to take it, and nothing is held when no call is in progress |
| Preparser.Machine.VisitNode | drivers/mdrive/microcode/compile/parse.py:89-168 | one node changes the stacks, the environment and the output exactly as the machine on values does, faults included |
| Preparser.Machine.Parse | drivers/mdrive/microcode/compile/parse.py:81-88 | a whole tree is visited, and an `#if` left open is refused |
| Conditionals.FlatIsWalk | drivers/mdrive/microcode/compile/parse.py:89-168 | on a flattened tree, in any state and whatever follows, the machine is exactly the walk through the nested tree |
| Conditionals.SkippedIsSilent | drivers/mdrive/microcode/compile/parse.py:103-105 | under a skipped branch nothing is emitted and nothing is defined |
| Conditionals.NothingSkipped | drivers/mdrive/microcode/compile/parse.py:90-168 | where nothing is skipped a line is emitted, and a definition binds its name, and no other, to the value of its text, or to None without one; a text that raises is a fault |
| Conditionals.WalkIsDirect | drivers/mdrive/microcode/compile/parse.py:112-168 | a walk that does not fault takes the first true branch of every conditional and no other |
| Conditionals.FlatMachineIsDirect | drivers/mdrive/microcode/compile/parse.py:81-168 | the flat machine faults exactly when the walk does, and otherwise ends with its stacks restored and the output and environment of the direct meaning |
| Conditionals.ConditionalCompilation | drivers/mdrive/microcode/compile/parse.py:81-168 | for every tree and evaluator, raising conditions included, the machine succeeds if and only if no `#elseif` and no definition that is reached raises and no value that is not an integer decides an `#else` over a line or definition; the result is then the direct meaning |
| Conditionals.ElseIfThatRaises | drivers/mdrive/microcode/compile/parse.py:123-133 | an `#elseif` that raises is a fault although its direct meaning is false |
| Conditionals.ElseOfUnvaluedName | drivers/mdrive/microcode/compile/parse.py:136-143 | a name defined without a value makes the first line under `#else` fault |
| Pragmas.AcceptedIffPlaced | drivers/mdrive/microcode/compile/parse.py:89-168 | with integer conditions a stream of lines and pragmas, nested or not, is processed without a fault if and only if every elseif, else and endif has an open if and every pragma is known; otherwise the fault is that of the first misplaced one; the depth is the ifs less the endifs |
| Pragmas.ConditionCounts | drivers/mdrive/microcode/compile/parse.py:107-146 | a condition counts if its integer is not zero, or as Python takes another value, and not if it raises; the line under if comes out, or else the one under else |
| Peg.ParseLine | drivers/mdrive/microcode/compile/pyPEG.py:97-256 | for grammars without left recursion and without empty repetition the engine terminates; a success leaves a suffix, a proper one when the pattern consumes |
| PegEngine.Parser.ParseLine | drivers/mdrive/microcode/compile/pyPEG.py:97-256 | on heap lists, a success appends exactly the new match in place and a syntax error leaves the caller's list as it was |
| PegEngine.LineNo | drivers/mdrive/microcode/compile/pyPEG.py:258-287 | the binary search finds the line that holds the position, or the empty answer in the last line; at the very offset of the last line it is one or the other by the second binary digit of the number of lines plus one |
| PegLaws.LookAhead | drivers/mdrive/microcode/compile/pyPEG.py:97-256 | a look ahead consumes and adds nothing, and holds exactly where its pattern parses, or, negated, where it does not |
| PegLaws.FirstThatParses | drivers/mdrive/microcode/compile/pyPEG.py:97-256 | a choice is its first option that parses, and fails if and only if all do |
| PegLaws.AsManyAsThereAre | drivers/mdrive/microcode/compile/pyPEG.py:97-256 | a repetition is as many of its pattern as there are, and behind the last the pattern does not parse |
| PegLaws.OneMore | drivers/mdrive/microcode/compile/pyPEG.py:97-256 | so many of a pattern and one more are the parts one behind the other |
| PegLaws.Counted | drivers/mdrive/microcode/compile/pyPEG.py:97-256 | what each count of a part stands for: so many, one or none, any number, at least one |
| PegLaws.Words | drivers/mdrive/microcode/compile/pyPEG.py:97-256 | a literal is its text, and a keyword exactly the whole word that stands there |
| Regexes.GreedyIsBacktracking | drivers/mdrive/microcode/compile/grammar.py:24-54 | a sequence of runs whose neighbours are disjoint matches greedily exactly what a backtracking matcher finds |
| Grammar.RegexesAreSeparated | drivers/mdrive/microcode/compile/grammar.py:24-54 | all of the grammar's regular expressions are of that kind |
| Grammar.GrammarIsWellFormed | drivers/mdrive/microcode/compile/grammar.py:24-56 | the microcode grammar has no left recursion and repeats nothing empty |
| Descent.ExpressionRead | drivers/mdrive/microcode/compile/grammar.py:40-45 | on every text the engine reads an expression as the recursive-descent reader does: optional unary, atom, optional operator with a right-hand expression |
| Descent.BlanksAreSkipped | drivers/mdrive/microcode/compile/grammar.py:1-56 | any spaces and tabs are skipped where the grammar allows white space, and at least one is needed where it asks for it |
| StatementReader.StatementRead | drivers/mdrive/microcode/compile/grammar.py:26-48 | on every text the engine reads a statement as the recursive-descent reader does: the first of seven kinds that matches, then a comment or line end |
| StatementReader.AssignmentRead | drivers/mdrive/microcode/compile/grammar.py:29-30 | the assignment rule, written out as a reader |
| StatementReader.JumpRead | drivers/mdrive/microcode/compile/grammar.py:36-37 | the call and branch rules, written out as a reader |
| Microcode.NormalizeFixesNormal | drivers/mdrive/microcode/compile/grammar.py:32-44 | moving bare minus signs into the unary changes an expression if and only if it has one, and always gives one without |
| Reprint.ExpressionReprint | drivers/mdrive/microcode/compile/compiler.py:232-258 | the text of any expression, followed by a comma or line end, reads back as its normal form and not a character more |
| PrintParse.StatementReprint | drivers/mdrive/microcode/compile/compiler.py:166-325 | the text of any statement reads back as exactly what `Reread` says, or as no statement |
| PrintParse.RereadIsIdentityIffStable | drivers/mdrive/microcode/compile/compiler.py:166-325 | what comes back is the statement itself if and only if it is stable |
| PrintParse.ExprNodeInjective | drivers/mdrive/microcode/compile/pyPEG.py:103-129 | different expressions have different syntax trees |
| ProgramRoundTrip.StatementRoundTripIff | drivers/mdrive/microcode/compile/compiler.py:166-325 | the text of a statement parses to its own tree, with nothing else consumed, if and only if it is stable |
| ProgramRoundTrip.ProgramReread | drivers/mdrive/microcode/compile/grammar.py:50-56 | the text of any program parses, to its last character, to the trees of what each of its statements reads back as, or, if one of them is no statement when read, not to its end |
| ProgramRoundTrip.ProgramRoundTripIff | drivers/mdrive/microcode/compile/grammar.py:50-56 | the text of a program parses, to its last character, to the program's own trees if and only if every statement is stable |
| ParseResults.ExpressionParsed | drivers/mdrive/microcode/compile/grammar.py:40-45 | every expression read from a text without `$` is the tree of a lexically correct expression in which no bare number is negative |
| ParseResults.StatementParsed | drivers/mdrive/microcode/compile/grammar.py:26-48 | every statement read from a text without `$` is the tree of a lexically correct statement, stable unless it is one of the misread assignments |
| Compiling.Compiler.VisitExpression | drivers/mdrive/microcode/compile/compiler.py:232-258 | the visitor puts the expression's text on the caller's frame, whatever is below, and notes its names |
| Compiling.Compiler.VisitJump | drivers/mdrive/microcode/compile/compiler.py:303-319 | calls and branches: text, label table and errors |
| Compiling.Compiler.VisitLabel | drivers/mdrive/microcode/compile/compiler.py:260-276 | labels: redefinition, internal names and use as a variable are refused, otherwise the label is defined and current |
| CompiledPrograms.LabelRefusedAs | drivers/mdrive/microcode/compile/compiler.py:260-276 | which error a label statement raises, exactly: used as a variable, defined before, internal, in this order; otherwise the label is defined and current and nothing else changes |
| Compiling.Compiler.VisitDeclaration | drivers/mdrive/microcode/compile/compiler.py:207-219 | declarations: text, variable table and errors |
| Compiling.Compiler.VisitAssignment | drivers/mdrive/microcode/compile/compiler.py:173-205 | assignments: text with or without the equals sign, label arguments converted, read-only and internal targets refused |
| Compiling.Compiler.Compile | drivers/mdrive/microcode/compile/compiler.py:127-132 | the lines of the program in order, or the first error; the block stack is always closed at the end |
| CompiledPrograms.LabelsAreDistinct | drivers/mdrive/microcode/compile/compiler.py:260-276 | an accepted program defines no label twice and none with an internal name |
| CompiledPrograms.NoVariableIsALabel | drivers/mdrive/microcode/compile/compiler.py:285-301 | in an accepted program no name is both declared and a label, in either order |
| CompiledPrograms.ReturnHasLabel | drivers/mdrive/microcode/compile/compiler.py:321-325 | in an accepted program a label stands before every return |
| CompiledPrograms.AssignedIsAssignable | drivers/mdrive/microcode/compile/compiler.py:189-196 | an accepted program assigns to nothing read-only and to no command without arguments |
| CompiledPrograms.CalledVariableWasForced | drivers/mdrive/microcode/compile/compiler.py:181-188 | an accepted program jumps to a declared variable only if a command that takes labels was given it in between |
| CompiledPrograms.VariableCanBeCalled | drivers/mdrive/microcode/compile/compiler.py:181-188 | with any such command, that program is accepted for every name but the command's own |
| CompiledPrograms.EmittedStatementReadsBack | drivers/mdrive/microcode/compile/compiler.py:166-325 | with the grammar's words, a statement that was read and accepted reads back from its text as the same tree, if and only if it is not CL or BR assigned an expression that starts with a name |
| CompiledPrograms.OutputReadsBackIffStable | drivers/mdrive/microcode/compile/parse.py:29-32 | the compiled lines, in the program's order, read back to the trees they came from if and only if the program is stable |
| NameKinds.StatementByName | drivers/mdrive/microcode/compile/compiler.py:166-325 | a statement is accepted exactly when it is allowed and its own name fits, and every name's entry is then what the statement alone makes of it |
| NameKinds.AcceptedByName | drivers/mdrive/microcode/compile/compiler.py:127-325 | a program is accepted if and only if every statement is allowed and every name, on its own, is used consistently |
| Publishing.Compose | drivers/mdrive/microcode/compile/parse.py:34-38 | the lines on one side of the test, in order |
| Publishing.Publish | drivers/mdrive/microcode/mcodepp.py:7-24 | the published text is the listing of the reordered program, between PG 100 and PG unless it assigns PG itself |
| Publishing.PublishedIsFixed | drivers/mdrive/microcode/mcodepp.py:7-24 | publishing a published program changes nothing |
| Publishing.PublishedReadsBackIff | drivers/mdrive/microcode/mcodepp.py:7-24 | what is published reads back, to the last character, as the published program if and only if the program is stable |
| Publishing.MadeFileIsWholeIff | drivers/mdrive/microcode/make.py:45 | one call of compose writes the whole program if and only if no line starts with VA |
| Republishing.OutputReadsAs | drivers/mdrive/microcode/mcodepp.py:7-24 | the published text parses as one program only: what each statement reads back as, published; if a statement does not read back, the text does not parse |
| Republishing.PublishedName | drivers/mdrive/microcode/compile/compiler.py:173-319 | in a published program a name is refused if and only if the first statement that labels it, not forced before, meets a line that uses it as a variable and was moved, does not come later, or sets it |
| Republishing.RereadIsAcceptedIff | drivers/mdrive/microcode/compile/parse.py:34-38 | what the output of a program reads back as is accepted if and only if no name clashes so, as the statements read back, and every bare RT stands behind a label |
| Republishing.PublishingIsFinalIff | drivers/mdrive/microcode/mcodepp.py:7-24 | the published text, parsed, compiled and published once more, comes out the same if and only if that holds and no number with a minus sign of its own stands without a unary operator; what it parses as is refused if and only if that does not hold |
| Republishing.OutputCanBeRefused | drivers/mdrive/microcode/compile/parse.py:34-38 | a variable declared with the value of a label: published, stable, and not accepted again |
| Republishing.CallsAsRead | drivers/mdrive/microcode/compile/compiler.py:173-205 | an assignment of a declared variable to CL is published but not accepted again, and one of a label is published and comes out the same, though it reads back as a call |
| Motion.StepsNeverOverflow | drivers/mdrive/motion.c:564-577 | for every 32-bit step count no intermediate value overflows, and the remainder is less than one step's share |
| Motion.StepsRoundTrip | drivers/mdrive/motion.c:549-577 | steps to micro-revolutions and back keeps the sign, never overshoots, loses at most one step up to 1e6 steps per revolution, and nothing if and only if steps per revolution divides steps times 1e6 |
| Motion.TripsDrift | drivers/mdrive/motion.c:549-577 | n round trips lose at most n steps and keep the sign |
| Motion.TripsStopAtExact | drivers/mdrive/motion.c:549-577 | each trip loses exactly one step until the count converts exactly, and none from then on |
| Motion.MicrorevsRoundTrip | drivers/mdrive/motion.c:549-577 | for every product of 64 bits, micro-revolutions to steps and back keeps the sign, never overshoots, and loses less than one step's worth and one more, if and only if the step count fits 32 bits |
| Motion.Device.MicrorevsToSteps | drivers/mdrive/motion.c:549-562 | the settings are asked for once; a device that does not answer gives -EIO in place of a count |
| Motion.Device.StepsToMicrorevs | drivers/mdrive/motion.c:564-577 | the same in the other direction; no value exactly when the setting that is divided by is zero |
| Profile.Driver.SetVariable | drivers/mdrive/profile.c:71-221 | a setter loads, compares, checks and writes through as the setter on values does |
| Profile.Driver.SetProfile | drivers/mdrive/profile.c:223-237 | the eight setters in order, their statuses ignored |
| Profile.SetKeepsCoherenceIff | drivers/mdrive/profile.c:71-221 | a setter keeps cache and unit within a step of each other if and only if it sends no write that is carried out, unacknowledged, and more than a step away |
| Profile.SetSucceeds | drivers/mdrive/profile.c:71-221 | a setter that succeeds leaves the cache at the value and, if it wrote, the unit at exactly it; nothing else changes |
| Profile.SetStatusIff | drivers/mdrive/profile.c:71-221 | the status of a setter, exactly: no encoder, value out of range, write not acknowledged, or none of these; and that a write is sent in just the cases left |
| Profile.RunIsCoherent | drivers/mdrive/profile.c:24-221 | over every run in which no acknowledgement is lost the cache stays coherent |
| Profile.ProfileIsSet | drivers/mdrive/profile.c:223-237 | a profile set without error on a loaded cache is on the unit within a step everywhere, and setting it again sends nothing |
| Profile.LoadIsCoherentIff | drivers/mdrive/profile.c:24-69 | a load brings the cache within a step of the unit everywhere if and only if the unit's currents fit a byte |
| ProfileRepeats.LateLoadSendsNothingIff | drivers/mdrive/profile.c:24-237 | for the eight setters in order, set without error from an unloaded cache with the load first succeeding at setter k, setting the profile again sends nothing if and only if no value set before k differs from what the load made of it (and may be sent) |
| ProfileRepeats.NeverLoadedSendsNothingIff | drivers/mdrive/profile.c:24-237 | the same when the load succeeds only in the repetition, or never |
| ProfileRepeats.LateLoadWritesAgain | drivers/mdrive/profile.c:24-88 | at 51200 steps per revolution an acceleration of 20 set before a late load is sent again |
| Projection.LongMoveCoversDistance | drivers/mdrive/motion.c:218-254 | a move that reaches vmax has ordered phases at the profile's rates and covers the distance, but for what `vmax >> 1` drops |
| Projection.PeakBelowMax | drivers/mdrive/motion.c:174-190 | when the ramps meet the peak velocity is below vmax, so the error exit is never taken, whatever the cut of the distance to an int |
| Projection.PeakNeedsDistance | drivers/mdrive/motion.c:174-190 | the number under the root is not negative if and only if twice the distance times accel is at least vstart squared; otherwise there is no peak velocity |
| Projection.ShortMoveDeficit | drivers/mdrive/motion.c:174-190 | a short move that has a peak velocity falls short of the distance by exactly vstart squared over accel, so it covers it if and only if it starts from rest |
| Projection.ShortMoveOrderedIff | drivers/mdrive/motion.c:174-190 | exactly when the acceleration time of a short move that has a peak velocity is not negative |
| Completion.Normalize | drivers/mdrive/motion.c:466-469 | the borrowing loop keeps the total time and brings the nanoseconds into range |
| Completion.FirstDeadlineIsValid | drivers/mdrive/motion.c:446-474 | at every supported speed the first deadline is accepted unless it lies before the epoch |
| PeaklessMoves.FirstDeadlineIsValidIff | drivers/mdrive/motion.c:446-474 | for every projected time, negative ones included, the first deadline is accepted if and only if it does not fall before the epoch |
| PeaklessMoves.PeaklessMoveIsStuck | drivers/mdrive/motion.c:174-262 | a move without a peak velocity is accepted, its deadline is refused, and no event ends it unless another move or a stop does |
| PeaklessMoves.NoDistanceIsPeakless | drivers/mdrive/motion.c:222-244 | a move over no distance with a start velocity is such a move |
| Completion.NextDeadlineIsValidIff | drivers/mdrive/motion.c:393-420 | exactly when the deadline of another look is accepted; always from two milliseconds of latency on |
| Completion.RescheduleCanBeRefused | drivers/mdrive/motion.c:393-420 | a latency, a time and a rest of the move for which the deadline of another look is refused, and the move is then left pending by every run without a move or a stop |
| Completion.Device.Move | drivers/mdrive/motion.c:15-86 | the fields, timers and status after a move, by type and by what enabling, sending and scheduling answer |
| Completion.Device.CompletionCorrect | drivers/mdrive/motion.c:371-442 | the fields and timers after the callback, at rest or not |
| Completion.Device.AsyncCompleteCancel | drivers/mdrive/motion.c:494-510 | a pending completion is cancelled, reported once, and its timer removed |
| Completion.Accounting | drivers/mdrive/motion.c:61-85 | over every run, accepted moves that are not slews are the events sent plus one if the trip is set; the only timer outstanding is the noted one |
| Completion.StopEndsMove | drivers/mdrive/motion.c:580-592 | from every reachable state a stop leaves nothing awaited and no timer, and sends exactly one event if a move was awaited |
| Completion.SlewEndsMove | drivers/mdrive/motion.c:15-86 | an accepted slew that is not in progress does the same; one in progress changes nothing |
| Completion.MoveReplacesMove | drivers/mdrive/motion.c:15-86 | an accepted absolute or relative move ends the awaited one with one event and is awaited itself, with a timer under a new id, or with none if its deadline is refused |
| Completion.FailedMoveEndsNothing | drivers/mdrive/motion.c:15-86 | a move that is refused or not sent ends nothing and is not awaited |
| Completion.CallbackEndsOrRenews | drivers/mdrive/motion.c:371-442 | a timer that calls back ends the awaited move with one event, or leaves it awaited with a timer under a new id, or with none if that deadline is refused |
| Completion.TripIffTimer | drivers/mdrive/motion.c:446-510 | when no deadline is refused, the trip is set exactly while one timer, with the noted id, is outstanding |
| Completion.RefusedDeadlineIsStuck | drivers/mdrive/motion.c:417-420 | after a refused deadline no event ends the move unless another move or a stop does |
| TraceMask.NumberHasBit | lib/trace.c:59-82 | bit i of the mask is the i-th slot's admission |
| TraceMask.PushedIsAligned | lib/trace.c:72-80 | shifting down and setting the top bit appends one slot to a mask kept aligned to the top |
| TraceMask.VisitedArePlaces | lib/trace.c:107-124 | halving the mask until it is zero visits the set bits |
| TraceMask.PlacesAreExact | lib/trace.c:107-124 | those are exactly the set bits, each once, in slot order |
| Slots.FirstFree | lib/trace.c:245-250 | with fewer active slots than places the scan for a free slot stops at a place, not at the sentinel |
| Trace.Subscribers.SubscribersLookup | lib/trace.c:59-82 | unless the count is zero, bit i is set if and only if slot i is active, its level admits the message and its channel bit is set, and the last shift is by the unused places, 0..63 |
| Trace.Subscribers.Write | lib/trace.c:102-124 | the message goes to exactly the slots of the mask, in order; slots of vanished clients become inactive |
| Trace.Subscribers.Trace | lib/trace.c:131-140 | unless the count is zero, a message reaches exactly the admitting subscribers, once each, in slot order; if it is zero and no id was unsubscribed in vain, there are none |
| Trace.SweptEach | lib/trace.c:102-124 | after a message each slot is as before, but for the slots that it reached whose client is a process that has gone: these are inactive |
| Trace.Subscribers.Subscribe | lib/trace.c:241-263 | the first inactive slot is taken under a new id; it is the sentinel exactly when all places are active though the count is lower, and never while no more ids were unsubscribed again than clients lost |
| Trace.Subscribers.Unsubscribe | lib/trace.c:265-279 | the slot of the id becomes inactive and is counted off, active before or not, or EINVAL if there is none |
| Trace.UnsubscribedTwice | lib/trace.c:241-279 | the run: 64 subscriptions, the first unsubscribed twice, two more subscriptions, and all 65 slots are active |
| Motors.Connections.Connect | lib/motor.c:43-86 | after collection, the first inactive slot is taken under a fresh id, kept inactive if the connection fails; the table and the count stay right |
| Motors.Connections.GarbageCollect | lib/motor.c:20-35 | exactly the motors of dead clients become inactive, and the count follows |
| Motors.Connections.FindMotor | lib/motor.c:122-134 | found if and only if an active slot has the id and the client |
| Motors.Connections.Disconnect | lib/motor.c:96-110 | the one motor found becomes inactive, and is not found again |
| Locks.Driver.Lock | lib/locks.c:12-27 | the id is added at the end unless it is there; ids stay distinct and zero-terminated, exactly unless it takes the last place |
| Locks.Driver.Unlock | lib/locks.c:45-64 | exactly that id is removed; ENOENT if it is not there |
| Locks.Driver.IsLocked | lib/locks.c:77-80 | locked if and only if an id is held |
| Script.Context.ExecuteScript | lib/python/cli/modules/test.py:576-586 | the loop runs the script as the transition function does |
| Script.WhereNext | lib/python/cli/modules/test.py:459-586 | where a run goes from each kind of statement: goto, call, return with and without an entry, stop, and anything else |
| Script.ReturnsToEntry | lib/python/cli/modules/test.py:459-484 | the moment the stack is back at its base it is the base unchanged, and the run is where the entry above it says |
| Script.CallResumes | lib/python/cli/modules/test.py:459-484 | a balanced call of a defined label resumes after the call with the stack unchanged |
| Script.AtexitEnds | lib/python/cli/modules/test.py:588-600 | an atexit routine ends at its own return, whatever the main script left on the stack |
| Script.RoutinesKeepStack | lib/python/cli/modules/test.py:588-600 | a sequence of such routines leaves the stack of the main script as it was |
| Script.UndefinedCallLeavesEntry | lib/python/cli/modules/test.py:459-475 | a call of an undefined label goes on with one entry too many |

## Left out

- Terminal settings, reads and writes, message queues, signals, clocks and sleeping: inputs of the models, or steps that may happen at any time.
- Several producers for one worker: the signal test reads the length after unlocking.
- Workers: a scan with no live worker, or with queues of 10000 messages, is excluded as the code assumes.
- Timer ids: taking an id and incrementing the counter is one step. The creation of the timer thread, and times with exactly 1e9 nanoseconds, which POSIX refuses and the thread drops unfired, are not part of the claims about firing.
- ReplyReader.ReplyIsDelivered: replies with ACK, checksum and line end; a read that fills the buffer to its last byte writes the terminator behind the buffer, which the model takes for a NUL there and nothing else.
- RefusalReader.MarkedReplyIsDelivered: reads that end right behind the mark; reads that end elsewhere are covered for replies with ACK and checksum only (`ReplyReader.ReplyIsDelivered`).
- ReplyRefusals.WireIsReceived: printable payloads of up to 62 characters; the error code comes behind the payload, and `CodeEndsAtText` covers text behind a code.
- Pragmas.AcceptedIffPlaced: conditions that evaluate to integers and do not raise; `Conditionals.ConditionalCompilation` covers the others.
- PegLaws.Words: grammars whose white space is explicit, as the microcode grammar's is.
- TimerProtocol: each read of the head is one step; the load of the pointer and the load of the field behind it are not told apart, nor is the use of an entry that is freed in between.
- PeaklessMoves.PeaklessMoveIsStuck: takes the value that the x86-64 gives for the conversion of no number to an integer, which C leaves undefined; the clock before the year 2262.
- EventCuts.EventCutIsHarmlessIff: reports of the documented form, an error mark and digits behind the quoted address and an ACK at the end, cut once.
- TransactionSafety.CallsAreSafe: does not say that a result of status OK answers the command, because the initial status is OK and the exhaustion test compares with zero; and not that a call terminates, because the device can prolong it.
- Transaction: classification is an oracle that may make nested calls and restores the nesting count.
- Preprocessor: `#include`, and Python's `eval`, which is a function from an expression and an environment to a value or an error; a value that is no integer is its written form and whether it is true.
- Parsing engine: packrat mode, comment skipping, error messages. Regular expressions are alternatives of runs of character classes, over ASCII.
- Microcode: configuration variables (`$name`), also inside strings; comments on a line are read but not written; the order of alternatives in the bare-command expression, which comes from a Python set, does not matter and is fixed.
- Compiling.Compiler.Compile: does not model reference counts, warnings, line numbers and defaults.
- Publishing: the assignment count of the entry test is read off the program instead of the table of names; several files compiled by one parser are one program; what is written before the entry test raises is not modelled.
- ParseResults.StatementParsed: texts without `$` only.
- Profile: the steps per revolution are loaded and fixed; float and unit fields of a measurement are not modelled.
- Projection: exact arithmetic, without floating-point rounding; the estimated position during a move is not modelled.
- Completion: handlers run one at a time, so a stop during a running completion callback is not covered; moves assisted by microcode differ only in what is sent.
- Trace: channels by number only; the channel table, formatting and remote delivery are not modelled.
- Motors: copies of motors handed to event code, drivers and profiles behind a connection are not modelled; ids do not wrap.
- Script: statements other than goto, call, return and the ones that stop are outcomes without effect on the position; an undefined atexit label, a KeyError, is excluded.
- Homing, queries, ports, firmware and microcode loading, event subscription, the command line, the language bindings and the data files: I/O, thin wrappers or data.
