# Verified model of the DDCI cores

DDCI is a terminal chat client. This project models its algorithmic parts and proves what they
promise. Check everything with `dafny verify dfyconfig.toml`.

| file | what it models |
|---|---|
| `TicketRing.dfy` | the 128-slot ticketed ring, as a step relation over single atomic actions of any number of threads |
| `FalseReturn.dfy`, `RingCalls.dfy`, `RingWalks.dfy` | a run of that ring in which a dequeue misses a token that is there; whole calls of a thread that runs alone |
| `TaskGraph.dfy`, `ParallelDag.dfy` | the task graph, and the parallel executor on top of that ring: one program counter a worker, one atomic access a step |
| `DagInvariant.dfy`, `DagSteps.dfy` | the executor's invariant, one lemma for each kind of step |
| `DagTheorems.dfy`, `DagMeasure.dfy` | safety and confluence, and the measure that every productive step lowers |
| `DagTermination.dfy`, `DagProgress.dfy`, `DagRounds.dfy` | no deadlock, and termination of every fair run, round by round |
| `SerialDag.dfy` | the executor object with `add_node` and `run_serial`, and the comparison of parallel runs with index order |
| `LineAssembler.dfy`, `LineMeaning.dfy` | the `on_data` closure that cuts server-sent-event lines out of arbitrary network chunks; what a line means, byte by byte |
| `Sanitizer.dfy`, `EscapeSequences.dfy` | the terminal sanitizer, byte loop and 32-byte loop; the laws that determine its result |
| `Pruner.dfy`, `CompressionLaws.dfy` | the three passes of `compress_context`; what each makes of words, gaps and punctuation |
| `BlockScan.dfy` | the byte scanners (scalar loops and block kernels) and the tokenizer |
| `ByteText.dfy`, `Tokenizer.dfy`, `Bits.dfy` | shared: bytes, runs of separators, and the mask arithmetic of the scanners, the sanitizer and the arena |
| `ContextWindow.dfy` | the token-budgeted message window and its eviction |
| `ChunkWriter.dfy` | the hand-over of evicted chunks to the background writer under a mutex and a condition variable |
| `EvictionStore.dfy`, `StoredText.dfy` | window and writer together: every eviction reaches the database, with the text of every message |
| `RateGovernor.dfy`, `RateLaws.dfy`, `RateOverflow.dfy` | the sliding-window rate governor over whole clocked runs; its limits in nanoseconds and 32-bit sums; bursts that make a sum wrap |
| `Arena.dfy` | the bump allocator |

Conventions. Concurrent code is a state machine: `Follows` says that a schedule can be taken and `Replay`
gives the state it leads to. Each such module has an invariant `Inv`, which `ReplayInv` proves for the
state after every schedule. A claim about every reachable state is a lemma about every state with `Inv`;
a claim about runs is a lemma about every schedule. Fields that no step reads (`History`, `place`, `runs`,
`enqueued`, `finished`) only record the past. Sequential code is a method proved against a function
(`Split`, `Clean`, `Compressed`, `Evict`, ...), and the promises are lemmas about that function. Bytes are
values 0..255. What those functions compute is stated once more in literal bytes and numbers
(`LineMeaning`, `EscapeSequences`, `CompressionLaws`, `StoredText`, `RateLaws`);
`EscapeSequences.LawsAreClean` shows that the laws for escape sequences leave no other sanitizer.

Results a reader may not expect:

- `try_dequeue` can return false although a published ticket was at the head at every moment of the call:
  its test may look at a position that another thread has just won (`FalseReturn.FalseReturnHappens`). This
  can happen exactly when there are two or more threads (`FalseReturn.MissIffSeveralThreads`). The
  worker loop is not harmed by it: every fair run finishes (`DagTermination.FairRunsFinish`).
- The hand-over to the background writer can lose a wake-up: `notify_one` may wake a flushing client
  instead of the worker. With one client thread a blocked flush always comes back; with two or more a
  deadlock of the worker and all clients is reachable (`ChunkWriter.DeadlockIffSeveralClients`).
- The whole-run token bound of the rate governor fails when a 32-bit token sum can wrap, and only then
  (`RateLaws.BoundIffNoWrap`). Waiting exactly `wait_time_ms` does not clear a denial when the oldest
  record was at most a minute and a whole number of milliseconds old
  (`RateGovernor.WaitingExactlyClearsIff`).
- The alignment mask of the arena is right for every cursor exactly when the alignment is a power of two,
  wherever the arena starts (`Arena.AlignsIffPowerOfTwo`); the code does not check it, and two ordinary
  requests show it (`Arena.ArenaAllocator.RequestMisaligned`).
- The terminal shows the sanitized answer as long as no piece of the stream ends inside an escape
  sequence, and with a cut sequence it need not (`LineAssembler.ScreenStaysCleanIffSettled`,
  `LineAssembler.CutSequenceIsShown`), because pieces are sanitized one by one. No control byte reaches
  it in any case (`LineAssembler.ScreenIsAlwaysSafe`).
- Newlines kept by the first pass of `compress_context` never reach its result: the last pass joins
  words with single spaces.

## Model

| member | source | states |
|---|---|---|
| TicketRing.ReplayInv | src/runtime/dag_executor.cpp:83-114 | in every state of every run of any number of threads, each ticket is claimed, published, won, released or delivered, the thread in charge stands at the matching program point, and the slot's sequence word and token agree with it |
| TicketRing.ProducerTestExact | src/runtime/dag_executor.cpp:88-91 | a waiting producer's truncated 32-bit test passes exactly when the slot has come round to its own ticket |
| TicketRing.ConsumerTestExact | src/runtime/dag_executor.cpp:99-104 | at the head position the truncated test passes exactly when that ticket is issued and published |
| TicketRing.ProducerWaitsOneLap | src/runtime/dag_executor.cpp:88-91 | a producer waits exactly until the ticket 128 before its own was released; the first 128 tickets do not wait |
| TicketRing.BacklogBound | src/runtime/dag_executor.cpp:84-93 | tickets never run further than 128 plus the number of threads ahead of an unpublished one, which is what keeps 32 bits enough |
| TicketRing.StepRefinesQueue | src/runtime/dag_executor.cpp:83-114 | refinement of a FIFO queue: taking a ticket appends its token, winning the exchange removes the head, no other action changes the queue; only the test of a `try_dequeue` gives up, at a stale position, with the queue empty, or with its head unpublished; a lost or spuriously failed exchange changes nothing but goes on testing at the reloaded head |
| TicketRing.DequeueTestMeans | src/runtime/dag_executor.cpp:97-104 | the consumer's test at any position: at the head it passes exactly when the head is published; at a stale one, until positions moved on by almost 2^32, exactly while the winner has not released the slot |
| FalseReturn.StaleTestMisses | src/runtime/dag_executor.cpp:96-104 | with two published tickets, a call returns false although the head can be taken at every moment of it, when another thread takes the head between its load and its test |
| FalseReturn.FalseReturnHappens | src/runtime/dag_executor.cpp:83-114 | that happens in a run from the start, with any two threads: the call begins at its load, the head can be taken from then on at every moment, and the same call returns false |
| FalseReturn.TestMissesIffStale | src/runtime/dag_executor.cpp:97-104 | while the head can be taken, a test fails exactly when its position is stale and that slot was released (until positions moved on by almost 2^32) |
| FalseReturn.MissMeansOvertaken | src/runtime/dag_executor.cpp:96-114 | a call that returns false with the head ready throughout was overtaken: another thread won a ticket since it began |
| FalseReturn.MissIffSeveralThreads | src/runtime/dag_executor.cpp:83-114 | a run with such a call exists exactly when there are two or more threads |
| RingCalls.TakesHeadAlone | src/runtime/dag_executor.cpp:96-114 | with the head published, a thread at its load, at the test of the head or at any exchange however stale takes the head in at most five actions of its own and returns it with the token issued for it |
| RingCalls.LostExchangeReturnsHead | src/runtime/dag_executor.cpp:105-113 | in every reachable state: an exchange lost to another thread does not end the call, which, run on alone, returns the published head |
| RingCalls.DequeueAlone | src/runtime/dag_executor.cpp:96-114 | a call that runs alone returns the head with its token if it is published, and otherwise false without any other change |
| TicketRing.TokenStableUntilRead | src/runtime/dag_executor.cpp:92-110 | between publication and release no action overwrites the token of a ticket |
| TicketRing.FifoDelivery | src/runtime/dag_executor.cpp:83-114 | over every run the successful dequeues return each delivered ticket once, with the token it was issued for |
| TicketRing.ExactlyOnceInTicketOrder | src/runtime/dag_executor.cpp:96-114 | the tickets won are 0 up to the dequeue position, no ticket is returned twice, each returned token is the one issued under that ticket, and a won ticket not yet returned is in a thread's hands |
| DagInvariant.ReplayInv | src/runtime/dag_executor.cpp:116-229 | every reachable state of every interleaving satisfies the executor invariant: masks hold exactly the dependencies that are done and have told, a node is carried by one worker or one ticket, outputs are final, `completed_` counts the nodes that told everybody |
| DagInvariant.StepInv | src/runtime/dag_executor.cpp:116-199 | that invariant survives every step of every worker |
| DagInvariant.ClaimInv | src/runtime/dag_executor.cpp:132-147 | the first compare-exchange of `process_node` finds the node runnable and succeeds, so the second is never reached |
| DagInvariant.MaskCompletesOnce | src/runtime/dag_executor.cpp:156-175 | when several dependencies finish at once, one `fetch_or` completes the mask: the dependent is still pending and unrun, no other worker is scheduling it, and none has still to tell it |
| DagInvariant.OneWorkerSchedules | src/runtime/dag_executor.cpp:165-172 | at most one worker at a time is at the compare-exchange of a dependent, and it finds it pending |
| DagInvariant.SeenMeansDone | src/runtime/dag_executor.cpp:149-165 | a set `deps_seen` bit means that the dependency is done, ran once and holds its final output |
| DagInvariant.TaskInv | src/runtime/dag_executor.cpp:149-151 | a task that reads only its dependencies' outputs leaves the value that the graph defines |
| DagTheorems.ReachableWorkersCanStep | src/runtime/dag_executor.cpp:178-229 | in every reachable state a worker can take a step exactly if it was started and has not left |
| DagTheorems.StepForward | src/runtime/dag_executor.cpp:132-176 | a node's state moves forward by at most one, a done node keeps its output, only the call itself counts as an invocation |
| DagTheorems.InvocationOrder | src/runtime/dag_executor.cpp:116-176 | over every run the tasks called are distinct and each comes after all its dependencies |
| DagTheorems.TaskSeesFinalOutputs | src/runtime/dag_executor.cpp:149-176 | while a task runs, each dependency is done, ran once and holds its final output |
| DagTheorems.TicketsBounded | src/runtime/dag_executor.cpp:116-176 | at most one ticket a node is ever issued in a run |
| DagTheorems.EnqueueNeverBlocks | src/runtime/dag_executor.cpp:83-94 | in every reachable state of a run a worker in the wait loop of `enqueue` finds its slot ready |
| DagTheorems.ExitMeansFinished | src/runtime/dag_executor.cpp:178-192 | when any worker has left, every node is done, ran exactly once and holds the defined value |
| DagTheorems.Confluence | src/runtime/dag_executor.cpp:201-229 | any two finished runs, with any numbers of workers and any schedules, leave the same outputs |
| DagTheorems.SomeNodeIsOnItsWay | src/runtime/dag_executor.cpp:156-199 | no lost node: before the end some unfinished node is being enqueued, queued, held, notifying, or still to be seeded |
| DagTheorems.MeasureDrops | src/runtime/dag_executor.cpp:132-199 | every step lowers a well-founded measure, except the idle steps of the worker loop, which leave it as it is |
| DagTheorems.ProductivePicksBounded | src/runtime/dag_executor.cpp:178-199 | in every schedule the number of non-idle steps is bounded by the measure at the start |
| DagTermination.NoDeadlock | src/runtime/dag_executor.cpp:156-199 | in every reachable unfinished state some worker, running alone, makes progress within seven steps |
| DagTermination.SearcherLeaves | src/runtime/dag_executor.cpp:178-192 | once all nodes are counted, a worker that looks for work leaves within five of its own steps |
| DagTermination.FairRunsFinish | src/runtime/dag_executor.cpp:178-229 | every fair run finishes: after 7 * (20 n^2 + 31 n + 3 workers + 11) rounds, in each of which every worker that can move is picked and no exchange fails spuriously, all workers have left, every node ran once and all outputs are in place |
| DagTermination.RoundsEndRun | src/runtime/dag_executor.cpp:178-199 | the same from any reachable state, with a bound from its measure |
| DagTermination.EveryRunCanFinish | src/runtime/dag_executor.cpp:201-229 | every run, however far it went, can be continued until all workers have left with all outputs in place |
| SerialDag.SpeculativeDag.constructor | src/runtime/dag_executor.cpp:28-34 | a fresh executor has an empty valid graph and a ring with all slots free |
| SerialDag.SpeculativeDag.LinkConsumers | src/runtime/dag_executor.cpp:49-54 | the new node is entered as consumer of exactly its kept dependencies |
| SerialDag.SpeculativeDag.AddNode | src/runtime/dag_executor.cpp:36-57 | with 64 nodes or without a task the request is refused with 64 (`kMaxNodes`); otherwise, before or after a run, a pending node is appended with exactly the mask bits of earlier nodes, and consumer masks stay the inverse of dependency masks |
| SerialDag.SpeculativeDag.Enqueue | src/runtime/dag_executor.cpp:83-94 | with at most one ticket a node the sequence test passes at once although nobody drains the ring, and only that slot changes |
| SerialDag.SpeculativeDag.TellOne | src/runtime/dag_executor.cpp:162-174 | one dependent gets the bit; exactly if that completes the mask of a pending node it becomes runnable and its ticket is published in the next slot |
| SerialDag.SpeculativeDag.NotifyDependents | src/runtime/dag_executor.cpp:156-176 | exactly the dependents get the bit; those whose mask is complete become runnable and get a ticket; every other node is unchanged |
| SerialDag.SpeculativeDag.ProcessNode | src/runtime/dag_executor.cpp:132-154 | a pending or runnable node runs once and is done and counted, and exactly the nodes that this makes runnable get a ticket; any other node makes the call do nothing |
| SerialDag.SpeculativeDag.RunSerial | src/runtime/dag_executor.cpp:231-256 | one outer pass runs every node exactly once with the outputs of index order; one ticket is taken for each node that has dependencies, and no other |
| SerialDag.InOrderIsValue | src/runtime/dag_executor.cpp:36-57 | running the tasks in index order gives the values that the graph defines, because dependencies have lower indices |
| SerialDag.ParallelEqualsInOrder | src/runtime/dag_executor.cpp:201-256 | a finished parallel run, on any schedule, has the outputs of the serial run |
| LineAssembler.SplitUnsplits | src/network/api_client.cpp:387-393 | cutting at newlines loses nothing: the lines and the rest are newline-free and glue back to the stream |
| LineAssembler.SplitIsTheOnlyCut | src/network/api_client.cpp:387-393 | there is no other way to cut a stream like that |
| LineAssembler.SplitConcat | src/network/api_client.cpp:385-393 | cutting a chunk and then its leftover with the next chunk cuts the two chunks as one |
| LineAssembler.Assembler.OnLine | src/network/api_client.cpp:394-459 | one line strips a CR, needs `data:`, drops one space, ignores everything after the end marker, keeps the first usage record, appends the text piece and its sanitized form |
| LineAssembler.Assembler.OnData | src/network/api_client.cpp:381-462 | one callback handles exactly the lines the new bytes complete, in order, and keeps the rest |
| LineAssembler.Assembler.Receive | src/network/api_client.cpp:374-464 | a whole response equals one cut of the concatenated chunks folded through the line handler |
| LineAssembler.FeedIsSplit | src/network/api_client.cpp:381-462 | feeding chunks one by one equals feeding their concatenation at once |
| LineAssembler.ChunkingInvariance | src/network/api_client.cpp:381-462 | any two splittings of the same byte stream end in the same content, usage, end flag, terminal output and leftover |
| LineAssembler.DoneIsFinal | src/network/api_client.cpp:408-414 | after the end marker no later bytes, however cut, change the answer |
| LineMeaning.EndMarkerEnds | src/network/api_client.cpp:394-414 | a line sets the end flag exactly when it is `data:[DONE]` or `data: [DONE]`, with or without a final CR, and then changes nothing else |
| LineMeaning.DoneIffMarkerArrived | src/network/api_client.cpp:381-414 | however the response is cut, the flag is set afterwards exactly when it was set before or a newline-terminated line of the stream is one of those four |
| LineMeaning.DataLineReads | src/network/api_client.cpp:394-406 | every line that starts with `data:` has one reading: an optional space, the payload, an optional CR |
| LineMeaning.DataLineHandled | src/network/api_client.cpp:408-459 | the payload of any other data line goes to the parser: a bad payload changes nothing, an event sets the usage if none was set and appends its text to the content and its sanitized text to the terminal |
| LineMeaning.OtherLineIgnored | src/network/api_client.cpp:398-410 | a line without `data:`, and any line after the end marker, changes nothing |
| LineMeaning.CompleteLineHandled | src/network/api_client.cpp:381-393 | a chunk with one newline handles the line in front of it and keeps the bytes behind it |
| LineAssembler.AnswerOnlyGrows | src/network/api_client.cpp:419-456 | content and terminal output are only appended to, the first usage record stays, the end flag stays set |
| LineAssembler.CrLfLikeLf | src/network/api_client.cpp:394-396 | CRLF line ends are handled like LF line ends |
| LineAssembler.CrAloneEndsNothing | src/network/api_client.cpp:387-393 | without a newline no line is handled, so a lone CR does not end one |
| LineAssembler.ScreenIsCleanContent | src/network/api_client.cpp:451-457 | if no piece ends inside an escape sequence the terminal shows the sanitized content of the whole answer |
| LineAssembler.ScreenStaysCleanIffSettled | src/network/api_client.cpp:451-457 | the terminal goes on showing the sanitized content for every next event exactly when the content does not end inside an escape sequence |
| LineAssembler.CutSequenceIsShown | src/network/api_client.cpp:451-457 | the failing case as a run from the empty answer: a control sequence cut in two pieces leaves its tail on the terminal although the whole sanitizes to nothing |
| LineAssembler.ScreenIsAlwaysSafe | src/network/api_client.cpp:381-462 | over every run, however chunks and pieces are cut, no control byte except tab and newline and no DEL reaches the terminal |
| Sanitizer.ConsumeEscape | src/security/sanitizer.cpp:12-52 | an escape ends past its CSI final byte, past BEL or ESC backslash, one byte on for others, or at the end of input; always further on and in bounds |
| Sanitizer.CleanLanes | src/security/sanitizer.cpp:76-101 | the vector compare finds the first dirty byte of the block, by the byte loop's own notion of dirty |
| Sanitizer.SanitizeScalar | src/security/sanitizer.cpp:111-127 | the byte loop computes `Clean` |
| Sanitizer.SanitizeVector | src/security/sanitizer.cpp:56-128 | the 32-byte loop followed by the byte loop computes the same `Clean` for every input and every alignment of escapes |
| Sanitizer.OutputIsSafe | src/security/sanitizer.cpp:111-125 | the output has no control byte except tab and newline and no DEL, and is a subsequence of the input |
| Sanitizer.FixedPoints | src/security/sanitizer.cpp:111-125 | a text is unchanged exactly when it has no byte to drop |
| Sanitizer.Idempotent | src/security/sanitizer.cpp:56-128 | sanitizing twice is sanitizing once |
| Sanitizer.SplitsExactlyWhenSettled | src/security/sanitizer.cpp:12-52 | sanitizing a text and any continuation separately equals sanitizing both together exactly when the text does not end inside an escape sequence |
| Sanitizer.ControlSequenceVanishes | src/security/sanitizer.cpp:21-32 | a control sequence behind any text that leaves no escape open disappears and nothing else does |
| Sanitizer.WellFormedCsiVanishes | src/security/sanitizer.cpp:21-32 | the same for the control sequences of section 5.4 of ECMA-48 behind ESC-free text |
| EscapeSequences.PlainByte | src/security/sanitizer.cpp:111-125 | tab, newline and bytes from 0x20 on except DEL are shown; any other byte but ESC is dropped alone |
| EscapeSequences.LoneEscape | src/security/sanitizer.cpp:14-20 | ESC at the end, or before a byte that opens no sequence, is dropped alone |
| EscapeSequences.ControlSequenceDropped | src/security/sanitizer.cpp:21-32 | ESC `[` and everything up to the first byte from 0x40 to 0x7E is dropped |
| EscapeSequences.OpenControlSequence | src/security/sanitizer.cpp:21-32 | without such a byte the rest of the text is dropped |
| EscapeSequences.StringSequenceDropped | src/security/sanitizer.cpp:34-49 | ESC and `]`, `_` or `P`, and everything up to the first BEL or ESC backslash, is dropped |
| EscapeSequences.OpenStringSequence | src/security/sanitizer.cpp:34-49 | without a terminator the rest of the text is dropped |
| EscapeSequences.StringSequenceVanishes | src/security/sanitizer.cpp:34-49 | behind any ESC-free text a finished string sequence disappears and nothing else does |
| EscapeSequences.LawsAreClean | src/security/sanitizer.cpp:12-128 | these laws hold of the sanitizer, and any function that obeys them agrees with it on every text |
| Pruner.CollapseWhitespace | src/memory/pruner.cpp:11-53 | drops outer gaps and reduces each inner gap to a space, a newline or a blank line |
| Pruner.StructuralTokens | src/memory/pruner.cpp:11-53 | that pass changes no token |
| CompressionLaws.LeadingGapDropped | src/memory/pruner.cpp:19-21 | spaces, tabs and newlines in front of the text are dropped |
| CompressionLaws.InnerGapReduced | src/memory/pruner.cpp:26-50 | behind a word a gap becomes one space without a newline in it, one newline with one, a blank line with more, and nothing at the end of the text |
| Pruner.CollapsePunctuation | src/memory/pruner.cpp:55-97 | runs of `!` and `?` become one, runs of dots become one unless they are three |
| CompressionLaws.RunCollapses | src/memory/pruner.cpp:63-91 | a maximal run of `!` or `?` leaves one byte, a run of dots three if it has exactly three and otherwise one |
| Pruner.CollapseTokens | src/memory/pruner.cpp:55-97 | collapsing the text is collapsing each token |
| Pruner.IsFillerToken | src/memory/pruner.cpp:134-155 | the trimmed, lower-cased token in the four-byte buffer is a filler exactly when the whole trimmed token is one in any case |
| CompressionLaws.DroppedWords | src/memory/pruner.cpp:98-160 | a word is dropped exactly when, from its first ASCII letter to its last, it is um, uh, erm, er, hmm, umm, uhh, uhm or heh in any case, spelled out in bytes |
| Pruner.RemoveFillers | src/memory/pruner.cpp:111-169 | the result is the non-filler tokens joined with single spaces |
| Pruner.CompressContext | src/memory/pruner.cpp:206-210 | the three passes equal the one-line specification: split, collapse each token, drop fillers, join |
| CompressionLaws.FirstWord | src/memory/pruner.cpp:111-210 | the first word of any text has its punctuation collapsed and is then dropped as a hesitation or kept, one space before what is left of the rest |
| CompressionLaws.NothingLeft | src/memory/pruner.cpp:206-210 | a text of spaces, tabs and newlines compresses to nothing |
| Pruner.CompressIdempotent | src/memory/pruner.cpp:206-210 | compressing twice is compressing once |
| Pruner.CompressFixedPoints | src/memory/pruner.cpp:206-210 | a text is unchanged exactly when it is stable words joined with single spaces |
| Pruner.CompressNeverLonger | src/memory/pruner.cpp:206-210 | compression never lengthens its input |
| BlockScan.FindFirstOfScalar | src/core/simd_matcher.cpp:32-60 | the first position of a wanted byte, or the length |
| BlockScan.CountScalar | src/core/simd_matcher.cpp:41-47 | the number of occurrences, as the multiplicity of the byte in the text |
| BlockScan.BlockMask | src/core/simd_matcher.cpp:123-127 | the accumulated mask has a bit exactly for the lanes that hold a wanted byte |
| BlockScan.FindFirstOfBlocks | src/core/simd_matcher.cpp:113-149 | the block kernel of any width returns the scalar result whatever the temporary buffer held before |
| BlockScan.CountBlocks | src/core/simd_matcher.cpp:226-249 | the masked population counts add up to that number whatever the temporary buffer held before |
| BlockScan.FindFirstOf | src/core/simd_matcher.cpp:626-650 | every dispatch level and every set size gives the scalar result |
| BlockScan.NextToken | src/core/simd_matcher.cpp:656-674 | returns the next token from the position and moves the position to its end, strictly forward until the end of input |
| BlockScan.AllTokens | src/core/simd_matcher.cpp:656-674 | repeated calls from 0 give all token ranges |
| BlockScan.TokensAreMaximalRuns | src/core/simd_matcher.cpp:656-674 | those ranges are exactly the maximal runs without a space or a byte from 0x09 to 0x0D, in order |
| Bits.LowLanes | src/core/simd_matcher.cpp:80-82 | masking with (1 << tail) - 1 keeps exactly the lanes of the real tail |
| Bits.FirstLane | src/core/simd_matcher.cpp:69-74 | the mask is zero exactly when no lane matched, and its lowest set bit is the first lane that did |
| Bits.OrLanes | src/core/simd_matcher.cpp:124-127 | the bitwise or of two masks is the mask of the lane-wise or |
| ContextWindow.FindPick | src/memory/context_manager.cpp:90-98 | the first least important message of the scan, never slot 0 |
| ContextWindow.LeastImportantGoesFirst | src/memory/context_manager.cpp:89-103 | over the target the first least important of the messages after slot 0, before the last and at positions below `chunk_size` goes first, or the one at position 1 if there are none, and the rest is evicted as if it had never been there |
| ContextWindow.EvictionConserves | src/memory/context_manager.cpp:86-103 | survivors plus evicted equal the old window as a multiset, slot 0 stays, and the target is met unless only slot 0 is left |
| ContextWindow.EvictionKeepsOrder | src/memory/context_manager.cpp:89-103 | survivors keep their order; if anything besides slot 0 survives the newest message does, as the last one; otherwise it was evicted last, after every other message |
| ContextWindow.NewestGoesLast | src/memory/context_manager.cpp:89-103 | with any scores, when only slot 0 is left the newest message is the last of the evicted, and so of the transcript |
| ContextWindow.NewestSurvivesIffItFits | src/memory/context_manager.cpp:89-103 | with any scores, the newest message survives exactly when it fits the target beside the system prompt |
| ContextWindow.EqualScoresKeepLongestSuffix | src/memory/context_manager.cpp:89-103 | with equal scores the system prompt and the longest suffix within the target stay and the rest goes in order |
| ContextWindow.ContextManager.constructor | src/memory/context_manager.cpp:30-52 | the window starts with the system prompt alone and its tokens counted |
| ContextWindow.ContextManager.EvictToTarget | src/memory/context_manager.cpp:89-103 | the in-place loop computes `Evict` and keeps the token count equal to the sum of the window |
| ContextWindow.ContextManager.EvictIfNeeded | src/memory/context_manager.cpp:70-144 | nothing changes at or below the trigger; above it the evicted messages leave as one compressed chunk and are counted |
| StoredText.TranscriptOfOne | src/memory/context_manager.cpp:112-122 | one message is its label (`[system]`, `[user]`, `[assistant]` or `[tool]`, in bytes), a space, its content and a newline |
| StoredText.TranscriptHolds | src/memory/context_manager.cpp:109-122 | every evicted message stands in the transcript like that, with its whole content, in eviction order |
| StoredText.ChunkWords | src/memory/context_manager.cpp:109-123 | the words of a stored chunk are, for each evicted message in order, its label and the words that compression keeps of its content; no label is ever dropped |
| ContextWindow.ContextManager.AddMessage | src/memory/context_manager.cpp:54-68 | the window grown by exactly that message, with its estimated tokens, settles, with the count kept exact and the budget met unless only slot 0 is left |
| ContextWindow.ContextManager.Clear | src/memory/context_manager.cpp:146-161 | only the system prompt is left and its tokens counted |
| ContextWindow.BudgetHoldsAfterAnyRun | src/memory/context_manager.cpp:54-161 | after any sequence of adds and clears slot 0 is the prompt and the total is within the trigger unless only slot 0 is left |
| ContextWindow.MessagesConserved | src/memory/context_manager.cpp:54-161 | over any run the messages added since the last clear are exactly those in the window and those evicted |
| ContextWindow.NewMessageStaysIffItFits | src/memory/context_manager.cpp:54-103 | when an add triggers eviction, the new message is in the window afterwards exactly when it fits the target beside the prompt |
| ChunkWriter.ReplayInv | src/memory/context_manager.cpp:198-252 | for any number of clients and every interleaving: enqueued = finished ++ in flight ++ queue, in order |
| ChunkWriter.FlushMeansInserted | src/memory/context_manager.cpp:167-180 | a flush that returns success has the insert attempt of every enqueued chunk returned exactly once, in order |
| ChunkWriter.FlushFailureIsUnserved | src/memory/context_manager.cpp:170-172 | flush reports failure exactly when chunks wait and no worker ever got ready to serve them |
| ChunkWriter.OnlyOpenDatabaseStores | src/memory/context_manager.cpp:207-221 | the worker gets ready when its database opens; otherwise, over any run, it stores nothing and what is enqueued stays queued |
| ChunkWriter.NoFlushSleepsWhenDrained | src/memory/context_manager.cpp:174-250 | in every run, with any number of clients, no flush sleeps on once the queue is empty and nothing is being inserted |
| ChunkWriter.ExitOnlyWhenDrained | src/memory/context_manager.cpp:223-251 | a worker that became ready leaves only with the queue empty and every chunk inserted |
| ChunkWriter.BlockedFlushLeavesWorkerAble | src/memory/context_manager.cpp:174-250 | with one client, while a flush is blocked the worker can move, and each of its steps brings the wake-up nearer |
| ChunkWriter.BlockedFlushComesBack | src/memory/context_manager.cpp:174-250 | so the flush succeeds after a bounded number of worker steps |
| ChunkWriter.JoinComesBack | src/memory/context_manager.cpp:19-28 | with one client the destructor's join returns: the worker drains the queue and leaves |
| ChunkWriter.DeadlockIffSeveralClients | src/memory/context_manager.cpp:167-205 | a state with waiting chunks, a sleeping worker and every client blocked in a flush is reachable exactly when there are two or more clients |
| ChunkWriter.OnlySpuriousMoves | src/memory/context_manager.cpp:167-252 | nothing but a spurious wake-up can move such a state |
| EvictionStore.ReplayInv | src/memory/context_manager.cpp:54-252 | in every run of one client and the worker, the window is what the calls make of it, and the chunks enqueued and at hand are those of all evictions, in order |
| EvictionStore.ChunksAccountedFor | src/memory/context_manager.cpp:70-252 | at every moment stored ++ being stored ++ queued ++ at hand are the compressed transcripts of all evictions, in order |
| EvictionStore.FlushStoresEvictions | src/memory/context_manager.cpp:70-180 | when a flush reports success exactly the compressed transcripts of all evictions so far are stored, in order |
| StoredText.FlushStoresText | src/memory/context_manager.cpp:70-180 | and each stored chunk is the compressed text in which every message of its eviction stands with its label and content, in order |
| EvictionStore.DestroyStoresEvictions | src/memory/context_manager.cpp:19-28 | the same after the destructor joined a worker that became ready |
| EvictionStore.FlushComesBack | src/memory/context_manager.cpp:167-250 | in every reachable state with one client a blocked flush comes back with success after the worker's backlog |
| EvictionStore.MessagesAccountedFor | src/memory/context_manager.cpp:54-161 | over any calls the prompt and all messages ever added are the window, the evicted messages and those a clear dropped |
| RateGovernor.Governor.PruneOldest | src/governor/rate_governor.cpp:10-15 | exactly the records at the front that are older than 60 seconds leave |
| RateGovernor.Governor.IsAllowed | src/governor/rate_governor.cpp:17-33 | prunes, then decides by count and by the token sum in 32-bit arithmetic |
| RateGovernor.Governor.WaitTimeMs | src/governor/rate_governor.cpp:35-47 | the time until the oldest record is 60 seconds old, at least 0 |
| RateLaws.WaitIsLeast | src/governor/rate_governor.cpp:35-47 | it is the least number of milliseconds after which the oldest record is at least 60 seconds old, and 0 for an empty window |
| RateGovernor.Governor.RecordUse | src/governor/rate_governor.cpp:49-51 | appends one record |
| RateGovernor.GrantedIsExact | src/governor/rate_governor.cpp:17-33 | when no sum can wrap, a reachable governor grants exactly the requests that fit both limits |
| RateLaws.PrunedByAge | src/governor/rate_governor.cpp:10-15 | a record leaves exactly when it and all before it are more than 60 000 000 000 ns old |
| RateLaws.GrantedIn32Bits | src/governor/rate_governor.cpp:20-30 | the token test is made on the sum modulo 2^32 |
| RateGovernor.RunKeepsBound | src/main.cpp:623-664 | over every run in which each record follows a grant of the same amount and the clock never goes back, every closed 60-second interval of the full history holds at most `rpm` records and `tpm` tokens |
| RateLaws.BoundIffNoWrap | src/governor/rate_governor.cpp:24-30 | that bound holds over all runs with amounts up to a maximum exactly when `tpm` or `rpm` keeps every 32-bit sum from wrapping |
| RateGovernor.RunKeepsCount | src/governor/rate_governor.cpp:10-22 | over every run, whether sums wrap or not, every closed 60-second interval of the full history holds at most `rpm` records, and the window leaves room while a request is granted |
| RateLaws.RequestsPerMinute | src/main.cpp:623-664 | over every run, whether sums wrap or not, more than `rpm` successive records of the full history span more than 60 seconds |
| RateLaws.TokensPerMinute | src/main.cpp:623-664 | over every run in which no 32-bit sum can wrap, successive records within 60 seconds sum to at most `tpm` |
| RateGovernor.WaitingLongerClears | src/governor/rate_governor.cpp:20-47 | after a denial by count, asking for the wait at any later time and waiting longer than it says clears the count |
| RateGovernor.WaitingExactlyClearsIff | src/governor/rate_governor.cpp:40-46 | waiting exactly that long clears it exactly when the oldest record was more than a minute, or not a whole number of milliseconds, old when asked |
| Arena.AlignUpIsLeast | include/memory/arena_allocator.hpp:63-67 | for a power of two the mask expression is the least aligned address at or above the cursor |
| Arena.AlignsIffPowerOfTwo | include/memory/arena_allocator.hpp:65-67 | for every base, it aligns every cursor from there on exactly when the alignment is a power of two |
| Arena.ArenaAlignsIffPowerOfTwo | include/memory/arena_allocator.hpp:63-74 | the same for the cursors of one arena at least four times as large as the alignment |
| Arena.ArenaAllocator.RequestMisaligned | include/memory/arena_allocator.hpp:58-76 | on a fresh arena at least five times as large as an alignment that is no power of two, two accepted requests end at a misaligned address |
| Arena.ArenaAllocator.Alloc | include/memory/arena_allocator.hpp:58-76 | a request is refused exactly when the arena has no memory or the address rounded up to the alignment (64 for 0) plus the size lies past its end, and then changes nothing; otherwise the block is aligned, in bounds and behind all earlier blocks |
| Arena.ArenaAllocator.AllocString | include/memory/arena_allocator.hpp:78-89 | the copy fills a block of its own with the source's bytes, and all strings returned since the last reset keep theirs |
| Arena.TextStays | include/memory/arena_allocator.hpp:58-89 | whatever is written into any other block, a returned string keeps its bytes |
| Arena.ArenaAllocator.WriteBlock | include/memory/arena_allocator.hpp:58-76 | the caller of `alloc` writing inside its block changes that byte and no returned string |
| Arena.ArenaAllocator.CopyTo | include/memory/arena_allocator.hpp:87-87 | copies the bytes and changes no other byte of the memory |
| Arena.ArenaAllocator.Reset | include/memory/arena_allocator.hpp:54-56 | the cursor returns to the base and all blocks are given up |

## Left out

- Weak memory orderings: every atomic access is one sequentially consistent step.
- A second run on the same graph: node states are never reset, so `completed_` would not reach the count; all claims are about one run on a freshly built graph.
- `include/ddci/runtime/dag_executor.hpp` is not part of this model; `kMaxNodes` is taken as 64, the width of the masks, and masks are sets of node indices.
- TicketRing.ReplayInv: positions are unbounded where the code has 64 bits, and the number of threads plus 128 must not exceed 2^32.
- Threads and joining: `active_`, the executor's mutex and condition variable, `cpu_relax` and the early return of `run_parallel` on an empty graph (the model lets the workers start and leave at once).
- Tasks: outputs stand for `set_output` and `output`, and a task reads only the outputs of its declared dependencies.
- Streaming: HTTP, JSON parsing (any total function from payload to event), exceptions other than the parse error, timestamps, the lifetime of the view after `ArenaWriter::consume`.
- BlockScan.FindFirstOf: does not model the NEON dispatch level; `find_byte_neon` tests for a lane equal to zero (src/core/simd_matcher.cpp:404) and does not equal the scalar search.
- Floating-point kernels.
- BlockScan.FindFirstOfScalar: one member stands for `find_byte` and `find_first_of`; the former is the case of a one-byte set.
- `compress_system_prompt`: phrase replacement can create new matches, so it has no idempotence to claim; the window starts from its result.
- Pruner.IsFillerToken: `isalpha` and `tolower` are those of the C locale.
- ContextWindow.ContextManager.constructor: trigger and target are naturals with target at most trigger instead of products of floating-point settings; importance is an exact real number, without NaN; the category and the mean importance of a chunk, log lines and timestamps are not modelled.
- ChunkWriter.JoinComesBack: for a worker that opens its database; a thread that could not be created is a worker that failed. Spurious wake-ups are possible steps and never relied upon.
- RateGovernor.Governor.WaitTimeMs: the clock is a non-decreasing count of nanoseconds.
- Arena.ArenaAllocator.Alloc: address and size sums do not wrap; move construction and release are not modelled.
- `MemoryManager`, `EndpointHealth`, `UsageTracker`, `RequestTiming`, configuration precedence, hash dispatch, `secure_erase`: easy single-branch or single-loop facts.
- Command line, terminal drawing, SQLite, curl, processes: input and output only.
