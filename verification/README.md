# Verification of the agentyc scripts

This project models the parts of the agentyc repository whose correctness is hard to see by reading:
a crash-safe installer, a WebSocket client, a publisher of benchmark generations, deterministic
statistics, three small parsers and a bounded redactor. It states what each of them is for and proves
it in Dafny, for every input, every run and every interleaving the model has.

`dafny verify dfyconfig.toml` checks the whole project. Each module stands for one component.

**The install drill** (`scripts/run_install_drill.py`). Installing a native-messaging registration is
a transaction with a write-ahead journal. `InstallMachine` has one step per system call of
`install_registration`, `rollback_registration`, `_reconcile_install_journal` and
`_remove_owned_registration`. Between any two steps the process may die, a system call may fail with
or without its effect, a temporary file or the new owner token may be cut short, and an outside writer
may replace, create or remove the target. `InstallInvariant`, `InstallRecovery`, `InstallConvergence`
and `InstallForeign` prove properties of all runs of that machine, `InstallQuarantine` of the files it
leaves behind; `InstallStatus` reads every answer off the disk a call finds; `InstallRace` builds a run.
`InstallDrill` is the same code as a class whose methods change files and journal in place; every
execution of it, under interference and with its calls raising, is shown to be a run of the machine, and
in a calm world, where nobody interferes and nothing raises, to end as the machine's uninterrupted call.
`InstallLock` is the locking protocol around it, one system call at a time, and `InstallSolo` a contender
that meets nobody. Hashes are taken as injective, one journal replacement as one atomic step, and
random names as fresh.

**The DevTools socket** (`scripts/run_chrome_probe.py`). `WebSocketFrames` and `WebSocketMessages` say
what a byte stream means (sections 5.2 to 5.5 of RFC 6455), `WebSocketWire` what stands on the wire byte
by byte, and `WebSocketFailures` when and how reading a message fails. `DevTools` is the client object with its
receive buffer: `recv` may return any non-empty piece of the stream, and every method is proved against
the stream alone.

**Publishing** (`scripts/run_direct_benchmark.py`, `scripts/p5_performance.py`). `Chunker` splits encoded
samples into files under a byte limit, which `SampleFiles` pins down; `Publisher` swaps a staged directory in. The publisher records
the directories after every step, which is what a crash at that step leaves behind.

**Statistics** (`scripts/p5_statistics.py`). `SplitMix` is the generator, on integers; `Statistics` the
percentile, the bootstrap, the summary and its validator, on reals.

**Parsers and scanners.** `CommentEraser` (`scripts/check_mcp_deps.py`, and the same automaton in
`scripts/check_mcp_compat.py`), `HeadingStack` (`scripts/check_mcp_docs.py`), and the indentation parser
(`scripts/check_test_manifest.py`): `IndentParser` as functions, `IndentReader` as the index-and-loop
methods, `IndentLayout` as the layouts that read back, `IndentGrammar` as the proof that nothing else does.

**The redactor** (`scripts/artifact_envelope.py`). `Redactor` has the recursion with its shared counter,
as functions and as a class, for any key classifier and any rewriting of text; `RedactorImage` says what
each value becomes, sentinel by sentinel, and which trees are left as they are; `RedactorTwice` and
`RedactorDeep` say when a second pass changes nothing, `RedactorBlind` what leaves no trace.

## What turned out not to hold

Each of these is kept as the code has it, with the exact condition and, where one helps, a witness.

- Two writes of the drill are not atomic. A crash in the middle of the temporary file's write leaves a
  file that makes its owner's recovery raise and change nothing (`InstallConvergence.TornWriteHappens`).
  A crash, or a write that raises, while the owner token is first written leaves a short token, with
  which every later install and rollback fails, for good (`InstallConvergence.CutOwnerHappens`,
  `InstallConvergence.CutForever`). An uninterrupted install converges if and only if neither is left
  and the disk is otherwise ready (`InstallConvergence.CrashConvergence`,
  `InstallConvergence.ConvergesAfterAnyRunIff`).
- A removal that is cut off between its rename and its unlink leaves a quarantine file that nothing
  looks for afterwards (`InstallQuarantine.QuarantineLeftIff`).
- The rename that restores a foreign file replaces whatever an outside writer has put at the target
  since it was probed. It is the only step of the drill that can lose foreign bytes, exactly then
  (`InstallForeign.GoLosesIffRace`), and there are runs from a first use that get there
  (`InstallRace.RestoreRaceHappens`).
- Where `fcntl` is missing, a refused contender still tries to delete the lock file it could not
  create. Where the system lets it unlink a file that its holder has open, the next contender walks in
  (`InstallLock.ExclusiveFileBreaks`); where it does not, as on Windows, the error is swallowed and
  exclusion holds. `InstallLock.ExclusionIff` is the exact condition over the three cases.
- The comment eraser takes the quote of a literal such as `'a'` for a lifetime, so the closing quote
  opens a literal and a comment behind it stays. Anywhere in a text, a line comment right after a
  character literal is erased if and only if the literal does not start with a letter
  (`CommentEraser.CommentAfterLiteralIff`).
- A plain scalar with a colon cannot be a list item: it reads as a pair
  (`IndentLayout.ListScalarIff`).
- Redacting is not idempotent. On every tree within the limits a second pass changes nothing if and only
  if every leaf that is reached and stays is settled (`RedactorTwice.RedactTwiceIff`); with gentle
  rewritings of text the one unsettled leaf is a non-finite number under an error key, whose sentinel
  is itself redacted (`RedactorTwice.GentleTwiceIff`). The same holds under any limits if the cut keys
  stay apart (`RedactorTwice.RedactTwiceApartIff`), and for any keys, depth and breadth within the node
  limit (`RedactorDeep.RedactTwiceWithinNodesIff`, where a mark of left-out entries counts too). Past the
  node limit with keys that meet, a second pass has fewer nodes to visit and can get further
  (`RedactorTwice.CollisionPastLimit`).
- A key is cut to 256 characters before it is classified, so a longer key whose ending makes it
  sensitive does not hide its value (`RedactorBlind.LongKeyKept`). What is hidden is exactly what stands
  under a key that is sensitive once cut (`RedactorBlind.RedactionIsBlind`, `RedactorBlind.TextHiddenIff`).

## Model

| member | source | states |
|---|---|---|
| InstallInvariant.StepKeeps | scripts/run_install_drill.py:1212-1447 | every system call, failed call, torn temporary file, cut owner token, crash, outside write and new request keeps the drill's invariant |
| InstallInvariant.WriteAheadInEveryRun | scripts/run_install_drill.py:1356-1396 | in every state of every run, an install temporary file exists only if the current journal is pending and names it |
| InstallRecovery.SettleIsRecover | scripts/run_install_drill.py:1212-1256 | the step-by-step recovery, from any disk at all, computes the closed form `Recover`: which file goes, which journal stays, which verdict is returned |
| InstallRecovery.SettlePending | scripts/run_install_drill.py:1151-1160 | a pending journal is resolved with its temporary file gone, except that a torn temporary file makes recovery raise and change nothing |
| InstallRecovery.RecoverySettles | scripts/run_install_drill.py:1212-1256 | every refusing outcome leaves the disk exactly as it was, and a second recovery changes nothing |
| InstallConvergence.PeacefulRun | scripts/run_install_drill.py:1315-1447 | with one request made again and again and no outside writer, the target only ever holds its payload or nothing; without torn writes no torn file appears, and without a cut token write no cut token |
| InstallConvergence.InstallConvergesIff | scripts/run_install_drill.py:160-1402 | from any disk that runs of one request can leave, an uninterrupted install of it converges if and only if there is neither a torn temporary file nor a cut owner token; if there is, it fails and changes nothing |
| InstallConvergence.CrashConvergence | scripts/run_install_drill.py:160-1451 | after any installs and rollbacks of one request cut off anywhere, including inside recovery and inside the writing of the owner token, one uninterrupted install ends with the payload at the target, the journal installed and no temporary file, if and only if neither a torn temporary file nor a cut owner token is left; when both writes are all-or-nothing, always |
| InstallConvergence.ConvergesAfterAnyRunIff | scripts/run_install_drill.py:160-1402 | after any run at all, with any requests for any targets and payloads, outside writes, crashes, torn and cut writes and failing calls, one uninterrupted install converges if and only if the disk is ready for it: nothing damaged, and no journal and a free target, or a journal of this request and nothing foreign at the target |
| InstallConvergence.TornWriteHappens | scripts/run_install_drill.py:1163-1178 | a concrete run of one install that leaves a torn temporary file |
| InstallConvergence.CutOwnerHappens | scripts/run_install_drill.py:177-189 | a concrete run of one install that leaves a cut owner token and nothing else |
| InstallConvergence.CutForever | scripts/run_install_drill.py:160-172 | nothing repairs a cut owner token: no later request gets past it, and the drill never changes a file again |
| InstallConvergence.InstallThenRollback | scripts/run_install_drill.py:1315-1447 | from no target and no journal, install then rollback both succeed and restore files and journal exactly, unless the owner token is cut, when both fail and change nothing |
| InstallStatus.InstallAnswers | scripts/run_install_drill.py:1315-1402 | an uninterrupted install, from any disk on which journals are ahead of temporary files: each answer on exactly its condition, read off journal, target and temporary file. An existing file without a journal is `AlreadyInstalled` if it parses to the payload's manifest and `RejectedDifferent` if to another, and so on for every refusal; a refusal changes nothing, a success leaves the payload and an installed journal, and nothing else goes |
| InstallStatus.InstallAnswersFromLoad | scripts/run_install_drill.py:1325-1353 | the same for an install that already has its owner token, where the target may have become anything by then, a link included |
| InstallStatus.RollbackAnswers | scripts/run_install_drill.py:1404-1451 | the same for an uninterrupted rollback: rolled back, no record, target mismatch, refusing, failed, each on exactly its condition, and what it leaves |
| InstallStatus.RollbackAnswersFromRead | scripts/run_install_drill.py:1419-1433 | once reconciliation has let a rollback through, whatever happened to the target since: no record, invalid record, already rolled back, refusing and rolled back, each exactly, with the disk it leaves |
| InstallStatus.RemovalAnswers | scripts/run_install_drill.py:1259-1274 | after the rename into quarantine: removed exactly if the payload was moved; otherwise what was moved goes back if the target is free, and stays in quarantine if not |
| InstallStatus.RestoreAnswers | scripts/run_install_drill.py:1271-1274 | the restoring rename onto a target that may be taken again: over anything but a directory, or a directory over an empty one, and failed otherwise |
| InstallStatus.HandlerAnswers | scripts/run_install_drill.py:1375-1396 | an install that raised after its journal was written: installed exactly if recovery confirms it, uncertain exactly if recovery raised or a file that is not its own stands at the target, else failed |
| InstallStatus.FailedCallAnswers | scripts/run_install_drill.py:1315-1451 | a call that raises at any step: which answer it leads to, by where the call was |
| InstallForeign.GoLosesIffRace | scripts/run_install_drill.py:1259-1274 | a step of install, rollback or recovery loses foreign bytes if and only if it is the restoring rename onto a target taken since the probe |
| InstallForeign.StepKeepsForeign | scripts/run_install_drill.py:1259-1274 | every step but a restoring rename that hits something keeps a foreign entry at a target or in quarantine |
| InstallForeign.ForeignSurvivesEveryRun | scripts/run_install_drill.py:1366-1371 | in every run with an outside writer, crashes and failures, foreign content stays at a target or in quarantine, unless a restoring rename hits something, which is the exact condition of `GoLosesIffRace` |
| InstallRace.RestoreRaceHappens | scripts/run_install_drill.py:1268-1273 | for every request and two foreign files, a legal run from a first use after which the drill's next step loses the second file |
| InstallQuarantine.QuarantineLeftIff | scripts/run_install_drill.py:1259-1267 | without an outside writer, quarantine files are left exactly by the runs in which a removal was cut off between its rename and its unlink, and they hold the payload |
| InstallReach.ReachIsRun | scripts/run_install_drill.py:1315-1451 | whatever the class can reach, a legal run of the step machine reaches |
| InstallDrill.Drill.MoveAside | scripts/run_install_drill.py:1261-1263 | the quarantining rename is a step of the machine, or raises, with or without its effect |
| InstallDrill.Drill.Restore | scripts/run_install_drill.py:1268-1274 | the probe and the restoring rename are steps of the machine, under interference and failures |
| InstallDrill.Drill.RemoveOwned | scripts/run_install_drill.py:1259-1274 | its executions, with any call raising, are runs of the machine that end with the right return value or exception; in a calm world an owned target is removed |
| InstallDrill.Drill.FinishPending | scripts/run_install_drill.py:1233-1243 | resolving a pending journal, with any call raising, is a run of the machine |
| InstallDrill.Drill.ActOnState | scripts/run_install_drill.py:1227-1256 | so are the branches on the journal state |
| InstallDrill.Drill.Reconcile | scripts/run_install_drill.py:1212-1256 | so is the whole recovery function, with its verdict or exception; in a calm world it computes `Recover` |
| InstallDrill.Drill.CleanUp | scripts/run_install_drill.py:1382-1396 | so is the clean-up of a failed install, with its status, also when the clean-up raises |
| InstallDrill.Drill.WriteTemp | scripts/run_install_drill.py:1163-1178 | the temporary file is written whole, or the write raises having written nothing, part or all of it |
| InstallDrill.Drill.StageTemp | scripts/run_install_drill.py:1362-1365 | the temporary file is written and then marked in the journal; when either raises, the handler takes over from there |
| InstallDrill.Drill.LinkAndCommit | scripts/run_install_drill.py:1366-1374 | link, unlink and commit are steps of the machine under interference and failures; a taken target raises |
| InstallDrill.Drill.TakeOwner | scripts/run_install_drill.py:160-196 | the whole token that is there, or a new one; a cut one raises, and a write that raises may leave one |
| InstallDrill.Drill.Install | scripts/run_install_drill.py:1315-1402 | every execution, under interference and with any call raising before or after its effect, is a run of the machine ending in the returned status; in a calm world disk and status are those of the machine's uninterrupted install, whose answers `InstallStatus` gives |
| InstallDrill.Drill.Rollback | scripts/run_install_drill.py:1404-1451 | the same for rollback |
| InstallLock.OwnedIsExclusive | scripts/run_install_drill.py:228-242 | when every held lock is taken and has one holder, contenders that share a directory are not inside together |
| InstallLock.ExclusiveFileBreaks | scripts/run_install_drill.py:222-253 | three contenders, without `flock`, where an open file can be unlinked: two of them end up inside together |
| InstallLock.ExclusionIff | scripts/run_install_drill.py:210-266 | transactions that share a directory are never inside together, in every interleaving with deaths, if and only if the locks are `flock` locks or an open lock file cannot be unlinked |
| InstallLock.NotEveryoneFails | scripts/run_install_drill.py:228-266 | at every moment of every interleaving of single calls, because the locks are taken in one order, contention has left at least one contender not refused |
| InstallLock.ContentionLeavesAWinner | scripts/run_install_drill.py:256-266 | once every contender has finished acquiring, at least one has got in |
| InstallSolo.SoloRoundTrip | scripts/run_install_drill.py:210-266 | left to itself with its locks free, a contender of any kind gets inside, and out again with every lock as it was |
| WebSocketFrames.ReadLengthField | scripts/run_chrome_probe.py:436-441 | a length field reads back, with its mask bit, whatever follows |
| WebSocketFrames.ReadLengthMinimal | scripts/run_chrome_probe.py:456-468 | only the minimal length field is accepted |
| WebSocketFrames.FrameRoundTrip | scripts/run_chrome_probe.py:424-476 | every well-formed frame, masked or not, reads back from its bytes with nothing left over |
| WebSocketFrames.ReadFrameIsEncoded | scripts/run_chrome_probe.py:445-473 | whatever the reader accepts is exactly the encoding of a well-formed frame |
| WebSocketFrames.ReceiveIff | scripts/run_chrome_probe.py:445-494 | the client accepts a frame if and only if the stream starts with that frame's bytes and its close payload is legal |
| WebSocketFrames.ClientFrameRoundTrip | scripts/run_chrome_probe.py:424-443 | what the writer accepts, the peer parses and unmasks to the same opcode and payload |
| WebSocketWire.ClientFrameOnWire | scripts/run_chrome_probe.py:424-443 | the writer accepts exactly the legal frames, and puts on the wire: the header of one final masked frame, bit by bit with the length codes 126 and 127, the four key bytes, and every payload byte under the key byte of its place |
| WebSocketWire.ServerFrameOnWire | scripts/run_chrome_probe.py:445-476 | what the client accepts is an unmasked header, bit by bit, and the payload as it is |
| WebSocketWire.Utf8Iff | scripts/run_chrome_probe.py:491-494 | a close reason decodes if and only if it is the UTF-8 encoding of scalar values |
| WebSocketWire.CloseIff | scripts/run_chrome_probe.py:478-494 | a close payload is accepted if and only if it is empty, or a code that may be sent and a text |
| WebSocketWire.MoreBytes | scripts/run_chrome_probe.py:445-476 | reading is incremental: a frame that is there, and any fault but a closed stream, stays whatever more arrives, and a stream reads as closed exactly if more bytes would change that |
| WebSocketMessages.BeginsIffEncoded | scripts/run_chrome_probe.py:445-476 | the frames of a stream are the frames encoded into it, and no others |
| WebSocketMessages.AssemblesTextMessage | scripts/run_chrome_probe.py:503-537 | every fragmented text message within the limit is returned whole, with one pong of equal payload per ping, in order |
| WebSocketMessages.AssembledWasSent | scripts/run_chrome_probe.py:522-537 | a returned message was sent, frame by frame, as text, and is at most 64 KiB |
| WebSocketMessages.MessageIff | scripts/run_chrome_probe.py:503-537 | the reader returns a payload, replies and a rest if and only if the stream carries that message, then the rest |
| WebSocketFailures.FailureIff | scripts/run_chrome_probe.py:503-537 | reading a message fails if and only if the stream starts with frames that are put together without an end and a fault comes next: each fault on its condition, after a pong for every ping before it and an echo of a close |
| DevTools.DevToolsSocket.ReadHttpHeaders | scripts/run_chrome_probe.py:356-371 | the headers end at the first blank line, and no byte of the stream is lost, for every split into receives; each error exactly on its condition |
| DevTools.DevToolsSocket.ReceiveExact | scripts/run_chrome_probe.py:539-555 | exactly the next bytes, buffer first, or the fault if the stream is too short, for every split |
| DevTools.DevToolsSocket.ReceiveLength | scripts/run_chrome_probe.py:456-468 | the length the stream's header spells, or its fault |
| DevTools.DevToolsSocket.ReceiveFrame | scripts/run_chrome_probe.py:445-476 | the frame at the front of the pending stream, or the fault in it |
| DevTools.DevToolsSocket.Reply | scripts/run_chrome_probe.py:508-519 | one masked control frame goes out that the peer reads back, or `sendall` raises and none does; in a calm world it goes out |
| DevTools.DevToolsSocket.ReceiveMessage | scripts/run_chrome_probe.py:503-537 | returns, replies and leaves what `ReadMessage` says of the stream, for every split; when sending a reply raises, the earlier replies are out and the outcome is that fault, or the close; in a calm world every reply is out |
| Chunker.GreedyKeepsLines | scripts/run_direct_benchmark.py:1659-1669 | the files concatenate to the lines, in order |
| Chunker.GreedyStaysWithin | scripts/run_direct_benchmark.py:1662-1666 | no file exceeds the limit |
| Chunker.GreedyIsOptimal | scripts/run_direct_benchmark.py:1656-1669 | no split of the lines into consecutive files within the limit uses fewer files |
| Chunker.NamesDiffer | scripts/run_direct_benchmark.py:1670-1673 | file names never collide, for any number of files |
| Chunker.CountsAddUp | scripts/run_direct_benchmark.py:1702-1717 | declared sample counts sum to the number of samples |
| Chunker.ChunkingIsExact | scripts/run_direct_benchmark.py:1656-1673 | whole lines, in order, each file within the limit, distinct names, each declared with its name, size and number of samples, and counts that add up |
| Chunker.RawSampleChunks | scripts/run_direct_benchmark.py:1656-1673 | the loop computes the greedy grouping, or fails exactly when a line is over the limit |
| Chunker.RawChunks | scripts/p5_performance.py:717-731 | the second chunker gives the same result for the same limit |
| Chunker.Declarations | scripts/run_direct_benchmark.py:1702-1717 | one declaration per file, in order |
| SampleFiles.GreedyIff | scripts/run_direct_benchmark.py:1659-1669 | the greedy grouping is the only one that loses nothing, fits, and closes a file only when the next line would not have fitted |
| SampleFiles.ChunkedIff | scripts/run_direct_benchmark.py:1656-1673 | chunking fails exactly on a line over the limit; otherwise the files are, in order and by name, those of that grouping |
| SampleFiles.NameShape | scripts/run_direct_benchmark.py:1670-1673 | the first file has no number, and any other its number in at least three digits |
| SampleFiles.ChunksHaveLegalNames | scripts/run_direct_benchmark.py:1824-1833 | whatever was chunked has names that the publisher takes |
| Publisher.SafeNamesAreNew | scripts/run_direct_benchmark.py:1826-1833 | a safe raw-sample name is none of the generation's own file names |
| Publisher.CommitCompletes | scripts/run_direct_benchmark.py:1838-1871 | writing manifest and marker over the staged files makes a complete generation |
| Publisher.Publisher.FillStage | scripts/run_direct_benchmark.py:1822-1872 | a filled stage is a complete generation with everything that was to be published; until then only the stage changes; in a calm world it is filled exactly if the names are safe and distinct |
| Publisher.Publisher.SwapIn | scripts/run_direct_benchmark.py:1874-1890 | after every step the artifact directory is absent, the old generation or the complete new one, and the old generation still exists; in a calm world the swap succeeds |
| Publisher.Publisher.Publish | scripts/run_direct_benchmark.py:1802-1893 | the same over the whole call, any system call failing; a raise leaves the old content, or the complete new generation if only the last sync failed; in a calm world it publishes exactly if the names are legal and the previous directory is free, and if the restoring rename does not fail, the old or the new generation is in place at the end |
| SplitMix.XorShiftInjective | scripts/p5_statistics.py:39-41 | a right xor-shift loses nothing |
| SplitMix.MixInjective | scripts/p5_statistics.py:38-41 | the mixing step never maps two words to one |
| SplitMix.MixUndone | scripts/p5_statistics.py:38-41 | the mixing step is undone, shift by shift and factor by factor, by an inverse written out on its own |
| SplitMix.StatesDiffer | scripts/p5_statistics.py:37 | states agree only after a whole period of 2^64 |
| SplitMix.NoDrawRepeats | scripts/p5_statistics.py:34-41 | no output repeats within 2^64 consecutive draws, from any seed |
| SplitMix.EveryWordIsDrawnOnce | scripts/p5_statistics.py:34-41 | any 2^64 consecutive draws are a permutation of the 64-bit words |
| Statistics.PercentileIff | scripts/p5_statistics.py:21-31 | the percentile is the sample value with at least the required share of the sample at or below it, and less than that, or nothing, strictly below it |
| Statistics.PercentileMonotone | scripts/p5_statistics.py:30-31 | a larger percent never gives a smaller percentile |
| Statistics.PercentilePermutes | scripts/p5_statistics.py:27-31 | the order of the sample does not matter |
| Statistics.BootstrapCi | scripts/p5_statistics.py:44-87 | the loops, threading the generator state, compute the bootstrap of the specification |
| Statistics.IntervalLaws | scripts/p5_statistics.py:52-87 | every interval is ordered, its bounds are sample values, its estimate is the nearest-rank value |
| Statistics.BootstrapIs | scripts/p5_statistics.py:44-87 | the interval from the draws: round `i` is the percentile of the sample values picked by its own draws, and the bounds are the 2.5 and 97.5 percentiles of the rounds |
| Statistics.SummaryIs | scripts/p5_statistics.py:90-129 | the summary's percentiles are those at 50, 95 and 99, its mean is the mean, its count the number of values |
| Statistics.SummaryIntervals | scripts/p5_statistics.py:101-126 | and its intervals the bootstraps of those percentiles under their own seeds |
| Statistics.Validate | scripts/p5_statistics.py:131-161 | the validator accepts exactly the valid summaries |
| Statistics.SummariesAreValid | scripts/p5_statistics.py:90-161 | a summary exists exactly for a non-empty non-negative sample and a legal number of resamples, and every summary passes the validator, with its percentiles in order |
| CommentEraser.EraseIsLineExact | scripts/check_mcp_deps.py:69-124 | same length, newlines exactly where they were, every character kept or made a space |
| CommentEraser.EraseTwice | scripts/check_mcp_deps.py:69-124 | erasing again changes nothing, with any nesting, from any scanner state |
| CommentEraser.BlankAllAt | scripts/check_mcp_deps.py:81-100 | blanked text is a space for every character but the line ends |
| CommentEraser.ErasePieces | scripts/check_mcp_deps.py:81-93 | a block comment with any nesting is blanked up to its own end |
| CommentEraser.ErasesExactlyComments | scripts/check_mcp_deps.py:69-124 | for every token sequence exactly the comments are blanked, literals and code are kept |
| CommentEraser.CommentAfterLiteralIff | scripts/check_mcp_deps.py:115-122 | after any clean tokens and before any following lines, a line comment behind a character literal is erased and the rest read as code if and only if the literal does not start with a letter |
| CommentEraser.RemoveRustComments | scripts/check_mcp_compat.py:54-109 | the loop over index, depth and flags computes the erasure |
| HeadingStack.IsLegacySection | scripts/check_mcp_docs.py:123-131 | the stack answers whether a legacy heading is still open after the headings up to the line |
| HeadingStack.StackIsSection | scripts/check_mcp_docs.py:123-131 | that is so exactly when some legacy heading at or before the line has no later heading of equal or shallower level up to it |
| HeadingStack.CollectHeadings | scripts/check_mcp_docs.py:135-139 | the headings of a document, each once, in ascending line order |
| HeadingStack.LegacyLines | scripts/check_mcp_docs.py:134-146 | both passes over a document answer the definition for every line |
| IndentParser.ReadIsClean | scripts/check_test_manifest.py:93-100 | a line yields only stripped scalars and legal keys |
| IndentParser.NodeSpans | scripts/check_test_manifest.py:103-108 | on any input, a block is a contiguous run of lines indented at least as far as the block, and reading never moves backwards |
| IndentParser.MappingSpans | scripts/check_test_manifest.py:117-128 | the same for mappings |
| IndentParser.ListSpans | scripts/check_test_manifest.py:131-157 | the same for lists |
| IndentParser.LoadIsTree | scripts/check_test_manifest.py:160-167 | whatever is loaded has distinct legal keys in every map, no empty list, stripped scalars, and a non-empty map at the root |
| IndentLayout.EntriesParse | scripts/check_test_manifest.py:117-128 | any layout of a map parses to its pairs and stops at the first line it does not absorb |
| IndentLayout.ItemsParse | scripts/check_test_manifest.py:131-157 | any layout of a list, with maps below or beside their dashes and dashes attached or not, parses to its items |
| IndentLayout.LayoutRoundTrip | scripts/check_test_manifest.py:93-167 | any layout of any legal tree, at any indent, loads as the tree |
| IndentLayout.LoadableIffTree | scripts/check_test_manifest.py:93-167 | a value can be loaded from some lines if and only if it is a legal tree with a non-empty map at the root |
| IndentGrammar.LoadIffLayout | scripts/check_test_manifest.py:93-167 | lines load as a value if and only if, token by token and with none left over, they are a layout of a non-empty map with that meaning |
| IndentLayout.ListScalarIff | scripts/check_test_manifest.py:135-142 | a scalar stands as a list item if and only if it has no colon |
| IndentReader.ReadMapping | scripts/check_test_manifest.py:117-128 | the loop that fills a dictionary computes `Mapping`, value, stop and error |
| IndentReader.Merge | scripts/check_test_manifest.py:149-155 | a list item's further pairs are appended in order, and a repeated key is the error |
| IndentReader.ReadList | scripts/check_test_manifest.py:131-157 | the loop that fills a list computes `ListItems` |
| IndentReader.LoadManifest | scripts/check_test_manifest.py:160-167 | the reader as a whole computes `Load` |
| Redactor.VisitIsBounded | scripts/artifact_envelope.py:331-367 | every visit, anywhere in the recursion, stays within its remaining depth, breadth and node budget and is safe under its key |
| Redactor.RedactionIsBounded | scripts/artifact_envelope.py:315-369 | output depth at most one over the limit, at most one entry over the limit per container, at most `max_nodes` nodes that are not the bound sentinel, and sensitive entries hold only booleans, nulls and the sentinel of their kind |
| Redactor.LimitsNeverBite | scripts/artifact_envelope.py:331-369 | on a tree within the limits the result is the redaction without limits or counter |
| Redactor.Redaction.VisitValue | scripts/artifact_envelope.py:331-367 | the visitor with its shared counter computes the specification, and leaves the counter where it says |
| Redactor.Redaction.VisitDict | scripts/artifact_envelope.py:344-353 | the dictionary loop, with truncated keys overwriting each other |
| Redactor.Redaction.VisitList | scripts/artifact_envelope.py:354-358 | the list loop with its bound sentinel |
| Redactor.RedactForPersistence | scripts/artifact_envelope.py:315-369 | the entry point computes `Redact` |
| RedactorImage.RedactionImage | scripts/artifact_envelope.py:331-369 | for every tree and policy, what each value becomes: every sentinel by kind and type, what is kept, the first entries up to the limit and the mark after them, keys cut to 256 characters with the last value of equal ones in the place of the first, depth and the running count of nodes |
| RedactorImage.UntouchedIff | scripts/artifact_envelope.py:331-369 | a tree within the limits survives as it is if and only if it is clean: booleans and nulls anywhere, numbers unless a secret, id or page key is above them, texts their rewriting leaves, short distinct keys, and nothing sensitive but the sentinel of its kind |
| RedactorBlind.RedactionIsBlind | scripts/artifact_envelope.py:331-369 | noninterference: trees that differ only in values hidden under keys that are sensitive once cut redact to the same |
| RedactorBlind.TextHiddenIff | scripts/artifact_envelope.py:337-353 | two texts that the rewritings tell apart come out the same under a key if and only if the key, once cut, is sensitive |
| RedactorBlind.LongKeyKept | scripts/artifact_envelope.py:350-352 | a sensitive key over 256 characters that is not sensitive once cut: its text is kept |
| RedactorTwice.SimpleTwice | scripts/artifact_envelope.py:331-369 | without limits, for every tree and key, a second pass changes nothing if and only if every leaf that is reached and not overwritten is settled |
| RedactorTwice.RedactTwiceIff | scripts/artifact_envelope.py:315-369 | the same for the redaction itself on every tree within the limits, whatever its keys |
| RedactorTwice.GentleTwiceIff | scripts/artifact_envelope.py:342-366 | when the rewritings of text are idempotent and leave the sentinels alone, that is exactly: no non-finite number that stays is reached under an error key |
| RedactorTwice.RedactTwiceApartIff | scripts/artifact_envelope.py:331-369 | under any limits, for every tree whose cut keys stay apart, a second pass changes nothing if and only if every leaf the first pass reached, as counted from the tree alone, is settled |
| RedactorDeep.RedactTwiceWithinNodesIff | scripts/artifact_envelope.py:331-369 | for every tree within the node limit, however deep and broad and whatever its keys, a second pass changes nothing if and only if every leaf that is reached and stays is settled, and so is every mark of left-out entries that a second pass has room to visit |
| RedactorTwice.CollisionPastLimit | scripts/artifact_envelope.py:331-353 | past the node limit with keys that meet when cut, a second pass changes the result although every leaf is settled |

## Left out

- InstallDrill.Drill.Install: the process does not die inside a method; a death is the machine's crash step from any state the method passes through.
- InstallDrill.Drill.Rollback: the same.
- RedactorTwice.CollisionPastLimit: trees that both exceed the node limit and have keys that meet when cut have no exact condition here, only this witness that a second pass can change them.
- DevTools.DevToolsSocket.Reply: what part of a frame went out before `sendall` raised is not recorded.
- Chunker.Declarations: the digests and the fixed fields around the list of declarations.
- Statistics.PercentileIff: exact reals; rounding of `percent / 100 * n`, of the mean, and non-finite inputs are not modelled.
- Statistics.BootstrapCi: the text label of the statistic, and the check for non-finite values, which reals do not have.
- Statistics.Validate: the checks that fields are present, numbers and finite, which the types settle.
- Statistics.SummariesAreValid: the same.
- CommentEraser.ErasesExactlyComments: raw strings, byte strings and unterminated literals or comments are not tokens of the grammar, and a character literal that starts with a letter is not one either, because the scanner misreads it; erasure itself covers every text.
- IndentLayout.LoadableIffTree: the lines are token lines, whose texts may hold characters that no line of a file can; and a scalar keeps its text, so the decoder's own error, which also rejects the manifest, is not modelled.
- IndentReader.LoadManifest: the same.
- The install drill: all runs use one artifact directory, with one journal and one owner token, though any targets. Not modelled are permissions and mode repair, symlink checks on parent directories, the journal's schema checks beyond the temporary name, writing into an existing file through its hard link, and the order in which an unsynced disk loses writes.
- The lock files: symlink refusal, errors other than contention, and a holder's file being replaced by hand. Directories are numbers, so one directory has one name; the code orders the lock paths as text and does not resolve the artifact directory, where two spellings are two paths.
- The socket: the handshake's header rules (lines 373-422), timeouts, and the commands sent over the connection. The second WebSocket client, in `scripts/run_direct_benchmark.py`, is a weaker duplicate.
- The chunkers: redaction and JSON encoding of a sample; a sample is its encoded line.
- The publisher: an outside process changing the directories, partial removal of the stage, and the content of the manifest beyond the files it vouches for.
- `stable_seed`: its hash is a parameter.
- The indentation parser: turning raw text into token lines (lines 24-65) and decoding a scalar (lines 68-90). The checks on a loaded manifest are field-by-field.
- The heading stack: the heading patterns and the documentation rules themselves.
- The redactor: the word lists of the key classifier and the regular expressions that rewrite text are parameters; negative limits, which no caller passes, are not modelled.
- `scripts/check_p5_performance.py`: its accounting of raw samples.
- The document checkers that search for fixed markers, live browser control and timing.
- The Rust crates are not part of this model.
