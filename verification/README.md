# Models of the xpf tooling and command line

xpf is a firewall with clustered nodes.  This project models the part of the
repository around it that decides things: the oracles that turn traffic
evidence into PASS, COST or FAIL, the state machines of the remote command line,
the archive snapshots of the build script, the document and source scanners, and
the parsers and printers of the client.  Each model keeps the branches, constants
and error cases of the code it cites, and the properties are stated for every
input, every run or every interleaving.

| file | models |
|---|---|
| `Basics.dfy`, `Sorting.dfy`, `Segments.dfy`, `Evidence.dfy` | shared types; sorting by a key; cutting a trace into maximal stretches; interval evidence |
| `ZeroRuns.dfy`, `UpgradeOracle.dfy`, `UpgradeGuarantee.dfy` | the rolling-upgrade oracle, and what a PASS guarantees about silence |
| `StallWindows.dfy`, `LossBuckets.dfy` | the stall windows and the ping loss buckets of the cut analyzer |
| `ExcuseWindows.dfy`, `PlannedMoves.dfy`, `ZeroTally.dfy` | window merging, planned-move scores and zero counters of the iperf summarizer |
| `CliModes.dfy`, `CliLaws.dfy` | modes, cursor and lock of the remote client; what a single command keeps |
| `CliSession.dfy`, `CliClient.dfy` | main loop and interrupt handler, interleaved; the client as an object |
| `MonitorStreams.dfy` | the interactive monitor with its stream generations and bounded channel |
| `ArchiveSnapshot.dfy` | the snapshot protocol of the build script against a package manager |
| `TextLines.dfy`, `Fences.dfy`, `FenceScan.dfy` | offsets and lines; fenced code blocks, tracked in two ways |
| `ExpiryKeys.dfy`, `ExpiryScan.dfy` | the expiry-marker census, plain and accelerated |
| `MirrorMarks.dfy`, `MirrorCensus.dfy` | markers outside code; the census of mirrored document blocks |
| `RustBlank.dfy`, `SourceGraph.dfy` | the blanking lexer and the reachability worklist of the Rust source census |
| `SessionFilters.dfy`, `ShowSessions.dfy`, `NatPorts.dfy` | session filters that must not widen; the printed port ranges |

## How it is modelled

- Loops that update variables are methods with loop invariants, proved against a
  function or a property; the client is a class whose methods keep an invariant on
  its fields.  Interleavings are sequences of events, with one event per visible
  act of a thread.
- Times are `real`.  The tolerances of the code (1e-9, 1e-6, 1.5 s) stay in the
  model; a window is widened by half the tolerance to make its union exact.
- Calls to the daemon end in any pattern: carried out and seen, refused, or
  carried out while the client sees an error.  Functions of other
  packages (path normalisation, lexing, pipes, version checks) are arbitrary
  functions; what is assumed of them is written down in `CliModes.Lawful` (a pipe
  and a prefix leave a shorter line) and `CliLaws.PathLaws`.

## Where code and promise part

Each of these is a lemma, with the exact condition beside it.

- A PASS of `cut_verdict` bounds silence only under a sampling limit of at most
  0.75 s; the limit is off by default (`SilenceBoundExact`, `NoLimitNoBound`).
- A stream that resumes exactly at the horizon counts as resumed, but its
  interval is outside the sampling check (`ResumeAtHorizonHidesBlackout`).  So a
  PASS rules out a blackout only in cuts shorter than four sampling limits
  (`NoBlackoutExact`).
- The client can leave a configuration lock behind: when the answer to
  `configure` is lost or cancelled, and when an ending Ctrl-C is handled inside
  `configure` or inside end of input (`LockIsLeftIff`, with a run for each way).
- The mirror census skips a text without a near match, but a code span in the
  white space of a comment makes one appear after blanking (`SkipHarmlessIff`,
  `SkipMissesNear`).
- The two fence trackers disagree on a closing fence that is followed by one of
  the characters 0x1c to 0x1f, which `str.strip` removes and `bytes.strip` does
  not (`TrackersAgreeIff`, `SeparatorDiverges`).
- `blank` promises to keep newlines but loses the one in quote, newline, quote
  (`NewlineLostIff`, `NewlineIsLost`).
- The stall analyzer and the oracle bridge holes of different lengths
  (`ToolsAgree`, `SecondApartDiffers`).
- `resume_excused` has a default of -1 s, which excuses a dead stream in an
  interval that ends a second before the test (`ResumeExcusedIff`,
  `DefaultExcusesDeadStream`).
- An empty value token is accepted by the `clear` loop and widens the request;
  the client's own word split never produces one (`EmptyValueWidens`,
  `EverythingIff`).
- A port range wraps at the end of the 32-bit field; real ports do not get there
  (`RoundTripIff`, `WrappedPortsVanish`).
- Equal archive reads cannot see a change and a change back, as the build
  script itself says (`DescribesIffNotConfusable`, `RevertDefeatsSnapshot`).

## Model

| member | source | states |
|---|---|---|
| `Segments.SegsAreMaximal` | scripts/rolling_upgrade_oracle.py:161-177 | a single pass that extends or starts a stretch reports exactly the maximal stretches of linked rows, for any predicate and any link rule |
| `Segments.SegsSound` | scripts/rolling_upgrade_oracle.py:161-177 | every reported stretch is maximal |
| `Segments.SegsComplete` | scripts/rolling_upgrade_oracle.py:161-177 | every maximal stretch is reported, at an index the lemma returns |
| `Segments.SameSegs` | scripts/cut_stall_analyze.py:319-340 | two link rules cut a trace the same way if and only if they agree on every pair of neighbouring rows that are both on |
| `ZeroRuns.ScanZeroRuns` | scripts/rolling_upgrade_oracle.py:161-177 | the loop with `zero_start` and `zero_end` returns one run per maximal stretch of zero intervals with no gap over 1.5 s |
| `ZeroRuns.RunsAreMaximalStretches` | scripts/rolling_upgrade_oracle.py:161-177 | a run is reported if and only if it is the time span of such a maximal stretch |
| `ZeroRuns.StretchIsRun` | scripts/rolling_upgrade_oracle.py:161-177 | linked zero intervals between two carrying ones (or an end of the trace) form one run from the first start to the last end |
| `UpgradeOracle.OrderedLaws` | scripts/rolling_upgrade_oracle.py:226 | sorting by start gives the same intervals in order of start |
| `UpgradeOracle.CheckSampling` | scripts/rolling_upgrade_oracle.py:235-244 | the loop over `previous_end` finds nothing if and only if no interval is too wide and no gap too long; each failure it names is really there |
| `UpgradeOracle.AnyStall` | scripts/rolling_upgrade_oracle.py:246-251 | finds a stall if and only if one of the runs is one |
| `UpgradeOracle.CheckStream` | scripts/rolling_upgrade_oracle.py:226-257 | the checks of one stream pass if and only if the stream survives the cut; a failure names a condition that holds of that stream |
| `UpgradeOracle.CheckStreams` | scripts/rolling_upgrade_oracle.py:225-258 | the loop over the streams passes if and only if every stream survives; otherwise its reason is true of some stream |
| `UpgradeOracle.MissingBefore` | scripts/rolling_upgrade_oracle.py:213-219 | the missing ids are exactly those of streams without data in the window before the cut |
| `UpgradeOracle.CutVerdict` | scripts/rolling_upgrade_oracle.py:196-258 | passes if and only if the stream count, the data before the cut, the absence of error events and every stream check hold; each failure reason is true |
| `UpgradeOracle.CheckRuns` | scripts/rolling_upgrade_oracle.py:187-192 | one stream: every run is shorter than the limit |
| `UpgradeOracle.RunVerdict` | scripts/rolling_upgrade_oracle.py:180-193 | passes if and only if the stream count is right and every run of every stream is shorter than the limit |
| `UpgradeGuarantee.SilenceBounded` | scripts/rolling_upgrade_oracle.py:224-258 | a stream that survives with sampling limit m (2m at most 1.5) is silent between two successive carrying intervals under check for less than deadline + 4m |
| `UpgradeGuarantee.NoBlackout` | scripts/rolling_upgrade_oracle.py:196-258 | for one stream: from every instant of the cut on, a surviving stream that resumes strictly before the horizon carries data again within deadline + 4m |
| `UpgradeGuarantee.NoBlackoutExact` | scripts/rolling_upgrade_oracle.py:196-258 | over all evidence: every stream that passes is back within deadline + 4m from every instant of the cut if and only if the cut is shorter than 4m, because a resume exactly at the horizon counts |
| `UpgradeGuarantee.LastMomentIsLate` | scripts/rolling_upgrade_oracle.py:224-257 | in a longer cut, a stream that is dark from before the start of the cut to the horizon violates the bound |
| `UpgradeGuarantee.LastMomentSurvives` | scripts/rolling_upgrade_oracle.py:224-257 | and that stream passes all checks |
| `UpgradeGuarantee.SilenceBoundExact` | scripts/rolling_upgrade_oracle.py:224-258 | the silence bound holds for all evidence if and only if 2m is at most the run tolerance of 1.5 s |
| `UpgradeGuarantee.CoarseHidesSilence` | scripts/rolling_upgrade_oracle.py:224-251 | above that limit, for every deadline, evidence exists that passes with a silence of at least deadline + 4m |
| `UpgradeGuarantee.ResumeAtHorizonHidesBlackout` | scripts/rolling_upgrade_oracle.py:224-258 | for every cut and limit, a stream that resumes exactly at the horizon passes with a hole over the rest of the cut and the whole deadline |
| `UpgradeGuarantee.NoLimitNoBound` | scripts/rolling_upgrade_oracle.py:234-256 | without a sampling limit, which is the default, a hole of any length passes |
| `UpgradeGuarantee.NeighboursSampled` | scripts/rolling_upgrade_oracle.py:228-244 | two neighbouring intervals under check are compared by the sampling loop |
| `UpgradeGuarantee.StretchUnderDeadline` | scripts/rolling_upgrade_oracle.py:246-251 | the zero intervals between two successive carriers are one run, and so shorter than the deadline |
| `StallWindows.MergeWindows` | scripts/cut_stall_analyze.py:319-340 | the loop over `start`, `end` and `count` returns the windows of the specification, `end or start` on zero included |
| `StallWindows.StreamGaps` | scripts/cut_stall_analyze.py:343-346 | the windows at the default rate threshold of zero |
| `StallWindows.CountsAddUp` | scripts/cut_stall_analyze.py:319-340 | the interval counts of the windows sum to the number of rows that satisfy the predicate, for every row sequence |
| `StallWindows.ToolsAgree` | scripts/cut_stall_analyze.py:319-346 | on sorted, non-overlapping rows of positive length from time zero on, `stream_gaps` and the oracle's `_zero_runs` report the same windows if and only if no hole between two zero rows is over 1e-6 s and at most 1.5 s |
| `StallWindows.SecondApartDiffers` | scripts/cut_stall_analyze.py:328 | two zero rows a second apart are one run to the oracle and two windows to the analyzer |
| `StallWindows.TakeRow` | scripts/cut_stall_analyze.py:326-333 | one row that satisfies the predicate opens a window, joins the open one, or closes it and opens another |
| `StallWindows.SpansAreTimes` | scripts/cut_stall_analyze.py:319-340 | on such rows a window spans the first start to the last end of its rows |
| `ExcuseWindows.MergeWindows` | scripts/iperf-json-metrics.py:89-98 | the loop that rewrites the last window in place computes the merge |
| `ExcuseWindows.MergedLaws` | scripts/iperf-json-metrics.py:89-98 | the merged windows are in order, more than the tolerance apart, and have the union of the input |
| `ExcuseWindows.InsideIffExplained` | scripts/iperf-json-metrics.py:340-351 | an interval of at least the tolerance is inside the merged windows if and only if it is full-length and the union of the windows covers all of it |
| `ExcuseWindows.InsideMonotone` | scripts/iperf-json-metrics.py:343-351 | adding windows never turns an inside interval into an outside one, for all windows, intervals and minimum lengths |
| `ExcuseWindows.MergedMonotone` | scripts/iperf-json-metrics.py:89-98 | with more windows, every merged window lies within one of the new merged windows |
| `ExcuseWindows.Take` | scripts/iperf-json-metrics.py:94-97 | one turn rewrites the last window or appends a new one |
| `PlannedMoves.RunAround` | scripts/iperf-json-metrics.py:159-164 | the two while loops find the maximal stalled stretch around a stalled row |
| `PlannedMoves.WorstStall` | scripts/iperf-json-metrics.py:154-167 | the longest stall that touches the window, and whether every one of them is followed by an unstalled row |
| `PlannedMoves.MeasureStalls` | scripts/iperf-json-metrics.py:151-170 | the rounded longest stall of every stalled stream, and exactly the streams that never came back |
| `PlannedMoves.ScorePlannedMove` | scripts/iperf-json-metrics.py:120-212 | the exact three-way classification: PASS if and only if nothing stalled in the window, COST if and only if one stream alone stalled, never with all others, within the bound, and came back; FAIL otherwise; and the reported sets and counts |
| `PlannedMoves.WithinBoundOnGrid` | scripts/iperf-json-metrics.py:165-181 | on the millisecond grid rounding and tolerance vanish: a stream is within the bound if and only if every stall that touches the window is |
| `PlannedMoves.GridBound` | scripts/iperf-json-metrics.py:168-181 | `round(x, 3)` is the identity on the grid and the tolerance changes no comparison |
| `PlannedMoves.LongestExists` | scripts/iperf-json-metrics.py:154-165 | the longest touching stall exists |
| `PlannedMoves.LongestUnique` | scripts/iperf-json-metrics.py:154-165 | and is unique |
| `PlannedMoves.RunUnique` | scripts/iperf-json-metrics.py:159-164 | a row lies in at most one maximal stretch |
| `ZeroTally.NoteReport` | scripts/iperf-json-metrics.py:370-373 | the streams of one report move up to its start, others stay |
| `ZeroTally.LastDataStarts` | scripts/iperf-json-metrics.py:367-373 | the table holds, for exactly the streams that carry data, when they last start to |
| `ZeroTally.ResumeExcusedIff` | scripts/iperf-json-metrics.py:375-376 | a zero is resume-excused if and only if it lies in a resume window and its stream carries data from its end on, or the lookup default of -1 s takes effect |
| `ZeroTally.DefaultExcusesDeadStream` | scripts/iperf-json-metrics.py:376 | such an interval: the zero of a dead stream that ends a second before the test is excused |
| `ZeroTally.DeadStreamNeverExcused` | scripts/iperf-json-metrics.py:358-376 | in a test that starts at time zero a stream that never carries data again is never resume-excused |
| `ZeroTally.ClassesPartition` | scripts/iperf-json-metrics.py:403-410 | every zero stream interval has one class, so the three counts add up |
| `ZeroTally.SampleStep` | scripts/iperf-json-metrics.py:396-410 | one more sample is counted once, under its class, or not at all |
| `ZeroTally.TallyReport` | scripts/iperf-json-metrics.py:387-410 | the inner loop keeps the counters and id sets exact |
| `ZeroTally.Tally` | scripts/iperf-json-metrics.py:378-410 | total = excluded + resume-excused + outside, each the number of zero stream intervals of its class, and both id sets are exact |
| `LossBuckets.LossBuckets` | scripts/cut_stall_analyze.py:473-517 | an error if and only if a size is not positive; otherwise bucket k holds exactly the replies and interpolated missing probes of its stretch of time, and its loss percentage |
| `LossBuckets.Fill` | scripts/cut_stall_analyze.py:489-517 | the two arrays of counters give the buckets of the specification |
| `LossBuckets.CountReplies` | scripts/cut_stall_analyze.py:499-500 | each slot counts the replies of its bucket |
| `LossBuckets.CountGap` | scripts/cut_stall_analyze.py:505-508 | the inner loop over one sequence gap adds each missing probe to its bucket |
| `LossBuckets.CountMissing` | scripts/cut_stall_analyze.py:501-508 | each slot counts the missing probes of its bucket |
| `LossBuckets.Assemble` | scripts/cut_stall_analyze.py:510-517 | the list of buckets, built in order |
| `LossBuckets.ClampIsIdle` | scripts/cut_stall_analyze.py:496-497 | the clamp never changes an index: the index is the one bucket that holds the instant |
| `LossBuckets.InterpolatedBetween` | scripts/cut_stall_analyze.py:506-507 | a missing probe is placed between its two neighbours |
| `LossBuckets.BucketsConserve` | scripts/cut_stall_analyze.py:473-517 | the received counts sum to the replies, the expected counts to replies plus all positive sequence gaps |
| `LossBuckets.ExpectedTelescopes` | scripts/cut_stall_analyze.py:473-517 | when sequence numbers increase with time, the total expected is last - first + 1 |
| `RustBlank.Blank` | scripts/rust-source-census-13961.py:13-74 | the loop computes the token-by-token blanking |
| `RustBlank.Lex` | scripts/rust-source-census-13961.py:19-73 | the branches of the loop find the token at a position |
| `RustBlank.Turn` | scripts/rust-source-census-13961.py:18-73 | one turn appends the masked token and moves past it |
| `RustBlank.ScanComment` | scripts/rust-source-census-13961.py:25-35 | the depth loop finds the end of a nested block comment |
| `RustBlank.ScanString` | scripts/rust-source-census-13961.py:52-60 | the escape loop finds the end of a string, or one past the end of the text |
| `RustBlank.ScanHashes` | scripts/rust-source-census-13961.py:39-41 | the hashes of a raw string |
| `RustBlank.BlankAt` | scripts/rust-source-census-13961.py:13-74 | blanking works in place: each output character depends on its own token and input character only |
| `RustBlank.VisibleIsKept` | scripts/rust-source-census-13961.py:13-74 | a visible output character is the input character, kept by the lexer at that position |
| `RustBlank.NoRoomForToken` | scripts/rust-source-census-13961.py:13-74 | between two kept characters two apart there is no room for a blanked token |
| `RustBlank.BlankingIsClean` | scripts/rust-source-census-13961.py:13-74 | the output holds no double quote, comment opener or character literal |
| `RustBlank.BlankingIdempotent` | scripts/rust-source-census-13961.py:13-74 | blanking twice is blanking once |
| `RustBlank.NewlineLostIff` | scripts/rust-source-census-13961.py:13-74 | no newline is invented, and one is lost if and only if the lexer stops at a quote right before it that a quote follows |
| `RustBlank.NewlineIsLost` | scripts/rust-source-census-13961.py:63-66 | a quote, a newline and a quote become three spaces |
| `RustBlank.NewlinesKept` | scripts/rust-source-census-13961.py:14 | the documented promise to keep newlines, for texts without quote-newline-quote |
| `SourceGraph.ReachableFiles` | scripts/rust-source-census-13961.py:142-151 | the worklist terminates despite cycles and duplicates, and `seen` is exactly the existing files reachable from existing roots |
| `SourceGraph.VisitKeepsSound` | scripts/rust-source-census-13961.py:145-150 | one turn keeps the invariant, whether the popped name is new or not |
| `SourceGraph.SoundIsExact` | scripts/rust-source-census-13961.py:142-151 | with an empty stack, met is the same as reachable |
| `SourceGraph.Census` | scripts/rust-source-census-13961.py:198-204 | the census succeeds if and only if every file is reachable, and otherwise names exactly the others |
| `TextLines.SplitLaid` | scripts/instructions-census.py:317-318 | the lines of a split text lie over it in order, without holes, newline by newline |
| `TextLines.Find` | scripts/instructions-census.py:275-281 | the first occurrence at or after a position, or none |
| `TextLines.BisectRight` | scripts/instructions-census.py:278 | binary search in an ascending list |
| `TextLines.LineStarts` | scripts/instructions-census.py:318 | the running sums are the offsets of the lines |
| `TextLines.LineOf` | scripts/instructions-census.py:323 | the bisect lookup finds the line that holds an offset |
| `TextLines.OccursInLine` | scripts/instructions-census.py:320-324 | an occurrence of a newline-free literal lies in one line |
| `Fences.SpansTidy` | scripts/instructions-census.py:284-300 | spans are in order, disjoint and within the file |
| `Fences.FencedIffCovered` | scripts/instructions-census.py:284-300 | a line is fenced for the automaton if and only if some span covers it |
| `FenceScan.Candidates` | scripts/instructions-census.py:275-281 | the find-and-skip loop collects exactly the lines that start with the literal |
| `FenceScan.CandidateIffFence` | scripts/instructions-census.py:274-287 | those lines, for the two literals together, are exactly the lines that hold a fence |
| `FenceScan.FenceLines` | scripts/instructions-census.py:273-281 | the candidate set is the set of lines that hold a fence |
| `FenceScan.SpanTurn` | scripts/instructions-census.py:285-295 | one turn of the span loop is one step of the automaton |
| `FenceScan.TrackSpans` | scripts/instructions-census.py:282-295 | the span loop over candidates alone computes the closed blocks and the open fence of the whole file |
| `FenceScan.FenceSpans` | scripts/instructions-census.py:267-300 | find-and-skip returns the spans and the unclosed opener of the line-by-line automaton |
| `FenceScan.BlankLine` | scripts/mirror-census.py:109-120 | one turn of the blanker is one step of the automaton, and blanks what it has to |
| `FenceScan.BlankLines` | scripts/mirror-census.py:106-120 | the blanker's loop |
| `FenceScan.BlankFences` | scripts/mirror-census.py:99-123 | fenced lines become spaces, other lines stay, and the unclosed line number is right |
| `FenceScan.BlankedAt` | scripts/mirror-census.py:109-120 | line by line: spaces if fenced, the line itself otherwise |
| `FenceScan.TrackersAgreeIff` | scripts/instructions-census.py:267-300 | the two trackers report the same blocks and opener if and only if no line closes an open fence for `str.strip` but not for `bytes.strip` |
| `FenceScan.SpansCoverBlanked` | scripts/instructions-census.py:267-300 | on lines without the separators 0x1c to 0x1f the spans cover exactly the lines that are blanked, and the opener is the same |
| `FenceScan.SeparatorDiverges` | scripts/mirror-census.py:116 | a fence closed with a file separator behind it is closed for one tracker only |
| `ExpiryKeys.KeyNeedsLiteral` | scripts/instructions-census.py:141-160 | a text without the two literals, in any case, holds no key |
| `ExpiryKeys.BlankedFiltered` | scripts/instructions-census.py:245 | blanking code spans creates no literal |
| `ExpiryKeys.DroppedFiltered` | scripts/instructions-census.py:340 | collapsing code spans creates no literal |
| `ExpiryScan.PrefilterLosesNothing` | scripts/instructions-census.py:158-160 | a line the prefilter drops has no marker, no misplaced key and no key outside its code spans |
| `ExpiryScan.LinesWith` | scripts/instructions-census.py:320-324 | the find loop and the bisect lookup give exactly the lines that hold a literal |
| `ExpiryScan.SpanOf` | scripts/instructions-census.py:334-335 | the bisect lookup in the openings succeeds if and only if some span covers the line |
| `ExpiryScan.Lookup` | scripts/instructions-census.py:334-340 | whether a line is fenced, and whether by the fence that is never closed |
| `ExpiryScan.DroppedLine` | scripts/instructions-census.py:158-160 | a line the prefilter drops contributes nothing to the plain scan |
| `ExpiryScan.FilteredOut` | scripts/instructions-census.py:312-313 | a file without the literals has an empty plain scan |
| `ExpiryScan.Prefilter` | scripts/instructions-census.py:311-324 | the candidates are exactly the lines with a literal |
| `ExpiryScan.Prepare` | scripts/instructions-census.py:326-330 | spans, openings and unclosed fence |
| `ExpiryScan.ScanIndex` | scripts/instructions-census.py:333-343 | one line contributes to markers and complaint exactly what the plain scan says |
| `ExpiryScan.ScanCandidates` | scripts/instructions-census.py:332-343 | scanning the candidates alone gives the markers of all lines, and the first hidden line |
| `ExpiryScan.ScanKept` | scripts/instructions-census.py:326-349 | a file the prefilter keeps: markers, then the complaint |
| `ExpiryScan.ScanText` | scripts/instructions-census.py:311-349 | the accelerated scan equals the plain scan of every line |
| `ExpiryScan.ScanFile` | scripts/instructions-census.py:303-349 | for every file: byte prefilter, find loops and bisects yield exactly what scanning every line outside the fences yields |
| `MirrorCensus.NormaliseIffWords` | scripts/mirror-census.py:92-93 | two texts normalise alike if and only if they have the same words; normalising is idempotent; it is empty only without words |
| `MirrorCensus.SplitJoined` | scripts/mirror-census.py:92-93 | splitting undoes joining |
| `MirrorCensus.ScanMarks` | scripts/mirror-census.py:168-192 | the marker loop computes the machine's blocks and findings |
| `MirrorCensus.HandleMark` | scripts/mirror-census.py:169-188 | one marker, check by check, is one step of the machine |
| `MirrorCensus.MarksConserved` | scripts/mirror-census.py:168-192 | openings = blocks + NESTED + still open; closings = blocks + STRAY-CLOSE; every misplaced or missing count is reported, and nothing else is |
| `MirrorCensus.WellFormedIff` | scripts/mirror-census.py:168-192 | no NESTED, STRAY-CLOSE or UNCLOSED if and only if the markers are same-id pairs; the blocks are then the pairs |
| `MirrorCensus.SilentIff` | scripts/mirror-census.py:168-192 | no finding at all if and only if the markers are same-id pairs with counts exactly on the openings |
| `MirrorCensus.ScanFile` | scripts/mirror-census.py:142-192 | for a file as read: its blocks, and silence if and only if it can be read and nothing in it looks like a marker, or no fence hides one, the markers are pairs with their counts, and nothing else looks like one |
| `MirrorCensus.ScanAll` | scripts/mirror-census.py:233-235 | the blocks of all files in order, and whether every file was silent |
| `MirrorCensus.GroupById` | scripts/mirror-census.py:237-242 | the dictionary holds, for exactly the ids that occur, their blocks in order |
| `MirrorCensus.JudgeId` | scripts/mirror-census.py:244-286 | each complaint about an id is raised if and only if its condition holds |
| `MirrorCensus.QuietIffAgreed` | scripts/mirror-census.py:244-286 | where every copy declares its count, no complaint about an id is possible if and only if there are at least two copies with the same non-empty text, each declaring their number |
| `MirrorCensus.MembershipVerdict` | scripts/mirror-census.py:237-290 | for all blocks, declared or not: clean if and only if something is mirrored and no id draws a complaint |
| `MirrorCensus.Verdict` | scripts/mirror-census.py:233-290 | clean if and only if the walk had nothing to report, every file is silent, and all copies of every mirror agree in text and in number |
| `MirrorCensus.Census` | scripts/mirror-census.py:220-290 | the same from the texts of the files, unreadable ones included |
| `MirrorCensus.ReadFiles` | scripts/mirror-census.py:144-157 | every text is tokenised, in order |
| `MirrorMarks.CodeBlankedKeeps` | scripts/mirror-census.py:99-124 | blanking keeps every offset and every newline, and turns other characters into spaces or keeps them |
| `MirrorMarks.TileAt` | scripts/mirror-census.py:124 | whatever spans are blanked, each character is kept, or becomes a space without having been a newline |
| `MirrorMarks.JoinSplit` | scripts/mirror-census.py:109-123 | joining lines with newlines undoes splitting |
| `MirrorMarks.BlankText` | scripts/mirror-census.py:99-124 | fences by the line-by-line blanker, then code spans; and the line of a fence that is never closed |
| `MirrorMarks.Tokenise` | scripts/mirror-census.py:150-168 | everything the census reads in a text, found after blanking |
| `MirrorMarks.AnyHidden` | scripts/mirror-census.py:153-156 | UNCLOSED-FENCE if and only if a fence is never closed and something from its opening on looks like a marker |
| `MirrorMarks.AnyMiss` | scripts/mirror-census.py:159-167 | a near miss is reported if and only if something outside code looks like a marker and no marker starts there |
| `MirrorMarks.MarksStand` | scripts/mirror-census.py:159 | each marker stands where it says, and ends before the next one starts |
| `MirrorMarks.MarksComplete` | scripts/mirror-census.py:159 | a match that is not among the markers lies under one that is |
| `MirrorMarks.MarkIsNear` | scripts/mirror-census.py:85-86 | every marker also matches the loose pattern |
| `MirrorMarks.SkipHarmlessIff` | scripts/mirror-census.py:150-151 | the early return for texts without a near match is harmless if and only if nothing looks like a marker after blanking either |
| `MirrorMarks.SkipMissesNear` | scripts/mirror-census.py:150-151 | a code span in the white space of a comment makes it lose a finding |
| `NatPorts.Suffix` | cmd/cli/show_nat_ports_15226.go:20-50 | the loop over `lo`, `hi` and `parts` prints the ranges of the ports; the fallback of an old daemon |
| `NatPorts.RoundTripIff` | cmd/cli/show_nat_ports_15226.go:31-49 | the ranges stand for exactly the ports, in order and with repetitions, if and only if no run wraps around the 32-bit field |
| `NatPorts.WrappedPortsVanish` | cmd/cli/show_nat_ports_15226.go:41 | the last and the first value of the field, in this order, print as a range that stands for no port |
| `NatPorts.RangesApart` | cmd/cli/show_nat_ports_15226.go:31-49 | no two adjacent ranges could be joined |
| `NatPorts.PrintedPortsReadBack` | cmd/cli/show_nat_ports_15226.go:20-50 | an independent reader of the printed text gives back the ports if and only if no run wraps |
| `NatPorts.RealPortsReadBack` | cmd/cli/show_nat_ports_15226.go:20-50 | ports up to 65535 always read back, sorted or not |
| `SessionFilters.ParseClear` | cmd/cli/clear.go:170-223 | the filter loop accepts what reads as filters, applies them in order, and reports the first error |
| `SessionFilters.ParseLoop` | cmd/cli/clear.go:170-223 | the loop itself, against a fold over the tokens |
| `SessionFilters.ParsedIsApplied` | cmd/cli/clear.go:170-223 | applying while reading is reading first and applying afterwards |
| `SessionFilters.ReadOneIff` | cmd/cli/clear.go:172-221 | the loop body reads a filter if and only if the tokens spell it |
| `SessionFilters.ReadIffSpells` | cmd/cli/clear.go:171-222 | tokens are accepted if and only if they spell filters, and then as those filters |
| `SessionFilters.LastValueWins` | cmd/cli/clear.go:184-219 | each request field holds the last value typed for it |
| `SessionFilters.EverythingIff` | cmd/cli/clear.go:170-223 | an accepted request is the clear-all request if and only if it has no port, no NAT flag, and an empty last value in every text field |
| `SessionFilters.ClearNeverWidens` | cmd/cli/clear.go:178-182 | for non-empty tokens, an accepted request is the clear-all request if and only if nothing was typed |
| `SessionFilters.EmptyValueWidens` | cmd/cli/clear.go:185-187 | an empty value typed for a text filter is accepted and clears everything |
| `ShowSessions.ParseArgs` | cmd/cli/show_flow.go:57-202 | the argument loop yields the items in order and then rejects filters with `sort-by`; every error case |
| `ShowSessions.ParsedIsTaken` | cmd/cli/show_flow.go:66-184 | taking while reading is reading first and taking afterwards |
| `ShowSessions.ReadItemNarrows` | cmd/cli/show_flow.go:66-182 | a non-empty token is never read as a wildcard |
| `ShowSessions.AsksIffTyped` | cmd/cli/show_flow.go:66-202 | a parse asks for something, and sets its filter flag, if and only if a filter was typed |
| `ShowSessions.ResolveZone` | cmd/cli/show_flow.go:457-483 | a typed zone becomes a non-zero id, by name before number, or an error that says why; nothing else changes |
| `ShowSessions.SummaryOf` | cmd/cli/show_flow.go:364-381 | the summary request carries the selectors of the list request |
| `ShowSessions.ShowFlowSession` | cmd/cli/show_flow.go:204-227 | end to end: a request that leaves the client is unfiltered if and only if no filter was typed, and top talkers are never asked for with a filter |
| `ArchiveSnapshot.SnapshotsDescribeTheirArchives` | userspace-dp/build.rs:570-822 | for every interleaving and whatever is installed: a build that does not panic recorded an accepted version for every library, and it describes the linked archive unless, between the two reads of that archive, another archive was installed and the first one put back, or one archive came with two sets of metadata |
| `ArchiveSnapshot.DescribedUnlessChanged` | userspace-dp/build.rs:643-677 | the same for one library, from what its reads establish |
| `ArchiveSnapshot.RunInv` | userspace-dp/build.rs:570-822 | in every run, every read of every library is accounted for |
| `ArchiveSnapshot.StepInv` | userspace-dp/build.rs:643-685 | one event, any install included, keeps that account |
| `ArchiveSnapshot.RecordInv` | userspace-dp/build.rs:792-813 | the last step panics, or records a version read between two equal reads of the archive |
| `ArchiveSnapshot.ForwardIsDescribed` | userspace-dp/build.rs:570-822 | if archives only ever change to new ones, the recorded version is that of every package with the linked archive |
| `ArchiveSnapshot.DescribesIffNotConfusable` | userspace-dp/build.rs:765-822 | for every kind of library and every set of packages on offer: all builds that get through record what they linked if and only if no three packages on offer can be confused |
| `ArchiveSnapshot.RevertDefeatsSnapshot` | userspace-dp/build.rs:765-769 | for every kind: two packages with different archives and versions can be, the accepted one installed between the two reads |
| `MonitorStreams.EveryFrameIsCurrent` | cmd/cli/monitor.go:202-287 | for every interleaving: each rendered frame comes from the newest stream and is in the current mode, only the newest stream's end or error ends the monitor, and the channel stays within its capacity |
| `MonitorStreams.RunKeepsInv` | cmd/cli/monitor.go:202-287 | the invariant holds in every run |
| `MonitorStreams.StepInv` | cmd/cli/monitor.go:202-287 | one event keeps the invariant |
| `MonitorStreams.FramesInOrder` | cmd/cli/monitor.go:230-273 | for every run: what is shown of a stream is a beginning of what it delivered; of the current stream everything is shown, queued or about to be sent |
| `MonitorStreams.RunKeepsFlow` | cmd/cli/monitor.go:230-273 | nothing a stream delivers is lost, doubled or reordered, in every run |
| `MonitorStreams.TakeFlow` | cmd/cli/monitor.go:262-273 | taking a message keeps that account |
| `MonitorStreams.PressFlow` | cmd/cli/monitor.go:274-285 | so does a key press that starts a new stream |
| `CliModes.UnreleasedIff` | cmd/cli/shared.go:218-233 | a lock is unreleased if and only if it was granted to a client that knows, or to one that never learned of it |
| `CliLaws.DispatchAdds` | cmd/cli/shared.go:171-569 | every command, act by act: a release is owed in operational mode only right before configuration mode is stored |
| `CliLaws.DispatchSettles` | cmd/cli/shared.go:105-116 | every command leaves the cursor empty and no known grant unreleased when it ends in operational mode |
| `CliLaws.LeavesOnlyReleased` | cmd/cli/shared.go:551-555 | a typed line leaves configuration mode only by a release that succeeded |
| `CliLaws.PrefixIsThereAndBack` | cmd/cli/shared.go:803-845 | a prefixed command does what its bare prefix and then its inner command would do, in acts, outcome and mode, and then restores the cursor |
| `CliLaws.ExitConverges` | cmd/cli/shared.go:514-560 | with a daemon that answers, `exit` typed once more than the cursor is deep reaches operational mode |
| `CliLaws.UnstablePopTakesLonger` | cmd/cli/shared.go:521-522 | that bound needs the popped path to be normalised already |
| `CliSession.PromptIsTidy` | cmd/cli/main.go:300-348 | at the prompt, in every interleaving of main loop and interrupt handler: operational mode has an empty cursor, and a lock without an attempted release if and only if the client never learned of its grant |
| `CliSession.LockIsLeftIff` | cmd/cli/main.go:300-434 | when the process has ended, in every interleaving: a lock was left without an attempted release if and only if its grant got lost, the handler looked in one of two windows while a release was owed and none followed, or the grant came after the handler was done |
| `CliSession.OwedInWindow` | cmd/cli/main.go:311-314 | a release is owed while the stored mode is operational only inside `configure` and inside end of input |
| `CliSession.EndOfInputSlips` | cmd/cli/main.go:311-314 | a second Ctrl-C between the store and the release at end of input ends the process without a release |
| `CliSession.ConfigureSlips` | cmd/cli/shared.go:218-225 | so does one whose handler looks between the grant and the store of `configure` |
| `CliSession.LateGrantSlips` | cmd/cli/main.go:429-434 | and one that looks before the grant |
| `CliSession.LostGrantStays` | cmd/cli/shared.go:218-223 | a grant whose answer is lost or cancelled is never released, also on the regular way out |
| `CliSession.RunInv` | cmd/cli/main.go:300-434 | the invariant behind these holds in every interleaving |
| `CliSession.StepInv` | cmd/cli/main.go:300-434 | one act of either thread keeps it |
| `CliSession.LineRuns` | cmd/cli/main.go:337-348 | undisturbed, the acts of a line add up to what the dispatcher says |
| `CliSession.CursorStaysNormal` | cmd/cli/shared.go:318-320 | the stored cursor is normalised in every session |
| `CliSession.PrefixRestoresCursor` | cmd/cli/shared.go:803-845 | in every session: a prefixed command that leaves the client in configuration mode, successful or not, ends with the very cursor it started with |
| `CliClient.Ctl.constructor` | cmd/cli/shared.go:39-58 | a new client is in operational mode with an empty cursor and no lock |
| `CliClient.Ctl.Handle` | cmd/cli/shared.go:235-257 | a handler only adds calls that neither take nor release the lock, and touches neither mode nor cursor |
| `CliClient.Ctl.Configure` | cmd/cli/shared.go:194-233 | success means configuration mode at the top level with a known grant, anything else leaves mode and cursor alone |
| `CliClient.Ctl.DispatchOperational` | cmd/cli/shared.go:171-269 | no operational command leaves configuration mode, and only `configure` enters it |
| `CliClient.Ctl.ExitConfig` | cmd/cli/shared.go:514-560 | `exit` is a transaction: the client leaves with a release that succeeded, or stays with its cursor and reports the failure |
| `CliClient.Ctl.DispatchPlain` | cmd/cli/shared.go:305-569 | a command without a prefix leaves configuration mode only released |
| `CliClient.Ctl.DispatchConfig` | cmd/cli/shared.go:299-569 | so does every configuration command, and a prefixed one restores the cursor |
| `CliClient.Ctl.DispatchTopUp` | cmd/cli/shared.go:803-845 | after a prefixed command a client still in configuration mode has its normalised cursor back |
| `CliClient.Ctl.DispatchLine` | cmd/cli/shared.go:105-116 | one line keeps the client settled, in either mode, and leaves configuration mode only released |
| `CliClient.Ctl.Release` | cmd/cli/main.go:351-372 | the release on the way out is attempted whenever the client is in configuration mode |
| `CliClient.Ctl.EndInput` | cmd/cli/main.go:311-316 | end of input leads back to operational mode with an empty cursor and nothing owed |
| `CliClient.Ctl.Serve` | cmd/cli/main.go:300-354 | the main loop, undisturbed: settled between inputs, and every known grant has been given a release when it is over |

## Left out

- The NAT allocator, session sync, election and the rest of the dataplane: their code is not part of this model.
- Parsing of iperf output, ping output and JSON: the models start from intervals, rows and replies.
- Float rounding: times are exact; only `round(x, 3)` is modelled, on exact numbers.
- `version_verdict`, `read_cut_trace` and the other cells of the upgrade oracle: short checks on their own.
- Sums and rates of `score_planned_move` that do not enter its verdict (low-share streams, minimum and aggregate rates).
- UpgradeOracle.CutVerdict: takes the streams as a list in order of their id, not as a dictionary, and the error lines as given.
- ExcuseWindows.InsideIffExplained: for intervals of at least 1e-9 s; a shorter one is smaller than the tolerance it is compared with.
- LossBuckets.ExpectedTelescopes: stated for sequence numbers that increase with time.
- StallWindows.ToolsAgree: stated for sorted rows of positive length that do not overlap; on others the two tools measure different things.
- `classify` and the other text checks on a marker's payload: the scan keeps the payload as found.
- Characters outside ASCII: the non-ASCII dashes and spaces of the loose keys, undecodable bytes, and case folding beyond a to z are not modelled.
- Regular expressions as such: keys, code spans, comments, fences and markers are written out as functions.
- MirrorCensus.Census: takes the outcome of the walk over the tree, with its SCOPE findings, and the texts of the files as input.
- The order and the wording of findings, and which of several MEMBERS texts is printed.
- SourceGraph.ReachableFiles: the edges are given; the module and include regular expressions that collect them are not modelled.
- CliSession.LockIsLeftIff: cancelling a running command is modelled by its effect on answers, not as a step of its own; a release that was attempted and failed counts as attempted.
- CliClient.Ctl.Handle: which calls `show`, `commit`, `rollback`, `load` and the operational handlers make is left open; their number and outcome are arbitrary, and they touch neither mode nor cursor.
- CliLaws.ExitConverges: assumes that popping shortens a path and leaves it normalised; the path functions belong to another package.
- ShowSessions.ShowFlowSession: for non-empty tokens, and an upper-casing that never empties a protocol name.
- MonitorStreams.EveryFrameIsCurrent: assumes that a server renders in the mode it was asked for; terminal handling and the first start of a stream are not modelled.
- ArchiveSnapshot.DescribesIffNotConfusable: for the build of one library; packages change version, header and archive in one step.
- `prepare_snapshot_dir`, library discovery and the vendored libbpf copy of the build script.
- NatPorts.Suffix: a missing rule, which prints nothing.
