# Verified model of a fog-monitoring agent

This project models the algorithmic core of a peer-to-peer monitoring agent: the SQL aggregates and
string functions it loads into SQLite, the election-like leader selection, the ASSOLO bandwidth
estimator it runs between hosts, the completion of its latency table, and two in-place structures of
its server. Every operation that changes state in place is a method on a class or an array and is
proved against a specification function or predicate; what the program is for is then proved about
that specification, over all inputs, all runs or all reachable states.

| file | models |
|---|---|
| `CountingTree.dfy`, `Ranks.dfy`, `Aggregates.dfy` | the counting search tree and the mode, median and quartile aggregates |
| `Variance.dfy` | the one-pass variance aggregate |
| `Utf8.dfy`, `TextFunctions.dfy` | UTF-8 walking and decoding, and leftstr, rightstr, reverse, padc, charindex |
| `Selection.dfy`, `SelectionProtocol.dfy`, `ProtocolHistory.dfy` | one leader's selection object, any number of leaders inviting at once, and what their states say about the run |
| `ProbingRange.dfy`, `ProbingGrid.dfy`, `ProbingReceiver.dfy` | the estimator's probing range, its grid of rates, and the receiver and sender that share them |
| `Excursion.dfy`, `Segmentation.dfy`, `Estimator.dfy` | the estimate of one chirp, an independent definition of its segmentation, and the smoothing of estimates |
| `LossReorder.dfy`, `ChirpStats.dfy`, `Coalescence.dfy`, `Interleaving.dfy` | the loss and reordering records, the analysis of a whole batch of packets that drives all of these, what it stores and reports in terms of the packets alone, and a batch of interleaved chirps |
| `LinkCompletion.dfy`, `Storage.dfy` | the inference of latencies between groups, and the tables of nodes, leaders and links |
| `BandwidthRows.dfy`, `FillPasses.dfy`, `BandwidthCompletion.dfy` | what a bandwidth is inferred from, passes that fill pairs in from the measurements left so far, and the completion of the bandwidth columns |
| `TaskQueue.dfy`, `PollTable.dfy` | the FIFO queue and the compaction of the poll table |
| `Wrappers.dfy`, `KeptPositions.dfy`, `Reals.dfy` | optional values, positions of the elements a filter keeps, and the facts about products and quotients the proofs share |

`float` and `double` are modelled as `real`: every result about rates, delays, variances and column
values is about the exact arithmetic, without rounding. Other machine widths are written out where
they matter: the 32-bit reads of integer aggregates, and the unsigned subtractions of the reordering
pass. Clocks, random ids, measurements and answers of peers are parameters.

Where the code and its own comments or messages differ, the model follows the code:

- The integer aggregates store 64-bit integers but read them back as 32-bit ones.
  `IntegerPercentileIsExact` says exactly when a percentile survives this; `LargeMedianIsZero` is a
  column whose median does not.
- A comment in the reordering pass says that packets of chirps older than the first are marked and
  discarded; the overflow check above it already passes over them, so that branch is dead
  (`OlderChirpsAreOutOfTheWindow`).
- The same pass says that the position of a chirp's first packet is only wrong for chirps that are
  discarded; `FirstPositionIsRight` gives the exact condition, `FirstPositionCanBeWrong` a chirp that
  is kept and has a wrong one.
- The second pass over the packets computes the distance from the first chirp with a sign, so it does not pass
  over older chirps but looks them up before the table; `ChirpStats.Analysis.ComputeStats` says exactly which
  batches stay inside.
- Complete chirps whose packets arrive in turns share one array of delays, and a chirp can be estimated from
  the delays of another one (`InterleavedChirpsMix`); `EstimatedFromItself` is a condition that excludes it.
- The count of coalesced packets in a row goes on over the end of a chirp, so a chirp can be cut short
  at its second packet because the one before it ended badly (`LateBefore` in `Coalescence.dfy`).
- The filter takes the variation of its window in the order of the circular buffer, not of time
  (`AlfaIsLargest`, `OutputFollowsTheEstimate`).
- For a too small spread factor the receiver announces that it uses the minimum, but keeps the value.
- A rate update sends the high rate unscaled while the first packet scales it by 10000
  (`RateUpdateLosesHighRate`), and the sender always rebuilds the grid with a five percent step
  (`SenderGridMatches`). So after a rate update the sender probes only below the receiver's range
  (`UpdateProbesBelowTheRange`).
- "Chirp too big" depends on the threshold and the spread factor alone, never on the range; it is never
  reached for spreads of at least one and always for spreads of at most nine tenths
  (`SizeIgnoresRange`, `WideSpreadFits`, `SmallSpreadNeverFits`).
- Trying to begin a selection round drops the proposals of a round that is running (`KeptProposals`).
- A round that reaches nobody gives up even while smaller rounds it has overridden go on. Then two
  initiators can be granted by all (`SilentEndAllowsTwoWinners`); `NoneStranded` is the condition
  under which this cannot happen, and it holds whenever every leader answers.
- charindex compares decoded values, so a pattern with U+FFFD, U+FFFE or U+FFFF is also found where
  another of the three stands (`DecodedSearchIsExact`).
- Completing the link table twice changes no latency, but completion forgets bandwidths measured on pairs it
  fills in (`MeasurementsSurvive`), and a second one can then fill in other bandwidths
  (`SecondCompletionForgets`); it changes nothing exactly under the condition of `FillingSettles`.
- The first bandwidth report of a link makes its latency one-way, and a latency report of another group's node
  makes a row that counts as a measured bandwidth of zero (`BandwidthsKeepSymmetry`, `ReportsStayInGroups`).

## Model

| member | source | states |
|---|---|---|
| CountingTree.InsertedIsOneMore | sqlite3/extension-functions.c:1863-1883 | one insertion keeps strict search order and positive counts and adds exactly one occurrence of the value to the multiset |
| CountingTree.NodeInsert | sqlite3/extension-functions.c:1863-1883 | the heap tree after an insertion is the specified tree; the root pointer stays unless it was null; only tree nodes change |
| CountingTree.CountMap.Insert | sqlite3/extension-functions.c:1885-1887 | over any sequence of insertions the map stands for exactly the inserted values |
| CountingTree.InOrderTabulates | sqlite3/extension-functions.c:1889-1897 | the in-order walk of an ordered tree visits each distinct value once, strictly increasing, with its true multiplicity |
| CountingTree.TableIsUnique | sqlite3/extension-functions.c:1889-1897 | a multiset has only one such table, so what the walk visits does not depend on insertion order or tree shape |
| Ranks.SortedUnique | sqlite3/extension-functions.c:1486-1490 | two sorted arrangements of one multiset are equal: the sorted column is well defined |
| Ranks.ExpandIsSortedCopy | sqlite3/extension-functions.c:1889-1901 | the visited entries, each repeated by its count, are the sorted column |
| Ranks.BracketingIsPercentile | sqlite3/extension-functions.c:1503-1522 | the entries whose cumulative counts bracket a rank p are exactly the one or two distinct values at sorted ranks ceil(p) and floor(p)+1 |
| Aggregates.NodeIterate | sqlite3/extension-functions.c:1889-1897 | driving a callback over the heap tree is the fold of that callback over the in-order entries |
| Aggregates.MapIterate | sqlite3/extension-functions.c:1899-1901 | the same from the map, empty map included |
| Aggregates.ModeCtx.ModeStep | sqlite3/extension-functions.c:1410-1452 | nulls are skipped, the first value fixes the column kind, every other value is converted to that kind and counted once |
| Aggregates.StoredIsTheValue | sqlite3/extension-functions.c:1423-1451 | a value of the kind of its column is stored as it is, an integer among reals too; a real among integers loses its fraction and is moved into the 64-bit range |
| Aggregates.ModeCtx.ModeIterate | sqlite3/extension-functions.c:1458-1484 | one callback is one step of the mode fold |
| Aggregates.ModeCtx.MedianIterate | sqlite3/extension-functions.c:1491-1523 | one callback is one step of the early-stopping percentile fold |
| Aggregates.ModeScanFindsTop | sqlite3/extension-functions.c:1458-1484 | after the scan the tie counter is 1 exactly when one entry has strictly the largest count, and then that entry's value is held |
| Aggregates.TieCounterCounts | sqlite3/extension-functions.c:1458-1484 | the tie counter is the number of entries with the largest count |
| Aggregates.TopIsStrictMode | sqlite3/extension-functions.c:1454-1457 | a unique top entry of the table is exactly a value occurring strictly more often than every other input |
| Aggregates.ModeScanAnswers | sqlite3/extension-functions.c:1528-1543 | the answer of the scan is null exactly when no value beats all others, and otherwise reports that value |
| Aggregates.ModeCtx.ModeFinalize | sqlite3/extension-functions.c:1528-1543 | the aggregate on any rows: a result exactly when a strict mode exists, and that mode |
| Aggregates.MedianScanCollects | sqlite3/extension-functions.c:1491-1523 | the early-stopping scan adds up and counts exactly the entries that bracket the rank |
| Aggregates.PercentileScanAnswers | sqlite3/extension-functions.c:1548-1565 | for non-empty input the divisor is never 0 and the answer is the percentile of the sorted column |
| Aggregates.PercentileDivides | sqlite3/extension-functions.c:1486-1490 | at least the given quarters of the values are not above the percentile, and at least the others not below it |
| Aggregates.ModeCtx.PercentileFinalize | sqlite3/extension-functions.c:1548-1565 | null on no rows, otherwise the value at the rank, averaged when the two bracketing values differ |
| Aggregates.ModeCtx.MedianFinalize | sqlite3/extension-functions.c:1570-1577 | the percentile at n/2 |
| Aggregates.ModeCtx.LowerQuartileFinalize | sqlite3/extension-functions.c:1582-1589 | the percentile at n/4 |
| Aggregates.ModeCtx.UpperQuartileFinalize | sqlite3/extension-functions.c:1594-1601 | the percentile at 3n/4 |
| Aggregates.IntegerPercentileIsExact | sqlite3/extension-functions.c:1511-1513 | on integer columns the reported percentile is the true one if and only if the 32-bit wraps of the two bracketing values cancel |
| Aggregates.FitsWithoutWrapping | sqlite3/extension-functions.c:1464 | reading a stored integer as 32 bits gives a 32-bit number with the same remainder modulo 2^32; it is exact if and only if the integer fits in 32 bits |
| Aggregates.LargeMedianIsZero | sqlite3/extension-functions.c:1511-1513 | a concrete column, just 2^32, whose reported median is 0 |
| Variance.StdevCtx.VarianceStep | sqlite3/extension-functions.c:1389-1405 | after every row rM centres the values (their deviations cancel), rS is exactly the sum of squared deviations from rM, nulls do not count |
| Variance.ObservedOneMore | sqlite3/extension-functions.c:1399-1403 | the one-pass recurrence keeps that summary exact for one more value |
| Variance.CentreIsMean | sqlite3/extension-functions.c:1402 | deviations cancel only around the mean, so rM is the mean |
| Variance.StdevCtx.VarianceFinalize | sqlite3/extension-functions.c:1619-1627 | the result is the two-pass sample variance, zero for fewer than two values, never negative |
| Variance.VarianceOfPairs | sqlite3/extension-functions.c:1619-1627 | the variance of n > 1 rows, times n (n - 1), is the sum of the squared differences of all pairs of rows |
| Variance.VarianceIgnoresRowOrder | sqlite3/extension-functions.c:1389-1405 | the variance depends on the multiset of rows only |
| Utf8.CodePointIsInjective | sqlite3/extension-functions.c:275-289 | different well-formed characters have different, non-zero code points |
| Utf8.CodePointsEncode | sqlite3/extension-functions.c:275-289 | the code point read from a well-formed character is the one whose encoding, written out by division, is that character |
| Utf8.NextChar | sqlite3/extension-functions.c:329 | skipping continuation bytes moves to the next character, which is where the table of lengths points |
| Utf8.CharLen | sqlite3/extension-functions.c:308-322 | the table-driven count is the number of characters, or of those beginning within the first nByte bytes |
| Utf8.DecodesCodePoints | sqlite3/extension-functions.c:275-295 | at a character the decoder reads its code point (U+FFFD for the two noncharacters) and never zero; it reads zero at the end |
| Utf8.DecodedAlike | sqlite3/extension-functions.c:284-287 | two characters decode alike if and only if they are equal or both among U+FFFD to U+FFFF |
| TextFunctions.LeftFunc | sqlite3/extension-functions.c:1065-1098 | the first l characters, all when there are fewer, none when l is negative |
| TextFunctions.RightFunc | sqlite3/extension-functions.c:1104-1148 | the last l characters, all when there are fewer |
| TextFunctions.CountChars | sqlite3/extension-functions.c:1124-1127 | counting by continuation bytes gives the same number as counting by the table |
| TextFunctions.LeftThenRight | sqlite3/extension-functions.c:1065-1148 | the left k characters followed by the right len-k are the text, as characters and as bytes |
| TextFunctions.RightMirrorsLeft | sqlite3/extension-functions.c:1065-1148 | the right part is the reversed left part of the reversed text, also for counts beyond the length |
| TextFunctions.PartsOfText | sqlite3/extension-functions.c:1065-1148 | the left part begins the text and the right part ends it, with the number of characters asked for, none for negative counts and all when there are fewer |
| TextFunctions.ReverseFunc | sqlite3/extension-functions.c:1315-1350 | the result encodes the reversed characters, each with its bytes in order |
| TextFunctions.ReversedTwice | sqlite3/extension-functions.c:1312-1314 | reversal is its own inverse |
| TextFunctions.ReversedAt | sqlite3/extension-functions.c:1312-1314 | the character at a position is the one at the mirrored position |
| TextFunctions.PadcFunc | sqlite3/extension-functions.c:871-922 | an error exactly for a negative length, otherwise the centred text |
| TextFunctions.CentredShape | sqlite3/extension-functions.c:863-870 | exactly max(n, length) characters, the text in one piece, left and right differing by at most one space |
| TextFunctions.Matches | sqlite3/extension-functions.c:1001-1014 | the comparison loop ends at the pattern's end exactly when the pattern occurs there |
| TextFunctions.Substr | sqlite3/extension-functions.c:984-1023 | the first occurrence at or after the start, -1 exactly when there is none; the empty pattern is never found |
| TextFunctions.CharindexFunc | sqlite3/extension-functions.c:1032-1059 | the 1-based first occurrence at or after the start, 0 exactly when there is none |
| TextFunctions.DecodedSearchIsExact | sqlite3/extension-functions.c:1004-1009 | comparing decoded values finds exactly the pattern's own characters, in all texts, if and only if the pattern has none of U+FFFD to U+FFFF |
| TextFunctions.FalseMatch | sqlite3/extension-functions.c:285-287 | for every other pattern, a text in which it is found without standing there |
| Selection.Selector.InitSelection | src/selector.cpp:28-37 | an invitation is refused exactly by a READY leader whose id is not smaller; otherwise it becomes CHANGING |
| Selection.Selector.BeginRound | src/selector.cpp:209-219 | a round begins exactly when the status is FREE; received proposals are dropped in any case |
| Selection.Selector.AbortRound | src/selector.cpp:221-230 | giving up frees a READY leader and leaves an overridden one alone |
| Selection.Selector.CalcSelection | src/selector.cpp:39-80 | a start is accepted exactly by a CHANGING leader, which becomes RECEIVED |
| Selection.Selector.UpdateSelection | src/selector.cpp:82-90 | a proposal is kept exactly while the own round is STARTED |
| Selection.StatusIsThePast | src/selector.cpp:28-248 | after every sequence of calls: FREE exactly when nothing was begun, granted or started since the start, the last end, or the last round given up while asking; READY with the id of a round begun when free and neither overridden, given up, started nor ended since; STARTED while the own START stands undisturbed; CHANGING while a granted round has not started; RECEIVED while taking part in one |
| Selection.NextRoundBegins | src/selector.cpp:149-230 | a round tried right after the end of one, or after an own one was given up while asking, begins |
| Selection.IdIsOfLastRound | src/selector.cpp:209-219 | the id is that of the last round begun, zero before the first |
| Selection.KeptProposals | src/selector.cpp:82-90 | in every run a leader holds exactly the proposals received while its own round was running and no further round was tried since, even unsuccessfully, each as often as received and in order |
| Selection.ChosenWasProposed | src/selector.cpp:267-277 | what a round chooses is its own selection or a proposal with its id that arrived while it was running |
| Selection.Selector.ChooseBest | src/selector.cpp:267-277 | the choice is the own selection when no proposal of the own round is better, and otherwise the first of the best ones |
| Selection.BestIsUnique | src/selector.cpp:267-277 | there is only one such choice |
| Selection.BestIsCheapest | src/selector.cpp:267-277 | it costs no more than the own selection and any proposal of the round, at equal cost with no more changes, and replaces the own selection only when strictly better in this |
| Selection.FailedOwnSelectionStands | src/selector.cpp:271-276 | a failed own computation (cost 0) wins unless and only unless a proposal of the round has negative cost, or cost 0 and negative changes |
| Selection.ResolveLeaders | src/selector.cpp:283-295 | the resolved list is the storage-order filter of the known nodes whose id was chosen |
| Selection.ResolvedHasNoDuplicates | src/selector.cpp:288-295 | it has no duplicate ids when the stored ids are distinct, however often an id was chosen |
| Selection.ResolvedInOrder | src/selector.cpp:283-295 | the chosen nodes are listed in storage order, each as often as it is stored, and no other |
| Selection.NotifyAllM | src/leader/leader_connections.cpp:287-318 | a broadcast succeeds exactly when nobody declines and somebody accepts, or there is nobody to ask |
| Selection.AllReachableSucceeds | src/leader/leader_connections.cpp:287-318 | when everybody answers, success is acceptance by all |
| SelectionProtocol.StepKeepsOrderly | src/selector.cpp:28-37 | every start, invitation, lost answer, skip, abort and unanswered end keeps: granting leaders are CHANGING, READY leaders have a round, ids of rounds underway differ |
| ProtocolHistory.LeadersFollowTheirEvents | src/selector.cpp:28-248 | in every run each leader is in the state of its own selector after the invitations, beginnings and ends that reached it |
| ProtocolHistory.RoundIsItsSteps | src/leader/leader_connections.cpp:287-318 | in every run an inviting leader has asked exactly those it turned to since it began, and holds the consent of exactly those whose answer arrived |
| SelectionProtocol.StepKeepsInvariant | src/selector.cpp:28-37 | and every step but a needed unanswered end keeps every overridden or refused round covered by a READY inviting leader whose id is at least as large |
| SelectionProtocol.GiveUpKeepsUnlessNeeded | src/leader/leader_connections.cpp:315-317 | giving up when nobody accepted keeps the cover if and only if no refused or overridden round relies on the one given up |
| SelectionProtocol.ReachedInvariant | src/selector.cpp:207-230 | in every run of any number of leaders with distinct ids before a START the states are orderly, and covered while nobody needed gives up unanswered |
| SelectionProtocol.ReachingAllStrandsNobody | src/leader/leader_connections.cpp:293-317 | while every leader answers nobody gives up unanswered at all |
| SelectionProtocol.EveryRoundIsCovered | src/selector.cpp:207-230 | while any round is underway some READY initiator with an id at least as large is inviting, in every run in which nobody needed gives up unanswered |
| SelectionProtocol.UniqueWinner | src/selector.cpp:207-230 | in every run in which nobody needed gives up unanswered, at most one initiator is granted by all; it is the only READY leader, all others are CHANGING, every rival round underway has a smaller id |
| SelectionProtocol.LargestIdIsNeverRefused | src/selector.cpp:28-37 | in every run with distinct ids an initiator underway with an id not smaller than that of any READY leader is never refused |
| SelectionProtocol.NeverAllRefused | src/selector.cpp:207-230 | as long as nobody gives up unanswered, once some round has started there is a READY inviting leader in every later state |
| SelectionProtocol.AWinnerEmerges | src/leader/leader_connections.cpp:287-318 | while all leaders answer, after a start every way on without another start ends within as many steps as there are pairs of leaders, and wherever no round can ask or has to stop some initiator is granted by all |
| SelectionProtocol.WinningIsBeingGrantedByAll | src/leader/leader_connections.cpp:287-318 | when every leader answers, a broadcast succeeds exactly when all others granted it |
| SelectionProtocol.UnreachableLeaderAllowsTwoWinners | src/leader/leader_connections.cpp:295-317 | a concrete run with distinct ids and one unreachable leader in which two broadcasts succeed |
| SelectionProtocol.RepeatedIdAllowsTwoWinners | src/selector.cpp:31-33 | a concrete run with a repeated id, everybody answering, in which two broadcasts succeed |
| SelectionProtocol.SilentEndStrandsARound | src/selector.cpp:221-230 | a concrete run with distinct ids in which the largest round reaches nobody and gives up, and an overridden round is left without any READY leader |
| SelectionProtocol.SilentEndAllowsTwoWinners | src/selector.cpp:221-230 | its continuation, in which two initiators are granted by all and neither is READY |
| ProbingRange.CheckParameters | assolo-0.9a/Src/parse_cmd_line_rcv.c:416-468 | exits exactly for negative rates or low above high; otherwise the parameters are inside all limits exactly when the high rate is not zero, and each of them is moved to the nearest limit, the default threshold, or the limiting ratio only when it is outside |
| ProbingRange.UpdatedKeepsRangeOk | assolo-0.9a/Src/compute_bw_contextsw_rcv.c:362-429 | a range check keeps 0 < low, 5 low <= high <= 1500, high <= 2000 low, the average in [0.005, 3], and not both counters positive |
| ProbingRange.RangeOkOverRuns | assolo-0.9a/Src/compute_bw_contextsw_rcv.c:80-89 | the same over every run of estimates and range checks |
| ProbingRange.CountersCount | assolo-0.9a/Src/compute_bw_contextsw_rcv.c:80-89 | over every run of estimates and checks each counter says how many of the latest estimates were below 1.5 times the low rate, or above 0.66 times the high one, since the range last changed or, at the high end, a check last found three |
| ProbingRange.MoveFollowsTheEstimates | assolo-0.9a/Src/compute_bw_contextsw_rcv.c:366-402 | over every run a check moves the range if and only if the latest three estimates or more, since it last changed, were all close to one end (and the rates are not at their largest); then to around that end by the factor 4 or 7, so that each of those estimates lies on the inner side of the opposite new end |
| ProbingRange.AverageSuitsTheRange | assolo-0.9a/Src/compute_bw_contextsw_rcv.c:404-421 | after a move the average rate is the one closest to the old one inside its limits and between a tenth and a fifth of the low rate |
| ProbingGrid.GridSize | assolo-0.9a/Src/parse_cmd_line_rcv.c:506-535 | the loop finds the largest k whose k widening steps stay strictly inside half the range; it gives up exactly when 99 steps do not cover it |
| ProbingGrid.SizeIgnoresRange | assolo-0.9a/Src/parse_cmd_line_rcv.c:503-535 | the size of a chirp, and whether it is too big, depend on threshold and spread alone, not on the range |
| ProbingGrid.GridSizeBounds | assolo-0.9a/Src/parse_cmd_line_rcv.c:503-535 | at least one neighbour on each side for thresholds up to 10 percent, at most 49 from 2 percent on with spread at least 1: a chirp of 3 to 99 interarrivals |
| ProbingGrid.WideSpreadFits | assolo-0.9a/Src/parse_cmd_line_rcv.c:517-524 | the too-big branch is unreachable for spread at least 1 |
| ProbingGrid.SmallSpreadNeverFits | assolo-0.9a/Src/parse_cmd_line_rcv.c:517-524 | and always taken for spread at most nine tenths, by the geometric sum of the steps |
| ProbingGrid.FillsHalfOnce | assolo-0.9a/Src/parse_cmd_line_rcv.c:512-527 | the grid size is determined by range, threshold and spread |
| ProbingGrid.FillRates | assolo-0.9a/Src/alloc_rcv.c:79-86 | the in-place loop fills the array with the rates of the grid and touches nothing else |
| ProbingGrid.RatesIncrease | assolo-0.9a/Src/alloc_rcv.c:79-86 | the rates are strictly increasing |
| ProbingGrid.RatesAreSymmetric | assolo-0.9a/Src/alloc_rcv.c:82-86 | they are symmetric about the centre of the range |
| ProbingGrid.RatesFillTheRange | assolo-0.9a/Src/parse_cmd_line_rcv.c:512-546 | they lie strictly inside the range, and one more pair would not |
| ProbingGrid.RatesSpreadOut | assolo-0.9a/Src/parse_cmd_line_rcv.c:542-546 | away from the centre the distances between neighbours never shrink |
| ProbingGrid.DistancesWiden | assolo-0.9a/Src/parse_cmd_line_rcv.c:540-546 | the middle rate is the centre of the range, the first distance the threshold step, and each further distance the one before times the spread factor |
| ProbingReceiver.Receiver.ComputeParameters | assolo-0.9a/Src/parse_cmd_line_rcv.c:480-563 | when the chirp fits: the limited range with a chirp filling it (3 to 99 interarrivals for spread at least 1), the chirp's duration, and a larger inter-chirp time |
| ProbingReceiver.Receiver.SizeChirp | assolo-0.9a/Src/parse_cmd_line_rcv.c:497-535 | for every positive spread: when the parameters fit, the size fills half the range, all rates are positive and the high rate stays; otherwise the chirp has the largest size and the high rate falls to the low one |
| ProbingReceiver.Receiver.TimeChirp | assolo-0.9a/Src/parse_cmd_line_rcv.c:548-563 | the inter-chirp time is the one for the average rate, or twice the duration, and always exceeds the duration; no more than the average rate is sent over it, and exactly that when the chirp is short enough |
| ProbingReceiver.Receiver.UpdateRatesIat | assolo-0.9a/Src/alloc_rcv.c:63-98 | the arrays hold, from the chirp size alone, the same grid that sized the chirp, and the time of each packet |
| ProbingReceiver.Receiver.NoteEstimate | assolo-0.9a/Src/compute_bw_contextsw_rcv.c:80-89 | one step of these runs: the counters follow the estimate, the range stays, and the receiver stays valid |
| ProbingReceiver.Receiver.CheckForNewPars | assolo-0.9a/Src/compute_bw_contextsw_rcv.c:362-429 | the range moves as specified, grid and timing are rebuilt for it, the chirp keeps its size, and without a move the probed rates are unchanged |
| ProbingReceiver.Receiver.constructor | assolo-0.9a/Src/alloc_rcv.c:36-42 | a receiver started with checked parameters is valid: every later state has a consistent grid, timing and range |
| ProbingReceiver.SenderParameters | assolo-0.9a/Src/assolo_snd.c:307-379 | for any rates and sizes that fit its arrays: the sender accepts exactly when its checks hold, no rate is zero, and the chirp it rebuilds is shorter than the inter-chirp time |
| ProbingReceiver.EvenSizesAreRejected | assolo-0.9a/Src/assolo_snd.c:341-378 | a chirp with an even number of interarrivals is never accepted |
| ProbingReceiver.SenderGridMatches | assolo-0.9a/Src/assolo_snd.c:341-356 | the sender's grid is the receiver's if and only if the threshold is five percent |
| ProbingReceiver.SenderAcceptsReceiver | assolo-0.9a/Src/assolo_snd.c:336-378 | for the parameters of the first packet, before any rate update: at five percent, for a receiver in any valid state, the sender's gap is the receiver's in microseconds and positive, and it accepts if and only if the spread is at least 1.05 |
| ProbingReceiver.RateUpdateLosesHighRate | assolo-0.9a/Src/control_rcv.c:46-47 | decoding the first packet's high rate loses less than 0.0001 Mbps; decoding a rate update's gives, for any range in use, a rate below the low one and so never the high rate |
| ProbingReceiver.UpdateProbesBelowTheRange | assolo-0.9a/Src/assolo_snd.c:415-420 | at five percent, after any rate update, every rate the sender probes lies below the low rate of the receiver |
| ProbingReceiver.UpdateShrinksTheGap | assolo-0.9a/Src/assolo_snd.c:415-420 | so its chirps take longer than the receiver's, and the gap it leaves between them is smaller than the receiver's |
| Excursion.SegmentedOk | assolo-0.9a/Src/compute_bw_contextsw_rcv.c:152-203 | the segmentation ends with the last excursion inside the chirp and marks only growing positions before it, for any delays |
| Excursion.ComputeInstBwExcursion | assolo-0.9a/Src/compute_bw_contextsw_rcv.c:140-229 | the in-place scan terminates with every access in bounds and returns the specified estimate |
| Excursion.ScanExcursions | assolo-0.9a/Src/compute_bw_contextsw_rcv.c:152-203 | the loop finds the last excursion and writes exactly the marked positions |
| Excursion.FillLastExcursion | assolo-0.9a/Src/compute_bw_contextsw_rcv.c:208-224 | every position ends with its own rate if marked, before the last excursion and at least one, and with the rate just before the last excursion otherwise |
| Excursion.WeightedAverage | assolo-0.9a/Src/compute_bw_contextsw_rcv.c:217-227 | the average weighted by interarrival times, without division by zero |
| Excursion.EstimateIsProbed | assolo-0.9a/Src/compute_bw_contextsw_rcv.c:208-227 | every interarrival gets a rate of the grid and the estimate lies between the smallest and the largest probed rate, for any delays |
| Excursion.UnloadedPath | assolo-0.9a/Src/compute_bw_contextsw_rcv.c:152-153 | delays that never grow give the fastest usable rate |
| Excursion.OverloadedPath | assolo-0.9a/Src/compute_bw_contextsw_rcv.c:177-180 | delays that grow from the start give the slowest rate |
| Excursion.ClockOffsetCancels | assolo-0.9a/Src/compute_bw_contextsw_rcv.c:177-180 | adding a constant to every delay does not change the estimate, nor do delays beyond the usable part |
| Segmentation.EndsIsFallingBack | assolo-0.9a/Src/compute_bw_contextsw_rcv.c:173-180 | the test against the running peak holds exactly when the delay is below its start or below a fraction of some earlier rise |
| Segmentation.SplitIsUnique | assolo-0.9a/Src/compute_bw_contextsw_rcv.c:151-203 | there is only one way to split delays into excursions that start at the first growth and end at the first falling back |
| Segmentation.SegmentedIsTheSplit | assolo-0.9a/Src/compute_bw_contextsw_rcv.c:151-203 | the scan finds exactly that split: its last excursion is the unfinished one and it marks the growing positions of the long finished ones |
| Segmentation.ValuesFollowTheSplit | assolo-0.9a/Src/compute_bw_contextsw_rcv.c:183-220 | a position gets its own rate if and only if it lies in a finished excursion that is long enough, the delay grows there and the rate is at least one; every other position gets the rate just before the unfinished excursion |
| Segmentation.EstimateFollowsTheSplit | assolo-0.9a/Src/compute_bw_contextsw_rcv.c:208-227 | the estimate times the elapsed time is what the positions of the split carry at these rates |
| Estimator.SpreadWithinVariation | assolo-0.9a/Src/compute_bw_contextsw_rcv.c:43-54 | the window's maximum minus minimum never exceeds its summed absolute steps |
| Estimator.AlfaBounds | assolo-0.9a/Src/compute_bw_contextsw_rcv.c:57-60 | no division by zero; the weight is in (0, 0.33333] or one half, the latter exactly for a flat window |
| Estimator.AlfaIsLargest | assolo-0.9a/Src/compute_bw_contextsw_rcv.c:43-60 | the weight is 0.33333 exactly for a window that rises or falls throughout and is not flat |
| Estimator.AlternatingAlfa | assolo-0.9a/Src/compute_bw_contextsw_rcv.c:43-60 | for a window going back and forth between two values it is that divided by the number of steps |
| Estimator.Smoother.Remember | assolo-0.9a/Src/compute_bw_contextsw_rcv.c:24-33 | the circular buffer, read from its head, holds the latest estimates in order, and the running total is its sum |
| Estimator.Smoother.Weight | assolo-0.9a/Src/compute_bw_contextsw_rcv.c:43-60 | the loop computes smallest, largest and variation of the window and from them the specified weight |
| Estimator.Smoother.Smooth | assolo-0.9a/Src/compute_bw_contextsw_rcv.c:24-77 | nothing comes out until one estimate more than the window holds has arrived; then the VHF blend, or the mean of the latest estimates |
| Estimator.OutputBounds | assolo-0.9a/Src/compute_bw_contextsw_rcv.c:62-77 | a VHF output lies between the previous output and the new estimate, a moving average between the window's extremes |
| Estimator.OutputFollowsTheEstimate | assolo-0.9a/Src/compute_bw_contextsw_rcv.c:57-62 | a VHF output is half way between the previous output and the new estimate when the window is flat, and otherwise no further than a third of the way from the estimate |
| Estimator.OutputIsTheMean | assolo-0.9a/Src/compute_bw_contextsw_rcv.c:64-75 | the other filter puts out the mean of the latest estimates |
| Estimator.OutputInScale | assolo-0.9a/Src/compute_bw_contextsw_rcv.c:62-77 | when all estimates are between zero and the largest rate, so is every output of either filter |
| Estimator.ReceiverInputs | assolo-0.9a/Src/compute_bw_contextsw_rcv.c:217-226 | a valid receiver has positive total time for any usable part of a chirp, the entry past the last interarrival included |
| Estimator.TimesCarryPackets | assolo-0.9a/Src/alloc_rcv.c:85-96 | each interarrival time carries one packet at the rate of its position |
| Estimator.ChirpTakesItsTimes | assolo-0.9a/Src/parse_cmd_line_rcv.c:548-553 | the duration of a chirp is the sum of its interarrival times |
| Estimator.WriteInstantBw | assolo-0.9a/Src/compute_bw_contextsw_rcv.c:77-89 | an output in bits per second is noted in Mbps, and receiver, smoother and the scale of all estimates are kept |
| Estimator.EstimateInsideRange | assolo-0.9a/Src/compute_bw_contextsw_rcv.c:140-229 | in every valid receiver state a chirp's estimate lies strictly between the low and the high rate |
| LossReorder.OlderChirpsAreOutOfTheWindow | assolo-0.9a/Src/loss_reorder_rcv.c:34-43 | the unsigned overflow check passes over exactly the chirps outside the window, older ones included |
| LossReorder.StaleMeansOlder | assolo-0.9a/Src/loss_reorder_rcv.c:57-58 | packets of the current request and the one before it are not stale, older ones are; under request zero the unsigned subtraction makes all but the largest request stale |
| LossReorder.CheckReorderLoss | assolo-0.9a/Src/loss_reorder_rcv.c:5-76 | after the pass every record describes its chirp: packet count, last number, flag exactly when out of order or stale, first position; newest chirp and request number are right |
| LossReorder.OwnPacket | assolo-0.9a/Src/loss_reorder_rcv.c:45-67 | the update for a packet gives the description of its chirp with that packet |
| LossReorder.OtherPacket | assolo-0.9a/Src/loss_reorder_rcv.c:45-67 | and leaves the description of every other chirp as it was |
| LossReorder.CompleteChirp | assolo-0.9a/Src/compute_bw_contextsw_rcv.c:263-285 | an unflagged chirp with enough packets numbered in range is exactly 1..n in order if and only if no packet was duplicated |
| LossReorder.RecordMeans | assolo-0.9a/Src/loss_reorder_rcv.c:45-68 | the record of a chirp counts its packets, holds the number of the last one, and is flagged if and only if one of them other than the first of all has an old request or two of them arrived in the wrong order |
| LossReorder.NewestIsLargest | assolo-0.9a/Src/loss_reorder_rcv.c:45-50 | the newest chirp is the largest one inside the window |
| LossReorder.NewestRequestIsLargest | assolo-0.9a/Src/loss_reorder_rcv.c:60-61 | the newest request is the largest of the recorded packets after the first, or the one known before |
| ChirpStats.Analysis.NoteDelay | assolo-0.9a/Src/compute_bw_contextsw_rcv.c:286-334 | a packet of a complete chirp stores its delay or the unusable mark and adjusts the usable part, always between 1 and the chirp size |
| ChirpStats.Analysis.EstimateChirp | assolo-0.9a/Src/compute_bw_contextsw_rcv.c:346-350 | every state of the analysis meets what the excursion scan needs, and the estimate is a possible rate |
| ChirpStats.Analysis.HandlePacket | assolo-0.9a/Src/compute_bw_contextsw_rcv.c:252-358 | one packet of the pass is one step of the fold and reports exactly what is specified, with every access in bounds; it leaves the table exactly when its chirp is older than the first one |
| ChirpStats.Analysis.ComputeStats | assolo-0.9a/Src/compute_bw_contextsw_rcv.c:233-359 | the pass stays in the table if and only if no packet belongs to a chirp older than the first; up to the first such packet it sends exactly the specified reports to the smoother, in order, and leaves receiver, smoother and delays sound |
| ChirpStats.Analysis.OnTimer | assolo-0.9a/Src/signal_alrm_rcv.c:70-86 | every timer keeps a valid range and grid, the chirp size, a true running total, and every estimate and output so far between 0 and 1500 Mbps; the probed rates change only with a new request; an older chirp ends the pass as in ComputeStats |
| ChirpStats.ReportsInRange | assolo-0.9a/Src/compute_bw_contextsw_rcv.c:278-350 | every report is half the low rate or strictly between the low and the high rate |
| Coalescence.UsedMeans | assolo-0.9a/Src/compute_bw_contextsw_rcv.c:252-285 | a packet is turned into a delay if and only if its chirp lies inside the window, none of the chirp's packets has an old request, no two of them arrived in the wrong order, and at least n + 1 are stored |
| Coalescence.DelaysAreOfLatest | assolo-0.9a/Src/compute_bw_contextsw_rcv.c:286-318 | after any number of packets each stored delay is that of the latest packet with its number, or the unusable mark when that packet arrived together with the one used before it |
| Coalescence.UsableUpToTrouble | assolo-0.9a/Src/compute_bw_contextsw_rcv.c:288-334 | all of a chirp is usable until something first goes wrong after it has begun: a bad jumbo leaves the interarrivals before it, a second late packet in a row those before the two and the one ahead of them, at least two |
| Coalescence.CompleteChirpsReport | assolo-0.9a/Src/compute_bw_contextsw_rcv.c:337-350 | with several chirps recorded exactly one estimate is reported for each last packet of a complete chirp, in order |
| Coalescence.LostChirpReports | assolo-0.9a/Src/compute_bw_contextsw_rcv.c:263-282 | when the only chirp lost packets without being flagged, half the low rate is reported for every packet with its last number and nothing else |
| ChirpStats.EstimatedFromItself | assolo-0.9a/Src/compute_bw_contextsw_rcv.c:288-350 | a complete chirp is estimated from the delays of its own packets alone, whatever was analysed before, when its first packet precedes all later chirps and, until its last packet, no packet of a complete chirp is coalesced and none follows with the number of a packet of its own that has arrived; other chirps may arrive in between |
| Interleaving.InterleavedChirpsMix | assolo-0.9a/Src/compute_bw_contextsw_rcv.c:286-350 | eight packets of two complete chirps in turns: the delays of the first one give the fastest probed rate, but the slowest is reported for it |
| LossReorder.FirstPositionIsRight | assolo-0.9a/Src/loss_reorder_rcv.c:45-50 | the recorded first position is right if and only if the chirp is the first one or its first packet preceded all later chirps |
| LossReorder.FirstLocMeans | assolo-0.9a/Src/loss_reorder_rcv.c:45-50 | it is the position of the first packet when all recorded packets before it belong to earlier chirps, and zero otherwise |
| LossReorder.FirstPositionCanBeWrong | assolo-0.9a/Src/loss_reorder_rcv.c:45-50 | six packets after which a complete chirp in order is kept with a wrong first position |
| LinkCompletion.PassWritesRelays | src/leader/leader_storage.cpp:344-351 | in the latency columns each INSERT..SELECT writes the relay link of every pair it handles and no other row |
| LinkCompletion.HopsAreMeasured | src/leader/leader_storage.cpp:361 | no hop of a relay path is itself an inferred link |
| LinkCompletion.CompletionRelays | src/leader/leader_storage.cpp:344-408 | every inferred pair gets the latency along its relay path through the leaders; all other latencies are unchanged; for passes in any order and number |
| LinkCompletion.CompletionAdds | src/leader/leader_storage.cpp:344-408 | in numbers: an inferred pair gets x + y, or x + y + z between two followers, from the means of its hops and likewise from their variances, null if and only if a hop is missing or null, and no time |
| LinkCompletion.OrderIsIrrelevant | src/leader/leader_storage.cpp:344-408 | the order of the three passes does not matter for the latencies |
| LinkCompletion.CompletionIsIdempotent | src/leader/leader_storage.cpp:344-408 | completing completed latencies changes nothing |
| LinkCompletion.SelfMonitoringIsNeeded | src/leader/leader_storage.cpp:347-361 | a leader's measured link to its own follower survives the first pass if and only if the leader monitors itself |
| LinkCompletion.CompletionKeepsSymmetry | src/leader/leader_storage.cpp:341-412 | completion keeps a symmetric latency table symmetric |
| BandwidthRows.TotalInAnyOrder | src/leader/leader_storage.cpp:357-359 | the sum behind the average variance does not depend on the order of the rows |
| BandwidthRows.NarrowerEndDecides | src/leader/leader_storage.cpp:353-356 | the inferred bandwidth is x if and only if x is the best measured out of one end, or into the other, and the best at the other end, if there is one, is not smaller |
| BandwidthRows.LargerMeanDecides | src/leader/leader_storage.cpp:357-360 | the inferred variance is x if and only if x is the mean of the known variances at one end, and the mean at the other, if there is one, is not larger |
| BandwidthCompletion.MeasurementsSurvive | src/leader/leader_storage.cpp:353-361 | completion, passes in any order and number, keeps all bandwidth measurements if and only if none lies on a pair it fills in |
| BandwidthCompletion.CompletionFills | src/leader/leader_storage.cpp:353-361 | every pair to be filled in gets the smaller of the best bandwidths out of one end and into the other and the larger of the average variances, from the measurements left when its pass last begins; all other rows stay |
| BandwidthCompletion.InGroupsFills | src/leader/leader_storage.cpp:353-361 | when no measurement lies on a pair to be filled in, those are the measurements of the table before, whatever the order of the passes |
| BandwidthCompletion.OrderMatters | src/leader/leader_storage.cpp:344-411 | two orders of the passes give the same bandwidths if and only if every pair gets the same from the measurements left at its pass in either order, in particular when none lies on a pair to be filled in |
| BandwidthCompletion.FillingSettles | src/leader/leader_storage.cpp:353-361 | a second completion changes no bandwidth if and only if every pair gets the same from the measurements left at its pass as from those left after all passes, in particular when none lies on a pair to be filled in; a third one never changes any |
| BandwidthCompletion.SecondCompletionForgets | src/leader/leader_storage.cpp:353-361 | a family of tables without that property: when the only measurement lies between two followers, a third leader's bandwidth is taken over by the first completion and lost by the second |
| Storage.PassesSplit | src/leader/leader_storage.cpp:344-411 | completing whole rows is completing the latency columns and the bandwidth columns side by side |
| Storage.TableCompletes | src/leader/leader_storage.cpp:341-412 | for any table and passes, every pair to be filled in gets the latency along its relay path and the bandwidth inferred from the measurements left at its pass, which are those of the table when none lies on such a pair; all other rows stay |
| Storage.TableOrderIsIrrelevant | src/leader/leader_storage.cpp:341-412 | the order of the passes never matters for the latencies; for whole rows it does not if and only if every pair is inferred the same bandwidth in either order, in particular when no measurement lies on such a pair |
| Storage.TableSettles | src/leader/leader_storage.cpp:341-412 | a second completion changes no latency, and nothing at all if and only if every pair gets the same bandwidth from the measurements left at its pass as from those left after all passes; a third one never changes anything |
| Storage.LatenciesKeepSymmetry | src/leader/leader_storage.cpp:122-127 | latency reports keep the latencies symmetric |
| Storage.LatencyRow | src/leader/leader_storage.cpp:96-127 | every row after a latency report: the links to and from a target have the mean, variance and time of its last test, their bandwidth stays or, in a new row, is zero a month ago; all other rows stay |
| Storage.BandwidthRow | src/leader/leader_storage.cpp:96-133 | every row after a bandwidth report: the link to a target has the mean, variance and time of its last test, its latency stays or, in a new row, is zero a month ago; all other rows stay |
| Storage.BandwidthsKeepSymmetry | src/leader/leader_storage.cpp:107-133 | a bandwidth report keeps the latencies symmetric if and only if every link it reports was there already or leads to the node itself |
| Storage.ReportsStayInGroups | src/leader/leader_storage.cpp:96-133 | a report keeps every bandwidth measurement off the pairs to be filled in if and only if, for every such pair with the node, a bandwidth it reports was last measured at time zero and a latency it reports leaves no new row dated a month ago |
| Storage.LeaderStorage.AddNode | src/leader/leader_storage.cpp:37-56 | a node without a monitoring leader is monitored by this one, and another node with its address is forgotten; the groups stay consistent, as completion needs, if and only if the monitoring leader is known and a leader is stored as monitoring itself; addresses stay unique |
| Storage.LeaderStorage.AddMNode | src/leader/leader_storage.cpp:242-252 | a leader is stored unless the own address is empty, and another leader with its address is forgotten; the groups stay consistent if and only if it is not stored as monitored by another one and the forgotten one monitors nobody; addresses stay unique |
| Storage.OtherRowsStay | src/leader/leader_storage.cpp:21-56 | storing a leader or a node sets its own row, drops the others with its address and leaves all other rows as they are |
| Storage.LeaderStorage.AddTest | src/leader/leader_storage.cpp:96-120 | the measured columns are set whether or not the row existed; in a new row the other kind counts as zero a month ago |
| Storage.LeaderStorage.AddReportLatency | src/leader/leader_storage.cpp:122-127 | every measurement of a report is stored in both directions, the last one of a target winning, and symmetry is kept |
| Storage.LeaderStorage.AddReportBandwidth | src/leader/leader_storage.cpp:129-133 | every measurement is stored in one direction, with the exact condition for symmetry |
| Storage.LeaderStorage.AddReport | src/leader/leader_storage.cpp:151-156 | a whole report keeps the latencies symmetric if and only if each bandwidth target is the node itself, linked before, or a latency target of the same report; and it keeps the bandwidth measurements off the pairs to be filled in exactly as in ReportsStayInGroups |
| Storage.LeaderStorage.Complete | src/leader/leader_storage.cpp:341-412 | the table becomes the completed one, both kinds of columns, and its latencies stay symmetric when the groups are consistent |
| TaskQueue.Queue.Admit | src/queue.hpp:42-45 | a push is turned away exactly when the queue is stopped |
| TaskQueue.Queue.Append | src/queue.hpp:47-63 | the value is appended, the tail is the last reachable element and null exactly when the head is |
| TaskQueue.Queue.Pop | src/queue.hpp:66-88 | hands out the oldest value, which with the contents left makes up the contents before, and logs just that; or reports closure exactly when the queue is empty and stopped; the list keeps its shape |
| TaskQueue.Queue.StartQueue | src/queue.hpp:90-92 | clears the flag and nothing else |
| TaskQueue.Queue.StopQueue | src/queue.hpp:94-97 | sets the flag and nothing else |
| TaskQueue.RunConserves | src/queue.hpp:42-97 | in every interleaving the popped values followed by the contents are the accepted pushes in order |
| TaskQueue.PopsReturnAppends | src/queue.hpp:42-97 | in every interleaving the values the pops hand out, in order, followed by the contents left, are the contents before followed by the values appended |
| TaskQueue.AdmittedAreAppended | src/queue.hpp:42-63 | in every interleaving the pushes that saw the queue open are those appended and those still waiting |
| TaskQueue.StoppedSince | src/queue.hpp:90-97 | the queue is stopped exactly when it was stopped since it was last started |
| TaskQueue.ClosureLosesNothing | src/queue.hpp:84-87 | when a pop reports closure the queue is stopped and every accepted value has been popped |
| TaskQueue.StopAdmitsNoMore | src/queue.hpp:43-47 | after a stop exactly the pushes admitted before it can still be accepted |
| TaskQueue.StoppedForGood | src/queue.hpp:43-47 | a stopped queue accepts nothing more, whatever happens short of a restart, if and only if no push that saw it open is still waiting |
| TaskQueue.LatePushStaysBehind | src/queue.hpp:43-47 | a concrete run in which a push that saw the queue open is accepted after a pop reported closure |
| PollTable.Compress | src/server.cpp:195-207 | the loop terminates and the table holds exactly the live entries, in order, with their events |
| PollTable.ShiftDropsOne | src/server.cpp:199-205 | shifting the rest of the table down over a dead entry changes nothing else about the live entries |
| PollTable.CompactedKeepsLive | src/server.cpp:195-207 | every live entry is kept as often as it occurred, and no dead one |
| PollTable.CompactedInOrder | src/server.cpp:195-207 | the live entries are listed in order, each with its descriptor and its events |

## Left out

- Floating-point rounding, infinities and NaN; `stdev`, which adds only a square root to the variance.
- SQLite itself, SQL text, text in numeric columns, allocation failures and freeing: conversions of
  values are written out for nulls, integers and reals. Null arguments of the string functions.
- Counts beyond the range of `int` or 64 bits in the aggregates; row counts are unbounded here.
- Malformed UTF-8 in all text functions, and the byte order of the machine.
- TextFunctions.RightFunc: not modelled for negative lengths, where the program walks past the end of the text.
- TextFunctions.Matches: does not model that the program reads one character past the terminator before it stops.
- Sockets, polling, timers, waiting and notification, child processes, thread joining and the clustering
  script; answers of peers and measurements are parameters.
- SelectionProtocol.UniqueWinner: about the invitation phase only. After a START an invitation is accepted
  in the STARTED and RECEIVED states too, so a second round can be granted.
- Selection.Selector.CalcSelection: the computation a start sets off, and the network half of ending a round,
  are not modelled.
- The test for an empty proposal before it is sent assigns the cost instead of comparing it; the model takes
  proposals as received.
- ProbingReceiver.Receiver.ComputeParameters: not for parameters with which the chirp is too big, where the program
  keeps the old step around the lowered rate and times can become negative or infinite; and the write interval and
  the growth of the packet tables are not modelled. `ProbingReceiver.Receiver.SizeChirp` says
  what happens to the range when the chirp is too big.
- ProbingReceiver.Receiver.constructor: only for parameters with which the chirp fits, in particular all with a
  spread factor of at least one.
- ProbingReceiver.SenderParameters: the wire rounding of the parameters is not modelled, nor sizes beyond the
  program's arrays.
- Estimator.WriteInstantBw: the report packet and the interrupt-coalescence notice are not modelled.
- LossReorder.CheckReorderLoss: for batches whose first chirp lies a table's length or more below 2^31, where the
  program's signed copy of it would wrap; the sender starts counting at one.
- ChirpStats.Analysis.ComputeStats: for packets numbered 1 to n + 1, as the sender numbers them; what the program
  does after a packet of an older chirp is looked up before the table is not modelled.
- ChirpStats.Analysis.HandlePacket: the same, for the packet in hand.
- ChirpStats.Analysis.OnTimer: the same; timers without stored packets, the stop time and the packets sent are
  not modelled.
- ChirpStats.EstimatedFromItself: the condition is sufficient only; a chirp whose delays are overwritten may still
  get the estimate of its own, when those of the other one happen to give the same rate.
- Storage.LeaderStorage.AddNode: the hardware columns, the times nodes were last seen and the removal of old
  nodes are not modelled.
- Database queries for reports and monitoring lists, JSON messages, role switching, factories, command-line
  syntax and build files.
- PollTable.Compress: a full table is not modelled; there the program reads one entry past its end.
