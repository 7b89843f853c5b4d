# pgbattery, verified

A Dafny model of the self-contained logic of pgbattery, a PostgreSQL high-availability
supervisor: the build stamp, the help text wrapper, the join flow, and the test harness
whose verdicts the project's claims rest on. Check the whole project with
`dafny verify dfyconfig.toml`.

| file | models |
|---|---|
| `Calendar.dfy`, `BuildStamp.dfy` | the build time as a proleptic Gregorian UTC stamp (`build.rs`); the form is that of section 5.6 of RFC 3339, the leap-year rule that of its Appendix C |
| `WordWrap.dfy` | greedy wrapping of help paragraphs (`src/cli.rs`) |
| `JoinFlow.dfy` | `pgbattery join`, stopped anywhere, told anything (`src/app.rs`) |
| `ProbeProtocol.dfy`, `ProbeCompleteness.dfy` | the prober's driver and worker threads, which share fields without a lock (`testing/dual_writability_prober.py`) |
| `ProbeOracle.dfy`, `MaximalRuns.dfy` | from a history of probe rounds to violation windows and a verdict (same file) |
| `Attempts.dfy`, `Inserts.dfy`, `BankChecker.dfy`, `BankWorkload.dfy`, `MonotonicReads.dfy`, `LeaderPolls.dfy` | the history checker: workloads, and checks over what they recorded (`testing/correctness_lite.py`) |
| `QuorumLeader.dfy`, `ClusterWait.dfy`, `SuiteRunner.dfy` | the scenario runner (`testing/ci_runner.py`) |
| `EvidenceGate.dfy` | the gate over a matrix of Elle runs (`testing/aggregate_elle_results.py`) |
| `Partition.dfy` | cutting the network into groups and healing it (`testing/five_node_suite.py`) |
| `Options.dfy`, `Dicts.dfy`, `Sequences.dfy` | an optional value; sums over dictionaries and walks over sets; concatenation and flattening |

Clocks, psql and docker answers, HTTP replies, file operations that may fail and the
interleaving of threads are parameters or nondeterministic events; a proof holds for
all of them. The servers' side is assumed only where a theorem needs it, and once:
exit status 0 of psql means the statement committed, a recognised refusal means it did
not and will not, and anything else may be either (`BankWorkload.Enabled`,
`Inserts.Possible`).

## Where the code does not do what it says

- The prober says that a collected probe always finds the worker no longer busy
  (`testing/dual_writability_prober.py:1049-1050`). A worker preempted before it sets
  its signal can set it inside the next round: `CollectCanSeeBusy` is such a run.
  `CollectSeesBusyIff` gives the exact condition at the moment the driver begins to
  wait: the worker is busy although it has set its signal or is just about to. No
  wrong probe is ever collected.
- The bank check reads the balances and the ledger with two queries. A transfer of
  unknown fate that commits between them is reported as a B4 mismatch against a correct
  server (`LateCommitIsReported`). Every continuation ends in a silent check if and only
  if no transfer of unknown fate can still commit when the check begins
  (`CheckIsSilentIff`); in particular it is silent when no transfer was left with an
  unknown fate (`KnownFatesAreSilent`).
- A join takes a directory with a `PG_VERSION` for complete. One that is killed after
  its clone wrote `PG_VERSION` and before it wrote the control file, or while it clears
  superseded data with the control file gone first, leaves a node without Raft state
  that refuses every later join (`KilledCloneStrands`, `KilledClearStrands`);
  `CanJoinIff` gives the exact condition. A current member whose provisioning is killed
  at that point does not refuse: told again that it is a member, it resumes on the
  unfinished clone. This can happen if and only if it has Raft state and its directory
  lacks `PG_VERSION` or the control file to begin with (`MemberResumesStrandedIff`).
- Stale Raft state must be wiped before a join (`src/app.rs:1573-1578`). A wipe that is
  killed after `raft.db` went is not taken up again: the next start joins anew over the
  files that are left. This can happen if and only if the node has a Raft file besides
  `raft.db` (`JoinsOverStaleIff`).
- A scenario that passes but cannot write its result down is listed as PASS in a run
  that exits 1 (`PassCanExitOne`); `ExitZeroIff` gives the exact condition.
- `_wait_for_cluster` with replication health and one expected leader can converge if and
  only if at most three nodes are live, besides asking for at least one node and no
  contradictory leader (`HealthConvergesIff`): the replica shape adds up to at most two.
- A heal deletes a rule for every command of its partition, also when the partition
  failed midway. A pair that had a rule before then loses one, exactly if one of the
  commands that were not executed names it (`HealAfterFailureIff`,
  `PartitionThenHeal`); `HealTakesTheRuleOfNode1` is such a run. However far the
  partition came, its heal restores all rules if and only if no pair that was to be cut
  had one (`HealAlwaysRestoresIff`).
- The evidence gate reads a seed with `or`, so a seed of 0 that only the matrix recorded
  counts as missing (`SeedZeroIsMissed`); `SeedIsSeenIff` gives the exact condition.
- A read regression is kept as if the read before it had shown the running maximum. For
  the reads 5, 3, 4 it had not (`EvidenceCanMislead`); it had exactly when it was no
  regression itself (`EvidenceIsARead`).
- `wrap_words` promises columns and counts bytes. Two words of two accented letters each
  would fit five columns and come on two lines (`BytesAreNotColumns`). The two counts
  agree for ASCII text and for no other (`LenIsCountIff`).
- Build stamps sort as text in time order over an interval around the epoch if and only
  if its years lie in -1 to 9999 (`SortsExactlyTo9999`).

## Model

| member | source | states |
|---|---|---|
| Calendar.CivilFromDaysWalksTheCalendar | build.rs:43-54 | for every day count whose shift by 719468 fits 64 bits, which is every one a second count can give, no step overflows and the closed form, with truncating division, is the date reached by walking the Gregorian calendar one day at a time from 1970-01-01, forwards or backwards, and is valid |
| Calendar.WalkSteps | build.rs:43-54 | the walk gives valid dates and day n + 1 is the calendar successor of day n, also across day 0 |
| Calendar.WalkIsUnique | build.rs:43-54 | any numbering of dates with day 0 at the epoch and successive days successive is the walk |
| Calendar.DayCountUndoesWalk | build.rs:43-54 | counting the days from the epoch to a date, by years and months, gives the day number back |
| Calendar.WalkIsIncreasing | build.rs:43-54 | later day numbers are later dates |
| BuildStamp.FieldsCountBack | build.rs:33-39 | the six fields of every 64-bit second count are in range and count back to that second |
| BuildStamp.FieldsIncrease | build.rs:33-39 | the fields of a are lexicographically before those of b exactly when a < b |
| BuildStamp.StampRoundTrip | build.rs:33-39 | parsing the formatted text gives the second back, for every 64-bit count, signs and long years included |
| BuildStamp.StampShape | build.rs:33-39 | every text has the RFC 3339 frame: at least four characters of year, then digits, hyphens, T, colons and Z in their places |
| BuildStamp.SortsExactlyTo9999 | build.rs:33-39 | over an interval around the epoch the texts sort in time order if and only if its years lie in -1 to 9999 |
| BuildStamp.FiveDigitYearsSortEarly | build.rs:33-39 | no text of year 10000 sorts after one of 1970 |
| BuildStamp.NegativeYearsSortBackwards | build.rs:33-39 | no text of year -2 sorts before one of year -1 |
| WordWrap.WrapWords | src/cli.rs:621-637 | the loop computes the greedy layout of the words of the paragraph |
| WordWrap.GreedyIsLayout | src/cli.rs:621-637 | the greedy layout keeps all words in order, and every line fits or is a single overlong word |
| WordWrap.GreedyIsOptimal | src/cli.rs:621-637 | no layout that obeys the rule has fewer lines |
| WordWrap.WrapIsBest | src/cli.rs:621-637 | the wrapped text has the words of the paragraph, on the fewest lines the rule allows; wrapping it again changes nothing; the only white space in a line is the blank between words; and no line of ASCII text has more than `width` characters, unless it is one word |
| WordWrap.LenIsUtf8 | src/cli.rs:625 | the length that is compared is the number of bytes of an explicit UTF-8 encoding |
| WordWrap.Utf8RoundTrip | src/cli.rs:625 | that encoding decodes back to each character, by lead byte and continuation bytes |
| WordWrap.LenIsCountIff | src/cli.rs:616-625 | the length is the number of characters if and only if all are ASCII |
| WordWrap.BytesAreNotColumns | src/cli.rs:616-637 | a paragraph of five characters that is broken at width five |
| WordWrap.SpacesAreListed | src/cli.rs:624 | the white space that separates words is exactly the 25 code points of Unicode's White_Space |
| ProbeOracle.ViolationWindows | testing/dual_writability_prober.py:429-461 | the grouping loop yields one window for each maximal run of adjacent violating rounds with consecutive sequence numbers, with its ends, count and span |
| ProbeOracle.WindowsPartitionViolations | testing/dual_writability_prober.py:429-461 | the windows hold every violating round once; sizes sum to the violation count; last minus first plus one is the size; no two neighbours could be merged |
| ProbeOracle.Analyze | testing/dual_writability_prober.py:635-704 | every count, list and window of the report is that of the rounds, reasons, unclassified texts, missing tables and node count included, and the verdict is FAIL exactly when some round has two confirmed acceptances, else PASS exactly when the observability thresholds are met |
| ProbeOracle.CountRounds | testing/dual_writability_prober.py:635-704 | the histogram of acceptance counts, the probe totals and the numbers of reduced and lost rounds |
| ProbeOracle.TallyReasons | testing/dual_writability_prober.py:666-679 | how often each reason and the missing-table reason occur, and the unclassified texts in order |
| ProbeOracle.EveryUnclassifiedTextOnce | testing/dual_writability_prober.py:673-679 | the listed texts are exactly those of unclassified errors, each once |
| ProbeOracle.NodeCount | testing/dual_writability_prober.py:683 | the widest round, or the configured number of nodes without rounds |
| ProbeOracle.FindViolations | testing/dual_writability_prober.py:349-352 | exactly the rounds with at least two acceptances, in order |
| ProbeOracle.MaxSpan | testing/dual_writability_prober.py:522-565 | the largest window span, 0 without windows |
| ProbeOracle.RoundsMean | testing/dual_writability_prober.py:349-366 | a round violates if two different entries are acceptances, has lost observability if two are indeterminate, and reduced observability if one is |
| ProbeOracle.SpansAreTimes | testing/dual_writability_prober.py:409-416 | the span of a window is the time between the starts of its first and last round |
| ProbeOracle.TotalsAre | testing/dual_writability_prober.py:635-704 | the probe totals are the sizes of the sets of all entries and of the indeterminate ones |
| ProbeOracle.AcceptingAre | testing/dual_writability_prober.py:635-704 | the histogram counts the rounds in which exactly that many entries are acceptances |
| ProbeOracle.ViolationsAre | testing/dual_writability_prober.py:635-704 | the violating rounds are listed in order, each after as many as come before it |
| MaximalRuns.RunsAreTheRuns | testing/dual_writability_prober.py:429-461 | scanning a sequence lists its maximal runs in order, each once and none missed |
| MaximalRuns.RunsAreUnique | testing/dual_writability_prober.py:429-461 | a sequence has only one such list |
| ProbeProtocol.ActionKeepsInv | testing/dual_writability_prober.py:1016-1054 | every single read or write of a shared field, by the driver or any worker, keeps the invariant |
| ProbeProtocol.RunsKeepInv | testing/dual_writability_prober.py:1420-1484 | the invariant holds after every interleaving |
| ProbeProtocol.CollectedProbesAreCurrent | testing/dual_writability_prober.py:1016-1031 | a probe that `collect` returns ran for the round most recently dispatched to that worker, never for an earlier one that overran |
| ProbeProtocol.RecordedRoundsAreTrue | testing/dual_writability_prober.py:1420-1466 | every recorded round holds one entry per node, each borne out by what happened at that node in that round: a probe with that outcome, an overrun, a wait that gave up, or an early signal |
| ProbeProtocol.EntriesAreExplained | testing/dual_writability_prober.py:1420-1466 | behind every entry of every recorded round lies a step of the run that explains it; a timed-out one means that `_done` was unset when the wait gave up, or that the wait ended on a signal owed for the round before, with no result yet |
| ProbeProtocol.FailMeansTwoWriters | testing/dual_writability_prober.py:559-565 | in every interleaving, a FAIL verdict on the recorded rounds means two different nodes accepted a write in one round |
| ProbeCompleteness.ActionKeepsOnce | testing/dual_writability_prober.py:1016-1054 | every step of every thread keeps what a worker has to show for each round: at most one probe, and none in a round in which it was found busy |
| ProbeCompleteness.ProbesOncePerRound | testing/dual_writability_prober.py:1016-1054 | in every interleaving a worker probes a round at most once, and not at all in a round recorded as an overrun |
| ProbeCompleteness.TwoWritersAreSeen | testing/dual_writability_prober.py:1420-1466 | two nodes that accepted the probe of one recorded round make it a violation, unless the wait for one of them ended without its result |
| ProbeCompleteness.ViolationIffTwoWriters | testing/dual_writability_prober.py:1420-1466 | a recorded round is a violation if and only if two nodes accepted its probe and the wait for neither ended without its result |
| ProbeCompleteness.FailIffTwoWriters | testing/dual_writability_prober.py:559-565 | in every interleaving the verdict is FAIL if and only if there is such a round |
| ProbeProtocol.WorkStep | testing/dual_writability_prober.py:1039-1054 | any step of any thread leaves a released round with its worker, and the worker's own step brings it one step nearer to publication |
| ProbeProtocol.ReleasedRoundIsPublished | testing/dual_writability_prober.py:1016-1054 | no dispatched round is lost: once its worker, alive and not shut down, has taken its at most nine remaining steps, the round is published, however the steps interleave |
| ProbeProtocol.RoundsCarryTheirStart | testing/dual_writability_prober.py:1420-1466 | a recorded round carries the clock reading of the step that ended the round before it, the first one that of the beginning |
| ProbeProtocol.ShutdownEndsWorker | testing/dual_writability_prober.py:1033-1052 | a worker that was shut down has ended after at most six steps of its own, however they interleave |
| ProbeProtocol.CollectSeesBusyClearUnlessOwed | testing/dual_writability_prober.py:1027-1052 | a completed wait finds the worker idle and its probe there, unless the dispatch cleared a signal still owed for the round before |
| ProbeProtocol.CollectSeesBusyIff | testing/dual_writability_prober.py:1027-1052 | when the driver begins to wait for a worker, some interleaving has it find the worker busy in this round if and only if the worker is busy and has set its signal or is about to, which is when a signal was owed to the round before |
| ProbeProtocol.OwedSignalComesEarly | testing/dual_writability_prober.py:1051-1052 | an owed signal has been given or is the worker's next step, which changes neither busy flag nor result |
| ProbeProtocol.CollectCanSeeBusy | testing/dual_writability_prober.py:1049-1052 | a reachable state in which a completed wait finds the worker busy |
| Attempts.OnlyTheLastAttemptCounts | testing/correctness_lite.py:691-714 | a port is asked if and only if every port before it refused to route the statement; the outcome is the answer of the last port asked, and a refusal exactly if that port rejected the statement or no port would route it |
| Attempts.ClassifyIff | testing/correctness_lite.py:225-249 | an attempt is acked if and only if it exited with 0, refused by the server or by the routing if and only if it failed and says so at some position, in letters of either case, and the server's word wins; every other failure and a timeout is indeterminate |
| Inserts.History.RecordOp | testing/correctness_lite.py:438-448 | the record is appended and its value filed under its outcome, nowhere else |
| Inserts.History.TryInsert | testing/correctness_lite.py:668-714 | exactly one record is added, with the outcome and port of the attempt that decided |
| Inserts.History.DoInserts | testing/correctness_lite.py:717-723 | every attempt inserts its own sequence number as value, and the history stays valid, over any number of calls |
| Inserts.OutcomesPartition | testing/correctness_lite.py:431-448 | the acked, errored and indeterminate sets of a valid history partition 1 to the counter |
| Inserts.CausalViolations | testing/correctness_lite.py:2026-2045 | exactly the pairs of acked values where the earlier one, acked before the later one began, is missing and the later one is there |
| Inserts.CheckInvariants | testing/correctness_lite.py:1927-1947 | I1 and I2 are silent if and only if the database holds all acked and only acked or indeterminate values; I7 never fires without I1 |
| Inserts.ChecksAreSilent | testing/correctness_lite.py:1914-2047 | after any number of calls, whatever the ports answered and whichever unknown attempts committed, I1, I2 and I7 have nothing to report |
| Inserts.CallsAreOneBatch | testing/correctness_lite.py:717-723 | several calls leave the history of one call with all their inserts |
| BankChecker.CheckBankAgainstDb | testing/correctness_lite.py:913-1034 | each finding is reported exactly for the transfers or accounts it is defined for: wrong total, negative balance, applied twice, acked but missing, refused but applied, never attempted, balance unlike the ledger |
| BankChecker.CompareLedger | testing/correctness_lite.py:944-1008 | the four ledger comparisons, both directions |
| BankChecker.Reconcile | testing/correctness_lite.py:1010-1022 | the expected balances are the opening balances with every distinct ledger row posted |
| BankChecker.DistinctRowsAre | testing/correctness_lite.py:1010-1022 | one row is posted for each id of the ledger, and it is the last of that id |
| BankChecker.ReplayConserves | testing/correctness_lite.py:1010-1022 | posting transfers between known accounts keeps the total |
| BankChecker.CleanB4ImpliesCleanB1 | testing/correctness_lite.py:920-943 | with all accounts read and all ledger endpoints known, a clean B4 makes B1 clean |
| BankChecker.ExtraApplicationIsSeenByB4Only | testing/correctness_lite.py:1010-1032 | one transfer applied once too often leaves B1 silent and B4 reports exactly its two accounts |
| BankWorkload.BankTransfer | testing/correctness_lite.py:784-842 | the record carries the outcome and the port of the attempt that decided |
| BankWorkload.StepsAreThePortLoop | testing/correctness_lite.py:826-842 | submitting one transfer to the ports, as long as the answers ask for it, is a run that ends in the record that the port loop returns |
| BankWorkload.StepKeepsInv | testing/correctness_lite.py:1426-1441 | every submission, late commit or read keeps ledger, records and balances in agreement |
| BankWorkload.CanCommitIff | testing/correctness_lite.py:792-830 | a transfer between accounts that are not in debt can commit if and only if it is covered and, with a key, new to the ledger |
| BankWorkload.ReplayAddsNet | testing/correctness_lite.py:1010-1022 | posting rows adds to an account what it receives and takes off what it gives |
| BankWorkload.TransfersApplyOnce | testing/correctness_lite.py:784-842 | in every run against an atomic server, with a key on the ledger or without, each transfer is applied at most once, exactly once if acked and never if refused, and the balances are those of the ledger and not negative |
| BankWorkload.FindingsAreTheGap | testing/correctness_lite.py:890-1034 | on every run the final check reports exactly the accounts whose balance commits between its two queries changed |
| BankWorkload.CheckIsSilentIff | testing/correctness_lite.py:890-1034 | whatever happens once the transfers are done, the check will be silent, if and only if no transaction of unknown fate can still commit when it begins |
| BankWorkload.KnownFatesAreSilent | testing/correctness_lite.py:890-1034 | a run that leaves no transfer with an unknown fate ends in a silent check |
| BankWorkload.LateCommitIsReported | testing/correctness_lite.py:890-910 | a run in which one late commit is reported as a mismatch of its two accounts |
| MonotonicReads.Regressions | testing/correctness_lite.py:1823-1832 | the single pass finds exactly the reads smaller than some earlier read, in order, and none exactly when the reads never decrease |
| MonotonicReads.CheckMonotonicReads | testing/correctness_lite.py:1808-1851 | the whole check is silent exactly when no read went back and the last read reached every acked write |
| MonotonicReads.EvidenceIsARead | testing/correctness_lite.py:1826-1832 | the evidence of a regression pairs a read with the maximum it showed exactly when that read was no regression itself |
| MonotonicReads.EvidenceCanMislead | testing/correctness_lite.py:1826-1832 | for the reads 5, 3, 4 the evidence says that the second had shown 5 |
| LeaderPolls.UnconvergedLeaderRounds | testing/correctness_lite.py:1887-1911 | in order, exactly the rounds in a maximal run of disagreement whose first-to-last span exceeds the budget |
| LeaderPolls.UnconvergedIff | testing/correctness_lite.py:1887-1911 | a round is unconverged if and only if it lies in a stretch of rounds in each of which two ports name different leaders, whose neighbours are not like that, and whose first and last round are more than 30 seconds apart |
| LeaderPolls.LoneDisagreementIsForgiven | testing/correctness_lite.py:1887-1911 | a reported run has at least two rounds and is reported whole |
| QuorumLeader.MajorityLeader | testing/ci_runner.py:1727-1745 | a leader is returned exactly when a strict majority of the configured nodes names it, whatever the order of the tally |
| QuorumLeader.MostCommonLeader | testing/correctness_lite.py:312-319 | the same of all polled ports |
| QuorumLeader.ComputationsAgree | testing/five_node_suite.py:140-149 | the three computations certify the same leader on the same views, unreachable nodes counted as silent, with the constant 3 for five nodes |
| QuorumLeader.DisjointGroupsCannotBothLead | testing/ci_runner.py:1727-1745 | two groups of configured nodes with no node in common never both certify a leader |
| ClusterWait.JudgePoll | testing/ci_runner.py:1925-2070 | one poll is illegal if and only if two nodes that name themselves hold leases, or an inspected replica list has too many entries or too many synchronous ones; it is converged if and only if it is not illegal and each of the six conditions on nodes and leader, leader changed, leader equal, voters, views and replicas holds |
| ClusterWait.JudgementIff | testing/ci_runner.py:1925-2070 | the same of the judgement that the wait is stated on, in terms of the goal and of what was observed alone |
| ClusterWait.HealthNeedsAtMostThree | testing/ci_runner.py:1907-1913 | a poll that checks replication health converges only with at most three live nodes |
| ClusterWait.HealthConvergesIff | testing/ci_runner.py:1907-2070 | with replication health and one leader, some poll can converge if and only if at most three nodes are live, at least one is expected and configured, and the leader asked for is not the one ruled out |
| ClusterWait.WaitForCluster | testing/ci_runner.py:1863-2100 | the wait returns at the first poll that ends a window of at least the budget in which every completed poll was converged, raises at the first illegal poll, and otherwise times out; polls that raised neither extend nor break the window |
| SuiteRunner.Runner.RunCleanup | testing/ci_runner.py:3878-3902 | every step is attempted and the failures are exactly those that failed |
| SuiteRunner.Runner.RunCase | testing/ci_runner.py:3904-3971 | what the case records, marks and attempts, and when an exception leaves it; from the first snapshot on every cleanup step is attempted even then |
| SuiteRunner.CaseIs | testing/ci_runner.py:3904-3971 | on the steps themselves: when the suite goes on after a case, when no entry is written, the three statuses of an entry, and the cleanup failures it lists |
| SuiteRunner.AttemptedIff | testing/ci_runner.py:3878-3971 | an action or assertion is attempted if and only if every step before it succeeded, a cleanup step always |
| SuiteRunner.CompleteIff | testing/ci_runner.py:4003-4078 | no exception leaves the cases if and only if every executed case but the first settles and each writes its entry |
| SuiteRunner.EntriesAre | testing/ci_runner.py:4003-4078 | with distinct ids, entry i is the result of case i up to the case at which the suite stops, and after it NOT RUN because of that case |
| SuiteRunner.Runner.RecordCasesNotReached | testing/ci_runner.py:2359-2376 | one NOT RUN entry for each case after the first with the given id |
| SuiteRunner.Runner.CheckLogBudget | testing/ci_runner.py:2378-2415 | one failing entry for each node over budget, and the run is marked failed if there is one |
| SuiteRunner.LogEntriesIff | testing/ci_runner.py:2378-2415 | a node is listed if and only if its log has more than 250,000 lines |
| SuiteRunner.Runner.Run | testing/ci_runner.py:4003-4078 | a reuse-cluster run completes if and only if the cluster starts, no exception leaves the cases, the logs can be checked and the cluster stops or is kept after a failure; with its summary, attempts and exit code |
| SuiteRunner.EntriesNameTheCasesIff | testing/ci_runner.py:2359-2376 | the entries name the cases once each in order if and only if the suite does not stop or stops at the first case of that id |
| SuiteRunner.SummaryCoversTheSuite | testing/ci_runner.py:4003-4078 | with distinct ids the summary begins with every selected case once, in order, whichever case fails |
| SuiteRunner.EveryCleanupIsAttempted | testing/ci_runner.py:3878-3902 | every cleanup step of every executed case is attempted |
| SuiteRunner.ExitZeroIff | testing/ci_runner.py:4003-4078 | exit code 0 if and only if every entry is PASS and every executed case could write its pass down |
| SuiteRunner.GreenMeansAllRan | testing/ci_runner.py:4003-4078 | exit code 0 only if every case was executed, every step of it was attempted and succeeded, and every entry is PASS |
| SuiteRunner.PassCanExitOne | testing/ci_runner.py:3904-3971 | a run of one passing case that exits 1 with all entries PASS |
| EvidenceGate.Round | testing/aggregate_elle_results.py:195-196 | the nearest integer, ties to the even one |
| EvidenceGate.CheckFaultWaves | testing/aggregate_elle_results.py:215-250 | which errors and notes the fault waves of a run earn |
| EvidenceGate.CheckHistoryVolume | testing/aggregate_elle_results.py:253-298 | which error the volume of the history earns, and the note on a thin one |
| EvidenceGate.EnoughCommitsIff | testing/aggregate_elle_results.py:195-198 | with the workers and seconds of the results, or of the matrix where those are zero: there are enough commits, and there is the error for too few, exactly by twenty and by the integer nearest to rate times workers times seconds |
| EvidenceGate.ThinIff | testing/aggregate_elle_results.py:291-298 | the note on a thin history is for fewer than one commit in four records |
| EvidenceGate.LabelIff | testing/aggregate_elle_results.py:301-347 | each label, by usability and by Elle's verdict |
| EvidenceGate.RowFor | testing/aggregate_elle_results.py:301-347 | a row lists exactly the errors that apply, and carries Elle's verdict only if there are none |
| EvidenceGate.UsableIff | testing/aggregate_elle_results.py:301-347 | the evidence is usable exactly when no error applies |
| EvidenceGate.Gate | testing/aggregate_elle_results.py:371-439 | one row for each expected or found attack; exit code 0 if and only if there is one and each left artifacts, a seed, the expected profile, all planned waves injected, enough commits and a valid verdict; exit code 2 if and only if there is none or the evidence of one is not usable |
| EvidenceGate.GreenHasEvidence | testing/aggregate_elle_results.py:253-298 | behind exit code 0 every expected attack has a matrix file of the expected profile, results, a recorded seed, all planned waves injected into a running workload, a valid verdict, and at least twenty commits and the rate times the recorded workers and seconds, up to rounding |
| EvidenceGate.SeedIsSeenIff | testing/aggregate_elle_results.py:301-318 | a recorded seed is seen unless it is 0 and only the matrix recorded it |
| EvidenceGate.SeedZeroIsMissed | testing/aggregate_elle_results.py:301-318 | a run whose matrix file alone records a seed, 0, is reported as not replayable |
| Partition.Nodes.Iptables | testing/five_node_suite.py:386-396 | one rule more, or one fewer if there is one; only an insertion can fail, and then nothing changes |
| Partition.Nodes.PartitionGroups | testing/five_node_suite.py:399-415 | the commands of the four loops are executed in order up to the first that fails, and no others; it fails if and only if an insertion finds its node not running or does not succeed, and a heal never does |
| Partition.CommandsPairUp | testing/five_node_suite.py:410-415 | every command is paired with the one for the other direction, right after it |
| Partition.EditsRules | testing/five_node_suite.py:386-415 | commands shift the rules of every node and peer by how many of them name the pair, and no chain appears or goes |
| Partition.HealAfterFailureIff | testing/five_node_suite.py:399-415 | a heal after a partition that failed at some command restores a pair's rules if and only if no command from there on names it or it had no rule before; it never leaves one too many |
| Partition.PartitionThenHeal | testing/five_node_suite.py:399-415 | the same of both calls together, with the first command that fails |
| Partition.HealTakesARule | testing/five_node_suite.py:399-415 | for any groups and chains, any pair that is to be cut and has a rule loses one when the first insertion fails and the partition is healed |
| Partition.HealTakesTheRuleOfNode1 | testing/five_node_suite.py:399-415 | a partition of two nodes that fails, and a heal after which a rule from before is gone |
| Partition.HealAlwaysRestoresIff | testing/five_node_suite.py:399-415 | wherever a partition fails its heal restores all rules, if and only if no pair that was to be cut had one |
| Partition.OneCommandForEachPairApart | testing/five_node_suite.py:399-415 | with disjoint groups one command names an ordered pair in different groups and none names any other pair |
| Partition.HealRestores | testing/five_node_suite.py:399-415 | a heal after a partition restores every chain as a multiset, whatever it held |
| Partition.PartitionCutsExactlyApart | testing/five_node_suite.py:399-415 | from rule-free chains a node hears a peer exactly when they are not in different groups, and after the heal always |
| JoinFlow.StepKeepsInv | src/app.rs:1562-1678 | every step of the join, with any answer of any peer, keeps the invariant |
| JoinFlow.CompleteDataIsDeletedOnlyWithProof | src/app.rs:1303-1365 | over any starts, stops and answers, a join deletes from a complete data directory only if this process heard the leader's lineage and read the same one here, or if its own failed clone wrote all of it |
| JoinFlow.RaftIsWipedOnlyWhenRemoved | src/app.rs:1232-1257 | Raft state is deleted only after this process was told it is not a member by a peer whose lineage is not known to differ |
| JoinFlow.RemovalIsHeededIff | src/app.rs:1731-1736 | a node that is told it was removed resumes if and only if both lineages are known and differ, and wipes its Raft state otherwise |
| JoinFlow.RemovedNodeRejoins | src/app.rs:1562-1678 | otherwise, whatever it read of its own lineage and also from a peer that serves none, it can go on to join with no Raft file left |
| JoinFlow.CloneNeverMixes | src/app.rs:1435-1459 | a clone is written only into a directory that holds nothing but this process's own attempts, of which there are at most twelve |
| JoinFlow.RetriesIff | src/app.rs:1435-1459 | a failed clone is followed by another if and only if this is a whole join and fewer than twelve have failed |
| JoinFlow.OnlyRemainsAreDeleted | src/app.rs:1775-1810 | every file a join ever deletes was left by an unfinished clone or belongs to a directory that a join proved superseded, also across crashes midway through a deletion, and that nothing has filled since |
| JoinFlow.FilledIsNotCondemned | src/app.rs:1775-1810 | a whole clone, or a change from outside, voids the proof: only a new inspection that reads the leader's lineage allows a deletion again |
| JoinFlow.ForeignAnswersKeepData | src/app.rs:1744-1791 | a complete data directory survives any starts, stops and answers as long as no leader of its own lineage speaks |
| JoinFlow.ForeignAnswersKeepRaft | src/app.rs:1562-1678 | as long as every peer that denies the membership is known to be of another lineage, no Raft file is lost and a node with Raft state resumes or is provisioned again, but never joins anew, also when no peer can be reached |
| JoinFlow.CanJoinIff | src/app.rs:1775-1791 | a stopped node can come up again if and only if it has its Raft state or its directory is not one with `PG_VERSION` and without control file |
| JoinFlow.StrandedNeverJoins | src/app.rs:1303-1344 | such a directory without Raft state: the node refuses every join and keeps its files, whatever it is told |
| JoinFlow.OthersCanJoin | src/app.rs:1562-1678 | every other one has a run in which it hears the lineage of the leader, its own if it has one, and comes up with a clone of that lineage |
| JoinFlow.KilledCloneStrands | src/app.rs:1435-1466 | a killed clone can leave such a node |
| JoinFlow.KilledClearStrands | src/app.rs:1797-1810 | so can a killed removal of superseded data |
| JoinFlow.KilledProvisioning | src/app.rs:1588-1614 | so can the killed provisioning of a current member, which keeps its Raft state |
| JoinFlow.MemberResumesStrandedIff | src/app.rs:1579-1614 | a stopped node can come to run, as the member it is told to be, on a directory with `PG_VERSION` and without control file if and only if it has its Raft state and its directory lacks one of the two to begin with |
| JoinFlow.JoinsOverStaleIff | src/app.rs:1232-1257 | a stopped node can come to join anew with Raft files around if and only if it has a Raft file besides `raft.db` |
| JoinFlow.RetryJoinStep | src/app.rs:1829-1846 | attempts until the first success, at least one and at most the limit; the caller sees the last answer |

## Left out

- The lease, election, hold-down and cutover protocols and the gateway: their code is not part of this model.
- The prober restarted after a stop, its schema probing, probe timestamps and what the report only passes through; a round is one pass over the workers.
- Case folding beyond ASCII in the classifier of psql output, whose patterns are all ASCII.
- Wall-clock steps and floating-point rounding: clocks and rates are reals on a monotone clock; a poll's clock readings are inputs.
- I3 to I6, the contention check and the log checks of the history checker: short comparisons of recorded values.
- Bank tables that cannot be read: the check then reports that instead.
- Concurrent calls of `do_inserts`: the workload makes them one after the other.
- The modes of the scenario runner in which every case has its own cluster or none; they differ in when the cluster is started.
- Metric scraping, fault classification by text and template rendering in the scenario runner; a poll's observations are inputs.
- Reading, counting and caching history files, and the markdown report of the evidence gate; artifacts are inputs.
- Witness nodes, learner registration and its rollback in the join flow: they touch no local file.
- Subdirectories of the data directory: it is a flat set of files, emptied in any order, one file at a time.
- That a leader of the same lineage holds every acked write is the claim of the replication protocol and is not proved here.
