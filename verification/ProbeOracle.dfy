/** The pure oracle of the dual-writability prober: rounds of probes reduced to
    violation windows and a verdict (`testing/dual_writability_prober.py`). */
module ProbeOracle {
  import Dicts
  import opened MaximalRuns

  datatype Outcome = Accepted | Rejected | Indeterminate

  datatype NodeProbe = NodeProbe(nodeId: int, outcome: Outcome, reason: string, errorText: string)

  datatype ProbeRound = ProbeRound(seqNo: int, startedNs: int, probes: seq<NodeProbe>)
  {
    function With(outcome: Outcome): nat {
      CountOutcome(probes, outcome)
    }

    predicate IsViolation() {
      With(Accepted) >= 2
    }

    predicate ReducedObservability() {
      With(Accepted) + With(Rejected) < |probes|
    }

    predicate ObservabilityLost() {
      With(Indeterminate) >= 2
    }
  }

  function CountOutcome(probes: seq<NodeProbe>, outcome: Outcome): nat {
    if probes == [] then 0
    else CountOutcome(probes[..|probes| - 1], outcome) + if probes[|probes| - 1].outcome == outcome then 1 else 0
  }

  datatype ViolationWindow = ViolationWindow(firstSeq: int, lastSeq: int, startNs: int, endNs: int, rounds: nat)
  {
    function SpanNs(): int {
      endNs - startNs
    }
  }

  // ----- Violation windows -----

  predicate Violates(r: ProbeRound) {
    r.IsViolation()
  }

  predicate Reduced(r: ProbeRound) {
    r.ReducedObservability()
  }

  predicate Lost(r: ProbeRound) {
    r.ObservabilityLost()
  }

  predicate Consecutive(a: ProbeRound, b: ProbeRound) {
    b.seqNo == a.seqNo + 1
  }

  function WindowOf(rounds: seq<ProbeRound>, r: Span): ViolationWindow
    requires r.lo < r.hi <= |rounds|
  {
    ViolationWindow(rounds[r.lo].seqNo, rounds[r.hi - 1].seqNo, rounds[r.lo].startedNs, rounds[r.hi - 1].startedNs,
                    r.hi - r.lo)
  }

  ghost predicate Describe(rounds: seq<ProbeRound>, runs: seq<Span>, windows: seq<ViolationWindow>) {
    && |windows| == |runs|
    && forall k | 0 <= k < |runs| :: runs[k].lo < runs[k].hi <= |rounds| && windows[k] == WindowOf(rounds, runs[k])
  }

  /** `windows` describes, one by one, the maximal runs of violating rounds with
      consecutive sequence numbers. */
  ghost predicate AreTheWindows(rounds: seq<ProbeRound>, runs: seq<Span>, windows: seq<ViolationWindow>) {
    AreTheRuns(rounds, Violates, Consecutive, runs) && Describe(rounds, runs, windows)
  }

  function Flushed(run: seq<ProbeRound>): ViolationWindow
    requires run != []
  {
    ViolationWindow(run[0].seqNo, run[|run| - 1].seqNo, run[0].startedNs, run[|run| - 1].startedNs, |run|)
  }

  /** What the scan has established after `i` rounds, with `start` up to `i` the run under way. */
  ghost predicate Grouped(rounds: seq<ProbeRound>, windows: seq<ViolationWindow>, closed: seq<Span>, start: nat, i: nat)
  {
    Pending(rounds, Violates, Consecutive, closed, start, i) && Describe(rounds, closed, windows)
  }

  // Every way the scan moves on from round `i`, or ends.
  lemma GroupRound(rounds: seq<ProbeRound>, windows: seq<ViolationWindow>, closed: seq<Span>, start: nat, i: nat)
    requires Grouped(rounds, windows, closed, start, i) && start < i
    ensures var windows', closed' := windows + [Flushed(rounds[start..i])], closed + [Span(start, i)];
            if i == |rounds| then Describe(rounds, Runs(rounds, Violates, Consecutive), windows')
            else if !Violates(rounds[i]) then Grouped(rounds, windows', closed', i + 1, i + 1)
            else if !Consecutive(rounds[i - 1], rounds[i]) then Grouped(rounds, windows', closed', i, i + 1)
            else Grouped(rounds, windows, closed, start, i + 1)
  {
    assert Flushed(rounds[start..i]) == WindowOf(rounds, Span(start, i));
    if i < |rounds| {
      if !Violates(rounds[i]) {
        PendingSkip(rounds, Violates, Consecutive, closed, start, i);
      } else if !Consecutive(rounds[i - 1], rounds[i]) {
        PendingBreak(rounds, Violates, Consecutive, closed, start, i);
      } else {
        PendingExtend(rounds, Violates, Consecutive, closed, start, i);
      }
    }
  }

  lemma GroupFresh(rounds: seq<ProbeRound>, windows: seq<ViolationWindow>, closed: seq<Span>, i: nat)
    requires Grouped(rounds, windows, closed, i, i)
    ensures if i == |rounds| then Describe(rounds, Runs(rounds, Violates, Consecutive), windows)
            else Grouped(rounds, windows, closed, if Violates(rounds[i]) then i else i + 1, i + 1)
  {
  }

  /** The same, with the run under way as the loop keeps it. */
  ghost predicate UnderWay(rounds: seq<ProbeRound>, windows: seq<ViolationWindow>, run: seq<ProbeRound>,
                           closed: seq<Span>, start: nat, i: nat)
  {
    start <= i <= |rounds| && run == rounds[start..i] && Grouped(rounds, windows, closed, start, i)
  }

  lemma RunEnds(rounds: seq<ProbeRound>, windows: seq<ViolationWindow>, run: seq<ProbeRound>, closed: seq<Span>,
                start: nat, i: nat)
    requires UnderWay(rounds, windows, run, closed, start, i) && i < |rounds| && !Violates(rounds[i])
    ensures run == [] ==> UnderWay(rounds, windows, [], closed, i + 1, i + 1)
    ensures run != [] ==> UnderWay(rounds, windows + [Flushed(run)], [], closed + [Span(start, i)], i + 1, i + 1)
  {
    if run == [] {
      GroupFresh(rounds, windows, closed, i);
    } else {
      GroupRound(rounds, windows, closed, start, i);
    }
  }

  lemma RunBreaks(rounds: seq<ProbeRound>, windows: seq<ViolationWindow>, run: seq<ProbeRound>, closed: seq<Span>,
                  start: nat, i: nat)
    requires UnderWay(rounds, windows, run, closed, start, i) && run != [] && i < |rounds| && Violates(rounds[i])
    requires rounds[i].seqNo != run[|run| - 1].seqNo + 1
    ensures UnderWay(rounds, windows + [Flushed(run)], [rounds[i]], closed + [Span(start, i)], i, i + 1)
  {
    GroupRound(rounds, windows, closed, start, i);
    assert rounds[i..i + 1] == [rounds[i]];
  }

  lemma RunGrows(rounds: seq<ProbeRound>, windows: seq<ViolationWindow>, run: seq<ProbeRound>, closed: seq<Span>,
                 start: nat, i: nat)
    requires UnderWay(rounds, windows, run, closed, start, i) && i < |rounds| && Violates(rounds[i])
    requires run != [] ==> rounds[i].seqNo == run[|run| - 1].seqNo + 1
    ensures UnderWay(rounds, windows, run + [rounds[i]], closed, start, i + 1)
  {
    if run == [] {
      GroupFresh(rounds, windows, closed, i);
    } else {
      GroupRound(rounds, windows, closed, start, i);
    }
    assert rounds[start..i + 1] == rounds[start..i] + [rounds[i]];
  }

  lemma LastRun(rounds: seq<ProbeRound>, windows: seq<ViolationWindow>, run: seq<ProbeRound>, closed: seq<Span>,
                start: nat)
    requires UnderWay(rounds, windows, run, closed, start, |rounds|)
    ensures Describe(rounds, Runs(rounds, Violates, Consecutive),
                     if run == [] then windows else windows + [Flushed(run)])
  {
    if run == [] {
      GroupFresh(rounds, windows, closed, |rounds|);
    } else {
      GroupRound(rounds, windows, closed, start, |rounds|);
    }
  }

  /** `violation_windows`. */
  method ViolationWindows(rounds: seq<ProbeRound>) returns (windows: seq<ViolationWindow>)
    ensures Describe(rounds, Runs(rounds, Violates, Consecutive), windows)
  {
    windows := [];
    var run: seq<ProbeRound> := [];
    ghost var closed: seq<Span>, start := [], 0;
    for i := 0 to |rounds|
      invariant UnderWay(rounds, windows, run, closed, start, i)
    {
      var rnd := rounds[i];
      if !rnd.IsViolation() {
        RunEnds(rounds, windows, run, closed, start, i);
        if run != [] {
          windows, closed := windows + [Flushed(run)], closed + [Span(start, i)];
          run := [];
        }
        start := i + 1;
      } else if run != [] && rnd.seqNo != run[|run| - 1].seqNo + 1 {
        RunBreaks(rounds, windows, run, closed, start, i);
        windows, closed, start := windows + [Flushed(run)], closed + [Span(start, i)], i;
        run := [rnd];
      } else {
        RunGrows(rounds, windows, run, closed, start, i);
        run := run + [rnd];
      }
    }
    LastRun(rounds, windows, run, closed, start);
    if run != [] {
      windows := windows + [Flushed(run)];
    }
  }

  function RoundsInWindows(windows: seq<ViolationWindow>): int {
    if windows == [] then 0 else RoundsInWindows(windows[..|windows| - 1]) + windows[|windows| - 1].rounds
  }

  lemma {:induction false} WindowSizes(rounds: seq<ProbeRound>, runs: seq<Span>, windows: seq<ViolationWindow>)
    requires Describe(rounds, runs, windows)
    ensures RoundsInWindows(windows) == Total(runs)
  {
    if windows != [] {
      WindowSizes(rounds, runs[..|runs| - 1], windows[..|windows| - 1]);
    }
  }

  lemma {:induction false} SequenceNumbersCount(rounds: seq<ProbeRound>, r: Span, k: nat)
    requires IsRun(rounds, Violates, Consecutive, r) && r.lo <= k < r.hi
    ensures rounds[k].seqNo == rounds[r.lo].seqNo + (k - r.lo)
    decreases k
  {
    if k > r.lo {
      SequenceNumbersCount(rounds, r, k - 1);
      assert Consecutive(rounds[k - 1], rounds[k]);
    }
  }

  /** Windows `k - 1` and `k` are kept apart by a gap in the sequence numbers or
      by a round after the first that violates nothing. */
  predicate CannotMerge(rounds: seq<ProbeRound>, runs: seq<Span>, windows: seq<ViolationWindow>, k: nat) {
    && 0 < k < |windows| == |runs|
    && runs[k - 1].hi <= runs[k].lo < |rounds|
    && (runs[k - 1].hi == runs[k].lo ==> windows[k].firstSeq != windows[k - 1].lastSeq + 1)
    && (runs[k - 1].hi < runs[k].lo ==> !rounds[runs[k - 1].hi].IsViolation())
  }

  lemma WindowsStayApart(rounds: seq<ProbeRound>, runs: seq<Span>, windows: seq<ViolationWindow>, k: nat)
    requires AreTheWindows(rounds, runs, windows) && 0 < k < |windows|
    ensures CannotMerge(rounds, runs, windows, k)
  {
    RunsAreApart(rounds, Violates, Consecutive, runs, k);
  }

  lemma WindowNumbers(rounds: seq<ProbeRound>, r: Span)
    requires IsRun(rounds, Violates, Consecutive, r)
    ensures var w := WindowOf(rounds, r); w.lastSeq - w.firstSeq + 1 == w.rounds
  {
    SequenceNumbersCount(rounds, r, r.hi - 1);
  }

  lemma WindowsHoldViolations(rounds: seq<ProbeRound>, runs: seq<Span>, windows: seq<ViolationWindow>)
    requires AreTheWindows(rounds, runs, windows)
    ensures RoundsInWindows(windows) == Count(rounds, Violates)
  {
    WindowSizes(rounds, runs, windows);
    SpansCount(rounds, Violates, runs);
  }

  /** The windows split the violating rounds, in order and without loss, into
      maximal runs of adjacent rounds with consecutive sequence numbers. */
  lemma WindowsPartitionViolations(rounds: seq<ProbeRound>, windows: seq<ViolationWindow>)
    requires Describe(rounds, Runs(rounds, Violates, Consecutive), windows)
    ensures AreTheRuns(rounds, Violates, Consecutive, Runs(rounds, Violates, Consecutive))
    ensures RoundsInWindows(windows) == Count(rounds, Violates)
    ensures forall k | 0 <= k < |windows| :: windows[k].lastSeq - windows[k].firstSeq + 1 == windows[k].rounds
    ensures forall k | 0 < k < |windows| :: CannotMerge(rounds, Runs(rounds, Violates, Consecutive), windows, k)
  {
    var runs := Runs(rounds, Violates, Consecutive);
    RunsAreTheRuns(rounds, Violates, Consecutive);
    WindowsHoldViolations(rounds, runs, windows);
    forall k | 0 <= k < |windows| ensures windows[k].lastSeq - windows[k].firstSeq + 1 == windows[k].rounds {
      assert runs[k] in runs;
      WindowNumbers(rounds, runs[k]);
    }
    forall k | 0 < k < |windows| ensures CannotMerge(rounds, runs, windows, k) {
      WindowsStayApart(rounds, runs, windows, k);
    }
  }

  // ----- What is counted -----

  /** The entries with an outcome. */
  function Entries(probes: seq<NodeProbe>, outcome: Outcome): set<int> {
    Positions(probes, Answered(outcome))
  }

  function Answered(outcome: Outcome): NodeProbe -> bool {
    (p: NodeProbe) => p.outcome == outcome
  }

  lemma {:induction false} OutcomesCount(probes: seq<NodeProbe>, outcome: Outcome)
    ensures CountOutcome(probes, outcome) == Count(probes, Answered(outcome))
  {
    if probes != [] { OutcomesCount(probes[..|probes| - 1], outcome); }
  }

  lemma OutcomesAreEntries(probes: seq<NodeProbe>, outcome: Outcome)
    ensures CountOutcome(probes, outcome) == |Entries(probes, outcome)|
  {
    OutcomesCount(probes, outcome);
    CountIsSize(probes, Answered(outcome));
  }

  /** Two different entries have the outcome. */
  ghost predicate Two(probes: seq<NodeProbe>, outcome: Outcome) {
    exists i, j :: i != j && i in Entries(probes, outcome) && j in Entries(probes, outcome)
  }

  lemma TwoIff(probes: seq<NodeProbe>, outcome: Outcome)
    ensures CountOutcome(probes, outcome) >= 2 <==> Two(probes, outcome)
  {
    var entries := Entries(probes, outcome);
    OutcomesAreEntries(probes, outcome);
    if Two(probes, outcome) {
      var i, j :| i != j && i in entries && j in entries;
      assert entries == {i, j} + (entries - {i, j});
    }
    if |entries| > 1 {
      var i, j := Dicts.TwoOf(entries);
    }
  }

  lemma {:induction false} OutcomesAddUp(probes: seq<NodeProbe>)
    ensures CountOutcome(probes, Accepted) + CountOutcome(probes, Rejected) + CountOutcome(probes, Indeterminate) ==
            |probes|
  {
    if probes != [] { OutcomesAddUp(probes[..|probes| - 1]); }
  }

  /** A round is a violation if two nodes accepted, has lost observability if two gave no
      definite answer, and reduced observability if one did not. */
  lemma RoundsMean(r: ProbeRound)
    ensures Violates(r) <==> Two(r.probes, Accepted)
    ensures Lost(r) <==> Two(r.probes, Indeterminate)
    ensures Reduced(r) <==> Entries(r.probes, Indeterminate) != {}
  {
    TwoIff(r.probes, Accepted);
    TwoIff(r.probes, Indeterminate);
    OutcomesAddUp(r.probes);
    OutcomesAreEntries(r.probes, Indeterminate);
  }

  /** The span of a window lies between the starts of its first and last round. */
  lemma SpansAreTimes(rounds: seq<ProbeRound>, runs: seq<Span>, windows: seq<ViolationWindow>, k: nat)
    requires Describe(rounds, runs, windows) && k < |windows|
    ensures runs[k].lo < runs[k].hi <= |rounds|
    ensures windows[k].SpanNs() == rounds[runs[k].hi - 1].startedNs - rounds[runs[k].lo].startedNs
  {
  }

  lemma {:induction false} OutcomesConcat(a: seq<NodeProbe>, b: seq<NodeProbe>, outcome: Outcome)
    ensures CountOutcome(a + b, outcome) == CountOutcome(a, outcome) + CountOutcome(b, outcome)
  {
    if b == [] {
      assert a + b == a;
    } else {
      OutcomesConcat(a, b[..|b| - 1], outcome);
      assert (a + b)[..|a + b| - 1] == a + b[..|b| - 1];
    }
  }

  /** The totals are those of all entries of all rounds. */
  lemma {:induction false} TotalsAre(rounds: seq<ProbeRound>)
    ensures TotalProbes(rounds) == |AllProbes(rounds)|
    ensures IndeterminateProbes(rounds) == |Entries(AllProbes(rounds), Indeterminate)|
  {
    OutcomesAreEntries(AllProbes(rounds), Indeterminate);
    if rounds != [] {
      var init, last := rounds[..|rounds| - 1], rounds[|rounds| - 1];
      TotalsAre(init);
      OutcomesAreEntries(AllProbes(init), Indeterminate);
      OutcomesConcat(AllProbes(init), last.probes, Indeterminate);
    }
  }

  // ----- The report -----

  datatype Verdict = Pass | Fail | Inconclusive

  datatype ProbeReport = ProbeReport(
    totalRounds: nat, byAcceptanceCount: map<nat, nat>, violations: seq<ProbeRound>, windows: seq<ViolationWindow>,
    maxWindowSpanNs: int, reducedRounds: nat, lostRounds: nat, totalProbes: nat, indeterminateProbes: nat,
    nodeCount: nat, reasonCounts: map<string, nat>, unclassifiedErrors: seq<string>, schemaMissingProbes: nat,
    maxIndeterminateRate: real, minSingleAcceptanceRate: real)
  {
    function IndeterminateRate(): real {
      if totalProbes == 0 then 1.0 else indeterminateProbes as real / totalProbes as real
    }

    function SingleAcceptanceRate(): real {
      if totalRounds == 0 then 0.0
      else (if 1 in byAcceptanceCount then byAcceptanceCount[1] else 0) as real / totalRounds as real
    }

    predicate IsInconclusive() {
      || totalRounds == 0
      || IndeterminateRate() > maxIndeterminateRate
      || SingleAcceptanceRate() < minSingleAcceptanceRate
    }

    function Verdict(): Verdict {
      if violations != [] then Fail else if IsInconclusive() then Inconclusive else Pass
    }
  }

  function TotalProbes(rounds: seq<ProbeRound>): nat {
    if rounds == [] then 0 else TotalProbes(rounds[..|rounds| - 1]) + |rounds[|rounds| - 1].probes|
  }

  function IndeterminateProbes(rounds: seq<ProbeRound>): nat {
    if rounds == [] then 0 else IndeterminateProbes(rounds[..|rounds| - 1]) + rounds[|rounds| - 1].With(Indeterminate)
  }

  function RoundsAccepting(rounds: seq<ProbeRound>, n: nat): nat {
    if rounds == [] then 0
    else RoundsAccepting(rounds[..|rounds| - 1], n) + if rounds[|rounds| - 1].With(Accepted) == n then 1 else 0
  }

  ghost predicate IsHistogram(rounds: seq<ProbeRound>, byCount: map<nat, nat>) {
    forall n: nat :: RoundsAccepting(rounds, n) == if n in byCount then byCount[n] else 0
  }

  function Violations(rounds: seq<ProbeRound>): seq<ProbeRound> {
    if rounds == [] then []
    else Violations(rounds[..|rounds| - 1]) + if Violates(rounds[|rounds| - 1]) then [rounds[|rounds| - 1]] else []
  }

  /** Length of the longest window, or zero when there is none. */
  predicate IsMaxSpan(windows: seq<ViolationWindow>, m: int) {
    && (windows == [] ==> m == 0)
    && (windows != [] ==> exists w | w in windows :: w.SpanNs() == m)
    && (forall w | w in windows :: w.SpanNs() <= m)
  }

  method MaxSpan(windows: seq<ViolationWindow>) returns (m: int)
    ensures IsMaxSpan(windows, m)
  {
    m := 0;
    for k := 0 to |windows|
      invariant IsMaxSpan(windows[..k], m)
    {
      if k == 0 || windows[k].SpanNs() > m {
        m := windows[k].SpanNs();
      }
      assert windows[..k + 1] == windows[..k] + [windows[k]];
    }
    assert windows[..|windows|] == windows;
  }

  /** The counting loop of `analyze`. */
  method CountRounds(rounds: seq<ProbeRound>)
    returns (byCount: map<nat, nat>, reduced: nat, lost: nat, total: nat, indeterminate: nat)
    ensures IsHistogram(rounds, byCount)
    ensures total == TotalProbes(rounds) && indeterminate == IndeterminateProbes(rounds)
    ensures reduced == Count(rounds, Reduced)
    ensures lost == Count(rounds, Lost)
  {
    byCount := map[];
    reduced, lost, total, indeterminate := 0, 0, 0, 0;
    for i := 0 to |rounds|
      invariant IsHistogram(rounds[..i], byCount)
      invariant total == TotalProbes(rounds[..i]) && indeterminate == IndeterminateProbes(rounds[..i])
      invariant reduced == Count(rounds[..i], Reduced)
      invariant lost == Count(rounds[..i], Lost)
    {
      var rnd := rounds[i];
      assert rounds[..i + 1][..i] == rounds[..i] && rounds[..i + 1][i] == rnd;
      var n := rnd.With(Accepted);
      byCount := byCount[n := (if n in byCount then byCount[n] else 0) + 1];
      if rnd.ReducedObservability() { reduced := reduced + 1; }
      if rnd.ObservabilityLost() { lost := lost + 1; }
      for j := 0 to |rnd.probes|
        invariant total == TotalProbes(rounds[..i]) + j
        invariant indeterminate == IndeterminateProbes(rounds[..i]) + CountOutcome(rnd.probes[..j], Indeterminate)
      {
        assert rnd.probes[..j + 1][..j] == rnd.probes[..j];
        total := total + 1;
        if rnd.probes[j].outcome == Indeterminate { indeterminate := indeterminate + 1; }
      }
      assert rnd.probes[..|rnd.probes|] == rnd.probes;
    }
    assert rounds[..|rounds|] == rounds;
  }

  lemma {:induction false} ViolationsSplit(rounds: seq<ProbeRound>, n: nat)
    requires n <= |rounds|
    ensures |Violations(rounds[..n])| == |Positions(rounds[..n], Violates)|
    ensures Violations(rounds[..n]) <= Violations(rounds)
    decreases |rounds|
  {
    ViolationsCount(rounds[..n]);
    if n == |rounds| {
      assert rounds[..n] == rounds;
    } else {
      var init := rounds[..|rounds| - 1];
      ViolationsSplit(init, n);
      assert init[..n] == rounds[..n];
    }
  }

  lemma {:induction false} ViolationsCount(rounds: seq<ProbeRound>)
    ensures |Violations(rounds)| == |Positions(rounds, Violates)|
  {
    CountIsSize(rounds, Violates);
    if rounds != [] {
      ViolationsCount(rounds[..|rounds| - 1]);
      CountIsSize(rounds[..|rounds| - 1], Violates);
    }
  }

  /** The violations are listed in order, each after as many as come before it. */
  lemma ViolationsAre(rounds: seq<ProbeRound>, n: nat)
    requires n < |rounds| && Violates(rounds[n])
    ensures |Violations(rounds)| == |Positions(rounds, Violates)|
    ensures var k := |Positions(rounds[..n], Violates)|; k < |Violations(rounds)| && Violations(rounds)[k] == rounds[n]
  {
    ViolationsCount(rounds);
    ViolationsSplit(rounds, n);
    ViolationsSplit(rounds, n + 1);
    assert rounds[..n + 1][..n] == rounds[..n] && rounds[..n + 1][n] == rounds[n];
  }

  function AcceptedBy(n: nat): ProbeRound -> bool {
    (r: ProbeRound) => |Entries(r.probes, Accepted)| == n
  }

  /** The rounds in which `n` nodes accepted. */
  lemma {:induction false} AcceptingAre(rounds: seq<ProbeRound>, n: nat)
    ensures RoundsAccepting(rounds, n) == |Positions(rounds, AcceptedBy(n))|
  {
    CountIsSize(rounds, AcceptedBy(n));
    if rounds != [] {
      AcceptingAre(rounds[..|rounds| - 1], n);
      CountIsSize(rounds[..|rounds| - 1], AcceptedBy(n));
      OutcomesAreEntries(rounds[|rounds| - 1].probes, Accepted);
    }
  }

  // ----- Reasons and error texts -----

  /** `DEFINITE_REJECTION_SQLSTATES["42P01"]`: the probe table has not reached the node. */
  const SCHEMA_MISSING := "undefined_table"

  function AllProbes(rounds: seq<ProbeRound>): seq<NodeProbe> {
    if rounds == [] then [] else AllProbes(rounds[..|rounds| - 1]) + rounds[|rounds| - 1].probes
  }

  function WithReason(probes: seq<NodeProbe>, reason: string): nat {
    if probes == [] then 0
    else WithReason(probes[..|probes| - 1], reason) + if probes[|probes| - 1].reason == reason then 1 else 0
  }

  function GivenAs(reason: string): NodeProbe -> bool {
    (p: NodeProbe) => p.reason == reason
  }

  lemma {:induction false} ReasonsAre(probes: seq<NodeProbe>, reason: string)
    ensures WithReason(probes, reason) == |Positions(probes, GivenAs(reason))|
  {
    CountIsSize(probes, GivenAs(reason));
    if probes != [] {
      ReasonsAre(probes[..|probes| - 1], reason);
      CountIsSize(probes[..|probes| - 1], GivenAs(reason));
    }
  }

  ghost predicate IsReasonCount(probes: seq<NodeProbe>, counts: map<string, nat>) {
    forall reason :: WithReason(probes, reason) == if reason in counts then counts[reason] else 0
  }

  /** The classifier did not know this error, and its text was kept. */
  predicate Unclassified(p: NodeProbe) {
    "unclassified" <= p.reason && p.errorText != ""
  }

  /** Each text of an unclassified error once, in order of first appearance. */
  function UnclassifiedTexts(probes: seq<NodeProbe>): seq<string> {
    if probes == [] then []
    else
      var texts, p := UnclassifiedTexts(probes[..|probes| - 1]), probes[|probes| - 1];
      if Unclassified(p) && p.errorText !in texts then texts + [p.errorText] else texts
  }

  lemma {:induction false} EveryUnclassifiedTextOnce(probes: seq<NodeProbe>)
    ensures forall text :: text in UnclassifiedTexts(probes) <==>
            text != "" && exists p :: p in probes && "unclassified" <= p.reason && p.errorText == text
    ensures forall i, j | 0 <= i < j < |UnclassifiedTexts(probes)| ::
            UnclassifiedTexts(probes)[i] != UnclassifiedTexts(probes)[j]
  {
    if probes != [] {
      var init, p := probes[..|probes| - 1], probes[|probes| - 1];
      EveryUnclassifiedTextOnce(init);
      assert probes == init + [p];
      assert forall q :: q in probes <==> q in init || q == p;
    }
  }

  /** What the counting loop of `analyze` keeps about reasons and texts. */
  datatype Tally = Tally(reasons: map<string, nat>, texts: seq<string>, schemaMissing: nat)

  ghost predicate IsTally(probes: seq<NodeProbe>, tally: Tally) {
    && IsReasonCount(probes, tally.reasons) && tally.texts == UnclassifiedTexts(probes)
    && tally.schemaMissing == WithReason(probes, SCHEMA_MISSING)
  }

  /** What one more probe changes. */
  function Tallied(tally: Tally, p: NodeProbe): Tally {
    var seen := if p.reason in tally.reasons then tally.reasons[p.reason] else 0;
    Tally(tally.reasons[p.reason := seen + 1],
          if Unclassified(p) && p.errorText !in tally.texts then tally.texts + [p.errorText] else tally.texts,
          if p.reason == SCHEMA_MISSING then tally.schemaMissing + 1 else tally.schemaMissing)
  }

  lemma OneMoreProbe(probes: seq<NodeProbe>, p: NodeProbe, tally: Tally)
    requires IsTally(probes, tally)
    ensures IsTally(probes + [p], Tallied(tally, p))
  {
    assert (probes + [p])[..|probes|] == probes;
    var counts := Tallied(tally, p).reasons;
    forall reason ensures WithReason(probes + [p], reason) == if reason in counts then counts[reason] else 0 {
      assert WithReason(probes, reason) == if reason in tally.reasons then tally.reasons[reason] else 0;
    }
  }

  /** The rest of the body of the inner loop. */
  method TallyProbe(p: NodeProbe, before: Tally) returns (tally: Tally)
    ensures tally == Tallied(before, p)
  {
    tally := before;
    var seen := if p.reason in tally.reasons then tally.reasons[p.reason] else 0;
    tally := tally.(reasons := tally.reasons[p.reason := seen + 1]);
    if p.reason == SCHEMA_MISSING {
      tally := tally.(schemaMissing := tally.schemaMissing + 1);
    }
    if "unclassified" <= p.reason && p.errorText != "" && p.errorText !in tally.texts {
      tally := tally.(texts := tally.texts + [p.errorText]);
    }
  }

  lemma OneProbeFurther(before: seq<NodeProbe>, probes: seq<NodeProbe>, j: nat, tally: Tally)
    requires j < |probes| && IsTally(before + probes[..j], tally)
    ensures IsTally(before + probes[..j + 1], Tallied(tally, probes[j]))
  {
    assert before + probes[..j + 1] == before + probes[..j] + [probes[j]];
    OneMoreProbe(before + probes[..j], probes[j], tally);
  }

  method TallyRound(probes: seq<NodeProbe>, ghost before: seq<NodeProbe>, start: Tally) returns (tally: Tally)
    requires IsTally(before, start)
    ensures IsTally(before + probes, tally)
  {
    tally := start;
    assert before + probes[..0] == before;
    for j := 0 to |probes|
      invariant IsTally(before + probes[..j], tally)
    {
      OneProbeFurther(before, probes, j, tally);
      tally := TallyProbe(probes[j], tally);
    }
    assert probes[..|probes|] == probes;
  }

  method TallyReasons(rounds: seq<ProbeRound>) returns (tally: Tally)
    ensures IsTally(AllProbes(rounds), tally)
  {
    tally := Tally(map[], [], 0);
    for i := 0 to |rounds|
      invariant IsTally(AllProbes(rounds[..i]), tally)
    {
      assert rounds[..i + 1][..i] == rounds[..i];
      tally := TallyRound(rounds[i].probes, AllProbes(rounds[..i]), tally);
    }
    assert rounds[..|rounds|] == rounds;
  }

  /** The widest round, or what is configured when there was none. */
  predicate IsNodeCount(rounds: seq<ProbeRound>, configured: nat, n: nat) {
    if rounds == [] then n == configured
    else (exists r | r in rounds :: |r.probes| == n) && forall r | r in rounds :: |r.probes| <= n
  }

  method NodeCount(rounds: seq<ProbeRound>, configured: nat) returns (n: nat)
    ensures IsNodeCount(rounds, configured, n)
  {
    n := configured;
    for i := 0 to |rounds|
      invariant IsNodeCount(rounds[..i], configured, n)
    {
      if i == 0 || |rounds[i].probes| > n {
        n := |rounds[i].probes|;
      }
      assert rounds[..i + 1] == rounds[..i] + [rounds[i]];
    }
    assert rounds[..|rounds|] == rounds;
  }

  method FindViolations(rounds: seq<ProbeRound>) returns (violations: seq<ProbeRound>)
    ensures violations == Violations(rounds)
  {
    violations := [];
    for i := 0 to |rounds|
      invariant violations == Violations(rounds[..i])
    {
      assert rounds[..i + 1][..i] == rounds[..i];
      if rounds[i].IsViolation() { violations := violations + [rounds[i]]; }
    }
    assert rounds[..|rounds|] == rounds;
  }

  /** `analyze`: the report is tied to the rounds field by field; `configured` is the
      number of nodes of the compose file. */
  method Analyze(rounds: seq<ProbeRound>, configured: nat, maxIndeterminateRate: real, minSingleAcceptanceRate: real)
    returns (report: ProbeReport)
    ensures report.totalRounds == |rounds|
    ensures IsHistogram(rounds, report.byAcceptanceCount)
    ensures report.totalProbes == TotalProbes(rounds) && report.indeterminateProbes == IndeterminateProbes(rounds)
    ensures report.reducedRounds == Count(rounds, Reduced)
    ensures report.lostRounds == Count(rounds, Lost)
    ensures report.violations == Violations(rounds)
    ensures Describe(rounds, Runs(rounds, Violates, Consecutive), report.windows)
    ensures IsMaxSpan(report.windows, report.maxWindowSpanNs)
    ensures IsNodeCount(rounds, configured, report.nodeCount)
    ensures IsTally(AllProbes(rounds),
                    Tally(report.reasonCounts, report.unclassifiedErrors, report.schemaMissingProbes))
    ensures report.maxIndeterminateRate == maxIndeterminateRate
            && report.minSingleAcceptanceRate == minSingleAcceptanceRate
    ensures report.Verdict() == VerdictOf(rounds, maxIndeterminateRate, minSingleAcceptanceRate)
  {
    var byCount, reduced, lost, total, indeterminate := CountRounds(rounds);
    var violations := FindViolations(rounds);
    var windows := ViolationWindows(rounds);
    var span := MaxSpan(windows);
    var nodes := NodeCount(rounds, configured);
    var tally := TallyReasons(rounds);
    report := ProbeReport(|rounds|, byCount, violations, windows, span, reduced, lost, total, indeterminate,
                          nodes, tally.reasons, tally.texts, tally.schemaMissing,
                          maxIndeterminateRate, minSingleAcceptanceRate);
    AnyViolation(rounds);
    assert RoundsAccepting(rounds, 1) == if 1 in byCount then byCount[1] else 0;
  }

  lemma {:induction false} AnyViolation(rounds: seq<ProbeRound>)
    ensures Violations(rounds) != [] <==> exists r | r in rounds :: r.IsViolation()
  {
    if rounds != [] {
      var init, r := rounds[..|rounds| - 1], rounds[|rounds| - 1];
      AnyViolation(init);
      assert rounds == init + [r];
    }
  }

  /** What a verdict means, in terms of the rounds alone: FAIL exactly when some
      round has two confirmed acceptances; otherwise PASS exactly when there was
      a round, the share of indeterminate probes is within its limit and the
      share of rounds with one acceptance reaches its own. */
  ghost function VerdictOf(rounds: seq<ProbeRound>, maxIndeterminateRate: real, minSingleAcceptanceRate: real): Verdict
  {
    if exists r | r in rounds :: r.IsViolation() then Fail
    else if
      && rounds != []
      && (if TotalProbes(rounds) == 0 then 1.0 else IndeterminateProbes(rounds) as real / TotalProbes(rounds) as real)
           <= maxIndeterminateRate
      && RoundsAccepting(rounds, 1) as real / |rounds| as real >= minSingleAcceptanceRate
    then Pass
    else Inconclusive
  }
}
