/** Leader agreement across management polls: which rounds of disagreement
    outlast a failover (`testing/correctness_lite.py`). */
module LeaderPolls {
  import opened Dicts
  import opened MaximalRuns
  import opened Options

  /** One poll of every management port: who each node names as leader. */
  datatype LeaderPollRound = LeaderPollRound(ts: real, responses: map<int, Option<int>>)

  const CONVERGENCE_BUDGET_S := 30.0

  function UniqueLeaders(r: LeaderPollRound): set<int> {
    set port | port in r.responses && r.responses[port].Some? :: r.responses[port].value
  }

  /** `leaders_disagree`: the nodes that answered named more than one leader. */
  predicate Disagrees(r: LeaderPollRound) {
    |UniqueLeaders(r)| > 1
  }

  predicate Always(a: LeaderPollRound, b: LeaderPollRound) {
    true
  }

  /** `_run_span_s`. */
  function RunSpan(run: seq<LeaderPollRound>): real {
    if |run| < 2 then 0.0 else run[|run| - 1].ts - run[0].ts
  }

  /** Round `k` lies in a maximal run of disagreeing rounds that outlasts the budget. */
  ghost predicate Unconverged(rounds: seq<LeaderPollRound>, k: int) {
    exists r | IsMaximalRun(rounds, Disagrees, Always, r) ::
      r.lo <= k < r.hi && RunSpan(rounds[r.lo..r.hi]) > CONVERGENCE_BUDGET_S
  }

  // ----- What it means on the polls -----

  /** Ports `p` and `q` answered, and named different leaders. */
  predicate NamesApart(r: LeaderPollRound, p: int, q: int) {
    && p in r.responses && q in r.responses
    && r.responses[p].Some? && r.responses[q].Some? && r.responses[p] != r.responses[q]
  }

  ghost predicate Divided(r: LeaderPollRound) {
    exists p, q :: NamesApart(r, p, q)
  }

  lemma DisagreesIff(r: LeaderPollRound)
    ensures Disagrees(r) <==> Divided(r)
  {
    var leaders := UniqueLeaders(r);
    if Divided(r) {
      var p, q :| NamesApart(r, p, q);
      var a, b := r.responses[p].value, r.responses[q].value;
      assert a in leaders && b in leaders && leaders == {a, b} + (leaders - {a, b});
    }
    if Disagrees(r) {
      var a, b := TwoOf(leaders);
      var p :| p in r.responses && r.responses[p] == Some(a);
      var q :| q in r.responses && r.responses[q] == Some(b);
      assert NamesApart(r, p, q);
    }
  }

  /** Rounds `lo` to `hi - 1` are all divided, the ones next to them are not, and more
      than thirty seconds lie between the first and the last. */
  ghost predicate LongDivision(rounds: seq<LeaderPollRound>, lo: nat, hi: nat) {
    && lo < hi <= |rounds| && (forall m | lo <= m < hi :: Divided(rounds[m]))
    && (lo > 0 ==> !Divided(rounds[lo - 1])) && (hi < |rounds| ==> !Divided(rounds[hi]))
    && rounds[hi - 1].ts - rounds[lo].ts > 30.0
  }

  lemma LongDivisionIff(rounds: seq<LeaderPollRound>, r: Span)
    ensures LongDivision(rounds, r.lo, r.hi) <==>
            IsMaximalRun(rounds, Disagrees, Always, r) && RunSpan(rounds[r.lo..r.hi]) > CONVERGENCE_BUDGET_S
  {
    forall m: nat | m < |rounds| ensures Disagrees(rounds[m]) <==> Divided(rounds[m]) { DisagreesIff(rounds[m]); }
  }

  /** A round is unconverged exactly if it lies in such a stretch. */
  lemma UnconvergedIff(rounds: seq<LeaderPollRound>, k: int)
    ensures Unconverged(rounds, k) <==> exists lo: nat, hi: nat :: lo <= k < hi && LongDivision(rounds, lo, hi)
  {
    if Unconverged(rounds, k) {
      var r :| IsMaximalRun(rounds, Disagrees, Always, r) && r.lo <= k < r.hi
        && RunSpan(rounds[r.lo..r.hi]) > CONVERGENCE_BUDGET_S;
      LongDivisionIff(rounds, r);
    }
    if lo: nat, hi: nat :| lo <= k < hi && LongDivision(rounds, lo, hi) {
      LongDivisionIff(rounds, Span(lo, hi));
    }
  }

  /** The rounds from position `k` on that satisfy `f`, in order. */
  ghost function Select(rounds: seq<LeaderPollRound>, f: int -> bool, k: nat): seq<LeaderPollRound>
    requires k <= |rounds|
    decreases |rounds| - k
  {
    if k == |rounds| then [] else (if f(k) then [rounds[k]] else []) + Select(rounds, f, k + 1)
  }

  function Long(run: seq<LeaderPollRound>): seq<LeaderPollRound> {
    if RunSpan(run) > CONVERGENCE_BUDGET_S then run else []
  }

  /** The final comprehension: the rounds of the runs that are long enough. */
  function LongRounds(runs: seq<seq<LeaderPollRound>>): seq<LeaderPollRound> {
    if runs == [] then [] else LongRounds(runs[..|runs| - 1]) + Long(runs[|runs| - 1])
  }

  function LongSpans(rounds: seq<LeaderPollRound>, spans: seq<Span>): seq<LeaderPollRound>
    requires forall r | r in spans :: r.lo < r.hi <= |rounds|
  {
    if spans == [] then []
    else
      var r := spans[|spans| - 1];
      assert r in spans;
      LongSpans(rounds, spans[..|spans| - 1]) + Long(rounds[r.lo..r.hi])
  }

  // ----- The spans hold exactly the unconverged rounds -----

  lemma {:induction false} SelectSplit(rounds: seq<LeaderPollRound>, f: int -> bool, k: nat, m: nat)
    requires k <= m <= |rounds|
    ensures Select(rounds, f, k) == Select(rounds[..m], f, k) + Select(rounds, f, m)
    decreases m - k
  {
    if k < m {
      SelectSplit(rounds, f, k + 1, m);
      assert rounds[..m][k] == rounds[k];
    }
  }

  lemma {:induction false} SelectUniform(rounds: seq<LeaderPollRound>, f: int -> bool, k: nat, b: bool)
    requires k <= |rounds| && forall m | k <= m < |rounds| :: f(m) == b
    ensures Select(rounds, f, k) == if b then rounds[k..] else []
    decreases |rounds| - k
  {
    if k < |rounds| {
      SelectUniform(rounds, f, k + 1, b);
      assert rounds[k..] == [rounds[k]] + rounds[k + 1..];
    }
  }

  /** `f` is true of a round exactly when a listed span that is long holds it. */
  ghost predicate Marks(rounds: seq<LeaderPollRound>, spans: seq<Span>, f: int -> bool) {
    && (forall r | r in spans :: r.lo < r.hi <= |rounds|) && Ordered(spans)
    && (forall k, r | r in spans && r.lo <= k < r.hi :: f(k) <==> RunSpan(rounds[r.lo..r.hi]) > CONVERGENCE_BUDGET_S)
    && (forall k: nat | k < |rounds| && !Covers(spans, k) :: !f(k))
  }

  lemma SliceOfPrefix(rounds: seq<LeaderPollRound>, lo: nat, hi: nat, m: nat)
    requires lo <= hi <= m <= |rounds|
    ensures rounds[..m][lo..hi] == rounds[lo..hi]
  {
  }

  lemma MarksInit(rounds: seq<LeaderPollRound>, init: seq<Span>, r: Span, f: int -> bool)
    requires Marks(rounds, init + [r], f)
    ensures r.lo < r.hi <= |rounds| && Marks(rounds[..r.lo], init, f)
    ensures forall k: nat | r.hi <= k < |rounds| :: !f(k)
  {
    var spans := init + [r];
    assert spans[|init|] == r && r in spans;
    CoversMore(init, r);
    forall q | q in init ensures q.hi <= r.lo && rounds[..r.lo][q.lo..q.hi] == rounds[q.lo..q.hi] {
      var i :| 0 <= i < |init| && init[i] == q;
      assert spans[i] == q && q in spans;
      SliceOfPrefix(rounds, q.lo, q.hi, r.lo);
    }
    assert forall i | 0 <= i < |init| :: spans[i] == init[i];
  }

  // What is selected of a sequence that ends in a uniform stretch, and nothing after it.
  lemma SelectAround(rounds: seq<LeaderPollRound>, f: int -> bool, r: Span, b: bool)
    requires r.lo < r.hi <= |rounds|
    requires (forall k | r.lo <= k < r.hi :: f(k) == b) && (forall k | r.hi <= k < |rounds| :: !f(k))
    ensures Select(rounds, f, 0) == Select(rounds[..r.lo], f, 0) + if b then rounds[r.lo..r.hi] else []
  {
    var upTo := rounds[..r.hi];
    SelectSplit(rounds, f, 0, r.hi);
    SelectUniform(rounds, f, r.hi, false);
    SelectSplit(upTo, f, 0, r.lo);
    assert upTo[..r.lo] == rounds[..r.lo] && upTo[r.lo..] == rounds[r.lo..r.hi];
    SelectUniform(upTo, f, r.lo, b);
  }

  lemma LongSpansLast(rounds: seq<LeaderPollRound>, init: seq<Span>, r: Span)
    requires forall q | q in init + [r] :: q.lo < q.hi <= |rounds|
    ensures r in init + [r]
    ensures forall q | q in init :: q in init + [r]
    ensures LongSpans(rounds, init + [r]) == LongSpans(rounds, init) + Long(rounds[r.lo..r.hi])
  {
    assert (init + [r])[|init|] == r && (init + [r])[..|init|] == init;
  }

  /** What the last span adds to the selection. */
  lemma SelectLast(rounds: seq<LeaderPollRound>, init: seq<Span>, r: Span, f: int -> bool)
    requires Marks(rounds, init + [r], f)
    ensures r.lo < r.hi <= |rounds|
    ensures Select(rounds, f, 0) == Select(rounds[..r.lo], f, 0) + Long(rounds[r.lo..r.hi])
  {
    MarksInit(rounds, init, r, f);
    assert (init + [r])[|init|] == r && r in init + [r];
    SelectAround(rounds, f, r, RunSpan(rounds[r.lo..r.hi]) > CONVERGENCE_BUDGET_S);
  }

  lemma {:induction false} LongSpansSelect(rounds: seq<LeaderPollRound>, spans: seq<Span>, f: int -> bool)
    requires Marks(rounds, spans, f)
    ensures LongSpans(rounds, spans) == Select(rounds, f, 0)
    decreases |spans|
  {
    if spans == [] {
      SelectUniform(rounds, f, 0, false);
    } else {
      var init, r := spans[..|spans| - 1], spans[|spans| - 1];
      assert spans == init + [r];
      MarksInit(rounds, init, r, f);
      LongSpansSelect(rounds[..r.lo], init, f);
      LongSpansLast(rounds, init, r);
      SamePrefix(rounds, init, r.lo);
      SelectLast(rounds, init, r, f);
    }
  }

  lemma {:induction false} SamePrefix(rounds: seq<LeaderPollRound>, spans: seq<Span>, m: nat)
    requires m <= |rounds| && forall r | r in spans :: r.lo < r.hi <= m
    ensures LongSpans(rounds[..m], spans) == LongSpans(rounds, spans)
  {
    if spans != [] {
      var r := spans[|spans| - 1];
      assert r in spans;
      SamePrefix(rounds, spans[..|spans| - 1], m);
      assert rounds[..m][r.lo..r.hi] == rounds[r.lo..r.hi];
    }
  }

  lemma RunsMark(rounds: seq<LeaderPollRound>, spans: seq<Span>)
    requires AreTheRuns(rounds, Disagrees, Always, spans)
    ensures Marks(rounds, spans, k => Unconverged(rounds, k))
  {
    forall k, r | r in spans && r.lo <= k < r.hi
      ensures Unconverged(rounds, k) <==> RunSpan(rounds[r.lo..r.hi]) > CONVERGENCE_BUDGET_S
    {
      if Unconverged(rounds, k) {
        var q :| IsMaximalRun(rounds, Disagrees, Always, q) && q.lo <= k < q.hi
          && RunSpan(rounds[q.lo..q.hi]) > CONVERGENCE_BUDGET_S;
        RunsNeverCross(rounds, Disagrees, Always, q, r, k);
      }
    }
    forall k: nat | k < |rounds| && !Covers(spans, k) ensures !Unconverged(rounds, k) {
      assert !Disagrees(rounds[k]);
    }
  }

  // ----- The loop -----

  lemma PushRun(rounds: seq<LeaderPollRound>, runs: seq<seq<LeaderPollRound>>, spans: seq<Span>, start: nat, i: nat)
    requires start <= i <= |rounds| && forall r | r in spans :: r.lo < r.hi <= |rounds|
    requires LongRounds(runs) == LongSpans(rounds, spans)
    ensures forall r | r in spans + CloseAt(start, i) :: r.lo < r.hi <= |rounds|
    ensures LongRounds(runs + [rounds[start..i]]) == LongSpans(rounds, spans + CloseAt(start, i))
  {
    assert (runs + [rounds[start..i]])[..|runs|] == runs;
    if start < i {
      assert (spans + CloseAt(start, i))[..|spans|] == spans;
    } else {
      assert spans + CloseAt(start, i) == spans;
    }
  }

  /** What the loop has established after `i` rounds, with `start` up to `i` the run under way. */
  ghost predicate Gathered(rounds: seq<LeaderPollRound>, runs: seq<seq<LeaderPollRound>>, spans: seq<Span>,
                           start: nat, i: nat)
  {
    && Pending(rounds, Disagrees, Always, spans, start, i)
    && (forall r | r in spans :: r.lo < r.hi <= |rounds|)
    && LongRounds(runs) == LongSpans(rounds, spans)
  }

  lemma RunEnds(rounds: seq<LeaderPollRound>, runs: seq<seq<LeaderPollRound>>, spans: seq<Span>, start: nat, i: nat)
    requires Gathered(rounds, runs, spans, start, i) && i < |rounds| && !Disagrees(rounds[i])
    ensures Gathered(rounds, runs + [rounds[start..i]], spans + CloseAt(start, i), i + 1, i + 1)
  {
    PushRun(rounds, runs, spans, start, i);
    PendingSkip(rounds, Disagrees, Always, spans, start, i);
  }

  lemma RunGoesOn(rounds: seq<LeaderPollRound>, runs: seq<seq<LeaderPollRound>>, spans: seq<Span>, start: nat, i: nat)
    requires Gathered(rounds, runs, spans, start, i) && i < |rounds| && Disagrees(rounds[i])
    ensures Gathered(rounds, runs, spans, start, i + 1)
  {
    PendingExtend(rounds, Disagrees, Always, spans, start, i);
  }

  lemma LastRun(rounds: seq<LeaderPollRound>, runs: seq<seq<LeaderPollRound>>, spans: seq<Span>, start: nat)
    requires Gathered(rounds, runs, spans, start, |rounds|)
    ensures LongRounds(runs + [rounds[start..]]) == Select(rounds, k => Unconverged(rounds, k), 0)
  {
    PushRun(rounds, runs, spans, start, |rounds|);
    assert rounds[start..|rounds|] == rounds[start..];
    LongRunsAreUnconverged(rounds);
  }

  /** The same, with the run under way as the loop keeps it. */
  ghost predicate UnderWay(rounds: seq<LeaderPollRound>, runs: seq<seq<LeaderPollRound>>, current: seq<LeaderPollRound>,
                           spans: seq<Span>, start: nat, i: nat) {
    start <= i <= |rounds| && current == rounds[start..i] && Gathered(rounds, runs, spans, start, i)
  }

  lemma Disagreement(rounds: seq<LeaderPollRound>, runs: seq<seq<LeaderPollRound>>, current: seq<LeaderPollRound>,
                     spans: seq<Span>, start: nat, i: nat)
    requires UnderWay(rounds, runs, current, spans, start, i) && i < |rounds| && Disagrees(rounds[i])
    ensures UnderWay(rounds, runs, current + [rounds[i]], spans, start, i + 1)
  {
    RunGoesOn(rounds, runs, spans, start, i);
    SliceGrows(rounds, start, i);
  }

  lemma SliceGrows(rounds: seq<LeaderPollRound>, start: nat, i: nat)
    requires start <= i < |rounds|
    ensures rounds[start..i + 1] == rounds[start..i] + [rounds[i]]
  {
  }

  lemma Agreement(rounds: seq<LeaderPollRound>, runs: seq<seq<LeaderPollRound>>, current: seq<LeaderPollRound>,
                  spans: seq<Span>, start: nat, i: nat)
    requires UnderWay(rounds, runs, current, spans, start, i) && i < |rounds| && !Disagrees(rounds[i])
    ensures UnderWay(rounds, runs + [current], [], spans + CloseAt(start, i), i + 1, i + 1)
  {
    RunEnds(rounds, runs, spans, start, i);
  }

  /** The loop of `unconverged_leader_rounds`: the runs that ended, and the one under way. */
  method GatherRuns(rounds: seq<LeaderPollRound>)
    returns (runs: seq<seq<LeaderPollRound>>, current: seq<LeaderPollRound>, ghost spans: seq<Span>, ghost start: nat)
    ensures UnderWay(rounds, runs, current, spans, start, |rounds|)
  {
    runs, current, spans, start := [], [], [], 0;
    for i := 0 to |rounds|
      invariant UnderWay(rounds, runs, current, spans, start, i)
    {
      if Disagrees(rounds[i]) {
        Disagreement(rounds, runs, current, spans, start, i);
        current := current + [rounds[i]];
      } else {
        Agreement(rounds, runs, current, spans, start, i);
        spans, start := spans + CloseAt(start, i), i + 1;
        runs := runs + [current];
        current := [];
      }
    }
  }

  /** `unconverged_leader_rounds`: in order, exactly the rounds in a maximal run of
      disagreement that outlasts the budget. */
  method UnconvergedLeaderRounds(rounds: seq<LeaderPollRound>) returns (found: seq<LeaderPollRound>)
    ensures found == Select(rounds, k => Unconverged(rounds, k), 0)
  {
    var runs, current, spans, start := GatherRuns(rounds);
    LastRun(rounds, runs, spans, start);
    assert rounds[start..|rounds|] == rounds[start..];
    runs := runs + [current];
    found := LongRounds(runs);
  }

  lemma LongRunsAreUnconverged(rounds: seq<LeaderPollRound>)
    ensures forall r | r in Runs(rounds, Disagrees, Always) :: r.lo < r.hi <= |rounds|
    ensures LongSpans(rounds, Runs(rounds, Disagrees, Always)) == Select(rounds, k => Unconverged(rounds, k), 0)
  {
    RunsAreTheRuns(rounds, Disagrees, Always);
    RunsMark(rounds, Runs(rounds, Disagrees, Always));
    LongSpansSelect(rounds, Runs(rounds, Disagrees, Always), k => Unconverged(rounds, k));
  }

  /** A disagreement that both neighbours do not share is never reported, and a
      reported run is reported whole. */
  lemma LoneDisagreementIsForgiven(rounds: seq<LeaderPollRound>, r: Span, k: int)
    requires IsMaximalRun(rounds, Disagrees, Always, r) && r.lo <= k < r.hi && Unconverged(rounds, k)
    ensures r.hi - r.lo >= 2
    ensures forall m | r.lo <= m < r.hi :: Unconverged(rounds, m)
  {
    var q :| IsMaximalRun(rounds, Disagrees, Always, q) && q.lo <= k < q.hi
      && RunSpan(rounds[q.lo..q.hi]) > CONVERGENCE_BUDGET_S;
    RunsNeverCross(rounds, Disagrees, Always, q, r, k);
  }
}
