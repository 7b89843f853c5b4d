/** What the rounds of the dual-writability prober do not miss
    (`testing/dual_writability_prober.py`): a worker probes each round at most once,
    never in a round in which it was found busy, and two acceptances of one round are
    a violation unless a wait gave up on one of them. */
module ProbeCompleteness {
  import opened ProbeOracle
  import opened ProbeProtocol

  // ----- At most one probe per round -----

  /** The probe of the round in `_seq` is still to come. */
  predicate ToProbe(w: Worker, stage: Stage) {
    || stage == DropResult || stage == DropDone || stage == RaiseBusy || stage == RaiseGo
    || (Released(w, stage) && !w.pc.PutResult? && w.pc != ClearBusy)
  }

  /** What worker `i` has to show for round `k` and the rounds before: `dispatched` and
      `passed` say whether the driver dispatched it, and went past it, in round `k`. */
  ghost predicate OnceAt(w: Worker, stage: Stage, i: nat, k: nat, dispatched: bool, passed: bool, log: set<Fact>) {
    && w.seqNo <= k && (Released(w, stage) && w.seqNo == k ==> dispatched)
    && (forall r: nat, o | Attempt(i, r, o) in log ::
          && r <= w.seqNo && (r == k ==> dispatched) && (r == w.seqNo ==> !ToProbe(w, stage))
          && Overran(i, r) !in log)
    && (forall r: nat | Overran(i, r) in log :: r <= k && r != w.seqNo && (r == k ==> passed && !dispatched))
    && (forall r: nat, o, o' | Attempt(i, r, o) in log && Attempt(i, r, o') in log :: o == o')
  }

  ghost predicate OnceIn(s: State, i: nat) {
    i < |s.workers| ==>
      OnceAt(s.workers[i], StageOf(s.driver, i), i, s.seqNo, i in s.dispatched, i < Reached(s), s.log)
  }

  /** A step of the worker's own thread. */
  lemma OwnStepKeepsOnce(w: Worker, stage: Stage, i: nat, k: nat, dispatched: bool, passed: bool, log: set<Fact>,
                         o: Outcome)
    requires OnceAt(w, stage, i, k, dispatched, passed, log) && Control(w, stage) && Data(w, stage, i, log)
    ensures OnceAt(WorkerNext(w, o), stage, i, k, dispatched, passed,
                   if w.pc.Probing? then log + {Attempt(i, w.pc.round, o)} else log)
  {
  }

  lemma StopKeepsOnce(w: Worker, stage: Stage, i: nat, k: nat, dispatched: bool, passed: bool, log: set<Fact>)
    requires OnceAt(w, stage, i, k, dispatched, passed, log)
    ensures w.pc.Probing? ==> OnceAt(w.(pc := Exited), stage, i, k, dispatched, passed, log)
    ensures OnceAt(w.(shutdown := true), stage, i, k, dispatched, passed, log)
    ensures OnceAt(w.(go := true), stage, i, k, dispatched, passed, log)
  {
  }

  /** Facts of another node, or of a wait, change nothing. */
  lemma OtherFactsKeepOnce(w: Worker, stage: Stage, i: nat, k: nat, dispatched: bool, passed: bool, log: set<Fact>,
                           log': set<Fact>)
    requires OnceAt(w, stage, i, k, dispatched, passed, log)
    requires forall f | f in log' && f !in log :: f.node != i || f.GaveUp? || f.SignalledEarly?
    requires log <= log'
    ensures OnceAt(w, stage, i, k, dispatched, passed, log')
  {
    assert forall r: nat, o | Attempt(i, r, o) in log' :: Attempt(i, r, o) in log;
    assert forall r: nat | Overran(i, r) in log' :: Overran(i, r) in log;
  }

  /** A write of `dispatch`; the last one leaves the worker dispatched. */
  lemma DispatchKeepsOnce(w: Worker, stage: Stage, i: nat, k: nat, log: set<Fact>)
    requires OnceAt(w, stage, i, k, false, false, log) && stage != Quiet
    requires stage != WriteSeq ==> w.seqNo == k
    ensures OnceAt(DispatchNext(w, stage, k), NextStage(stage), i, k, stage == RaiseGo, stage == RaiseGo, log)
  {
  }

  lemma BeginKeepsOnce(w: Worker, i: nat, k: nat, dispatched: bool, passed: bool, log: set<Fact>)
    requires OnceAt(w, Quiet, i, k, dispatched, passed, log) && !w.busy
    ensures OnceAt(w, WriteSeq, i, k, dispatched, passed, log)
  {
  }

  lemma OverrunKeepsOnce(w: Worker, i: nat, k: nat, log: set<Fact>)
    requires OnceAt(w, Quiet, i, k, false, false, log) && w.busy
    ensures OnceAt(w, Quiet, i, k, false, true, log + {Overran(i, k)})
  {
  }

  lemma NextRoundKeepsOnce(w: Worker, i: nat, k: nat, dispatched: bool, log: set<Fact>)
    requires OnceAt(w, Quiet, i, k, dispatched, true, log)
    ensures OnceAt(w, Quiet, i, k + 1, false, false, log)
  {
  }

  // ----- Every step of the prober -----

  lemma WorkerStepKeepsOnce(s: State, i: nat, o: Outcome)
    requires Inv(s) && OnceIn(s, i) && i < |s.workers|
    ensures OnceIn(Apply(s, WorkerStep(i, o)), i)
  {
    assert WorkerInv(s.workers[i], StageOf(s.driver, i), i, s.log);
    OwnStepKeepsOnce(s.workers[i], StageOf(s.driver, i), i, s.seqNo, i in s.dispatched, i < Reached(s), s.log, o);
  }

  /** An action of worker `a.i` leaves every other worker as it is. */
  lemma OtherWorkerKeepsOnce(s: State, a: Action, i: nat)
    requires OnceIn(s, i) && i < |s.workers| && Enabled(s, a) && !a.DriverStep? && !a.DriverTimeout? && a.i != i
    ensures OnceIn(Apply(s, a), i)
  {
    OtherFactsKeepOnce(s.workers[i], StageOf(s.driver, i), i, s.seqNo, i in s.dispatched, i < Reached(s), s.log,
                       Apply(s, a).log);
  }

  lemma WorkerActionKeepsOnce(s: State, a: Action, i: nat)
    requires Inv(s) && OnceIn(s, i) && Enabled(s, a) && !a.DriverStep? && !a.DriverTimeout?
    ensures OnceIn(Apply(s, a), i)
  {
    if i < |s.workers| {
      if a.i != i {
        OtherWorkerKeepsOnce(s, a, i);
      } else if a.WorkerStep? {
        WorkerStepKeepsOnce(s, i, a.outcome);
      } else {
        StopKeepsOnce(s.workers[i], StageOf(s.driver, i), i, s.seqNo, i in s.dispatched, i < Reached(s), s.log);
      }
    }
  }

  lemma TestBusyKeepsOnce(s: State, nowNs: int, i: nat)
    requires Inv(s) && OnceIn(s, i) && s.driver.TestBusy?
    ensures OnceIn(DriverNext(s, nowNs), i)
  {
    var n := s.driver.i;
    assert n !in s.dispatched;
    if i < |s.workers| {
      var w, d := s.workers[i], i in s.dispatched;
      if i != n {
        OtherFactsKeepOnce(w, Quiet, i, s.seqNo, d, i < n, s.log, DriverNext(s, nowNs).log);
      } else if w.busy {
        OverrunKeepsOnce(w, i, s.seqNo, s.log);
      } else {
        BeginKeepsOnce(w, i, s.seqNo, d, i < n, s.log);
      }
    }
  }

  lemma DispatchingKeepsOnce(s: State, nowNs: int, i: nat)
    requires Inv(s) && OnceIn(s, i) && s.driver.Dispatching?
    ensures OnceIn(DriverNext(s, nowNs), i)
  {
    assert s.driver.i !in s.dispatched;
    if i == s.driver.i { DispatchKeepsOnce(s.workers[i], s.driver.stage, i, s.seqNo, s.log); }
  }

  lemma RecordKeepsOnce(s: State, j: nat, p: NodeProbe, facts: set<Fact>, i: nat)
    requires OnceIn(s, i) && j < |s.dispatched| && (s.driver == AwaitDone(j) || s.driver == ReadResult(j))
    requires forall f | f in facts :: f.GaveUp? || f.SignalledEarly?
    ensures OnceIn(Record(s, j, p, facts), i)
  {
    if i < |s.workers| {
      OtherFactsKeepOnce(s.workers[i], Quiet, i, s.seqNo, i in s.dispatched, true, s.log, s.log + facts);
    }
  }

  lemma CloseRoundKeepsOnce(s: State, nowNs: int, i: nat)
    requires OnceIn(s, i) && s.driver.AwaitDone?
    ensures OnceIn(CloseRound(s, nowNs), i)
  {
    if i < |s.workers| { NextRoundKeepsOnce(s.workers[i], i, s.seqNo, i in s.dispatched, s.log); }
  }

  lemma CollectKeepsOnce(s: State, nowNs: int, i: nat)
    requires Inv(s) && OnceIn(s, i) && (s.driver.AwaitDone? || s.driver.ReadResult?)
    requires Enabled(s, DriverStep(nowNs))
    ensures OnceIn(DriverNext(s, nowNs), i)
  {
    var j := s.driver.j;
    if s.driver.ReadResult? {
      var node := s.dispatched[j];
      match s.workers[node].result
      case Empty =>
        RecordKeepsOnce(s, j, Indeterminately(node, "attempt_timeout"),
                        if s.workers[node].owed then {SignalledEarly(node, s.seqNo)} else {}, i);
      case Holds(_, o) => RecordKeepsOnce(s, j, NodeProbe(node, o, "probed", ""), {}, i);
    } else if j == |s.dispatched| {
      CloseRoundKeepsOnce(s, nowNs, i);
    }
  }

  lemma ActionKeepsOnce(s: State, a: Action, i: nat)
    requires Inv(s) && OnceIn(s, i) && Enabled(s, a)
    ensures OnceIn(Apply(s, a), i)
  {
    match a
    case DriverStep(nowNs) =>
      if s.driver.TestBusy? {
        TestBusyKeepsOnce(s, nowNs, i);
      } else if s.driver.Dispatching? {
        DispatchingKeepsOnce(s, nowNs, i);
      } else {
        CollectKeepsOnce(s, nowNs, i);
      }
    case DriverTimeout =>
      var node := s.dispatched[s.driver.j];
      RecordKeepsOnce(s, s.driver.j, Indeterminately(node, "attempt_timeout"), {GaveUp(node, s.seqNo)}, i);
    case _ => WorkerActionKeepsOnce(s, a, i);
  }

  lemma {:induction false} RunsKeepOnce(s: State, actions: seq<Action>, i: nat)
    requires Inv(s) && OnceIn(s, i) && ValidRun(s, actions)
    ensures OnceIn(After(s, actions), i)
    decreases |actions|
  {
    if actions != [] {
      ActionKeepsOnce(s, actions[0], i);
      ActionKeepsInv(s, actions[0]);
      RunsKeepOnce(Apply(s, actions[0]), actions[1..], i);
    }
  }

  /** A worker probes a round at most once, and not at all in a round in which the
      driver found it busy. */
  lemma ProbesOncePerRound(s0: State, actions: seq<Action>, i: nat, k: nat, o: Outcome)
    requires Init(s0) && ValidRun(s0, actions) && i < |s0.workers| && Attempt(i, k, o) in After(s0, actions).log
    ensures Overran(i, k) !in After(s0, actions).log
    ensures forall o' | Attempt(i, k, o') in After(s0, actions).log :: o' == o
  {
    InitEstablishesInv(s0);
    RunsKeepOnce(s0, actions, i);
    RoundsOnlyGrow(s0, actions);
  }

  // ----- Two acceptances are a violation -----

  /** A wait gave up on this entry, or ended before there was a result. */
  predicate GivenUp(p: NodeProbe) {
    p.reason == "attempt_timeout"
  }

  /** An entry shows the acceptance of its node, unless the wait for it gave up. */
  lemma AcceptanceIsRecorded(s0: State, actions: seq<Action>, k: nat, i: nat)
    requires Init(s0) && ValidRun(s0, actions) && k < |After(s0, actions).rounds| && i < |s0.workers|
    requires Attempt(i, k, Accepted) in After(s0, actions).log
    ensures i < |After(s0, actions).rounds[k].probes|
    ensures var p := After(s0, actions).rounds[k].probes[i]; p.outcome == Accepted || GivenUp(p)
  {
    RecordedRoundsAreTrue(s0, actions);
    RoundsOnlyGrow(s0, actions);
    ProbesOncePerRound(s0, actions, i, k, Accepted);
    assert ProbeOk(After(s0, actions).rounds[k].probes[i], i, k, After(s0, actions).log);
  }

  lemma {:induction false} AcceptanceCounts(probes: seq<NodeProbe>, i: nat)
    requires i < |probes| && probes[i].outcome == Accepted
    ensures CountOutcome(probes, Accepted) >= 1
  {
    if i < |probes| - 1 { AcceptanceCounts(probes[..|probes| - 1], i); }
  }

  lemma {:induction false} AcceptancesCount(probes: seq<NodeProbe>, i: nat, j: nat)
    requires i < j < |probes| && probes[i].outcome == probes[j].outcome == Accepted
    ensures CountOutcome(probes, Accepted) >= 2
  {
    var init := probes[..|probes| - 1];
    if j < |probes| - 1 { AcceptancesCount(init, i, j); } else { AcceptanceCounts(init, i); }
  }

  /** Two nodes that accepted the probe of one recorded round make it a violation,
      unless the wait for one of them gave up. */
  lemma TwoWritersAreSeen(s0: State, actions: seq<Action>, k: nat, i: nat, j: nat)
    requires Init(s0) && ValidRun(s0, actions) && k < |After(s0, actions).rounds| && i < j < |s0.workers|
    requires Attempt(i, k, Accepted) in After(s0, actions).log && Attempt(j, k, Accepted) in After(s0, actions).log
    ensures j < |After(s0, actions).rounds[k].probes|
    ensures var r := After(s0, actions).rounds[k];
            r.IsViolation() || GivenUp(r.probes[i]) || GivenUp(r.probes[j])
  {
    AcceptanceIsRecorded(s0, actions, k, i);
    AcceptanceIsRecorded(s0, actions, k, j);
    var r := After(s0, actions).rounds[k];
    if !GivenUp(r.probes[i]) && !GivenUp(r.probes[j]) { AcceptancesCount(r.probes, i, j); }
  }

  /** Node `i` accepted the probe of recorded round `k`, and the wait for it did not give up. */
  ghost predicate Accepts(s: State, k: nat, i: nat) {
    && k < |s.rounds| && i < |s.rounds[k].probes|
    && Attempt(i, k, Accepted) in s.log && !GivenUp(s.rounds[k].probes[i])
  }

  ghost predicate TwoWriters(s: State, k: nat) {
    exists i: nat, j: nat :: i < j && Accepts(s, k, i) && Accepts(s, k, j)
  }

  lemma AcceptedEntry(p: NodeProbe, i: nat, k: nat, log: set<Fact>)
    requires ProbeOk(p, i, k, log) && p.outcome == Accepted
    ensures Attempt(i, k, Accepted) in log && !GivenUp(p)
  {
    assert |"probed"| == 6 && |"attempt_timeout"| == 15;
  }

  lemma ViolationMeansTwoWriters(s0: State, actions: seq<Action>, k: nat)
    requires Init(s0) && ValidRun(s0, actions) && k < |After(s0, actions).rounds|
    requires After(s0, actions).rounds[k].IsViolation()
    ensures TwoWriters(After(s0, actions), k)
  {
    RecordedRoundsAreTrue(s0, actions);
    var s := After(s0, actions);
    var i, j := TwoAcceptances(s.rounds[k].probes);
    AcceptedEntry(s.rounds[k].probes[i], i, k, s.log);
    AcceptedEntry(s.rounds[k].probes[j], j, k, s.log);
    assert Accepts(s, k, i) && Accepts(s, k, j);
  }

  /** A recorded round is a violation if and only if two nodes accepted its probe and
      the wait for neither gave up. */
  lemma ViolationIffTwoWriters(s0: State, actions: seq<Action>, k: nat)
    requires Init(s0) && ValidRun(s0, actions) && k < |After(s0, actions).rounds|
    ensures After(s0, actions).rounds[k].IsViolation() <==> TwoWriters(After(s0, actions), k)
  {
    var s := After(s0, actions);
    if TwoWriters(s, k) {
      RoundsOnlyGrow(s0, actions);
      RecordedRoundsAreTrue(s0, actions);
      var i: nat, j: nat :| i < j && Accepts(s, k, i) && Accepts(s, k, j);
      assert RoundOk(s.rounds[k], |s.workers|, k, s.log);
      TwoWritersAreSeen(s0, actions, k, i, j);
    }
    if s.rounds[k].IsViolation() { ViolationMeansTwoWriters(s0, actions, k); }
  }

  /** The verdict is FAIL if and only if there is such a round. */
  lemma FailIffTwoWriters(s0: State, actions: seq<Action>, maxIndeterminate: real, minSingle: real)
    requires Init(s0) && ValidRun(s0, actions)
    ensures VerdictOf(After(s0, actions).rounds, maxIndeterminate, minSingle) == Fail <==>
            exists k: nat :: TwoWriters(After(s0, actions), k)
  {
    var s := After(s0, actions);
    forall k: nat | k < |s.rounds| ensures s.rounds[k].IsViolation() <==> TwoWriters(s, k) {
      ViolationIffTwoWriters(s0, actions, k);
    }
    assert forall k: nat | TwoWriters(s, k) :: k < |s.rounds| && s.rounds[k] in s.rounds;
  }
}
