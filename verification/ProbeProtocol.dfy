/** The driver and the per-node worker threads of the dual-writability prober
    (`testing/dual_writability_prober.py`), which share `_seq`, `_result`,
    `_busy`, `_go` and `_done` without a lock. Each read or write of a shared
    field is one atomic step, and a run is any interleaving of such steps. */
module ProbeProtocol {
  import opened ProbeOracle

  // ----- One worker and its shared fields -----

  /** Where the worker thread is in `run`. */
  datatype WorkerPc =
    | LoopTest                                // about to test whether it was shut down
    | WaitGo                                  // waiting for `_go`, for a while
    | ClearGo                                 // about to clear `_go`
    | TestShutdown                            // about to test once more whether it was shut down
    | ReadSeq                                 // about to read `_seq` for the probe
    | Probing(round: nat)                     // the probe is under way
    | PutResult(round: nat, outcome: Outcome) // about to write `_result`
    | ClearBusy                               // about to clear `_busy`
    | SetDone                                 // about to set `_done`
    | Exited

  /** `_result`, tagged with the round its probe was sent for. */
  datatype Cell = Empty | Holds(round: nat, outcome: Outcome)

  /** `owed` is a history variable: the latest dispatch cleared `_done` while the
      worker had still to set it for the round before. */
  datatype Worker = Worker(pc: WorkerPc, seqNo: nat, result: Cell, busy: bool, go: bool, done: bool, shutdown: bool,
                           owed: bool)

  /** What really happened at a node in a round, kept for the proofs alone: its probe
      ran to an outcome, or the driver found it busy, gave up waiting for it while
      `_done` was unset, or took an owed signal for that of the round. */
  datatype Fact =
    | Attempt(node: nat, round: nat, outcome: Outcome)
    | Overran(node: nat, round: nat)
    | GaveUp(node: nat, round: nat)
    | SignalledEarly(node: nat, round: nat)

  const START := Worker(LoopTest, 0, Empty, false, false, false, false, false)

  /** The next step of the worker thread; `outcome` is the fate of the probe when one completes. */
  function WorkerNext(w: Worker, outcome: Outcome): Worker {
    match w.pc
    case LoopTest => w.(pc := if w.shutdown then Exited else WaitGo)
    case WaitGo => w.(pc := if w.go then ClearGo else LoopTest)
    case ClearGo => w.(go := false, pc := TestShutdown)
    case TestShutdown => w.(pc := if w.shutdown then Exited else ReadSeq)
    case ReadSeq => w.(pc := Probing(w.seqNo))
    case Probing(k) => w.(pc := PutResult(k, outcome))
    case PutResult(k, o) => w.(result := Holds(k, o), pc := ClearBusy)
    case ClearBusy => w.(busy := false, pc := SetDone)
    case SetDone => w.(done := true, pc := LoopTest)
    case Exited => w
  }

  /** Which write of `dispatch` comes next for a worker; `Quiet` outside a dispatch. */
  datatype Stage = Quiet | WriteSeq | DropResult | DropDone | RaiseBusy | RaiseGo

  function DispatchNext(w: Worker, stage: Stage, k: nat): Worker {
    match stage
    case Quiet => w
    case WriteSeq => w.(seqNo := k)
    case DropResult => w.(result := Empty)
    case DropDone => w.(done := false, owed := w.pc == SetDone)
    case RaiseBusy => w.(busy := true)
    case RaiseGo => w.(go := true)
  }

  function NextStage(stage: Stage): Stage {
    match stage
    case Quiet => Quiet
    case WriteSeq => DropResult
    case DropResult => DropDone
    case DropDone => RaiseBusy
    case RaiseBusy => RaiseGo
    case RaiseGo => Quiet
  }

  // ----- The whole prober -----

  /** Where the driver thread is in `probe_round`. */
  datatype DriverPc =
    | TestBusy(i: nat)                   // about to read `_busy` of worker i
    | Dispatching(i: nat, stage: Stage)  // among the writes of `dispatch`
    | AwaitDone(j: nat)                  // waiting for `_done` of the j-th dispatched worker
    | ReadResult(j: nat)                 // about to read its `_result`

  datatype State = State(
    workers: seq<Worker>, driver: DriverPc, seqNo: nat, startedNs: int, dispatched: seq<nat>,
    probes: map<nat, NodeProbe>, rounds: seq<ProbeRound>, log: set<Fact>)

  datatype Action =
    | DriverStep(nowNs: int)                 // the driver's next step
    | DriverTimeout                          // the wait for `_done` gives up
    | WorkerStep(i: nat, outcome: Outcome)   // worker i's next step
    | WorkerDies(i: nat)                     // its probe raises
    | SetShutdown(i: nat)                    // the first write of `shutdown`
    | WakeForShutdown(i: nat)                // the second write of `shutdown`

  predicate Enabled(s: State, a: Action) {
    match a
    case DriverStep(_) => s.driver.AwaitDone? && s.driver.j < |s.dispatched| ==> DoneIsSet(s)
    case DriverTimeout => s.driver.AwaitDone? && s.driver.j < |s.dispatched| && !DoneIsSet(s)
    case WorkerStep(i, _) => i < |s.workers|
    case WorkerDies(i) => i < |s.workers| && s.workers[i].pc.Probing?
    case SetShutdown(i) => i < |s.workers|
    case WakeForShutdown(i) => i < |s.workers| && s.workers[i].shutdown
  }

  predicate DoneIsSet(s: State)
    requires s.driver.AwaitDone? && s.driver.j < |s.dispatched|
  {
    s.dispatched[s.driver.j] < |s.workers| && s.workers[s.dispatched[s.driver.j]].done
  }

  function Update(s: State, i: nat, w: Worker): State {
    if i < |s.workers| then s.(workers := s.workers[i := w]) else s
  }

  function Indeterminately(i: nat, reason: string): NodeProbe {
    NodeProbe(i, Indeterminate, reason, "")
  }

  function Record(s: State, j: nat, p: NodeProbe, facts: set<Fact>): State
    requires j < |s.dispatched|
  {
    s.(probes := s.probes[s.dispatched[j] := p], driver := AwaitDone(j + 1), log := s.log + facts)
  }

  function Overrun(s: State, i: nat): State {
    s.(probes := s.probes[i := Indeterminately(i, "probe_overrun")], driver := TestBusy(i + 1),
       log := s.log + {Overran(i, s.seqNo)})
  }

  /** The round closes with one probe per node, in node order. */
  function CloseRound(s: State, nowNs: int): State {
    var probes := seq(|s.workers|, i requires 0 <= i => if i in s.probes then s.probes[i] else Indeterminately(i, ""));
    s.(rounds := s.rounds + [ProbeRound(s.seqNo, s.startedNs, probes)],
       driver := TestBusy(0), seqNo := s.seqNo + 1, startedNs := nowNs, dispatched := [], probes := map[])
  }

  function DriverNext(s: State, nowNs: int): State {
    match s.driver
    case TestBusy(i) =>
      if i >= |s.workers| then s.(driver := AwaitDone(0))
      else if s.workers[i].busy then Overrun(s, i)
      else s.(driver := Dispatching(i, WriteSeq))
    case Dispatching(i, stage) =>
      if i >= |s.workers| then s
      else
        var s' := Update(s, i, DispatchNext(s.workers[i], stage, s.seqNo));
        if stage == RaiseGo then s'.(driver := TestBusy(i + 1), dispatched := s.dispatched + [i])
        else s'.(driver := Dispatching(i, NextStage(stage)))
    case AwaitDone(j) =>
      if j >= |s.dispatched| then CloseRound(s, nowNs) else s.(driver := ReadResult(j))
    case ReadResult(j) =>
      if j >= |s.dispatched| || s.dispatched[j] >= |s.workers| then s
      else
        var i := s.dispatched[j];
        match s.workers[i].result
        case Empty =>
          Record(s, j, Indeterminately(i, "attempt_timeout"),
                 if s.workers[i].owed then {SignalledEarly(i, s.seqNo)} else {})
        case Holds(_, o) => Record(s, j, NodeProbe(i, o, "probed", ""), {})
  }

  function Apply(s: State, a: Action): State
    requires Enabled(s, a)
  {
    match a
    case DriverStep(nowNs) => DriverNext(s, nowNs)
    case DriverTimeout =>
      var i := s.dispatched[s.driver.j];
      Record(s, s.driver.j, Indeterminately(i, "attempt_timeout"), {GaveUp(i, s.seqNo)})
    case WorkerStep(i, o) =>
      var w := s.workers[i];
      var s' := Update(s, i, WorkerNext(w, o));
      if w.pc.Probing? then s'.(log := s.log + {Attempt(i, w.pc.round, o)}) else s'
    case WorkerDies(i) => Update(s, i, s.workers[i].(pc := Exited))
    case SetShutdown(i) => Update(s, i, s.workers[i].(shutdown := true))
    case WakeForShutdown(i) => Update(s, i, s.workers[i].(go := true))
  }

  predicate Init(s: State) {
    && (forall i | 0 <= i < |s.workers| :: s.workers[i] == START)
    && s.driver == TestBusy(0) && s.seqNo == 0 && s.dispatched == [] && s.probes == map[]
    && s.rounds == [] && s.log == {}
  }

  // ----- The invariant -----

  /** What a worker is going through, as far as the driver is concerned. */
  function StageOf(driver: DriverPc, i: nat): Stage {
    if driver.Dispatching? && driver.i == i then driver.stage else Quiet
  }

  predicate MidProbe(pc: WorkerPc) {
    pc.ReadSeq? || pc.Probing? || pc.PutResult? || pc.ClearBusy?
  }

  predicate Released(w: Worker, stage: Stage) {
    w.busy && stage == Quiet
  }

  /** The worker only runs a probe that a finished dispatch released, and no
      released round is lost. */
  predicate Control(w: Worker, stage: Stage) {
    && (w.go ==> Released(w, stage) || w.shutdown)
    && (w.pc == ClearGo || w.pc == TestShutdown ==> Released(w, stage) || w.shutdown)
    && (MidProbe(w.pc) ==> Released(w, stage))
    && (w.pc == TestShutdown || MidProbe(w.pc) ==> !w.go || w.shutdown)
    && (stage == WriteSeq || stage == DropResult || stage == DropDone || stage == RaiseBusy ==> !w.busy)
    && (stage == RaiseGo ==> w.busy)
    && NotLost(w, stage)
  }

  predicate NotLost(w: Worker, stage: Stage) {
    Released(w, stage) && !w.shutdown && w.pc != Exited ==>
      w.go || w.pc == ClearGo || w.pc == TestShutdown || MidProbe(w.pc)
  }

  /** A probe runs for the round in `_seq`, and what it publishes is for that
      round until the next dispatch takes it away. */
  predicate Data(w: Worker, stage: Stage, node: nat, log: set<Fact>) {
    && (w.pc.Probing? ==> w.pc.round == w.seqNo)
    && (w.pc.PutResult? ==> w.pc.round == w.seqNo && Attempt(node, w.pc.round, w.pc.outcome) in log)
    && (w.result.Holds? ==> Attempt(node, w.result.round, w.result.outcome) in log)
    && (w.result.Holds? && stage != DropResult ==> w.result.round == w.seqNo)
  }

  /** What `_done` says about `_busy` and `_result`. */
  predicate Signal(w: Worker, stage: Stage) {
    && (w.pc == ClearBusy ==> w.result.Holds?)
    && (stage == Quiet && w.done && !w.owed ==> !w.busy && w.result.Holds?)
    && (stage == Quiet && w.pc == SetDone && !w.busy ==> w.result.Holds?)
    && (stage == Quiet && w.pc == SetDone && w.busy ==> w.owed && w.go && w.result == Empty)
    && ((stage == RaiseBusy || stage == RaiseGo) && !w.owed ==> w.pc != SetDone && !w.done)
    && (stage == DropDone || stage == RaiseBusy || stage == RaiseGo ==> w.result == Empty)
    && (w.owed ==> w.pc == SetDone || w.done)
  }

  /** Every worker, in every reachable state. */
  predicate WorkerInv(w: Worker, stage: Stage, node: nat, log: set<Fact>) {
    Control(w, stage) && Data(w, stage, node, log) && Signal(w, stage)
  }

  lemma WorkerKeepsControl(w: Worker, stage: Stage, o: Outcome)
    requires Control(w, stage)
    ensures Control(WorkerNext(w, o), stage)
  {
  }

  lemma WorkerKeepsData(w: Worker, stage: Stage, node: nat, log: set<Fact>, o: Outcome)
    requires Control(w, stage) && Data(w, stage, node, log)
    ensures Data(WorkerNext(w, o), stage, node, if w.pc.Probing? then log + {Attempt(node, w.pc.round, o)} else log)
  {
  }

  lemma WorkerKeepsSignal(w: Worker, stage: Stage, o: Outcome)
    requires Control(w, stage) && Signal(w, stage)
    ensures Signal(WorkerNext(w, o), stage)
  {
  }

  lemma DispatchKeeps(w: Worker, stage: Stage, node: nat, log: set<Fact>, k: nat)
    requires WorkerInv(w, stage, node, log) && stage != Quiet
    ensures WorkerInv(DispatchNext(w, stage, k), NextStage(stage), node, log)
  {
  }

  // ----- The bookkeeping of a round -----

  /** An entry of a round and what really happened. */
  predicate ProbeOk(p: NodeProbe, node: nat, round: nat, log: set<Fact>) {
    || (p == NodeProbe(node, p.outcome, "probed", "") && Attempt(node, round, p.outcome) in log)
    || (p == Indeterminately(node, "probe_overrun") && Overran(node, round) in log)
    || (p == Indeterminately(node, "attempt_timeout")
        && (GaveUp(node, round) in log || SignalledEarly(node, round) in log))
  }

  predicate RoundOk(r: ProbeRound, n: nat, k: nat, log: set<Fact>) {
    r.seqNo == k && |r.probes| == n && forall i | 0 <= i < n :: ProbeOk(r.probes[i], i, k, log)
  }

  /** How far the round has got: workers below this have been dispatched or found busy. */
  function Reached(s: State): nat {
    match s.driver
    case TestBusy(i) => i
    case Dispatching(i, _) => i
    case AwaitDone(_) => |s.workers|
    case ReadResult(_) => |s.workers|
  }

  /** The dispatched workers whose probe is still to be collected. */
  function Collected(s: State): nat {
    match s.driver case AwaitDone(j) => j case ReadResult(j) => j case _ => 0
  }

  predicate DriverOk(s: State) {
    && Reached(s) <= |s.workers| && Collected(s) <= |s.dispatched|
    && (s.driver.Dispatching? ==> s.driver.i < |s.workers| && s.driver.stage != Quiet)
    && (s.driver.ReadResult? ==> s.driver.j < |s.dispatched|)
  }

  ghost predicate Books(s: State)
    requires DriverOk(s)
  {
    DispatchBooks(s) && ProbeBooks(s)
  }

  /** Who has been dispatched for this round. */
  ghost predicate DispatchBooks(s: State)
    requires DriverOk(s)
  {
    && (forall j | 0 <= j < |s.dispatched| ::
          s.dispatched[j] < Reached(s) && s.workers[s.dispatched[j]].seqNo == s.seqNo)
    && (s.driver.Dispatching? && s.driver.stage != WriteSeq ==> s.workers[s.driver.i].seqNo == s.seqNo)
    && (s.driver.ReadResult? ==> s.workers[s.dispatched[s.driver.j]].done)
    && (forall j, k | 0 <= j < k < |s.dispatched| :: s.dispatched[j] != s.dispatched[k])
  }

  /** Whose probe of this round is known. */
  ghost predicate ProbeBooks(s: State)
    requires DriverOk(s)
  {
    && (forall i: nat :: i in s.probes <==> i < Reached(s) && i !in s.dispatched[Collected(s)..])
    && (forall i: nat | i in s.probes :: ProbeOk(s.probes[i], i, s.seqNo, s.log))
  }

  ghost predicate Inv(s: State) {
    && DriverOk(s) && Books(s) && s.seqNo == |s.rounds|
    && (forall i | 0 <= i < |s.workers| :: WorkerInv(s.workers[i], StageOf(s.driver, i), i, s.log))
    && (forall k | 0 <= k < |s.rounds| :: RoundOk(s.rounds[k], |s.workers|, k, s.log))
  }

  lemma InitEstablishesInv(s: State)
    requires Init(s)
    ensures Inv(s)
  {
  }

  lemma LogGrows(w: Worker, stage: Stage, node: nat, log: set<Fact>, log': set<Fact>)
    requires WorkerInv(w, stage, node, log) && log <= log'
    ensures WorkerInv(w, stage, node, log')
  {
  }

  /** A step of worker `i`'s own thread, or of the shutdown, touches that worker only. */
  lemma WorkerChangeKeeps(s: State, i: nat, w: Worker, log: set<Fact>)
    requires Inv(s) && i < |s.workers| && s.log <= log && w.seqNo == s.workers[i].seqNo
             && (s.workers[i].done ==> w.done)
    requires WorkerInv(w, StageOf(s.driver, i), i, log)
    ensures Inv(Update(s, i, w).(log := log))
  {
    var s' := Update(s, i, w).(log := log);
    WorkerChangeKeepsBooks(s, i, w, log);
    forall k | 0 <= k < |s'.workers| ensures WorkerInv(s'.workers[k], StageOf(s'.driver, k), k, s'.log) {
      if k != i { LogGrows(s.workers[k], StageOf(s.driver, k), k, s.log, log); }
    }
    forall k | 0 <= k < |s'.rounds| ensures RoundOk(s'.rounds[k], |s'.workers|, k, s'.log) {
      assert RoundOk(s.rounds[k], |s.workers|, k, s.log);
    }
  }

  lemma WorkerChangeKeepsBooks(s: State, i: nat, w: Worker, log: set<Fact>)
    requires DriverOk(s) && Books(s)
    requires i < |s.workers| && s.log <= log && w.seqNo == s.workers[i].seqNo && (s.workers[i].done ==> w.done)
    ensures DriverOk(Update(s, i, w).(log := log)) && Books(Update(s, i, w).(log := log))
  {
    WorkerChangeKeepsDispatched(s, i, w, log);
    WorkerChangeKeepsProbes(s, i, w, log);
  }

  lemma WorkerChangeKeepsDispatched(s: State, i: nat, w: Worker, log: set<Fact>)
    requires DriverOk(s) && DispatchBooks(s)
    requires i < |s.workers| && w.seqNo == s.workers[i].seqNo && (s.workers[i].done ==> w.done)
    ensures DriverOk(Update(s, i, w).(log := log)) && DispatchBooks(Update(s, i, w).(log := log))
  {
    var s' := Update(s, i, w).(log := log);
    assert forall k | 0 <= k < |s.workers| :: s'.workers[k].seqNo == s.workers[k].seqNo;
  }

  lemma WorkerChangeKeepsProbes(s: State, i: nat, w: Worker, log: set<Fact>)
    requires DriverOk(s) && ProbeBooks(s) && s.log <= log
    ensures DriverOk(Update(s, i, w).(log := log)) && ProbeBooks(Update(s, i, w).(log := log))
  {
    var s' := Update(s, i, w).(log := log);
    assert Reached(s') == Reached(s) && Collected(s') == Collected(s);
  }

  lemma WorkerStepKeeps(s: State, i: nat, o: Outcome)
    requires Inv(s) && i < |s.workers|
    ensures Inv(Apply(s, WorkerStep(i, o)))
  {
    var w, stage := s.workers[i], StageOf(s.driver, i);
    assert WorkerInv(w, stage, i, s.log);
    WorkerKeepsControl(w, stage, o);
    WorkerKeepsData(w, stage, i, s.log, o);
    WorkerKeepsSignal(w, stage, o);
    var log := if w.pc.Probing? then s.log + {Attempt(i, w.pc.round, o)} else s.log;
    WorkerChangeKeeps(s, i, WorkerNext(w, o), log);
    assert Apply(s, WorkerStep(i, o)) == Update(s, i, WorkerNext(w, o)).(log := log);
  }

  lemma StoppedWorkerKeeps(w: Worker, stage: Stage, node: nat, log: set<Fact>)
    requires WorkerInv(w, stage, node, log)
    ensures w.pc.Probing? ==> WorkerInv(w.(pc := Exited), stage, node, log)
    ensures WorkerInv(w.(shutdown := true), stage, node, log)
    ensures w.shutdown ==> WorkerInv(w.(go := true), stage, node, log)
  {
  }

  lemma WorkerActionKeeps(s: State, a: Action)
    requires Inv(s) && Enabled(s, a) && !a.DriverStep? && !a.DriverTimeout?
    ensures Inv(Apply(s, a))
  {
    if a.WorkerStep? {
      WorkerStepKeeps(s, a.i, a.outcome);
    } else {
      var i, w := a.i, Apply(s, a).workers[a.i];
      assert WorkerInv(s.workers[i], StageOf(s.driver, i), i, s.log);
      StoppedWorkerKeeps(s.workers[i], StageOf(s.driver, i), i, s.log);
      WorkerChangeKeeps(s, i, w, s.log);
      assert Apply(s, a) == Update(s, i, w).(log := s.log);
    }
  }

  lemma BeginDispatchKeeps(w: Worker, node: nat, log: set<Fact>)
    requires WorkerInv(w, Quiet, node, log) && !w.busy
    ensures WorkerInv(w, WriteSeq, node, log)
  {
  }

  /** Facts are only ever added. */
  lemma MoreFactsKeep(s: State, log: set<Fact>)
    requires Inv(s) && s.log <= log
    ensures Inv(s.(log := log))
  {
    forall k | 0 <= k < |s.workers| ensures WorkerInv(s.workers[k], StageOf(s.driver, k), k, log) {
      LogGrows(s.workers[k], StageOf(s.driver, k), k, s.log, log);
    }
    forall k | 0 <= k < |s.rounds| ensures RoundOk(s.rounds[k], |s.workers|, k, log) {
      assert RoundOk(s.rounds[k], |s.workers|, k, s.log);
    }
  }

  lemma OverrunKeeps(s: State, i: nat)
    requires Inv(s) && s.driver == TestBusy(i) && i < |s.workers|
    ensures Inv(Overrun(s, i))
  {
    MoreFactsKeep(s, s.log + {Overran(i, s.seqNo)});
    assert s.dispatched[0..] == s.dispatched;
    assert forall k | 0 <= k < |s.workers| :: StageOf(s.driver, k) == StageOf(TestBusy(i + 1), k);
  }

  lemma StartDispatchKeeps(s: State, i: nat)
    requires Inv(s) && s.driver == TestBusy(i) && i < |s.workers| && !s.workers[i].busy
    ensures Inv(s.(driver := Dispatching(i, WriteSeq)))
  {
    forall k | 0 <= k < |s.workers| ensures WorkerInv(s.workers[k], StageOf(Dispatching(i, WriteSeq), k), k, s.log) {
      assert WorkerInv(s.workers[k], StageOf(s.driver, k), k, s.log);
      if k == i { BeginDispatchKeeps(s.workers[i], i, s.log); }
    }
  }

  lemma TestBusyKeeps(s: State, nowNs: int)
    requires Inv(s) && s.driver.TestBusy?
    ensures Inv(DriverNext(s, nowNs))
  {
    var i := s.driver.i;
    if i >= |s.workers| {
      assert forall k | 0 <= k < |s.workers| :: StageOf(s.driver, k) == StageOf(AwaitDone(0), k);
    } else if s.workers[i].busy {
      OverrunKeeps(s, i);
    } else {
      StartDispatchKeeps(s, i);
    }
  }

  lemma DispatchingKeeps(s: State, nowNs: int)
    requires Inv(s) && s.driver.Dispatching?
    ensures Inv(DriverNext(s, nowNs))
  {
    var i, s' := s.driver.i, DriverNext(s, nowNs);
    DispatchKeeps(s.workers[i], s.driver.stage, i, s.log, s.seqNo);
    forall k | 0 <= k < |s'.workers| ensures WorkerInv(s'.workers[k], StageOf(s'.driver, k), k, s'.log) {
      assert WorkerInv(s.workers[k], StageOf(s.driver, k), k, s.log);
    }
    assert s'.dispatched[Collected(s')..] == s'.dispatched && s.dispatched[Collected(s)..] == s.dispatched;
  }

  lemma RecordKeepsProbes(s: State, j: nat, p: NodeProbe)
    requires DriverOk(s) && DispatchBooks(s) && ProbeBooks(s)
    requires (s.driver == AwaitDone(j) || s.driver == ReadResult(j)) && j < |s.dispatched|
    requires ProbeOk(p, s.dispatched[j], s.seqNo, s.log)
    ensures DriverOk(Record(s, j, p, {})) && ProbeBooks(Record(s, j, p, {}))
  {
    var s' := Record(s, j, p, {});
    forall i: nat ensures i in s'.probes <==> i < Reached(s') && i !in s'.dispatched[Collected(s')..] {
      OneFewer(s.dispatched, j, i);
    }
  }

  lemma OneFewer(nodes: seq<nat>, j: nat, i: nat)
    requires j < |nodes| && forall a, b | 0 <= a < b < |nodes| :: nodes[a] != nodes[b]
    ensures i in nodes[j + 1..] <==> i in nodes[j..] && i != nodes[j]
  {
    assert nodes[j..] == [nodes[j]] + nodes[j + 1..];
  }

  lemma RecordKeeps(s: State, j: nat, p: NodeProbe, facts: set<Fact>)
    requires Inv(s) && (s.driver == AwaitDone(j) || s.driver == ReadResult(j)) && j < |s.dispatched|
    requires ProbeOk(p, s.dispatched[j], s.seqNo, s.log + facts)
    ensures Inv(Record(s, j, p, facts))
  {
    MoreFactsKeep(s, s.log + facts);
    var s1, s2 := s.(log := s.log + facts), Record(s, j, p, facts);
    RecordKeepsProbes(s1, j, p);
    assert s2 == Record(s1, j, p, {});
    assert forall k | 0 <= k < |s.workers| :: StageOf(s.driver, k) == StageOf(s2.driver, k);
  }

  lemma CloseRoundKeeps(s: State, nowNs: int)
    requires Inv(s) && s.driver == AwaitDone(|s.dispatched|)
    ensures Inv(CloseRound(s, nowNs))
  {
    var s', r := CloseRound(s, nowNs), CloseRound(s, nowNs).rounds[|s.rounds|];
    assert forall i: nat | i < |s.workers| :: i in s.probes && r.probes[i] == s.probes[i];
    assert RoundOk(r, |s.workers|, s.seqNo, s.log);
    assert forall k | 0 <= k < |s.workers| :: StageOf(s.driver, k) == StageOf(s'.driver, k);
    forall k | 0 <= k < |s'.rounds| ensures RoundOk(s'.rounds[k], |s'.workers|, k, s'.log) {
      if k < |s.rounds| { assert s'.rounds[k] == s.rounds[k]; }
    }
  }

  lemma CollectKeeps(s: State, nowNs: int)
    requires Inv(s) && (s.driver.AwaitDone? || s.driver.ReadResult?) && Enabled(s, DriverStep(nowNs))
    ensures Inv(DriverNext(s, nowNs))
  {
    var j := s.driver.j;
    if s.driver.ReadResult? {
      var i := s.dispatched[j];
      assert WorkerInv(s.workers[i], Quiet, i, s.log);
      match s.workers[i].result
      case Empty => RecordKeeps(s, j, Indeterminately(i, "attempt_timeout"), {SignalledEarly(i, s.seqNo)});
      case Holds(_, o) => RecordKeeps(s, j, NodeProbe(i, o, "probed", ""), {});
    } else if j == |s.dispatched| {
      CloseRoundKeeps(s, nowNs);
    } else {
      assert forall k | 0 <= k < |s.workers| :: StageOf(s.driver, k) == StageOf(ReadResult(j), k);
    }
  }

  lemma ActionKeepsInv(s: State, a: Action)
    requires Inv(s) && Enabled(s, a)
    ensures Inv(Apply(s, a))
  {
    match a
    case DriverStep(nowNs) =>
      if s.driver.TestBusy? {
        TestBusyKeeps(s, nowNs);
      } else if s.driver.Dispatching? {
        DispatchingKeeps(s, nowNs);
      } else {
        CollectKeeps(s, nowNs);
      }
    case DriverTimeout =>
      var i := s.dispatched[s.driver.j];
      RecordKeeps(s, s.driver.j, Indeterminately(i, "attempt_timeout"), {GaveUp(i, s.seqNo)});
    case _ => WorkerActionKeeps(s, a);
  }

  // ----- Runs -----

  predicate ValidRun(s: State, actions: seq<Action>)
    decreases |actions|
  {
    actions != [] ==> Enabled(s, actions[0]) && ValidRun(Apply(s, actions[0]), actions[1..])
  }

  function After(s: State, actions: seq<Action>): State
    requires ValidRun(s, actions)
    decreases |actions|
  {
    if actions == [] then s else After(Apply(s, actions[0]), actions[1..])
  }

  /** Every interleaving keeps the invariant. */
  lemma {:induction false} RunsKeepInv(s: State, actions: seq<Action>)
    requires Inv(s) && ValidRun(s, actions)
    ensures Inv(After(s, actions))
    decreases |actions|
  {
    if actions != [] {
      ActionKeepsInv(s, actions[0]);
      RunsKeepInv(Apply(s, actions[0]), actions[1..]);
    }
  }

  /** What `collect` returns to the driver was produced by the probe of the round
      the driver dispatched last, never by an earlier one that overran. */
  lemma CollectedProbesAreCurrent(s0: State, actions: seq<Action>)
    requires Init(s0) && ValidRun(s0, actions)
    ensures var s := After(s0, actions);
            s.driver.ReadResult? ==>
              && s.driver.j < |s.dispatched| && s.dispatched[s.driver.j] < |s.workers|
              && var i := s.dispatched[s.driver.j];
                 var w := s.workers[i];
                 w.seqNo == s.seqNo && (w.result.Holds? ==>
                   w.result.round == s.seqNo && Attempt(i, s.seqNo, w.result.outcome) in s.log)
  {
    InitEstablishesInv(s0);
    RunsKeepInv(s0, actions);
    var s := After(s0, actions);
    if s.driver.ReadResult? {
      var i := s.dispatched[s.driver.j];
      assert WorkerInv(s.workers[i], StageOf(s.driver, i), i, s.log);
    }
  }

  /** Every recorded round holds exactly one entry per node, in node order, and each
      entry is borne out by what happened at that node in that very round. */
  lemma RecordedRoundsAreTrue(s0: State, actions: seq<Action>)
    requires Init(s0) && ValidRun(s0, actions)
    ensures var s := After(s0, actions);
            forall k | 0 <= k < |s.rounds| :: RoundOk(s.rounds[k], |s.workers|, k, s.log)
  {
    InitEstablishesInv(s0);
    RunsKeepInv(s0, actions);
  }

  lemma {:induction false} TwoAcceptances(probes: seq<NodeProbe>) returns (i: nat, j: nat)
    requires CountOutcome(probes, Accepted) >= 2
    ensures i < j < |probes| && probes[i].outcome == probes[j].outcome == Accepted
  {
    var init := probes[..|probes| - 1];
    if CountOutcome(init, Accepted) >= 2 {
      i, j := TwoAcceptances(init);
    } else {
      i := OneAcceptance(init);
      j := |probes| - 1;
    }
  }

  lemma {:induction false} OneAcceptance(probes: seq<NodeProbe>) returns (i: nat)
    requires CountOutcome(probes, Accepted) >= 1
    ensures i < |probes| && probes[i].outcome == Accepted
  {
    if probes[|probes| - 1].outcome == Accepted {
      i := |probes| - 1;
    } else {
      i := OneAcceptance(probes[..|probes| - 1]);
    }
  }

  /** A FAIL verdict on what any run recorded means that two different nodes
      accepted the probe of one round. */
  lemma FailMeansTwoWriters(s0: State, actions: seq<Action>, maxIndeterminate: real, minSingle: real)
    requires Init(s0) && ValidRun(s0, actions)
    requires VerdictOf(After(s0, actions).rounds, maxIndeterminate, minSingle) == Fail
    ensures exists k: nat, i: nat, j: nat | i < j ::
              Attempt(i, k, Accepted) in After(s0, actions).log && Attempt(j, k, Accepted) in After(s0, actions).log
  {
    RecordedRoundsAreTrue(s0, actions);
    var s := After(s0, actions);
    var r :| r in s.rounds && r.IsViolation();
    var k :| 0 <= k < |s.rounds| && s.rounds[k] == r;
    var i, j := TwoAcceptances(r.probes);
    assert ProbeOk(r.probes[i], i, k, s.log) && ProbeOk(r.probes[j], j, k, s.log);
  }

  // ----- What every entry of a round is worth -----

  /** The action, taken in this state, is what the fact says. */
  predicate Happens(s: State, a: Action, f: Fact) {
    f.node < |s.workers| &&
    var w := s.workers[f.node];
    match f
    case Attempt(i, k, o) => a == WorkerStep(i, o) && w.pc == Probing(k)
    case Overran(i, k) => a.DriverStep? && s.driver == TestBusy(i) && s.seqNo == k && w.busy
    case GaveUp(i, k) =>
      && a == DriverTimeout && s.driver.AwaitDone? && s.driver.j < |s.dispatched| && s.dispatched[s.driver.j] == i
      && s.seqNo == k && !w.done
    case SignalledEarly(i, k) =>
      && a.DriverStep? && s.driver.ReadResult? && s.driver.j < |s.dispatched| && s.dispatched[s.driver.j] == i
      && s.seqNo == k && w.owed && w.result == Empty
  }

  lemma NewFactHappens(s: State, a: Action, f: Fact)
    requires Inv(s) && Enabled(s, a) && f in Apply(s, a).log && f !in s.log
    ensures Happens(s, a, f)
  {
  }

  lemma {:induction false} FactsHappened(s: State, actions: seq<Action>, f: Fact) returns (m: nat)
    requires Inv(s) && ValidRun(s, actions) && f in After(s, actions).log && f !in s.log
    ensures m < |actions| && ValidRun(s, actions[..m]) && Happens(After(s, actions[..m]), actions[m], f)
    decreases |actions|
  {
    var a, rest := actions[0], actions[1..];
    var s' := Apply(s, a);
    if f in s'.log {
      NewFactHappens(s, a, f);
      m := 0;
    } else {
      ActionKeepsInv(s, a);
      var n := FactsHappened(s', rest, f);
      m := n + 1;
      assert actions[..m][0] == a && actions[..m][1..] == rest[..n];
    }
  }

  /** Behind every entry of every recorded round there is a moment of the run that
      says why it is there. In particular an entry without an answer means that the
      worker was busy with an earlier round, that `_done` was unset when the wait
      gave up, or that the wait ended on an owed signal before there was a result. */
  lemma EntriesAreExplained(s0: State, actions: seq<Action>, k: nat, i: nat) returns (f: Fact, m: nat)
    requires Init(s0) && ValidRun(s0, actions) && k < |After(s0, actions).rounds| && i < |After(s0, actions).workers|
    ensures i < |After(s0, actions).rounds[k].probes| && f.node == i && f.round == k
    ensures var p := After(s0, actions).rounds[k].probes[i];
            match p.reason
            case "probed" => f == Attempt(i, k, p.outcome)
            case "probe_overrun" => f == Overran(i, k)
            case _ => p.reason == "attempt_timeout" && (f == GaveUp(i, k) || f == SignalledEarly(i, k))
    ensures m < |actions| && ValidRun(s0, actions[..m]) && Happens(After(s0, actions[..m]), actions[m], f)
  {
    RecordedRoundsAreTrue(s0, actions);
    InitEstablishesInv(s0);
    var s := After(s0, actions);
    var p := s.rounds[k].probes[i];
    assert ProbeOk(p, i, k, s.log);
    f := FactBehind(p, i, k, s.log);
    m := FactsHappened(s0, actions, f);
  }

  lemma FactBehind(p: NodeProbe, i: nat, k: nat, log: set<Fact>) returns (f: Fact)
    requires ProbeOk(p, i, k, log)
    ensures f in log && f.node == i && f.round == k
    ensures match p.reason
            case "probed" => f == Attempt(i, k, p.outcome)
            case "probe_overrun" => f == Overran(i, k)
            case _ => p.reason == "attempt_timeout" && (f == GaveUp(i, k) || f == SignalledEarly(i, k))
  {
    assert |"probed"| == 6 && |"probe_overrun"| == 13 && |"attempt_timeout"| == 15;
    if |p.reason| == 6 {
      f := Attempt(i, k, p.outcome);
    } else if |p.reason| == 13 {
      f := Overran(i, k);
    } else {
      f := if GaveUp(i, k) in log then GaveUp(i, k) else SignalledEarly(i, k);
    }
  }

  // ----- When a round started -----

  /** Round `k` is under way since `start`, or recorded with it. */
  predicate Started(s: State, k: nat, start: int) {
    if s.seqNo == k then s.startedNs == start && |s.rounds| == k
    else k < |s.rounds| <= s.seqNo && s.rounds[k].startedNs == start
  }

  lemma StepKeepsStart(s: State, a: Action, k: nat, start: int)
    requires Enabled(s, a) && s.seqNo >= k && Started(s, k, start)
    ensures Apply(s, a).seqNo >= k && Started(Apply(s, a), k, start)
  {
  }

  lemma {:induction false} RunsKeepStart(s: State, actions: seq<Action>, k: nat, start: int)
    requires ValidRun(s, actions) && s.seqNo >= k && Started(s, k, start)
    ensures After(s, actions).seqNo >= k && Started(After(s, actions), k, start)
    decreases |actions|
  {
    if actions != [] {
      StepKeepsStart(s, actions[0], k, start);
      RunsKeepStart(Apply(s, actions[0]), actions[1..], k, start);
    }
  }

  /** The step that takes the driver on from round `k - 1`, whose clock reading is the start of round `k`. */
  lemma {:induction false} StartOfRound(s: State, actions: seq<Action>, k: nat) returns (m: nat)
    requires Inv(s) && ValidRun(s, actions) && s.seqNo < k <= After(s, actions).seqNo
    ensures m < |actions| && actions[m].DriverStep? && ValidRun(s, actions[..m])
    ensures After(s, actions[..m]).seqNo == k - 1 && Enabled(After(s, actions[..m]), actions[m])
    ensures Apply(After(s, actions[..m]), actions[m]).seqNo == k
    ensures Started(After(s, actions), k, actions[m].nowNs)
    decreases |actions|
  {
    var a, rest := actions[0], actions[1..];
    var s' := Apply(s, a);
    ActionKeepsInv(s, a);
    if s'.seqNo == k {
      m := 0;
      RunsKeepStart(s', rest, k, a.nowNs);
    } else {
      var n := StartOfRound(s', rest, k);
      m := n + 1;
      assert actions[..m][0] == a && actions[..m][1..] == rest[..n];
    }
  }

  /** A recorded round carries the clock reading of the step that ended the round before
      it, and the first one that of the beginning. */
  lemma RoundsCarryTheirStart(s0: State, actions: seq<Action>, k: nat) returns (m: nat)
    requires Init(s0) && ValidRun(s0, actions) && k < |After(s0, actions).rounds|
    ensures var started := After(s0, actions).rounds[k].startedNs;
            if k == 0 then started == s0.startedNs
            else
              && m < |actions| && ValidRun(s0, actions[..m]) && Enabled(After(s0, actions[..m]), actions[m])
              && After(s0, actions[..m]).seqNo == k - 1 && Apply(After(s0, actions[..m]), actions[m]).seqNo == k
              && actions[m] == DriverStep(started)
  {
    InitEstablishesInv(s0);
    RunsKeepInv(s0, actions);
    m := 0;
    if k == 0 {
      RunsKeepStart(s0, actions, 0, s0.startedNs);
    } else {
      m := StartOfRound(s0, actions, k);
    }
  }

  // ----- No dispatched round is lost -----

  /** Worker steps until a released round is published. */
  function StepsToPublish(pc: WorkerPc): nat {
    match pc
    case ClearBusy => 1
    case PutResult(_, _) => 2
    case Probing(_) => 3
    case ReadSeq => 4
    case TestShutdown => 5
    case ClearGo => 6
    case WaitGo => 7
    case LoopTest => 8
    case SetDone => 9
    case Exited => 0
  }

  predicate AtWork(s: State, i: nat, k: nat) {
    && i < |s.workers| && StageOf(s.driver, i) == Quiet
    && var w := s.workers[i]; w.busy && !w.shutdown && w.pc != Exited && w.seqNo == k
  }

  predicate Published(s: State, i: nat, k: nat) {
    i < |s.workers| && !s.workers[i].busy && s.workers[i].result.Holds? && s.workers[i].result.round == k
  }

  predicate Stops(a: Action, i: nat) {
    a == SetShutdown(i) || a == WorkerDies(i)
  }

  function StepsOf(actions: seq<Action>, i: nat): nat {
    if actions == [] then 0
    else (if actions[0].WorkerStep? && actions[0].i == i then 1 else 0) + StepsOf(actions[1..], i)
  }

  lemma OwnStep(w: Worker, node: nat, log: set<Fact>, o: Outcome)
    requires WorkerInv(w, Quiet, node, log) && w.busy && !w.shutdown && w.pc != Exited
    ensures var w' := WorkerNext(w, o);
            if w.pc == ClearBusy then !w'.busy && w'.result.Holds? && w'.result.round == w.seqNo
            else
              && w'.busy && !w'.shutdown && w'.pc != Exited && w'.seqNo == w.seqNo
              && StepsToPublish(w'.pc) == StepsToPublish(w.pc) - 1
  {
  }

  lemma WorkStep(s: State, a: Action, i: nat, k: nat)
    requires Inv(s) && AtWork(s, i, k) && Enabled(s, a) && !Stops(a, i)
    ensures var s', pc := Apply(s, a), s.workers[i].pc;
            if a.WorkerStep? && a.i == i then
              if pc == ClearBusy then Published(s', i, k)
              else AtWork(s', i, k) && StepsToPublish(s'.workers[i].pc) == StepsToPublish(pc) - 1
            else AtWork(s', i, k) && s'.workers[i].pc == pc
  {
    assert WorkerInv(s.workers[i], StageOf(s.driver, i), i, s.log);
    if a.WorkerStep? && a.i == i { OwnStep(s.workers[i], i, s.log, a.outcome); }
  }

  /** A released round is published once its worker, alive and not shut down, has
      taken its remaining steps, at most nine, however they interleave with the rest. */
  lemma {:induction false} ReleasedRoundIsPublished(s: State, actions: seq<Action>, i: nat, k: nat) returns (m: nat)
    requires Inv(s) && ValidRun(s, actions) && AtWork(s, i, k)
    requires forall a | a in actions :: !Stops(a, i)
    requires StepsOf(actions, i) >= StepsToPublish(s.workers[i].pc)
    ensures m <= |actions| && ValidRun(s, actions[..m]) && Published(After(s, actions[..m]), i, k)
    decreases |actions|
  {
    var a, rest := actions[0], actions[1..];
    WorkStep(s, a, i, k);
    ActionKeepsInv(s, a);
    var s', n := Apply(s, a), 0;
    if a.WorkerStep? && a.i == i && s.workers[i].pc == ClearBusy {
      assert rest[..0] == [];
    } else {
      n := ReleasedRoundIsPublished(s', rest, i, k);
    }
    m := n + 1;
    assert actions[..m][0] == a && actions[..m][1..] == rest[..n];
  }

  // ----- Shutdown -----

  /** Own steps of a worker that was shut down until its thread ends. */
  function StepsToExit(pc: WorkerPc): nat {
    match pc
    case Exited => 0
    case LoopTest => 1
    case TestShutdown => 1
    case ClearGo => 2
    case SetDone => 2
    case WaitGo => 3
    case ClearBusy => 3
    case PutResult(_, _) => 4
    case Probing(_) => 5
    case ReadSeq => 6
  }

  lemma OwnStepToExit(w: Worker, o: Outcome)
    requires w.shutdown
    ensures WorkerNext(w, o).shutdown
    ensures StepsToExit(WorkerNext(w, o).pc) <= if w.pc == Exited then 0 else StepsToExit(w.pc) - 1
  {
  }

  /** The driver does not move the workers' threads. */
  lemma DriverLeavesThreads(s: State, nowNs: int, i: nat)
    requires i < |s.workers|
    ensures var s' := DriverNext(s, nowNs);
            |s'.workers| == |s.workers| && s'.workers[i].pc == s.workers[i].pc
            && s'.workers[i].shutdown == s.workers[i].shutdown
  {
  }

  lemma ShutdownStep(s: State, a: Action, i: nat)
    requires Enabled(s, a) && i < |s.workers| && s.workers[i].shutdown
    ensures var s', steps := Apply(s, a), StepsToExit(s.workers[i].pc);
            && |s'.workers| == |s.workers| && s'.workers[i].shutdown
            && StepsToExit(s'.workers[i].pc) <= (if a.WorkerStep? && a.i == i && steps > 0 then steps - 1 else steps)
  {
    if a.DriverStep? {
      DriverLeavesThreads(s, a.nowNs, i);
    } else if a.WorkerStep? && a.i == i {
      OwnStepToExit(s.workers[i], a.outcome);
    }
  }

  /** A worker that was shut down has ended once it has taken at most six steps, whatever
      the others do. */
  lemma {:induction false} ShutdownEndsWorker(s: State, actions: seq<Action>, i: nat)
    requires ValidRun(s, actions) && i < |s.workers| && s.workers[i].shutdown
    requires StepsOf(actions, i) >= StepsToExit(s.workers[i].pc)
    ensures i < |After(s, actions).workers| && After(s, actions).workers[i].pc == Exited
    decreases |actions|
  {
    if actions != [] {
      ShutdownStep(s, actions[0], i);
      ShutdownEndsWorker(Apply(s, actions[0]), actions[1..], i);
    }
  }

  // ----- The comment that `collect` "always sees busy False" -----

  /** It does whenever the dispatch found no signal still owed for the round
      before, and the probe of this round is then there to read. */
  lemma CollectSeesBusyClearUnlessOwed(s0: State, actions: seq<Action>)
    requires Init(s0) && ValidRun(s0, actions)
    ensures var s := After(s0, actions);
            s.driver.ReadResult? ==>
              && s.driver.j < |s.dispatched| && s.dispatched[s.driver.j] < |s.workers|
              && var w := s.workers[s.dispatched[s.driver.j]];
                 !w.owed ==> !w.busy && w.result.Holds? && w.result.round == s.seqNo
  {
    InitEstablishesInv(s0);
    RunsKeepInv(s0, actions);
    var s := After(s0, actions);
    if s.driver.ReadResult? {
      var i := s.dispatched[s.driver.j];
      assert WorkerInv(s.workers[i], StageOf(s.driver, i), i, s.log);
    }
  }

  /** An owed signal has been given, or is the worker's next step, which leaves
      `_busy` and `_result` as they are. */
  lemma OwedSignalComesEarly(s: State, i: nat, o: Outcome)
    requires Inv(s) && i < |s.workers| && s.workers[i].owed && !s.workers[i].done
    ensures s.workers[i].pc == SetDone
    ensures var w := Apply(s, WorkerStep(i, o)).workers[i];
            w.done && w.busy == s.workers[i].busy && w.result == s.workers[i].result
  {
    assert WorkerInv(s.workers[i], StageOf(s.driver, i), i, s.log);
  }

  predicate Collecting(s: State) {
    s.driver.AwaitDone? || s.driver.ReadResult?
  }

  lemma {:induction false} RoundsOnlyGrow(s: State, actions: seq<Action>)
    requires ValidRun(s, actions)
    ensures After(s, actions).seqNo >= s.seqNo && |After(s, actions).workers| == |s.workers|
    decreases |actions|
  {
    if actions != [] { RoundsOnlyGrow(Apply(s, actions[0]), actions[1..]); }
  }

  predicate OnlyClears(s: State, s': State, i: nat) {
    && i < |s.workers| == |s'.workers| && Collecting(s') && s'.seqNo == s.seqNo && s'.dispatched == s.dispatched
    && s'.workers[i].owed == s.workers[i].owed && (s'.workers[i].busy ==> s.workers[i].busy)
  }

  lemma CollectingStep(s: State, a: Action, i: nat)
    requires Enabled(s, a) && Collecting(s) && i < |s.workers|
    ensures OnlyClears(s, Apply(s, a), i) || Apply(s, a).seqNo > s.seqNo
  {
  }

  /** While the driver collects a round it dispatches nothing: what is owed stays, and
      `_busy` can only fall. */
  lemma {:induction false} CollectingOnlyClears(s: State, actions: seq<Action>, i: nat)
    requires ValidRun(s, actions) && Collecting(s) && i < |s.workers|
    ensures OnlyClears(s, After(s, actions), i) || After(s, actions).seqNo > s.seqNo
    decreases |actions|
  {
    if actions != [] {
      var s' := Apply(s, actions[0]);
      CollectingStep(s, actions[0], i);
      if s'.seqNo > s.seqNo {
        RoundsOnlyGrow(s', actions[1..]);
      } else {
        CollectingOnlyClears(s', actions[1..], i);
      }
    }
  }

  ghost predicate Reachable(s: State) {
    exists s0, actions :: Init(s0) && ValidRun(s0, actions) && After(s0, actions) == s
  }

  lemma {:induction false} AppendAction(s: State, actions: seq<Action>, a: Action)
    requires ValidRun(s, actions) && Enabled(After(s, actions), a)
    ensures ValidRun(s, actions + [a]) && After(s, actions + [a]) == Apply(After(s, actions), a)
    decreases |actions|
  {
    if actions == [] {
      assert (actions + [a])[1..] == [];
    } else {
      AppendAction(Apply(s, actions[0]), actions[1..], a);
      assert (actions + [a])[1..] == actions[1..] + [a];
    }
  }

  lemma Reach(s: State, a: Action) returns (s': State)
    requires Reachable(s) && Enabled(s, a)
    ensures s' == Apply(s, a) && Reachable(s')
  {
    s' := Apply(s, a);
    var s0, actions :| Init(s0) && ValidRun(s0, actions) && After(s0, actions) == s;
    AppendAction(s0, actions, a);
  }

  /** The driver reads the result of the `j`-th dispatched worker in round `k`, and finds it busy. */
  predicate SeesBusy(s: State, k: nat, j: nat) {
    && s.seqNo == k && s.driver == ReadResult(j) && j < |s.dispatched| && s.dispatched[j] < |s.workers|
    && s.workers[s.dispatched[j]].busy
  }

  lemma OwedCanBeSeenBusy(s: State, j: nat) returns (actions: seq<Action>)
    requires Inv(s) && s.driver == AwaitDone(j) && j < |s.dispatched| && s.dispatched[j] < |s.workers|
    requires s.workers[s.dispatched[j]].owed && s.workers[s.dispatched[j]].busy
    ensures ValidRun(s, actions) && SeesBusy(After(s, actions), s.seqNo, j)
  {
    var i, s1 := s.dispatched[j], s;
    actions := [];
    if !s.workers[i].done {
      OwedSignalComesEarly(s, i, Accepted);
      AppendAction(s, actions, WorkerStep(i, Accepted));
      actions, s1 := actions + [WorkerStep(i, Accepted)], Apply(s, WorkerStep(i, Accepted));
    }
    AppendAction(s, actions, DriverStep(0));
    actions := actions + [DriverStep(0)];
  }

  lemma BusyIsOwed(s: State, k: nat, j: nat)
    requires Inv(s) && SeesBusy(s, k, j)
    ensures s.workers[s.dispatched[j]].owed
  {
    var i := s.dispatched[j];
    assert WorkerInv(s.workers[i], StageOf(s.driver, i), i, s.log);
  }

  lemma SeenBusyWasOwed(s: State, actions: seq<Action>, j: nat)
    requires Inv(s) && s.driver == AwaitDone(j) && j < |s.dispatched| && s.dispatched[j] < |s.workers|
    requires ValidRun(s, actions) && SeesBusy(After(s, actions), s.seqNo, j)
    ensures s.workers[s.dispatched[j]].owed && s.workers[s.dispatched[j]].busy
  {
    CollectingOnlyClears(s, actions, s.dispatched[j]);
    RunsKeepInv(s, actions);
    BusyIsOwed(After(s, actions), s.seqNo, j);
  }

  ghost predicate LeadsToBusy(s: State, actions: seq<Action>, j: nat) {
    ValidRun(s, actions) && SeesBusy(After(s, actions), s.seqNo, j)
  }

  ghost predicate CanSeeBusy(s: State, j: nat) {
    exists actions :: LeadsToBusy(s, actions, j)
  }

  lemma SeesBusyIff(s: State, j: nat)
    requires Inv(s) && s.driver == AwaitDone(j) && j < |s.dispatched| && s.dispatched[j] < |s.workers|
    ensures CanSeeBusy(s, j) <==> s.workers[s.dispatched[j]].owed && s.workers[s.dispatched[j]].busy
  {
    if CanSeeBusy(s, j) {
      var actions :| LeadsToBusy(s, actions, j);
      SeenBusyWasOwed(s, actions, j);
    } else if s.workers[s.dispatched[j]].owed && s.workers[s.dispatched[j]].busy {
      var actions := OwedCanBeSeenBusy(s, j);
      assert LeadsToBusy(s, actions, j);
    }
  }

  /** When the driver begins to wait for a worker, a `collect` in this round that finds
      the worker still busy lies ahead in some interleaving if and only if the worker
      is busy although it has set `_done` or is just about to. This is when the
      dispatch had cleared a signal still owed for the round before. */
  lemma CollectSeesBusyIff(s: State, j: nat)
    requires Reachable(s) && s.driver == AwaitDone(j) && j < |s.dispatched|
    ensures s.dispatched[j] < |s.workers|
    ensures var w := s.workers[s.dispatched[j]];
            && (CanSeeBusy(s, j) <==> w.busy && (w.done || w.pc == SetDone))
            && (CanSeeBusy(s, j) <==> w.busy && w.owed)
  {
    ReachableIsInv(s);
    var i := s.dispatched[j];
    assert WorkerInv(s.workers[i], StageOf(s.driver, i), i, s.log);
    SeesBusyIff(s, j);
  }

  lemma ReachableIsInv(s: State)
    requires Reachable(s)
    ensures Inv(s)
  {
    var s0, actions :| Init(s0) && ValidRun(s0, actions) && After(s0, actions) == s;
    InitEstablishesInv(s0);
    RunsKeepInv(s0, actions);
  }

  function One(w: Worker, driver: DriverPc, k: nat, dispatched: seq<nat>, rounds: seq<ProbeRound>,
               log: set<Fact>): State
  {
    State([w], driver, k, 0, dispatched, map[], rounds, log)
  }

  /** One write of `dispatch` to the only worker. */
  lemma WriteOne(w: Worker, stage: Stage, k: nat, rounds: seq<ProbeRound>, log: set<Fact>) returns (w': Worker)
    requires Reachable(One(w, Dispatching(0, stage), k, [], rounds, log)) && stage != Quiet
    ensures w' == DispatchNext(w, stage, k)
    ensures stage != RaiseGo ==> Reachable(One(w', Dispatching(0, NextStage(stage)), k, [], rounds, log))
    ensures stage == RaiseGo ==> Reachable(One(w', TestBusy(1), k, [0], rounds, log))
  {
    var s := Reach(One(w, Dispatching(0, stage), k, [], rounds, log), DriverStep(0));
    w' := DispatchNext(w, stage, k);
    assert s.workers == [w'];
  }

  /** One dispatch of the only worker, from an idle driver to the wait. */
  lemma DispatchOne(w: Worker, k: nat, rounds: seq<ProbeRound>, log: set<Fact>) returns (w': Worker)
    requires Reachable(One(w, TestBusy(0), k, [], rounds, log)) && !w.busy
    ensures w' == w.(seqNo := k, result := Empty, done := false, owed := w.pc == SetDone, busy := true, go := true)
    ensures Reachable(One(w', AwaitDone(0), k, [0], rounds, log))
  {
    var s := Reach(One(w, TestBusy(0), k, [], rounds, log), DriverStep(0));
    w' := WriteOne(w, WriteSeq, k, rounds, log);
    w' := WriteOne(w', DropResult, k, rounds, log);
    w' := WriteOne(w', DropDone, k, rounds, log);
    w' := WriteOne(w', RaiseBusy, k, rounds, log);
    w' := WriteOne(w', RaiseGo, k, rounds, log);
    s := Reach(One(w', TestBusy(1), k, [0], rounds, log), DriverStep(0));
  }

  /** One step of the only worker, whose probes are all accepted. */
  lemma TurnOne(w: Worker, driver: DriverPc, k: nat, dispatched: seq<nat>, rounds: seq<ProbeRound>, log: set<Fact>)
    returns (w': Worker, log': set<Fact>)
    requires Reachable(One(w, driver, k, dispatched, rounds, log))
    ensures w' == WorkerNext(w, Accepted) && Reachable(One(w', driver, k, dispatched, rounds, log'))
  {
    var s := Reach(One(w, driver, k, dispatched, rounds, log), WorkerStep(0, Accepted));
    w', log' := WorkerNext(w, Accepted), s.log;
    assert s.workers == [w'];
  }

  function Turns(w: Worker, n: nat): Worker
    decreases n
  {
    if n == 0 then w else Turns(WorkerNext(w, Accepted), n - 1)
  }

  lemma {:induction false} TurnsOne(w: Worker, n: nat, driver: DriverPc, k: nat, dispatched: seq<nat>,
                                    rounds: seq<ProbeRound>,
                                    log: set<Fact>) returns (log': set<Fact>)
    requires Reachable(One(w, driver, k, dispatched, rounds, log))
    ensures Reachable(One(Turns(w, n), driver, k, dispatched, rounds, log'))
    decreases n
  {
    log' := log;
    if n > 0 {
      var w';
      w', log' := TurnOne(w, driver, k, dispatched, rounds, log);
      log' := TurnsOne(w', n - 1, driver, k, dispatched, rounds, log');
    }
  }

  /** Eight steps take a released worker to the point between clearing `_busy` and setting `_done`. */
  lemma EightTurns(w: Worker)
    requires w.pc == LoopTest && w.go && !w.shutdown
    ensures Turns(w, 8) == w.(pc := SetDone, go := false, busy := false, result := Holds(w.seqNo, Accepted))
  {
    var w1 := w.(pc := ReadSeq, go := false);
    assert Turns(w, 8) == Turns(w1, 4) by {
      assert WorkerNext(w, Accepted) == w.(pc := WaitGo) && WorkerNext(w.(pc := WaitGo), Accepted) == w.(pc := ClearGo);
      assert Turns(w, 8) == Turns(w.(pc := ClearGo), 6);
      assert Turns(w.(pc := ClearGo), 6) == Turns(w1, 4);
    }
    var w2 := w1.(pc := PutResult(w.seqNo, Accepted));
    assert Turns(w1, 4) == Turns(w2, 2);
    assert Turns(w2, 2) == Turns(w2.(result := Holds(w.seqNo, Accepted), busy := false, pc := SetDone), 0);
  }

  lemma TimeOutOne(w: Worker, log: set<Fact>) returns (rounds: seq<ProbeRound>, log': set<Fact>)
    requires Reachable(One(w, AwaitDone(0), 0, [0], [], log)) && !w.done
    ensures Reachable(One(w, TestBusy(0), 1, [], rounds, log'))
  {
    var s := Reach(One(w, AwaitDone(0), 0, [0], [], log), DriverTimeout);
    s := Reach(s, DriverStep(0));
    rounds, log' := s.rounds, s.log;
    assert s == One(w, TestBusy(0), 1, [], rounds, log');
  }

  /** A round whose worker is left between clearing `_busy` and setting `_done`. */
  lemma FirstRound() returns (w: Worker, rounds: seq<ProbeRound>, log: set<Fact>)
    ensures !w.busy && w.pc == SetDone && Reachable(One(w, TestBusy(0), 1, [], rounds, log))
  {
    var s := One(START, TestBusy(0), 0, [], [], {});
    assert ValidRun(s, []) && After(s, []) == s;
    w := DispatchOne(START, 0, [], {});
    EightTurns(w);
    log := TurnsOne(w, 8, AwaitDone(0), 0, [0], [], {});
    w := Turns(w, 8);
    rounds, log := TimeOutOne(w, log);
  }

  /** A run of two rounds in which `collect` returns while `_busy` is set. */
  lemma CollectCanSeeBusy() returns (s: State)
    ensures Reachable(s) && s.driver == ReadResult(0) && s.dispatched == [0] && |s.workers| == 1
    ensures s.workers[0].busy && s.workers[0].done && s.workers[0].result == Empty
  {
    var w, rounds, log := FirstRound();
    w := DispatchOne(w, 1, rounds, log);
    w, log := TurnOne(w, AwaitDone(0), 1, [0], rounds, log);
    s := Reach(One(w, AwaitDone(0), 1, [0], rounds, log), DriverStep(0));
  }
}
