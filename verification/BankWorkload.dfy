/** The bank transfer workload (`step_bank_transfer`, `bank_transfer`,
    `check_bank_invariants` in `testing/correctness_lite.py`) against an atomic
    server, under every mix of acks, refusals and unknown fates. */
module BankWorkload {
  import opened Attempts
  import opened BankChecker

  // ----- The server -----

  /** `keyed`: the ledger has its primary key. The theorems hold with and without. */
  datatype Db = Db(keyed: bool, balances: map<int, int>, ledger: seq<LedgerRow>)

  /** The transaction passes the ledger's key, if it has one, and `CHECK (balance >= 0)`. */
  predicate CanCommit(db: Db, row: LedgerRow) {
    var debited := Add(db.balances, row.fromId, -row.amount);
    var posted := Post(db.balances, row);
    && (db.keyed ==> !InLedger(db.ledger, row.transferId))
    && (row.fromId in debited ==> debited[row.fromId] >= 0)
    && (row.toId in posted ==> posted[row.toId] >= 0)
  }

  /** A transfer between two accounts that are not in debt commits exactly if it is new
      to a ledger with a key, and covered. */
  lemma CanCommitIff(db: Db, row: LedgerRow)
    requires KnownRow(db.balances, row) && row.fromId != row.toId && row.amount >= 0
    requires db.balances[row.toId] >= 0
    ensures CanCommit(db, row) <==>
            db.balances[row.fromId] >= row.amount
            && (db.keyed ==> forall i | 0 <= i < |db.ledger| :: db.ledger[i].transferId != row.transferId)
  {
  }

  function Commit(db: Db, row: LedgerRow): Db {
    db.(balances := Post(db.balances, row), ledger := db.ledger + [row])
  }

  const ACCOUNTS := set account | 1 <= account <= BANK_ACCOUNTS

  // ----- The client's port loop -----

  /** `bank_transfer`, with what each gateway port would answer. */
  method BankTransfer(transferId: int, fromId: int, toId: int, amount: int, ports: seq<int>, answers: seq<Answer>)
    returns (record: TransferRecord)
    requires |ports| == |answers| > 0
    ensures var (outcome, asked) := LoopOutcome(Classes(answers), 0);
            && 1 <= asked <= |ports|
            && record == TransferRecord(transferId, fromId, toId, amount, outcome, ports[asked - 1])
  {
    OnlyTheLastAttemptCounts(Classes(answers), 0);
    var lastPort := ports[|ports| - 1];
    for p := 0 to |ports|
      invariant LoopOutcome(Classes(answers), p) == LoopOutcome(Classes(answers), 0)
      invariant p == |ports| ==> lastPort == ports[|ports| - 1]
    {
      lastPort := ports[p];
      var cls := ClassOf(answers[p]);
      if cls == Acked {
        return TransferRecord(transferId, fromId, toId, amount, Committed, ports[p]);
      }
      if cls == Indeterminate {
        return TransferRecord(transferId, fromId, toId, amount, Unknown, ports[p]);
      }
      if cls == Rejected {
        return TransferRecord(transferId, fromId, toId, amount, Refused, ports[p]);
      }
    }
    record := TransferRecord(transferId, fromId, toId, amount, Refused, lastPort);
  }

  // ----- The run -----

  datatype Transfer = Transfer(source: int, target: int, amount: int)

  /** What `bank_transfer_plan` draws. */
  predicate ValidPlan(plan: seq<Transfer>) {
    forall t | t in plan :: t.source in ACCOUNTS && t.target in ACCOUNTS && t.source != t.target && 1 <= t.amount <= 100
  }

  function RowOf(plan: seq<Transfer>, id: int): LedgerRow
    requires 1 <= id <= |plan|
  {
    LedgerRow(id, plan[id - 1].source, plan[id - 1].target, plan[id - 1].amount)
  }

  function RecordOf(plan: seq<Transfer>, id: int, outcome: Outcome, port: int): TransferRecord
    requires 1 <= id <= |plan|
  {
    TransferRecord(id, plan[id - 1].source, plan[id - 1].target, plan[id - 1].amount, outcome, port)
  }

  /** What the final check has read; `at` is how many rows the ledger had when the balances were read. */
  datatype Reads =
    | NoReads
    | BalancesRead(balances: map<int, int>, at: nat)
    | BothRead(balances: map<int, int>, at: nat, rows: seq<LedgerRow>)

  /** `inFlight` holds the transactions of unknown fate, which may still commit. */
  datatype State = State(db: Db, inFlight: set<LedgerRow>, transfers: seq<TransferRecord>, port: nat, seen: Reads)

  datatype Event =
    | Submit(cls: Class)                  // the current transfer at the current port, and how its answer classes
    | Settle(row: LedgerRow, commits: bool)
    | ReadBalances
    | ReadLedger(rows: seq<LedgerRow>)    // the rows, in any order

  /** The environment assumption: exit status 0 means the transaction committed, a
      recognised refusal means it did not and will not, anything else may be either. */
  predicate Enabled(plan: seq<Transfer>, ports: seq<int>, s: State, e: Event) {
    match e
    case Submit(cls) =>
      && s.seen == NoReads && |s.transfers| < |plan| && s.port < |ports|
      && (cls == Acked ==> CanCommit(s.db, RowOf(plan, |s.transfers| + 1)))
    case Settle(row, commits) => row in s.inFlight && !s.seen.BothRead? && (commits ==> CanCommit(s.db, row))
    case ReadBalances => s.seen == NoReads && |s.transfers| == |plan|
    case ReadLedger(rows) => s.seen.BalancesRead? && multiset(rows) == multiset(s.db.ledger)
  }

  function Step(plan: seq<Transfer>, ports: seq<int>, s: State, e: Event): State
    requires Enabled(plan, ports, s, e)
  {
    match e
    case Submit(cls) => Answered(plan, ports, s, cls)
    case Settle(row, commits) =>
      s.(inFlight := s.inFlight - {row}, db := if commits then Commit(s.db, row) else s.db)
    case ReadBalances => s.(seen := BalancesRead(s.db.balances, |s.db.ledger|))
    case ReadLedger(rows) => s.(seen := BothRead(s.seen.balances, s.seen.at, rows))
  }

  function Answered(plan: seq<Transfer>, ports: seq<int>, s: State, cls: Class): State
    requires |s.transfers| < |plan| && s.port < |ports|
  {
    var row := RowOf(plan, |s.transfers| + 1);
    var s' := match cls
      case Acked => s.(db := Commit(s.db, row))
      case Indeterminate => s.(inFlight := s.inFlight + {row})
      case Rejected => s
      case RoutingRejected => s;
    match Decide(cls)
    case Return(o) => Finish(plan, ports, s', o)
    case TryNextPort => if s.port + 1 < |ports| then s'.(port := s.port + 1) else Finish(plan, ports, s', Refused)
  }

  function Finish(plan: seq<Transfer>, ports: seq<int>, s: State, o: Outcome): State
    requires |s.transfers| < |plan| && s.port < |ports|
  {
    s.(transfers := s.transfers + [RecordOf(plan, |s.transfers| + 1, o, ports[s.port])], port := 0)
  }

  function Start(keyed: bool): State {
    State(Db(keyed, Opening(ACCOUNTS), []), {}, [], 0, NoReads)
  }

  // ----- The invariant -----

  predicate DistinctIds(rows: seq<LedgerRow>) {
    forall i, j | 0 <= i < j < |rows| :: rows[i].transferId != rows[j].transferId
  }

  predicate NonNegative(balances: map<int, int>) {
    forall account | account in balances :: balances[account] >= 0
  }

  /** The records follow the plan. In flight are only transfers of unknown fate that
      have not been applied: the client never tries such a transfer again. */
  predicate RecordsOk(plan: seq<Transfer>, s: State) {
    && |s.transfers| <= |plan|
    && (forall i | 0 <= i < |s.transfers| ::
          s.transfers[i] == RecordOf(plan, i + 1, s.transfers[i].outcome, s.transfers[i].port))
    && (forall row | row in s.inFlight ::
          && Admissible(plan, s, row) && s.transfers[row.transferId - 1].outcome == Unknown
          && !InLedger(s.db.ledger, row.transferId))
  }

  /** The row of a transfer that was tried and not refused. */
  predicate Admissible(plan: seq<Transfer>, s: State, row: LedgerRow)
    requires |s.transfers| <= |plan|
  {
    1 <= row.transferId <= |s.transfers| && row == RowOf(plan, row.transferId)
      && s.transfers[row.transferId - 1].outcome != Refused
  }

  predicate LedgerOk(plan: seq<Transfer>, s: State)
    requires |s.transfers| <= |plan|
  {
    DistinctIds(s.db.ledger) && forall i | 0 <= i < |s.db.ledger| :: Admissible(plan, s, s.db.ledger[i])
  }

  predicate AcksOk(s: State, n: nat)
    requires n <= |s.transfers|
  {
    forall i | 0 <= i < n && s.transfers[i].outcome == Committed :: InLedger(s.db.ledger, i + 1)
  }

  predicate BalancesOk(s: State) {
    && s.db.balances == Replay(Opening(ACCOUNTS), s.db.ledger) && NonNegative(s.db.balances)
    && (!s.seen.NoReads? ==>
          && s.seen.at <= |s.db.ledger| && NonNegative(s.seen.balances)
          && s.seen.balances == Replay(Opening(ACCOUNTS), s.db.ledger[..s.seen.at]))
    && (s.seen.BothRead? ==> multiset(s.seen.rows) == multiset(s.db.ledger))
  }

  /** Once the balances have been read, only transfers of unknown fate still commit. */
  predicate LateOk(plan: seq<Transfer>, s: State)
    requires |s.transfers| <= |plan| && LedgerOk(plan, s)
  {
    !s.seen.NoReads? ==>
      && |s.transfers| == |plan|
      && forall i | s.seen.at <= i < |s.db.ledger| :: s.transfers[s.db.ledger[i].transferId - 1].outcome == Unknown
  }

  predicate Inv(plan: seq<Transfer>, s: State) {
    RecordsOk(plan, s) && LedgerOk(plan, s) && AcksOk(s, |s.transfers|) && BalancesOk(s) && LateOk(plan, s)
  }

  lemma InLonger(ledger: seq<LedgerRow>, row: LedgerRow, id: int)
    ensures InLedger(ledger + [row], id) <==> InLedger(ledger, id) || id == row.transferId
  {
    if InLedger(ledger, id) {
      var k :| 0 <= k < |ledger| && ledger[k].transferId == id;
      assert (ledger + [row])[k].transferId == id;
    } else if id == row.transferId {
      assert (ledger + [row])[|ledger|].transferId == id;
    }
  }

  lemma CommitKeepsBalances(s: State, row: LedgerRow)
    requires BalancesOk(s) && !s.seen.BothRead? && CanCommit(s.db, row)
    ensures BalancesOk(s.(db := Commit(s.db, row)))
  {
    ReplayOneMore(Opening(ACCOUNTS), s.db.ledger, row);
    PostStaysNonNegative(s.db.balances, row);
    if !s.seen.NoReads? { PrefixStays(s.db.ledger, row, s.seen.at); }
  }

  lemma ReplayOneMore(balances: map<int, int>, rows: seq<LedgerRow>, row: LedgerRow)
    ensures Replay(balances, rows + [row]) == Post(Replay(balances, rows), row)
  {
    assert (rows + [row])[..|rows|] == rows;
  }

  lemma PostStaysNonNegative(balances: map<int, int>, row: LedgerRow)
    requires NonNegative(balances)
    requires var debited := Add(balances, row.fromId, -row.amount); row.fromId in debited ==> debited[row.fromId] >= 0
    requires var posted := Post(balances, row); row.toId in posted ==> posted[row.toId] >= 0
    ensures NonNegative(Post(balances, row))
  {
  }

  lemma PrefixStays(rows: seq<LedgerRow>, row: LedgerRow, n: nat)
    requires n <= |rows|
    ensures (rows + [row])[..n] == rows[..n]
  {
  }

  lemma CommitKeepsLedger(plan: seq<Transfer>, s: State, row: LedgerRow)
    requires |s.transfers| <= |plan| && LedgerOk(plan, s) && Admissible(plan, s, row)
    requires !InLedger(s.db.ledger, row.transferId)
    ensures LedgerOk(plan, s.(db := Commit(s.db, row)))
  {
  }

  lemma CommitKeepsRecords(plan: seq<Transfer>, s: State, row: LedgerRow)
    requires RecordsOk(plan, s) && Admissible(plan, s, row) && row !in s.inFlight
    ensures RecordsOk(plan, s.(db := Commit(s.db, row)))
  {
    forall other | other in s.inFlight ensures !InLedger(s.db.ledger + [row], other.transferId) {
      InLonger(s.db.ledger, row, other.transferId);
    }
  }

  lemma CommitKeepsAcks(s: State, row: LedgerRow, n: nat)
    requires n <= |s.transfers| <= n + 1 && AcksOk(s, n) && (n < |s.transfers| ==> row.transferId == n + 1)
    ensures AcksOk(s.(db := Commit(s.db, row)), |s.transfers|)
  {
    forall i | 0 <= i < |s.transfers| && s.transfers[i].outcome == Committed
      ensures InLedger(s.db.ledger + [row], i + 1)
    {
      InLonger(s.db.ledger, row, i + 1);
    }
  }

  lemma CommitKeepsLate(plan: seq<Transfer>, s: State, row: LedgerRow)
    requires |s.transfers| <= |plan| && LedgerOk(plan, s) && LateOk(plan, s) && Admissible(plan, s, row)
    requires !s.seen.NoReads? ==> s.transfers[row.transferId - 1].outcome == Unknown
    requires !InLedger(s.db.ledger, row.transferId)
    ensures LedgerOk(plan, s.(db := Commit(s.db, row))) && LateOk(plan, s.(db := Commit(s.db, row)))
  {
    CommitKeepsLedger(plan, s, row);
  }

  /** A commit keeps the invariant and settles the ack of its own transfer, if that is the last. */
  lemma CommitKeepsInv(plan: seq<Transfer>, s: State, row: LedgerRow, n: nat)
    requires RecordsOk(plan, s) && LedgerOk(plan, s) && BalancesOk(s) && LateOk(plan, s) && !s.seen.BothRead?
    requires n <= |s.transfers| <= n + 1 && AcksOk(s, n) && (n < |s.transfers| ==> row.transferId == n + 1)
    requires CanCommit(s.db, row) && Admissible(plan, s, row) && row !in s.inFlight
             && !InLedger(s.db.ledger, row.transferId)
    requires !s.seen.NoReads? ==> s.transfers[row.transferId - 1].outcome == Unknown
    ensures Inv(plan, s.(db := Commit(s.db, row)))
  {
    CommitKeepsBalances(s, row);
    CommitKeepsRecords(plan, s, row);
    CommitKeepsAcks(s, row, n);
    CommitKeepsLate(plan, s, row);
  }

  lemma SettleKeepsInv(plan: seq<Transfer>, s: State, row: LedgerRow)
    requires Inv(plan, s) && row in s.inFlight && !s.seen.BothRead? && CanCommit(s.db, row)
    ensures Inv(plan, s.(inFlight := s.inFlight - {row}, db := Commit(s.db, row)))
  {
    CommitKeepsInv(plan, s.(inFlight := s.inFlight - {row}), row, |s.transfers|);
  }

  lemma FinishKeeps(plan: seq<Transfer>, ports: seq<int>, s: State, o: Outcome)
    requires Inv(plan, s) && s.seen.NoReads? && |s.transfers| < |plan| && s.port < |ports|
    ensures var t := Finish(plan, ports, s, o);
            RecordsOk(plan, t) && LedgerOk(plan, t) && BalancesOk(t) && AcksOk(t, |s.transfers|) && LateOk(plan, t)
  {
  }

  /** The transfer under way has not been applied. */
  lemma NextIsNew(plan: seq<Transfer>, s: State)
    requires Inv(plan, s)
    ensures !InLedger(s.db.ledger, |s.transfers| + 1)
  {
    forall i | 0 <= i < |s.db.ledger| ensures s.db.ledger[i].transferId != |s.transfers| + 1 {
      assert Admissible(plan, s, s.db.ledger[i]);
    }
  }

  lemma AckKeepsInv(plan: seq<Transfer>, ports: seq<int>, s: State)
    requires Inv(plan, s) && s.seen.NoReads? && |s.transfers| < |plan| && s.port < |ports|
    requires CanCommit(s.db, RowOf(plan, |s.transfers| + 1))
    ensures Inv(plan, Answered(plan, ports, s, Acked))
  {
    FinishKeeps(plan, ports, s, Committed);
    NextIsNew(plan, s);
    var t, row := Finish(plan, ports, s, Committed), RowOf(plan, |s.transfers| + 1);
    CommitKeepsInv(plan, t, row, |s.transfers|);
    assert Answered(plan, ports, s, Acked) == t.(db := Commit(t.db, row));
  }

  lemma UnknownKeepsInv(plan: seq<Transfer>, ports: seq<int>, s: State)
    requires Inv(plan, s) && s.seen.NoReads? && |s.transfers| < |plan| && s.port < |ports|
    ensures Inv(plan, Answered(plan, ports, s, Indeterminate))
  {
    FinishKeeps(plan, ports, s, Unknown);
    NextIsNew(plan, s);
    var t := Finish(plan, ports, s, Unknown);
    assert Answered(plan, ports, s, Indeterminate) == t.(inFlight := s.inFlight + {RowOf(plan, |s.transfers| + 1)});
  }

  lemma AnswerKeepsInv(plan: seq<Transfer>, ports: seq<int>, s: State, cls: Class)
    requires Inv(plan, s) && s.seen.NoReads? && |s.transfers| < |plan| && s.port < |ports|
    requires cls == Acked ==> CanCommit(s.db, RowOf(plan, |s.transfers| + 1))
    ensures Inv(plan, Answered(plan, ports, s, cls))
  {
    if cls == Acked {
      AckKeepsInv(plan, ports, s);
    } else if cls == Indeterminate {
      UnknownKeepsInv(plan, ports, s);
    } else {
      FinishKeeps(plan, ports, s, Refused);
    }
  }

  lemma DropKeepsInv(plan: seq<Transfer>, s: State, row: LedgerRow)
    requires Inv(plan, s)
    ensures Inv(plan, s.(inFlight := s.inFlight - {row}))
  {
  }

  lemma ReadBalancesKeepsInv(plan: seq<Transfer>, s: State)
    requires Inv(plan, s) && s.seen == NoReads && |s.transfers| == |plan|
    ensures Inv(plan, s.(seen := BalancesRead(s.db.balances, |s.db.ledger|)))
  {
    assert s.db.ledger[..|s.db.ledger|] == s.db.ledger;
  }

  lemma ReadLedgerKeepsInv(plan: seq<Transfer>, s: State, rows: seq<LedgerRow>)
    requires Inv(plan, s) && s.seen.BalancesRead? && multiset(rows) == multiset(s.db.ledger)
    ensures Inv(plan, s.(seen := BothRead(s.seen.balances, s.seen.at, rows)))
  {
  }

  lemma StepKeepsInv(plan: seq<Transfer>, ports: seq<int>, s: State, e: Event)
    requires Inv(plan, s) && Enabled(plan, ports, s, e)
    ensures Inv(plan, Step(plan, ports, s, e))
  {
    match e {
      case Submit(cls) => AnswerKeepsInv(plan, ports, s, cls);
      case Settle(row, commits) => if commits { SettleKeepsInv(plan, s, row); } else { DropKeepsInv(plan, s, row); }
      case ReadBalances => ReadBalancesKeepsInv(plan, s);
      case ReadLedger(rows) => ReadLedgerKeepsInv(plan, s, rows);
    }
  }

  // ----- Every run -----

  predicate IsRun(plan: seq<Transfer>, ports: seq<int>, s: State, events: seq<Event>)
    decreases |events|
  {
    events == [] || (Enabled(plan, ports, s, events[0])
                     && IsRun(plan, ports, Step(plan, ports, s, events[0]), events[1..]))
  }

  function After(plan: seq<Transfer>, ports: seq<int>, s: State, events: seq<Event>): State
    requires IsRun(plan, ports, s, events)
    decreases |events|
  {
    if events == [] then s else After(plan, ports, Step(plan, ports, s, events[0]), events[1..])
  }

  lemma {:induction false} RunKeepsInv(plan: seq<Transfer>, ports: seq<int>, s: State, events: seq<Event>)
    requires IsRun(plan, ports, s, events) && Inv(plan, s)
    ensures Inv(plan, After(plan, ports, s, events))
    decreases |events|
  {
    if events != [] {
      StepKeepsInv(plan, ports, s, events[0]);
      RunKeepsInv(plan, ports, Step(plan, ports, s, events[0]), events[1..]);
    }
  }

  lemma Prepend(plan: seq<Transfer>, ports: seq<int>, s: State, e: Event, rest: seq<Event>)
    requires Enabled(plan, ports, s, e) && IsRun(plan, ports, Step(plan, ports, s, e), rest)
    ensures IsRun(plan, ports, s, [e] + rest)
    ensures After(plan, ports, s, [e] + rest) == After(plan, ports, Step(plan, ports, s, e), rest)
  {
    assert ([e] + rest)[1..] == rest;
  }

  /** One submission for each port from `p` up to `n`. */
  function Submits(classes: seq<Class>, p: nat, n: nat): seq<Event>
    requires p <= n <= |classes|
    decreases n - p
  {
    if p == n then [] else [Submit(classes[p])] + Submits(classes, p + 1, n)
  }

  /** The events are a run that leaves `transfers` recorded and the next transfer at the first port. */
  ghost predicate EndsWith(plan: seq<Transfer>, ports: seq<int>, s: State, events: seq<Event>,
                           transfers: seq<TransferRecord>)
  {
    IsRun(plan, ports, s, events) && After(plan, ports, s, events).port == 0
      && After(plan, ports, s, events).transfers == transfers
  }

  lemma PrependSubmit(plan: seq<Transfer>, ports: seq<int>, s: State, e: Event, rest: seq<Event>,
                      transfers: seq<TransferRecord>)
    requires Enabled(plan, ports, s, e) && EndsWith(plan, ports, Step(plan, ports, s, e), rest, transfers)
    ensures EndsWith(plan, ports, s, [e] + rest, transfers)
  {
    Prepend(plan, ports, s, e, rest);
  }

  lemma LastSubmit(plan: seq<Transfer>, ports: seq<int>, s: State, cls: Class, o: Outcome)
    requires s.seen == NoReads && |s.transfers| < |plan| && s.port < |ports|
    requires || Decide(cls) == Return(o)
             || (Decide(cls) == TryNextPort && s.port + 1 == |ports| && o == Refused)
    requires o == Committed ==> CanCommit(s.db, RowOf(plan, |s.transfers| + 1))
    ensures EndsWith(plan, ports, s, [Submit(cls)], s.transfers + [RecordOf(plan, |s.transfers| + 1, o, ports[s.port])])
  {
    PrependSubmit(plan, ports, s, Submit(cls), [], s.transfers + [RecordOf(plan, |s.transfers| + 1, o, ports[s.port])]);
    assert [Submit(cls)] + [] == [Submit(cls)];
  }

  /** Submitting one transfer to the ports in turn, as long as the answers ask for it,
      is a run that ends in the record `BankTransfer` returns for those answers. */
  lemma {:induction false} StepsAreThePortLoop(plan: seq<Transfer>, ports: seq<int>, s: State, classes: seq<Class>)
    requires s.seen == NoReads && |s.transfers| < |plan| && s.port < |ports| == |classes|
    requires LoopOutcome(classes, s.port).0 == Committed ==> CanCommit(s.db, RowOf(plan, |s.transfers| + 1))
    ensures var (outcome, asked) := LoopOutcome(classes, s.port);
            && s.port < asked <= |ports|
            && EndsWith(plan, ports, s, Submits(classes, s.port, asked),
                        s.transfers + [RecordOf(plan, |s.transfers| + 1, outcome, ports[asked - 1])])
    decreases |ports| - s.port
  {
    var (outcome, asked) := LoopOutcome(classes, s.port);
    OnlyTheLastAttemptCounts(classes, s.port);
    var cls := classes[s.port];
    if Decide(cls) == TryNextPort && s.port + 1 < |ports| {
      var next := s.(port := s.port + 1);
      StepsAreThePortLoop(plan, ports, next, classes);
      PrependSubmit(plan, ports, s, Submit(cls), Submits(classes, s.port + 1, asked),
                    s.transfers + [RecordOf(plan, |s.transfers| + 1, outcome, ports[asked - 1])]);
    } else {
      LastSubmit(plan, ports, s, cls, outcome);
      assert Submits(classes, s.port, s.port + 1) == [Submit(cls)] + [];
      assert [Submit(cls)] + [] == [Submit(cls)];
    }
  }

  ghost predicate Reaches(plan: seq<Transfer>, ports: seq<int>, events: seq<Event>, s: State) {
    IsRun(plan, ports, Start(s.db.keyed), events) && After(plan, ports, Start(s.db.keyed), events) == s
  }

  lemma ReachedIsInv(plan: seq<Transfer>, ports: seq<int>, events: seq<Event>, s: State)
    requires Reaches(plan, ports, events, s)
    ensures Inv(plan, s)
  {
    RunKeepsInv(plan, ports, Start(s.db.keyed), events);
  }

  /** In every run, with or without a key on the ledger, each transfer is applied at
      most once, an acked one is applied, a refused one is not, and the money is
      where the ledger says. */
  lemma TransfersApplyOnce(plan: seq<Transfer>, ports: seq<int>, events: seq<Event>, s: State)
    requires Reaches(plan, ports, events, s)
    ensures forall id :: !Twice(s.db.ledger, id)
    ensures forall i | 0 <= i < |s.transfers| ::
              && (s.transfers[i].outcome == Committed ==> InLedger(s.db.ledger, i + 1))
              && (s.transfers[i].outcome == Refused ==> !InLedger(s.db.ledger, i + 1))
    ensures s.db.balances == Replay(Opening(ACCOUNTS), s.db.ledger) && NonNegative(s.db.balances)
  {
    ReachedIsInv(plan, ports, events, s);
  }

  // ----- The final check on a run -----

  /** What `row` adds to an account. */
  function Change(row: LedgerRow, account: int): int {
    (if row.toId == account then row.amount else 0) - (if row.fromId == account then row.amount else 0)
  }

  function Net(rows: seq<LedgerRow>, account: int): int {
    if rows == [] then 0 else Net(rows[..|rows| - 1], account) + Change(rows[|rows| - 1], account)
  }

  lemma {:induction false} ReplayAddsNet(balances: map<int, int>, rows: seq<LedgerRow>, account: int)
    requires account in balances
    ensures account in Replay(balances, rows)
    ensures Replay(balances, rows)[account] == balances[account] + Net(rows, account)
  {
    if rows != [] { ReplayAddsNet(balances, rows[..|rows| - 1], account); }
  }

  lemma {:induction false} NetOfParts(xs: seq<LedgerRow>, ys: seq<LedgerRow>, account: int)
    ensures Net(xs + ys, account) == Net(xs, account) + Net(ys, account)
  {
    if ys == [] {
      assert xs + ys == xs;
    } else {
      NetOfParts(xs, ys[..|ys| - 1], account);
      assert (xs + ys)[..|xs + ys| - 1] == xs + ys[..|ys| - 1];
    }
  }

  lemma SameWithoutLast(xs: seq<LedgerRow>, ys: seq<LedgerRow>) returns (k: nat)
    requires xs != [] && multiset(xs) == multiset(ys)
    ensures k < |ys| && ys[k] == xs[|xs| - 1] && multiset(xs[..|xs| - 1]) == multiset(ys[..k] + ys[k + 1..])
  {
    var last := xs[|xs| - 1];
    assert last in multiset(ys);
    k :| 0 <= k < |ys| && ys[k] == last;
    WithoutOne(xs, |xs| - 1);
    WithoutOne(ys, k);
    assert xs[..|xs| - 1] + xs[|xs|..] == xs[..|xs| - 1];
  }

  lemma WithoutOne(rows: seq<LedgerRow>, k: nat)
    requires k < |rows|
    ensures multiset(rows[..k] + rows[k + 1..]) == multiset(rows) - multiset{rows[k]}
  {
    assert rows == rows[..k] + [rows[k]] + rows[k + 1..];
  }

  /** The order of the rows does not matter to the balances. */
  lemma {:induction false} NetOfPermuted(xs: seq<LedgerRow>, ys: seq<LedgerRow>, account: int)
    requires multiset(xs) == multiset(ys)
    ensures Net(xs, account) == Net(ys, account)
    decreases |xs|
  {
    if xs == [] {
      assert |multiset(ys)| == 0;
    } else {
      var init, last := xs[..|xs| - 1], xs[|xs| - 1];
      var k := SameWithoutLast(xs, ys);
      NetOfPermuted(init, ys[..k] + ys[k + 1..], account);
      assert ys == ys[..k] + ([last] + ys[k + 1..]);
      NetOfParts(ys[..k], [last] + ys[k + 1..], account);
      NetOfParts([last], ys[k + 1..], account);
      NetOfParts(ys[..k], ys[k + 1..], account);
    }
  }

  lemma {:induction false} PutNewRow(rows: seq<LedgerRow>, row: LedgerRow)
    requires forall i | 0 <= i < |rows| :: rows[i].transferId != row.transferId
    ensures PutRow(rows, row) == rows + [row]
  {
    if rows != [] { PutNewRow(rows[1..], row); }
  }

  lemma {:induction false} DistinctRowsStay(rows: seq<LedgerRow>)
    requires DistinctIds(rows)
    ensures DistinctRows(rows) == rows
  {
    if rows != [] {
      var init := rows[..|rows| - 1];
      DistinctRowsStay(init);
      PutNewRow(init, rows[|rows| - 1]);
    }
  }

  lemma PermutedRows(xs: seq<LedgerRow>, ys: seq<LedgerRow>, id: int)
    requires multiset(xs) == multiset(ys)
    ensures InLedger(xs, id) ==> InLedger(ys, id)
  {
    if InLedger(xs, id) {
      var k :| 0 <= k < |xs| && xs[k].transferId == id;
      assert xs[k] in multiset(ys);
    }
  }

  lemma DistinctRowsCount(xs: seq<LedgerRow>, row: LedgerRow)
    requires DistinctIds(xs)
    ensures multiset(xs)[row] <= 1
  {
    if row in xs {
      var k :| 0 <= k < |xs| && xs[k] == row;
      assert xs == xs[..k] + [row] + xs[k + 1..];
      assert row !in xs[..k] && row !in xs[k + 1..];
    }
  }

  lemma PermutedDistinct(xs: seq<LedgerRow>, ys: seq<LedgerRow>)
    requires multiset(xs) == multiset(ys) && DistinctIds(xs)
    ensures DistinctIds(ys)
  {
    forall i, j | 0 <= i < j < |ys| ensures ys[i].transferId != ys[j].transferId {
      assert ys[i] in multiset(xs) && ys[j] in multiset(xs);
      if ys[i] == ys[j] {
        assert ys == ys[..i] + [ys[i]] + ys[i + 1..j] + [ys[j]] + ys[j + 1..];
        DistinctRowsCount(xs, ys[i]);
      }
    }
  }

  lemma RecordedInPlace(plan: seq<Transfer>, s: State, id: int, t: TransferRecord)
    requires RecordsOk(plan, s) && Recorded(s.transfers, id, t)
    ensures 1 <= id <= |s.transfers| && s.transfers[id - 1] == t
  {
    var i :| 0 <= i < |s.transfers| && s.transfers[i] == t && t.transferId == id;
    assert s.transfers[i].transferId == i + 1;
  }

  lemma LedgerIds(plan: seq<Transfer>, s: State, id: int)
    requires Inv(plan, s)
    ensures InLedger(s.db.ledger, id) ==>
            1 <= id <= |s.transfers| && s.transfers[id - 1].outcome != Refused && Attempted(s.transfers, id)
  {
    if InLedger(s.db.ledger, id) {
      var k :| 0 <= k < |s.db.ledger| && s.db.ledger[k].transferId == id;
      assert Admissible(plan, s, s.db.ledger[k]);
      assert s.transfers[id - 1].transferId == id;
    }
  }

  /** Nothing for B3 to report. */
  ghost predicate LedgerAgrees(rows: seq<LedgerRow>, transfers: seq<TransferRecord>) {
    && (forall id :: !Twice(rows, id))
    && (forall id | InLedger(rows, id) :: Attempted(transfers, id) && !HasOutcome(transfers, id, Refused))
    && (forall id | HasOutcome(transfers, id, Committed) :: InLedger(rows, id))
  }

  lemma LedgerAgreesOnRuns(plan: seq<Transfer>, s: State)
    requires Inv(plan, s) && s.seen.BothRead?
    ensures LedgerAgrees(s.seen.rows, s.transfers)
  {
    var rows := s.seen.rows;
    PermutedDistinct(s.db.ledger, rows);
    forall id | InLedger(rows, id) ensures Attempted(s.transfers, id) && !HasOutcome(s.transfers, id, Refused) {
      PermutedRows(rows, s.db.ledger, id);
      LedgerIds(plan, s, id);
      forall t | Recorded(s.transfers, id, t) ensures t == s.transfers[id - 1] { RecordedInPlace(plan, s, id, t); }
    }
    forall id | HasOutcome(s.transfers, id, Committed) ensures InLedger(rows, id) {
      var t :| Recorded(s.transfers, id, t) && t.outcome == Committed;
      RecordedInPlace(plan, s, id, t);
      PermutedRows(s.db.ledger, rows, id);
    }
  }

  lemma LedgerAccountsAreKnown(plan: seq<Transfer>, s: State, row: LedgerRow)
    requires ValidPlan(plan) && Inv(plan, s) && row in s.db.ledger
    ensures KnownRow(Opening(ACCOUNTS), row)
  {
    var k :| 0 <= k < |s.db.ledger| && s.db.ledger[k] == row;
    assert Admissible(plan, s, row);
    assert plan[row.transferId - 1] in plan;
  }

  lemma EarlyTotal(plan: seq<Transfer>, s: State, n: nat)
    requires ValidPlan(plan) && Inv(plan, s) && n <= |s.db.ledger|
    ensures Dicts.Sum(Replay(Opening(ACCOUNTS), s.db.ledger[..n])) == BANK_TOTAL
    ensures Replay(Opening(ACCOUNTS), s.db.ledger[..n]).Keys == ACCOUNTS
  {
    var early := s.db.ledger[..n];
    forall row | row in early ensures KnownRow(Opening(ACCOUNTS), row) {
      assert row in s.db.ledger;
      LedgerAccountsAreKnown(plan, s, row);
    }
    ReplayConserves(Opening(ACCOUNTS), early);
    ReplayKeys(Opening(ACCOUNTS), early);
    TenAccounts();
    OpeningTotal(ACCOUNTS);
  }

  lemma TenAccounts()
    ensures |ACCOUNTS| == BANK_ACCOUNTS
  {
    assert ACCOUNTS == {1, 2, 3, 4, 5, 6, 7, 8, 9, 10};
  }

  /** Balances read after the first `at` commits, reconciled with the whole ledger in any order. */
  lemma ReplayGap(ledger: seq<LedgerRow>, at: nat, rows: seq<LedgerRow>, account: int)
    requires at <= |ledger| && multiset(rows) == multiset(ledger) && DistinctIds(ledger) && account in ACCOUNTS
    ensures var early, all := Replay(Opening(ACCOUNTS), ledger[..at]), Replay(Opening(ACCOUNTS), DistinctRows(rows));
            account in early && account in all && all[account] == early[account] + Net(ledger[at..], account)
  {
    PermutedDistinct(ledger, rows);
    DistinctRowsStay(rows);
    ReplayAddsNet(Opening(ACCOUNTS), ledger[..at], account);
    ReplayAddsNet(Opening(ACCOUNTS), rows, account);
    NetOfPermuted(ledger, rows, account);
    NetOfParts(ledger[..at], ledger[at..], account);
    assert ledger == ledger[..at] + ledger[at..];
  }

  /** B4 reports the accounts whose balance the commits between the two reads changed. */
  lemma MismatchIsTheGap(plan: seq<Transfer>, s: State, account: int)
    requires Inv(plan, s) && s.seen.BothRead? && s.seen.balances.Keys == ACCOUNTS
    ensures Mismatched(s.seen.balances, s.seen.rows, account) <==> account in ACCOUNTS && Net(Late(s), account) != 0
  {
    if account in ACCOUNTS { ReplayGap(s.db.ledger, s.seen.at, s.seen.rows, account); }
  }

  /** What committed between the query of the balances and the query of the ledger. */
  function Late(s: State): seq<LedgerRow> {
    if s.seen.BothRead? && s.seen.at <= |s.db.ledger| then s.db.ledger[s.seen.at..] else []
  }

  /** `f` is what the final check finds. */
  ghost predicate Checked(s: State, f: Findings) {
    s.seen.BothRead? && AreTheFindings(s.seen.balances, s.seen.rows, s.transfers, f)
  }

  lemma FindingsOfAgreeing(balances: map<int, int>, rows: seq<LedgerRow>, transfers: seq<TransferRecord>, f: Findings)
    requires Dicts.Sum(balances) == BANK_TOTAL && NonNegative(balances) && LedgerAgrees(rows, transfers)
    ensures AreTheFindings(balances, rows, transfers, f) <==>
            && f == NOTHING.(mismatched := f.mismatched)
            && forall account :: account in f.mismatched <==> transfers != [] && Mismatched(balances, rows, account)
  {
    if AreTheFindings(balances, rows, transfers, f) {
      forall id
        ensures id !in f.duplicated && id !in f.missingAcked && id !in f.appliedButRefused && id !in f.neverAttempted
      {
      }
      assert f.duplicated == f.missingAcked == f.appliedButRefused == f.neverAttempted == {};
    }
    if transfers == [] && forall account :: account in f.mismatched <==> false {
      assert f.mismatched == {};
    }
  }

  lemma NoTransfersNoRows(plan: seq<Transfer>, s: State)
    requires Inv(plan, s) && s.transfers == []
    ensures Late(s) == []
  {
  }

  /** On every run the final check reports nothing but the balances that transactions
      which committed between its two queries changed. */
  lemma FindingsAreTheGap(plan: seq<Transfer>, s: State, f: Findings)
    requires ValidPlan(plan) && Inv(plan, s) && s.seen.BothRead?
    ensures Checked(s, f) <==>
            && f == NOTHING.(mismatched := f.mismatched)
            && forall account :: account in f.mismatched <==> account in ACCOUNTS && Net(Late(s), account) != 0
  {
    LedgerAgreesOnRuns(plan, s);
    EarlyTotal(plan, s, s.seen.at);
    FindingsOfAgreeing(s.seen.balances, s.seen.rows, s.transfers, f);
    if s.transfers == [] { NoTransfersNoRows(plan, s); }
    forall account
      ensures s.transfers != [] && Mismatched(s.seen.balances, s.seen.rows, account) <==>
              account in ACCOUNTS && Net(Late(s), account) != 0
    {
      MismatchIsTheGap(plan, s, account);
    }
  }

  /** The final check finds nothing. */
  ghost predicate Silent(s: State) {
    Checked(s, NOTHING)
  }

  lemma SilentWithoutGap(plan: seq<Transfer>, s: State)
    requires ValidPlan(plan) && Inv(plan, s) && s.seen.BothRead? && Late(s) == []
    ensures Silent(s)
  {
    FindingsAreTheGap(plan, s, NOTHING);
  }

  /** A run in which no transfer is left with an unknown fate ends with a silent check. */
  lemma KnownFatesAreSilent(plan: seq<Transfer>, ports: seq<int>, events: seq<Event>, s: State)
    requires ValidPlan(plan) && Reaches(plan, ports, events, s) && s.seen.BothRead?
    requires forall i | 0 <= i < |s.transfers| :: s.transfers[i].outcome != Unknown
    ensures Silent(s)
  {
    ReachedIsInv(plan, ports, events, s);
    assert forall i | s.seen.at <= i < |s.db.ledger| :: Admissible(plan, s, s.db.ledger[i]);
    SilentWithoutGap(plan, s);
  }

  /** All transfers are done and the check is about to begin. */
  predicate AboutToCheck(plan: seq<Transfer>, s: State) {
    s.seen == NoReads && |s.transfers| == |plan|
  }

  predicate NoneCanCommit(s: State) {
    forall row | row in s.inFlight :: !CanCommit(s.db, row)
  }

  lemma {:induction false} NothingMoves(plan: seq<Transfer>, ports: seq<int>, s: State, more: seq<Event>)
    requires |s.transfers| == |plan| && NoneCanCommit(s) && IsRun(plan, ports, s, more)
    requires s.seen == NoReads || s.seen.at == |s.db.ledger|
    ensures var s' := After(plan, ports, s, more); s'.db == s.db && (s'.seen == NoReads || s'.seen.at == |s.db.ledger|)
    decreases |more|
  {
    if more != [] {
      NothingMoves(plan, ports, Step(plan, ports, s, more[0]), more[1..]);
    }
  }

  /** A transaction that can still commit may do so between the two queries. */
  lemma LateCommit(plan: seq<Transfer>, ports: seq<int>, s: State, row: LedgerRow) returns (more: seq<Event>)
    requires AboutToCheck(plan, s) && row in s.inFlight && CanCommit(s.db, row)
    ensures IsRun(plan, ports, s, more)
    ensures var s' := After(plan, ports, s, more); s'.seen.BothRead? && Late(s') == [row] && s'.transfers == s.transfers
  {
    var e1, e2, e3 := ReadBalances, Settle(row, true), ReadLedger(s.db.ledger + [row]);
    var s1 := Step(plan, ports, s, e1);
    var s2 := Step(plan, ports, s1, e2);
    Prepend(plan, ports, s2, e3, []);
    Prepend(plan, ports, s1, e2, [e3] + []);
    Prepend(plan, ports, s, e1, [e2] + ([e3] + []));
    more := [e1] + ([e2] + ([e3] + []));
  }

  lemma LateRowIsPlanned(plan: seq<Transfer>, s: State, row: LedgerRow)
    requires ValidPlan(plan) && Inv(plan, s) && Late(s) == [row]
    ensures row.fromId in ACCOUNTS && row.toId in ACCOUNTS && row.fromId != row.toId && row.amount > 0
  {
    assert Late(s)[0] == s.db.ledger[s.seen.at];
    assert Admissible(plan, s, s.db.ledger[s.seen.at]);
    assert plan[row.transferId - 1] in plan;
  }

  lemma NetOfOne(row: LedgerRow, account: int)
    ensures Net([row], account) == Change(row, account)
  {
    assert [row][..0] == [];
  }

  lemma LateCommitIsNotSilent(plan: seq<Transfer>, s: State, row: LedgerRow)
    requires ValidPlan(plan) && Inv(plan, s) && s.seen.BothRead? && Late(s) == [row]
    ensures forall f | Checked(s, f) :: f.mismatched == {row.fromId, row.toId}
    ensures !Silent(s)
  {
    LateRowIsPlanned(plan, s, row);
    forall f | Checked(s, f) ensures f.mismatched == {row.fromId, row.toId} {
      FindingsAreTheGap(plan, s, f);
      forall account ensures account in f.mismatched <==> account == row.fromId || account == row.toId {
        NetOfOne(row, account);
      }
    }
  }

  /** Whatever happens from here on, the check will be silent, if and only if no
      transaction of unknown fate can still commit when it begins. */
  lemma CheckIsSilentIff(plan: seq<Transfer>, ports: seq<int>, events: seq<Event>, s: State)
    requires ValidPlan(plan) && Reaches(plan, ports, events, s) && AboutToCheck(plan, s)
    ensures (forall more | IsRun(plan, ports, s, more) && After(plan, ports, s, more).seen.BothRead? ::
               Silent(After(plan, ports, s, more)))
            <==> NoneCanCommit(s)
  {
    ReachedIsInv(plan, ports, events, s);
    if NoneCanCommit(s) {
      forall more | IsRun(plan, ports, s, more) && After(plan, ports, s, more).seen.BothRead?
        ensures Silent(After(plan, ports, s, more))
      {
        RunKeepsInv(plan, ports, s, more);
        NothingMoves(plan, ports, s, more);
        SilentWithoutGap(plan, After(plan, ports, s, more));
      }
    } else {
      var row :| row in s.inFlight && CanCommit(s.db, row);
      var more := LateCommit(plan, ports, s, row);
      RunKeepsInv(plan, ports, s, more);
      LateCommitIsNotSilent(plan, After(plan, ports, s, more), row);
    }
  }

  const LATE_PLAN := [Transfer(1, 2, 5)]
  const LATE_ROW := LedgerRow(1, 1, 2, 5)

  /** One transfer that times out and commits between the two queries: nothing is
      wrong with the server, and B4 reports the two accounts. */
  lemma LateCommitIsReported(keyed: bool) returns (events: seq<Event>, s: State)
    ensures Reaches(LATE_PLAN, [6432], events, s) && s.seen.BothRead? && !Silent(s)
    ensures forall f | Checked(s, f) :: f.mismatched == {1, 2}
  {
    var p, ports, start := LATE_PLAN, [6432], Start(keyed);
    var s1 := Step(p, ports, start, Submit(Indeterminate));
    var rest := LateCommit(p, ports, s1, LATE_ROW);
    Prepend(p, ports, start, Submit(Indeterminate), rest);
    events, s := [Submit(Indeterminate)] + rest, After(p, ports, s1, rest);
    KeyStays(p, ports, s1, rest);
    ReachedIsInv(p, ports, events, s);
    LateCommitIsNotSilent(p, s, LATE_ROW);
  }

  lemma {:induction false} KeyStays(plan: seq<Transfer>, ports: seq<int>, s: State, events: seq<Event>)
    requires IsRun(plan, ports, s, events)
    ensures After(plan, ports, s, events).db.keyed == s.db.keyed
    decreases |events|
  {
    if events != [] { KeyStays(plan, ports, Step(plan, ports, s, events[0]), events[1..]); }
  }
}
