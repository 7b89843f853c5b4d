/** The insert workload (`History`, `try_insert`, `do_inserts`) and the checks I1,
    I2 and I7 of `check_invariants` (`testing/correctness_lite.py`). */
module Inserts {
  import opened Attempts
  import opened Dicts

  datatype OpRecord = OpRecord(seqNo: nat, value: int, startTs: real, endTs: real, outcome: Outcome, port: int)

  /** One insert to come: what each port would answer, and the two clock readings. */
  datatype Insert = Insert(answers: seq<Answer>, startTs: real, endTs: real)

  function ValuesWith(ops: seq<OpRecord>, outcome: Outcome): set<int> {
    set i | 0 <= i < |ops| && ops[i].outcome == outcome :: ops[i].value
  }

  /** The record of an insert of `value` as attempt `seqNo`. */
  function OpOf(ports: seq<int>, seqNo: nat, value: int, insert: Insert): OpRecord
    requires |insert.answers| == |ports| > 0
  {
    var (outcome, asked) := LoopOutcome(Classes(insert.answers), 0);
    OpRecord(seqNo, value, insert.startTs, insert.endTs, outcome,
             if 1 <= asked <= |ports| then ports[asked - 1] else ports[0])
  }

  predicate ForPorts(ports: seq<int>, batch: seq<Insert>) {
    |ports| > 0 && forall i | 0 <= i < |batch| :: |batch[i].answers| == |ports|
  }

  /** The records of a batch that starts after `counter` attempts. */
  function OpsOf(ports: seq<int>, counter: nat, batch: seq<Insert>): seq<OpRecord>
    requires ForPorts(ports, batch)
  {
    seq(|batch|, i requires 0 <= i < |batch| => OpOf(ports, counter + i + 1, counter + i + 1, batch[i]))
  }

  class History {
    const ports: seq<int>
    var counter: nat
    var ops: seq<OpRecord>
    var acked: set<int>
    var errored: set<int>
    var indeterminate: set<int>

    /** Attempt `k` inserted the value `k`, and each value is filed under its outcome. */
    ghost predicate Valid()
      reads this
    {
      && |ops| == counter && (forall i | 0 <= i < counter :: ops[i].seqNo == ops[i].value == i + 1)
      && acked == ValuesWith(ops, Committed) && errored == ValuesWith(ops, Refused)
      && indeterminate == ValuesWith(ops, Unknown)
    }

    constructor (ports: seq<int>)
      ensures Valid() && this.ports == ports && ops == []
    {
      this.ports, counter, ops, acked, errored, indeterminate := ports, 0, [], {}, {}, {};
    }

    method NextSeq() returns (seqNo: nat)
      modifies this`counter
      ensures seqNo == counter == old(counter) + 1
    {
      counter := counter + 1;
      seqNo := counter;
    }

    method RecordOp(op: OpRecord)
      modifies this`ops, this`acked, this`errored, this`indeterminate
      ensures ops == old(ops) + [op]
      ensures acked == old(acked) + (if op.outcome == Committed then {op.value} else {})
      ensures errored == old(errored) + (if op.outcome == Refused then {op.value} else {})
      ensures indeterminate == old(indeterminate) + (if op.outcome == Unknown then {op.value} else {})
    {
      ops := ops + [op];
      if op.outcome == Committed {
        acked := acked + {op.value};
      } else if op.outcome == Refused {
        errored := errored + {op.value};
      } else {
        indeterminate := indeterminate + {op.value};
      }
    }

    /** The port loop of `try_insert`. */
    method AskPorts(answers: seq<Answer>) returns (outcome: Outcome, port: int)
      requires |answers| == |ports| > 0
      ensures var (o, asked) := LoopOutcome(Classes(answers), 0);
              outcome == o && 1 <= asked <= |ports| && port == ports[asked - 1]
    {
      OnlyTheLastAttemptCounts(Classes(answers), 0);
      port := ports[|ports| - 1];
      for p := 0 to |ports|
        invariant LoopOutcome(Classes(answers), p) == LoopOutcome(Classes(answers), 0)
        invariant p == |ports| ==> port == ports[|ports| - 1]
      {
        port := ports[p];
        if answers[p].TimedOut? {
          return Unknown, port;
        }
        var cls := Classify(answers[p].returncode, answers[p].output);
        if cls == Acked {
          return Committed, port;
        }
        if cls == Indeterminate {
          return Unknown, port;
        }
        if cls == Rejected {
          return Refused, port;
        }
      }
      outcome := Refused;
    }

    /** `try_insert`. */
    method TryInsert(value: int, insert: Insert) returns (outcome: Outcome)
      requires |insert.answers| == |ports| > 0
      modifies this
      ensures counter == old(counter) + 1 && ops == old(ops) + [OpOf(ports, counter, value, insert)]
      ensures outcome == OpOf(ports, counter, value, insert).outcome
      ensures acked == old(acked) + (if outcome == Committed then {value} else {})
      ensures errored == old(errored) + (if outcome == Refused then {value} else {})
      ensures indeterminate == old(indeterminate) + (if outcome == Unknown then {value} else {})
    {
      var seqNo := NextSeq();
      var port;
      outcome, port := AskPorts(insert.answers);
      RecordOp(OpRecord(seqNo, value, insert.startTs, insert.endTs, outcome, port));
    }

    /** `do_inserts`. */
    method DoInserts(batch: seq<Insert>)
      requires Valid() && ForPorts(ports, batch)
      modifies this
      ensures Valid() && counter == old(counter) + |batch|
      ensures ops == old(ops) + OpsOf(ports, old(counter), batch)
    {
      ghost var first := counter;
      for i := 0 to |batch|
        invariant Valid() && counter == first + i
        invariant ops == old(ops) + OpsOf(ports, first, batch)[..i]
      {
        var value := counter + 1;
        ghost var was := ops;
        var outcome := TryInsert(value, batch[i]);
        FiledOneMore(was, ops[|was|]);
      }
    }
  }

  lemma FiledOneMore(ops: seq<OpRecord>, op: OpRecord)
    ensures forall o :: ValuesWith(ops + [op], o) == ValuesWith(ops, o) + (if op.outcome == o then {op.value} else {})
  {
    forall o ensures ValuesWith(ops + [op], o) == ValuesWith(ops, o) + (if op.outcome == o then {op.value} else {}) {
      var more := ops + [op];
      forall v | v in ValuesWith(ops, o) ensures v in ValuesWith(more, o) {
        var i :| 0 <= i < |ops| && ops[i].outcome == o && ops[i].value == v;
        assert more[i].value == v;
      }
      assert more[|ops|] == op;
    }
  }

  predicate Numbered(ops: seq<OpRecord>) {
    forall i | 0 <= i < |ops| :: ops[i].value == i + 1
  }

  /** The three sets of a valid history partition `1..counter`. */
  lemma OutcomesPartition(ops: seq<OpRecord>)
    requires Numbered(ops)
    ensures var acked, errored := ValuesWith(ops, Committed), ValuesWith(ops, Refused);
            var unknown := ValuesWith(ops, Unknown);
            && (forall v :: v in acked + errored + unknown <==> 1 <= v <= |ops|)
            && acked !! errored && acked !! unknown && errored !! unknown
  {
    var all := ValuesWith(ops, Committed) + ValuesWith(ops, Refused) + ValuesWith(ops, Unknown);
    forall v ensures 1 <= v <= |ops| ==> v in all {
      if 1 <= v <= |ops| { assert ops[v - 1].value == v && v in ValuesWith(ops, ops[v - 1].outcome); }
    }
    forall o, v | v in ValuesWith(ops, o) ensures 1 <= v <= |ops| && ops[v - 1].outcome == o {
      var i :| 0 <= i < |ops| && ops[i].outcome == o && ops[i].value == v;
      assert i == v - 1;
    }
  }

  // ----- The checks -----

  /** The record a dictionary keyed by value keeps of the acked ops: the last. */
  predicate LastAcked(ops: seq<OpRecord>, v: int, op: OpRecord) {
    exists i | 0 <= i < |ops| ::
      && ops[i] == op && op.outcome == Committed && op.value == v
      && forall j | i < j < |ops| :: !(ops[j].outcome == Committed && ops[j].value == v)
  }

  /** `m` was acked before the insert of `n` began; `n` is there and `m` is not. */
  ghost predicate CausalGap(ops: seq<OpRecord>, db: set<int>, m: int, n: int) {
    exists opM, opN :: LastAcked(ops, m, opM) && LastAcked(ops, n, opN) && opM.endTs < opN.startTs && n in db
      && m !in db
  }

  method AckedOps(ops: seq<OpRecord>) returns (byValue: map<int, OpRecord>)
    ensures byValue.Keys == ValuesWith(ops, Committed)
    ensures forall v | v in byValue :: LastAcked(ops, v, byValue[v])
  {
    byValue := map[];
    for i := 0 to |ops|
      invariant byValue.Keys == ValuesWith(ops[..i], Committed)
      invariant forall v | v in byValue :: LastAcked(ops[..i], v, byValue[v])
    {
      ghost var was := ops[..i];
      assert ops[..i + 1] == was + [ops[i]];
      FiledOneMore(was, ops[i]);
      forall v | v in byValue && !(ops[i].outcome == Committed && ops[i].value == v)
        ensures LastAcked(ops[..i + 1], v, byValue[v])
      {
        StillLast(was, ops[i], v, byValue[v]);
      }
      if ops[i].outcome == Committed {
        assert ops[..i + 1][i] == ops[i];
        byValue := byValue[ops[i].value := ops[i]];
      }
    }
    assert ops[..|ops|] == ops;
  }

  lemma StillLast(ops: seq<OpRecord>, next: OpRecord, v: int, op: OpRecord)
    requires LastAcked(ops, v, op) && !(next.outcome == Committed && next.value == v)
    ensures LastAcked(ops + [next], v, op)
  {
    var i :| 0 <= i < |ops| && ops[i] == op && op.outcome == Committed && op.value == v
             && forall j | i < j < |ops| :: !(ops[j].outcome == Committed && ops[j].value == v);
    assert (ops + [next])[i] == op;
  }

  lemma LastAckedIsUnique(ops: seq<OpRecord>, v: int, a: OpRecord, b: OpRecord)
    requires LastAcked(ops, v, a) && LastAcked(ops, v, b)
    ensures a == b && v in ValuesWith(ops, Committed)
  {
    var i :| 0 <= i < |ops| && ops[i] == a && a.outcome == Committed && a.value == v
             && forall j | i < j < |ops| :: !(ops[j].outcome == Committed && ops[j].value == v);
    var k :| 0 <= k < |ops| && ops[k] == b && b.outcome == Committed && b.value == v
             && forall j | k < j < |ops| :: !(ops[j].outcome == Committed && ops[j].value == v);
    assert i == k;
  }

  lemma GapByTable(ops: seq<OpRecord>, db: set<int>, byValue: map<int, OpRecord>, m: int, n: int)
    requires byValue.Keys == ValuesWith(ops, Committed) && forall v | v in byValue :: LastAcked(ops, v, byValue[v])
    ensures CausalGap(ops, db, m, n) <==>
            m in byValue && n in byValue && byValue[m].endTs < byValue[n].startTs && n in db && m !in db
  {
    if CausalGap(ops, db, m, n) {
      var opM, opN :| LastAcked(ops, m, opM) && LastAcked(ops, n, opN) && opM.endTs < opN.startTs && n in db
        && m !in db;
      LastAckedIsUnique(ops, m, opM, opM);
      LastAckedIsUnique(ops, n, opN, opN);
      LastAckedIsUnique(ops, m, opM, byValue[m]);
      LastAckedIsUnique(ops, n, opN, byValue[n]);
    }
  }

  /** The earlier acked values that `n` was found without. */
  method MissingBefore(byValue: map<int, OpRecord>, db: set<int>, n: int) returns (pairs: seq<(int, int)>)
    requires n in byValue
    ensures forall m, k :: (m, k) in pairs <==>
              k == n && m in byValue && byValue[m].endTs < byValue[n].startTs && m !in db
  {
    pairs := [];
    var left := byValue.Keys;
    while left != {}
      invariant left <= byValue.Keys
      invariant forall m, k :: (m, k) in pairs <==>
                  k == n && m in byValue && m !in left && byValue[m].endTs < byValue[n].startTs && m !in db
      decreases |left|
    {
      var m := Pick(left);
      left := left - {m};
      if byValue[m].endTs < byValue[n].startTs && m !in db {
        pairs := pairs + [(m, n)];
      }
    }
  }

  /** I7. */
  method CausalViolations(ops: seq<OpRecord>, db: set<int>) returns (pairs: seq<(int, int)>)
    ensures forall m, n :: (m, n) in pairs <==> CausalGap(ops, db, m, n)
  {
    var byValue := AckedOps(ops);
    pairs := [];
    var left := byValue.Keys;
    while left != {}
      invariant left <= byValue.Keys
      invariant forall m, n :: (m, n) in pairs <==>
                  && m in byValue && n in byValue && n !in left
                  && byValue[m].endTs < byValue[n].startTs && n in db && m !in db
      decreases |left|
    {
      var n := Pick(left);
      left := left - {n};
      if n in db {
        var more := MissingBefore(byValue, db, n);
        pairs := pairs + more;
      }
    }
    forall m, n ensures (m, n) in pairs <==> CausalGap(ops, db, m, n) {
      GapByTable(ops, db, byValue, m, n);
    }
  }

  /** I1, I2 and I7 against the final read. */
  method CheckInvariants(history: History, db: set<int>)
    returns (lost: set<int>, phantom: set<int>, causal: seq<(int, int)>)
    requires history.Valid()
    ensures lost == {} && phantom == {} <==> history.acked <= db && db <= history.acked + history.indeterminate
    ensures forall v :: v in lost <==> v in history.acked && v !in db
    ensures forall v :: v in phantom <==> v in db && v !in history.acked && v !in history.indeterminate
    ensures forall m, n :: (m, n) in causal <==> CausalGap(history.ops, db, m, n)
    ensures causal != [] ==> lost != {}
  {
    lost := history.acked - db;
    phantom := db - (history.acked + history.indeterminate);
    causal := CausalViolations(history.ops, db);
    if causal != [] {
      GapIsLost(history.ops, db, causal[0].0, causal[0].1);
    }
  }

  lemma GapIsLost(ops: seq<OpRecord>, db: set<int>, m: int, n: int)
    requires CausalGap(ops, db, m, n)
    ensures m in ValuesWith(ops, Committed) - db
  {
    var opM :| LastAcked(ops, m, opM);
    LastAckedIsUnique(ops, m, opM, opM);
  }

  // ----- Against a server -----

  /** Which attempt of which insert committed: an acked one did, a refused one did
      not, an attempt of unknown fate may have, and one never made did not. */
  ghost predicate Possible(ports: seq<int>, batch: seq<Insert>, commits: set<(int, nat)>)
    requires ForPorts(ports, batch)
  {
    && (forall c | c in commits :: 1 <= c.0 <= |batch| && MayCommit(batch[c.0 - 1], c.1))
    && (forall v, p: nat | 1 <= v <= |batch| && MustCommit(batch[v - 1], p) :: (v, p) in commits)
  }

  predicate MayCommit(insert: Insert, p: nat) {
    var classes := Classes(insert.answers);
    p < |classes| && p < LoopOutcome(classes, 0).1 && (classes[p] == Acked || classes[p] == Indeterminate)
  }

  predicate MustCommit(insert: Insert, p: nat) {
    var classes := Classes(insert.answers);
    p < |classes| && p < LoopOutcome(classes, 0).1 && classes[p] == Acked
  }

  lemma AckedPort(insert: Insert) returns (p: nat)
    requires LoopOutcome(Classes(insert.answers), 0).0 == Committed
    ensures MustCommit(insert, p)
  {
    OnlyTheLastAttemptCounts(Classes(insert.answers), 0);
    p := LoopOutcome(Classes(insert.answers), 0).1 - 1;
  }

  lemma CommitIsRecorded(insert: Insert, p: nat)
    requires MayCommit(insert, p)
    ensures LoopOutcome(Classes(insert.answers), 0).0 != Refused
  {
    OnlyTheLastAttemptCounts(Classes(insert.answers), 0);
  }

  function Rows(commits: set<(int, nat)>): set<int> {
    set c | c in commits :: c.0
  }

  lemma AckedIsThere(ports: seq<int>, batch: seq<Insert>, commits: set<(int, nat)>, v: int)
    requires ForPorts(ports, batch) && Possible(ports, batch, commits)
             && v in ValuesWith(OpsOf(ports, 0, batch), Committed)
    ensures v in Rows(commits)
  {
    var ops := OpsOf(ports, 0, batch);
    var i :| 0 <= i < |ops| && ops[i].outcome == Committed && ops[i].value == v;
    var p := AckedPort(batch[i]);
    assert (v, p) in commits;
  }

  lemma RowWasTried(ports: seq<int>, batch: seq<Insert>, commits: set<(int, nat)>, v: int)
    requires ForPorts(ports, batch) && Possible(ports, batch, commits) && v in Rows(commits)
    ensures var ops := OpsOf(ports, 0, batch); v in ValuesWith(ops, Committed) + ValuesWith(ops, Unknown)
  {
    var c :| c in commits && c.0 == v;
    CommitIsRecorded(batch[v - 1], c.1);
    assert OpsOf(ports, 0, batch)[v - 1].value == v;
  }

  lemma BatchIsSilent(ports: seq<int>, batch: seq<Insert>, commits: set<(int, nat)>)
    requires ForPorts(ports, batch) && Possible(ports, batch, commits)
    ensures var ops, db := OpsOf(ports, 0, batch), Rows(commits);
            && ValuesWith(ops, Committed) <= db && db <= ValuesWith(ops, Committed) + ValuesWith(ops, Unknown)
            && forall m, n :: !CausalGap(ops, db, m, n)
  {
    var ops, db := OpsOf(ports, 0, batch), Rows(commits);
    forall v | v in ValuesWith(ops, Committed) ensures v in db { AckedIsThere(ports, batch, commits, v); }
    forall v | v in db ensures v in ValuesWith(ops, Committed) + ValuesWith(ops, Unknown) {
      RowWasTried(ports, batch, commits, v);
    }
    forall m, n ensures !CausalGap(ops, db, m, n) {
      if CausalGap(ops, db, m, n) { GapIsLost(ops, db, m, n); }
    }
  }

  // ----- Several calls -----

  function Concat(batches: seq<seq<Insert>>): seq<Insert> {
    if batches == [] then [] else Concat(batches[..|batches| - 1]) + batches[|batches| - 1]
  }

  /** The history after one `DoInserts` call for each batch, each from where the last one ended. */
  function OpsAfterCalls(ports: seq<int>, batches: seq<seq<Insert>>): seq<OpRecord>
    requires forall batch | batch in batches :: ForPorts(ports, batch)
  {
    if batches == [] then []
    else
      var before := OpsAfterCalls(ports, batches[..|batches| - 1]);
      before + OpsOf(ports, |before|, batches[|batches| - 1])
  }

  lemma OpsOfParts(ports: seq<int>, counter: nat, first: seq<Insert>, second: seq<Insert>)
    requires ForPorts(ports, first) && ForPorts(ports, second)
    ensures ForPorts(ports, first + second)
    ensures OpsOf(ports, counter, first + second) ==
            OpsOf(ports, counter, first) + OpsOf(ports, counter + |first|, second)
  {
  }

  lemma {:induction false} CallsAreForPorts(ports: seq<int>, batches: seq<seq<Insert>>)
    requires |ports| > 0 && forall batch | batch in batches :: ForPorts(ports, batch)
    ensures ForPorts(ports, Concat(batches))
  {
    if batches != [] {
      CallsAreForPorts(ports, batches[..|batches| - 1]);
      assert batches[|batches| - 1] in batches;
    }
  }

  lemma {:induction false} CallsAreOneBatch(ports: seq<int>, batches: seq<seq<Insert>>)
    requires |ports| > 0 && ForPorts(ports, Concat(batches))
    requires forall batch | batch in batches :: ForPorts(ports, batch)
    ensures OpsAfterCalls(ports, batches) == OpsOf(ports, 0, Concat(batches))
  {
    if batches != [] {
      var init, last := batches[..|batches| - 1], batches[|batches| - 1];
      assert last in batches;
      CallsAreForPorts(ports, init);
      CallsAreOneBatch(ports, init);
      OneMoreCall(ports, OpsAfterCalls(ports, init), Concat(init), last);
    }
  }

  lemma OneMoreCall(ports: seq<int>, ops: seq<OpRecord>, before: seq<Insert>, batch: seq<Insert>)
    requires ForPorts(ports, before) && ForPorts(ports, batch) && ops == OpsOf(ports, 0, before)
    ensures ForPorts(ports, before + batch) && ops + OpsOf(ports, |ops|, batch) == OpsOf(ports, 0, before + batch)
  {
    OpsOfParts(ports, 0, before, batch);
  }

  /** After any calls against such a server, I1, I2 and I7 have nothing to report. */
  lemma ChecksAreSilent(ports: seq<int>, batches: seq<seq<Insert>>, commits: set<(int, nat)>)
    requires |ports| > 0 && forall batch | batch in batches :: ForPorts(ports, batch)
    requires ForPorts(ports, Concat(batches)) && Possible(ports, Concat(batches), commits)
    ensures var ops, db := OpsAfterCalls(ports, batches), Rows(commits);
            && ValuesWith(ops, Committed) <= db && db <= ValuesWith(ops, Committed) + ValuesWith(ops, Unknown)
            && forall m, n :: !CausalGap(ops, db, m, n)
  {
    CallsAreOneBatch(ports, batches);
    BatchIsSilent(ports, Concat(batches), commits);
  }
}
