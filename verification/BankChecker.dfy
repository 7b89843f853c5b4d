/** The bank tables and `_check_bank_against_db` (`testing/correctness_lite.py`). */
module BankChecker {
  import opened Dicts
  import opened Attempts

  const BANK_ACCOUNTS := 10
  const BANK_INITIAL_BALANCE := 1000
  const BANK_TOTAL := BANK_ACCOUNTS * BANK_INITIAL_BALANCE

  datatype LedgerRow = LedgerRow(transferId: int, fromId: int, toId: int, amount: int)

  datatype TransferRecord = TransferRecord(transferId: int, fromId: int, toId: int, amount: int, outcome: Outcome,
                                           port: int)

  /** The two `UPDATE`s of a transfer, and the two guarded additions of the
      reconciliation: an account that does not exist is left alone. */
  function Post(balances: map<int, int>, row: LedgerRow): map<int, int> {
    var debited := Add(balances, row.fromId, -row.amount);
    Add(debited, row.toId, row.amount)
  }

  function Add(balances: map<int, int>, account: int, amount: int): map<int, int> {
    if account in balances then balances[account := balances[account] + amount] else balances
  }

  function Replay(balances: map<int, int>, rows: seq<LedgerRow>): map<int, int> {
    if rows == [] then balances else Post(Replay(balances, rows[..|rows| - 1]), rows[|rows| - 1])
  }

  // ----- What each check looks for -----

  predicate InLedger(ledger: seq<LedgerRow>, id: int) {
    exists i | 0 <= i < |ledger| :: ledger[i].transferId == id
  }

  predicate Twice(ledger: seq<LedgerRow>, id: int) {
    exists i, j | 0 <= i < j < |ledger| :: ledger[i].transferId == ledger[j].transferId == id
  }

  /** The record a dictionary keyed by transfer id ends up with: the last. */
  ghost predicate Recorded(transfers: seq<TransferRecord>, id: int, t: TransferRecord) {
    exists i | 0 <= i < |transfers| ::
      transfers[i] == t && t.transferId == id && forall j | i < j < |transfers| :: transfers[j].transferId != id
  }

  predicate Attempted(transfers: seq<TransferRecord>, id: int) {
    exists i | 0 <= i < |transfers| :: transfers[i].transferId == id
  }

  /** `{row.transfer_id: row for row in ledger}.values()`: one row per id, in order
      of first appearance, each with the contents of its last. */
  function DistinctRows(ledger: seq<LedgerRow>): seq<LedgerRow> {
    if ledger == [] then []
    else PutRow(DistinctRows(ledger[..|ledger| - 1]), ledger[|ledger| - 1])
  }

  function PutRow(rows: seq<LedgerRow>, row: LedgerRow): seq<LedgerRow> {
    if rows == [] then [row]
    else if rows[0].transferId == row.transferId then [row] + rows[1..]
    else [rows[0]] + PutRow(rows[1..], row)
  }

  /** Every account that was read, at its opening balance. */
  function Opening(accounts: set<int>): map<int, int> {
    map account | account in accounts :: BANK_INITIAL_BALANCE
  }

  function Expected(balances: map<int, int>, ledger: seq<LedgerRow>): map<int, int> {
    Replay(Opening(balances.Keys), DistinctRows(ledger))
  }

  /** The findings, one field per check. The check reports nothing when every field is empty. */
  datatype Findings = Findings(
    b1: bool, b2: bool,
    duplicated: set<int>, missingAcked: set<int>, appliedButRefused: set<int>, neverAttempted: set<int>,
    mismatched: set<int>)

  const NOTHING := Findings(false, false, {}, {}, {}, {}, {})

  lemma {:induction false} ReplayKeys(balances: map<int, int>, rows: seq<LedgerRow>)
    ensures Replay(balances, rows).Keys == balances.Keys
  {
    if rows != [] { ReplayKeys(balances, rows[..|rows| - 1]); }
  }

  // ----- The check -----

  method CountApplied(ledger: seq<LedgerRow>) returns (applied: map<int, nat>)
    ensures forall id :: id in applied <==> InLedger(ledger, id)
    ensures forall id | id in applied :: applied[id] > 1 <==> Twice(ledger, id)
  {
    applied := map[];
    for i := 0 to |ledger|
      invariant forall id :: id in applied <==> InLedger(ledger[..i], id)
      invariant forall id | id in applied :: applied[id] >= 1 && (applied[id] > 1 <==> Twice(ledger[..i], id))
    {
      var id := ledger[i].transferId;
      OneMoreRow(ledger, i);
      applied := applied[id := (if id in applied then applied[id] else 0) + 1];
    }
    assert ledger[..|ledger|] == ledger;
  }

  lemma OneMoreRow(ledger: seq<LedgerRow>, i: nat)
    requires i < |ledger|
    ensures forall id :: InLedger(ledger[..i + 1], id) <==> InLedger(ledger[..i], id) || id == ledger[i].transferId
    ensures forall id :: Twice(ledger[..i + 1], id) <==>
            Twice(ledger[..i], id) || (id == ledger[i].transferId && InLedger(ledger[..i], id))
  {
    var more, less := ledger[..i + 1], ledger[..i];
    assert more == less + [ledger[i]];
    forall id ensures InLedger(more, id) <==> InLedger(less, id) || id == ledger[i].transferId {
      if InLedger(less, id) {
        var k :| 0 <= k < |less| && less[k].transferId == id;
        assert more[k].transferId == id;
      } else if id == ledger[i].transferId {
        assert more[i].transferId == id;
      }
    }
    forall id ensures Twice(more, id) <==> Twice(less, id) || (id == ledger[i].transferId && InLedger(less, id)) {
      if Twice(less, id) {
        var j, k :| 0 <= j < k < |less| && less[j].transferId == less[k].transferId == id;
        assert more[j].transferId == more[k].transferId == id;
      } else if id == ledger[i].transferId && InLedger(less, id) {
        var k :| 0 <= k < |less| && less[k].transferId == id;
        assert more[k].transferId == more[i].transferId == id;
      }
    }
  }

  method ByTransferId(transfers: seq<TransferRecord>) returns (attempted: map<int, TransferRecord>)
    ensures forall id :: id in attempted <==> Attempted(transfers, id)
    ensures forall id | id in attempted :: Recorded(transfers, id, attempted[id])
  {
    attempted := map[];
    for i := 0 to |transfers|
      invariant forall id :: id in attempted <==> Attempted(transfers[..i], id)
      invariant forall id | id in attempted :: Recorded(transfers[..i], id, attempted[id])
    {
      OneMoreRecord(transfers, i);
      attempted := attempted[transfers[i].transferId := transfers[i]];
    }
    assert transfers[..|transfers|] == transfers;
  }

  lemma OneMoreRecord(transfers: seq<TransferRecord>, i: nat)
    requires i < |transfers|
    ensures var t := transfers[i];
            && (forall id :: Attempted(transfers[..i + 1], id) <==> Attempted(transfers[..i], id) || id == t.transferId)
            && Recorded(transfers[..i + 1], t.transferId, t)
            && (forall id, r | Recorded(transfers[..i], id, r) && id != t.transferId ::
                Recorded(transfers[..i + 1], id, r))
  {
    var more, less, t := transfers[..i + 1], transfers[..i], transfers[i];
    assert more == less + [t];
    assert more[i] == t;
    forall id ensures Attempted(more, id) <==> Attempted(less, id) || id == t.transferId {
      if Attempted(less, id) {
        var k :| 0 <= k < |less| && less[k].transferId == id;
        assert more[k].transferId == id;
      } else if id == t.transferId {
        assert more[i].transferId == id;
      }
    }
    forall id, r | Recorded(less, id, r) && id != t.transferId ensures Recorded(more, id, r) {
      var k :| 0 <= k < |less| && less[k] == r && r.transferId == id
        && forall j | k < j < |less| :: less[j].transferId != id;
      assert more[k] == r;
    }
  }

  method Reconcile(balances: map<int, int>, ledger: seq<LedgerRow>) returns (expected: map<int, int>)
    ensures expected == Expected(balances, ledger) && expected.Keys == balances.Keys
  {
    var rows: seq<LedgerRow> := [];
    for i := 0 to |ledger|
      invariant rows == DistinctRows(ledger[..i])
    {
      assert ledger[..i + 1][..i] == ledger[..i];
      rows := PutRow(rows, ledger[i]);
    }
    assert ledger[..|ledger|] == ledger;
    expected := Opening(balances.Keys);
    for i := 0 to |rows|
      invariant expected == Replay(Opening(balances.Keys), rows[..i])
    {
      assert rows[..i + 1][..i] == rows[..i];
      var row := rows[i];
      if row.fromId in expected {
        expected := expected[row.fromId := expected[row.fromId] - row.amount];
      }
      if row.toId in expected {
        expected := expected[row.toId := expected[row.toId] + row.amount];
      }
    }
    assert rows[..|rows|] == rows;
    ReplayKeys(Opening(balances.Keys), rows);
  }

  /** What B1 to B4 report, stated on the tables and the records alone. */
  ghost predicate AreTheFindings(balances: map<int, int>, ledger: seq<LedgerRow>, transfers: seq<TransferRecord>,
                                 f: Findings)
  {
    && (f.b1 <==> Sum(balances) != BANK_TOTAL)
    && (f.b2 <==> exists account | account in balances :: balances[account] < 0)
    && (transfers == [] ==>
          f.duplicated == f.missingAcked == f.appliedButRefused == f.neverAttempted == f.mismatched == {})
    && (transfers != [] ==>
          && (forall id :: id in f.duplicated <==> Twice(ledger, id))
          && (forall id :: id in f.missingAcked <==> HasOutcome(transfers, id, Committed) && !InLedger(ledger, id))
          && (forall id :: id in f.appliedButRefused <==> HasOutcome(transfers, id, Refused) && InLedger(ledger, id))
          && (forall id :: id in f.neverAttempted <==> InLedger(ledger, id) && !Attempted(transfers, id))
          && (forall account :: account in f.mismatched <==> Mismatched(balances, ledger, account)))
  }

  ghost predicate HasOutcome(transfers: seq<TransferRecord>, id: int, outcome: Outcome) {
    exists t :: Recorded(transfers, id, t) && t.outcome == outcome
  }

  predicate Mismatched(balances: map<int, int>, ledger: seq<LedgerRow>, account: int) {
    account in balances && account in Expected(balances, ledger)
      && Expected(balances, ledger)[account] != balances[account]
  }

  lemma RecordedIsUnique(transfers: seq<TransferRecord>, id: int, t: TransferRecord, u: TransferRecord)
    requires Recorded(transfers, id, t) && Recorded(transfers, id, u)
    ensures t == u && Attempted(transfers, id)
  {
    var i :| 0 <= i < |transfers| && transfers[i] == t && t.transferId == id
      && forall k | i < k < |transfers| :: transfers[k].transferId != id;
    var j :| 0 <= j < |transfers| && transfers[j] == u && u.transferId == id
      && forall k | j < k < |transfers| :: transfers[k].transferId != id;
    assert i == j;
  }

  lemma OutcomeOf(transfers: seq<TransferRecord>, attempted: map<int, TransferRecord>, id: int, outcome: Outcome)
    requires forall id :: id in attempted <==> Attempted(transfers, id)
    requires forall id | id in attempted :: Recorded(transfers, id, attempted[id])
    ensures HasOutcome(transfers, id, outcome) <==> id in attempted && attempted[id].outcome == outcome
  {
    if HasOutcome(transfers, id, outcome) {
      var t :| Recorded(transfers, id, t) && t.outcome == outcome;
      RecordedIsUnique(transfers, id, t, t);
      RecordedIsUnique(transfers, id, t, attempted[id]);
    }
  }

  /** The four comparisons of B3. */
  method CompareLedger(ledger: seq<LedgerRow>, transfers: seq<TransferRecord>)
    returns (duplicated: set<int>, missingAcked: set<int>, appliedButRefused: set<int>, neverAttempted: set<int>)
    ensures forall id :: id in duplicated <==> Twice(ledger, id)
    ensures forall id :: id in missingAcked <==> HasOutcome(transfers, id, Committed) && !InLedger(ledger, id)
    ensures forall id :: id in appliedButRefused <==> HasOutcome(transfers, id, Refused) && InLedger(ledger, id)
    ensures forall id :: id in neverAttempted <==> InLedger(ledger, id) && !Attempted(transfers, id)
  {
    var applied := CountApplied(ledger);
    var attempted := ByTransferId(transfers);
    forall id, o ensures HasOutcome(transfers, id, o) <==> id in attempted && attempted[id].outcome == o {
      OutcomeOf(transfers, attempted, id, o);
    }
    duplicated := set id | id in applied && applied[id] > 1;
    missingAcked := set id | id in attempted && attempted[id].outcome == Committed && id !in applied;
    appliedButRefused := set id | id in applied && id in attempted && attempted[id].outcome == Refused;
    neverAttempted := set id | id in applied && id !in attempted;
    forall id ensures id in duplicated <==> Twice(ledger, id) {
      if Twice(ledger, id) { assert InLedger(ledger, id); }
    }
  }

  /** `_check_bank_against_db`. */
  method CheckBankAgainstDb(balances: map<int, int>, ledger: seq<LedgerRow>, transfers: seq<TransferRecord>)
    returns (f: Findings)
    ensures AreTheFindings(balances, ledger, transfers, f)
  {
    var total := Total(balances);
    f := NOTHING.(b1 := total != BANK_TOTAL, b2 := exists account | account in balances :: balances[account] < 0);
    if transfers == [] {
      return;
    }
    var duplicated, missingAcked, appliedButRefused, neverAttempted := CompareLedger(ledger, transfers);
    var expected := Reconcile(balances, ledger);
    var mismatched := set account | account in balances && expected[account] != balances[account];
    f := Findings(f.b1, f.b2, duplicated, missingAcked, appliedButRefused, neverAttempted, mismatched);
  }

  // ----- What B4 sees and B1 cannot -----

  predicate KnownRow(balances: map<int, int>, row: LedgerRow) {
    row.fromId in balances && row.toId in balances
  }

  /** A transfer between known accounts moves money and makes none. */
  lemma PostConserves(balances: map<int, int>, row: LedgerRow)
    requires KnownRow(balances, row)
    ensures Sum(Post(balances, row)) == Sum(balances) && Post(balances, row).Keys == balances.Keys
  {
    var debited := Add(balances, row.fromId, -row.amount);
    SumUpdate(balances, row.fromId, balances[row.fromId] - row.amount);
    SumUpdate(debited, row.toId, debited[row.toId] + row.amount);
  }

  lemma {:induction false} ReplayConserves(balances: map<int, int>, rows: seq<LedgerRow>)
    requires forall row | row in rows :: KnownRow(balances, row)
    ensures Sum(Replay(balances, rows)) == Sum(balances)
  {
    if rows != [] {
      var init := rows[..|rows| - 1];
      ReplayConserves(balances, init);
      ReplayKeys(balances, init);
      assert rows[|rows| - 1] in rows;
      PostConserves(Replay(balances, init), rows[|rows| - 1]);
    }
  }

  lemma {:induction false} PutRowRows(rows: seq<LedgerRow>, row: LedgerRow)
    ensures forall r | r in PutRow(rows, row) :: r in rows || r == row
  {
    if rows != [] { PutRowRows(rows[1..], row); }
  }

  lemma {:induction false} DistinctRowsAreRows(ledger: seq<LedgerRow>)
    ensures forall r | r in DistinctRows(ledger) :: r in ledger
  {
    if ledger != [] {
      DistinctRowsAreRows(ledger[..|ledger| - 1]);
      PutRowRows(DistinctRows(ledger[..|ledger| - 1]), ledger[|ledger| - 1]);
    }
  }

  /** `row` is the last of its id. */
  predicate LastOfId(ledger: seq<LedgerRow>, row: LedgerRow) {
    exists i | 0 <= i < |ledger| ::
      ledger[i] == row && forall j | i < j < |ledger| :: ledger[j].transferId != row.transferId
  }

  predicate OncePerId(rows: seq<LedgerRow>) {
    forall i, j | 0 <= i < j < |rows| :: rows[i].transferId != rows[j].transferId
  }

  lemma {:induction false} PutRowIs(rows: seq<LedgerRow>, row: LedgerRow)
    requires OncePerId(rows)
    ensures forall r :: r in PutRow(rows, row) <==> r == row || (r in rows && r.transferId != row.transferId)
    ensures OncePerId(PutRow(rows, row))
  {
    if rows != [] {
      PutRowIs(rows[1..], row);
      assert rows == [rows[0]] + rows[1..];
      forall r | r in rows[1..] ensures r.transferId != rows[0].transferId {
        var k :| 0 <= k < |rows[1..]| && rows[1..][k] == r;
        assert rows[k + 1] == r;
      }
      if rows[0].transferId != row.transferId {
        var below := PutRow(rows[1..], row);
        forall k | 0 <= k < |below| ensures below[k].transferId != rows[0].transferId { assert below[k] in below; }
      }
    }
  }

  lemma LastOfLonger(ledger: seq<LedgerRow>, row: LedgerRow, r: LedgerRow)
    ensures LastOfId(ledger + [row], r) <==> r == row || (LastOfId(ledger, r) && r.transferId != row.transferId)
  {
    var more := ledger + [row];
    assert more[|ledger|] == row;
    if LastOfId(ledger, r) && r.transferId != row.transferId {
      var i :| 0 <= i < |ledger| && ledger[i] == r
        && forall j | i < j < |ledger| :: ledger[j].transferId != r.transferId;
      assert more[i] == r;
    }
    if LastOfId(more, r) && r != row {
      var i :| 0 <= i < |more| && more[i] == r && forall j | i < j < |more| :: more[j].transferId != r.transferId;
      assert ledger[i] == r;
      assert forall j | i < j < |ledger| :: more[j] == ledger[j];
    }
  }

  /** The reconciliation posts one row for each id of the ledger, the last one. */
  lemma {:induction false} DistinctRowsAre(ledger: seq<LedgerRow>)
    ensures OncePerId(DistinctRows(ledger)) && forall r :: r in DistinctRows(ledger) <==> LastOfId(ledger, r)
  {
    if ledger != [] {
      var init, row := ledger[..|ledger| - 1], ledger[|ledger| - 1];
      DistinctRowsAre(init);
      PutRowIs(DistinctRows(init), row);
      assert ledger == init + [row];
      forall r ensures LastOfId(ledger, r) <==> r == row || (LastOfId(init, r) && r.transferId != row.transferId) {
        LastOfLonger(init, row, r);
      }
    }
  }

  lemma OpeningTotal(accounts: set<int>)
    requires |accounts| == BANK_ACCOUNTS
    ensures Sum(Opening(accounts)) == BANK_TOTAL
  {
    assert Opening(accounts).Keys == accounts;
    assert |Opening(accounts)| == |Opening(accounts).Keys|;
    SumOfEqual(Opening(accounts), BANK_INITIAL_BALANCE);
  }

  /** With every account read and every ledger endpoint known, a clean B4 makes B1 redundant. */
  lemma CleanB4ImpliesCleanB1(balances: map<int, int>, ledger: seq<LedgerRow>, transfers: seq<TransferRecord>,
                              f: Findings)
    requires AreTheFindings(balances, ledger, transfers, f) && transfers != []
    requires |balances.Keys| == BANK_ACCOUNTS && forall row | row in ledger :: KnownRow(balances, row)
    requires f.mismatched == {}
    ensures !f.b1
  {
    var opening, rows := Opening(balances.Keys), DistinctRows(ledger);
    DistinctRowsAreRows(ledger);
    ReplayKeys(opening, rows);
    forall account | account in balances ensures Expected(balances, ledger)[account] == balances[account] {
      assert account !in f.mismatched;
    }
    assert Expected(balances, ledger) == balances;
    ReplayConserves(opening, rows);
    OpeningTotal(balances.Keys);
  }

  /** A ledger transfer applied one extra time to reconciled balances leaves B1
      silent, and B4 reports exactly its two accounts. */
  lemma ExtraApplicationIsSeenByB4Only(balances: map<int, int>, ledger: seq<LedgerRow>, transfers: seq<TransferRecord>,
                                       row: LedgerRow, f: Findings)
    requires transfers != [] && row in ledger && KnownRow(balances, row) && row.fromId != row.toId && row.amount > 0
    requires Sum(balances) == BANK_TOTAL && forall account :: !Mismatched(balances, ledger, account)
    requires AreTheFindings(Post(balances, row), ledger, transfers, f)
    ensures !f.b1 && f.mismatched == {row.fromId, row.toId}
  {
    PostConserves(balances, row);
    var posted, expected := Post(balances, row), Expected(balances, ledger);
    ReplayKeys(Opening(balances.Keys), DistinctRows(ledger));
    forall account ensures account in f.mismatched <==> account == row.fromId || account == row.toId {
      assert !Mismatched(balances, ledger, account);
      assert account in f.mismatched <==> Mismatched(posted, ledger, account);
    }
  }
}
