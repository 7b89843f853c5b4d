/** The evidence gate over a matrix of Elle runs (`testing/aggregate_elle_results.py`):
    a row per attack, what is missing from its artifacts, and the exit code. An
    artifact that is absent or unreadable is `None`. */
module EvidenceGate {
  import opened Options

  datatype Meta = Meta(seed: Option<int>, profile: string, workers: real, duration: real, wavesDropped: int)
  datatype Results = Results(seed: Option<int>, workers: real, duration: real)
  datatype Wave = Wave(offset: Option<real>, effective: bool)
  datatype Waves = Waves(markerSeen: bool, planned: seq<Wave>, injected: seq<Wave>)
  datatype Stats = Stats(total: int, ok: int)
  datatype Elle = Elle(valid: Option<bool>, opCount: Option<int>)

  /** One `elle-*` directory. */
  datatype Artifacts = Artifacts(meta: Option<Meta>, results: Option<Results>, waves: Option<Waves>,
                                 stats: Option<Stats>, elle: Option<Elle>)

  datatype Error =
    | NeverRan | NoSeed | NoMeta | WrongProfile | NoResults
    | NoWaves | WorkloadNeverSeen | WavesMissing
    | NoHistory | NoWorkload | EmptyHistory | TooFewCommits | NoVerdict

  datatype Note = IneffectiveWaves(count: nat) | WavesDropped(dropped: int) | ThinHistory | ElleCountDiffers

  datatype Label = PASS | FAIL | UNKNOWN | ERROR

  const MIN_OK_TXNS_FLOOR := 20
  const THIN_OK_FRACTION := 0.25

  /** Python's `round`: to the nearest integer, ties to the even one. */
  function Round(x: real): (r: int)
    ensures r as real - 0.5 <= x <= r as real + 0.5
    ensures x == r as real - 0.5 || x == r as real + 0.5 ==> r % 2 == 0
  {
    var below := x.Floor;
    var rest := x - below as real;
    if rest < 0.5 || (rest == 0.5 && below % 2 == 0) then below else below + 1
  }

  function OkFloor(rate: real, workers: real, duration: real): int {
    var derived := Round(rate * workers * duration);
    if derived < MIN_OK_TXNS_FLOOR then MIN_OK_TXNS_FLOOR else derived
  }

  function VerdictLabel(valid: Option<bool>): Label {
    if valid == Some(true) then PASS else if valid == Some(false) then FAIL else UNKNOWN
  }

  /** `a or b` on numbers: zero counts as missing. */
  function OrElse(a: real, b: real): real { if a != 0.0 then a else b }

  function Workers(a: Artifacts): real {
    OrElse(if a.results.Some? then a.results.value.workers else 0.0, if a.meta.Some? then a.meta.value.workers else 0.0)
  }

  function Duration(a: Artifacts): real {
    OrElse(if a.results.Some? then a.results.value.duration else 0.0,
           if a.meta.Some? then a.meta.value.duration else 0.0)
  }

  /** `meta.seed or results.seed`. */
  function SeedOf(a: Artifacts): Option<int> {
    var inMeta := if a.meta.Some? then a.meta.value.seed else None;
    if inMeta.Some? && inMeta.value != 0 then inMeta
    else if a.results.Some? then a.results.value.seed else None
  }

  // ----- What the evidence must show -----

  predicate WavesInjected(a: Artifacts) {
    a.waves.Some? && a.waves.value.markerSeen && |a.waves.value.injected| == |a.waves.value.planned|
  }

  predicate EnoughCommits(a: Artifacts, rate: real) {
    && a.stats.Some? && Workers(a) > 0.0 && Duration(a) > 0.0
    && a.stats.value.total != 0 && a.stats.value.ok >= OkFloor(rate, Workers(a), Duration(a))
  }

  predicate Usable(a: Artifacts, expectProfile: string, rate: real) {
    && a.meta.Some? && (expectProfile != "" ==> a.meta.value.profile == expectProfile)
    && a.results.Some? && SeedOf(a).Some? && WavesInjected(a) && EnoughCommits(a, rate) && a.elle.Some?
  }

  /** What each error is raised for. */
  predicate Applies(e: Error, d: Option<Artifacts>, expectProfile: string, rate: real) {
    if e == NeverRan || d.None? then e == NeverRan && d.None?
    else
      var a := d.value;
      match e
      case NeverRan => false
      case NoSeed => SeedOf(a) == None
      case NoMeta => a.meta.None?
      case WrongProfile => a.meta.Some? && expectProfile != "" && a.meta.value.profile != expectProfile
      case NoResults => a.results.None?
      case NoWaves => a.waves.None?
      case WorkloadNeverSeen => a.waves.Some? && !a.waves.value.markerSeen
      case WavesMissing =>
        a.waves.Some? && a.waves.value.markerSeen && |a.waves.value.injected| != |a.waves.value.planned|
      case NoHistory => a.stats.None?
      case NoWorkload => a.stats.Some? && !(Workers(a) > 0.0 && Duration(a) > 0.0)
      case EmptyHistory => a.stats.Some? && Workers(a) > 0.0 && Duration(a) > 0.0 && a.stats.value.total == 0
      case TooFewCommits =>
        && a.stats.Some? && Workers(a) > 0.0 && Duration(a) > 0.0 && a.stats.value.total != 0
        && a.stats.value.ok < OkFloor(rate, Workers(a), Duration(a))
      case NoVerdict => a.elle.None?
  }

  /** The evidence is usable exactly when there is nothing to complain about. */
  lemma UsableIff(d: Option<Artifacts>, expectProfile: string, rate: real)
    ensures d.Some? && Usable(d.value, expectProfile, rate) <==> forall e :: !Applies(e, d, expectProfile, rate)
  {
    if forall e :: !Applies(e, d, expectProfile, rate) {
      assert !Applies(NeverRan, d, expectProfile, rate) && !Applies(NoSeed, d, expectProfile, rate);
      assert !Applies(NoMeta, d, expectProfile, rate) && !Applies(WrongProfile, d, expectProfile, rate);
      assert !Applies(NoResults, d, expectProfile, rate) && !Applies(NoWaves, d, expectProfile, rate);
      assert !Applies(WorkloadNeverSeen, d, expectProfile, rate) && !Applies(WavesMissing, d, expectProfile, rate);
      assert !Applies(NoHistory, d, expectProfile, rate) && !Applies(NoWorkload, d, expectProfile, rate);
      assert !Applies(EmptyHistory, d, expectProfile, rate) && !Applies(TooFewCommits, d, expectProfile, rate);
      assert !Applies(NoVerdict, d, expectProfile, rate);
    }
  }

  /** What the row of an attack must say. */
  function LabelOf(a: Option<Artifacts>, expectProfile: string, rate: real): Label {
    if a.Some? && Usable(a.value, expectProfile, rate) then VerdictLabel(a.value.elle.value.valid) else ERROR
  }

  function Ineffective(waves: seq<Wave>, n: nat): nat
    requires n <= |waves|
  {
    if n == 0 then 0 else Ineffective(waves, n - 1) + (if waves[n - 1].effective then 0 else 1)
  }

  /** What the schedule is reported, but not failed, for. */
  predicate WaveNote(note: Note, a: Artifacts) {
    match note
    case IneffectiveWaves(n) =>
      a.waves.Some? && n == Ineffective(a.waves.value.injected, |a.waves.value.injected|) && n > 0
    case WavesDropped(n) => a.waves.Some? && a.meta.Some? && n == a.meta.value.wavesDropped && n > 0
    case _ => false
  }

  predicate Thin(a: Artifacts, rate: real) {
    EnoughCommits(a, rate) && a.stats.value.ok as real < a.stats.value.total as real * THIN_OK_FRACTION
  }

  // ----- The rows -----

  class AttackRow {
    const attack: string
    var seed: Option<int>
    var ops: Option<int>
    var valid: Label
    var errors: seq<Error>
    var notes: seq<Note>

    constructor (attack: string)
      ensures this.attack == attack && seed == None && ops == None && valid == ERROR && errors == [] && notes == []
    {
      this.attack, seed, ops, valid, errors, notes := attack, None, None, ERROR, [], [];
    }
  }

  /** `_check_fault_waves`. */
  method CheckFaultWaves(a: Artifacts, row: AttackRow)
    modifies row`errors, row`notes
    ensures forall e :: e in row.errors <==>
              e in old(row.errors) || (e in {NoWaves, WorkloadNeverSeen, WavesMissing} && Applies(e, Some(a), "", 0.0))
    ensures forall note :: note in row.notes <==> note in old(row.notes) || WaveNote(note, a)
  {
    if a.waves.None? {
      row.errors := row.errors + [NoWaves];
      return;
    }
    var waves := a.waves.value;
    if !waves.markerSeen {
      row.errors := row.errors + [WorkloadNeverSeen];
    } else if |waves.injected| != |waves.planned| {
      row.errors := row.errors + [WavesMissing];
    }
    var ineffective := 0;
    for i := 0 to |waves.injected|
      invariant ineffective == Ineffective(waves.injected, i)
    {
      if !waves.injected[i].effective {
        ineffective := ineffective + 1;
      }
    }
    if ineffective > 0 {
      row.notes := row.notes + [IneffectiveWaves(ineffective)];
    }
    if a.meta.Some? && a.meta.value.wavesDropped > 0 {
      row.notes := row.notes + [WavesDropped(a.meta.value.wavesDropped)];
    }
  }

  /** `_check_history_volume`. */
  method CheckHistoryVolume(a: Artifacts, rate: real, row: AttackRow)
    modifies row`ops, row`errors, row`notes
    ensures forall e :: e in row.errors <==>
              e in old(row.errors) || (e in {NoHistory, NoWorkload, EmptyHistory, TooFewCommits}
                                       && Applies(e, Some(a), "", rate))
    ensures row.ops == if a.stats.Some? then Some(a.stats.value.total) else old(row.ops)
    ensures row.notes == old(row.notes) + (if Thin(a, rate) then [ThinHistory] else [])
  {
    if a.stats.None? {
      row.errors := row.errors + [NoHistory];
      return;
    }
    var total, ok := a.stats.value.total, a.stats.value.ok;
    row.ops := Some(total);
    var workers, duration := Workers(a), Duration(a);
    if workers <= 0.0 || duration <= 0.0 {
      row.errors := row.errors + [NoWorkload];
      return;
    }
    var floor := OkFloor(rate, workers, duration);
    if total == 0 {
      row.errors := row.errors + [EmptyHistory];
      return;
    }
    if ok < floor {
      row.errors := row.errors + [TooFewCommits];
      return;
    }
    if ok as real < total as real * THIN_OK_FRACTION {
      row.notes := row.notes + [ThinHistory];
    }
  }

  /** The checks of seed, profile and results at the head of `_row_for`. */
  method CheckRun(a: Artifacts, expectProfile: string, row: AttackRow)
    requires row.errors == []
    modifies row`seed, row`errors
    ensures row.seed == SeedOf(a)
    ensures forall e :: e in row.errors <==>
              e in {NoSeed, NoMeta, WrongProfile, NoResults} && Applies(e, Some(a), expectProfile, 0.0)
  {
    row.seed := SeedOf(a);
    if row.seed == None {
      row.errors := row.errors + [NoSeed];
    }
    if a.meta.None? {
      row.errors := row.errors + [NoMeta];
    } else if expectProfile != "" && a.meta.value.profile != expectProfile {
      row.errors := row.errors + [WrongProfile];
    }
    if a.results.None? {
      row.errors := row.errors + [NoResults];
    }
  }

  /** All that is wrong with the evidence of an attack that ran. */
  method CheckEvidence(a: Artifacts, expectProfile: string, rate: real, row: AttackRow)
    requires row.errors == []
    modifies row`seed, row`ops, row`errors, row`notes
    ensures row.seed == SeedOf(a)
    ensures forall e :: e in row.errors <==> e != NoVerdict && Applies(e, Some(a), expectProfile, rate)
  {
    CheckRun(a, expectProfile, row);
    CheckFaultWaves(a, row);
    CheckHistoryVolume(a, rate, row);
  }

  /** `_row_for`. */
  method RowFor(attack: string, d: Option<Artifacts>, expectProfile: string, rate: real) returns (row: AttackRow)
    ensures fresh(row) && row.attack == attack
    ensures forall e :: e in row.errors <==> Applies(e, d, expectProfile, rate)
    ensures row.valid == LabelOf(d, expectProfile, rate)
    ensures d.Some? ==> row.seed == SeedOf(d.value)
  {
    row := new AttackRow(attack);
    if d.None? {
      row.errors := row.errors + [NeverRan];
      return;
    }
    var a := d.value;
    CheckEvidence(a, expectProfile, rate, row);
    UsableIff(d, expectProfile, rate);
    if a.elle.None? {
      row.errors := row.errors + [NoVerdict];
      return;
    }
    if a.elle.value.opCount.Some? && row.ops.Some? && row.ops != a.elle.value.opCount {
      row.notes := row.notes + [ElleCountDiffers];
    }
    assert row.errors == [] || row.errors[0] in row.errors;
    row.valid := if row.errors != [] then ERROR else VerdictLabel(a.elle.value.valid);
  }

  // ----- The gate -----

  predicate Distinct(names: seq<string>) {
    forall i, j | 0 <= i < j < |names| :: names[i] != names[j]
  }

  /** `list(dict.fromkeys(names))`. */
  method WithoutRepeats(names: seq<string>) returns (kept: seq<string>)
    ensures Distinct(kept) && forall name :: name in kept <==> name in names
  {
    kept := [];
    for i := 0 to |names|
      invariant Distinct(kept) && forall name :: name in kept <==> name in names[..i]
    {
      if names[i] !in kept {
        kept := kept + [names[i]];
      }
    }
    assert names[..|names|] == names;
  }

  function Lookup(dirs: map<string, Artifacts>, attack: string): Option<Artifacts> {
    if attack in dirs then Some(dirs[attack]) else None
  }

  /** The rows report on `attacks`, one each, in order. */
  ghost predicate Reports(rows: seq<AttackRow>, attacks: seq<string>, dirs: map<string, Artifacts>,
                          expectProfile: string, rate: real)
    reads rows
  {
    && |rows| == |attacks|
    && (forall i | 0 <= i < |attacks| ::
          && rows[i].attack == attacks[i]
          && rows[i].valid == LabelOf(Lookup(dirs, attacks[i]), expectProfile, rate)
          && (rows[i].errors == [] <==> attacks[i] in dirs && Usable(dirs[attacks[i]], expectProfile, rate))
          && forall e :: e in rows[i].errors <==> Applies(e, Lookup(dirs, attacks[i]), expectProfile, rate))
  }

  method MakeRows(attacks: seq<string>, dirs: map<string, Artifacts>, expectProfile: string, rate: real)
    returns (rows: seq<AttackRow>)
    ensures Reports(rows, attacks, dirs, expectProfile, rate)
  {
    rows := [];
    for i := 0 to |attacks|
      invariant Reports(rows, attacks[..i], dirs, expectProfile, rate)
    {
      var row := RowFor(attacks[i], Lookup(dirs, attacks[i]), expectProfile, rate);
      UsableIff(Lookup(dirs, attacks[i]), expectProfile, rate);
      assert row.errors == [] || row.errors[0] in row.errors;
      rows := rows + [row];
    }
    assert attacks[..|attacks|] == attacks;
  }

  /** Every expected attack, and every other that left artifacts, gave usable
      evidence and a definite valid verdict. */
  ghost predicate AllProven(expected: seq<string>, dirs: map<string, Artifacts>, expectProfile: string, rate: real) {
    forall attack | attack in expected || attack in dirs ::
      attack in dirs && Usable(dirs[attack], expectProfile, rate) && dirs[attack].elle.value.valid == Some(true)
  }

  /** `main`, from the directories found; `found` lists them in sorted order. */
  method Gate(expected: seq<string>, found: seq<string>, dirs: map<string, Artifacts>, expectProfile: string,
              rate: real)
    returns (exitCode: int, attacks: seq<string>, rows: seq<AttackRow>)
    requires forall attack :: attack in found <==> attack in dirs
    ensures Distinct(attacks) && forall attack :: attack in attacks <==> attack in expected || attack in dirs
    ensures Reports(rows, attacks, dirs, expectProfile, rate)
    ensures exitCode == 0 <==> attacks != [] && AllProven(expected, dirs, expectProfile, rate)
    ensures exitCode == 2 <==>
            || attacks == []
            || exists attack | attack in attacks :: attack !in dirs || !Usable(dirs[attack], expectProfile, rate)
    ensures exitCode in {0, 1, 2}
  {
    if found == [] && expected == [] {
      attacks, rows := [], [];
      return 2, attacks, rows;
    }
    attacks := WithoutRepeats(expected + found);
    rows := MakeRows(attacks, dirs, expectProfile, rate);
    assert attacks != [] by {
      assert expected != [] ==> expected[0] in attacks;
      assert found != [] ==> found[0] in attacks;
    }
    if exists i | 0 <= i < |rows| :: rows[i].errors != [] {
      var i :| 0 <= i < |rows| && rows[i].errors != [];
      assert attacks[i] in attacks;
      return 2, attacks, rows;
    }
    if exists i | 0 <= i < |rows| :: rows[i].valid != PASS {
      var i :| 0 <= i < |rows| && rows[i].valid != PASS;
      assert attacks[i] in attacks;
      return 1, attacks, rows;
    }
    return 0, attacks, rows;
  }

  // ----- What the artifacts must hold -----

  /** The nearest integer to `x`, the even one of two. */
  predicate NearestTo(r: int, x: real) {
    r as real - 0.5 <= x <= r as real + 0.5 && (x - r as real == 0.5 || r as real - x == 0.5 ==> r % 2 == 0)
  }

  /** `v` is what the results record, or the matrix if they record zero, or zero if there is neither. */
  predicate FirstOf(v: real, inResults: Option<real>, inMatrix: Option<real>) {
    if inResults.Some? && inResults.value != 0.0 then v == inResults.value
    else if inMatrix.Some? then v == inMatrix.value
    else v == 0.0
  }

  function InResults(a: Artifacts, field: Results -> real): Option<real> {
    if a.results.Some? then Some(field(a.results.value)) else None
  }

  function InMatrix(a: Artifacts, field: Meta -> real): Option<real> {
    if a.meta.Some? then Some(field(a.meta.value)) else None
  }

  /** The run had `w` workers for `t` seconds. */
  predicate RanWith(a: Artifacts, w: real, t: real) {
    && FirstOf(w, InResults(a, (r: Results) => r.workers), InMatrix(a, (m: Meta) => m.workers))
    && FirstOf(t, InResults(a, (r: Results) => r.duration), InMatrix(a, (m: Meta) => m.duration))
  }

  lemma RanWithThese(a: Artifacts, w: real, t: real)
    ensures RanWith(a, w, t) <==> w == Workers(a) && t == Duration(a)
  {
  }

  lemma OneNearest(r: int, q: int, x: real)
    requires NearestTo(r, x) && NearestTo(q, x)
    ensures r == q
  {
  }

  lemma FloorIs(ok: int, rate: real, w: real, t: real, r: int)
    requires NearestTo(r, rate * w * t)
    ensures ok >= OkFloor(rate, w, t) <==> ok >= 20 && ok >= r
  {
    OneNearest(r, Round(rate * w * t), rate * w * t);
  }

  /** A run of `w` workers for `t` seconds has enough commits exactly if it has twenty and
      the integer nearest to what the rate asks of them. */
  lemma EnoughCommitsIff(a: Artifacts, rate: real, w: real, t: real, r: int)
    requires RanWith(a, w, t) && NearestTo(r, rate * w * t)
    ensures EnoughCommits(a, rate) <==>
            && a.stats.Some? && w > 0.0 && t > 0.0 && a.stats.value.total != 0
            && a.stats.value.ok >= 20 && a.stats.value.ok >= r
    ensures Applies(TooFewCommits, Some(a), "", rate) <==>
            && a.stats.Some? && w > 0.0 && t > 0.0 && a.stats.value.total != 0
            && (a.stats.value.ok < 20 || a.stats.value.ok < r)
  {
    RanWithThese(a, w, t);
    if a.stats.Some? { FloorIs(a.stats.value.ok, rate, w, t, r); }
  }

  /** Less than a quarter of the records committed. */
  lemma ThinIff(a: Artifacts, rate: real)
    ensures Thin(a, rate) <==> EnoughCommits(a, rate) && 4 * a.stats.value.ok < a.stats.value.total
  {
  }

  lemma {:induction false} IneffectiveIs(waves: seq<Wave>, n: nat)
    requires n <= |waves|
    ensures Ineffective(waves, n) == |set i | 0 <= i < n && !waves[i].effective|
  {
    var now := set i | 0 <= i < n && !waves[i].effective;
    if n == 0 {
      assert now == {};
    } else {
      var before := set i | 0 <= i < n - 1 && !waves[i].effective;
      IneffectiveIs(waves, n - 1);
      if waves[n - 1].effective {
        assert now == before;
      } else {
        assert now == before + {n - 1} && n - 1 !in before;
      }
    }
  }

  /** The label is the checker's verdict on usable evidence, and ERROR otherwise. */
  lemma LabelIff(d: Option<Artifacts>, expectProfile: string, rate: real)
    ensures var usable, l := d.Some? && Usable(d.value, expectProfile, rate), LabelOf(d, expectProfile, rate);
            && (l == ERROR <==> !usable)
            && (l == PASS <==> usable && d.value.elle.value.valid == Some(true))
            && (l == FAIL <==> usable && d.value.elle.value.valid == Some(false))
            && (l == UNKNOWN <==> usable && d.value.elle.value.valid == None)
  {
    if d.Some? && d.value.elle.Some? {
      match d.value.elle.value.valid
      case Some(valid) => assert valid || !valid;
      case None =>
    }
  }

  // ----- What exit code 0 is worth -----

  /** Behind exit code 0 every expected attack has its matrix file, of the expected
      profile, its results, a seed to replay with, all planned waves injected into a
      running workload, a valid verdict, and commits in proportion to the workers and
      seconds that are recorded, but twenty at least. */
  lemma GreenHasEvidence(expected: seq<string>, dirs: map<string, Artifacts>, expectProfile: string, rate: real,
                         attack: string, w: real, t: real)
    requires AllProven(expected, dirs, expectProfile, rate) && attack in expected
    ensures attack in dirs
    ensures var a := dirs[attack];
            && a.meta.Some? && (expectProfile != "" ==> a.meta.value.profile == expectProfile) && a.results.Some?
            && SeedRecorded(a) && a.waves.Some? && a.waves.value.markerSeen
            && |a.waves.value.injected| == |a.waves.value.planned|
            && a.elle.Some? && a.elle.value.valid == Some(true) && a.stats.Some? && a.stats.value.ok >= 20
    ensures RanWith(dirs[attack], w, t) ==>
              w > 0.0 && t > 0.0 && dirs[attack].stats.value.ok as real >= rate * w * t - 0.5
  {
    var a := dirs[attack];
    RanWithThese(a, w, t);
    FloorCovers(a.stats.value.ok, rate, Workers(a), Duration(a));
  }

  lemma FloorCovers(ok: int, rate: real, w: real, t: real)
    requires ok >= OkFloor(rate, w, t)
    ensures ok >= 20 && ok as real >= rate * w * t - 0.5
  {
  }

  /** Some artifact records a seed. */
  predicate SeedRecorded(a: Artifacts) {
    (a.meta.Some? && a.meta.value.seed.Some?) || (a.results.Some? && a.results.value.seed.Some?)
  }

  /** A recorded seed is seen unless it is the seed 0 and only the matrix recorded it. */
  lemma SeedIsSeenIff(a: Artifacts)
    ensures SeedOf(a).Some? <==>
            SeedRecorded(a) && !(a.meta.Some? && a.meta.value.seed == Some(0)
                                 && !(a.results.Some? && a.results.value.seed.Some?))
    ensures a.meta.Some? && a.meta.value.seed.Some? && a.meta.value.seed != Some(0) ==> SeedOf(a) == a.meta.value.seed
  {
  }

  /** A run whose matrix file records the seed 0 and whose results record none. */
  const SEED_ZERO := Artifacts(Some(Meta(Some(0), "", 1.0, 1.0, 0)), Some(Results(None, 1.0, 1.0)), None, None, None)

  lemma SeedZeroIsMissed()
    ensures SeedRecorded(SEED_ZERO) && Applies(NoSeed, Some(SEED_ZERO), "", 0.5)
  {
  }
}
