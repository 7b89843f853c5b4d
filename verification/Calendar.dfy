/** The proleptic Gregorian calendar, day by day, and the closed form that
    `build.rs` uses in its place. */
module Calendar {

  newtype I64 = x: int | -0x8000_0000_0000_0000 <= x < 0x8000_0000_0000_0000

  datatype Date = Date(year: int, month: int, day: int)

  // ----- The reference calendar -----

  /** The leap-year rule of Appendix C of RFC 3339. */
  predicate IsLeap(year: int) {
    year % 4 == 0 && (year % 100 != 0 || year % 400 == 0)
  }

  function DaysInMonth(year: int, month: int): int {
    if month == 2 then if IsLeap(year) then 29 else 28
    else if month == 4 || month == 6 || month == 9 || month == 11 then 30
    else 31
  }

  predicate Valid(d: Date) {
    1 <= d.month <= 12 && 1 <= d.day <= DaysInMonth(d.year, d.month)
  }

  function NextDay(d: Date): Date {
    if d.day < DaysInMonth(d.year, d.month) then Date(d.year, d.month, d.day + 1)
    else if d.month < 12 then Date(d.year, d.month + 1, 1)
    else Date(d.year + 1, 1, 1)
  }

  function PrevDay(d: Date): Date {
    if d.day > 1 then Date(d.year, d.month, d.day - 1)
    else if d.month > 1 then Date(d.year, d.month - 1, DaysInMonth(d.year, d.month - 1))
    else Date(d.year - 1, 12, 31)
  }

  const EPOCH := Date(1970, 1, 1)

  /** The date reached by walking `n` days from 1970-01-01, backwards when `n` is negative. */
  function Walk(n: int): Date
    decreases if n < 0 then -n else n
  {
    if n == 0 then EPOCH
    else if n > 0 then NextDay(Walk(n - 1))
    else PrevDay(Walk(n + 1))
  }

  // ----- The closed form -----

  /** Rust's `/`, which truncates toward zero, by a positive divisor. */
  function TruncDiv(a: I64, b: I64): I64
    requires b > 0
  {
    if a >= 0 || a % b == 0 then a / b else a / b + 1
  }

  /** The 400-year era of a day number counted from 0000-03-01. The source gets a
      floored quotient out of a truncating division. */
  function Era(z: I64): (era: I64)
    requires z >= -0x8000_0000_0000_0000 + 146_096
    ensures era as int == z as int / 146_097
  {
    TruncDiv(if z >= 0 then z else z - 146_096, 146_097)
  }

  /** `civil_from_days`. Every intermediate value is an `I64`, so accepting this
      definition is the proof that no step overflows. */
  function CivilFromDays(days: I64): Date
    requires days <= 0x7FFF_FFFF_FFFF_FFFF - 719_468
  {
    var (y, doy) := YearAndDay(days);
    DateInYear(y, doy)
  }

  /** The first six lines of `civil_from_days`: the year, counted from March, and
      the day of it. From `doe` on nothing is negative, where Rust's `/` and
      Dafny's agree. */
  function YearAndDay(days: I64): (r: (I64, I64))
    requires days <= 0x7FFF_FFFF_FFFF_FFFF - 719_468
    ensures r.0 < 0x7FFF_FFFF_FFFF_FFFF && 0 <= r.1 <= 365
    ensures
      var era, doe := (days as int + 719_468) / 146_097, (days as int + 719_468) % 146_097;
      r.0 as int == YearOfEra(doe) + 400 * era && r.1 as int == doe - YearStart(YearOfEra(doe))
  {
    var z := days + 719_468;
    var era := Era(z);
    var doe := z - era * 146_097;
    assert doe as int == (days as int + 719_468) % 146_097;
    var yoe := EraYear(doe);
    var y := yoe + era * 400;
    var doy := doe - (365 * yoe + yoe / 4 - yoe / 100);
    (y, doy)
  }

  function EraYear(doe: I64): (yoe: I64)
    requires 0 <= doe <= 146_096
    ensures yoe as int == YearOfEra(doe as int)
    ensures 0 <= yoe <= 399 && YearStart(yoe as int) <= doe as int <= YearStart(yoe as int) + 365
  {
    YearOfEraIsTheYear(doe as int);
    (doe - doe / 1460 + doe / 36_524 - doe / 146_096) / 365
  }

  /** The last three lines of `civil_from_days`: year `y` is counted from March. */
  function DateInYear(y: I64, doy: I64): (date: Date)
    requires y < 0x7FFF_FFFF_FFFF_FFFF && 0 <= doy <= 365
    ensures date == FromMarch(y as int, doy as int)
  {
    var mp := (5 * doy + 2) / 153;
    var d := doy - (153 * mp + 2) / 5 + 1;
    var m := if mp < 10 then mp + 3 else mp - 9;
    Date((if m <= 2 then y + 1 else y) as int, m as int, d as int)
  }

  // ----- Why they agree -----

  // The algorithm counts years from March, so that a leap day ends its year.
  // Year `y` of a 400-year era starts on day `YearStart(y)` of that era.
  function YearOfEra(doe: int): int {
    (doe - doe / 1460 + doe / 36_524 - doe / 146_096) / 365
  }

  function YearStart(y: int): int {
    365 * y + y / 4 - y / 100
  }

  function YearLength(y: int): int {
    if IsLeap(y + 1) then 366 else 365
  }

  /** The date `doy` days after 1 March of year `y`. */
  function FromMarch(y: int, doy: int): Date {
    var mp := (5 * doy + 2) / 153;
    var m := if mp < 10 then mp + 3 else mp - 9;
    Date(if m <= 2 then y + 1 else y, m, doy - (153 * mp + 2) / 5 + 1)
  }

  // One century of an era, with the quotients as variables.
  lemma WithinCentury(c: int, doe: int, q: int, y: int)
    requires 0 <= c <= 3 && 36_524 * c <= doe <= 36_524 * c + 36_523 + c / 3
    requires q == doe / 1460 && y == (doe - q + c) / 365
    ensures 100 * c <= y <= 100 * c + 99
    ensures 365 * y + y / 4 - c <= doe <= 365 * y + y / 4 - c + 365
    ensures doe == 365 * y + y / 4 - c + 365 ==> y % 4 == 3 && (y != 100 * c + 99 || c == 3)
  {
    assert 100 * c <= y <= 100 * c + 99;
    assert 365 * y + y / 4 - c <= doe;
  }

  lemma LeapWithinCentury(c: int, y: int)
    requires 0 <= c <= 3 && 100 * c <= y <= 100 * c + 99
    ensures y / 100 == c
    ensures y % 4 == 3 && (y != 100 * c + 99 || c == 3) ==> IsLeap(y + 1)
  {
  }

  lemma YearOfEraIsTheYear(doe: int)
    requires 0 <= doe <= 146_096
    ensures 0 <= YearOfEra(doe) <= 399
    ensures YearStart(YearOfEra(doe)) <= doe < YearStart(YearOfEra(doe)) + YearLength(YearOfEra(doe))
  {
    var c := doe / 36_524 - doe / 146_096;
    WithinCentury(c, doe, doe / 1460, YearOfEra(doe));
    LeapWithinCentury(c, YearOfEra(doe));
  }

  predicate InYear(y: int, doe: int) {
    0 <= y <= 399 && YearStart(y) <= doe < YearStart(y) + YearLength(y)
  }

  lemma NextYearStart(y: int)
    requires 0 <= y <= 399
    ensures YearStart(y) + YearLength(y) == if y < 399 then YearStart(y + 1) else 146_097
  {
    assert (y + 1) / 4 == y / 4 + if y % 4 == 3 then 1 else 0;
    assert (y + 1) / 100 == y / 100 + if y % 100 == 99 then 1 else 0;
    assert (y + 1) % 4 == 0 <==> y % 4 == 3;
    assert (y + 1) % 100 == 0 <==> y % 100 == 99;
    assert (y + 1) % 400 == 0 <==> y == 399;
  }

  // The years of an era follow each other, so a day lies in only one of them.
  lemma {:induction false} YearsAscend(y: int, y': int)
    requires 0 <= y < y' <= 399
    ensures YearStart(y) + YearLength(y) <= YearStart(y')
    decreases y' - y
  {
    NextYearStart(y);
    if y + 1 < y' {
      YearsAscend(y + 1, y');
    }
  }

  lemma YearOfEraUnique(y: int, doe: int)
    requires 0 <= doe <= 146_096 && InYear(y, doe)
    ensures YearOfEra(doe) == y
  {
    YearOfEraIsTheYear(doe);
    var y' := YearOfEra(doe);
    if y < y' { YearsAscend(y, y'); } else if y' < y { YearsAscend(y', y); }
  }

  function MonthStart(mp: int): int {
    (153 * mp + 2) / 5
  }

  // The month that day `doy` falls in is the one whose days it lies between.
  lemma MonthFromMarch(mp: int, doy: int)
    ensures mp == (5 * doy + 2) / 153 <==> MonthStart(mp) <= doy < MonthStart(mp + 1)
  {
  }

  lemma MonthLengths(mp: int)
    requires 0 <= mp <= 10
    ensures MonthStart(mp + 1) == MonthStart(mp) + if mp == 1 || mp == 3 || mp == 6 || mp == 8 then 30 else 31
  {
  }

  predicate Follows(a: Date, b: Date) {
    Valid(a) && b == NextDay(a)
  }

  lemma FromMarchSteps(y: int, doy: int)
    requires 0 <= doy < YearLength(y)
    ensures Follows(FromMarch(y, doy), if doy + 1 < YearLength(y) then FromMarch(y, doy + 1) else FromMarch(y + 1, 0))
  {
    var mp := (5 * doy + 2) / 153;
    assert 0 <= mp <= 11;
    MonthFromMarch(mp, doy);
    if mp < 11 {
      MonthLengths(mp);
    } else {
      assert MonthStart(11) + DaysInMonth(y + 1, 2) == YearLength(y);
    }
    MonthFromMarch(if doy + 1 < MonthStart(mp + 1) then mp else mp + 1, doy + 1);
  }

  lemma FromMarchIsAYear()
    ensures forall era, y, doy | 0 <= y <= 399 && 0 <= doy < YearLength(y) ::
            NextInYear(FromMarch, Follows, era, y, doy)
  {
    forall era, y, doy | 0 <= y <= 399 && 0 <= doy < YearLength(y)
      ensures NextInYear(FromMarch, Follows, era, y, doy)
    {
      LeapYearsRepeat(y + 1, era);
      FromMarchSteps(y + 400 * era, doy);
    }
  }

  lemma EpochIsDayZero()
    ensures OnEraDay(FromMarch, 719_468 / 146_097, 719_468 % 146_097) == EPOCH
  {
    assert 719_468 / 146_097 == 4 && 719_468 % 146_097 == 135_080;
    assert InYear(369, 135_080);
    YearOfEraUnique(369, 135_080);
    assert FromMarch(1969, 306) == EPOCH;
  }

  lemma QuadsRepeat(year: int, k: int)
    ensures (year + 4 * k) % 4 == year % 4
  {
  }

  lemma CenturiesRepeat(year: int, k: int)
    ensures (year + 100 * k) % 100 == year % 100
  {
  }

  lemma LeapYearsRepeat(year: int, era: int)
    ensures IsLeap(year + 400 * era) == IsLeap(year)
  {
    QuadsRepeat(year, 100 * era);
    CenturiesRepeat(year, 4 * era);
    ErasRepeat(year, era);
  }

  lemma ErasRepeat(year: int, k: int)
    ensures (year + 400 * k) % 400 == year % 400
  {
  }

  // The next lemmas take the layers below and above them as arguments, so that
  // each proof sees one layer of the arithmetic.

  type Step = (Date, Date) -> bool

  function OnEraDay(fromMarch: (int, int) -> Date, era: int, doe: int): Date {
    fromMarch(YearOfEra(doe) + 400 * era, doe - YearStart(YearOfEra(doe)))
  }

  lemma YearOf(doe: int) returns (y: int)
    requires 0 <= doe <= 146_096
    ensures InYear(y, doe)
  {
    y := YearOfEra(doe);
    YearOfEraIsTheYear(doe);
  }

  predicate NextInYear(f: (int, int) -> Date, follows: Step, era: int, y: int, doy: int) {
    follows(f(y + 400 * era, doy),
            if doy + 1 < YearLength(y) then f(y + 400 * era, doy + 1) else f(y + 400 * era + 1, 0))
  }

  predicate NextInEra(f: (int, int) -> Date, follows: Step, era: int, doe: int) {
    follows(f(era, doe), if doe < 146_096 then f(era, doe + 1) else f(era + 1, 0))
  }

  predicate OnDay(on: (int, int) -> Date, fromMarch: (int, int) -> Date, era: int, y: int, doe: int) {
    on(era, doe) == fromMarch(y + 400 * era, doe - YearStart(y))
  }

  lemma EraDaySteps(on: (int, int) -> Date, fromMarch: (int, int) -> Date, follows: Step, era: int, doe: int)
    requires forall era, y, doe | 0 <= doe <= 146_096 && InYear(y, doe) :: OnDay(on, fromMarch, era, y, doe)
    requires forall era, y, doy | 0 <= y <= 399 && 0 <= doy < YearLength(y) ::
             NextInYear(fromMarch, follows, era, y, doy)
    requires 0 <= doe <= 146_096
    ensures NextInEra(on, follows, era, doe)
  {
    var y := YearOf(doe);
    assert OnDay(on, fromMarch, era, y, doe);
    assert NextInYear(fromMarch, follows, era, y, doe - YearStart(y));
    NextYearStart(y);
    if doe == 146_096 {
      assert OnDay(on, fromMarch, era + 1, 0, 0);
    } else {
      assert OnDay(on, fromMarch, era, if doe + 1 < YearStart(y) + YearLength(y) then y else y + 1, doe + 1);
    }
  }

  function ByEra(f: (int, int) -> Date): int -> Date {
    days => f((days + 719_468) / 146_097, (days + 719_468) % 146_097)
  }

  lemma EraDaysWalk(f: (int, int) -> Date, days: int)
    requires ByEra(f)(0) == EPOCH
    requires forall era, doe | 0 <= doe <= 146_096 :: NextInEra(f, Follows, era, doe)
    ensures ByEra(f)(days) == Walk(days)
  {
    forall k ensures Follows(ByEra(f)(k), ByEra(f)(k + 1)) {
      assert NextInEra(f, Follows, (k + 719_468) / 146_097, (k + 719_468) % 146_097);
    }
    WalkIsUnique(ByEra(f), days);
  }

  lemma PrevUndoesNext(d: Date)
    requires Valid(d)
    ensures Valid(NextDay(d)) && PrevDay(NextDay(d)) == d
  {
  }

  /** The walk is the only way to number the days that starts at the epoch and
      goes from each date to the next. */
  lemma {:induction false} WalkIsUnique(f: int -> Date, n: int)
    requires f(0) == EPOCH
    requires forall k :: Follows(f(k), f(k + 1))
    ensures f(n) == Walk(n)
    decreases if n < 0 then -n else n
  {
    if n > 0 {
      WalkIsUnique(f, n - 1);
      assert Follows(f(n - 1), f(n - 1 + 1));
    } else if n < 0 {
      WalkIsUnique(f, n + 1);
      assert Follows(f(n), f(n + 1));
      PrevUndoesNext(f(n));
    }
  }

  /** The closed form is the calendar: it yields the valid date that walking one
      day at a time from 1970-01-01 reaches, for every day count that does not
      overflow the first addition. */
  lemma CivilFromDaysWalksTheCalendar(days: I64)
    requires days <= 0x7FFF_FFFF_FFFF_FFFF - 719_468
    ensures CivilFromDays(days) == Walk(days as int)
    ensures Valid(Walk(days as int))
  {
    CivilWalks(days as int);
    ClosedForm(days);
    WalkIsValid(days as int);
  }

  lemma ClosedForm(days: I64)
    requires days <= 0x7FFF_FFFF_FFFF_FFFF - 719_468
    ensures CivilFromDays(days) == ByEra((era, doe) => OnEraDay(FromMarch, era, doe))(days as int)
  {
    var (y, doy) := YearAndDay(days);
    ByEraOf(FromMarch, days as int, y as int, doy as int);
  }

  lemma ByEraOf(fromMarch: (int, int) -> Date, days: int, y: int, doy: int)
    requires var era, doe := (days + 719_468) / 146_097, (days + 719_468) % 146_097;
             y == YearOfEra(doe) + 400 * era && doy == doe - YearStart(YearOfEra(doe))
    ensures ByEra((era, doe) => OnEraDay(fromMarch, era, doe))(days) == fromMarch(y, doy)
  {
  }

  lemma CivilWalks(days: int)
    ensures ByEra((era, doe) => OnEraDay(FromMarch, era, doe))(days) == Walk(days)
  {
    FromMarchIsAYear();
    EpochIsDayZero();
    MarchDaysWalk(FromMarch, days);
  }

  lemma MarchDaysWalk(fromMarch: (int, int) -> Date, days: int)
    requires OnEraDay(fromMarch, 719_468 / 146_097, 719_468 % 146_097) == EPOCH
    requires forall era, y, doy | 0 <= y <= 399 && 0 <= doy < YearLength(y) ::
             NextInYear(fromMarch, Follows, era, y, doy)
    ensures ByEra((era, doe) => OnEraDay(fromMarch, era, doe))(days) == Walk(days)
  {
    var civil := (era, doe) => OnEraDay(fromMarch, era, doe);
    forall era, y, doe | 0 <= doe <= 146_096 && InYear(y, doe) ensures OnDay(civil, fromMarch, era, y, doe) {
      YearOfEraUnique(y, doe);
    }
    forall era, doe | 0 <= doe <= 146_096 ensures NextInEra(civil, Follows, era, doe) {
      EraDaySteps(civil, fromMarch, Follows, era, doe);
    }
    EraDaysWalk(civil, days);
  }

  /** The date of a day whose era and March-based year are known. */
  lemma WalkTo(days: int, era: int, y: int, doe: int)
    requires days + 719_468 == 146_097 * era + doe && 0 <= doe <= 146_096 && InYear(y, doe)
    ensures Walk(days) == FromMarch(y + 400 * era, doe - YearStart(y))
  {
    CivilWalks(days);
    ByEraKnown(FromMarch, days, era, y, doe);
  }

  lemma EraAndDay(z: int, era: int, doe: int)
    requires z == 146_097 * era + doe && 0 <= doe <= 146_096
    ensures z / 146_097 == era && z % 146_097 == doe
  {
  }

  lemma ByEraKnown(fromMarch: (int, int) -> Date, days: int, era: int, y: int, doe: int)
    requires days + 719_468 == 146_097 * era + doe && 0 <= doe <= 146_096 && InYear(y, doe)
    ensures ByEra((era, doe) => OnEraDay(fromMarch, era, doe))(days) == fromMarch(y + 400 * era, doe - YearStart(y))
  {
    EraAndDay(days + 719_468, era, doe);
    YearOfEraUnique(y, doe);
    ByEraOf(fromMarch, days, y + 400 * era, doe - YearStart(y));
  }

  lemma NextUndoesPrev(d: Date)
    requires Valid(d)
    ensures Valid(PrevDay(d)) && NextDay(PrevDay(d)) == d
  {
  }

  lemma {:induction false} WalkIsValid(n: int)
    ensures Valid(Walk(n))
    decreases if n < 0 then -n else n
  {
    if n > 0 {
      WalkIsValid(n - 1);
      PrevUndoesNext(Walk(n - 1));
    } else if n < 0 {
      WalkIsValid(n + 1);
      NextUndoesPrev(Walk(n + 1));
    }
  }

  lemma WalkSteps(n: int)
    ensures Valid(Walk(n)) && Walk(n + 1) == NextDay(Walk(n))
  {
    WalkIsValid(n);
    if n < 0 {
      WalkIsValid(n + 1);
      NextUndoesPrev(Walk(n + 1));
    }
  }

  // ----- Counting days by the calendar -----

  function DaysInYear(year: int): int {
    if IsLeap(year) then 366 else 365
  }

  /** Days from 1970-01-01 to 1 January of `year`, by adding up year lengths. */
  function DaysBeforeYear(year: int): int
    decreases if year < 1970 then 1970 - year else year - 1970
  {
    if year == 1970 then 0
    else if year > 1970 then DaysBeforeYear(year - 1) + DaysInYear(year - 1)
    else DaysBeforeYear(year + 1) - DaysInYear(year)
  }

  /** Days from 1 January to the first of `month`, by adding up month lengths. */
  function DaysBeforeMonth(year: int, month: int): int {
    if month <= 1 then 0 else DaysBeforeMonth(year, month - 1) + DaysInMonth(year, month - 1)
  }

  function DayCount(d: Date): int {
    DaysBeforeYear(d.year) + DaysBeforeMonth(d.year, d.month) + d.day - 1
  }

  lemma WholeYear(year: int)
    ensures DaysBeforeMonth(year, 12) + 31 == DaysInYear(year)
    ensures DaysBeforeYear(year + 1) == DaysBeforeYear(year) + DaysInYear(year)
  {
    assert DaysBeforeMonth(year, 2) == 31;
    assert DaysBeforeMonth(year, 3) == 31 + DaysInMonth(year, 2);
    assert DaysBeforeMonth(year, 5) == DaysBeforeMonth(year, 3) + 61;
    assert DaysBeforeMonth(year, 7) == DaysBeforeMonth(year, 5) + 61;
    assert DaysBeforeMonth(year, 9) == DaysBeforeMonth(year, 7) + 62;
    assert DaysBeforeMonth(year, 11) == DaysBeforeMonth(year, 9) + 61;
  }

  lemma DayCountSteps(d: Date)
    requires Valid(d)
    ensures DayCount(NextDay(d)) == DayCount(d) + 1
  {
    WholeYear(d.year);
  }

  /** Counting days along the calendar undoes the walk, so no two day numbers share a date. */
  lemma {:induction false} DayCountUndoesWalk(n: int)
    ensures DayCount(Walk(n)) == n
    decreases if n < 0 then -n else n
  {
    if n > 0 {
      DayCountUndoesWalk(n - 1);
      WalkSteps(n - 1);
      DayCountSteps(Walk(n - 1));
    } else if n < 0 {
      DayCountUndoesWalk(n + 1);
      WalkSteps(n);
      DayCountSteps(Walk(n));
    }
  }

  predicate Before(a: Date, b: Date) {
    a.year < b.year || (a.year == b.year && (a.month < b.month || (a.month == b.month && a.day < b.day)))
  }

  lemma {:induction false} WalkIsIncreasing(m: int, n: int)
    requires m < n
    ensures Before(Walk(m), Walk(n))
    decreases n - m
  {
    WalkSteps(n - 1);
    if m < n - 1 {
      WalkIsIncreasing(m, n - 1);
    }
  }
}
