/** The build stamp of `build.rs`: Unix seconds as `YYYY-MM-DDTHH:MM:SSZ`, the
    form of section 5.6 of RFC 3339. */
module BuildStamp {
  import opened Calendar
  import opened Sequences

  datatype Stamp = Stamp(date: Date, hour: int, minute: int, second: int)

  /** The six fields of `iso8601_utc`. `div_euclid` and `rem_euclid` are Dafny's `/` and `%`. */
  function Fields(secs: I64): Stamp {
    AtTime(CivilFromDays(secs / 86_400), (secs % 86_400) as int)
  }

  function AtTime(date: Date, rem: int): Stamp {
    Stamp(date, rem / 3600, (rem % 3600) / 60, rem % 60)
  }

  // ----- The fields against the calendar -----

  /** Seconds since the epoch, counting the days of the date along the calendar. */
  function CountSeconds(t: Stamp): int {
    DayCount(t.date) * 86_400 + t.hour * 3600 + t.minute * 60 + t.second
  }

  predicate InRange(t: Stamp) {
    Valid(t.date) && 0 <= t.hour < 24 && 0 <= t.minute < 60 && 0 <= t.second < 60
  }

  predicate Earlier(a: Stamp, b: Stamp) {
    || Before(a.date, b.date)
    || (a.date == b.date && (a.hour < b.hour || (a.hour == b.hour &&
       (a.minute < b.minute || (a.minute == b.minute && a.second < b.second)))))
  }

  lemma Clock(rem: int)
    requires 0 <= rem < 86_400
    ensures var h, m, s := rem / 3600, (rem % 3600) / 60, rem % 60;
            0 <= h < 24 && 0 <= m < 60 && 0 <= s < 60 && rem == 3600 * h + 60 * m + s
  {
  }

  lemma TimeOfDay(date: Date, rem: int)
    requires Valid(date) && 0 <= rem < 86_400
    ensures InRange(AtTime(date, rem))
    ensures CountSeconds(AtTime(date, rem)) == DayCount(date) * 86_400 + rem
  {
    Clock(rem);
  }

  lemma ClockIncreases(h: int, m: int, s: int, h': int, m': int, s': int)
    requires 0 <= m < 60 && 0 <= s < 60 && 0 <= m' < 60 && 0 <= s' < 60
    ensures 3600 * h + 60 * m + s < 3600 * h' + 60 * m' + s' <==> h < h' || (h == h' && (m < m' || (m == m' && s < s')))
  {
  }

  lemma TimesIncrease(d: int, rem: int, d': int, rem': int)
    requires 0 <= rem < 86_400 && 0 <= rem' < 86_400
    ensures d < d' || (d == d' && rem < rem') <==> Earlier(AtTime(Walk(d), rem), AtTime(Walk(d'), rem'))
  {
    if d < d' {
      WalkIsIncreasing(d, d');
    } else if d' < d {
      WalkIsIncreasing(d', d);
    } else {
      Clock(rem);
      Clock(rem');
      ClockIncreases(rem / 3600, (rem % 3600) / 60, rem % 60, rem' / 3600, (rem' % 3600) / 60, rem' % 60);
    }
  }

  lemma FieldsOnCalendar(secs: I64)
    ensures Fields(secs) == AtTime(Walk(secs as int / 86_400), secs as int % 86_400)
    ensures Valid(Walk(secs as int / 86_400))
  {
    CivilFromDaysWalksTheCalendar(secs / 86_400);
  }

  lemma DayAndTime(secs: int)
    ensures secs == (secs / 86_400) * 86_400 + secs % 86_400 && 0 <= secs % 86_400 < 86_400
  {
  }

  lemma CountsBack(f: I64 -> Stamp, secs: I64, d: int, rem: int)
    requires f(secs) == AtTime(Walk(d), rem) && Valid(Walk(d)) && 0 <= rem < 86_400 && secs as int == d * 86_400 + rem
    ensures InRange(f(secs)) && CountSeconds(f(secs)) == secs as int
  {
    TimeOfDay(Walk(d), rem);
    DayCountUndoesWalk(d);
  }

  /** The fields name a real instant and determine the input. */
  lemma FieldsCountBack(secs: I64)
    ensures InRange(Fields(secs))
    ensures CountSeconds(Fields(secs)) == secs as int
  {
    FieldsOnCalendar(secs);
    DayAndTime(secs as int);
    CountsBack(Fields, secs, secs as int / 86_400, secs as int % 86_400);
  }

  /** The fields compare, year first, as the seconds do. */
  lemma FieldsIncrease(a: I64, b: I64)
    ensures a < b <==> Earlier(Fields(a), Fields(b))
  {
    FieldsOnCalendar(a);
    FieldsOnCalendar(b);
    TimesIncrease(a as int / 86_400, a as int % 86_400, b as int / 86_400, b as int % 86_400);
  }

  // ----- Text -----

  function Digit(n: int): char
    requires 0 <= n <= 9
  {
    '0' + n as char
  }

  /** Decimal digits of `n`, zero-padded on the left to at least `width`. */
  function Padded(n: nat, width: nat): string
    decreases n, width
  {
    if n == 0 && width == 0 then ""
    else Padded(n / 10, if width == 0 then 0 else width - 1) + [Digit(n % 10)]
  }

  /** Rust's `{:04}`: the sign counts towards the width. */
  function YearText(year: int): string {
    if year >= 0 then Padded(year, 4) else "-" + Padded(-year, 3)
  }

  function Text(t: Stamp): string
    requires InRange(t)
  {
    YearText(t.date.year) + AfterYear(t)
  }

  function AfterYear(t: Stamp): string
    requires InRange(t)
  {
    "-" + Padded(t.date.month, 2) + "-" + Padded(t.date.day, 2) + "T"
    + Padded(t.hour, 2) + ":" + Padded(t.minute, 2) + ":" + Padded(t.second, 2) + "Z"
  }

  /** `iso8601_utc`. */
  function Iso8601Utc(secs: I64): string {
    FieldsCountBack(secs);
    Text(Fields(secs))
  }

  // ----- Reading the text back -----

  function Value(digits: string): int {
    if digits == "" then 0
    else Value(digits[..|digits| - 1]) * 10 + (digits[|digits| - 1] as int - '0' as int)
  }

  function YearValue(text: string): int {
    if text != "" && text[0] == '-' then -Value(text[1..]) else Value(text)
  }

  /** Everything but the year has a fixed place, counted from the end. */
  function Parse(text: string): Stamp
    requires |text| >= 16
  {
    var rest := text[|text| - 16..];
    Stamp(Date(YearValue(text[..|text| - 16]), Value(rest[1..3]), Value(rest[4..6])),
          Value(rest[7..9]), Value(rest[10..12]), Value(rest[13..15]))
  }

  lemma {:induction false} PaddedValue(n: nat, width: nat)
    ensures Value(Padded(n, width)) == n
    ensures |Padded(n, width)| >= width
    ensures forall c | c in Padded(n, width) :: '0' <= c <= '9'
    decreases n, width
  {
    if n > 0 || width > 0 {
      var rest := Padded(n / 10, if width == 0 then 0 else width - 1);
      PaddedValue(n / 10, if width == 0 then 0 else width - 1);
      assert Padded(n, width)[..|rest|] == rest;
    }
  }

  lemma TwoDigits(n: int)
    requires 0 <= n < 100
    ensures Padded(n, 2) == [Digit(n / 10), Digit(n % 10)]
    ensures Value(Padded(n, 2)) == n
  {
    assert Padded(n / 10, 1) == [Digit(n / 10)];
    PaddedValue(n, 2);
  }

  lemma YearTextValue(year: int)
    ensures YearValue(YearText(year)) == year
  {
    if year >= 0 {
      PaddedValue(year, 4);
      assert Padded(year, 4)[0] in Padded(year, 4);
    } else {
      PaddedValue(-year, 3);
    }
  }

  /** The fixed characters between the digits, as section 5.6 of RFC 3339 places them. */
  predicate HasSeparators(rest: string) {
    |rest| == 16 && rest[0] == rest[3] == '-' && rest[6] == 'T' && rest[9] == rest[12] == ':' && rest[15] == 'Z'
  }

  predicate IsDigit(c: char) {
    '0' <= c <= '9'
  }

  lemma AfterYearParts(t: Stamp)
    requires InRange(t)
    ensures |AfterYear(t)| == 16
    ensures AfterYear(t)[1..3] == Padded(t.date.month, 2) && AfterYear(t)[4..6] == Padded(t.date.day, 2)
    ensures AfterYear(t)[7..9] == Padded(t.hour, 2) && AfterYear(t)[10..12] == Padded(t.minute, 2)
    ensures AfterYear(t)[13..15] == Padded(t.second, 2) && HasSeparators(AfterYear(t))
  {
    TwoDigits(t.date.month);
    TwoDigits(t.date.day);
    TwoDigits(t.hour);
    TwoDigits(t.minute);
    TwoDigits(t.second);
    var month, day := Padded(t.date.month, 2), Padded(t.date.day, 2);
    var hour, minute, second := Padded(t.hour, 2), Padded(t.minute, 2), Padded(t.second, 2);
    var fromSecond := ":" + second + "Z";
    var fromMinute := ":" + minute + fromSecond;
    var fromHour := "T" + hour + fromMinute;
    var fromDay := "-" + day + fromHour;
    assert AfterYear(t) == "-" + month + fromDay;
    FieldOf(AfterYear(t), "-", month, fromDay, 0);
    FieldOf(AfterYear(t), "-", day, fromHour, 3);
    FieldOf(AfterYear(t), "T", hour, fromMinute, 6);
    FieldOf(AfterYear(t), ":", minute, fromSecond, 9);
    FieldOf(AfterYear(t), ":", second, "Z", 12);
  }

  /** A separator and two digits at position `at`, and what follows them. */
  lemma FieldOf(text: string, sep: string, digits: string, rest: string, at: nat)
    requires |sep| == 1 && |digits| == 2 && at <= |text| && text[at..] == sep + digits + rest
    ensures at + 3 <= |text| && text[at + 1..at + 3] == digits && text[at + 3..] == rest && text[at] == sep[0]
  {
    assert text[at + 1..at + 3] == text[at..][1..3] && text[at + 3..] == text[at..][3..] && text[at] == text[at..][0];
  }

  lemma ParseText(t: Stamp)
    requires InRange(t)
    ensures |Text(t)| >= 16 && Parse(Text(t)) == t
  {
    AfterYearParts(t);
    YearTextValue(t.date.year);
    var y := YearText(t.date.year);
    assert Text(t)[..|y|] == y && Text(t)[|y|..] == AfterYear(t);
    TwoDigits(t.date.month);
    TwoDigits(t.date.day);
    TwoDigits(t.hour);
    TwoDigits(t.minute);
    TwoDigits(t.second);
  }

  /** Reading a stamp back and counting days returns the seconds it was made
      from, so no two build moments share a stamp. */
  lemma StampRoundTrip(secs: I64)
    ensures |Iso8601Utc(secs)| >= 16 && CountSeconds(Parse(Iso8601Utc(secs))) == secs as int
  {
    FieldsCountBack(secs);
    ParseText(Fields(secs));
  }

  lemma YearShape(year: int)
    ensures |YearText(year)| >= 4 && forall i | 0 < i < |YearText(year)| :: IsDigit(YearText(year)[i])
    ensures IsDigit(YearText(year)[0]) <==> year >= 0
    ensures year < 0 ==> YearText(year)[0] == '-'
  {
    PaddedValue(if year >= 0 then year else -year, if year >= 0 then 4 else 3);
    var digits := if year >= 0 then Padded(year, 4) else Padded(-year, 3);
    forall i | 0 <= i < |digits| ensures IsDigit(digits[i]) { assert digits[i] in digits; }
  }

  /** Month, day, hour, minute and second as two digits each in their frame. */
  predicate IsFrame(rest: string) {
    && HasSeparators(rest) && IsDigit(rest[1]) && IsDigit(rest[2]) && IsDigit(rest[4]) && IsDigit(rest[5])
    && IsDigit(rest[7]) && IsDigit(rest[8]) && IsDigit(rest[10]) && IsDigit(rest[11]) && IsDigit(rest[13])
    && IsDigit(rest[14])
  }

  lemma AfterYearShape(t: Stamp)
    requires InRange(t)
    ensures IsFrame(AfterYear(t))
  {
    var rest := AfterYear(t);
    AfterYearParts(t);
    TwoShape(t.date.month, rest, 1);
    TwoShape(t.date.day, rest, 4);
    TwoShape(t.hour, rest, 7);
    TwoShape(t.minute, rest, 10);
    TwoShape(t.second, rest, 13);
  }

  /** A stamp is a year of four digits or more, or a minus sign and three or more, and
      the rest in its frame. */
  lemma StampShape(secs: I64)
    ensures var text := Iso8601Utc(secs);
            && |text| >= 20 && IsFrame(text[|text| - 16..])
            && (forall i | 0 < i < |text| - 16 :: IsDigit(text[i])) && (IsDigit(text[0]) || text[0] == '-')
  {
    FieldsCountBack(secs);
    var t := Fields(secs);
    var y := YearText(t.date.year);
    YearShape(t.date.year);
    AfterYearShape(t);
    assert Text(t)[|y|..] == AfterYear(t) && Text(t)[..|y|] == y;
    forall i | 0 <= i < |y| ensures Text(t)[i] == y[i] { assert Text(t)[..|y|][i] == y[i]; }
  }

  lemma TwoShape(n: int, rest: string, at: nat)
    requires 0 <= n < 100 && at + 2 <= |rest| && rest[at..at + 2] == Padded(n, 2)
    ensures IsDigit(rest[at]) && IsDigit(rest[at + 1])
  {
    TwoDigits(n);
    assert rest[at] == rest[at..at + 2][0] && rest[at + 1] == rest[at..at + 2][1];
  }

  // ----- Sorting the text -----

  /** Strict lexicographic order, as a text sort uses it. */
  predicate Lex(a: string, b: string) {
    b != "" && (a == "" || a[0] < b[0] || (a[0] == b[0] && Lex(a[1..], b[1..])))
  }

  lemma {:induction false} LexConcat(p: string, p': string, q: string, q': string)
    requires |p| == |p'|
    ensures Lex(p + q, p' + q') <==> Lex(p, p') || (p == p' && Lex(q, q'))
  {
    if p == "" {
      assert p + q == q && p' + q' == q';
    } else {
      LexConcat(p[1..], p'[1..], q, q');
      assert (p + q)[1..] == p[1..] + q && (p' + q')[1..] == p'[1..] + q';
      assert p == [p[0]] + p[1..] && p' == [p'[0]] + p'[1..];
    }
  }

  lemma {:induction false} LexPadded(n: nat, m: nat, width: nat)
    requires |Padded(n, width)| == |Padded(m, width)| == width
    ensures Lex(Padded(n, width), Padded(m, width)) <==> n < m
    ensures Padded(n, width) == Padded(m, width) <==> n == m
    decreases width
  {
    PaddedValue(n, width);
    PaddedValue(m, width);
    if width > 0 {
      var x, y := Padded(n / 10, width - 1), Padded(m / 10, width - 1);
      LexPadded(n / 10, m / 10, width - 1);
      LexConcat(x, y, [Digit(n % 10)], [Digit(m % 10)]);
    }
  }

  lemma LexAppend(p: string, p': string, sep: string, n: int, n': int)
    requires |p| == |p'| && 0 <= n < 100 && 0 <= n' < 100
    ensures var q, q' := p + sep + Padded(n, 2), p' + sep + Padded(n', 2);
            && |q| == |q'|
            && (Lex(q, q') <==> Lex(p, p') || (p == p' && n < n'))
            && (q == q' <==> p == p' && n == n')
  {
    TwoDigits(n);
    TwoDigits(n');
    LexPadded(n, n', 2);
    LexConcat(p + sep, p' + sep, Padded(n, 2), Padded(n', 2));
    LexConcat(p, p', sep, sep);
    LexIrreflexive(sep);
    var q, q' := p + sep + Padded(n, 2), p' + sep + Padded(n', 2);
    if q == q' {
      assert p == q[..|p|] == p';
      assert Padded(n, 2) == q[|p + sep|..] == Padded(n', 2);
    }
  }

  lemma {:induction false} LexIrreflexive(s: string)
    ensures !Lex(s, s)
  {
    if s != "" { LexIrreflexive(s[1..]); }
  }

  predicate Sortable(year: int) {
    -1 <= year <= 9999
  }

  lemma FourDigits(n: int)
    requires 0 <= n <= 9999
    ensures |Padded(n, 4)| == 4 && '0' <= Padded(n, 4)[0]
  {
    assert Padded(n / 10 / 10 / 10, 1) == [Digit(n / 1000)];
    assert |Padded(n / 10 / 10, 2)| == 2 && |Padded(n / 10, 3)| == 3;
    PaddedValue(n, 4);
    assert Padded(n, 4)[0] in Padded(n, 4);
  }

  lemma YearMinusOne()
    ensures YearText(-1) == "-001"
  {
    assert Padded(0, 1) == "0" && Padded(0, 2) == "00" && Padded(1, 3) == "001";
  }

  lemma LexYears(y: int, y': int)
    requires Sortable(y) && Sortable(y')
    ensures |YearText(y)| == |YearText(y')| == 4
    ensures Lex(YearText(y), YearText(y')) <==> y < y'
    ensures YearText(y) == YearText(y') <==> y == y'
  {
    YearMinusOne();
    if y >= 0 { FourDigits(y); }
    if y' >= 0 { FourDigits(y'); }
    if y >= 0 && y' >= 0 {
      LexPadded(y, y', 4);
    } else if y == y' {
      LexIrreflexive("-001");
    }
  }

  /** How two texts of equal length compare. */
  ghost predicate Compare(p: string, p': string, less: bool, same: bool) {
    |p| == |p'| && (Lex(p, p') <==> less) && (p == p' <==> same)
  }

  lemma CompareAppend(p: string, p': string, less: bool, same: bool, sep: string, n: int, n': int)
    requires Compare(p, p', less, same) && 0 <= n < 100 && 0 <= n' < 100
    ensures Compare(p + sep + Padded(n, 2), p' + sep + Padded(n', 2), less || (same && n < n'), same && n == n')
  {
    LexAppend(p, p', sep, n, n');
  }

  function DateText(t: Stamp): string
    requires InRange(t)
  {
    YearText(t.date.year) + "-" + Padded(t.date.month, 2) + "-" + Padded(t.date.day, 2)
  }

  lemma CompareDates(t: Stamp, t': Stamp)
    requires InRange(t) && InRange(t') && Sortable(t.date.year) && Sortable(t'.date.year)
    ensures Compare(DateText(t), DateText(t'), Before(t.date, t'.date), t.date == t'.date)
  {
    var a, b := t.date, t'.date;
    var y, y' := YearText(a.year), YearText(b.year);
    LexYears(a.year, b.year);
    CompareAppend(y, y', a.year < b.year, a.year == b.year, "-", a.month, b.month);
    CompareAppend(y + "-" + Padded(a.month, 2), y' + "-" + Padded(b.month, 2),
                  a.year < b.year || (a.year == b.year && a.month < b.month), a.year == b.year && a.month == b.month,
                  "-", a.day, b.day);
  }

  lemma CompareTimes(d: string, d': string, less: bool, same: bool, t: Stamp, t': Stamp)
    requires InRange(t) && InRange(t') && Compare(d, d', less, same)
    ensures Compare(d + "T" + Padded(t.hour, 2) + ":" + Padded(t.minute, 2) + ":" + Padded(t.second, 2),
                    d' + "T" + Padded(t'.hour, 2) + ":" + Padded(t'.minute, 2) + ":" + Padded(t'.second, 2),
                    less || (same && SoonerInDay(t, t')),
                    same && t.hour == t'.hour && t.minute == t'.minute && t.second == t'.second)
  {
    CompareAppend(d, d', less, same, "T", t.hour, t'.hour);
    var h, h' := d + "T" + Padded(t.hour, 2), d' + "T" + Padded(t'.hour, 2);
    CompareAppend(h, h', less || (same && t.hour < t'.hour), same && t.hour == t'.hour, ":", t.minute, t'.minute);
    CompareAppend(h + ":" + Padded(t.minute, 2), h' + ":" + Padded(t'.minute, 2),
                  less || (same && t.hour < t'.hour) || (same && t.hour == t'.hour && t.minute < t'.minute),
                  same && t.hour == t'.hour && t.minute == t'.minute, ":", t.second, t'.second);
  }

  predicate SoonerInDay(t: Stamp, t': Stamp) {
    t.hour < t'.hour || (t.hour == t'.hour && (t.minute < t'.minute || (t.minute == t'.minute && t.second < t'.second)))
  }

  lemma CompareEnd(s: string, s': string, less: bool, same: bool)
    requires Compare(s, s', less, same)
    ensures Lex(s + "Z", s' + "Z") <==> less
  {
    LexConcat(s, s', "Z", "Z");
    LexIrreflexive("Z");
  }

  lemma LexTexts(t: Stamp, t': Stamp)
    requires InRange(t) && InRange(t') && Sortable(t.date.year) && Sortable(t'.date.year)
    ensures Lex(Text(t), Text(t')) <==> Earlier(t, t')
  {
    CompareDates(t, t');
    CompareTimes(DateText(t), DateText(t'), Before(t.date, t'.date), t.date == t'.date, t, t');
    CompareEnd(DateText(t) + "T" + Padded(t.hour, 2) + ":" + Padded(t.minute, 2) + ":" + Padded(t.second, 2),
               DateText(t') + "T" + Padded(t'.hour, 2) + ":" + Padded(t'.minute, 2) + ":" + Padded(t'.second, 2),
               Before(t.date, t'.date) || (t.date == t'.date && SoonerInDay(t, t')),
               t.date == t'.date && t.hour == t'.hour && t.minute == t'.minute && t.second == t'.second);
    TextIsParts(t);
    TextIsParts(t');
  }

  lemma TextIsParts(t: Stamp)
    requires InRange(t)
    ensures Text(t) ==
            DateText(t) + "T" + Padded(t.hour, 2) + ":" + Padded(t.minute, 2) + ":" + Padded(t.second, 2) + "Z"
  {
    var month, day := Padded(t.date.month, 2), Padded(t.date.day, 2);
    var time := "T" + Padded(t.hour, 2) + ":" + Padded(t.minute, 2) + ":" + Padded(t.second, 2) + "Z";
    assert AfterYear(t) == "-" + month + "-" + day + time;
    assert Text(t) == DateText(t) + time;
  }

  const YEAR_10000: I64 := 253_402_300_800
  const YEAR_MINUS_1: I64 := -62_198_755_200

  /** The field on a day whose era and March-based year are known. */
  lemma FieldsAt(secs: I64, era: int, y: int, doe: int, rem: int)
    requires 0 <= doe <= 146_096 && InYear(y, doe) && 0 <= rem < 86_400
    requires secs as int == (146_097 * era + doe - 719_468) * 86_400 + rem
    ensures Fields(secs) == AtTime(FromMarch(y + 400 * era, doe - YearStart(y)), rem)
  {
    assert secs as int / 86_400 == 146_097 * era + doe - 719_468;
    FieldsOnCalendar(secs);
    WalkTo(secs as int / 86_400, era, y, doe);
  }

  /** What the sorting argument uses of the fields `f` and the text `g`. */
  ghost predicate Ticks(f: I64 -> Stamp, g: I64 -> string) {
    && (forall a :: InRange(f(a)) && g(a) == Text(f(a)))
    && (forall a, b :: a < b <==> Earlier(f(a), f(b)))
    && f(0).date == EPOCH && f(YEAR_10000) == AtTime(Date(10_000, 1, 1), 0)
    && f(YEAR_MINUS_1) == AtTime(Date(-1, 1, 1), 0) && f(YEAR_MINUS_1 - 1).date == Date(-2, 12, 31)
  }

  lemma LandmarkDates()
    ensures AtTime(FromMarch(369 + 400 * 4, 135_080 - YearStart(369)), 0).date == EPOCH && InYear(369, 135_080)
    ensures FromMarch(399 + 400 * 24, 146_037 - YearStart(399)) == Date(10_000, 1, 1) && InYear(399, 146_037)
    ensures FromMarch(398 - 400, 145_672 - YearStart(398)) == Date(-1, 1, 1) && InYear(398, 145_672)
    ensures FromMarch(398 - 400, 145_671 - YearStart(398)) == Date(-2, 12, 31) && InYear(398, 145_671)
  {
  }

  // Each landmark on its own, with the instant as a variable.
  lemma FieldsAtEpoch(secs: I64)
    requires secs == 0
    ensures Fields(secs).date == EPOCH
  {
    LandmarkDates();
    FieldsAt(secs, 4, 369, 135_080, 0);
  }

  lemma FieldsAt10000(secs: I64)
    requires secs == YEAR_10000
    ensures Fields(secs) == AtTime(Date(10_000, 1, 1), 0)
  {
    LandmarkDates();
    FieldsAt(secs, 24, 399, 146_037, 0);
  }

  lemma FieldsAtMinus1(secs: I64)
    requires secs == YEAR_MINUS_1
    ensures Fields(secs) == AtTime(Date(-1, 1, 1), 0)
  {
    LandmarkDates();
    FieldsAt(secs, -1, 398, 145_672, 0);
  }

  lemma FieldsBeforeMinus1(secs: I64)
    requires secs == YEAR_MINUS_1 - 1
    ensures Fields(secs).date == Date(-2, 12, 31)
  {
    LandmarkDates();
    FieldsAt(secs, -1, 398, 145_671, 86_399);
  }

  lemma FieldsTick()
    ensures Ticks(Fields, Iso8601Utc)
  {
    forall a ensures InRange(Fields(a)) && Iso8601Utc(a) == Text(Fields(a)) { FieldsCountBack(a); }
    forall a, b ensures a < b <==> Earlier(Fields(a), Fields(b)) { FieldsIncrease(a, b); }
    FieldsAtEpoch(0);
    FieldsAt10000(YEAR_10000);
    FieldsAtMinus1(YEAR_MINUS_1);
    FieldsBeforeMinus1(YEAR_MINUS_1 - 1);
  }

  ghost predicate SortsInTimeOrder(g: I64 -> string, lo: I64, hi: I64) {
    forall a, b | lo <= a < b <= hi :: Lex(g(a), g(b))
  }

  lemma YearsFollowTime(f: I64 -> Stamp, g: I64 -> string, lo: I64, hi: I64)
    requires Ticks(f, g) && lo <= 0 <= hi
    ensures -1 <= f(lo).date.year <==> YEAR_MINUS_1 <= lo
    ensures f(hi).date.year <= 9999 <==> hi < YEAR_10000
    ensures f(lo).date.year <= 1970 <= f(hi).date.year
  {
    assert lo < YEAR_MINUS_1 <==> Earlier(f(lo), f(YEAR_MINUS_1));
    assert hi < YEAR_10000 <==> Earlier(f(hi), f(YEAR_10000));
    assert 0 < lo <==> Earlier(f(0), f(lo));
    assert hi < 0 <==> Earlier(f(hi), f(0));
  }

  lemma TooEarlyOrLate(f: I64 -> Stamp, g: I64 -> string, lo: I64, hi: I64)
    requires Ticks(f, g) && lo <= 0 <= hi && (lo < YEAR_MINUS_1 || YEAR_10000 <= hi)
    ensures !SortsInTimeOrder(g, lo, hi)
  {
    if hi >= YEAR_10000 {
      FiveDigitYearsSortEarly(f(0), f(YEAR_10000));
    } else {
      NegativeYearsSortBackwards(f(YEAR_MINUS_1 - 1), f(YEAR_MINUS_1));
    }
  }

  lemma SortsBetween(f: I64 -> Stamp, g: I64 -> string, lo: I64, a: I64, b: I64, hi: I64)
    requires Ticks(f, g) && lo <= a < b <= hi && Sortable(f(lo).date.year) && Sortable(f(hi).date.year)
    ensures Lex(g(a), g(b))
  {
    SortableBetween(f, g, lo, a, hi);
    SortableBetween(f, g, lo, b, hi);
    LexTexts(f(a), f(b));
  }

  lemma SortsWithin(f: I64 -> Stamp, g: I64 -> string, lo: I64, hi: I64)
    requires Ticks(f, g) && Sortable(f(lo).date.year) && Sortable(f(hi).date.year)
    ensures SortsInTimeOrder(g, lo, hi)
  {
    forall a, b | lo <= a < b <= hi ensures Lex(g(a), g(b)) {
      SortsBetween(f, g, lo, a, b, hi);
    }
  }

  lemma SortsWhileSortable(f: I64 -> Stamp, g: I64 -> string, lo: I64, hi: I64)
    requires Ticks(f, g) && lo <= 0 <= hi
    ensures SortsInTimeOrder(g, lo, hi) <==> -1 <= f(lo).date.year && f(hi).date.year <= 9999
  {
    YearsFollowTime(f, g, lo, hi);
    if lo < YEAR_MINUS_1 || YEAR_10000 <= hi {
      TooEarlyOrLate(f, g, lo, hi);
    } else {
      SortsWithin(f, g, lo, hi);
    }
  }

  lemma SortableBetween(f: I64 -> Stamp, g: I64 -> string, lo: I64, a: I64, hi: I64)
    requires Ticks(f, g) && lo <= a <= hi && Sortable(f(lo).date.year) && Sortable(f(hi).date.year)
    ensures Sortable(f(a).date.year)
  {
    assert a < lo <==> Earlier(f(a), f(lo));
    assert hi < a <==> Earlier(f(hi), f(a));
  }

  lemma Year1970()
    ensures YearText(1970) == "1970"
  {
    assert Padded(1, 1) == "1" && Padded(19, 2) == "19" && Padded(197, 3) == "197";
  }

  lemma Year10000()
    ensures YearText(10_000) == "1000" + "0"
  {
    assert Padded(1, 0) == "1" && Padded(10, 1) == "10" && Padded(100, 2) == "100" && Padded(1000, 3) == "1000";
  }

  lemma FiveDigitYearsSortEarly(t: Stamp, t': Stamp)
    requires InRange(t) && t.date.year == 1970 && InRange(t') && t'.date.year == 10_000
    ensures !Lex(Text(t), Text(t'))
  {
    Year1970();
    Year10000();
    Regroup("1000", "0", AfterYear(t'));
    ThousandBefore1970();
    LexConcat("1970", "1000", AfterYear(t), "0" + AfterYear(t'));
  }

  lemma ThousandBefore1970()
    ensures !Lex("1970", "1000") && "1970" != "1000"
  {
    LexConcat("1", "1", "970", "000");
    assert "1970" == "1" + "970" && "1000" == "1" + "000";
    LexIrreflexive("1");
    assert '9' > '0' && "970"[0] == '9' && "000"[0] == '0';
  }

  lemma YearMinusTwo()
    ensures YearText(-2) == "-002"
  {
    assert Padded(0, 1) == "0" && Padded(0, 2) == "00" && Padded(2, 3) == "002";
  }

  lemma TwoAfterOne()
    ensures !Lex("-002", "-001") && "-002" != "-001"
  {
    LexConcat("-00", "-00", "2", "1");
    LexIrreflexive("-00");
    assert "-00" + "2" == "-002" && "-00" + "1" == "-001";
  }

  lemma NegativeYearsSortBackwards(t: Stamp, t': Stamp)
    requires InRange(t) && t.date.year == -2 && InRange(t') && t'.date.year == -1
    ensures !Lex(Text(t), Text(t'))
  {
    YearMinusOne();
    YearMinusTwo();
    TwoAfterOne();
    LexConcat("-002", "-001", AfterYear(t), AfterYear(t'));
  }

  /** Stamps sort as text in time order, over an interval around the epoch,
      exactly when its years lie between -1 and 9999. */
  lemma SortsExactlyTo9999(lo: I64, hi: I64)
    requires lo <= 0 <= hi
    ensures SortsInTimeOrder(Iso8601Utc, lo, hi) <==> -1 <= Fields(lo).date.year && Fields(hi).date.year <= 9999
  {
    FieldsTick();
    SortsWhileSortable(Fields, Iso8601Utc, lo, hi);
  }
}
