/**
 * Civil dates and minute instants, standing in for the date-fns functions the
 * calendar calls (`startOfMonth`, `startOfWeek`, `endOfWeek`, `addDays`,
 * `addWeeks`, `addMinutes`, `parseISO`, `format`).
 *
 * Dates are proleptic Gregorian, from 0001-01-01 (a Monday) on. An instant is a
 * whole number of minutes of local wall-clock time since 0001-01-01T00:00, so a
 * day is always 1440 minutes and a week 10080: daylight-saving shifts are not
 * part of this model.
 */
module Calendar {
  import opened Wrappers
  import opened Text

  datatype Date = Date(year: int, month: int, day: int)

  predicate IsLeapYear(y: int) {
    y % 4 == 0 && (y % 100 != 0 || y % 400 == 0)
  }

  function DaysInMonth(y: int, m: int): (n: int)
    requires 1 <= m <= 12
    ensures 28 <= n <= 31
  {
    if m == 2 then (if IsLeapYear(y) then 29 else 28)
    else if m == 4 || m == 6 || m == 9 || m == 11 then 30
    else 31
  }

  function DaysInYear(y: int): int {
    if IsLeapYear(y) then 366 else 365
  }

  predicate ValidDate(d: Date) {
    1 <= d.year && 1 <= d.month <= 12 && 1 <= d.day <= DaysInMonth(d.year, d.month)
  }

  // ---------------------------------------------------------------------------
  // Day numbers: days since 0001-01-01
  // ---------------------------------------------------------------------------

  function DaysBeforeYear(y: int): nat
    requires 1 <= y
  {
    if y == 1 then 0 else DaysBeforeYear(y - 1) + DaysInYear(y - 1)
  }

  function DaysBeforeMonth(y: int, m: int): nat
    requires 1 <= m <= 12
  {
    var cumulative := [0, 31, 59, 90, 120, 151, 181, 212, 243, 273, 304, 334];
    cumulative[m - 1] + (if m > 2 && IsLeapYear(y) then 1 else 0)
  }

  /** Each month starts where the previous one ends, and December ends the year. */
  lemma MonthTable(y: int)
    ensures DaysBeforeMonth(y, 1) == 0
    ensures forall m :: 1 <= m < 12 ==> DaysBeforeMonth(y, m + 1) == DaysBeforeMonth(y, m) + DaysInMonth(y, m)
    ensures DaysBeforeMonth(y, 12) + DaysInMonth(y, 12) == DaysInYear(y)
  {
  }

  function DayNumber(d: Date): nat
    requires ValidDate(d)
  {
    DaysBeforeYear(d.year) + DaysBeforeMonth(d.year, d.month) + d.day - 1
  }

  /** The date `n` days into year `y` (counting from 0), or into a later year if `n` is past its end. */
  function DateInYear(y: int, n: nat): (d: Date)
    requires 1 <= y
    ensures ValidDate(d) && d.year >= y
    ensures DayNumber(d) == DaysBeforeYear(y) + n
    decreases n
  {
    if n < DaysInYear(y) then
      MonthTable(y);
      DateInMonth(y, 1, n)
    else
      DateInYear(y + 1, n - DaysInYear(y))
  }

  /** The date `n` days after the first of month `m` of year `y`, within that year. */
  function DateInMonth(y: int, m: int, n: nat): (d: Date)
    requires 1 <= y && 1 <= m <= 12
    requires DaysBeforeMonth(y, m) + n < DaysInYear(y)
    ensures ValidDate(d) && d.year == y
    ensures DayNumber(d) == DaysBeforeYear(y) + DaysBeforeMonth(y, m) + n
    decreases 12 - m
  {
    MonthTable(y);
    if n < DaysInMonth(y, m) then Date(y, m, n + 1)
    else DateInMonth(y, m + 1, n - DaysInMonth(y, m))
  }

  /** The date with day number `n`: the inverse of DayNumber. */
  function DateOfDay(n: nat): (d: Date)
    ensures ValidDate(d) && DayNumber(d) == n
  {
    DateInYear(1, n)
  }

  lemma {:induction false} DaysBeforeYearIncreases(a: int, b: int)
    requires 1 <= a < b
    ensures DaysBeforeYear(a) + DaysInYear(a) <= DaysBeforeYear(b)
    decreases b
  {
    if b > a + 1 {
      DaysBeforeYearIncreases(a, b - 1);
    }
  }

  lemma {:induction false} DaysBeforeMonthIncreases(y: int, a: int, b: int)
    requires 1 <= a < b <= 12
    ensures DaysBeforeMonth(y, a) + DaysInMonth(y, a) <= DaysBeforeMonth(y, b)
    decreases b
  {
    MonthTable(y);
    if b > a + 1 {
      DaysBeforeMonthIncreases(y, a, b - 1);
    }
  }

  /** Different valid dates have different day numbers. */
  lemma DayNumberInjective(a: Date, b: Date)
    requires ValidDate(a) && ValidDate(b)
    requires DayNumber(a) == DayNumber(b)
    ensures a == b
  {
    MonthTable(a.year);
    MonthTable(b.year);
    if a.year < b.year {
      DaysBeforeYearIncreases(a.year, b.year);
      if a.month < 12 { DaysBeforeMonthIncreases(a.year, a.month, 12); }
      assert false;
    } else if b.year < a.year {
      DaysBeforeYearIncreases(b.year, a.year);
      if b.month < 12 { DaysBeforeMonthIncreases(b.year, b.month, 12); }
      assert false;
    } else if a.month < b.month {
      DaysBeforeMonthIncreases(a.year, a.month, b.month);
      assert false;
    } else if b.month < a.month {
      DaysBeforeMonthIncreases(a.year, b.month, a.month);
      assert false;
    }
  }

  /** DateOfDay undoes DayNumber. */
  lemma DateOfDayNumber(d: Date)
    requires ValidDate(d)
    ensures DateOfDay(DayNumber(d)) == d
  {
    DayNumberInjective(DateOfDay(DayNumber(d)), d);
  }

  /** The closed form of the day count before a year: 365 a year, plus the leap days. */
  lemma {:induction false} DaysBeforeYearFormula(y: int)
    requires 1 <= y
    ensures DaysBeforeYear(y) == 365 * (y - 1) + (y - 1) / 4 - (y - 1) / 100 + (y - 1) / 400
    decreases y
  {
    if y > 1 {
      DaysBeforeYearFormula(y - 1);
      var q := y - 1;
      DivStep4(q);
      DivStep100(q);
      DivStep400(q);
    }
  }

  lemma DivStep4(q: int)
    ensures q / 4 == (q - 1) / 4 + (if q % 4 == 0 then 1 else 0)
  {
  }

  lemma DivStep100(q: int)
    ensures q / 100 == (q - 1) / 100 + (if q % 100 == 0 then 1 else 0)
    ensures q % 100 == 0 ==> q % 4 == 0
  {
  }

  lemma DivStep400(q: int)
    ensures q / 400 == (q - 1) / 400 + (if q % 400 == 0 then 1 else 0)
    ensures q % 400 == 0 ==> q % 100 == 0
  {
  }

  // ---------------------------------------------------------------------------
  // Day arithmetic, weekdays, weeks and months
  // ---------------------------------------------------------------------------

  /** `addDays(d, n)` */
  function AddDays(d: Date, n: int): (r: Date)
    requires ValidDate(d) && DayNumber(d) + n >= 0
    ensures ValidDate(r) && DayNumber(r) == DayNumber(d) + n
  {
    DateOfDay(DayNumber(d) + n)
  }

  /** ISO day of the week (date-fns "i"): 1 for Monday through 7 for Sunday. */
  function IsoWeekday(d: Date): (w: int)
    requires ValidDate(d)
    ensures 1 <= w <= 7
  {
    DayNumber(d) % 7 + 1
  }

  /** Day numbers `q * 7 + r` fall on weekday `r + 1`. */
  lemma WeekdayOfDay(q: int, r: int)
    requires 0 <= r < 7
    ensures (q * 7 + r) % 7 == r && (q * 7 + r) / 7 == q
  {
  }

  lemma WeekStart(n: nat)
    ensures (n - n % 7) % 7 == 0 && 0 <= n - n % 7 <= n < n - n % 7 + 7
  {
  }

  lemma WeekEnd(m: nat)
    requires m % 7 == 0
    ensures (m + 6) % 7 == 6
  {
  }

  /** `startOfWeek(d, { weekStartsOn: 1 })`: the Monday on or before `d`. */
  function StartOfWeek(d: Date): (r: Date)
    requires ValidDate(d)
    ensures ValidDate(r) && IsoWeekday(r) == 1
    ensures DayNumber(r) <= DayNumber(d) < DayNumber(r) + 7
  {
    var n := DayNumber(d);
    WeekStart(n);
    DateOfDay(n - n % 7)
  }

  /** `endOfWeek(d, { weekStartsOn: 1 })`, as a date: the Sunday on or after `d`. */
  function EndOfWeek(d: Date): (r: Date)
    requires ValidDate(d)
    ensures ValidDate(r) && IsoWeekday(r) == 7
    ensures DayNumber(r) == DayNumber(StartOfWeek(d)) + 6
    ensures DayNumber(d) <= DayNumber(r)
  {
    var m := DayNumber(StartOfWeek(d));
    WeekEnd(m);
    DateOfDay(m + 6)
  }

  /** `startOfMonth(d)`, as a date. */
  function StartOfMonth(d: Date): (r: Date)
    requires ValidDate(d)
    ensures ValidDate(r) && r.year == d.year && r.month == d.month && r.day == 1
  {
    Date(d.year, d.month, 1)
  }

  /** The k-th day of a month is k - 1 days after its first. */
  lemma DayOfMonthNumber(d: Date)
    requires ValidDate(d)
    ensures DayNumber(d) == DayNumber(StartOfMonth(d)) + d.day - 1
  {
  }

  /** Days of one month are exactly the day numbers from its first day on, for its length. */
  lemma InMonthIff(d: Date, e: Date)
    requires ValidDate(d) && ValidDate(e)
    ensures (e.year == d.year && e.month == d.month) <==>
            DayNumber(StartOfMonth(d)) <= DayNumber(e) < DayNumber(StartOfMonth(d)) + DaysInMonth(d.year, d.month)
  {
    var f := StartOfMonth(d);
    var n := DayNumber(e) - DayNumber(f);
    if 0 <= n < DaysInMonth(d.year, d.month) {
      var g := Date(d.year, d.month, n + 1);
      assert DayNumber(g) == DayNumber(e);
      DayNumberInjective(g, e);
    }
  }

  // ---------------------------------------------------------------------------
  // Instants: minutes since 0001-01-01T00:00
  // ---------------------------------------------------------------------------

  /** The calendar date of an instant. */
  function DateOf(t: nat): (d: Date)
    ensures ValidDate(d) && DayNumber(d) == t / 1440
  {
    DateOfDay(t / 1440)
  }

  /** `getHours()` */
  function HourOf(t: nat): (h: nat)
    ensures h < 24
  {
    (t % 1440) / 60
  }

  /** `getMinutes()` */
  function MinuteOf(t: nat): (m: nat)
    ensures m < 60
  {
    t % 60
  }

  /** The instant `minuteOfDay` minutes after the start of date `d`. */
  function At(d: Date, minuteOfDay: nat): (t: nat)
    requires ValidDate(d) && minuteOfDay < 1440
    ensures DateOf(t) == d
    ensures HourOf(t) == minuteOfDay / 60 && MinuteOf(t) == minuteOfDay % 60
  {
    var n := DayNumber(d);
    DivModDay(n, minuteOfDay);
    MinuteShift(minuteOfDay, n * 24);
    DateOfDayNumber(d);
    n * 1440 + minuteOfDay
  }

  lemma MinuteShift(t: nat, k: nat)
    ensures (t + k * 60) % 60 == t % 60
  {
  }

  lemma DivModDay(q: int, r: int)
    requires 0 <= r < 1440
    ensures (q * 1440 + r) / 1440 == q && (q * 1440 + r) % 1440 == r
  {
  }

  /**
   * `addWeeks(t, w)`: moving an instant by whole weeks moves its date by
   * 7 days a week and keeps its time of day.
   */
  lemma AddWeeksKeepsClock(t: nat, w: nat)
    ensures DateOf(t + w * 10080) == AddDays(DateOf(t), 7 * w)
    ensures HourOf(t + w * 10080) == HourOf(t)
    ensures MinuteOf(t + w * 10080) == MinuteOf(t)
    ensures IsoWeekday(DateOf(t + w * 10080)) == IsoWeekday(DateOf(t))
  {
    WeekShift(t, w);
  }

  /** The arithmetic behind AddWeeksKeepsClock. */
  lemma WeekShift(t: nat, w: nat)
    ensures (t + w * 10080) / 1440 == t / 1440 + 7 * w
    ensures (t + w * 10080) % 1440 == t % 1440
    ensures (t + w * 10080) % 60 == t % 60
    ensures (t / 1440 + 7 * w) % 7 == (t / 1440) % 7
  {
    var n, r := t / 1440, t % 1440;
    var u := t + w * 10080;
    assert u / 1440 == n + 7 * w && u % 1440 == r by {
      assert u == (n + 7 * w) * 1440 + r;
      DivModDay(n + 7 * w, r);
    }
    assert u % 60 == t % 60 by {
      MinuteShift(t, 168 * w);
      assert u == t + 168 * w * 60;
    }
    assert (n + 7 * w) % 7 == n % 7 by {
      WeekdayOfDay(n / 7 + w, n % 7);
      assert n + 7 * w == (n / 7 + w) * 7 + n % 7;
    }
  }

  // ---------------------------------------------------------------------------
  // Formatting and parsing
  // ---------------------------------------------------------------------------

  /** The `/^\d{4}-\d{2}-\d{2}$/` shape. */
  predicate IsIsoShaped(s: string) {
    && |s| == 10
    && AllDigits(s[..4]) && s[4] == '-'
    && AllDigits(s[5..7]) && s[7] == '-'
    && AllDigits(s[8..])
  }

  /** `format(d, "yyyy-MM-dd")` */
  function FormatIso(d: Date): (s: string)
    requires ValidDate(d)
    ensures d.year < 10000 ==> IsIsoShaped(s)
  {
    var yyyy, mm, dd := Pad4(d.year), Pad2(d.month), Pad2(d.day);
    var s := yyyy + "-" + mm + "-" + dd;
    assert d.year < 10000 ==> IsIsoShaped(s) by {
      if d.year < 10000 {
        IsoShapeOf(yyyy, mm, dd);
      }
    }
    s
  }

  /** `format(d, "yyyy-MM")` */
  function FormatYearMonth(d: Date): (s: string)
    requires ValidDate(d)
    ensures d.year < 10000 ==> |s| == 7
  {
    Pad4(d.year) + "-" + Pad2(d.month)
  }

  /** Four, two and two digits joined by dashes have the ISO date shape. */
  lemma IsoShapeOf(y: string, m: string, d: string)
    requires |y| == 4 && |m| == 2 && |d| == 2
    requires AllDigits(y) && AllDigits(m) && AllDigits(d)
    ensures IsIsoShaped(y + "-" + m + "-" + d)
  {
    DashParts(y, m, d);
  }

  /** Where the three parts of a dashed date string sit. */
  lemma DashParts(y: string, m: string, d: string)
    ensures |y + "-" + m + "-" + d| == |y| + |m| + |d| + 2
    ensures (y + "-" + m + "-" + d)[..|y|] == y && (y + "-" + m + "-" + d)[|y|] == '-'
    ensures (y + "-" + m + "-" + d)[|y| + 1..|y| + 1 + |m|] == m && (y + "-" + m + "-" + d)[|y| + 1 + |m|] == '-'
    ensures (y + "-" + m + "-" + d)[|y| + 2 + |m|..] == d
    ensures (y + "-" + m + "-" + d)[..|y| + 1 + |m|] == y + "-" + m
  {
  }

  /** The month key of a day is the first seven characters of its ISO date. */
  lemma IsoStartsWithYearMonth(d: Date)
    requires ValidDate(d) && d.year < 10000
    ensures FormatIso(d)[..7] == FormatYearMonth(d)
  {
    DashParts(Pad4(d.year), Pad2(d.month), Pad2(d.day));
  }

  /** Two dates share a month key exactly when they share year and month. */
  lemma FormatYearMonthIff(a: Date, b: Date)
    requires ValidDate(a) && ValidDate(b) && a.year < 10000 && b.year < 10000
    ensures FormatYearMonth(a) == FormatYearMonth(b) <==> (a.year == b.year && a.month == b.month)
  {
    if FormatYearMonth(a) == FormatYearMonth(b) {
      var s, t := FormatYearMonth(a), FormatYearMonth(b);
      SplitAround(Pad4(a.year), '-', Pad2(a.month));
      SplitAround(Pad4(b.year), '-', Pad2(b.month));
      assert s[..4] == Pad4(a.year) && t[..4] == Pad4(b.year);
      assert s[5..] == Pad2(a.month) && t[5..] == Pad2(b.month);
    }
  }

  /** `parseISO` of a date-only string: the date when the string has the shape and names a real day. */
  function ParseIso(s: string): (r: Option<Date>)
    ensures r.Some? ==> IsIsoShaped(s) && ValidDate(r.value)
  {
    if IsIsoShaped(s) then
      var d := Date(DigitsValue(s[..4]), DigitsValue(s[5..7]), DigitsValue(s[8..]));
      if ValidDate(d) then Some(d) else None
    else None
  }

  /** Parsing a dashed string reads its three numerals. */
  lemma ParseIsoParts(y: string, m: string, d: string)
    requires |y| == 4 && |m| == 2 && |d| == 2
    requires AllDigits(y) && AllDigits(m) && AllDigits(d)
    ensures var date := Date(DigitsValue(y), DigitsValue(m), DigitsValue(d));
      ParseIso(y + "-" + m + "-" + d) == if ValidDate(date) then Some(date) else None
  {
    IsoShapeOf(y, m, d);
    DashParts(y, m, d);
  }

  /** Parsing the ISO form of a date gives the date back. */
  lemma ParseFormatIso(d: Date)
    requires ValidDate(d) && d.year < 10000
    ensures ParseIso(FormatIso(d)) == Some(d)
  {
    DashParts(Pad4(d.year), Pad2(d.month), Pad2(d.day));
  }

  /** Different dates have different ISO strings. */
  lemma FormatIsoInjective(a: Date, b: Date)
    requires ValidDate(a) && ValidDate(b) && a.year < 10000 && b.year < 10000
    ensures FormatIso(a) == FormatIso(b) <==> a == b
  {
    ParseFormatIso(a);
    ParseFormatIso(b);
  }

  /** date-fns "MMM" in English. */
  function MonthShort(m: int): string
    requires 1 <= m <= 12
  {
    ["Jan", "Feb", "Mar", "Apr", "May", "Jun", "Jul", "Aug", "Sep", "Oct", "Nov", "Dec"][m - 1]
  }

  /** `format(t, "HH:mm")`: the two-digit hour and minute of an instant. */
  function FormatHHmm(t: nat): (s: string)
    ensures |s| == 5 && s[2] == ':'
    ensures AllDigits(s[..2]) && DigitsValue(s[..2]) == HourOf(t)
    ensures AllDigits(s[3..]) && DigitsValue(s[3..]) == MinuteOf(t)
  {
    var hh, mm := Pad2(HourOf(t)), Pad2(MinuteOf(t));
    SplitAround(hh, ':', mm);
    hh + [':'] + mm
  }

  /** `toISOString()` of an instant, seconds and milliseconds being zero. */
  function ToIsoString(t: nat): (s: string)
  {
    FormatIso(DateOf(t)) + "T" + FormatHHmm(t) + ":00.000Z"
  }
}
