/**
 * `getWeekRangeLabel`: the title of the week view, the Monday to Sunday
 * range of the view week, with the month written once when both ends share it.
 */
module WeekLabel {
  import opened Text
  import opened Calendar

  /** The en dash between the two ends of the range. */
  const EnDash: char := '\U{2013}'

  /** `format(date, "d MMM yyyy")`, e.g. "29 Sep 2025". */
  function DayMonthYear(d: Date): string
    requires ValidDate(d)
  {
    Decimal(d.day) + " " + MonthShort(d.month) + " " + Pad4(d.year)
  }

  /** What follows the first day across two months: " MMM – ". */
  function CrossSeparator(m: int): string
    requires 1 <= m <= 12
  {
    " " + MonthShort(m) + " " + [EnDash] + " "
  }

  /** `isSameMonth(a, b)` */
  predicate SameMonth(a: Date, b: Date) {
    a.year == b.year && a.month == b.month
  }

  /** The label: "d–d MMM yyyy" within one month, "d MMM – d MMM yyyy" across two. */
  function GetWeekRangeLabel(viewDate: Date): (text: string)
    requires ValidDate(viewDate)
    ensures var start, end := StartOfWeek(viewDate), EndOfWeek(viewDate);
      var tail := DayMonthYear(end);
      |tail| <= |text| && text[|text| - |tail|..] == tail
      && text[..|Decimal(start.day)|] == Decimal(start.day)
    ensures var start, end := StartOfWeek(viewDate), EndOfWeek(viewDate);
      var d := |Decimal(start.day)|;
      SameMonth(start, end) ==> |text| == d + 1 + |DayMonthYear(end)| && text[d] == EnDash
    ensures var start, end := StartOfWeek(viewDate), EndOfWeek(viewDate);
      var d := |Decimal(start.day)|;
      !SameMonth(start, end) ==>
        |text| == d + |CrossSeparator(start.month)| + |DayMonthYear(end)| && text[d..d + |CrossSeparator(start.month)|] == CrossSeparator(start.month)
  {
    var start := StartOfWeek(viewDate);
    var end := EndOfWeek(viewDate);
    var middle := if SameMonth(start, end) then [EnDash] else CrossSeparator(start.month);
    ThreeParts(Decimal(start.day), middle, DayMonthYear(end));
    Decimal(start.day) + middle + DayMonthYear(end)
  }

  /** The range runs from the Monday to the Sunday of the view date's week. */
  lemma RangeIsMondayToSunday(viewDate: Date)
    requires ValidDate(viewDate)
    ensures IsoWeekday(StartOfWeek(viewDate)) == 1 && IsoWeekday(EndOfWeek(viewDate)) == 7
    ensures DayNumber(StartOfWeek(viewDate)) <= DayNumber(viewDate) <= DayNumber(EndOfWeek(viewDate))
    ensures DayNumber(EndOfWeek(viewDate)) == DayNumber(StartOfWeek(viewDate)) + 6
  {
  }

  /** Both ends share a month exactly when the Sunday's day is the Monday's plus six. */
  lemma SameMonthIff(viewDate: Date)
    requires ValidDate(viewDate)
    ensures var start, end := StartOfWeek(viewDate), EndOfWeek(viewDate);
      SameMonth(start, end) <==> end.day == start.day + 6
  {
    var start, end := StartOfWeek(viewDate), EndOfWeek(viewDate);
    DayOfMonthNumber(start);
    DayOfMonthNumber(end);
    if SameMonth(start, end) {
      assert StartOfMonth(start) == StartOfMonth(end);
    } else {
      InMonthIff(end, start);
      assert DayNumber(start) < DayNumber(StartOfMonth(end));
    }
  }

  /** The Monday of a week is the one day number of it divisible by seven. */
  lemma MondayOfWeek(n: nat, m: nat)
    requires m % 7 == 0 && m <= n < m + 7
    ensures m == n - n % 7
  {
    WeekdayOfDay(m / 7, n - m);
  }

  /** A Monday `m` with `d` in the six days after it starts the week of `d`, and `m + 6` ends it. */
  lemma WeekOfDate(d: Date, m: Date, e: Date)
    requires ValidDate(d) && ValidDate(m) && ValidDate(e)
    requires DayNumber(m) % 7 == 0 && DayNumber(m) <= DayNumber(d) < DayNumber(m) + 7
    requires DayNumber(e) == DayNumber(m) + 6
    ensures StartOfWeek(d) == m && EndOfWeek(d) == e
  {
    MondayOfWeek(DayNumber(d), DayNumber(StartOfWeek(d)));
    MondayOfWeek(DayNumber(d), DayNumber(m));
    DayNumberInjective(StartOfWeek(d), m);
    DayNumberInjective(EndOfWeek(d), e);
  }

  /** Day numbers of the late-September 2025 dates used below. */
  lemma LateSeptember2025()
    ensures DayNumber(Date(2025, 9, 22)) == 739515 && DayNumber(Date(2025, 9, 25)) == 739518
    ensures DayNumber(Date(2025, 9, 28)) == 739521 && DayNumber(Date(2025, 9, 29)) == 739522
    ensures DayNumber(Date(2025, 9, 30)) == 739523 && DayNumber(Date(2025, 10, 5)) == 739528
  {
    DaysBeforeYearFormula(2025);
    assert !IsLeapYear(2025);
  }

  /** Thursday 25 Sep 2025 lies in the week of Monday 22 to Sunday 28 Sep: one month. */
  lemma WeekOfSeptember25()
    ensures StartOfWeek(Date(2025, 9, 25)) == Date(2025, 9, 22) && EndOfWeek(Date(2025, 9, 25)) == Date(2025, 9, 28)
  {
    LateSeptember2025();
    WeekOfDate(Date(2025, 9, 25), Date(2025, 9, 22), Date(2025, 9, 28));
  }

  /** Tuesday 30 Sep 2025 lies in the week of Monday 29 Sep to Sunday 5 Oct: two months. */
  lemma WeekOfSeptember30()
    ensures StartOfWeek(Date(2025, 9, 30)) == Date(2025, 9, 29) && EndOfWeek(Date(2025, 9, 30)) == Date(2025, 10, 5)
  {
    LateSeptember2025();
    WeekOfDate(Date(2025, 9, 30), Date(2025, 9, 29), Date(2025, 10, 5));
  }
}
