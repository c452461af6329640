/**
 * The week view: the seven days from the Monday of the view week, the
 * events grouped per day, and the key that identifies the week.
 */
module WeekView {
  import opened Calendar
  import opened Events
  import MonthView
  import WeekDayColumn

  /** One day of the week grid. */
  datatype WeekDayModel = WeekDayModel(dateISO: string, isToday: bool)

  /** `addDays(startOfWeek(viewDate, { weekStartsOn: 1 }), i)` */
  function WeekDate(viewDate: Date, i: nat): (d: Date)
    requires ValidDate(viewDate)
    ensures ValidDate(d) && DayNumber(d) == DayNumber(StartOfWeek(viewDate)) + i
  {
    AddDays(StartOfWeek(viewDate), i)
  }

  /** `buildWeekMatrix(viewDate)`, with `today` for the date the component reads from the clock. */
  function BuildWeekMatrix(viewDate: Date, today: Date): (days: seq<WeekDayModel>)
    requires ValidDate(viewDate) && ValidDate(today)
    ensures |days| == 7
  {
    var todayIso := FormatIso(today);
    seq(7, i requires 0 <= i < 7 =>
      var iso := FormatIso(WeekDate(viewDate, i));
      WeekDayModel(iso, iso == todayIso))
  }

  /**
   * Day 0 is the Monday on or before the view date, each day follows the
   * one before, and the view date is one of the seven.
   */
  lemma WeekRunsMondayToSunday(viewDate: Date, i: nat)
    requires ValidDate(viewDate) && i < 6
    ensures IsoWeekday(WeekDate(viewDate, 0)) == 1
    ensures DayNumber(WeekDate(viewDate, i + 1)) == DayNumber(WeekDate(viewDate, i)) + 1
    ensures exists k :: 0 <= k < 7 && WeekDate(viewDate, k) == viewDate
  {
    DateOfDayNumber(StartOfWeek(viewDate));
    var k := DayNumber(viewDate) - DayNumber(StartOfWeek(viewDate));
    DayNumberInjective(WeekDate(viewDate, k), viewDate);
  }

  /** A day is marked today exactly when its date is today. */
  lemma IsTodayIff(viewDate: Date, today: Date, i: nat)
    requires ValidDate(viewDate) && ValidDate(today) && today.year < 10000
    requires i < 7 && WeekDate(viewDate, i).year < 10000
    ensures BuildWeekMatrix(viewDate, today)[i].dateISO == FormatIso(WeekDate(viewDate, i))
    ensures BuildWeekMatrix(viewDate, today)[i].isToday <==> WeekDate(viewDate, i) == today
  {
    FormatIsoInjective(WeekDate(viewDate, i), today);
  }

  /**
   * `groupEventsByWeekDay`: the same loop as `groupEventsByDate` of the month
   * view, keyed by the ISO date of the event's start.
   */
  method GroupEventsByWeekDay(list: seq<CalendarEvent>) returns (groups: map<string, seq<CalendarEvent>>)
    ensures forall key :: key in groups <==> MonthView.Bucket(list, MonthView.DateKey, key) != []
    ensures forall key :: key in groups ==> groups[key] == MonthView.Bucket(list, MonthView.DateKey, key)
  {
    groups := MonthView.GroupEventsByDate(list);
  }

  /** `weekKey`: the ISO date of the Monday of the view week. */
  function WeekKey(viewDate: Date): string
    requires ValidDate(viewDate)
  {
    FormatIso(StartOfWeek(viewDate))
  }

  /** The week key is the date of the first day of the grid. */
  lemma WeekKeyIsFirstDay(viewDate: Date, today: Date)
    requires ValidDate(viewDate) && ValidDate(today)
    ensures WeekKey(viewDate) == BuildWeekMatrix(viewDate, today)[0].dateISO
  {
    DateOfDayNumber(StartOfWeek(viewDate));
  }

  /** The hour window and slot size the week view passes to its grid. */
  const GridStartHour: int := 7
  const GridEndHour: int := 21
  const GridSlotMinutes: nat := 30

  /** With those props each day column has 28 half-hour slots, every second one on the hour. */
  lemma WeekViewColumnSlots()
    ensures |WeekDayColumn.SlotLines(GridStartHour, GridEndHour, GridSlotMinutes)| == 28
    ensures forall i :: 0 <= i < 28 ==> (WeekDayColumn.SlotLines(GridStartHour, GridEndHour, GridSlotMinutes)[i] <==> i % 2 == 0)
  {
    assert WeekDayColumn.SlotsPerHour(GridSlotMinutes) == 2;
  }
}
