/**
 * The week grid: the hour labels down the left, a header per day, and the
 * events each day column receives.
 */
module WeekGrid {
  import opened Wrappers
  import opened Text
  import opened Calendar
  import opened Events
  import MonthView

  /** The default props: hours 6 to 22 in 30-minute slots. */
  const DefaultStartHour: int := 6
  const DefaultEndHour: int := 22
  const DefaultSlotMinutes: nat := 30

  /** The label of one hour: the hour padded to two characters, then ":00". */
  function HourLabel(hour: int): string {
    PadStart(JsString(hour), 2, '0') + ":00"
  }

  /** `TIME_LABELS(startHour, endHour)`; a negative length gives no labels, as in `Array.from`. */
  function TimeLabels(startHour: int, endHour: int): (labels: seq<string>)
    ensures |labels| == if endHour < startHour then 0 else endHour - startHour
    ensures forall i :: 0 <= i < |labels| ==> labels[i] == HourLabel(startHour + i)
  {
    var n := if endHour < startHour then 0 else endHour - startHour;
    seq(n, i requires 0 <= i < n => HourLabel(startHour + i))
  }

  /** For an hour of the day the label is "HH:00" and reads back as that hour. */
  lemma HourLabelOfDayHour(hour: int)
    requires 0 <= hour < 100
    ensures HourLabel(hour) == Pad2(hour) + ":00"
    ensures |HourLabel(hour)| == 5 && HourLabel(hour)[2] == ':'
    ensures AllDigits(HourLabel(hour)[..2]) && DigitsValue(HourLabel(hour)[..2]) == hour
  {
    Pad2IsPadStart(hour);
    assert HourLabel(hour)[..2] == Pad2(hour);
  }

  /** With the default props the grid shows 16 labels, "06:00" first and "21:00" last. */
  lemma DefaultTimeLabels()
    ensures |TimeLabels(DefaultStartHour, DefaultEndHour)| == 16
    ensures TimeLabels(DefaultStartHour, DefaultEndHour)[0] == Pad2(6) + ":00"
    ensures TimeLabels(DefaultStartHour, DefaultEndHour)[15] == Pad2(21) + ":00"
  {
    HourLabelOfDayHour(6);
    HourLabelOfDayHour(21);
  }

  /** `WEEKDAY_LONGISH`, Monday first. */
  const WeekdayLongish: seq<string> := ["Mon", "Tues", "Weds", "Thurs", "Fri", "Sat", "Sun"]

  /** `headerLabel(dateISO)`: the two-digit day, a space, the weekday; `None` when the string is not a date. */
  function HeaderLabel(dateISO: string): (r: Option<string>)
    ensures r.Some? <==> ParseIso(dateISO).Some?
  {
    match ParseIso(dateISO)
    case None => None
    case Some(d) => Some(Pad2(d.day) + " " + WeekdayLongish[IsoWeekday(d) - 1])
  }

  /** The header of a day's column reads back its day of month and names its weekday. */
  lemma HeaderLabelOfDay(d: Date)
    requires ValidDate(d) && d.year < 10000
    ensures HeaderLabel(FormatIso(d)).Some?
    ensures var h := HeaderLabel(FormatIso(d)).value;
      |h| >= 5 && AllDigits(h[..2]) && DigitsValue(h[..2]) == d.day && h[2] == ' '
      && h[3..] == WeekdayLongish[IsoWeekday(d) - 1]
  {
    ParseFormatIso(d);
    var h := HeaderLabel(FormatIso(d)).value;
    SplitAround(Pad2(d.day), ' ', WeekdayLongish[IsoWeekday(d) - 1]);
  }

  /** `eventsByDate[dateISO] ?? []`: the events one column receives. */
  function ColumnEvents(eventsByDate: map<string, seq<CalendarEvent>>, dateISO: string): seq<CalendarEvent> {
    if dateISO in eventsByDate then eventsByDate[dateISO] else []
  }

  /** Fed with the grouping of the week view, a column receives exactly the events that start on its date, in order. */
  lemma ColumnGetsItsDay(list: seq<CalendarEvent>, eventsByDate: map<string, seq<CalendarEvent>>, dateISO: string)
    requires forall key :: key in eventsByDate <==> MonthView.Bucket(list, MonthView.DateKey, key) != []
    requires forall key :: key in eventsByDate ==> eventsByDate[key] == MonthView.Bucket(list, MonthView.DateKey, key)
    ensures ColumnEvents(eventsByDate, dateISO) == MonthView.Bucket(list, MonthView.DateKey, dateISO)
  {
  }
}
