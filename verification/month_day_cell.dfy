/**
 * One cell of the month grid: the day number read back from the cell's ISO
 * date, the chips shown, and the "+N more" control for the rest.
 */
module MonthDayCell {
  import opened Wrappers
  import opened Text
  import opened Calendar

  /** The default of the `maxVisible` prop. */
  const DefaultMaxVisible: int := 4

  /** `events.slice(0, maxVisible)`: the chips drawn in the cell. */
  function Visible<T>(events: seq<T>, maxVisible: int): (v: seq<T>)
    ensures 0 <= maxVisible ==> v == events[..if |events| < maxVisible then |events| else maxVisible]
    ensures maxVisible < 0 ==> v == events[..if |events| + maxVisible < 0 then 0 else |events| + maxVisible]
  {
    Slice(events, 0, maxVisible)
  }

  /** `events.length - visible.length`: how many events the cell does not draw. */
  function Overflow<T>(events: seq<T>, maxVisible: int): (n: nat)
    ensures |Visible(events, maxVisible)| + n == |events|
    ensures events[..|Visible(events, maxVisible)|] == Visible(events, maxVisible)
  {
    |events| - |Visible(events, maxVisible)|
  }

  /** The "+N more" control is drawn when something overflows. */
  predicate ShowsMore<T>(events: seq<T>, maxVisible: int) {
    Overflow(events, maxVisible) > 0
  }

  /** With a non-negative limit, "+N more" appears exactly when there are more events than the limit, and N is the excess. */
  lemma ShowsMoreIff<T>(events: seq<T>, maxVisible: int)
    requires 0 <= maxVisible
    ensures ShowsMore(events, maxVisible) <==> |events| > maxVisible
    ensures ShowsMore(events, maxVisible) ==> Overflow(events, maxVisible) == |events| - maxVisible
  {
  }

  /** With the default limit a day with five events draws four chips and "+1 more". */
  lemma FiveEventsShowFourAndOneMore<T>(events: seq<T>)
    requires |events| == 5
    ensures Visible(events, DefaultMaxVisible) == events[..4]
    ensures Overflow(events, DefaultMaxVisible) == 1
  {
  }

  /** `parseInt(dateISO.slice(8, 10), 10)`: the day number drawn in the cell; `None` is `NaN`. */
  function DayNum(dateISO: string): Option<int> {
    JsParseInt(Slice(dateISO, 8, 10))
  }

  /** The day number of a cell is the day of month of its date. */
  lemma DayNumOfIsoDate(d: Date)
    requires ValidDate(d) && d.year < 10000
    ensures DayNum(FormatIso(d)) == Some(d.day)
  {
    var dd := Pad2(d.day);
    DashParts(Pad4(d.year), Pad2(d.month), dd);
    assert Slice(FormatIso(d), 8, 10) == dd;
    ParseIntOfDigits(dd, []);
    assert dd + [] == dd;
  }
}
