/**
 * The edit form: the clock and duration helpers it uses, the default values
 * it derives from the event being edited, and the series switch.
 */
module EditForm {
  import opened Wrappers
  import opened Text
  import opened Calendar
  import opened Events
  import BlockTimeForm

  /** `toHHmm(d)`: the hour and minute of an instant, each padded to two digits. */
  function ToHHmm(t: nat): string {
    BlockTimeForm.ClockField(HourOf(t)) + ":" + BlockTimeForm.ClockField(MinuteOf(t))
  }

  /** The edit form prints a start time exactly as the calendar formats it. */
  lemma ToHHmmIsFormatHHmm(t: nat)
    ensures ToHHmm(t) == FormatHHmm(t)
  {
    var h, m := HourOf(t), MinuteOf(t);
    BlockTimeForm.ClockFieldOfDigits(h);
    BlockTimeForm.ClockFieldOfDigits(m);
    var r, e := ToHHmm(t), FormatHHmm(t);
    SplitAround(Pad2(h), ':', Pad2(m));
    DigitsValueInjective(r[..2], e[..2]);
    DigitsValueInjective(r[3..], e[3..]);
    assert r == r[..2] + [':'] + r[3..];
    assert e == e[..2] + [':'] + e[3..];
  }

  /** `Math.round(n / d)` for a positive divisor: the nearest integer, halves rounded up. */
  function RoundDiv(n: int, d: int): (q: int)
    requires d > 0
    ensures 2 * q * d - d <= 2 * n < 2 * q * d + d
  {
    (2 * n + d) / (2 * d)
  }

  /** `minutesBetween(a, b)` on the two instants in milliseconds: the rounded minutes between them, at least one. */
  function MinutesBetween(aMs: int, bMs: int): (m: int)
    ensures m >= 1
    ensures 2 * (bMs - aMs) < 60000 ==> m == 1
    ensures 2 * (bMs - aMs) >= 60000 ==> 2 * m * 60000 - 60000 <= 2 * (bMs - aMs) < 2 * m * 60000 + 60000
  {
    var r := RoundDiv(bMs - aMs, 60000);
    if r < 1 then 1 else r
  }

  /** A whole positive number of minutes apart gives exactly that number. */
  lemma MinutesBetweenWholeMinutes(aMs: int, bMs: int, k: int)
    requires k >= 1 && bMs - aMs == k * 60000
    ensures MinutesBetween(aMs, bMs) == k
  {
    assert (2 * (k * 60000) + 60000) / 120000 == k by {
      assert 2 * (k * 60000) + 60000 == k * 120000 + 60000;
    }
  }

  /** For events on the minute grid the length is the minutes from start to end, or one when the end is not after the start. */
  lemma EventLengthInMinutes(start: nat, end: nat)
    ensures MinutesBetween(start * 60000, end * 60000) == if end > start then end - start else 1
  {
    if end > start {
      MinutesBetweenWholeMinutes(start * 60000, end * 60000, end - start);
    } else {
      assert RoundDiv(end * 60000 - start * 60000, 60000) <= 0;
    }
  }

  /** The form's scope: this occurrence only, or every occurrence of its series. */
  datatype Scope = One | Series

  /** The series switch's change handler: checked selects the series, unchecked the one occurrence. */
  function ScopeForSwitch(checked: bool): (s: Scope)
    ensures s == Series <==> checked
    ensures s == One <==> !checked
  {
    if checked then Series else One
  }

  /** `hasSeries`: the switch is shown only for an event whose series id is truthy. */
  predicate HasSeries(ev: CalendarEvent) {
    Present(ev.seriesId)
  }

  /**
   * The `scope` field after the series switch reports each state in `toggles`
   * in turn. The switch is rendered only when `hasSeries`; without it no
   * change reaches the field, which keeps the value it started from.
   */
  function ScopeAfterToggles(ev: CalendarEvent, scope: Scope, toggles: seq<bool>): (s: Scope)
    ensures !HasSeries(ev) || toggles == [] ==> s == scope
    ensures HasSeries(ev) && toggles != [] ==> s == ScopeForSwitch(toggles[|toggles| - 1])
    decreases |toggles|
  {
    if toggles == [] then scope
    else ScopeAfterToggles(ev, if HasSeries(ev) then ScopeForSwitch(toggles[0]) else scope, toggles[1..])
  }

  /** The values both edit forms start from; fields a form does not show are still filled. */
  datatype EditDefaults = EditDefaults(
    scope: Scope,
    dateISO: string,
    startTime: string,
    endTime: string,
    person: string,
    classType: string,
    status: string,
    reason: string,
    blockLength: int)

  /** The derivation of `defaults` from the event being edited. */
  function Defaults(ev: CalendarEvent): (d: EditDefaults)
    ensures d.scope == One
    ensures d.dateISO == Slice(ToIsoString(ev.start), 0, 10)
    ensures d.startTime == ToHHmm(ev.start) && d.endTime == ToHHmm(ev.end)
    ensures d.blockLength == MinutesBetween(ev.start * 60000, ev.end * 60000)
    ensures ev.BookingEvent? ==>
      d.person == ev.person && d.classType == ev.classType && d.status == ev.status && d.reason == ""
    ensures ev.BlockEvent? ==>
      d.reason == ev.reason && d.person == "" && d.classType == "reformer" && d.status == "unpaid"
  {
    var dateISO := Slice(ToIsoString(ev.start), 0, 10);
    var startTime, endTime := ToHHmm(ev.start), ToHHmm(ev.end);
    var mins := MinutesBetween(ev.start * 60000, ev.end * 60000);
    match ev
    case BookingEvent(_, _, _, status, person, classType, _) =>
      EditDefaults(One, dateISO, startTime, endTime, person, classType, status, "", mins)
    case BlockEvent(_, _, _, _, reason, _) =>
      EditDefaults(One, dateISO, startTime, endTime, "", "reformer", "unpaid", reason, mins)
  }

  /** The first ten characters of `toISOString()` are the ISO date of the instant. */
  lemma IsoStringStartsWithDate(t: nat)
    requires DateOf(t).year < 10000
    ensures Slice(ToIsoString(t), 0, 10) == FormatIso(DateOf(t))
  {
    var date := FormatIso(DateOf(t));
    var rest := "T" + FormatHHmm(t) + ":00.000Z";
    assert ToIsoString(t) == date + rest;
    assert (date + rest)[..10] == date;
  }

  /** The default date is the day the event starts on, the same key the calendar groups it under. */
  lemma DefaultDateIsStartDay(ev: CalendarEvent)
    requires DateOf(ev.start).year < 10000
    ensures Defaults(ev).dateISO == FormatIso(DateOf(ev.start))
    ensures ParseIso(Defaults(ev).dateISO) == Some(DateOf(ev.start))
  {
    IsoStringStartsWithDate(ev.start);
    ParseFormatIso(DateOf(ev.start));
  }

  /**
   * A block whose end is after its start: the default start time and length,
   * fed to the block form's end-time preview, give back the block's end time.
   */
  lemma BlockDefaultsReproduceEnd(ev: CalendarEvent)
    requires ev.BlockEvent? && ev.end > ev.start
    ensures BlockTimeForm.AddMinutesToHHmm(Defaults(ev).startTime, Defaults(ev).blockLength) == ToHHmm(ev.end)
  {
    var k := ev.end - ev.start;
    assert Defaults(ev).blockLength == k by {
      EventLengthInMinutes(ev.start, ev.end);
    }
    assert Defaults(ev).startTime == FormatHHmm(ev.start) by {
      ToHHmmIsFormatHHmm(ev.start);
    }
    ToHHmmIsFormatHHmm(ev.end);
    BlockTimeForm.PreviewMatchesInstant(ev.start, k, ev.end);
  }
}
