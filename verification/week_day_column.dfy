/**
 * The geometry of one day column in week view, in minutes: where an event's
 * box starts and how tall it is inside the visible hour window, and the
 * background slots with a heavier line at each hour.
 */
module WeekDayColumn {
  import opened Calendar

  /** `minutesFromStart`: minutes from the top of the window to the local clock time of `t`. */
  function MinutesFromStart(t: nat, startHour: int): (m: int)
    ensures m + startHour * 60 == HourOf(t) * 60 + MinuteOf(t)
  {
    (HourOf(t) - startHour) * 60 + MinuteOf(t)
  }

  /** The box of an event, in minutes from the top of the window. */
  datatype Bounds = Bounds(top: int, bottom: int, duration: int)

  function Max(a: int, b: int): int { if a < b then b else a }
  function Min(a: int, b: int): int { if a < b then a else b }

  /** `getEventBounds` before the conversion to pixels. */
  function EventBounds(start: nat, end: nat, startHour: int, endHour: int): (b: Bounds)
    ensures b.top >= 0
    ensures b.bottom <= (endHour - startHour) * 60
    ensures b.duration >= 1
    ensures b.duration == Max(1, b.bottom - b.top)
  {
    var startMin := MinutesFromStart(start, startHour);
    var endMin := MinutesFromStart(end, startHour);
    var totalMinutes := (endHour - startHour) * 60;
    var top := Max(0, startMin);
    var bottom := Min(totalMinutes, Max(startMin, endMin));
    Bounds(top, bottom, Max(1, bottom - top))
  }

  /** An event inside the window keeps its start and its length. */
  lemma InsideWindowKeepsStartAndLength(start: nat, end: nat, startHour: int, endHour: int)
    requires 0 <= MinutesFromStart(start, startHour) < MinutesFromStart(end, startHour) <= (endHour - startHour) * 60
    ensures EventBounds(start, end, startHour, endHour).top == MinutesFromStart(start, startHour)
    ensures EventBounds(start, end, startHour, endHour).duration == MinutesFromStart(end, startHour) - MinutesFromStart(start, startHour)
  {
  }

  /** An event that begins before the window and ends inside it is cut at the top. */
  lemma StartBeforeWindowIsCut(start: nat, end: nat, startHour: int, endHour: int)
    requires MinutesFromStart(start, startHour) < 0 < MinutesFromStart(end, startHour) <= (endHour - startHour) * 60
    ensures EventBounds(start, end, startHour, endHour).top == 0
    ensures EventBounds(start, end, startHour, endHour).duration == MinutesFromStart(end, startHour)
  {
  }

  /**
   * Only the clock time is read, so an event whose end clock time is not
   * after its start clock time, such as one ending at midnight, is drawn
   * one minute tall.
   */
  lemma EndNotAfterStartIsOneMinute(start: nat, end: nat, startHour: int, endHour: int)
    requires 0 <= MinutesFromStart(start, startHour) <= (endHour - startHour) * 60
    requires MinutesFromStart(end, startHour) <= MinutesFromStart(start, startHour)
    ensures EventBounds(start, end, startHour, endHour).duration == 1
  {
  }

  /** `60 / slotMinutes` for a slot size that divides the hour. */
  function SlotsPerHour(slotMinutes: nat): (n: nat)
    requires 0 < slotMinutes && 60 % slotMinutes == 0
    ensures n * slotMinutes == 60 && n >= 1
  {
    60 / slotMinutes
  }

  /**
   * The background slots, one entry per slot, true where the slot gets the
   * heavier hour line. A negative hour span gives no slots, as
   * `Array.from` does for a negative length.
   */
  function SlotLines(startHour: int, endHour: int, slotMinutes: nat): (lines: seq<bool>)
    requires 0 < slotMinutes && 60 % slotMinutes == 0
    ensures |lines| == if endHour < startHour then 0 else (endHour - startHour) * SlotsPerHour(slotMinutes)
    ensures forall i :: 0 <= i < |lines| ==> (lines[i] <==> i % SlotsPerHour(slotMinutes) == 0)
  {
    var perHour := SlotsPerHour(slotMinutes);
    var totalSlots := if endHour < startHour then 0 else (endHour - startHour) * perHour;
    seq(totalSlots, i requires 0 <= i < totalSlots => i % perHour == 0)
  }

  /** The slots cover the window exactly, and a slot has the hour line iff it begins on the hour. */
  lemma HourLinesFallOnTheHour(startHour: int, endHour: int, slotMinutes: nat, i: nat)
    requires 0 < slotMinutes && 60 % slotMinutes == 0 && startHour <= endHour
    requires i < |SlotLines(startHour, endHour, slotMinutes)|
    ensures |SlotLines(startHour, endHour, slotMinutes)| * slotMinutes == (endHour - startHour) * 60
    ensures SlotLines(startHour, endHour, slotMinutes)[i] <==> (i * slotMinutes) % 60 == 0
  {
    var perHour := SlotsPerHour(slotMinutes);
    var hours := endHour - startHour;
    assert hours * perHour * slotMinutes == hours * (perHour * slotMinutes);
    SlotOffset(i, perHour, slotMinutes);
  }

  /** Slot `i` begins `(i mod perHour) * slotMinutes` minutes past an hour. */
  lemma SlotOffset(i: nat, perHour: nat, slotMinutes: nat)
    requires perHour >= 1 && perHour * slotMinutes == 60
    ensures (i * slotMinutes) % 60 == (i % perHour) * slotMinutes
    ensures (i * slotMinutes) % 60 == 0 <==> i % perHour == 0
  {
    var q, r := i / perHour, i % perHour;
    assert i * slotMinutes == q * 60 + r * slotMinutes by {
      assert i == q * perHour + r;
      assert i * slotMinutes == q * (perHour * slotMinutes) + r * slotMinutes;
    }
    assert r * slotMinutes < 60 by {
      assert r * slotMinutes <= (perHour - 1) * slotMinutes;
    }
    assert (q * 60 + r * slotMinutes) % 60 == r * slotMinutes;
    assert r * slotMinutes == 0 <==> r == 0 by {
      assert slotMinutes > 0;
    }
  }
}
