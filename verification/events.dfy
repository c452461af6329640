/**
 * The event shapes shared by the store, the repository and the presenters:
 * a row of the `event` table and the `CalendarEvent` the repository hands to
 * the calendar views. Instants are minutes, as in module Calendar.
 */
module Events {
  import opened Wrappers

  datatype Kind = Booking | Block

  /**
   * A row of the `event` table. `id` stands for the generated cuid; the
   * optional columns are `None` when the row holds SQL null.
   */
  datatype EventRow = EventRow(
    id: nat,
    userId: Option<string>,
    kind: Kind,
    status: string,
    start: nat,
    end: nat,
    person: Option<string>,
    classType: Option<string>,
    reason: Option<string>,
    seriesId: Option<string>)

  /** A `CalendarEvent`: a booking or a block, as the repository builds it. */
  datatype CalendarEvent =
    | BookingEvent(id: nat, start: nat, end: nat, status: string, person: string, classType: string, seriesId: Option<string>)
    | BlockEvent(id: nat, start: nat, end: nat, status: string, reason: string, seriesId: Option<string>)

  /** JavaScript truthiness of an optional string: null, undefined and "" are all falsy. */
  predicate Present(v: Option<string>) {
    v.Some? && v.value != ""
  }

  /** The overlap test of the conflict query: `existing.start < end && existing.end > start`. */
  predicate Overlaps(existingStart: int, existingEnd: int, start: int, end: int) {
    existingStart < end && existingEnd > start
  }

  /** The same test read as intervals: some minute lies in both `[existingStart, existingEnd)` and `[start, end)`. */
  ghost predicate ShareAMinute(existingStart: int, existingEnd: int, start: int, end: int) {
    exists m: int :: Within(m, existingStart, existingEnd) && Within(m, start, end)
  }

  /** Minute `m` lies in the half-open interval `[start, end)`. */
  predicate Within(m: int, start: int, end: int) {
    start <= m < end
  }

  /** For non-empty intervals the conflict test is exactly "the two half-open intervals share a minute". */
  lemma OverlapsIffShareAMinute(existingStart: int, existingEnd: int, start: int, end: int)
    requires existingStart < existingEnd && start < end
    ensures Overlaps(existingStart, existingEnd, start, end) <==> ShareAMinute(existingStart, existingEnd, start, end)
  {
    if Overlaps(existingStart, existingEnd, start, end) {
      var m := if existingStart < start then start else existingStart;
      assert Within(m, existingStart, existingEnd) && Within(m, start, end);
    }
  }

  /** Back-to-back intervals, one ending when the other starts, never conflict. */
  lemma BackToBackDoNotOverlap(a: int, b: int, c: int)
    ensures !Overlaps(a, b, b, c) && !Overlaps(b, c, a, b)
  {
  }

  /** The test is symmetric: which interval is the existing one does not matter. */
  lemma OverlapsSymmetric(a: int, b: int, c: int, d: int)
    ensures Overlaps(a, b, c, d) <==> Overlaps(c, d, a, b)
  {
  }
}
