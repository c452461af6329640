/**
 * The server actions `addBooking` and `addBlockedTime`: validate the submitted
 * record, expand it into one occurrence a week, check bookings for conflicts
 * with the stored events, then write every occurrence or none.
 *
 * The `event` table is the field `rows` of an EventStore; the database write
 * succeeding or failing is a parameter, and `nextId` stands for the cuids the
 * database generates.
 */
module Actions {
  import opened Wrappers
  import opened Text
  import opened Calendar
  import opened Events
  import opened Validation

  /** `DEFAULT_START_TIME` */
  const DefaultStartTime: string := "09:00:00"

  /** `DEFAULT_BLOCK_MINUTES` */
  const DefaultBlockMinutes: nat := 60

  /** The minute of the day named by an "HH:mm:ss" time with zero seconds. */
  function ClockMinutes(hhmmss: string): (r: Option<nat>)
    ensures r.Some? ==> r.value < 1440
  {
    if |hhmmss| == 8 && hhmmss[2] == ':' && hhmmss[5] == ':'
       && AllDigits(hhmmss[..2]) && AllDigits(hhmmss[3..5]) && AllDigits(hhmmss[6..])
       && DigitsValue(hhmmss[..2]) < 24 && DigitsValue(hhmmss[3..5]) < 60 && DigitsValue(hhmmss[6..]) == 0
    then Some(DigitsValue(hhmmss[..2]) * 60 + DigitsValue(hhmmss[3..5]))
    else None
  }

  lemma DefaultStartIsNine()
    ensures ClockMinutes(DefaultStartTime) == Some(540)
  {
    var s := DefaultStartTime;
    assert s[..2] == "09" && s[3..5] == "00" && s[6..] == "00";
    assert DigitsValue("09") == 9 by { assert "09"[..1] == "0"; }
    assert DigitsValue("00") == 0 by { assert "00"[..1] == "0"; }
  }

  /**
   * `dateAtTime(date, hhmmss)`: `parseISO` of the joined string, `None` for an
   * invalid date (a shaped string naming no real day, such as "2025-02-30").
   */
  function DateAtTime(date: string, hhmmss: string): (r: Option<nat>)
    ensures r.Some? <==> ParseIso(date).Some? && ClockMinutes(hhmmss).Some?
    ensures r.Some? ==> DateOf(r.value) == ParseIso(date).value
    ensures r.Some? ==> HourOf(r.value) * 60 + MinuteOf(r.value) == ClockMinutes(hhmmss).value
  {
    match (ParseIso(date), ClockMinutes(hhmmss))
    case (Some(d), Some(m)) => Some(At(d, m))
    case _ => None
  }

  /** `dateAtTime(startDate, DEFAULT_START_TIME)`: 09:00 on the start date, when that is a real day. */
  function FirstStart(date: string): (r: Option<nat>)
    ensures r.Some? <==> ParseIso(date).Some?
    ensures r.Some? ==> DateOf(r.value) == ParseIso(date).value && HourOf(r.value) == 9 && MinuteOf(r.value) == 0
  {
    DefaultStartIsNine();
    DateAtTime(date, DefaultStartTime)
  }

  // ---------------------------------------------------------------------------
  // Weekly expansion
  // ---------------------------------------------------------------------------

  /** One record of the `createMany` data: a row without its generated id. */
  datatype NewEvent = NewEvent(
    kind: Kind,
    status: string,
    start: nat,
    end: nat,
    person: Option<string>,
    classType: Option<string>,
    reason: Option<string>)

  /** Occurrence `i` of a weekly series: `addWeeks(firstStart, i)` to `addWeeks(firstEnd, i)`. */
  function Occurrence(template: NewEvent, i: nat): (e: NewEvent)
    ensures e.start == template.start + i * 10080 && e.end - e.start == template.end - template.start
    ensures e.kind == template.kind && e.status == template.status && e.person == template.person
    ensures e.classType == template.classType && e.reason == template.reason
    requires template.start <= template.end
  {
    template.(start := template.start + i * 10080, end := template.end + i * 10080)
  }

  /** `Array.from({ length: weeks }, (_, i) => ...)`: the first occurrence repeated weekly. */
  function Weekly(template: NewEvent, weeks: nat): (s: seq<NewEvent>)
    requires template.start <= template.end
    ensures |s| == weeks
    ensures forall i :: 0 <= i < weeks ==> s[i] == Occurrence(template, i)
  {
    seq(weeks, i requires 0 <= i < weeks => Occurrence(template, i))
  }

  /** The sessions `addBooking` builds for a parsed booking whose first session starts at `firstStart`. */
  function BookingSessions(b: Booking, firstStart: nat): (s: seq<NewEvent>)
    requires b.classLength >= 0 && b.weeks >= 0
    ensures |s| == b.weeks
    ensures forall i :: 0 <= i < |s| ==> s[i].kind == Events.Booking && s[i].status == b.status
    ensures forall i :: 0 <= i < |s| ==> s[i].person == Some(b.name) && s[i].classType == Some(b.classType)
    ensures forall i :: 0 <= i < |s| ==> s[i].end - s[i].start == b.classLength
  {
    Weekly(NewEvent(Events.Booking, b.status, firstStart, firstStart + b.classLength, Some(b.name), Some(b.classType), None), b.weeks)
  }

  /** The blocks `addBlockedTime` builds: an hour each, status "blocked", no person or class. */
  function BlockOccurrences(b: BlockedTime, firstStart: nat): (s: seq<NewEvent>)
    requires b.weeks >= 0
    ensures |s| == b.weeks
    ensures forall i :: 0 <= i < |s| ==> s[i].kind == Block && s[i].status == "blocked" && s[i].reason == Some(b.reason)
    ensures forall i :: 0 <= i < |s| ==> s[i].person.None? && s[i].classType.None?
    ensures forall i :: 0 <= i < |s| ==> s[i].end - s[i].start == DefaultBlockMinutes
  {
    Weekly(NewEvent(Block, "blocked", firstStart, firstStart + DefaultBlockMinutes, None, None, Some(b.reason)), b.weeks)
  }

  /**
   * Occurrence `i` falls `7 i` days after the start date, at the same clock
   * time and on the same weekday.
   */
  lemma OccurrenceDate(template: NewEvent, i: nat)
    requires template.start <= template.end
    ensures DateOf(Occurrence(template, i).start) == AddDays(DateOf(template.start), 7 * i)
    ensures HourOf(Occurrence(template, i).start) == HourOf(template.start)
    ensures MinuteOf(Occurrence(template, i).start) == MinuteOf(template.start)
    ensures IsoWeekday(DateOf(Occurrence(template, i).start)) == IsoWeekday(DateOf(template.start))
  {
    AddWeeksKeepsClock(template.start, i);
  }

  /** Session `i` of an accepted booking starts at 09:00 on the start date plus `i` weeks, and lasts `classLength` minutes. */
  lemma BookingSessionSchedule(b: Booking, i: nat)
    requires b.classLength >= 0 && b.weeks >= 0 && i < b.weeks
    requires ParseIso(b.startDate).Some?
    ensures var s := BookingSessions(b, FirstStart(b.startDate).value);
      && DateOf(s[i].start) == AddDays(ParseIso(b.startDate).value, 7 * i)
      && HourOf(s[i].start) == 9 && MinuteOf(s[i].start) == 0
      && s[i].end - s[i].start == b.classLength
  {
    var first := FirstStart(b.startDate).value;
    OccurrenceDate(NewEvent(Events.Booking, b.status, first, first + b.classLength, Some(b.name), Some(b.classType), None), i);
  }

  lemma WeeksApart(i: nat, j: nat)
    requires i < j
    ensures i * 10080 + 10080 <= j * 10080
  {
  }

  /** No two occurrences of one series overlap while each lasts at most a week. */
  lemma WeeklyDisjoint(template: NewEvent, weeks: nat, i: nat, j: nat)
    requires template.start <= template.end <= template.start + 10080
    requires i < weeks && j < weeks && i != j
    ensures !Overlaps(Weekly(template, weeks)[i].start, Weekly(template, weeks)[i].end,
                      Weekly(template, weeks)[j].start, Weekly(template, weeks)[j].end)
  {
    if i < j { WeeksApart(i, j); } else { WeeksApart(j, i); }
  }

  // ---------------------------------------------------------------------------
  // Conflicts
  // ---------------------------------------------------------------------------

  /** The columns the conflict query selects. */
  datatype ConflictDetail = ConflictDetail(id: nat, start: nat, end: nat, kind: Kind, person: Option<string>)

  /** Does a stored row overlap any of the new occurrences (the `OR` of the query)? */
  predicate ClashesWithAny(row: EventRow, occurrences: seq<NewEvent>) {
    exists k :: 0 <= k < |occurrences| && Overlaps(row.start, row.end, occurrences[k].start, occurrences[k].end)
  }

  /** `prisma.event.findMany` of the conflict check: the stored rows, of any user, that overlap an occurrence. */
  function Conflicts(rows: seq<EventRow>, occurrences: seq<NewEvent>): (c: seq<ConflictDetail>)
    ensures |c| <= |rows|
    ensures c == [] <==> forall r :: 0 <= r < |rows| ==> !ClashesWithAny(rows[r], occurrences)
    ensures forall k :: 0 <= k < |c| ==> exists r :: 0 <= r < |rows| && ClashesWithAny(rows[r], occurrences) && c[k] == Detail(rows[r])
  {
    if rows == [] then []
    else
      var rest := Conflicts(rows[1..], occurrences);
      assert forall r :: 1 <= r < |rows| ==> rows[r] == rows[1..][r - 1];
      if ClashesWithAny(rows[0], occurrences) then [Detail(rows[0])] + rest else rest
  }

  function Detail(row: EventRow): ConflictDetail {
    ConflictDetail(row.id, row.start, row.end, row.kind, row.person)
  }

  // ---------------------------------------------------------------------------
  // The store
  // ---------------------------------------------------------------------------

  /** The value an action returns. */
  datatype ActionResult =
    | Saved                                        // { ok: true }
    | Invalid(errors: map<Field, seq<Issue>>)      // { ok: false, errors }
    | Conflicting(details: seq<ConflictDetail>)    // { ok: false, error: "conflict", details }
    | DbError                                      // { ok: false, error: "db_error" }
    | Threw                                        // the action rejects: the query was given an invalid date

  /** The rows `createMany` adds for some occurrences, ids from `firstId` on; userId and seriesId are not set. */
  function Stamped(occurrences: seq<NewEvent>, firstId: nat): (rows: seq<EventRow>)
    ensures |rows| == |occurrences|
    ensures forall i :: 0 <= i < |rows| ==> rows[i].id == firstId + i && rows[i].userId.None? && rows[i].seriesId.None?
    ensures forall i :: 0 <= i < |rows| ==> rows[i].start == occurrences[i].start && rows[i].end == occurrences[i].end
    ensures forall i :: 0 <= i < |rows| ==> rows[i].kind == occurrences[i].kind && rows[i].status == occurrences[i].status
    ensures forall i :: 0 <= i < |rows| ==> rows[i].person == occurrences[i].person && rows[i].classType == occurrences[i].classType
    ensures forall i :: 0 <= i < |rows| ==> rows[i].reason == occurrences[i].reason
  {
    seq(|occurrences|, i requires 0 <= i < |occurrences| =>
      var e := occurrences[i];
      EventRow(firstId + i, None, e.kind, e.status, e.start, e.end, e.person, e.classType, e.reason, None))
  }

  /** No two stored rows overlap. */
  ghost predicate Disjoint(rows: seq<EventRow>) {
    forall i, j :: 0 <= i < |rows| && 0 <= j < |rows| && i != j ==>
      !Overlaps(rows[i].start, rows[i].end, rows[j].start, rows[j].end)
  }

  /** What `addBooking` answers for a store and a submitted record. */
  function BookingOutcome(rows: seq<EventRow>, input: BookingInput, writeSucceeds: bool): (r: ActionResult)
    ensures r.Invalid? <==> !BookingAccepted(input)
    ensures r.Invalid? ==> r.errors != map[]
    ensures r.Threw? <==> BookingAccepted(input) && ParseIso(input.startDate.value).None?
    ensures r.Conflicting? ==> r.details != []
    ensures r.Saved? ==> BookingAccepted(input) && ParseIso(input.startDate.value).Some? && writeSucceeds
    ensures r.DbError? ==> !writeSucceeds
  {
    match ParseBooking(input)
    case Err(errors) => Invalid(errors)
    case Ok(b) =>
      match FirstStart(b.startDate)
      case None => Threw
      case Some(first) =>
        var c := Conflicts(rows, BookingSessions(b, first));
        if c != [] then Conflicting(c)
        else if writeSucceeds then Saved
        else DbError
  }

  /** What `addBlockedTime` answers: no conflict check, and an invalid date fails the write. */
  function BlockOutcome(input: BlockInput, writeSucceeds: bool): (r: ActionResult)
    ensures r.Invalid? <==> !BlockAccepted(input)
    ensures r.Invalid? ==> r.errors != map[]
    ensures r.Saved? <==> BlockAccepted(input) && ParseIso(input.startDate.value).Some? && writeSucceeds
    ensures !r.Conflicting? && !r.Threw?
  {
    match ParseBlockedTime(input)
    case Err(errors) => Invalid(errors)
    case Ok(b) =>
      if FirstStart(b.startDate).Some? && writeSucceeds then Saved else DbError
  }

  class EventStore {
    var rows: seq<EventRow>
    var nextId: nat

    /** Every id is below `nextId`, and ids are distinct. */
    ghost predicate Valid()
      reads this
    {
      && (forall i :: 0 <= i < |rows| ==> rows[i].id < nextId)
      && (forall i, j :: 0 <= i < j < |rows| ==> rows[i].id != rows[j].id)
    }

    constructor()
      ensures rows == [] && nextId == 0 && Valid()
    {
      rows := [];
      nextId := 0;
    }

    /** Appends rows with fresh ids. */
    method Append(added: seq<NewEvent>)
      requires Valid()
      modifies this
      ensures Valid()
      ensures rows == old(rows) + Stamped(added, old(nextId))
      ensures nextId == old(nextId) + |added|
    {
      var stamped := Stamped(added, nextId);
      rows := rows + stamped;
      nextId := nextId + |added|;
    }

    /** `addBooking(data)` */
    method AddBooking(input: BookingInput, writeSucceeds: bool) returns (r: ActionResult)
      requires Valid()
      modifies this
      ensures Valid()
      ensures r == BookingOutcome(old(rows), input, writeSucceeds)
      ensures r.Saved? ==>
        var b := ParseBooking(input).value;
        rows == old(rows) + Stamped(BookingSessions(b, FirstStart(b.startDate).value), old(nextId))
      ensures !r.Saved? ==> rows == old(rows) && nextId == old(nextId)
    {
      var parsed := ParseBooking(input);
      if parsed.Err? {
        return Invalid(parsed.error);
      }
      var b := parsed.value;
      var first := FirstStart(b.startDate);
      if first.None? {
        return Threw;
      }
      var sessions := BookingSessions(b, first.value);
      var conflicts := Conflicts(rows, sessions);
      if |conflicts| > 0 {
        return Conflicting(conflicts);
      }
      if !writeSucceeds {
        return DbError;
      }
      Append(sessions);
      return Saved;
    }

    /** `addBlockedTime(data)` */
    method AddBlockedTime(input: BlockInput, writeSucceeds: bool) returns (r: ActionResult)
      requires Valid()
      modifies this
      ensures Valid()
      ensures r == BlockOutcome(input, writeSucceeds)
      ensures r.Saved? ==>
        var b := ParseBlockedTime(input).value;
        rows == old(rows) + Stamped(BlockOccurrences(b, FirstStart(b.startDate).value), old(nextId))
      ensures !r.Saved? ==> rows == old(rows) && nextId == old(nextId)
    {
      var parsed := ParseBlockedTime(input);
      if parsed.Err? {
        return Invalid(parsed.error);
      }
      var b := parsed.value;
      var first := FirstStart(b.startDate);
      if first.None? || !writeSucceeds {
        return DbError;
      }
      Append(BlockOccurrences(b, first.value));
      return Saved;
    }
  }

  // ---------------------------------------------------------------------------
  // Properties of the outcomes
  // ---------------------------------------------------------------------------

  /** A booking is answered with field errors exactly when the schema rejects it. */
  lemma BookingInvalidIff(rows: seq<EventRow>, input: BookingInput, writeSucceeds: bool)
    ensures BookingOutcome(rows, input, writeSucceeds).Invalid? <==> !BookingAccepted(input)
  {
  }

  /**
   * A valid booking on a real day is refused as a conflict exactly when some
   * stored row overlaps one of its sessions.
   */
  lemma BookingConflictIff(rows: seq<EventRow>, input: BookingInput, writeSucceeds: bool)
    requires BookingAccepted(input) && ParseIso(input.startDate.value).Some?
    ensures var b := ParseBooking(input).value;
      var sessions := BookingSessions(b, FirstStart(b.startDate).value);
      BookingOutcome(rows, input, writeSucceeds).Conflicting? <==>
        exists r :: 0 <= r < |rows| && ClashesWithAny(rows[r], sessions)
  {
  }

  /** Only a booking on a real day whose write succeeds is saved, and then none of its sessions overlaps a stored row. */
  lemma BookingSavedIsConflictFree(rows: seq<EventRow>, input: BookingInput, writeSucceeds: bool)
    requires BookingOutcome(rows, input, writeSucceeds).Saved?
    ensures BookingAccepted(input) && ParseIso(input.startDate.value).Some? && writeSucceeds
    ensures var b := ParseBooking(input).value;
      var sessions := BookingSessions(b, FirstStart(b.startDate).value);
      forall r, k :: 0 <= r < |rows| && 0 <= k < |sessions| ==>
        !Overlaps(rows[r].start, rows[r].end, sessions[k].start, sessions[k].end)
  {
    var b := ParseBooking(input).value;
    var sessions := BookingSessions(b, FirstStart(b.startDate).value);
    forall r, k | 0 <= r < |rows| && 0 <= k < |sessions|
      ensures !Overlaps(rows[r].start, rows[r].end, sessions[k].start, sessions[k].end)
    {
      assert !ClashesWithAny(rows[r], sessions);
    }
  }

  /** Appending rows that overlap neither each other nor the stored rows keeps the store free of overlaps. */
  lemma AppendKeepsDisjoint(rows: seq<EventRow>, added: seq<EventRow>)
    requires Disjoint(rows) && Disjoint(added)
    requires forall r, k :: 0 <= r < |rows| && 0 <= k < |added| ==>
      !Overlaps(rows[r].start, rows[r].end, added[k].start, added[k].end)
    ensures Disjoint(rows + added)
  {
    var all := rows + added;
    forall i, j | 0 <= i < |all| && 0 <= j < |all| && i != j
      ensures !Overlaps(all[i].start, all[i].end, all[j].start, all[j].end)
    {
      if i < |rows| && j >= |rows| {
        assert all[j] == added[j - |rows|];
      } else if i >= |rows| && j < |rows| {
        assert all[i] == added[i - |rows|];
        assert !Overlaps(rows[j].start, rows[j].end, added[i - |rows|].start, added[i - |rows|].end);
      } else if i >= |rows| {
        assert all[i] == added[i - |rows|] && all[j] == added[j - |rows|];
      }
    }
  }

  /** The rows of one weekly series, each at most a week long, never overlap each other. */
  lemma StampedWeeklyDisjoint(template: NewEvent, weeks: nat, firstId: nat)
    requires template.start <= template.end <= template.start + 10080
    ensures Disjoint(Stamped(Weekly(template, weeks), firstId))
  {
    var added := Stamped(Weekly(template, weeks), firstId);
    forall i, j | 0 <= i < |added| && 0 <= j < |added| && i != j
      ensures !Overlaps(added[i].start, added[i].end, added[j].start, added[j].end)
    {
      WeeklyDisjoint(template, weeks, i, j);
    }
  }

  /** Sessions that overlap no stored row keep a store without overlaps free of overlaps. */
  lemma SessionsKeepDisjoint(rows: seq<EventRow>, b: Booking, first: nat, firstId: nat)
    requires b.classLength in DurationOptions && b.weeks >= 0
    requires Disjoint(rows)
    requires var sessions := BookingSessions(b, first);
      forall r, k :: 0 <= r < |rows| && 0 <= k < |sessions| ==>
        !Overlaps(rows[r].start, rows[r].end, sessions[k].start, sessions[k].end)
    ensures Disjoint(rows + Stamped(BookingSessions(b, first), firstId))
  {
    var template := NewEvent(Events.Booking, b.status, first, first + b.classLength, Some(b.name), Some(b.classType), None);
    StampedWeeklyDisjoint(template, b.weeks, firstId);
    AppendKeepsDisjoint(rows, Stamped(BookingSessions(b, first), firstId));
  }

  /** A saved booking keeps a store without overlaps free of overlaps. */
  lemma BookingKeepsDisjoint(rows: seq<EventRow>, input: BookingInput, writeSucceeds: bool, firstId: nat)
    requires Disjoint(rows)
    requires BookingOutcome(rows, input, writeSucceeds).Saved?
    ensures var b := ParseBooking(input).value;
      Disjoint(rows + Stamped(BookingSessions(b, FirstStart(b.startDate).value), firstId))
  {
    BookingSavedIsConflictFree(rows, input, writeSucceeds);
    var b := ParseBooking(input).value;
    SessionsKeepDisjoint(rows, b, FirstStart(b.startDate).value, firstId);
  }

  lemma SeptemberFirst()
    ensures ParseIso("2025-09-01") == Some(Date(2025, 9, 1))
  {
    assert "2025-09-01" == "2025" + "-" + "09" + "-" + "01";
    FourDigits("2025");
    TwoDigits("09");
    TwoDigits("01");
    ParseIsoParts("2025", "09", "01");
  }

  /** A one-week "Lunch" block on 2025-09-01 passes the schema and, if the write succeeds, is saved. */
  lemma LunchBlockSaved()
    ensures var input := BlockInput(Some("Lunch"), Some("2025-09-01"), Some(1.0));
      && ParseBlockedTime(input) == Ok(BlockedTime("Lunch", "2025-09-01", 1))
      && BlockOutcome(input, true).Saved?
  {
    SeptemberFirst();
    var input := BlockInput(Some("Lunch"), Some("2025-09-01"), Some(1.0));
    assert BlockAccepted(input) by {
      assert IsIsoShaped("2025-09-01");
    }
  }

  /**
   * A blocked time is saved without any conflict check (LunchBlockSaved): its
   * first hour overlaps a booking stored at the same start.
   */
  lemma BlockMayOverlap(first: nat)
    ensures var existing := EventRow(0, None, Events.Booking, "paid", first, first + 55, Some("Ann"), Some("duo"), None, None);
      && Disjoint([existing])
      && !Disjoint([existing] + Stamped(BlockOccurrences(BlockedTime("Lunch", "2025-09-01", 1), first), 1))
  {
    var existing := EventRow(0, None, Events.Booking, "paid", first, first + 55, Some("Ann"), Some("duo"), None, None);
    var all := [existing] + Stamped(BlockOccurrences(BlockedTime("Lunch", "2025-09-01", 1), first), 1);
    assert Overlaps(all[0].start, all[0].end, all[1].start, all[1].end);
  }
}
