/**
 * `getEventsInRange`: the rows of one user that overlap a range, ordered by
 * start, each turned into a `CalendarEvent`. The query is a filter over the
 * table, the ordering a sort by start, and the mapping fails as a whole on
 * the first row that lacks a field its kind needs.
 */
module EventsRepo {
  import opened Wrappers
  import opened Events
  import Actions

  /** The error `rows.map` throws, carrying the row's id. */
  datatype RepoError = BookingMissingFields(id: nat) | BlockMissingReason(id: nat)

  /** The `where` clause: the caller's rows with `start < to` and `end > from`. */
  predicate Selected(row: EventRow, userId: string, from: int, to: int) {
    row.userId == Some(userId) && Overlaps(row.start, row.end, from, to)
  }

  /** The rows the `where` clause keeps, in table order. */
  function Select(rows: seq<EventRow>, userId: string, from: int, to: int): (r: seq<EventRow>)
    ensures forall x :: x in r ==> x in rows && Selected(x, userId, from, to)
    ensures forall x :: x in rows && Selected(x, userId, from, to) ==> x in r
    ensures |r| <= |rows|
  {
    if rows == [] then []
    else
      var rest := Select(rows[1..], userId, from, to);
      if Selected(rows[0], userId, from, to) then [rows[0]] + rest else rest
  }

  predicate SortedByStart(s: seq<EventRow>) {
    forall i, j :: 0 <= i < j < |s| ==> s[i].start <= s[j].start
  }

  /** Every start in `s` is at least `lo`. */
  predicate StartsFrom(s: seq<EventRow>, lo: int) {
    forall i :: 0 <= i < |s| ==> lo <= s[i].start
  }

  /** Places `x` into a list already ordered by start. */
  function Insert(x: EventRow, s: seq<EventRow>): (r: seq<EventRow>)
    requires SortedByStart(s)
    ensures SortedByStart(r)
    ensures multiset(r) == multiset(s) + multiset{x}
    ensures forall lo: int :: StartsFrom(s, lo) && lo <= x.start ==> StartsFrom(r, lo)
  {
    if s == [] then [x]
    else if x.start <= s[0].start then [x] + s
    else
      var rest := Insert(x, s[1..]);
      assert s == [s[0]] + s[1..];
      assert StartsFrom(s[1..], s[0].start);
      ConsSorted(s[0], rest);
      [s[0]] + rest
  }

  lemma ConsSorted(a: EventRow, s: seq<EventRow>)
    requires SortedByStart(s) && StartsFrom(s, a.start)
    ensures SortedByStart([a] + s)
    ensures forall lo: int :: lo <= a.start ==> StartsFrom([a] + s, lo)
  {
  }

  /** `orderBy: { start: "asc" }`: the same rows, ordered by start. */
  function SortByStart(s: seq<EventRow>): (r: seq<EventRow>)
    ensures SortedByStart(r)
    ensures multiset(r) == multiset(s)
  {
    if s == [] then []
    else
      assert s == [s[0]] + s[1..];
      Insert(s[0], SortByStart(s[1..]))
  }

  /** A row has every field its kind needs: person and class for a booking, a reason for a block. */
  predicate Complete(row: EventRow) {
    match row.kind
    case Booking => Present(row.person) && Present(row.classType)
    case Block => Present(row.reason)
  }

  /** The mapping of one row, throwing when a required field is missing. */
  function ToCalendarEvent(row: EventRow): (r: Result<CalendarEvent, RepoError>)
    ensures r.Ok? <==> Complete(row)
    ensures r.Err? ==> r.error == (if row.kind == Booking then BookingMissingFields(row.id) else BlockMissingReason(row.id))
    ensures r.Ok? ==> r.value.id == row.id && r.value.start == row.start && r.value.end == row.end
    ensures r.Ok? ==> r.value.seriesId == row.seriesId
    ensures r.Ok? ==> (r.value.BookingEvent? <==> row.kind == Booking)
    ensures r.Ok? && r.value.BookingEvent? ==>
      r.value.status == row.status && Some(r.value.person) == row.person && Some(r.value.classType) == row.classType
    ensures r.Ok? && r.value.BlockEvent? ==> r.value.status == "blocked" && Some(r.value.reason) == row.reason
  {
    match row.kind
    case Booking =>
      if !Present(row.person) || !Present(row.classType) then Err(BookingMissingFields(row.id))
      else Ok(BookingEvent(row.id, row.start, row.end, row.status, row.person.value, row.classType.value, row.seriesId))
    case Block =>
      if !Present(row.reason) then Err(BlockMissingReason(row.id))
      else Ok(BlockEvent(row.id, row.start, row.end, "blocked", row.reason.value, row.seriesId))
  }

  /** `rows.map(...)`: one event per row in the same order, or the error of the first incomplete row. */
  function MapRows(rows: seq<EventRow>): (r: Result<seq<CalendarEvent>, RepoError>)
    ensures r.Ok? <==> forall i :: 0 <= i < |rows| ==> Complete(rows[i])
    ensures r.Ok? ==> |r.value| == |rows|
    ensures r.Ok? ==> forall i :: 0 <= i < |rows| ==> ToCalendarEvent(rows[i]) == Ok(r.value[i])
    ensures r.Err? ==> exists i :: 0 <= i < |rows| && FirstIncomplete(rows, i) && ToCalendarEvent(rows[i]) == Err(r.error)
  {
    if rows == [] then Ok([])
    else
      match ToCalendarEvent(rows[0])
      case Err(e) =>
        assert FirstIncomplete(rows, 0);
        Err(e)
      case Ok(ev) =>
        match MapRows(rows[1..])
        case Err(e) =>
          ghost var i :| 0 <= i < |rows[1..]| && FirstIncomplete(rows[1..], i) && ToCalendarEvent(rows[1..][i]) == Err(e);
          assert FirstIncomplete(rows, i + 1);
          Err(e)
        case Ok(evs) =>
          assert rows == [rows[0]] + rows[1..];
          Ok([ev] + evs)
  }

  /** Row `i` is the first row that lacks a required field. */
  predicate FirstIncomplete(rows: seq<EventRow>, i: nat)
    requires i < |rows|
  {
    !Complete(rows[i]) && forall k :: 0 <= k < i ==> Complete(rows[k])
  }

  /** `getEventsInRange(from, to, userId)` over the table `rows`. */
  function GetEventsInRange(rows: seq<EventRow>, from: int, to: int, userId: string): (r: Result<seq<CalendarEvent>, RepoError>)
    ensures r.Ok? ==> |r.value| == |Select(rows, userId, from, to)|
  {
    MapRows(SortByStart(Select(rows, userId, from, to)))
  }

  /** The events come out ordered by start. */
  lemma EventsSortedByStart(rows: seq<EventRow>, from: int, to: int, userId: string)
    requires GetEventsInRange(rows, from, to, userId).Ok?
    ensures var evs := GetEventsInRange(rows, from, to, userId).value;
      forall i, j :: 0 <= i < j < |evs| ==> evs[i].start <= evs[j].start
  {
    var sorted := SortByStart(Select(rows, userId, from, to));
    var evs := GetEventsInRange(rows, from, to, userId).value;
    forall i, j | 0 <= i < j < |evs|
      ensures evs[i].start <= evs[j].start
    {
      assert ToCalendarEvent(sorted[i]) == Ok(evs[i]) && ToCalendarEvent(sorted[j]) == Ok(evs[j]);
    }
  }

  /** Every event returned comes from a selected row of the table, with its id and times. */
  lemma EventsComeFromSelectedRows(rows: seq<EventRow>, from: int, to: int, userId: string)
    requires GetEventsInRange(rows, from, to, userId).Ok?
    ensures var evs := GetEventsInRange(rows, from, to, userId).value;
      forall ev :: ev in evs ==> exists row :: row in rows && Selected(row, userId, from, to) && ToCalendarEvent(row) == Ok(ev)
  {
    var sorted := SortByStart(Select(rows, userId, from, to));
    var evs := GetEventsInRange(rows, from, to, userId).value;
    forall ev | ev in evs
      ensures exists row :: row in rows && Selected(row, userId, from, to) && ToCalendarEvent(row) == Ok(ev)
    {
      var i :| 0 <= i < |evs| && evs[i] == ev;
      assert sorted[i] in multiset(sorted);
      assert ToCalendarEvent(sorted[i]) == Ok(ev);
    }
  }

  /** Every selected row of the table is returned as an event. */
  lemma SelectedRowsAreReturned(rows: seq<EventRow>, from: int, to: int, userId: string, row: EventRow)
    requires GetEventsInRange(rows, from, to, userId).Ok?
    requires row in rows && Selected(row, userId, from, to)
    ensures ToCalendarEvent(row).Ok?
    ensures ToCalendarEvent(row).value in GetEventsInRange(rows, from, to, userId).value
  {
    var sorted := SortByStart(Select(rows, userId, from, to));
    assert row in multiset(Select(rows, userId, from, to));
    var i :| 0 <= i < |sorted| && sorted[i] == row;
    assert ToCalendarEvent(sorted[i]) == Ok(GetEventsInRange(rows, from, to, userId).value[i]);
  }

  /** Two lists with the same elements are complete together. */
  lemma SameRowsComplete(a: seq<EventRow>, b: seq<EventRow>)
    requires multiset(a) == multiset(b)
    ensures (forall i :: 0 <= i < |a| ==> Complete(a[i])) <==> (forall x :: x in b ==> Complete(x))
  {
    forall x | x in b
      ensures x in a
    {
      assert x in multiset(b);
    }
    forall i | 0 <= i < |a|
      ensures a[i] in b
    {
      assert a[i] in multiset(a);
    }
  }

  /** The query fails exactly when some selected row lacks a field its kind needs. */
  lemma FailsIffSelectedRowIncomplete(rows: seq<EventRow>, from: int, to: int, userId: string)
    ensures GetEventsInRange(rows, from, to, userId).Err? <==>
      exists row :: row in rows && Selected(row, userId, from, to) && !Complete(row)
  {
    var sel := Select(rows, userId, from, to);
    SameRowsComplete(SortByStart(sel), sel);
  }

  /** Rows the booking and block actions write carry no user id, so no caller's query returns them. */
  lemma StampedRowsAreNeverSelected(occurrences: seq<Actions.NewEvent>, firstId: nat, userId: string, from: int, to: int)
    ensures forall row :: row in Actions.Stamped(occurrences, firstId) ==> !Selected(row, userId, from, to)
  {
    var stamped := Actions.Stamped(occurrences, firstId);
    forall row | row in stamped
      ensures !Selected(row, userId, from, to)
    {
      var i :| 0 <= i < |stamped| && stamped[i] == row;
    }
  }
}
