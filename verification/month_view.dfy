/**
 * The month view: the 42 days of the grid, six weeks from the Monday on or
 * before the 1st of the month, and the events of a range grouped by the
 * ISO date of their start. The current date, which the component reads from
 * the clock, is a parameter.
 */
module MonthView {
  import opened Text
  import opened Calendar
  import opened Events

  /** One cell of the grid. */
  datatype DayModel = DayModel(dateISO: string, isCurrentMonth: bool, isToday: bool)

  /** The number of cells: six rows of seven days. */
  const GridCells: nat := 42

  /** `startOfWeek(startOfMonth(viewDate), { weekStartsOn: 1 })` */
  function GridStart(viewDate: Date): (d: Date)
    requires ValidDate(viewDate)
    ensures ValidDate(d) && IsoWeekday(d) == 1
    ensures DayNumber(d) <= DayNumber(StartOfMonth(viewDate)) < DayNumber(d) + 7
  {
    StartOfWeek(StartOfMonth(viewDate))
  }

  /** `addDays(start, i)`: the date of cell `i`. */
  function CellDate(viewDate: Date, i: nat): (d: Date)
    requires ValidDate(viewDate)
    ensures ValidDate(d) && DayNumber(d) == DayNumber(GridStart(viewDate)) + i
  {
    AddDays(GridStart(viewDate), i)
  }

  /** The cell the loop pushes at step `i`. */
  function Cell(viewDate: Date, today: Date, i: nat): DayModel
    requires ValidDate(viewDate) && ValidDate(today)
  {
    var iso := FormatIso(CellDate(viewDate, i));
    DayModel(iso, Slice(iso, 0, 7) == FormatYearMonth(viewDate), iso == FormatIso(today))
  }

  /** `[f(0), ..., f(n - 1)]`, built front to back as the loop builds it. */
  function Tabulate<T>(f: nat -> T, n: nat): (r: seq<T>)
    ensures |r| == n
    ensures forall k :: 0 <= k < n ==> r[k] == f(k)
  {
    if n == 0 then [] else Tabulate(f, n - 1) + [f(n - 1)]
  }

  /** `buildMonthMatrix(viewDate)`, with `today` for the date the component reads from the clock. */
  method BuildMonthMatrix(viewDate: Date, today: Date) returns (days: seq<DayModel>)
    requires ValidDate(viewDate) && ValidDate(today)
    ensures |days| == GridCells
    ensures forall i :: 0 <= i < |days| ==> days[i] == Cell(viewDate, today, i)
  {
    var start := GridStart(viewDate);
    var todayIso := FormatIso(today);
    var viewMonthKey := FormatYearMonth(viewDate);
    ghost var cellAt := (k: nat) requires ValidDate(viewDate) && ValidDate(today) => Cell(viewDate, today, k);
    days := [];
    for i := 0 to GridCells
      invariant days == Tabulate(cellAt, i)
    {
      var d := AddDays(start, i);
      var iso := FormatIso(d);
      var monthKey := Slice(iso, 0, 7);
      var cell := DayModel(iso, monthKey == viewMonthKey, iso == todayIso);
      assert cell == cellAt(i) by {
        assert d == CellDate(viewDate, i);
      }
      days := days + [cell];
    }
  }

  /** Cell 0 is the Monday on or before the 1st, and each cell is the day after the one before it. */
  lemma CellsAreConsecutiveFromMonday(viewDate: Date, i: nat)
    requires ValidDate(viewDate)
    ensures IsoWeekday(CellDate(viewDate, 0)) == 1
    ensures DayNumber(StartOfMonth(viewDate)) - 7 < DayNumber(CellDate(viewDate, 0)) <= DayNumber(StartOfMonth(viewDate))
    ensures DayNumber(CellDate(viewDate, i + 1)) == DayNumber(CellDate(viewDate, i)) + 1
  {
    DateOfDayNumber(GridStart(viewDate));
  }

  /** A cell belongs to the current month exactly when its date has the view date's year and month. */
  lemma IsCurrentMonthIff(viewDate: Date, today: Date, i: nat)
    requires ValidDate(viewDate) && ValidDate(today) && viewDate.year < 10000
    requires CellDate(viewDate, i).year < 10000
    ensures Cell(viewDate, today, i).isCurrentMonth <==>
      (CellDate(viewDate, i).year == viewDate.year && CellDate(viewDate, i).month == viewDate.month)
  {
    var d := CellDate(viewDate, i);
    IsoStartsWithYearMonth(d);
    FormatYearMonthIff(d, viewDate);
  }

  /** A cell is marked today exactly when its date is today, so at most one cell is. */
  lemma IsTodayIff(viewDate: Date, today: Date, i: nat, j: nat)
    requires ValidDate(viewDate) && ValidDate(today) && today.year < 10000
    requires CellDate(viewDate, i).year < 10000 && CellDate(viewDate, j).year < 10000
    ensures Cell(viewDate, today, i).isToday <==> CellDate(viewDate, i) == today
    ensures Cell(viewDate, today, i).isToday && Cell(viewDate, today, j).isToday ==> i == j
  {
    FormatIsoInjective(CellDate(viewDate, i), today);
    FormatIsoInjective(CellDate(viewDate, j), today);
  }

  /** Every day of the view month has a cell: the 1st is at most six cells in, and a month has at most 31 days. */
  lemma MonthIsCovered(viewDate: Date, d: Date)
    requires ValidDate(viewDate) && ValidDate(d)
    requires d.year == viewDate.year && d.month == viewDate.month
    ensures exists i :: 0 <= i < GridCells && CellDate(viewDate, i) == d
  {
    DayOfMonthNumber(d);
    var i := DayNumber(d) - DayNumber(GridStart(viewDate));
    assert StartOfMonth(d) == StartOfMonth(viewDate);
    assert 0 <= i < GridCells;
    DayNumberInjective(CellDate(viewDate, i), d);
  }

  // ---------------------------------------------------------------------------
  // Grouping by date
  // ---------------------------------------------------------------------------

  /** The `yyyy-MM-dd` key of an event: the ISO date of its start. */
  function DateKey(ev: CalendarEvent): string {
    FormatIso(DateOf(ev.start))
  }

  /** The elements of `list` whose key is `key`, in list order. */
  function Bucket<T>(list: seq<T>, keyOf: T -> string, key: string): (b: seq<T>)
    ensures |b| <= |list|
    ensures forall x :: x in b ==> x in list && keyOf(x) == key
  {
    if list == [] then []
    else
      var last := list[|list| - 1];
      Bucket(list[..|list| - 1], keyOf, key) + (if keyOf(last) == key then [last] else [])
  }

  /** Appending one element extends only the bucket of its key. */
  lemma BucketSnoc<T>(list: seq<T>, x: T, keyOf: T -> string, key: string)
    ensures Bucket(list + [x], keyOf, key) == Bucket(list, keyOf, key) + (if keyOf(x) == key then [x] else [])
  {
    assert (list + [x])[..|list|] == list;
  }

  /** `groups` holds, under each key, the bucket of that key, and only the non-empty buckets. */
  ghost predicate Grouped<T>(groups: map<string, seq<T>>, list: seq<T>, keyOf: T -> string) {
    && (forall key :: key in groups <==> Bucket(list, keyOf, key) != [])
    && (forall key :: key in groups ==> groups[key] == Bucket(list, keyOf, key))
  }

  /** One step of the grouping loop: pushing `x` onto the bucket of its key. */
  lemma GroupStep<T>(groups: map<string, seq<T>>, list: seq<T>, keyOf: T -> string, x: T, next: map<string, seq<T>>)
    requires Grouped(groups, list, keyOf)
    requires next == if keyOf(x) in groups then groups[keyOf(x) := groups[keyOf(x)] + [x]] else groups[keyOf(x) := [x]]
    ensures Grouped(next, list + [x], keyOf)
  {
    forall k ensures Bucket(list + [x], keyOf, k) == Bucket(list, keyOf, k) + (if keyOf(x) == k then [x] else []) {
      BucketSnoc(list, x, keyOf, k);
    }
  }

  lemma TakeOneMore<T>(s: seq<T>, i: nat)
    requires i < |s|
    ensures s[..i + 1] == s[..i] + [s[i]]
  {
  }

  /** `groupEventsByDate`: a record from date key to the events starting that day, in list order. */
  method GroupEventsByDate(list: seq<CalendarEvent>) returns (groups: map<string, seq<CalendarEvent>>)
    ensures forall key :: key in groups <==> Bucket(list, DateKey, key) != []
    ensures forall key :: key in groups ==> groups[key] == Bucket(list, DateKey, key)
  {
    groups := map[];
    for i := 0 to |list|
      invariant Grouped(groups, list[..i], DateKey)
    {
      var ev := list[i];
      var key := DateKey(ev);
      ghost var before := groups;
      if key in groups {
        groups := groups[key := groups[key] + [ev]];
      } else {
        groups := groups[key := [ev]];
      }
      GroupStep(before, list[..i], DateKey, ev, groups);
      TakeOneMore(list, i);
    }
    assert list[..|list|] == list;
  }

  /** Element `i` sits in the bucket of its key, after the earlier elements with that key: nothing is lost. */
  lemma {:induction false} EveryEventInItsBucket<T>(list: seq<T>, keyOf: T -> string, i: nat)
    requires i < |list|
    ensures |Bucket(list[..i], keyOf, keyOf(list[i]))| < |Bucket(list, keyOf, keyOf(list[i]))|
    ensures Bucket(list, keyOf, keyOf(list[i]))[|Bucket(list[..i], keyOf, keyOf(list[i]))|] == list[i]
    decreases |list|
  {
    var key := keyOf(list[i]);
    var init := list[..|list| - 1];
    if i == |list| - 1 {
      assert list[..i] == init;
    } else {
      assert init[..i] == list[..i] && init[i] == list[i];
      EveryEventInItsBucket(init, keyOf, i);
    }
  }

  /** Each bucket position holds exactly one element of the list: nothing is counted twice. */
  lemma {:induction false} EveryBucketEntryFromOneEvent<T>(list: seq<T>, keyOf: T -> string, key: string, p: nat)
    requires p < |Bucket(list, keyOf, key)|
    ensures exists i :: 0 <= i < |list| && keyOf(list[i]) == key && |Bucket(list[..i], keyOf, key)| == p
    decreases |list|
  {
    var init := list[..|list| - 1];
    if p < |Bucket(init, keyOf, key)| {
      EveryBucketEntryFromOneEvent(init, keyOf, key, p);
      var i :| 0 <= i < |init| && keyOf(init[i]) == key && |Bucket(init[..i], keyOf, key)| == p;
      assert init[..i] == list[..i];
    } else {
      assert list[..|list| - 1] == init;
    }
  }
}
