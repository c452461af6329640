# Pilates scheduler — a Dafny model of its scheduling rules

The scheduler is a Next.js application for running a Pilates studio's diary. Clients book 1-2-1 reformer, 1-2-1 mat or duo classes as weekly series, and the owner blocks out time (a lunch, a holiday). Events are stored in an `event` table and shown in a month grid and a week grid.

This project models the rules behind those screens:

- the two server actions, `addBooking` and `addBlockedTime`:
  - they validate the submitted record with a zod schema;
  - they expand the record into one occurrence a week;
  - for bookings only, they refuse the batch if any occurrence overlaps a stored event;
  - they write every occurrence or none;
- the repository query `getEventsInRange`: the caller's rows that overlap a range, ordered by start and mapped to calendar events;
- the presentation rules: chip titles, time labels, class abbreviations, event labels and the week title;
- the calendar layout: the 42-cell month matrix, the 7-day week matrix, grouping events per day, clamping an event into the visible hour window, the background slots, the "+N more" split of a month cell, and the hour and header labels;
- the form helpers: the block form's end-time preview `addMinutesToHHmm` and its defaults, and the edit form's `toHHmm`, `minutesBetween`, default values and series switch.

An instant is a whole number of minutes of local wall-clock time since 0001-01-01T00:00. Dates are proleptic Gregorian. The date-fns functions the code calls are modelled in module `Calendar`, and the JavaScript string and number built-ins in module `Text`. The event table is a `seq` field of the class `Actions.EventStore`, and the two actions are methods on it. The month view's loops are methods with loop invariants. Everything else is pure functions with lemmas.

Two comments in `src/lib/week-label.ts` give example labels ("23–29 Sep 2025" and "30 Sep – 6 Oct 2025"). Those ranges run Tuesday to Monday. The code computes Monday to Sunday: `WeekLabel.WeekOfSeptember25` and `WeekLabel.WeekOfSeptember30` prove that the weeks of those dates run 22–28 Sep and 29 Sep – 5 Oct. The model follows the code.

## Model

| member | source | states |
|---|---|---|
| Text.JsString | src/components/calendar/WeekGrid.tsx:21 | `String(i)` is never empty, is the decimal numeral for i ≥ 0, and is "-" followed by the numeral of −i below zero |
| Text.DecimalValue | src/components/calendar/WeekGrid.tsx:21 | the numeral of n reads back as n |
| Text.ParseIntOfJsString | src/components/calendar/MonthDayCell.tsx:34 | `parseInt(String(i), 10)` gives i back, negative or not |
| Text.ParseIntOfDigits | src/components/calendar/MonthDayCell.tsx:34 | a run of digits followed by a non-digit, or by nothing, parses to the value of the digits |
| Text.PadStart | src/components/calendar/WeekGrid.tsx:21 | `padStart` result is `width` long when s is shorter, ends with s, and every character before s is the fill |
| Text.Pad2IsPadStart | src/components/EditForm.tsx:30-31 | the two-digit numeral of n is `String(n).padStart(2, "0")` |
| Text.Trim | src/lib/eventPresenter.ts:36 | `trim()` gives the input with its leading and trailing whitespace removed: a contiguous piece of the input with only whitespace before and after it, which neither starts nor ends with whitespace, and is empty only when the input is all whitespace |
| Text.TrimUnchanged | src/lib/eventPresenter.ts:36 | a string without surrounding whitespace is its own trim |
| Text.ToLower | src/components/calendar/EventContent.tsx:17 | `toLowerCase()` keeps the length and lower-cases each ASCII letter, leaving other characters unchanged |
| Text.Slice | src/components/calendar/MonthView.tsx:45 | `slice(start, end)` with indices inside the string is the substring between them, and never longer than the string |
| Text.Split | src/components/BlockTimeForm.tsx:24 | `split(sep)` yields at least one piece, no piece holds the separator, and a string without it is one piece |
| Text.SplitTwo | src/components/BlockTimeForm.tsx:24 | two separator-free pieces joined by the separator split back into exactly those two |
| Text.JoinSplit | src/components/BlockTimeForm.tsx:24 | joining the pieces of a split with the same separator gives the string back |
| Calendar.DateOfDay | src/components/calendar/MonthView.tsx:43 | every day count names exactly one valid date, the inverse of the day count |
| Calendar.DateOfDayNumber | src/components/calendar/MonthView.tsx:43 | converting a valid date to its day count and back gives the date |
| Calendar.DayNumberInjective | src/components/calendar/MonthView.tsx:43 | different valid dates have different day counts |
| Calendar.AddDays | src/components/calendar/MonthView.tsx:43 | `addDays(d, n)` is the valid date n days after d |
| Calendar.IsoWeekday | src/components/calendar/WeekGrid.tsx:29 | the ISO weekday, date-fns "i", lies in 1..7 |
| Calendar.StartOfWeek | src/components/calendar/WeekView.tsx:29 | `startOfWeek(d, { weekStartsOn: 1 })` is a Monday at most six days before d |
| Calendar.EndOfWeek | src/lib/week-label.ts:5 | `endOfWeek` is the Sunday six days after the start of the week, on or after d |
| Calendar.StartOfMonth | src/components/calendar/MonthView.tsx:37 | `startOfMonth` is the 1st of the same year and month |
| Calendar.InMonthIff | src/lib/week-label.ts:8 | a date shares a month with d exactly when its day count lies within the days of d's month |
| Calendar.DateOf | src/components/calendar/MonthView.tsx:58 | the date of an instant is the day that the instant's count of whole days names |
| Calendar.HourOf | src/components/calendar/WeekDayColumn.tsx:24 | `getHours()` is below 24 |
| Calendar.MinuteOf | src/components/calendar/WeekDayColumn.tsx:24 | `getMinutes()` is below 60 |
| Calendar.At | src/app/actions.ts:14-16 | the instant a given number of minutes into a date falls on that date, at the matching hour and minute |
| Calendar.AddWeeksKeepsClock | src/app/actions.ts:32-33 | `addWeeks(t, w)` moves the date 7·w days and keeps the hour, the minute and the weekday |
| Calendar.FormatIso | src/components/calendar/MonthView.tsx:44 | `format(d, "yyyy-MM-dd")` of a four-digit year has the `\d{4}-\d{2}-\d{2}` shape |
| Calendar.FormatYearMonth | src/components/calendar/MonthView.tsx:39 | `format(d, "yyyy-MM")` is seven characters for a four-digit year |
| Calendar.IsoStartsWithYearMonth | src/components/calendar/MonthView.tsx:45 | the first seven characters of a day's ISO date are its "yyyy-MM" key |
| Calendar.FormatYearMonthIff | src/components/calendar/MonthView.tsx:48 | two month keys are equal exactly when year and month are |
| Calendar.ParseIso | src/app/actions.ts:15 | `parseISO` of a date gives a result only for a correctly shaped string that names a real day |
| Calendar.ParseIsoParts | src/app/actions.ts:15 | `parseISO` of "yyyy-MM-dd" reads the three numerals and gives that day exactly when it is a real day, and no date otherwise |
| Calendar.ParseFormatIso | src/components/calendar/WeekGrid.tsx:27 | parsing the ISO form of a date gives the date back |
| Calendar.FormatIsoInjective | src/components/calendar/MonthView.tsx:49 | two ISO strings are equal exactly when the dates are |
| Calendar.FormatHHmm | src/lib/eventPresenter.ts:18 | `format(t, "HH:mm")` is five characters and reads back as the instant's hour and minute |
| Validation.LengthIssues | src/lib/validation.ts:6 | a string field with length bounds is accepted exactly when it is a string whose length lies within them (3..100 for the name) |
| Validation.EnumIssues | src/lib/validation.ts:7 | an enum field is accepted exactly when it is one of the options, and every failure carries the schema's message |
| Validation.ClassLengthIssues | src/lib/validation.ts:8-13 | `classLength` is accepted exactly when it is an integer in {30, 55, 90, 110}; an integer outside the set gets the "Choose one of" message |
| Validation.DurationStringsText | src/lib/validation.ts:12 | the refinement message lists "30", "55", "90", "110" |
| Validation.StartDateIssues | src/lib/validation.ts:14 | a start date is accepted exactly when it has the `\d{4}-\d{2}-\d{2}` shape; the empty string fails both checks |
| Validation.WeeksIssues | src/lib/validation.ts:15 | a week count is accepted exactly when it is an integer in 1..52; NaN fails at the type check alone |
| Validation.FieldErrors | src/app/actions.ts:21 | `fieldErrors` has an entry for exactly the fields with issues, holding those issues |
| Validation.BookingAcceptedIff | src/lib/validation.ts:5-17 | the booking schema accepts exactly when each of its six fields has no issue |
| Validation.ParseBooking | src/lib/validation.ts:5-17 | `safeParse` succeeds exactly when every field is accepted; then it yields the submitted values with a valid duration and 1..52 weeks, and otherwise a non-empty map of each failing field's issues |
| Validation.BlockAcceptedIff | src/lib/validation.ts:21-29 | the blocked-time schema accepts exactly when reason, start date and weeks have no issue |
| Validation.ParseBlockedTime | src/lib/validation.ts:21-29 | `safeParse` of a blocked time succeeds exactly when its three fields are accepted, and otherwise reports each failing field's issues |
| Validation.ShapeDoesNotCheckTheCalendar | src/lib/validation.ts:23 | "2025-02-30" passes the regex but names no real day |
| Events.OverlapsIffShareAMinute | src/app/actions.ts:46-51 | for non-empty intervals the conflict test holds exactly when the half-open intervals share a minute |
| Events.BackToBackDoNotOverlap | src/app/actions.ts:50 | an interval ending when the other starts does not conflict, in either order |
| Events.OverlapsSymmetric | src/app/actions.ts:50 | the conflict test does not depend on which interval is the stored one |
| Actions.DefaultStartIsNine | src/app/actions.ts:9 | `DEFAULT_START_TIME` is minute 540 of the day, 09:00 |
| Actions.ClockMinutes | src/app/actions.ts:9 | an "HH:mm:ss" time names a minute of the day below 1440 |
| Actions.DateAtTime | src/app/actions.ts:14-16 | `dateAtTime` gives an instant exactly when the date names a real day and the time is valid, and the instant has that date and time of day |
| Actions.FirstStart | src/app/actions.ts:27 | the first occurrence starts at 09:00 on the start date, and exists exactly when the date names a real day |
| Actions.Occurrence | src/app/actions.ts:31-44 | occurrence i starts i weeks after the first, lasts as long as the first, and keeps its other fields |
| Actions.Weekly | src/app/actions.ts:31 | the expansion has exactly `weeks` entries, entry i being occurrence i |
| Actions.BookingSessions | src/app/actions.ts:31-44 | `weeks` sessions, each a booking with the parsed status, name and class, lasting `classLength` minutes |
| Actions.BlockOccurrences | src/app/actions.ts:83-96 | `weeks` blocks, each with status "blocked", the reason, no person or class, lasting 60 minutes |
| Actions.OccurrenceDate | src/app/actions.ts:32-33 | occurrence i falls 7·i days after the first, at the same clock time and on the same weekday |
| Actions.BookingSessionSchedule | src/app/actions.ts:27-33 | session i of an accepted booking starts at 09:00 on the start date plus i weeks and lasts `classLength` |
| Actions.WeeklyDisjoint | src/app/actions.ts:31-44 | two different occurrences of one series, each at most a week long, never overlap |
| Actions.Conflicts | src/app/actions.ts:47-54 | the conflict query returns nothing exactly when no stored row overlaps an occurrence, and every detail comes from a row that does |
| Actions.Stamped | src/app/actions.ts:61 | `createMany` writes one row per occurrence, with consecutive ids, the occurrence's fields, and no user or series id |
| Actions.EventStore.Append | src/app/actions.ts:61 | the table grows by exactly the stamped occurrences, and ids stay distinct and below the counter |
| Actions.EventStore.AddBooking | src/app/actions.ts:18-70 | the result is the booking outcome: field errors, an escaping exception for a date naming no real day, a conflict, a database error or saved. Only "saved" changes the table, appending exactly the sessions |
| Actions.EventStore.AddBlockedTime | src/app/actions.ts:72-107 | the result is field errors, a database error (also for a date naming no real day) or saved. Only "saved" changes the table, appending exactly the blocks |
| Actions.BookingOutcome | src/app/actions.ts:18-70 | `addBooking` answers field errors (never an empty set) exactly when the schema rejects the input, and throws exactly when the input is accepted but its date names no real day; a conflict carries at least one detail; it is saved only for an accepted input on a real day whose write succeeds, and a database error only when the write fails |
| Actions.BlockOutcome | src/app/actions.ts:72-107 | `addBlockedTime` answers field errors (never an empty set) exactly when the schema rejects the input, is saved exactly when the input is accepted, its date names a real day and the write succeeds, and never reports a conflict or throws |
| Actions.BookingInvalidIff | src/app/actions.ts:19-22 | a booking is answered with field errors exactly when the schema rejects it |
| Actions.BookingConflictIff | src/app/actions.ts:46-58 | an accepted booking on a real day is refused as a conflict exactly when some stored row overlaps one of its sessions |
| Actions.BookingSavedIsConflictFree | src/app/actions.ts:56-65 | a saved booking was accepted, on a real day, with a successful write, and none of its sessions overlaps a stored row |
| Actions.AppendKeepsDisjoint | src/app/actions.ts:61 | appending rows that overlap neither each other nor the stored ones keeps the table free of overlaps |
| Actions.StampedWeeklyDisjoint | src/app/actions.ts:31-44 | the rows of one weekly series do not overlap each other |
| Actions.SessionsKeepDisjoint | src/app/actions.ts:46-61 | sessions that clear the conflict check keep an overlap-free table overlap-free |
| Actions.BookingKeepsDisjoint | src/app/actions.ts:18-70 | a saved booking keeps an overlap-free table overlap-free |
| Actions.LunchBlockSaved | src/app/actions.ts:72-107 | a one-week "Lunch" block on 2025-09-01 is accepted and, when the write succeeds, saved |
| Actions.BlockMayOverlap | src/app/actions.ts:83-99 | a blocked time is written without a conflict check, so it can overlap a stored booking |
| EventsRepo.Select | src/lib/eventsRepo.ts:13-18 | the query keeps exactly the caller's rows with `start < to` and `end > from` |
| EventsRepo.Insert | src/lib/eventsRepo.ts:19 | inserting into a start-ordered list keeps it ordered and adds exactly one element |
| EventsRepo.SortByStart | src/lib/eventsRepo.ts:19 | `orderBy: { start: "asc" }` gives the same rows, ordered by start |
| EventsRepo.ToCalendarEvent | src/lib/eventsRepo.ts:23-55 | a row maps exactly when it has the fields its kind needs. It throws naming the row's id otherwise. It keeps id, start, end and series. Bookings keep the status, person and class; blocks get status "blocked" and the reason |
| EventsRepo.MapRows | src/lib/eventsRepo.ts:23-57 | `rows.map` succeeds exactly when every row is complete, giving one event per row in order, and otherwise fails with the first incomplete row's error |
| EventsRepo.GetEventsInRange | src/lib/eventsRepo.ts:8-58 | on success there is one event per selected row |
| EventsRepo.EventsSortedByStart | src/lib/eventsRepo.ts:19 | the events come out ordered by start |
| EventsRepo.EventsComeFromSelectedRows | src/lib/eventsRepo.ts:13-55 | every event returned is the mapping of a selected row |
| EventsRepo.SelectedRowsAreReturned | src/lib/eventsRepo.ts:13-55 | every selected row is returned as an event |
| EventsRepo.FailsIffSelectedRowIncomplete | src/lib/eventsRepo.ts:23-44 | the query throws exactly when some selected row lacks a field its kind needs |
| EventsRepo.StampedRowsAreNeverSelected | src/lib/eventsRepo.ts:13-18 | the rows the actions write carry no user id, so no caller's query returns them |
| EventPresenter.ClassLabel | src/lib/display.ts:3-7 | `CLASS_LABEL` has an entry exactly for reformer, mat and duo, each the key with its first letter capitalised |
| EventPresenter.PresentEventForChip | src/lib/eventPresenter.ts:15-40 | the time label is start "HH:mm", an en dash, end "HH:mm". A booking shows its person or "Booking", its class label when it has a class, and its own status. A block shows its trimmed reason (or "Blocked" when empty), no class, and status "blocked" |
| EventPresenter.TimeLabelReadsBack | src/lib/eventPresenter.ts:18 | the time label reads back as the hour and minute of start and end |
| EventPresenter.BlockTitleIsTrimmed | src/lib/eventPresenter.ts:36 | a block title never begins or ends with whitespace, a reason without surrounding whitespace is shown as is, and an empty one as "Blocked" |
| EventPresenter.WhitespaceReasonGivesEmptyTitle | src/lib/eventPresenter.ts:36 | a reason of only whitespace gives an empty title, because the fallback applies before trimming |
| EventContent.ClassAbbreviation | src/components/calendar/EventContent.tsx:15-20 | null exactly for a missing or empty class; undefined exactly when it trims to nothing; otherwise the lower-cased first character of the trimmed class |
| EventContent.AbbreviationOfTrimmed | src/components/calendar/EventContent.tsx:17-19 | a class without surrounding whitespace is abbreviated to its lower-cased first character |
| EventContent.AbbreviationsOfClassTypes | src/components/calendar/EventContent.tsx:17 | "reformer" gives "r" and "Mat" gives "m" |
| EventContent.BuildEventLabel | src/components/calendar/EventContent.tsx:23-39 | the label is: the time label and a space (except in month view or without a time label), then the title, then " — class" when there is a class |
| EventContent.LabelContainsTitle | src/components/calendar/EventContent.tsx:32-38 | the label always contains the title |
| EventContent.LabelStartsWithTime | src/components/calendar/EventContent.tsx:36-38 | outside the compact form the label starts with the time label and a space |
| EventContent.CompactLabelWithoutClassIsTitle | src/components/calendar/EventContent.tsx:32-33 | in the compact form without a class the label is the title alone |
| WeekDayColumn.MinutesFromStart | src/components/calendar/WeekDayColumn.tsx:23-25 | minutes from the window's top, plus the window's start, is the clock time of the instant in minutes |
| WeekDayColumn.EventBounds | src/components/calendar/WeekDayColumn.tsx:27-45 | the box's top is never negative, its bottom never past the window's end, and its height at least one minute |
| WeekDayColumn.InsideWindowKeepsStartAndLength | src/components/calendar/WeekDayColumn.tsx:37-39 | an event inside the window keeps its start and its length |
| WeekDayColumn.StartBeforeWindowIsCut | src/components/calendar/WeekDayColumn.tsx:37-39 | an event that begins before the window is cut at the top |
| WeekDayColumn.EndNotAfterStartIsOneMinute | src/components/calendar/WeekDayColumn.tsx:38-39 | an event whose end clock time is not after its start clock time, such as one ending at midnight, is drawn one minute tall |
| WeekDayColumn.SlotsPerHour | src/components/calendar/WeekDayColumn.tsx:55 | the slots of an hour times the slot size is 60 |
| WeekDayColumn.SlotLines | src/components/calendar/WeekDayColumn.tsx:55-71 | there are hours × slots-per-hour slots, and slot i has the heavier line exactly when i is a multiple of the slots per hour |
| WeekDayColumn.HourLinesFallOnTheHour | src/components/calendar/WeekDayColumn.tsx:63-68 | the slots cover the window exactly, and a slot has the hour line exactly when it begins on the hour |
| MonthDayCell.Visible | src/components/calendar/MonthDayCell.tsx:37 | the chips drawn are the first `min(count, maxVisible)` events |
| MonthDayCell.Overflow | src/components/calendar/MonthDayCell.tsx:38 | the overflow is never negative, and drawn plus overflow is the event count |
| MonthDayCell.ShowsMoreIff | src/components/calendar/MonthDayCell.tsx:82 | "+N more" appears exactly when there are more events than the limit, N being the excess |
| MonthDayCell.FiveEventsShowFourAndOneMore | src/components/calendar/MonthDayCell.tsx:26-38 | with the default limit, five events give four chips and "+1 more" |
| MonthDayCell.DayNumOfIsoDate | src/components/calendar/MonthDayCell.tsx:33-36 | the day number of a cell is the day of month of its date |
| MonthView.GridStart | src/components/calendar/MonthView.tsx:37 | the grid starts on the Monday at most six days before the 1st of the month |
| MonthView.CellDate | src/components/calendar/MonthView.tsx:43 | cell i is i days after the grid start |
| MonthView.BuildMonthMatrix | src/components/calendar/MonthView.tsx:36-53 | the loop builds exactly 42 cells, cell i holding its date, whether it is in the view month, and whether it is today |
| MonthView.CellsAreConsecutiveFromMonday | src/components/calendar/MonthView.tsx:37-43 | cell 0 is the Monday on or before the 1st, and each cell is the day after the one before |
| MonthView.IsCurrentMonthIff | src/components/calendar/MonthView.tsx:39-48 | a cell is in the current month exactly when its date has the view date's year and month |
| MonthView.IsTodayIff | src/components/calendar/MonthView.tsx:38-49 | a cell is today exactly when its date is today, so at most one cell is |
| MonthView.MonthIsCovered | src/components/calendar/MonthView.tsx:36-53 | every day of the view month has a cell |
| MonthView.Bucket | src/components/calendar/MonthView.tsx:55-62 | a bucket holds only elements of the list with its key |
| MonthView.GroupEventsByDate | src/components/calendar/MonthView.tsx:55-62 | the loop yields a key exactly for each date some event starts on, holding that date's events in list order |
| MonthView.EveryEventInItsBucket | src/components/calendar/MonthView.tsx:57-59 | each event sits in the bucket of its date, after the earlier events of that date: nothing is lost |
| MonthView.EveryBucketEntryFromOneEvent | src/components/calendar/MonthView.tsx:57-59 | each bucket position comes from exactly one event: nothing is counted twice |
| WeekView.WeekDate | src/components/calendar/WeekView.tsx:29-33 | day i of the week is i days after the Monday |
| WeekView.BuildWeekMatrix | src/components/calendar/WeekView.tsx:28-40 | the week has exactly 7 days |
| WeekView.WeekRunsMondayToSunday | src/components/calendar/WeekView.tsx:29-33 | day 0 is a Monday, the days are consecutive, and the view date is one of them |
| WeekView.IsTodayIff | src/components/calendar/WeekView.tsx:30-37 | day i holds its ISO date, and is today exactly when its date is today |
| WeekView.GroupEventsByWeekDay | src/components/calendar/WeekView.tsx:42-51 | a key for exactly each date some event starts on, holding that date's events in list order |
| WeekView.WeekKeyIsFirstDay | src/components/calendar/WeekView.tsx:61-64 | the week key is the ISO date of the first day of the grid |
| WeekView.WeekViewColumnSlots | src/components/calendar/WeekView.tsx:86-88 | with hours 7 to 21 in 30-minute slots each column has 28 slots, every second one on the hour |
| WeekGrid.TimeLabels | src/components/calendar/WeekGrid.tsx:18-22 | there are `endHour − startHour` labels (none for a negative span), label i being that of hour startHour + i |
| WeekGrid.HourLabelOfDayHour | src/components/calendar/WeekGrid.tsx:21 | the label of an hour below 100 is its two digits and ":00", and reads back as the hour |
| WeekGrid.DefaultTimeLabels | src/components/calendar/WeekGrid.tsx:37-38 | with the default hours 6 to 22 there are 16 labels, "06:00" to "21:00" |
| WeekGrid.HeaderLabel | src/components/calendar/WeekGrid.tsx:26-31 | a header exists exactly when the string parses as a date |
| WeekGrid.HeaderLabelOfDay | src/components/calendar/WeekGrid.tsx:26-31 | a day's header reads back as its day of month, then a space, then its weekday name from Mon to Sun |
| WeekGrid.ColumnGetsItsDay | src/components/calendar/WeekGrid.tsx:87 | fed with the week view's grouping, a column receives exactly its day's events, in order, and an empty list for a day without events |
| WeekLabel.GetWeekRangeLabel | src/lib/week-label.ts:3-13 | the label starts with the Monday's day number and ends with the Sunday's "d MMM yyyy". Within one month they are joined by an en dash; across two months by " MMM – " |
| WeekLabel.RangeIsMondayToSunday | src/lib/week-label.ts:4-5 | the range runs from a Monday to the Sunday six days later, around the view date |
| WeekLabel.SameMonthIff | src/lib/week-label.ts:8 | both ends share a month exactly when the Sunday's day of month is the Monday's plus six |
| WeekLabel.WeekOfDate | src/lib/week-label.ts:4-5 | a Monday with the date in its next six days starts the date's week, and that Monday plus six ends it |
| WeekLabel.WeekOfSeptember25 | src/lib/week-label.ts:7-10 | the week of 25 Sep 2025 runs 22–28 Sep, within one month |
| WeekLabel.WeekOfSeptember30 | src/lib/week-label.ts:11-12 | the week of 30 Sep 2025 runs 29 Sep – 5 Oct, across two months |
| BlockTimeForm.JsRem | src/components/BlockTimeForm.tsx:26-27 | JavaScript's `%` equals the Euclidean remainder for a non-negative dividend, and lies in (−b, 0] for a negative one |
| BlockTimeForm.ClockFieldIsPadStart | src/components/BlockTimeForm.tsx:28 | a clock field is `String(n).padStart(2, "0")` |
| BlockTimeForm.AddMinutesToHHmm | src/components/BlockTimeForm.tsx:23-29 | an input whose hours or minutes do not parse gives "NaN:NaN" |
| BlockTimeForm.NonNegativeTotalIsClock | src/components/BlockTimeForm.tsx:25-28 | a non-negative total prints as five characters "HH:mm", with hour (total div 60) mod 24 and minute total mod 60 |
| BlockTimeForm.NegativeTotalIsNotAClock | src/components/BlockTimeForm.tsx:25-28 | a negative total that is not whole hours prints a minus sign |
| BlockTimeForm.ParseClockOfClock | src/components/BlockTimeForm.tsx:24-25 | a well-formed "HH:mm" parses to its minutes since midnight |
| BlockTimeForm.ClockOfClock | src/components/BlockTimeForm.tsx:25-28 | the minutes of a well-formed clock string print back as that string |
| BlockTimeForm.AddZeroIsIdentity | src/components/BlockTimeForm.tsx:23-29 | adding zero minutes to a well-formed "HH:mm" returns it unchanged |
| BlockTimeForm.AddDayIsSame | src/components/BlockTimeForm.tsx:26 | adding 1440 more minutes gives the same string |
| BlockTimeForm.PreviewMatchesInstant | src/components/BlockTimeForm.tsx:23-29 | the preview of an instant's "HH:mm" plus k minutes is the "HH:mm" of the instant k minutes later |
| BlockTimeForm.UnchangedDefaultsFailOnText | src/components/BlockTimeForm.tsx:46-52 | the defaults (empty text, 60 minutes, one week), submitted unchanged, are refused for reason and start date but not for weeks |
| EditForm.ToHHmmIsFormatHHmm | src/components/EditForm.tsx:29-33 | `toHHmm` prints an instant exactly as the calendar's "HH:mm" does |
| EditForm.RoundDiv | src/components/EditForm.tsx:38 | `Math.round(n / d)` is the integer nearest n / d, halves rounded up |
| EditForm.MinutesBetween | src/components/EditForm.tsx:35-39 | `minutesBetween` is at least one; it is exactly one when the instants are less than half a minute apart (or in the wrong order), and otherwise the number of minutes between them rounded to the nearest, halves rounding up |
| EditForm.MinutesBetweenWholeMinutes | src/components/EditForm.tsx:35-39 | instants a whole positive number k of minutes apart give k |
| EditForm.EventLengthInMinutes | src/components/EditForm.tsx:35-39 | for events on the minute grid the length is end − start, or one when the end is not after the start |
| EditForm.ScopeForSwitch | src/components/EditForm.tsx:241-245 | the series switch selects "series" exactly when checked and "one" exactly when not |
| EditForm.ScopeAfterToggles | src/components/EditForm.tsx:75-78 | the switch is shown only for an event with a truthy series id: without one, or before any toggle, the scope keeps its starting value; otherwise it is the scope selected by the last toggle |
| EditForm.Defaults | src/components/EditForm.tsx:81-117 | scope "one"; the first ten characters of the start's ISO string; start and end "HH:mm"; length in minutes. A booking keeps person, class and status with an empty reason. A block keeps its reason, with person "", class "reformer", status "unpaid" |
| EditForm.IsoStringStartsWithDate | src/components/EditForm.tsx:90 | the first ten characters of `toISOString()` are the ISO date of the instant |
| EditForm.DefaultDateIsStartDay | src/components/EditForm.tsx:107 | the default date is the day the event starts, and parses back to it |
| EditForm.BlockDefaultsReproduceEnd | src/components/EditForm.tsx:101-116 | for a block ending after its start, the block form's preview of the default start time plus the default length is the block's end time |

## Left out

- Time zones and daylight saving: the code formats in the browser's local zone and in Europe/London (`formatInTZ`). The model treats local wall-clock time as the instant itself, so every day has 1440 minutes. Instants are whole minutes; milliseconds appear only as minutes × 60000 in `minutesBetween`.
- Dates before year 1 are outside the model, and lemmas about formatted dates assume years below 10000. `new Date(string)` parsing of full ISO timestamps is replaced by the minute count.
- Prisma, `revalidatePath`, authentication, async/await and the server-action wiring. The table is a sequence. The database write succeeding or failing is a parameter. Generated cuids are a counter. The order the database gives rows with equal starts is not modelled.
- The update, delete and series actions under `src/app/(actions)/`, and the `createBlockBooking` action the block form submits to, are not part of this model.
- zod's default error wording: an issue records its code and the schema's own message, `None` standing for zod's default text.
- React state, rendering, dialogs, routing and the submit handlers of the forms. Pixel scaling (`PX_PER_MIN`) is left out: bounds stay in minutes. Slot sizes that do not divide the hour are excluded, since they make the slot count fractional.
- Case folding is ASCII only; `toLowerCase` of other letters is the identity here.
- `classAbbreviation`'s `undefined` and `null` both render nothing; the model keeps them apart as `Undefined` and `Null`.
- The `?? ""` and `?? "reformer"` fallbacks of the edit-form defaults are identities in the model, because `CalendarEvent`'s person, class and reason are non-null strings as the repository builds them.
- The booking form's option values do not match the schema's enums. The schema is modelled as written.
- The actions write rows without a user id, and the conflict query is not restricted to the caller. Both are modelled as written: `EventsRepo.StampedRowsAreNeverSelected` shows that such rows are never returned. Blocked time is saved without a conflict check (`Actions.BlockMayOverlap`).
- BlockTimeForm.AddMinutesToHHmm: its own contract states only the "NaN:NaN" case. Its value is stated by `NonNegativeTotalIsClock`, `NegativeTotalIsNotAClock`, `AddZeroIsIdentity`, `AddDayIsSame` and `PreviewMatchesInstant`, through the printed clock of the total. `minutes` is an integer here: a fractional or NaN `minutes` (a JavaScript number from the length field) is not modelled.
- BlockTimeForm.AddDayIsSame: proved only for a non-negative total. JavaScript's `%` keeps the sign of a negative total, so the strings can differ: a total of −30 prints "-1:-30", and 1410 prints "23:30".
- WeekView.BuildWeekMatrix: its contract states the length. The content of each day is stated by `WeekView.IsTodayIff` and `WeekView.WeekRunsMondayToSunday`.
- EventsRepo.GetEventsInRange: its own contract states the count. Order, provenance, completeness and failure are stated by the four lemmas that follow it in the table.
- Actions.ClockMinutes: states only the range. `Actions.DefaultStartIsNine` states its value for the one time the actions use.
- Actions.EventStore.AddBooking and Actions.EventStore.AddBlockedTime (and `Actions.BookingOutcome`, `Actions.BlockOutcome`): date-fns also parses year 0000 ("0000-05-01"), which the schema accepts, while the model's dates start at year 1. For such a date the model answers an exception (booking) or a database error (block) where the program would query and write the rows.
- Validation.LengthIssues and EventContent.ClassAbbreviation: lengths and indices count Unicode characters, while JavaScript's `length` and `[0]` count UTF-16 code units. A name made of characters outside the Basic Multilingual Plane is judged by its character count ("😀😀" has length 2 here and 4 in JavaScript), and such a first letter is abbreviated whole rather than as a lone surrogate.
