/**
 * The two zod schemas of the booking forms, `AddBookingSchema` and
 * `AddBlockedTimeSchema`, as functions from the submitted record to either the
 * parsed record or the field errors (`error.flatten().fieldErrors`).
 *
 * A submitted field that should be a string is `None` when it is absent or not
 * a string. A field passed through `z.coerce.number()` is given as the number
 * that `Number(...)` produced, `None` standing for `NaN`.
 */
module Validation {
  import opened Wrappers
  import opened Text
  import opened Calendar

  /** `DURATION_OPTIONS`: the class lengths a booking may have, in minutes. */
  const DurationOptions: seq<int> := [30, 55, 90, 110]

  const ClassOptions: seq<string> := ["1-2-1 reformer", "1-2-1 mat", "duo"]

  const StatusOptions: seq<string> := ["paid", "not paid", "hold", "blocked"]

  const MinWeeks: int := 1
  const MaxWeeks: int := 52

  datatype IssueCode =
    | InvalidType
    | InvalidEnumValue
    | TooSmall(minimum: int)
    | TooBig(maximum: int)
    | NotInteger
    | InvalidPattern
    | NotADuration

  /** One zod issue: what failed, and the schema's own message for it (`None`: zod's default wording). */
  datatype Issue = Issue(code: IssueCode, message: Option<string>)

  /** The submitted booking record; `classType` is the schema's `class` key. */
  datatype BookingInput = BookingInput(
    name: Option<string>,
    classType: Option<string>,
    classLength: Option<real>,
    startDate: Option<string>,
    weeks: Option<real>,
    status: Option<string>)

  /** The submitted blocked-time record. */
  datatype BlockInput = BlockInput(reason: Option<string>, startDate: Option<string>, weeks: Option<real>)

  /** `parsed.data` of a booking. */
  datatype Booking = Booking(name: string, classType: string, classLength: int, startDate: string, weeks: int, status: string)

  /** `parsed.data` of a blocked time. */
  datatype BlockedTime = BlockedTime(reason: string, startDate: string, weeks: int)

  predicate IsInteger(r: real) {
    r.Floor as real == r
  }

  predicate IsDuration(r: real) {
    exists d :: d in DurationOptions && d as real == r
  }

  // ---------------------------------------------------------------------------
  // Per-field checks; an empty list means the field is accepted
  // ---------------------------------------------------------------------------

  /** `z.string().min(lo, ...).max(hi, ...)`: both bounds are checked, so both may fail. */
  function LengthIssues(v: Option<string>, lo: nat, loMessage: Option<string>, hi: nat, hiMessage: Option<string>): (issues: seq<Issue>)
    ensures issues == [] <==> (v.Some? && lo <= |v.value| <= hi)
    ensures v.None? ==> issues == [Issue(InvalidType, None)]
  {
    match v
    case None => [Issue(InvalidType, None)]
    case Some(s) =>
      (if |s| < lo then [Issue(TooSmall(lo), loMessage)] else [])
      + (if |s| > hi then [Issue(TooBig(hi), hiMessage)] else [])
  }

  /** `z.enum(options, { message })`: every failure carries the one message. */
  function EnumIssues(v: Option<string>, options: seq<string>, message: string): (issues: seq<Issue>)
    ensures issues == [] <==> (v.Some? && v.value in options)
    ensures forall i :: 0 <= i < |issues| ==> issues[i].message == Some(message)
  {
    match v
    case None => [Issue(InvalidType, Some(message))]
    case Some(s) => if s in options then [] else [Issue(InvalidEnumValue, Some(message))]
  }

  /** `z.string().min(1, ...).regex(/^\d{4}-\d{2}-\d{2}$/, ...)`; month and day ranges are not checked. */
  function StartDateIssues(v: Option<string>): (issues: seq<Issue>)
    ensures issues == [] <==> (v.Some? && IsIsoShaped(v.value))
    ensures v == Some("") ==> |issues| == 2
  {
    match v
    case None => [Issue(InvalidType, None)]
    case Some(s) =>
      (if |s| < 1 then [Issue(TooSmall(1), Some("Start date is required"))] else [])
      + (if !IsIsoShaped(s) then [Issue(InvalidPattern, Some("Use yyyy-MM-dd"))] else [])
  }

  /**
   * `z.coerce.number(...).int(...).min(1, ...).max(52, ...)`: NaN stops at the
   * type check; otherwise every failing check is reported.
   */
  function WeeksIssues(v: Option<real>, nanMessage: Option<string>, intMessage: Option<string>,
                       minMessage: Option<string>, maxMessage: Option<string>): (issues: seq<Issue>)
    ensures issues == [] <==> (v.Some? && IsInteger(v.value) && MinWeeks as real <= v.value <= MaxWeeks as real)
    ensures v.None? ==> issues == [Issue(InvalidType, nanMessage)]
  {
    match v
    case None => [Issue(InvalidType, nanMessage)]
    case Some(r) =>
      (if !IsInteger(r) then [Issue(NotInteger, intMessage)] else [])
      + (if r < MinWeeks as real then [Issue(TooSmall(MinWeeks), minMessage)] else [])
      + (if r > MaxWeeks as real then [Issue(TooBig(MaxWeeks), maxMessage)] else [])
  }

  /** The refinement message, built from `DURATION_OPTIONS` as the schema does. */
  function DurationMessage(): (m: string)
  {
    "Choose one of: " + Join(DurationStrings(), ", ") + " minutes"
  }

  function DurationStrings(): (parts: seq<string>)
  {
    seq(|DurationOptions|, i requires 0 <= i < |DurationOptions| => JsString(DurationOptions[i]))
  }

  /** The options as the message spells them. */
  lemma DurationStringsText()
    ensures DurationStrings() == ["30", "55", "90", "110"]
  {
    assert JsString(30) == "30" && JsString(55) == "55" && JsString(90) == "90";
    assert JsString(110) == "110" by { assert Decimal(11) == "11"; }
  }

  /** `z.coerce.number().int(...).refine(n => DURATION_OPTIONS.includes(n), ...)`. */
  function ClassLengthIssues(v: Option<real>): (issues: seq<Issue>)
    ensures issues == [] <==> (v.Some? && IsInteger(v.value) && IsDuration(v.value))
    ensures v.Some? && IsInteger(v.value) && !IsDuration(v.value) ==> issues == [Issue(NotADuration, Some(DurationMessage()))]
  {
    match v
    case None => [Issue(InvalidType, None)]
    case Some(r) =>
      (if !IsInteger(r) then [Issue(NotInteger, Some("Whole minutes only"))] else [])
      + (if !IsDuration(r) then [Issue(NotADuration, Some(DurationMessage()))] else [])
  }

  // ---------------------------------------------------------------------------
  // Field errors
  // ---------------------------------------------------------------------------

  /** The keys of the two schemas; `Key` gives the property name used in `fieldErrors`. */
  datatype Field = Name | Class | ClassLength | StartDate | Weeks | Status | Reason

  function Key(f: Field): string {
    match f
    case Name => "name"
    case Class => "class"
    case ClassLength => "classLength"
    case StartDate => "startDate"
    case Weeks => "weeks"
    case Status => "status"
    case Reason => "reason"
  }

  /** `fieldErrors`: the issues of every field that has any, and no entry for the others. */
  function FieldErrors(fields: seq<Field>, issuesOf: Field -> seq<Issue>): (m: map<Field, seq<Issue>>)
    ensures forall f :: f in m <==> (f in fields && issuesOf(f) != [])
    ensures forall f :: f in m ==> m[f] == issuesOf(f)
  {
    if fields == [] then map[]
    else
      var rest := FieldErrors(fields[1..], issuesOf);
      if issuesOf(fields[0]) == [] then rest else rest[fields[0] := issuesOf(fields[0])]
  }

  // ---------------------------------------------------------------------------
  // AddBookingSchema
  // ---------------------------------------------------------------------------

  const BookingFields: seq<Field> := [Name, Class, ClassLength, StartDate, Weeks, Status]

  function BookingFieldIssues(input: BookingInput, field: Field): seq<Issue>
  {
    match field
    case Name => LengthIssues(input.name, 3, Some("Please enter a client name"), 100, Some("Name must be under 100 characters"))
    case Class => EnumIssues(input.classType, ClassOptions, "Please choose a class")
    case ClassLength => ClassLengthIssues(input.classLength)
    case StartDate => StartDateIssues(input.startDate)
    case Weeks => WeeksIssues(input.weeks, Some("Please choose a number of weeks"), None, None, None)
    case Status => EnumIssues(input.status, StatusOptions, "Please choose a paid status")
    case Reason => []
  }

  /** What the booking schema accepts, field by field. */
  predicate BookingAccepted(input: BookingInput) {
    && input.name.Some? && 3 <= |input.name.value| <= 100
    && input.classType.Some? && input.classType.value in ClassOptions
    && input.classLength.Some? && IsInteger(input.classLength.value) && IsDuration(input.classLength.value)
    && input.startDate.Some? && IsIsoShaped(input.startDate.value)
    && input.weeks.Some? && IsInteger(input.weeks.value) && 1.0 <= input.weeks.value <= 52.0
    && input.status.Some? && input.status.value in StatusOptions
  }

  lemma BookingAcceptedIff(input: BookingInput)
    ensures BookingAccepted(input) <==> forall f :: f in BookingFields ==> BookingFieldIssues(input, f) == []
  {
    if forall f :: f in BookingFields ==> BookingFieldIssues(input, f) == [] {
      assert BookingFieldIssues(input, Name) == [] && BookingFieldIssues(input, Class) == [];
      assert BookingFieldIssues(input, ClassLength) == [] && BookingFieldIssues(input, StartDate) == [];
      assert BookingFieldIssues(input, Weeks) == [] && BookingFieldIssues(input, Status) == [];
    }
  }

  /** `AddBookingSchema.safeParse(data)`: the parsed booking, or the issues of every failing field. */
  function ParseBooking(input: BookingInput): (r: Result<Booking, map<Field, seq<Issue>>>)
    ensures r.Ok? <==> BookingAccepted(input)
    ensures r.Ok? ==> r.value == Booking(input.name.value, input.classType.value, input.classLength.value.Floor,
                                         input.startDate.value, input.weeks.value.Floor, input.status.value)
    ensures r.Ok? ==> r.value.classLength in DurationOptions && 1 <= r.value.weeks <= 52
    ensures r.Err? ==> r.error != map[]
    ensures r.Err? ==> forall f :: f in r.error ==> f in BookingFields && r.error[f] == BookingFieldIssues(input, f) != []
  {
    var errors := FieldErrors(BookingFields, f => BookingFieldIssues(input, f));
    BookingAcceptedIff(input);
    if errors == map[] then
      Ok(Booking(input.name.value, input.classType.value, input.classLength.value.Floor,
                 input.startDate.value, input.weeks.value.Floor, input.status.value))
    else
      Err(errors)
  }

  // ---------------------------------------------------------------------------
  // AddBlockedTimeSchema
  // ---------------------------------------------------------------------------

  const BlockFields: seq<Field> := [Reason, StartDate, Weeks]

  function BlockFieldIssues(input: BlockInput, field: Field): seq<Issue>
  {
    match field
    case Reason => LengthIssues(input.reason, 3, Some("Enter reason"), 100, None)
    case StartDate => StartDateIssues(input.startDate)
    case Weeks => WeeksIssues(input.weeks, None, Some("Whole weeks only"), Some("Min 1 week"), Some("Max 52 weeks"))
    case _ => []
  }

  /** What the blocked-time schema accepts, field by field. */
  predicate BlockAccepted(input: BlockInput) {
    && input.reason.Some? && 3 <= |input.reason.value| <= 100
    && input.startDate.Some? && IsIsoShaped(input.startDate.value)
    && input.weeks.Some? && IsInteger(input.weeks.value) && 1.0 <= input.weeks.value <= 52.0
  }

  lemma BlockAcceptedIff(input: BlockInput)
    ensures BlockAccepted(input) <==> forall f :: f in BlockFields ==> BlockFieldIssues(input, f) == []
  {
    if forall f :: f in BlockFields ==> BlockFieldIssues(input, f) == [] {
      assert BlockFieldIssues(input, Reason) == [];
      assert BlockFieldIssues(input, StartDate) == [] && BlockFieldIssues(input, Weeks) == [];
    }
  }

  /** `AddBlockedTimeSchema.safeParse(data)`. */
  function ParseBlockedTime(input: BlockInput): (r: Result<BlockedTime, map<Field, seq<Issue>>>)
    ensures r.Ok? <==> BlockAccepted(input)
    ensures r.Ok? ==> r.value == BlockedTime(input.reason.value, input.startDate.value, input.weeks.value.Floor)
    ensures r.Ok? ==> 1 <= r.value.weeks <= 52
    ensures r.Err? ==> r.error != map[]
    ensures r.Err? ==> forall f :: f in r.error ==> f in BlockFields && r.error[f] == BlockFieldIssues(input, f) != []
  {
    var errors := FieldErrors(BlockFields, f => BlockFieldIssues(input, f));
    BlockAcceptedIff(input);
    if errors == map[] then
      Ok(BlockedTime(input.reason.value, input.startDate.value, input.weeks.value.Floor))
    else
      Err(errors)
  }

  /** A regex-shaped start date need not name a real day: "2025-02-30" passes the schema. */
  lemma ShapeDoesNotCheckTheCalendar()
    ensures IsIsoShaped("2025-02-30") && ParseIso("2025-02-30").None?
  {
    assert "2025-02-30" == "2025" + "-" + "02" + "-" + "30";
    FourDigits("2025");
    TwoDigits("02");
    TwoDigits("30");
    IsoShapeOf("2025", "02", "30");
    ParseIsoParts("2025", "02", "30");
    assert !IsLeapYear(2025);
  }
}
