/**
 * The block-time form: the end-time preview `addMinutesToHHmm`, which adds
 * a number of minutes to an "HH:mm" string with JavaScript's arithmetic,
 * and the form's default values.
 */
module BlockTimeForm {
  import opened Wrappers
  import opened Text
  import opened Calendar
  import Validation

  /** JavaScript's `%` for a positive divisor: the remainder takes the sign of the dividend. */
  function JsRem(a: int, b: int): (r: int)
    requires b > 0
    ensures a >= 0 ==> r == a % b
    ensures a < 0 ==> -b < r <= 0
  {
    if a >= 0 then a % b else -((-a) % b)
  }

  /** `String(n).padStart(2, "0")`: only a single digit is short of two characters. */
  function ClockField(n: int): string {
    if 0 <= n < 10 then "0" + JsString(n) else JsString(n)
  }

  /** The case split above is `padStart` to width two with "0". */
  lemma ClockFieldIsPadStart(n: int)
    ensures ClockField(n) == PadStart(JsString(n), 2, '0')
  {
  }

  /** `h * 60 + m` after splitting on ":" and parsing both sides; `None` stands for `NaN`. */
  function ParseClock(hhmm: string): Option<int> {
    var parts := Split(hhmm, ':');
    var h := JsParseInt(parts[0]);
    var m := if |parts| >= 2 then JsParseInt(parts[1]) else None;
    if h.None? || m.None? then None else Some(h.value * 60 + m.value)
  }

  /** The string printed for a total number of minutes: `hh` wraps at 24 and both fields are padded. */
  function ClockOf(total: int): string {
    ClockField(JsRem(total / 60, 24)) + ":" + ClockField(JsRem(total, 60))
  }

  /** The printed clock of `h * 60 + m + minutes` for a parsed start; `NaN` prints as "NaN:NaN". */
  function ClockAfter(parsed: Option<int>, minutes: int): string {
    match parsed
    case None => "NaN:NaN"
    case Some(c) => ClockOf(c + minutes)
  }

  /** `addMinutesToHHmm(hhmm, minutes)` */
  function AddMinutesToHHmm(hhmm: string, minutes: int): (r: string)
    ensures ParseClock(hhmm).None? ==> r == "NaN:NaN"
  {
    ClockAfter(ParseClock(hhmm), minutes)
  }

  /** The clock after a parsed start, written for a total computed beforehand. */
  lemma ClockAfterIs(c: int, minutes: int, total: int)
    requires total == c + minutes
    ensures ClockAfter(Some(c), minutes) == ClockOf(total)
  {
  }

  /** A non-negative total prints as "HH:mm" with the hour of the day (mod 24) and the minute of the hour. */
  lemma NonNegativeTotalIsClock(t: int)
    requires t >= 0
    ensures var r := ClockOf(t);
      |r| == 5 && r[2] == ':'
      && AllDigits(r[..2]) && DigitsValue(r[..2]) == (t / 60) % 24 < 24
      && AllDigits(r[3..]) && DigitsValue(r[3..]) == t % 60
  {
    var h, m := (t / 60) % 24, t % 60;
    assert JsRem(t / 60, 24) == h && JsRem(t, 60) == m;
    ClockFieldOfDigits(h);
    ClockFieldOfDigits(m);
    SplitAround(Pad2(h), ':', Pad2(m));
  }

  /** Below 100 a clock field is the two-digit numeral. */
  lemma ClockFieldOfDigits(n: nat)
    requires n < 100
    ensures ClockField(n) == Pad2(n) && |ClockField(n)| == 2
  {
    ClockFieldIsPadStart(n);
    Pad2IsPadStart(n);
  }

  /** A negative field prints with its minus sign first. */
  lemma NegativeField(n: int)
    requires n < 0
    ensures |ClockField(n)| >= 2 && ClockField(n)[0] == '-'
  {
  }

  /** JavaScript's remainder of a negative total that is not a whole number of hours is negative. */
  lemma NegativeMinuteRem(t: int)
    requires t < 0 && t % 60 != 0
    ensures JsRem(t, 60) < 0
  {
    assert (-t) % 60 != 0;
  }

  /** A negative total that is not a whole number of hours prints a negative minute field. */
  lemma NegativeTotalIsNotAClock(t: int)
    requires t < 0 && t % 60 != 0
    ensures '-' in ClockOf(t)
  {
    var hh, m := ClockField(JsRem(t / 60, 24)), JsRem(t, 60);
    NegativeMinuteRem(t);
    NegativeField(m);
    var mm := ClockField(m);
    assert ClockOf(t) == hh + ":" + mm;
    assert (hh + ":" + mm)[|hh| + 1] == mm[0];
  }

  /** A well-formed clock string: two digits, a colon, two digits, a real hour and minute. */
  predicate IsClock(s: string) {
    && |s| == 5 && s[2] == ':'
    && AllDigits(s[..2]) && AllDigits(s[3..])
    && DigitsValue(s[..2]) < 24 && DigitsValue(s[3..]) < 60
  }

  /** The minutes since midnight a clock string stands for. */
  function ClockTotal(s: string): int
    requires IsClock(s)
  {
    DigitsValue(s[..2]) * 60 + DigitsValue(s[3..])
  }

  /** How a clock string splits and parses. */
  lemma ParseClockOfClock(s: string)
    requires IsClock(s)
    ensures ParseClock(s) == Some(ClockTotal(s))
  {
    var hh, mm := s[..2], s[3..];
    assert s == hh + [':'] + mm;
    SplitTwo(hh, ':', mm);
    ParseIntOfDigits(hh, []);
    ParseIntOfDigits(mm, []);
    assert hh + [] == hh && mm + [] == mm;
  }

  /** A non-negative total whose hour and minute are those a clock string shows prints as that string. */
  lemma ClockOfDigits(total: int, s: string)
    requires IsClock(s) && total >= 0
    requires (total / 60) % 24 == DigitsValue(s[..2]) && total % 60 == DigitsValue(s[3..])
    ensures ClockOf(total) == s
  {
    NonNegativeTotalIsClock(total);
    var r := ClockOf(total);
    DigitsValueInjective(r[..2], s[..2]);
    DigitsValueInjective(r[3..], s[3..]);
    assert r == r[..2] + [':'] + r[3..];
    assert s == s[..2] + [':'] + s[3..];
  }

  /** A clock string is printed back from its own total. */
  lemma ClockOfClock(s: string, total: int)
    requires IsClock(s) && total == ClockTotal(s)
    ensures ClockOf(total) == s
  {
    ClockOfDigits(total, s);
  }

  /** A well-formed clock string plus zero minutes is the same string. */
  lemma AddZeroIsIdentity(s: string)
    requires IsClock(s)
    ensures AddMinutesToHHmm(s, 0) == s
  {
    ParseClockOfClock(s);
    var total := ClockTotal(s);
    ClockAfterIs(total, 0, total);
    ClockOfClock(s, total);
  }

  /** Adding a whole day more gives the same string, because the hour wraps at 24. */
  lemma AddDayIsSame(hhmm: string, minutes: int, c: int)
    requires ParseClock(hhmm) == Some(c) && c + minutes >= 0
    ensures AddMinutesToHHmm(hhmm, minutes + 1440) == AddMinutesToHHmm(hhmm, minutes)
  {
    var t, u := c + minutes, c + minutes + 1440;
    ClockAfterIs(c, minutes, t);
    ClockAfterIs(c, minutes + 1440, u);
    ClockOfNextDay(t, u);
  }

  /** The printed clock of a non-negative total is unchanged a day later. */
  lemma ClockOfNextDay(t: int, u: int)
    requires t >= 0 && u == t + 1440
    ensures ClockOf(u) == ClockOf(t)
  {
    assert u / 60 == t / 60 + 24;
    assert (t / 60 + 24) % 24 == (t / 60) % 24;
    assert u % 60 == t % 60;
  }

  /** The day-clock arithmetic behind the preview: adding to the time of day then wrapping is the time of day of the sum. */
  lemma ClockOfSum(t: nat, k: nat)
    ensures HourOf(t) * 60 + MinuteOf(t) == t % 1440
    ensures ((t % 1440 + k) / 60) % 24 == HourOf(t + k)
    ensures (t % 1440 + k) % 60 == MinuteOf(t + k)
  {
    var a := t % 1440;
    var q := t / 1440;
    assert a / 60 * 60 + a % 60 == a;
    assert t == q * 1440 + a;
    assert a % 60 == t % 60 by {
      MinuteShift(a, q * 24);
    }
    var b := a + k;
    var p, c := b / 1440, b % 1440;
    assert t + k == q * 1440 + b;
    assert (t + k) % 1440 == c by {
      assert t + k == (q + p) * 1440 + c;
      DivModDay(q + p, c);
    }
    assert b / 60 == p * 24 + c / 60 by {
      assert b == (p * 24 + c / 60) * 60 + c % 60;
    }
    assert (p * 24 + c / 60) % 24 == c / 60;
    assert b % 60 == (t + k) % 60 by {
      assert b == c + p * 1440;
      MinuteShift(c, p * 24);
      assert t + k == c + (q + p) * 1440;
      MinuteShift(c, (q + p) * 24);
    }
  }

  /** The clock printed for the time of day of `t` plus `k` minutes is the time of day of `t + k`. */
  lemma ClockOfInstant(t: nat, k: nat, total: int, u: nat)
    requires total == HourOf(t) * 60 + MinuteOf(t) + k && u == t + k
    ensures ClockOf(total) == FormatHHmm(u)
  {
    ClockOfSum(t, k);
    assert IsClock(FormatHHmm(u));
    ClockOfDigits(total, FormatHHmm(u));
  }

  /** The preview of a start time formatted from an instant, plus a length, is the clock time of the instant plus that length. */
  lemma PreviewMatchesInstant(t: nat, k: nat, u: nat)
    requires u == t + k
    ensures AddMinutesToHHmm(FormatHHmm(t), k) == FormatHHmm(u)
  {
    var s := FormatHHmm(t);
    assert IsClock(s);
    ParseClockOfClock(s);
    var total := ClockTotal(s) + k;
    ClockAfterIs(ClockTotal(s), k, total);
    ClockOfInstant(t, k, total, u);
  }

  /** The values the form starts with. */
  datatype BlockFormValues = BlockFormValues(reason: string, startDate: string, startTime: string, blockLength: int, weeks: int)

  /** `defaultValues`: empty text fields, a 60-minute block, one week. */
  const DefaultValues := BlockFormValues("", "", "", 60, 1)

  /**
   * Submitted unchanged, the defaults are refused by the blocked-time schema
   * for the empty reason and start date, while the default week count passes.
   */
  lemma UnchangedDefaultsFailOnText()
    ensures var input := Validation.BlockInput(Some(DefaultValues.reason), Some(DefaultValues.startDate), Some(DefaultValues.weeks as real));
      var r := Validation.ParseBlockedTime(input);
      && r.Err?
      && Validation.Reason in r.error && Validation.StartDate in r.error
      && Validation.Weeks !in r.error
  {
    var input := Validation.BlockInput(Some(DefaultValues.reason), Some(DefaultValues.startDate), Some(DefaultValues.weeks as real));
    assert Validation.BlockFieldIssues(input, Validation.Reason) != [];
    assert Validation.BlockFieldIssues(input, Validation.StartDate) != [];
    assert Validation.BlockFieldIssues(input, Validation.Weeks) == [];
  }
}
