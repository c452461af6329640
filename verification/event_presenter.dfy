/**
 * `presentEventForChip`: what a calendar chip shows for an event, a time
 * label, a title, an optional class label and a status. The class label
 * comes from the `CLASS_LABEL` table.
 */
module EventPresenter {
  import opened Wrappers
  import opened Text
  import opened Calendar
  import opened Events

  /** `CLASS_LABEL[c]`: the display name of a class type; a key outside the table reads as `undefined`. */
  function ClassLabel(c: string): (r: Option<string>)
    ensures r.Some? <==> c in {"reformer", "mat", "duo"}
    ensures r.Some? ==> |r.value| == |c| && r.value[0] == ToUpperChar(c[0]) && r.value[1..] == c[1..]
  {
    if c == "reformer" then Some("Reformer")
    else if c == "mat" then Some("Mat")
    else if c == "duo" then Some("Duo")
    else None
  }

  /** ASCII upper-casing of one letter, used to state what the labels are. */
  function ToUpperChar(c: char): char {
    if 'a' <= c <= 'z' then (c as int - 'a' as int + 'A' as int) as char else c
  }

  /** `ChipData`; an absent `classType` stands for `undefined`. */
  datatype ChipData = ChipData(timeLabel: string, title: string, classType: Option<string>, status: string)

  /** The en dash between the two clock times. */
  const EnDash: char := '\U{2013}'

  /** The chip for an event: the booking branch and the block branch. */
  function PresentEventForChip(ev: CalendarEvent): (chip: ChipData)
    ensures |chip.timeLabel| == 11 && chip.timeLabel[5] == EnDash
    ensures chip.timeLabel[..5] == FormatHHmm(ev.start) && chip.timeLabel[6..] == FormatHHmm(ev.end)
    ensures ev.BookingEvent? ==> chip.title == (if ev.person != "" then ev.person else "Booking")
    ensures ev.BookingEvent? ==> chip.classType == (if ev.classType != "" then ClassLabel(ev.classType) else None)
    ensures ev.BookingEvent? ==> chip.status == ev.status
    ensures ev.BlockEvent? ==> chip.classType.None? && chip.status == "blocked"
    ensures ev.BlockEvent? ==> chip.title == Trim(if ev.reason != "" then ev.reason else "Blocked")
  {
    var startLabel, endLabel := FormatHHmm(ev.start), FormatHHmm(ev.end);
    SplitAround(startLabel, EnDash, endLabel);
    var timeLabel := startLabel + [EnDash] + endLabel;
    match ev
    case BookingEvent(_, _, _, status, person, classType, _) =>
      ChipData(timeLabel,
        if person != "" then person else "Booking",
        if classType != "" then ClassLabel(classType) else None,
        status)
    case BlockEvent(_, _, _, _, reason, _) =>
      ChipData(timeLabel, Trim(if reason != "" then reason else "Blocked"), None, "blocked")
  }

  /** The time label reads back as the start's and the end's hour and minute. */
  lemma TimeLabelReadsBack(ev: CalendarEvent)
    ensures var l := PresentEventForChip(ev).timeLabel;
      DigitsValue(l[..2]) == HourOf(ev.start) && DigitsValue(l[3..5]) == MinuteOf(ev.start)
      && DigitsValue(l[6..8]) == HourOf(ev.end) && DigitsValue(l[9..]) == MinuteOf(ev.end)
  {
    var l := PresentEventForChip(ev).timeLabel;
    var s, e := FormatHHmm(ev.start), FormatHHmm(ev.end);
    assert l[..2] == s[..2] && l[3..5] == s[3..];
    assert l[6..8] == e[..2] && l[9..] == e[3..];
  }

  /** A block title never begins or ends with whitespace, and a reason without surrounding whitespace is shown as it is. */
  lemma BlockTitleIsTrimmed(ev: CalendarEvent)
    requires ev.BlockEvent?
    ensures var t := PresentEventForChip(ev).title;
      t == [] || (!IsJsWhitespace(t[0]) && !IsJsWhitespace(t[|t| - 1]))
    ensures ev.reason != "" && !IsJsWhitespace(ev.reason[0]) && !IsJsWhitespace(ev.reason[|ev.reason| - 1]) ==>
      PresentEventForChip(ev).title == ev.reason
    ensures ev.reason == "" ==> PresentEventForChip(ev).title == "Blocked"
  {
    if ev.reason != "" && !IsJsWhitespace(ev.reason[0]) && !IsJsWhitespace(ev.reason[|ev.reason| - 1]) {
      TrimUnchanged(ev.reason);
    }
    if ev.reason == "" {
      TrimUnchanged("Blocked");
    }
  }

  /**
   * The fallback applies before trimming, so a reason made only of
   * whitespace gives an empty title rather than "Blocked".
   */
  lemma WhitespaceReasonGivesEmptyTitle(ev: CalendarEvent)
    requires ev.BlockEvent? && ev.reason != ""
    requires forall i :: 0 <= i < |ev.reason| ==> IsJsWhitespace(ev.reason[i])
    ensures PresentEventForChip(ev).title == ""
  {
  }
}
