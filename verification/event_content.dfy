/**
 * The text inside a calendar chip: the one-letter class abbreviation shown
 * in month view and the label used for accessibility and tooltips.
 */
module EventContent {
  import opened Wrappers
  import opened Text
  import opened Events

  /** The calendar view a chip is drawn in. */
  datatype View = Month | Week | Day

  /**
   * What `classAbbreviation` returns: `null` for a missing or empty class,
   * `undefined` when the class trims to nothing, otherwise one letter.
   */
  datatype Abbreviation = Null | Undefined | Letter(letter: char)

  /** `classAbbreviation(c)`: the first character of the trimmed, lower-cased class. */
  function ClassAbbreviation(c: Option<string>): (r: Abbreviation)
    ensures r.Null? <==> !Present(c)
    ensures r.Undefined? <==> Present(c) && Trim(c.value) == ""
    ensures r.Letter? ==> Present(c) && Trim(c.value) != [] && r.letter == ToLowerChar(Trim(c.value)[0])
    ensures r.Letter? ==> !IsJsWhitespace(r.letter) && !('A' <= r.letter <= 'Z')
  {
    if !Present(c) then Null
    else
      var lowered := ToLower(Trim(c.value));
      if lowered == [] then Undefined else Letter(lowered[0])
  }

  /** A class with no surrounding whitespace is abbreviated to its lower-cased first character. */
  lemma AbbreviationOfTrimmed(c: string)
    requires c != "" && !IsJsWhitespace(c[0]) && !IsJsWhitespace(c[|c| - 1])
    ensures ClassAbbreviation(Some(c)) == Letter(ToLowerChar(c[0]))
  {
    TrimUnchanged(c);
  }

  /** "r" for reformer, and upper case is folded: "M" for Mat. */
  lemma AbbreviationsOfClassTypes()
    ensures ClassAbbreviation(Some("reformer")) == Letter('r')
    ensures ClassAbbreviation(Some("Mat")) == Letter('m')
  {
    var r, m := "reformer", "Mat";
    assert r[0] == 'r' && r[|r| - 1] == 'r';
    assert m[0] == 'M' && m[|m| - 1] == 't';
    AbbreviationOfTrimmed(r);
    AbbreviationOfTrimmed(m);
  }

  /** The em dash, with a space on each side, that separates title and class. */
  const ClassSeparator: string := " \U{2014} "

  /** Month view, or no time label: the compact form without the time. */
  predicate Compact(timeLabel: Option<string>, view: Option<View>) {
    view == Some(Month) || !Present(timeLabel)
  }

  /** `buildEventLabel`: optional time label, the title, then the class after an em dash when there is one. */
  function BuildEventLabel(title: string, timeLabel: Option<string>, classType: Option<string>, view: Option<View>): (text: string)
    ensures var before := if Compact(timeLabel, view) then [] else timeLabel.value + " ";
      var after := if Present(classType) then ClassSeparator + classType.value else [];
      |text| == |before| + |title| + |after|
      && text[..|before|] == before
      && text[|before|..|before| + |title|] == title
      && text[|before| + |title|..] == after
  {
    var before := if Compact(timeLabel, view) then [] else timeLabel.value + " ";
    var after := if Present(classType) then ClassSeparator + classType.value else [];
    var text := before + title + after;
    assert text[..|before|] == before;
    assert text[|before|..|before| + |title|] == title;
    assert text[|before| + |title|..] == after;
    text
  }

  /** The label always contains the title. */
  lemma LabelContainsTitle(title: string, timeLabel: Option<string>, classType: Option<string>, view: Option<View>)
    ensures Contains(BuildEventLabel(title, timeLabel, classType, view), title)
  {
    var text := BuildEventLabel(title, timeLabel, classType, view);
    var k := if Compact(timeLabel, view) then 0 else |timeLabel.value| + 1;
    assert text == text[..k] + title + text[k + |title|..];
  }

  /** Outside the compact form the label starts with the time label and a space. */
  lemma LabelStartsWithTime(title: string, timeLabel: Option<string>, classType: Option<string>, view: Option<View>)
    requires !Compact(timeLabel, view)
    ensures var text := BuildEventLabel(title, timeLabel, classType, view);
      |text| > |timeLabel.value| && text[..|timeLabel.value|] == timeLabel.value && text[|timeLabel.value|] == ' '
  {
    var text := BuildEventLabel(title, timeLabel, classType, view);
    var before := timeLabel.value + " ";
    assert text[..|before|] == before;
    assert text[..|timeLabel.value|] == before[..|timeLabel.value|];
  }

  /** Without a class and in the compact form the label is the title alone. */
  lemma CompactLabelWithoutClassIsTitle(title: string, timeLabel: Option<string>, classType: Option<string>, view: Option<View>)
    requires Compact(timeLabel, view) && !Present(classType)
    ensures BuildEventLabel(title, timeLabel, classType, view) == title
  {
    var text := BuildEventLabel(title, timeLabel, classType, view);
    assert text == text[..|title|];
  }
}
