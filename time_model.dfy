/** The widget's two views of a time of day: the bound field's canonical
    24-hour text "HH:MM" (empty when no time is chosen) and the 12-hour
    display triple {hours, minutes, period} it edits; the conversions
    between them and the text shown in the collapsed summary. */
module TimeModel {
  import opened Decimal

  datatype Period = AM | PM

  /** The display triple held in the component's `time` state. */
  datatype DisplayTime = DisplayTime(hours: int, minutes: int, period: Period)

  /** The triple the widget starts from when the field is empty, and the one
      the clear action restores: 12:00 AM. */
  const DefaultTime := DisplayTime(12, 0, AM)

  /** Hours on the 12-hour dial, minutes within the hour. */
  predicate ValidDisplay(t: DisplayTime) {
    1 <= t.hours <= 12 && 0 <= t.minutes <= 59
  }

  /** Pieces put back together with the separator between each two. */
  function Join(pieces: seq<string>, sep: char): string
    requires |pieces| >= 1
    decreases |pieces|
  {
    if |pieces| == 1 then pieces[0] else pieces[0] + [sep] + Join(pieces[1..], sep)
  }

  /** `s.split(sep)` for a one-character separator: at least one piece
      (the empty string gives one empty piece), no piece holds the
      separator, and joining the pieces with it gives `s` back. */
  function Split(s: string, sep: char): (r: seq<string>)
    ensures |r| >= 1
    ensures forall i :: 0 <= i < |r| ==> sep !in r[i]
    ensures Join(r, sep) == s
    decreases |s|
  {
    if s == [] then [[]]
    else
      var rest := Split(s[1..], sep);
      if s[0] == sep then
        var r := [[]] + rest;
        assert r[1..] == rest;
        r
      else
        var r := [[s[0]] + rest[0]] + rest[1..];
        assert forall i :: 1 <= i < |r| ==> r[i] == rest[i];
        if |rest| == 1 then
          r
        else
          assert r[1..] == rest[1..];
          assert Join(rest, sep) == rest[0] + [sep] + Join(rest[1..], sep);
          assert s == [s[0]] + s[1..];
          r
  }

  /** Five characters whose only colon is the middle one. */
  predicate SingleColon(s: string) {
    |s| == 5 && s[2] == ':' && s[0] != ':' && s[1] != ':' && s[3] != ':' && s[4] != ':'
  }

  /** `split(":")` of such a text gives exactly the two characters before
      the colon and the two after it. */
  lemma SplitSingleColon(s: string)
    ensures SingleColon(s) ==> Split(s, ':') == [s[..2], s[3..]]
  {
    if SingleColon(s) {
      var a, b, c, d := s[0], s[1], s[3], s[4];
      var t3 := [c, d];
      var t2 := [':'] + t3;
      var t1 := [b] + t2;
      assert s == [a] + t1;
      SplitHead(d, [], ':');
      assert [d] == [d] + [];
      SplitHead(c, [d], ':');
      assert t3 == [c] + [d];
      assert Split(t3, ':') == [[c, d]];
      SplitHead(':', t3, ':');
      assert Split(t2, ':') == [[], [c, d]];
      SplitHead(b, t2, ':');
      assert [b] + Split(t2, ':')[0] == [b] && Split(t2, ':')[1..] == [[c, d]];
      assert Split(t1, ':') == [[b], [c, d]];
      SplitHead(a, t1, ':');
      assert [a] + Split(t1, ':')[0] == [a, b] && Split(t1, ':')[1..] == [[c, d]];
      assert Split(s, ':') == [[a, b], [c, d]];
      assert s[..2] == [a, b] && s[3..] == [c, d];
    }
  }

  /** One step of `Split`: a separator in front starts a new piece, any
      other character joins the first piece. */
  lemma SplitHead(c: char, t: string, sep: char)
    ensures Split([c] + t, sep) ==
      if c == sep then [[]] + Split(t, sep) else [[c] + Split(t, sep)[0]] + Split(t, sep)[1..]
  {
    assert ([c] + t)[1..] == t;
  }

  /** The hour numeral of a "HH:MM" text: the two characters before the
      colon. */
  function HourText(s: string): (r: string)
    requires |s| == 5
    ensures |r| == 2 && r[0] == s[0] && r[1] == s[1]
  {
    s[..2]
  }

  /** The minute numeral: the two characters after the colon; the text is
      the two numerals joined by the colon. */
  function MinuteText(s: string): (r: string)
    requires |s| == 5
    ensures |r| == 2 && r[0] == s[3] && r[1] == s[4]
    ensures s[2] == ':' ==> s == HourText(s) + ":" + r
  {
    s[3..]
  }

  /** `const [hours, minutes] = value.split(":")` on a canonical value: the
      split gives exactly two pieces, the hour numeral and the minute
      numeral, so nothing is dropped by taking the first two. */
  lemma SplitCanonical(s: string)
    requires IsCanonical(s)
    ensures Split(s, ':') == [HourText(s), MinuteText(s)]
  {
    var hh, mm := HourText(s), MinuteText(s);
    assert IsDigit(hh[0]) && IsDigit(hh[1]) && IsDigit(mm[0]) && IsDigit(mm[1]);
    assert SingleColon(s);
    SplitSingleColon(s);
  }

  /** A well-formed 24-hour value: two digits, a colon, two digits, hour in
      00..23 and minute in 00..59. */
  predicate IsCanonical(s: string) {
    |s| == 5 && s[2] == ':' && AllDigits(HourText(s)) && AllDigits(MinuteText(s))
    && NumberValue(HourText(s)) <= 23 && NumberValue(MinuteText(s)) <= 59
  }

  /** What the bound field can hold: nothing, or a canonical time. */
  predicate IsFieldValue(v: string) {
    v == "" || IsCanonical(v)
  }

  /** The 24-hour to 12-hour mapping applied to the parsed numbers: 0 shows
      as 12, 13..23 lose 12, and the period is PM from hour 12 on. */
  function FromHour24(h: int, m: int): (t: DisplayTime)
    ensures t.minutes == m
    ensures 0 <= h <= 23 ==> 1 <= t.hours <= 12 && (t.period == PM <==> h >= 12)
    ensures 0 <= h <= 23 ==> t.hours % 12 == h % 12
  {
    DisplayTime(if h == 0 then 12 else if h > 12 then h - 12 else h,
                m,
                if h >= 12 then PM else AM)
  }

  /** The 12-hour to 24-hour conversion of `updateTime`: PM adds 12 except at
      12 PM, and 12 AM is hour 0. */
  function ToHour24(t: DisplayTime): (h: int)
    ensures ValidDisplay(t) ==> 0 <= h <= 23
    ensures ValidDisplay(t) ==> (h >= 12 <==> t.period == PM)
    ensures ValidDisplay(t) ==> h % 12 == t.hours % 12
  {
    if t.period.PM? && t.hours != 12 then t.hours + 12
    else if t.period.AM? && t.hours == 12 then 0
    else t.hours
  }

  /** `parseTime`: the empty field gives 12:00 AM; otherwise the triple
      denotes the same hour and minute as the text. */
  function ParseTime(s: string): (t: DisplayTime)
    requires IsFieldValue(s)
    ensures ValidDisplay(t)
    ensures s == "" ==> t == DefaultTime
    ensures s != "" ==> ToHour24(t) == NumberValue(HourText(s)) && t.minutes == NumberValue(MinuteText(s))
  {
    if s == "" then DefaultTime
    else FromHour24(NumberValue(HourText(s)), NumberValue(MinuteText(s)))
  }

  /** The string `updateTime` writes to the field: the 24-hour hour and the
      minutes, each padded to two digits, joined by a colon. It is always a
      canonical value, never the empty one. */
  function FormatTime(t: DisplayTime): (s: string)
    requires ValidDisplay(t)
    ensures IsCanonical(s)
    ensures NumberValue(HourText(s)) == ToHour24(t) && NumberValue(MinuteText(s)) == t.minutes
  {
    var hh, mm := Pad2(ToHour24(t)), Pad2(t.minutes);
    JoinedTime(hh, mm);
    hh + ":" + mm
  }

  /** Where the pieces of "HH:MM" sit. */
  lemma JoinedTime(hh: string, mm: string)
    requires |hh| == 2 && |mm| == 2
    ensures var s := hh + ":" + mm;
      |s| == 5 && s[2] == ':' && HourText(s) == hh && MinuteText(s) == mm
  {
    var s := hh + ":" + mm;
    assert s[..2] == hh && s[3..] == mm;
  }

  /** The period's label; its first letter tells the two apart. */
  function PeriodName(p: Period): (r: string)
    ensures |r| == 2 && r[1] == 'M' && (r[0] == 'A' <==> p == AM)
  {
    match p
    case AM => "AM"
    case PM => "PM"
  }

  /** `formatDisplayTime`: the placeholder while the field is empty, whatever
      the triple holds; otherwise "hh:mm AM" or "hh:mm PM", whose numerals
      read back as the triple's hours and minutes. */
  function FormatDisplayTime(value: string, t: DisplayTime, placeholder: string): (r: string)
    requires value != "" ==> ValidDisplay(t)
    ensures value == "" ==> r == placeholder
    ensures value != "" ==>
      |r| == 8 && r[2] == ':' && r[5] == ' ' && r[6..] == PeriodName(t.period)
      && AllDigits(r[..2]) && NumberValue(r[..2]) == t.hours
      && AllDigits(r[3..5]) && NumberValue(r[3..5]) == t.minutes
  {
    if value == "" then placeholder
    else
      var hh, mm := Pad2(t.hours), Pad2(t.minutes);
      JoinedFields(hh, mm, PeriodName(t.period));
      hh + ":" + mm + " " + PeriodName(t.period)
  }

  /** Where the pieces of "hh:mm pp" sit. */
  lemma JoinedFields(hh: string, mm: string, pp: string)
    requires |hh| == 2 && |mm| == 2 && |pp| == 2
    ensures var r := hh + ":" + mm + " " + pp;
      |r| == 8 && r[..2] == hh && r[2] == ':' && r[3..5] == mm && r[5] == ' ' && r[6..] == pp
  {
  }

  /** Round trip from a triple: parsing what `updateTime` writes gives back
      the triple, for either period. */
  lemma ParseFormat(t: DisplayTime)
    requires ValidDisplay(t)
    ensures ParseTime(FormatTime(t)) == t
  {
    var s := FormatTime(t);
    assert ParseTime(s) == FromHour24(ToHour24(t), t.minutes);
  }

  /** Round trip from a canonical value: converting its parse back to 24-hour
      text reproduces it exactly, leading zeros included. */
  lemma FormatParse(s: string)
    requires IsCanonical(s)
    ensures FormatTime(ParseTime(s)) == s
  {
    var t := ParseTime(s);
    var h, m := NumberValue(HourText(s)), NumberValue(MinuteText(s));
    assert ToHour24(t) == h && t.minutes == m;
    Pad2OfValue(HourText(s));
    Pad2OfValue(MinuteText(s));
    assert FormatTime(t) == Pad2(h) + ":" + Pad2(m);
    assert s == HourText(s) + ":" + MinuteText(s);
  }

  /** Two times that read the same on the summary are the same time. */
  lemma DisplayDeterminesTime(value: string, t1: DisplayTime, t2: DisplayTime, placeholder: string)
    requires value != "" && ValidDisplay(t1) && ValidDisplay(t2)
    requires FormatDisplayTime(value, t1, placeholder) == FormatDisplayTime(value, t2, placeholder)
    ensures t1 == t2
  {
    var r := FormatDisplayTime(value, t1, placeholder);
    assert t1.hours == NumberValue(r[..2]) == t2.hours;
    assert t1.minutes == NumberValue(r[3..5]) == t2.minutes;
    assert PeriodName(t1.period) == r[6..] == PeriodName(t2.period);
    assert PeriodName(t1.period)[0] == PeriodName(t2.period)[0];
  }

  /** Midnight, noon and one in the afternoon on the 12-hour dial. */
  lemma HourMappingExamples()
    ensures FromHour24(0, 0) == DisplayTime(12, 0, AM)
    ensures FromHour24(12, 0) == DisplayTime(12, 0, PM)
    ensures FromHour24(13, 0) == DisplayTime(1, 0, PM)
  {
  }

  /** 12:00 AM is written as "00:00", and "00:00" reads back as 12:00 AM. */
  lemma MidnightExample()
    ensures FormatTime(DisplayTime(12, 0, AM)) == "00:00"
    ensures IsCanonical("00:00") && ParseTime("00:00") == DisplayTime(12, 0, AM)
  {
    Pad2Digits(0);
    ParseFormat(DisplayTime(12, 0, AM));
  }

  /** The written value digit by digit. */
  lemma FormatTimeDigits(t: DisplayTime)
    requires ValidDisplay(t)
    ensures var h := ToHour24(t);
      FormatTime(t) == [DigitChar(h / 10), DigitChar(h % 10), ':', DigitChar(t.minutes / 10), DigitChar(t.minutes % 10)]
  {
    var h := ToHour24(t);
    assert FormatTime(t) == Pad2(h) + ":" + Pad2(t.minutes);
    Pad2Digits(h);
    Pad2Digits(t.minutes);
    JoinedDigits(DigitChar(h / 10), DigitChar(h % 10), DigitChar(t.minutes / 10), DigitChar(t.minutes % 10));
  }

  /** Two two-character numerals joined by a colon, character by character. */
  lemma JoinedDigits(a: char, b: char, c: char, d: char)
    ensures [a, b] + ":" + [c, d] == [a, b, ':', c, d]
  {
  }

  /** 1:05 PM is written as "13:05". */
  lemma AfternoonWritten()
    ensures FormatTime(DisplayTime(1, 5, PM)) == "13:05"
  {
    FormatTimeDigits(DisplayTime(1, 5, PM));
  }

  /** 1:05 PM is written as "13:05", and "13:05" reads back as 1:05 PM. */
  lemma AfternoonExample()
    ensures FormatTime(DisplayTime(1, 5, PM)) == "13:05"
    ensures IsCanonical("13:05") && ParseTime("13:05") == DisplayTime(1, 5, PM)
  {
    AfternoonWritten();
    ParseFormat(DisplayTime(1, 5, PM));
  }
}
