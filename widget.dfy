/** The `CustomTimeField` component as a state machine: the expanded flag and
    the display triple it keeps in local state, and the bound form field's
    value, which it reads and writes. Every click handler and the
    field-change effect is a method. */
module Widget {
  import opened TimeModel
  import opened Stepper

  class TimeField {
    /** `isExpanded`: whether the stepper panel is open. */
    var expanded: bool
    /** `time`: the display triple the panel edits. */
    var time: DisplayTime
    /** The bound field's value, `field.value`; "" when no time is chosen. */
    var fieldValue: string

    /** The triple is on the dial, the field holds nothing or a canonical
        time, and whenever the field holds a time the triple is that time. */
    ghost predicate Valid()
      reads this
    {
      ValidDisplay(time) && IsFieldValue(fieldValue)
      && (fieldValue != "" ==> time == ParseTime(fieldValue))
    }

    /** Mounting: collapsed, with the triple parsed from the field's current
        value. */
    constructor (initial: string)
      requires IsFieldValue(initial)
      ensures Valid()
      ensures !expanded && fieldValue == initial && time == ParseTime(initial)
    {
      expanded := false;
      fieldValue := initial;
      time := ParseTime(initial);
    }

    /** `helpers.setValue(v)` followed by the effect on `[field.value]`: when
        the value has changed and is not empty, the triple is re-parsed from
        it. */
    method SetFieldValue(v: string)
      requires IsFieldValue(v) && ValidDisplay(time)
      modifies this`fieldValue, this`time
      ensures fieldValue == v
      ensures time == if v != old(fieldValue) && v != "" then ParseTime(v) else old(time)
      ensures ValidDisplay(time)
    {
      var changed := v != fieldValue;
      fieldValue := v;
      if changed && fieldValue != "" {
        time := ParseTime(fieldValue);
      }
    }

    /** A change to the field from outside the widget (a form reset, a
        programmatic set). A non-empty value is re-parsed; emptying the field
        leaves the triple as it was. */
    method ExternalSet(v: string)
      requires Valid() && IsFieldValue(v)
      modifies this`fieldValue, this`time
      ensures Valid()
      ensures fieldValue == v
      ensures time == if v != "" then ParseTime(v) else old(time)
    {
      SetFieldValue(v);
    }

    /** `updateTime`: store the new triple and write its 24-hour text to the
        field. The effect that the write triggers re-parses that text, which
        gives back the same triple, so the step is not undone. */
    method UpdateTime(newTime: DisplayTime)
      requires Valid() && ValidDisplay(newTime)
      modifies this`fieldValue, this`time
      ensures Valid()
      ensures time == newTime && fieldValue == FormatTime(newTime)
    {
      time := newTime;
      var s := FormatTime(newTime);
      ParseFormat(newTime);
      SetFieldValue(s);
    }

    /** `incrementValue(part)`: one step up on the named field, written back.
        Like every button of the panel, it exists only while the panel is
        open. */
    method IncrementValue(part: Part)
      requires Valid() && expanded
      modifies this`fieldValue, this`time
      ensures Valid()
      ensures time == Incremented(old(time), part)
      ensures fieldValue == FormatTime(time)
      ensures expanded
    {
      var newTime := Incremented(time, part);
      UpdateTime(newTime);
    }

    /** `decrementValue(part)`: one step down on the named field, written back. */
    method DecrementValue(part: Part)
      requires Valid() && expanded
      modifies this`fieldValue, this`time
      ensures Valid()
      ensures time == Decremented(old(time), part)
      ensures fieldValue == FormatTime(time)
      ensures expanded
    {
      var newTime := Decremented(time, part);
      UpdateTime(newTime);
    }

    /** A click on the summary opens or closes the panel. */
    method Toggle()
      requires Valid()
      modifies this`expanded
      ensures Valid()
      ensures expanded == !old(expanded)
    {
      expanded := !expanded;
    }

    /** The confirm button, on the open panel, only closes it. */
    method Confirm()
      requires Valid() && expanded
      modifies this`expanded
      ensures Valid()
      ensures !expanded
    {
      expanded := false;
    }

    /** The clear button on the open panel: back to 12:00 AM, the field emptied (not set to
        "00:00"), and the panel closed. */
    method Clear()
      requires Valid() && expanded
      modifies this`expanded, this`fieldValue, this`time
      ensures Valid()
      ensures time == DefaultTime && fieldValue == "" && !expanded
    {
      time := DefaultTime;
      SetFieldValue("");
      expanded := false;
    }

    /** The summary text: the placeholder while the field is empty; otherwise
        the 12-hour reading of the field's own value. */
    function DisplayText(placeholder: string): (r: string)
      reads this
      requires Valid()
      ensures fieldValue == "" ==> r == placeholder
      ensures fieldValue != "" ==> r == FormatDisplayTime(fieldValue, ParseTime(fieldValue), placeholder)
    {
      FormatDisplayTime(fieldValue, time, placeholder)
    }
  }

  /** A step up and a step down on the hours, and two steps on the
      period, leave the widget showing the time it had, and the field holding
      exactly the text it started with; confirming only closes the panel. */
  method StepSession(initial: string)
    requires IsFieldValue(initial)
  {
    var w := new TimeField(initial);
    var start := w.time;
    w.Toggle();
    assert w.expanded;
    w.IncrementValue(HourPart);
    w.DecrementValue(HourPart);
    StepsAreInverse(start, HourPart);
    w.IncrementValue(PeriodPart);
    w.DecrementValue(PeriodPart);
    StepsAreInverse(start, PeriodPart);
    assert w.time == start;
    if initial != "" {
      FormatParse(initial);
      assert w.fieldValue == initial;
    }
    w.Confirm();
    assert !w.expanded && w.time == start;
  }

  /** Clearing after a step empties the field; a value set by the form is
      picked up, and emptying the field from outside keeps the triple while
      the summary falls back to the placeholder. */
  method ClearSession(initial: string, later: string, placeholder: string)
    requires IsFieldValue(initial) && IsCanonical(later)
  {
    var w := new TimeField(initial);
    w.Toggle();
    w.DecrementValue(MinutePart);
    w.Clear();
    assert w.time == DefaultTime && w.fieldValue == "" && !w.expanded;
    w.ExternalSet(later);
    assert w.time == ParseTime(later);
    w.ExternalSet("");
    assert w.time == ParseTime(later) && w.DisplayText(placeholder) == placeholder;
  }
}
