# CustomTimeField: a verified model of a 12-hour time picker

`CustomTimeField` is a form widget bound to a single field whose value is a
24-hour time `"HH:MM"`, or empty when no time has been chosen. The collapsed
widget shows the chosen time as `hh:mm AM`/`hh:mm PM`, or a placeholder while
the field is empty. Clicking it opens a panel with up and down buttons for the
hours (1..12), the minutes (0..59) and the period (AM/PM). Every button press
writes the new time back to the field in 24-hour form. A confirm button closes
the panel, and a clear button resets the time and empties the field. When the
field changes for any reason, the widget re-reads the time from it, except when
the new value is empty.

The model has four modules:

- `Decimal` (`decimal.dfy`): the JavaScript text operations that the widget
  depends on. These are `Number.prototype.toString()` on non-negative
  integers, `padStart(2, "0")`, and `Number(...)` applied to a string of digits.
- `TimeModel` (`time_model.dfy`): the display triple `DisplayTime` and both
  conversions. `ParseTime` is `parseTime`. `ToHour24` and `FormatTime` are the
  24-hour conversion and padding inside `updateTime`. `FormatDisplayTime` is
  `formatDisplayTime`. This module also holds the two round-trip lemmas.
- `Stepper` (`stepper.dfy`): the new triple that `incrementValue` and
  `decrementValue` compute. Each is a function of the old triple and the field
  acted on. The module proves the range, inverse and cycle lemmas, and relates
  steps to the 24-hour clock.
- `Widget` (`widget.dfy`): the component as class `TimeField`, with fields
  `expanded`, `time` and `fieldValue`. Each event is one method.
  `IncrementValue`/`DecrementValue` go through `UpdateTime`. `Toggle` is the
  click on the summary, and `Confirm` and `Clear` are the two buttons. The
  step, confirm and clear buttons are rendered only while the panel is open,
  so those four methods require `expanded`.
  `ExternalSet` is a change made by the form. `SetFieldValue` models
  `helpers.setValue` followed by the effect that watches `field.value`. The
  object invariant `Valid()` says that whenever the field holds a time, the
  triple is exactly the parse of that time. The two client methods
  `StepSession` and `ClearSession` show what a caller can conclude from the
  contracts alone.

An empty `fieldValue` stands for every falsy value the field can hold in
JavaScript (`""`, `null`, `undefined`).

The effect on `field.value` runs after the widget's own writes as well as after
external ones. The model runs it inside `SetFieldValue` whenever the value has
changed. `UpdateTime` shows that re-parsing the widget's own write gives back
the triple just written, so there is no feedback loop. The code does no
equality debouncing, and none is needed, because of this round trip.

## Model

| member | source | states |
|---|---|---|
| Decimal.NumberValue | src/components/CustomTimePicker.jsx:19 | `Number` of a string of decimal digits: a natural number, below ten to the power of the string's length, so a two-digit numeral reads as at most 99 |
| Decimal.ToDecimal | src/components/CustomTimePicker.jsx:45-47 | `toString()` of a non-negative safe integer (0..2^53), where JavaScript's text is the exact numeral: at least one digit, no leading zero from 10 on, one digit exactly below 10, and the text reads back (`Number`) as the same integer |
| Decimal.OneDigitNumeral | src/components/CustomTimePicker.jsx:45-47 | `toString()` of a digit 0..9 is that one digit character |
| Decimal.TwoDigitNumeral | src/components/CustomTimePicker.jsx:45-47 | `toString()` of 10..99 is its tens digit followed by its units digit |
| Decimal.PadStart | src/components/CustomTimePicker.jsx:45-47 | `padStart(width, fill)`: the length is the larger of width and input length, the input is the suffix, and everything before it is the fill character |
| Decimal.Pad2 | src/components/CustomTimePicker.jsx:31-33 | `toString().padStart(2, "0")`: for every safe integer 0..2^53 the field has at least two digits and reads back (`Number`) as that integer, and it has exactly two digits precisely below 100 |
| Decimal.Pad2Digits | src/components/CustomTimePicker.jsx:45-47 | below 100, the padded field is exactly the tens digit followed by the units digit (so 0..9 get a leading "0") |
| Decimal.Pad2OfValue | src/components/CustomTimePicker.jsx:19 | reading a two-digit numeral with `Number` and padding it again reproduces the numeral, leading zero included |
| Decimal.TwoDigitValue | src/components/CustomTimePicker.jsx:19 | `Number` of a two-digit string is ten times its first digit plus its second |
| TimeModel.Split | src/components/CustomTimePicker.jsx:19 | `split` with a one-character separator: there is at least one piece, no piece contains the separator, and joining the pieces with the separator gives the string back |
| TimeModel.SplitCanonical | src/components/CustomTimePicker.jsx:19 | on a canonical "HH:MM" value, `split(":")` gives exactly two pieces, the two characters before the colon and the two after it, so destructuring the first two pieces loses nothing |
| TimeModel.MinuteText | src/components/CustomTimePicker.jsx:19 | the second piece of `split(":")`: the two characters after the colon, and a value with its colon at index 2 is exactly the hour piece, the colon and the minute piece |
| TimeModel.PeriodName | src/components/CustomTimePicker.jsx:33 | the period's text in the summary: two letters ending in "M", beginning with "A" exactly for AM, so the two labels differ |
| TimeModel.FromHour24 | src/components/CustomTimePicker.jsx:20-24 | for hour h in 0..23: hours land in 1..12 and agree with h modulo 12, the period is PM iff h >= 12, and the minutes are copied |
| TimeModel.ToHour24 | src/components/CustomTimePicker.jsx:39-44 | for a valid triple: the 24-hour hour is in 0..23, is >= 12 iff the period is PM, and agrees with the 12-hour hour modulo 12 |
| TimeModel.ParseTime | src/components/CustomTimePicker.jsx:17-25 | the empty field gives 12:00 AM; a canonical value gives a valid triple whose 24-hour hour and minutes are the numbers written in the value |
| TimeModel.FormatTime | src/components/CustomTimePicker.jsx:39-47 | what `updateTime` writes is always a canonical "HH:MM" (never empty) whose numerals are the triple's 24-hour hour and its minutes |
| TimeModel.FormatDisplayTime | src/components/CustomTimePicker.jsx:29-34 | the placeholder whenever the field is empty, whatever the triple; otherwise "hh:mm AM/PM" in 8 characters whose numerals read back as the triple's hours and minutes |
| TimeModel.ParseFormat | src/components/CustomTimePicker.jsx:39-47 | round trip from a triple: for hours 1..12, minutes 0..59 and either period, parsing the written value gives the same triple back |
| TimeModel.FormatParse | src/components/CustomTimePicker.jsx:17-25 | round trip from a value: for every canonical "HH:MM", writing back its parse reproduces it exactly |
| TimeModel.DisplayDeterminesTime | src/components/CustomTimePicker.jsx:31-33 | two valid triples with the same summary text (field not empty) are equal |
| TimeModel.HourMappingExamples | src/components/CustomTimePicker.jsx:21-23 | hour 0 shows as 12 AM, 12 as 12 PM, and 13 as 1 PM |
| TimeModel.FormatTimeDigits | src/components/CustomTimePicker.jsx:45-47 | the written value is, digit by digit, the tens and units of the 24-hour hour, a colon, then the tens and units of the minutes |
| TimeModel.MidnightExample | src/components/CustomTimePicker.jsx:42-43 | 12:00 AM is written "00:00", and "00:00" parses to 12:00 AM |
| TimeModel.AfternoonExample | src/components/CustomTimePicker.jsx:40-41 | 1:05 PM is written "13:05", and "13:05" parses to 1:05 PM |
| Stepper.FlipPeriod | src/components/CustomTimePicker.jsx:58 | the period step always gives the other period |
| Stepper.Incremented | src/components/CustomTimePicker.jsx:51-60 | the up step keeps a valid triple valid; on hours it is the cyclic successor in 1..12 (h mod 12 + 1), on minutes (m + 1) mod 60, on the period a flip; the two other fields are unchanged |
| Stepper.Decremented | src/components/CustomTimePicker.jsx:63-72 | the down step keeps a valid triple valid; on hours it is the cyclic predecessor in 1..12, on minutes (m - 1) mod 60, on the period a flip; the two other fields are unchanged |
| Stepper.StepsAreInverse | src/components/CustomTimePicker.jsx:51-73 | on every field of a valid triple, a down step undoes an up step and an up step undoes a down step |
| Stepper.PeriodStepIsToggle | src/components/CustomTimePicker.jsx:57-70 | on the period, up and down give the same result, and two presses are the identity |
| Stepper.WrapPoints | src/components/CustomTimePicker.jsx:54-68 | hours wrap 12 -> 1 going up and 1 -> 12 going down, and minutes wrap 59 -> 0 and 0 -> 59, with no change to the other fields (12:m AM goes up to 1:m AM) |
| Stepper.HoursUpTimes | src/components/CustomTimePicker.jsx:54 | n up presses on the hours move them n places round the 12-cycle and change nothing else |
| Stepper.HoursDownTimes | src/components/CustomTimePicker.jsx:66 | n down presses on the hours move them n places back round the 12-cycle and change nothing else |
| Stepper.MinutesUpTimes | src/components/CustomTimePicker.jsx:56 | n up presses on the minutes move them n places round the 60-cycle; they never carry into the hours |
| Stepper.MinutesDownTimes | src/components/CustomTimePicker.jsx:68 | n down presses on the minutes move them n places back round the 60-cycle; they never borrow from the hours |
| Stepper.PeriodTimes | src/components/CustomTimePicker.jsx:58 | after n presses on the period, in either direction, it is flipped exactly when n is odd |
| Stepper.HoursCycle | src/components/CustomTimePicker.jsx:54-66 | any multiple of 12 presses on the hours, up or down, returns to the starting triple |
| Stepper.MinutesCycle | src/components/CustomTimePicker.jsx:56-68 | any multiple of 60 presses on the minutes, up or down, returns to the starting triple |
| Stepper.HourStepKeepsHalfDay | src/components/CustomTimePicker.jsx:54-66 | in 24-hour terms an hour step stays in the same half of the day: 11 AM goes up to hour 0, not noon, and 12 PM goes down to hour 23 |
| Stepper.PeriodStepShiftsTwelveHours | src/components/CustomTimePicker.jsx:58 | in 24-hour terms a period step moves the time by 12 hours, modulo 24 |
| Stepper.MinuteStepKeepsHour | src/components/CustomTimePicker.jsx:56 | a minute step leaves the 24-hour hour unchanged |
| Widget.TimeField.constructor | src/components/CustomTimePicker.jsx:13-27 | on mount the panel is collapsed and the triple is the parse of the field's current value; the invariant holds |
| Widget.TimeField.SetFieldValue | src/components/CustomTimePicker.jsx:76-80 | after a write the field holds the new value; the triple is re-parsed only when the value changed and is not empty, and is otherwise kept |
| Widget.TimeField.ExternalSet | src/components/CustomTimePicker.jsx:76-80 | an external non-empty value is parsed into the triple; emptying the field leaves the triple unchanged; the invariant is kept |
| Widget.TimeField.UpdateTime | src/components/CustomTimePicker.jsx:36-48 | the triple becomes the new one and the field its 24-hour text, even after the effect re-parses that text; the invariant is kept |
| Widget.TimeField.IncrementValue | src/components/CustomTimePicker.jsx:51-61 | only on the open panel: the triple becomes `Incremented` of the old one on the named field, and the field holds its 24-hour text; the panel stays open |
| Widget.TimeField.DecrementValue | src/components/CustomTimePicker.jsx:63-73 | only on the open panel: the triple becomes `Decremented` of the old one on the named field, and the field holds its 24-hour text; the panel stays open |
| Widget.TimeField.Toggle | src/components/CustomTimePicker.jsx:86 | a click on the summary flips `expanded` and changes nothing else |
| Widget.TimeField.Confirm | src/components/CustomTimePicker.jsx:183 | only on the open panel: confirm only collapses it |
| Widget.TimeField.Clear | src/components/CustomTimePicker.jsx:190-195 | only on the open panel: clear resets the triple to 12:00 AM, writes "" (not "00:00") and collapses the panel |
| Widget.TimeField.DisplayText | src/components/CustomTimePicker.jsx:91-93 | the summary shows the placeholder while the field is empty, and otherwise the 12-hour reading of the field's own value |

## Left out

- Rendering: the JSX markup, class strings, icons, the Arabic button labels and
  the `className` pass-through (src/components/CustomTimePicker.jsx:82-204).
  The `placeholder` prop's default, "اختر الوقت" (src/components/CustomTimePicker.jsx:10),
  is not modelled: `FormatDisplayTime` and `DisplayText` take the placeholder as
  a plain parameter, which the caller always supplies.
  These are presentation only. The one rule taken from them is that the
  placeholder is shown while the field is empty.
- Formik and React internals: `useField`, `useState` and `useEffect`
  scheduling and batching. The bound field is the plain string `fieldValue`. A
  handler's state updates are applied in program order. The effect runs
  immediately after each write that changes the value. The effect's run on
  mount is not modelled separately, because the triple is already the parse of
  the field at that point.
- `meta` (errors and touched state): read by the component but never acted on.
- ParseTime: its precondition admits only the empty value and canonical
  two-digit "HH:MM" values. Two kinds of input that the source parses correctly
  are excluded. One-digit numerals, such as "9:05", parse to 9:05 AM. A
  trailing seconds part, such as "09:30:00", parses to 9:30 AM, because the
  destructuring keeps only the first two pieces. Both are left out because the
  widget only ever writes canonical values, and writing their parse back would
  reformat them ("9:05" comes back as "09:05"). Non-numeric text, a missing
  colon, an hour above 23 and a minute above 59 are excluded as well: for them
  `split(":").map(Number)` yields NaN or out-of-range numbers, and what the
  widget then shows is unspecified. A minute above 59 would parse (the source
  reads "10:75" as 10:75 AM), but the up step would then never wrap, because
  it wraps only at exactly 59.
- FormatTime and FormatDisplayTime: defined only for triples with hours in 1..12
  and minutes in 0..59. The object invariant guarantees every triple the widget
  holds is in that range, so the numbers these formatters pad are 0..23 (the
  24-hour hour), 1..12 (the displayed hour) and 0..59 (the minutes).
  `ToDecimal` and `Pad2` agree with JavaScript's `toString` on the
  non-negative integers up to 2^53 (the safe integers), numbers of three or
  more digits included. Not modelled: `toString` of larger numbers (above 2^53
  JavaScript prints the shortest digits of the nearest double, and from 1e21
  on it uses exponent notation, while `ToDecimal` stays the exact numeral), of
  negative numbers, of fractions and of NaN. None of them reaches the
  formatters.
- The step handlers' `type` argument is modelled as the three-valued `Part`.
  The markup only ever passes "hours", "minutes" or "period", so the handlers'
  silent fall-through for any other string is not modelled.
