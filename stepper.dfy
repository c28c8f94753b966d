/** The per-field steps behind the panel's up and down buttons: each copies
    the triple and changes one field, hours on a 12-cycle 1..12, minutes on
    a 60-cycle 0..59, and the period by toggling. */
module Stepper {
  import opened TimeModel

  /** The field a button acts on: the handlers' "hours", "minutes" and
      "period" arguments. */
  datatype Part = HourPart | MinutePart | PeriodPart

  /** The period step: the other half of the day. */
  function FlipPeriod(p: Period): (q: Period)
    ensures q != p
  {
    if p == AM then PM else AM
  }

  /** `incrementValue`'s new triple: hours go 12 -> 1, minutes 59 -> 0, the
      period flips; the other two fields are copied unchanged. */
  function Incremented(t: DisplayTime, part: Part): (r: DisplayTime)
    ensures ValidDisplay(t) ==> ValidDisplay(r)
    ensures part == HourPart && ValidDisplay(t) ==> r.hours == t.hours % 12 + 1
    ensures part == MinutePart && ValidDisplay(t) ==> r.minutes == (t.minutes + 1) % 60
    ensures part == PeriodPart ==> r.period != t.period
    ensures part != HourPart ==> r.hours == t.hours
    ensures part != MinutePart ==> r.minutes == t.minutes
    ensures part != PeriodPart ==> r.period == t.period
  {
    match part
    case HourPart => t.(hours := if t.hours == 12 then 1 else t.hours + 1)
    case MinutePart => t.(minutes := if t.minutes == 59 then 0 else t.minutes + 1)
    case PeriodPart => t.(period := FlipPeriod(t.period))
  }

  /** `decrementValue`'s new triple: hours go 1 -> 12, minutes 0 -> 59, the
      period flips; the other two fields are copied unchanged. */
  function Decremented(t: DisplayTime, part: Part): (r: DisplayTime)
    ensures ValidDisplay(t) ==> ValidDisplay(r)
    ensures part == HourPart && ValidDisplay(t) ==> r.hours == (t.hours - 2) % 12 + 1
    ensures part == MinutePart && ValidDisplay(t) ==> r.minutes == (t.minutes - 1) % 60
    ensures part == PeriodPart ==> r.period != t.period
    ensures part != HourPart ==> r.hours == t.hours
    ensures part != MinutePart ==> r.minutes == t.minutes
    ensures part != PeriodPart ==> r.period == t.period
  {
    match part
    case HourPart => t.(hours := if t.hours == 1 then 12 else t.hours - 1)
    case MinutePart => t.(minutes := if t.minutes == 0 then 59 else t.minutes - 1)
    case PeriodPart => t.(period := FlipPeriod(t.period))
  }

  /** A step down undoes a step up and a step up undoes a step down, on
      every field. */
  lemma StepsAreInverse(t: DisplayTime, part: Part)
    requires ValidDisplay(t)
    ensures Decremented(Incremented(t, part), part) == t
    ensures Incremented(Decremented(t, part), part) == t
  {
  }

  /** On the period both buttons do the same thing, and two presses cancel. */
  lemma PeriodStepIsToggle(t: DisplayTime)
    ensures Incremented(t, PeriodPart) == Decremented(t, PeriodPart)
    ensures Incremented(Incremented(t, PeriodPart), PeriodPart) == t
  {
  }

  /** The wrap points of the two numeric fields. */
  lemma WrapPoints(m: int, p: Period, h: int)
    ensures Incremented(DisplayTime(12, m, p), HourPart) == DisplayTime(1, m, p)
    ensures Decremented(DisplayTime(1, m, p), HourPart) == DisplayTime(12, m, p)
    ensures Incremented(DisplayTime(h, 59, p), MinutePart) == DisplayTime(h, 0, p)
    ensures Decremented(DisplayTime(h, 0, p), MinutePart) == DisplayTime(h, 59, p)
  {
  }

  /** `n` presses of the up button on one field. */
  function IncrementedTimes(t: DisplayTime, part: Part, n: nat): DisplayTime
    decreases n
  {
    if n == 0 then t else Incremented(IncrementedTimes(t, part, n - 1), part)
  }

  /** `n` presses of the down button on one field. */
  function DecrementedTimes(t: DisplayTime, part: Part, n: nat): DisplayTime
    decreases n
  {
    if n == 0 then t else Decremented(DecrementedTimes(t, part, n - 1), part)
  }

  /** Euclidean division by 12, from a quotient and remainder. */
  lemma DivMod12(x: int, q: int, r: int)
    requires x == 12 * q + r && 0 <= r < 12
    ensures x / 12 == q && x % 12 == r
  {
  }

  /** Euclidean division by 60, from a quotient and remainder. */
  lemma DivMod60(x: int, q: int, r: int)
    requires x == 60 * q + r && 0 <= r < 60
    ensures x / 60 == q && x % 60 == r
  {
  }

  /** One step forwards or backwards round the 12 positions of the dial. */
  lemma StepOn12(x: int)
    ensures (x + 1) % 12 == if x % 12 == 11 then 0 else x % 12 + 1
    ensures (x - 1) % 12 == if x % 12 == 0 then 11 else x % 12 - 1
  {
    var q, r := x / 12, x % 12;
    if r == 11 { DivMod12(x + 1, q + 1, 0); } else { DivMod12(x + 1, q, r + 1); }
    if r == 0 { DivMod12(x - 1, q - 1, 11); } else { DivMod12(x - 1, q, r - 1); }
  }

  /** One step forwards or backwards round the 60 minutes. */
  lemma StepOn60(x: int)
    ensures (x + 1) % 60 == if x % 60 == 59 then 0 else x % 60 + 1
    ensures (x - 1) % 60 == if x % 60 == 0 then 59 else x % 60 - 1
  {
    var q, r := x / 60, x % 60;
    if r == 59 { DivMod60(x + 1, q + 1, 0); } else { DivMod60(x + 1, q, r + 1); }
    if r == 0 { DivMod60(x - 1, q - 1, 59); } else { DivMod60(x - 1, q, r - 1); }
  }

  /** One more press after `n - 1`, in the closed form of `HoursUpTimes`. */
  lemma HoursUpStep(t: DisplayTime, n: nat)
    requires ValidDisplay(t) && n > 0
    ensures Incremented(t.(hours := (t.hours - 1 + (n - 1)) % 12 + 1), HourPart) == t.(hours := (t.hours - 1 + n) % 12 + 1)
  {
    StepOn12(t.hours - 1 + (n - 1));
  }

  /** One more press after `n - 1`, in the closed form of `HoursDownTimes`. */
  lemma HoursDownStep(t: DisplayTime, n: nat)
    requires ValidDisplay(t) && n > 0
    ensures Decremented(t.(hours := (t.hours - 1 - (n - 1)) % 12 + 1), HourPart) == t.(hours := (t.hours - 1 - n) % 12 + 1)
  {
    StepOn12(t.hours - 1 - (n - 1));
  }

  /** One more press after `n - 1`, in the closed form of `MinutesUpTimes`. */
  lemma MinutesUpStep(t: DisplayTime, n: nat)
    requires ValidDisplay(t) && n > 0
    ensures Incremented(t.(minutes := (t.minutes + (n - 1)) % 60), MinutePart) == t.(minutes := (t.minutes + n) % 60)
  {
    StepOn60(t.minutes + (n - 1));
  }

  /** One more press after `n - 1`, in the closed form of `MinutesDownTimes`. */
  lemma MinutesDownStep(t: DisplayTime, n: nat)
    requires ValidDisplay(t) && n > 0
    ensures Decremented(t.(minutes := (t.minutes - (n - 1)) % 60), MinutePart) == t.(minutes := (t.minutes - n) % 60)
  {
    StepOn60(t.minutes - (n - 1));
  }

  /** One more press changes the parity of the count. */
  lemma ParityStep(n: nat)
    requires n > 0
    ensures n % 2 == 0 <==> (n - 1) % 2 == 1
  {
    var q, r := (n - 1) / 2, (n - 1) % 2;
    if r == 0 {
      assert n == 2 * q + 1;
    } else {
      assert n == 2 * (q + 1);
    }
  }

  /** After `n` presses up on the hours the dial has moved `n` places round
      the 12-cycle, and nothing else has changed. */
  lemma {:induction false} HoursUpTimes(t: DisplayTime, n: nat)
    requires ValidDisplay(t)
    ensures IncrementedTimes(t, HourPart, n) == t.(hours := (t.hours - 1 + n) % 12 + 1)
  {
    if n > 0 {
      HoursUpTimes(t, n - 1);
      HoursUpStep(t, n);
    }
  }

  /** After `n` presses down on the hours the dial has moved `n` places back. */
  lemma {:induction false} HoursDownTimes(t: DisplayTime, n: nat)
    requires ValidDisplay(t)
    ensures DecrementedTimes(t, HourPart, n) == t.(hours := (t.hours - 1 - n) % 12 + 1)
  {
    if n > 0 {
      HoursDownTimes(t, n - 1);
      HoursDownStep(t, n);
    }
  }

  /** After `n` presses up on the minutes they have moved `n` places round
      the 60-cycle, never carrying into the hours. */
  lemma {:induction false} MinutesUpTimes(t: DisplayTime, n: nat)
    requires ValidDisplay(t)
    ensures IncrementedTimes(t, MinutePart, n) == t.(minutes := (t.minutes + n) % 60)
  {
    if n > 0 {
      MinutesUpTimes(t, n - 1);
      MinutesUpStep(t, n);
    }
  }

  /** After `n` presses down on the minutes they have moved `n` places back,
      never borrowing from the hours. */
  lemma {:induction false} MinutesDownTimes(t: DisplayTime, n: nat)
    requires ValidDisplay(t)
    ensures DecrementedTimes(t, MinutePart, n) == t.(minutes := (t.minutes - n) % 60)
  {
    if n > 0 {
      MinutesDownTimes(t, n - 1);
      MinutesDownStep(t, n);
    }
  }

  /** After `n` presses on the period it is flipped exactly when `n` is odd. */
  lemma {:induction false} PeriodTimes(t: DisplayTime, n: nat)
    ensures IncrementedTimes(t, PeriodPart, n) == t.(period := if n % 2 == 0 then t.period else FlipPeriod(t.period))
    ensures DecrementedTimes(t, PeriodPart, n) == t.(period := if n % 2 == 0 then t.period else FlipPeriod(t.period))
  {
    if n > 0 {
      PeriodTimes(t, n - 1);
      ParityStep(n);
    }
  }

  /** Going round the hour dial a whole number of times, forwards or
      backwards, lands where it started. */
  lemma WholeTurnsOf12(x: int, turns: nat)
    requires 0 <= x < 12
    ensures (x + 12 * turns) % 12 == x && (x - 12 * turns) % 12 == x
  {
    DivMod12(x + 12 * turns, turns, x);
    DivMod12(x - 12 * turns, -(turns as int), x);
  }

  /** Going round the minutes a whole number of times, forwards or
      backwards, lands where it started. */
  lemma WholeTurnsOf60(x: int, turns: nat)
    requires 0 <= x < 60
    ensures (x + 60 * turns) % 60 == x && (x - 60 * turns) % 60 == x
  {
    DivMod60(x + 60 * turns, turns, x);
    DivMod60(x - 60 * turns, -(turns as int), x);
  }

  /** Any whole number of turns of the hour dial, 12 presses each, in
      either direction, comes back to the starting triple. */
  lemma HoursCycle(t: DisplayTime, turns: nat)
    requires ValidDisplay(t)
    ensures IncrementedTimes(t, HourPart, 12 * turns) == t
    ensures DecrementedTimes(t, HourPart, 12 * turns) == t
  {
    assert IncrementedTimes(t, HourPart, 12 * turns) == t by {
      WholeTurnsOf12(t.hours - 1, turns);
      HoursUpTimes(t, 12 * turns);
    }
    assert DecrementedTimes(t, HourPart, 12 * turns) == t by {
      WholeTurnsOf12(t.hours - 1, turns);
      HoursDownTimes(t, 12 * turns);
    }
  }

  /** Any whole number of turns of the minutes, 60 presses each, in either
      direction, comes back to the starting triple. */
  lemma MinutesCycle(t: DisplayTime, turns: nat)
    requires ValidDisplay(t)
    ensures IncrementedTimes(t, MinutePart, 60 * turns) == t
    ensures DecrementedTimes(t, MinutePart, 60 * turns) == t
  {
    assert IncrementedTimes(t, MinutePart, 60 * turns) == t by {
      WholeTurnsOf60(t.minutes, turns);
      MinutesUpTimes(t, 60 * turns);
    }
    assert DecrementedTimes(t, MinutePart, 60 * turns) == t by {
      WholeTurnsOf60(t.minutes, turns);
      MinutesDownTimes(t, 60 * turns);
    }
  }

  /** In 24-hour terms an hour step stays within the same half of the day:
      11 AM steps up to 12 AM (hour 0), not to noon, and 12 PM steps down to
      11 PM. */
  lemma HourStepKeepsHalfDay(t: DisplayTime)
    requires ValidDisplay(t)
    ensures ToHour24(Incremented(t, HourPart)) == ToHour24(t) / 12 * 12 + (ToHour24(t) + 1) % 12
    ensures ToHour24(Decremented(t, HourPart)) == ToHour24(t) / 12 * 12 + (ToHour24(t) + 11) % 12
  {
    var h := ToHour24(t);
    var half := if t.period.PM? then 1 else 0;
    var r := if t.hours == 12 then 0 else t.hours;
    DivMod12(h, half, r);
    if r == 11 { DivMod12(h + 1, half + 1, 0); } else { DivMod12(h + 1, half, r + 1); }
    if r == 0 { DivMod12(h + 11, half, 11); } else { DivMod12(h + 11, half + 1, r - 1); }
  }

  /** In 24-hour terms a period step moves the time by twelve hours. */
  lemma PeriodStepShiftsTwelveHours(t: DisplayTime)
    requires ValidDisplay(t)
    ensures ToHour24(Incremented(t, PeriodPart)) == (ToHour24(t) + 12) % 24
    ensures ToHour24(Decremented(t, PeriodPart)) == (ToHour24(t) + 12) % 24
  {
  }

  /** A minute step leaves the 24-hour hour alone. */
  lemma MinuteStepKeepsHour(t: DisplayTime)
    ensures ToHour24(Incremented(t, MinutePart)) == ToHour24(t)
    ensures ToHour24(Decremented(t, MinutePart)) == ToHour24(t)
  {
  }
}
