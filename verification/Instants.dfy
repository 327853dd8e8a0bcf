/** The instant a timezone-aware timestamp denotes: what the database compares. */
module Instants {
  import opened Prelude
  import opened Cursor

  type Aware = s: DateTime | s.offset.Some? witness Stamp(Date(1, 1, 1), Clock(0, 0, 0, 0), Some(0))

  function DaysBeforeMonth(year: nat, month: nat): nat
    requires month >= 1
  {
    if month == 1 then 0 else DaysBeforeMonth(year, month - 1) + DaysIn(year, month - 1)
  }

  function DaysBeforeYear(year: nat): nat {
    if year <= 1 then 0 else DaysBeforeYear(year - 1) + if IsLeap(year - 1) then 366 else 365
  }

  function DayNumber(d: Date): nat
    requires d.month >= 1
  {
    DaysBeforeYear(d.year) + DaysBeforeMonth(d.year, d.month) + d.day
  }

  function Instant(s: Aware): int {
    DayNumber(s.date) * DAY_MICROSECONDS + Microseconds(s.clock) - s.offset.value
  }

  predicate DateBefore(a: Date, b: Date) {
    a.year < b.year || (a.year == b.year && (a.month < b.month || (a.month == b.month && a.day < b.day)))
  }

  predicate ClockBefore(a: Clock, b: Clock) {
    a.hour < b.hour || (a.hour == b.hour && (a.minute < b.minute || (a.minute == b.minute &&
    (a.second < b.second || (a.second == b.second && a.microsecond < b.microsecond)))))
  }

  lemma {:induction false} LaterMonthStartsLater(year: nat, a: nat, b: nat)
    requires 1 <= a < b
    ensures DaysBeforeMonth(year, a) + DaysIn(year, a) <= DaysBeforeMonth(year, b)
  {
    if a + 1 < b {
      LaterMonthStartsLater(year, a, b - 1);
    }
  }

  lemma MonthsFillTheYear(year: nat)
    ensures DaysBeforeMonth(year, 13) == if IsLeap(year) then 366 else 365
  {
    var leap := if IsLeap(year) then 1 else 0;
    assert DaysBeforeMonth(year, 2) == 31;
    assert DaysBeforeMonth(year, 3) == 59 + leap;
    assert DaysBeforeMonth(year, 4) == 90 + leap;
    assert DaysBeforeMonth(year, 5) == 120 + leap;
    assert DaysBeforeMonth(year, 6) == 151 + leap;
    assert DaysBeforeMonth(year, 7) == 181 + leap;
    assert DaysBeforeMonth(year, 8) == 212 + leap;
    assert DaysBeforeMonth(year, 9) == 243 + leap;
    assert DaysBeforeMonth(year, 10) == 273 + leap;
    assert DaysBeforeMonth(year, 11) == 304 + leap;
    assert DaysBeforeMonth(year, 12) == 334 + leap;
  }

  lemma {:induction false} LaterYearStartsLater(a: nat, b: nat)
    requires 1 <= a < b
    ensures DaysBeforeYear(a) + DaysBeforeMonth(a, 13) <= DaysBeforeYear(b)
  {
    MonthsFillTheYear(a);
    if a < b - 1 {
      LaterYearStartsLater(a, b - 1);
    }
  }

  lemma EarlierDateEarlierDay(a: Date, b: Date)
    requires ValidDate(a) && ValidDate(b) && DateBefore(a, b)
    ensures DayNumber(a) < DayNumber(b)
  {
    if a.year < b.year {
      LaterYearStartsLater(a.year, b.year);
      LaterMonthStartsLater(a.year, a.month, 13);
    } else if a.month < b.month {
      LaterMonthStartsLater(a.year, a.month, b.month);
    }
  }

  /** Timestamps with one offset sort as they read, field by field. */
  lemma InstantOrdersStamps(a: Aware, b: Aware)
    requires a.offset == b.offset
    ensures Instant(a) < Instant(b) <==>
            DateBefore(a.date, b.date) || (a.date == b.date && ClockBefore(a.clock, b.clock))
    ensures Instant(a) == Instant(b) <==> a == b
  {
    if DateBefore(a.date, b.date) {
      EarlierDateEarlierDay(a.date, b.date);
    } else if DateBefore(b.date, a.date) {
      EarlierDateEarlierDay(b.date, a.date);
    }
  }

  /** The day after. */
  function NextDay(d: Date): Date {
    if d.day < DaysIn(d.year, d.month) then d.(day := d.day + 1)
    else if d.month < 12 then Date(d.year, d.month + 1, 1)
    else Date(d.year + 1, 1, 1)
  }

  lemma NextDayIsOneLater(d: Date)
    requires ValidDate(d)
    ensures DayNumber(NextDay(d)) == DayNumber(d) + 1
  {
    MonthsFillTheYear(d.year);
  }

  /** Instants are elapsed time: a stamp one day later denotes an instant 86400 seconds later, clocks
      differ by what they show, and an offset east of another is an instant earlier by as much. */
  lemma InstantsAreElapsedTime(a: Aware, b: Aware)
    ensures a.date == b.date ==>
              Instant(b) - Instant(a) ==
              ((b.clock.hour - a.clock.hour) * 3600 + (b.clock.minute - a.clock.minute) * 60
               + (b.clock.second - a.clock.second)) * 1_000_000 + (b.clock.microsecond - a.clock.microsecond)
              - (b.offset.value - a.offset.value)
    ensures b.date == NextDay(a.date) && b.clock == a.clock && b.offset == a.offset ==>
              Instant(b) - Instant(a) == 86_400 * 1_000_000
  {
    NextDayIsOneLater(a.date);
  }

  lemma QuotientSteps(year: nat)
    requires year >= 1
    ensures year / 4 == (year - 1) / 4 + (if year % 4 == 0 then 1 else 0)
    ensures year / 100 == (year - 1) / 100 + (if year % 100 == 0 then 1 else 0)
    ensures year / 400 == (year - 1) / 400 + (if year % 400 == 0 then 1 else 0)
  {}

  lemma Hundreds(n: nat)
    ensures (100 * n) % 100 == 0
  {}

  lemma FourthsOfHundreds(n: nat)
    ensures (100 * n) % 4 == 0
  {
    assert (4 * (25 * n)) % 4 == 0;
  }

  lemma CenturiesAreFourths(year: nat)
    ensures year % 400 == 0 ==> year % 100 == 0
    ensures year % 100 == 0 ==> year % 4 == 0
  {
    if year % 400 == 0 {
      Hundreds(4 * (year / 400));
    }
    if year % 100 == 0 {
      FourthsOfHundreds(year / 100);
    }
  }

  /** The years before `year` + 1: a leap day every fourth, but for the centuries, but for every fourth
      century. */
  lemma {:induction false} LeapDaysAreCounted(year: nat)
    ensures DaysBeforeYear(year + 1) == 365 * year + year / 4 - year / 100 + year / 400
  {
    if year > 0 {
      LeapDaysAreCounted(year - 1);
      QuotientSteps(year);
      CenturiesAreFourths(year);
    }
  }
}
