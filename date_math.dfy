/** The calendar arithmetic the month view takes from ECMAScript Date objects:
    the proleptic Gregorian calendar counted in days from 1970-01-01, month
    overflow folded into the year the way the Date constructor does it, month
    lengths as "day 0 of the next month", and weekdays with 0 = Sunday. */
module DateMath {

  /** The Gregorian leap rule. */
  predicate IsLeapYear(y: int)
  {
    y % 4 == 0 && (y % 100 != 0 || y % 400 == 0)
  }

  /** The month lengths of the Gregorian calendar, months counted from 0 = January. */
  function MonthLength(y: int, m: int): int
    requires 0 <= m < 12
  {
    if m == 1 then (if IsLeapYear(y) then 29 else 28)
    else if m == 3 || m == 5 || m == 8 || m == 10 then 30
    else 31
  }

  /** The Date constructor's treatment of an out-of-range month: whole years
      are carried into the year, the remainder (never negative) is the month. */
  function Normalize(y: int, m: int): (r: (int, int))
    ensures 0 <= r.1 < 12
    ensures r.0 * 12 + r.1 == y * 12 + m
  {
    (y + m / 12, m % 12)
  }

  /** The days of the March-based years 1..yy of the proleptic calendar
      (a year from March 1 to the end of the following February). */
  function DaysBeforeYear(yy: int): int
  {
    365 * yy + yy / 4 - yy / 100 + yy / 400
  }

  /** The days from March 1 to day 1 of the month `mp` months later. */
  function DaysBeforeMonth(mp: int): int
    requires 0 <= mp < 12
  {
    (153 * mp + 2) / 5
  }

  /** The number of days from 1970-01-01 to day 1 of month `m` of year `y`,
      counting a year from March so that the leap day falls last. */
  function MonthStart(y: int, m: int): int
    requires 0 <= m < 12
  {
    var yy := if m <= 1 then y - 1 else y;
    var mp := if m <= 1 then m + 10 else m - 2;
    DaysBeforeYear(yy) + DaysBeforeMonth(mp) - 719468
  }

  /** The day number of `d` of month `m` of year `y`, the month normalized first. */
  function MakeDay(y: int, m: int, d: int): int
  {
    var n := Normalize(y, m);
    MonthStart(n.0, n.1) + d - 1
  }

  /** `new Date(y, m + 1, 0).getDate()`: day 0 of the next month is the last
      day of this one, so the month has as many days as lie between the two
      month starts. */
  function DaysInMonth(y: int, m: int): (r: int)
    requires 0 <= m < 12
    ensures r == MonthLength(y, m)
    ensures 28 <= r <= 31
    ensures r == 29 <==> m == 1 && IsLeapYear(y)
  {
    var lastDay := MakeDay(y, m + 1, 0);
    MonthSpan(y, m);
    lastDay - MonthStart(y, m) + 1
  }

  /** The weekday of a day number, 0 = Sunday; 1970-01-01 was a Thursday. */
  function WeekDay(t: int): (r: int)
    ensures 0 <= r < 7
  {
    (t + 4) % 7
  }

  /** `new Date(y, m, 1).getDay()`. */
  function FirstDayOfMonth(y: int, m: int): (r: int)
    requires 0 <= m < 12
    ensures 0 <= r < 7
  {
    WeekDay(MonthStart(y, m))
  }

  // ---------------------------------------------------------------------------
  // Proofs

  lemma FloorStep4(y: int)
    ensures y / 4 - (y - 1) / 4 == if y % 4 == 0 then 1 else 0
  {
  }

  lemma FloorStep100(y: int)
    ensures y / 100 - (y - 1) / 100 == if y % 100 == 0 then 1 else 0
  {
  }

  lemma FloorStep400(y: int)
    ensures y / 400 - (y - 1) / 400 == if y % 400 == 0 then 1 else 0
  {
  }

  lemma ModSeven(a: int, b: int)
    ensures (a + b) % 7 == (a % 7 + b) % 7
  {
    var q := a / 7;
    assert a == 7 * q + a % 7;
    assert (a + b) == 7 * q + (a % 7 + b);
  }

  lemma Multiples(y: int)
    ensures y % 100 == 0 ==> y % 4 == 0
    ensures y % 400 == 0 ==> y % 100 == 0
  {
    if y % 100 == 0 {
      var k := y / 100;
      assert y == 4 * (25 * k);
    }
    if y % 400 == 0 {
      var k := y / 400;
      assert y == 100 * (4 * k);
    }
  }

  /** A March-based year ending in the February of year `y` has 366 days
      when `y` is a leap year and 365 otherwise. */
  lemma LeapStep(y: int)
    ensures DaysBeforeYear(y) - DaysBeforeYear(y - 1) == if IsLeapYear(y) then 366 else 365
  {
    var a, b, c := y / 4 - (y - 1) / 4, y / 100 - (y - 1) / 100, y / 400 - (y - 1) / 400;
    assert DaysBeforeYear(y) - DaysBeforeYear(y - 1) == 365 + a - b + c;
    FloorStep4(y);
    FloorStep100(y);
    FloorStep400(y);
    Multiples(y);
  }

  /** The month starts of the March-based year, in days after March 1. */
  lemma MonthOffsets(mp: int)
    requires 0 <= mp < 12
    ensures DaysBeforeMonth(mp) == [0, 31, 61, 92, 122, 153, 184, 214, 245, 275, 306, 337][mp]
  {
    if mp < 6 {
      if mp < 3 {
        if mp == 0 {} else if mp == 1 {} else {}
      } else {
        if mp == 3 {} else if mp == 4 {} else {}
      }
    } else {
      if mp < 9 {
        if mp == 6 {} else if mp == 7 {} else {}
      } else {
        if mp == 9 {} else if mp == 10 {} else {}
      }
    }
  }

  /** The days from one January 1st to the next: 366 in a leap year, 365 otherwise. */
  lemma YearLength(y: int)
    ensures MonthStart(y + 1, 0) - MonthStart(y, 0) == if IsLeapYear(y) then 366 else 365
  {
    LeapStep(y);
  }

  /** The step from one month start to the next is the Gregorian month length. */
  lemma MonthSpan(y: int, m: int)
    requires 0 <= m < 12
    ensures var n := Normalize(y, m + 1); MonthStart(n.0, n.1) - MonthStart(y, m) == MonthLength(y, m)
  {
    var n := Normalize(y, m + 1);
    if m == 11 {
      assert n == (y + 1, 0);
      MonthOffsets(9);
      MonthOffsets(10);
    } else {
      assert n == (y, m + 1);
      if m == 1 {
        LeapStep(y);
        MonthOffsets(11);
        MonthOffsets(0);
      } else if m == 0 {
        MonthOffsets(10);
        MonthOffsets(11);
      } else {
        MonthOffsets(m - 2);
        MonthOffsets(m - 1);
      }
    }
  }

  /** The Unix epoch is day 0. */
  lemma EpochIsDayZero()
    ensures MakeDay(1970, 0, 1) == 0
    ensures WeekDay(0) == 4
  {
  }

  /** Day 1 of the next month falls as many weekdays later as this month has days. */
  lemma NextMonthFirstDay(y: int, m: int)
    requires 0 <= m < 12
    ensures var n := Normalize(y, m + 1);
      FirstDayOfMonth(n.0, n.1) == (FirstDayOfMonth(y, m) + DaysInMonth(y, m)) % 7
  {
    MonthSpan(y, m);
    ModSeven(MonthStart(y, m) + 4, DaysInMonth(y, m));
  }

  /** The Date constructor's overflow: month 12 is January of the next year,
      month -1 is December of the previous one, and in-range months stay. */
  lemma NormalizeRollover(y: int, m: int)
    ensures 0 <= m < 12 ==> Normalize(y, m) == (y, m)
    ensures Normalize(y, 12) == (y + 1, 0)
    ensures Normalize(y, -1) == (y - 1, 11)
  {
  }

  /** June 2024 begins on a Saturday and has 30 days. */
  lemma June2024()
    ensures FirstDayOfMonth(2024, 5) == 6
    ensures DaysInMonth(2024, 5) == 30
  {
  }
}
