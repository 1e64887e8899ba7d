/**
 mktimegm: seconds since 1970 from a broken-down date by one closed formula, over
 mathematical integers. The calendar itself (leap years, month lengths, the next day)
 is defined on its own, and the formula is proved to follow it.
 */
module Calendar {
  import opened Arithmetic

  /** Broken-down time as the C library has it: years since 1900, months from 0. */
  datatype Tm = Tm(year: int, mon: int, mday: int, hour: int, min: int, sec: int)

  /** C's division, which drops the fraction towards zero. */
  function Div(a: int, b: int): int
    requires b > 0
  {
    if a >= 0 then a / b else -((-a) / b)
  }

  /** The day number: January and February count as months 13 and 14 of the year before. */
  function DayNumber(year: int, month: int, day: int): int {
    var m := if month < 3 then month + 12 else month;
    var y := if month < 3 then year - 1 else year;
    day + Div(153 * m - 457, 5) + 365 * y + Div(y, 4) - Div(y, 100) + Div(y, 400) - 719469
  }

  function Mktimegm(tm: Tm): int {
    86400 * DayNumber(tm.year + 1900, tm.mon + 1, tm.mday) + 3600 * tm.hour + 60 * tm.min + tm.sec
  }

  // ------------------------------------------------------------------ the Gregorian calendar

  datatype Date = Date(year: int, month: int, day: int)

  predicate Leap(year: int) { year % 4 == 0 && (year % 100 != 0 || year % 400 == 0) }

  function DaysIn(year: int, month: int): int {
    if month == 2 then (if Leap(year) then 29 else 28)
    else if month == 4 || month == 6 || month == 9 || month == 11 then 30
    else 31
  }

  predicate IsDate(d: Date) { d.year >= 1 && 1 <= d.month <= 12 && 1 <= d.day <= DaysIn(d.year, d.month) }

  function NextDay(d: Date): (n: Date)
    requires IsDate(d)
    ensures IsDate(n)
  {
    if d.day < DaysIn(d.year, d.month) then d.(day := d.day + 1)
    else if d.month < 12 then Date(d.year, d.month + 1, 1)
    else Date(d.year + 1, 1, 1)
  }

  function Number(d: Date): int { DayNumber(d.year, d.month, d.day) }

  /** Leap days up to a year, as the formula counts them. */
  function LeapDays(y: int): int { Div(y, 4) - Div(y, 100) + Div(y, 400) }

  lemma LeapStep(y: int)
    requires y >= 1
    ensures LeapDays(y) == LeapDays(y - 1) + if Leap(y) then 1 else 0
  {
    Quotient(y, 4);
    Quotient(y, 100);
    Quotient(y, 400);
    assert y % 400 == 0 ==> y % 100 == 0;
    assert y % 100 == 0 ==> y % 4 == 0;
  }

  lemma Quotient(y: int, b: int)
    requires y >= 1 && b > 0
    ensures Div(y, b) == Div(y - 1, b) + if y % b == 0 then 1 else 0
  {
    var q, r := (y - 1) / b, (y - 1) % b;
    assert y - 1 == b * q + r;
    if r == b - 1 {
      assert y == b * (q + 1);
      DivMod(y, b, q + 1, 0);
    } else {
      DivMod(y, b, q, r + 1);
    }
  }

  /** Across month ends, leap days and centuries, the day after is one day later. */
  lemma NextDayFollows(d: Date)
    requires IsDate(d)
    ensures Number(NextDay(d)) == Number(d) + 1
  {
    if d.day == DaysIn(d.year, d.month) {
      if d.month == 2 {
        LeapStep(d.year);
      } else if d.month < 12 {
        MonthEnd(d.year, d.month);
      }
    }
  }

  lemma MonthEnd(year: int, month: int)
    requires year >= 1 && 1 <= month < 12 && month != 2
    ensures DayNumber(year, month + 1, 1) == DayNumber(year, month, DaysIn(year, month)) + 1
  {
  }

  /** In seconds: the same time on the next day is exactly 86400 seconds later. */
  lemma NextDaySeconds(d: Date, hour: int, min: int, sec: int)
    requires IsDate(d)
    ensures At(NextDay(d), hour, min, sec) == At(d, hour, min, sec) + 86400
  {
    NextDayFollows(d);
  }

  function At(d: Date, hour: int, min: int, sec: int): int {
    Mktimegm(Tm(d.year - 1900, d.month - 1, d.day, hour, min, sec))
  }

  lemma Epoch()
    ensures At(Date(1970, 1, 1), 0, 0, 0) == 0
  {
  }

  function After(d: Date, n: nat): (r: Date)
    requires IsDate(d)
    ensures IsDate(r)
  {
    if n == 0 then d else NextDay(After(d, n - 1))
  }

  /** n days after any date is n days later; with the epoch, this fixes every later date. */
  lemma {:induction false} DaysCounted(d: Date, n: nat)
    requires IsDate(d)
    ensures Number(After(d, n)) == Number(d) + n
  {
    if n > 0 {
      DaysCounted(d, n - 1);
      NextDayFollows(After(d, n - 1));
    }
  }

  // ------------------------------------------------------------------ Seconds Since the Epoch

  /** Days of the year before a month. */
  function Before(year: int, month: int): int
    requires 1 <= month <= 13
    decreases month
  {
    if month == 1 then 0 else Before(year, month - 1) + DaysIn(year, month - 1)
  }

  function DayOfYear(d: Date): int
    requires IsDate(d)
  {
    Before(d.year, d.month) + d.day - 1
  }

  lemma {:induction false} NumberByYear(d: Date)
    requires IsDate(d)
    ensures Number(d) == Number(Date(d.year, 1, 1)) + DayOfYear(d)
    decreases d.month
  {
    if d.month > 1 {
      var last := Date(d.year, d.month - 1, DaysIn(d.year, d.month - 1));
      NumberByYear(last);
      NextDayFollows(last);
      assert Number(Date(d.year, d.month, 1)) == Number(last) + 1;
    }
  }

  lemma NewYear(y: int)
    requires y >= 1970
    ensures Number(Date(y, 1, 1)) == 365 * (y - 1970) + (y - 1969) / 4 - (y - 1901) / 100 + (y - 1601) / 400
  {
    assert (y - 1969) / 4 == (y - 1) / 4 - 492;
    assert (y - 1901) / 100 == (y - 1) / 100 - 19;
    assert (y - 1601) / 400 == (y - 1) / 400 - 4;
  }

  /** The formula of POSIX.1-2008 Base Definitions, section 4.15, from the day of the year. */
  function SecondsSinceEpoch(year: int, yday: int, hour: int, min: int, sec: int): int {
    sec + min * 60 + hour * 3600 + yday * 86400 + (year - 70) * 31536000
    + ((year - 69) / 4) * 86400 - ((year - 1) / 100) * 86400 + ((year + 299) / 400) * 86400
  }

  /** From 1970 on both formulas give the same. */
  lemma MatchesPosix(d: Date, hour: int, min: int, sec: int)
    requires IsDate(d) && d.year >= 1970
    ensures At(d, hour, min, sec) == SecondsSinceEpoch(d.year - 1900, DayOfYear(d), hour, min, sec)
  {
    NumberByYear(d);
    NewYear(d.year);
  }
}
