/** Conversion between seconds since 1970-01-01 and calendar fields.

    The reference is the proleptic Gregorian calendar given by its rules alone: a year has
    365 days or, when the leap rule holds, 366; the start of a year is counted year by year
    from 1970, and the start of a month is counted month by month from January. */
module CalendarSpec {

  /** The eight fields of a broken-down time: the year counts from 1900, the month and the
      day of the year from zero, the day of the month from one and the weekday from Sunday. */
  datatype Tm = Tm(sec: int, min: int, hour: int, mday: int, mon: int, year: int, wday: int, yday: int)

  predicate Leap(y: int) {
    y % 4 == 0 && (y % 100 != 0 || y % 400 == 0)
  }

  function YearLength(y: int): int {
    if Leap(y) then 366 else 365
  }

  function MonthLength(y: int, m: int): int
    requires 0 <= m < 12
  {
    if m == 1 then (if Leap(y) then 29 else 28)
    else if m == 3 || m == 5 || m == 8 || m == 10 then 30
    else 31
  }

  /** The days from 1970-01-01 to the first of January of year y. */
  function YearStart(y: int): int
    decreases if y < 1970 then 1970 - y else y - 1970
  {
    if y == 1970 then 0
    else if y > 1970 then YearStart(y - 1) + YearLength(y - 1)
    else YearStart(y + 1) - YearLength(y)
  }

  /** The days of year y before the first of month m. */
  function MonthStart(y: int, m: int): int
    requires 0 <= m <= 12
    decreases m
  {
    if m == 0 then 0 else MonthStart(y, m - 1) + MonthLength(y, m - 1)
  }

  /** The day number of a date; 1970-01-01 is day zero. */
  function DayNumber(y: int, m: int, d: int): int
    requires 0 <= m < 12
  {
    YearStart(y) + MonthStart(y, m) + d - 1
  }

  /** Day zero was a Thursday. */
  function Weekday(day: int): int {
    (4 + day) % 7
  }

  /** The fields are in range and the weekday and the day of the year belong to the date. */
  predicate Valid(tm: Tm) {
    && IsClock(tm)
    && 0 <= tm.mon < 12
    && 1 <= tm.mday <= MonthLength(1900 + tm.year, tm.mon)
    && tm.wday == Weekday(DayNumber(1900 + tm.year, tm.mon, tm.mday))
    && tm.yday == MonthStart(1900 + tm.year, tm.mon) + tm.mday - 1
  }

  function Clock(tm: Tm): int {
    3600 * tm.hour + 60 * tm.min + tm.sec
  }

  /** The instant that any fields denote. Months outside the year carry into the year; days,
      hours, minutes and seconds simply count on. */
  function Instant(tm: Tm): int {
    86400 * DayNumber(1900 + tm.year + tm.mon / 12, tm.mon % 12, tm.mday) + Clock(tm)
  }

  /** The leap years from year 1 up to year n, by the usual inclusion and exclusion. */
  function Leaps(n: int): int {
    n / 4 - n / 100 + n / 400
  }

  lemma LeapsStep(y: int)
    ensures Leaps(y) == Leaps(y - 1) + (if Leap(y) then 1 else 0)
  {
    StepOf(y, 4);
    StepOf(y, 100);
    StepOf(y, 400);
    Multiples(y);
  }

  lemma Multiples(y: int)
    ensures y % 400 == 0 ==> y % 100 == 0
    ensures y % 100 == 0 ==> y % 4 == 0
  {
    if y % 400 == 0 {
      Hundreds(4 * (y / 400));
    }
    if y % 100 == 0 {
      Fours(25 * (y / 100));
    }
  }

  lemma Hundreds(k: int)
    ensures 100 * k % 100 == 0
  {
  }

  lemma Fours(k: int)
    ensures 4 * k % 4 == 0
  {
  }

  lemma StepOf(y: int, k: int)
    requires k == 4 || k == 100 || k == 400
    ensures y / k == (y - 1) / k + (if y % k == 0 then 1 else 0)
  {
  }

  /** Counting year by year agrees with the closed form. */
  lemma {:induction false} YearStartIs(y: int)
    ensures YearStart(y) == 365 * (y - 1970) + Leaps(y - 1) - 477
    decreases if y < 1970 then 1970 - y else y - 1970
  {
    if y > 1970 {
      YearStartIs(y - 1);
      LeapsStep(y - 1);
    } else if y < 1970 {
      YearStartIs(y + 1);
      LeapsStep(y);
    }
  }

  lemma YearStep(y: int)
    ensures YearStart(y + 1) == YearStart(y) + YearLength(y)
  {
    YearStartIs(y);
    YearStartIs(y + 1);
    LeapsStep(y);
  }

  /** Later years start later, by at least the length of every year between. */
  lemma {:induction false} YearsInOrder(y: int, z: int)
    requires y < z
    ensures YearStart(y) + YearLength(y) <= YearStart(z)
    decreases z - y
  {
    YearStep(z - 1);
    if y < z - 1 {
      YearsInOrder(y, z - 1);
    }
  }

  /** The cumulative month table. */
  lemma MonthStartIs(y: int, m: int)
    requires 0 <= m <= 12
    ensures MonthStart(y, m) == FirstDays(m) + (if Leap(y) && m >= 2 then 1 else 0)
  {
    if m > 0 {
      MonthStartIs(y, m - 1);
    }
  }

  function FirstDays(m: int): int
    requires 0 <= m <= 12
  {
    if m < 6 then
      if m < 3 then (if m == 0 then 0 else if m == 1 then 31 else 59)
      else (if m == 3 then 90 else if m == 4 then 120 else 151)
    else if m < 9 then (if m == 6 then 181 else if m == 7 then 212 else 243)
    else if m < 11 then (if m == 9 then 273 else 304)
    else (if m == 11 then 334 else 365)
  }

  lemma {:induction false} MonthsInOrder(y: int, m: int, n: int)
    requires 0 <= m < n <= 12
    ensures MonthStart(y, m) + MonthLength(y, m) <= MonthStart(y, n)
    decreases n - m
  {
    if m < n - 1 {
      MonthsInOrder(y, m, n - 1);
    }
  }

  lemma YearHoldsMonths(y: int)
    ensures MonthStart(y, 12) == YearLength(y)
  {
    MonthStartIs(y, 12);
  }

  predicate IsDate(y: int, m: int, d: int) {
    0 <= m < 12 && 1 <= d <= MonthLength(y, m)
  }

  /** A date lies inside its own year. */
  lemma DateInYear(y: int, m: int, d: int)
    requires IsDate(y, m, d)
    ensures YearStart(y) <= DayNumber(y, m, d) < YearStart(y) + YearLength(y)
  {
    if m > 0 {
      MonthsInOrder(y, 0, m);
    }
    MonthsInOrder(y, m, 12);
    YearHoldsMonths(y);
  }

  /** No two dates share a day number. */
  lemma DateIsUnique(y: int, m: int, d: int, z: int, n: int, e: int)
    requires IsDate(y, m, d) && IsDate(z, n, e)
    requires DayNumber(y, m, d) == DayNumber(z, n, e)
    ensures y == z && m == n && d == e
  {
    DateInYear(y, m, d);
    DateInYear(z, n, e);
    if y < z {
      YearsInOrder(y, z);
    } else if z < y {
      YearsInOrder(z, y);
    } else if m < n {
      MonthsInOrder(y, m, n);
    } else if n < m {
      MonthsInOrder(y, n, m);
    }
  }

  /** The date after a date. */
  function NextDate(y: int, m: int, d: int): (int, int, int)
    requires IsDate(y, m, d)
  {
    if d < MonthLength(y, m) then (y, m, d + 1)
    else if m < 11 then (y, m + 1, 1)
    else (y + 1, 0, 1)
  }

  /** Day numbers count dates: the next date is the next number. */
  lemma NextDateIsNext(y: int, m: int, d: int)
    requires IsDate(y, m, d)
    ensures var (z, n, e) := NextDate(y, m, d);
            IsDate(z, n, e) && DayNumber(z, n, e) == DayNumber(y, m, d) + 1
  {
    if d == MonthLength(y, m) && m == 11 {
      YearStep(y);
      YearHoldsMonths(y);
    }
  }

  /** The day and the time of day are determined by their instant. */
  lemma DayAndClock(i: int, a: int, j: int, b: int)
    requires 0 <= a < 86400 && 0 <= b < 86400
    requires 86400 * i + a == 86400 * j + b
    ensures i == j && a == b
  {
  }

  predicate IsClock(tm: Tm) {
    0 <= tm.sec < 60 && 0 <= tm.min < 60 && 0 <= tm.hour < 24
  }

  lemma ClockIsUnique(a: Tm, b: Tm)
    requires IsClock(a) && IsClock(b) && Clock(a) == Clock(b)
    ensures a.sec == b.sec && a.min == b.min && a.hour == b.hour
  {
  }

  lemma InstantIs(tm: Tm)
    requires 0 <= tm.mon < 12
    ensures Instant(tm) == 86400 * DayNumber(1900 + tm.year, tm.mon, tm.mday) + Clock(tm)
  {
  }

  /** Valid fields are determined by the instant they denote. */
  lemma FieldsAreUnique(a: Tm, b: Tm)
    requires Valid(a) && Valid(b)
    requires Instant(a) == Instant(b)
    ensures a == b
  {
    hide Instant, DayNumber, Weekday, MonthStart, MonthLength;
    InstantIs(a);
    InstantIs(b);
    DayAndClock(DayNumber(1900 + a.year, a.mon, a.mday), Clock(a),
                DayNumber(1900 + b.year, b.mon, b.mday), Clock(b));
    ClockIsUnique(a, b);
    DateIsUnique(1900 + a.year, a.mon, a.mday, 1900 + b.year, b.mon, b.mday);
  }
}

module Calendar {
  import opened CalendarSpec
  import opened Options

  const INT_MAX: int := 0x7FFF_FFFF
  const INT_MIN: int := -0x8000_0000

  const LEAPOCH: int := 946684800 + 86400 * (31 + 29)
  const DAYS_PER_400Y: int := 365 * 400 + 97
  const DAYS_PER_100Y: int := 365 * 100 + 24
  const DAYS_PER_4Y: int := 365 * 4 + 1

  /** The lengths of the months, from March to a leap February. */
  const DAYS_IN_MONTH: seq<int> := [31, 30, 31, 30, 31, 31, 30, 31, 30, 31, 31, 29]

  const SECS_THROUGH_MONTH: seq<int> := [
    0, 31 * 86400, 59 * 86400, 90 * 86400,
    120 * 86400, 151 * 86400, 181 * 86400, 212 * 86400,
    243 * 86400, 273 * 86400, 304 * 86400, 334 * 86400]

  predicate IsInt(x: int) {
    INT_MIN <= x <= INT_MAX
  }

  /** Division and remainder of C, which round toward zero. */
  function TruncDiv(a: int, b: int): int
    requires b > 0
  {
    if a >= 0 then a / b else -(-a / b)
  }

  function TruncRem(a: int, b: int): int
    requires b > 0
  {
    a - b * TruncDiv(a, b)
  }

  /** Quotient and remainder as the code computes them: truncated, then corrected. */
  method FloorDivision(a: int, b: int) returns (q: int, r: int)
    requires b > 0
    ensures a == b * q + r && 0 <= r < b
  {
    q := TruncDiv(a, b);
    r := TruncRem(a, b);
    Truncated(a, b);
    if r < 0 {
      r := r + b;
      q := q - 1;
    }
  }

  lemma Truncated(a: int, b: int)
    requires b > 0
    ensures -b < TruncRem(a, b) < b
  {
    if a < 0 {
      assert -a == b * (-a / b) + -a % b;
    }
  }

  /** The first day of March of year y. */
  function MarchStart(y: int): int {
    YearStart(y) + MonthStart(y, 2)
  }

  /** A year that starts in March, as its place in the 400-, 100- and 4-year cycles. */
  ghost predicate InCycles(qc: int, c: int, q: int, r: int) {
    0 <= c < 4 && 0 <= q < 25 && 0 <= r < 4
  }

  lemma CycleLeaps(qc: int, c: int, q: int, r: int)
    requires InCycles(qc, c, q, r)
    ensures var y := 2000 + r + 4 * q + 100 * c + 400 * qc;
            Leaps(y) == 485 + q + 24 * c + 97 * qc
  {
    var y := 2000 + r + 4 * q + 100 * c + 400 * qc;
    assert y / 4 == 500 + q + 25 * c + 100 * qc;
    assert y / 100 == 20 + c + 4 * qc;
    assert y / 400 == 5 + qc;
  }

  lemma CycleIsLeap(qc: int, c: int, q: int, r: int)
    requires InCycles(qc, c, q, r)
    ensures Leap(2000 + r + 4 * q + 100 * c + 400 * qc) <==> r == 0 && (q != 0 || c == 0)
  {
    var y := 2000 + r + 4 * q + 100 * c + 400 * qc;
    assert y % 4 == r;
    assert y % 100 == 4 * q + r;
    assert y % 400 == 100 * c + 4 * q + r;
  }

  lemma NextIsLeap(qc: int, c: int, q: int)
    requires InCycles(qc, c, q, 3)
    ensures Leap(2004 + 4 * q + 100 * c + 400 * qc) <==> q != 24 || c == 3
  {
    if q < 24 {
      CycleIsLeap(qc, c, q + 1, 0);
    } else if c < 3 {
      CycleIsLeap(qc, c + 1, 0, 0);
    } else {
      CycleIsLeap(qc + 1, 0, 0, 0);
    }
  }

  lemma MarchStartIs(qc: int, c: int, q: int, r: int)
    requires InCycles(qc, c, q, r)
    ensures var y := 2000 + r + 4 * q + 100 * c + 400 * qc;
            MarchStart(y) == 11017 + 146097 * qc + 36524 * c + 1461 * q + 365 * r
  {
    var y := 2000 + r + 4 * q + 100 * c + 400 * qc;
    YearStartIs(y);
    LeapsStep(y);
    MonthStartIs(y, 2);
    CycleLeaps(qc, c, q, r);
  }

  /** Where in the cycles a day counted from 2000-03-01 lies. */
  method Cycles(days: int) returns (qc: int, c: int, q: int, r: int, rem: int)
    ensures InCycles(qc, c, q, r)
    ensures days == 146097 * qc + 36524 * c + 1461 * q + 365 * r + rem
    ensures 0 <= rem <= 365
    ensures rem == 365 ==> r == 3 && (q != 24 || c == 3)
  {
    qc, rem := FloorDivision(days, DAYS_PER_400Y);
    c := TruncDiv(rem, DAYS_PER_100Y);
    if c == 4 {
      c := c - 1;
    }
    rem := rem - c * DAYS_PER_100Y;
    q := TruncDiv(rem, DAYS_PER_4Y);
    if q == 25 {
      q := q - 1;
    }
    rem := rem - q * DAYS_PER_4Y;
    r := TruncDiv(rem, 365);
    if r == 4 {
      r := r - 1;
    }
    rem := rem - r * 365;
  }

  /** The days of the first n months from March on. */
  function Before(n: int): int
    requires 0 <= n <= 12
  {
    if n == 0 then 0 else Before(n - 1) + DAYS_IN_MONTH[n - 1]
  }

  lemma BeforeIs(n: int)
    requires 0 <= n <= 12
    ensures n <= 10 ==> Before(n) == FirstDays(n + 2) - 59
    ensures n >= 10 ==> Before(n) == 306 + FirstDays(n - 10) + (if n == 12 then 1 else 0)
  {
    if n > 0 {
      BeforeIs(n - 1);
    }
  }

  /** The month that holds a day of a March year: the search never leaves its table. */
  method FindMonth(day: int) returns (months: int, rem: int)
    requires 0 <= day <= 365
    ensures 0 <= months < 12
    ensures day == Before(months) + rem
    ensures 0 <= rem < DAYS_IN_MONTH[months]
  {
    months, rem := 0, day;
    BeforeIs(0);
    BeforeIs(11);
    while DAYS_IN_MONTH[months] <= rem
      invariant 0 <= months < 12
      invariant day == Before(months) + rem
      invariant 0 <= rem
      decreases 12 - months
    {
      BeforeIs(12);
      rem := rem - DAYS_IN_MONTH[months];
      months := months + 1;
    }
  }

  /** The date of day `rem` of month `months` of the March year y. */
  lemma DateOf(y: int, day: int, months: int, rem: int)
    requires 0 <= months < 12 && 0 <= day <= 365
    requires day == 365 ==> Leap(y + 1)
    requires day == Before(months) + rem && 0 <= rem < DAYS_IN_MONTH[months]
    ensures months < 10 ==> IsDate(y, months + 2, rem + 1)
    ensures months < 10 ==> MonthStart(y, months + 2) + rem == MonthStart(y, 2) + day
    ensures months >= 10 ==> IsDate(y + 1, months - 10, rem + 1)
    ensures months >= 10 ==>
      YearStart(y + 1) + MonthStart(y + 1, months - 10) + rem == MarchStart(y) + day
    ensures months >= 10 ==> MonthStart(y + 1, months - 10) + rem == day - 306
  {
    BeforeIs(months);
    MonthStartIs(y, 2);
    if months < 10 {
      MonthStartIs(y, months + 2);
    } else {
      MonthStartIs(y + 1, months - 10);
      YearStep(y);
    }
  }

  /** The date of a day counted from 2000-03-01; the year is returned relative to 2000. */
  method FindDate(days: int) returns (years: int, mon: int, mday: int, yday: int)
    ensures IsDate(2000 + years, mon, mday)
    ensures DayNumber(2000 + years, mon, mday) == 11017 + days
    ensures yday == MonthStart(2000 + years, mon) + mday - 1
  {
    hide YearStart, Leap, Before;
    var qc, c, q, remyears, remdays := Cycles(days);
    var leap := if remyears == 0 && (q != 0 || c == 0) then 1 else 0;
    yday := remdays + 31 + 28 + leap;
    if yday >= 365 + leap {
      yday := yday - (365 + leap);
    }
    years := remyears + 4 * q + 100 * c + 400 * qc;
    ghost var march, day := 2000 + years, remdays;
    MarchStartIs(qc, c, q, remyears);
    CycleIsLeap(qc, c, q, remyears);
    MonthStartIs(march, 2);
    if remyears == 3 {
      NextIsLeap(qc, c, q);
    }
    var months;
    months, remdays := FindMonth(remdays);
    DateOf(march, day, months, remdays);
    BeforeIs(months);
    BeforeIs(months + 1);
    if months >= 10 {
      months := months - 12;
      years := years + 1;
    }
    mon := months + 2;
    mday := remdays + 1;
  }

  /** The year of a date is an int exactly between the first and the last such year. */
  lemma YearInRange(y: int, m: int, d: int)
    requires IsDate(y, m, d)
    ensures IsInt(y - 1900) <==>
      YearStart(1900 + INT_MIN) <= DayNumber(y, m, d) < YearStart(1900 + INT_MAX + 1)
  {
    DateInYear(y, m, d);
    if y < 1900 + INT_MIN {
      YearsInOrder(y, 1900 + INT_MIN);
    } else if y > 1900 + INT_MIN {
      YearsInOrder(1900 + INT_MIN, y);
    }
    if y < 1900 + INT_MAX + 1 {
      YearsInOrder(y, 1900 + INT_MAX + 1);
    } else if y > 1900 + INT_MAX + 1 {
      YearsInOrder(1900 + INT_MAX + 1, y);
    }
  }

  /** The test on the seconds rejects no instant of a representable year. */
  lemma CoarseRange()
    ensures INT_MIN * 31622400 <= 86400 * YearStart(1900 + INT_MIN)
    ensures 86400 * YearStart(1900 + INT_MAX + 1) <= INT_MAX * 31622400
  {
    YearStartIs(1900 + INT_MIN);
    YearStartIs(1900 + INT_MAX + 1);
  }

  /** Converts seconds since 1970-01-01 into calendar fields. It fails exactly when the year,
      counted from 1900, is not an int; otherwise the fields are those of the proleptic
      Gregorian date and time. */
  method SecsToTm(t: int) returns (result: Option<Tm>)
    ensures result.Some? <==>
      86400 * YearStart(1900 + INT_MIN) <= t < 86400 * YearStart(1900 + INT_MAX + 1)
    ensures result.Some? ==> Valid(result.value) && IsInt(result.value.year)
    ensures result.Some? ==> Instant(result.value) == t
  {
    CoarseRange();
    hide YearStart, MonthStart;
    if t < INT_MIN * 31622400 || t > INT_MAX * 31622400 {
      return None;
    }
    var secs := t - LEAPOCH;
    var days, remsecs := FloorDivision(secs, 86400);
    var wday := TruncRem(3 + days, 7);
    if wday < 0 {
      wday := wday + 7;
    }
    Weekdays(days);
    var years, mon, mday, yday := FindDate(days);
    YearInRange(2000 + years, mon, mday);
    if years + 100 > INT_MAX || years + 100 < INT_MIN {
      return None;
    }
    var tm := Tm(remsecs % 60, remsecs / 60 % 60, remsecs / 3600, mday, mon, years + 100, wday, yday);
    InstantIs(tm);
    ClockIs(remsecs);
    return Some(tm);
  }

  lemma Weekdays(days: int)
    ensures var w := TruncRem(3 + days, 7);
            (if w < 0 then w + 7 else w) == Weekday(11017 + days)
  {
    Truncated(3 + days, 7);
    assert 4 + 11017 + days == 7 * 1574 + (3 + days);
  }

  lemma ClockIs(s: int)
    requires 0 <= s < 86400
    ensures 0 <= s / 3600 < 24
    ensures 3600 * (s / 3600) + 60 * (s / 60 % 60) + s % 60 == s
  {
  }

  /** The seconds before a month of a year. */
  function MonthToSecs(month: int, isLeap: bool): (r: int)
    requires 0 <= month < 12
    ensures forall y :: Leap(y) == isLeap ==> r == 86400 * MonthStart(y, month)
  {
    var t := SECS_THROUGH_MONTH[month];
    assert t == 86400 * FirstDays(month);
    var leapDay := if isLeap && month >= 2 then 1 else 0;
    assert forall y :: Leap(y) == isLeap ==> MonthStart(y, month) == FirstDays(month) + leapDay by {
      forall y | Leap(y) == isLeap
        ensures MonthStart(y, month) == FirstDays(month) + leapDay
      {
        MonthStartIs(y, month);
      }
    }
    if isLeap && month >= 2 then t + 86400 else t
  }

  /** The century of a 400-year cycle and the leap years since its start, for one of the
      cycle's years. */
  method Century(place: int) returns (centuries: int, leaps: int, isLeap: bool)
    requires 0 <= place < 400
    ensures 0 <= centuries < 4 && 0 <= place - 100 * centuries < 100
    ensures leaps == (place - 100 * centuries) / 4
    ensures isLeap <==> place % 4 == 0 && (place == 100 * centuries ==> centuries == 0)
  {
    var rem := place;
    if rem == 0 {
      isLeap := true;
      centuries := 0;
      leaps := 0;
    } else {
      if rem >= 200 {
        if rem >= 300 {
          centuries, rem := 3, rem - 300;
        } else {
          centuries, rem := 2, rem - 200;
        }
      } else {
        if rem >= 100 {
          centuries, rem := 1, rem - 100;
        } else {
          centuries := 0;
        }
      }
      if rem == 0 {
        isLeap := false;
        leaps := 0;
      } else {
        leaps := rem / 4;
        rem := rem % 4;
        isLeap := rem == 0;
      }
    }
  }

  /** The start of a year from its place in the cycles. */
  lemma YearOfCycles(qc: int, c: int, q: int, r: int)
    requires InCycles(qc, c, q, r)
    ensures var y := 2000 + r + 4 * q + 100 * c + 400 * qc;
            YearStart(y) == 365 * (y - 2000) + (97 * qc + 24 * c + q) + 10958 - (if Leap(y) then 1 else 0)
  {
    var y := 2000 + r + 4 * q + 100 * c + 400 * qc;
    YearStartIs(y);
    LeapsStep(y);
    CycleLeaps(qc, c, q, r);
  }

  /** Years 1902 to 2038, where every fourth year is a leap year. */
  method FastYearToSecs(year: int) returns (secs: int, isLeap: bool)
    requires 2 <= year <= 138
    ensures secs == 86400 * YearStart(1900 + year) && IsInt(secs)
    ensures isLeap == Leap(1900 + year)
  {
    hide YearStart, Leap;
    var leaps := (year - 68) / 4;
    if (year - 68) % 4 == 0 {
      leaps := leaps - 1;
      isLeap := true;
    } else {
      isLeap := false;
    }
    secs := 31536000 * (year - 70) + 86400 * leaps;
    ghost var q, r := year / 4 % 25, year % 4;
    if year < 100 {
      YearOfCycles(-1, 3, q, r);
      CycleIsLeap(-1, 3, q, r);
    } else {
      YearOfCycles(0, 0, q, r);
      CycleIsLeap(0, 0, q, r);
    }
  }

  /** The seconds from 1970 to the start of a year counted from 1900, and whether it is a
      leap year. */
  method YearToSecs(year: int) returns (secs: int, isLeap: bool)
    requires 2 * INT_MIN <= year <= 2 * INT_MAX
    ensures secs == 86400 * YearStart(1900 + year)
    ensures isLeap == Leap(1900 + year)
  {
    hide YearStart, Leap;
    if 2 <= year <= 138 {
      secs, isLeap := FastYearToSecs(year);
      return;
    }
    var cycles, rem := FloorDivision(year - 100, 400);
    var centuries, leaps;
    centuries, leaps, isLeap := Century(rem);
    ghost var r := rem - 100 * centuries - 4 * leaps;
    CycleIsLeap(cycles, centuries, leaps, r);
    YearOfCycles(cycles, centuries, leaps, r);
    leaps := leaps + (97 * cycles + 24 * centuries - (if isLeap then 1 else 0));
    assert IsInt(cycles) && IsInt(leaps);
    secs := (year - 100) * 31536000 + leaps * 86400 + 946684800 + 86400;
  }

  /** Converts calendar fields, in range or not, into the instant they denote. */
  method TmToSecs(tm: Tm) returns (t: int)
    requires IsInt(tm.year) && IsInt(tm.mon)
    ensures t == Instant(tm)
  {
    var year, month := tm.year, tm.mon;
    if month >= 12 || month < 0 {
      var adj;
      adj, month := FloorDivision(month, 12);
      year := year + adj;
    }
    assert year == tm.year + tm.mon / 12 && month == tm.mon % 12;
    var isLeap;
    t, isLeap := YearToSecs(year);
    t := t + MonthToSecs(month, isLeap);
    t := t + 86400 * (tm.mday - 1);
    t := t + 3600 * tm.hour;
    t := t + 60 * tm.min;
    t := t + tm.sec;
  }

  /** Every accepted instant survives the conversion to fields and back. */
  method SecsRoundTrip(t: int) returns (back: Option<int>)
    ensures back == if 86400 * YearStart(1900 + INT_MIN) <= t < 86400 * YearStart(1900 + INT_MAX + 1)
                    then Some(t) else None
  {
    var tm := SecsToTm(t);
    if tm.None? {
      return None;
    }
    var u := TmToSecs(tm.value);
    return Some(u);
  }

  /** Valid fields with an int year survive the conversion to seconds and back. */
  method FieldsRoundTrip(tm: Tm) returns (back: Option<Tm>)
    requires Valid(tm) && IsInt(tm.year)
    ensures back == Some(tm)
  {
    var t := TmToSecs(tm);
    YearInRange(1900 + tm.year, tm.mon, tm.mday);
    InstantIs(tm);
    back := SecsToTm(t);
    if back.Some? {
      FieldsAreUnique(back.value, tm);
    }
  }
}
