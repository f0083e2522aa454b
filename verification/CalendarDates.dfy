/** Dates that everyone knows, and the cycle of the calendar. */
module CalendarDates {
  import opened CalendarSpec

  const MONTH_LENGTHS: seq<int> := [31, 28, 31, 30, 31, 30, 31, 31, 30, 31, 30, 31]

  /** The months against their lengths; the second one has a day more in leap years. */
  lemma MonthsAre(y: int, m: nat)
    requires m < 12
    ensures |MONTH_LENGTHS| == 12
    ensures MonthLength(y, m) == MONTH_LENGTHS[m] + if m == 1 && YearLength(y) == 366 then 1 else 0
  {
  }

  lemma CycleLeap(y: int)
    ensures Leap(y + 400) == Leap(y)
  {
  }

  lemma LeapsInCycle(n: int)
    ensures Leaps(n + 400) == Leaps(n) + 97
  {
    Shifted(n, 4, 100);
    Shifted(n, 100, 4);
    Shifted(n, 400, 1);
  }

  lemma Shifted(n: int, k: int, q: int)
    requires (k == 4 && q == 100) || (k == 100 && q == 4) || (k == 400 && q == 1)
    ensures (n + 400) / k == n / k + q
  {
  }

  lemma DayIs(y: int, m: nat, d: int)
    requires m < 12
    ensures DayNumber(y, m, d)
            == 365 * (y - 1970) + Leaps(y - 1) - 477 + FirstDays(m) + (if Leap(y) && m >= 2 then 1 else 0) + d - 1
  {
    hide YearStart, MonthStart;
    YearStartIs(y);
    MonthStartIs(y, m);
  }

  lemma SameWeekday(day: int)
    ensures Weekday(day + 146097) == Weekday(day)
  {
  }

  /** After 400 years the dates fall on the same days of the week again. */
  lemma CycleRepeats(y: int, m: nat, d: int)
    requires m < 12
    ensures MonthLength(y + 400, m) == MonthLength(y, m)
    ensures DayNumber(y + 400, m, d) == DayNumber(y, m, d) + 146097
    ensures Weekday(DayNumber(y + 400, m, d)) == Weekday(DayNumber(y, m, d))
  {
    hide DayNumber, Leaps, Leap, FirstDays, Weekday;
    DayIs(y, m, d);
    DayIs(y + 400, m, d);
    CycleLeap(y);
    LeapsInCycle(y - 1);
    SameWeekday(DayNumber(y, m, d));
  }

  /** The first day of the Unix time is a Thursday, and 1 January 1601, from which the type counts its hundreds of
      nanoseconds, is a Monday 11644473600 seconds before it. */
  lemma EpochsAre()
    ensures DayNumber(1970, 0, 1) == 0 && Weekday(0) == 4
    ensures 86400 * DayNumber(1601, 0, 1) == -11644473600 && Weekday(DayNumber(1601, 0, 1)) == 1
  {
    hide DayNumber;
    DayIs(1970, 0, 1);
    DayIs(1601, 0, 1);
  }

  /** Tuesday, 29 February 2000; Tuesday, 19 January 2038; Friday, 15 October 1582. */
  lemma KnownDates()
    ensures MonthLength(2000, 1) == 29 && MonthLength(1900, 1) == 28
    ensures DayNumber(2000, 1, 29) == 11016 && Weekday(11016) == 2
    ensures DayNumber(2038, 0, 19) == 24855 && Weekday(24855) == 2
    ensures DayNumber(1582, 9, 15) == -141427 && Weekday(-141427) == 5
  {
    hide DayNumber;
    DayIs(2000, 1, 29);
    DayIs(2038, 0, 19);
    DayIs(1582, 9, 15);
  }
}
