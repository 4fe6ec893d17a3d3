/** Contract end dates and the survey window: the date arithmetic of the booking service. */
module Calendar {
  import opened Models

  /** A Gregorian date. `month` counts months from January of year 0, so that year and month are its quotient and
      remainder by twelve; this is the normal form that adding months to a date passes through. */
  datatype Civil = Civil(month: int, day: int)

  type Date = c: Civil | 1 <= c.day <= DaysIn(c.month) witness Civil(0, 1)

  predicate IsLeap(year: int) {
    year % 4 == 0 && (year % 100 != 0 || year % 400 == 0)
  }

  function DaysIn(month: int): (n: int)
    ensures 28 <= n <= 31
  {
    var m := month % 12;
    if m == 1 then (if IsLeap(month / 12) then 29 else 28)
    else if m == 3 || m == 5 || m == 8 || m == 10 then 30
    else 31
  }

  /** Days before January of `year`, counted as the standard library does: from the leap years that went before. */
  function DaysBeforeYear(year: int): int {
    365 * year + (year - 1) / 4 - (year - 1) / 100 + (year - 1) / 400
  }

  /** The table of days before each month of a year that is not leap. */
  function DaysBeforeMonth(m: int): int
    requires 0 <= m < 12
  {
    [0, 31, 59, 90, 120, 151, 181, 212, 243, 273, 304, 334][m]
  }

  function FirstDay(month: int): int {
    DaysBeforeYear(month / 12) + DaysBeforeMonth(month % 12)
    + (if month % 12 >= 2 && IsLeap(month / 12) then 1 else 0)
  }

  /** The day number of day `day` of `month`, where `day` may lie past the end of the month. */
  function DayNumber(month: int, day: int): int {
    FirstDay(month) + day - 1
  }

  /** `start.AddDate(0, months, 0)`, as a day number: the month is moved, the day is kept and may overflow. */
  function EndDay(start: Date, months: int): int {
    DayNumber(start.month + months, start.day)
  }

  /** January and every other month from it to July have 31 days, as have August and every other month after it; of the
      rest February is the short one. */
  lemma MonthLengths(month: int)
    ensures month % 12 != 1 ==> DaysIn(month) == 30 + (month % 12 + month % 12 / 7 + 1) % 2
    ensures month % 12 == 1 ==> DaysIn(month) == 28 || DaysIn(month) == 29
  {
  }

  lemma YearsRepeat(year: int)
    ensures DaysBeforeYear(year + 400) - DaysBeforeYear(year) == 400 * 365 + 97
    ensures IsLeap(year + 400) == IsLeap(year)
  {
    assert (year + 399) / 4 == (year - 1) / 4 + 100;
    assert (year + 399) / 100 == (year - 1) / 100 + 4;
    assert (year + 399) / 400 == (year - 1) / 400 + 1;
  }

  /** The calendar repeats every 400 years, of which 97 are leap. */
  lemma CalendarRepeats(month: int)
    ensures FirstDay(month + 4800) - FirstDay(month) == 400 * 365 + 97
  {
    YearsRepeat(month / 12);
    assert (month + 4800) / 12 == month / 12 + 400 && (month + 4800) % 12 == month % 12;
    hide IsLeap, DaysBeforeYear, DaysBeforeMonth;
  }

  /** The lengths of `months` consecutive months beginning with `month`, added up. */
  function SumOfLengths(month: int, months: nat): int
    decreases months
  {
    if months == 0 then 0 else DaysIn(month) + SumOfLengths(month + 1, months - 1)
  }

  /** The calendar date on which a day that may have overflowed its month falls. */
  function Normalize(month: int, day: int): Civil {
    if day <= DaysIn(month) then Civil(month, day) else Civil(month + 1, day - DaysIn(month))
  }

  lemma MonthsAreConsecutive(month: int)
    ensures FirstDay(month + 1) == FirstDay(month) + DaysIn(month)
  {
    var y, m := month / 12, month % 12;
    if m < 11 {
      assert (month + 1) / 12 == y && (month + 1) % 12 == m + 1;
    } else {
      assert (month + 1) / 12 == y + 1 && (month + 1) % 12 == 0;
      YearsAreConsecutive(y);
    }
  }

  lemma YearsAreConsecutive(y: int)
    ensures DaysBeforeYear(y + 1) == DaysBeforeYear(y) + (if IsLeap(y) then 366 else 365)
  {
    QuotientStep(y, 4);
    QuotientStep(y, 100);
    QuotientStep(y, 400);
  }

  lemma QuotientStep(y: int, n: int)
    requires n > 1
    ensures y / n == (y - 1) / n + (if y % n == 0 then 1 else 0)
  {
    var q, r := (y - 1) / n, (y - 1) % n;
    assert y - 1 == n * q + r;
    if r == n - 1 {
      assert y == n * (q + 1);
      DivideExact(y, n, q + 1, 0);
    } else {
      DivideExact(y, n, q, r + 1);
    }
  }

  lemma DivideExact(x: int, n: int, q: int, r: int)
    requires 0 <= r < n && x == n * q + r
    ensures x / n == q && x % n == r
  {
    var k := x / n - q;
    assert n * k == r - x % n;
    assert -n < n * k < n;
    assert k == 0;
  }

  lemma {:induction false} MonthsSpan(month: int, months: nat)
    ensures FirstDay(month + months) == FirstDay(month) + SumOfLengths(month, months)
    ensures SumOfLengths(month, months) >= 28 * months
    decreases months
  {
    hide FirstDay, DaysIn;
    if months == 0 {
    } else {
      MonthsAreConsecutive(month);
      MonthsSpan(month + 1, months - 1);
    }
  }

  lemma LaterMonths(a: int, b: int)
    requires a < b
    ensures FirstDay(b) >= FirstDay(a) + DaysIn(a)
  {
    hide FirstDay, DaysIn;
    MonthsAreConsecutive(a);
    MonthsSpan(a + 1, b - a - 1);
    assert a + 1 + (b - a - 1) == b;
  }

  /** A contract of `months` months lasts exactly as long as that many consecutive months beginning with the start
      month, whatever the start day is. */
  lemma ContractLength(start: Date, months: nat)
    ensures EndDay(start, months) - DayNumber(start.month, start.day) == SumOfLengths(start.month, months)
  {
    MonthsSpan(start.month, months);
  }

  lemma OneMonthContract(start: Date)
    ensures 28 <= EndDay(start, 1) - DayNumber(start.month, start.day) <= 31
  {
    MonthsAreConsecutive(start.month);
  }

  /** A year's contract lasts 366 days exactly when it runs over a 29 February: one starting in January or February
      of a leap year, or after February of the year before one. */
  lemma OneYearContract(start: Date)
    ensures var leapYear := if start.month % 12 < 2 then start.month / 12 else start.month / 12 + 1;
            EndDay(start, 12) - DayNumber(start.month, start.day) == if IsLeap(leapYear) then 366 else 365
  {
    var y := start.month / 12;
    assert (start.month + 12) / 12 == y + 1 && (start.month + 12) % 12 == start.month % 12;
    YearsAreConsecutive(y);
  }

  /** Longer contracts end strictly later. */
  lemma LongerEndsLater(start: Date, shorter: int, longer: int)
    requires shorter < longer
    ensures EndDay(start, shorter) < EndDay(start, longer)
  {
    hide FirstDay, DaysIn;
    LaterMonths(start.month + shorter, start.month + longer);
  }

  /** The check constraint `end_date > start_date` of the contracts table passes for every duration of at least one
      month, and for no other. */
  lemma CheckConstraint(start: Date, months: int)
    ensures EndDay(start, months) > DayNumber(start.month, start.day) <==> months >= 1
  {
    if months >= 1 {
      LongerEndsLater(start, 0, months);
    } else if months < 0 {
      LongerEndsLater(start, months, 0);
    }
  }

  /** Dates and day numbers determine each other, so `Normalize` names the date and not just one of its names. */
  lemma DatesAreUnique(a: Date, b: Date)
    requires DayNumber(a.month, a.day) == DayNumber(b.month, b.day)
    ensures a == b
  {
    if a.month < b.month {
      LaterMonths(a.month, b.month);
    } else if b.month < a.month {
      LaterMonths(b.month, a.month);
    }
  }

  /** A contract ends on the start's day of the month or, when the last month is too short for that day, on one of
      the first three days of the month after it. */
  lemma EndDayOfMonth(start: Date, months: int)
    ensures var end := Normalize(start.month + months, start.day);
            && 1 <= end.day <= DaysIn(end.month)
            && DayNumber(end.month, end.day) == EndDay(start, months)
            && ((end.month == start.month + months && end.day == start.day)
                || (end.month == start.month + months + 1 && 1 <= end.day <= 3
                    && DaysIn(start.month + months) < start.day))
  {
    hide FirstDay, DaysIn;
    MonthsAreConsecutive(start.month + months);
  }

  // ----- The survey window -----

  const DAY: int := 86_400_000_000_000

  /** `t.Truncate(24 * time.Hour)`, as a day number: truncation is relative to UTC, in any location. */
  function UtcDay(t: Time): int { t / DAY }

  /** The instant at which the handler parses the date `d` in a location `offset` ahead of UTC. */
  function LocalMidnight(d: int, offset: int): Time { d * DAY - offset }

  function LocalDay(t: Time, offset: int): int { (t + offset) / DAY }

  function LocalTimeOfDay(t: Time, offset: int): int { (t + offset) % DAY }

  /** The window check that precedes a booking. */
  predicate SurveyAccepted(now: Time, survey: Time) {
    UtcDay(now) <= UtcDay(survey) <= UtcDay(now) + 5
  }

  /** The first of the dates a location accepts. */
  function WindowStart(now: Time, offset: int): int {
    UtcDay(now) + if offset > 0 then 1 else 0
  }

  /** At any fixed offset exactly six consecutive dates are accepted, each 0 to 6 local days ahead. East of UTC the
      day that is recorded, being the UTC day, is the one before the day asked for. */
  lemma SurveyWindow(now: Time, offset: int, d: int)
    requires -DAY < offset < DAY
    ensures SurveyAccepted(now, LocalMidnight(d, offset))
            <==> WindowStart(now, offset) <= d <= WindowStart(now, offset) + 5
    ensures SurveyAccepted(now, LocalMidnight(d, offset)) ==> 0 <= d - LocalDay(now, offset) <= 6
    ensures UtcDay(LocalMidnight(d, offset)) == if offset > 0 then d - 1 else d
  {
  }

  /** The documented window, today to today plus five, is the real one exactly at offset zero or while the local
      time of day is below the offset (taken modulo a day). At UTC+7 that is from midnight to 07:00. */
  lemma DocumentedWindow(now: Time, offset: int)
    requires -DAY < offset < DAY
    ensures (forall d :: SurveyAccepted(now, LocalMidnight(d, offset))
                         <==> LocalDay(now, offset) <= d <= LocalDay(now, offset) + 5)
            <==> offset == 0 || LocalTimeOfDay(now, offset) < offset % DAY
  {
    var today, first := LocalDay(now, offset), WindowStart(now, offset);
    forall d
      ensures SurveyAccepted(now, LocalMidnight(d, offset)) <==> first <= d <= first + 5
    {
      SurveyWindow(now, offset, d);
    }
    if first != today {
      assert SurveyAccepted(now, LocalMidnight(first, offset)) && SurveyAccepted(now, LocalMidnight(first + 5, offset));
    }
  }
}
