/** The calendar is the Gregorian one: it starts on 1970-01-01 and goes on day by day. */
module CalendarFacts {
  import opened Core
  import opened Calendar

  /** The day after, by the lengths of the months that everyone knows; every fourth year is a leap year until 2099. */
  function DayAfter(d: Date): Date {
    if d.day < LastDay(d.year, d.month) then Date(d.year, d.month, d.day + 1)
    else if d.month < 12 then Date(d.year, d.month + 1, 1)
    else Date(d.year + 1, 1, 1)
  }

  function LastDay(year: nat, month: nat): nat {
    if month == 2 then (if year % 4 == 0 then 29 else 28)
    else if month == 4 || month == 6 || month == 9 || month == 11 then 30
    else 31
  }

  lemma LastDayIs(year: nat, month: nat)
    requires 1 <= month <= 12
    ensures MonthLength(year, month) == LastDay(year, month)
  {
  }

  lemma {:induction false} MonthsOrdered(year: nat, a: nat, b: nat)
    requires 1 <= a <= b <= 13
    ensures DaysBeforeMonth(year, a) <= DaysBeforeMonth(year, b)
    decreases b
  {
    if a < b {
      MonthsOrdered(year, a, b - 1);
    }
  }

  lemma DayInYear(d: Date)
    requires ValidDate(d)
    ensures DaysBeforeYear(d.year) <= DayNumber(d) < DaysBeforeYear(d.year + 1)
  {
    YearLength(d.year);
    MonthsOrdered(d.year, d.month + 1, 13);
  }

  /** No two dates have the same number. */
  lemma OneDate(a: Date, b: Date)
    requires ValidDate(a) && ValidDate(b) && DayNumber(a) == DayNumber(b)
    ensures a == b
  {
    hide DaysBeforeYear;
    DayInYear(a);
    DayInYear(b);
    if a.year < b.year {
      YearsOrdered(a.year + 1, b.year);
    } else if b.year < a.year {
      YearsOrdered(b.year + 1, a.year);
    }
    if a.month < b.month {
      MonthsOrdered(a.year, a.month + 1, b.month);
    } else if b.month < a.month {
      MonthsOrdered(a.year, b.month + 1, a.month);
    }
  }

  lemma DayAfterNumber(d: Date)
    requires ValidDate(d)
    ensures ValidDate(DayAfter(d)) && DayNumber(DayAfter(d)) == DayNumber(d) + 1
  {
    LastDayIs(d.year, d.month);
    if d.month < 12 {
      LastDayIs(d.year, d.month + 1);
    } else {
      YearLength(d.year);
    }
  }

  /** Day by day from the first of January 1970. */
  lemma DatesFollow(days: nat)
    ensures days == 0 ==> DateOf(days) == Date(1970, 1, 1)
    ensures DateOf(days + 1) == DayAfter(DateOf(days))
  {
    hide DateOf, DaysBeforeYear, DaysBeforeMonth;
    DayAfterNumber(DateOf(days));
    OneDate(DateOf(days + 1), DayAfter(DateOf(days)));
    FirstDay();
    if days == 0 {
      OneDate(DateOf(days), Date(1970, 1, 1));
    }
  }

  lemma FirstDay()
    ensures ValidDate(Date(1970, 1, 1)) && DayNumber(Date(1970, 1, 1)) == 0
  {
  }

  /** Times are printed from the first second of 2020 to the last one of 2099. */
  lemma PrintedYears(seconds: nat)
    ensures FormatUtc(seconds) != "" <==> 2020 <= DateOf(seconds / DAY).year <= 2099
  {
    hide DateOf, DaysBeforeYear, Stamp;
    DaysClosed(2020);
    DaysClosed(2100);
    YearHolds(seconds / DAY);
    var year := DateOf(seconds / DAY).year;
    if year < 2020 {
      YearsOrdered(year + 1, 2020);
    } else {
      YearsOrdered(2020, year);
    }
    if year > 2099 {
      YearsOrdered(2100, year);
    } else {
      YearsOrdered(year + 1, 2100);
    }
  }
}
