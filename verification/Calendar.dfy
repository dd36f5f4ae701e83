/** Day numbers of Gregorian dates of all years, and stepping from one day to the next. */
module Calendar {
  datatype Date = Date(year: int, month: int, day: int)

  predicate Leap(y: int) { y % 4 == 0 && (y % 100 != 0 || y % 400 == 0) }

  const DAYCOUNT := [31, 28, 31, 30, 31, 30, 31, 31, 30, 31, 30, 31]

  function MonthLength(y: int, m: int): int {
    if m == 2 then (if Leap(y) then 29 else 28) else if m in {4, 6, 9, 11} then 30 else 31
  }

  predicate ValidDate(d: Date) { 1 <= d.month <= 12 && 1 <= d.day <= MonthLength(d.year, d.month) }

  /** T-SQL dates begin with year 1. */
  predicate SqlDate(d: Date) { ValidDate(d) && d.year >= 1 }

  /** Days of a common year before the first of month m. */
  function Before(m: int): int
    requires 1 <= m <= 12
  {
    if m == 1 then 0 else Before(m - 1) + MonthLength(1, m - 1)
  }

  function Leaps(y: int): int { y / 4 - y / 100 + y / 400 }

  function DayNumber(d: Date): int
    requires 1 <= d.month <= 12
  {
    d.year * 365 + d.day + Before(d.month) + Leaps(if d.month <= 2 then d.year - 1 else d.year)
  }

  lemma {:induction false} BeforeIs()
    ensures Before(1) == 0 && Before(2) == 31 && Before(3) == 59 && Before(4) == 90 && Before(5) == 120 && Before(6) == 151
    ensures Before(7) == 181 && Before(8) == 212 && Before(9) == 243 && Before(10) == 273 && Before(11) == 304 && Before(12) == 334
  {
    assert Before(2) == 31 && Before(3) == 59 && Before(4) == 90;
    assert Before(5) == 120 && Before(6) == 151 && Before(7) == 181;
    assert Before(8) == 212 && Before(9) == 243 && Before(10) == 273;
    assert Before(11) == 304 && Before(12) == 334;
  }

  /** The count of leap days grows exactly in leap years. */
  lemma {:induction false} LeapStep(y: int)
    ensures Leaps(y) == Leaps(y - 1) + (if Leap(y) then 1 else 0)
  {
    Step4(y);
    Step100(y);
    Step400(y);
    Divides(y);
    hide Leap;
    assert Leaps(y) == y / 4 - y / 100 + y / 400 && Leaps(y - 1) == (y - 1) / 4 - (y - 1) / 100 + (y - 1) / 400;
  }

  lemma {:induction false} Step4(y: int)
    ensures y / 4 == (y - 1) / 4 + (if y % 4 == 0 then 1 else 0)
  {
  }

  lemma {:induction false} Step100(y: int)
    ensures y / 100 == (y - 1) / 100 + (if y % 100 == 0 then 1 else 0)
  {
  }

  lemma {:induction false} Step400(y: int)
    ensures y / 400 == (y - 1) / 400 + (if y % 400 == 0 then 1 else 0)
  {
  }

  lemma {:induction false} Divides(y: int)
    ensures (y % 400 == 0 ==> y % 100 == 0) && (y % 100 == 0 ==> y % 4 == 0)
    ensures Leap(y) <==> y % 4 == 0 && (y % 100 != 0 || y % 400 == 0)
  {
  }

  /** The number as the loop over the months adds it up. */
  method DaysInDate(day: int, month: int, year: int) returns (n: int)
    requires year >= 1 && 1 <= month <= 12
    ensures n == DayNumber(Date(year, month, day))
  {
    n := year * 365 + day;
    var i := 1;
    while i < month
      invariant 1 <= i <= month && n == year * 365 + day + Before(i)
    {
      if i == 2 { n := n + 28; } else if i == 4 || i == 6 || i == 9 || i == 11 { n := n + 30; } else { n := n + 31; }
      i := i + 1;
    }
    var y := year;
    if month <= 2 { y := y - 1; }
    n := n + (y / 4 - y / 100 + y / 400);
  }

  // ---- The next day ----

  function NextDay(d: Date): (e: Date)
    requires 1 <= d.month <= 12
    ensures 1 <= e.month <= 12 && e.year >= d.year
  {
    if d.day == DAYCOUNT[d.month - 1] && d.month == 12 then Date(d.year + 1, 1, 1)
    else if (d.day == DAYCOUNT[d.month - 1] && d.month != 2) || (d.month == 2 && d.day == 29 && Leap(d.year)) ||
            (d.month == 2 && d.day == 28 && !Leap(d.year))
    then Date(d.year, d.month + 1, 1)
    else Date(d.year, d.month, d.day + 1)
  }

  /** The next day is a date again, and its number is one larger. */
  lemma {:induction false} NextDayIsNext(d: Date)
    requires ValidDate(d)
    ensures ValidDate(NextDay(d)) && DayNumber(NextDay(d)) == DayNumber(d) + 1
  {
    NextDayCases(d);
    BeforeIs();
    hide Before, Leaps, DAYCOUNT, NextDay;
    if d.day < MonthLength(d.year, d.month) {
    } else if d.month == 12 {
    } else {
      BeforeStep(d.month);
      if d.month == 2 { LeapStep(d.year); }
    }
  }

  lemma {:induction false} BeforeStep(m: int)
    requires 1 <= m < 12
    ensures Before(m + 1) == Before(m) + (if m == 2 then 28 else MonthLength(1, m))
  {
  }

  lemma {:induction false} DaycountIs(m: int)
    requires 1 <= m <= 12
    ensures DAYCOUNT[m - 1] == MonthLength(1, m)
  {
  }

  /** The cases of the step are the end of a year, the end of a month, and every other day. */
  lemma {:induction false} NextDayCases(d: Date)
    requires ValidDate(d)
    ensures NextDay(d) ==
            if d.day < MonthLength(d.year, d.month) then Date(d.year, d.month, d.day + 1)
            else if d.month < 12 then Date(d.year, d.month + 1, 1) else Date(d.year + 1, 1, 1)
  {
    DaycountIs(d.month);
    hide DAYCOUNT;
  }

  const FIRST := Date(1, 1, 1)

  lemma {:induction false} FirstNumber()
    ensures ValidDate(FIRST) && SqlDate(FIRST) && DayNumber(FIRST) == 366
  {
  }

  /** Dates repeat every 400 years. */
  lemma {:induction false} Cycle(d: Date)
    requires ValidDate(d)
    ensures var e := Date(d.year - 400, d.month, d.day); ValidDate(e) && DayNumber(e) == DayNumber(d) - 146097
  {
    LeapsCycle(d.year);
    LeapsCycle(d.year - 1);
    hide Before, Leaps;
  }

  lemma {:induction false} LeapsCycle(y: int)
    ensures Leaps(y - 400) == Leaps(y) - 97 && Leap(y - 400) == Leap(y)
  {
    Back4(y);
    Back100(y);
    Back400(y);
  }

  lemma {:induction false} Back4(y: int)
    ensures (y - 400) / 4 == y / 4 - 100 && (y - 400) % 4 == y % 4
  {
  }

  lemma {:induction false} Back100(y: int)
    ensures (y - 400) / 100 == y / 100 - 4 && (y - 400) % 100 == y % 100
  {
  }

  lemma {:induction false} Back400(y: int)
    ensures (y - 400) / 400 == y / 400 - 1 && (y - 400) % 400 == y % 400
  {
  }

  /** The date with a given number, reached by stepping from the first day of some cycle. */
  function DateOf(n: int): (d: Date)
    ensures 1 <= d.month <= 12 && (n >= 366 ==> d.year >= 1)
    decreases if n >= 366 then n else 146829 - n
  {
    if n == 366 then FIRST
    else if n > 366 then NextDay(DateOf(n - 1))
    else var d := DateOf(n + 146097); Date(d.year - 400, d.month, d.day)
  }

  /** Every number is that of a date. */
  lemma {:induction false} DateOfNumber(n: int)
    ensures ValidDate(DateOf(n)) && DayNumber(DateOf(n)) == n
    decreases if n >= 366 then n else 146829 - n
  {
    hide ValidDate, DayNumber, NextDay;
    if n == 366 {
      FirstNumber();
    } else if n > 366 {
      DateOfNumber(n - 1);
      NextDayIsNext(DateOf(n - 1));
    } else {
      DateOfNumber(n + 146097);
      Cycle(DateOf(n + 146097));
    }
  }

  // ---- Order ----

  predicate Earlier(a: Date, b: Date) {
    a.year < b.year || (a.year == b.year && (a.month < b.month || (a.month == b.month && a.day < b.day)))
  }

  /** The first day of a year, and how far the others lie from it. */
  lemma {:induction false} WithinYear(d: Date)
    requires ValidDate(d)
    ensures 0 <= DayNumber(d) - DayNumber(Date(d.year, 1, 1)) <= (if Leap(d.year) then 365 else 364)
  {
    BeforeIs();
    LeapStep(d.year);
    hide Before, Leaps;
  }

  lemma {:induction false} YearStarts(y: int, z: int)
    requires y < z
    ensures DayNumber(Date(z, 1, 1)) >= DayNumber(Date(y, 1, 1)) + (if Leap(y) then 366 else 365)
    decreases z - y
  {
    BeforeIs();
    LeapStep(y);
    if y + 1 < z {
      YearStarts(y + 1, z);
    }
  }

  lemma {:induction false} LaterMonth(m: int, n: int)
    requires 1 <= m < n <= 12
    ensures Before(m) + MonthLength(1, m) <= Before(n)
    decreases n
  {
    if m < n - 1 { LaterMonth(m, n - 1); }
  }

  lemma {:induction false} SameYear(a: Date, b: Date)
    requires ValidDate(a) && ValidDate(b) && a.year == b.year && Earlier(a, b)
    ensures DayNumber(a) < DayNumber(b)
  {
    hide Before, Leaps;
    if a.month < b.month {
      LaterMonth(a.month, b.month);
      LeapStep(a.year);
    }
  }

  /** Day numbers follow the order of dates. */
  lemma {:induction false} NumbersIncrease(a: Date, b: Date)
    requires ValidDate(a) && ValidDate(b) && Earlier(a, b)
    ensures DayNumber(a) < DayNumber(b)
  {
    if a.year == b.year {
      SameYear(a, b);
    } else {
      WithinYear(a);
      WithinYear(b);
      YearStarts(a.year, b.year);
    }
  }

  lemma {:induction false} NumbersFrom(d: Date)
    requires SqlDate(d)
    ensures DayNumber(d) >= 366
  {
    if d != FIRST {
      FirstNumber();
      NumbersIncrease(FIRST, d);
    }
  }
}
