/** DATEDIFF: counts of unit boundaries between two points in time. C's division truncates towards zero,
    and the code corrects for it case by case. */
module DateDiff {
  import opened Calendar
  import opened Machine

  /** The remainder as C computes it. */
  function Rem(a: int, b: int): int
    requires b > 0
  {
    a - Quot(a, b) * b
  }

  // ---- Quarters ----

  function QuarterIndex(d: Date): int { 4 * d.year + (d.month - 1) / 3 }

  method QuarterDiff(a: Date, b: Date) returns (diff: int)
    requires ValidDate(a) && ValidDate(b)
    ensures diff == QuarterIndex(b) - QuarterIndex(a)
  {
    hide *;
    MonthIs(a);
    MonthIs(b);
    var yeardiff, monthdiff := b.year - a.year, b.month - a.month;
    diff := Quot(yeardiff * 12 + monthdiff, 3);
    QuarterQuot(yeardiff, monthdiff);
    var m1, m2 := Rem(a.month - 1, 3), Rem(b.month - 1, 3);
    RemIs(a.month - 1);
    RemIs(b.month - 1);
    RemSigned(monthdiff);
    if Rem(monthdiff, 3) > 0 {
      if yeardiff >= 0 && m1 > m2 { diff := diff + 1; } else if yeardiff < 0 && m1 < m2 { diff := diff - 1; }
    } else if Rem(monthdiff, 3) < 0 {
      if yeardiff > 0 && m1 > m2 { diff := diff + 1; } else if yeardiff <= 0 && m1 < m2 { diff := diff - 1; }
    }
  }

  lemma {:induction false} MonthIs(d: Date)
    requires ValidDate(d)
    ensures 1 <= d.month <= 12 && QuarterIndex(d) == 4 * d.year + (d.month - 1) / 3
  {
  }

  lemma {:induction false} RemIs(x: int)
    requires x >= 0
    ensures Rem(x, 3) == x % 3
  {
  }

  lemma {:induction false} RemSigned(x: int)
    ensures Rem(x, 3) > 0 <==> x > 0 && x % 3 != 0
    ensures Rem(x, 3) < 0 <==> x < 0 && x % 3 != 0
  {
  }

  lemma {:induction false} QuarterQuot(years: int, months: int)
    requires -11 <= months <= 11
    ensures Quot(years * 12 + months, 3) ==
            4 * years + (if years * 12 + months >= 0 then months / 3 else -((-months) / 3))
  {
  }

  // ---- Weeks ----

  /** Weeks that start on Sunday. */
  function WeekIndex(day: int): int { (day - 1) / 7 }

  method WeekDiff(a: Date, b: Date) returns (diff: int)
    requires SqlDate(a) && SqlDate(b)
    ensures diff == WeekIndex(DayNumber(b)) - WeekIndex(DayNumber(a))
  {
    var d1 := DaysInDate(a.day, a.month, a.year);
    var d2 := DaysInDate(b.day, b.month, b.year);
    NumbersFrom(a);
    NumbersFrom(b);
    hide ValidDate, DayNumber;
    var daydiff := d2 - d1;
    diff := Quot(daydiff, 7);
    var later := if d1 > d2 then d1 else d2;
    if (if daydiff < 0 then -daydiff else daydiff) % 7 > (later - 1) % 7 {
      diff := if daydiff < 0 then diff - 1 else diff + 1;
    }
    if d1 <= d2 { WeekStep(d1, d2); } else { WeekStep(d2, d1); }
  }

  /** Whole weeks between two days, and one more when the rest crosses into another week. */
  lemma {:induction false} WeekStep(d1: int, d2: int)
    requires 1 <= d1 <= d2
    ensures WeekIndex(d2) - WeekIndex(d1) == (d2 - d1) / 7 + (if (d2 - d1) % 7 > (d2 - 1) % 7 then 1 else 0)
  {
  }

  /** 0001-01-07 was a Sunday, and a week begins every seven days from it. */
  lemma WeeksBeginOnSunday()
    ensures DayNumber(Date(1, 1, 7)) % 7 == 1
    ensures forall n: int :: WeekIndex(n) != WeekIndex(n - 1) <==> n % 7 == 1
  {
  }

  // ---- Time units ----

  datatype Time = Time(date: Date, hour: int, minute: int, second: int, usec: int)

  predicate ValidTime(t: Time) {
    SqlDate(t.date) && 0 <= t.hour < 24 && 0 <= t.minute < 60 && 0 <= t.second < 60 && 0 <= t.usec < 1000000
  }

  datatype Unit = Hour | Minute | Second | Millisecond | Microsecond | Nanosecond

  /** How many units have begun since day number zero. */
  function Count(t: Time, unit: Unit): int
    requires ValidTime(t)
  {
    var hours := DayNumber(t.date) * 24 + t.hour;
    var seconds := (hours * 60 + t.minute) * 60 + t.second;
    match unit
    case Hour => hours
    case Minute => hours * 60 + t.minute
    case Second => seconds
    case Millisecond => seconds * 1000 + t.usec / 1000
    case Microsecond => seconds * 1000000 + t.usec
    case Nanosecond => (seconds * 1000000 + t.usec) * 1000
  }

  /** Microseconds since day number zero. */
  function Stamp(t: Time): int
    requires ValidTime(t)
  {
    DayNumber(t.date) * 86400000000 + t.hour * 3600000000 + t.minute * 60000000 + t.second * 1000000 + t.usec
  }

  /** Every count is the whole number of units in the microseconds. */
  lemma {:induction false} CountIs(t: Time)
    requires ValidTime(t)
    ensures Count(t, Hour) == Stamp(t) / 3600000000 && Count(t, Minute) == Stamp(t) / 60000000 && Count(t, Second) == Stamp(t) / 1000000
    ensures Count(t, Millisecond) == Stamp(t) / 1000 && Count(t, Microsecond) == Stamp(t) && Count(t, Nanosecond) == Stamp(t) * 1000
  {
    hide DayNumber;
    var seconds := ((DayNumber(t.date) * 24 + t.hour) * 60 + t.minute) * 60 + t.second;
    assert Stamp(t) == seconds * 1000000 + t.usec;
    Units(DayNumber(t.date) * 24 + t.hour, t.minute, t.second, t.usec);
  }

  lemma {:induction false} Units(hours: int, minute: int, second: int, usec: int)
    requires 0 <= minute < 60 && 0 <= second < 60 && 0 <= usec < 1000000
    ensures var stamp := ((hours * 60 + minute) * 60 + second) * 1000000 + usec;
            stamp / 3600000000 == hours && stamp / 60000000 == hours * 60 + minute && stamp / 1000000 == (hours * 60 + minute) * 60 + second &&
            stamp / 1000 == ((hours * 60 + minute) * 60 + second) * 1000 + usec / 1000
  {
  }

  predicate Fits(x: int, big: bool) {
    if big then -0x8000_0000_0000_0000 <= x <= 0x7fff_ffff_ffff_ffff else -0x8000_0000 <= x <= 0x7fff_ffff
  }

  /** Multiplies and adds in a register of either width; fails when the product or the sum does not fit. */
  method MultiplyAdd(val: int, multiplier: int, sum: int, big: bool) returns (ok: bool, r: int)
    ensures ok <==> Fits(val * multiplier, big) && Fits(sum + val * multiplier, big)
    ensures ok ==> r == sum + val * multiplier
  {
    var product := val * multiplier;
    r := sum + product;
    ok := Fits(product, big) && Fits(r, big);
  }

  /** The unit a finer one is computed from, and how many of the finer make one of it. */
  function Coarser(unit: Unit): Unit
    requires !unit.Hour?
  {
    match unit
    case Minute => Hour
    case Second => Minute
    case Millisecond => Second
    case Microsecond => Second
    case Nanosecond => Microsecond
  }

  function Factor(unit: Unit): int {
    match unit
    case Hour => 24
    case Minute => 60
    case Second => 60
    case Millisecond => 1000
    case Microsecond => 1000000
    case Nanosecond => 1000
  }

  /** The part of a time that a unit adds to the next coarser one. */
  function Part(t: Time, unit: Unit): int {
    match unit
    case Hour => t.hour
    case Minute => t.minute
    case Second => t.second
    case Millisecond => t.usec / 1000
    case Microsecond => t.usec
    case Nanosecond => 0
  }

  function Rank(unit: Unit): nat {
    match unit case Hour => 0 case Minute => 1 case Second => 2 case Millisecond => 3 case Microsecond => 3 case Nanosecond => 4
  }

  /** The difference in the unit above: days for hours. */
  function Above(a: Time, b: Time, unit: Unit): int
    requires ValidTime(a) && ValidTime(b)
  {
    if unit.Hour? then DayNumber(b.date) - DayNumber(a.date) else Count(b, Coarser(unit)) - Count(a, Coarser(unit))
  }

  /** The difference fits the register, and so it does before the parts of the unit itself are added. */
  predicate DiffFits(a: Time, b: Time, unit: Unit, big: bool)
    requires ValidTime(a) && ValidTime(b)
  {
    var diff := Count(b, unit) - Count(a, unit);
    Fits(diff, big) && Fits(diff - (Part(b, unit) - Part(a, unit)), big)
  }

  lemma {:induction false} CountStep(a: Time, b: Time, unit: Unit)
    requires ValidTime(a) && ValidTime(b)
    ensures Count(b, unit) - Count(a, unit) == Part(b, unit) - Part(a, unit) + Above(a, b, unit) * Factor(unit)
  {
    hide DayNumber;
  }

  lemma {:induction false} PartBound(t: Time, unit: Unit)
    requires ValidTime(t)
    ensures 0 <= Part(t, unit) < 1000000 && (!unit.Microsecond? ==> Part(t, unit) < 1000)
  {
  }

  /** A difference that fits in the finer unit leaves room enough in the coarser one. */
  lemma {:induction false} FitsUpwards(a: Time, b: Time, unit: Unit, big: bool)
    requires ValidTime(a) && ValidTime(b) && !unit.Hour? && DiffFits(a, b, unit, big)
    ensures DiffFits(a, b, Coarser(unit), big)
  {
    CountStep(a, b, unit);
    PartBound(a, Coarser(unit));
    PartBound(b, Coarser(unit));
    hide DayNumber, Count, ValidTime;
  }

  /** The difference of the counts, or failure. Each coarser unit on the way has its own product and sum,
      yet only those of the last step matter. */
  method TimeDiff(a: Time, b: Time, unit: Unit, big: bool) returns (ok: bool, diff: int)
    requires ValidTime(a) && ValidTime(b)
    ensures ok <==> DiffFits(a, b, unit, big)
    ensures ok ==> diff == Count(b, unit) - Count(a, unit)
    decreases Rank(unit)
  {
    hide *;
    CountStep(a, b, unit);
    DiffIs(a, b, unit, big);
    AboveIs(a, b, unit);
    var above := 0;
    if unit.Hour? {
      var d1 := DaysInDate(a.date.day, a.date.month, a.date.year);
      var d2 := DaysInDate(b.date.day, b.date.month, b.date.year);
      above := d2 - d1;
    } else {
      ok, above := TimeDiff(a, b, Coarser(unit), big);
      if !ok {
        if DiffFits(a, b, unit, big) { FitsUpwards(a, b, unit, big); }
        return false, 0;
      }
    }
    ok, diff := MultiplyAdd(above, Factor(unit), Part(b, unit) - Part(a, unit), big);
  }

  lemma {:induction false} DiffIs(a: Time, b: Time, unit: Unit, big: bool)
    requires ValidTime(a) && ValidTime(b)
    ensures DiffFits(a, b, unit, big) <==> Fits(Above(a, b, unit) * Factor(unit), big) && Fits(Count(b, unit) - Count(a, unit), big)
  {
    hide Count, Fits, Part, Above, Factor, ValidTime;
    CountStep(a, b, unit);
  }

  lemma {:induction false} AboveIs(a: Time, b: Time, unit: Unit)
    requires ValidTime(a) && ValidTime(b)
    ensures unit.Hour? ==> Above(a, b, unit) == DayNumber(b.date) - DayNumber(a.date)
    ensures !unit.Hour? ==> Above(a, b, unit) == Count(b, Coarser(unit)) - Count(a, Coarser(unit)) && Rank(Coarser(unit)) < Rank(unit)
    ensures a.date.year >= 1 && 1 <= a.date.month <= 12 && b.date.year >= 1 && 1 <= b.date.month <= 12
    ensures Date(a.date.year, a.date.month, a.date.day) == a.date && Date(b.date.year, b.date.month, b.date.day) == b.date
  {
    hide DayNumber, Count;
  }

  /** Whenever the narrow form succeeds, so does the wide one, hence with the same number. */
  lemma {:induction false} NarrowImpliesWide(a: Time, b: Time, unit: Unit)
    requires ValidTime(a) && ValidTime(b) && DiffFits(a, b, unit, false)
    ensures DiffFits(a, b, unit, true)
  {
    hide DayNumber, Count, ValidTime;
  }

  /** Between the years 1 and 9999 the wide form only ever overflows for nanoseconds. */
  lemma {:induction false} WideNeverOverflows(a: Time, b: Time, unit: Unit)
    requires ValidTime(a) && ValidTime(b) && a.date.year <= 9999 && b.date.year <= 9999 && !unit.Nanosecond?
    ensures DiffFits(a, b, unit, true)
  {
    CountBound(a, unit);
    CountBound(b, unit);
    PartBound(a, unit);
    PartBound(b, unit);
    hide DayNumber, Count, ValidDate;
  }

  lemma {:induction false} CountBound(t: Time, unit: Unit)
    requires ValidTime(t) && t.date.year <= 9999 && !unit.Nanosecond?
    ensures 0 <= Count(t, unit) <= 400000000000000000
    ensures unit in {Hour, Minute, Second} ==> Count(t, unit) <= 400000000000
  {
    NumberBound(t.date);
    hide DayNumber, ValidDate;
  }

  lemma {:induction false} NumberBound(d: Date)
    requires SqlDate(d) && d.year <= 9999
    ensures 366 <= DayNumber(d) <= 3652425
  {
    NumbersFrom(d);
    BeforeIs();
    hide Before;
  }

  /** A difference in minutes that fits 32 bits but is reported as overflow, because it only fits with
      the minutes added: 1491308 days and three hours, less 59 minutes. */
  lemma ProductFailsAlone()
    ensures var a, b := Time(FIRST, 0, 59, 0, 0), Time(DateOf(1491674), 3, 0, 0, 0);
            ValidTime(a) && ValidTime(b) && Fits(Count(b, Minute) - Count(a, Minute), false) && !DiffFits(a, b, Minute, false)
  {
    FirstNumber();
    DateOfNumber(1491674);
    hide DayNumber, DateOf, ValidDate;
  }
}
