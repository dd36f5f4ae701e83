/** T-SQL DATETIME: timestamps in microseconds since 2000-01-01, rounded to whole milliseconds that show
    ticks of 1/300 second. A day has 86400000000 microseconds, and 2000-01-01 is day number 730485. */
module Datetime {
  import opened Calendar
  import opened Machine

  datatype Result<T> = Ok(value: T) | OutOfRange

  /** PostgreSQL's timestamps: from 4713 BC to the end of 294276. */
  const MIN_TIMESTAMP := -211813488000000000
  const END_TIMESTAMP := 9223371331200000000

  // ---- Rounding ----

  /** Milliseconds within a second, to the last digits 0, 3 or 7. */
  function RoundFractional(v: int): int
    requires 0 <= v
  {
    var m := v % 10;
    var d := v - m;
    if m <= 1 then d else if m <= 4 then d + 3 else if m <= 8 then d + 7 else d + 10
  }

  /** The same on absolute milliseconds of either sign. */
  function RoundMs(x: int): int {
    var m := x % 10;
    x - m + (if m <= 1 then 0 else if m <= 4 then 3 else if m <= 8 then 7 else 10)
  }

  /** The nearest tick of 1/300 second, halves upwards, and the nearest millisecond to a tick. */
  function TickOf(ms: int): int { (3 * ms + 5) / 10 }
  function MsOfTick(t: int): int { (20 * t + 3) / 6 }

  lemma {:induction false} RoundsToTicks(x: int)
    ensures RoundMs(x) == MsOfTick(TickOf(x)) && TickOf(RoundMs(x)) == TickOf(x)
  {
    var k, m := x / 10, x % 10;
    assert x == 10 * k + m && TickOf(x) == 3 * k + (3 * m + 5) / 10;
  }

  lemma {:induction false} RoundMsIdempotent(x: int)
    ensures RoundMs(RoundMs(x)) == RoundMs(x)
  {
    RoundsToTicks(x);
    RoundsToTicks(RoundMs(x));
  }

  lemma {:induction false} RoundMsMonotone(x: int, y: int)
    requires x <= y
    ensures RoundMs(x) <= RoundMs(y)
  {
    RoundsToTicks(x);
    RoundsToTicks(y);
  }

  // ---- Broken-down time ----

  /** A timestamp as days, hours, minutes and seconds, with less than a second left. */
  lemma {:induction false} ClockOf(ts: int)
    ensures var day, s := ts / 86400000000, ts % 86400000000 / 1000000;
            0 <= s / 3600 < 24 && (s / 3600 * 60 + s / 60 % 60) * 60 + s % 60 == s && 0 <= ts - (day * 86400000000 + s * 1000000) < 1000000
  {
    var s := ts % 86400000000 / 1000000;
    assert 0 <= s < 86400;
    Sixties(s);
  }

  lemma {:induction false} Sixties(s: int)
    requires 0 <= s < 86400
    ensures 0 <= s / 3600 < 24 && (s / 3600 * 60 + s / 60 % 60) * 60 + s % 60 == s
  {
    var m := s / 60;
    assert m / 60 == s / 3600;
  }

  class Tm {
    var year: int
    var mon: int
    var mday: int
    var hour: int
    var min: int
    var sec: int

    predicate Valid()
      reads this
    {
      ValidDate(Day()) && 0 <= hour < 24 && 0 <= min < 60 && 0 <= sec < 60
    }

    function Day(): Date reads this { Date(year, mon, mday) }

    function Seconds(): int reads this { (hour * 60 + min) * 60 + sec }

    /** The timestamp of these fields with a fraction in microseconds. */
    function Stamp(fsec: int): int
      requires 1 <= mon <= 12
      reads this
    {
      (DayNumber(Day()) - 730485) * 86400000000 + Seconds() * 1000000 + fsec
    }

    /** Splits a timestamp; the microseconds within the second are returned apart. */
    constructor (ts: int)
      ensures Valid() && 0 <= ts - Stamp(0) < 1000000
    {
      hide DateOf, DayNumber, ValidDate;
      var day, time := ts / 86400000000, ts % 86400000000;
      var date := DateOf(day + 730485);
      DateOfNumber(day + 730485);
      year, mon, mday := date.year, date.month, date.day;
      var s := time / 1000000;
      hour, min, sec := s / 3600, s / 60 % 60, s % 60;
      ClockOf(ts);
      new;
      assert Day() == date;
    }

    lemma Whole()
      requires Valid()
      ensures 1 <= mon <= 12 && Stamp(0) % 1000000 == 0
    {
      var n := (DayNumber(Day()) - 730485) * 86400 + Seconds();
      assert Stamp(0) == n * 1000000;
    }

    lemma Fraction(fsec: int)
      requires 1 <= mon <= 12
      ensures Stamp(fsec) == Stamp(0) + fsec
    {
      hide DayNumber, Seconds;
    }

    method NextDay()
      requires ValidDate(Day())
      modifies this
      ensures Day() == Calendar.NextDay(old(Day())) && hour == 0 && min == 0 && sec == 0
    {
      hour, min, sec := 0, 0, 0;
      if mday == DAYCOUNT[mon - 1] && mon == 12 {
        year, mon, mday := year + 1, 1, 1;
      } else if (mday == DAYCOUNT[mon - 1] && mon != 2) || (mon == 2 && mday == 29 && Leap(year)) || (mon == 2 && mday == 28 && !Leap(year)) {
        mon, mday := mon + 1, 1;
      } else {
        mday := mday + 1;
      }
    }

    /** A full thousand of milliseconds moves into the seconds, and from there as far as the year. */
    method CarryOver(msec: int) returns (rest: int)
      requires Valid() && 0 <= msec <= 1000
      modifies this
      ensures Valid() && 0 <= rest < 1000 && Stamp(rest * 1000) == old(Stamp(msec * 1000))
    {
      rest := msec;
      ghost var day := Day();
      if rest == 1000 {
        rest, sec := 0, sec + 1;
        if sec == 60 {
          sec, min := 0, min + 1;
          if min == 60 {
            min, hour := 0, hour + 1;
            if hour == 24 {
              NextDayIsNext(day);
              hide ValidDate, DayNumber, Calendar.NextDay;
              NextDay();
            }
          }
        }
      }
    }
  }

  /** A timestamp rounded, unless it or the result is none of PostgreSQL's. */
  function Rounded(ts: int): Result<int> {
    var r := 1000 * RoundMs(ts / 1000);
    if ts < MIN_TIMESTAMP || r >= END_TIMESTAMP then OutOfRange else Ok(r)
  }

  /** Rounding field by field is rounding the absolute milliseconds. */
  method Roundoff(ts: int) returns (r: Result<int>)
    requires Int64(ts)
    ensures r == Rounded(ts)
  {
    hide ValidDate, DayNumber, RoundFractional, RoundMs, Tm.Valid, Tm.Seconds;
    if ts < MIN_TIMESTAMP { return OutOfRange; }
    var tm := new Tm(ts);
    tm.Whole();
    var fsec := ts - tm.Stamp(0);
    var msec := RoundFractional(fsec / 1000);
    RoundingSplits(ts, tm.Stamp(0));
    tm.Fraction(msec * 1000);
    var rest := tm.CarryOver(msec);
    tm.Whole();
    var stamp := tm.Stamp(rest * 1000);
    r := if stamp < END_TIMESTAMP then Ok(stamp) else OutOfRange;
  }

  lemma {:induction false} RoundingSplits(ts: int, base: int)
    requires base % 1000000 == 0 && 0 <= ts - base < 1000000
    ensures base + RoundFractional((ts - base) / 1000) * 1000 == 1000 * RoundMs(ts / 1000)
    ensures 0 <= RoundFractional((ts - base) / 1000) <= 1000
  {
    var k, f := base / 1000000, ts - base;
    SplitMs(k, f);
    RoundShifted(k, f / 1000);
  }

  lemma {:induction false} SplitMs(k: int, f: int)
    requires 0 <= f < 1000000
    ensures (1000000 * k + f) / 1000 == 1000 * k + f / 1000 && 0 <= f / 1000 < 1000
  {
  }

  lemma {:induction false} RoundShifted(k: int, ms: int)
    requires 0 <= ms < 1000
    ensures RoundMs(1000 * k + ms) == 1000 * k + RoundFractional(ms) && 0 <= RoundFractional(ms) <= 1000
  {
    var a, b := ms / 10, ms % 10;
    TenMod(100 * k + a, b);
    assert 1000 * k + ms == 10 * (100 * k + a) + b;
  }

  lemma {:induction false} TenMod(c: int, b: int)
    requires 0 <= b < 10
    ensures (10 * c + b) % 10 == b
  {
  }
}
