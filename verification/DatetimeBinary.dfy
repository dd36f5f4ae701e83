/** DATETIME as bytes: four for the day relative to 1900, four for the ticks of 1/300 second, most
    significant byte first. As timestamps, 1753-01-01 is -7794489600000000 and 1900-01-01 is
    -3155673600000000. */
module DatetimeBinary {
  import opened BigEndian
  import opened Calendar
  import opened Datetime
  import opened Machine

  /** From the year 1753 to the last moment of 9999. */
  predicate InRange(ts: int) { -7794489600000000 <= ts < 252455615999999000 }

  /** The constants are what they stand for. */
  lemma Origins()
    ensures (DayNumber(Date(1753, 1, 1)) - DayNumber(Date(2000, 1, 1))) * 86400000000 == -7794489600000000
    ensures (DayNumber(Date(1900, 1, 1)) - DayNumber(Date(2000, 1, 1))) * 86400000000 == -3155673600000000
    ensures (DayNumber(Date(10000, 1, 1)) - DayNumber(Date(2000, 1, 1))) * 86400000000 == 252455616000000000
    ensures DayNumber(Date(2000, 1, 1)) == 730485
  {
    hide DayNumber;
    NewYear(1753);
    NewYear(1900);
    NewYear(2000);
    NewYear(10000);
  }

  lemma {:induction false} NewYear(y: int)
    ensures DayNumber(Date(y, 1, 1)) == y * 365 + 1 + (y - 1) / 4 - (y - 1) / 100 + (y - 1) / 400
  {
  }

  predicate IsRounded(ts: int) { ts == 1000 * RoundMs(ts / 1000) }

  /** The day relative to 1900-01-01, in whole days downwards, for dates before and after it. */
  function DayPart(ts: int): int { (ts + 3155673600000000) / 86400000000 }

  function TimePart(ts: int): int { TickOf((ts + 3155673600000000) % 86400000000 / 1000) }

  function Word(x: int): int { if x < 0 then x + 0x1_0000_0000 else x }
  function Int32(x: int): int { if x >= 0x8000_0000 then x - 0x1_0000_0000 else x }

  /** The full eight bytes. */
  function Encoded(ts: int): (bs: seq<int>)
    requires InRange(ts)
    ensures |bs| == 8
  {
    Be(Word(DayPart(ts)), 4) + Be(TimePart(ts), 4)
  }

  /** The day part is computed from two different origins, and the time part from the fields. */
  method Parts(ts: int) returns (days: int, time: int)
    requires InRange(ts)
    ensures days == DayPart(ts) && time == TimePart(ts) && -53690 <= days < 0x8000_0000 && 0 <= time < 25920001
  {
    var tm := new Tm(ts);
    var fsec := ts - tm.Stamp(0);
    if ts < -3155673600000000 {
      days := -53690 + (ts - -7794489600000000) / 86400000000;
    } else {
      days := (ts - -3155673600000000) / 86400000000;
    }
    var totalMs := tm.hour * 3600000 + tm.min * 60000 + tm.sec * 1000 + fsec / 1000;
    time := (totalMs * 3 + 5) / 10;
    PartsAgree(ts, Calendar.DayNumber(tm.Day()) - 730485, tm.Seconds(), fsec);
  }

  lemma {:induction false} PartsAgree(ts: int, day: int, seconds: int, fsec: int)
    requires InRange(ts) && ts == day * 86400000000 + seconds * 1000000 + fsec && 0 <= seconds < 86400 && 0 <= fsec < 1000000
    ensures (ts + 3155673600000000) % 86400000000 / 1000 == seconds * 1000 + fsec / 1000
    ensures DayPart(ts) == (if ts < -3155673600000000 then -53690 + (ts + 7794489600000000) / 86400000000 else (ts + 3155673600000000) / 86400000000)
    ensures -53690 <= DayPart(ts) < 0x8000_0000
  {
    var time := seconds * 1000000 + fsec;
    assert ts + 3155673600000000 == (day + 36524) * 86400000000 + time && 0 <= time < 86400000000;
    assert (ts + 3155673600000000) % 86400000000 == time;
    assert time / 1000 == seconds * 1000 + fsec / 1000;
    assert ts + 7794489600000000 == (ts + 3155673600000000) + 53690 * 86400000000;
  }

  /** BINARY(n): the eight bytes on the right, zeros in front or the leading bytes cut off. */
  method DatetimeBinary(ts: int, size: nat) returns (bytes: seq<int>)
    requires InRange(ts) && size > 0
    ensures bytes == if size <= 8 then Encoded(ts)[8 - size..] else Zeros(size - 8) + Encoded(ts)
  {
    var days, time := Parts(ts);
    var d, t := Be(Word(days), 4), Be(time, 4);
    hide Be;
    if size <= 4 {
      bytes := t[4 - size..];
      assert bytes == (d + t)[8 - size..];
    } else if size <= 8 {
      bytes := d[8 - size..] + t;
      assert bytes == (d + t)[8 - size..];
    } else {
      bytes := Zeros(size - 8) + d + t;
      assert bytes == Zeros(size - 8) + (d + t);
    }
  }

  function Zeros(n: nat): (zs: seq<int>) ensures |zs| == n { seq(n, _ => 0) }

  /** VARBINARY(n): as BINARY for fewer than eight bytes, the full eight otherwise. */
  method DatetimeVarbinary(ts: int, size: nat) returns (bytes: seq<int>)
    requires InRange(ts)
    ensures bytes == if 0 < size < 8 then Encoded(ts)[8 - size..] else Encoded(ts)
  {
    var days, time := Parts(ts);
    var d, t := Be(Word(days), 4), Be(time, 4);
    hide Be;
    if 0 < size <= 4 {
      bytes := t[4 - size..];
      assert bytes == (d + t)[8 - size..];
    } else if 4 < size < 8 {
      bytes := d[4 - (size - 4)..] + t;
      assert bytes == (d + t)[8 - size..];
    } else {
      bytes := d + t;
    }
  }

  // ---- Reading back ----

  predicate IsBytes(bs: seq<int>) { forall i :: 0 <= i < |bs| ==> 0 <= bs[i] < 256 }

  /** The last k bytes before the last skip ones, fewer if there are not so many. */
  function Field(bs: seq<int>, skip: nat, k: nat): seq<int> {
    if |bs| <= skip then [] else if |bs| <= skip + k then bs[..|bs| - skip] else bs[|bs| - skip - k..|bs| - skip]
  }

  /** Bytes are taken from the end; the day's four bytes are a signed number. */
  method ReadField(bs: seq<int>, skip: nat, k: nat) returns (x: int)
    requires k <= 4
    ensures x == OfBe(Field(bs, skip, k))
  {
    hide *;
    ghost var f := Field(bs, skip, k);
    FieldIs(bs, skip, k);
    NoBytes();
    var i, scale := 0, 1;
    x := 0;
    assert f[|f|..] == [];
    while i < k && skip + i < |bs|
      invariant 0 <= i <= |f| <= k && x == OfBe(f[|f| - i..]) && scale == Pow256(i)
    {
      FieldAt(bs, skip, k, i);
      NextByte(f, i, x, scale);
      var b := bs[|bs| - 1 - skip - i];
      x := x + b * scale;
      scale := scale * 256;
      i := i + 1;
    }
    assert f[0..] == f;
  }

  lemma {:induction false} NoBytes()
    ensures OfBe([]) == 0 && Pow256(0) == 1
  {
  }

  lemma {:induction false} FieldIs(bs: seq<int>, skip: nat, k: nat)
    ensures |Field(bs, skip, k)| == if |bs| <= skip then 0 else if |bs| <= skip + k then |bs| - skip else k
  {
  }

  lemma {:induction false} FieldAt(bs: seq<int>, skip: nat, k: nat, i: nat)
    requires i < |Field(bs, skip, k)|
    ensures var f := Field(bs, skip, k); skip + i < |bs| && f[|f| - 1 - i] == bs[|bs| - 1 - skip - i]
  {
  }

  lemma {:induction false} NextByte(f: seq<int>, i: nat, x: int, scale: int)
    requires i < |f| && x == OfBe(f[|f| - i..]) && scale == Pow256(i)
    ensures x + f[|f| - 1 - i] * scale == OfBe(f[|f| - (i + 1)..]) && scale * 256 == Pow256(i + 1)
  {
    OfBeFront(f[|f| - 1 - i], f[|f| - i..]);
    hide OfBe;
    assert [f[|f| - 1 - i]] + f[|f| - i..] == f[|f| - (i + 1)..];
  }

  lemma {:induction false} OfBeFront(b: int, bs: seq<int>)
    ensures OfBe([b] + bs) == b * Pow256(|bs|) + OfBe(bs)
    decreases |bs|
  {
    if bs == [] {
      assert [b] + bs == [b] && [b][..0] == [];
    } else {
      var n := |bs| - 1;
      OfBeFront(b, bs[..n]);
      assert ([b] + bs)[..n + 1] == [b] + bs[..n];
      assert b * Pow256(n) * 256 == b * (256 * Pow256(n));
    }
  }

  /** What day and tick numbers mean as a DATETIME, given the register that holds the timestamp. */
  function Meaning(usecs: int, register: int): Result<int> {
    var r := 1000 * RoundMs(register / 1000);
    if usecs >= 86400000000 || !InRange(r) then OutOfRange else Ok(r)
  }

  function TimeUsecs(bs: seq<int>): int { OfBe(Field(bs, 0, 4)) * 10 / 3 * 1000 }

  function DayValue(bs: seq<int>): int { Int32(OfBe(Field(bs, 4, 4))) }

  /** The timestamp a byte string spells. */
  function Spelled(bs: seq<int>): int { -3155673600000000 + DayValue(bs) * 86400000000 + TimeUsecs(bs) }

  function Decoded(bs: seq<int>): Result<int> { Meaning(TimeUsecs(bs), Wrap(Spelled(bs))) }

  method VarbinaryDatetime(bs: seq<int>) returns (r: Result<int>)
    requires IsBytes(bs)
    ensures r == Decoded(bs)
  {
    hide *;
    var time := ReadField(bs, 0, 4);
    var dayWord := ReadField(bs, 4, 4);
    var days, usecs := Int32(dayWord), time * 10 / 3 * 1000;
    DecodedIs(bs, time, days);
    if usecs >= 86400000000 { return OutOfRange; }
    var result;
    if days < 0 {
      var dayValue := days + 0x1_0000_0000;
      WrapAdd(-7794489600000000, (dayValue - 0xFFFF2E46) * 86400000000 + usecs);
      result := Wrap(-7794489600000000 + Wrap((dayValue - 0xFFFF2E46) * 86400000000 + usecs));
    } else {
      WrapAdd(-3155673600000000, days * 86400000000 + usecs);
      result := Wrap(-3155673600000000 + Wrap(days * 86400000000 + usecs));
    }
    assert result == Wrap(-3155673600000000 + days * 86400000000 + usecs);
    WrapIs(-3155673600000000 + days * 86400000000 + usecs);
    var rounded := Roundoff(result);
    RoundedIs(result);
    r := if rounded.Ok? && InRange(rounded.value) then rounded else OutOfRange;
  }

  lemma {:induction false} DecodedIs(bs: seq<int>, time: int, days: int)
    requires time == OfBe(Field(bs, 0, 4)) && days == Int32(OfBe(Field(bs, 4, 4)))
    ensures var usecs := time * 10 / 3 * 1000;
            var register := Wrap(-3155673600000000 + days * 86400000000 + usecs);
            var rounded := 1000 * RoundMs(register / 1000);
            Decoded(bs) == if usecs >= 86400000000 || !InRange(rounded) then OutOfRange else Ok(rounded)
  {
    hide Field, OfBe, RoundMs, Wrap, InRange;
  }

  /** Timestamps that PostgreSQL does not have are out of range for DATETIME too. */
  lemma {:induction false} RoundedIs(ts: int)
    ensures var r := 1000 * RoundMs(ts / 1000); InRange(r) ==> Rounded(ts) == Ok(r)
    ensures Rounded(ts).Ok? ==> Rounded(ts).value == 1000 * RoundMs(ts / 1000)
  {
  }

  // ---- Where the reading is right ----

  /** What rounds into the range of DATETIME: one millisecond more at the lower end. */
  predicate Readable(ts: int) { -7794489600001000 <= ts < 252455615999999000 }

  lemma {:induction false} ReadableExact(ts: int)
    ensures InRange(1000 * RoundMs(ts / 1000)) <==> Readable(ts)
  {
    var m := ts / 1000;
    if m < -7794489600001 { RoundMsMonotone(m, -7794489600002); } else { RoundMsMonotone(-7794489600001, m); }
    if m < 252455615999999 { RoundMsMonotone(m, 252455615999998); } else { RoundMsMonotone(252455615999999, m); }
  }

  lemma {:induction false} ReadableFits(ts: int)
    ensures Readable(ts) ==> Int64(ts)
  {
  }

  /** Seen from the first moment of DATETIME, the day lies in its range after one or more turns of the
      register, forwards or backwards: 2^64 microseconds are 213503982 days and eight hours. */
  predicate Misread(day: int, usecs: int) {
    var moment := day * 86400000000 + usecs + 4638816000001000;
    moment / 0x1_0000_0000_0000_0000 != 0 && moment % 0x1_0000_0000_0000_0000 < 260250105600000000
  }

  /** The reading agrees with the spelled timestamp exactly when the time is rejected anyway, or the day is
      not that of a valid datetime some turns of the register away. */
  lemma {:induction false} DecodedRightWhen(bs: seq<int>)
    ensures Decoded(bs) == Meaning(TimeUsecs(bs), Spelled(bs)) <==>
            TimeUsecs(bs) >= 86400000000 || !Misread(DayValue(bs), TimeUsecs(bs))
  {
    hide *;
    var day, usecs := DayValue(bs), TimeUsecs(bs);
    var t := Spelled(bs);
    PartsOf(bs);
    MeaningIs(usecs, t);
    MeaningIs(usecs, Wrap(t));
    WrapIs(t);
    ReadableFits(t);
    MisreadExact(day, usecs);
  }

  lemma {:induction false} PartsOf(bs: seq<int>)
    ensures Spelled(bs) == -3155673600000000 + DayValue(bs) * 86400000000 + TimeUsecs(bs)
    ensures Decoded(bs) == Meaning(TimeUsecs(bs), Wrap(Spelled(bs)))
  {
    hide Field, OfBe, Wrap, Meaning;
  }

  lemma {:induction false} MeaningIs(usecs: int, register: int)
    ensures Meaning(usecs, register) == if usecs >= 86400000000 || !Readable(register) then OutOfRange else Ok(1000 * RoundMs(register / 1000))
  {
    ReadableExact(register);
    hide RoundMs;
  }

  /** A register holds the one timestamp that is a whole number of turns away and fits. */
  lemma {:induction false} WrapTurns(t: int)
    ensures var turns := (t - Wrap(t)) / 0x1_0000_0000_0000_0000;
            t == Wrap(t) + turns * 0x1_0000_0000_0000_0000 && Int64(Wrap(t)) && (turns == 0 <==> Int64(t))
  {
  }

  lemma {:induction false} MisreadExact(day: int, usecs: int)
    ensures var t := -3155673600000000 + day * 86400000000 + usecs; Misread(day, usecs) <==> !Int64(t) && Readable(Wrap(t))
  {
    hide Wrap;
    var t := -3155673600000000 + day * 86400000000 + usecs;
    WrapTurns(t);
    var w, turns := Wrap(t), (t - Wrap(t)) / 0x1_0000_0000_0000_0000;
    var moment := t + 7794489600001000;
    var q, rest := moment / 0x1_0000_0000_0000_0000, moment % 0x1_0000_0000_0000_0000;
    if rest < 260250105600000000 { OneTurn(t, w, turns, rest - 7794489600001000, q); }
    if Readable(w) { OneQuotient(moment, turns, w + 7794489600001000); }
  }

  lemma {:induction false} OneQuotient(x: int, q: int, rest: int)
    requires x == q * 0x1_0000_0000_0000_0000 + rest && 0 <= rest < 0x1_0000_0000_0000_0000
    ensures x / 0x1_0000_0000_0000_0000 == q && x % 0x1_0000_0000_0000_0000 == rest
  {
  }

  lemma {:induction false} OneTurn(t: int, a: int, j: int, b: int, k: int)
    requires t == a + j * 0x1_0000_0000_0000_0000 && t == b + k * 0x1_0000_0000_0000_0000 && Int64(a) && Int64(b)
    ensures a == b && j == k
  {
  }

  /** No day within 210545518 days before 1900 or 213450291 days after it is misread; the days of DATETIME
      itself run from 53690 before to 2958463 after. */
  lemma {:induction false} NearDaysRight(bs: seq<int>)
    requires IsBytes(bs) && -210545518 <= DayValue(bs) <= 213450291
    ensures Decoded(bs) == Meaning(TimeUsecs(bs), Spelled(bs))
  {
    hide *;
    DecodedRightWhen(bs);
    TimeFromZero(bs);
    var day, usecs := DayValue(bs), TimeUsecs(bs);
    if usecs < 86400000000 { NoTurn(day, usecs); }
  }

  lemma {:induction false} NoTurn(day: int, usecs: int)
    requires -210545518 <= day <= 213450291 && 0 <= usecs < 86400000000
    ensures !Misread(day, usecs)
  {
    var moment := day * 86400000000 + usecs + 4638816000001000;
    if moment < 0 { OneQuotient(moment, -1, moment + 0x1_0000_0000_0000_0000); } else { OneQuotient(moment, 0, moment); }
  }

  lemma {:induction false} TimeFromZero(bs: seq<int>)
    requires IsBytes(bs)
    ensures TimeUsecs(bs) >= 0
  {
    OfBeFromZero(Field(bs, 0, 4));
    hide OfBe;
  }

  lemma {:induction false} OfBeFromZero(bs: seq<int>)
    requires IsBytes(bs)
    ensures OfBe(bs) >= 0
    decreases |bs|
  {
    if bs != [] { OfBeFromZero(bs[..|bs| - 1]); }
  }
}
