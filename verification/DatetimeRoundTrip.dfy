/** A rounded DATETIME comes back from its bytes; a day far out of range can come back as another day. */
module DatetimeRoundTrip {
  import opened BigEndian
  import opened Datetime
  import opened DatetimeBinary
  import opened Machine

  lemma {:induction false} FieldsOf(front: seq<int>, d: seq<int>, t: seq<int>)
    requires |d| == 4 && |t| == 4
    ensures Field(front + (d + t), 0, 4) == t && Field(front + (d + t), 4, 4) == d
  {
  }

  /** Ticks give the millisecond back up to the rounding that follows. */
  lemma {:induction false} TickBack(m: int)
    requires RoundMs(m) == m
    ensures RoundMs(TickOf(m) * 10 / 3) == m && m - 1 <= TickOf(m) * 10 / 3 <= m && (m >= 0 ==> TickOf(m) * 10 / 3 >= 0)
  {
    var k, b := m / 10, m % 10;
    LastDigit(m);
    TickSplit(k, b);
    RoundMsShift(k, TickOf(b) * 10 / 3);
  }

  lemma {:induction false} LastDigit(m: int)
    requires RoundMs(m) == m
    ensures m == 10 * (m / 10) + m % 10 && (m % 10 == 0 || m % 10 == 3 || m % 10 == 7)
  {
  }

  lemma {:induction false} TickSplit(k: int, b: int)
    requires b == 0 || b == 3 || b == 7
    ensures TickOf(10 * k + b) * 10 / 3 == 10 * k + TickOf(b) * 10 / 3
    ensures RoundMs(TickOf(b) * 10 / 3) == b && 0 <= TickOf(b) * 10 / 3 && b - 1 <= TickOf(b) * 10 / 3 <= b
  {
    assert TickOf(10 * k + b) == 3 * k + TickOf(b);
  }

  lemma {:induction false} RoundMsShift(c: int, x: int)
    ensures RoundMs(10 * c + x) == 10 * c + RoundMs(x)
  {
    var k, b := x / 10, x % 10;
    TenMod(c + k, b);
    assert 10 * c + x == 10 * (c + k) + b;
  }

  lemma {:induction false} RoundedParts(ts: int)
    requires InRange(ts) && IsRounded(ts)
    ensures var m := (ts + 3155673600000000) % 86400000000 / 1000;
            ts == -3155673600000000 + DayPart(ts) * 86400000000 + m * 1000 && RoundMs(m) == m && 0 <= m < 86400000
  {
    var day, tod := DayPart(ts), (ts + 3155673600000000) % 86400000000;
    var m := tod / 1000;
    assert ts == -3155673600000000 + day * 86400000000 + tod;
    assert ts % 1000 == 0;
    assert tod % 1000 == 0;
    RoundMsShift(-315567360000 + day * 8640000, m);
    assert ts / 1000 == 10 * (-315567360000 + day * 8640000) + m;
  }

  /** Every rounded datetime in range comes back from its bytes, whatever zeros stand in front. */
  lemma {:induction false} BinaryRoundTrip(ts: int, n: nat)
    requires InRange(ts) && IsRounded(ts)
    ensures Decoded(Zeros(n) + Encoded(ts)) == Ok(ts)
  {
    hide *;
    var day := DayPart(ts);
    var m := (ts + 3155673600000000) % 86400000000 / 1000;
    RoundedParts(ts);
    EncodedIs(ts, m);
    SpelledIs(Zeros(n), Word(day), TickOf(m));
    MeaningBack(ts, day, m);
  }

  lemma {:induction false} EncodedIs(ts: int, m: int)
    requires InRange(ts) && m == (ts + 3155673600000000) % 86400000000 / 1000 && 0 <= m < 86400000
    ensures Encoded(ts) == Be(Word(DayPart(ts)), 4) + Be(TickOf(m), 4)
    ensures 0 <= TickOf(m) < 0x1_0000_0000 && 0 <= Word(DayPart(ts)) < 0x1_0000_0000 && Int32(Word(DayPart(ts))) == DayPart(ts)
  {
  }

  /** What eight bytes with anything in front spell. */
  lemma {:induction false} SpelledIs(front: seq<int>, day: int, time: int)
    requires 0 <= day < 0x1_0000_0000 && 0 <= time < 0x1_0000_0000
    ensures var bs := front + (Be(day, 4) + Be(time, 4));
            TimeUsecs(bs) == time * 10 / 3 * 1000 && DayValue(bs) == Int32(day) &&
            Decoded(bs) == Meaning(TimeUsecs(bs), Wrap(-3155673600000000 + Int32(day) * 86400000000 + TimeUsecs(bs)))
  {
    FieldsOf(front, Be(day, 4), Be(time, 4));
    FourBytes();
    OfBeBack(day, 4);
    OfBeBack(time, 4);
    hide Field, OfBe, Be, Wrap, Meaning;
  }

  lemma {:induction false} MeaningBack(ts: int, day: int, m: int)
    requires InRange(ts) && ts == -3155673600000000 + day * 86400000000 + m * 1000 && RoundMs(m) == m && 0 <= m < 86400000
    ensures var usecs := TickOf(m) * 10 / 3 * 1000; Meaning(usecs, Wrap(-3155673600000000 + day * 86400000000 + usecs)) == Ok(ts)
  {
    TickBack(m);
    var q := TickOf(m) * 10 / 3;
    hide TickOf, RoundMs;
    var t, c := -3155673600000000 + day * 86400000000 + q * 1000, -315567360000 + day * 8640000;
    WrapIs(t);
    RoundMsShift(c, q);
    assert t / 1000 == 10 * c + q;
    assert ts == 1000 * (10 * c + m);
  }

  /** To BINARY of eight bytes or more, and back. */
  method ThroughBinary(ts: int, size: nat) returns (r: Result<int>)
    requires InRange(ts) && IsRounded(ts) && size >= 8
    ensures r == Ok(ts)
  {
    hide *;
    var bytes := DatetimeBinary.DatetimeBinary(ts, size);
    BinaryRoundTrip(ts, size - 8);
    NoZeros();
    BytesOf(ts, size - 8);
    assert bytes == Zeros(size - 8) + Encoded(ts);
    r := VarbinaryDatetime(bytes);
  }

  lemma {:induction false} NoZeros()
    ensures Zeros(0) == []
  {
  }

  lemma {:induction false} BytesOf(ts: int, n: nat)
    requires InRange(ts)
    ensures IsBytes(Zeros(n) + Encoded(ts))
  {
    BeBytes(Word(DayPart(ts)), 4);
    BeBytes(TimePart(ts), 4);
  }

  lemma {:induction false} BeBytes(x: nat, k: nat)
    ensures IsBytes(Be(x, k))
    decreases k
  {
    if k > 0 { BeBytes(x / 256, k - 1); }
  }

  /** A day number in the year 586454 wraps around to the last day of 1899. */
  lemma WrappedDay()
    ensures var bs := Be(213503982, 4) + Be(0, 4);
            Decoded(bs) == Ok(-3155702509553000) && DayValue(bs) == 213503982 && Misread(DayValue(bs), TimeUsecs(bs)) &&
            Meaning(TimeUsecs(bs), Spelled(bs)) == OutOfRange
  {
    hide *;
    var bs := Be(213503982, 4) + Be(0, 4);
    SpelledIs([], 213503982, 0);
    assert [] + bs == bs;
    WrappedArithmetic();
    PartsOf(bs);
  }

  lemma WrappedArithmetic()
    ensures Int32(213503982) == 213503982 && Misread(213503982, 0)
    ensures Meaning(0, -3155673600000000 + 213503982 * 86400000000 + 0) == OutOfRange
    ensures Meaning(0, Wrap(-3155673600000000 + 213503982 * 86400000000 + 0)) == Ok(-3155702509553000)
  {
    MeaningIs(0, -3155673600000000 + 213503982 * 86400000000 + 0);
    assert Wrap(-3155673600000000 + 213503982 * 86400000000 + 0) == -3155702509551616;
    assert -3155702509551616 / 1000 == -3155702509552;
    assert RoundMs(-3155702509552) == -3155702509553;
  }
}
