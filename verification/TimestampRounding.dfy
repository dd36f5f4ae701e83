/** Rounding timestamps for DATETIME2(p) and SMALLDATETIME. The code has one formula at or above zero and
    another below; each pair is one rule that does not see zero. */
module TimestampRounding {
  import opened Decimal
  import opened Machine

  // ---- DATETIME2 ----

  const SCALES := [1000000, 100000, 10000, 1000, 100, 10, 1, 1]
  const OFFSETS := [500000, 50000, 5000, 500, 50, 5, 0, 0]
  const OFFSETS_NEGATIVE := [499999, 49999, 4999, 499, 49, 4, 0, 0]

  /** To the nearest multiple, halves upwards. */
  function NearestMultiple(t: int, scale: int): int
    requires scale > 0
  {
    (t + scale / 2) / scale * scale
  }

  /** The nearest multiple, or the one below when the nearest is past the end of the range. */
  function Datetime2(t: int, scale: int): int
    requires scale > 0
  {
    if NearestMultiple(t, scale) < 252455616000000000 then NearestMultiple(t, scale) else t / scale * scale
  }

  /** From 0001-01-01 to the end of 9999. */
  predicate InRange2(t: int) { -63082281600000000 <= t < 252455616000000000 }

  datatype Result = Ok(time: int) | InvalidPrecision

  lemma {:induction false} TableEntry(p: nat)
    requires p <= 7
    ensures var s := SCALES[p];
            s in {1000000, 100000, 10000, 1000, 100, 10, 1} && OFFSETS[p] == s / 2 && OFFSETS_NEGATIVE[p] == (s - 1) / 2
    ensures 252455616000000000 % SCALES[p] == 0 && 63082281600000000 % SCALES[p] == 0
  {
  }

  /** Precision p keeps p decimals of a second; beyond six there is nothing to cut. */
  lemma {:induction false} ScaleOfPrecision(p: nat)
    requires p <= 7
    ensures SCALES[p] == if p <= 6 then Pow10(6 - p) else 1
  {
    Pow10Four();
    assert Pow10(5) == 10 * Pow10(4) && Pow10(6) == 10 * Pow10(5);
  }

  method AdjustDatetime2(time: int, typmod: int) returns (r: Result)
    ensures r == InvalidPrecision <==> typmod != -1 && !(0 <= typmod <= 7)
    ensures r.Ok? ==> r.time == if typmod == -1 then time else Datetime2(time, SCALES[typmod])
  {
    if typmod == -1 { return Ok(time); }
    if typmod < 0 || typmod > 7 { return InvalidPrecision; }
    var scale, up, down := SCALES[typmod], OFFSETS[typmod], OFFSETS_NEGATIVE[typmod];
    TableEntry(typmod);
    hide *;
    if time >= 0 {
      var adjusted := Quot(time + up, scale) * scale;
      PositiveBranch(time, scale, up);
      r := Ok(if adjusted < 252455616000000000 then adjusted else Quot(time, scale) * scale);
    } else {
      NegativeBranch(time, scale, down);
      r := Ok(-(Quot(-time + down, scale) * scale));
    }
  }

  lemma {:induction false} PositiveBranch(t: int, scale: int, up: int)
    requires t >= 0 && scale > 0 && up == scale / 2
    ensures Quot(t + up, scale) * scale == NearestMultiple(t, scale) && Quot(t, scale) * scale == t / scale * scale
    ensures Datetime2(t, scale) == if NearestMultiple(t, scale) < 252455616000000000 then NearestMultiple(t, scale) else t / scale * scale
  {
  }

  lemma {:induction false} NegativeBranch(t: int, scale: int, down: int)
    requires t < 0 && scale in {1000000, 100000, 10000, 1000, 100, 10, 1} && down == (scale - 1) / 2
    ensures -(Quot(-t + down, scale) * scale) == Datetime2(t, scale)
  {
    assert -((-t + down) / scale) == (t + scale / 2) / scale;
  }

  predicate IsScale(s: int) { s in {1000000, 100000, 10000, 1000, 100, 10, 1} }

  /** Both ends of the range are multiples of every scale. */
  lemma {:induction false} ScaleDivides(scale: int)
    requires IsScale(scale)
    ensures scale > 0 && 252455616000000000 / scale * scale == 252455616000000000 && -63082281600000000 / scale * scale == -63082281600000000
  {
  }

  /** A multiple found by division, and comparing multiples. */
  lemma {:induction false} Divided(x: int, scale: int)
    requires scale > 0
    ensures x / scale * scale <= x < x / scale * scale + scale && (x / scale * scale) % scale == 0
  {
    DivideBounds(x, scale);
    Distribute(x / scale, scale);
    assert (x / scale * scale) % scale == 0 by { MultipleMod(x / scale, scale); }
  }

  lemma {:induction false} Ordered(a: int, b: int, scale: int)
    requires scale > 0
    ensures a <= b <==> a * scale <= b * scale
  {
    if a <= b { Below(a, b, scale); } else { StrictlyBelow(b, a, scale); }
  }

  /** Rounding stays in range. */
  lemma {:induction false} Datetime2InRange(t: int, scale: int)
    requires InRange2(t) && IsScale(scale)
    ensures InRange2(Datetime2(t, scale)) && Datetime2(t, scale) % scale == 0
  {
    ScaleDivides(scale);
    hide IsScale;
    var m := -63082281600000000 / scale;
    Divided(t + scale / 2, scale);
    Divided(t, scale);
    Lowest(t + scale / 2, m, scale);
    Lowest(t, m, scale);
  }

  lemma {:induction false} Lowest(x: int, m: int, scale: int)
    requires scale > 0 && m * scale <= x
    ensures m * scale <= x / scale * scale
  {
    Divided(x, scale);
    Distribute(x / scale, scale);
    Ordered(m, x / scale, scale);
    Ordered(x / scale + 1, m, scale);
  }

  lemma {:induction false} Datetime2Idempotent(t: int, scale: int)
    requires InRange2(t) && IsScale(scale)
    ensures Datetime2(Datetime2(t, scale), scale) == Datetime2(t, scale)
  {
    Datetime2InRange(t, scale);
    Fixed(Datetime2(t, scale), scale);
  }

  lemma {:induction false} Fixed(t: int, scale: int)
    requires InRange2(t) && IsScale(scale) && t % scale == 0
    ensures Datetime2(t, scale) == t
  {
    ScaleDivides(scale);
    hide IsScale;
    var k := t / scale;
    assert t == scale * k;
    Divided(t + scale / 2, scale);
    var n := (t + scale / 2) / scale;
    Distribute(n, scale);
    Distribute(k, scale);
    Ordered(k + 1, n, scale);
    Ordered(n + 1, k, scale);
  }

  lemma {:induction false} Datetime2Monotone(t: int, u: int, scale: int)
    requires InRange2(t) && InRange2(u) && t <= u && IsScale(scale)
    ensures Datetime2(t, scale) <= Datetime2(u, scale)
  {
    ScaleDivides(scale);
    hide IsScale;
    var e := 252455616000000000 / scale;
    QuotientMonotone(t + scale / 2, u + scale / 2, scale);
    QuotientMonotone(t, u, scale);
    Divided(u + scale / 2, scale);
    Divided(u, scale);
    hide InRange2;
    var k, j := (t + scale / 2) / scale, u / scale;
    Ordered(e, k, scale);
    Ordered(e - 1, j, scale);
    Distribute(e - 1, scale);
    Distribute(j, scale);
    Ordered(j + 1, e - 1, scale);
    Ordered(k, j, scale);
  }

  lemma {:induction false} QuotientMonotone(x: int, y: int, scale: int)
    requires scale > 0 && x <= y
    ensures x / scale * scale <= y / scale * scale
  {
    Divided(x, scale);
    Divided(y, scale);
    Distribute(y / scale, scale);
    Ordered(x / scale, y / scale, scale);
    Ordered(y / scale + 1, x / scale, scale);
  }

  // ---- SMALLDATETIME ----

  /** Up to the next minute from 29.999 seconds on. */
  function Minute(t: int): int { (t + 30001000) / 60000000 * 60000000 }

  /** The result is a whole minute, the one whose last 30.001 or next 29.999 seconds the time lies in. */
  lemma {:induction false} MinuteIs(t: int)
    ensures Minute(t) % 60000000 == 0 && -29999000 < Minute(t) - t <= 30001000
  {
  }

  method AdjustSmalldatetime(time: int) returns (r: int)
    ensures r == Minute(time)
  {
    if time >= 0 {
      if time % 60000000 >= 29999000 {
        r := Quot(time, 60000000) * 60000000 + 60000000;
      } else {
        r := Quot(time, 60000000) * 60000000;
      }
    } else {
      if (-time) % 60000000 <= 30001000 {
        r := Quot(time, 60000000) * 60000000;
      } else {
        r := Quot(time, 60000000) * 60000000 - 60000000;
      }
    }
  }

  predicate SmalldatetimeAccepts(time: int) { !(time < -3155673630001000 || time >= 2506636769999000) }

  /** The test before rounding accepts exactly what rounds into the range of the type, which is
      1900-01-01 00:00 through 2079-06-06 23:59. */
  lemma {:induction false} RangeTestExact(time: int)
    ensures SmalldatetimeAccepts(time) <==> -3155673600000000 <= Minute(time) <= 2506636740000000
  {
  }

  lemma {:induction false} MinuteIdempotent(t: int)
    ensures Minute(Minute(t)) == Minute(t)
  {
  }

  lemma {:induction false} MinuteMonotone(t: int, u: int)
    requires t <= u
    ensures Minute(t) <= Minute(u)
  {
  }
}
