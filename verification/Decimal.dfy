/** Exact decimal values of base-10000 digit sequences, as integers against powers of ten. */
module Decimal {
  function Pow10(n: nat): (p: nat)
    ensures p >= 1
  {
    if n == 0 then 1 else 10 * Pow10(n - 1)
  }

  lemma {:induction false} Pow10Add(a: nat, b: nat)
    ensures Pow10(a + b) == Pow10(a) * Pow10(b)
    decreases a
  {
    if a > 0 {
      Pow10Add(a - 1, b);
      Times(10, Pow10(a - 1), Pow10(b));
    }
  }

  lemma {:induction false} Times(x: int, y: int, z: int)
    ensures x * y * z == x * (y * z)
  {
  }

  lemma {:induction false} Pow10Mono(a: nat, b: nat)
    requires a <= b
    ensures Pow10(a) <= Pow10(b)
    ensures a < b ==> 10 * Pow10(a) <= Pow10(b)
    decreases b
  {
    if a < b { Pow10Mono(a, b - 1); }
  }

  lemma Pow10Four()
    ensures Pow10(1) == 10 && Pow10(2) == 100 && Pow10(3) == 1000 && Pow10(4) == 10000
  {
    assert Pow10(1) == 10 && Pow10(2) == 10 * Pow10(1) && Pow10(3) == 10 * Pow10(2) && Pow10(4) == 10 * Pow10(3);
  }

  // ---- Digit sequences ----

  predicate Digits(ds: seq<int>) { forall i :: 0 <= i < |ds| ==> 0 <= ds[i] < 10000 }

  /** The integer a digit sequence spells, most significant digit first. */
  function Mag(ds: seq<int>): int {
    if ds == [] then 0 else Mag(ds[..|ds| - 1]) * 10000 + ds[|ds| - 1]
  }

  lemma {:induction false} MagSnoc(ds: seq<int>, d: int)
    ensures Mag(ds + [d]) == Mag(ds) * 10000 + d
  {
    assert (ds + [d])[..|ds|] == ds;
  }

  lemma {:induction false} Pow10Step(n: nat)
    ensures Pow10(4 * (n + 1)) == 10000 * Pow10(4 * n)
  {
    Pow10Add(4, 4 * n);
    Pow10Four();
  }

  lemma {:induction false} MagBound(ds: seq<int>)
    requires Digits(ds)
    ensures 0 <= Mag(ds) < Pow10(4 * |ds|)
    decreases |ds|
  {
    if ds != [] {
      MagBound(ds[..|ds| - 1]);
      Pow10Step(|ds| - 1);
    }
  }

  lemma {:induction false} MagConcat(a: seq<int>, b: seq<int>)
    ensures Mag(a + b) == Mag(a) * Pow10(4 * |b|) + Mag(b)
    decreases |b|
  {
    if b == [] {
      assert a + b == a;
    } else {
      var n := |b| - 1;
      MagConcat(a, b[..n]);
      assert a + b == (a + b[..n]) + [b[n]];
      MagSnoc(a + b[..n], b[n]);
      Pow10Step(n);
      Scale(Mag(a), Pow10(4 * n));
    }
  }

  lemma {:induction false} Scale(x: int, p: int)
    ensures x * p * 10000 == x * (10000 * p)
  {
  }

  /** A leading zero does not count. */
  lemma {:induction false} MagLeadingZero(ds: seq<int>)
    requires ds != [] && ds[0] == 0
    ensures Mag(ds[1..]) == Mag(ds)
  {
    assert ds == [0] + ds[1..];
    MagConcat([0], ds[1..]);
    MagSnoc([], 0);
    assert [] + [0] == [0];
  }

  /** Where the leading digit puts the value. */
  lemma {:induction false} MagLead(ds: seq<int>)
    requires Digits(ds) && ds != []
    ensures ds[0] * Pow10(4 * (|ds| - 1)) <= Mag(ds) < (ds[0] + 1) * Pow10(4 * (|ds| - 1))
  {
    var n := |ds| - 1;
    assert ds == [ds[0]] + ds[1..];
    MagConcat([ds[0]], ds[1..]);
    MagSnoc([], ds[0]);
    assert [] + [ds[0]] == [ds[0]];
    MagBound(ds[1..]);
    Distribute(ds[0], Pow10(4 * n));
  }

  lemma {:induction false} Distribute(x: int, p: int)
    ensures (x + 1) * p == x * p + p
  {
  }

  lemma {:induction false} MagInjective(a: seq<int>, b: seq<int>)
    requires Digits(a) && Digits(b) && |a| == |b| && Mag(a) == Mag(b)
    ensures a == b
    decreases |a|
  {
    if a != [] {
      var n := |a| - 1;
      assert a[n] == b[n] && Mag(a[..n]) == Mag(b[..n]);
      MagInjective(a[..n], b[..n]);
      assert a == a[..n] + [a[n]] && b == b[..n] + [b[n]];
    }
  }

  /** One more, carrying from the last digit. */
  function Inc(ds: seq<int>): seq<int> {
    if ds == [] then [1]
    else if ds[|ds| - 1] == 9999 then Inc(ds[..|ds| - 1]) + [0]
    else ds[..|ds| - 1] + [ds[|ds| - 1] + 1]
  }

  lemma {:induction false} IncPrefix(ds: seq<int>, n: nat)
    requires n < |ds|
    ensures Inc(ds[..n + 1]) == if ds[n] == 9999 then Inc(ds[..n]) + [0] else ds[..n] + [ds[n] + 1]
  {
    assert ds[..n + 1][..n] == ds[..n];
  }

  lemma {:induction false} IncAddsOne(ds: seq<int>)
    requires Digits(ds)
    ensures Mag(Inc(ds)) == Mag(ds) + 1 && Digits(Inc(ds))
    ensures ds != [] && ds[0] == 0 ==> |Inc(ds)| == |ds|
    decreases |ds|
  {
    if ds == [] {
      IncEmpty();
    } else {
      var n := |ds| - 1;
      if ds[n] == 9999 {
        IncAddsOne(ds[..n]);
        IncCarries(ds);
      } else {
        IncLast(ds);
      }
    }
  }

  lemma {:induction false} IncEmpty()
    ensures Inc([]) == [1] && Mag(Inc([])) == Mag([]) + 1
  {
    MagSnoc([], 1);
    assert [] + [1] == [1];
  }

  lemma {:induction false} IncCarries(ds: seq<int>)
    requires ds != [] && ds[|ds| - 1] == 9999
    requires Mag(Inc(ds[..|ds| - 1])) == Mag(ds[..|ds| - 1]) + 1
    ensures Inc(ds) == Inc(ds[..|ds| - 1]) + [0] && Mag(Inc(ds)) == Mag(ds) + 1
  {
    MagSnoc(Inc(ds[..|ds| - 1]), 0);
  }

  lemma {:induction false} IncLast(ds: seq<int>)
    requires ds != [] && ds[|ds| - 1] != 9999
    ensures Inc(ds) == ds[..|ds| - 1] + [ds[|ds| - 1] + 1] && Mag(Inc(ds)) == Mag(ds) + 1
  {
    MagSnoc(ds[..|ds| - 1], ds[|ds| - 1] + 1);
  }

  // ---- Values at a decimal scale ----

  /** The digits stand for Mag(ds) / 10^Shift units of 10^-scale. */
  function Shift(n: nat, weight: int, scale: int): int { 4 * (n - weight - 1) - scale }

  /** The value is exactly a units of 10^-scale. */
  predicate Exactly(ds: seq<int>, weight: int, scale: int, a: int) {
    var c := Shift(|ds|, weight, scale);
    if c >= 0 then Mag(ds) == a * Pow10(c) else Mag(ds) * Pow10(-c) == a
  }

  /** The first digit of weight 0 counts ones, that of weight 1 ten thousands. */
  lemma WeightCounts()
    ensures Exactly([1], 0, 0, 1) && Exactly([1], 1, 0, 10000) && Exactly([1], -1, 4, 1)
  {
    assert [1][..0] == [];
    Pow10Four();
  }

  /** a is the value in units of 10^-scale rounded to the nearest integer, halves upwards. */
  predicate Nearest(ds: seq<int>, weight: int, scale: int, a: int) {
    var c := Shift(|ds|, weight, scale);
    if c >= 0 then (2 * a - 1) * Pow10(c) <= 2 * Mag(ds) < (2 * a + 1) * Pow10(c)
    else Mag(ds) * Pow10(-c) == a
  }

  /** The value lies in [10^-(scale+1), 10^-scale): its leading decimal digit is just below the unit. */
  predicate JustBelow(ds: seq<int>, weight: int, scale: int) {
    var c := Shift(|ds|, weight, scale);
    c >= 0 && Mag(ds) < Pow10(c) <= 10 * Mag(ds)
  }

  lemma {:induction false} NearestUnique(ds: seq<int>, weight: int, scale: int, a: int, b: int)
    requires Nearest(ds, weight, scale, a) && Nearest(ds, weight, scale, b)
    ensures a == b
  {
    var c := Shift(|ds|, weight, scale);
    if c >= 0 {
      if a < b { Below(2 * a + 1, 2 * b - 1, Pow10(c)); }
      if b < a { Below(2 * b + 1, 2 * a - 1, Pow10(c)); }
    }
  }

  lemma {:induction false} Below(x: int, y: int, p: nat)
    requires x <= y
    ensures x * p <= y * p
  {
  }

  /** Dropping a leading zero digit keeps the value. */
  lemma {:induction false} ExactlyLeading(ds: seq<int>, weight: int, scale: int, a: int)
    requires ds != [] && ds[0] == 0
    ensures Exactly(ds[1..], weight - 1, scale, a) <==> Exactly(ds, weight, scale, a)
  {
    MagLeadingZero(ds);
  }

  /** Dropping a trailing zero digit keeps the value. */
  lemma {:induction false} ExactlyTrailing(ds: seq<int>, weight: int, scale: int, a: int)
    requires ds != [] && ds[|ds| - 1] == 0
    ensures Exactly(ds[..|ds| - 1], weight, scale, a) <==> Exactly(ds, weight, scale, a)
  {
    var c := Shift(|ds|, weight, scale);
    var m := Mag(ds[..|ds| - 1]);
    assert Mag(ds) == m * 10000;
    Pow10Four();
    if c >= 4 {
      Pow10Add(4, c - 4);
      Scale(a, Pow10(c - 4));
      assert a * Pow10(c) == (a * Pow10(c - 4)) * 10000;
    } else if c >= 0 {
      Pow10Add(c, 4 - c);
      Straddle(m, a, Pow10(c), Pow10(4 - c));
    } else {
      Pow10Add(4, -c);
      Scale(m, Pow10(-c));
      assert m * 10000 * Pow10(-c) == m * (10000 * Pow10(-c));
    }
  }

  lemma {:induction false} Straddle(m: int, a: int, p: nat, q: nat)
    requires p * q == 10000 && p >= 1
    ensures m * 10000 == a * p <==> m * q == a
  {
    assert m * 10000 == (m * q) * p by { assert m * (q * p) == (m * q) * p; }
    if m * 10000 == a * p {
      Cancel(m * q, a, p);
    }
  }

  lemma {:induction false} Cancel(x: int, y: int, p: nat)
    requires x * p == y * p && p >= 1
    ensures x == y
  {
    if x < y { StrictlyBelow(x, y, p); }
    if y < x { StrictlyBelow(y, x, p); }
  }

  lemma {:induction false} StrictlyBelow(x: int, y: int, p: nat)
    requires x < y && p >= 1
    ensures x * p < y * p
  {
    Below(x + 1, y, p);
    Distribute(x, p);
  }

  /** Zero has no digits. */
  lemma {:induction false} ExactlyZero(weight: int, scale: int, a: int)
    ensures Exactly([], weight, scale, a) <==> a == 0
  {
    var c := Shift(0, weight, scale);
    if c >= 0 && a != 0 { assert a * Pow10(c) != 0; }
  }

  // ---- Rounding by cutting digits ----

  /** The value in units of 10^-scale, rounded half away from zero. */
  function Rounded(ds: seq<int>, weight: int, scale: int): int {
    var c := Shift(|ds|, weight, scale);
    if c >= 0 then (2 * Mag(ds) + Pow10(c)) / (2 * Pow10(c)) else Mag(ds) * Pow10(-c)
  }

  lemma {:induction false} DivideBounds(x: int, p: int)
    requires p > 0
    ensures (x / p) * p <= x < (x / p + 1) * p
  {
  }

  lemma {:induction false} RoundedIsNearest(ds: seq<int>, weight: int, scale: int)
    ensures Nearest(ds, weight, scale, Rounded(ds, weight, scale))
  {
    hide Mag, Pow10;
    var c := Shift(|ds|, weight, scale);
    if c >= 0 {
      var p, a := Pow10(c), Rounded(ds, weight, scale);
      DivideBounds(2 * Mag(ds) + p, 2 * p);
      Doubled(a, p);
    }
  }

  lemma {:induction false} Doubled(a: int, p: int)
    ensures a * (2 * p) == (2 * a - 1) * p + p && (a + 1) * (2 * p) == (2 * a + 1) * p + p
  {
  }

  /** What is nearest is what rounding gives. */
  lemma {:induction false} RoundedUnique(ds: seq<int>, weight: int, scale: int, a: int)
    requires Nearest(ds, weight, scale, a)
    ensures a == Rounded(ds, weight, scale)
  {
    RoundedIsNearest(ds, weight, scale);
    NearestUnique(ds, weight, scale, a, Rounded(ds, weight, scale));
  }

  /** The unit kept in the last digit when r of its decimal places are wanted, and all of it for r = 0. */
  function Unit(r: nat): nat { if r == 0 then 1 else if r == 1 then 1000 else if r == 2 then 100 else 10 }

  /** The digits cut to n, of which the last keeps r decimal places, rounded half up. */
  function CutMag(ds: seq<int>, n: nat, r: nat): int
    requires n <= |ds| && (r == 0 ==> n < |ds|) && (r > 0 ==> n > 0)
  {
    if r == 0 then Mag(ds[..n]) + (if ds[n] >= 5000 then 1 else 0)
    else
      var extra := ds[n - 1] % Unit(r);
      Mag(ds[..n]) - extra + (if extra >= Unit(r) / 2 then Unit(r) else 0)
  }

  /** Whether the part cut off is at least half of the unit, decided from the digit at the cut. */
  lemma {:induction false} HalfAtDigit(rest: seq<int>)
    requires Digits(rest) && rest != []
    ensures rest[0] >= 5000 <==> 2 * Mag(rest) >= Pow10(4 * |rest|)
  {
    var p := Pow10(4 * (|rest| - 1));
    MagLead(rest);
    Pow10Step(|rest| - 1);
    if rest[0] >= 5000 { Below(5000, rest[0], p); } else { Below(rest[0] + 1, 5000, p); }
  }

  lemma {:induction false} HalfInDigit(extra: int, unit: int, rest: seq<int>)
    requires Digits(rest) && 0 <= extra < unit && unit % 2 == 0
    ensures extra >= unit / 2 <==> 2 * (extra * Pow10(4 * |rest|) + Mag(rest)) >= unit * Pow10(4 * |rest|)
  {
    var p := Pow10(4 * |rest|);
    MagBound(rest);
    if extra >= unit / 2 {
      Below(unit, 2 * extra, p);
      assert 2 * extra * p == 2 * (extra * p);
    } else {
      Below(2 * extra + 2, unit, p);
      assert (2 * extra + 2) * p == 2 * (extra * p) + 2 * p;
    }
  }

  /** m = a * (u * p) + tail, and a or a + 1 is nearest depending on the tail. */
  lemma {:induction false} NearestByTail(m: int, a: int, w: nat, tail: int, up: bool)
    requires m == a * w + tail && 0 <= tail < w && (up <==> 2 * tail >= w)
    ensures var b := if up then a + 1 else a; (2 * b - 1) * w <= 2 * m < (2 * b + 1) * w
  {
    assert (2 * a - 1) * w == 2 * (a * w) - w && (2 * a + 1) * w == 2 * (a * w) + w && (2 * a + 3) * w == 2 * (a * w) + 3 * w;
  }

  lemma {:induction false} UnitPow(r: nat)
    requires r < 4
    ensures Unit(r) == Pow10((4 - r) % 4) && (r > 0 ==> Unit(r) % 2 == 0)
  {
    Pow10Four();
  }

  /** Cutting to di decimal digits rounds to the nearest unit of 10^-scale. */
  lemma {:induction false} CutRounds(ds: seq<int>, weight: int, scale: int, n: nat, r: nat)
    requires Digits(ds) && 4 * (weight + 1) + scale >= 0
    requires var di := 4 * (weight + 1) + scale; n == (di + 3) / 4 && r == di % 4
    requires n <= |ds| && (r == 0 ==> n < |ds|) && (r > 0 ==> n > 0)
    ensures CutMag(ds, n, r) == Rounded(ds, weight, scale) * Unit(r)
  {
    hide *;
    var q, t := 4 * (|ds| - n), (4 - r) % 4;
    CutShift(|ds|, weight, scale, n, r);
    UnitPow(r);
    Pow10Add(t, q);
    var b: int;
    if r == 0 { b := CutAtDigit(ds, n); } else { b := CutInDigit(ds, n, r); }
    NearestIs(ds, weight, scale, b);
    RoundedUnique(ds, weight, scale, b);
  }

  lemma {:induction false} CutShift(len: nat, weight: int, scale: int, n: nat, r: nat)
    requires var di := 4 * (weight + 1) + scale; di >= 0 && n == (di + 3) / 4 && r == di % 4
    ensures Shift(len, weight, scale) == (4 - r) % 4 + 4 * (len - n) && r < 4
  {
  }

  lemma {:induction false} CutAtDigit(ds: seq<int>, n: nat) returns (b: int)
    requires Digits(ds) && n < |ds|
    ensures CutMag(ds, n, 0) == b * Unit(0)
    ensures var w := Unit(0) * Pow10(4 * (|ds| - n)); (2 * b - 1) * w <= 2 * Mag(ds) < (2 * b + 1) * w
  {
    var rest := ds[n..];
    assert ds == ds[..n] + rest;
    MagConcat(ds[..n], rest);
    MagBound(rest);
    HalfAtDigit(rest);
    NearestByTail(Mag(ds), Mag(ds[..n]), Pow10(4 * |rest|), Mag(rest), ds[n] >= 5000);
    b := CutMag(ds, n, 0);
  }

  lemma {:induction false} NearestIs(ds: seq<int>, weight: int, scale: int, b: int)
    requires var c := Shift(|ds|, weight, scale); c >= 0 && (2 * b - 1) * Pow10(c) <= 2 * Mag(ds) < (2 * b + 1) * Pow10(c)
    ensures Nearest(ds, weight, scale, b)
  {
  }

  lemma {:induction false} CutInDigit(ds: seq<int>, n: nat, r: nat) returns (b: int)
    requires Digits(ds) && 0 < n <= |ds| && 0 < r < 4
    ensures CutMag(ds, n, r) == b * Unit(r)
    ensures var w := Unit(r) * Pow10(4 * (|ds| - n)); (2 * b - 1) * w <= 2 * Mag(ds) < (2 * b + 1) * w
  {
    var rest := ds[n..];
    assert ds == ds[..n] + rest;
    MagConcat(ds[..n], rest);
    MagBound(rest);
    UnitPow(r);
    var u, p := Unit(r), Pow10(4 * |rest|);
    var extra, up := ds[n - 1] % u, ds[n - 1] % u >= u / 2;
    MagDivides(ds, n, r);
    var a := (Mag(ds[..n]) - extra) / u;
    assert Mag(ds[..n]) == a * u + extra;
    HalfInDigit(extra, u, rest);
    assert CutMag(ds, n, r) == a * u + (if up then u else 0);
    hide *;
    Expand(a, u, extra, p);
    TailBound(extra, u, p, Mag(rest));
    NearestByTail(Mag(ds), a, u * p, extra * p + Mag(rest), up);
    b := if up then a + 1 else a;
    Distribute(a, u);
  }

  lemma {:induction false} Expand(a: int, u: int, e: int, p: int)
    ensures (a * u + e) * p == a * (u * p) + e * p
  {
    Times(a, u, p);
  }

  lemma {:induction false} TailBound(e: int, u: int, p: int, m: int)
    requires 0 <= e < u && 0 <= m < p
    ensures 0 <= e * p + m < u * p
  {
    Below(e + 1, u, p);
    Distribute(e, p);
    Below(0, e, p);
  }

  lemma {:induction false} MagDivides(ds: seq<int>, n: nat, r: nat)
    requires Digits(ds) && 0 < n <= |ds| && 0 < r < 4
    ensures (Mag(ds[..n]) - ds[n - 1] % Unit(r)) % Unit(r) == 0
  {
    assert ds[..n][..n - 1] == ds[..n - 1];
    DigitUnit(Mag(ds[..n - 1]), ds[n - 1], r);
  }

  lemma {:induction false} DigitUnit(m: int, d: int, r: nat)
    requires 0 < r < 4
    ensures (m * 10000 + d - d % Unit(r)) % Unit(r) == 0
  {
    if r == 1 {
      Thousands(10 * m, d, 1000);
    } else if r == 2 {
      Thousands(100 * m, d, 100);
    } else {
      Thousands(1000 * m, d, 10);
    }
  }

  lemma {:induction false} Thousands(k: int, d: int, u: int)
    requires u > 0
    ensures (k * u + d - d % u) % u == 0
  {
    assert d == u * (d / u) + d % u;
    var q := k + d / u;
    assert k * u + d - d % u == q * u by { assert q * u == k * u + (d / u) * u; }
    MultipleMod(q, u);
  }

  lemma {:induction false} MultipleMod(k: int, scale: int)
    requires scale > 0
    ensures (k * scale) % scale == 0
  {
    DivideBounds(k * scale, scale);
    var q := k * scale / scale;
    if q < k { Below(q + 1, k, scale); }
    if k < q { StrictlyBelow(k, q, scale); }
    assert k * scale == scale * q + (k * scale) % scale;
  }

  /** With enough decimal digits wanted, the value is already a whole number of units. */
  lemma {:induction false} NothingToCut(ds: seq<int>, weight: int, scale: int)
    requires Shift(|ds|, weight, scale) <= 0
    ensures Exactly(ds, weight, scale, Rounded(ds, weight, scale))
  {
  }

  /** A value below a tenth of the unit rounds to nothing. */
  lemma {:induction false} AllLost(ds: seq<int>, weight: int, scale: int)
    requires Digits(ds) && Shift(|ds|, weight, scale) > 0 && 10 * Mag(ds) < Pow10(Shift(|ds|, weight, scale))
    ensures Rounded(ds, weight, scale) == 0
  {
    MagBound(ds);
    RoundedUnique(ds, weight, scale, 0);
  }

  // ---- One value, one digit sequence ----

  ghost predicate SameValue(ds: seq<int>, weight: int, ds': seq<int>, weight': int) {
    forall scale, a :: Exactly(ds, weight, scale, a) <==> Exactly(ds', weight', scale, a)
  }

  /** No zero digit at either end, and weight zero when there are no digits. */
  predicate Stripped(ds: seq<int>, weight: int) {
    if ds == [] then weight == 0 else ds[0] != 0 && ds[|ds| - 1] != 0
  }

  lemma {:induction false} LastDigit(ds: seq<int>)
    requires Digits(ds) && ds != []
    ensures Mag(ds) % 10000 == ds[|ds| - 1]
  {
  }

  lemma {:induction false} DivisibleBy(m: int, k: nat)
    requires k >= 4
    ensures (m * Pow10(k)) % 10000 == 0
  {
    Pow10Add(4, k - 4);
    Pow10Four();
    assert m * (10000 * Pow10(k - 4)) == 10000 * (m * Pow10(k - 4));
  }

  lemma {:induction false} LengthByMag(a: seq<int>, b: seq<int>)
    requires Digits(a) && Digits(b) && a != [] && b != [] && a[0] != 0 && b[0] != 0 && Mag(a) == Mag(b)
    ensures |a| == |b|
  {
    MagLead(a);
    MagLead(b);
    MagBound(a);
    MagBound(b);
    Below(1, a[0], Pow10(4 * (|a| - 1)));
    Below(1, b[0], Pow10(4 * (|b| - 1)));
    if |a| < |b| { Pow10Mono(4 * |a|, 4 * (|b| - 1)); }
    if |b| < |a| { Pow10Mono(4 * |b|, 4 * (|a| - 1)); }
  }

  lemma {:induction false} MagPositive(ds: seq<int>)
    requires Digits(ds) && ds != [] && ds[0] != 0
    ensures Mag(ds) > 0
  {
    MagLead(ds);
    Below(1, ds[0], Pow10(4 * (|ds| - 1)));
  }

  /** A value has exactly one stripped digit sequence and weight. */
  lemma {:induction false} StrippedUnique(ds: seq<int>, weight: int, ds': seq<int>, weight': int)
    requires Digits(ds) && Digits(ds') && Stripped(ds, weight) && Stripped(ds', weight') && SameValue(ds, weight, ds', weight')
    ensures ds == ds' && weight == weight'
  {
    var scale := 4 * (|ds| - weight - 1);
    assert Exactly(ds, weight, scale, Mag(ds));
    assert Exactly(ds', weight', scale, Mag(ds));
    var c := Shift(|ds'|, weight', scale);
    if ds == [] || ds' == [] {
      ZeroOnly(ds, weight, ds', weight');
    } else {
      LastDigit(ds);
      LastDigit(ds');
      if c > 0 { DivisibleBy(Mag(ds), c); }
      if c < 0 { DivisibleBy(Mag(ds'), -c); }
      assert c == 0 && Mag(ds) == Mag(ds') * Pow10(0);
      LengthByMag(ds, ds');
      MagInjective(ds, ds');
    }
  }

  lemma {:induction false} ZeroOnly(ds: seq<int>, weight: int, ds': seq<int>, weight': int)
    requires Digits(ds) && Digits(ds') && Stripped(ds, weight) && Stripped(ds', weight') && SameValue(ds, weight, ds', weight')
    requires ds == [] || ds' == []
    ensures ds == ds' && weight == weight'
  {
    ExactlyZero(weight, 0, 0);
    ExactlyZero(weight', 0, 0);
    assert Exactly(ds, weight, 0, 0) && Exactly(ds', weight', 0, 0);
    if ds != [] { NotZero(ds, weight); }
    if ds' != [] { NotZero(ds', weight'); }
  }

  lemma {:induction false} NotZero(ds: seq<int>, weight: int)
    requires Digits(ds) && ds != [] && ds[0] != 0
    ensures !Exactly(ds, weight, 0, 0)
  {
    MagPositive(ds);
    var c := Shift(|ds|, weight, 0);
    if c < 0 { ZeroMag(Mag(ds), Pow10(-c)); }
  }

  lemma {:induction false} ZeroMag(m: int, p: nat)
    requires m > 0 && p >= 1
    ensures m * p > 0
  {
  }

  lemma {:induction false} SameValueSelf(ds: seq<int>, weight: int)
    ensures SameValue(ds, weight, ds, weight)
  {
  }

  lemma {:induction false} DropFirst(ds: seq<int>, weight: int, ds0: seq<int>, weight0: int)
    requires ds != [] && ds[0] == 0 && SameValue(ds, weight, ds0, weight0)
    ensures SameValue(ds[1..], weight - 1, ds0, weight0)
  {
    forall scale, a ensures Exactly(ds[1..], weight - 1, scale, a) <==> Exactly(ds0, weight0, scale, a) {
      ExactlyLeading(ds, weight, scale, a);
      assert Exactly(ds, weight, scale, a) <==> Exactly(ds0, weight0, scale, a);
    }
  }

  lemma {:induction false} DropLast(ds: seq<int>, weight: int, ds0: seq<int>, weight0: int)
    requires ds != [] && ds[|ds| - 1] == 0 && SameValue(ds, weight, ds0, weight0)
    ensures SameValue(ds[..|ds| - 1], weight, ds0, weight0)
  {
    forall scale, a ensures Exactly(ds[..|ds| - 1], weight, scale, a) <==> Exactly(ds0, weight0, scale, a) {
      ExactlyTrailing(ds, weight, scale, a);
      assert Exactly(ds, weight, scale, a) <==> Exactly(ds0, weight0, scale, a);
    }
  }

  lemma {:induction false} NoDigits(weight: int, ds0: seq<int>, weight0: int)
    requires SameValue([], weight, ds0, weight0)
    ensures SameValue([], 0, ds0, weight0) && Exactly(ds0, weight0, 0, 0)
  {
    forall scale, a ensures Exactly([], 0, scale, a) <==> Exactly(ds0, weight0, scale, a) {
      ExactlyZero(0, scale, a);
      ExactlyZero(weight, scale, a);
      assert Exactly([], weight, scale, a) <==> Exactly(ds0, weight0, scale, a);
    }
    ExactlyZero(0, 0, 0);
    assert Exactly([], 0, 0, 0) <==> Exactly(ds0, weight0, 0, 0);
  }

  lemma {:induction false} SameValueTrans(a: seq<int>, wa: int, b: seq<int>, wb: int, c: seq<int>, wc: int)
    requires SameValue(a, wa, b, wb) && SameValue(b, wb, c, wc)
    ensures SameValue(a, wa, c, wc)
  {
    forall scale, x ensures Exactly(a, wa, scale, x) <==> Exactly(c, wc, scale, x) {
      assert Exactly(a, wa, scale, x) <==> Exactly(b, wb, scale, x);
    }
  }

  // ---- Quotients from bounds ----

  /** A quotient from its bounds. */
  lemma {:induction false} QuotientIs(x: int, p: int, a: int)
    requires p > 0 && a * p <= x < (a + 1) * p
    ensures x / p == a
  {
    DivideBounds(x, p);
    if a < x / p { Below(a + 1, x / p, p); }
    if x / p < a { Below(x / p + 1, a, p); }
  }

  lemma {:induction false} RoundTail(h: int, r: int, q: nat, up: bool)
    requires 0 <= r < q && (up <==> 2 * r >= q)
    ensures (2 * ((h * q + r) * 10000) + 10000 * q) / (2 * (10000 * q)) == h + (if up then 1 else 0)
  {
    var a := h + (if up then 1 else 0);
    var x, p := 2 * ((h * q + r) * 10000) + 10000 * q, 2 * (10000 * q);
    assert x == 20000 * (h * q) + 20000 * r + 10000 * q;
    assert h * p == 20000 * (h * q) && (h + 1) * p == 20000 * (h * q) + 20000 * q && (h + 2) * p == 20000 * (h * q) + 40000 * q;
    QuotientIs(x, p, a);
  }

  lemma {:induction false} Numerators(i: int, f: int, p: int)
    ensures 2 * ((i * p + f) * 10000) + p == (i * 10000) * (2 * p) + (2 * (f * 10000) + p)
  {
    assert (i * 10000) * (2 * p) == 20000 * (i * p);
  }

  lemma {:induction false} QuotientShift(k: int, x: int, q: int)
    requires q > 0
    ensures (k * q + x) / q == k + x / q
  {
    DivideBounds(x, q);
    var a := x / q;
    assert (k + a) * q == k * q + a * q;
    assert (k + a + 1) * q == k * q + (a + 1) * q;
    QuotientIs(k * q + x, q, k + a);
  }
}
