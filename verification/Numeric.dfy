/** NumericVar: a sign and a base-10000 digit array with one spare digit in front, changed in place by
    rounding and stripping. */
module Numeric {
  import opened Decimal

  datatype Sign = Pos | Neg

  datatype Error = Overflow | BadSyntax

  datatype Result<+T> = Ok(value: T) | Err(error: Error)

  lemma {:induction false} SeqAssoc(a: seq<int>, b: seq<int>, c: seq<int>)
    ensures (a + b) + c == a + (b + c)
  {
  }

  /** was with a carry pending into position j: the digits from j on are final. */
  ghost predicate Pending(was: seq<int>, cur: seq<int>, j: nat) {
    0 < j <= |was| && |cur| == |was| && cur[..j] == was[..j] && Inc(was) == Inc(was[..j]) + cur[j..] && Digits(was) && was[0] == 0
  }

  lemma {:induction false} CarryStarts(was: seq<int>)
    requires was != [] && Digits(was) && was[0] == 0
    ensures Pending(was, was, |was|)
  {
    assert was[..|was|] == was;
  }

  lemma {:induction false} CarryGoesOn(was: seq<int>, cur: seq<int>, j: nat)
    requires Pending(was, cur, j) && cur[j - 1] >= 9999
    ensures j > 1 && Pending(was, cur[j - 1 := cur[j - 1] + 1 - 10000], j - 1)
  {
    var cur' := cur[j - 1 := 0];
    assert cur[j - 1] == was[j - 1] == 9999;
    IncPrefix(was, j - 1);
    SeqAssoc(Inc(was[..j - 1]), [0], cur[j..]);
    assert cur'[j - 1..] == [0] + cur[j..];
    assert cur'[..j - 1] == was[..j - 1];
  }

  lemma {:induction false} CarryEnds(was: seq<int>, cur: seq<int>, j: nat)
    requires Pending(was, cur, j) && cur[j - 1] < 9999
    ensures cur[j - 1 := cur[j - 1] + 1] == Inc(was) && (j > 1 ==> Inc(was)[0] == 0)
  {
    assert cur[j - 1] == was[j - 1];
    IncPrefix(was, j - 1);
    assert cur[j - 1 := cur[j - 1] + 1] == was[..j - 1] + [was[j - 1] + 1] + cur[j..];
  }

  /** One digit of the window from a to end. */
  method SetDigit(buf: array<int>, a: nat, end: nat, k: nat, d: int)
    requires a <= k < end <= buf.Length
    modifies buf
    ensures buf[a..end] == old(buf[a..end])[k - a := d]
    ensures forall i :: 0 <= i < buf.Length && !(a <= i < end) ==> buf[i] == old(buf[i])
  {
    buf[k] := d;
  }

  /** Adds one at position end - 1 of the digits from a on and carries towards a, which holds a zero
      that takes the last carry. Returns the leftmost position it has changed. */
  method Carry(buf: array<int>, a: nat, end: nat) returns (k: nat)
    requires a < end <= buf.Length && buf[a] == 0 && Digits(buf[a..end])
    modifies buf
    ensures buf[a..end] == Inc(old(buf[a..end])) && a <= k < end && (k == a <==> buf[a] != 0)
    ensures forall i :: 0 <= i < buf.Length && !(a <= i < end) ==> buf[i] == old(buf[i])
  {
    hide *;
    ghost var was := buf[a..end];
    CarryStarts(was);
    k := end;
    var carry := 1;
    while carry > 0
      invariant a <= k <= end && 0 <= carry <= 1
      invariant forall i :: 0 <= i < buf.Length && !(a <= i < end) ==> buf[i] == old(buf[i])
      invariant carry == 1 ==> k > a && Pending(was, buf[a..end], k - a)
      invariant carry == 0 ==> k < end && buf[a..end] == Inc(was) && (k == a <==> buf[a] != 0)
      decreases k, carry
    {
      ghost var cur, j := buf[a..end], k - a;
      k := k - 1;
      PendingDigit(was, cur, j);
      carry := carry + buf[k];
      if carry >= 10000 {
        CarryGoesOn(was, cur, j);
        SetDigit(buf, a, end, k, carry - 10000);
        carry := 1;
      } else {
        CarryEnds(was, cur, j);
        SetDigit(buf, a, end, k, carry);
        carry := 0;
      }
    }
  }

  lemma {:induction false} PendingDigit(was: seq<int>, cur: seq<int>, j: nat)
    requires Pending(was, cur, j)
    ensures 0 < j <= |cur| && 0 <= cur[j - 1] < 10000
  {
    assert cur[j - 1] == was[j - 1];
  }

  /** Carry, seen from the digits behind the spare one: their value grows by one, and the first digit is
      now at the spare position or still behind it. */
  method CarryOver(buf: array<int>, first: nat, end: nat) returns (front: nat)
    requires 1 <= first <= end <= buf.Length && buf[first - 1] == 0 && Digits(buf[first..end])
    modifies buf
    ensures first - 1 <= front <= first && Digits(buf[front..end]) && Mag(buf[front..end]) == Mag(old(buf[first..end])) + 1
    ensures forall i :: 0 <= i < buf.Length && !(first - 1 <= i < end) ==> buf[i] == old(buf[i])
  {
    ghost var was := buf[first - 1..end];
    assert was[1..] == buf[first..end];
    MagLeadingZero(was);
    IncAddsOne(was);
    var k := Carry(buf, first - 1, end);
    ghost var now := buf[first - 1..end];
    hide *;
    if k < first {
      front := first - 1;
    } else {
      front := first;
      assert now[1..] == buf[first..end] && now[0] == 0;
      MagLeadingZero(now);
      DigitsPart(now, 1);
    }
  }

  lemma {:induction false} DigitsPart(ds: seq<int>, i: nat)
    requires Digits(ds) && i <= |ds|
    ensures Digits(ds[i..]) && Digits(ds[..i])
  {
  }

  lemma {:induction false} CutInside(ds: seq<int>, n: nat, r: nat)
    requires Digits(ds) && 0 < n <= |ds| && 0 < r < 4
    ensures var extra := ds[n - 1] % Unit(r);
            CutMag(ds, n, r) == Mag(ds[..n - 1]) * 10000 + ds[n - 1] - extra + (if extra >= Unit(r) / 2 then Unit(r) else 0)
  {
    assert ds[..n][..n - 1] == ds[..n - 1];
  }

  lemma {:induction false} MagSlice(ds: seq<int>, d: int, all: seq<int>)
    requires all == ds + [d] && Digits(ds) && 0 <= d < 10000
    ensures Mag(all) == Mag(ds) * 10000 + d && Digits(all)
  {
    MagSnoc(ds, d);
  }

  /** Cuts the digits to n, keeping r decimal places of the last one when r > 0, and rounds half up. */
  method Cut(buf: array<int>, first: nat, ghost ds: seq<int>, n: nat, r: nat) returns (front: nat)
    requires 1 <= first && first + |ds| <= buf.Length && buf[first..first + |ds|] == ds && Digits(ds) && buf[first - 1] == 0
    requires n <= |ds| && r < 4 && (r == 0 ==> n < |ds|) && (r > 0 ==> n > 0)
    modifies buf
    ensures first - 1 <= front <= first && Digits(buf[front..first + n]) && Mag(buf[front..first + n]) == CutMag(ds, n, r)
  {
    if r == 0 {
      front := CutBetween(buf, first, ds, n);
    } else {
      front := CutWithin(buf, first, ds, n, r);
    }
  }

  method CutBetween(buf: array<int>, first: nat, ghost ds: seq<int>, n: nat) returns (front: nat)
    requires 1 <= first && first + |ds| <= buf.Length && buf[first..first + |ds|] == ds && Digits(ds) && buf[first - 1] == 0
    requires n < |ds|
    modifies buf
    ensures first - 1 <= front <= first && Digits(buf[front..first + n]) && Mag(buf[front..first + n]) == CutMag(ds, n, 0)
  {
    assert buf[first..first + n] == ds[..n] && buf[first + n] == ds[n];
    DigitsPart(ds, n);
    hide Digits, Mag;
    front := first;
    if buf[first + n] >= 5000 { front := CarryOver(buf, first, first + n); }
  }

  lemma {:induction false} DigitIs(ds: seq<int>, i: nat)
    requires Digits(ds) && i < |ds|
    ensures 0 <= ds[i] < 10000
  {
  }

  lemma {:induction false} UnitBound(r: nat)
    requires 0 < r < 4
    ensures 10 <= Unit(r) <= 1000
  {
  }

  lemma {:induction false} RemainderBound(x: int, u: int)
    requires 0 <= x && u > 0
    ensures 0 <= x % u <= x
  {
  }

  method CutWithin(buf: array<int>, first: nat, ghost ds: seq<int>, n: nat, r: nat) returns (front: nat)
    requires 1 <= first && first + |ds| <= buf.Length && buf[first..first + |ds|] == ds && Digits(ds) && buf[first - 1] == 0
    requires 0 < n <= |ds| && 0 < r < 4
    modifies buf
    ensures first - 1 <= front <= first && Digits(buf[front..first + n]) && Mag(buf[front..first + n]) == CutMag(ds, n, r)
  {
    hide *;
    var k := first + n - 1;
    CutInside(ds, n, r);
    DigitsPart(ds, n - 1);
    DigitIs(ds, n - 1);
    UnitBound(r);
    assert buf[first..k] == ds[..n - 1] && buf[k] == ds[n - 1];
    var unit := Unit(r);
    var extra := buf[k] % unit;
    RemainderBound(buf[k], unit);
    buf[k] := buf[k] - extra;
    front := first;
    if extra >= unit / 2 {
      var sum := unit + buf[k];
      if sum >= 10000 {
        buf[k] := sum - 10000;
        assert buf[first..k] == ds[..n - 1];
        front := CarryOver(buf, first, k);
      } else {
        buf[k] := sum;
        assert buf[first..k] == ds[..n - 1];
      }
    } else {
      assert buf[first..k] == ds[..n - 1];
    }
    MagSlice(buf[front..k], buf[k], buf[front..first + n]);
  }

  // ---- How many decimal digits ----

  /** The number of decimal digits of a leading digit. */
  method LeadLength(lead: int) returns (k: nat)
    requires 0 < lead < 10000
    ensures 1 <= k <= 4 && Pow10(k - 1) <= lead < Pow10(k)
  {
    Pow10Four();
    var scales := [1000, 100, 10, 1];
    k := 0;
    var i := 0;
    while i < 4
      invariant 0 <= i <= 4 && k == 0 && (i > 0 ==> lead < scales[i - 1])
    {
      if lead >= scales[i] {
        k := 4 - i;
        return;
      }
      i := i + 1;
    }
  }

  /** The decimal length of the whole, from that of its leading digit. */
  lemma {:induction false} WholeLength(ds: seq<int>, k: nat)
    requires Digits(ds) && ds != [] && k >= 1 && Pow10(k - 1) <= ds[0] < Pow10(k)
    ensures var len := 4 * (|ds| - 1) + k; Pow10(len - 1) <= Mag(ds) < Pow10(len)
  {
    var q := 4 * (|ds| - 1);
    MagLead(ds);
    Pow10Add(k - 1, q);
    Pow10Add(k, q);
    Below(Pow10(k - 1), ds[0], Pow10(q));
    Below(ds[0] + 1, Pow10(k), Pow10(q));
  }

  /** The value lies just below the unit exactly when the wanted decimal digits run out at its front. */
  lemma {:induction false} JustBelowByLength(ds: seq<int>, weight: int, scale: int, len: nat)
    requires len >= 1 && Pow10(len - 1) <= Mag(ds) < Pow10(len)
    ensures var c := Shift(|ds|, weight, scale);
            (JustBelow(ds, weight, scale) <==> c == len) && (c > len ==> 10 * Mag(ds) < Pow10(c))
  {
    var c := Shift(|ds|, weight, scale);
    if c > len { Pow10Mono(len, c); }
    if 0 <= c < len { Pow10Mono(c, len - 1); }
  }

  lemma {:induction false} WantedDigits(weight: int, scale: int, di: nat)
    requires di == (weight + 1) * 4 + scale
    ensures di == 4 * (weight + 1) + scale && (di - scale) / 4 - 1 == weight && (di - scale) % 4 == 0
  {
  }

  lemma {:induction false} ShiftIs(n: nat, weight: int, scale: int)
    ensures Shift(n, weight, scale) == 4 * n - (4 * (weight + 1) + scale)
  {
  }

  /** What cutting leaves is the rounded value at the unit of its last digit. */
  lemma {:induction false} CutResult(ds: seq<int>, weight: int, scale: int, di: nat, now: seq<int>)
    requires Digits(ds) && di == 4 * (weight + 1) + scale
    requires var n, r := (di + 3) / 4, di % 4; n <= |ds| && (r == 0 ==> n < |ds|) && (r > 0 ==> n > 0) && Mag(now) == CutMag(ds, n, r)
    ensures Mag(now) == Rounded(ds, weight, scale) * Unit(di % 4) && Unit(di % 4) == Pow10((4 - di % 4) % 4)
  {
    var n, r := (di + 3) / 4, di % 4;
    CutRounds(ds, weight, scale, n, r);
    UnitPow(r);
  }

  lemma {:induction false} CutIsExact(ds: seq<int>, weight: int, scale: int, a: int, r: nat, di: nat)
    requires r == di % 4 && Mag(ds) == a * Unit(r) && Unit(r) == Pow10((4 - r) % 4)
    requires |ds| - weight == (di + 3) / 4 - ((di - scale) / 4 - 1) && (di - scale) % 4 == 0
    ensures Exactly(ds, weight, scale, a)
  {
    assert Shift(|ds|, weight, scale) == (4 - r) % 4;
  }

  /** Fewer than no decimal digits wanted: the value is below a tenth of the unit. */
  lemma {:induction false} FarBelow(ds: seq<int>, weight: int, scale: int)
    requires Digits(ds)
    ensures 4 * (weight + 1) + scale < 0 ==>
      var c := Shift(|ds|, weight, scale); c > 0 && 10 * Mag(ds) < Pow10(c)
  {
    var c := Shift(|ds|, weight, scale);
    if 4 * (weight + 1) + scale < 0 {
      MagBound(ds);
      Pow10Mono(4 * |ds|, c);
    }
  }

  // ---- Zero digits at the ends ----

  method TrimFront(buf: array<int>, first: nat, n: nat, weight: int) returns (from: nat, m: nat, w: int)
    requires first + n <= buf.Length
    ensures first <= from && from + m == first + n && (m > 0 ==> buf[from] != 0)
    ensures SameValue(buf[from..from + m], w, buf[first..first + n], weight)
  {
    ghost var all := buf[first..first + n];
    SameValueSelf(all, weight);
    hide *;
    from, m, w := first, n, weight;
    while m > 0 && buf[from] == 0
      invariant from + m == first + n && first <= from
      invariant SameValue(buf[from..from + m], w, all, weight)
    {
      ghost var ds := buf[from..from + m];
      DropFirst(ds, w, all, weight);
      assert ds[1..] == buf[from + 1..from + m];
      from, w, m := from + 1, w - 1, m - 1;
    }
  }

  method TrimBack(buf: array<int>, first: nat, n: nat, weight: int) returns (m: nat)
    requires first + n <= buf.Length
    ensures m <= n && (m > 0 ==> buf[first + m - 1] != 0)
    ensures SameValue(buf[first..first + m], weight, buf[first..first + n], weight)
  {
    ghost var all := buf[first..first + n];
    SameValueSelf(all, weight);
    hide *;
    m := n;
    while m > 0 && buf[first + m - 1] == 0
      invariant m <= n
      invariant SameValue(buf[first..first + m], weight, all, weight)
    {
      ghost var ds := buf[first..first + m];
      DropLast(ds, weight, all, weight);
      assert ds[..m - 1] == buf[first..first + m - 1];
      m := m - 1;
    }
  }

  /** Both ends; zero ends up with weight zero. */
  method Trim(buf: array<int>, first: nat, n: nat, weight: int) returns (from: nat, m: nat, w: int)
    requires first + n <= buf.Length && Digits(buf[first..first + n])
    ensures first <= from && from + m <= first + n && Digits(buf[from..from + m]) && Stripped(buf[from..from + m], w)
    ensures SameValue(buf[from..from + m], w, buf[first..first + n], weight)
    ensures m == 0 ==> Exactly(buf[first..first + n], weight, 0, 0)
  {
    ghost var all := buf[first..first + n];
    hide *;
    var rest: nat;
    from, rest, w := TrimFront(buf, first, n, weight);
    m := TrimBack(buf, from, rest, w);
    ghost var ds := buf[from..from + m];
    SameValueTrans(ds, w, buf[from..from + rest], w, all, weight);
    if m == 0 {
      NoDigits(w, all, weight);
      w := 0;
    }
    assert ds == all[from - first..from - first + m];
    DigitsSlice(all, from - first, from - first + m);
    StrippedIs(ds, w);
  }

  lemma {:induction false} DigitsSlice(ds: seq<int>, i: nat, j: nat)
    requires Digits(ds) && i <= j <= |ds|
    ensures Digits(ds[i..j])
  {
  }

  lemma {:induction false} StrippedIs(ds: seq<int>, weight: int)
    requires ds == [] ==> weight == 0
    requires ds != [] ==> ds[0] != 0 && ds[|ds| - 1] != 0
    ensures Stripped(ds, weight)
  {
  }

  class NumericVar {
    var buf: array<int>
    var first: nat
    var ndigits: nat
    var weight: int
    var sign: Sign
    var dscale: int

    constructor (ndigits: nat)
      ensures fresh(buf) && buf.Length == ndigits + 1 && buf[0] == 0 && first == 1 && this.ndigits == ndigits
    {
      buf := new int[ndigits + 1](_ => 0);
      first := 1;
      this.ndigits := ndigits;
      weight, sign, dscale := 0, Pos, 0;
    }

    ghost predicate Valid()
      reads this, buf
    {
      first + ndigits <= buf.Length && Digits(Contents())
    }

    ghost function Contents(): seq<int>
      requires first + ndigits <= buf.Length
      reads this, buf
    {
      buf[first..first + ndigits]
    }

    /** Rounds half away from zero at the given decimal scale, in place. A negative scale that asks for
        exactly one decimal digit more than the integral part has is an error. */
    method Round(scale: int) returns (r: Result<()>)
      requires Valid() && first >= 1 && buf[first - 1] == 0 && (ndigits > 0 ==> buf[first] != 0)
      modifies this, buf
      ensures buf == old(buf)
      ensures r == Err(Overflow) <==> scale < 0 && old(ndigits) > 0 && JustBelow(old(Contents()), old(weight), scale)
      ensures r.Ok? <==> r != Err(Overflow)
      ensures r.Ok? ==> Valid() && dscale == scale
      ensures r.Ok? ==> Exactly(Contents(), weight, scale, Rounded(old(Contents()), old(weight), scale))
      ensures r.Ok? ==> sign == old(sign) || (sign == Pos && Contents() == [])
    {
      hide *;
      ContentsFacts();
      ghost var ds, w := Contents(), weight;
      ShiftIs(|ds|, w, scale);
      FarBelow(ds, w, scale);
      dscale := scale;
      ContentsAre(ds);
      var di := (weight + 1) * 4 + scale;
      if scale < 0 && ndigits > 0 {
        DigitIs(ds, 0);
        var k := LeadLength(buf[first]);
        WholeLength(ds, k);
        JustBelowByLength(ds, w, scale, 4 * (|ds| - 1) + k);
        var integral := di - 4 + k;
        if integral == 0 { return Err(Overflow); }
        if integral < 0 { di := -1; }
      }
      if di < 0 {
        AllLost(ds, w, scale);
        ndigits, weight, sign := 0, 0, Pos;
        ExactlyZero(0, scale, 0);
        NoDigits();
        ContentsAre([]);
      } else {
        RoundKept(di, ds, scale);
      }
      return Ok(());
    }

    method RoundKept(di: nat, ghost ds: seq<int>, ghost scale: int)
      requires Valid() && first >= 1 && buf[first - 1] == 0 && ds == Contents() && di == (weight + 1) * 4 + scale
      modifies this`first, this`ndigits, this`weight, buf
      ensures buf == old(buf) && Valid() && Exactly(Contents(), weight, scale, Rounded(ds, old(weight), scale))
    {
      hide *;
      ContentsFacts();
      var n, r := (di + 3) / 4, di % 4;
      if n < ndigits || (n == ndigits && r > 0) {
        CutTo(n, r, di, ds, scale);
      } else {
        WantedDigits(weight, scale, di);
        ShiftIs(|ds|, weight, scale);
        NothingToCut(ds, weight, scale);
      }
    }

    method CutTo(n: nat, r: nat, ghost di: nat, ghost ds: seq<int>, ghost scale: int)
      requires Valid() && first >= 1 && buf[first - 1] == 0 && ds == Contents() && di == (weight + 1) * 4 + scale
      requires n == (di + 3) / 4 && r == di % 4 && (n < ndigits || (n == ndigits && r > 0))
      modifies this`first, this`ndigits, this`weight, buf
      ensures buf == old(buf) && Valid() && Exactly(Contents(), weight, scale, Rounded(ds, old(weight), scale))
    {
      hide *;
      ghost var w := weight;
      ContentsFacts();
      WantedDigits(w, scale, di);
      var front := Cut(buf, first, ds, n, r);
      var end := first + n;
      ghost var now := buf[front..end];
      CutResult(ds, w, scale, di, now);
      if front < first {
        first, weight := front, weight + 1;
      }
      ndigits := end - first;
      assert first == front && first + ndigits == end;
      CutIsExact(now, weight, scale, Rounded(ds, w, scale), r, di);
      ContentsAre(now);
    }

    static lemma NoDigits()
      ensures Digits([])
    {
    }

    lemma ContentsFacts()
      requires Valid()
      ensures first + ndigits <= buf.Length && Contents() == buf[first..first + ndigits] && Digits(Contents())
    {
    }

    lemma ContentsAre(now: seq<int>)
      requires first + ndigits <= buf.Length && now == buf[first..first + ndigits] && Digits(now)
      ensures Valid() && Contents() == now
    {
    }

    /** Drops zero digits at both ends in place; the value stays the same. */
    method Strip()
      requires Valid()
      modifies this`first, this`ndigits, this`weight, this`sign
      ensures Valid() && Stripped(Contents(), weight) && first >= old(first)
      ensures SameValue(Contents(), weight, old(Contents()), old(weight))
      ensures sign == (if ndigits == 0 then Pos else old(sign))
    {
      hide *;
      ContentsFacts();
      first, ndigits, weight := Trim(buf, first, ndigits, weight);
      if ndigits == 0 { sign := Pos; }
      ContentsAre(buf[first..first + ndigits]);
    }
  }
}
