/** Reading a decimal text into base-10000 digits: the text is scanned into single decimal digits, which
    are then grouped in fours around the decimal point. */
module NumericText {
  import opened Decimal
  import opened Numeric

  // ---- What a text says ----

  predicate IsDigit(c: char) { '0' <= c <= '9' }

  predicate IsSpace(c: char) { c in {' ', '\t', '\n', '\r', '\U{000B}', '\U{000C}'} }

  /** The end of the longest run of digits from i on. */
  function RunEnd(s: string, i: nat): (e: nat)
    requires i <= |s|
    ensures i <= e <= |s| && (e == |s| || !IsDigit(s[e]))
    ensures forall j :: i <= j < e ==> IsDigit(s[j])
    decreases |s| - i
  {
    if i < |s| && IsDigit(s[i]) then RunEnd(s, i + 1) else i
  }

  function SpaceEnd(s: string, i: nat): (e: nat)
    requires i <= |s|
    ensures i <= e <= |s| && (e == |s| || !IsSpace(s[e]))
    decreases |s| - i
  {
    if i < |s| && IsSpace(s[i]) then SpaceEnd(s, i + 1) else i
  }

  predicate CharIn(s: string, i: nat, cs: set<char>) { i < |s| && s[i] in cs }

  function SignEnd(s: string, i: nat): nat { if CharIn(s, i, {'+', '-'}) then i + 1 else i }

  /** The text splits into an optional sign, digits, and perhaps a point with more digits. */
  function Whole(s: string): nat { RunEnd(s, SignEnd(s, 0)) }

  predicate HasPoint(s: string) { CharIn(s, Whole(s), {'.'}) }

  function MantissaEnd(s: string): nat { if HasPoint(s) then RunEnd(s, Whole(s) + 1) else Whole(s) }

  function Fraction(s: string): string { if HasPoint(s) then s[Whole(s) + 1..MantissaEnd(s)] else "" }

  /** All digits of the text, without the point. */
  function AllDigits(s: string): string { s[SignEnd(s, 0)..Whole(s)] + Fraction(s) }

  /** There is a digit, and no second point right after the digits. */
  predicate MantissaOk(s: string) { AllDigits(s) != "" && !(HasPoint(s) && CharIn(s, MantissaEnd(s), {'.'})) }

  predicate HasExponent(s: string) { CharIn(s, MantissaEnd(s), {'e', 'E'}) }

  function Vals(s: string): seq<int> { seq(|s|, i requires 0 <= i < |s| => s[i] as int - '0' as int) }

  /** The integer that decimal digits spell. */
  function Dec(ds: seq<int>): int {
    if ds == [] then 0 else Dec(ds[..|ds| - 1]) * 10 + ds[|ds| - 1]
  }

  /** Where the digits of an integer written at q start: behind spaces and a sign. */
  function IntAt(s: string, q: nat): (at: nat)
    requires q <= |s|
    ensures q <= at <= |s|
  {
    SignEnd(s, SpaceEnd(s, q))
  }

  function IntEnd(s: string, q: nat): (end: nat)
    requires q <= |s|
    ensures IntAt(s, q) <= end <= |s|
  {
    RunEnd(s, IntAt(s, q))
  }

  function IntValue(s: string, q: nat): int
    requires q <= |s|
  {
    var n := Dec(Vals(s[IntAt(s, q)..IntEnd(s, q)]));
    if CharIn(s, SpaceEnd(s, q), {'-'}) then -n else n
  }

  predicate ExponentOk(s: string) {
    HasExponent(s) ==> IntEnd(s, MantissaEnd(s) + 1) > IntAt(s, MantissaEnd(s) + 1)
  }

  predicate SyntaxOk(s: string) { MantissaOk(s) && ExponentOk(s) }

  function Exponent(s: string): int
    requires ExponentOk(s)
  {
    if HasExponent(s) then IntValue(s, MantissaEnd(s) + 1) else 0
  }

  function TextEnd(s: string): nat
    requires ExponentOk(s)
  {
    if HasExponent(s) then IntEnd(s, MantissaEnd(s) + 1) else MantissaEnd(s)
  }

  const MAX_EXPONENT := 1073741823

  /** The text is its digits, read as one integer, in units of 10^-Scale. */
  function Scale(s: string): int
    requires ExponentOk(s)
  {
    |Fraction(s)| - Exponent(s)
  }

  // ---- Decimal digits ----

  predicate Decimals(ds: seq<int>, n: nat) { n <= |ds| && forall i :: 0 <= i < n ==> 0 <= ds[i] <= 9 }

  lemma {:induction false} DecSnoc(ds: seq<int>, d: int)
    ensures Dec(ds + [d]) == Dec(ds) * 10 + d
  {
    assert (ds + [d])[..|ds|] == ds;
  }

  lemma {:induction false} DecConcat(a: seq<int>, b: seq<int>)
    ensures Dec(a + b) == Dec(a) * Pow10(|b|) + Dec(b)
    decreases |b|
  {
    if b == [] {
      assert a + b == a;
    } else {
      var n := |b| - 1;
      DecConcat(a, b[..n]);
      assert a + b == (a + b[..n]) + [b[n]];
      DecSnoc(a + b[..n], b[n]);
      assert Dec(a) * Pow10(n) * 10 == Dec(a) * (10 * Pow10(n));
    }
  }

  lemma {:induction false} DecZeros(zs: seq<int>)
    requires forall i :: 0 <= i < |zs| ==> zs[i] == 0
    ensures Dec(zs) == 0
    decreases |zs|
  {
    if zs != [] { DecZeros(zs[..|zs| - 1]); }
  }

  /** Zeros in front do not count, zeros behind multiply by ten. */
  lemma {:induction false} DecPadded(front: seq<int>, ds: seq<int>, back: seq<int>)
    requires forall i :: 0 <= i < |front| ==> front[i] == 0
    requires forall i :: 0 <= i < |back| ==> back[i] == 0
    ensures Dec(front + ds + back) == Dec(ds) * Pow10(|back|)
  {
    DecZeros(front);
    DecZeros(back);
    DecConcat(front, ds);
    DecConcat(front + ds, back);
  }

  lemma {:induction false} DecFour(ds: seq<int>, a: int, b: int, c: int, d: int)
    ensures Dec(ds + [a, b, c, d]) == Dec(ds) * 10000 + (((a * 10 + b) * 10 + c) * 10 + d)
  {
    DecSnoc(ds, a);
    DecSnoc(ds + [a], b);
    DecSnoc(ds + [a] + [b], c);
    DecSnoc(ds + [a] + [b] + [c], d);
    assert ds + [a] + [b] + [c] + [d] == ds + [a, b, c, d];
  }

  lemma {:induction false} ValsConcat(a: string, b: string)
    ensures Vals(a + b) == Vals(a) + Vals(b)
  {
  }

  // ---- Scanning the digits ----

  /** The scan stands at cp, before or behind the point. */
  predicate At(s: string, cp: nat, point: bool) {
    if point then HasPoint(s) && Whole(s) + 1 <= cp <= MantissaEnd(s) else SignEnd(s, 0) <= cp <= Whole(s)
  }

  function Seen(s: string, cp: nat, point: bool): string
    requires At(s, cp, point)
  {
    if point then s[SignEnd(s, 0)..Whole(s)] + s[Whole(s) + 1..cp] else s[SignEnd(s, 0)..cp]
  }

  lemma {:induction false} SeenDigit(s: string, cp: nat, point: bool)
    requires At(s, cp, point) && cp < |s| && IsDigit(s[cp])
    ensures At(s, cp + 1, point) && Seen(s, cp + 1, point) == Seen(s, cp, point) + [s[cp]]
  {
  }

  lemma {:induction false} SeenPoint(s: string, cp: nat, point: bool)
    requires At(s, cp, point) && cp < |s| && s[cp] == '.'
    ensures !point ==> At(s, cp + 1, true) && Seen(s, cp + 1, true) == Seen(s, cp, false)
    ensures point ==> !MantissaOk(s)
  {
    if !point {
      assert cp == Whole(s);
      assert Seen(s, cp + 1, true) == Seen(s, cp, false) + s[Whole(s) + 1..cp + 1];
    } else {
      assert cp == MantissaEnd(s);
    }
  }

  lemma {:induction false} SeenAll(s: string, cp: nat, point: bool)
    requires At(s, cp, point) && (cp == |s| || (!IsDigit(s[cp]) && s[cp] != '.')) && Seen(s, cp, point) != ""
    ensures cp == MantissaEnd(s) && Seen(s, cp, point) == AllDigits(s) && MantissaOk(s)
  {
    if !point { assert cp == Whole(s) && !HasPoint(s); }
  }

  /** The position behind the sign and a leading point; the digits must start there. */
  lemma {:induction false} ScanStarts(s: string)
    ensures var p := SignEnd(s, 0);
            var point := CharIn(s, p, {'.'});
            var cp := if point then p + 1 else p;
            At(s, cp, point) && Seen(s, cp, point) == "" && (!(cp < |s| && IsDigit(s[cp])) ==> AllDigits(s) == "")
  {
    var p := SignEnd(s, 0);
    if CharIn(s, p, {'.'}) {
      assert Whole(s) == p && HasPoint(s);
    } else if !(p < |s| && IsDigit(s[p])) {
      assert Whole(s) == p && !HasPoint(s);
    }
  }

  /** The digits of the mantissa, between four zeros in front and three behind. */
  ghost predicate Padded(dec: seq<int>, ds: seq<int>) {
    |dec| >= |ds| + 7 && (forall j :: 0 <= j < 4 ==> dec[j] == 0) && dec[4..4 + |ds|] == ds &&
    forall j :: 4 + |ds| <= j < |ds| + 7 ==> dec[j] == 0
  }

  /** What the scan keeps: the digits seen so far are in the buffer, counted on their side of the point. */
  ghost predicate Scanned(s: string, cp: nat, point: bool, count: nat, dweight: int, dscale: int, dec: seq<int>) {
    At(s, cp, point) && count == |Seen(s, cp, point)| && |dec| >= count + |s| - cp + 8 &&
    dweight == (if point then Whole(s) else cp) - SignEnd(s, 0) - 1 && dscale == (if point then cp - Whole(s) - 1 else 0) &&
    dec[4..4 + count] == Vals(Seen(s, cp, point)) && forall j :: 0 <= j < |dec| && !(4 <= j < 4 + count) ==> dec[j] == 0
  }

  lemma {:induction false} ScannedFirst(s: string, cp: nat, point: bool, dec: seq<int>)
    requires At(s, cp, point) && Seen(s, cp, point) == "" && cp <= |s| && |dec| >= |s| - cp + 8
    requires forall j :: 0 <= j < |dec| ==> dec[j] == 0
    ensures Scanned(s, cp, point, 0, -1, 0, dec)
  {
    assert dec[4..4] == Vals("");
  }

  lemma {:induction false} ScannedDigit(s: string, cp: nat, point: bool, count: nat, dweight: int, dscale: int, dec: seq<int>)
    requires Scanned(s, cp, point, count, dweight, dscale, dec) && cp < |s| && IsDigit(s[cp])
    ensures 4 + count < |dec|
    ensures Scanned(s, cp + 1, point, count + 1, if point then dweight else dweight + 1, if point then dscale + 1 else dscale,
                    dec[4 + count := s[cp] as int - '0' as int])
  {
    SeenDigit(s, cp, point);
    var d := s[cp] as int - '0' as int;
    var dec' := dec[4 + count := d];
    ValsConcat(Seen(s, cp, point), [s[cp]]);
    assert dec'[4..4 + count + 1] == dec[4..4 + count] + [d];
    assert Vals([s[cp]]) == [d];
  }

  lemma {:induction false} ScannedPoint(s: string, cp: nat, count: nat, dweight: int, dscale: int, dec: seq<int>)
    requires Scanned(s, cp, false, count, dweight, dscale, dec) && cp < |s| && s[cp] == '.'
    ensures Scanned(s, cp + 1, true, count, dweight, dscale, dec)
  {
    SeenPoint(s, cp, false);
    assert cp == Whole(s);
  }

  lemma {:induction false} SecondPoint(s: string, cp: nat, count: nat, dweight: int, dscale: int, dec: seq<int>)
    requires Scanned(s, cp, true, count, dweight, dscale, dec) && cp < |s| && s[cp] == '.'
    ensures !MantissaOk(s)
  {
    SeenPoint(s, cp, true);
  }

  lemma {:induction false} ScannedAll(s: string, cp: nat, point: bool, count: nat, dweight: int, dscale: int, dec: seq<int>)
    requires Scanned(s, cp, point, count, dweight, dscale, dec) && count > 0 && cp <= |s| && (cp == |s| || (!IsDigit(s[cp]) && s[cp] != '.'))
    ensures MantissaOk(s) && cp == MantissaEnd(s) && count == |AllDigits(s)| && dweight == Whole(s) - SignEnd(s, 0) - 1 && dscale == |Fraction(s)|
    ensures Padded(dec, Vals(AllDigits(s)))
  {
    SeenAll(s, cp, point);
    if !point { assert cp == Whole(s) && !HasPoint(s); }
  }

  datatype Mantissa = Mantissa(cp: nat, count: nat, dweight: int, dscale: int)

  method ScanMantissa(s: string) returns (r: Result<Mantissa>, dec: array<int>)
    ensures fresh(dec)
    ensures r.Err? <==> !MantissaOk(s)
    ensures r.Err? ==> r.error == BadSyntax
    ensures r.Ok? ==> r.value == Mantissa(MantissaEnd(s), |AllDigits(s)|, Whole(s) - SignEnd(s, 0) - 1, |Fraction(s)|)
    ensures r.Ok? ==> Padded(dec[..], Vals(AllDigits(s)))
  {
    ScanStarts(s);
    var cp := SignEnd(s, 0);
    var point := CharIn(s, cp, {'.'});
    if point { cp := cp + 1; }
    dec := new int[0];
    if !(cp < |s| && IsDigit(s[cp])) { return Err(BadSyntax), dec; }
    dec := new int[|s| - cp + 8](_ => 0);
    ScannedFirst(s, cp, point, dec[..]);
    hide *;
    r := ScanDigits(s, cp, point, dec);
  }

  method ScanDigits(s: string, start: nat, point0: bool, dec: array<int>) returns (r: Result<Mantissa>)
    requires start < |s| && IsDigit(s[start]) && Scanned(s, start, point0, 0, -1, 0, dec[..])
    modifies dec
    ensures r.Err? <==> !MantissaOk(s)
    ensures r.Err? ==> r.error == BadSyntax
    ensures r.Ok? ==> r.value == Mantissa(MantissaEnd(s), |AllDigits(s)|, Whole(s) - SignEnd(s, 0) - 1, |Fraction(s)|)
    ensures r.Ok? ==> Padded(dec[..], Vals(AllDigits(s)))
  {
    hide *;
    var cp, point, count, dweight, dscale := start, point0, 0, -1, 0;
    while cp < |s|
      invariant start <= cp <= |s| && 0 <= count && (cp == start || count > 0)
      invariant Scanned(s, cp, point, count, dweight, dscale, dec[..])
    {
      if IsDigit(s[cp]) {
        PutDigit(s, cp, point, count, dweight, dscale, dec);
        if point { dscale := dscale + 1; } else { dweight := dweight + 1; }
        cp, count := cp + 1, count + 1;
      } else if s[cp] == '.' {
        if point {
          SecondPoint(s, cp, count, dweight, dscale, dec[..]);
          return Err(BadSyntax);
        }
        ScannedPoint(s, cp, count, dweight, dscale, dec[..]);
        cp, point := cp + 1, true;
      } else {
        break;
      }
    }
    ScannedAll(s, cp, point, count, dweight, dscale, dec[..]);
    r := Ok(Mantissa(cp, count, dweight, dscale));
  }

  method PutDigit(s: string, cp: nat, point: bool, count: nat, ghost dweight: int, ghost dscale: int, dec: array<int>)
    requires Scanned(s, cp, point, count, dweight, dscale, dec[..]) && cp < |s| && IsDigit(s[cp])
    modifies dec
    ensures Scanned(s, cp + 1, point, count + 1, if point then dweight else dweight + 1, if point then dscale + 1 else dscale, dec[..])
  {
    ghost var was := dec[..];
    ScannedDigit(s, cp, point, count, dweight, dscale, was);
    hide *;
    var d := s[cp] as int - '0' as int;
    dec[4 + count] := d;
    assert dec[..] == was[4 + count := d];
  }

  // ---- The exponent ----

  /** Reads spaces, a sign and decimal digits from q on; without digits the end is q itself. */
  method ReadInteger(s: string, q: nat) returns (value: int, end: nat)
    requires q <= |s|
    ensures if IntEnd(s, q) == IntAt(s, q) then end == q else end == IntEnd(s, q) && end > q && value == IntValue(s, q)
  {
    var i := q;
    while i < |s| && IsSpace(s[i])
      invariant q <= i <= |s| && SpaceEnd(s, i) == SpaceEnd(s, q)
    {
      i := i + 1;
    }
    var negative := CharIn(s, i, {'-'});
    if CharIn(s, i, {'+', '-'}) { i := i + 1; }
    var at := i;
    value, i := ReadDigits(s, at);
    end := if i == at then q else i;
    if negative { value := -value; }
  }

  method ReadDigits(s: string, at: nat) returns (value: int, i: nat)
    requires at <= |s|
    ensures i == RunEnd(s, at) && value == Dec(Vals(s[at..i]))
  {
    i, value := at, 0;
    while i < |s| && IsDigit(s[i])
      invariant at <= i <= |s| && RunEnd(s, i) == RunEnd(s, at) && value == Dec(Vals(s[at..i]))
    {
      NextValue(s, at, i);
      value := value * 10 + (s[i] as int - '0' as int);
      i := i + 1;
    }
  }

  lemma {:induction false} NextValue(s: string, at: nat, i: nat)
    requires at <= i < |s|
    ensures Dec(Vals(s[at..i + 1])) == Dec(Vals(s[at..i])) * 10 + (s[i] as int - '0' as int)
  {
    assert s[at..i + 1] == s[at..i] + [s[i]];
    ValsConcat(s[at..i], [s[i]]);
    DecSnoc(Vals(s[at..i]), s[i] as int - '0' as int);
    assert Vals([s[i]]) == [s[i] as int - '0' as int];
  }

  // ---- Grouping ----

  /** Groups 4 * n decimal digits from position from on into n base-10000 digits. */
  method Group(dec: array<int>, from: nat, n: nat, buf: array<int>, ghost text: string)
    requires from + 4 * n <= |text| + 7 && buf != dec && buf.Length == n + 1
    requires Padded(dec[..], Vals(text)) && forall i :: 0 <= i < |text| ==> IsDigit(text[i])
    modifies buf
    ensures buf[0] == old(buf[0]) && Digits(buf[1..]) && Mag(buf[1..]) == Dec(dec[from..from + 4 * n])
  {
    hide *;
    ghost var all, end := dec[..], from + 4 * n;
    PaddedLength(all, text);
    DecimalsPadded(all, text);
    GroupNone(all, from);
    var i, k := from, 0;
    assert buf[1..1] == [];
    while k < n
      invariant 0 <= k <= n && i == from + 4 * k && buf[0] == old(buf[0])
      invariant Grouped(buf[1..1 + k], all, from, i)
    {
      ghost var done := buf[1..1 + k];
      var d := ((dec[i] * 10 + dec[i + 1]) * 10 + dec[i + 2]) * 10 + dec[i + 3];
      GroupStep(done, all, from, i, |text| + 7, d);
      buf[1 + k] := d;
      assert buf[1..1 + k + 1] == done + [d];
      i, k := i + 4, k + 1;
    }
    assert buf[1..1 + n] == buf[1..];
    assert dec[from..end] == all[from..end];
    GroupedIs(buf[1..], all, from, end);
  }

  /** The base-10000 digits spell what the decimal digits from..to spell. */
  ghost predicate Grouped(ds: seq<int>, dec: seq<int>, from: nat, to: nat) {
    from <= to <= |dec| && Digits(ds) && Mag(ds) == Dec(dec[from..to])
  }

  lemma {:induction false} GroupNone(dec: seq<int>, from: nat)
    requires from <= |dec|
    ensures Grouped([], dec, from, from)
  {
  }

  lemma {:induction false} GroupedIs(ds: seq<int>, dec: seq<int>, from: nat, to: nat)
    requires Grouped(ds, dec, from, to)
    ensures from <= to <= |dec| && Digits(ds) && Mag(ds) == Dec(dec[from..to])
  {
  }

  lemma {:induction false} GroupStep(ds: seq<int>, dec: seq<int>, from: nat, i: nat, n: nat, d: int)
    requires Grouped(ds, dec, from, i) && i + 4 <= n && Decimals(dec, n)
    requires d == ((dec[i] * 10 + dec[i + 1]) * 10 + dec[i + 2]) * 10 + dec[i + 3]
    ensures Grouped(ds + [d], dec, from, i + 4)
  {
    FourDigits(dec, i, n);
    MagSlice(ds, d, ds + [d]);
    DecFour(dec[from..i], dec[i], dec[i + 1], dec[i + 2], dec[i + 3]);
    assert dec[from..i + 4] == dec[from..i] + [dec[i], dec[i + 1], dec[i + 2], dec[i + 3]];
  }

  lemma {:induction false} FourDigits(dec: seq<int>, i: nat, n: nat)
    requires i + 4 <= n <= |dec| && Decimals(dec, n)
    ensures 0 <= ((dec[i] * 10 + dec[i + 1]) * 10 + dec[i + 2]) * 10 + dec[i + 3] < 10000
  {
  }

  /** The weight of the first base-10000 digit when e decimal digits stand before the point. */
  function GroupWeight(e: int): int {
    if e >= 1 then (e - 1 + 1 + 4 - 1) / 4 - 1 else -((-(e - 1) - 1) / 4 + 1)
  }

  /** Zeros to insert in front so that the groups of four meet at the point. */
  lemma {:induction false} GroupOffset(e: int)
    ensures 0 <= (GroupWeight(e) + 1) * 4 - e <= 3
  {
  }

  /** The grouped digits stand for the decimal digits at their place. */
  lemma {:induction false} GroupsAreExact(digits: seq<int>, weight: int, e: int, offset: nat, ds: seq<int>, dec: seq<int>)
    requires weight == GroupWeight(e) && offset == (weight + 1) * 4 - e && |digits| == (|ds| + offset + 3) / 4
    requires Padded(dec, ds) && Mag(digits) == Dec(dec[4 - offset..4 - offset + 4 * |digits|])
    ensures Exactly(digits, weight, |ds| - e, Dec(ds))
  {
    GroupOffset(e);
    var n := |digits|;
    var back := 4 * n - offset - |ds|;
    assert dec[4 - offset..4 - offset + 4 * n] == dec[4 - offset..4] + dec[4..4 + |ds|] + dec[4 + |ds|..4 + |ds| + back];
    DecPadded(dec[4 - offset..4], ds, dec[4 + |ds|..4 + |ds| + back]);
    assert Shift(n, weight, |ds| - e) == back;
  }

  lemma {:induction false} DecimalsPadded(dec: seq<int>, text: string)
    requires Padded(dec, Vals(text)) && (forall i :: 0 <= i < |text| ==> IsDigit(text[i]))
    ensures Decimals(dec, |text| + 7)
  {
    forall i | 0 <= i < |text| + 7 ensures 0 <= dec[i] <= 9 {
      if 4 <= i < 4 + |text| { assert dec[i] == dec[4..4 + |text|][i - 4] == Vals(text)[i - 4]; }
    }
  }

  lemma {:induction false} AllAreDigits(s: string)
    ensures forall i :: 0 <= i < |AllDigits(s)| ==> IsDigit(AllDigits(s)[i])
    ensures SignEnd(s, 0) <= Whole(s) && |AllDigits(s)| == Whole(s) - SignEnd(s, 0) + |Fraction(s)| && |AllDigits(s)| <= |s| && |Fraction(s)| <= |s|
  {
  }

  /** A decimal text, with or without point and exponent, read into a stripped variable that stands for
      exactly the number the text spells. */
  method SetVarFromStr(s: string) returns (r: Result<nat>, v: NumericVar)
    requires |s| + 8 <= 0x3fff_ffff
    ensures fresh(v) && fresh(v.buf)
    ensures r == Err(BadSyntax) <==> !SyntaxOk(s)
    ensures r == Err(Overflow) <==> SyntaxOk(s) && !(-MAX_EXPONENT < Exponent(s) < MAX_EXPONENT)
    ensures r.Ok? ==> SyntaxOk(s) && r.value == TextEnd(s) && v.Valid() && Stripped(v.Contents(), v.weight)
    ensures r.Ok? ==> Exactly(v.Contents(), v.weight, Scale(s), Dec(Vals(AllDigits(s))))
    ensures r.Ok? ==> v.dscale == if Scale(s) < 0 then 0 else Scale(s)
    ensures r.Ok? ==> v.sign == if CharIn(s, 0, {'-'}) && v.Contents() != [] then Neg else Pos
  {
    hide *;
    SyntaxIs(s);
    v := new NumericVar(0);
    var sign := if CharIn(s, 0, {'-'}) then Neg else Pos;
    var m, dec := ScanMantissa(s);
    if m.Err? { return Err(BadSyntax), v; }
    var exponent, cp := ReadExponent(s, m.value.cp);
    if cp.Err? { return Err(cp.error), v; }
    var dweight, dscale := m.value.dweight + exponent, m.value.dscale - exponent;
    AllAreDigits(s);
    ScaleIs(s);
    ghost var text := AllDigits(s);
    v := Convert(dec, m.value.count, dweight, text);
    v.sign := sign;
    v.dscale := if dscale < 0 then 0 else dscale;
    ContentsStay(v);
    ghost var all, w := v.buf[v.first..v.first + v.ndigits], v.weight;
    v.Strip();
    NoContents(v);
    StillExact(v.Contents(), v.weight, all, w, dscale, Dec(Vals(text)));
    r := Ok(cp.value);
  }

  lemma ContentsStay(v: NumericVar)
    requires v.first + v.ndigits <= v.buf.Length && Digits(v.buf[v.first..v.first + v.ndigits])
    ensures v.Valid() && v.Contents() == v.buf[v.first..v.first + v.ndigits]
  {
  }

  lemma NoContents(v: NumericVar)
    requires v.Valid()
    ensures v.first + v.ndigits <= v.buf.Length && (v.Contents() == [] <==> v.ndigits == 0)
  {
  }

  lemma {:induction false} SyntaxIs(s: string)
    ensures SyntaxOk(s) <==> MantissaOk(s) && ExponentOk(s)
  {
  }

  lemma {:induction false} ScaleIs(s: string)
    requires SyntaxOk(s)
    ensures ExponentOk(s) && Scale(s) == |Fraction(s)| - Exponent(s)
    ensures -MAX_EXPONENT < Exponent(s) < MAX_EXPONENT ==> -1073741823 < Exponent(s) < 1073741823
  {
  }

  /** The exponent behind the mantissa, zero when there is none. */
  method ReadExponent(s: string, cp: nat) returns (exponent: int, end: Result<nat>)
    requires MantissaOk(s) && cp == MantissaEnd(s)
    ensures end == Err(BadSyntax) <==> !ExponentOk(s)
    ensures end == Err(Overflow) <==> ExponentOk(s) && !(-MAX_EXPONENT < Exponent(s) < MAX_EXPONENT)
    ensures end.Ok? ==> ExponentOk(s) && exponent == Exponent(s) && end == Ok(TextEnd(s))
  {
    exponent := 0;
    if !CharIn(s, cp, {'e', 'E'}) { return 0, Ok(cp); }
    var stop: nat;
    exponent, stop := ReadInteger(s, cp + 1);
    if stop == cp + 1 { return exponent, Err(BadSyntax); }
    if exponent >= MAX_EXPONENT || exponent <= -MAX_EXPONENT { return exponent, Err(Overflow); }
    end := Ok(stop);
  }

  lemma {:induction false} StillExact(ds: seq<int>, w: int, all: seq<int>, w': int, scale: int, a: int)
    requires SameValue(ds, w, all, w') && Exactly(all, w', scale, a)
    ensures Exactly(ds, w, scale, a)
  {
  }

  /** From single decimal digits to base-10000 digits with their weight. */
  method Convert(dec: array<int>, count: nat, dweight: int, ghost text: string) returns (v: NumericVar)
    requires Padded(dec[..], Vals(text)) && count == |text| && forall i :: 0 <= i < |text| ==> IsDigit(text[i])
    requires -0x7fff_0000 <= dweight <= 0x7fff_fff4 && count <= 0x3fff_ffff
    ensures fresh(v) && fresh(v.buf) && v.first + v.ndigits <= v.buf.Length && Digits(v.buf[v.first..v.first + v.ndigits])
    ensures Exactly(v.buf[v.first..v.first + v.ndigits], v.weight, |text| - (dweight + 1), Dec(Vals(text)))
  {
    hide *;
    var weight := if dweight >= 0 then (dweight + 1 + 4 - 1) / 4 - 1 else -((-dweight - 1) / 4 + 1);
    var offset := (weight + 1) * 4 - (dweight + 1);
    GroupOffset(dweight + 1);
    GroupWeightIs(dweight);
    PaddedLength(dec[..], text);
    assert -0x8000_0000 <= (weight + 1) * 4 < 0x8000_0000;
    var n := (count + offset + 4 - 1) / 4;
    v := new NumericVar(n);
    v.weight := weight;
    Group(dec, 4 - offset, n, v.buf, text);
    ghost var from := 4 - offset;
    assert dec[from..from + 4 * n] == dec[..][from..from + 4 * n];
    GroupsAreExact(v.buf[1..], weight, dweight + 1, offset, Vals(text), dec[..]);
    assert v.buf[1..1 + n] == v.buf[1..];
  }

  lemma {:induction false} PaddedLength(dec: seq<int>, text: string)
    requires Padded(dec, Vals(text))
    ensures |Vals(text)| == |text| && |dec| >= |text| + 7
  {
  }

  lemma {:induction false} GroupWeightIs(dweight: int)
    ensures GroupWeight(dweight + 1) == if dweight >= 0 then (dweight + 1 + 4 - 1) / 4 - 1 else -((-dweight - 1) / 4 + 1)
  {
  }
}
