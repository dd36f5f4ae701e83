/** Reading a money text: spaces, one sign before or after a currency symbol, digits with thousands
    separators anywhere among them, and rounding half away from zero to four decimals. A character
    stands for one byte; A0, and C2 followed by A0, are the two encodings of the no-break space. */
module MoneyScan {
  import opened Decimal
  import opened Machine
  import opened MoneyPrint
  import T = NumericText

  // ---- The shape of a text ----

  /** The byte length of a space at i: one, two for the UTF-8 no-break space, zero for no space. */
  function SpaceAt(s: string, i: nat): nat {
    if i < |s| && (T.IsSpace(s[i]) || s[i] == '\U{00A0}') then 1
    else if i + 1 < |s| && s[i] == '\U{00C2}' && s[i + 1] == '\U{00A0}' then 2
    else 0
  }

  function SkipSpaces(s: string, i: nat): (e: nat)
    requires i <= |s|
    ensures i <= e <= |s| && SpaceAt(s, e) == 0
    decreases |s| - i
  {
    if SpaceAt(s, i) > 0 then SkipSpaces(s, i + SpaceAt(s, i)) else i
  }

  predicate IsFigure(c: char) { '0' <= c <= '9' || c == ',' }

  /** The end of the longest run of digits and commas. */
  function RunEnd(s: string, i: nat): (e: nat)
    requires i <= |s|
    ensures i <= e <= |s| && (e == |s| || !IsFigure(s[e])) && forall j :: i <= j < e ==> IsFigure(s[j])
    decreases |s| - i
  {
    if i < |s| && IsFigure(s[i]) then RunEnd(s, i + 1) else i
  }

  /** The digits of a run, without the commas. */
  function Figures(s: string): seq<int> {
    if s == "" then []
    else Figures(s[..|s| - 1]) + (if '0' <= s[|s| - 1] <= '9' then [s[|s| - 1] as int - '0' as int] else [])
  }

  const SYMBOLS: seq<string> := [
    "$", "\U{00C2}\U{00A2}", "\U{00C2}\U{00A4}", "\U{00C2}\U{00A3}", "\U{00C2}\U{00A5}",
    "\U{00E0}\U{00A7}\U{00B2}", "\U{00E0}\U{00A7}\U{00B3}", "\U{00E0}\U{00B8}\U{00BF}", "\U{00E1}\U{009F}\U{009B}",
    "\U{00E2}\U{0082}\U{00A0}", "\U{00E2}\U{0082}\U{00A1}", "\U{00E2}\U{0082}\U{00A2}", "\U{00E2}\U{0082}\U{00A3}",
    "\U{00E2}\U{0082}\U{00A4}", "\U{00E2}\U{0082}\U{00A5}", "\U{00E2}\U{0082}\U{00A6}", "\U{00E2}\U{0082}\U{00A7}",
    "\U{00E2}\U{0082}\U{00A8}", "\U{00E2}\U{0082}\U{00A9}", "\U{00E2}\U{0082}\U{00AA}", "\U{00E2}\U{0082}\U{00AB}",
    "\U{00E2}\U{0082}\U{00AC}", "\U{00E2}\U{0082}\U{00AD}", "\U{00E2}\U{0082}\U{00AE}", "\U{00E2}\U{0082}\U{00AF}",
    "\U{00E2}\U{0082}\U{00B0}", "\U{00E2}\U{0082}\U{00B1}", "\U{00EF}\U{00B7}\U{00BC}", "\U{00EF}\U{00B9}\U{00A9}",
    "\U{00EF}\U{00BC}\U{0084}", "\U{00EF}\U{00BF}\U{00A0}", "\U{00EF}\U{00BF}\U{00A1}", "\U{00EF}\U{00BF}\U{00A5}",
    "\U{00EF}\U{00BF}\U{00A6}"
  ]

  /** The length of the first symbol from index k on that s starts with. */
  function SymbolFrom(s: string, k: nat): (n: nat)
    ensures n <= |s|
    decreases |SYMBOLS| - k
  {
    if k >= |SYMBOLS| then 0 else if SYMBOLS[k] <= s then |SYMBOLS[k]| else SymbolFrom(s, k + 1)
  }

  predicate Has(s: string, i: nat, cs: set<char>) { i < |s| && s[i] in cs }

  function AfterSign(s: string, i: nat): nat { if Has(s, i, {'+', '-'}) then i + 1 else i }

  function AfterSymbol(s: string, i: nat): (e: nat)
    requires i <= |s|
    ensures i <= e <= |s|
  {
    if SymbolFrom(s[i..], 0) > 0 then i + SymbolFrom(s[i..], 0) else if Has(s, i, {'\\'}) then i + 1 else i
  }

  /** The positions a text divides into. */
  function Start(s: string): (e: nat) ensures e <= |s| { SkipSpaces(s, 0) }
  function Money(s: string): (e: nat) ensures e <= |s| { SkipSpaces(s, AfterSymbol(s, SkipSpaces(s, AfterSign(s, Start(s))))) }
  function Number(s: string): (e: nat) ensures e <= |s| { SkipSpaces(s, AfterSign(s, Money(s))) }
  function Whole(s: string): (e: nat) ensures e <= |s| { RunEnd(s, Number(s)) }
  predicate Point(s: string) { Has(s, Whole(s), {'.'}) }
  function NumberEnd(s: string): (e: nat) ensures Whole(s) <= e <= |s| { if Point(s) then RunEnd(s, Whole(s) + 1) else Whole(s) }

  /** A no-break space in front of anything but the end of the text. */
  predicate LeadingNbsp(s: string) {
    Start(s) < |s| && exists i :: 0 <= i < Start(s) && (s[i] == '\U{00A0}' || (s[i] == '\U{00C2}' && s[i + 1] == '\U{00A0}'))
  }

  predicate NumberStarts(s: string, i: nat) { i >= |s| || '0' <= s[i] <= '9' || s[i] in {'.', '-', ',', '+'} }

  predicate TextOk(s: string) {
    !LeadingNbsp(s) && NumberStarts(s, Money(s)) && !(Has(s, Start(s), {'+', '-'}) && Has(s, Money(s), {'+', '-'}))
  }

  predicate Negative(s: string) { Has(s, Start(s), {'-'}) || Has(s, Money(s), {'-'}) }

  /** The digits before and behind the point. */
  function Integral(s: string): seq<int> { Figures(s[Number(s)..Whole(s)]) }
  function Fraction(s: string): seq<int> { if Point(s) then Figures(s[Whole(s) + 1..NumberEnd(s)]) else [] }

  function Signed(negative: bool, n: int): int { if negative then -n else n }

  // ---- Rounding to four decimals ----

  /** The decimal number whose digits are ds, with the last k of them behind the point, in
      ten-thousandths, rounded half up. */
  function Rounded4(ds: seq<int>, k: nat): int { (2 * (T.Dec(ds) * 10000) + Pow10(k)) / (2 * Pow10(k)) }

  /** The fraction as the scanner adds it up: four digits, and one more when the fifth is at least five. */
  function Fraction4(ds: seq<int>): int {
    if |ds| <= 4 then T.Dec(ds) * Pow10(4 - |ds|) else T.Dec(ds[..4]) + (if ds[4] >= 5 then 1 else 0)
  }

  predicate Decimals(ds: seq<int>) { forall i :: 0 <= i < |ds| ==> 0 <= ds[i] <= 9 }

  lemma {:induction false} DecBound(ds: seq<int>)
    requires Decimals(ds)
    ensures 0 <= T.Dec(ds) < Pow10(|ds|)
    decreases |ds|
  {
    if ds != [] { DecBound(ds[..|ds| - 1]); }
  }

  lemma {:induction false} HalfAtFifth(rest: seq<int>)
    requires Decimals(rest) && rest != []
    ensures rest[0] >= 5 <==> 2 * T.Dec(rest) >= Pow10(|rest|)
  {
    assert rest == [rest[0]] + rest[1..];
    T.DecConcat([rest[0]], rest[1..]);
    assert T.Dec([rest[0]]) == rest[0] by { assert [rest[0]][..0] == []; }
    DecBound(rest[1..]);
    var p := Pow10(|rest| - 1);
    assert Pow10(|rest|) == 10 * p;
    if rest[0] >= 5 { Below(5, rest[0], p); } else { Below(rest[0] + 1, 5, p); Distribute(rest[0], p); }
  }

  lemma {:induction false} FractionRounds(ds: seq<int>)
    requires Decimals(ds)
    ensures Rounded4(ds, |ds|) == Fraction4(ds)
  {
    hide Decimals, T.Dec, Pow10;
    if |ds| <= 4 { FewRound(ds); } else { ManyRound(ds); }
  }

  lemma {:induction false} FewRound(ds: seq<int>)
    requires |ds| <= 4
    ensures Rounded4(ds, |ds|) == T.Dec(ds) * Pow10(4 - |ds|)
  {
    hide T.Dec, Pow10;
    var n := |ds|;
    var a, p := T.Dec(ds) * Pow10(4 - n), Pow10(n);
    Pow10Four();
    Pow10Add(4 - n, n);
    Times(T.Dec(ds), Pow10(4 - n), p);
    Halves(a, p);
    QuotientIs(2 * (T.Dec(ds) * 10000) + p, 2 * p, a);
  }

  lemma {:induction false} Halves(a: int, p: int)
    ensures a * (2 * p) == 2 * (a * p) && (a + 1) * (2 * p) == 2 * (a * p) + 2 * p
  {
  }

  lemma {:induction false} ManyRound(ds: seq<int>)
    requires Decimals(ds) && |ds| > 4
    ensures Rounded4(ds, |ds|) == T.Dec(ds[..4]) + (if ds[4] >= 5 then 1 else 0)
  {
    hide T.Dec, Pow10;
    var head, rest := ds[..4], ds[4..];
    assert ds == head + rest && Decimals(rest);
    T.DecConcat(head, rest);
    DecBound(rest);
    HalfAtFifth(rest);
    Pow10Four();
    Pow10Add(4, |ds| - 4);
    RoundTail(T.Dec(head), T.Dec(rest), Pow10(|ds| - 4), rest[0] >= 5);
  }

  /** Rounding the whole number is rounding its fraction. */
  lemma {:induction false} WholeRounds(whole: seq<int>, frac: seq<int>)
    requires Decimals(whole) && Decimals(frac)
    ensures Rounded4(whole + frac, |frac|) == T.Dec(whole) * 10000 + Fraction4(frac)
  {
    hide *;
    FractionRounds(frac);
    T.DecConcat(whole, frac);
    var i, f, p := T.Dec(whole), T.Dec(frac), Pow10(|frac|);
    var x := 2 * (f * 10000) + p;
    RoundedIs(whole + frac, |frac|);
    RoundedIs(frac, |frac|);
    Numerators(i, f, p);
    QuotientShift(i * 10000, x, 2 * p);
  }

  lemma {:induction false} RoundedIs(ds: seq<int>, k: nat)
    ensures Rounded4(ds, k) == (2 * (T.Dec(ds) * 10000) + Pow10(k)) / (2 * Pow10(k))
  {
  }

  // ---- 64-bit arithmetic ----

  datatype Error = Invalid | OutOfRange
  datatype Result = Ok(value: int) | Err(error: Error)

  /** Dividing back detects every overflow of one more digit. */
  lemma {:induction false} DigitTestExact(x: int, d: int, negative: bool)
    requires Int64(x) && 0 <= d <= 9 && (if negative then x <= 0 else x >= 0)
    ensures var t := x * 10 + (if negative then -d else d); Quot(Wrap(t), 10) == x <==> Int64(t)
  {
    var t := x * 10 + (if negative then -d else d);
    WrapIs(t);
  }

  predicate SameSign(a: int, b: int) { (a < 0) == (b < 0) }

  /** Putting the two parts together, with the sign tests that are meant to detect overflow. */
  function Assemble(negative: bool, integral: int, fraction: int): Result {
    var value := Wrap(integral * 10000);
    var result := Wrap(if negative then value - fraction else value + fraction);
    if value != 0 && (!SameSign(value, integral) || !SameSign(Wrap(value - fraction), value) || !SameSign(result, value))
    then Err(OutOfRange) else Ok(result)
  }

  /** The result a caller expects: the exact value, or an error when it does not fit. */
  function Expected(negative: bool, integral: int, fraction: int): Result {
    var exact := integral * 10000 + Signed(negative, fraction);
    if Int64(exact) then Ok(exact) else Err(OutOfRange)
  }

  const GUARD := 922337203685477

  /** The integral part times ten thousand fits, so nothing wraps before the sign tests look. */
  lemma {:induction false} AssembleExact(negative: bool, integral: int, fraction: int)
    requires -GUARD <= integral <= GUARD && 0 <= fraction <= 10000 && (if negative then integral <= 0 else integral >= 0)
    ensures Assemble(negative, integral, fraction) == Expected(negative, integral, fraction)
  {
    WrapIs(integral * 10000);
    WrapIs(integral * 10000 - fraction);
    WrapIs(integral * 10000 + fraction);
  }

  /** A wrapped product that looks as if nothing had happened. */
  predicate Slips(negative: bool, integral: int, fraction: int) {
    var m := Wrap(integral * 10000);
    m == 0 || (if negative then m < 0 && m - fraction >= -0x8000_0000_0000_0000 else m >= fraction && m + fraction <= 0x7fff_ffff_ffff_ffff)
  }

  /** Beyond that, the result is right exactly when the product modulo 2^64 does not slip through the
      sign tests. */
  lemma {:induction false} AssembleRightWhen(negative: bool, integral: int, fraction: int)
    requires Int64(integral) && 0 <= fraction <= 10000 && (if negative then integral <= 0 else integral >= 0)
    ensures Assemble(negative, integral, fraction) == Expected(negative, integral, fraction) <==>
            -GUARD <= integral <= GUARD || !Slips(negative, integral, fraction)
  {
    if -GUARD <= integral <= GUARD {
      AssembleExact(negative, integral, fraction);
    } else {
      var m := Wrap(integral * 10000);
      WrapIs(integral * 10000);
      WrapIs(m - fraction);
      WrapIs(m + fraction);
      assert !Int64(integral * 10000 + Signed(negative, fraction));
    }
  }

  // ---- Scanning ----

  method SkipMoneySpaces(s: string, i: nat) returns (e: nat)
    requires i <= |s|
    ensures e == SkipSpaces(s, i)
  {
    e := i;
    while e < |s|
      invariant i <= e <= |s| && SkipSpaces(s, e) == SkipSpaces(s, i)
    {
      if T.IsSpace(s[e]) || s[e] == '\U{00A0}' {
        e := e + 1;
      } else if e + 1 < |s| && s[e] == '\U{00C2}' && s[e + 1] == '\U{00A0}' {
        e := e + 2;
      } else {
        break;
      }
    }
  }

  method CurrencyLength(s: string) returns (n: nat)
    ensures n == SymbolFrom(s, 0)
  {
    hide SYMBOLS;
    var k := 0;
    while k < |SYMBOLS|
      invariant SymbolFrom(s, 0) == SymbolFrom(s, k)
    {
      if SYMBOLS[k] <= s { return |SYMBOLS[k]|; }
      k := k + 1;
    }
    return 0;
  }

  method FindNbsp(s: string, end: nat) returns (found: bool)
    requires end <= |s| && (end > 0 ==> s[end - 1] != '\U{00C2}')
    ensures found <==> exists i :: 0 <= i < end && (s[i] == '\U{00A0}' || (s[i] == '\U{00C2}' && s[i + 1] == '\U{00A0}'))
  {
    var i := 0;
    while i < end
      invariant 0 <= i <= end
      invariant forall j :: 0 <= j < i ==> !(s[j] == '\U{00A0}' || (s[j] == '\U{00C2}' && s[j + 1] == '\U{00A0}'))
    {
      if s[i] == '\U{00A0}' || (s[i] == '\U{00C2}' && s[i + 1] == '\U{00A0}') { return true; }
      i := i + 1;
    }
    return false;
  }

  lemma {:induction false} FiguresNext(s: string, i: nat, j: nat)
    requires i <= j < |s|
    ensures Figures(s[i..j + 1]) == Figures(s[i..j]) + (if '0' <= s[j] <= '9' then [s[j] as int - '0' as int] else [])
  {
    assert s[i..j + 1][..j - i] == s[i..j];
  }

  lemma {:induction false} FiguresAre(s: string)
    ensures Decimals(Figures(s))
    decreases |s|
  {
    if s != "" { FiguresAre(s[..|s| - 1]); }
  }

  /** More digits never make the number smaller. */
  lemma {:induction false} DecGrows(a: seq<int>, b: seq<int>)
    requires Decimals(a) && Decimals(b) && a <= b
    ensures 0 <= T.Dec(a) <= T.Dec(b)
    decreases |b|
  {
    DecBound(a);
    if a == b {
    } else {
      DecGrows(a, b[..|b| - 1]);
    }
  }

  lemma {:induction false} FiguresGrow(s: string, i: nat, j: nat)
    requires i <= j < |s|
    ensures Figures(s[i..j]) <= Figures(s[i..j + 1])
  {
    FiguresNext(s, i, j);
    hide Figures;
  }

  lemma {:induction false} FiguresPrefix(s: string, i: nat, j: nat, k: nat)
    requires i <= j <= k <= |s|
    ensures Figures(s[i..j]) <= Figures(s[i..k])
    decreases k - j
  {
    hide *;
    if j < k {
      FiguresPrefix(s, i, j, k - 1);
      FiguresGrow(s, i, k - 1);
    }
  }

  /** The number scanned so far. */
  ghost predicate Reading(s: string, from: nat, i: nat, negative: bool, x: int) {
    from <= |s| && from <= i <= RunEnd(s, from) && x == Signed(negative, T.Dec(Figures(s[from..i]))) && (if negative then x <= 0 else x >= 0)
  }

  lemma {:induction false} ReadNone(s: string, from: nat, negative: bool)
    requires from <= |s|
    ensures Reading(s, from, from, negative, 0)
  {
    assert s[from..from] == "";
  }

  lemma {:induction false} ReadComma(s: string, from: nat, i: nat, negative: bool, x: int)
    requires from <= |s| && Reading(s, from, i, negative, x) && i < |s| && s[i] == ','
    ensures Reading(s, from, i + 1, negative, x)
  {
    FiguresNext(s, from, i);
    assert Figures(s[from..i]) + [] == Figures(s[from..i]);
    assert RunEnd(s, from) > i;
  }

  lemma {:induction false} ReadDigit(s: string, from: nat, i: nat, negative: bool, x: int)
    requires from <= |s| && Reading(s, from, i, negative, x) && Int64(x) && i < |s| && '0' <= s[i] <= '9'
    ensures var d := s[i] as int - '0' as int;
            var t := if negative then x * 10 - d else x * 10 + d;
            Reading(s, from, i + 1, negative, t) && (Quot(Wrap(t), 10) == x <==> Int64(t)) && (Int64(t) ==> Wrap(t) == t)
  {
    hide *;
    var d := s[i] as int - '0' as int;
    var t := if negative then x * 10 - d else x * 10 + d;
    ReadOne(s, from, i, negative, x, d);
    assert t == x * 10 + (if negative then -d else d);
    DigitTestExact(x, d, negative);
    WrapIs(t);
  }

  lemma {:induction false} ReadOne(s: string, from: nat, i: nat, negative: bool, x: int, d: int)
    requires Reading(s, from, i, negative, x) && i < |s| && '0' <= s[i] <= '9' && d == s[i] as int - '0' as int
    ensures Reading(s, from, i + 1, negative, if negative then x * 10 - d else x * 10 + d) && 0 <= d <= 9 && (if negative then x <= 0 else x >= 0)
  {
    FiguresNext(s, from, i);
    T.DecSnoc(Figures(s[from..i]), d);
    assert RunEnd(s, from) > i;
  }

  lemma {:induction false} ReadTooMuch(s: string, from: nat, i: nat, negative: bool, x: int)
    requires from <= |s| && Reading(s, from, i, negative, x) && !Int64(x)
    ensures !Int64(Signed(negative, T.Dec(Figures(s[from..RunEnd(s, from)]))))
  {
    FiguresPrefix(s, from, i, RunEnd(s, from));
    FiguresAre(s[from..i]);
    FiguresAre(s[from..RunEnd(s, from)]);
    DecGrows(Figures(s[from..i]), Figures(s[from..RunEnd(s, from)]));
  }

  lemma {:induction false} ReadAll(s: string, from: nat, i: nat, negative: bool, x: int)
    requires from <= |s| && Reading(s, from, i, negative, x) && (i == |s| || !IsFigure(s[i]))
    ensures i == RunEnd(s, from) && x == Signed(negative, T.Dec(Figures(s[from..RunEnd(s, from)])))
  {
  }

  /** The digits before the point; overflow is detected digit by digit. */
  method ScanIntegral(s: string, from: nat, negative: bool) returns (r: Result, i: nat)
    requires from <= |s|
    ensures i <= |s|
    ensures var exact := Signed(negative, T.Dec(Figures(s[from..RunEnd(s, from)])));
            if Int64(exact) then r == Ok(exact) && i == RunEnd(s, from) else r == Err(OutOfRange)
  {
    ReadNone(s, from, negative);
    SmallFits();
    hide *;
    var x := 0;
    i := SkipCommas(s, from, from, negative, x);
    while i < |s| && '0' <= s[i] <= '9'
      invariant i <= |s| && Reading(s, from, i, negative, x) && Int64(x) && (i == |s| || s[i] != ',')
    {
      ReadDigit(s, from, i, negative, x);
      var d := s[i] as int - '0' as int;
      var t := Wrap(if negative then x * 10 - d else x * 10 + d);
      ghost var before := i;
      i := i + 1;
      if Quot(t, 10) != x {
        ReadTooMuch(s, from, i, negative, if negative then x * 10 - d else x * 10 + d);
        return Err(OutOfRange), i;
      }
      x := t;
      i := SkipCommas(s, from, i, negative, x);
    }
    if i < |s| { FigureIs(s, i); }
    ReadAll(s, from, i, negative, x);
    r := Ok(x);
  }

  lemma {:induction false} SmallFits()
    ensures Int64(0)
  {
  }

  lemma {:induction false} FigureIs(s: string, i: nat)
    requires i < |s|
    ensures IsFigure(s[i]) <==> '0' <= s[i] <= '9' || s[i] == ','
  {
  }

  method SkipCommas(s: string, ghost from: nat, i: nat, ghost negative: bool, ghost x: int) returns (j: nat)
    requires from <= |s| && i <= |s| && Reading(s, from, i, negative, x)
    ensures i <= j <= |s| && Reading(s, from, j, negative, x) && (j == |s| || s[j] != ',')
  {
    hide *;
    j := i;
    while j < |s| && s[j] == ','
      invariant i <= j <= |s| && Reading(s, from, j, negative, x)
    {
      ReadComma(s, from, j, negative, x);
      j := j + 1;
    }
  }

  // ---- The fraction ----

  /** k digits behind the point have been added up. */
  ghost predicate Adding(s: string, from: nat, i: nat, k: nat, f: int) {
    from <= |s| && from <= i <= RunEnd(s, from) && k <= 4 && |Figures(s[from..i])| == k && f == T.Dec(Figures(s[from..i])) * Pow10(4 - k)
  }

  lemma {:induction false} AddNone(s: string, from: nat)
    requires from <= |s|
    ensures Adding(s, from, from, 0, 0)
  {
    assert s[from..from] == "";
  }

  lemma {:induction false} AddComma(s: string, from: nat, i: nat, k: nat, f: int)
    requires Adding(s, from, i, k, f) && i < |s| && s[i] == ','
    ensures Adding(s, from, i + 1, k, f)
  {
    FiguresNext(s, from, i);
    assert Figures(s[from..i]) + [] == Figures(s[from..i]);
    assert RunEnd(s, from) > i;
  }

  lemma {:induction false} Spread(x: int, d: int, p: int)
    ensures (x * 10 + d) * p == x * (10 * p) + d * p
  {
  }

  lemma {:induction false} PowNext(k: nat)
    ensures Pow10(k + 1) == 10 * Pow10(k)
  {
  }

  lemma {:induction false} AddDigit(s: string, from: nat, i: nat, k: nat, f: int)
    requires Adding(s, from, i, k, f) && k < 4 && i < |s| && '0' <= s[i] <= '9'
    ensures Adding(s, from, i + 1, k + 1, f + (s[i] as int - '0' as int) * Pow10(3 - k)) && Pow10(4 - k) == 10 * Pow10(3 - k)
  {
    hide RunEnd, Figures, T.Dec, Pow10;
    var ds, d := Figures(s[from..i]), s[i] as int - '0' as int;
    FiguresNext(s, from, i);
    T.DecSnoc(ds, d);
    PowNext(3 - k);
    Spread(T.Dec(ds), d, Pow10(3 - k));
    assert RunEnd(s, from) > i;
  }

  lemma {:induction false} AddedAll(s: string, from: nat, i: nat, k: nat, f: int)
    requires Adding(s, from, i, k, f) && (i == |s| || !IsFigure(s[i]))
    ensures i == RunEnd(s, from) && f == Fraction4(Figures(s[from..i]))
  {
  }

  /** The fifth digit decides about rounding; the others no longer count. */
  lemma {:induction false} AddedFour(s: string, from: nat, i: nat, f: int)
    requires Adding(s, from, i, 4, f) && i < |s| && '0' <= s[i] <= '9'
    ensures Fraction4(Figures(s[from..RunEnd(s, from)])) == f + (if s[i] >= '5' then 1 else 0) && from <= i < RunEnd(s, from)
  {
    var ds, all := Figures(s[from..i]), Figures(s[from..RunEnd(s, from)]);
    assert RunEnd(s, from) > i;
    FiguresNext(s, from, i);
    FiguresPrefix(s, from, i + 1, RunEnd(s, from));
    assert all[..4] == ds && all[4] == s[i] as int - '0' as int;
    assert Pow10(0) == 1;
  }

  /** The digits behind the point, rounded half up to four of them. */
  method ScanFraction(s: string, from: nat) returns (f: int, i: nat)
    requires from <= |s|
    ensures i == RunEnd(s, from) && f == Fraction4(Figures(s[from..i]))
  {
    hide *;
    var k: nat;
    f, i, k := FirstFour(s, from);
    if i < |s| && '0' <= s[i] <= '9' {
      AddedFour(s, from, i, f);
      if s[i] >= '5' { f := f + 1; }
      i := RestOfRun(s, from, i);
    } else {
      if i < |s| { FigureIs(s, i); }
      AddedAll(s, from, i, k, f);
    }
  }

  method FirstFour(s: string, from: nat) returns (f: int, i: nat, k: nat)
    requires from <= |s|
    ensures i <= |s| && Adding(s, from, i, k, f) && (i == |s| || s[i] != ',')
    ensures i < |s| && '0' <= s[i] <= '9' ==> k == 4
  {
    hide *;
    Pow10Four();
    AddNone(s, from);
    var multiplier := 10000;
    f, k := 0, 0;
    i := SkipCommasIn(s, from, from, 0, 0);
    while i < |s| && '0' <= s[i] <= '9' && multiplier > 1
      invariant i <= |s| && k <= 4 && Adding(s, from, i, k, f) && (i == |s| || s[i] != ',')
      invariant multiplier == Pow10(4 - k)
      decreases 4 - k
    {
      PowOne(4 - k);
      AddDigit(s, from, i, k, f);
      var d := s[i] as int - '0' as int;
      multiplier := multiplier / 10;
      f := f + d * multiplier;
      k := k + 1;
      i := SkipCommasIn(s, from, i + 1, k, f);
    }
    PowOne(4 - k);
  }

  lemma {:induction false} PowOne(n: nat)
    ensures Pow10(n) > 1 <==> n > 0
  {
  }

  method SkipCommasIn(s: string, ghost from: nat, i: nat, ghost k: nat, ghost f: int) returns (j: nat)
    requires i <= |s| && Adding(s, from, i, k, f)
    ensures i <= j <= |s| && Adding(s, from, j, k, f) && (j == |s| || s[j] != ',')
  {
    hide *;
    j := i;
    while j < |s| && s[j] == ','
      invariant i <= j <= |s| && Adding(s, from, j, k, f)
    {
      AddComma(s, from, j, k, f);
      j := j + 1;
    }
  }

  method RestOfRun(s: string, ghost from: nat, i: nat) returns (j: nat)
    requires from <= i <= |s| && from <= i <= RunEnd(s, from)
    ensures j == RunEnd(s, from)
  {
    j := i;
    while j < |s| && ('0' <= s[j] <= '9' || s[j] == ',')
      invariant i <= j <= RunEnd(s, from)
    {
      j := j + 1;
    }
  }

  // ---- The whole text ----

  /** What the digits from i to the end of the text mean. */
  function NumberMeans(s: string, i: nat, negative: bool): Result
    requires i <= |s|
  {
    var whole := RunEnd(s, i);
    var integral := Signed(negative, T.Dec(Figures(s[i..whole])));
    var point := Has(s, whole, {'.'});
    var end := if point then RunEnd(s, whole + 1) else whole;
    var fraction := if point then Figures(s[whole + 1..end]) else [];
    if !Int64(integral) || SkipSpaces(s, end) != |s| then Err(OutOfRange) else Assemble(negative, integral, Fraction4(fraction))
  }

  /** What a text means to the scanner. */
  function Scanned(s: string): Result {
    if !TextOk(s) then Err(Invalid) else NumberMeans(s, Number(s), Negative(s))
  }

  method ScanNumber(s: string, i: nat, negative: bool) returns (r: Result)
    requires i <= |s|
    ensures r == NumberMeans(s, i, negative)
  {
    hide RunEnd, Figures, T.Dec, Fraction4, SkipSpaces, Int64, Assemble;
    var integral, ptr := ScanIntegral(s, i, negative);
    if integral.Err? { return integral; }
    var fraction := 0;
    NoFraction();
    if ptr < |s| && s[ptr] == '.' { fraction, ptr := ScanFraction(s, ptr + 1); }
    ptr := SkipMoneySpaces(s, ptr);
    if ptr != |s| { return Err(OutOfRange); }
    r := Finish(negative, integral.value, fraction);
  }

  lemma {:induction false} NoFraction()
    ensures Fraction4([]) == 0
  {
  }

  method Finish(negative: bool, integral: int, fraction: int) returns (r: Result)
    ensures r == Assemble(negative, integral, fraction)
  {
    var value := Wrap(integral * 10000);
    if negative {
      if value != 0 && (!SameSign(value, integral) || !SameSign(Wrap(value - fraction), value) || !SameSign(Wrap(value - fraction), value)) {
        return Err(OutOfRange);
      }
      return Ok(Wrap(value - fraction));
    } else {
      if value != 0 && (!SameSign(value, integral) || !SameSign(Wrap(value - fraction), value) || !SameSign(Wrap(value + fraction), value)) {
        return Err(OutOfRange);
      }
      return Ok(Wrap(value + fraction));
    }
  }

  lemma {:induction false} SpacesEnd(s: string, i: nat)
    requires i <= |s| && SkipSpaces(s, i) > i
    ensures s[SkipSpaces(s, i) - 1] != '\U{00C2}'
    decreases |s| - i
  {
    var j := i + SpaceAt(s, i);
    if SkipSpaces(s, j) > j { SpacesEnd(s, j); }
  }

  /** Spaces and a first sign. */
  method ScanSign(s: string) returns (bad: bool, signed: bool, negative: bool, ptr: nat)
    ensures bad <==> LeadingNbsp(s)
    ensures !bad ==> ptr == AfterSign(s, Start(s)) && ptr <= |s|
    ensures !bad ==> signed == Has(s, Start(s), {'+', '-'}) && negative == Has(s, Start(s), {'-'})
  {
    hide SkipSpaces;
    bad, signed, negative := false, false, false;
    ptr := SkipMoneySpaces(s, 0);
    if 0 < ptr < |s| {
      SpacesEnd(s, 0);
      bad := FindNbsp(s, ptr);
      if bad { return; }
    }
    if ptr < |s| && s[ptr] == '-' {
      signed, negative, ptr := true, true, ptr + 1;
    } else if ptr < |s| && s[ptr] == '+' {
      signed, ptr := true, ptr + 1;
    }
  }

  /** A currency symbol or a backslash, between spaces. */
  method ScanSymbol(s: string, i: nat) returns (ptr: nat)
    requires i <= |s|
    ensures ptr == SkipSpaces(s, AfterSymbol(s, SkipSpaces(s, i)))
  {
    hide SkipSpaces, SymbolFrom, SYMBOLS;
    ptr := SkipMoneySpaces(s, i);
    var n := CurrencyLength(s[ptr..]);
    if n > 0 {
      ptr := ptr + n;
    } else if ptr < |s| && s[ptr] == '\\' {
      ptr := ptr + 1;
    }
    ptr := SkipMoneySpaces(s, ptr);
  }

  method Scan(s: string) returns (r: Result)
    ensures r == Scanned(s)
  {
    hide SkipSpaces, NumberMeans, AfterSymbol, LeadingNbsp;
    var bad, signed, negative, ptr := ScanSign(s);
    if bad { return Err(Invalid); }
    ptr := ScanSymbol(s, ptr);
    if !(ptr >= |s| || '0' <= s[ptr] <= '9' || s[ptr] in {'.', '-', ',', '+'}) { return Err(Invalid); }
    if ptr < |s| && s[ptr] in {'+', '-'} {
      if signed { return Err(Invalid); }
      negative := s[ptr] == '-';
      ptr := ptr + 1;
    }
    ptr := SkipMoneySpaces(s, ptr);
    r := ScanNumber(s, ptr, negative);
  }

  /** The number a text spells, in ten-thousandths, rounded half away from zero. */
  function TextValue(s: string): int { Signed(Negative(s), Rounded4(Integral(s) + Fraction(s), |Fraction(s)|)) }

  /** The text is a number from start to end. */
  predicate Complete(s: string) { TextOk(s) && SkipSpaces(s, NumberEnd(s)) == |s| }

  /** Within the guard on the integral part, a complete text is read as exactly its value, and rejected
      exactly when that value does not fit 64 bits. */
  lemma {:induction false} ScanExact(s: string)
    requires Complete(s) && T.Dec(Integral(s)) <= GUARD
    ensures Scanned(s) == if Int64(TextValue(s)) then Ok(TextValue(s)) else Err(OutOfRange)
  {
    hide *;
    ScannedIs(s);
    ScanParts(s);
    var negative, d, f := Negative(s), T.Dec(Integral(s)), Fraction4(Fraction(s));
    ExpectedIs(negative, d, f);
    AssembleExact(negative, Signed(negative, d), f);
  }

  lemma {:induction false} ExpectedIs(negative: bool, d: int, f: int)
    requires d >= 0
    ensures Signed(negative, d) == (if negative then -d else d)
    ensures var v := Signed(negative, d * 10000 + f);
            Expected(negative, Signed(negative, d), f) == if Int64(v) then Ok(v) else Err(OutOfRange)
    ensures d <= GUARD ==> Int64(Signed(negative, d))
  {
  }

  lemma {:induction false} ScanParts(s: string)
    ensures T.Dec(Integral(s)) >= 0 && 0 <= Fraction4(Fraction(s)) <= 10000
    ensures TextValue(s) == Signed(Negative(s), T.Dec(Integral(s)) * 10000 + Fraction4(Fraction(s)))
  {
    FigureParts(s);
    hide Integral, Fraction, Fraction4, T.Dec, Rounded4, Decimals, Negative;
    DecBound(Integral(s));
    WholeRounds(Integral(s), Fraction(s));
    Fraction4Bound(Fraction(s));
  }

  lemma {:induction false} FigureParts(s: string)
    ensures Decimals(Integral(s)) && Decimals(Fraction(s))
  {
    FiguresAre(s[Number(s)..Whole(s)]);
    if Point(s) { FiguresAre(s[Whole(s) + 1..NumberEnd(s)]); }
    hide Figures, SkipSpaces, RunEnd, AfterSymbol, AfterSign;
  }

  lemma {:induction false} ScannedIs(s: string)
    requires Complete(s)
    ensures var integral := Signed(Negative(s), T.Dec(Integral(s)));
            Scanned(s) == if Int64(integral) then Assemble(Negative(s), integral, Fraction4(Fraction(s))) else Err(OutOfRange)
  {
    hide Figures, SkipSpaces, RunEnd, AfterSymbol, AfterSign, T.Dec, Assemble, Fraction4, Negative, Int64, TextOk, Number;
  }

  lemma {:induction false} Fraction4Bound(ds: seq<int>)
    requires Decimals(ds)
    ensures 0 <= Fraction4(ds) <= 10000
  {
    Pow10Four();
    if |ds| <= 4 {
      DecBound(ds);
      Pow10Add(|ds|, 4 - |ds|);
      Below(T.Dec(ds), Pow10(|ds|), Pow10(4 - |ds|));
      Below(0, T.Dec(ds), Pow10(4 - |ds|));
    } else {
      DecBound(ds[..4]);
    }
  }

  /** For every complete text, the reading is right exactly when the digits before the point are within
      the guard or do not fit 64 bits at all, or their product does not slip through the sign tests. */
  lemma {:induction false} ScanRightWhen(s: string)
    requires Complete(s)
    ensures var integral := Signed(Negative(s), T.Dec(Integral(s)));
            Scanned(s) == (if Int64(TextValue(s)) then Ok(TextValue(s)) else Err(OutOfRange)) <==>
            T.Dec(Integral(s)) <= GUARD || !Int64(integral) || !Slips(Negative(s), integral, Fraction4(Fraction(s)))
  {
    hide *;
    ScannedIs(s);
    ScanParts(s);
    var negative, d, f := Negative(s), T.Dec(Integral(s)), Fraction4(Fraction(s));
    ExpectedIs(negative, d, f);
    TooLong(negative, d, f);
    if Int64(Signed(negative, d)) { AssembleRightWhen(negative, Signed(negative, d), f); }
  }

  lemma {:induction false} TooLong(negative: bool, d: int, f: int)
    requires d >= 0 && f >= 0
    ensures !Int64(Signed(negative, d)) ==> !Int64(Signed(negative, d * 10000 + f))
  {
  }

  // ---- Printing and reading back ----

  /** No symbol starts with a digit. */
  lemma SymbolsAreNotDigits(k: nat)
    requires k < |SYMBOLS|
    ensures |SYMBOLS[k]| > 0 && !('0' <= SYMBOLS[k][0] <= '9')
  {
  }

  lemma {:induction false} NoSymbol(s: string, k: nat)
    requires s != "" && '0' <= s[0] <= '9'
    ensures SymbolFrom(s, k) == 0
    decreases |SYMBOLS| - k
  {
    hide SYMBOLS;
    if k < |SYMBOLS| {
      SymbolsAreNotDigits(k);
      NoSymbol(s, k + 1);
    }
  }

  lemma {:induction false} RunEndIs(s: string, i: nat, e: nat)
    requires i <= e <= |s| && (forall j :: i <= j < e ==> IsFigure(s[j])) && (e == |s| || !IsFigure(s[e]))
    ensures RunEnd(s, i) == e
    decreases e - i
  {
    if i < e { RunEndIs(s, i + 1, e); }
  }

  predicate AllDigits(s: string) { forall i :: 0 <= i < |s| ==> '0' <= s[i] <= '9' }

  lemma {:induction false} FiguresSnoc(s: string, d: int)
    requires 0 <= d <= 9
    ensures Figures(s + [Digit(d)]) == Figures(s) + [d]
  {
    assert (s + [Digit(d)])[..|s|] == s;
  }

  lemma {:induction false} DigsMean(n: nat)
    ensures AllDigits(Digs(n)) && T.Dec(Figures(Digs(n))) == n && (n > 0 ==> Digs(n) != "")
    decreases n
  {
    if n > 0 {
      DigsMean(n / 10);
      FiguresSnoc(Digs(n / 10), n % 10);
      T.DecSnoc(Figures(Digs(n / 10)), n % 10);
    }
  }

  lemma {:induction false} NatTextMeans(n: nat)
    ensures AllDigits(NatText(n)) && T.Dec(Figures(NatText(n))) == n && NatText(n) != ""
  {
    DigsMean(n);
    if n == 0 {
      FiguresSnoc("", 0);
      T.DecSnoc([], 0);
      assert "" + [Digit(0)] == "0" && [] + [0] == [0];
    }
  }

  lemma {:induction false} LowDigitsMean(n: nat, k: nat)
    requires n < Pow10(k)
    ensures AllDigits(LowDigits(n, k)) && T.Dec(Figures(LowDigits(n, k))) == n && |Figures(LowDigits(n, k))| == k
    decreases k
  {
    if k > 0 {
      LowDigitsMean(n / 10, k - 1);
      FiguresSnoc(LowDigits(n / 10, k - 1), n % 10);
      T.DecSnoc(Figures(LowDigits(n / 10, k - 1)), n % 10);
    }
  }

  /** Digits from p to q, a point, and digits to the end, behind a sign if p is one. */
  predicate Shaped(t: string, p: nat, q: nat) {
    p <= 1 && p < q < |t| && (p == 1 ==> t[0] == '-') && AllDigits(t[p..q]) && t[q] == '.' && AllDigits(t[q + 1..])
  }

  lemma {:induction false} ShapedAt(t: string, p: nat, q: nat)
    requires Shaped(t, p, q)
    ensures forall j :: p <= j < q ==> '0' <= t[j] <= '9'
    ensures forall j :: q < j < |t| ==> '0' <= t[j] <= '9'
  {
    forall j | p <= j < q ensures '0' <= t[j] <= '9' { assert t[p..q][j - p] == t[j]; }
    forall j | q < j < |t| ensures '0' <= t[j] <= '9' { assert t[q + 1..][j - q - 1] == t[j]; }
  }

  lemma {:induction false} ShapedFront(t: string, p: nat, q: nat)
    requires Shaped(t, p, q)
    ensures Start(t) == 0 && Money(t) == p && Number(t) == p && TextOk(t) && (Negative(t) <==> p == 1)
  {
    ShapedAt(t, p, q);
    Plain(t, 0);
    Plain(t, p);
    NoSymbol(t[p..], 0);
    hide SkipSpaces, SymbolFrom, AllDigits;
  }

  lemma {:induction false} ShapedBack(t: string, p: nat, q: nat)
    requires Shaped(t, p, q) && Number(t) == p
    ensures Whole(t) == q && Point(t) && NumberEnd(t) == |t| && SkipSpaces(t, |t|) == |t|
  {
    ShapedAt(t, p, q);
    Plain(t, |t|);
    RunEndIs(t, p, q);
    RunEndIs(t, q + 1, |t|);
    hide SkipSpaces, Number, RunEnd, AllDigits;
  }

  /** How a printed value divides. */
  lemma {:induction false} PrintedShape(t: string, negative: bool, whole: string, frac: string)
    requires t == (if negative then "-" else "") + whole + "." + frac && whole != "" && AllDigits(whole) && AllDigits(frac)
    ensures Complete(t) && Negative(t) == negative && Integral(t) == Figures(whole) && Fraction(t) == Figures(frac)
  {
    hide *;
    var p := if negative then 1 else 0;
    var q := p + |whole|;
    assert t[p..q] == whole && t[q] == '.' && t[q + 1..] == frac && t[q + 1..|t|] == frac;
    ShapedIs(t, p, q);
    ShapedFront(t, p, q);
    ShapedBack(t, p, q);
    PartsAre(t);
  }

  lemma {:induction false} ShapedIs(t: string, p: nat, q: nat)
    requires p <= 1 && p < q < |t| && (p == 1 ==> t[0] == '-') && AllDigits(t[p..q]) && t[q] == '.' && AllDigits(t[q + 1..])
    ensures Shaped(t, p, q)
  {
  }

  lemma {:induction false} PartsAre(t: string)
    requires TextOk(t) && Point(t) && NumberEnd(t) == |t| && SkipSpaces(t, |t|) == |t|
    ensures Complete(t) && Number(t) <= Whole(t) < |t|
    ensures Integral(t) == Figures(t[Number(t)..Whole(t)]) && Fraction(t) == Figures(t[Whole(t) + 1..|t|])
  {
    hide SkipSpaces, RunEnd, AfterSymbol, AfterSign, Figures, TextOk;
  }

  lemma {:induction false} Plain(s: string, i: nat)
    requires i <= |s| && (i < |s| ==> s[i] == '-' || '0' <= s[i] <= '9')
    ensures SkipSpaces(s, i) == i
  {
  }

  /** Every 64-bit money value is read back from its printed form, the smallest one included. */
  lemma {:induction false} PrintedReadsBack(v: int)
    requires Int64(v)
    ensures Scanned(MoneyText(v)) == Ok(v)
  {
    hide *;
    var n, t := Abs(v), MoneyText(v);
    var whole, frac := NatText(n / 10000), LowDigits(n % 10000, 4);
    MoneyTextIs(v);
    NatTextMeans(n / 10000);
    LowDigitsMean(n % 10000, 4);
    PrintedShape(t, v < 0, whole, frac);
    ScanParts(t);
    FourDigitsExact(Fraction(t));
    ValueIs(v, n / 10000, n % 10000);
    ScanExact(t);
  }

  lemma {:induction false} MoneyTextIs(v: int)
    ensures MoneyText(v) == (if v < 0 then "-" else "") + NatText(Abs(v) / 10000) + "." + LowDigits(Abs(v) % 10000, 4)
    ensures Abs(v) % 10000 < Pow10(4)
  {
    Pow10Four();
  }

  lemma {:induction false} FourDigitsExact(ds: seq<int>)
    requires |ds| == 4
    ensures Fraction4(ds) == T.Dec(ds)
  {
    assert Pow10(0) == 1;
  }

  lemma {:induction false} ValueIs(v: int, i: nat, f: nat)
    requires Int64(v) && i == Abs(v) / 10000 && f == Abs(v) % 10000
    ensures Signed(v < 0, i * 10000 + f) == v && i <= GUARD
  {
  }

  /** Printing into a buffer and scanning what was printed gives the value back. */
  method PrintThenScan(v: int) returns (r: Result)
    requires Int64(v)
    ensures r == Ok(v)
  {
    var buf := new char[42];
    var end := PrintMoney(buf, v);
    r := Scan(buf[..end]);
    PrintedReadsBack(v);
  }

  /** A sixteen-digit amount, 1844674407370956, that is read as 0.8384: its product with ten thousand
      wraps around to 8384. */
  lemma SlipExample()
    ensures var t := NatText(1844674407370956) + "." + LowDigits(0, 0);
            TextValue(t) == 18446744073709560000 && Scanned(t) == Ok(8384)
  {
    hide *;
    var n := 1844674407370956;
    var t := NatText(n) + "." + LowDigits(0, 0);
    NatTextMeans(n);
    LowNone();
    assert t == "" + NatText(n) + "." + LowDigits(0, 0);
    PrintedShape(t, false, NatText(n), LowDigits(0, 0));
    ScanParts(t);
    ScannedIs(t);
    SlipArithmetic(n);
  }

  lemma LowNone()
    ensures LowDigits(0, 0) == "" && AllDigits("") && Figures("") == [] && Fraction4([]) == 0
  {
  }

  lemma SlipArithmetic(n: int)
    requires n == 1844674407370956
    ensures Signed(false, n) == n && Int64(n) && Assemble(false, n, 0) == Ok(8384) && Signed(false, n * 10000 + 0) == 18446744073709560000
  {
  }
}
