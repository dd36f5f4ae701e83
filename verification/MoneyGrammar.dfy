/** The money texts that are complete numbers, spelled out of their parts: what each is read as, and that no
    other text is complete. */
module MoneyGrammar {
  import opened Decimal
  import opened Machine
  import opened MoneyScan
  import opened Texts
  import T = NumericText

  /** Spaces, one sign before or behind a currency symbol, digits with commas, perhaps a point and more. */
  datatype Amount = Amount(lead: string, sign: string, gap1: string, symbol: string, gap2: string, sign2: string, gap3: string,
                           whole: string, point: bool, fraction: string, tail: string)

  const NBSP := "\U{00C2}\U{00A0}"

  predicate PlainSpace(c: char) { c in {' ', '\t', '\n', '\r', '\U{000B}', '\U{000C}'} }

  predicate Plain(s: string) { forall i :: 0 <= i < |s| ==> PlainSpace(s[i]) }

  /** A run of spaces, among them no-break spaces of one byte or two. */
  predicate Gap(s: string) {
    s == "" || ((PlainSpace(s[0]) || s[0] == '\U{00A0}') && Gap(s[1..])) || (NBSP <= s && Gap(s[2..]))
  }

  predicate StartsWithSpace(s: string) { s != "" && (PlainSpace(s[0]) || s[0] == '\U{00A0}' || NBSP <= s) }

  predicate FigureText(s: string) { forall i :: 0 <= i < |s| ==> '0' <= s[i] <= '9' || s[i] == ',' }

  predicate SymbolText(s: string) { s == "" || s == "\\" || s in SYMBOLS }

  /** A gap belongs to the part before it, and a sign stands behind the symbol only if there is one. The
      text does not start with a no-break space, unless it is all space. */
  predicate Proper(c: Amount) {
    Gap(c.lead) && (Plain(c.lead) || Front(c) == "") && SignText(c.sign) && SignText(c.sign2) &&
    (c.sign == "" || c.sign2 == "") && (c.symbol == "" ==> c.sign2 == "") &&
    SymbolText(c.symbol) && Gaps(c) && FigureText(c.whole) && FigureText(c.fraction) && (!c.point ==> c.fraction == "")
  }

  predicate Gaps(c: Amount) {
    Gap(c.gap1) && Gap(c.gap2) && Gap(c.gap3) && Gap(c.tail) && (c.sign == "" ==> c.gap1 == "") && (c.symbol == "" ==> c.gap2 == "") &&
    (c.sign2 == "" ==> c.gap3 == "") && (c.whole == "" && !c.point ==> c.tail == "")
  }

  function Dot(c: Amount): string { if c.point then "." else "" }

  function Digits(c: Amount): string { c.whole + (Dot(c) + (c.fraction + c.tail)) }

  function Behind(c: Amount): string { c.sign2 + (c.gap3 + Digits(c)) }

  function Front(c: Amount): string { c.sign + (c.gap1 + (c.symbol + (c.gap2 + Behind(c)))) }

  function Spell(c: Amount): string { c.lead + Front(c) }

  predicate IsNegative(c: Amount) { c.sign == "-" || c.sign2 == "-" }

  // ---- Digits and separators ----

  lemma {:induction false} FiguresJoin(a: string, b: string)
    ensures Figures(a + b) == Figures(a) + Figures(b)
    decreases |b|
  {
    if b == "" {
      assert a + b == a;
    } else {
      var n := |b| - 1;
      FiguresJoin(a, b[..n]);
      assert (a + b)[..|a| + n] == a + b[..n] && (a + b)[|a| + n] == b[n];
    }
  }

  /** Digits count as what they are. */
  lemma {:induction false} FiguresOfDigits(s: string)
    requires Digital(s)
    ensures Figures(s) == T.Vals(s)
    decreases |s|
  {
    if s != "" {
      var n := |s| - 1;
      FiguresOfDigits(s[..n]);
      assert T.Vals(s) == T.Vals(s[..n]) + [s[n] as int - '0' as int];
    }
  }

  /** A separator counts for nothing, wherever it stands. */
  lemma {:induction false} SeparatorIgnored(a: string, b: string)
    ensures Figures(a + "," + b) == Figures(a + b)
  {
    FiguresJoin(a + ",", b);
    FiguresJoin(a, ",");
    FiguresJoin(a, b);
    assert Figures(",") == [] by { assert ","[..0] == ""; }
  }

  // ---- Stepping over the parts ----

  lemma {:induction false} SpaceHere(s: string, i: nat, t: string)
    requires i <= |s| && s[i..] == t
    ensures SpaceAt(s, i) == if t == "" then 0 else if PlainSpace(t[0]) || t[0] == '\U{00A0}' then 1 else if NBSP <= t then 2 else 0
  {
    assert i < |s| ==> s[i] == t[0];
    assert i + 1 < |s| ==> s[i + 1] == t[1];
    assert NBSP <= t <==> |t| >= 2 && t[0] == '\U{00C2}' && t[1] == '\U{00A0}';
  }

  lemma {:induction false} GapOver(s: string, i: nat, x: string, t: string)
    requires Stands(s, i, x, t) && Gap(x) && !StartsWithSpace(t)
    ensures SkipSpaces(s, i) == i + |x|
    decreases |x|
  {
    SpaceHere(s, i, x + t);
    if x == "" {
      assert x + t == t;
    } else if PlainSpace(x[0]) || x[0] == '\U{00A0}' {
      assert s[i + 1..] == s[i..][1..] == x[1..] + t;
      GapOver(s, i + 1, x[1..], t);
    } else {
      assert (x + t)[0] == x[0] && NBSP <= x + t by { assert x[..2] == NBSP; assert (x + t)[..2] == NBSP; }
      assert s[i + 2..] == s[i..][2..] == x[2..] + t;
      GapOver(s, i + 2, x[2..], t);
    }
  }

  lemma {:induction false} HasAt(s: string, i: nat, t: string, cs: set<char>)
    requires i <= |s| && s[i..] == t
    ensures Has(s, i, cs) <==> StartsWith(t, cs)
  {
    assert i < |s| ==> s[i] == s[i..][0];
  }

  lemma {:induction false} SignOver(s: string, i: nat, x: string, t: string)
    requires Stands(s, i, x, t) && SignText(x) && !StartsWith(t, {'+', '-'})
    ensures AfterSign(s, i) == i + |x| && (Has(s, i, {'-'}) <==> x == "-") && (Has(s, i, {'+', '-'}) <==> x != "")
  {
    HasAt(s, i, x + t, {'+', '-'});
    HasAt(s, i, x + t, {'-'});
  }

  lemma {:induction false} FiguresOver(s: string, i: nat, x: string, t: string)
    requires Stands(s, i, x, t) && FigureText(x) && (t == "" || !IsFigure(t[0]))
    ensures RunEnd(s, i) == i + |x|
    decreases |x|
  {
    if x != "" {
      assert s[i] == s[i..][0] == x[0];
      assert s[i + 1..] == s[i..][1..] == x[1..] + t;
      FiguresOver(s, i + 1, x[1..], t);
    } else {
      assert i < |s| ==> s[i] == s[i..][0];
    }
  }

  // ---- Currency symbols ----

  /** The first byte tells how long a symbol is. */
  function Width(c: char): nat { if c == '$' then 1 else if c == '\U{00C2}' then 2 else 3 }

  predicate SymbolHead(c: char) { c in {'$', '\U{00C2}', '\U{00E0}', '\U{00E1}', '\U{00E2}', '\U{00EF}'} }

  lemma SymbolShape(k: nat)
    requires k < |SYMBOLS|
    ensures |SYMBOLS[k]| > 0 && SymbolHead(SYMBOLS[k][0]) && |SYMBOLS[k]| == Width(SYMBOLS[k][0])
    ensures SYMBOLS[k][0] == '\U{00C2}' ==> SYMBOLS[k][1] != '\U{00A0}'
  {
  }

  lemma DollarIsSymbol()
    ensures "$" in SYMBOLS
  {
    assert SYMBOLS[0] == "$";
  }

  lemma {:induction false} SymbolFound(u: string, j: nat, k: nat)
    requires k <= j < |SYMBOLS| && SYMBOLS[j] <= u
    ensures SymbolFrom(u, k) == |SYMBOLS[j]|
    decreases j - k
  {
    hide SYMBOLS;
    SymbolShape(j);
    SymbolShape(k);
    assert u[0] == SYMBOLS[j][0];
    if SYMBOLS[k] <= u { assert u[0] == SYMBOLS[k][0]; }
    if k < j { SymbolFound(u, j, k + 1); }
  }

  lemma {:induction false} PrefixHead(a: string, u: string)
    requires a != "" && a <= u
    ensures u != "" && u[0] == a[0] && (|a| > 1 ==> |u| > 1 && u[1] == a[1])
  {
  }

  lemma {:induction false} NoPrefix(a: string, u: string)
    requires a != "" && (u == "" || u[0] != a[0])
    ensures !(a <= u)
  {
  }

  lemma {:induction false} SymbolMissing(u: string, k: nat)
    requires u == "" || !SymbolHead(u[0])
    ensures SymbolFrom(u, k) == 0
    decreases |SYMBOLS| - k
  {
    hide SYMBOLS;
    if k < |SYMBOLS| {
      SymbolShape(k);
      NoPrefix(SYMBOLS[k], u);
      SymbolMissing(u, k + 1);
    }
  }

  lemma {:induction false} SymbolOver(s: string, i: nat, x: string, t: string)
    requires Stands(s, i, x, t) && SymbolText(x) && (x == "" ==> t == "" || !(SymbolHead(t[0]) || t[0] == '\\'))
    ensures AfterSymbol(s, i) == i + |x|
  {
    hide SYMBOLS, SymbolFrom;
    assert s[i..] == x + t;
    HasAt(s, i, x + t, {'\\'});
    if x in SYMBOLS {
      var j :| 0 <= j < |SYMBOLS| && SYMBOLS[j] == x;
      SymbolShape(j);
      assert SYMBOLS[j] <= x + t;
      SymbolFound(x + t, j, 0);
    } else {
      assert x == "" ==> x + t == t;
      SymbolMissing(x + t, 0);
    }
  }

  // ---- How the parts begin ----

  /** The text begins as a number without sign does, or is empty. */
  predicate NumberHead(t: string) { t == "" || '0' <= t[0] <= '9' || t[0] == ',' || t[0] == '.' }

  lemma {:induction false} NumberHeadIs(t: string)
    requires NumberHead(t)
    ensures !StartsWithSpace(t) && !StartsWith(t, {'+', '-'}) && (t == "" || !(SymbolHead(t[0]) || t[0] == '\\'))
  {
    if NBSP <= t { PrefixHead(NBSP, t); }
  }

  lemma {:induction false} DigitsHead(c: Amount)
    requires Proper(c)
    ensures NumberHead(Digits(c))
    ensures var t := Dot(c) + (c.fraction + c.tail); (t == "" || !IsFigure(t[0])) && (StartsWith(t, {'.'}) <==> c.point)
    ensures c.tail == "" || !IsFigure(c.tail[0])
  {
    hide SymbolText, Front, SignText, Plain;
    GapHead(c.tail);
  }

  lemma {:induction false} GapHead(x: string)
    requires Gap(x)
    ensures x == "" || PlainSpace(x[0]) || x[0] == '\U{00A0}' || x[0] == '\U{00C2}'
  {
  }

  lemma {:induction false} GapSign(x: string, t: string)
    requires Gap(x) && !StartsWith(t, {'+', '-'})
    ensures !StartsWith(x + t, {'+', '-'})
  {
    GapHead(x);
    if x == "" { assert x + t == t; }
  }

  lemma {:induction false} SignHead(x: string, t: string)
    requires SignText(x) && x != ""
    ensures !StartsWithSpace(x + t) && (x + t)[0] in {'+', '-'}
  {
    if NBSP <= x + t { PrefixHead(NBSP, x + t); }
  }

  lemma {:induction false} Nothing(t: string)
    ensures "" + t == t && "" + ("" + t) == t
  {
  }

  lemma {:induction false} ProperIs(c: Amount)
    requires Proper(c)
    ensures Gap(c.lead) && (Plain(c.lead) || Front(c) == "") && SignText(c.sign) && SignText(c.sign2) && SymbolText(c.symbol)
    ensures (c.sign == "" || c.sign2 == "") && (c.symbol == "" ==> c.sign2 == "") && FigureText(c.whole) && FigureText(c.fraction)
    ensures Gap(c.gap1) && Gap(c.gap2) && Gap(c.gap3) && Gap(c.tail) && (c.sign == "" ==> c.gap1 == "") && (c.symbol == "" ==> c.gap2 == "")
    ensures (c.sign2 == "" ==> c.gap3 == "") && (!c.point ==> c.fraction == "")
  {
    hide Front;
  }

  lemma {:induction false} BehindHead(c: Amount)
    requires Proper(c)
    ensures !StartsWithSpace(Behind(c)) && !StartsWith(c.gap3 + Digits(c), {'+', '-'}) && !StartsWithSpace(Digits(c))
    ensures if c.sign2 == "" then NumberHead(Behind(c)) else Behind(c) != "" && Behind(c)[0] in {'+', '-'}
  {
    hide *;
    ProperIs(c);
    DigitsHead(c);
    NumberHeadIs(Digits(c));
    GapSign(c.gap3, Digits(c));
    BehindIs(c);
    if c.sign2 == "" { Nothing(Digits(c)); } else { SignHead(c.sign2, c.gap3 + Digits(c)); }
  }

  lemma {:induction false} BehindIs(c: Amount)
    ensures Behind(c) == c.sign2 + (c.gap3 + Digits(c)) && Front(c) == c.sign + (c.gap1 + (c.symbol + (c.gap2 + Behind(c))))
    ensures Digits(c) == c.whole + (Dot(c) + (c.fraction + c.tail)) && Spell(c) == c.lead + Front(c)
  {
  }

  lemma {:induction false} SymbolTextHead(x: string, t: string)
    requires SymbolText(x) && x != ""
    ensures !StartsWithSpace(x + t) && !StartsWith(x + t, {'+', '-'})
  {
    hide SYMBOLS;
    if x in SYMBOLS {
      var j :| 0 <= j < |SYMBOLS| && SYMBOLS[j] == x;
      SymbolShape(j);
    }
    assert (x + t)[0] == x[0];
    if NBSP <= x + t { PrefixHead(NBSP, x + t); }
  }

  lemma {:induction false} FrontHead(c: Amount)
    requires Proper(c)
    ensures var t4 := c.gap2 + Behind(c);
            !StartsWithSpace(Front(c)) && !StartsWith(c.gap1 + (c.symbol + t4), {'+', '-'}) && !StartsWithSpace(c.symbol + t4)
    ensures c.symbol == "" ==> var t4 := c.gap2 + Behind(c); t4 == "" || !(SymbolHead(t4[0]) || t4[0] == '\\')
  {
    hide *;
    ProperIs(c);
    BehindHead(c);
    BehindIs(c);
    var t4 := c.gap2 + Behind(c);
    if c.symbol == "" {
      Nothing(Behind(c));
      NumberHeadIs(Behind(c));
    } else {
      SymbolTextHead(c.symbol, t4);
    }
    GapSign(c.gap1, c.symbol + t4);
    if c.sign == "" { Nothing(c.symbol + t4); } else { SignHead(c.sign, c.gap1 + (c.symbol + t4)); }
  }

  // ---- Every spelled amount is read as what it says ----

  lemma {:induction false} Step(s: string, i: nat, x: string, t: string)
    requires i <= |s| && s[i..] == x + t
    ensures i + |x| <= |s| && s[i..i + |x|] == x && s[i + |x|..] == t
  {
    Mid(s, i, x, t);
    Nothing(t);
    Over(s, i, x, t, "", t);
  }

  lemma {:induction false} GapStep(s: string, i: nat, x: string, t: string)
    requires i <= |s| && s[i..] == x + t && Gap(x) && !StartsWithSpace(t)
    ensures i + |x| <= |s| && SkipSpaces(s, i) == i + |x| && s[i + |x|..] == t
  {
    hide *;
    Mid(s, i, x, t);
    GapOver(s, i, x, t);
    Step(s, i, x, t);
  }

  lemma {:induction false} SignStep(s: string, i: nat, x: string, t: string)
    requires i <= |s| && s[i..] == x + t && SignText(x) && !StartsWith(t, {'+', '-'})
    ensures i + |x| <= |s| && AfterSign(s, i) == i + |x| && s[i + |x|..] == t
    ensures (Has(s, i, {'-'}) <==> x == "-") && (Has(s, i, {'+', '-'}) <==> x != "")
  {
    hide *;
    Mid(s, i, x, t);
    SignOver(s, i, x, t);
    Step(s, i, x, t);
  }

  lemma {:induction false} SymbolStep(s: string, i: nat, x: string, t: string)
    requires i <= |s| && s[i..] == x + t && SymbolText(x) && (x == "" ==> t == "" || !(SymbolHead(t[0]) || t[0] == '\\'))
    ensures i + |x| <= |s| && AfterSymbol(s, i) == i + |x| && s[i + |x|..] == t
  {
    hide *;
    Mid(s, i, x, t);
    SymbolOver(s, i, x, t);
    Step(s, i, x, t);
  }

  lemma {:induction false} FigureStep(s: string, i: nat, x: string, t: string)
    requires i <= |s| && s[i..] == x + t && FigureText(x) && (t == "" || !IsFigure(t[0]))
    ensures i + |x| <= |s| && RunEnd(s, i) == i + |x| && s[i..i + |x|] == x && s[i + |x|..] == t
  {
    hide *;
    Mid(s, i, x, t);
    FiguresOver(s, i, x, t);
    Step(s, i, x, t);
  }

  /** Spaces and the first sign. */
  lemma {:induction false} LeadRead(c: Amount)
    requires Proper(c)
    ensures var s, p1 := Spell(c), |c.lead|;
            p1 + |c.sign| <= |s| && Start(s) == p1 && s[..p1] == c.lead && (p1 == |s| <==> Front(c) == "") &&
            (Has(s, p1, {'-'}) <==> c.sign == "-") && (Has(s, p1, {'+', '-'}) <==> c.sign != "") &&
            AfterSign(s, p1) == p1 + |c.sign| && s[p1 + |c.sign|..] == c.gap1 + (c.symbol + (c.gap2 + Behind(c)))
  {
    hide *;
    var s, p1 := Spell(c), |c.lead|;
    ProperIs(c);
    FrontHead(c);
    BehindIs(c);
    MoneyIs(s);
    LeadIs(c.lead, Front(c));
    GapStep(s, 0, c.lead, Front(c));
    SignStep(s, p1, c.sign, c.gap1 + (c.symbol + (c.gap2 + Behind(c))));
  }

  lemma {:induction false} LeadIs(x: string, t: string)
    ensures (x + t)[0..] == x + t && (x + t)[..|x|] == x && (|x| == |x + t| <==> t == "")
  {
  }

  /** The symbol between spaces. */
  lemma {:induction false} SymbolBetweenGaps(s: string, p: nat, gap1: string, symbol: string, gap2: string, t: string)
    requires p <= |s| && s[p..] == gap1 + (symbol + (gap2 + t)) && Gap(gap1) && SymbolText(symbol) && Gap(gap2) && !StartsWithSpace(t)
    requires !StartsWithSpace(symbol + (gap2 + t))
    requires symbol == "" ==> gap2 + t == "" || !(SymbolHead((gap2 + t)[0]) || (gap2 + t)[0] == '\\')
    ensures var e := p + |gap1| + |symbol| + |gap2|; e <= |s| && SkipSpaces(s, AfterSymbol(s, SkipSpaces(s, p))) == e && s[e..] == t
  {
    hide *;
    GapStep(s, p, gap1, symbol + (gap2 + t));
    var p3 := p + |gap1|;
    SymbolStep(s, p3, symbol, gap2 + t);
    GapStep(s, p3 + |symbol|, gap2, t);
  }

  lemma {:induction false} SymbolRead(c: Amount)
    requires Proper(c)
    ensures var s := Spell(c); Money(s) <= |s| && s[Money(s)..] == Behind(c)
  {
    hide *;
    var s, p2 := Spell(c), |c.lead| + |c.sign|;
    ProperIs(c);
    LeadRead(c);
    FrontHead(c);
    BehindHead(c);
    MoneyIs(s);
    SymbolBetweenGaps(s, p2, c.gap1, c.symbol, c.gap2, Behind(c));
  }

  lemma {:induction false} MoneyIs(s: string)
    ensures Start(s) == SkipSpaces(s, 0) && AfterSign(s, Start(s)) <= |s|
    ensures Money(s) == SkipSpaces(s, AfterSymbol(s, SkipSpaces(s, AfterSign(s, Start(s)))))
    ensures AfterSign(s, Money(s)) <= |s| && Number(s) == SkipSpaces(s, AfterSign(s, Money(s)))
  {
  }

  lemma {:induction false} FrontIs(s: string)
    ensures Whole(s) == RunEnd(s, Number(s)) && (Point(s) <==> Has(s, Whole(s), {'.'}))
    ensures Point(s) ==> Whole(s) < |s| && NumberEnd(s) == RunEnd(s, Whole(s) + 1)
    ensures !Point(s) ==> NumberEnd(s) == Whole(s)
  {
  }

  /** The second sign and the digits. */
  lemma {:induction false} DigitsRead(c: Amount)
    requires Proper(c)
    ensures var s := Spell(c);
            (Has(s, Money(s), {'-'}) <==> c.sign2 == "-") && (Has(s, Money(s), {'+', '-'}) <==> c.sign2 != "") &&
            s[Number(s)..] == Digits(c)
  {
    hide *;
    var s := Spell(c);
    ProperIs(c);
    SymbolRead(c);
    BehindHead(c);
    BehindOf(c);
    MoneyIs(s);
    var p4 := Money(s);
    SignStep(s, p4, c.sign2, c.gap3 + Digits(c));
    var p5 := p4 + |c.sign2|;
    GapStep(s, p5, c.gap3, Digits(c));
    assert Number(s) == p5 + |c.gap3|;
  }

  lemma {:induction false} BehindOf(c: Amount)
    ensures Behind(c) == c.sign2 + (c.gap3 + Digits(c))
  {
  }

  lemma {:induction false} DigitsOf(c: Amount)
    ensures Digits(c) == c.whole + (Dot(c) + (c.fraction + c.tail))
  {
  }

  lemma {:induction false} WholeRead(c: Amount)
    requires Proper(c)
    ensures var s := Spell(c);
            s[Number(s)..Whole(s)] == c.whole && (Point(s) <==> c.point) && s[Whole(s)..] == Dot(c) + (c.fraction + c.tail)
  {
    hide *;
    var s, t := Spell(c), Dot(c) + (c.fraction + c.tail);
    ProperIs(c);
    DigitsRead(c);
    DigitsHead(c);
    DigitsOf(c);
    FrontIs(s);
    var p := Number(s);
    FigureStep(s, p, c.whole, t);
    assert Whole(s) == p + |c.whole|;
    HasAt(s, p + |c.whole|, t, {'.'});
  }

  /** The digits behind the point, and the end. */
  lemma {:induction false} FractionStep(s: string, p: nat, point: bool, fraction: string, tail: string)
    requires p <= |s| && p == Whole(s) && s[p..] == (if point then "." else "") + (fraction + tail) && (Point(s) <==> point)
    requires FigureText(fraction) && (!point ==> fraction == "") && Gap(tail) && (tail == "" || !IsFigure(tail[0]))
    ensures var q := p + (if point then 1 else 0); q <= NumberEnd(s) == q + |fraction| <= |s| && s[q..NumberEnd(s)] == fraction && s[NumberEnd(s)..] == tail
  {
    hide *;
    Step(s, p, if point then "." else "", fraction + tail);
    FigureStep(s, p + (if point then 1 else 0), fraction, tail);
    FrontIs(s);
  }

  lemma {:induction false} TailStep(s: string, i: nat, tail: string)
    requires i <= |s| && s[i..] == tail && Gap(tail)
    ensures SkipSpaces(s, i) == |s|
  {
    hide *;
    EmptyEnd(tail);
    GapStep(s, i, tail, "");
    assert |s[i..]| == |s| - i;
  }

  lemma {:induction false} EndRead(c: Amount)
    requires Proper(c)
    ensures var s := Spell(c);
            Whole(s) + |Dot(c)| <= NumberEnd(s) && s[Whole(s) + |Dot(c)|..NumberEnd(s)] == c.fraction && SkipSpaces(s, NumberEnd(s)) == |s|
  {
    hide *;
    var s := Spell(c);
    ProperIs(c);
    WholeRead(c);
    DigitsHead(c);
    DotIs(c);
    FractionStep(s, Whole(s), c.point, c.fraction, c.tail);
    TailStep(s, NumberEnd(s), c.tail);
  }

  lemma {:induction false} DotIs(c: Amount)
    ensures Dot(c) == if c.point then "." else ""
  {
  }

  lemma {:induction false} EmptyEnd(t: string)
    ensures t == t + "" && !StartsWithSpace("")
  {
  }

  lemma {:induction false} PlainLead(s: string, n: nat)
    requires n <= |s| && Plain(s[..n]) && Start(s) == n
    ensures !LeadingNbsp(s)
  {
    hide SkipSpaces;
    forall i | 0 <= i < n ensures PlainSpace(s[i]) { assert s[i] == s[..n][i]; }
  }

  lemma {:induction false} NoLead(s: string)
    requires Start(s) == |s|
    ensures !LeadingNbsp(s)
  {
  }

  /** A text spelled out of proper parts is a complete number, and says what its parts say. */
  lemma {:induction false} SpelledIsRead(c: Amount)
    requires Proper(c)
    ensures var s := Spell(c);
            Complete(s) && (Negative(s) <==> IsNegative(c)) && Integral(s) == Figures(c.whole) && Fraction(s) == Figures(c.fraction)
  {
    hide *;
    var s := Spell(c);
    ProperIs(c);
    LeadRead(c);
    SymbolRead(c);
    DigitsRead(c);
    WholeRead(c);
    EndRead(c);
    BehindHead(c);
    DotIs(c);
    NegativeIs(c);
    if Front(c) == "" { NoLead(s); } else { PlainLead(s, |c.lead|); }
    NumberStartsAt(s, Money(s), Behind(c));
    WholeIs(s);
    NoFigures();
  }

  lemma {:induction false} NegativeIs(c: Amount)
    ensures IsNegative(c) <==> c.sign == "-" || c.sign2 == "-"
  {
  }

  lemma {:induction false} NoFigures()
    ensures Figures("") == []
  {
  }

  lemma {:induction false} NumberStartsAt(s: string, i: nat, t: string)
    requires i <= |s| && s[i..] == t && (NumberHead(t) || (t != "" && t[0] in {'+', '-'}))
    ensures NumberStarts(s, i)
  {
    assert i < |s| ==> s[i] == t[0];
  }

  lemma {:induction false} WholeIs(s: string)
    ensures TextOk(s) <==> !LeadingNbsp(s) && NumberStarts(s, Money(s)) && !(Has(s, Start(s), {'+', '-'}) && Has(s, Money(s), {'+', '-'}))
    ensures Complete(s) <==> TextOk(s) && SkipSpaces(s, NumberEnd(s)) == |s|
    ensures Negative(s) <==> Has(s, Start(s), {'-'}) || Has(s, Money(s), {'-'})
    ensures Integral(s) == Figures(s[Number(s)..Whole(s)])
    ensures Point(s) ==> Whole(s) + 1 <= NumberEnd(s) && Fraction(s) == Figures(s[Whole(s) + 1..NumberEnd(s)])
    ensures !Point(s) ==> Fraction(s) == []
  {
    hide SkipSpaces, RunEnd, SymbolFrom, LeadingNbsp, Figures;
  }

  // ---- What is read ----

  /** The number an amount says, in ten-thousandths, rounded half away from zero. */
  function Value(c: Amount): int {
    Signed(IsNegative(c), Rounded4(Figures(c.whole) + Figures(c.fraction), |Figures(c.fraction)|))
  }

  /** Within the guard on the whole part, a spelled amount is read as its value, or rejected when that does
      not fit 64 bits. */
  lemma {:induction false} AmountRead(c: Amount)
    requires Proper(c) && T.Dec(Figures(c.whole)) <= GUARD
    ensures Scanned(Spell(c)) == if Int64(Value(c)) then Ok(Value(c)) else Err(OutOfRange)
  {
    hide Proper, Spell, Complete, Negative, Integral, Fraction, Scanned, IsNegative, Figures, T.Dec, Rounded4;
    SpelledIsRead(c);
    ScanExact(Spell(c));
  }

  /** Spaces, the symbol, the place of the sign and the separators make no difference. */
  lemma {:induction false} DressIgnored(c: Amount, d: Amount)
    requires Proper(c) && Proper(d) && IsNegative(c) == IsNegative(d)
    requires Figures(c.whole) == Figures(d.whole) && Figures(c.fraction) == Figures(d.fraction)
    ensures Scanned(Spell(c)) == Scanned(Spell(d))
  {
    hide Proper, Spell, Complete, Negative, Integral, Fraction, Scanned, IsNegative, Figures, T.Dec, Assemble, Fraction4;
    SpelledIsRead(c);
    SpelledIsRead(d);
    ScannedIs(Spell(c));
    ScannedIs(Spell(d));
  }

  /** A minus sign, before or behind the symbol, negates what the rest of the text is read as. */
  lemma {:induction false} MinusNegates(c: Amount, d: Amount)
    requires Proper(c) && Proper(d) && IsNegative(c) && !IsNegative(d) && T.Dec(Figures(c.whole)) <= GUARD
    requires Figures(c.whole) == Figures(d.whole) && Figures(c.fraction) == Figures(d.fraction)
    ensures Scanned(Spell(c)).Ok? && Scanned(Spell(d)).Ok? ==> Scanned(Spell(c)).value == -Scanned(Spell(d)).value
  {
    hide Proper, Spell, Scanned, Figures, T.Dec, Rounded4, IsNegative, Int64;
    AmountRead(c);
    AmountRead(d);
  }

  function Number2(whole: string, fraction: string): string { whole + ("." + fraction) }

  /** A number in front of which stand spaces, a symbol and more spaces, with a minus sign on either side of
      the symbol or on its own. */
  lemma {:induction false} SymbolLaws(y: string, w: string, whole: string, fraction: string)
    requires y in SYMBOLS && Plain(w) && FigureText(whole) && FigureText(fraction)
    ensures var t := Number2(whole, fraction);
            Scanned(y + t) == Scanned(t) && Scanned(w + (y + (w + t))) == Scanned(t) &&
            Scanned(y + ("-" + t)) == Scanned("-" + t) && Scanned("-" + (y + t)) == Scanned("-" + t)
  {
    hide SYMBOLS, Figures, FigureText, Scanned, Plain, Gap, Spell, Number2;
    PlainIsGap(w);
    NoSpace();
    var j :| 0 <= j < |SYMBOLS| && SYMBOLS[j] == y;
    SymbolShape(j);
    var t := Number2(whole, fraction);
    Nothing(t);
    Nothing("-" + t);
    Nothing(y + t);
    Nothing(y + (w + t));
    Nothing(y + ("-" + t));
    Nothing("-" + (y + t));
    var plain := Amount("", "", "", "", "", "", "", whole, true, fraction, "");
    var minus := plain.(sign := "-");
    LawCase(plain, plain.(symbol := y));
    LawCase(plain, plain.(lead := w, symbol := y, gap2 := w));
    LawCase(minus, plain.(symbol := y, sign2 := "-"));
    LawCase(minus, minus.(symbol := y));
    SpellBare(plain);
    SpellBare(minus);
    SpellDressed(plain.(symbol := y));
    SpellDressed(plain.(lead := w, symbol := y, gap2 := w));
    SpellDressed(plain.(symbol := y, sign2 := "-"));
    SpellDressed(minus.(symbol := y));
  }

  lemma {:induction false} PlainIsGap(w: string)
    requires Plain(w)
    ensures Gap(w)
    decreases |w|
  {
    if w != "" { PlainIsGap(w[1..]); }
  }

  /** Parts of the kind the laws speak of. */
  lemma {:induction false} LawCase(c: Amount, d: Amount)
    requires SymbolText(d.symbol) && Plain(d.lead) && Gap(d.lead) && Gap(d.gap2) && FigureText(c.whole) && FigureText(c.fraction)
    requires c == Amount("", c.sign, "", "", "", "", "", c.whole, true, c.fraction, "") && SignText(c.sign)
    requires d == Amount(d.lead, d.sign, "", d.symbol, d.gap2, d.sign2, "", c.whole, true, c.fraction, "") && d.symbol != ""
    requires (d.sign == c.sign && d.sign2 == "") || (d.sign == "" && d.sign2 == c.sign)
    ensures Scanned(Spell(d)) == Scanned(Spell(c))
  {
    hide SymbolText, FigureText, Figures, Scanned, Spell, Front;
    assert Gap("") && Plain("") && SymbolText("") by { NoSpace(); }
    DressIgnored(d, c);
  }

  lemma {:induction false} NoSpace()
    ensures Gap("") && Plain("") && SymbolText("")
  {
  }

  lemma {:induction false} SpellBare(c: Amount)
    requires c == Amount("", c.sign, "", "", "", "", "", c.whole, true, c.fraction, "")
    ensures Spell(c) == c.sign + Number2(c.whole, c.fraction)
  {
    assert c.fraction + "" == c.fraction;
    Nothing(Digits(c));
    Nothing(Behind(c));
  }

  lemma {:induction false} SpellDressed(c: Amount)
    requires c == Amount(c.lead, c.sign, "", c.symbol, c.gap2, c.sign2, "", c.whole, true, c.fraction, "")
    ensures Spell(c) == c.lead + (c.sign + (c.symbol + (c.gap2 + (c.sign2 + Number2(c.whole, c.fraction)))))
  {
    assert c.fraction + "" == c.fraction;
    Nothing(Digits(c));
    Nothing(c.symbol + (c.gap2 + Behind(c)));
  }

  // ---- Every complete text is spelled ----

  /** The parts of a complete text. */
  function PartsOf(s: string): Amount
    requires Complete(s)
  {
    var a, e, g, h, n := Start(s), Money(s), Number(s), Whole(s), NumberEnd(s);
    var b, f := AfterSign(s, a), AfterSign(s, e);
    var c := SkipSpaces(s, b);
    var d := AfterSymbol(s, c);
    Amount(s[..a], s[a..b], s[b..c], s[c..d], s[d..e], s[e..f], s[f..g], s[g..h], Point(s), if Point(s) then s[h + 1..n] else "", s[n..])
  }

  lemma {:induction false} GapBetween(s: string, i: nat)
    requires i <= |s|
    ensures Gap(s[i..SkipSpaces(s, i)])
    decreases |s| - i
  {
    SpaceHere(s, i, s[i..]);
    var e, k := SkipSpaces(s, i), SpaceAt(s, i);
    if k > 0 {
      GapBetween(s, i + k);
      assert s[i..e][k..] == s[i + k..e];
      assert s[i..e][0] == s[i];
      if k == 2 { assert s[i..e][..2] == s[i..i + 2] == NBSP; }
    }
  }

  lemma {:induction false} SignBetween(s: string, i: nat)
    requires i <= |s|
    ensures i <= AfterSign(s, i) <= |s| && SignText(s[i..AfterSign(s, i)]) && (s[i..AfterSign(s, i)] == "" <==> !Has(s, i, {'+', '-'}))
  {
    if Has(s, i, {'+', '-'}) { assert s[i..i + 1] == [s[i]]; }
  }

  lemma {:induction false} SymbolIn(u: string, k: nat)
    ensures SymbolFrom(u, k) > 0 ==> u[..SymbolFrom(u, k)] in SYMBOLS
    decreases |SYMBOLS| - k
  {
    hide SYMBOLS;
    if k < |SYMBOLS| {
      if SYMBOLS[k] <= u { assert u[..|SYMBOLS[k]|] == SYMBOLS[k]; } else { SymbolIn(u, k + 1); }
    }
  }

  lemma {:induction false} SymbolBetween(s: string, i: nat)
    requires i <= |s|
    ensures SymbolText(s[i..AfterSymbol(s, i)])
  {
    hide SYMBOLS, SymbolFrom;
    var n := SymbolFrom(s[i..], 0);
    SymbolIn(s[i..], 0);
    assert s[i..][..n] == s[i..i + n];
    HasAt(s, i, s[i..], {'\\'});
    if n == 0 && Has(s, i, {'\\'}) { assert s[i..i + 1] == "\\"; }
  }

  lemma {:induction false} FiguresBetween(s: string, i: nat)
    requires i <= |s|
    ensures FigureText(s[i..RunEnd(s, i)])
  {
    hide RunEnd;
    var e := RunEnd(s, i);
    forall j | 0 <= j < e - i ensures s[i..e][j] == s[i + j] {
    }
  }

  lemma {:induction false} LeadPlain(x: string)
    requires Gap(x) && forall i :: 0 <= i < |x| ==> x[i] != '\U{00A0}'
    ensures Plain(x)
    decreases |x|
  {
    if x != "" {
      if NBSP <= x { PrefixHead(NBSP, x); }
      LeadPlain(x[1..]);
      assert x == [x[0]] + x[1..];
    }
  }

  lemma {:induction false} PartsAre(s: string)
    requires Complete(s)
    ensures var a, e := Start(s), Money(s); var b, f := AfterSign(s, a), AfterSign(s, e);
            a <= b <= |s| && e <= f <= |s| && b <= SkipSpaces(s, b) <= AfterSymbol(s, SkipSpaces(s, b)) <= e && f <= Number(s) <= Whole(s) <= NumberEnd(s)
    ensures var a, e := Start(s), Money(s); var b, f := AfterSign(s, a), AfterSign(s, e); var c := SkipSpaces(s, b); var d := AfterSymbol(s, c);
            PartsOf(s) == Amount(s[..a], s[a..b], s[b..c], s[c..d], s[d..e], s[e..f], s[f..Number(s)], s[Number(s)..Whole(s)], Point(s),
                                 if Point(s) then s[Whole(s) + 1..NumberEnd(s)] else "", s[NumberEnd(s)..])
    ensures var a, e := Start(s), Money(s); var b, f := AfterSign(s, a), AfterSign(s, e);
            a == SkipSpaces(s, 0) && e == SkipSpaces(s, AfterSymbol(s, SkipSpaces(s, b))) && Number(s) == SkipSpaces(s, f)
  {
    hide SkipSpaces, RunEnd, AfterSymbol, TextOk;
  }

  lemma {:induction false} SpelledBack(s: string)
    requires Complete(s)
    ensures Spell(PartsOf(s)) == s
  {
    hide *;
    var p := PartsOf(s);
    PartsAre(s);
    BehindIs(p);
    DotIs(p);
    var a, e, g, h, n := Start(s), Money(s), Number(s), Whole(s), NumberEnd(s);
    var b, f := AfterSign(s, a), AfterSign(s, e);
    var c := SkipSpaces(s, b);
    var d := AfterSymbol(s, c);
    PointBack(s);
    Divide(s, g, h);
    Divide(s, f, g);
    Divide(s, e, f);
    assert s[e..] == Behind(p);
    Divide(s, d, e);
    Divide(s, c, d);
    Divide(s, b, c);
    Divide(s, a, b);
    assert s[a..] == Front(p);
    Divide(s, 0, a);
    Beginning(s, a);
  }

  lemma {:induction false} Beginning(s: string, a: nat)
    requires a <= |s|
    ensures s[0..a] == s[..a] && s[0..] == s
  {
  }

  lemma {:induction false} PointBack(s: string)
    ensures var h, n := Whole(s), NumberEnd(s);
            h <= n <= |s| && s[h..] == (if Point(s) then "." else "") + ((if Point(s) then s[h + 1..n] else "") + s[n..])
  {
    hide SkipSpaces, RunEnd, AfterSymbol;
    var h, n := Whole(s), NumberEnd(s);
    if Point(s) {
      Divide(s, h, h + 1);
      assert s[h..h + 1] == ".";
      Divide(s, h + 1, n);
    } else {
      Nothing(s[h..]);
    }
  }

  lemma {:induction false} PiecesBack(s: string)
    requires Complete(s)
    ensures var p := PartsOf(s);
            Gap(p.lead) && SignText(p.sign) && Gap(p.gap1) && SymbolText(p.symbol) && Gap(p.gap2) && SignText(p.sign2) && Gap(p.gap3)
  {
    hide *;
    PartsAre(s);
    var a, e := Start(s), Money(s);
    var b, f := AfterSign(s, a), AfterSign(s, e);
    var c := SkipSpaces(s, b);
    Beginning(s, a);
    GapBetween(s, 0);
    SignBetween(s, a);
    GapBetween(s, b);
    SymbolBetween(s, c);
    GapBetween(s, AfterSymbol(s, c));
    SignBetween(s, e);
    GapBetween(s, f);
  }

  lemma {:induction false} DigitsBack(s: string)
    requires Complete(s)
    ensures var p := PartsOf(s); FigureText(p.whole) && FigureText(p.fraction) && (!p.point ==> p.fraction == "")
  {
    hide *;
    PartsAre(s);
    FrontIs(s);
    FiguresBetween(s, Number(s));
    if Point(s) { FiguresBetween(s, Whole(s) + 1); } else { NoFigureText(); }
  }

  lemma {:induction false} TailBack(s: string)
    requires Complete(s)
    ensures var p := PartsOf(s); Gap(p.tail) && (p.whole == "" && !p.point ==> p.tail == "")
  {
    hide *;
    PartsAre(s);
    CompleteIs(s);
    MoneyIs(s);
    EndIs(s);
    GapBetween(s, NumberEnd(s));
    assert s[NumberEnd(s)..|s|] == s[NumberEnd(s)..];
    SkipStays(s, AfterSign(s, Money(s)));
    EmptySlice(s, Number(s), Whole(s));
  }

  lemma {:induction false} CompleteIs(s: string)
    requires Complete(s)
    ensures SkipSpaces(s, NumberEnd(s)) == |s|
  {
  }

  lemma {:induction false} EndIs(s: string)
    ensures !Point(s) ==> NumberEnd(s) == Whole(s)
  {
  }

  lemma {:induction false} EmptySlice(s: string, i: nat, j: nat)
    requires i <= j <= |s|
    ensures s[i..j] == "" <==> i == j
  {
    assert |s[i..j]| == j - i;
  }

  /** A part that is missing brings no gap, and at most one sign is there. */
  lemma {:induction false} MissingBack(s: string)
    requires Complete(s)
    ensures var p := PartsOf(s);
            (p.sign == "" ==> p.gap1 == "") && (p.symbol == "" ==> p.gap2 == "") && (p.sign2 == "" ==> p.gap3 == "") &&
            (p.sign == "" || p.sign2 == "") && (p.symbol == "" ==> p.sign2 == "")
  {
    hide *;
    PartsAre(s);
    WholeIs(s);
    var a, e := Start(s), Money(s);
    var b, f := AfterSign(s, a), AfterSign(s, e);
    var c := SkipSpaces(s, b);
    var d := AfterSymbol(s, c);
    SignBetween(s, a);
    SignBetween(s, e);
    SkipStays(s, 0);
    SkipStays(s, b);
    SkipStays(s, d);
    EmptySlice(s, a, b);
    EmptySlice(s, b, c);
    EmptySlice(s, c, d);
    EmptySlice(s, d, e);
    EmptySlice(s, e, f);
    EmptySlice(s, f, Number(s));
  }

  lemma {:induction false} FrontBack(s: string)
    requires Complete(s)
    ensures Plain(PartsOf(s).lead) || Front(PartsOf(s)) == ""
  {
    hide *;
    var p := PartsOf(s);
    PartsAre(s);
    LeadBack(s);
    SpelledBack(s);
    BehindIs(p);
    LeadIs(p.lead, Front(p));
    assert |s[..Start(s)]| == Start(s);
  }

  lemma {:induction false} ProperBack(s: string)
    requires Complete(s)
    ensures Proper(PartsOf(s))
  {
    hide *;
    PiecesBack(s);
    DigitsBack(s);
    TailBack(s);
    MissingBack(s);
    FrontBack(s);
    ProperFrom(PartsOf(s));
  }

  lemma {:induction false} NoFigureText()
    ensures FigureText("")
  {
  }

  /** Where skipping ends, it has nothing more to skip. */
  lemma {:induction false} SkipStays(s: string, i: nat)
    requires i <= |s|
    ensures SkipSpaces(s, SkipSpaces(s, i)) == SkipSpaces(s, i)
  {
  }

  lemma {:induction false} LeadBack(s: string)
    requires Complete(s)
    ensures Plain(s[..Start(s)]) || Start(s) == |s|
  {
    hide SkipSpaces, Money, NumberStarts, NumberEnd;
    var x := s[..Start(s)];
    if Start(s) < |s| {
      GapBetween(s, 0);
      Beginning(s, Start(s));
      forall i | 0 <= i < |x| ensures x[i] != '\U{00A0}' { assert x[i] == s[i]; }
      LeadPlain(x);
    }
  }

  lemma {:induction false} ProperFrom(p: Amount)
    requires Gap(p.lead) && (Plain(p.lead) || Front(p) == "") && SignText(p.sign) && SignText(p.sign2) && SymbolText(p.symbol)
    requires (p.sign == "" || p.sign2 == "") && (p.symbol == "" ==> p.sign2 == "") && FigureText(p.whole) && FigureText(p.fraction)
    requires Gap(p.gap1) && Gap(p.gap2) && Gap(p.gap3) && Gap(p.tail) && (p.sign == "" ==> p.gap1 == "") && (p.symbol == "" ==> p.gap2 == "")
    requires (p.sign2 == "" ==> p.gap3 == "") && (!p.point ==> p.fraction == "") && (p.whole == "" && !p.point ==> p.tail == "")
    ensures Proper(p)
  {
  }

  /** The complete texts are the spelled ones. */
  lemma {:induction false} CompleteExact(s: string)
    ensures Complete(s) <==> exists c :: Proper(c) && s == Spell(c)
  {
    hide Complete, Proper, Spell, PartsOf;
    if Complete(s) {
      SpelledBack(s);
      ProperBack(s);
      assert Proper(PartsOf(s)) && s == Spell(PartsOf(s));
    }
    forall c | Proper(c) && s == Spell(c) ensures Complete(s) { SpelledIsRead(c); }
  }
}
