/** The decimal texts that are read, spelled out of their parts: every such text is read as the number its
    parts say, and no other text is read. */
module NumericGrammar {
  import opened Decimal
  import opened Numeric
  import opened NumericText
  import opened Texts

  /** A sign, digits, perhaps a point and more digits, perhaps an exponent, and what follows the number. */
  datatype Numeral = Numeral(sign: string, whole: string, point: bool, fraction: string,
                             mark: string, gap: string, esign: string, power: string, rest: string)

  predicate Blank(s: string) { forall i :: 0 <= i < |s| ==> s[i] in {' ', '\t', '\n', '\r', '\U{000B}', '\U{000C}'} }

  /** There is a digit; digits behind the point need the point, and an exponent needs digits of its own. What
      follows does not go on with the number. */
  predicate Proper(c: Numeral) {
    SignText(c.sign) && Digital(c.whole) && Digital(c.fraction) && (!c.point ==> c.fraction == "") && c.whole + c.fraction != "" &&
    ProperPower(c) && !StartsWithDigit(c.rest) && (c.mark == "" ==> !StartsWith(c.rest, {'.', 'e', 'E'}))
  }

  predicate ProperPower(c: Numeral) {
    if c.mark == "" then c.gap == "" && c.esign == "" && c.power == ""
    else (c.mark == "e" || c.mark == "E") && Blank(c.gap) && SignText(c.esign) && Digital(c.power) && c.power != ""
  }

  function Dot(c: Numeral): string { if c.point then "." else "" }

  function Spell(c: Numeral): string { c.sign + (c.whole + (Dot(c) + (c.fraction + PowerText(c)))) }

  function PowerText(c: Numeral): string { c.mark + (c.gap + (c.esign + (c.power + c.rest))) }

  /** The exponent, by its sign and digits. */
  function Power(c: Numeral): int { if c.esign == "-" then -Dec(Vals(c.power)) else Dec(Vals(c.power)) }

  // ---- Stepping over the parts ----

  lemma {:induction false} RunOver(s: string, i: nat, x: string, t: string)
    requires Stands(s, i, x, t) && Digital(x) && !StartsWithDigit(t)
    ensures RunEnd(s, i) == i + |x|
    decreases |x|
  {
    if x != "" {
      assert s[i] == s[i..][0] == x[0];
      assert s[i + 1..] == s[i..][1..] == x[1..] + t;
      RunOver(s, i + 1, x[1..], t);
    } else {
      assert i < |s| ==> s[i] == s[i..][0];
    }
  }

  lemma {:induction false} BlankOver(s: string, i: nat, x: string, t: string)
    requires Stands(s, i, x, t) && Blank(x) && (t == "" || !IsSpace(t[0]))
    ensures SpaceEnd(s, i) == i + |x|
    decreases |x|
  {
    if x != "" {
      assert s[i] == s[i..][0] == x[0];
      assert s[i + 1..] == s[i..][1..] == x[1..] + t;
      BlankOver(s, i + 1, x[1..], t);
    } else {
      assert i < |s| ==> s[i] == s[i..][0];
    }
  }

  lemma {:induction false} CharAt(s: string, i: nat, t: string, cs: set<char>)
    requires i <= |s| && s[i..] == t
    ensures CharIn(s, i, cs) <==> StartsWith(t, cs)
  {
    assert i < |s| ==> s[i] == s[i..][0];
  }

  lemma {:induction false} SignOver(s: string, i: nat, x: string, t: string)
    requires Stands(s, i, x, t) && SignText(x) && !StartsWith(t, {'+', '-'})
    ensures SignEnd(s, i) == i + |x| && (CharIn(s, i, {'-'}) <==> x == "-")
  {
    CharAt(s, i, x + t, {'+', '-'});
    CharAt(s, i, x + t, {'-'});
  }

  // ---- Every spelled number is read as what it says ----

  lemma {:induction false} Heads(c: Numeral)
    requires Proper(c)
    ensures !StartsWithDigit(PowerText(c)) && (StartsWith(PowerText(c), {'e', 'E'}) <==> c.mark != "")
    ensures !StartsWith(PowerText(c), {'.'})
    ensures !StartsWithDigit(Dot(c) + (c.fraction + PowerText(c))) && (StartsWith(Dot(c) + (c.fraction + PowerText(c)), {'.'}) <==> c.point)
    ensures !StartsWith(c.whole + (Dot(c) + (c.fraction + PowerText(c))), {'+', '-'})
  {
    if c.mark == "" {
      assert PowerText(c) == c.rest;
    } else {
      assert PowerText(c)[0] == c.mark[0];
    }
    if !c.point { assert Dot(c) + (c.fraction + PowerText(c)) == PowerText(c); }
  }

  lemma {:induction false} ProperIs(c: Numeral)
    requires Proper(c)
    ensures SignText(c.sign) && Digital(c.whole) && Digital(c.fraction) && (!c.point ==> c.fraction == "") && c.whole + c.fraction != ""
    ensures !StartsWithDigit(c.rest) && (c.mark == "" ==> c.gap == "" && c.esign == "" && c.power == "")
    ensures c.mark != "" ==> |c.mark| == 1 && Blank(c.gap) && SignText(c.esign) && Digital(c.power) && c.power != ""
  {
  }

  lemma {:induction false} Next(s: string, i: nat, x: string, t: string)
    requires i <= |s| && s[i..] == x + t
    ensures i + |x| <= |s| && s[i..i + |x|] == x && s[i + |x|..] == t
  {
    Mid(s, i, x, t);
    assert t == "" + t;
    Over(s, i, x, t, "", t);
  }

  lemma {:induction false} RunStep(s: string, i: nat, x: string, t: string)
    requires i <= |s| && s[i..] == x + t && Digital(x) && !StartsWithDigit(t)
    ensures i + |x| <= |s| && RunEnd(s, i) == i + |x| && s[i..i + |x|] == x && s[i + |x|..] == t
  {
    hide *;
    Mid(s, i, x, t);
    RunOver(s, i, x, t);
    Next(s, i, x, t);
  }

  lemma {:induction false} SignStep(s: string, i: nat, x: string, t: string)
    requires i <= |s| && s[i..] == x + t && SignText(x) && !StartsWith(t, {'+', '-'})
    ensures i + |x| <= |s| && SignEnd(s, i) == i + |x| && s[i + |x|..] == t && (CharIn(s, i, {'-'}) <==> x == "-")
  {
    hide *;
    Mid(s, i, x, t);
    SignOver(s, i, x, t);
    Next(s, i, x, t);
  }

  /** A sign, digits, and what follows, behind which nothing goes on with the digits. */
  lemma {:induction false} WholeStep(sign: string, whole: string, t: string)
    requires SignText(sign) && Digital(whole) && !StartsWithDigit(t) && !StartsWith(whole + t, {'+', '-'})
    ensures var s, p2 := sign + (whole + t), |sign| + |whole|;
            p2 <= |s| && SignEnd(s, 0) == |sign| && Whole(s) == p2 && s[|sign|..p2] == whole && s[p2..] == t && (CharIn(s, 0, {'-'}) <==> sign == "-") &&
            (HasPoint(s) <==> StartsWith(t, {'.'}))
  {
    hide *;
    var s := sign + (whole + t);
    assert s[0..] == s;
    SignStep(s, 0, sign, whole + t);
    RunStep(s, |sign|, whole, t);
    WholeIs(s);
    CharAt(s, |sign| + |whole|, t, {'.'});
  }

  lemma {:induction false} WholeIs(s: string)
    ensures SignEnd(s, 0) <= |s| && Whole(s) == RunEnd(s, SignEnd(s, 0)) && (HasPoint(s) <==> CharIn(s, Whole(s), {'.'}))
  {
  }

  /** The sign and the digits before the point. */
  lemma {:induction false} WholeRead(c: Numeral)
    requires Proper(c)
    ensures var s, p1, p2 := Spell(c), |c.sign|, |c.sign| + |c.whole|;
            p2 <= |s| && SignEnd(s, 0) == p1 && Whole(s) == p2 && s[p1..p2] == c.whole && s[p2..] == Dot(c) + (c.fraction + PowerText(c)) &&
            (CharIn(s, 0, {'-'}) <==> c.sign == "-") && (HasPoint(s) <==> c.point)
  {
    hide *;
    ProperIs(c);
    Heads(c);
    SpellIs(c);
    WholeStep(c.sign, c.whole, Dot(c) + (c.fraction + PowerText(c)));
  }

  lemma {:induction false} SpellIs(c: Numeral)
    ensures Spell(c) == c.sign + (c.whole + (Dot(c) + (c.fraction + PowerText(c)))) && Dot(c) == (if c.point then "." else "")
  {
  }

  /** The digits behind the point. */
  lemma {:induction false} FractionStep(s: string, p: nat, point: bool, fraction: string, t: string)
    requires p <= |s| && p == Whole(s) && s[p..] == (if point then "." else "") + (fraction + t) && (HasPoint(s) <==> point)
    requires Digital(fraction) && !StartsWithDigit(t) && (!point ==> fraction == "")
    ensures var e := p + (if point then 1 else 0) + |fraction|; e <= |s| && MantissaEnd(s) == e && Fraction(s) == fraction && s[e..] == t
  {
    hide *;
    Next(s, p, if point then "." else "", fraction + t);
    var p3 := p + (if point then 1 else 0);
    RunStep(s, p3, fraction, t);
    FractionIs(s);
  }

  lemma {:induction false} FractionIs(s: string)
    ensures Whole(s) <= |s| && (HasPoint(s) ==> Whole(s) < |s| && MantissaEnd(s) == RunEnd(s, Whole(s) + 1))
    ensures HasPoint(s) ==> Whole(s) + 1 <= MantissaEnd(s) <= |s| && Fraction(s) == s[Whole(s) + 1..MantissaEnd(s)]
    ensures !HasPoint(s) ==> MantissaEnd(s) == Whole(s) && Fraction(s) == ""
  {
  }

  lemma {:induction false} MantissaRead(c: Numeral)
    requires Proper(c)
    ensures var s, end := Spell(c), |c.sign| + |c.whole| + |Dot(c)| + |c.fraction|;
            MantissaOk(s) && AllDigits(s) == c.whole + c.fraction && Fraction(s) == c.fraction && MantissaEnd(s) == end &&
            end <= |s| && s[end..] == PowerText(c)
  {
    hide *;
    var s := Spell(c);
    ProperIs(c);
    Heads(c);
    WholeRead(c);
    SpellIs(c);
    FractionStep(s, |c.sign| + |c.whole|, c.point, c.fraction, PowerText(c));
    MantissaIs(s);
    CharAt(s, MantissaEnd(s), PowerText(c), {'.'});
  }

  lemma {:induction false} MantissaIs(s: string)
    ensures SignEnd(s, 0) <= Whole(s) <= |s| && AllDigits(s) == s[SignEnd(s, 0)..Whole(s)] + Fraction(s)
    ensures MantissaOk(s) <==> AllDigits(s) != "" && !(HasPoint(s) && CharIn(s, MantissaEnd(s), {'.'}))
  {
  }

  /** Where the digits of an integer start. */
  lemma {:induction false} IntSign(s: string, p: nat, gap: string, sign: string, t: string)
    requires Stands(s, p, gap, sign + t) && Blank(gap) && SignText(sign) && !StartsWith(t, {'+', '-'}) && (sign == "" ==> t == "" || !IsSpace(t[0]))
    ensures IntAt(s, p) == p + |gap| + |sign| && s[p + |gap| + |sign|..] == t && (CharIn(s, SpaceEnd(s, p), {'-'}) <==> sign == "-")
  {
    hide Stands, SpaceEnd, Blank, CharIn, SignEnd, StartsWith;
    BlankOver(s, p, gap, sign + t);
    Over(s, p, gap, sign + t, sign, t);
    SignOver(s, p + |gap|, sign, t);
    assert t == "" + t;
    Over(s, p + |gap|, sign, t, "", t);
  }

  lemma {:induction false} IntDigits(s: string, p: nat, at: nat, power: string, rest: string)
    requires p <= |s| && at == IntAt(s, p) && s[at..] == power + rest && Digital(power) && !StartsWithDigit(rest)
    ensures IntEnd(s, p) == at + |power| == |s| - |rest| && s[at..IntEnd(s, p)] == power
  {
    hide Stands, IntAt, RunEnd, Digital, StartsWithDigit;
    Mid(s, at, power, rest);
    RunOver(s, at, power, rest);
    assert rest == "" + rest;
    Over(s, at, power, rest, "", rest);
  }

  /** The exponent. */
  lemma {:induction false} PowerRead(c: Numeral, s: string, q: nat)
    requires Proper(c) && c.mark != "" && q <= |s| && s[q..] == PowerText(c)
    ensures q < |s| && IntEnd(s, q + 1) > IntAt(s, q + 1) && IntValue(s, q + 1) == Power(c)
    ensures IntEnd(s, q + 1) == |s| - |c.rest|
  {
    hide Stands, RunEnd, SpaceEnd, Digital, Blank, Dec, Vals, Proper, CharIn, SignEnd, StartsWith, StartsWithDigit, SignText, IntAt, IntEnd;
    var t7 := c.power + c.rest;
    ProperIs(c);
    PowerHeads(c);
    Mid(s, q, c.mark, c.gap + (c.esign + t7));
    Over(s, q, c.mark, c.gap + (c.esign + t7), c.gap, c.esign + t7);
    IntSign(s, q + 1, c.gap, c.esign, t7);
    IntDigits(s, q + 1, q + 1 + |c.gap| + |c.esign|, c.power, c.rest);
  }

  lemma {:induction false} PowerHeads(c: Numeral)
    requires Proper(c) && c.mark != ""
    ensures !StartsWith(c.power + c.rest, {'+', '-'})
    ensures var t := c.power + c.rest; t == "" || !IsSpace(t[0])
  {
  }

  /** A text spelled out of proper parts is accepted, and says what its parts say. */
  lemma {:induction false} SpelledIsRead(c: Numeral)
    requires Proper(c)
    ensures var s := Spell(c);
            SyntaxOk(s) && AllDigits(s) == c.whole + c.fraction && Exponent(s) == Power(c) &&
            NumericText.Scale(s) == |c.fraction| - Power(c) && TextEnd(s) == |s| - |c.rest| && (CharIn(s, 0, {'-'}) <==> c.sign == "-")
  {
    hide MantissaOk, MantissaEnd, AllDigits, Fraction, IntEnd, IntAt, IntValue, Spell, Proper, PowerText, StartsWith, CharIn, Power;
    var s := Spell(c);
    MantissaRead(c);
    WholeRead(c);
    Heads(c);
    CharAt(s, MantissaEnd(s), PowerText(c), {'e', 'E'});
    if c.mark != "" { PowerRead(c, s, MantissaEnd(s)); } else { NoPower(c); }
  }

  lemma {:induction false} NoPower(c: Numeral)
    requires Proper(c) && c.mark == ""
    ensures Power(c) == 0 && PowerText(c) == c.rest
  {
    assert Vals("") == [];
  }

  // ---- Every text that is read is spelled ----

  /** The parts of a text that is accepted. */
  function PartsOf(s: string): Numeral
    requires SyntaxOk(s)
  {
    var a, b, e, q := SignEnd(s, 0), Whole(s), MantissaEnd(s), TextEnd(s);
    if HasExponent(s) then
      var sp, at := SpaceEnd(s, e + 1), IntAt(s, e + 1);
      Numeral(s[..a], s[a..b], HasPoint(s), Fraction(s), s[e..e + 1], s[e + 1..sp], s[sp..at], s[at..q], s[q..])
    else Numeral(s[..a], s[a..b], HasPoint(s), Fraction(s), "", "", "", "", s[e..])
  }

  lemma {:induction false} SpacesBetween(s: string, i: nat)
    requires i <= |s|
    ensures Blank(s[i..SpaceEnd(s, i)])
    decreases |s| - i
  {
    if i < |s| && IsSpace(s[i]) {
      SpacesBetween(s, i + 1);
      assert s[i..SpaceEnd(s, i)] == [s[i]] + s[i + 1..SpaceEnd(s, i)];
    }
  }

  lemma {:induction false} SignBetween(s: string, i: nat)
    requires i <= |s|
    ensures i <= SignEnd(s, i) <= |s| && SignText(s[i..SignEnd(s, i)])
  {
    if CharIn(s, i, {'+', '-'}) { assert s[i..i + 1] == [s[i]]; }
  }

  lemma {:induction false} DigitsBetween(s: string, i: nat)
    requires i <= |s|
    ensures Digital(s[i..RunEnd(s, i)]) && !StartsWithDigit(s[RunEnd(s, i)..])
  {
    hide RunEnd;
    var e := RunEnd(s, i);
    assert forall j :: 0 <= j < e - i ==> s[i..e][j] == s[i + j];
    assert e < |s| ==> s[e..][0] == s[e];
  }

  lemma {:induction false} WholeSpelled(s: string)
    ensures var a, b := SignEnd(s, 0), Whole(s);
            a <= b <= |s| && s == s[..a] + (s[a..b] + s[b..]) && SignText(s[..a]) && Digital(s[a..b])
  {
    hide RunEnd, Digital, SignText, SignEnd;
    var a, b := SignEnd(s, 0), Whole(s);
    SignBetween(s, 0);
    assert s[0..a] == s[..a] && s[0..] == s;
    Divide(s, 0, a);
    DigitsBetween(s, a);
    Divide(s, a, b);
  }

  lemma {:induction false} FractionSpelled(s: string)
    ensures var b, e := Whole(s), MantissaEnd(s);
            b <= e <= |s| && s[b..] == (if HasPoint(s) then "." else "") + (Fraction(s) + s[e..]) && Digital(Fraction(s)) && (!HasPoint(s) ==> Fraction(s) == "")
  {
    hide RunEnd, Digital, SignEnd;
    var b, e := Whole(s), MantissaEnd(s);
    SignBetween(s, 0);
    if HasPoint(s) {
      Divide(s, b, b + 1);
      assert s[b..b + 1] == ".";
      DigitsBetween(s, b + 1);
      Divide(s, b + 1, e);
    } else {
      EmptyFront(s[b..]);
    }
  }

  /** The mantissa of an accepted text, and what follows it. */
  lemma {:induction false} MantissaSpelled(s: string)
    requires SyntaxOk(s)
    ensures var c, e := PartsOf(s), MantissaEnd(s);
            e <= |s| && s == c.sign + (c.whole + (Dot(c) + (c.fraction + s[e..]))) && SignText(c.sign) && Digital(c.whole) && Digital(c.fraction) &&
            (!c.point ==> c.fraction == "") && c.whole + c.fraction != "" && !StartsWith(s[e..], {'.'})
  {
    hide Whole, Fraction, MantissaEnd, Digital, SignText, SpaceEnd, IntAt, IntEnd, StartsWith, CharIn, SignEnd;
    WholeSpelled(s);
    FractionSpelled(s);
    CharAt(s, MantissaEnd(s), s[MantissaEnd(s)..], {'.'});
    NoPointBehind(s);
  }

  lemma {:induction false} NoPointBehind(s: string)
    requires MantissaOk(s)
    ensures !CharIn(s, MantissaEnd(s), {'.'})
  {
  }

  lemma {:induction false} EmptyFront(t: string)
    ensures "" + ("" + t) == t && Digital("")
  {
  }

  /** The exponent of an accepted text. */
  lemma {:induction false} PowerSpelled(s: string)
    requires SyntaxOk(s)
    ensures var c, e := PartsOf(s), MantissaEnd(s);
            e <= |s| && s[e..] == PowerText(c) && ProperPower(c) && !StartsWithDigit(c.rest) &&
            (c.mark == "" ==> c.rest == s[e..] && !StartsWith(c.rest, {'e', 'E'}))
  {
    hide RunEnd, Digital, SignText, SpaceEnd, Blank, MantissaOk, Whole, Fraction, SignEnd;
    var e := MantissaEnd(s);
    EndWithin(s);
    CharAt(s, e, s[e..], {'e', 'E'});
    if HasExponent(s) {
      var p := e + 1;
      var sp, at, q := SpaceEnd(s, p), IntAt(s, p), IntEnd(s, p);
      Divide(s, e, p);
      assert s[e..p] == [s[e]];
      SpacesBetween(s, p);
      Divide(s, p, sp);
      SignBetween(s, sp);
      Divide(s, sp, at);
      DigitsBetween(s, at);
      Divide(s, at, q);
    } else {
      EmptyFront(s[e..]);
      EmptyFront("" + ("" + s[e..]));
      NotDigitAtEnd(s);
    }
  }

  lemma {:induction false} EndWithin(s: string)
    ensures MantissaEnd(s) <= |s|
  {
  }

  lemma {:induction false} NotDigitAtEnd(s: string)
    ensures MantissaEnd(s) <= |s| && !StartsWithDigit(s[MantissaEnd(s)..])
  {
    hide RunEnd;
    SignBetween(s, 0);
    DigitsBetween(s, SignEnd(s, 0));
    if HasPoint(s) { DigitsBetween(s, Whole(s) + 1); }
  }

  /** The accepted texts are the spelled ones. */
  lemma {:induction false} SyntaxExact(s: string)
    ensures SyntaxOk(s) <==> exists c :: Proper(c) && s == Spell(c)
  {
    if SyntaxOk(s) {
      var c := PartsOf(s);
      MantissaSpelled(s);
      PowerSpelled(s);
      hide SyntaxOk, MantissaEnd, PartsOf, PowerText, ProperPower, Digital, SignText, StartsWithDigit;
      ProperFrom(c, s[MantissaEnd(s)..]);
      assert Proper(c) && s == Spell(c);
    }
    forall c | Proper(c) && s == Spell(c) ensures SyntaxOk(s) { SpelledIsRead(c); }
  }

  lemma {:induction false} ProperFrom(c: Numeral, tail: string)
    requires SignText(c.sign) && Digital(c.whole) && Digital(c.fraction) && (!c.point ==> c.fraction == "") && c.whole + c.fraction != ""
    requires ProperPower(c) && !StartsWithDigit(c.rest) && !StartsWith(tail, {'.'})
    requires c.mark == "" ==> c.rest == tail && !StartsWith(c.rest, {'e', 'E'})
    ensures Proper(c)
  {
  }

  /** Reading a spelled number: its digits at its scale, its sign unless it is zero, and its end. */
  method ReadNumeral(c: Numeral) returns (r: Result<nat>, v: NumericVar)
    requires Proper(c) && |Spell(c)| + 8 <= 0x3fff_ffff
    ensures r == Err(Overflow) <==> !(-1073741823 < Power(c) < 1073741823)
    ensures r.Ok? <==> r != Err(Overflow)
    ensures r.Ok? ==> r.value == |Spell(c)| - |c.rest| && v.Valid() && Stripped(v.Contents(), v.weight)
    ensures r.Ok? ==> Exactly(v.Contents(), v.weight, |c.fraction| - Power(c), Dec(Vals(c.whole + c.fraction)))
    ensures r.Ok? ==> v.dscale == if |c.fraction| < Power(c) then 0 else |c.fraction| - Power(c)
    ensures r.Ok? ==> v.sign == if c.sign == "-" && v.Contents() != [] then Neg else Pos
  {
    hide *;
    SpelledIsRead(c);
    LimitIs();
    r, v := SetVarFromStr(Spell(c));
    TwoErrors(r);
  }

  lemma {:induction false} TwoErrors(r: Result<nat>)
    ensures r.Ok? || r == Err(Overflow) || r == Err(BadSyntax)
  {
    match r
    case Ok(_) =>
    case Err(Overflow) =>
    case Err(BadSyntax) =>
  }

  lemma LimitIs()
    ensures MAX_EXPONENT == 1073741823
  {
  }
}
