/** The stored form of a numeric: a header of one or two 16-bit words in front of the digits. */
module NumericStore {
  import opened Decimal
  import opened Numeric

  /** What a NumericVar holds, and what a stored numeric unpacks to. */
  datatype Value = Value(sign: Sign, dscale: int, weight: int, digits: seq<int>)

  const LONG_NEG := 0x4000
  const SHORT := 0x8000
  const NOT_A_NUMBER := 0xC000

  /** Scale and weight fit the one-word header. */
  predicate CanBeShort(dscale: int, weight: int) { dscale <= 63 && -64 <= weight <= 63 }

  /** The header's bit fields do not overlap, so they are added up. */
  function Header(v: Value): seq<int> {
    if CanBeShort(v.dscale, v.weight) then
      [SHORT + (if v.sign.Neg? then 0x2000 else 0) + v.dscale * 128 + (if v.weight < 0 then 0x40 else 0) + v.weight % 64]
    else [(if v.sign.Neg? then LONG_NEG else 0) + v.dscale % 0x4000, v.weight % 0x10000]
  }

  predicate WellFormed(words: seq<int>) {
    |words| >= 1 && 0 <= words[0] < 0x10000 && (words[0] < SHORT ==> |words| >= 2 && 0 <= words[1] < 0x10000)
  }

  predicate IsNaN(words: seq<int>) { |words| >= 1 && words[0] / 0x4000 == 3 }

  /** The fields as the extraction macros read them. */
  function Unpack(words: seq<int>): Value
    requires WellFormed(words)
  {
    var h := words[0];
    if h >= SHORT then
      Value(if (h / 0x2000) % 2 == 1 then Neg else Pos, (h / 128) % 64, h % 64 - (if (h / 64) % 2 == 1 then 64 else 0), words[1..])
    else
      Value(if h >= LONG_NEG then Neg else Pos, h % 0x4000, if words[1] >= 0x8000 then words[1] - 0x10000 else words[1], words[2..])
  }

  /** Fields that the stored form can hold. */
  predicate Fits(v: Value) { 0 <= v.dscale < 0x4000 && -0x8000 <= v.weight < 0x8000 }

  /** Unpacking gives back every field exactly when the fields fit. */
  lemma {:induction false} HeaderBack(v: Value)
    requires v.dscale >= 0
    ensures WellFormed(Header(v) + v.digits) && !IsNaN(Header(v) + v.digits)
    ensures Unpack(Header(v) + v.digits) == v <==> Fits(v)
    ensures var u := Unpack(Header(v) + v.digits); (u.weight == v.weight && u.dscale == v.dscale) <==> Fits(v)
  {
    var words := Header(v) + v.digits;
    if CanBeShort(v.dscale, v.weight) {
      ShortBack(v.sign.Neg?, v.dscale, v.weight);
      assert words[1..] == v.digits;
    } else {
      LongBack(v.sign.Neg?, v.dscale, v.weight);
      assert words[2..] == v.digits;
    }
  }

  /** Where the fields stand. One word: the flag 10, the sign, six bits of scale, and the weight as a sign
      bit and six bits; two words: the sign below a zero bit and 14 bits of scale, then the weight. */
  lemma {:induction false} HeaderLayout(v: Value)
    requires Fits(v)
    ensures v.dscale <= 63 && -64 <= v.weight <= 63 ==>
      |Header(v)| == 1 && var h := Header(v)[0];
      h / 0x4000 == 2 && (h / 0x2000 % 2 == 1 <==> v.sign.Neg?) && h / 0x80 % 0x40 == v.dscale && (h / 0x40 % 2 == 1 <==> v.weight < 0) &&
      h % 0x40 == v.weight % 0x40
    ensures !(v.dscale <= 63 && -64 <= v.weight <= 63) ==>
      |Header(v)| == 2 && var h := Header(v)[0];
      h / 0x8000 == 0 && (h / 0x4000 == 1 <==> v.sign.Neg?) && h % 0x4000 == v.dscale && Header(v)[1] == v.weight % 0x10000
  {
    if CanBeShort(v.dscale, v.weight) { ShortFields(v.sign.Neg?, v.dscale, v.weight); } else { LongBack(v.sign.Neg?, v.dscale, v.weight); }
  }

  lemma {:induction false} ShortFields(neg: bool, d: int, w: int)
    requires 0 <= d <= 63 && -64 <= w <= 63
    ensures var h := 0x8000 + (if neg then 0x2000 else 0) + d * 128 + (if w < 0 then 0x40 else 0) + w % 64;
            h / 0x4000 == 2 && (h / 0x2000 % 2 == 1 <==> neg) && h / 0x80 % 0x40 == d && (h / 0x40 % 2 == 1 <==> w < 0) && h % 0x40 == w % 0x40
  {
    var low, sign := (if w < 0 then 64 else 0) + w % 64, if neg then 1 else 0;
    var h := 0x8000 + (if neg then 0x2000 else 0) + d * 128 + (if w < 0 then 0x40 else 0) + w % 64;
    assert h == 128 * (256 + 64 * sign + d) + low && 0 <= low < 128;
    assert h / 128 == 256 + 64 * sign + d && h / 64 == 2 * (256 + 64 * sign + d) + low / 64;
    assert h / 0x2000 == 4 + sign && h / 0x4000 == 2;
  }

  lemma {:induction false} ShortBack(neg: bool, d: int, w: int)
    requires 0 <= d <= 63 && -64 <= w <= 63
    ensures var h := SHORT + (if neg then 0x2000 else 0) + d * 128 + (if w < 0 then 0x40 else 0) + w % 64;
            SHORT <= h < NOT_A_NUMBER && ((h / 0x2000) % 2 == 1 <==> neg) && (h / 128) % 64 == d &&
            h % 64 - (if (h / 64) % 2 == 1 then 64 else 0) == w
  {
    var low := (if w < 0 then 64 else 0) + w % 64;
    var high := 256 + (if neg then 64 else 0) + d;
    var h := SHORT + (if neg then 0x2000 else 0) + d * 128 + (if w < 0 then 0x40 else 0) + w % 64;
    assert h == 128 * high + low && 0 <= low < 128;
    assert h / 128 == high && h / 64 == 2 * high + low / 64 && h % 64 == low % 64 && h / 0x2000 == high / 64;
    assert low / 64 == (if w < 0 then 1 else 0) && low % 64 == w % 64;
  }

  lemma {:induction false} LongBack(neg: bool, d: int, w: int)
    requires d >= 0
    ensures var h := (if neg then LONG_NEG else 0) + d % 0x4000;
            0 <= h < SHORT && (h >= LONG_NEG <==> neg) && (h % 0x4000 == d <==> d < 0x4000)
    ensures var x := w % 0x10000; (if x >= 0x8000 then x - 0x10000 else x) == w <==> -0x8000 <= w < 0x8000
  {
  }

  // ---- Packing ----

  /** Same magnitude, and the same sign unless it is zero. */
  ghost predicate Equal(u: Value, v: Value) {
    SameValue(u.digits, u.weight, v.digits, v.weight) && (u.sign == v.sign || Exactly(u.digits, u.weight, 0, 0))
  }

  /** The one form every equal value is stored in. */
  predicate Canonical(v: Value) {
    Digits(v.digits) && Stripped(v.digits, v.weight) && (v.digits == [] ==> v.sign == Pos)
  }

  lemma {:induction false} CanonicalUnique(u: Value, v: Value)
    requires Canonical(u) && Canonical(v) && Equal(u, v)
    ensures u.digits == v.digits && u.weight == v.weight && u.sign == v.sign
  {
    StrippedUnique(u.digits, u.weight, v.digits, v.weight);
    if u.digits != [] { NotZero(u.digits, u.weight); }
  }

  lemma {:induction false} EqualTrans(u: Value, v: Value, w: Value)
    requires Equal(u, v) && Equal(v, w)
    ensures Equal(u, w)
  {
    SameValueTrans(u.digits, u.weight, v.digits, v.weight, w.digits, w.weight);
    hide Exactly;
    assert Exactly(u.digits, u.weight, 0, 0) <==> Exactly(v.digits, v.weight, 0, 0);
  }

  lemma {:induction false} EqualSym(u: Value, v: Value)
    requires Equal(u, v)
    ensures Equal(v, u)
  {
    hide Exactly;
    assert Exactly(u.digits, u.weight, 0, 0) <==> Exactly(v.digits, v.weight, 0, 0);
  }

  /** Equal values with the same display scale have the same canonical form. */
  lemma {:induction false} SameForm(u: Value, v: Value, p: Value, q: Value)
    requires Canonical(p) && Equal(p, u) && p.dscale == u.dscale && Canonical(q) && Equal(q, v) && q.dscale == v.dscale
    requires Equal(u, v) && u.dscale == v.dscale
    ensures p == q
  {
    hide Canonical, Equal;
    EqualTrans(p, u, v);
    EqualSym(q, v);
    EqualTrans(p, v, q);
    CanonicalUnique(p, q);
  }

  /** u is the canonical form of the value, and r its words, or the error that it does not fit. */
  ghost predicate PackedAs(r: Result<seq<int>>, value: Value, u: Value) {
    Canonical(u) && Equal(u, value) && u.dscale == value.dscale &&
    if Fits(u) then r == Ok(Header(u) + u.digits) && WellFormed(r.value) && !IsNaN(r.value) && Unpack(r.value) == u
    else r == Err(Overflow)
  }

  /** Equal values with the same display scale are stored in the same words, or overflow alike. */
  lemma {:induction false} PackAlike(r: Result<seq<int>>, s: Result<seq<int>>, u: Value, v: Value, p: Value, q: Value)
    requires PackedAs(r, u, p) && PackedAs(s, v, q) && Equal(u, v) && u.dscale == v.dscale
    ensures r == s
  {
    hide Canonical, Equal, Fits, Header, WellFormed, IsNaN, Unpack;
    SameForm(u, v, p, q);
  }

  /** Packs a variable: zero digits at both ends are left out, and fields that do not fit are an error.
      The variable itself is not changed. */
  method MakeResult(v: NumericVar) returns (r: Result<seq<int>>)
    requires v.Valid() && v.dscale >= 0
    ensures exists u :: PackedAs(r, Value(v.sign, v.dscale, v.weight, v.Contents()), u)
  {
    ghost var all := v.Contents();
    assert v.first + v.ndigits <= v.buf.Length && all == v.buf[v.first..v.first + v.ndigits] && Digits(all);
    hide *;
    var from, n, weight := Trim(v.buf, v.first, v.ndigits, v.weight);
    var sign := if n == 0 then Pos else v.sign;
    var digits := v.buf[from..from + n];
    var u := Value(sign, v.dscale, weight, digits);
    PackedForm(u, v.sign, all, v.weight);
    var words := Header(u) + digits;
    HeaderBack(u);
    var back := Unpack(words);
    r := if back.weight != weight || back.dscale != v.dscale then Err(Overflow) else Ok(words);
    PackedIs(r, Value(v.sign, v.dscale, v.weight, all), u);
    v.ContentsFacts();
    assert PackedAs(r, Value(v.sign, v.dscale, v.weight, v.Contents()), u);
  }

  lemma {:induction false} PackedIs(r: Result<seq<int>>, value: Value, u: Value)
    requires Canonical(u) && Equal(u, value) && u.dscale == value.dscale && u.dscale >= 0
    requires r == if Fits(u) then Ok(Header(u) + u.digits) else Err(Overflow)
    ensures PackedAs(r, value, u)
  {
    HeaderBack(u);
  }

  lemma {:induction false} PackedForm(u: Value, sign: Sign, all: seq<int>, weight: int)
    requires Digits(u.digits) && Stripped(u.digits, u.weight) && SameValue(u.digits, u.weight, all, weight)
    requires u.sign == (if u.digits == [] then Pos else sign)
    ensures Canonical(u) && Equal(u, Value(sign, u.dscale, weight, all))
  {
    ExactlyZero(0, 0, 0);
  }

  /** Unpacks into fresh storage with a spare digit in front. */
  method SetFromNum(words: seq<int>) returns (v: NumericVar)
    requires WellFormed(words) && Canonical(Unpack(words))
    ensures fresh(v) && fresh(v.buf) && v.Valid() && v.first == 1 && v.buf[0] == 0
    ensures Value(v.sign, v.dscale, v.weight, v.Contents()) == Unpack(words)
  {
    var u := Unpack(words);
    v := new NumericVar(|u.digits|);
    v.weight, v.sign, v.dscale := u.weight, u.sign, u.dscale;
    var buf := v.buf;
    for i := 0 to |u.digits|
      modifies buf
      invariant buf[0] == 0
      invariant forall j :: 0 <= j < i ==> buf[1 + j] == u.digits[j]
    {
      buf[1 + i] := u.digits[i];
    }
    assert v.Contents() == u.digits;
  }

  const MAX_RESULT_SCALE := 2000

  function Clamp(scale: int): int {
    if scale < -MAX_RESULT_SCALE then -MAX_RESULT_SCALE else if scale > MAX_RESULT_SCALE then MAX_RESULT_SCALE else scale
  }

  /** T-SQL ROUND on a stored numeric: the stored result is the canonical form of the argument rounded
      half away from zero at the requested decimal position. */
  method NumericRound(words: seq<int>, scale: int) returns (r: Result<seq<int>>)
    requires WellFormed(words) && (IsNaN(words) || Canonical(Unpack(words)))
    ensures IsNaN(words) ==> r == Ok([NOT_A_NUMBER])
    ensures !IsNaN(words) ==> Rounding(Unpack(words), Clamp(scale), r)
  {
    hide *;
    if IsNaN(words) { return Ok([NOT_A_NUMBER]); }
    var s := Clamp(scale);
    ghost var u := Unpack(words);
    CanonicalLead(u);
    var v := SetFromNum(words);
    v.ContentsFacts();
    var done := v.Round(s);
    if done.Err? {
      OverflowIs(u, s);
      return Err(Overflow);
    }
    v.ContentsFacts();
    if s < 0 {
      ghost var ds := v.Contents();
      v.dscale := 0;
      v.ContentsAre(ds);
    }
    ghost var rounded := Value(v.sign, v.dscale, v.weight, v.Contents());
    r := MakeResult(v);
    ghost var p :| PackedAs(r, rounded, p);
    RoundedStored(u, s, rounded, p, r);
  }

  lemma {:induction false} OverflowIs(u: Value, s: int)
    requires s < 0 && u.digits != [] && JustBelow(u.digits, u.weight, s)
    ensures Rounding(u, s, Err(Overflow))
  {
  }

  lemma {:induction false} CanonicalLead(u: Value)
    requires Canonical(u)
    ensures u.digits != [] ==> u.digits[0] != 0
  {
  }

  /** What ROUND promises about a value, a scale within the limits, and the stored result. */
  ghost predicate Rounding(u: Value, s: int, r: Result<seq<int>>) {
    if s < 0 && u.digits != [] && JustBelow(u.digits, u.weight, s) then r == Err(Overflow)
    else exists p :: RoundedTo(u, s, p) && (if Fits(p) then r.Ok? && WellFormed(r.value) && Unpack(r.value) == p else r == Err(Overflow))
  }

  ghost predicate RoundedTo(u: Value, s: int, p: Value) {
    Canonical(p) && Exactly(p.digits, p.weight, s, Rounded(u.digits, u.weight, s)) &&
    p.dscale == (if s < 0 then 0 else s) && (p.sign == u.sign || p.digits == [])
  }

  lemma {:induction false} RoundedStored(u: Value, s: int, rounded: Value, p: Value, r: Result<seq<int>>)
    requires !(s < 0 && u.digits != [] && JustBelow(u.digits, u.weight, s))
    requires Exactly(rounded.digits, rounded.weight, s, Rounded(u.digits, u.weight, s)) && rounded.dscale == (if s < 0 then 0 else s)
    requires rounded.sign == u.sign || (rounded.sign == Pos && rounded.digits == [])
    requires PackedAs(r, rounded, p)
    ensures Rounding(u, s, r)
  {
    if p.digits != [] {
      NotZero(p.digits, p.weight);
      ExactlyZero(rounded.weight, 0, 0);
      assert Exactly(p.digits, p.weight, 0, 0) <==> Exactly(rounded.digits, rounded.weight, 0, 0);
    }
    assert RoundedTo(u, s, p);
  }
}
