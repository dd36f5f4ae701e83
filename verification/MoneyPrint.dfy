/** Printing a 64-bit money value: digits are produced backwards and reversed in place, without ever
    negating the value, so that the smallest one prints too. */
module MoneyPrint {
  import opened Decimal
  import opened Machine

  function Abs(x: int): nat { if x < 0 then -x else x }

  function Digit(d: int): char
    requires 0 <= d <= 9
  {
    '0' + d as char
  }

  // ---- Texts ----

  /** The digits of n, none for zero. */
  function Digs(n: nat): string { if n == 0 then "" else Digs(n / 10) + [Digit(n % 10)] }

  function NatText(n: nat): string { if n == 0 then "0" else Digs(n) }

  function IntText(x: int): string { if x < 0 then "-" + NatText(-x) else NatText(x) }

  /** The lowest k digits of n, with leading zeros. */
  function LowDigits(n: nat, k: nat): (s: string)
    ensures |s| == k
    decreases k
  {
    if k == 0 then "" else LowDigits(n / 10, k - 1) + [Digit(n % 10)]
  }

  /** A money value in ten-thousandths. */
  function MoneyText(v: int): string {
    (if v < 0 then "-" else "") + NatText(Abs(v) / 10000) + "." + LowDigits(Abs(v) % 10000, 4)
  }

  lemma {:induction false} DigsLength(n: nat, k: nat)
    requires n < Pow10(k)
    ensures |Digs(n)| <= k
    decreases k
  {
    if n > 0 { DigsLength(n / 10, k - 1); }
  }

  lemma {:induction false} IntTextLength(x: int)
    requires Int64(x)
    ensures |IntText(x)| <= 20 && (x >= 0 ==> |IntText(x)| <= 19)
  {
    Pow10Four();
    Pow10Add(4, 4);
    Pow10Add(8, 8);
    Pow10Add(16, 3);
    assert Pow10(8) == 1_0000_0000 && Pow10(16) == 1_0000_0000_0000_0000 && Pow10(19) == 1000_0000_0000_0000_0000;
    DigsLength(Abs(x), 19);
  }

  // ---- Reversing ----

  function Rev(s: string): (r: string)
    ensures |r| == |s|
  {
    if s == "" then "" else Rev(s[1..]) + [s[0]]
  }

  lemma {:induction false} RevAt(s: string, i: nat)
    requires i < |s|
    ensures Rev(s)[i] == s[|s| - 1 - i]
  {
    if i < |s| - 1 { RevAt(s[1..], i); }
  }

  lemma {:induction false} RevSnoc(s: string, c: char)
    ensures Rev(s + [c]) == [c] + Rev(s)
  {
    if s != "" {
      RevSnoc(s[1..], c);
      assert (s + [c])[1..] == s[1..] + [c];
    }
  }

  method Reverse(buf: array<char>, lo: nat, hi: nat)
    requires lo <= hi <= buf.Length
    modifies buf
    ensures buf[lo..hi] == Rev(old(buf[lo..hi]))
    ensures forall i :: 0 <= i < buf.Length && !(lo <= i < hi) ==> buf[i] == old(buf[i])
  {
    hide *;
    ghost var was := buf[lo..hi];
    SwapEnds(buf, lo, hi);
    RevIs(was, buf[lo..hi]);
  }

  lemma {:induction false} RevIs(was: string, now: string)
    requires |now| == |was| && forall k :: 0 <= k < |was| ==> now[k] == was[|was| - 1 - k]
    ensures now == Rev(was)
  {
    forall k | 0 <= k < |was| ensures now[k] == Rev(was)[k] { RevAt(was, k); }
  }

  method SwapEnds(buf: array<char>, lo: nat, hi: nat)
    requires lo <= hi <= buf.Length
    modifies buf
    ensures forall k :: lo <= k < hi ==> buf[k] == old(buf[lo + hi - 1 - k])
    ensures forall i :: 0 <= i < buf.Length && !(lo <= i < hi) ==> buf[i] == old(buf[i])
  {
    var i, j := lo, hi;
    while j - i >= 2
      invariant lo <= i <= j <= hi && i + j == lo + hi
      invariant forall k :: 0 <= k < buf.Length && !(lo <= k < i || j <= k < hi) ==> buf[k] == old(buf[k])
      invariant forall k :: (lo <= k < i || j <= k < hi) ==> buf[k] == old(buf[lo + hi - 1 - k])
      decreases j - i
    {
      buf[i], buf[j - 1] := buf[j - 1], buf[i];
      i, j := i + 1, j - 1;
    }
  }

  // ---- Printing integers ----

  /** One step of peeling off the last digit, for values of either sign. */
  lemma {:induction false} PeelDigit(x: int)
    ensures var q := Quot(x, 10);
            var r := x - q * 10;
            Abs(q) == Abs(x) / 10 && Abs(r) == Abs(x) % 10 && 0 <= Abs(r) <= 9 && (x < 0 ==> q <= 0 && r <= 0) && (x >= 0 ==> q >= 0 && r >= 0)
  {
  }

  /** The digits still in q, then the ones emitted so far read backwards, make up the text. */
  ghost predicate Emitting(text: string, q: int, emitted: string) { Digs(Abs(q)) + Rev(emitted) == text }

  /** The character of the digit that peels off. */
  function LastDigit(q: int): char {
    PeelDigit(q);
    Digit(Abs(q - Quot(q, 10) * 10))
  }

  lemma {:induction false} EmitFirst(q: int)
    ensures Emitting(NatText(Abs(q)), Quot(q, 10), [LastDigit(q)])
  {
    PeelDigit(q);
    assert Rev([LastDigit(q)]) == [LastDigit(q)];
  }

  lemma {:induction false} EmitNext(text: string, q: int, emitted: string)
    requires Emitting(text, q, emitted) && q != 0
    ensures Emitting(text, Quot(q, 10), emitted + [LastDigit(q)]) && |emitted| < |text|
  {
    PeelDigit(q);
    var n, d := Abs(q), LastDigit(q);
    RevSnoc(emitted, d);
    assert Digs(n / 10) + ([d] + Rev(emitted)) == Digs(n / 10) + [d] + Rev(emitted);
  }

  lemma {:induction false} EmitLast(text: string, emitted: string)
    requires Emitting(text, 0, emitted)
    ensures Rev(emitted) == text
  {
  }

  /** Emits the digits of the magnitude, last digit first. */
  method EmitBackwards(buf: array<char>, start: nat, value: int) returns (str: nat)
    requires start + |NatText(Abs(value))| <= buf.Length
    modifies buf
    ensures start <= str <= buf.Length && Rev(buf[start..str]) == NatText(Abs(value))
    ensures forall i :: 0 <= i < start ==> buf[i] == old(buf[i])
  {
    ghost var text := NatText(Abs(value));
    EmitFirst(value);
    TextNotEmpty(Abs(value));
    hide *;
    var q := Quot(value, 10);
    buf[start] := LastDigit(value);
    str := start + 1;
    assert buf[start..str] == [LastDigit(value)];
    while q != 0
      invariant start < str <= start + |text| && Emitting(text, q, buf[start..str])
      invariant forall i :: 0 <= i < start ==> buf[i] == old(buf[i])
      decreases Abs(q)
    {
      ghost var done := buf[start..str];
      EmitNext(text, q, done);
      PeelDigit(q);
      AbsIs(q);
      buf[str] := LastDigit(q);
      str := str + 1;
      assert buf[start..str] == done + [LastDigit(q)];
      q := Quot(q, 10);
    }
    EmitLast(text, buf[start..str]);
  }

  lemma {:induction false} TextNotEmpty(n: nat)
    ensures |NatText(n)| >= 1
  {
  }

  lemma {:induction false} AbsIs(x: int)
    ensures Abs(x) == if x < 0 then -x else x
  {
  }

  lemma {:induction false} IntTextIs(x: int)
    ensures IntText(x) == (if x < 0 then "-" else "") + NatText(Abs(x))
  {
  }

  /** Prints from position at on; the caller provides room for the sign and nineteen digits. */
  method PrintInt(buf: array<char>, at: nat, value: int) returns (end: nat)
    requires Int64(value) && at + 20 <= buf.Length
    modifies buf
    ensures end == at + |IntText(value)| && end <= at + 20 && buf[at..end] == IntText(value)
    ensures forall i :: 0 <= i < at ==> buf[i] == old(buf[i])
  {
    hide *;
    IntTextLength(value);
    IntTextIs(value);
    ghost var text := NatText(Abs(value));
    var start := at;
    if value < 0 {
      buf[at] := '-';
      start := at + 1;
    }
    end := EmitBackwards(buf, start, value);
    Reverse(buf, start, end);
    assert buf[at..end] == (if value < 0 then "-" else "") + text;
  }

  // ---- Zero padding ----

  /** Fills k positions from the end with the lowest digits of num, and returns what is left of num. */
  method FillBack(buf: array<char>, start: nat, k: nat, num: int) returns (rest: int)
    requires start + k <= buf.Length
    modifies buf
    ensures buf[start..start + k] == LowDigits(Abs(num), k) && (rest == 0 <==> Abs(num) < Pow10(k))
    ensures forall i :: 0 <= i < buf.Length && !(start <= i < start + k) ==> buf[i] == old(buf[i])
  {
    FillNone(num, k);
    hide *;
    var j := k;
    rest := num;
    assert buf[start + j..start + k] == "";
    while j > 0
      invariant 0 <= j <= k && Filling(num, k, rest, j, buf[start + j..start + k])
      invariant forall i :: 0 <= i < buf.Length && !(start <= i < start + k) ==> buf[i] == old(buf[i])
    {
      ghost var done := buf[start + j..start + k];
      FillMore(num, k, rest, j, done);
      j := j - 1;
      buf[start + j] := LastDigit(rest);
      assert buf[start + j..start + k] == [LastDigit(rest)] + done;
      rest := Quot(rest, 10);
    }
    FillAll(num, k, rest, buf[start..start + k]);
  }

  /** j digits are still to be produced from rest; the ones behind them are done. */
  ghost predicate Filling(num: int, k: nat, rest: int, j: nat, done: string) {
    j <= k && LowDigits(Abs(num), k) == LowDigits(Abs(rest), j) + done && (Abs(num) < Pow10(k) <==> Abs(rest) < Pow10(j))
  }

  lemma {:induction false} FillNone(num: int, k: nat)
    ensures Filling(num, k, num, k, "")
  {
  }

  lemma {:induction false} FillMore(num: int, k: nat, rest: int, j: nat, done: string)
    requires Filling(num, k, rest, j, done) && j > 0
    ensures Filling(num, k, Quot(rest, 10), j - 1, [LastDigit(rest)] + done)
  {
    PeelDigit(rest);
    var n, d := Abs(rest), LastDigit(rest);
    assert LowDigits(n / 10, j - 1) + [d] + done == LowDigits(n / 10, j - 1) + ([d] + done);
  }

  lemma {:induction false} FillAll(num: int, k: nat, rest: int, done: string)
    requires Filling(num, k, rest, 0, done)
    ensures done == LowDigits(Abs(num), k) && (rest == 0 <==> Abs(num) < Pow10(k))
  {
  }

  /** What zero padding to a width prints: the sign counts, and a number too wide is printed in full. */
  function PadText(value: int, width: nat): string
    requires width > 0
  {
    if value < 0 && -value < Pow10(width - 1) then "-" + LowDigits(-value, width - 1)
    else if 0 <= value < Pow10(width) then LowDigits(value, width)
    else IntText(value)
  }

  method PrintPadded(buf: array<char>, at: nat, value: int, width: nat) returns (end: nat)
    requires Int64(value) && width > 0 && at + 20 <= buf.Length && at + width <= buf.Length
    modifies buf
    ensures end == at + |PadText(value, width)| && end <= buf.Length && buf[at..end] == PadText(value, width)
    ensures forall i :: 0 <= i < at ==> buf[i] == old(buf[i])
  {
    PadIs(value, width);
    hide *;
    var rest := FillPadded(buf, at, value, width);
    end := at + width;
    if rest != 0 { end := PrintInt(buf, at, value); }
  }

  method FillPadded(buf: array<char>, at: nat, value: int, width: nat) returns (rest: int)
    requires width > 0 && at + width <= buf.Length
    modifies buf
    ensures rest == 0 <==> Abs(value) < Pow10(if value < 0 then width - 1 else width)
    ensures buf[at..at + width] == if value < 0 then ['-'] + LowDigits(Abs(value), width - 1) else LowDigits(Abs(value), width)
    ensures forall i :: 0 <= i < at ==> buf[i] == old(buf[i])
  {
    hide *;
    if value < 0 {
      buf[at] := '-';
      rest := FillBack(buf, at + 1, width - 1, value);
      assert buf[at..at + width] == ['-'] + buf[at + 1..at + 1 + (width - 1)];
    } else {
      rest := FillBack(buf, at, width, value);
    }
  }

  lemma {:induction false} PadIs(value: int, width: nat)
    requires width > 0
    ensures |PadText(value, width)| == width || PadText(value, width) == IntText(value)
    ensures value < 0 ==> PadText(value, width) == if Abs(value) < Pow10(width - 1) then ['-'] + LowDigits(Abs(value), width - 1) else IntText(value)
    ensures value >= 0 ==> PadText(value, width) == if Abs(value) < Pow10(width) then LowDigits(Abs(value), width) else IntText(value)
  {
  }

  // ---- Printing money ----

  /** The whole value, with four decimals. */
  method PrintMoney(buf: array<char>, val: int) returns (end: nat)
    requires Int64(val) && buf.Length >= 42
    modifies buf
    ensures end == |MoneyText(val)| && end <= buf.Length && buf[..end] == MoneyText(val)
  {
    var integral, fraction := Split(val);
    MoneyParts(val, integral, fraction);
    hide *;
    var ptr := 0;
    if val < 0 && integral == 0 {
      buf[0] := '-';
      ptr := 1;
    }
    ghost var sign := buf[..ptr];
    assert sign == if val < 0 && integral == 0 then "-" else "";
    var mid := PrintWhole(buf, ptr, integral, sign);
    ghost var head := buf[..mid];
    end := PrintPadded(buf, mid, fraction, 4);
    HeadAndTail(buf[..end], mid, head, PadText(fraction, 4));
  }

  /** The part before the point, and the ten-thousandths behind it without a sign. */
  method Split(val: int) returns (integral: int, fraction: int)
    requires Int64(val)
    ensures Abs(integral) == Abs(val) / 10000 && fraction == Abs(val) % 10000 && (integral < 0 <==> val <= -10000)
  {
    integral := Quot(val, 10000);
    fraction := val - integral * 10000;
    if val < 0 { fraction := -fraction; }
  }

  lemma {:induction false} HeadAndTail(all: string, mid: nat, head: string, tail: string)
    requires mid <= |all| && all[..mid] == head && all[mid..] == tail
    ensures all == head + tail
  {
  }

  /** The integral part and the point. */
  method PrintWhole(buf: array<char>, ptr: nat, integral: int, ghost sign: string) returns (mid: nat)
    requires Int64(integral) && ptr <= 1 && buf.Length >= 42 && buf[..ptr] == sign
    modifies buf
    ensures ptr < mid <= ptr + 21 && buf[..mid] == sign + IntText(integral) + ['.']
  {
    hide *;
    mid := PrintInt(buf, ptr, integral);
    assert buf[..mid] == sign + buf[ptr..mid];
    buf[mid] := '.';
    mid := mid + 1;
    assert buf[..mid] == sign + IntText(integral) + ['.'];
  }

  lemma {:induction false} MoneyParts(val: int, integral: int, fraction: int)
    requires Int64(val) && Abs(integral) == Abs(val) / 10000 && fraction == Abs(val) % 10000 && (integral < 0 <==> val <= -10000)
    ensures Int64(integral) && Int64(fraction) && 0 <= fraction < 10000
    ensures MoneyText(val) == (if val < 0 && integral == 0 then "-" else "") + IntText(integral) + ['.'] + PadText(fraction, 4)
  {
    Pow10Four();
    hide LowDigits, NatText;
  }
}

