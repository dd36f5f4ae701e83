/** SUM and AVG over money: a running state, its 16-byte form, and combining the states of workers. */
module MoneyAggregate {
  import opened BigEndian
  import opened Machine
  import S = MoneyScan

  function Sum(xs: seq<int>): int { if xs == [] then 0 else Sum(xs[..|xs| - 1]) + xs[|xs| - 1] }

  lemma {:induction false} SumConcat(a: seq<int>, b: seq<int>)
    ensures Sum(a + b) == Sum(a) + Sum(b)
    decreases |b|
  {
    if b == [] {
      assert a + b == a;
    } else {
      SumConcat(a, b[..|b| - 1]);
      assert (a + b)[..|a + b| - 1] == a + b[..|b| - 1];
    }
  }

  function Flatten(chunks: seq<seq<int>>): seq<int> {
    if chunks == [] then [] else Flatten(chunks[..|chunks| - 1]) + chunks[|chunks| - 1]
  }

  predicate AllInt64(xs: seq<int>) { forall i :: 0 <= i < |xs| ==> Int64(xs[i]) }

  /** No running total leaves the 64-bit range. */
  ghost predicate NoOverflow(xs: seq<int>) { forall k :: 0 <= k <= |xs| ==> Int64(Sum(xs[..k])) }

  /** The sign test on a sum detects overflow exactly. */
  lemma {:induction false} SumTestExact(a: int, b: int)
    requires Int64(a) && Int64(b)
    ensures S.SameSign(a, b) && !S.SameSign(Wrap(a + b), a) <==> !Int64(a + b)
    ensures Int64(a + b) ==> Wrap(a + b) == a + b
  {
    WrapIs(a + b);
  }

  /** Addition as the accumulator does it: wrapped, then tested by signs. */
  method Plus(a: int, b: int) returns (ok: bool, r: int)
    requires Int64(a) && Int64(b)
    ensures ok <==> Int64(a + b)
    ensures ok ==> r == a + b
  {
    SumTestExact(a, b);
    r := Wrap(a + b);
    ok := !(S.SameSign(a, b) && !S.SameSign(r, a));
  }

  // ---- The 16-byte form ----

  function Unsigned(x: int): int { if x < 0 then x + 0x1_0000_0000_0000_0000 else x }
  function Signed(x: int): int { if x >= 0x8000_0000_0000_0000 then x - 0x1_0000_0000_0000_0000 else x }

  lemma {:induction false} Int64Back(x: int)
    requires Int64(x)
    ensures 0 <= Unsigned(x) && Signed(OfBe(Be(Unsigned(x), 8))) == x
  {
    assert Pow256(2) == 0x1_0000 && Pow256(4) == 0x1_0000_0000 by { assert Pow256(1) == 256; assert Pow256(3) == 256 * Pow256(2); }
    assert Pow256(6) == 0x1_0000_0000_0000 by { assert Pow256(5) == 256 * Pow256(4); }
    assert Pow256(8) == 0x1_0000_0000_0000_0000 by { assert Pow256(7) == 256 * Pow256(6); }
    OfBeBack(Unsigned(x), 8);
  }

  class AggState {
    var n: int
    var sum: int

    constructor ()
      ensures Valid() && n == 0 && sum == 0
    {
      n, sum := 0, 0;
    }

    predicate Valid() reads this { 0 <= n && Int64(n) && Int64(sum) && (n == 0 ==> sum == 0) }

    /** Takes in one value; the first one is stored without a test. */
    method Accum(x: int) returns (ok: bool)
      requires Valid() && Int64(x) && Int64(n + 1)
      modifies this
      ensures ok <==> Int64(old(sum) + x)
      ensures ok ==> Valid() && sum == old(sum) + x && n == old(n) + 1
    {
      n := n + 1;
      if n - 1 > 0 {
        var result: int;
        ok, result := Plus(sum, x);
        if !ok { return; }
        sum := result;
      } else {
        sum := x;
      }
      ok := true;
    }

    method Serialize() returns (bytes: seq<int>)
      requires Valid()
      ensures bytes == Be(Unsigned(n), 8) + Be(Unsigned(sum), 8)
    {
      bytes := Be(Unsigned(n), 8) + Be(Unsigned(sum), 8);
    }

    method Combine(that: AggState) returns (ok: bool)
      requires Valid() && that.Valid()
      modifies this
      ensures ok <==> Int64(old(sum) + old(that.sum)) && Int64(old(n) + old(that.n))
      ensures ok ==> Valid() && sum == old(sum) + old(that.sum) && n == old(n) + old(that.n)
    {
      var total, count := sum + that.sum, n + that.n;
      ok := Int64(total) && Int64(count);
      if !ok { return; }
      sum, n := total, count;
    }
  }

  method Deserialize(bytes: seq<int>) returns (state: AggState)
    requires |bytes| == 16
    ensures fresh(state) && state.n == Signed(OfBe(bytes[..8])) && state.sum == Signed(OfBe(bytes[8..]))
  {
    state := new AggState();
    state.n, state.sum := Signed(OfBe(bytes[..8])), Signed(OfBe(bytes[8..]));
  }

  /** A worker's state arrives unchanged. */
  method Ship(state: AggState) returns (copy: AggState)
    requires state.Valid()
    ensures fresh(copy) && copy.n == state.n && copy.sum == state.sum
  {
    var bytes := state.Serialize();
    assert bytes[..8] == Be(Unsigned(state.n), 8) && bytes[8..] == Be(Unsigned(state.sum), 8);
    Int64Back(state.n);
    Int64Back(state.sum);
    copy := Deserialize(bytes);
  }

  /** One worker: fails exactly when some running total overflows. */
  method Accumulate(xs: seq<int>) returns (ok: bool, state: AggState)
    requires AllInt64(xs) && Int64(|xs|)
    ensures fresh(state) && (ok <==> NoOverflow(xs))
    ensures ok ==> state.Valid() && state.sum == Sum(xs) && state.n == |xs|
  {
    state := new AggState();
    ok := true;
    var i := 0;
    assert xs[..0] == [];
    while i < |xs|
      invariant 0 <= i <= |xs| && fresh(state) && state.Valid() && state.sum == Sum(xs[..i]) && state.n == i
      invariant forall k :: 0 <= k <= i ==> Int64(Sum(xs[..k]))
    {
      assert xs[..i + 1][..i] == xs[..i];
      ok := state.Accum(xs[i]);
      if !ok {
        assert !Int64(Sum(xs[..i + 1]));
        return;
      }
      i := i + 1;
    }
    assert xs[..|xs|] == xs;
  }

  lemma {:induction false} FlattenNext(chunks: seq<seq<int>>, i: nat)
    requires i < |chunks|
    ensures Flatten(chunks[..i + 1]) == Flatten(chunks[..i]) + chunks[i]
  {
    assert chunks[..i + 1][..i] == chunks[..i];
  }

  /** Nothing overflows: no worker's running total, no total of the first workers, and not the count. */
  ghost predicate AllFit(chunks: seq<seq<int>>) {
    (forall i :: 0 <= i < |chunks| ==> NoOverflow(chunks[i])) &&
    (forall i :: 0 <= i <= |chunks| ==> Int64(Sum(Flatten(chunks[..i])))) && Int64(|Flatten(chunks)|)
  }

  /** Workers on any division of the rows, combined in order: exactly when nothing overflows on the way,
      the result is the sum and count of all rows, hence that of a single worker. */
  method ParallelSum(chunks: seq<seq<int>>) returns (ok: bool, state: AggState)
    requires forall i :: 0 <= i < |chunks| ==> AllInt64(chunks[i]) && Int64(|chunks[i]|)
    ensures ok <==> AllFit(chunks)
    ensures ok ==> state.Valid() && state.sum == Sum(Flatten(chunks)) && state.n == |Flatten(chunks)|
  {
    state := new AggState();
    ok := true;
    var i := 0;
    assert chunks[..0] == [];
    while i < |chunks|
      invariant 0 <= i <= |chunks| && fresh(state) && state.Valid()
      invariant state.sum == Sum(Flatten(chunks[..i])) && state.n == |Flatten(chunks[..i])|
      invariant forall j :: 0 <= j < i ==> NoOverflow(chunks[j])
      invariant forall j :: 0 <= j <= i ==> Int64(Sum(Flatten(chunks[..j])))
    {
      hide NoOverflow, AllInt64;
      FlattenNext(chunks, i);
      SumConcat(Flatten(chunks[..i]), chunks[i]);
      FlattenGrows(chunks, i + 1);
      var part: AggState;
      ok, part := Accumulate(chunks[i]);
      if !ok { return; }
      part := Ship(part);
      ok := state.Combine(part);
      if !ok { return; }
      i := i + 1;
    }
    assert chunks[..|chunks|] == chunks;
  }

  lemma {:induction false} FlattenGrows(chunks: seq<seq<int>>, i: nat)
    requires i <= |chunks|
    ensures |Flatten(chunks[..i])| <= |Flatten(chunks)|
    decreases |chunks| - i
  {
    if i < |chunks| {
      FlattenNext(chunks, i);
      FlattenGrows(chunks, i + 1);
    } else {
      assert chunks[..i] == chunks;
    }
  }
}
