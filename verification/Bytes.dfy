/** Byte strings, little-endian words and concatenations of records: the vocabulary shared by the
    binary layouts of this project. */
module Bytes {
  type byte = x: int | 0 <= x < 256
  type bytes = seq<byte>

  const TWO32: int := 0x1_0000_0000
  const MAX_ALLOC: int := 0x3fff_ffff // MaxAllocSize, the largest request palloc grants

  /** The value of an unsigned 32-bit word after wrap-around. */
  function Wrap32(x: int): (r: int)
    ensures 0 <= r < TWO32
  {
    x % TWO32
  }

  function Le32(n: int): (r: bytes)
    requires 0 <= n < TWO32
    ensures |r| == 4
  {
    [n % 256, n / 256 % 256, n / 65536 % 256, n / 16777216]
  }

  function U32(b: bytes, off: int): (n: int)
    requires 0 <= off && off + 4 <= |b|
    ensures 0 <= n < TWO32
  {
    var b0: int, b1: int, b2: int, b3: int := b[off], b[off + 1], b[off + 2], b[off + 3];
    b0 + 256 * b1 + 65536 * b2 + 16777216 * b3
  }

  /** The signed reading of a 32-bit word. */
  function Signed32(n: int): int
    requires 0 <= n < TWO32
  {
    if n < 0x8000_0000 then n else n - TWO32
  }

  /** The least significant byte comes first. */
  lemma LittleEndian()
    ensures Le32(0x0403_0201) == [1, 2, 3, 4] && U32([1, 2, 3, 4], 0) == 0x0403_0201
  {
  }

  lemma U32OfLe32(pre: bytes, n: int, post: bytes)
    requires 0 <= n < TWO32
    ensures U32(pre + Le32(n) + post, |pre|) == n
  {
    var b := pre + Le32(n) + post;
    assert b[|pre|] == Le32(n)[0] && b[|pre| + 1] == Le32(n)[1] && b[|pre| + 2] == Le32(n)[2] && b[|pre| + 3] == Le32(n)[3];
    FourDigits(n);
  }

  lemma {:induction false} FourDigits(n: int)
    requires 0 <= n
    ensures n == n % 256 + 256 * (n / 256 % 256) + 65536 * (n / 65536 % 256) + 16777216 * (n / 16777216)
  {
    var a, b, c := n / 256, n / 65536, n / 16777216;
    assert n == 256 * a + n % 256;
    assert b == a / 256 && c == b / 256;
    assert a == 256 * b + a % 256;
    assert b == 256 * c + b % 256;
  }

  lemma Le32Digits(b0: int, b1: int, b2: int, b3: int)
    requires 0 <= b0 < 256 && 0 <= b1 < 256 && 0 <= b2 < 256 && 0 <= b3 < 256
    ensures Le32(b0 + 256 * b1 + 65536 * b2 + 16777216 * b3) == [b0, b1, b2, b3]
  {
    var n := b0 + 256 * b1 + 65536 * b2 + 16777216 * b3;
    assert n / 256 == b1 + 256 * b2 + 65536 * b3;
    assert n / 65536 == b2 + 256 * b3;
  }

  lemma Le32OfU32(b: bytes, off: int)
    requires 0 <= off && off + 4 <= |b|
    ensures Le32(U32(b, off)) == b[off..off + 4]
  {
    var b0: int, b1: int, b2: int, b3: int := b[off], b[off + 1], b[off + 2], b[off + 3];
    Le32Digits(b0, b1, b2, b3);
  }

  function Zeros(n: nat): (r: bytes)
    ensures |r| == n && forall i :: 0 <= i < n ==> r[i] == 0
  {
    seq(n, _ => 0)
  }

  lemma Slice<T>(s: seq<T>, a: int, b: int, c: int, d: int)
    requires 0 <= a <= b <= |s| && 0 <= c <= d <= b - a
    ensures s[a..b][c..d] == s[a + c..a + d]
  {
    forall i | 0 <= i < d - c ensures s[a..b][c..d][i] == s[a + c..a + d][i] {
    }
  }

  lemma Assoc<T>(a: seq<T>, b: seq<T>, c: seq<T>)
    ensures a + b + c == a + (b + c)
  {
  }

  lemma Assoc4<T>(a: seq<T>, b: seq<T>, c: seq<T>, d: seq<T>)
    ensures a + (b + c + d) == a + b + c + d
  {
  }

  // ---- Concatenation of records ----

  /** The images of xs under f, one after the other. */
  function Flat<T>(xs: seq<T>, f: T -> bytes): bytes {
    if xs == [] then [] else Flat(xs[..|xs| - 1], f) + f(xs[|xs| - 1])
  }

  lemma {:induction false} FlatSnoc<T>(xs: seq<T>, k: nat, f: T -> bytes)
    requires k < |xs|
    ensures Flat(xs[..k + 1], f) == Flat(xs[..k], f) + f(xs[k])
  {
    assert xs[..k + 1][..k] == xs[..k];
  }

  /** One more record appended to what was written before. */
  lemma FlatStep<T>(was: bytes, xs: seq<T>, k: nat, f: T -> bytes)
    requires k < |xs|
    ensures was + Flat(xs[..k], f) + f(xs[k]) == was + Flat(xs[..k + 1], f)
  {
    FlatSnoc(xs, k, f);
    Assoc(was, Flat(xs[..k], f), f(xs[k]));
  }

  lemma {:induction false} FlatConcat<T>(xs: seq<T>, ys: seq<T>, f: T -> bytes)
    ensures Flat(xs + ys, f) == Flat(xs, f) + Flat(ys, f)
  {
    if ys == [] {
      assert xs + ys == xs;
    } else {
      var n := |ys| - 1;
      FlatConcat(xs, ys[..n], f);
      assert (xs + ys)[..|xs + ys| - 1] == xs + ys[..n];
    }
  }

  /** Record k sits between the records before it and the records after it. */
  lemma {:induction false} FlatSplit<T>(xs: seq<T>, k: nat, f: T -> bytes)
    requires k < |xs|
    ensures Flat(xs, f) == Flat(xs[..k], f) + f(xs[k]) + Flat(xs[k + 1..], f)
  {
    FlatSnoc(xs, k, f);
    FlatConcat(xs[..k + 1], xs[k + 1..], f);
    assert xs == xs[..k + 1] + xs[k + 1..];
  }

  lemma {:induction false} FlatWidth<T>(xs: seq<T>, f: T -> bytes, w: nat)
    requires forall x :: x in xs ==> |f(x)| == w
    ensures |Flat(xs, f)| == w * |xs|
  {
    if xs != [] {
      var n := |xs| - 1;
      FlatWidth(xs[..n], f, w);
      assert xs[n] in xs && w * n + w == w * |xs|;
    }
  }

  /** Record k of a table of records that are w bytes wide. */
  lemma {:induction false} NoRecords<T>(xs: seq<T>, f: T -> bytes)
    ensures Flat(xs[..0], f) == []
  {
  }

  lemma {:induction false} FlatAt<T>(xs: seq<T>, k: nat, f: T -> bytes, w: nat)
    requires k < |xs|
    requires forall x :: x in xs ==> |f(x)| == w
    ensures |Flat(xs, f)| == w * |xs|
    ensures 0 <= w * k <= w * k + w <= w * |xs|
    ensures Flat(xs, f)[w * k..w * k + w] == f(xs[k])
  {
    FlatWidth(xs, f, w);
    FlatWidth(xs[..k], f, w);
    FlatWidth(xs[k + 1..], f, w);
    FlatSplit(xs, k, f);
  }

  function Join<T>(xss: seq<seq<T>>): seq<T> {
    if xss == [] then [] else Join(xss[..|xss| - 1]) + xss[|xss| - 1]
  }

  lemma {:induction false} JoinSnoc<T>(xss: seq<seq<T>>, k: nat)
    requires k < |xss|
    ensures Join(xss[..k + 1]) == Join(xss[..k]) + xss[k]
  {
    assert xss[..k + 1][..k] == xss[..k];
  }

  lemma {:induction false} JoinConcat<T>(xss: seq<seq<T>>, yss: seq<seq<T>>)
    ensures Join(xss + yss) == Join(xss) + Join(yss)
  {
    if yss == [] {
      assert xss + yss == xss;
    } else {
      var n := |yss| - 1;
      JoinConcat(xss, yss[..n]);
      assert (xss + yss)[..|xss + yss| - 1] == xss + yss[..n];
    }
  }

  lemma {:induction false} JoinSplit<T>(xss: seq<seq<T>>, k: nat)
    requires k < |xss|
    ensures Join(xss) == Join(xss[..k]) + xss[k] + Join(xss[k + 1..])
  {
    JoinSnoc(xss, k);
    JoinConcat(xss[..k + 1], xss[k + 1..]);
    assert xss == xss[..k + 1] + xss[k + 1..];
  }

  // ---- Buffers ----

  /** Copies src into the buffer at off, as memcpy does. */
  method Put(dst: array<byte>, off: int, src: bytes)
    requires 0 <= off && off + |src| <= dst.Length
    modifies dst
    ensures dst[..off + |src|] == old(dst[..off]) + src
    ensures forall k :: off + |src| <= k < dst.Length ==> dst[k] == old(dst[k])
  {
    ghost var was := dst[..];
    for i := 0 to |src|
      invariant dst[..off] == was[..off] && dst[off + |src|..] == was[off + |src|..]
      invariant dst[off..off + i] == src[..i]
    {
      dst[off + i] := src[i];
    }
    assert dst[..off + |src|] == dst[..off] + dst[off..off + |src|];
  }
}
