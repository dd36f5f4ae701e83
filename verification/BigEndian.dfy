/** Unsigned numbers as bytes, most significant first. */
module BigEndian {
  function Be(x: nat, k: nat): (bs: seq<int>)
    ensures |bs| == k
    decreases k
  {
    if k == 0 then [] else Be(x / 256, k - 1) + [x % 256]
  }

  function OfBe(bs: seq<int>): int { if bs == [] then 0 else OfBe(bs[..|bs| - 1]) * 256 + bs[|bs| - 1] }

  function Pow256(k: nat): nat { if k == 0 then 1 else 256 * Pow256(k - 1) }

  /** The most significant byte comes first. */
  lemma BigEndianOrder()
    ensures Be(0x0102_0304, 4) == [1, 2, 3, 4] && OfBe([1, 2, 3, 4]) == 0x0102_0304
  {
    assert Be(0x01, 1) == [1] && Be(0x0102, 2) == [1, 2] && Be(0x0102_03, 3) == [1, 2, 3];
    assert [1, 2, 3, 4][..3] == [1, 2, 3] && [1, 2, 3][..2] == [1, 2] && [1, 2][..1] == [1] && [1][..0] == [];
    assert OfBe([1]) == 1 && OfBe([1, 2]) == 0x0102 && OfBe([1, 2, 3]) == 0x0102_03;
  }

  lemma {:induction false} OfBeBack(x: nat, k: nat)
    requires x < Pow256(k)
    ensures OfBe(Be(x, k)) == x
    decreases k
  {
    if k > 0 {
      OfBeBack(x / 256, k - 1);
      assert Be(x, k)[..k - 1] == Be(x / 256, k - 1);
    }
  }

  lemma {:induction false} FourBytes()
    ensures Pow256(4) == 0x1_0000_0000
  {
    assert Pow256(1) == 256 && Pow256(2) == 256 * Pow256(1) && Pow256(3) == 256 * Pow256(2);
  }
}
