/** C's arithmetic: signed 64-bit registers, and division towards zero. */
module Machine {
  predicate Int64(x: int) { -0x8000_0000_0000_0000 <= x <= 0x7fff_ffff_ffff_ffff }

  /** What a 64-bit register holds. */
  function Wrap(x: int): int { (x + 0x8000_0000_0000_0000) % 0x1_0000_0000_0000_0000 - 0x8000_0000_0000_0000 }

  lemma {:induction false} WrapIs(x: int)
    ensures Int64(Wrap(x)) && (Int64(x) <==> Wrap(x) == x)
    ensures !Int64(x) ==> Wrap(x) - x >= 0x1_0000_0000_0000_0000 || x - Wrap(x) >= 0x1_0000_0000_0000_0000
  {
  }

  /** Wrapping early makes no difference. */
  lemma {:induction false} WrapAdd(a: int, b: int)
    ensures Wrap(a + Wrap(b)) == Wrap(a + b)
  {
  }

  /** Division as C computes it. */
  function Quot(a: int, b: int): int
    requires b > 0
  {
    if a >= 0 then a / b else -((-a) / b)
  }
}
