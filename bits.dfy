/** Facts about bitwise OR on 32-bit flag words. */
module Bits {
  /** Every bit of `a` survives an OR with `b`. */
  lemma OrKeeps(a: bv32, b: bv32)
    ensures (a | b) & a == a && (a | b) & b == b
  {
    assert (a | b) & a == a;
    assert b | a == a | b;
    assert (b | a) & b == b;
  }

  /** A bit that neither operand has is not set by an OR. */
  lemma OrAddsNothing(a: bv32, b: bv32, m: bv32)
    requires m & a == 0 && m & b == 0
    ensures (a | b) & m == 0
  {
    assert (a | b) & m == (a & m) | (b & m);
  }
}
