/** Small facts about reciprocals over `real` that the curve proofs rely on. */
module RealAlgebra {

  /** Taking reciprocals reverses the order of positive reals. */
  lemma ReciprocalAntitone(x: real, y: real)
    requires 0.0 < x <= y
    ensures 0.0 < 1.0 / y <= 1.0 / x
  {
    assert 1.0 / x - 1.0 / y == (y - x) / (x * y);
  }

  /** Multiplying by a positive real preserves order. */
  lemma MulMonotone(a: real, b: real, c: real)
    requires a >= b && 0.0 < c
    ensures a * c >= b * c
  {
  }

  /** A factor of a positive product with a positive cofactor is positive. */
  lemma PositiveFactor(x: real, y: real)
    requires 0.0 < y && 0.0 < x * y
    ensures 0.0 < x
  {
    if x <= 0.0 {
      MulMonotone(0.0, x, y);
    }
  }

  /** A non-zero factor cancels from both sides of an equation. */
  lemma MulCancel(a: real, b: real, c: real)
    requires c != 0.0 && a * c == b * c
    ensures a == b
  {
    assert (a - b) * c == 0.0;
  }
}
