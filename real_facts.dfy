/** Facts about real numbers shared by the step-size controllers. */
module RealFacts {
  function Min(a: real, b: real): real { if a <= b then a else b }
  function Max(a: real, b: real): real { if a >= b then a else b }

  lemma MulMono(g: real, a: real, b: real)
    requires g >= 0.0 && a >= b
    ensures g * a >= g * b
  {
  }

  lemma PosMul(a: real, b: real)
    requires a > 0.0 && b > 0.0
    ensures a * b > 0.0
  {
  }

  /** Taking at least one unit m off a non-negative amount lowers its whole
      number of units. */
  lemma FloorDrop(m: real, a: real, b: real)
    requires m > 0.0 && 0.0 <= b && b + m <= a
    ensures 0 <= (b / m).Floor < (a / m).Floor
  {
    assert a / m >= b / m + 1.0 by {
      assert a / m == b / m + (a - b) / m;
      assert (a - b) / m >= 1.0;
    }
  }
}
