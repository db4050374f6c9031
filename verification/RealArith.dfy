/** Facts of real arithmetic that the solver proves in isolation but does not find on its own
    in the middle of a longer argument.

    The solver does not identify the products a * b and c * d from a == c and b == d.  It does
    identify Times(a, b) and Times(c, d), so products that have to be rewritten are written
    with Times. */
module RealArith {

  function Times(x: real, y: real): real { x * y }

  lemma TimesSwaps(x: real, y: real)
    ensures Times(x, y) == Times(y, x)
  {}

  lemma TimesTurns(x: real, y: real, z: real)
    ensures Times(x, Times(y, z)) == Times(z, Times(y, x))
  {}

  lemma TimesSum(k: real, x: real, y: real)
    ensures Times(k, x + y) == Times(k, x) + Times(k, y)
    ensures Times(k, x - y) == Times(k, x) - Times(k, y)
  {}

  lemma NegTimes(x: real, y: real)
    ensures Times(x, -y) == -Times(x, y) && Times(-x, y) == -Times(x, y) && Times(-x, -y) == Times(x, y)
  {}

  lemma SquareNonNeg(x: real)
    ensures Times(x, x) >= 0.0
  {}

  lemma TimesPos(x: real, y: real)
    requires x > 0.0 && y > 0.0
    ensures Times(x, y) > 0.0
  {}

  lemma TimesOne(x: real, y: real)
    requires x == 1.0
    ensures Times(x, y) == y
  {}

  lemma DivPos(x: real, y: real)
    requires x > 0.0 && y > 0.0
    ensures x / y > 0.0
  {}

  lemma DivNonNeg(x: real, y: real)
    requires x >= 0.0 && y > 0.0
    ensures x / y >= 0.0
  {}

  lemma DivTimes(x: real, y: real)
    requires y != 0.0
    ensures Times(x / y, y) == x
  {}

  lemma Cancel(k: real, x: real, y: real)
    requires k != 0.0 && Times(k, x) == Times(k, y)
    ensures x == y
  {}

  lemma SquaresEqual(x: real, y: real)
    requires x >= 0.0 && y >= 0.0 && Times(x, x) == Times(y, y)
    ensures x == y
  {
    assert Times(x + y, x - y) == Times(x + y, 0.0);
    if x + y > 0.0 {
      Cancel(x + y, x - y, 0.0);
    }
  }
}
