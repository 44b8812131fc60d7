/** Products and quotients, and the few facts about them that the solver does not find by itself. */
module Arithmetic {
  /** A product kept as one symbol, so that proofs about sums and vectors stay linear. */
  function Times(x: real, y: real): real {
    x * y
  }

  lemma ProductPositive(x: real, y: real)
    requires x > 0.0 && y > 0.0
    ensures x * y > 0.0
  {
  }

  lemma TimesPositive(x: real, y: real)
    requires x > 0.0 && y > 0.0
    ensures Times(x, y) > 0.0
  {
  }

  lemma TimesMinus(w: real, x: real, y: real)
    ensures Times(w, x - y) == Times(w, x) - Times(w, y)
  {
  }

  lemma SquareNonnegative(x: real)
    ensures x * x >= 0.0
  {
  }

  lemma CancelFactor(x: real, y: real, z: real)
    requires z > 0.0
    ensures x * z > y * z ==> x > y
    ensures x * z >= y * z ==> x >= y
  {
    if x < y {
      ProductPositive(y - x, z);
    }
  }

  lemma SquaresOrder(x: real, y: real)
    requires x >= 0.0 && y >= 0.0
    ensures x * x <= y * y ==> x <= y
    ensures x * x < y * y ==> x < y
  {
    assert x * x - y * y == (x - y) * (x + y);
    if y < x {
      ProductPositive(x - y, x + y);
    }
  }

  lemma DivModUnique(n: nat, p: nat, q: nat, r: nat)
    requires r < p && n == q * p + r
    ensures n / p == q && n % p == r
  {
    var d: int := q - n / p;
    assert n == (n / p) * p + n % p;
    assert d * p == n % p - r;
    MultipleIsFar(d, p);
  }

  lemma MultipleIsFar(d: int, p: nat)
    ensures d > 0 ==> d * p >= p
    ensures d < 0 ==> d * p + p <= 0
  {
  }
}
