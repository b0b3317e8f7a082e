/** Division facts that the solver does not find alone. */
module Arithmetic {

  lemma DivModUnique(a: int, m: nat, q: int, r: nat)
    requires r < m && a == q * m + r
    ensures a / m == q && a % m == r
  {
    var d := a / m - q;
    assert d * m == r - a % m;
    assert d >= 1 ==> d * m >= m;
    assert d <= -1 ==> d * m <= 0 - m;
  }

  predicate Even(n: nat) {
    n % 2 == 0
  }

  lemma DivModSucc(a: nat, m: nat)
    requires m >= 1
    ensures (a + 1) % m == if a % m + 1 == m then 0 else a % m + 1
    ensures (a + 1) / m == if a % m + 1 == m then a / m + 1 else a / m
  {
    if a % m + 1 == m {
      assert a + 1 == (a / m + 1) * m;
      DivModUnique(a + 1, m, a / m + 1, 0);
    } else {
      DivModUnique(a + 1, m, a / m, a % m + 1);
    }
  }

  lemma MulMonotone(a: nat, b: nat, m: nat)
    requires a <= b
    ensures a * m <= b * m
  {
    assert b * m - a * m == (b - a) * m;
  }

  /** Row-major offsets: (x, y) in a grid of `h` rows of `m`. */
  lemma OffsetSplits(x: nat, y: nat, m: nat)
    requires x < m
    ensures (y * m + x) % m == x && (y * m + x) / m == y
  {
    DivModUnique(y * m + x, m, y, x);
  }

  lemma OffsetInRange(x: nat, y: nat, m: nat, h: nat)
    requires x < m && y < h
    ensures y * m + x < h * m
  {
    MulMonotone(y + 1, h, m);
    assert (y + 1) * m == y * m + m;
  }

  lemma OffsetInjective(o: nat, x: nat, y: nat, m: nat)
    requires m >= 1 && o != y * m + x
    ensures !(o % m == x && o / m == y)
  {}
}
