/** Facts about Euclidean division by a positive divisor. */
module Arith {

  lemma DiffModZero(a: int, b: int, n: int)
    requires n > 0
    ensures (a - b) % n == 0 <==> a % n == b % n
  {
    var qa, ra := a / n, a % n;
    var qb, rb := b / n, b % n;
    assert a - b == (qa - qb) * n + (ra - rb);
    if ra == rb {
      assert a - b == (qa - qb) * n;
      ModOfMultiple(qa - qb, n);
    } else if ra > rb {
      ModUnique(a - b, qa - qb, ra - rb, n);
    } else {
      assert a - b == (qa - qb - 1) * n + (n + ra - rb);
      ModUnique(a - b, qa - qb - 1, n + ra - rb, n);
    }
  }

  lemma ModOfMultiple(q: int, n: int)
    requires n > 0
    ensures (q * n) % n == 0
  {
    ModUnique(q * n, q, 0, n);
  }

  /** Euclidean division is unique: a remainder in [0, n) is the remainder. */
  lemma ModUnique(x: int, q: int, r: int, n: int)
    requires n > 0 && 0 <= r < n && x == q * n + r
    ensures x % n == r && x / n == q
  {
    var q', r' := x / n, x % n;
    assert (q - q') * n == r' - r;
    if q > q' {
      MulAtLeast(q - q', n);
    } else if q < q' {
      MulAtLeast(q' - q, n);
    }
  }

  lemma MulAtLeast(k: int, n: int)
    requires k >= 1 && n > 0
    ensures k * n >= n
  {
    assert k * n == (k - 1) * n + n;
  }
}
