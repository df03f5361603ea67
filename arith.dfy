// Facts about natural-number multiplication and division that the grid
// layouts of the sprite sheet and of the enemy waves rely on.

module Arithmetic {

  lemma MulMonotone(c: nat, a: nat, b: nat)
    requires a <= b
    ensures c * a <= c * b
  {
    assert c * b == c * a + c * (b - a);
  }

  /** Division by `d` recovers the quotient and the remainder of q·d + j. */
  lemma DivModUnique(q: nat, d: nat, j: nat)
    requires j < d
    ensures (q * d + j) / d == q && (q * d + j) % d == j
  {
    var n := q * d + j;
    var q1, j1 := n / d, n % d;
    assert d * q1 + j1 == d * q + j;
    if q1 > q {
      MulMonotone(d, q + 1, q1);
      assert false;
    } else if q1 < q {
      MulMonotone(d, q1 + 1, q);
      assert false;
    }
  }

  /** A number below k·w divided by w is below k. */
  lemma DivBelow(n: nat, w: nat, k: nat)
    requires w > 0 && n < k * w
    ensures n / w < k
  {
    var q := n / w;
    assert w * q <= n;
    if q >= k {
      MulMonotone(w, k, q);
      assert false;
    }
  }

  /** A number below b, times c, is at most (b - 1)·c. */
  lemma MulBelow(a: nat, b: nat, c: nat)
    requires a < b
    ensures a * c <= b * c - c
  {
    MulMonotone(c, a, b - 1);
    assert b * c == (b - 1) * c + c;
  }
}
