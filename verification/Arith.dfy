/** Multiplication and Euclidean division, in the few forms the other modules need. */
module Arith {

  lemma MulGap(p: int, q: int, d: nat)
    requires p > q
    ensures p * d >= q * d + d
  {
    assert (p - q - 1) * d >= 0;
  }

  lemma MulMonotone(w: nat, a: int, b: int)
    requires a <= b
    ensures w * a <= w * b
  {
  }

  lemma MulSum(w: int, a: int, b: int)
    ensures w * (a + b) == w * a + w * b
  {
  }

  lemma DivUnique(a: int, w: nat, q: int, r: int)
    requires a == q * w + r && 0 <= r < w
    ensures a / w == q && a % w == r
  {
    assert a == (a / w) * w + a % w;
    if a / w > q {
      MulGap(a / w, q, w);
      assert false;
    }
    if a / w < q {
      MulGap(q, a / w, w);
      assert false;
    }
  }

  lemma DivMonotone(m: int, n: int, d: nat)
    requires m <= n && d > 0
    ensures m / d <= n / d
  {
    assert m == (m / d) * d + m % d && n == (n / d) * d + n % d;
    if m / d > n / d {
      MulGap(m / d, n / d, d);
      assert false;
    }
  }

  /** Dropping one whole `w` leaves the remainder. */
  lemma ModDrop(n: nat, w: nat)
    requires w >= 1 && n >= w
    ensures (n - w) % w == n % w && (n - w) / w == n / w - 1
  {
    assert n == (n / w) * w + n % w;
    assert (n / w - 1) * w == (n / w) * w - w;
    DivUnique(n - w, w, n / w - 1, n % w);
  }
}
