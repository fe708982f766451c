/** Powers of two, Euclidean division by a symbolic modulus, and bitwise or. */
module Arith {
  function Pow2(n: nat): (p: nat)
    ensures p >= 1
  {
    if n == 0 then 1 else 2 * Pow2(n - 1)
  }

  lemma MulAtLeast(m: int, k: int)
    requires m > 0 && k >= 1
    ensures m * k >= m
  {
  }

  lemma ModUnique(x: int, m: int, q: int, r: int)
    requires m > 0 && 0 <= r < m && x == m * q + r
    ensures x / m == q && x % m == r
  {
    var q', r' := x / m, x % m;
    assert m * q - m * q' == r' - r;
    if q > q' {
      assert m * (q - q') == m * q - m * q';
      MulAtLeast(m, q - q');
    } else if q < q' {
      assert m * (q' - q) == m * q' - m * q;
      MulAtLeast(m, q' - q);
    }
  }

  lemma ModShift(x: int, d: int, m: int)
    requires m > 0
    ensures (x % m + d) % m == (x + d) % m
  {
    var q := x / m + (x % m + d) / m;
    assert m * q == m * (x / m) + m * ((x % m + d) / m);
    ModUnique(x + d, m, q, (x % m + d) % m);
  }

  lemma ModOnce(x: int, m: int)
    requires m > 0 && 0 <= x < 2 * m
    ensures x % m == if x < m then x else x - m
  {
    if x < m {
      ModUnique(x, m, 0, x);
    } else {
      ModUnique(x, m, 1, x - m);
    }
  }

  /** Scaling a remainder. */
  lemma ModScale(k: int, w: int, s: int, n: int)
    requires k > 0 && n > 0 && 0 <= s < k
    ensures k * n > 0 && (k * w + s) % (k * n) == k * (w % n) + s
  {
    var q, r := w / n, w % n;
    assert w == n * q + r;
    assert k * w == k * (n * q) + k * r;
    assert (k * n) * q == k * (n * q);
    assert k * (r + 1) <= k * n;
    assert k * (r + 1) == k * r + k;
    ModUnique(k * w + s, k * n, q, k * r + s);
  }

  /** Bitwise or, bit by bit. */
  function Or(x: nat, y: nat): nat {
    if x == 0 && y == 0 then 0 else (if x % 2 == 1 || y % 2 == 1 then 1 else 0) + 2 * Or(x / 2, y / 2)
  }

  lemma {:induction false} OrFits(x: nat, y: nat, n: nat)
    requires x < Pow2(n) && y < Pow2(n)
    ensures Or(x, y) < Pow2(n)
  {
    if n > 0 {
      OrFits(x / 2, y / 2, n - 1);
    }
  }

  lemma {:induction false} OrZero(x: nat)
    ensures Or(x, 0) == x
  {
    if x > 0 {
      OrZero(x / 2);
    }
  }

  /** Disjoint bits add. */
  lemma {:induction false} OrAdd(x: nat, y: nat, n: nat)
    requires x % Pow2(n) == 0 && y < Pow2(n)
    ensures Or(x, y) == x + y
  {
    if n > 0 {
      var q, p := x / Pow2(n), Pow2(n - 1);
      assert x == 2 * (p * q);
      ModUnique(x / 2, p, q, 0);
      OrAdd(x / 2, y / 2, n - 1);
    } else {
      OrZero(x);
    }
  }
}
