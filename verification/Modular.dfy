/** Powers of two and arithmetic modulo one. */
module Modular {

  function Pow2(n: nat): (p: nat)
    ensures p >= 1
  {
    if n == 0 then 1 else 2 * Pow2(n - 1)
  }

  lemma {:induction false} Pow2Add(m: nat, n: nat)
    ensures Pow2(m + n) == Pow2(m) * Pow2(n)
    decreases n
  {
    if n > 0 {
      Pow2Add(m, n - 1);
      Twice(Pow2(m), Pow2(n - 1));
    }
  }

  lemma Twice(p: int, q: int)
    ensures p * (2 * q) == 2 * (p * q)
  {
  }

  lemma Pow2Next(n: nat)
    ensures Pow2(n + 1) == 2 * Pow2(n)
  {
  }

  lemma Distribute(p: int, x: int, y: int)
    ensures p * (x + y) == p * x + p * y && (x + y) * p == x * p + y * p
  {
  }

  lemma Associate(p: int, q: int, x: int)
    ensures p * (q * x) == (p * q) * x
  {
  }

  lemma AtLeast(m: int, d: int)
    requires m > 0 && d >= 1
    ensures m * d >= m
  {
    assert m * (d - 1) >= 0;
    assert m * d == m * (d - 1) + m;
  }

  lemma SmallMultiple(m: int, d: int)
    requires m > 0 && -m < m * d < m
    ensures d == 0
  {
    assert m * d == -(m * -d);
    if d >= 1 {
      AtLeast(m, d);
    } else if d <= -1 {
      AtLeast(m, -d);
    }
  }

  /** Quotient and remainder are unique. */
  lemma Remainder(x: int, m: int, q: int, r: int)
    requires m > 0 && 0 <= r < m && x == m * q + r
    ensures x % m == r
  {
    var a, b := x / m, x % m;
    assert x == m * a + b;
    assert m * (a - q) == r - b by { assert m * (a - q) == m * a - m * q; }
    SmallMultiple(m, a - q);
  }

  /** Adding a multiple of the modulus changes nothing. */
  lemma Shift(x: int, m: int, k: int)
    requires m > 0
    ensures (x + m * k) % m == x % m
  {
    assert x + m * k == m * (x / m + k) + x % m by { assert m * (x / m + k) == m * (x / m) + m * k; }
    Remainder(x + m * k, m, x / m + k, x % m);
  }

  predicate Cong(x: int, y: int, m: int)
    requires m > 0
  {
    x % m == y % m
  }

  lemma CongMod(x: int, m: int)
    requires m > 0
    ensures Cong(x % m, x, m)
  {
    Remainder(x % m, m, 0, x % m);
  }

  lemma CongShift(x: int, y: int, m: int, k: int)
    requires m > 0 && x == y + m * k
    ensures Cong(x, y, m)
  {
    Shift(y, m, k);
  }

  lemma CongAdd(x: int, x': int, y: int, y': int, m: int)
    requires m > 0 && Cong(x, x', m) && Cong(y, y', m)
    ensures Cong(x + y, x' + y', m)
  {
    var r, s := x % m, y % m;
    var k, l := x / m - x' / m, y / m - y' / m;
    assert m * (k + l) == m * (x / m) - m * (x' / m) + m * (y / m) - m * (y' / m);
    CongShift(x + y, x' + y', m, k + l);
  }

  lemma CongMul(x: int, x': int, y: int, y': int, m: int)
    requires m > 0 && Cong(x, x', m) && Cong(y, y', m)
    ensures Cong(x * y, x' * y', m)
  {
    CongScale(x, x', y, m);
    CongScale(y, y', x', m);
    assert x' * y == y * x' && x' * y' == y' * x';
  }

  lemma CongScale(x: int, x': int, y: int, m: int)
    requires m > 0 && Cong(x, x', m)
    ensures Cong(x * y, x' * y, m)
  {
    var k := x / m - x' / m;
    assert x == x' + m * k by { assert m * k == m * (x / m) - m * (x' / m); }
    assert x * y == x' * y + m * (k * y) by {
      assert (x' + m * k) * y == x' * y + (m * k) * y;
      assert (m * k) * y == m * (k * y);
    }
    CongShift(x * y, x' * y, m, k * y);
  }
}
