/** Facts about products, quotients and remainders, and powers of two.

    Products of variables and division are proved here step by step, so that the other modules never
    have to multiply or divide in the middle of a proof: a quotient or a remainder is usually given
    by its value and confirmed with ModUnique. */
module Arithmetic {
  const TWO_32: nat := 0x1_0000_0000
  const TWO_64: nat := 0x1_0000_0000_0000_0000

  lemma Scale(r: int, k: int)
    requires r > 0
    ensures k >= 1 ==> r * k >= r
    ensures k <= -1 ==> r * k <= -r
  {
    if k >= 1 {
      assert r * k == r * (k - 1) + r;
      assert r * (k - 1) >= 0;
    } else if k <= -1 {
      assert r * k == r * (k + 1) - r;
      assert r * (k + 1) <= 0;
    }
  }

  lemma ModUnique(n: int, r: int, q: int, s: int)
    requires r > 0 && n == r * q + s && 0 <= s < r
    ensures n % r == s && n / r == q
  {
    var q', s' := n / r, n % r;
    assert n == r * q' + s';
    assert r * (q - q') == r * q - r * q';
    Scale(r, q - q');
  }

  /** A positive multiple of r is at least r, and stays one when r is taken off. */
  lemma MultipleLess(r: nat, n: nat)
    requires r > 0 && n % r == 0 && n > 0
    ensures r <= n && (n - r) % r == 0
  {
    var q := n / r;
    assert n == r * q;
    Scale(r, q);
    assert n - r == r * (q - 1) by {
      assert r * (q - 1) == r * q - r;
    }
    ModUnique(n - r, r, q - 1, 0);
  }

  lemma MultipleMore(r: nat, n: nat)
    requires r > 0 && n % r == 0
    ensures (n + r) % r == 0
  {
    var q := n / r;
    assert n + r == r * (q + 1) by {
      assert r * (q + 1) == r * q + r;
    }
    ModUnique(n + r, r, q + 1, 0);
  }

  lemma FillUp(x: int, r: int)
    requires r > 0
    ensures (x + (-x) % r) % r == 0
  {
    var q := (-x) / r;
    assert -x == r * q + (-x) % r;
    assert r * -q == -(r * q);
    ModUnique(x + (-x) % r, r, -q, 0);
  }

  lemma Cancel(c: nat, a: int, b: int)
    requires c > 0 && c * a == c * b
    ensures a == b
  {
    Scale(c, a - b);
    assert c * (a - b) == c * a - c * b;
  }

  lemma Associate(a: int, b: int, c: int)
    ensures a * b * c == a * (b * c)
  {
  }

  lemma CancelFactor(c: nat, n: nat, r: nat)
    requires c > 0 && r > 0
    requires (c * n) % (c * r) == 0
    ensures n % r == 0
  {
    var m, s := c * n, c * r;
    var q := m / s;
    assert m == s * q;
    Associate(c, r, q);
    Cancel(c, n, r * q);
    ModUnique(n, r, q, 0);
  }

  /** n / r as a natural number. */
  function Quotient(n: nat, r: nat): (q: nat)
    requires r > 0
    ensures q == n / r
  {
    Scale(r, n / r);
    assert n == r * (n / r) + n % r;
    n / r
  }

  lemma BelowPower(v: nat, p: nat)
    requires v < p
    ensures v / p == 0 && v % p == v
  {
  }

  function Min(a: int, b: int): int {
    if a < b then a else b
  }

  function Max(a: int, b: int): int {
    if a < b then b else a
  }

  // ---------- Powers of two ----------

  function Pow2(k: nat): (p: nat)
    ensures p > k
  {
    if k == 0 then 1 else 2 * Pow2(k - 1)
  }

  lemma Pow2Next(k: nat)
    ensures Pow2(0) == 1 && Pow2(k + 1) == 2 * Pow2(k)
  {
  }

  lemma {:induction false} Pow2Grows(j: nat, k: nat)
    requires j <= k
    ensures Pow2(j) <= Pow2(k)
  {
    if j < k {
      Pow2Grows(j, k - 1);
    }
  }

  lemma {:induction false} Pow2Sum(j: nat, k: nat)
    ensures Pow2(j + k) == Pow2(j) * Pow2(k)
  {
    if k != 0 {
      Pow2Sum(j, k - 1);
      Twice(Pow2(j), Pow2(k - 1));
    }
  }

  lemma Twice(a: nat, p: nat)
    ensures a * (2 * p) == 2 * (a * p)
  {
    Associate(a, 2, p);
    Associate(2, a, p);
  }

  lemma Square(k: nat, v: nat)
    requires Pow2(k) == v
    ensures Pow2(2 * k) == v * v
  {
    hide Pow2;
    Pow2Sum(k, k);
  }

  lemma Pow2Words()
    ensures Pow2(8) == 0x100 && Pow2(32) == 0x1_0000_0000 && Pow2(64) == 0x1_0000_0000_0000_0000
  {
    assert Pow2(4) == 16;
    hide Pow2;
    Square(4, 16);
    Square(8, 0x100);
    Square(16, 0x1_0000);
    Square(32, 0x1_0000_0000);
  }
}
