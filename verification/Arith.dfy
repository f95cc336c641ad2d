// Facts about Euclidean division that the other modules share.
module Arith {

  lemma DivMod(x: nat, n: nat)
    requires n > 0
    ensures x == x / n * n + x % n && 0 <= x % n < n
    ensures x < n ==> x / n == 0 && x % n == x
  {
  }

  // A number written as k * n + r has quotient k and remainder r.
  lemma {:induction false} DivModUnique(k: nat, n: nat, r: nat)
    requires r < n
    ensures (k * n + r) / n == k && (k * n + r) % n == r
  {
    var x := k * n + r;
    DivMod(x, n);
    var q := x / n;
    if q < k {
      MulStep(q, k, n);
    } else if q > k {
      MulStep(k, q, n);
    }
  }

  lemma TimesZero(a: nat, n: nat)
    requires a == 0
    ensures a * n == 0
  {
  }

  lemma MulStep(a: nat, b: nat, n: nat)
    requires a < b
    ensures a * n + n <= b * n
  {
    assert (a + 1) * n <= b * n;
  }

  lemma ModWrap(x: nat, y: nat, n: nat)
    requires x < n && y < n
    ensures (x + y) % n == if x + y < n then x + y else x + y - n
  {
    if x + y < n {
      DivModUnique(0, n, x + y);
    } else {
      DivModUnique(1, n, x + y - n);
    }
  }

  lemma ModAdd(x: nat, y: nat, n: nat)
    requires n > 0
    ensures (x % n + y) % n == (x + y) % n
  {
    DivMod(x, n);
    DivMod(x % n + y, n);
    var q, p, r := x / n, (x % n + y) / n, (x % n + y) % n;
    MulSum(q, p, n);
    DivModUnique(q + p, n, r);
  }

  lemma MulDouble(q: nat, p: nat)
    ensures q * (2 * p) == 2 * (q * p)
  {
  }

  lemma ModDouble(x: nat, p: nat)
    requires p > 0
    ensures x % (2 * p) == 2 * (x / 2 % p) + x % 2
  {
    var h := x / 2;
    var q, m := h / p, h % p;
    DivMod(x, 2);
    DivMod(h, p);
    MulDouble(q, p);
    DivModUnique(q, 2 * p, 2 * m + x % 2);
  }

  // Two numbers less than n apart have the same remainder only if they are equal.
  lemma ModApart(a: nat, b: nat, n: nat)
    requires n > 0 && a <= b < a + n && a % n == b % n
    ensures a == b
  {
    DivMod(a, n);
    DivMod(b, n);
    if a / n < b / n {
      MulStep(a / n, b / n, n);
    } else if a / n > b / n {
      MulStep(b / n, a / n, n);
    }
  }

  lemma ModMinus(y: nat, m: nat, n: nat)
    requires n > 0 && m <= y && m % n == 0
    ensures (y - m) % n == y % n
  {
    DivMod(m, n);
    DivMod(y - m, n);
    var p, q, r := (y - m) / n, m / n, (y - m) % n;
    MulSum(p, q, n);
    DivModUnique(p + q, n, r);
  }

  lemma MulSum(p: nat, q: nat, n: nat)
    ensures (p + q) * n == p * n + q * n
  {
  }

  lemma MulMul(q: nat, k: nat, n: nat)
    ensures q * (k * n) == q * k * n
  {
  }

  // A remainder may be taken in two steps if the second divisor divides the first.
  lemma ModMod(x: nat, m: nat, n: nat)
    requires m > 0 && n > 0 && m % n == 0
    ensures x % m % n == x % n
  {
    var q, k := x / m, m / n;
    DivMod(x, m);
    DivMod(m, n);
    MulMul(q, k, n);
    DivModUnique(q * k, n, 0);
    ModMinus(x, q * m, n);
  }

  lemma ModMul(x: nat, m: nat, n: nat)
    requires m > 0 && n > 0
    ensures m * n > 0 && x % (m * n) == x % m + m * (x / m % n)
  {
    var h, s := x / m, x % m;
    DivMod(x, m);
    DivMod(h, n);
    ModMulParts(x, m, n, s, h / n, h % n);
  }

  lemma ModMulParts(x: nat, m: nat, n: nat, s: nat, q: nat, r: nat)
    requires s < m && r < n && x == (q * n + r) * m + s
    ensures m * n > 0 && x % (m * n) == s + m * r
  {
    MulBound(m, r, n);
    MulRegroup(m, q, n, r);
    DivModUnique(q, m * n, s + m * r);
  }

  lemma MulBound(m: nat, r: nat, n: nat)
    requires r < n && m > 0
    ensures m * r + m <= m * n && m * n > 0
  {
    MulStep(r, n, m);
  }

  lemma MulRegroup(m: nat, q: nat, n: nat, r: nat)
    ensures m * (q * n + r) == q * (m * n) + m * r
  {
    MulMul(m, q, n);
    MulMul(q, m, n);
  }

  // Equal digits make equal numbers.
  lemma JoinDigits(x: nat, y: nat, m: nat, n: nat)
    requires m > 0 && n > 0 && x % m == y % m && x / m % n == y / m % n
    ensures m * n > 0 && x % (m * n) == y % (m * n)
  {
    ModMul(x, m, n);
    ModMul(y, m, n);
  }
}
