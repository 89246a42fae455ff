/** Multiplication and division facts used by the wrap-around and divider proofs. */
module Arith {

  lemma MulLe(a: int, b: int, m: nat)
    ensures a <= b ==> a * m <= b * m
  {
  }

  /** Division is determined by its quotient and remainder. */
  lemma DivUnique(n: nat, m: nat, q: nat, r: nat)
    requires r < m && n == q * m + r
    ensures n / m == q && n % m == r
  {
    var k := n / m;
    assert n == k * m + n % m;
    MulLe(q + 1, k, m);
    MulLe(k + 1, q, m);
    assert (q + 1) * m == q * m + m && (k + 1) * m == k * m + m;
  }

  lemma DivBounds(n: nat, m: nat)
    requires m > 0
    ensures (n / m) * m <= n < (n / m + 1) * m
    ensures n / m <= n
  {
    var q := n / m;
    assert n == q * m + n % m;
    assert (q + 1) * m == q * m + m;
    MulLe(1, m, q);
    assert 1 * q == q && m * q == q * m;
  }

  /** q <= n/m iff q*m <= n. */
  lemma DivGe(n: nat, m: nat, q: nat)
    requires m > 0
    ensures q <= n / m <==> q * m <= n
  {
    DivBounds(n, m);
    MulLe(q, n / m, m);
    MulLe(n / m + 1, q, m);
  }

  /** The remainder is determined, also for negative dividends. */
  lemma ModUnique(x: int, m: nat, t: int, y: nat)
    requires y < m && x == t * m + y
    ensures x % m == y
  {
    var k := x / m;
    assert x == k * m + x % m;
    MulLe(t + 1, k, m);
    MulLe(k + 1, t, m);
    assert (t + 1) * m == t * m + m && (k + 1) * m == k * m + m;
  }

  lemma ModAdd(a: nat, b: nat, m: nat)
    requires m > 0
    ensures (a % m + b) % m == (a + b) % m
  {
    var q, r := a / m, (a + b) % m;
    assert a == q * m + a % m && a + b == (a + b) / m * m + r;
    var t := (a + b) / m - q;
    assert t * m == (a + b) / m * m - q * m;
    ModUnique(a % m + b, m, t, r);
  }

  /** The wrapped difference of two counters less than m apart is their difference. */
  lemma ModSub(a: nat, b: nat, m: nat)
    requires b <= a < b + m
    ensures (a % m - b % m) % m == a - b
  {
    var t := b / m - a / m;
    assert a == a / m * m + a % m && b == b / m * m + b % m;
    assert t * m == b / m * m - a / m * m;
    ModUnique(a % m - b % m, m, t, a - b);
  }

  lemma ModEqIff(a: nat, b: nat, m: nat)
    requires b <= a && m > 0
    ensures a % m == b % m <==> (a - b) % m == 0
  {
    var d := (a - b) % m;
    assert a - b == (a - b) / m * m + d;
    ModAdd(b, d, m);
    assert a == b + d + (a - b) / m * m;
    var q := (b + d) / m;
    assert b + d == q * m + (b + d) % m;
    assert (q + (a - b) / m) * m == q * m + (a - b) / m * m;
    ModUnique(a, m, q + (a - b) / m, (b + d) % m);
    if d != 0 {
      if b % m + d < m { ModUnique(b % m + d, m, 0, b % m + d); } else { ModUnique(b % m + d, m, 1, b % m + d - m); }
    }
  }
}
