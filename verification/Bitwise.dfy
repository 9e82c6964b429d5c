/** The `&` of C on unsigned integers, and what it is for masks of the form 2^k - 1. */
module Bitwise {

  /** x & y */
  function And(x: nat, y: nat): (r: nat)
    ensures r <= x && r <= y
  {
    if x == 0 || y == 0 then 0
    else 2 * And(x / 2, y / 2) + if x % 2 == 1 && y % 2 == 1 then 1 else 0
  }

  predicate PowerOfTwo(n: nat) { n == 1 || (n > 1 && n % 2 == 0 && PowerOfTwo(n / 2)) }

  /** The remainder of a number, from that of its half. */
  lemma ModDouble(x: nat, m: nat)
    requires m > 0
    ensures x % (2 * m) == 2 * ((x / 2) % m) + x % 2
  {
    var h, b := x / 2, x % 2;
    var q, r := h / m, h % m;
    Quotient(h, m);
    assert 2 * (m * q) == (2 * m) * q;
    Remainder(x, 2 * m, q, 2 * r + b);
  }

  lemma Quotient(x: nat, n: nat)
    requires n > 0
    ensures x == n * (x / n) + x % n && 0 <= x % n < n
  {
  }

  lemma Remainder(x: nat, n: nat, q: nat, r: nat)
    requires n > 0 && r < n && x == n * q + r
    ensures x % n == r && x / n == q
  {
    var p := x / n;
    Quotient(x, n);
    if p < q { Scale(p, q, n); } else if q < p { Scale(q, p, n); }
  }

  lemma Scale(a: nat, b: nat, n: nat)
    requires a < b
    ensures n * a + n <= n * b
  {
    var d := b - a - 1;
    Distribute(n, a + 1, d);
    Distribute(n, a, 1);
    NonNegative(n, d);
  }

  lemma Distribute(u: nat, a: nat, b: nat)
    ensures u * (a + b) == u * a + u * b
  {
  }

  lemma NonNegative(u: nat, d: nat)
    ensures u * d >= 0
  {
  }

  /** Masking with 2^k - 1 is the remainder by 2^k. */
  lemma {:induction false} AndIsMod(x: nat, n: nat)
    requires PowerOfTwo(n)
    ensures n > 0 && And(x, n - 1) == x % n
    decreases n
  {
    if n > 1 {
      var m := n / 2;
      assert m >= 1;
      AndIsMod(x / 2, m);
      ModDouble(x, m);
      assert n == 2 * m && (n - 1) / 2 == m - 1 && (n - 1) % 2 == 1;
    }
  }
}
