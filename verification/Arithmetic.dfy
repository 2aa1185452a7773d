/** Powers of two, multiples and remainders. */
module Arithmetic {

  function Min(a: nat, b: nat): nat {
    if a < b then a else b
  }

  /** 2 to the power n. */
  function Bit(n: nat): (b: nat)
    ensures b >= 1
  {
    if n == 0 then 1 else 2 * Bit(n - 1)
  }

  lemma {:induction false} BitMonotone(m: nat, n: nat)
    requires m <= n
    ensures Bit(m) <= Bit(n)
  {
    if m < n { BitMonotone(m, n - 1); }
  }

  lemma {:induction false} BitGrows(m: nat, n: nat)
    requires m < n
    ensures 2 * Bit(m) <= Bit(n)
  {
    if m + 1 < n { BitGrows(m, n - 1); }
  }

  lemma {:induction false} BitInjective(m: nat, n: nat)
    ensures Bit(m) == Bit(n) <==> m == n
  {
    if m > 0 && n > 0 {
      BitInjective(m - 1, n - 1);
    }
  }

  lemma {:induction false} BitSum(k: nat, c: nat)
    ensures Bit(k + c) == Bit(k) * Bit(c)
  {
    if k > 0 {
      BitSum(k - 1, c);
      assert 2 * (Bit(k - 1) * Bit(c)) == Bit(k) * Bit(c);
    }
  }

  lemma MulAssociates(a: nat, b: nat, c: nat)
    ensures (a * b) * c == a * (b * c)
  {
  }

  lemma {:induction false} MulMonotone(n: nat, a: nat, b: nat)
    requires a <= b
    ensures n * a <= n * b && n * (a + 1) == n * a + n
  {
    if a < b { MulMonotone(n, a, b - 1); }
  }

  lemma AtLeast(e: nat, k: int)
    ensures k >= 1 ==> e * k >= e
  {
  }

  lemma NoRemainder(x: nat, e: nat, d: nat)
    requires e > 0 && x == e * d
    ensures x % e == 0
  {
    var q, r := x / e, x % e;
    assert x == e * q + r;
    AtLeast(e, d - q);
    AtLeast(e, q - d);
    assert e * d == e * q + e * (d - q);
  }

  lemma AddMultiples(x: nat, y: nat, n: nat)
    requires n > 0 && x % n == 0 && y % n == 0
    ensures (x + y) % n == 0
  {
    assert x + y == n * (x / n) + n * (y / n) == n * (x / n + y / n);
    NoRemainder(x + y, n, x / n + y / n);
  }

  lemma AlignedApart(p: nat, q: nat, n: nat)
    requires n > 0 && p % n == 0 && q % n == 0 && p < q
    ensures p + n <= q
  {
    var a, b := p / n, q / n;
    assert p == n * a && q == n * b;
    if b <= a {
      MulMonotone(n, b, a);
    } else {
      MulMonotone(n, a + 1, b);
    }
  }

  lemma {:induction false} FinerAligned(p: nat, b: nat, s: nat)
    requires s <= b && p % Bit(b) == 0
    ensures p % Bit(s) == 0
  {
    if s < b {
      var n := Bit(b - 1);
      assert p == (2 * n) * (p / (2 * n)) == n * (2 * (p / (2 * n)));
      NoRemainder(p, n, 2 * (p / (2 * n)));
      FinerAligned(p, b - 1, s);
    }
  }
}
