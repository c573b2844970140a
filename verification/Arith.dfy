/** Facts about products and remainders with a variable modulus. */
module Arith {
  lemma MultipleSize(q: int, d: nat)
    ensures q >= 1 ==> q * d >= d
    ensures q <= -1 ==> q * d + d <= 0
  {
    var e := if q >= 1 then q - 1 else -q - 1;
    assert e >= 0 ==> e * d >= 0;
    assert q >= 1 ==> q * d == e * d + d;
    assert q <= -1 ==> q * d == -(e * d) - d;
  }

  lemma SameResidue(m: nat, x: int, y: int, q: int)
    requires m >= 1 && x == y + q * m
    ensures x % m == y % m
  {
    var c, e, r, t := x / m, y / m, x % m, y % m;
    assert (c - e - q) * m == t - r by {
      assert x == c * m + r && y == e * m + t;
      assert (c - e - q) * m == c * m - e * m - q * m;
    }
    MultipleSize(c - e - q, m);
  }

  lemma SmallResidue(x: nat, m: nat)
    requires x < m
    ensures x % m == x
  {
    var q := x / m;
    assert x == q * m + x % m;
    MultipleSize(q, m);
  }

  lemma QuotientIs(n: nat, d: nat, q: nat, r: nat)
    requires n == q * d + r && r < d
    ensures n / d == q
  {
    var c := n / d;
    assert (c - q) * d == r - n % d by {
      assert n == c * d + n % d && (c - q) * d == c * d - q * d;
    }
    MultipleSize(c - q, d);
  }

  lemma DividedTwice(n: nat, a: nat, b: nat)
    requires a > 0 && b > 0
    ensures a * b > 0 && n / a / b == n / (a * b)
  {
    var m := n / a;
    NestedQuotient(n, a, b, m, n % a, m / b, m % b);
  }

  lemma NestedQuotient(n: nat, a: nat, b: nat, m: nat, s: nat, q: nat, r: nat)
    requires n == a * m + s && m == b * q + r && s < a && r < b
    ensures a * b > 0 && n / (a * b) == q
  {
    var ab := a * b;
    NestedRemainder(a, b, q, r, s);
    QuotientIs(n, ab, q, a * r + s);
  }

  lemma NestedRemainder(a: nat, b: nat, q: nat, r: nat, s: nat)
    requires r < b && s < a
    ensures a * (b * q + r) + s == q * (a * b) + (a * r + s) && a * r + s < a * b
  {
    assert a * (b * q + r) == a * (b * q) + a * r && a * (b * q) == q * (a * b);
    var k := b - 1 - r;
    assert a * b == a * (k + 1 + r) == a * k + a + a * r && a * k >= 0;
  }
}
