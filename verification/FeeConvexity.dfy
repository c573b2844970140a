/** The storage mass of an output is convex in its value, up to rounding; so the fee loop cannot leap over
    a fee that pays for itself, and slows down towards it. */
module FeeConvexity {
  import opened CoinSelection
  import Arith

  lemma ScaleBoth(c: nat, x: int, y: int)
    requires x <= y
    ensures c * x <= c * y
  {
    assert c * (y - x) >= 0;
    assert c * (y - x) == c * y - c * x;
  }

  lemma Unscale(c: nat, x: int, y: int)
    requires c > 0 && x * c <= y * c
    ensures x <= y
  {
    Arith.MultipleSize(x - y, c);
    assert (x - y) * c == x * c - y * c;
  }

  /** For a >= b >= c, the value 1/b lies below the chord from 1/a to 1/c; here times abc. */
  lemma Chord(a: nat, b: nat, c: nat)
    requires a >= b >= c
    ensures a * c * (a - c) <= (b - c) * (b * c) + (a - b) * (a * b)
  {
    var u, v := a - b, b - c;
    ScaleBoth(u, 0, v);
    ScaleBoth(u * v, 0, u + v);
    assert c + v == b && c + v + u == a;
    ChordDifference(c, u, v);
  }

  lemma ChordDifference(c: int, u: int, v: int)
    ensures var b := c + v;
            var a := c + v + u;
            (b - c) * (b * c) + (a - b) * (a * b) - a * c * (a - c) == u * v * (u + v)
  {
  }

  lemma Weighted(p: nat, q: nat, x: int, y: int, low: int)
    requires x >= low && y >= low
    ensures p * x + q * y >= (p + q) * low
  {
    ScaleBoth(p, low, x);
    ScaleBoth(q, low, y);
    assert (p + q) * low == p * low + q * low;
  }

  lemma Regrouped(u: int, v: int, a: int, b: int, c: int, x: int, y: int)
    ensures (v * x + u * y) * (a * b * c) == (v * (b * c)) * (x * a) + (u * (a * b)) * (y * c)
  {
    assert (v * x) * (a * b * c) == (v * (b * c)) * (x * a) by {
      assert (b * c) * a == a * b * c;
    }
    assert (u * y) * (a * b * c) == (u * (a * b)) * (y * c);
  }

  lemma RegroupedOne(n: int, a: int, b: int, c: int)
    ensures (n * (a - c)) * (a * b * c) == (a * c * (a - c)) * (n * b)
  {
    var d := a - c;
    assert (a * c * d) * (n * b) == (n * d) * (a * b * c) by {
      assert (a * c) * b == a * b * c;
      assert (a * c * d) * (n * b) == ((a * c) * b) * (d * n);
    }
  }

  /** The chord bounds the storage mass in between, but for the rounding. */
  lemma MassChord(a: nat, b: nat, c: nat)
    requires a >= b >= c >= 1
    ensures (OutputMass(b) - 1) * (a - c) <= (b - c) * OutputMass(a) + (a - b) * OutputMass(c)
  {
    var x, y, n := OutputMass(a), OutputMass(c), OutputMass(b) - 1;
    OutputMassExact(a, x);
    OutputMassExact(c, y);
    OutputMassExact(b, n + 1);
    ChordOfMasses(a, b, c, x, y, n, STORAGE_MASS_PARAMETER);
  }

  lemma ChordOfMasses(a: nat, b: nat, c: nat, x: nat, y: nat, n: int, p: nat)
    requires a >= b >= c >= 1 && x * a >= p && y * c >= p && n * b <= p
    ensures n * (a - c) <= (b - c) * x + (a - b) * y
  {
    var k, l, r := a * b * c, (b - c) * (b * c), (a - b) * (a * b);
    Regrouped(a - b, b - c, a, b, c, x, y);
    Weighted(l, r, x * a, y * c, p);
    Chord(a, b, c);
    ScaleBoth(p, a * c * (a - c), l + r);
    ScaleBoth(a * c * (a - c), n * b, p);
    RegroupedOne(n, a, b, c);
    assert k > 0;
    Unscale(k, n * (a - c), (b - c) * x + (a - b) * y);
  }

  /** With the charge of a twentieth on top: between a fee and one that pays for itself, a fee that moved
      by less than a thousandth pays for its own mass. `u` and `v` are the masses charged `g` and `x`. */
  lemma SettledPays(f: nat, g: nat, x: nat, u: int, v: int, w: int)
    requires f <= g <= x && f < x && 1000 * (g - f) < g && g >= 1000
    requires 105 * u <= 100 * g + 99 && 105 * v <= 100 * x + 99
    requires (w - 1) * (x - f) <= (x - g) * u + (g - f) * v
    ensures w <= g
  {
    var d, e := g - f, x - g;
    ChargedChord(d, e, u, v, w - 1, 100 * g + 99, 100 * x + 99);
    SettledSum(d, e, g);
    assert g + e == x && d + e == x - f;
    Unscale(d + e, 105 * (w - 1), 100 * g + 99 + 100 * d);
  }

  lemma ChargedChord(d: nat, e: nat, u: int, v: int, w: int, g: int, x: int)
    requires 105 * u <= g && 105 * v <= x && w * (d + e) <= e * u + d * v
    ensures (105 * w) * (d + e) <= e * g + d * x
  {
    ScaleBoth(e, 105 * u, g);
    ScaleBoth(d, 105 * v, x);
    assert e * (105 * u) == 105 * (e * u) && d * (105 * v) == 105 * (d * v);
    assert (105 * w) * (d + e) == 105 * (w * (d + e));
  }

  lemma SettledSum(d: nat, e: nat, g: nat)
    ensures e * (100 * g + 99) + d * (100 * (g + e) + 99) <= (100 * g + 99 + 100 * d) * (d + e)
  {
    assert d * d >= 0;
    assert e * (100 * g + 99) + d * (100 * (g + e) + 99) == (100 * g + 99) * (d + e) + 100 * (d * e);
    assert (100 * g + 99 + 100 * d) * (d + e) == (100 * g + 99) * (d + e) + 100 * (d * d) + 100 * (d * e);
  }

  lemma Shifted(p: int, q: int, e: int, a: int, b: int, c: int)
    requires (b - 1) * (q + p) <= q * a + p * c
    ensures (e + b - 1) * (q + p) <= q * (e + a) + p * (e + c)
  {
    assert q * (e + a) + p * (e + c) == q * a + p * c + e * (q + p);
    assert (e + b - 1) * (q + p) == (b - 1) * (q + p) + e * (q + p);
  }

  /** The storage mass of a transaction: `e` besides the change, which at the three fees weighs a, b and c. */
  lemma StoragePays(f: nat, g: nat, x: nat, e: int, a: int, b: int, c: int)
    requires f <= g <= x && f < x && 1000 * (g - f) < g && g >= 1000
    requires 105 * (e + a) <= 100 * g + 99 && 105 * (e + c) <= 100 * x + 99
    requires (b - 1) * (x - f) <= (x - g) * a + (g - f) * c
    ensures e + b <= g
  {
    Shifted(g - f, x - g, e, a, b, c);
    SettledPays(f, g, x, e + a, e + c, e + b);
  }
}
