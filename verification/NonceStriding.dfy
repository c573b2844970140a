/** The nonces the internal CPU miner's threads test: thread i starts at i * 1_000_000_007 and adds
    the number of threads after each failure, all modulo 2^64. */
module NonceStriding {
  import opened Arith

  const SEED_STRIDE: nat := 1_000_000_007

  function Pow2(n: nat): (p: nat)
    ensures p >= 1
  {
    if n == 0 then 1 else 2 * Pow2(n - 1)
  }

  /** The nonce of a thread before reduction, after `fails` failed tests. */
  function RawNonce(threads: nat, i: nat, fails: nat): nat {
    i * SEED_STRIDE + fails * threads
  }

  /** Reduced to `bits` bits; the miner's nonces have 64. */
  function NonceBits(bits: nat, threads: nat, i: nat, fails: nat): nat {
    RawNonce(threads, i, fails) % Pow2(bits)
  }

  function Nonce(threads: nat, i: nat, fails: nat): nat {
    NonceBits(64, threads, i, fails)
  }

  // Divisibility

  ghost predicate Divides(d: int, x: int) {
    exists q: int :: x == q * d
  }

  lemma DividesSum(d: int, x: int, y: int, u: int, v: int)
    requires Divides(d, x) && Divides(d, y)
    ensures Divides(d, u * x + v * y)
  {
    var p: int :| x == p * d;
    var q: int :| y == q * d;
    assert u * x + v * y == (u * p + v * q) * d by {
      assert u * (p * d) == u * p * d && v * (q * d) == v * q * d;
    }
  }

  lemma SmallMultiple(d: nat, x: nat)
    requires Divides(d, x) && x < d
    ensures x == 0
  {
    var q: int :| x == q * d;
    MultipleSize(q, d);
  }

  lemma Pow2Sum(a: nat, b: nat)
    ensures Pow2(a + b) == Pow2(a) * Pow2(b)
  {
    if a > 0 {
      Pow2Sum(a - 1, b);
    }
  }

  lemma {:induction false} OddFactor(s: nat, x: nat, odd: nat)
    requires odd % 2 == 1 && Divides(Pow2(s), x * odd)
    ensures Divides(Pow2(s), x)
    decreases s
  {
    if s == 0 {
      assert x == x * Pow2(0);
    } else {
      var h := Pow2(s - 1);
      HalveMultiple(x, odd, h);
      OddFactor(s - 1, x / 2, odd);
      DoubleMultiple(x, h);
    }
  }

  lemma HalveMultiple(x: nat, odd: nat, h: nat)
    requires odd % 2 == 1 && Divides(2 * h, x * odd)
    ensures x % 2 == 0 && Divides(h, x / 2 * odd)
  {
    var q: int :| x * odd == q * (2 * h);
    var qh := q * h;
    assert x * odd == 2 * qh;
    EvenFactor(x, odd);
    var y := x / 2;
    var yo := y * odd;
    assert x * odd == 2 * yo;
    assert yo == q * h;
  }

  lemma DoubleMultiple(x: nat, h: nat)
    requires x % 2 == 0 && Divides(h, x / 2)
    ensures Divides(2 * h, x)
  {
    var p: int :| x / 2 == p * h;
    assert x == p * (2 * h);
  }

  lemma EvenFactor(x: nat, odd: nat)
    requires odd % 2 == 1 && x * odd % 2 == 0
    ensures x % 2 == 0
  {
    var m := odd / 2;
    assert x * odd == 2 * (x * m) + x;
  }

  /** An odd number has an inverse modulo every power of two. */
  lemma {:induction false} OddInverse(m: nat, n: nat) returns (x: nat, q: int)
    requires m % 2 == 1
    ensures m * x == 1 + q * Pow2(n)
  {
    if n == 0 {
      x, q := 1, m - 1;
    } else {
      var y, r := OddInverse(m, n - 1);
      x, q := LiftInverse(m, y, r, Pow2(n - 1));
    }
  }

  lemma LiftInverse(m: nat, y: nat, r: int, h: nat) returns (x: nat, q: int)
    requires m % 2 == 1 && m * y == 1 + r * h
    ensures m * x == 1 + q * (2 * h)
  {
    if r % 2 == 0 {
      q := r / 2;
      x := y;
      assert r * h == 2 * q * h;
    } else {
      q := (r + m) / 2;
      x := y + h;
      assert r + m == 2 * q;
      var mh, rh := m * h, r * h;
      assert m * x == m * y + mh;
      assert mh + rh == (r + m) * h;
      assert (r + m) * h == q * (2 * h);
    }
  }

  lemma {:induction false} OddPart(t: nat) returns (s: nat, m: nat)
    requires t >= 1
    ensures t == Pow2(s) * m && m % 2 == 1
  {
    if t % 2 == 1 {
      s, m := 0, t;
    } else {
      var s', m' := OddPart(t / 2);
      s, m := s' + 1, m';
    }
  }

  ghost predicate IsPow2(t: nat) {
    exists s: nat :: t == Pow2(s)
  }

  lemma {:induction false} Pow2Monotone(a: nat, b: nat)
    requires a < b
    ensures Pow2(a) < Pow2(b)
    decreases b
  {
    if a < b - 1 {
      Pow2Monotone(a, b - 1);
    }
  }

  // Collisions modulo a power of two

  ghost predicate Collide(bits: nat, threads: nat, i: nat, k: nat, a: nat, b: nat) {
    NonceBits(bits, threads, i, a) == NonceBits(bits, threads, k, b)
  }

  lemma EqualResidues(m: nat, x: int, y: int)
    requires m >= 1 && x % m == y % m
    ensures Divides(m, x - y)
  {
    var p, q := x / m, y / m;
    assert x - y == (p - q) * m by {
      assert x == p * m + x % m && y == q * m + y % m;
    }
  }

  /** With a power-of-two number of threads, two threads never test the same nonce, however long they
      run and however often they wrap around. */
  lemma PowerOfTwoNeverCollides(bits: nat, s: nat, i: nat, k: nat, a: nat, b: nat)
    requires s <= bits && i < k < Pow2(s)
    ensures !Collide(bits, Pow2(s), i, k, a, b)
  {
    if Collide(bits, Pow2(s), i, k, a, b) {
      CollisionDivides(bits, s, i, k, a, b);
      OddFactor(s, k - i, SEED_STRIDE);
      SmallMultiple(Pow2(s), k - i);
    }
  }

  lemma CollisionDivides(bits: nat, s: nat, i: nat, k: nat, a: nat, b: nat)
    requires s <= bits && i < k && Collide(bits, Pow2(s), i, k, a, b)
    ensures Divides(Pow2(s), (k - i) * SEED_STRIDE)
  {
    EqualResidues(Pow2(bits), RawNonce(Pow2(s), i, a), RawNonce(Pow2(s), k, b));
    Pow2Sum(s, bits - s);
    StartsDiffer(Pow2(s), i, k, a, b, Pow2(bits - s));
  }

  lemma StartsDiffer(t: nat, i: nat, k: nat, a: nat, b: nat, rest: nat)
    requires i < k && Divides(t * rest, RawNonce(t, i, a) - RawNonce(t, k, b))
    ensures Divides(t, (k - i) * SEED_STRIDE)
  {
    var d: int := RawNonce(t, i, a) - RawNonce(t, k, b);
    var q: int :| d == q * (t * rest);
    var z := a - b - q * rest;
    assert (k - i) * SEED_STRIDE == z * t by {
      assert q * (t * rest) == q * rest * t;
      assert z * t == a * t - b * t - q * rest * t;
    }
  }

  /** With any other number of threads some two of them do, if they run long enough. */
  lemma OtherwiseCollides(bits: nat, threads: nat) returns (k: nat, a: nat)
    requires 1 <= threads < Pow2(bits) && !IsPow2(threads)
    ensures 0 < k < threads && Collide(bits, threads, 0, k, a, 0)
  {
    var s, m := OddPart(threads);
    k := Pow2(s);
    assert m != 1;
    FactorBelow(k, m, threads);
    if bits <= s && bits != s {
      Pow2Monotone(bits, s);
    }
    var x, q := OddInverse(m, bits - s);
    Pow2Sum(s, bits - s);
    a := SEED_STRIDE * x;
    CatchUp(k, m, x, q, Pow2(bits - s));
    SameResidue(Pow2(bits), RawNonce(threads, 0, a), RawNonce(threads, k, 0), SEED_STRIDE * q);
  }

  lemma FactorBelow(k: nat, m: nat, x: nat)
    requires k >= 1 && m >= 2 && x == k * m
    ensures k < x
  {
    var e := m - 2;
    assert k * e >= 0;
    assert k * m == k * e + 2 * k;
  }

  lemma CatchUp(g: nat, m: nat, x: nat, q: int, rest: nat)
    requires m * x == 1 + q * rest
    ensures SEED_STRIDE * x * (g * m) == g * SEED_STRIDE + SEED_STRIDE * q * (g * rest)
  {
    assert SEED_STRIDE * x * (g * m) == SEED_STRIDE * (g * (m * x));
    assert g * (1 + q * rest) == g + q * (g * rest);
  }

  lemma DistinctNonces(threads: nat, i: nat, k: nat, a: nat, b: nat)
    requires IsPow2(threads) && threads < Pow2(64) && i < k < threads
    ensures Nonce(threads, i, a) != Nonce(threads, k, b)
  {
    var s: nat :| threads == Pow2(s);
    if s > 64 {
      Pow2Monotone(64, s);
    }
    PowerOfTwoNeverCollides(64, s, i, k, a, b);
  }

  /** For the miner's 64-bit nonces: threads never share a nonce if and only if their number is a
      power of two. */
  lemma NeverShareIff(threads: nat)
    requires 1 <= threads < Pow2(64)
    ensures IsPow2(threads) <==>
              forall i, k, a, b | 0 <= i < k < threads && 0 <= a && 0 <= b :: Nonce(threads, i, a) != Nonce(threads, k, b)
  {
    if IsPow2(threads) {
      forall i, k, a, b | 0 <= i < k < threads && 0 <= a && 0 <= b
        ensures Nonce(threads, i, a) != Nonce(threads, k, b)
      {
        DistinctNonces(threads, i, k, a, b);
      }
    } else {
      var k, a := OtherwiseCollides(64, threads);
      assert Nonce(threads, 0, a) == Nonce(threads, k, 0);
    }
  }

  // Collisions before wrap-around

  ghost predicate Coprime(a: nat, b: nat) {
    forall d: nat | d >= 1 && Divides(d, a) && Divides(d, b) :: d == 1
  }

  /** Bezout's identity. */
  lemma {:induction false} Bezout(a: nat, b: nat) returns (u: int, v: int)
    requires Coprime(a, b) && a + b >= 1
    ensures u * a + v * b == 1
    decreases b
  {
    if b == 0 {
      assert a == 1 * a && 0 == 0 * a;
      assert Divides(a, a) && Divides(a, b);
      u, v := 1, 0;
    } else {
      var r, c := a % b, a / b;
      assert a == c * b + r;
      forall d: nat | d >= 1 && Divides(d, b) && Divides(d, r)
        ensures d == 1
      {
        DividesSum(d, b, r, c, 1);
        assert Divides(d, a);
      }
      var u', v' := Bezout(b, r);
      u, v := v', u' - c * v';
      assert u * a + v * b == u' * b + v' * r by {
        assert v' * a == v' * (c * b) + v' * r;
        assert (u' - c * v') * b == u' * b - c * v' * b;
        assert v' * (c * b) == c * v' * b;
      }
    }
  }

  lemma CoprimeFactor(t: nat, x: nat, p: nat)
    requires Coprime(t, p) && t + p >= 1 && Divides(t, x * p)
    ensures Divides(t, x)
  {
    var u, v := Bezout(t, p);
    assert Divides(t, t) by { assert t == 1 * t; }
    DividesSum(t, t, x * p, u * x, v);
    BezoutTimes(t, p, u, v, x);
  }

  lemma BezoutTimes(t: int, p: int, u: int, v: int, x: int)
    requires u * t + v * p == 1
    ensures u * x * t + v * (x * p) == x
  {
    var ut, vp := u * t, v * p;
    assert u * x * t == x * ut;
    assert v * (x * p) == x * vp;
    assert x * (ut + vp) == x * ut + x * vp;
  }

  /** Before any wrap-around, no two threads test the same nonce if and only if the number of threads
      is coprime to the seed stride. */
  lemma RawNoncesDisjointIff(threads: nat)
    requires threads >= 1
    ensures Coprime(threads, SEED_STRIDE) <==>
              forall i, k, a, b | 0 <= i < k < threads && 0 <= a && 0 <= b :: RawNonce(threads, i, a) != RawNonce(threads, k, b)
  {
    if Coprime(threads, SEED_STRIDE) {
      forall i, k, a, b | 0 <= i < k < threads && 0 <= a && 0 <= b
        ensures RawNonce(threads, i, a) != RawNonce(threads, k, b)
      {
        if RawNonce(threads, i, a) == RawNonce(threads, k, b) {
          assert (k - i) * SEED_STRIDE == (a - b) * threads;
          CoprimeFactor(threads, k - i, SEED_STRIDE);
          SmallMultiple(threads, k - i);
        }
      }
    } else {
      var d: nat :| d >= 1 && Divides(d, threads) && Divides(d, SEED_STRIDE) && d != 1;
      var t: int :| threads == t * d;
      var p: int :| SEED_STRIDE == p * d;
      QuotientRange(threads, t, d);
      QuotientRange(SEED_STRIDE, p, d);
      assert t * SEED_STRIDE == p * threads by { assert t * (p * d) == p * (t * d); }
      assert RawNonce(threads, 0, p) == RawNonce(threads, t, 0);
    }
  }

  lemma DistinctBeforeWrap(threads: nat, i: nat, k: nat, a: nat, b: nat)
    requires Coprime(threads, SEED_STRIDE) && i < k < threads
    requires RawNonce(threads, i, a) < Pow2(64) && RawNonce(threads, k, b) < Pow2(64)
    ensures Nonce(threads, i, a) != Nonce(threads, k, b)
  {
    RawNoncesDisjointIff(threads);
    SmallResidue(RawNonce(threads, i, a), Pow2(64));
    SmallResidue(RawNonce(threads, k, b), Pow2(64));
  }

  lemma QuotientRange(x: nat, q: int, d: nat)
    requires x >= 1 && d >= 2 && x == q * d
    ensures 1 <= q < x
  {
    MultipleSize(q, d);
    assert q == 0 ==> q * d == 0;
    TwiceAtMost(q, d);
  }

  lemma TwiceAtMost(q: nat, d: nat)
    requires d >= 2
    ensures 2 * q <= q * d
  {
    var e := d - 2;
    assert q * e >= 0 && q * d == q * e + 2 * q;
  }
}
