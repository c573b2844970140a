/** When a payment covers the mass of its own transaction. */
module FeeCover {
  import opened CoinSelection
  import opened FeeRounds
  import Arith
  import FeeConvexity

  // Fees that pay for the mass they lead to

  /** The fee is at least the compute mass with change, and with what it leaves as change the storage mass
      of the outputs is within it too: times the change, so that nothing is rounded. */
  predicate Enough(s: Shape, fee: int) {
    s.base + 404 <= fee < s.left && STORAGE_MASS_PARAMETER <= (fee - s.extra) * (s.left - fee)
  }

  lemma EnoughIff(s: Shape, fee: nat)
    requires fee < s.left
    ensures HighMass(s, fee) <= fee <==> Enough(s, fee)
  {
    var c, d := s.left - fee, fee - s.extra;
    var n := OutputMass(c);
    OutputMassExact(c, n);
    QuotientWithin(n, c, d, STORAGE_MASS_PARAMETER);
  }

  lemma QuotientWithin(n: nat, c: nat, d: int, p: nat)
    requires c > 0 && n * c - c < p <= n * c
    ensures n <= d <==> p <= d * c
  {
    if n <= d {
      FeeConvexity.ScaleBoth(c, n, d);
      assert c * n == n * c && c * d == d * c;
    } else {
      FeeConvexity.ScaleBoth(c, d, n - 1);
      assert c * (n - 1) == n * c - c && c * d == d * c;
    }
  }

  /** Between two such fees every fee is one. */
  lemma EnoughBetween(s: Shape, a: int, b: int, c: int)
    requires Enough(s, a) && Enough(s, c) && a <= b <= c
    ensures Enough(s, b)
  {
    Parabola(s.left, s.extra, a, b);
    Parabola(s.left, s.extra, c, b);
    if s.left + s.extra >= a + b {
      FeeConvexity.ScaleBoth(b - a, 0, s.left + s.extra - a - b);
    } else {
      FeeConvexity.ScaleBoth(c - b, 0, b + c - s.left - s.extra);
      assert (b - c) * (s.left + s.extra - b - c) == (c - b) * (b + c - s.left - s.extra);
    }
  }

  lemma Parabola(l: int, e: int, a: int, b: int)
    ensures (b - e) * (l - b) - (a - e) * (l - a) == (b - a) * (l + e - a - b)
  {
  }

  /** The fee at which the product is largest. */
  function BestFee(s: Shape): int {
    var middle := (s.left + s.extra) / 2;
    if middle < s.base + 404 then s.base + 404 else middle
  }

  lemma ProductPositive(x: int, y: int)
    requires y > 0 && x * y > 0
    ensures x > 0
  {
    Arith.MultipleSize(x, y);
  }

  lemma BestIsBest(s: Shape, fee: int)
    requires Enough(s, fee)
    ensures Enough(s, BestFee(s))
  {
    var b, m := BestFee(s), (s.left + s.extra) / 2;
    ProductPositive(fee - s.extra, s.left - fee);
    Parabola(s.left, s.extra, fee, b);
    if b == m && b >= fee {
      FeeConvexity.ScaleBoth(b - fee, 0, s.left + s.extra - fee - b);
    } else {
      FeeConvexity.ScaleBoth(fee - b, 0, fee + b - s.left - s.extra);
      assert (b - fee) * (s.left + s.extra - fee - b) == (fee - b) * (fee + b - s.left - s.extra);
    }
  }

  // Where no fee with change is enough

  /** A check on the leftover, the compute mass and the storage mass besides change. */
  predicate SomeEnough(s: Shape) {
    Enough(s, BestFee(s))
  }

  lemma SomeEnoughIff(s: Shape)
    ensures SomeEnough(s) <==> exists fee: nat :: Enough(s, fee)
  {
    if SomeEnough(s) {
      var b: nat := BestFee(s);
      assert Enough(s, b);
    }
    if fee: nat :| Enough(s, fee) {
      BestIsBest(s, fee);
    }
  }

  /** Then every round with change raises the fee by a twentieth. */
  lemma Steep(s: Shape, fee: nat)
    requires !SomeEnough(s) && fee < s.left
    ensures HighMass(s, fee) > fee && 100 * Round(s, fee) >= 105 * fee + 6
  {
    SomeEnoughIff(s);
    assert !Enough(s, fee);
    EnoughIff(s, fee);
  }

  lemma RoundAtLeastLow(s: Shape, fee: nat)
    ensures Round(s, fee) >= Low(s)
  {
    if fee < s.left {
      ChangeCosts(s, fee);
    }
  }

  /** So no round moves the fee by less than a thousandth. */
  lemma NeverClose(s: Shape, n: nat)
    requires s.base >= 5190 && !SomeEnough(s) && n > 0
    requires Low(s) < s.left && Round(s, MINIMUM_FEE) < s.left
    ensures !Close(s, n)
  {
    if n == 1 {
      FirstRound(s);
    } else {
      var prev := Rounds(s, MINIMUM_FEE, n - 1);
      NextRound(s, MINIMUM_FEE, n);
      if prev < s.left {
        Steep(s, prev);
      } else {
        NoChange(s, prev);
        FarAboveLow(s, n - 1);
      }
    }
  }

  /** A round that leaves no change is far above the fee without change. */
  lemma FarAboveLow(s: Shape, n: nat)
    requires !SomeEnough(s) && n > 0 && Rounds(s, MINIMUM_FEE, n) >= s.left
    requires Low(s) < s.left && Round(s, MINIMUM_FEE) < s.left
    ensures 100 * Rounds(s, MINIMUM_FEE, n) >= 105 * Low(s)
  {
    var k := n - 1;
    var fee := Rounds(s, MINIMUM_FEE, k);
    NextRound(s, MINIMUM_FEE, n);
    if fee < s.left {
      Steep(s, fee);
    } else {
      NoChange(s, fee);
    }
    if k > 0 {
      NextRound(s, MINIMUM_FEE, k);
      RoundAtLeastLow(s, Rounds(s, MINIMUM_FEE, k - 1));
    }
  }

  lemma RunsToTheEighth(s: Shape, n: nat)
    requires s.base >= 5190 && !SomeEnough(s) && StopsAt(s, n)
    requires Low(s) < s.left && Round(s, MINIMUM_FEE) < s.left
    ensures n == 8
  {
    NeverClose(s, n);
  }

  /** The eighth round of a cycle first reached after `j` rounds and then every `p + 1` is one without
      change. */
  predicate EighthIsHigh(j: nat, p: nat) {
    j == 8 || (j < 8 && (7 - j) % (p + 1) == p)
  }

  lemma EighthRound(s: Shape, j: nat, p: nat)
    requires Ejects(s, MINIMUM_FEE, j) && Ejects(s, Low(s), p)
    ensures Rounds(s, MINIMUM_FEE, 8) >= s.left <==> EighthIsHigh(j, p)
  {
    CycleLaw(s, j, p, 8);
    if j < 8 {
      PhaseIsRemainder(7 - j, p);
    }
  }

  /** The loop cycles, and ends on a fee that leaves no change. */
  ghost predicate CyclesToHigh(s: Shape) {
    exists j: nat, p: nat :: Ejects(s, MINIMUM_FEE, j) && Ejects(s, Low(s), p) && EighthIsHigh(j, p)
  }

  lemma CyclingCovers(s: Shape, n: nat)
    requires s.base >= 5190 && !SomeEnough(s) && StopsAt(s, n)
    requires Low(s) < s.left && Round(s, MINIMUM_FEE) < s.left
    ensures PaysAt(s, Rounds(s, MINIMUM_FEE, n)) <==> CyclesToHigh(s)
  {
    RunsToTheEighth(s, n);
    var fee := Rounds(s, MINIMUM_FEE, 8);
    if fee < s.left {
      Steep(s, fee);
    }
    var j, p := Cycle(s);
    EighthRound(s, j, p);
    if CyclesToHigh(s) {
      var j', p' :| Ejects(s, MINIMUM_FEE, j') && Ejects(s, Low(s), p') && EighthIsHigh(j', p');
      EighthRound(s, j', p');
    }
  }

  lemma Cycle(s: Shape) returns (j: nat, p: nat)
    requires !SomeEnough(s)
    ensures Ejects(s, MINIMUM_FEE, j) && Ejects(s, Low(s), p)
  {
    forall x: nat
      ensures !SelfPaying(s, x)
    {
      if x < s.left {
        Steep(s, x);
      }
    }
    EjectsIff(s);
    j :| Ejects(s, MINIMUM_FEE, j);
    p := LowEjects(s, j);
  }

  // Where some fee pays for itself

  ghost predicate Settles(s: Shape) {
    exists k | 1 <= k < 8 :: Close(s, k)
  }

  /** The climb has reached the fees that are enough. */
  ghost predicate Reached(s: Shape, fee: nat) {
    exists y: nat :: y <= fee && Enough(s, y)
  }

  lemma SettlingCovers(s: Shape, x: nat, n: nat)
    requires SelfPaying(s, x) && StopsAt(s, n)
    ensures PaysAt(s, Rounds(s, MINIMUM_FEE, n)) <==> Settles(s) || Reached(s, Rounds(s, MINIMUM_FEE, 8))
  {
    var fee := Rounds(s, MINIMUM_FEE, n);
    SettlingLoop(s, x, n);
    if n < 8 {
      SettledPays(s, x, n);
      assert Settles(s);
    } else {
      EnoughIff(s, fee);
      EnoughIff(s, x);
      if y: nat :| y <= fee && Enough(s, y) {
        EnoughBetween(s, y, fee, x);
      }
    }
  }

  // When the payment covers its mass

  /** The loop goes back and forth and ends on the higher fee. */
  predicate EndsOnHigher(s: Shape) {
    WithinThousandth(Low(s), Round(s, Low(s))) && !WithinThousandth(Round(s, MINIMUM_FEE), Low(s))
  }

  /** By the leftover. Within the fee without change: if the mass without change is within the leftover.
      Within the first round's fee: if the loop ends on the higher fee, or the lower is enough for its
      change. Beyond, where no fee with change is enough: if the cycle's eighth round leaves no change.
      Where some fee pays for itself: if the loop settles before the eighth round, or has reached the fees
      that are enough by then. In the strip between, where some fee is enough for the mass but none for
      the charge on it: if the fee of the round the loop stops at leaves no change or is enough. */
  ghost predicate CoverCondition(s: Shape, n: nat) {
    if s.left <= Low(s) then LowMass(s) <= s.left
    else if s.left <= Round(s, MINIMUM_FEE) then EndsOnHigher(s) || Enough(s, Low(s))
    else if !SomeEnough(s) then CyclesToHigh(s)
    else if exists change: nat :: FitsWith(s, change) then Settles(s) || Reached(s, Rounds(s, MINIMUM_FEE, 8))
    else PaysAt(s, Rounds(s, MINIMUM_FEE, n))
  }

  lemma CoversAt(selected: seq<nat>, send: nat, fee: nat)
    requires Total(selected) >= send
    ensures var s := ShapeOf(selected, send);
            CoversMass(BuildTx(selected, send, fee)) <==> MassAt(s, fee) <= MinOf(fee, s.left)
  {
    MassOfShape(selected, send, fee);
  }

  lemma LongLeftover(s: Shape, n: nat)
    requires s.base >= 5190 && StopsAt(s, n) && Low(s) < s.left && Round(s, MINIMUM_FEE) < s.left
    ensures PaysAt(s, Rounds(s, MINIMUM_FEE, n)) <==> CoverCondition(s, n)
  {
    if !SomeEnough(s) {
      CyclingCovers(s, n);
    } else {
      SelfPayingIff(s);
      if x: nat :| SelfPaying(s, x) {
        SettlingCovers(s, x, n);
      }
    }
  }

  lemma ConditionAt(s: Shape, n: nat)
    requires s.base >= 5190 && StopsAt(s, n)
    ensures var fee := Rounds(s, MINIMUM_FEE, n); MassAt(s, fee) <= MinOf(fee, s.left) <==> CoverCondition(s, n)
  {
    if s.left <= Low(s) {
      ShortLeftover(s, n);
    } else if s.left <= Round(s, MINIMUM_FEE) {
      BackAndForth(s, n);
      EnoughIff(s, Low(s));
    } else {
      LongLeftover(s, n);
    }
  }

  /** For every selection and amount, whether the payment with the loop's fee covers the mass of its own
      transaction. */
  lemma CoversMassIff(selected: seq<nat>, send: nat, fee: nat, n: nat)
    requires selected != [] && Total(selected) >= send && IsFeeAt(MassesOf(selected, send), fee, n)
    ensures CoversMass(BuildTx(selected, send, fee)) <==> CoverCondition(ShapeOf(selected, send), n)
  {
    StopOfShape(selected, send, fee, n);
    CoversAt(selected, send, fee);
    ConditionAt(ShapeOf(selected, send), n);
  }
}
