/** The rounds of the wallet's fee loop. A fee that leaves change pays for a change output, and for little
    change a heavy one; a fee that leaves none does not. So the rounds can go back and forth. */
module FeeRounds {
  import opened CoinSelection
  import FeeConvexity
  import Arith

  // The loop in three numbers

  /** What the inputs leave over after the amount, the compute mass without change, and the storage mass
      of the payment's output less that of the inputs. */
  datatype Shape = Shape(left: nat, base: nat, extra: int)

  function ShapeOf(selected: seq<nat>, send: nat): Shape {
    Shape(SaturatingSub(Total(selected), send), 424 + 4766 * |selected|, OutputMass(send) - InputMass(selected))
  }

  function AtLeastZero(x: int): nat {
    if x < 0 then 0 else x
  }

  function LowMass(s: Shape): nat {
    MaxOf(s.base, AtLeastZero(s.extra))
  }

  function HighMass(s: Shape, fee: nat): nat
    requires fee < s.left
  {
    MaxOf(s.base + 404, AtLeastZero(s.extra + OutputMass(s.left - fee)))
  }

  /** The mass of the transaction that a fee leads to: with change below the leftover, without from there on. */
  function MassAt(s: Shape, fee: nat): nat {
    if fee < s.left then HighMass(s, fee) else LowMass(s)
  }

  function Charge(mass: nat): (fee: nat)
    ensures fee >= mass && fee >= MINIMUM_FEE
  {
    assert mass * 105 / 100 >= mass;
    MaxOf(mass * 105 / 100, MINIMUM_FEE)
  }

  function Low(s: Shape): nat {
    Charge(LowMass(s))
  }

  function Round(s: Shape, fee: nat): nat {
    Charge(MassAt(s, fee))
  }

  function Rounds(s: Shape, fee: nat, n: nat): nat {
    if n == 0 then fee else Round(s, Rounds(s, fee, n - 1))
  }

  lemma MassOfShape(selected: seq<nat>, send: nat, fee: nat)
    ensures var (cm, sm) := EstimateTxMass(selected, send, fee);
            MaxOf(cm, sm) == MassAt(ShapeOf(selected, send), fee)
  {
  }

  lemma ChargedIsCharge(mass: (nat, nat))
    ensures Charged(mass) == Charge(MaxOf(mass.0, mass.1))
  {
  }

  /** The rounds of the loop depend on the three numbers only. */
  lemma {:induction false} RoundsOfShape(selected: seq<nat>, send: nat, n: nat)
    ensures FeeAfter(MassesOf(selected, send), n) == Rounds(ShapeOf(selected, send), MINIMUM_FEE, n)
  {
    if n > 0 {
      RoundsOfShape(selected, send, n - 1);
      var fee := FeeAfter(MassesOf(selected, send), n - 1);
      ChargedIsCharge(EstimateTxMass(selected, send, fee));
      MassOfShape(selected, send, fee);
    }
  }

  // Up with change, down without

  lemma ChargeMonotone(a: nat, b: nat)
    requires a <= b
    ensures Charge(a) <= Charge(b)
  {
    assert a * 105 / 100 <= b * 105 / 100;
  }

  /** Change always costs something. */
  lemma ChangeCosts(s: Shape, fee: nat)
    requires fee < s.left
    ensures LowMass(s) < HighMass(s, fee) && Low(s) <= Round(s, fee)
  {
    OutputMassAntitone(s.left - fee, s.left - fee);
    ChargeMonotone(LowMass(s), HighMass(s, fee));
  }

  /** Among fees that leave change, a higher one leaves less, which weighs more. */
  lemma RoundMonotone(s: Shape, fee: nat, fee': nat)
    requires fee <= fee' < s.left
    ensures HighMass(s, fee) <= HighMass(s, fee') && Round(s, fee) <= Round(s, fee')
  {
    OutputMassAntitone(s.left - fee', s.left - fee);
    ChargeMonotone(HighMass(s, fee), HighMass(s, fee'));
  }

  lemma {:induction false} RoundsSum(s: Shape, fee: nat, a: nat, b: nat)
    ensures Rounds(s, fee, a + b) == Rounds(s, Rounds(s, fee, a), b)
    decreases b
  {
    if b > 0 {
      RoundsSum(s, fee, a, b - 1);
      assert a + b - 1 == a + (b - 1);
    }
  }

  lemma NextRound(s: Shape, fee: nat, n: nat)
    requires n > 0
    ensures Rounds(s, fee, n) == Round(s, Rounds(s, fee, n - 1))
  {
  }

  lemma NoChange(s: Shape, fee: nat)
    requires fee >= s.left
    ensures Round(s, fee) == Low(s)
  {
  }

  /** From `fee` on, the rounds first leave no change after `j` of them. */
  ghost predicate Ejects(s: Shape, fee: nat, j: nat) {
    Rounds(s, fee, j) >= s.left && forall i: nat | i < j :: Rounds(s, fee, i) < s.left
  }

  lemma {:induction false} Dominated(s: Shape, x: nat, y: nat, i: nat)
    requires x <= y && forall k: nat | k < i :: Rounds(s, y, k) < s.left
    ensures Rounds(s, x, i) <= Rounds(s, y, i)
    decreases i
  {
    if i > 0 {
      Dominated(s, x, y, i - 1);
      RoundMonotone(s, Rounds(s, x, i - 1), Rounds(s, y, i - 1));
    }
  }

  /** Both starts of a climb, the minimum and the fee without change, go up in the next round. */
  lemma StartsGoUp(s: Shape, fee: nat)
    requires (fee == MINIMUM_FEE || fee == Low(s)) && fee < s.left
    ensures Round(s, fee) >= fee
  {
    ChangeCosts(s, fee);
  }

  /** While they leave change the rounds go up. */
  lemma {:induction false} ClimbGoesUp(s: Shape, fee: nat, i: nat)
    requires fee < s.left && Round(s, fee) >= fee
    requires forall k: nat | k <= i :: Rounds(s, fee, k) < s.left
    ensures Rounds(s, fee, i) <= Rounds(s, fee, i + 1)
    decreases i
  {
    if i > 0 {
      assert forall k: nat | k <= i - 1 :: Rounds(s, fee, k) < s.left;
      ClimbGoesUp(s, fee, i - 1);
      RoundMonotone(s, Rounds(s, fee, i - 1), Rounds(s, fee, i));
    } else {
      assert Rounds(s, fee, 1) == Round(s, Rounds(s, fee, 0));
    }
  }

  // When the rounds cycle, and which fee each round has

  /** A fee that leaves change and pays for the transaction it leads to. */
  predicate SelfPaying(s: Shape, fee: nat) {
    MINIMUM_FEE <= fee < s.left && Round(s, fee) <= fee
  }

  lemma {:induction false} BelowSelfPaying(s: Shape, x: nat, i: nat)
    requires SelfPaying(s, x)
    ensures Rounds(s, MINIMUM_FEE, i) <= x
    decreases i
  {
    if i > 0 {
      BelowSelfPaying(s, x, i - 1);
      RoundMonotone(s, Rounds(s, MINIMUM_FEE, i - 1), x);
    }
  }

  /** Without a fee that pays for itself the climb gains at every round. */
  lemma {:induction false} ClimbGains(s: Shape, i: nat)
    requires forall x: nat :: !SelfPaying(s, x)
    requires forall k: nat | k < i :: Rounds(s, MINIMUM_FEE, k) < s.left
    ensures Rounds(s, MINIMUM_FEE, i) >= MINIMUM_FEE + i
    decreases i
  {
    if i > 0 {
      ClimbGains(s, i - 1);
      assert !SelfPaying(s, Rounds(s, MINIMUM_FEE, i - 1));
    }
  }

  /** The first round at or after `i` that leaves no change, when round `n` is one and those before `i` are not. */
  lemma {:induction false} FirstEject(s: Shape, fee: nat, i: nat, n: nat) returns (j: nat)
    requires i <= n && Rounds(s, fee, n) >= s.left
    requires forall k: nat | k < i :: Rounds(s, fee, k) < s.left
    ensures j <= n && Ejects(s, fee, j)
    decreases n - i
  {
    if Rounds(s, fee, i) >= s.left {
      j := i;
    } else {
      j := FirstEject(s, fee, i + 1, n);
    }
  }

  /** The rounds come to leave no change if and only if no fee with change pays for itself. */
  lemma EjectsIff(s: Shape)
    ensures (exists j: nat :: Ejects(s, MINIMUM_FEE, j)) <==> forall x: nat :: !SelfPaying(s, x)
  {
    if x: nat :| SelfPaying(s, x) {
      forall j: nat
        ensures !Ejects(s, MINIMUM_FEE, j)
      {
        BelowSelfPaying(s, x, j);
      }
    } else {
      var n := SomeEject(s);
      var j := FirstEject(s, MINIMUM_FEE, 0, n);
    }
  }

  lemma SomeEject(s: Shape) returns (n: nat)
    requires forall x: nat :: !SelfPaying(s, x)
    ensures Rounds(s, MINIMUM_FEE, n) >= s.left
  {
    if k: nat :| k < s.left && Rounds(s, MINIMUM_FEE, k) >= s.left {
      n := k;
    } else {
      n := s.left;
      ClimbGains(s, n);
    }
  }

  /** In the leftover: a fee pays for itself if and only if some change and the fee it asks for fit into
      it. */
  lemma SelfPayingIff(s: Shape)
    ensures (exists x: nat :: SelfPaying(s, x)) <==> exists change: nat :: FitsWith(s, change)
  {
    if x: nat :| SelfPaying(s, x) {
      assert s.left - (s.left - x) == x;
      assert FitsWith(s, s.left - x);
    }
    if change: nat :| FitsWith(s, change) {
      var x := s.left - change;
      assert s.left - x == change;
      assert SelfPaying(s, x);
    }
  }

  predicate FitsWith(s: Shape, change: nat) {
    change > 0 && change + Charge(MaxOf(s.base + 404, AtLeastZero(s.extra + OutputMass(change)))) <= s.left
  }

  /** What settles for one leftover settles for every larger one. */
  lemma SelfPayingMore(s: Shape, more: nat, x: nat) returns (y: nat)
    requires SelfPaying(s, x) && s.left <= more
    ensures SelfPaying(s.(left := more), y) && more - y == s.left - x
  {
    y := more - (s.left - x);
    assert more - y == s.left - x;
  }

  /** After the fee without change the rounds leave no change again, no later than at first. */
  lemma LowEjects(s: Shape, j: nat) returns (p: nat)
    requires Ejects(s, MINIMUM_FEE, j)
    ensures p <= j && Ejects(s, Low(s), p)
  {
    if k: nat :| k < j && Rounds(s, Low(s), k) >= s.left {
      p := FirstEject(s, Low(s), 0, k);
    } else {
      Dominated(s, MINIMUM_FEE, Low(s), j);
      p := FirstEject(s, Low(s), 0, j);
    }
  }

  /** Where round `m` of a cycle of `p + 1` rounds stands. */
  function Phase(m: nat, p: nat): (i: nat)
    ensures i <= p
    decreases m
  {
    if m <= p then m else Phase(m - (p + 1), p)
  }

  lemma {:induction false} PhaseIsRemainder(m: nat, p: nat)
    ensures Phase(m, p) == m % (p + 1)
    decreases m
  {
    if m > p {
      PhaseIsRemainder(m - (p + 1), p);
      Arith.SameResidue(p + 1, m - (p + 1), m, -1);
    } else {
      Arith.SmallResidue(m, p + 1);
    }
  }

  lemma {:induction false} LowReturns(s: Shape, p: nat, m: nat)
    requires Ejects(s, Low(s), p)
    ensures Rounds(s, Low(s), m) == Rounds(s, Low(s), Phase(m, p))
    decreases m
  {
    if m > p {
      var rest := m - (p + 1);
      LowReturns(s, p, rest);
      RoundsSum(s, Low(s), p + 1, rest);
      BackToLow(s, Low(s), p);
    }
  }

  lemma BackToLow(s: Shape, fee: nat, j: nat)
    requires Ejects(s, fee, j)
    ensures Rounds(s, fee, j + 1) == Low(s)
  {
    NextRound(s, fee, j + 1);
    NoChange(s, Rounds(s, fee, j));
  }

  /** The fee of every round of a cycling loop: up from the minimum for `j` rounds, and from then on
      through the same `p + 1` fees from the one without change. */
  lemma CycleLaw(s: Shape, j: nat, p: nat, n: nat)
    requires Ejects(s, MINIMUM_FEE, j) && Ejects(s, Low(s), p)
    ensures n <= j ==> (Rounds(s, MINIMUM_FEE, n) < s.left <==> n < j)
    ensures n > j ==> Rounds(s, MINIMUM_FEE, n) == Rounds(s, Low(s), Phase(n - j - 1, p))
    ensures n > j ==> (Rounds(s, MINIMUM_FEE, n) >= s.left <==> Phase(n - j - 1, p) == p)
  {
    if n > j {
      AfterEject(s, j, p, n - j - 1);
    }
  }

  lemma AfterEject(s: Shape, j: nat, p: nat, m: nat)
    requires Ejects(s, MINIMUM_FEE, j) && Ejects(s, Low(s), p)
    ensures Rounds(s, MINIMUM_FEE, j + 1 + m) == Rounds(s, Low(s), Phase(m, p))
  {
    RoundsSum(s, MINIMUM_FEE, j + 1, m);
    BackToLow(s, MINIMUM_FEE, j);
    LowReturns(s, p, m);
  }

  // Where the loop stops

  predicate Close(s: Shape, n: nat)
    requires n > 0
  {
    WithinThousandth(Rounds(s, MINIMUM_FEE, n - 1), Rounds(s, MINIMUM_FEE, n))
  }

  ghost predicate StopsAt(s: Shape, n: nat) {
    1 <= n <= 8 && (n < 8 ==> Close(s, n)) && forall k | 1 <= k < n :: !Close(s, k)
  }

  lemma StopOfShape(selected: seq<nat>, send: nat, fee: nat, n: nat)
    ensures IsFeeAt(MassesOf(selected, send), fee, n) <==>
            StopsAt(ShapeOf(selected, send), n) && fee == Rounds(ShapeOf(selected, send), MINIMUM_FEE, n)
  {
    var masses, s := MassesOf(selected, send), ShapeOf(selected, send);
    forall k: nat
      ensures FeeAfter(masses, k) == Rounds(s, MINIMUM_FEE, k)
    {
      RoundsOfShape(selected, send, k);
    }
    assert forall k | 1 <= k :: Settled(masses, k) <==> Close(s, k);
  }

  /** With an input at least, the first round is far from the minimum. */
  lemma FirstRound(s: Shape)
    requires s.base >= 5190
    ensures !Close(s, 1) && Low(s) >= 5449
  {
    var first := Round(s, MINIMUM_FEE);
    assert Rounds(s, MINIMUM_FEE, 1) == Round(s, Rounds(s, MINIMUM_FEE, 0)) == first;
    ChargeMonotone(5190, LowMass(s));
    ChargeMonotone(5190, MassAt(s, MINIMUM_FEE));
    assert Charge(5190) == 5449;
  }

  lemma ThreeRounds(s: Shape)
    ensures Rounds(s, MINIMUM_FEE, 1) == Round(s, MINIMUM_FEE)
    ensures Rounds(s, MINIMUM_FEE, 2) == Round(s, Round(s, MINIMUM_FEE))
    ensures Rounds(s, MINIMUM_FEE, 3) == Round(s, Round(s, Round(s, MINIMUM_FEE)))
  {
    assert Rounds(s, MINIMUM_FEE, 0) == MINIMUM_FEE;
  }

  /** A leftover within the fee without change: that fee is the loop's. */
  lemma ShortLeftover(s: Shape, n: nat)
    requires s.base >= 5190 && s.left <= Low(s) && StopsAt(s, n)
    ensures Rounds(s, MINIMUM_FEE, n) == Low(s)
  {
    FirstRound(s);
    ThreeRounds(s);
    if MINIMUM_FEE < s.left {
      ChangeCosts(s, MINIMUM_FEE);
    }
    assert Rounds(s, MINIMUM_FEE, 2) == Low(s) == Rounds(s, MINIMUM_FEE, 3);
    assert Close(s, 3);
  }

  /** A leftover between that fee and the first round's: the rounds go back and forth between the fee
      without change and one that leaves none. The eighth has the lower; the loop ends on the higher only
      if that is within a thousandth of the lower and the first round's is not. */
  lemma BackAndForth(s: Shape, n: nat)
    requires s.base >= 5190 && Low(s) < s.left <= Round(s, MINIMUM_FEE) && StopsAt(s, n)
    ensures s.left <= Round(s, Low(s))
    ensures n == 3 <==> WithinThousandth(Low(s), Round(s, Low(s))) && !WithinThousandth(Round(s, MINIMUM_FEE), Low(s))
    ensures n == 2 || n == 3 || n == 8
    ensures Rounds(s, MINIMUM_FEE, n) == if n == 3 then Round(s, Low(s)) else Low(s)
  {
    FirstRound(s);
    ThreeRounds(s);
    RoundMonotone(s, MINIMUM_FEE, Low(s));
    NoChange(s, Round(s, MINIMUM_FEE));
    BackAndForthRounds(s, 1);
    BackAndForthRounds(s, 4);
    assert Close(s, 2) <==> WithinThousandth(Round(s, MINIMUM_FEE), Low(s));
    ClosesAt(s, 1);
    ClosesAt(s, 2);
    ClosesAt(s, 3);
    assert Close(s, 3) || (!Close(s, 4) && !Close(s, 5) && !Close(s, 6) && !Close(s, 7));
  }

  lemma {:induction false} BackAndForthRounds(s: Shape, i: nat)
    requires Low(s) < s.left <= Round(s, MINIMUM_FEE) && s.left <= Round(s, Low(s)) && i >= 1
    ensures Rounds(s, MINIMUM_FEE, 2 * i) == Low(s) && Rounds(s, MINIMUM_FEE, 2 * i + 1) == Round(s, Low(s))
    decreases i
  {
    NextRound(s, MINIMUM_FEE, 2 * i);
    NextRound(s, MINIMUM_FEE, 2 * i + 1);
    if i == 1 {
      ThreeRounds(s);
      NoChange(s, Round(s, MINIMUM_FEE));
    } else {
      BackAndForthRounds(s, i - 1);
      NoChange(s, Round(s, Low(s)));
    }
  }

  lemma ClosesAt(s: Shape, i: nat)
    requires Low(s) < s.left <= Round(s, MINIMUM_FEE) && s.left <= Round(s, Low(s)) && i >= 1
    ensures Close(s, 2 * i + 1) <==> WithinThousandth(Low(s), Round(s, Low(s)))
    ensures Close(s, 2 * i + 2) ==> WithinThousandth(Low(s), Round(s, Low(s)))
  {
    BackAndForthRounds(s, i);
    BackAndForthRounds(s, i + 1);
    ThousandthUp(Low(s), Round(s, Low(s)));
  }

  lemma ThousandthUp(low: nat, high: nat)
    requires low <= high
    ensures WithinThousandth(high, low) ==> WithinThousandth(low, high)
  {
  }

  /** With a fee that pays for itself the loop stays below it and so always leaves change. */
  lemma SettlingLoop(s: Shape, x: nat, n: nat)
    requires SelfPaying(s, x)
    ensures Rounds(s, MINIMUM_FEE, n) <= Rounds(s, MINIMUM_FEE, n + 1) <= x < s.left
  {
    forall k: nat
      ensures Rounds(s, MINIMUM_FEE, k) <= x
    {
      BelowSelfPaying(s, x, k);
    }
    StartsGoUp(s, MINIMUM_FEE);
    ClimbGoesUp(s, MINIMUM_FEE, n);
  }

  /** What a charge says of the mass charged. */
  lemma ChargedMass(mass: nat, fee: nat)
    requires Charge(mass) <= fee
    ensures 105 * mass <= 100 * fee + 99
  {
  }

  /** Such a loop that stops on a fee moved by less than a thousandth pays for the mass it leads to: the
      mass is convex in the fee, so the next round would move the fee by hardly more. */
  lemma SettledPays(s: Shape, x: nat, n: nat)
    requires SelfPaying(s, x) && n > 0 && Close(s, n)
    ensures PaysAt(s, Rounds(s, MINIMUM_FEE, n))
  {
    var k := n - 1;
    var f, g := Rounds(s, MINIMUM_FEE, k), Rounds(s, MINIMUM_FEE, n);
    SettlingLoop(s, x, k);
    assert k + 1 == n && f <= g;
    ChargedMass(HighMass(s, f), g);
    ChargedMass(HighMass(s, x), x);
    PaysBelow(s, f, g, x);
  }

  lemma PaysBelow(s: Shape, f: nat, g: nat, x: nat)
    requires f <= g <= x < s.left && 1000 * (g - f) < g && g >= 1000 && s.base + 404 <= g
    requires 105 * HighMass(s, f) <= 100 * g + 99 && 105 * HighMass(s, x) <= 100 * x + 99
    ensures HighMass(s, g) <= g
  {
    var a, b, c := OutputMass(s.left - f), OutputMass(s.left - g), OutputMass(s.left - x);
    assert HighMass(s, f) >= s.extra + a && HighMass(s, x) >= s.extra + c;
    if f < x {
      FeeConvexity.MassChord(s.left - f, s.left - g, s.left - x);
      FeeConvexity.StoragePays(f, g, x, s.extra, a, b, c);
    }
  }

  predicate PaysAt(s: Shape, fee: nat) {
    fee >= s.left || HighMass(s, fee) <= fee
  }

  // Instances

  lemma {:induction false} RoundsAre(s: Shape, fees: seq<nat>, i: nat)
    requires i < |fees| && fees[0] == MINIMUM_FEE
    requires forall k | 0 <= k < |fees| - 1 :: fees[k + 1] == Round(s, fees[k])
    ensures Rounds(s, MINIMUM_FEE, i) == fees[i]
    decreases i
  {
    if i > 0 {
      RoundsAre(s, fees, i - 1);
      NextRound(s, MINIMUM_FEE, i);
      assert fees[i - 1 + 1] == Round(s, fees[i - 1]);
    }
  }

  /** The fees of the rounds up to the last. */
  lemma FeeIsLast(selected: seq<nat>, send: nat, s: Shape, fees: seq<nat>)
    requires s == ShapeOf(selected, send) && 2 <= |fees| <= 9 && fees[0] == MINIMUM_FEE
    requires forall k | 0 <= k < |fees| - 1 :: fees[k + 1] == Round(s, fees[k])
    requires forall k | 1 <= k < |fees| - 1 :: !WithinThousandth(fees[k - 1], fees[k])
    requires |fees| < 9 ==> WithinThousandth(fees[|fees| - 2], fees[|fees| - 1])
    ensures IsFee(MassesOf(selected, send), fees[|fees| - 1])
  {
    var n := |fees| - 1;
    forall k: nat | k <= n
      ensures Rounds(s, MINIMUM_FEE, k) == fees[k]
    {
      RoundsAre(s, fees, k);
    }
    StopOfShape(selected, send, fees[n], n);
    assert StopsAt(s, n);
    assert IsFeeAt(MassesOf(selected, send), fees[n], n);
  }

  /** The loop's fee and the payment are determined. */
  lemma Outcome(utxos: seq<nat>, amount: nat, result: SendResult, estFee: nat, fee: nat)
    requires !result.NoMatureUtxo? && Estimated(utxos, amount, result.estFee)
    requires result.Sent? <==> Total(utxos) >= amount + result.estFee
    requires result.Sent? ==> SentWell(utxos, amount, result.payment, result.estFee, result.fee)
    requires IsFee(MassesOf(utxos[..1], amount), estFee) && IsFee(MassesOf(utxos, amount), fee)
    requires Total(utxos) >= amount + estFee && forall k | 0 <= k < |utxos| :: Total(utxos[..k]) < amount + estFee
    ensures result == Sent(BuildTx(utxos, amount, fee), estFee, fee)
  {
    FeeIsUnique(MassesOf(utxos[..1], amount), result.estFee, estFee);
    var k := |result.payment.inputs|;
    assert result.payment.inputs == utxos[..k];
    assert k == |utxos| && utxos[..k] == utxos;
    FeeIsUnique(MassesOf(utxos, amount), result.fee, fee);
  }

  lemma OneCoin(coin: nat)
    ensures Total([coin]) == coin && Total([coin][..0]) == 0
    ensures InputMass([coin]) == if coin > 0 then STORAGE_MASS_PARAMETER / coin else 0
  {
    assert [coin][..0] == [];
  }

  lemma TwoCoins(a: nat, b: nat)
    ensures Total([a, b]) == a + b && Total([a, b][..0]) == 0 && Total([a, b][..1]) == a
    ensures InputMass([a, b]) == InputMass([a]) + InputMass([b])
  {
    OneCoin(a);
    OneCoin(b);
    assert [a, b][..1] == [a] && [a, b][..0] == [];
  }

  lemma DustFirst(s: Shape)
    requires s == Shape(100_000, 5_190, 1)
    ensures Round(s, 1_000) == 10_606_062 && Round(s, 10_606_062) == 5_449
  {
  }

  lemma DustThen(s: Shape)
    requires s == Shape(100_000, 5_190, 1)
    ensures Round(s, 5_449) == 11_105_119 && Round(s, 11_105_119) == 5_449
  {
  }

  lemma DustRounds()
    ensures IsFee(MassesOf([1_000_000_000], 999_900_000), 5_449)
  {
    var s := Shape(100_000, 5_190, 1);
    assert ShapeOf([1_000_000_000], 999_900_000) == s by {
      OneCoin(1_000_000_000);
    }
    DustFirst(s);
    DustThen(s);
    FeeIsLast([1_000_000_000], 999_900_000, s, [1_000, 10_606_062, 5_449, 11_105_119, 5_449, 11_105_119, 5_449, 11_105_119, 5_449]);
  }

  lemma DustMass()
    ensures TxMass([1_000_000_000], 999_900_000, 94_551).1 == 10_576_304
    ensures !CoversMass(Payment([1_000_000_000], 999_900_000, 94_551))
  {
    OneCoin(1_000_000_000);
  }

  lemma HighEndFirst(s: Shape)
    requires s == Shape(1_200_000, 5_190, 2)
    ensures Round(s, 1_000) == 875_732 && Round(s, 875_732) == 3_238_064 && Round(s, 3_238_064) == 5_449
  {
  }

  lemma HighEndThen(s: Shape)
    requires s == Shape(1_200_000, 5_190, 2)
    ensures Round(s, 5_449) == 878_993 && Round(s, 878_993) == 3_270_958 && Round(s, 3_270_958) == 5_449
  {
  }

  lemma HighEndRounds()
    ensures IsFee(MassesOf([1_000_000_000], 998_800_000), 3_270_958)
  {
    var s := Shape(1_200_000, 5_190, 2);
    assert ShapeOf([1_000_000_000], 998_800_000) == s by {
      OneCoin(1_000_000_000);
    }
    HighEndFirst(s);
    HighEndThen(s);
    FeeIsLast([1_000_000_000], 998_800_000, s, [1_000, 875_732, 3_238_064, 5_449, 878_993, 3_270_958, 5_449, 878_993, 3_270_958]);
  }

  lemma SlowClimbFirst(s: Shape)
    requires s == Shape(1_124_700, 9_956, -881_057)
    ensures Round(s, 1_000) == 10_878 && Round(s, 10_878) == 17_590 && Round(s, 17_590) == 23_305 && Round(s, 23_305) == 28_227
  {
  }

  lemma SlowClimbThen(s: Shape)
    requires s == Shape(1_124_700, 9_956, -881_057)
    ensures Round(s, 28_227) == 32_506 && Round(s, 32_506) == 36_258 && Round(s, 36_258) == 39_572 && Round(s, 39_572) == 42_518
  {
  }

  lemma SlowClimbRounds()
    ensures IsFee(MassesOf([2_000_000_000, 1_135_000], 2_000_010_300), 42_518)
  {
    var s := Shape(1_124_700, 9_956, -881_057);
    assert ShapeOf([2_000_000_000, 1_135_000], 2_000_010_300) == s by {
      OneCoin(2_000_000_000);
      OneCoin(1_135_000);
      TwoCoins(2_000_000_000, 1_135_000);
    }
    SlowClimbFirst(s);
    SlowClimbThen(s);
    FeeIsLast([2_000_000_000, 1_135_000], 2_000_010_300, s, [1_000, 10_878, 17_590, 23_305, 28_227, 32_506, 36_258, 39_572, 42_518]);
  }

  lemma SlowClimbEstimate()
    ensures IsFee(MassesOf([2_000_000_000], 2_000_010_300), 5_449)
  {
    var s := Shape(0, 5_190, 0);
    assert ShapeOf([2_000_000_000], 2_000_010_300) == s by {
      OneCoin(2_000_000_000);
    }
    assert Round(s, 1_000) == 5_449;
    assert Round(s, 5_449) == 5_449;
    FeeIsLast([2_000_000_000], 2_000_010_300, s, [1_000, 5_449, 5_449]);
  }

  lemma ShortRounds()
    ensures IsFee(MassesOf([1_000_000_000, 1_000_000_000], 1_999_994_000), 10_453)
  {
    var s := Shape(6_000, 9_956, -1_499);
    assert ShapeOf([1_000_000_000, 1_000_000_000], 1_999_994_000) == s by {
      OneCoin(1_000_000_000);
      OneCoin(1_000_000_000);
      TwoCoins(1_000_000_000, 1_000_000_000);
    }
    assert Round(s, 1_000) == 209_998_426;
    assert Round(s, 209_998_426) == 10_453;
    assert Round(s, 10_453) == 10_453;
    FeeIsLast([1_000_000_000, 1_000_000_000], 1_999_994_000, s, [1_000, 209_998_426, 10_453, 10_453]);
  }

  lemma ShortEstimate()
    ensures IsFee(MassesOf([1_000_000_000], 1_999_994_000), 5_449)
  {
    var s := Shape(0, 5_190, -499);
    assert ShapeOf([1_000_000_000], 1_999_994_000) == s by {
      OneCoin(1_000_000_000);
    }
    assert Round(s, 1_000) == 5_449;
    assert Round(s, 5_449) == 5_449;
    FeeIsLast([1_000_000_000], 1_999_994_000, s, [1_000, 5_449, 5_449]);
  }

  /** One coin of 10 and 100,000 left over: the rounds go back and forth, the eighth has the fee without
      change, and the payment leaves it with change of 94,551, whose storage mass is two thousand times
      the fee. */
  method DustChangeInstance() returns (result: SendResult)
    ensures result == Sent(Payment([1_000_000_000], 999_900_000, 94_551), 5_449, 5_449)
    ensures TxMass([1_000_000_000], 999_900_000, 94_551).1 == 10_576_304 && !CoversMass(result.payment)
  {
    OneCoin(1_000_000_000);
    DustRounds();
    DustMass();
    result := Send([1_000_000_000], 999_900_000);
    assert [1_000_000_000][..1] == [1_000_000_000];
    Outcome([1_000_000_000], 999_900_000, result, 5_449, 5_449);
  }

  /** The same coin and 1,200,000 left over: the cycle has three fees and the eighth round has the highest,
      above the leftover. The estimate asks for it, and the payment is refused for want of funds. */
  method HighEndInstance() returns (result: SendResult)
    ensures result == InsufficientFunds(3_270_958)
  {
    OneCoin(1_000_000_000);
    HighEndRounds();
    result := Send([1_000_000_000], 998_800_000);
    assert [1_000_000_000][..1] == [1_000_000_000];
    FeeIsUnique(MassesOf([1_000_000_000], 998_800_000), result.estFee, 3_270_958);
  }

  /** Two coins, the second small, and 1,124,700 left over: a fee of 100,650 would pay for itself, the
      rounds climb towards it, and after the eighth the fee is still below the mass. */
  method SlowClimbInstance() returns (result: SendResult)
    ensures result == Sent(Payment([2_000_000_000, 1_135_000], 2_000_010_300, 1_082_182), 5_449, 42_518)
    ensures TxMass([2_000_000_000, 1_135_000], 2_000_010_300, 1_082_182).1 == 43_002 && !CoversMass(result.payment)
    ensures SelfPaying(ShapeOf([2_000_000_000, 1_135_000], 2_000_010_300), 100_650)
  {
    SlowClimbShape();
    SlowClimbEstimate();
    SlowClimbRounds();
    result := Send([2_000_000_000, 1_135_000], 2_000_010_300);
    Outcome([2_000_000_000, 1_135_000], 2_000_010_300, result, 5_449, 42_518);
  }

  lemma SlowClimbShape()
    ensures Total([2_000_000_000, 1_135_000]) == 2_001_135_000 && InputMass([2_000_000_000, 1_135_000]) == 881_557
    ensures [2_000_000_000, 1_135_000][..1] == [2_000_000_000]
    ensures forall k | 0 <= k < 2 :: Total([2_000_000_000, 1_135_000][..k]) < 2_000_015_749
    ensures SelfPaying(ShapeOf([2_000_000_000, 1_135_000], 2_000_010_300), 100_650)
    ensures TxMass([2_000_000_000, 1_135_000], 2_000_010_300, 1_082_182).1 == 43_002
  {
    OneCoin(2_000_000_000);
    OneCoin(1_135_000);
    TwoCoins(2_000_000_000, 1_135_000);
  }

  /** Two coins of 10 and 6,000 left over: the estimate for the first coin is 5449, both are taken, their
      fee is 10453 and the payment leaves 6000, below its fee and its mass. */
  method ShortInstance() returns (result: SendResult)
    ensures result == Sent(Payment([1_000_000_000, 1_000_000_000], 1_999_994_000, 0), 5_449, 10_453)
    ensures TxMass([1_000_000_000, 1_000_000_000], 1_999_994_000, 0).0 == 9_956 && !CoversMass(result.payment)
  {
    ShortShape();
    ShortEstimate();
    ShortRounds();
    result := Send([1_000_000_000, 1_000_000_000], 1_999_994_000);
    Outcome([1_000_000_000, 1_000_000_000], 1_999_994_000, result, 5_449, 10_453);
  }

  lemma ShortShape()
    ensures Total([1_000_000_000, 1_000_000_000]) == 2_000_000_000
    ensures [1_000_000_000, 1_000_000_000][..1] == [1_000_000_000]
    ensures forall k | 0 <= k < 2 :: Total([1_000_000_000, 1_000_000_000][..k]) < 1_999_999_449
  {
    OneCoin(1_000_000_000);
    TwoCoins(1_000_000_000, 1_000_000_000);
  }
}
