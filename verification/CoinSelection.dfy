/** The wallet's choice of coins for a payment, its fee estimate, and the transaction it builds. */
module CoinSelection {
  const STORAGE_MASS_PARAMETER: nat := 100_000_000 * 10_000
  const MASS_PER_TX_BYTE: nat := 1
  const MASS_PER_SCRIPT_PUB_KEY_BYTE: nat := 10
  const MASS_PER_SIG_OP: nat := 1000
  const P2SH_SCRIPT_PUB_KEY_SIZE: nat := 36
  const DILITHIUM_SIG_SCRIPT_SIZE: nat := 3744
  const FEE_RATE_PER_GRAM: nat := 1
  const MINIMUM_FEE: nat := 1_000

  function Total(amounts: seq<nat>): nat {
    if amounts == [] then 0 else Total(amounts[..|amounts| - 1]) + amounts[|amounts| - 1]
  }

  function SaturatingSub(a: nat, b: nat): nat {
    if a >= b then a - b else 0
  }

  function MaxOf(a: nat, b: nat): nat {
    if a >= b then a else b
  }

  function MinOf(a: nat, b: nat): nat {
    if a <= b then a else b
  }

  // Fees

  function DivCeil(a: nat, b: nat): nat
    requires b > 0
  {
    (a + b - 1) / b
  }

  function OutputMass(value: nat): nat {
    if value > 0 then DivCeil(STORAGE_MASS_PARAMETER, value) else 0
  }

  function InputMass(inputs: seq<nat>): nat {
    if inputs == [] then 0
    else
      var amount := inputs[|inputs| - 1];
      InputMass(inputs[..|inputs| - 1]) + if amount > 0 then STORAGE_MASS_PARAMETER / amount else 0
  }

  function StorageMass(inputs: seq<nat>, send: nat, change: nat): nat {
    SaturatingSub(OutputMass(send) + OutputMass(change), InputMass(inputs))
  }

  /** Compute and storage mass of a transaction; change of zero is no output. */
  function TxMass(inputs: seq<nat>, send: nat, change: nat): (nat, nat) {
    var nIn, nOut := |inputs|, if change > 0 then 2 else 1;
    var txSize := 20 + nIn * (8 + 8 + 4 + 2 + DILITHIUM_SIG_SCRIPT_SIZE) + nOut * (8 + 2 + 34);
    var computeMass := txSize * MASS_PER_TX_BYTE
                       + nOut * P2SH_SCRIPT_PUB_KEY_SIZE * MASS_PER_SCRIPT_PUB_KEY_BYTE + nIn * MASS_PER_SIG_OP;
    (computeMass, StorageMass(inputs, send, change))
  }

  function EstimateTxMass(selected: seq<nat>, send: nat, fee: nat): (nat, nat) {
    TxMass(selected, send, SaturatingSub(Total(selected), send + fee))
  }

  /** The storage mass of an output is the parameter divided by its value, rounded up. */
  lemma OutputMassExact(value: nat, n: nat)
    requires value > 0
    ensures OutputMass(value) == n <==> n * value - value < STORAGE_MASS_PARAMETER <= n * value
  {
    var x, q := STORAGE_MASS_PARAMETER + value - 1, OutputMass(value);
    assert x == q * value + x % value;
    ScaleLeq(n + 1, q, value);
    ScaleLeq(q + 1, n, value);
  }

  lemma ScaleLeq(a: int, b: int, c: nat)
    ensures a <= b ==> a * c <= b * c
  {
    if a <= b {
      assert b * c - a * c == (b - a) * c;
    }
  }

  /** Smaller outputs weigh more. */
  lemma OutputMassAntitone(v: nat, w: nat)
    requires 0 < v <= w
    ensures OutputMass(v) >= OutputMass(w) >= 1
  {
    var m, n := OutputMass(v), OutputMass(w);
    OutputMassExact(v, m);
    OutputMassExact(w, n);
    ScaleLeq(v, w, m);
    ScaleLeq(m, n - 1, w);
  }

  /** Splitting one coin into a payment and change always weighs something. */
  lemma SplittingWeighs(amount: nat, send: nat, change: nat)
    requires send > 0 && change > 0 && send + change <= amount
    ensures StorageMass([amount], send, change) >= 1
  {
    OutputMassAntitone(send, amount);
    OutputMassAntitone(change, amount);
    InputMassAtMostOutput(amount);
    var sent, kept, spent := OutputMass(send), OutputMass(change), InputMass([amount]);
    assert sent + kept >= spent + 1;
    assert StorageMass([amount], send, change) == SaturatingSub(sent + kept, spent);
  }

  lemma InputMassAtMostOutput(value: nat)
    requires value > 0
    ensures InputMass([value]) <= OutputMass(value)
  {
    var q, n := STORAGE_MASS_PARAMETER / value, OutputMass(value);
    assert InputMass([value]) == q by {
      assert [value][..0] == [];
    }
    OutputMassExact(value, n);
    ScaleLeq(n + 1, q, value);
  }

  /** A mass estimate as a function of the fee. */
  type Masses = nat -> (nat, nat)

  function MassesOf(selected: seq<nat>, send: nat): Masses {
    fee => EstimateTxMass(selected, send, fee)
  }

  function Charged(mass: (nat, nat)): nat {
    MaxOf(MaxOf(mass.0, mass.1) * FEE_RATE_PER_GRAM * 105 / 100, MINIMUM_FEE)
  }

  /** The fee after `n` rounds of feeding it back into the estimate. */
  function FeeAfter(masses: Masses, n: nat): nat {
    if n == 0 then MINIMUM_FEE else Charged(masses(FeeAfter(masses, n - 1)))
  }

  predicate WithinThousandth(before: nat, after: nat) {
    (if after >= before then after - before else before - after) * 1000 < after
  }

  /** Close means between 99.9 % and 100.1 % of the new fee. */
  lemma CloseIff(before: nat, after: nat)
    ensures WithinThousandth(before, after) <==> 999 * after < 1000 * before < 1001 * after
  {
  }

  /** Round `n` moved the fee by less than a thousandth. */
  predicate Settled(masses: Masses, n: nat)
    requires n > 0
  {
    WithinThousandth(FeeAfter(masses, n - 1), FeeAfter(masses, n))
  }

  /** The fee of the first settled round, or of the eighth if none settles before. */
  ghost predicate IsFeeAt(masses: Masses, fee: nat, n: nat) {
    && 1 <= n <= 8 && fee == FeeAfter(masses, n)
    && (n < 8 ==> Settled(masses, n))
    && forall k | 1 <= k < n :: !Settled(masses, k)
  }

  ghost predicate IsFee(masses: Masses, fee: nat) {
    exists n: nat :: IsFeeAt(masses, fee, n)
  }

  /** The rule determines the fee, and no fee is below the minimum. */
  lemma FeeIsUnique(masses: Masses, a: nat, b: nat)
    requires IsFee(masses, a) && IsFee(masses, b)
    ensures a == b >= MINIMUM_FEE
  {
    var m: nat :| IsFeeAt(masses, a, m);
    var n: nat :| IsFeeAt(masses, b, n);
    assert m == n;
  }

  lemma FeeRound(masses: Masses, fee: nat, i: nat, newFee: nat)
    requires fee == FeeAfter(masses, i) && newFee == Charged(masses(fee))
    ensures newFee == FeeAfter(masses, i + 1) >= MINIMUM_FEE
    ensures Settled(masses, i + 1) <==> WithinThousandth(fee, newFee)
    ensures newFee == fee ==> WithinThousandth(fee, newFee)
  {
  }

  method CalcFee(masses: Masses) returns (fee: nat, computeMass: nat, storageMass: nat)
    ensures IsFee(masses, fee) && fee >= MINIMUM_FEE
    ensures fee == Charged((computeMass, storageMass))
  {
    fee := MINIMUM_FEE;
    computeMass, storageMass := 0, 0;
    var i := 0;
    while i < 8
      invariant 0 <= i <= 8 && fee == FeeAfter(masses, i) >= MINIMUM_FEE
      invariant i > 0 ==> fee == Charged((computeMass, storageMass))
      invariant forall k | 1 <= k <= i :: !Settled(masses, k)
    {
      var (cm, sm) := masses(fee);
      var newFee := Charged((cm, sm));
      computeMass, storageMass := cm, sm;
      FeeRound(masses, fee, i, newFee);
      if newFee == fee {
        assert IsFeeAt(masses, fee, i + 1);
        return;
      }
      if newFee > 0 && WithinThousandth(fee, newFee) {
        fee := newFee;
        assert IsFeeAt(masses, fee, i + 1);
        return;
      }
      fee := newFee;
      i := i + 1;
    }
    assert IsFeeAt(masses, fee, 8);
  }

  // Selection

  /** Coins are taken from the front until they reach what is needed. */
  method Select(utxos: seq<nat>, needed: nat) returns (selected: seq<nat>, acc: nat)
    ensures selected <= utxos && acc == Total(selected)
    ensures Total(utxos) >= needed ==> acc >= needed
    ensures forall k | 0 < k < |selected| :: Total(utxos[..k]) < needed
    ensures utxos != [] ==> selected != []
  {
    selected, acc := [], 0;
    var i := 0;
    while i < |utxos|
      invariant 0 <= i <= |utxos|
      invariant selected == utxos[..i] && acc == Total(selected)
      invariant forall k | 0 < k <= i :: Total(utxos[..k]) < needed
    {
      assert utxos[..i + 1][..i] == utxos[..i];
      selected := selected + [utxos[i]];
      assert selected == utxos[..i + 1];
      acc := acc + utxos[i];
      i := i + 1;
      if acc >= needed {
        break;
      }
    }
    assert i == |utxos| ==> utxos[..i] == utxos;
  }

  ghost predicate Descending(amounts: seq<nat>) {
    forall i, j | 0 <= i < j < |amounts| :: amounts[i] >= amounts[j]
  }

  /** Any other choice of coins, as a mask over the list. */
  function Picked(mask: seq<bool>): (n: nat)
    ensures n <= |mask|
  {
    if mask == [] then 0 else Picked(mask[..|mask| - 1]) + if mask[|mask| - 1] then 1 else 0
  }

  function PickedTotal(amounts: seq<nat>, mask: seq<bool>): nat
    requires |amounts| == |mask|
  {
    if mask == [] then 0
    else
      var n := |mask| - 1;
      PickedTotal(amounts[..n], mask[..n]) + if mask[n] then amounts[n] else 0
  }

  /** Choosing one more coin adds one to the number and its amount to the total; no coin is nothing. */
  lemma {:induction false} PickOneMore(amounts: seq<nat>, mask: seq<bool>, i: nat)
    requires |amounts| == |mask| && i < |mask| && !mask[i]
    ensures Picked(mask[i := true]) == Picked(mask) + 1
    ensures PickedTotal(amounts, mask[i := true]) == PickedTotal(amounts, mask) + amounts[i]
    decreases |mask|
  {
    var n := |mask| - 1;
    if i < n {
      PickOneMore(amounts[..n], mask[..n], i);
      assert mask[i := true][..n] == mask[..n][i := true];
    } else {
      assert mask[i := true][..n] == mask[..n];
    }
  }

  lemma {:induction false} PickNone(amounts: seq<nat>, mask: seq<bool>)
    requires |amounts| == |mask| && true !in mask
    ensures Picked(mask) == 0 && PickedTotal(amounts, mask) == 0
    decreases |mask|
  {
    if mask != [] {
      PickNone(amounts[..|mask| - 1], mask[..|mask| - 1]);
    }
  }

  /** Of a descending list, no choice of m coins is worth more than the first m. */
  lemma {:induction false} FirstAreWorthMost(amounts: seq<nat>, mask: seq<bool>)
    requires |amounts| == |mask| && Descending(amounts)
    ensures PickedTotal(amounts, mask) <= Total(amounts[..Picked(mask)])
    decreases |mask|
  {
    if mask != [] {
      var n := |mask| - 1;
      FirstAreWorthMost(amounts[..n], mask[..n]);
      var m := Picked(mask[..n]);
      assert amounts[..n][..m] == amounts[..m];
      if mask[n] {
        assert amounts[..m + 1][..m] == amounts[..m];
        assert amounts[m] >= amounts[n];
      }
    }
  }

  /** Over coins sorted by descending amount, the selection uses the fewest inputs of any choice that
      reaches the needed amount. */
  lemma FewestInputs(utxos: seq<nat>, needed: nat, selected: seq<nat>, mask: seq<bool>)
    requires Descending(utxos) && needed > 0
    requires selected <= utxos && forall k | 0 < k < |selected| :: Total(utxos[..k]) < needed
    requires |mask| == |utxos| && PickedTotal(utxos, mask) >= needed
    ensures |selected| <= Picked(mask)
  {
    FirstAreWorthMost(utxos, mask);
    assert Total(utxos[..0]) == 0;
  }

  // The transaction

  datatype Payment = Payment(inputs: seq<nat>, send: nat, change: nat)

  /** Inputs minus outputs. */
  function ImplicitFee(p: Payment): int {
    Total(p.inputs) - p.send - p.change
  }

  function BuildTx(selected: seq<nat>, send: nat, fee: nat): Payment {
    Payment(selected, send, SaturatingSub(Total(selected), send + fee))
  }

  /** What the payment leaves to the network is at least both masses of its transaction. */
  predicate CoversMass(p: Payment) {
    var (cm, sm) := TxMass(p.inputs, p.send, p.change);
    MaxOf(cm, sm) <= ImplicitFee(p)
  }

  datatype SendResult =
    | NoMatureUtxo
    | InsufficientFunds(estFee: nat)
    | Sent(payment: Payment, estFee: nat, fee: nat)

  /** Inputs cover the outputs, and what is left over lies between the two fees; it falls short of the
      second exactly when the inputs, chosen for the first, cannot pay it. */
  lemma ImplicitFeeBounds(selected: seq<nat>, send: nat, estFee: nat, fee: nat)
    requires Total(selected) >= send + estFee
    ensures var p := BuildTx(selected, send, fee);
            && MinOf(estFee, fee) <= ImplicitFee(p) <= fee
            && p.send + p.change <= Total(p.inputs)
            && (ImplicitFee(p) == fee <==> Total(selected) >= send + fee)
            && (p.change > 0 ==> ImplicitFee(p) == fee)
  {
  }

  ghost predicate FewestFor(utxos: seq<nat>, needed: nat, count: nat) {
    forall mask: seq<bool> | |mask| == |utxos| && PickedTotal(utxos, mask) >= needed :: count <= Picked(mask)
  }

  /** The estimate is the fee of a payment from the largest coin alone. */
  ghost predicate Estimated(utxos: seq<nat>, amount: nat, estFee: nat) {
    utxos != [] && IsFee(MassesOf(utxos[..1], amount), estFee)
  }

  /** What a payment that goes out satisfies. */
  ghost predicate SentWell(utxos: seq<nat>, amount: nat, p: Payment, estFee: nat, fee: nat) {
    && p.inputs <= utxos && p == BuildTx(p.inputs, amount, fee)
    && IsFee(MassesOf(p.inputs, amount), fee)
    && Total(p.inputs) >= amount + estFee
    && FewestFor(utxos, amount + estFee, |p.inputs|)
    && p.send + p.change <= Total(p.inputs)
    && MINIMUM_FEE <= MinOf(estFee, fee) <= ImplicitFee(p) <= fee
    && (ImplicitFee(p) == fee <==> Total(p.inputs) >= amount + fee)
  }

  /** `cmd_send` and `cmd_pskt_create` up to signing; the coins come sorted by descending amount. */
  method Send(utxos: seq<nat>, amount: nat) returns (result: SendResult)
    requires Descending(utxos)
    ensures result.NoMatureUtxo? <==> utxos == []
    ensures !result.NoMatureUtxo? ==> Estimated(utxos, amount, result.estFee)
    ensures !result.NoMatureUtxo? ==> (result.Sent? <==> Total(utxos) >= amount + result.estFee)
    ensures result.Sent? ==> SentWell(utxos, amount, result.payment, result.estFee, result.fee)
  {
    if utxos == [] {
      return NoMatureUtxo;
    }
    var estFee, _, _ := CalcFee(MassesOf(utxos[..1], amount));
    var needed := amount + estFee;
    if Total(utxos) < needed {
      return InsufficientFunds(estFee);
    }
    var selected, acc := Select(utxos, needed);
    var fee, _, _ := CalcFee(MassesOf(selected, amount));
    ImplicitFeeBounds(selected, amount, estFee, fee);
    forall mask: seq<bool> | |mask| == |utxos| && PickedTotal(utxos, mask) >= needed
      ensures |selected| <= Picked(mask)
    {
      FewestInputs(utxos, needed, selected, mask);
    }
    result := Sent(BuildTx(selected, amount, fee), estFee, fee);
  }
}
