/** The deposit fee, computed twice in the program with the same code. */
module Fees {
  import opened Prelude
  import opened Arithmetic

  function Proportional(amount: U64, bps: U16): nat {
    amount * bps / 10_000
  }

  /** The proportional fee, raised to `minFee`, then cut to `maxFee`. */
  function Clamped(amount: U64, bps: U16, minFee: U64, maxFee: U64): (fee: U64)
    ensures fee <= maxFee
  {
    Min(Max(Proportional(amount, bps), minFee), maxFee)
  }

  /** A clamped fee that would eat the whole amount is replaced by half the amount. */
  function Fee(amount: U64, bps: U16, minFee: U64, maxFee: U64): (fee: U64)
    ensures fee <= maxFee
    ensures fee <= amount && (fee == amount <==> amount == 0)
  {
    var fee := Clamped(amount, bps, minFee, maxFee);
    if amount <= fee then amount / 2 else fee
  }

  /** Rust's truncating `as u64`. */
  function AsU64(x: nat): (r: U64)
    ensures x < TWO_64 ==> r == x
  {
    x % TWO_64
  }

  /** `u64::try_from(x).unwrap_or(fallback)`. */
  function ToU64Or(x: nat, fallback: U64): U64 {
    if x < TWO_64 then x else fallback
  }

  function SaturatingSub(a: U64, b: U64): U64 {
    if b <= a then a - b else 0
  }

  /**
   * The handlers' own computation: a 128-bit `fee` updated through four branches,
   * a truncating cast in the third comparison, a checked conversion that falls back
   * to the largest u64 and a saturating subtraction. Tying it to `Fee` shows that the
   * cast loses nothing and that neither fallback is taken.
   */
  method ComputeFee(amount: U64, bps: U16, minFee: U64, maxFee: U64) returns (feeU64: U64, net: U64)
    ensures feeU64 == Fee(amount, bps, minFee, maxFee) && IsFee(feeU64, amount, bps, minFee, maxFee)
    ensures feeU64 + net == amount
    ensures feeU64 <= maxFee
    ensures 0 < amount ==> feeU64 < amount
  {
    var fee: nat := amount * bps / 10_000;
    if fee < minFee {
      fee := minFee;
    }
    if maxFee < fee {
      fee := maxFee;
    }
    assert fee == Clamped(amount, bps, minFee, maxFee);
    if amount <= AsU64(fee) {
      fee := amount / 2;
    }
    feeU64 := ToU64Or(fee, TWO_64 - 1);
    net := SaturatingSub(amount, feeU64);
    FeeShare(feeU64, amount, bps, minFee, maxFee);
  }

  lemma ProportionalGrows(a: U64, b: U64, bps: U16)
    requires a <= b
    ensures Proportional(a, bps) <= Proportional(b, bps)
    ensures bps <= 10_000 ==> Proportional(b, bps) - Proportional(a, bps) <= b - a
  {
    Multiply(a, b, bps);
    if bps <= 10_000 {
      Multiply(bps, 10_000, b - a);
      assert b * bps - a * bps == bps * (b - a);
    }
  }

  lemma ProportionalSize(a: U64, bps: U16)
    ensures bps < 10_000 && 0 < a ==> Proportional(a, bps) < a
    ensures 10_000 <= bps ==> a <= Proportional(a, bps)
  {
    if bps < 10_000 {
      Multiply(bps, 9_999, a);
    } else {
      Multiply(10_000, bps, a);
    }
  }

  /** The amounts whose clamped fee leaves something over are closed upwards. */
  lemma AffordableUpwards(a: U64, b: U64, bps: U16, minFee: U64, maxFee: U64)
    requires a <= b && Clamped(a, bps, minFee, maxFee) < a
    ensures Clamped(b, bps, minFee, maxFee) < b
  {
    hide Proportional;
    ProportionalGrows(a, b, bps);
    ProportionalSize(a, bps);
    ProportionalSize(b, bps);
  }

  /** A larger deposit never pays a smaller fee, whatever the configuration. */
  lemma FeeMonotone(a: U64, b: U64, bps: U16, minFee: U64, maxFee: U64)
    requires a <= b
    ensures Fee(a, bps, minFee, maxFee) <= Fee(b, bps, minFee, maxFee)
  {
    hide Proportional;
    ProportionalGrows(a, b, bps);
    if Clamped(a, bps, minFee, maxFee) < a {
      AffordableUpwards(a, b, bps, minFee, maxFee);
    }
  }

  /**
   * What the fee is, amount by amount: half of an amount the limits would eat, otherwise the
   * lower or upper limit outside the band between them, and inside it the floor of the share.
   */
  predicate IsFee(fee: nat, amount: U64, bps: U16, minFee: U64, maxFee: U64) {
    if amount <= Threshold(bps, minFee, maxFee) then fee == amount / 2
    else if maxFee <= minFee || maxFee * 10_000 <= amount * bps then fee == maxFee
    else if amount * bps < minFee * 10_000 then fee == minFee
    else fee * 10_000 <= amount * bps < (fee + 1) * 10_000
  }

  lemma FeeShare(fee: nat, amount: U64, bps: U16, minFee: U64, maxFee: U64)
    ensures IsFee(fee, amount, bps, minFee, maxFee) <==> fee == Fee(amount, bps, minFee, maxFee)
  {
    hide Threshold;
    AffordableIff(amount, bps, minFee, maxFee);
    assert 10_000 * (amount * bps / 10_000) <= amount * bps < 10_000 * (amount * bps / 10_000) + 10_000;
  }

  /** The share strictly between the limits, at a rate below the whole amount. */
  lemma FeeInBand(amount: U64, bps: U16, minFee: U64, maxFee: U64)
    requires 0 < amount && bps < 10_000
    requires minFee * 10_000 <= amount * bps < (maxFee + 1) * 10_000
    ensures var fee := Fee(amount, bps, minFee, maxFee);
            fee * 10_000 <= amount * bps < (fee + 1) * 10_000
  {
    Multiply(bps, 9_999, amount);
    FeeShare(Fee(amount, bps, minFee, maxFee), amount, bps, minFee, maxFee);
  }

  // --------------------------------------------------- what reaches the other chain

  function Net(amount: U64, bps: U16, minFee: U64, maxFee: U64): U64 {
    amount - Fee(amount, bps, minFee, maxFee)
  }

  /** The largest amount that its clamped fee would eat, read off the configuration. */
  function Threshold(bps: U16, minFee: U64, maxFee: U64): U64 {
    if bps < 10_000 then Min(minFee, maxFee) else maxFee
  }

  lemma AffordableIff(a: U64, bps: U16, minFee: U64, maxFee: U64)
    ensures Clamped(a, bps, minFee, maxFee) < a <==> Threshold(bps, minFee, maxFee) < a
  {
    hide Proportional;
    ProportionalSize(a, bps);
  }

  /** On either side of the threshold a larger deposit forwards at least as much. */
  lemma NetMonotoneOnSides(a: U64, b: U64, bps: U16, minFee: U64, maxFee: U64)
    requires a <= b && (b <= Threshold(bps, minFee, maxFee) || Threshold(bps, minFee, maxFee) < a)
    ensures Net(a, bps, minFee, maxFee) <= Net(b, bps, minFee, maxFee)
  {
    hide Proportional;
    AffordableIff(a, bps, minFee, maxFee);
    AffordableIff(b, bps, minFee, maxFee);
    ProportionalGrows(a, b, bps);
    ProportionalSize(a, bps);
    ProportionalSize(b, bps);
  }

  /** At the threshold half the deposit is forwarded; one unit more forwards a single unit. */
  lemma NetAtThreshold(bps: U16, minFee: U64, maxFee: U64)
    ensures var t := Threshold(bps, minFee, maxFee);
            && Net(t, bps, minFee, maxFee) == (t + 1) / 2
            && (t + 1 < TWO_64 ==> Net(t + 1, bps, minFee, maxFee) == 1)
  {
    hide Proportional;
    var t := Threshold(bps, minFee, maxFee);
    AffordableIff(t, bps, minFee, maxFee);
    if t + 1 < TWO_64 {
      AffordableIff(t + 1, bps, minFee, maxFee);
      ProportionalSize(t + 1, bps);
    }
  }

  /**
   * Under which configurations a larger deposit never forwards less: exactly those whose
   * threshold is at most two units, or that no deposit can exceed.
   */
  lemma NetMonotoneIff(bps: U16, minFee: U64, maxFee: U64)
    ensures (forall a: U64, b: U64 :: a <= b ==> Net(a, bps, minFee, maxFee) <= Net(b, bps, minFee, maxFee))
      <==> (Threshold(bps, minFee, maxFee) <= 2 || Threshold(bps, minFee, maxFee) == TWO_64 - 1)
  {
    hide Fee, Threshold;
    var t := Threshold(bps, minFee, maxFee);
    NetAtThreshold(bps, minFee, maxFee);
    if t <= 2 || t == TWO_64 - 1 {
      forall a: U64, b: U64 | a <= b ensures Net(a, bps, minFee, maxFee) <= Net(b, bps, minFee, maxFee) {
        if b <= t || t < a {
          NetMonotoneOnSides(a, b, bps, minFee, maxFee);
        } else {
          NetMonotoneOnSides(a, t, bps, minFee, maxFee);
          NetMonotoneOnSides(t + 1, b, bps, minFee, maxFee);
        }
      }
    } else {
      var next: U64 := t + 1;
      assert Net(next, bps, minFee, maxFee) < Net(t, bps, minFee, maxFee);
    }
  }

  /** For instance under a flat fee of 100: depositing 100 forwards 50, depositing 101 forwards 1. */
  lemma NetCanDrop()
    ensures Net(100, 0, 100, 100) == 50
    ensures Net(101, 0, 100, 100) == 1
  {
  }
}
