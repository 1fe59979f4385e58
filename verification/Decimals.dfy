/**
 * Converting amounts between tokens of different decimals. The node's service, its two
 * bridge processors and the relayer each have their own code for it.
 */
module Decimals {
  import opened Prelude
  import opened Arithmetic

  function Pow10(n: nat): (p: nat)
    ensures 1 <= p
  {
    PowPositive(10, n);
    Pow(10, n)
  }

  /** Division of JavaScript big integers: truncated towards zero. */
  function JsDiv(a: int, b: nat): int
    requires 0 < b
  {
    if 0 <= a then Floor(a, b) else 0 - Floor(-a, b)
  }

  /**
   * The node: both methods of its mapping service and the conditional expressions in both
   * bridge processors, which differ only in which side `from` and `to` are.
   */
  function NodeConvert(amount: int, from: int, to: int): int {
    var diff := to - from;
    if 0 < diff then amount * Pow10(diff)
    else if diff < 0 then JsDiv(amount, Pow10(-diff))
    else amount
  }

  function Abs(d: int): nat {
    if d < 0 then -d else d
  }

  function RelayerPow10(d: int): nat {
    Pow10(Abs(d))
  }

  function RelayerConvert(amount: int, from: int, to: int): int {
    var diff := to - from;
    if 0 <= diff then amount * RelayerPow10(diff) else JsDiv(amount, RelayerPow10(-diff))
  }

  /** The relayer refuses negative amounts in the direction of the EVM. */
  function RelayerToEvm(amount: int, solana: int, evm: int): Option<int> {
    if amount < 0 then None else Some(RelayerConvert(amount, solana, evm))
  }

  /** Rescaling from `a` to `b` decimals: the floor of the exact quotient. */
  function Rescale(amount: nat, a: int, b: int): nat {
    Floor(amount * Pow10(Max(0, b - a)), Pow10(Max(0, a - b)))
  }

  /** All implementations are one rescaling, mirrored for negative amounts. */
  lemma ConversionsAgree(amount: int, a: int, b: int)
    ensures NodeConvert(amount, a, b) == RelayerConvert(amount, a, b)
      == if 0 <= amount then Rescale(amount, a, b) else 0 - Rescale(-amount, a, b)
    ensures 0 <= amount <==> RelayerToEvm(amount, a, b).Some?
    ensures 0 <= amount ==> RelayerToEvm(amount, a, b).value == Rescale(amount, a, b)
  {
    assert amount * 1 == amount;
    var p := Pow10(Abs(b - a));
    assert amount * p == 0 - ((-amount) * p);
  }

  /**
   * There and back. The amount that comes back is the largest one not above the original
   * that the other side can represent: nothing is lost when it has at least as many
   * decimals, otherwise less than one of its units, and a second trip loses nothing more.
   */
  lemma RoundTrip(amount: nat, a: int, b: int)
    ensures var back := Rescale(Rescale(amount, a, b), b, a);
            && back <= amount < back + Pow10(Max(0, a - b))
            && (a <= b ==> back == amount)
            && (back == amount <==> amount % Pow10(Max(0, a - b)) == 0)
            && Rescale(Rescale(back, a, b), b, a) == back
            && Rescale(back, a, b) == Rescale(amount, a, b)
  {
    var k, up := Pow10(Max(0, a - b)), Pow10(Max(0, b - a));
    if a <= b {
      MultipleDivides(amount, up);
      MultipleDivides(amount * up, 1);
    } else {
      var q := Floor(amount, k);
      DivMod(amount, k);
      MultipleDivides(q, k);
      MultipleDivides(q * k, 1);
      assert amount * 1 == amount && q * k * 1 == q * k;
    }
  }

  function Total(parts: seq<nat>): nat {
    if parts == [] then 0 else parts[0] + Total(parts[1..])
  }

  function RescaleAll(parts: seq<nat>, a: int, b: int): nat {
    if parts == [] then 0 else Rescale(parts[0], a, b) + RescaleAll(parts[1..], a, b)
  }

  lemma RescaleOfSum(x: nat, y: nat, a: int, b: int)
    ensures Rescale(x, a, b) + Rescale(y, a, b) <= Rescale(x + y, a, b) <= Rescale(x, a, b) + Rescale(y, a, b) + 1
    ensures a <= b ==> Rescale(x + y, a, b) == Rescale(x, a, b) + Rescale(y, a, b)
  {
    hide Pow10, Floor;
    var up, k := Pow10(Max(0, b - a)), Pow10(Max(0, a - b));
    assert (x + y) * up == x * up + y * up;
    QuotientOfSum(x * up, y * up, k);
    if a <= b {
      NoDivision(x * up);
      NoDivision(y * up);
      NoDivision(x * up + y * up);
    }
  }

  lemma NoDivision(x: nat)
    ensures Pow10(0) == 1 && Floor(x, 1) == x
  {
  }

  lemma RescaleNothing(a: int, b: int)
    ensures Rescale(0, a, b) == 0
  {
    var up, k := Pow10(Max(0, b - a)), Pow10(Max(0, a - b));
    assert 0 * up == 0;
    FloorIs(0, k, 0);
  }

  /** Splitting an amount into any number of parts never gains, and loses less than one unit a part. */
  lemma {:induction false} SplittingNeverGains(parts: seq<nat>, a: int, b: int)
    ensures RescaleAll(parts, a, b) <= Rescale(Total(parts), a, b)
    ensures Rescale(Total(parts), a, b) <= RescaleAll(parts, a, b) + Max(0, |parts| - 1)
    ensures a <= b ==> Rescale(Total(parts), a, b) == RescaleAll(parts, a, b)
  {
    hide Rescale;
    if parts == [] {
      RescaleNothing(a, b);
    } else if |parts| == 1 {
      RescaleNothing(a, b);
      assert Total(parts[1..]) == 0 && RescaleAll(parts[1..], a, b) == 0;
    } else {
      SplittingNeverGains(parts[1..], a, b);
      RescaleOfSum(parts[0], Total(parts[1..]), a, b);
    }
  }
}
