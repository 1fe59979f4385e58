/** Positional notation in any base, most significant digit first. */
module Digits {
  import opened Arithmetic

  function Value(ds: seq<nat>, base: nat): nat {
    if ds == [] then 0 else Value(ds[..|ds| - 1], base) * base + ds[|ds| - 1]
  }

  predicate InBase(ds: seq<nat>, base: nat) {
    forall i :: 0 <= i < |ds| ==> ds[i] < base
  }

  /** The shortest notation; zero is written with one digit. */
  function ToDigits(n: nat, base: nat): (ds: seq<nat>)
    requires 2 <= base
    ensures InBase(ds, base) && 0 < |ds| && Value(ds, base) == n
    ensures ds[0] == 0 ==> |ds| == 1
    decreases n
  {
    if n < base then [n] else
      DivisionShrinks(n, base);
      DivMod(n, base);
      var ds := ToDigits(Floor(n, base), base);
      ValueSnoc(ds, n % base, base);
      ds + [n % base]
  }

  lemma ValueSnoc(ds: seq<nat>, d: nat, base: nat)
    ensures Value(ds + [d], base) == Value(ds, base) * base + d
  {
    assert (ds + [d])[..|ds|] == ds;
  }

  function Zeros(n: nat): (ds: seq<nat>)
    ensures |ds| == n
  {
    seq(n, _ => 0)
  }

  lemma {:induction false} ValueAppend(a: seq<nat>, b: seq<nat>, base: nat)
    ensures Value(a + b, base) == Value(a, base) * Pow(base, |b|) + Value(b, base)
  {
    if b == [] {
      assert a + b == a;
    } else {
      hide Value, Pow;
      var b', d := b[..|b| - 1], b[|b| - 1];
      PowStep(base, |b'|);
      ValueAppend(a, b', base);
      assert a + b == (a + b') + [d] && b == b' + [d];
      ValueSnoc(a + b', d, base);
      ValueSnoc(b', d, base);
      Distribute(Value(a, base), Pow(base, |b'|), Value(b', base), d, base,
                 Value(a + b', base), Value(a + b, base), Value(b, base), Pow(base, |b|));
    }
  }

  lemma Distribute(x: nat, p: nat, y: nat, d: nat, base: nat, init: nat, all: nat, tail: nat, q: nat)
    requires init == x * p + y && all == init * base + d && tail == y * base + d && q == base * p
    ensures all == x * q + tail
  {
    assert (x * p + y) * base == x * p * base + y * base;
    assert x * p * base == x * (base * p);
  }

  lemma {:induction false} ValueBound(ds: seq<nat>, base: nat)
    requires InBase(ds, base)
    ensures Value(ds, base) < Pow(base, |ds|)
  {
    if ds != [] {
      hide Value;
      var init, d := ds[..|ds| - 1], ds[|ds| - 1];
      ValueBound(init, base);
      assert ds == init + [d];
      ValueSnoc(init, d, base);
      BelowNext(Value(init, base), d, Pow(base, |init|), base);
    }
  }

  lemma BelowNext(v: nat, d: nat, p: nat, base: nat)
    requires v < p && d < base
    ensures v * base + d < base * p
  {
    Multiply(v + 1, p, base);
  }

  lemma {:induction false} ValueZeros(n: nat, base: nat)
    ensures Value(Zeros(n), base) == 0
  {
    if 0 < n {
      assert Zeros(n)[..n - 1] == Zeros(n - 1);
      ValueZeros(n - 1, base);
    }
  }

  lemma LeadingZeros(n: nat, ds: seq<nat>, base: nat)
    ensures Value(Zeros(n) + ds, base) == Value(ds, base)
  {
    ValueAppend(Zeros(n), ds, base);
    ValueZeros(n, base);
  }

  lemma TrailingZeros(ds: seq<nat>, n: nat, base: nat)
    ensures Value(ds + Zeros(n), base) == Value(ds, base) * Pow(base, n)
  {
    ValueAppend(ds, Zeros(n), base);
    ValueZeros(n, base);
  }

  /** Two notations of the same length and value are the same. */
  lemma {:induction false} FixedWidthUnique(a: seq<nat>, b: seq<nat>, base: nat)
    requires InBase(a, base) && InBase(b, base) && |a| == |b|
    requires Value(a, base) == Value(b, base)
    ensures a == b
  {
    if a != [] {
      var n := |a| - 1;
      SplitUnique(Value(a[..n], base), a[n], Value(b[..n], base), b[n], base);
      FixedWidthUnique(a[..n], b[..n], base);
      assert a == a[..n] + [a[n]] && b == b[..n] + [b[n]];
    }
  }

  predicate NoLeadingZero(ds: seq<nat>) {
    0 < |ds| && (ds[0] == 0 ==> |ds| == 1)
  }

  lemma LeadingDigit(ds: seq<nat>, base: nat)
    requires 0 < |ds| && ds[0] != 0
    ensures Pow(base, |ds| - 1) <= Value(ds, base)
  {
    hide Value, Pow;
    assert ds == [ds[0]] + ds[1..];
    ValueAppend([ds[0]], ds[1..], base);
    OneDigit(ds[0], base);
    Multiply(1, ds[0], Pow(base, |ds| - 1));
  }

  lemma OneDigit(d: nat, base: nat)
    ensures Value([d], base) == d
  {
    assert [d][..0] == [];
  }

  lemma LongerIsLarger(a: seq<nat>, b: seq<nat>, base: nat)
    requires 2 <= base && InBase(a, base) && InBase(b, base)
    requires NoLeadingZero(b) && 0 < |a| < |b|
    ensures Value(a, base) < Value(b, base)
  {
    hide Value, Pow;
    ValueBound(a, base);
    PowMonotone(base, |a|, |b| - 1);
    LeadingDigit(b, base);
  }

  /** The shortest notation of a number is unique. */
  lemma ShortestUnique(a: seq<nat>, b: seq<nat>, base: nat)
    requires 2 <= base && InBase(a, base) && InBase(b, base)
    requires NoLeadingZero(a) && NoLeadingZero(b)
    requires Value(a, base) == Value(b, base)
    ensures a == b
  {
    if |a| < |b| {
      LongerIsLarger(a, b, base);
    } else if |b| < |a| {
      LongerIsLarger(b, a, base);
    } else {
      FixedWidthUnique(a, b, base);
    }
  }
}
