/** Powers and floor division. */
module Arithmetic {

  function Pow(base: nat, n: nat): nat {
    if n == 0 then 1 else base * Pow(base, n - 1)
  }

  /** The floor of a quotient. */
  function Floor(a: nat, k: nat): nat
    requires 0 < k
  {
    a / k
  }

  lemma DivMod(a: nat, k: nat)
    requires 0 < k
    ensures a == Floor(a, k) * k + a % k && 0 <= a % k < k
  {
  }

  lemma Multiply(x: int, y: int, k: nat)
    requires x <= y
    ensures x * k <= y * k
  {
  }

  lemma FloorIs(x: nat, k: nat, q: nat)
    requires 0 < k
    ensures q == Floor(x, k) <==> q * k <= x < (q + 1) * k
  {
    var d := Floor(x, k);
    DivMod(x, k);
    assert (d + 1) * k == d * k + k;
    if q < d {
      Multiply(q + 1, d, k);
    } else if d < q {
      Multiply(d + 1, q, k);
    }
  }

  lemma QuotientOfSum(x: nat, y: nat, k: nat)
    requires 0 < k
    ensures Floor(x, k) + Floor(y, k) <= Floor(x + y, k) <= Floor(x, k) + Floor(y, k) + 1
  {
    hide Floor;
    var u, v, w := Floor(x, k), Floor(y, k), Floor(x + y, k);
    FloorIs(x, k, u);
    FloorIs(y, k, v);
    FloorIs(x + y, k, w);
    assert (u + v) * k == u * k + v * k;
    assert (u + v + 2) * k == (u + 1) * k + (v + 1) * k;
    if w < u + v {
      Multiply(w + 1, u + v, k);
    } else if u + v + 1 < w {
      Multiply(u + v + 2, w, k);
    }
  }

  lemma MultipleDivides(x: nat, k: nat)
    requires 0 < k
    ensures Floor(x * k, k) == x
  {
    assert (x + 1) * k == x * k + k;
    FloorIs(x * k, k, x);
  }

  lemma PowPositive(base: nat, n: nat)
    requires 0 < base
    ensures 0 < Pow(base, n)
  {
  }

  lemma {:induction false} PowAdd(base: nat, m: nat, n: nat)
    ensures Pow(base, m + n) == Pow(base, m) * Pow(base, n)
  {
    if m == 0 {
      assert 1 * Pow(base, n) == Pow(base, n);
    } else {
      hide Pow;
      PowAdd(base, m - 1, n);
      PowStep(base, m - 1);
      PowStep(base, m - 1 + n);
      Associate(base, Pow(base, m - 1), Pow(base, n));
    }
  }

  lemma Associate(a: nat, b: nat, c: nat)
    ensures a * (b * c) == a * b * c
  {
  }

  lemma PowMonotone(base: nat, m: nat, n: nat)
    requires 0 < base && m <= n
    ensures Pow(base, m) <= Pow(base, n)
  {
    PowAdd(base, n - m, m);
    PowPositive(base, n - m);
    Multiply(1, Pow(base, n - m), Pow(base, m));
  }

  lemma SplitUnique(q: nat, r: nat, q': nat, r': nat, k: nat)
    requires r < k && r' < k && q * k + r == q' * k + r'
    ensures q == q' && r == r'
  {
    if q < q' {
      Multiply(q + 1, q', k);
    } else if q' < q {
      Multiply(q' + 1, q, k);
    }
  }

  lemma RemainderIs(a: nat, k: nat, q: nat, r: nat)
    requires r < k && a == q * k + r
    ensures Floor(a, k) == q && a % k == r
  {
    DivMod(a, k);
    SplitUnique(q, r, Floor(a, k), a % k, k);
  }

  lemma DivisionShrinks(a: nat, k: nat)
    requires 2 <= k && 0 < a
    ensures Floor(a, k) < a
  {
    DivMod(a, k);
    Multiply(2, k, Floor(a, k));
  }

  lemma PowStep(base: nat, n: nat)
    ensures Pow(base, n + 1) == base * Pow(base, n)
  {
  }

  lemma PowDoubles(base: nat, n: nat)
    ensures Pow(base, 2 * n) == Pow(base, n) * Pow(base, n)
    ensures Pow(base, 1) == base
  {
    PowAdd(base, n, n);
    assert base * Pow(base, 0) == base;
  }
}
