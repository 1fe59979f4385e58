/** Sums of the values of a finite map, and balance sheets built from such maps. */
module Sums {

  ghost function Pick<K>(m: map<K, int>): (k: K)
    requires m != map[]
    ensures k in m
  {
    var k :| k in m; k
  }

  ghost function Sum<K>(m: map<K, int>): int
    decreases |m|
  {
    if m == map[] then 0 else
      var k := Pick(m);
      m[k] + Sum(m - {k})
  }

  /** The order in which the entries are added does not matter. */
  lemma {:induction false} SumTakesOut<K>(m: map<K, int>, k: K)
    requires k in m
    ensures Sum(m) == m[k] + Sum(m - {k})
    decreases |m|
  {
    var p := Pick(m);
    if p != k {
      SumTakesOut(m - {p}, k);
      SumTakesOut(m - {k}, p);
      assert m - {p} - {k} == m - {k} - {p};
    }
  }

  lemma SumUpdate<K>(m: map<K, int>, k: K, v: int)
    ensures Sum(m[k := v]) == Sum(m) - (if k in m then m[k] else 0) + v
  {
    SumTakesOut(m[k := v], k);
    if k in m {
      SumTakesOut(m, k);
      assert m[k := v] - {k} == m - {k};
    } else {
      assert m[k := v] - {k} == m;
    }
  }

  lemma {:induction false} SumBoundsEntry<K>(m: map<K, int>, k: K)
    requires forall j :: j in m ==> 0 <= m[j]
    ensures 0 <= Sum(m)
    ensures k in m ==> m[k] <= Sum(m)
    decreases |m|
  {
    if k in m {
      SumTakesOut(m, k);
      SumBoundsEntry(m - {k}, k);
    } else if m != map[] {
      SumBoundsEntry(m - {Pick(m)}, k);
    }
  }

  /** A missing account holds nothing. */
  function Balance<K(==)>(m: map<K, nat>, k: K): nat {
    if k in m then m[k] else 0
  }

  function Credit<K(==)>(m: map<K, nat>, k: K, x: nat): map<K, nat> {
    if x == 0 then m else m[k := Balance(m, k) + x]
  }

  function Debit<K(==)>(m: map<K, nat>, k: K, x: nat): map<K, nat>
    requires x <= Balance(m, k)
  {
    if x == 0 then m else m[k := Balance(m, k) - x]
  }

  /** A transfer; moving from an account to itself changes nothing. */
  function Move<K(==)>(m: map<K, nat>, from: K, to: K, x: nat): map<K, nat>
    requires x <= Balance(m, from)
  {
    Credit(Debit(m, from, x), to, x)
  }

  lemma CreditBalance<K>(m: map<K, nat>, k: K, x: nat, a: K)
    ensures Balance(Credit(m, k, x), a) == Balance(m, a) + if a == k then x else 0
  {
  }

  lemma DebitBalance<K>(m: map<K, nat>, k: K, x: nat, a: K)
    requires x <= Balance(m, k)
    ensures Balance(Debit(m, k, x), a) == Balance(m, a) - if a == k then x else 0
  {
  }

  lemma MoveBalance<K>(m: map<K, nat>, from: K, to: K, x: nat, a: K)
    requires x <= Balance(m, from)
    ensures Balance(Move(m, from, to, x), a)
         == Balance(m, a) - (if a == from then x else 0) + (if a == to then x else 0)
  {
    DebitBalance(m, from, x, a);
    CreditBalance(Debit(m, from, x), to, x, a);
  }

  /** What `from` pays is split between two accounts, which may be the same. */
  lemma SplitBalance<K>(m: map<K, nat>, from: K, a: K, b: K, x: nat, part: nat, h: K)
    requires x <= Balance(m, from) && part <= x
    ensures Balance(Credit(Credit(Debit(m, from, x), a, part), b, x - part), h)
         == Balance(m, h)
          - (if h == from then x else 0) + (if h == a then part else 0) + (if h == b then x - part else 0)
  {
    DebitBalance(m, from, x, h);
    CreditBalance(Debit(m, from, x), a, part, h);
    CreditBalance(Credit(Debit(m, from, x), a, part), b, x - part, h);
  }

  lemma SumCredit<K>(m: map<K, nat>, k: K, x: nat)
    ensures Sum(Credit(m, k, x)) == Sum(m) + x
  {
    SumUpdate(m, k, Balance(m, k) + x);
  }

  lemma SumDebit<K>(m: map<K, nat>, k: K, x: nat)
    requires x <= Balance(m, k)
    ensures Sum(Debit(m, k, x)) == Sum(m) - x
  {
    SumUpdate(m, k, Balance(m, k) - x);
  }

  lemma SumMove<K>(m: map<K, nat>, from: K, to: K, x: nat)
    requires x <= Balance(m, from)
    ensures Sum(Move(m, from, to, x)) == Sum(m)
  {
    SumDebit(m, from, x);
    SumCredit(Debit(m, from, x), to, x);
  }

  lemma SumSplit<K>(m: map<K, nat>, from: K, a: K, b: K, x: nat, part: nat)
    requires x <= Balance(m, from) && part <= x
    ensures Sum(Credit(Credit(Debit(m, from, x), a, part), b, x - part)) == Sum(m)
  {
    SumDebit(m, from, x);
    SumCredit(Debit(m, from, x), a, part);
    SumCredit(Credit(Debit(m, from, x), a, part), b, x - part);
  }
}
