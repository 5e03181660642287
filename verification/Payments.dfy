/** Payments from one account to several, and the balances that a list of them leaves. */
module Payments {

  /** One transaction: the same amount to each payee. */
  datatype Payment<K> = Payment(payer: K, payees: seq<K>, amount: nat)

  function Times(n: nat, x: nat): nat {
    n * x
  }

  function Cost<K>(p: Payment<K>, fee: nat): nat {
    Times(|p.payees|, p.amount) + fee
  }

  /** Balances after one payment. */
  ghost function Pay<K>(balances: map<K, int>, p: Payment<K>, fee: nat): map<K, int> {
    map k | k in balances ::
      balances[k] - (if k == p.payer then Cost(p, fee) else 0) + Times(multiset(p.payees)[k], p.amount)
  }

  /** Balances after all payments, one after the other. */
  ghost function PayAll<K>(balances: map<K, int>, payments: seq<Payment<K>>, fee: nat): map<K, int> {
    if payments == [] then balances
    else Pay(PayAll(balances, payments[..|payments| - 1], fee), payments[|payments| - 1], fee)
  }

  /** Every payer has the money at the moment it pays. */
  ghost predicate Covered<K>(balances: map<K, int>, payments: seq<Payment<K>>, fee: nat) {
    forall i :: 0 <= i < |payments| ==> CanPay(PayAll(balances, payments[..i], fee), payments[i], fee)
  }

  ghost predicate CanPay<K>(balances: map<K, int>, p: Payment<K>, fee: nat) {
    p.payer in balances && balances[p.payer] >= Cost(p, fee)
  }

  ghost function PayersOf<K>(payments: seq<Payment<K>>): (r: seq<K>)
    ensures |r| == |payments| && forall i :: 0 <= i < |r| ==> r[i] == payments[i].payer
  {
    seq(|payments|, i requires 0 <= i < |payments| => payments[i].payer)
  }

  ghost function PayeesOf<K>(payments: seq<Payment<K>>): seq<K> {
    if payments == [] then [] else PayeesOf(payments[..|payments| - 1]) + payments[|payments| - 1].payees
  }

  lemma {:induction false} PayAllAppend<K>(balances: map<K, int>, a: seq<Payment<K>>, b: seq<Payment<K>>, fee: nat)
    ensures PayAll(balances, a + b, fee) == PayAll(PayAll(balances, a, fee), b, fee)
    decreases |b|
  {
    if b == [] {
      assert a + b == a;
    } else {
      var n := |b| - 1;
      assert (a + b)[..|a + b| - 1] == a + b[..n];
      PayAllAppend(balances, a, b[..n], fee);
    }
  }

  lemma {:induction false} PayeesAppend<K>(a: seq<Payment<K>>, b: seq<Payment<K>>)
    ensures PayeesOf(a + b) == PayeesOf(a) + PayeesOf(b)
    decreases |b|
  {
    if b == [] {
      assert a + b == a;
    } else {
      var n := |b| - 1;
      assert (a + b)[..|a + b| - 1] == a + b[..n];
      PayeesAppend(a, b[..n]);
    }
  }

  lemma CoveredAppend<K>(balances: map<K, int>, a: seq<Payment<K>>, b: seq<Payment<K>>, fee: nat)
    requires Covered(balances, a, fee) && Covered(PayAll(balances, a, fee), b, fee)
    ensures Covered(balances, a + b, fee)
  {
    hide PayAll, CanPay;
    forall i | 0 <= i < |a + b|
      ensures CanPay(PayAll(balances, (a + b)[..i], fee), (a + b)[i], fee)
    {
      if i < |a| {
        assert (a + b)[..i] == a[..i];
      } else {
        assert (a + b)[..i] == a + b[..i - |a|];
        PayAllAppend(balances, a, b[..i - |a|], fee);
      }
    }
  }

  lemma OneMorePayment<K>(balances: map<K, int>, payments: seq<Payment<K>>, i: nat, fee: nat)
    requires i < |payments| && Covered(balances, payments[..i], fee)
    requires CanPay(PayAll(balances, payments[..i], fee), payments[i], fee)
    ensures PayAll(balances, payments[..i + 1], fee) == Pay(PayAll(balances, payments[..i], fee), payments[i], fee)
    ensures Covered(balances, payments[..i + 1], fee)
  {
    hide Pay, CanPay;
    assert payments[..i + 1] == payments[..i] + [payments[i]];
    assert [payments[i]][..0] == [];
    PayAllAppend(balances, payments[..i], [payments[i]], fee);
    CoveredAppend(balances, payments[..i], [payments[i]], fee);
  }

  /** Only the source pays without having been paid before. */
  ghost predicate PaidBeforePaying<K>(source: K, payments: seq<Payment<K>>) {
    forall i :: 0 <= i < |payments| ==> payments[i].payer == source || payments[i].payer in PayeesOf(payments[..i])
  }

  lemma PaidBeforeAppend<K>(source: K, a: seq<Payment<K>>, b: seq<Payment<K>>)
    requires PaidBeforePaying(source, a)
    requires forall i :: 0 <= i < |b| ==> b[i].payer == source || b[i].payer in PayeesOf(a)
    ensures PaidBeforePaying(source, a + b)
  {
    hide PayeesOf;
    forall i | 0 <= i < |a + b|
      ensures (a + b)[i].payer == source || (a + b)[i].payer in PayeesOf((a + b)[..i])
    {
      if i < |a| {
        assert (a + b)[..i] == a[..i];
      } else {
        assert (a + b)[..i] == a + b[..i - |a|];
        PayeesAppend(a, b[..i - |a|]);
      }
    }
  }

  /** One transaction: the payer pays the fee and the same amount to each payee in turn. */
  method Transfer<K>(balances: map<K, int>, p: Payment<K>, fee: nat) returns (r: map<K, int>)
    requires p.payer in balances && p.payer !in p.payees && (forall k :: k in p.payees ==> k in balances)
    requires balances[p.payer] >= Cost(p, fee)
    ensures r == Pay(balances, p, fee) && r[p.payer] >= 0
  {
    hide Times, PaidUpTo;
    r := balances[p.payer := balances[p.payer] - fee];
    NonePaid(balances, p, fee);
    for i := 0 to |p.payees|
      invariant PaidUpTo(balances, r, p, fee, i)
    {
      var k := p.payees[i];
      OnePaid(balances, r, p, fee, i);
      r := r[p.payer := r[p.payer] - p.amount];
      r := r[k := r[k] + p.amount];
    }
    AllPaid(balances, r, p, fee);
  }

  /** The fee and the first i payees are paid. */
  ghost predicate PaidUpTo<K>(balances: map<K, int>, r: map<K, int>, p: Payment<K>, fee: nat, i: nat)
    requires i <= |p.payees| && p.payer in balances
  {
    && r.Keys == balances.Keys
    && (forall k :: k in balances && k != p.payer ==>
          r[k] == balances[k] + Times(multiset(p.payees[..i])[k], p.amount))
    && r[p.payer] == balances[p.payer] - fee - Times(i, p.amount)
  }

  lemma NonePaid<K>(balances: map<K, int>, p: Payment<K>, fee: nat)
    requires p.payer in balances
    ensures PaidUpTo(balances, balances[p.payer := balances[p.payer] - fee], p, fee, 0)
  {
    hide Times;
    NoTimes(p.amount);
  }

  lemma OnePaid<K>(balances: map<K, int>, r: map<K, int>, p: Payment<K>, fee: nat, i: nat)
    requires p.payer in balances && p.payer !in p.payees && (forall k :: k in p.payees ==> k in balances)
    requires i < |p.payees| && PaidUpTo(balances, r, p, fee, i)
    ensures p.payer in r && p.payees[i] in r
    ensures var s := r[p.payer := r[p.payer] - p.amount];
            p.payees[i] in s && PaidUpTo(balances, s[p.payees[i] := s[p.payees[i]] + p.amount], p, fee, i + 1)
  {
    hide Times;
    var k := p.payees[i];
    assert p.payees[..i + 1] == p.payees[..i] + [k];
    OneMoreTimes(multiset(p.payees[..i])[k], p.amount);
    OneMoreTimes(i, p.amount);
  }

  lemma AllPaid<K>(balances: map<K, int>, r: map<K, int>, p: Payment<K>, fee: nat)
    requires p.payer in balances && p.payer !in p.payees && PaidUpTo(balances, r, p, fee, |p.payees|)
    ensures r == Pay(balances, p, fee) && r[p.payer] == balances[p.payer] - Cost(p, fee)
  {
    hide Times;
    assert p.payees[..|p.payees|] == p.payees;
    NotPaid(p.payer, p.payees, p.amount);
  }

  lemma NoTimes(x: nat)
    ensures Times(0, x) == 0
  {
  }

  lemma NotPaid<K>(k: K, payees: seq<K>, x: nat)
    requires k !in payees
    ensures Times(multiset(payees)[k], x) == 0
  {
    assert k !in multiset(payees);
  }

  lemma OneMoreTimes(n: nat, x: nat)
    ensures Times(n + 1, x) == Times(n, x) + x
  {
  }
}
