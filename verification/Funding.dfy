/**
 * Funding a set of accounts from one source through a tree in which every account pays
 * four others. The number of accounts, the number of fees and the total are computed in
 * three different places and have to fit together exactly.
 */
module Funding {
  import opened Payments
  import opened Sequences

  const MAX_SPENDS_PER_TX: nat := 4

  /** 1 + 4 + 16 + .., n terms: the payers of a tree with n levels below the root. */
  function Payers(n: nat): nat {
    if n == 0 then 0 else 1 + 4 * Payers(n - 1)
  }

  function Pow4(n: nat): (r: nat)
    ensures r >= 1
  {
    if n == 0 then 1 else 4 * Pow4(n - 1)
  }

  lemma {:induction false} PayersNext(n: nat)
    ensures Payers(n + 1) == Payers(n) + Pow4(n)
  {
    if n > 0 { PayersNext(n - 1); }
  }

  /** The least full tree with at least `count` accounts below the source. */
  method GenerateKeypairs(count: nat) returns (totalKeys: nat, extra: nat, ghost levels: nat)
    ensures totalKeys >= count
    ensures extra == Payers(levels) && totalKeys == 4 * Payers(levels)
    ensures levels > 0 ==> 4 * Payers(levels - 1) < count
  {
    totalKeys, extra, levels := 0, 0, 0;
    var delta := 1;
    while totalKeys < count
      invariant delta == Pow4(levels)
      invariant extra == Payers(levels) && totalKeys == 4 * Payers(levels)
      invariant levels > 0 ==> 4 * Payers(levels - 1) < count
      decreases count - totalKeys
    {
      PayersNext(levels);
      extra := extra + delta;
      delta := delta * MAX_SPENDS_PER_TX;
      totalKeys := totalKeys + delta;
      levels := levels + 1;
    }
  }

  /** The amount the source has to spend, as computed before funding. */
  function Total(lamportsPerAccount: nat, numKeys: nat, extra: nat, maxFee: nat): nat {
    lamportsPerAccount * (numKeys + 1) + extra * maxFee
  }

  /** What an account with n levels below it needs: its own share, theirs, and all their fees. */
  function Need(lamportsPerAccount: nat, maxFee: nat, n: nat): nat {
    Total(lamportsPerAccount, 4 * Payers(n), Payers(n), maxFee)
  }

  /** Keeping its share and paying one fee leaves exactly four times what each of its payees needs. */
  lemma NeedSplits(lamportsPerAccount: nat, maxFee: nat, n: nat)
    requires n > 0
    ensures Need(lamportsPerAccount, maxFee, n) ==
            lamportsPerAccount + maxFee + MAX_SPENDS_PER_TX * Need(lamportsPerAccount, maxFee, n - 1)
  {
    var p := Payers(n - 1);
    assert lamportsPerAccount * (4 * (1 + 4 * p) + 1) == lamportsPerAccount + 4 * (lamportsPerAccount * (4 * p + 1));
    assert (1 + 4 * p) * maxFee == maxFee + 4 * (p * maxFee);
  }

  // ---------- one round ----------

  /** Balances after each of `payers` paid four times `amount` and a fee, and each of `payees` got `amount`. */
  ghost function Settled<K>(balances: map<K, int>, payers: seq<K>, payees: seq<K>, amount: nat, fee: nat): map<K, int> {
    map k | k in balances ::
      balances[k] - (if k in payers then MAX_SPENDS_PER_TX * amount + fee else 0) + (if k in payees then amount else 0)
  }

  /** Payment i of a round: funder i pays the last four accounts that the funders before it left. */
  ghost predicate Planned<K>(toFund: seq<Payment<K>>, funded: seq<K>, notFunded: seq<K>, amount: nat) {
    && |toFund| == |funded| && 4 * |funded| <= |notFunded|
    && forall i :: 0 <= i < |funded| ==>
         toFund[i] == Payment(funded[i], notFunded[|notFunded| - 4 * (i + 1)..|notFunded| - 4 * i], amount)
  }

  /** Who pays whom in one round: each funder takes the last four accounts not yet funded. */
  method Plan<K>(funded: seq<K>, notFunded: seq<K>, amount: nat)
    returns (toFund: seq<Payment<K>>, newFunded: seq<K>, rest: seq<K>)
    requires MAX_SPENDS_PER_TX * |funded| <= |notFunded|
    ensures rest == notFunded[..|notFunded| - 4 * |funded|]
    ensures Planned(toFund, funded, notFunded, amount) && newFunded == PayeesOf(toFund)
    ensures |newFunded| == 4 * |funded| && multiset(newFunded) == multiset(notFunded[|rest|..])
  {
    hide Planned, PayeesOf;
    toFund, newFunded, rest := [], [], notFunded;
    NothingPlanned(funded, notFunded, amount);
    for i := 0 to |funded|
      invariant rest == notFunded[..|notFunded| - 4 * i]
      invariant Planned(toFund, funded[..i], notFunded, amount) && newFunded == PayeesOf(toFund)
      invariant |newFunded| == 4 * i && multiset(newFunded) == multiset(notFunded[|rest|..])
    {
      var start := |rest| - MAX_SPENDS_PER_TX;
      var dests := rest[start..];
      PlanOneMore(toFund, funded, notFunded, amount, i);
      rest := rest[..start];
      toFund := toFund + [Payment(funded[i], dests, amount)];
      newFunded := newFunded + dests;
    }
    assert funded[..|funded|] == funded;
  }

  lemma NothingPlanned<K>(funded: seq<K>, notFunded: seq<K>, amount: nat)
    ensures Planned([], funded[..0], notFunded, amount) && PayeesOf<K>([]) == []
    ensures notFunded[|notFunded|..] == []
  {
  }

  lemma PlanOneMore<K>(toFund: seq<Payment<K>>, funded: seq<K>, notFunded: seq<K>, amount: nat, i: nat)
    requires i < |funded| && 4 * |funded| <= |notFunded| && Planned(toFund, funded[..i], notFunded, amount)
    ensures var n := |notFunded|;
            var dests := notFunded[..n - 4 * i][n - 4 * (i + 1)..];
            var toFund' := toFund + [Payment(funded[i], dests, amount)];
            && |dests| == 4 && notFunded[..n - 4 * i][..n - 4 * (i + 1)] == notFunded[..n - 4 * (i + 1)]
            && notFunded[n - 4 * (i + 1)..] == dests + notFunded[n - 4 * i..]
            && Planned(toFund', funded[..i + 1], notFunded, amount)
            && PayeesOf(toFund') == PayeesOf(toFund) + dests
  {
    var n := |notFunded|;
    var dests := notFunded[..n - 4 * i][n - 4 * (i + 1)..];
    assert dests == notFunded[n - 4 * (i + 1)..n - 4 * i];
    var toFund' := toFund + [Payment(funded[i], dests, amount)];
    assert toFund'[..|toFund|] == toFund;
    forall j | 0 <= j < i
      ensures toFund'[j] == Payment(funded[j], notFunded[n - 4 * (j + 1)..n - 4 * j], amount)
    {
      assert toFund'[j] == toFund[j] && funded[..i][j] == funded[j];
    }
  }

  /** A payment to four different accounts, seen as a round of one payer. */
  lemma PayIsSettled<K>(balances: map<K, int>, p: Payment<K>, fee: nat)
    requires |p.payees| == MAX_SPENDS_PER_TX && Distinct(p.payees)
    ensures Pay(balances, p, fee) == Settled(balances, [p.payer], p.payees, p.amount, fee)
    ensures Cost(p, fee) == MAX_SPENDS_PER_TX * p.amount + fee
  {
    forall k | k in balances
      ensures multiset(p.payees)[k] == if k in p.payees then 1 else 0
    {
      DistinctCounts(p.payees, k);
    }
  }

  lemma SettledMore<K>(balances: map<K, int>, payers: seq<K>, payees: seq<K>, payer: K, more: seq<K>, amount: nat,
                       fee: nat)
    requires payer !in payers && forall k :: k in more ==> k !in payees
    ensures Settled(Settled(balances, payers, payees, amount, fee), [payer], more, amount, fee) ==
            Settled(balances, payers + [payer], more + payees, amount, fee)
  {
  }

  /** Carries out a plan. No payer is asked for more than it has. */
  method Settle<K>(balances: map<K, int>, toFund: seq<Payment<K>>, amount: nat, fee: nat,
                   ghost funded: seq<K>, ghost notFunded: seq<K>) returns (r: map<K, int>)
    requires Planned(toFund, funded, notFunded, amount)
    requires Distinct(funded) && Distinct(notFunded) && (forall k :: k in funded ==> k !in notFunded)
    requires (forall k :: k in funded || k in notFunded ==> k in balances)
    requires forall k :: k in funded ==> balances[k] >= MAX_SPENDS_PER_TX * amount + fee
    ensures r == PayAll(balances, toFund, fee) && Covered(balances, toFund, fee)
    ensures r == Settled(balances, funded, notFunded[|notFunded| - 4 * |funded|..], amount, fee)
  {
    hide PayAll, Covered, Pay, Settled, Distinct;
    r := balances;
    ghost var n := |notFunded|;
    NothingSettled(balances, toFund, funded, notFunded, amount, fee);
    for i := 0 to |toFund|
      invariant r == Settled(balances, funded[..i], notFunded[n - 4 * i..], amount, fee)
      invariant r == PayAll(balances, toFund[..i], fee) && Covered(balances, toFund[..i], fee)
    {
      SettleOneMore(balances, r, toFund, amount, fee, funded, notFunded, i);
      OneMorePayment(balances, toFund, i, fee);
      r := Transfer(r, toFund[i], fee);
    }
    assert funded[..|funded|] == funded && toFund[..|toFund|] == toFund;
  }

  lemma NothingSettled<K>(balances: map<K, int>, toFund: seq<Payment<K>>, funded: seq<K>, notFunded: seq<K>,
                          amount: nat, fee: nat)
    ensures balances == Settled(balances, funded[..0], notFunded[|notFunded|..], amount, fee)
    ensures balances == PayAll(balances, toFund[..0], fee) && Covered(balances, toFund[..0], fee)
  {
  }

  /** Payer i is still where it was when the round began, and so are its payees. */
  lemma SettleOneMore<K>(balances: map<K, int>, now: map<K, int>, toFund: seq<Payment<K>>, amount: nat, fee: nat,
                         funded: seq<K>, notFunded: seq<K>, i: nat)
    requires Planned(toFund, funded, notFunded, amount) && i < |funded|
    requires Distinct(funded) && Distinct(notFunded) && (forall k :: k in funded ==> k !in notFunded)
    requires (forall k :: k in funded || k in notFunded ==> k in balances)
    requires forall k :: k in funded ==> balances[k] >= MAX_SPENDS_PER_TX * amount + fee
    requires now == Settled(balances, funded[..i], notFunded[|notFunded| - 4 * i..], amount, fee)
    ensures var p := toFund[i];
            && CanPay(now, p, fee) && p.payer !in p.payees && (forall k :: k in p.payees ==> k in now)
            && Pay(now, p, fee) ==
               Settled(balances, funded[..i + 1], notFunded[|notFunded| - 4 * (i + 1)..], amount, fee)
  {
    var p, n := toFund[i], |notFunded|;
    PayeesApart(notFunded, i);
    assert p.payer == funded[i] && p.payer !in funded[..i];
    PayIsSettled(now, p, fee);
    hide Distinct, Pay;
    SettledMore(balances, funded[..i], notFunded[n - 4 * i..], p.payer, p.payees, amount, fee);
    assert funded[..i + 1] == funded[..i] + [p.payer];
    assert notFunded[n - 4 * (i + 1)..] == p.payees + notFunded[n - 4 * i..];
    TailIn(notFunded, n - 4 * i);
  }

  /** The accounts of payment i are four different ones that no earlier payment reached. */
  lemma PayeesApart<K>(notFunded: seq<K>, i: nat)
    requires Distinct(notFunded) && 4 * (i + 1) <= |notFunded|
    ensures var n := |notFunded|;
            var payees := notFunded[n - 4 * (i + 1)..n - 4 * i];
            && |payees| == 4 && Distinct(payees)
            && (forall k :: k in payees ==> k in notFunded && k !in notFunded[n - 4 * i..])
            && payees + notFunded[n - 4 * i..] == notFunded[n - 4 * (i + 1)..]
  {
    var n := |notFunded|;
    var payees := notFunded[n - 4 * (i + 1)..n - 4 * i];
    forall k | k in payees
      ensures k in notFunded && k !in notFunded[n - 4 * i..]
    {
      var j :| 0 <= j < 4 && payees[j] == k;
      assert notFunded[n - 4 * (i + 1) + j] == k;
    }
  }

  /** Balances during funding, with n levels to go below the accounts funded last. */
  ghost predicate InProgress<K>(start: map<K, int>, now: map<K, int>, source: K, dests: seq<K>, funded: seq<K>,
                                notFunded: seq<K>, share: nat, fee: nat, levels: nat, n: nat)
    requires source in start && forall k :: k in dests ==> k in start
  {
    && now.Keys == start.Keys
    && (forall k :: k in start && k !in dests && k != source ==> now[k] == start[k])
    && (forall k :: k in dests && k in notFunded ==> now[k] == start[k])
    && (forall k :: k in dests && k !in notFunded ==>
          now[k] == start[k] + if k in funded then Need(share, fee, n) else share)
    && now[source] == start[source] - Need(share, fee, levels) + if source in funded then Need(share, fee, n) else share
  }

  lemma {:induction false} DistinctCounts<K>(s: seq<K>, x: K)
    requires Distinct(s)
    ensures multiset(s)[x] <= 1
    decreases |s|
  {
    if s != [] {
      var n := |s| - 1;
      assert s == s[..n] + [s[n]];
      DistinctCounts(s[..n], x);
      if x == s[n] { assert x !in s[..n]; }
    }
  }

  lemma {:induction false} CountsDistinct<K>(s: seq<K>)
    requires forall x :: multiset(s)[x] <= 1
    ensures Distinct(s)
  {
    forall i, j | 0 <= i < j < |s|
      ensures s[i] != s[j]
    {
      var a, b := s[..j], s[j..];
      assert s == a + b && a[i] == s[i] && b[0] == s[j];
      assert multiset(s)[s[i]] == multiset(a)[s[i]] + multiset(b)[s[i]];
      assert a[i] in multiset(a) && b[0] in multiset(b);
    }
  }

  lemma RearrangedDistinct<K>(a: seq<K>, b: seq<K>)
    requires multiset(a) == multiset(b) && Distinct(b)
    ensures Distinct(a) && forall k :: k in a <==> k in b
  {
    forall x ensures multiset(a)[x] <= 1 { DistinctCounts(b, x); }
    CountsDistinct(a);
    assert forall k :: k in a <==> k in multiset(a);
    assert forall k :: k in b <==> k in multiset(b);
  }

  /** The payments so far give the balances; each had cover, went to four accounts, and from a payer paid before. */
  ghost predicate Booked<K>(start: map<K, int>, now: map<K, int>, source: K, payments: seq<Payment<K>>, fee: nat) {
    && now == PayAll(start, payments, fee) && Covered(start, payments, fee)
    && (forall i :: 0 <= i < |payments| ==> |payments[i].payees| == MAX_SPENDS_PER_TX)
    && PaidBeforePaying(source, payments)
  }

  /** The payees so far are the accounts past the first `left`; nobody paid twice, and those funded last not at all. */
  ghost predicate PaidOnce<K>(source: K, dests: seq<K>, funded: seq<K>, left: nat, payments: seq<Payment<K>>)
    requires left <= |dests|
  {
    && multiset(PayeesOf(payments)) == multiset(dests[left..])
    && Distinct(PayersOf(payments))
    && (forall k :: k in PayersOf(payments) ==> k !in funded && k !in dests[..left])
    && (forall k :: k in funded ==> k == source || k in PayeesOf(payments))
  }

  /**
   * Funds all accounts, and returns the payments made. Every subtraction and every drain
   * stays in range and every division by four is exact. The payments, applied in order,
   * give the balances at the end; each payer has the money when it pays, was paid before,
   * and pays once; the payees together are the accounts, each exactly once. In the end the
   * source and every account have exactly their share of the total left.
   */
  method FundKeys<K>(source: K, dests: seq<K>, total: nat, maxFee: nat, lamportsPerAccount: nat,
                     balances: map<K, int>, ghost levels: nat)
    returns (after: map<K, int>, payments: seq<Payment<K>>)
    requires Distinct(dests) && source !in dests
    requires source in balances && (forall k :: k in dests ==> k in balances && balances[k] >= 0)
    requires |dests| == 4 * Payers(levels) && total == Total(lamportsPerAccount, |dests|, Payers(levels), maxFee)
    requires balances[source] >= total
    ensures after == PayAll(balances, payments, maxFee) && Covered(balances, payments, maxFee)
    ensures forall i :: 0 <= i < |payments| ==> |payments[i].payees| == MAX_SPENDS_PER_TX
    ensures multiset(PayeesOf(payments)) == multiset(dests)
    ensures Distinct(PayersOf(payments)) && PaidBeforePaying(source, payments)
    ensures after.Keys == balances.Keys
    ensures after[source] == balances[source] - total + lamportsPerAccount
    ensures forall k :: k in dests ==> after[k] == balances[k] + lamportsPerAccount
    ensures forall k :: k in balances && k !in dests && k != source ==> after[k] == balances[k]
  {
    hide Level, Payers, Total, PayAll, Covered, PayeesOf, PayersOf, PaidBeforePaying, Distinct;
    FundingStarts(balances, source, dests, lamportsPerAccount, maxFee, levels);
    var funded: seq<K>, fundedFunds: nat, notFunded: seq<K> := [source], total, dests;
    after, payments := balances, [];
    ghost var n: nat := levels;
    while notFunded != []
      invariant fundedFunds == Need(lamportsPerAccount, maxFee, n) && (n == 0 ==> notFunded == [])
      invariant Level(balances, after, source, dests, funded, notFunded, payments, lamportsPerAccount, maxFee, levels,
                      n)
      decreases n
    {
      NeedSplits(lamportsPerAccount, maxFee, n);
      var toLamports := (fundedFunds - lamportsPerAccount - maxFee) / MAX_SPENDS_PER_TX;
      assert toLamports == Need(lamportsPerAccount, maxFee, n - 1);
      funded, notFunded, after, payments :=
        FundRound(source, dests, funded, notFunded, toLamports, maxFee, after, payments, balances, lamportsPerAccount,
                  levels, n);
      fundedFunds, n := toLamports, n - 1;
    }
    FundingEnds(balances, after, source, dests, funded, payments, lamportsPerAccount, maxFee, levels, n);
  }

  /** Everything that holds between two rounds, with n levels to go below the accounts funded last. */
  ghost predicate Level<K>(start: map<K, int>, now: map<K, int>, source: K, dests: seq<K>, funded: seq<K>,
                           notFunded: seq<K>, payments: seq<Payment<K>>, share: nat, fee: nat, levels: nat, n: nat)
    requires source in start && (forall k :: k in dests ==> k in start)
  {
    && |notFunded| <= |dests| && notFunded == dests[..|notFunded|]
    && |funded| >= 1 && |notFunded| == |funded| * (4 * Payers(n))
    && Distinct(funded) && (forall k :: k in funded ==> k == source || (k in dests && k !in notFunded))
    && InProgress(start, now, source, dests, funded, notFunded, share, fee, levels, n)
    && Booked(start, now, source, payments, fee)
    && PaidOnce(source, dests, funded, |notFunded|, payments)
  }

  /** One round: each account funded last pays four of those not yet funded. */
  method FundRound<K>(source: K, dests: seq<K>, funded: seq<K>, notFunded: seq<K>, toLamports: nat, maxFee: nat,
                      balances: map<K, int>, payments: seq<Payment<K>>, ghost start: map<K, int>,
                      ghost share: nat, ghost levels: nat, ghost n: nat)
    returns (newFunded: seq<K>, rest: seq<K>, after: map<K, int>, payments': seq<Payment<K>>)
    requires Distinct(dests) && source !in dests && n > 0 && toLamports == Need(share, maxFee, n - 1)
    requires source in start && (forall k :: k in dests ==> k in start && start[k] >= 0)
    requires start[source] >= Need(share, maxFee, levels)
    requires Level(start, balances, source, dests, funded, notFunded, payments, share, maxFee, levels, n)
    ensures Level(start, after, source, dests, newFunded, rest, payments', share, maxFee, levels, n - 1)
    ensures payments <= payments'
    ensures n == 1 ==> rest == []
  {
    hide Level, Need, Payers, Settled, Distinct, Planned, PayeesOf, PayAll, Covered, InProgress;
    LevelShape(start, balances, source, dests, funded, notFunded, payments, share, maxFee, levels, n);
    var toFund: seq<Payment<K>>;
    toFund, newFunded, rest := Plan(funded, notFunded, toLamports);
    RoundReady(start, balances, source, dests, funded, notFunded, newFunded, payments, share, maxFee, levels, n);
    after := Settle(balances, toFund, toLamports, maxFee, funded, notFunded);
    RoundKeepsLevel(start, balances, after, source, dests, funded, notFunded, toFund, payments, share, maxFee, levels,
                    n);
    payments' := payments + toFund;
  }

  lemma LevelShape<K>(start: map<K, int>, now: map<K, int>, source: K, dests: seq<K>, funded: seq<K>, notFunded: seq<K>,
                      payments: seq<Payment<K>>, share: nat, fee: nat, levels: nat, n: nat)
    requires source in start && (forall k :: k in dests ==> k in start) && n > 0
    requires Level(start, now, source, dests, funded, notFunded, payments, share, fee, levels, n)
    ensures 4 * |funded| <= |notFunded| && (n == 1 ==> |notFunded| == 4 * |funded|)
  {
    hide InProgress, Booked, PaidOnce, Payers;
    LevelSize(|funded|, n);
  }

  lemma FundingStarts<K>(start: map<K, int>, source: K, dests: seq<K>, share: nat, fee: nat, levels: nat)
    requires source in start && (forall k :: k in dests ==> k in start) && source !in dests
      && |dests| == 4 * Payers(levels)
    ensures Level(start, start, source, dests, [source], dests, [], share, fee, levels, levels)
    ensures levels == 0 ==> dests == []
  {
    assert dests[|dests|..] == [];
  }

  /** With nobody left to fund, the accounts funded last are leaves and keep their share. */
  lemma FundingEnds<K>(start: map<K, int>, now: map<K, int>, source: K, dests: seq<K>, funded: seq<K>,
                       payments: seq<Payment<K>>, share: nat, fee: nat, levels: nat, n: nat)
    requires source in start && (forall k :: k in dests ==> k in start)
    requires Level(start, now, source, dests, funded, [], payments, share, fee, levels, n)
    ensures now.Keys == start.Keys
    ensures now[source] == start[source] - Need(share, fee, levels) + share
    ensures forall k :: k in dests ==> now[k] == start[k] + share
    ensures forall k :: k in start && k !in dests && k != source ==> now[k] == start[k]
    ensures multiset(PayeesOf(payments)) == multiset(dests) && Distinct(PayersOf(payments))
    ensures Booked(start, now, source, payments, fee)
  {
    hide Booked, PayeesOf;
    assert dests[0..] == dests;
    NoLevels(|funded|, n);
  }

  lemma NoLevels(funders: nat, n: nat)
    requires funders >= 1 && funders * (4 * Payers(n)) == 0
    ensures n == 0
  {
    if n > 0 { LevelSize(funders, n); }
  }

  /** The accounts of a round are apart from each other and from all that come later. */
  lemma RoundApart<K>(source: K, dests: seq<K>, funded: seq<K>, notFunded: seq<K>, rest: seq<K>, newFunded: seq<K>)
    requires Distinct(dests) && source !in dests
    requires |rest| <= |notFunded| <= |dests| && notFunded == dests[..|notFunded|] && rest == notFunded[..|rest|]
    requires forall k :: k in funded ==> k == source || (k in dests && k !in notFunded)
    requires multiset(newFunded) == multiset(notFunded[|rest|..])
    ensures Distinct(notFunded) && Distinct(newFunded) && rest == dests[..|rest|]
    ensures forall k :: k in notFunded ==> k in dests
    ensures forall k :: k in newFunded <==> k in notFunded[|rest|..]
    ensures forall k :: k in funded ==> k !in notFunded
    ensures forall k :: k in newFunded ==> k in notFunded && k in dests && k !in rest
    ensures multiset(dests[|rest|..]) == multiset(newFunded) + multiset(dests[|notFunded|..])
    ensures forall k :: k in notFunded <==> k in rest || k in newFunded
  {
    RearrangedDistinct(newFunded, notFunded[|rest|..]);
    assert dests[|rest|..] == notFunded[|rest|..] + dests[|notFunded|..];
    assert notFunded == rest + notFunded[|rest|..];
    forall k | k in newFunded
      ensures k in dests && k !in rest
    {
      var i :| 0 <= i < |notFunded| - |rest| && notFunded[|rest|..][i] == k;
      assert dests[|rest| + i] == k;
    }
  }

  /** One round takes the balances from n levels to go to n - 1. */
  lemma RoundStep<K>(start: map<K, int>, now: map<K, int>, source: K, dests: seq<K>, funded: seq<K>, notFunded: seq<K>,
                     newFunded: seq<K>, rest: seq<K>, share: nat, fee: nat, levels: nat, n: nat)
    requires source in start && (forall k :: k in dests ==> k in start && start[k] >= 0) && source !in dests && n > 0
    requires start[source] >= Need(share, fee, levels)
    requires InProgress(start, now, source, dests, funded, notFunded, share, fee, levels, n)
    requires forall k :: k in funded ==> k == source || (k in dests && k !in notFunded)
    requires |rest| <= |notFunded| && (forall k :: k in newFunded <==> k in notFunded[|rest|..])
    requires forall k :: k in notFunded <==> k in rest || k in newFunded
    requires forall k :: k in newFunded ==> k in dests && k !in rest
    requires forall k :: k in notFunded ==> k in dests
    ensures var t := Need(share, fee, n - 1);
            && now.Keys == start.Keys
            && (forall k :: k in funded || k in notFunded ==> k in now)
            && (forall k :: k in funded ==> now[k] >= MAX_SPENDS_PER_TX * t + fee)
            && InProgress(start, Settled(now, funded, notFunded[|rest|..], t, fee), source, dests, newFunded, rest,
                          share, fee, levels, n - 1)
  {
    NeedSplits(share, fee, n);
    hide Need;
  }

  /** Before a round: funders and accounts to fund are known, apart, and the funders have the money. */
  lemma RoundReady<K>(start: map<K, int>, now: map<K, int>, source: K, dests: seq<K>, funded: seq<K>, notFunded: seq<K>,
                      newFunded: seq<K>, payments: seq<Payment<K>>, share: nat, fee: nat, levels: nat, n: nat)
    requires Distinct(dests) && source !in dests && n > 0
    requires source in start && (forall k :: k in dests ==> k in start && start[k] >= 0)
    requires start[source] >= Need(share, fee, levels)
    requires Level(start, now, source, dests, funded, notFunded, payments, share, fee, levels, n)
    requires 4 * |funded| <= |notFunded| && |newFunded| == 4 * |funded|
    requires multiset(newFunded) == multiset(notFunded[|notFunded| - 4 * |funded|..])
    ensures Distinct(funded) && Distinct(notFunded) && (forall k :: k in funded ==> k !in notFunded)
    ensures forall k :: k in funded || k in notFunded ==> k in now
    ensures forall k :: k in funded ==> now[k] >= MAX_SPENDS_PER_TX * Need(share, fee, n - 1) + fee
    ensures var c := |notFunded| - 4 * |funded|;
            InProgress(start, Settled(now, funded, notFunded[c..], Need(share, fee, n - 1), fee), source, dests,
                       newFunded, notFunded[..c], share, fee, levels, n - 1)
  {
    hide InProgress, Booked, PaidOnce, Need, Payers, Settled, Distinct;
    var rest := notFunded[..|notFunded| - 4 * |funded|];
    RoundApart(source, dests, funded, notFunded, rest, newFunded);
    RoundStep(start, now, source, dests, funded, notFunded, newFunded, rest, share, fee, levels, n);
  }

  /** After a round: one level less to go, and the payments of the round are on the ledger. */
  lemma RoundKeepsLevel<K>(start: map<K, int>, now: map<K, int>, after: map<K, int>, source: K, dests: seq<K>,
                           funded: seq<K>, notFunded: seq<K>, toFund: seq<Payment<K>>, payments: seq<Payment<K>>,
                           share: nat, fee: nat, levels: nat, n: nat)
    requires Distinct(dests) && source !in dests && n > 0
    requires source in start && (forall k :: k in dests ==> k in start && start[k] >= 0)
    requires Level(start, now, source, dests, funded, notFunded, payments, share, fee, levels, n)
    requires Planned(toFund, funded, notFunded, Need(share, fee, n - 1))
    requires |PayeesOf(toFund)| == 4 * |funded|
    requires multiset(PayeesOf(toFund)) == multiset(notFunded[|notFunded| - 4 * |funded|..])
    requires after == PayAll(now, toFund, fee) && Covered(now, toFund, fee)
    requires InProgress(start, after, source, dests, PayeesOf(toFund), notFunded[..|notFunded| - 4 * |funded|], share,
                        fee, levels, n - 1)
    ensures Level(start, after, source, dests, PayeesOf(toFund), notFunded[..|notFunded| - 4 * |funded|],
                  payments + toFund, share, fee, levels, n - 1)
  {
    hide InProgress, Need, Payers, Booked, PaidOnce, Distinct, PayeesOf, PayAll, Covered, Planned;
    LevelSize(|funded|, n);
    var rest := notFunded[..|notFunded| - 4 * |funded|];
    RoundApart(source, dests, funded, notFunded, rest, PayeesOf(toFund));
    BookedMore(start, now, after, source, dests, funded, notFunded, toFund, payments, Need(share, fee, n - 1), fee);
    PaidOnceMore(source, dests, funded, notFunded, toFund, payments, Need(share, fee, n - 1));
  }

  lemma BookedMore<K>(start: map<K, int>, now: map<K, int>, after: map<K, int>, source: K, dests: seq<K>,
                      funded: seq<K>, notFunded: seq<K>, toFund: seq<Payment<K>>, payments: seq<Payment<K>>,
                      amount: nat, fee: nat)
    requires |notFunded| <= |dests| && PaidOnce(source, dests, funded, |notFunded|, payments)
    requires Booked(start, now, source, payments, fee) && Planned(toFund, funded, notFunded, amount)
    requires after == PayAll(now, toFund, fee) && Covered(now, toFund, fee)
    ensures Booked(start, after, source, payments + toFund, fee)
  {
    hide PayAll, Covered, PayeesOf, PaidBeforePaying, Distinct;
    PayAllAppend(start, payments, toFund, fee);
    CoveredAppend(start, payments, toFund, fee);
    forall i | 0 <= i < |toFund|
      ensures toFund[i].payer == source || toFund[i].payer in PayeesOf(payments)
    {
      assert toFund[i].payer == funded[i] && funded[i] in funded;
    }
    PaidBeforeAppend(source, payments, toFund);
  }

  lemma PaidOnceMore<K>(source: K, dests: seq<K>, funded: seq<K>, notFunded: seq<K>, toFund: seq<Payment<K>>,
                        payments: seq<Payment<K>>, amount: nat)
    requires |notFunded| <= |dests| && notFunded == dests[..|notFunded|]
    requires PaidOnce(source, dests, funded, |notFunded|, payments)
    requires Planned(toFund, funded, notFunded, amount) && Distinct(funded)
    requires forall k :: k in funded ==> k !in notFunded
    requires forall k :: k in PayeesOf(toFund) ==> k in notFunded
    requires multiset(dests[|notFunded| - 4 * |funded|..]) ==
             multiset(PayeesOf(toFund)) + multiset(dests[|notFunded|..])
    ensures PaidOnce(source, dests, PayeesOf(toFund), |notFunded| - 4 * |funded|, payments + toFund)
  {
    hide PayeesOf, Distinct;
    var all, left := payments + toFund, |notFunded| - 4 * |funded|;
    PayeesAppend(payments, toFund);
    assert PayersOf(all) == PayersOf(payments) + funded;
    DistinctAppend(PayersOf(payments), funded);
    assert forall k :: k in dests[..left] ==> k in notFunded by { assert dests[..left] == notFunded[..left]; }
  }

  lemma LevelSize(funders: nat, n: nat)
    requires n > 0
    ensures Payers(n) >= 1 && (n == 1 ==> Payers(n) == 1)
    ensures 4 * funders <= funders * (4 * Payers(n))
    ensures funders * (4 * Payers(n)) - 4 * funders == (4 * funders) * (4 * Payers(n - 1))
  {
    var p := Payers(n - 1);
    assert funders * (4 * (1 + 4 * p)) == 4 * funders + (4 * funders) * (4 * p);
  }

  /** The balance of the source when funding starts: topped up by an airdrop if it is short. */
  function ToppedUp(balance: int, total: nat, rent: nat): int {
    if balance < total + rent then total + rent else balance
  }

  /** What funding does to the balances: everybody in `keys` gets the share, the source pays the rest of the total. */
  ghost predicate Funded<K>(before: map<K, int>, after: map<K, int>, source: K, keys: seq<K>, share: nat, total: nat,
                            rent: nat) {
    && after.Keys == before.Keys && source in before
    && (forall k :: k in keys ==> k in before && after[k] == before[k] + share)
    && after[source] == (if before[source] < total + rent then rent + share else before[source] - total + share)
    && (forall k :: k in before && k != source && k !in keys ==> after[k] == before[k])
  }

  /**
   * Funds a full tree of accounts unless the first and the last of them still have enough,
   * with an airdrop if the source is short. Otherwise nothing moves.
   */
  method FundKeypairs<K>(source: K, keys: seq<K>, extra: nat, share: nat, maxFee: nat, rent: nat,
                         balances: map<K, int>, ghost levels: nat) returns (after: map<K, int>)
    requires Distinct(keys) && source !in keys && source in balances
    requires forall k :: k in keys ==> k in balances && balances[k] >= 0
    requires |keys| == 4 * Payers(levels) && extra == Payers(levels) && keys != []
    ensures var enough := 8 * share / 10;
            if balances[keys[0]] < enough || balances[keys[|keys| - 1]] < enough then
              var total := share * (|keys| + 1) + extra * maxFee;
              && Funded(balances, after, source, keys, share, total, rent)
              && (balances[source] < total + rent ==> after[source] == rent + share)
              && (balances[source] >= total + rent ==> after[source] == balances[source] - total + share)
            else after == balances
  {
    hide Payers, Distinct, PayAll, Booked, PaidBeforePaying;
    var enough := 8 * share / 10;
    after := balances;
    if balances[keys[0]] < enough || balances[keys[|keys| - 1]] < enough {
      var total := Total(share, |keys|, extra, maxFee);
      after := after[source := ToppedUp(after[source], total, rent)];
      var payments;
      after, payments := FundKeys(source, keys, total, maxFee, share, after, levels);
    }
  }

  /**
   * Generating accounts and funding them. The three computations agree, whatever the
   * number of accounts asked for: when funding is needed, every account generated, asked
   * for or not, gets exactly its share, rent included, on top of what it had.
   */
  method GenerateAndFund<K>(source: K, key: nat -> K, count: nat, lamportsPerAccount: nat, maxFee: nat, rent: nat,
                            balances: map<K, int>)
    returns (keys: seq<K>, after: map<K, int>, all: seq<K>, ghost levels: nat)
    requires count > 0
    requires (forall i: nat, j: nat :: i != j ==> key(i) != key(j)) && (forall i: nat :: key(i) != source)
    requires source in balances && forall i: nat :: i < 4 * count ==> key(i) in balances && balances[key(i)] >= 0
    ensures keys <= all && |keys| == count && forall i :: 0 <= i < |all| ==> all[i] == key(i) && key(i) in balances
    ensures |all| == 4 * Payers(levels) && (levels > 0 ==> 4 * Payers(levels - 1) < count)
    ensures var share := lamportsPerAccount + rent;
            var enough := 8 * share / 10;
            if balances[key(0)] < enough || balances[key(|all| - 1)] < enough then
              Funded(balances, after, source, all, share, share * (|all| + 1) + Payers(levels) * maxFee, rent)
            else after == balances
  {
    var totalKeys, extra, depth := GenerateKeypairs(count);
    levels := depth;
    TreeSize(levels, count);
    hide Payers, Total, Funded;
    all := seq(totalKeys, i requires 0 <= i < totalKeys => key(i));
    after := FundKeypairs(source, all, extra, lamportsPerAccount + rent, maxFee, rent, balances, levels);
    keys := all[..count];
  }

  /** Fewer than four times as many accounts are generated as were asked for, and at least one. */
  lemma TreeSize(levels: nat, count: nat)
    requires count > 0 && 4 * Payers(levels) >= count && (levels > 0 ==> 4 * Payers(levels - 1) < count)
    ensures 0 < 4 * Payers(levels) <= 4 * count
  {
  }
}
