// Small worked cases of the pipeline, each checked against the definitions.
module Scenarios {
  import opened Wrappers
  import opened Tables
  import opened Fx
  import opened Allocations
  import opened Balances
  import opened Settlement

  const Usd10: RateRow := RateRow(10, "USD", 25000.0)
  const Usd20: RateRow := RateRow(20, "USD", 26000.0)
  const Cny30: RateRow := RateRow(30, "CNY", 3500.0)

  /** A USD rate is taken from the latest row on or before the date, and missing before the first row. */
  lemma RateLookupCases()
    ensures GetRateOnOrBefore([Usd10, Usd20, Cny30], 15, "USD", "VND") == Success(25000.0)
    ensures GetRateOnOrBefore([Usd10, Usd20, Cny30], 20, "USD", "VND") == Success(26000.0)
    ensures GetRateOnOrBefore([Usd10, Usd20, Cny30], 5, "USD", "VND") == Failure(RateNotFound("USD", 5))
    ensures GetRateOnOrBefore([], 5, "VND", "VND") == Success(1.0)
  {
    var rates := [Usd10, Usd20, Cny30];
    assert rates[..2] == [Usd10, Usd20] && rates[..2][..1] == [Usd10] && rates[..2][..1][..0] == [];
    assert LatestApplicable([Usd10], "USD", 15) == Some(0);
    assert LatestApplicable([Usd10, Usd20], "USD", 15) == Some(0);
    assert LatestApplicable(rates, "USD", 15) == Some(0);
    assert LatestApplicable([Usd10], "USD", 20) == Some(0);
    assert LatestApplicable([Usd10, Usd20], "USD", 20) == Some(1);
    assert LatestApplicable(rates, "USD", 20) == Some(1);
    assert !Applicable(rates[0], "USD", 5) && !Applicable(rates[1], "USD", 5) && !Applicable(rates[2], "USD", 5);
  }

  const EarlyLunch: Expense := Expense("E0", 5, "Lunch", "Food&Drinks", 12.0, "USD", "A", "")

  /** An expense dated before the first USD rate row stops the whole conversion. */
  lemma ConversionFailsBeforeFirstRate()
    ensures ConvertExpensesToBase([EarlyLunch], [Usd10, Usd20, Cny30], "VND") == Failure(RateNotFound("USD", 5))
  {
    RateLookupCases();
    assert ConvertRow(EarlyLunch, [Usd10, Usd20, Cny30], "VND") == Failure(RateNotFound("USD", 5));
  }

  const Dinner: Expense := Expense("E1", 1, "Dinner", "Food&Drinks", 100000.0, "VND", "A", "")
  const Pair: seq<Participant> := [Participant("A", 1.0, ""), Participant("B", 1.0, "")]
  const PairSplits: seq<Split> := [Split("E1", "A", Some(true), Blank), Split("E1", "B", Some(true), Blank)]

  lemma DinnerConverted()
    ensures ConvertExpensesToBase([Dinner], [], "VND") == Success([ConvertedExpense(Dinner, 100000)])
  {
    Rounding.RoundInteger(100000);
    assert Dinner.amount * 1.0 == 100000 as real;
    assert ConvertRow(Dinner, [], "VND") == Success(ConvertedExpense(Dinner, 100000));
    var r := ConvertExpensesToBase([Dinner], [], "VND");
    assert r.Success? && |r.value| == 1 && r.value[0] == ConvertedExpense(Dinner, 100000);
    assert r.value == [ConvertedExpense(Dinner, 100000)];
  }

  lemma DinnerWeights()
    ensures ResolveWeight(PairSplits[0], Pair) == 1.0 && ResolveWeight(PairSplits[1], Pair) == 1.0
    ensures WeightSum(PairSplits, Pair, "E1") == 2.0
    ensures AmountBaseOf([ConvertedExpense(Dinner, 100000)], "E1") == Some(100000)
    ensures PositiveIndices(PairSplits, Pair) == [0, 1]
  {
    ResolveWeightOrder(PairSplits[0], Pair);
    ResolveWeightOrder(PairSplits[1], Pair);
    var ws := UseWeights(PairSplits, Pair);
    assert ws == [1.0, 1.0];
    assert WeightSumFrom(PairSplits, ws, "E1", 2) == 0.0;
    assert WeightSumFrom(PairSplits, ws, "E1", 1) == 1.0;
    assert PositiveFrom(ws, 2) == [];
    assert PositiveFrom(ws, 1) == [1];
  }

  /** Two people share a 100 000 VND dinner equally: 50 000 each. */
  lemma DinnerForTwo()
    ensures ComputeAllocations([ConvertedExpense(Dinner, 100000)], PairSplits, Pair)
         == Success([Allocation("E1", "A", 50000), Allocation("E1", "B", 50000)])
  {
    var expenses := [ConvertedExpense(Dinner, 100000)];
    DinnerWeights();
    assert Proportion(100000, 1.0, 2.0) == 50000 as real;
    Rounding.RoundInteger(50000);
    assert ProportionalShare(100000, 1.0, 2.0) == 50000;
    assert ShareDefined(expenses, PairSplits, Pair, PairSplits[0]);
    assert ShareDefined(expenses, PairSplits, Pair, PairSplits[1]);
    var r := ComputeAllocations(expenses, PairSplits, Pair);
    assert r.Success?;
    assert |r.value| == 2;
    assert r.value[0] == Allocation("E1", "A", 50000);
    assert r.value[1] == Allocation("E1", "B", 50000);
    assert r.value == [Allocation("E1", "A", 50000), Allocation("E1", "B", 50000)];
  }

  const Dinners: seq<ConvertedExpense> := [ConvertedExpense(Dinner, 100000)]
  const Halves: seq<Allocation> := [Allocation("E1", "A", 50000), Allocation("E1", "B", 50000)]
  const PairBalances: seq<Balance> := [Balance("A", 100000, 50000, 50000), Balance("B", 0, 50000, -50000)]

  /** A paid the whole dinner and owes half; B paid nothing and owes half. */
  lemma DinnerBalances()
    ensures ComputeBalances(Dinners, Halves, Pair) == PairBalances
  {
    var pe := PayerEntries(Dinners);
    var se := ShareEntries(Halves);
    assert pe == [Entry("A", 100000)] && pe[1..] == [];
    assert se == [Entry("A", 50000), Entry("B", 50000)] && se[1..] == [Entry("B", 50000)] && se[1..][1..] == [];
    assert SumFor(pe, "A") == 100000 && SumFor(pe, "B") == 0;
    assert SumFor(se, "A") == 50000 && SumFor(se, "B") == 50000;
  }

  /** B pays A 50 000. */
  lemma DinnerSettlement()
    ensures Settle(PairBalances, 1) == [Transaction("B", "A", 50000)]
  {
    var bs := PairBalances;
    assert bs[1..] == [bs[1]] && bs[1..][1..] == [];
    assert Select(bs[1..], Debtor) == [bs[1]] && Select(bs[1..], Creditor) == [];
    assert Debtors(bs) == [bs[1]] && Creditors(bs) == [bs[0]];
    var s0 := State([-50000], [50000], 0, 0);
    assert Start(bs) == s0;
    assert Next(s0, 1) == State([0], [0], 1, 1);
    assert Greedy(["B"], ["A"], State([0], [0], 1, 1), 1) == [];
  }

  const X: Balance := Balance("X", 30, 0, 30)
  const Y: Balance := Balance("Y", 10, 0, 10)
  const Z: Balance := Balance("Z", 0, 40, -40)

  lemma ThreeWaySides()
    ensures Debtors([X, Y, Z]) == [Z] && Creditors([X, Y, Z]) == [X, Y]
  {
    var bs := [X, Y, Z];
    assert bs[1..] == [Y, Z] && bs[1..][1..] == [Z] && bs[1..][1..][1..] == [];
    assert Select(bs[1..][1..], Creditor) == [];
    assert Select(bs[1..], Creditor) == [Y];
    assert Select(bs, Creditor) == [X, Y];
    assert Select(bs[1..][1..], Debtor) == [Z];
    assert Select(bs[1..], Debtor) == [Z];
    assert Select(bs, Debtor) == [Z];
    SortedUnchanged([Z], Debtor);
    SortedUnchanged([X, Y], Creditor);
  }

  lemma ThreeWayStart()
    ensures Start([X, Y, Z]) == State([-40], [30, 10], 0, 0)
    ensures Parties(Debtors([X, Y, Z])) == ["Z"] && Parties(Creditors([X, Y, Z])) == ["X", "Y"]
  {
    ThreeWaySides();
  }

  /** One debtor of 40 pays two creditors of 30 and 10, the larger first. */
  lemma OneDebtorTwoCreditors()
    ensures Settle([X, Y, Z], 1) == [Transaction("Z", "X", 30), Transaction("Z", "Y", 10)]
  {
    ThreeWayStart();
    var dn, cn := ["Z"], ["X", "Y"];
    var s0 := State([-40], [30, 10], 0, 0);
    var s1 := State([-10], [0, 10], 0, 1);
    var s2 := State([0], [0, 0], 1, 2);
    assert PayStep(s0, 1) == State([-10], [0, 10], 0, 0);
    assert Next(s0, 1) == s1;
    assert PayStep(s1, 1) == State([0], [0, 0], 0, 1);
    assert Next(s1, 1) == s2;
    assert Greedy(dn, cn, s2, 1) == [];
    assert Greedy(dn, cn, s1, 1) == [Transaction("Z", "Y", 10)];
  }

  const D5: Balance := Balance("D", 0, 5, -5)
  const C3: Balance := Balance("C1", 3, 0, 3)
  const C1a: Balance := Balance("C2", 1, 0, 1)
  const C1b: Balance := Balance("C3", 1, 0, 1)

  lemma UnevenSelect()
    ensures Select([D5, C3, C1a, C1b], Debtor) == [D5]
    ensures Select([D5, C3, C1a, C1b], Creditor) == [C3, C1a, C1b]
  {
    var bs := [D5, C3, C1a, C1b];
    assert bs[1..] == [C3, C1a, C1b] && bs[1..][1..] == [C1a, C1b] && bs[1..][1..][1..] == [C1b];
    assert bs[1..][1..][1..][1..] == [];
    assert Select(bs[1..][1..][1..], Creditor) == [C1b];
    assert Select(bs[1..][1..], Creditor) == [C1a, C1b];
    assert Select(bs[1..], Creditor) == [C3, C1a, C1b];
    assert Select(bs[1..][1..][1..], Debtor) == [];
    assert Select(bs[1..][1..], Debtor) == [];
    assert Select(bs[1..], Debtor) == [];
  }

  lemma UnevenSort()
    ensures SortByKey([D5], Debtor) == [D5]
    ensures SortByKey([C3, C1a, C1b], Creditor) == [C3, C1a, C1b]
  {
    SortedUnchanged([D5], Debtor);
    SortedUnchanged([C3, C1a, C1b], Creditor);
  }

  lemma UnevenSides()
    ensures Debtors([D5, C3, C1a, C1b]) == [D5] && Creditors([D5, C3, C1a, C1b]) == [C3, C1a, C1b]
  {
    UnevenSelect();
    UnevenSort();
  }

  lemma UnevenNets()
    ensures Nets(Debtors([D5, C3, C1a, C1b])) == [-5] && Nets(Creditors([D5, C3, C1a, C1b])) == [3, 1, 1]
  {
    UnevenSides();
  }

  lemma UnevenStart()
    ensures Start([D5, C3, C1a, C1b]) == State([-5], [3, 1, 1], 0, 0)
    ensures Parties(Debtors([D5, C3, C1a, C1b])) == ["D"] && Parties(Creditors([D5, C3, C1a, C1b])) == ["C1", "C2", "C3"]
  {
    UnevenNets();
    UnevenSides();
  }

  /**
   * The loop can stop with a debtor still outside eps: a debt of 5 against
   * credits of 3, 1 and 1 with eps = 1 pays only the 3, leaving the debtor at -2.
   */
  lemma DebtorLeftOutsideEps()
    ensures Settle([D5, C3, C1a, C1b], 1) == [Transaction("D", "C1", 3)]
    ensures D5.netBase + OutOf(Settle([D5, C3, C1a, C1b], 1), "D") == -2
  {
    var bs := [D5, C3, C1a, C1b];
    UnevenStart();
    var dn, cn := ["D"], ["C1", "C2", "C3"];
    var s0 := State([-5], [3, 1, 1], 0, 0);
    var s1 := State([-2], [0, 1, 1], 0, 1);
    var s2 := State([-2], [0, 1, 1], 0, 2);
    var s3 := State([-2], [0, 1, 1], 0, 3);
    assert PayStep(s0, 1) == State([-2], [0, 1, 1], 0, 0);
    assert Next(s0, 1) == s1;
    assert Next(s1, 1) == s2;
    assert Next(s2, 1) == s3;
    assert Greedy(dn, cn, s3, 1) == [];
    assert Greedy(dn, cn, s2, 1) == [];
    assert Greedy(dn, cn, s1, 1) == [];
    var t := [Transaction("D", "C1", 3)];
    assert Greedy(dn, cn, s0, 1) == t;
    assert t[1..] == [];
  }
}
