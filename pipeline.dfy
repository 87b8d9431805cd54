// The balances table feeding the settlement: a roster with distinct names
// gives balance rows with distinct names, so the settlement guarantees apply.
module Pipeline {
  import opened Tables
  import Balances
  import Settlement

  lemma {:induction false} RosterNamesCarryOver(expenses: seq<ConvertedExpense>, allocs: seq<Allocation>, participants: seq<Participant>)
    requires Distinct(Balances.Names(participants))
    ensures Settlement.UniqueNames(Balances.ComputeBalances(expenses, allocs, participants))
  {
    var bs := Balances.ComputeBalances(expenses, allocs, participants);
    forall i, j | 0 <= i < j < |bs| ensures bs[i].participant != bs[j].participant {
      assert bs[i].participant == Balances.Names(participants)[i];
      assert bs[j].participant == Balances.Names(participants)[j];
    }
  }

  /**
   * End to end: with distinct roster names, each roster participant pays in
   * the settlement at most what its balance says it owes, and receives at
   * most what its balance says it is owed.
   */
  lemma SettlementWithinBalances(expenses: seq<ConvertedExpense>, allocs: seq<Allocation>, participants: seq<Participant>, eps: int, k: int)
    requires eps >= 0 && 0 <= k < |participants|
    requires Distinct(Balances.Names(participants))
    ensures var b := Balances.ComputeBalances(expenses, allocs, participants)[k];
      var s := Settlement.Settle(Balances.ComputeBalances(expenses, allocs, participants), eps);
      && 0 <= Settlement.OutOf(s, participants[k].name) <= (if b.netBase < 0 then -b.netBase else 0)
      && 0 <= Settlement.InTo(s, participants[k].name) <= (if b.netBase > 0 then b.netBase else 0)
  {
    RosterNamesCarryOver(expenses, allocs, participants);
    Settlement.SettlementRespectsBalances(Balances.ComputeBalances(expenses, allocs, participants), eps, k);
  }
}
