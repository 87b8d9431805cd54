// Balances: per roster participant, what they paid, what they owe and the
// difference, all in whole units of the base currency.
module Balances {
  import opened Tables

  /** A keyed amount: one row of a table about to be grouped by name and summed. */
  datatype Entry = Entry(key: string, amount: int)

  /** The Payer / Amount_Base column pair of the converted expenses. */
  function PayerEntries(expenses: seq<ConvertedExpense>): (es: seq<Entry>)
    ensures |es| == |expenses|
    ensures forall i :: 0 <= i < |es| ==> es[i] == Entry(expenses[i].expense.payer, expenses[i].amountBase)
  {
    seq(|expenses|, i requires 0 <= i < |expenses| => Entry(expenses[i].expense.payer, expenses[i].amountBase))
  }

  /** The Participant / Share_Base column pair of the allocations. */
  function ShareEntries(allocs: seq<Allocation>): (es: seq<Entry>)
    ensures |es| == |allocs|
    ensures forall i :: 0 <= i < |es| ==> es[i] == Entry(allocs[i].participant, allocs[i].shareBase)
  {
    seq(|allocs|, i requires 0 <= i < |allocs| => Entry(allocs[i].participant, allocs[i].shareBase))
  }

  /** The group-by sum for one key; 0 when the key has no rows (the fill of a missing group). */
  function SumFor(es: seq<Entry>, key: string): int
  {
    if |es| == 0 then 0
    else (if es[0].key == key then es[0].amount else 0) + SumFor(es[1..], key)
  }

  /** The sum of every amount, whatever its key. */
  function Total(es: seq<Entry>): int
  {
    if |es| == 0 then 0 else es[0].amount + Total(es[1..])
  }

  /** The group-by sums of a list of keys, added up. */
  function SumOverNames(es: seq<Entry>, names: seq<string>): int
  {
    if |names| == 0 then 0 else SumFor(es, names[0]) + SumOverNames(es, names[1..])
  }

  function Names(participants: seq<Participant>): (names: seq<string>)
    ensures |names| == |participants|
    ensures forall i :: 0 <= i < |names| ==> names[i] == participants[i].name
  {
    seq(|participants|, i requires 0 <= i < |participants| => participants[i].name)
  }

  /** The balance row of one roster name. */
  function BalanceOf(expenses: seq<ConvertedExpense>, allocs: seq<Allocation>, name: string): (b: Balance)
    ensures b.participant == name
    ensures b.netBase == b.paidBase - b.owedBase
  {
    var paid := SumFor(PayerEntries(expenses), name);
    var owed := SumFor(ShareEntries(allocs), name);
    Balance(name, paid, owed, paid - owed)
  }

  /**
   * The balances table: one row per roster row, in roster order; the paid and
   * owed sums are joined on the name, so payers and participants that are not
   * on the roster contribute to no row.
   */
  function ComputeBalances(expenses: seq<ConvertedExpense>, allocs: seq<Allocation>, participants: seq<Participant>): (r: seq<Balance>)
    ensures |r| == |participants|
    ensures forall i :: 0 <= i < |r| ==> r[i].participant == participants[i].name
    ensures forall i :: 0 <= i < |r| ==> r[i].paidBase == SumFor(PayerEntries(expenses), participants[i].name)
    ensures forall i :: 0 <= i < |r| ==> r[i].owedBase == SumFor(ShareEntries(allocs), participants[i].name)
    ensures forall i :: 0 <= i < |r| ==> r[i].netBase == r[i].paidBase - r[i].owedBase
  {
    seq(|participants|, i requires 0 <= i < |participants| => BalanceOf(expenses, allocs, participants[i].name))
  }

  /** The sum of the Net_Base column. */
  function NetTotal(bs: seq<Balance>): int
  {
    if |bs| == 0 then 0 else bs[0].netBase + NetTotal(bs[1..])
  }

  // ---------------------------------------------------------------------
  // Group-by sums
  // ---------------------------------------------------------------------

  /** A key with no rows sums to 0. */
  lemma {:induction false} SumForWithoutKey(es: seq<Entry>, key: string)
    requires forall i :: 0 <= i < |es| ==> es[i].key != key
    ensures SumFor(es, key) == 0
  {
    if |es| > 0 {
      SumForWithoutKey(es[1..], key);
    }
  }

  /** Putting one more row in front adds its amount to its own key's sum and to no other. */
  lemma SumForCons(e: Entry, es: seq<Entry>, key: string)
    ensures SumFor([e] + es, key) == (if e.key == key then e.amount else 0) + SumFor(es, key)
  {
    assert ([e] + es)[0] == e;
    assert ([e] + es)[1..] == es;
  }

  lemma {:induction false} SumOverNamesCons(e: Entry, es: seq<Entry>, names: seq<string>)
    requires Distinct(names)
    ensures SumOverNames([e] + es, names) == (if e.key in names then e.amount else 0) + SumOverNames(es, names)
  {
    if |names| > 0 {
      assert Distinct(names[1..]) by {
        forall i, j | 0 <= i < j < |names[1..]| ensures names[1..][i] != names[1..][j] {
          assert names[1..][i] == names[i + 1] && names[1..][j] == names[j + 1];
        }
      }
      SumOverNamesCons(e, es, names[1..]);
      SumForCons(e, es, names[0]);
      if e.key == names[0] {
        assert e.key !in names[1..] by {
          forall j | 0 <= j < |names[1..]| ensures names[1..][j] != e.key {
            assert names[1..][j] == names[j + 1];
          }
        }
      } else {
        assert (e.key in names) == (e.key in names[1..]) by {
          assert names == [names[0]] + names[1..];
        }
      }
    }
  }

  /**
   * When the names are distinct and every row's key is one of them, summing
   * the groups of those names gives back the total: no row is lost or counted twice.
   */
  lemma {:induction false} GroupSumsAddUp(es: seq<Entry>, names: seq<string>)
    requires Distinct(names)
    requires forall i :: 0 <= i < |es| ==> es[i].key in names
    ensures SumOverNames(es, names) == Total(es)
  {
    if |es| > 0 {
      GroupSumsAddUp(es[1..], names);
      assert es == [es[0]] + es[1..];
      SumOverNamesCons(es[0], es[1..], names);
    } else {
      NoRowsSumToZero(es, names);
    }
  }

  lemma {:induction false} NoRowsSumToZero(es: seq<Entry>, names: seq<string>)
    requires |es| == 0
    ensures SumOverNames(es, names) == 0
  {
    if |names| > 0 {
      NoRowsSumToZero(es, names[1..]);
    }
  }

  // ---------------------------------------------------------------------
  // Properties of the balances table
  // ---------------------------------------------------------------------

  /** A roster name that paid nothing and was allocated nothing has an all-zero row. */
  lemma NoActivityMeansZero(expenses: seq<ConvertedExpense>, allocs: seq<Allocation>, participants: seq<Participant>, i: int)
    requires 0 <= i < |participants|
    requires forall k :: 0 <= k < |expenses| ==> expenses[k].expense.payer != participants[i].name
    requires forall k :: 0 <= k < |allocs| ==> allocs[k].participant != participants[i].name
    ensures ComputeBalances(expenses, allocs, participants)[i] == Balance(participants[i].name, 0, 0, 0)
  {
    SumForWithoutKey(PayerEntries(expenses), participants[i].name);
    SumForWithoutKey(ShareEntries(allocs), participants[i].name);
  }

  /** An expense whose payer is not on the roster changes no row of the balances. */
  lemma OffRosterPayerDropped(x: ConvertedExpense, expenses: seq<ConvertedExpense>, allocs: seq<Allocation>, participants: seq<Participant>)
    requires forall i :: 0 <= i < |participants| ==> participants[i].name != x.expense.payer
    ensures ComputeBalances([x] + expenses, allocs, participants) == ComputeBalances(expenses, allocs, participants)
  {
    assert PayerEntries([x] + expenses) == [Entry(x.expense.payer, x.amountBase)] + PayerEntries(expenses);
    forall i | 0 <= i < |participants|
      ensures ComputeBalances([x] + expenses, allocs, participants)[i] == ComputeBalances(expenses, allocs, participants)[i]
    {
      SumForCons(Entry(x.expense.payer, x.amountBase), PayerEntries(expenses), participants[i].name);
    }
  }

  /** An allocation to a name that is not on the roster changes no row of the balances. */
  lemma OffRosterShareDropped(y: Allocation, expenses: seq<ConvertedExpense>, allocs: seq<Allocation>, participants: seq<Participant>)
    requires forall i :: 0 <= i < |participants| ==> participants[i].name != y.participant
    ensures ComputeBalances(expenses, [y] + allocs, participants) == ComputeBalances(expenses, allocs, participants)
  {
    assert ShareEntries([y] + allocs) == [Entry(y.participant, y.shareBase)] + ShareEntries(allocs);
    forall i | 0 <= i < |participants|
      ensures ComputeBalances(expenses, [y] + allocs, participants)[i] == ComputeBalances(expenses, allocs, participants)[i]
    {
      SumForCons(Entry(y.participant, y.shareBase), ShareEntries(allocs), participants[i].name);
    }
  }

  lemma {:induction false} NetTotalIsDifference(expenses: seq<ConvertedExpense>, allocs: seq<Allocation>, participants: seq<Participant>)
    ensures NetTotal(ComputeBalances(expenses, allocs, participants))
      == SumOverNames(PayerEntries(expenses), Names(participants)) - SumOverNames(ShareEntries(allocs), Names(participants))
  {
    if |participants| > 0 {
      NetTotalIsDifference(expenses, allocs, participants[1..]);
      assert ComputeBalances(expenses, allocs, participants)[1..] == ComputeBalances(expenses, allocs, participants[1..]);
      assert Names(participants)[1..] == Names(participants[1..]);
    }
  }

  /**
   * Conservation: when the roster names are distinct and every payer and every
   * allocated participant is on the roster, the Net_Base column adds up to
   * everything paid minus everything allocated.
   */
  lemma NetSumConservation(expenses: seq<ConvertedExpense>, allocs: seq<Allocation>, participants: seq<Participant>)
    requires Distinct(Names(participants))
    requires forall k :: 0 <= k < |expenses| ==> expenses[k].expense.payer in Names(participants)
    requires forall k :: 0 <= k < |allocs| ==> allocs[k].participant in Names(participants)
    ensures NetTotal(ComputeBalances(expenses, allocs, participants))
      == Total(PayerEntries(expenses)) - Total(ShareEntries(allocs))
  {
    NetTotalIsDifference(expenses, allocs, participants);
    GroupSumsAddUp(PayerEntries(expenses), Names(participants));
    GroupSumsAddUp(ShareEntries(allocs), Names(participants));
  }
}
