/**
 * Allocation: the normalisation of the splits table's Included column, the
 * weight each split row resolves to, and each expense's base amount shared
 * out over its split rows in proportion to their weights.
 */
module Allocations {
  import opened Wrappers
  import opened Tables
  import opened Rounding

  /** ASCII upper-casing of one character. */
  function UpperChar(c: char): char
  {
    if 'a' <= c <= 'z' then (c as int - 32) as char else c
  }

  function Upper(s: string): (u: string)
    ensures |u| == |s| && forall k :: 0 <= k < |s| ==> u[k] == UpperChar(s[k])
  {
    seq(|s|, k requires 0 <= k < |s| => UpperChar(s[k]))
  }

  /**
   * Upper-casing leaves no ASCII lower-case letter, keeps every other
   * character, maps each lower-case letter to its capital, and is idempotent.
   */
  lemma UpperCanonical(s: string)
    ensures forall k :: 0 <= k < |s| ==> !('a' <= Upper(s)[k] <= 'z')
    ensures forall k :: 0 <= k < |s| && !('a' <= s[k] <= 'z') ==> Upper(s)[k] == s[k]
    ensures forall k :: 0 <= k < |s| && 'a' <= s[k] <= 'z' ==> 'A' <= Upper(s)[k] <= 'Z' && Upper(s)[k] as int == s[k] as int - 32
    ensures Upper(Upper(s)) == Upper(s)
  {
    var u := Upper(s);
    forall k | 0 <= k < |s| ensures UpperChar(u[k]) == u[k] {
      assert u[k] == UpperChar(s[k]);
    }
  }

  /**
   * The Included cell as a boolean, compared case-insensitively: "TRUE" in
   * any case is true, "FALSE" in any case is false, anything else is missing.
   */
  function NormalizeIncluded(cell: string): (r: Option<bool>)
    ensures r == Some(true) <==>
      |cell| == 4 && cell[0] in "tT" && cell[1] in "rR" && cell[2] in "uU" && cell[3] in "eE"
    ensures r == Some(false) <==>
      |cell| == 5 && cell[0] in "fF" && cell[1] in "aA" && cell[2] in "lL" && cell[3] in "sS" && cell[4] in "eE"
  {
    var u := Upper(cell);
    if u == "TRUE" then Some(true)
    else if u == "FALSE" then Some(false)
    else None
  }

  /**
   * The DefaultWeight of `name` among the first `n` roster rows; when a name
   * is repeated the last row wins, as when the roster is turned into a dictionary.
   */
  function DefaultWeightIn(participants: seq<Participant>, name: string, n: nat): (r: Option<real>)
    requires n <= |participants|
    ensures r.None? <==> forall k :: 0 <= k < n ==> participants[k].name != name
    ensures r.Some? ==> exists k ::
      && 0 <= k < n && participants[k].name == name && participants[k].defaultWeight == r.value
      && forall k' :: k < k' < n ==> participants[k'].name != name
  {
    if n == 0 then None
    else if participants[n - 1].name == name then Some(participants[n - 1].defaultWeight)
    else DefaultWeightIn(participants, name, n - 1)
  }

  function DefaultWeightOf(participants: seq<Participant>, name: string): Option<real>
  {
    DefaultWeightIn(participants, name, |participants|)
  }

  /** An override is used when it is a number other than 0; 0 and blank fall back. */
  predicate OverrideApplies(cell: OverrideCell)
  {
    cell.Number? && cell.value != 0.0
  }

  /** The weight a split row carries: excluded, then override, then default weight, then 1. */
  function ResolveWeight(split: Split, participants: seq<Participant>): real
  {
    if split.included == Some(false) then 0.0
    else if OverrideApplies(split.weightOverride) then split.weightOverride.value
    else match DefaultWeightOf(participants, split.participant)
      case Some(w) => w
      case None => 1.0
  }

  /** The resolution order of a split row's weight, stated against the roster. */
  lemma ResolveWeightOrder(split: Split, participants: seq<Participant>)
    ensures split.included == Some(false) ==> ResolveWeight(split, participants) == 0.0
    ensures split.included != Some(false) && OverrideApplies(split.weightOverride) ==>
      ResolveWeight(split, participants) == split.weightOverride.value
    ensures
      (&& split.included != Some(false) && !OverrideApplies(split.weightOverride)
       && forall k :: 0 <= k < |participants| ==> participants[k].name != split.participant)
      ==> ResolveWeight(split, participants) == 1.0
    ensures forall k ::
      (&& 0 <= k < |participants| && participants[k].name == split.participant
       && (forall k' :: k < k' < |participants| ==> participants[k'].name != split.participant)
       && split.included != Some(false) && !OverrideApplies(split.weightOverride))
      ==> ResolveWeight(split, participants) == participants[k].defaultWeight
  {
    var d := DefaultWeightOf(participants, split.participant);
    if d.Some? {
      var k0 :| 0 <= k0 < |participants| && participants[k0].name == split.participant &&
        participants[k0].defaultWeight == d.value &&
        forall k' :: k0 < k' < |participants| ==> participants[k'].name != split.participant;
      assert forall k ::
        (&& 0 <= k < |participants| && participants[k].name == split.participant
         && forall k' :: k < k' < |participants| ==> participants[k'].name != split.participant)
        ==> k == k0;
    }
  }

  /** With non-negative default weights and overrides, every resolved weight is non-negative. */
  lemma ResolvedWeightNonNegative(split: Split, participants: seq<Participant>)
    requires forall k :: 0 <= k < |participants| ==> participants[k].defaultWeight >= 0.0
    requires split.weightOverride.Number? ==> split.weightOverride.value >= 0.0
    ensures ResolveWeight(split, participants) >= 0.0
  {
    var d := DefaultWeightOf(participants, split.participant);
    if d.Some? {
      var k0 :| 0 <= k0 < |participants| && participants[k0].name == split.participant &&
        participants[k0].defaultWeight == d.value;
    }
  }

  /** The Amount_Base of the first expense row with id `expId`. */
  function AmountBaseFrom(expenses: seq<ConvertedExpense>, expId: string, k: nat): (r: Option<int>)
    requires k <= |expenses|
    ensures r.None? <==> forall m :: k <= m < |expenses| ==> expenses[m].expense.expId != expId
    ensures r.Some? ==> exists m ::
      && k <= m < |expenses| && expenses[m].expense.expId == expId && expenses[m].amountBase == r.value
      && forall m' :: k <= m' < m ==> expenses[m'].expense.expId != expId
    decreases |expenses| - k
  {
    if k == |expenses| then None
    else if expenses[k].expense.expId == expId then Some(expenses[k].amountBase)
    else AmountBaseFrom(expenses, expId, k + 1)
  }

  function AmountBaseOf(expenses: seq<ConvertedExpense>, expId: string): Option<int>
  {
    AmountBaseFrom(expenses, expId, 0)
  }

  /** The UseWeight column: the resolved weight of every split row. */
  function UseWeights(splits: seq<Split>, participants: seq<Participant>): (ws: seq<real>)
    ensures |ws| == |splits| && forall k :: 0 <= k < |splits| ==> ws[k] == ResolveWeight(splits[k], participants)
  {
    seq(|splits|, k requires 0 <= k < |splits| => ResolveWeight(splits[k], participants))
  }

  /** The sum of the weights `ws` of the split rows from `k` on that belong to `expId`. */
  function WeightSumFrom(splits: seq<Split>, ws: seq<real>, expId: string, k: nat): real
    requires |ws| == |splits| && k <= |splits|
    decreases |splits| - k
  {
    if k == |splits| then 0.0
    else
      var own := if splits[k].expId == expId then ws[k] else 0.0;
      own + WeightSumFrom(splits, ws, expId, k + 1)
  }

  /** The weight sum of an expense, over all of its split rows. */
  function WeightSum(splits: seq<Split>, participants: seq<Participant>, expId: string): real
  {
    WeightSumFrom(splits, UseWeights(splits, participants), expId, 0)
  }

  /**
   * A split row of the working table, with the columns the allocation adds:
   * its UseWeight, the Amount_Base joined from its expense (None when no
   * expense has its ExpID), and the weight sum of its ExpID.
   */
  datatype Row = Row(split: Split, useWeight: real, amountBase: Option<int>, weightSum: real)

  function WithColumns(expenses: seq<ConvertedExpense>, splits: seq<Split>, participants: seq<Participant>): (rows: seq<Row>)
    ensures |rows| == |splits|
    ensures forall k :: 0 <= k < |splits| ==>
      rows[k] == Row(splits[k], ResolveWeight(splits[k], participants),
                     AmountBaseOf(expenses, splits[k].expId), WeightSum(splits, participants, splits[k].expId))
  {
    var ws := UseWeights(splits, participants);
    seq(|splits|, k requires 0 <= k < |splits| =>
      Row(splits[k], ws[k], AmountBaseOf(expenses, splits[k].expId), WeightSumFrom(splits, ws, splits[k].expId, 0)))
  }

  /**
   * A row's share is a finite number exactly when its expense exists and the
   * expense's weight sum is not 0; otherwise it is NaN or infinite.
   */
  predicate Finite(row: Row)
  {
    row.amountBase.Some? && row.weightSum != 0.0
  }

  /** The exact part of `amount` in proportion weight : weightSum. */
  function Proportion(amount: int, weight: real, weightSum: real): real
    requires weightSum != 0.0
  {
    amount as real * weight / weightSum
  }

  /** An amount shared in proportion weight : weightSum, rounded to a whole unit. */
  function ProportionalShare(amount: int, weight: real, weightSum: real): int
    requires weightSum != 0.0
  {
    Round(Proportion(amount, weight, weightSum))
  }

  /** Share_Base of a row: the expense's base amount times weight over weight sum, rounded. */
  function ShareBase(row: Row): int
    requires Finite(row)
  {
    ProportionalShare(row.amountBase.value, row.useWeight, row.weightSum)
  }

  /** A split row's share is finite: its expense exists and the expense's weight sum is not 0. */
  predicate ShareDefined(expenses: seq<ConvertedExpense>, splits: seq<Split>, participants: seq<Participant>, s: Split)
  {
    AmountBaseOf(expenses, s.expId).Some? && WeightSum(splits, participants, s.expId) != 0.0
  }

  /** The indices, from `k` on and in increasing order, of exactly the positive weights. */
  function PositiveFrom(ws: seq<real>, k: nat): (idx: seq<nat>)
    requires k <= |ws|
    ensures forall t :: 0 <= t < |idx| ==> k <= idx[t] < |ws| && ws[idx[t]] > 0.0
    ensures forall t, u :: 0 <= t < u < |idx| ==> idx[t] < idx[u]
    ensures forall m :: k <= m < |ws| && ws[m] > 0.0 ==> m in idx
    decreases |ws| - k
  {
    if k == |ws| then []
    else if ws[k] > 0.0 then [k] + PositiveFrom(ws, k + 1)
    else PositiveFrom(ws, k + 1)
  }

  /** The split rows kept in the allocations table: exactly those with positive weight, in split order. */
  function PositiveIndices(splits: seq<Split>, participants: seq<Participant>): (idx: seq<nat>)
    ensures forall t :: 0 <= t < |idx| ==> idx[t] < |splits| && ResolveWeight(splits[idx[t]], participants) > 0.0
    ensures forall t, u :: 0 <= t < u < |idx| ==> idx[t] < idx[u]
    ensures forall m :: 0 <= m < |splits| && ResolveWeight(splits[m], participants) > 0.0 ==> m in idx
  {
    PositiveFrom(UseWeights(splits, participants), 0)
  }

  /** The allocation rows of the working rows from `k` on. */
  function AllocFrom(rows: seq<Row>, k: nat): seq<Allocation>
    requires k <= |rows|
    requires forall m :: k <= m < |rows| ==> Finite(rows[m])
    decreases |rows| - k
  {
    if k == |rows| then []
    else
      var rest := AllocFrom(rows, k + 1);
      if rows[k].useWeight > 0.0
      then [Allocation(rows[k].split.expId, rows[k].split.participant, ShareBase(rows[k]))] + rest
      else rest
  }

  /** The allocation rows from `k` on are those of the positive-weight rows, in order. */
  lemma {:induction false} AllocFromFollowsIndices(rows: seq<Row>, ws: seq<real>, k: nat)
    requires |ws| == |rows| && k <= |rows|
    requires forall m :: 0 <= m < |rows| ==> rows[m].useWeight == ws[m] && Finite(rows[m])
    ensures |AllocFrom(rows, k)| == |PositiveFrom(ws, k)|
    ensures forall t :: 0 <= t < |AllocFrom(rows, k)| ==>
      var row := rows[PositiveFrom(ws, k)[t]];
      AllocFrom(rows, k)[t] == Allocation(row.split.expId, row.split.participant, ShareBase(row))
    decreases |rows| - k
  {
    if k < |rows| {
      AllocFromFollowsIndices(rows, ws, k + 1);
      var rest := AllocFrom(rows, k + 1);
      var idx := PositiveFrom(ws, k + 1);
      if ws[k] > 0.0 {
        var head := Allocation(rows[k].split.expId, rows[k].split.participant, ShareBase(rows[k]));
        assert AllocFrom(rows, k) == [head] + rest;
        assert PositiveFrom(ws, k) == [k] + idx;
        forall t | 0 < t < |rest| + 1
          ensures var row := rows[([k] + idx)[t]];
            ([head] + rest)[t] == Allocation(row.split.expId, row.split.participant, ShareBase(row))
        {
          assert ([head] + rest)[t] == rest[t - 1];
          assert ([k] + idx)[t] == idx[t - 1];
        }
      }
    }
  }

  /**
   * The allocations table: one row (ExpID, Participant, Share_Base) per split
   * row with positive weight, in split order, its share being the expense's
   * Amount_Base times weight over the expense's weight sum, rounded. Fails
   * when any split row's share is not finite.
   */
  function ComputeAllocations(expenses: seq<ConvertedExpense>, splits: seq<Split>, participants: seq<Participant>): (r: Result<seq<Allocation>, Error>)
    ensures r.Failure? <==> exists m :: 0 <= m < |splits| && !ShareDefined(expenses, splits, participants, splits[m])
    ensures r.Failure? ==> r.error == NonFiniteShare
    ensures r.Success? ==> |r.value| == |PositiveIndices(splits, participants)|
    ensures r.Success? ==> forall t :: 0 <= t < |r.value| ==>
      var s := splits[PositiveIndices(splits, participants)[t]];
      && r.value[t].expId == s.expId
      && r.value[t].participant == s.participant
      && r.value[t].shareBase ==
         ProportionalShare(AmountBaseOf(expenses, s.expId).value, ResolveWeight(s, participants), WeightSum(splits, participants, s.expId))
  {
    var rows := WithColumns(expenses, splits, participants);
    if forall m :: 0 <= m < |rows| ==> Finite(rows[m]) then
      AllocFromFollowsIndices(rows, UseWeights(splits, participants), 0);
      Success(AllocFrom(rows, 0))
    else
      assert exists m :: 0 <= m < |rows| && !Finite(rows[m]);
      Failure(NonFiniteShare)
  }

  /** The sum of the shares of `expId` in an allocations table. */
  function ShareSum(allocs: seq<Allocation>, expId: string): int
  {
    if |allocs| == 0 then 0
    else (if allocs[0].expId == expId then allocs[0].shareBase else 0) + ShareSum(allocs[1..], expId)
  }

  /** The number of allocation rows of `expId`. */
  function AllocCount(allocs: seq<Allocation>, expId: string): nat
  {
    if |allocs| == 0 then 0
    else (if allocs[0].expId == expId then 1 else 0) + AllocCount(allocs[1..], expId)
  }

  lemma ProportionAdds(a: int, w: real, rest: real, total: real)
    requires total != 0.0
    ensures Proportion(a, w + rest, total) == Proportion(a, w, total) + Proportion(a, rest, total)
  {
  }

  lemma ProportionOfNothing(a: int, total: real)
    requires total != 0.0
    ensures Proportion(a, 0.0, total) == 0.0
  {
  }

  lemma ProportionOfWhole(a: int, total: real)
    requires total != 0.0
    ensures Proportion(a, total, total) == a as real
  {
  }

  /** The sum of the UseWeight of the working rows from `k` on that belong to `expId`. */
  function RowWeightFrom(rows: seq<Row>, expId: string, k: nat): real
    requires k <= |rows|
    decreases |rows| - k
  {
    if k == |rows| then 0.0
    else
      var own := if rows[k].split.expId == expId then rows[k].useWeight else 0.0;
      own + RowWeightFrom(rows, expId, k + 1)
  }

  lemma {:induction false} RowWeightIsWeightSum(rows: seq<Row>, splits: seq<Split>, ws: seq<real>, expId: string, k: nat)
    requires |rows| == |splits| == |ws| && k <= |rows|
    requires forall m :: 0 <= m < |rows| ==> rows[m].split == splits[m] && rows[m].useWeight == ws[m]
    ensures RowWeightFrom(rows, expId, k) == WeightSumFrom(splits, ws, expId, k)
    decreases |rows| - k
  {
    if k < |rows| {
      RowWeightIsWeightSum(rows, splits, ws, expId, k + 1);
    }
  }

  /**
   * From row `k` on, the shares of `expId` add up to within half a unit per
   * allocation row of the exact proportional amount of the weights seen.
   */
  lemma {:induction false} SharesNearExactFrom(rows: seq<Row>, expId: string, a: int, total: real, k: nat)
    requires k <= |rows| && total != 0.0
    requires forall m :: 0 <= m < |rows| ==> Finite(rows[m])
    requires forall m :: k <= m < |rows| && rows[m].split.expId == expId ==> rows[m].useWeight >= 0.0
    requires forall m :: 0 <= m < |rows| && rows[m].split.expId == expId ==>
      rows[m].amountBase == Some(a) && rows[m].weightSum == total
    ensures
      var allocs := AllocFrom(rows, k);
      var exact := Proportion(a, RowWeightFrom(rows, expId, k), total);
      -(AllocCount(allocs, expId) as real) / 2.0 <= ShareSum(allocs, expId) as real - exact <= AllocCount(allocs, expId) as real / 2.0
    decreases |rows| - k
  {
    if k < |rows| {
      SharesNearExactFrom(rows, expId, a, total, k + 1);
      var row := rows[k];
      var rest := AllocFrom(rows, k + 1);
      var restWeight := RowWeightFrom(rows, expId, k + 1);
      if row.split.expId == expId {
        ProportionAdds(a, row.useWeight, restWeight, total);
        if row.useWeight > 0.0 {
          var head := Allocation(row.split.expId, row.split.participant, ShareBase(row));
          assert AllocFrom(rows, k) == [head] + rest;
          assert ([head] + rest)[0] == head && ([head] + rest)[1..] == rest;
        } else {
          ProportionOfNothing(a, total);
        }
      } else if row.useWeight > 0.0 {
        var head := Allocation(row.split.expId, row.split.participant, ShareBase(row));
        assert AllocFrom(rows, k) == [head] + rest;
        assert ([head] + rest)[0] == head && ([head] + rest)[1..] == rest;
      }
    }
  }

  /**
   * An expense with at least one split row, all of them of non-negative weight: its
   * shares add up to its Amount_Base give or take half a unit per share row.
   */
  lemma ExpenseSharesSumNearAmount(expenses: seq<ConvertedExpense>, splits: seq<Split>, participants: seq<Participant>, expId: string)
    requires ComputeAllocations(expenses, splits, participants).Success?
    requires forall m :: 0 <= m < |splits| && splits[m].expId == expId ==> ResolveWeight(splits[m], participants) >= 0.0
    requires exists m :: 0 <= m < |splits| && splits[m].expId == expId
    ensures AmountBaseOf(expenses, expId).Some?
    ensures
      var allocs := ComputeAllocations(expenses, splits, participants).value;
      var drift := ShareSum(allocs, expId) - AmountBaseOf(expenses, expId).value;
      -(AllocCount(allocs, expId) as int) <= 2 * drift <= AllocCount(allocs, expId)
  {
    var m :| 0 <= m < |splits| && splits[m].expId == expId;
    assert ShareDefined(expenses, splits, participants, splits[m]);
    var rows := WithColumns(expenses, splits, participants);
    var ws := UseWeights(splits, participants);
    assert forall m :: 0 <= m < |rows| ==> Finite(rows[m]);
    var a := AmountBaseOf(expenses, expId).value;
    var total := WeightSum(splits, participants, expId);
    SharesNearExactFrom(rows, expId, a, total, 0);
    RowWeightIsWeightSum(rows, splits, ws, expId, 0);
    ProportionOfWhole(a, total);
    assert ComputeAllocations(expenses, splits, participants).value == AllocFrom(rows, 0);
  }

  lemma {:induction false} ZeroWeightsSumToZero(splits: seq<Split>, ws: seq<real>, expId: string, k: nat)
    requires |ws| == |splits| && k <= |splits|
    requires forall m :: k <= m < |splits| && splits[m].expId == expId ==> ws[m] == 0.0
    ensures WeightSumFrom(splits, ws, expId, k) == 0.0
    decreases |splits| - k
  {
    if k < |splits| {
      ZeroWeightsSumToZero(splits, ws, expId, k + 1);
    }
  }

  /** An expense whose split rows all weigh 0 (0/0) makes the whole allocation fail. */
  lemma ZeroWeightExpenseFails(expenses: seq<ConvertedExpense>, splits: seq<Split>, participants: seq<Participant>, expId: string)
    requires exists m :: 0 <= m < |splits| && splits[m].expId == expId
    requires forall m :: 0 <= m < |splits| && splits[m].expId == expId ==> ResolveWeight(splits[m], participants) == 0.0
    ensures ComputeAllocations(expenses, splits, participants) == Failure(NonFiniteShare)
  {
    ZeroWeightsSumToZero(splits, UseWeights(splits, participants), expId, 0);
    var m :| 0 <= m < |splits| && splits[m].expId == expId;
    assert !ShareDefined(expenses, splits, participants, splits[m]);
  }

  /** Each share is within half a unit of its exact proportional value. */
  lemma ShareNearProportion(expenses: seq<ConvertedExpense>, splits: seq<Split>, participants: seq<Participant>, t: int)
    requires ComputeAllocations(expenses, splits, participants).Success?
    requires 0 <= t < |ComputeAllocations(expenses, splits, participants).value|
    ensures
      var s := splits[PositiveIndices(splits, participants)[t]];
      var exact := Proportion(AmountBaseOf(expenses, s.expId).value, ResolveWeight(s, participants), WeightSum(splits, participants, s.expId));
      var share := ComputeAllocations(expenses, splits, participants).value[t].shareBase;
      -0.5 <= share as real - exact <= 0.5
  {
  }
}
