/**
 * Currency conversion: the base-rate check applied when the rates table is
 * loaded, the historical-rate lookup, and the conversion of every expense to
 * a whole amount of the base currency.
 */
module Fx {
  import opened Wrappers
  import opened Tables
  import opened Rounding

  /** The rates table's invariant: every VND row has rate exactly 1. */
  function CheckBaseRates(rates: seq<RateRow>): (r: Outcome<Error>)
    ensures r.Fail? <==> exists k :: 0 <= k < |rates| && rates[k].currency == "VND" && rates[k].rateToBase != 1.0
    ensures r.Fail? ==> r.error == BaseRateNotOne
  {
    if forall k :: 0 <= k < |rates| && rates[k].currency == "VND" ==> rates[k].rateToBase == 1.0 then Pass
    else Fail(BaseRateNotOne)
  }

  /** A row that may serve a lookup of `currency` on `date`: same currency, not dated later. */
  predicate Applicable(row: RateRow, currency: string, date: Date)
  {
    row.currency == currency && row.date <= date
  }

  /** Row `k` is applicable and no applicable row is dated later. */
  predicate IsLatestApplicable(rates: seq<RateRow>, currency: string, date: Date, k: int)
  {
    && 0 <= k < |rates|
    && Applicable(rates[k], currency, date)
    && forall k' :: 0 <= k' < |rates| && Applicable(rates[k'], currency, date) ==> rates[k'].date <= rates[k].date
  }

  /**
   * The index of the row a lookup uses: the applicable row with the latest
   * date and, among rows sharing that date, the last one in table order.
   */
  function LatestApplicable(rates: seq<RateRow>, currency: string, date: Date): (r: Option<nat>)
    ensures r.None? <==> forall k :: 0 <= k < |rates| ==> !Applicable(rates[k], currency, date)
    ensures r.Some? ==> IsLatestApplicable(rates, currency, date, r.value)
    ensures r.Some? ==> forall k :: r.value < k < |rates| && Applicable(rates[k], currency, date) ==>
                          rates[k].date < rates[r.value].date
    decreases |rates|
  {
    if |rates| == 0 then None
    else
      var last := |rates| - 1;
      var prev := LatestApplicable(rates[..last], currency, date);
      if Applicable(rates[last], currency, date) && (prev.None? || rates[prev.value].date <= rates[last].date)
      then Some(last)
      else prev
  }

  /**
   * The rate to the base currency of `currency` on `date`: 1 for the base
   * currency, whatever the table holds; otherwise the rate of the latest
   * row on or before `date`, or RateNotFound when there is none.
   */
  function GetRateOnOrBefore(rates: seq<RateRow>, date: Date, currency: string, base: string): (r: Result<real, Error>)
    ensures currency == base ==> r == Success(1.0)
    ensures currency != base ==>
      (r.Failure? <==> forall k :: 0 <= k < |rates| ==> !Applicable(rates[k], currency, date))
    ensures r.Failure? ==> r.error == RateNotFound(currency, date)
  {
    if currency == base then Success(1.0)
    else match LatestApplicable(rates, currency, date)
      case None => Failure(RateNotFound(currency, date))
      case Some(k) => Success(rates[k].rateToBase)
  }

  /**
   * A successful lookup of a non-base currency returns the rate of an
   * applicable row than which no applicable row is dated later: it never
   * uses a later-dated rate.
   */
  lemma RateIsFromLatestRow(rates: seq<RateRow>, date: Date, currency: string, base: string)
    requires currency != base && GetRateOnOrBefore(rates, date, currency, base).Success?
    ensures exists k ::
      IsLatestApplicable(rates, currency, date, k) && GetRateOnOrBefore(rates, date, currency, base).value == rates[k].rateToBase
  {
    var k := LatestApplicable(rates, currency, date).value;
    assert IsLatestApplicable(rates, currency, date, k);
  }

  /** Two query dates with the same applicable rows select the same row. */
  lemma {:induction false} LatestSameForSameRows(rates: seq<RateRow>, currency: string, d1: Date, d2: Date)
    requires forall k :: 0 <= k < |rates| ==> (Applicable(rates[k], currency, d1) <==> Applicable(rates[k], currency, d2))
    ensures LatestApplicable(rates, currency, d1) == LatestApplicable(rates, currency, d2)
    decreases |rates|
  {
    if |rates| > 0 {
      var last := |rates| - 1;
      LatestSameForSameRows(rates[..last], currency, d1, d2);
    }
  }

  /**
   * Moving the query date later, past no new row of that currency, returns
   * the same rate (or the same failure kind).
   */
  lemma LaterDateWithoutNewRowsSameRate(rates: seq<RateRow>, currency: string, d1: Date, d2: Date, base: string)
    requires d1 <= d2
    requires forall k :: 0 <= k < |rates| && rates[k].currency == currency ==> !(d1 < rates[k].date <= d2)
    ensures GetRateOnOrBefore(rates, d1, currency, base).Success? == GetRateOnOrBefore(rates, d2, currency, base).Success?
    ensures GetRateOnOrBefore(rates, d1, currency, base).Success? ==>
      GetRateOnOrBefore(rates, d1, currency, base) == GetRateOnOrBefore(rates, d2, currency, base)
  {
    LatestSameForSameRows(rates, currency, d1, d2);
  }

  /**
   * Where the table already has VND rows, the base-currency shortcut agrees
   * with the table: the row a lookup would pick has rate 1.
   */
  lemma BaseShortcutAgreesWithTable(rates: seq<RateRow>, date: Date)
    requires CheckBaseRates(rates).Pass?
    requires LatestApplicable(rates, "VND", date).Some?
    ensures rates[LatestApplicable(rates, "VND", date).value].rateToBase == GetRateOnOrBefore(rates, date, "VND", "VND").value
  {
  }

  /** One expense row with its Amount_Base: the amount times its rate, rounded to a whole unit. */
  function ConvertRow(e: Expense, rates: seq<RateRow>, base: string): (r: Result<ConvertedExpense, Error>)
    ensures r.Success? <==> GetRateOnOrBefore(rates, e.date, e.currency, base).Success?
    ensures r.Success? ==> r.value.expense == e
    ensures r.Success? ==> r.value.amountBase == Round(e.amount * GetRateOnOrBefore(rates, e.date, e.currency, base).value)
    ensures r.Failure? ==> r.error == RateNotFound(e.currency, e.date)
  {
    var rate := GetRateOnOrBefore(rates, e.date, e.currency, base);
    if rate.Failure? then Failure(rate.error)
    else Success(ConvertedExpense(e, Round(e.amount * GetRateOnOrBefore(rates, e.date, e.currency, base).value)))
  }

  /**
   * Adds Amount_Base to every expense, keeping every row and its columns in
   * order. The first expense without a rate aborts the whole conversion.
   */
  function ConvertExpensesToBase(expenses: seq<Expense>, rates: seq<RateRow>, base: string): (r: Result<seq<ConvertedExpense>, Error>)
    ensures r.Success? <==> forall i :: 0 <= i < |expenses| ==> ConvertRow(expenses[i], rates, base).Success?
    ensures r.Success? ==> |r.value| == |expenses|
    ensures r.Success? ==> forall i :: 0 <= i < |expenses| ==> r.value[i] == ConvertRow(expenses[i], rates, base).value
    ensures r.Failure? ==> exists i ::
      && 0 <= i < |expenses|
      && ConvertRow(expenses[i], rates, base).Failure?
      && r.error == ConvertRow(expenses[i], rates, base).error
      && forall i' :: 0 <= i' < i ==> ConvertRow(expenses[i'], rates, base).Success?
    decreases |expenses|
  {
    if |expenses| == 0 then Success([])
    else
      var row := ConvertRow(expenses[0], rates, base);
      if row.Failure? then Failure(row.error)
      else
        var rest := ConvertExpensesToBase(expenses[1..], rates, base);
        assert forall i :: 1 <= i < |expenses| ==> expenses[1..][i - 1] == expenses[i];
        if rest.Failure? then Failure(rest.error)
        else Success([row.value] + rest.value)
  }

  lemma ProductNonNegative(x: real, y: real)
    requires x >= 0.0 && y >= 0.0
    ensures x * y >= 0.0
  {
  }

  /** With non-negative rates in the table, a found rate is non-negative. */
  lemma RateNonNegative(rates: seq<RateRow>, date: Date, currency: string, base: string)
    requires forall k :: 0 <= k < |rates| ==> rates[k].rateToBase >= 0.0
    requires GetRateOnOrBefore(rates, date, currency, base).Success?
    ensures GetRateOnOrBefore(rates, date, currency, base).value >= 0.0
  {
    if currency != base {
      var k := LatestApplicable(rates, currency, date).value;
      assert GetRateOnOrBefore(rates, date, currency, base).value == rates[k].rateToBase;
    }
  }

  /** With non-negative rates, conversion keeps a non-negative amount non-negative. */
  lemma RowPreservesSign(e: Expense, rates: seq<RateRow>, base: string)
    requires ConvertRow(e, rates, base).Success?
    requires forall k :: 0 <= k < |rates| ==> rates[k].rateToBase >= 0.0
    requires e.amount >= 0.0
    ensures ConvertRow(e, rates, base).value.amountBase >= 0
  {
    var rate := GetRateOnOrBefore(rates, e.date, e.currency, base).value;
    RateNonNegative(rates, e.date, e.currency, base);
    ProductNonNegative(e.amount, rate);
    RoundNonNegative(e.amount * rate);
  }

  lemma ConversionPreservesSign(expenses: seq<Expense>, rates: seq<RateRow>, base: string, i: int)
    requires ConvertExpensesToBase(expenses, rates, base).Success?
    requires forall k :: 0 <= k < |rates| ==> rates[k].rateToBase >= 0.0
    requires 0 <= i < |expenses| && expenses[i].amount >= 0.0
    ensures ConvertExpensesToBase(expenses, rates, base).value[i].amountBase >= 0
  {
    RowPreservesSign(expenses[i], rates, base);
  }

  /** A whole amount already in the base currency converts to itself. */
  lemma BaseAmountUnchanged(expenses: seq<Expense>, rates: seq<RateRow>, base: string, i: int, n: int)
    requires ConvertExpensesToBase(expenses, rates, base).Success?
    requires 0 <= i < |expenses| && expenses[i].currency == base && expenses[i].amount == n as real
    ensures ConvertExpensesToBase(expenses, rates, base).value[i].amountBase == n
  {
    RoundInteger(n);
  }
}
