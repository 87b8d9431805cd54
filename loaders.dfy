// The checks the expenses loader applies to every row once the table is read.
module Loaders {
  import opened Wrappers
  import opened Tables
  import opened Schemas

  /** The first row from `k` on whose value fails `ValidateCategory`, or Pass. */
  function CheckCategoriesFrom(expenses: seq<Expense>, k: nat): (r: Outcome<Error>)
    requires k <= |expenses|
    ensures r.Pass? <==> forall i :: k <= i < |expenses| ==> ValidateCategory(expenses[i].category).Pass?
    ensures r.Fail? ==> exists i ::
      && k <= i < |expenses|
      && r == ValidateCategory(expenses[i].category)
      && forall i' :: k <= i' < i ==> ValidateCategory(expenses[i'].category).Pass?
    decreases |expenses| - k
  {
    if k == |expenses| then Pass
    else if ValidateCategory(expenses[k].category).Fail? then ValidateCategory(expenses[k].category)
    else CheckCategoriesFrom(expenses, k + 1)
  }

  /** The first row from `k` on whose value fails `ValidateCurrency`, or Pass. */
  function CheckCurrenciesFrom(expenses: seq<Expense>, k: nat): (r: Outcome<Error>)
    requires k <= |expenses|
    ensures r.Pass? <==> forall i :: k <= i < |expenses| ==> ValidateCurrency(expenses[i].currency).Pass?
    ensures r.Fail? ==> exists i ::
      && k <= i < |expenses|
      && r == ValidateCurrency(expenses[i].currency)
      && forall i' :: k <= i' < i ==> ValidateCurrency(expenses[i'].currency).Pass?
    decreases |expenses| - k
  {
    if k == |expenses| then Pass
    else if ValidateCurrency(expenses[k].currency).Fail? then ValidateCurrency(expenses[k].currency)
    else CheckCurrenciesFrom(expenses, k + 1)
  }

  /**
   * The row checks of the expenses loader: every Category first, then every
   * Currency; the first bad value raises.
   */
  function ValidateExpenseRows(expenses: seq<Expense>): (r: Outcome<Error>)
    ensures r.Pass? <==> forall i :: 0 <= i < |expenses| ==>
      ValidateCategory(expenses[i].category).Pass? && ValidateCurrency(expenses[i].currency).Pass?
    ensures (exists i :: 0 <= i < |expenses| && ValidateCategory(expenses[i].category).Fail?) ==>
      r.Fail? && r.error.UnsupportedCategory? && r == CheckCategoriesFrom(expenses, 0)
    ensures (forall i :: 0 <= i < |expenses| ==> ValidateCategory(expenses[i].category).Pass?) ==>
      r == CheckCurrenciesFrom(expenses, 0)
  {
    var categories := CheckCategoriesFrom(expenses, 0);
    if categories.Fail? then categories else CheckCurrenciesFrom(expenses, 0)
  }
}
