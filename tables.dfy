/**
 * The rows of the four input tables (participants, rates, expenses, splits),
 * the derived tables the pipeline produces, and the errors it raises.
 */
module Tables {
  import opened Wrappers

  /** A calendar date, as a day number; only its order matters to the pipeline. */
  type Date = int

  /** A row of the participants table. */
  datatype Participant = Participant(name: string, defaultWeight: real, contact: string)

  /** A row of the rates table: one currency's rate to the base currency from a date on. */
  datatype RateRow = RateRow(date: Date, currency: string, rateToBase: real)

  /** A row of the expenses table. */
  datatype Expense = Expense(
    expId: string,
    date: Date,
    description: string,
    category: string,
    amount: real,
    currency: string,
    payer: string,
    driveUrl: string)

  /** An expense row with the column Amount_Base added by conversion. */
  datatype ConvertedExpense = ConvertedExpense(expense: Expense, amountBase: int)

  /**
   * The WeightOverride cell once missing values are filled with "":
   * Blank is the empty or all-whitespace text, Number a numeric cell.
   */
  datatype OverrideCell = Blank | Number(value: real)

  /**
   * A row of the splits table. `included` is the normalised Included cell:
   * Some(true) or Some(false), or None for a value that was neither.
   */
  datatype Split = Split(expId: string, participant: string, included: Option<bool>, weightOverride: OverrideCell)

  /** A row of the allocations table. */
  datatype Allocation = Allocation(expId: string, participant: string, shareBase: int)

  /** A row of the balances table. */
  datatype Balance = Balance(participant: string, paidBase: int, owedBase: int, netBase: int)

  /** A settlement instruction: `from` pays `to` the amount in the base currency. */
  datatype Transaction = Transaction(from: string, to: string, amountVnd: int)

  /** Every way a pipeline run can fail. */
  datatype Error =
    | SchemaError(table: string, missing: set<string>)
    | UnsupportedCategory(category: string)
    | UnsupportedCurrency(currency: string)
    | BaseRateNotOne
    | RateNotFound(currency: string, date: Date)
    | NonFiniteShare

  /** No name occurs twice in the column. */
  predicate Distinct(names: seq<string>)
  {
    forall i, j :: 0 <= i < j < |names| ==> names[i] != names[j]
  }
}
