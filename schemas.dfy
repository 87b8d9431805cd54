/**
 * Shared configuration of the workbook (base currency, supported currencies,
 * expense categories), the required columns of each input table, and the
 * validators the loaders apply before the pipeline runs.
 */
module Schemas {
  import opened Wrappers
  import opened Tables

  /** The trip the workbook is for; a label only, which no operation reads. */
  const TripName: string := "China, Aug 2025"
  const BaseCurrency: string := "VND"
  const SupportedCurrencies: seq<string> := ["VND", "CNY", "USD", "EUR"]
  const ExpenseCategories: seq<string> := ["Services", "Food&Drinks", "Tickets", "Travelling", "Gifts&Merch"]

  /** A table's name and the columns it must have. */
  datatype TableSchema = TableSchema(name: string, requiredColumns: seq<string>)

  const ParticipantsSchema: TableSchema := TableSchema("participants", ["Name", "DefaultWeight", "Contact"])
  const RatesSchema: TableSchema := TableSchema("rates", ["Date", "Currency", "Rate_to_Base"])
  const ExpensesSchema: TableSchema :=
    TableSchema("expenses", ["ExpID", "Date", "Description", "Category", "Amount", "Currency", "Payer", "DriveURL"])
  const SplitsSchema: TableSchema := TableSchema("splits", ["ExpID", "Participant", "Included", "WeightOverride"])

  /** The required columns of `schema` that a table with header `columns` lacks. */
  function MissingColumns(columns: seq<string>, schema: TableSchema): (missing: set<string>)
    ensures forall c :: c in missing ==> c in schema.requiredColumns && c !in columns
    ensures forall c :: c in schema.requiredColumns && c !in columns ==> c in missing
  {
    set c | c in schema.requiredColumns && c !in columns
  }

  /** Fails, naming the missing columns, exactly when some required column is absent. */
  function ValidateColumns(columns: seq<string>, schema: TableSchema): (r: Outcome<Error>)
    ensures r.Pass? <==> forall c :: c in schema.requiredColumns ==> c in columns
    ensures r.Fail? ==> r.error.SchemaError? && r.error.table == schema.name && r.error.missing != {}
    ensures r.Fail? ==> forall c :: c in r.error.missing <==> c in schema.requiredColumns && c !in columns
  {
    var missing := MissingColumns(columns, schema);
    if missing == {} then Pass else Fail(SchemaError(schema.name, missing))
  }

  /** A column the schema does not require never makes validation fail. */
  lemma ExtraColumnsNeverFail(columns: seq<string>, extra: seq<string>, schema: TableSchema)
    requires ValidateColumns(columns, schema).Pass?
    ensures ValidateColumns(columns + extra, schema).Pass?
    ensures ValidateColumns(extra + columns, schema).Pass?
  {
  }

  /** Each table's validation depends on exactly its listed columns. */
  lemma ParticipantsColumns(columns: seq<string>)
    ensures ValidateColumns(columns, ParticipantsSchema).Pass? <==>
      "Name" in columns && "DefaultWeight" in columns && "Contact" in columns
  {
  }

  lemma RatesColumns(columns: seq<string>)
    ensures ValidateColumns(columns, RatesSchema).Pass? <==>
      "Date" in columns && "Currency" in columns && "Rate_to_Base" in columns
  {
  }

  lemma ExpensesColumns(columns: seq<string>)
    ensures ValidateColumns(columns, ExpensesSchema).Pass? <==>
      "ExpID" in columns && "Date" in columns && "Description" in columns && "Category" in columns &&
      "Amount" in columns && "Currency" in columns && "Payer" in columns && "DriveURL" in columns
  {
  }

  lemma SplitsColumns(columns: seq<string>)
    ensures ValidateColumns(columns, SplitsSchema).Pass? <==>
      "ExpID" in columns && "Participant" in columns && "Included" in columns && "WeightOverride" in columns
  {
  }

  /** Accepts exactly the five expense categories. */
  function ValidateCategory(value: string): (r: Outcome<Error>)
    ensures r.Pass? <==>
      value == "Services" || value == "Food&Drinks" || value == "Tickets" ||
      value == "Travelling" || value == "Gifts&Merch"
    ensures r.Fail? ==> r.error == UnsupportedCategory(value)
  {
    if value in ExpenseCategories then Pass else Fail(UnsupportedCategory(value))
  }

  /** Accepts exactly the four supported currency codes. */
  function ValidateCurrency(value: string): (r: Outcome<Error>)
    ensures r.Pass? <==> value == "VND" || value == "CNY" || value == "USD" || value == "EUR"
    ensures r.Fail? ==> r.error == UnsupportedCurrency(value)
  {
    if value in SupportedCurrencies then Pass else Fail(UnsupportedCurrency(value))
  }

  /** The base currency is itself a supported currency. */
  lemma BaseCurrencyIsSupported()
    ensures ValidateCurrency(BaseCurrency).Pass?
    ensures BaseCurrency in SupportedCurrencies
  {
  }
}
