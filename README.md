# Trip expense settlement, modelled in Dafny

This project models the settlement pipeline of a trip expense splitter. Four
tables go in: participants, rates, expenses and splits. The pipeline then:

- converts every expense to a whole amount of the base currency (VND), using
  the latest exchange rate on or before the expense date;
- shares each expense among its split rows in proportion to their resolved
  weights;
- sums, per roster participant, what they paid and what they owe;
- matches debtors with creditors greedily to produce "who pays whom" rows.

The model also covers:

- the configuration and validators the loaders apply first: the required
  columns of each table, the categories, the currencies, and the rule that
  every VND rate is 1;
- the normalisation of the `Included` cell of the splits table.

Modules, one per stage:

| file | module | models |
|---|---|---|
| `wrappers.dfy` | `Wrappers` | `Option`, `Result`, `Outcome` (pass or fail with an error) |
| `tables.dfy` | `Tables` | the rows of every table and the errors the pipeline raises |
| `schemas.dfy` | `Schemas` | constants, table schemas, `validate_columns`/`validate_category`/`validate_currency` |
| `loaders.dfy` | `Loaders` | the per-row category and currency checks of the expenses loader |
| `rounding.dfy` | `Rounding` | numpy `round(0)`: the nearest integer, with halves going to the even one |
| `fx.dfy` | `Fx` | the VND = 1 check, `get_rate_on_or_before`, `convert_expenses_to_base` |
| `allocation.dfy` | `Allocations` | `Included` normalisation, `resolve_weight`, `compute_allocations` |
| `balances.dfy` | `Balances` | `compute_balances` |
| `settlement.dfy` | `Settlement` | `compute_settlement`: selection, sorting, and the two-cursor loop as a method over arrays |
| `pipeline.dfy` | `Pipeline` | how the balances stage connects to the settlement guarantees |
| `scenarios.dfy` | `Scenarios` | small worked cases, each proved from the definitions |

The source's numeric types are modelled as follows:

- Amounts are `int`; rates and weights are `real`.
- Rounding is one explicit function, `Rounding.Round`.
- Dates are day numbers (`int`); only their order matters.

The settlement loop is a `method` that updates two arrays of running balances
in place and appends to a sequence of transactions. It is proved equal to a
reference function, `Settlement.Settle`, that takes one loop iteration per
recursive call. The stated properties are proved about that function.

## Model

| member | source | states |
|---|---|---|
| `Schemas.ValidateColumns` | app/trip_splitter/schemas.py:82-102 | passes iff every required column is present; a failure names the table and the exact nonempty set of missing columns |
| `Schemas.ExtraColumnsNeverFail` | app/trip_splitter/schemas.py:98-102 | adding columns before or after a valid header never makes validation fail |
| `Schemas.ParticipantsColumns` | app/trip_splitter/schemas.py:48-51 | the participants table validates iff it has Name, DefaultWeight and Contact |
| `Schemas.RatesColumns` | app/trip_splitter/schemas.py:53-56 | the rates table validates iff it has Date, Currency and Rate_to_Base |
| `Schemas.ExpensesColumns` | app/trip_splitter/schemas.py:58-70 | the expenses table validates iff it has all eight listed columns |
| `Schemas.SplitsColumns` | app/trip_splitter/schemas.py:72-75 | the splits table validates iff it has ExpID, Participant, Included and WeightOverride |
| `Schemas.ValidateCategory` | app/trip_splitter/schemas.py:105-112 | accepts exactly Services, Food&Drinks, Tickets, Travelling and Gifts&Merch; otherwise fails naming the value |
| `Schemas.ValidateCurrency` | app/trip_splitter/schemas.py:115-121 | accepts exactly VND, CNY, USD and EUR; otherwise fails naming the value |
| `Schemas.BaseCurrencyIsSupported` | app/trip_splitter/schemas.py:21-23 | the base currency VND passes currency validation |
| `Loaders.CheckCategoriesFrom` | trip_splitter/logic.py:53-54 | passes iff every row's category is valid; otherwise the error is that of the first invalid row |
| `Loaders.CheckCurrenciesFrom` | trip_splitter/logic.py:55-56 | passes iff every row's currency is valid; otherwise the error is that of the first invalid row |
| `Loaders.ValidateExpenseRows` | trip_splitter/logic.py:52-56 | passes iff every category and every currency is valid; with a bad category the error is that of the first bad category row; otherwise that of the first bad currency row |
| `Rounding.Round` | trip_splitter/logic.py:133 | the result is within 0.5 of the input, and an exact half goes to the even integer |
| `Rounding.RoundUnique` | trip_splitter/logic.py:133 | those two properties determine the result: any integer that has them is `Round(x)` |
| `Rounding.RoundInteger` | trip_splitter/logic.py:200 | a whole amount is left unchanged |
| `Rounding.RoundNonNegative` | trip_splitter/logic.py:165 | a non-negative amount never rounds below 0 |
| `Fx.CheckBaseRates` | trip_splitter/logic.py:41-43 | fails iff some VND row has a rate other than 1 |
| `Fx.LatestApplicable` | trip_splitter/logic.py:116-120 | none iff no row has the currency and a date on or before the query; otherwise a row with the greatest such date, and the last one in table order among rows sharing that date |
| `Fx.GetRateOnOrBefore` | trip_splitter/logic.py:110-120 | the base currency gives exactly 1.0 whatever the table holds, even an empty one; any other currency fails with RateNotFound iff no row applies |
| `Fx.RateIsFromLatestRow` | trip_splitter/logic.py:116-120 | a found rate is that of an applicable row, and no applicable row has a later date, so a later-dated rate is never used |
| `Fx.LatestSameForSameRows` | trip_splitter/logic.py:116-120 | two query dates with the same applicable rows select the same row |
| `Fx.LaterDateWithoutNewRowsSameRate` | trip_splitter/logic.py:116-120 | a later query date that passes no new row of the currency gives the same outcome |
| `Fx.BaseShortcutAgreesWithTable` | trip_splitter/logic.py:41-43 | on a table that passes the VND check, the VND row a lookup would pick has the rate the shortcut returns |
| `Fx.ConvertRow` | trip_splitter/logic.py:127-132 | succeeds iff the rate lookup does; keeps the expense row and adds `Round(amount * rate)` |
| `Fx.ConvertExpensesToBase` | trip_splitter/logic.py:122-134 | on a non-empty table, succeeds iff every row converts; then keeps every row in order with its Amount_Base; otherwise fails with the error of the first row that fails |
| `Fx.RateNonNegative` | trip_splitter/logic.py:114-120 | non-negative table rates give a non-negative rate |
| `Fx.RowPreservesSign` | trip_splitter/logic.py:127-132 | with non-negative rates, a non-negative amount converts to a non-negative Amount_Base |
| `Fx.ConversionPreservesSign` | trip_splitter/logic.py:127-133 | the same, for every row of a successful conversion |
| `Fx.BaseAmountUnchanged` | trip_splitter/logic.py:127-133 | a whole amount in the base currency converts to itself |
| `Allocations.UpperCanonical` | trip_splitter/logic.py:67 | after upper-casing no ASCII lower-case letter is left, every other character is kept, each lower-case letter becomes its capital, and upper-casing again changes nothing |
| `Allocations.NormalizeIncluded` | trip_splitter/logic.py:67 | true iff the cell spells TRUE in any mix of case; false iff it spells FALSE; missing otherwise |
| `Allocations.DefaultWeightIn` | trip_splitter/logic.py:146 | none iff the name is not on the roster; otherwise the DefaultWeight of the last roster row with that name |
| `Allocations.ResolveWeightOrder` | trip_splitter/logic.py:150-155 | weight 0 when excluded; else a nonzero override; else the last matching roster row's DefaultWeight; 1.0 off the roster |
| `Allocations.ResolvedWeightNonNegative` | trip_splitter/logic.py:150-155 | non-negative defaults and overrides give a non-negative weight |
| `Allocations.AmountBaseFrom` | trip_splitter/logic.py:160-161 | none iff no expense has the ExpID; otherwise the Amount_Base of the first expense that has it |
| `Allocations.PositiveIndices` | trip_splitter/logic.py:167-168 | exactly the split rows with weight > 0, in increasing order |
| `Allocations.AllocFromFollowsIndices` | trip_splitter/logic.py:164-169 | the allocation rows are those of the positive-weight rows, in split order |
| `Allocations.ComputeAllocations` | trip_splitter/logic.py:141-169 | fails iff some split row's share is not finite (no expense with its ExpID, or an ExpID whose weights sum to 0); otherwise one row per positive-weight split row, in order, with ExpID, Participant and `Round(Amount_Base * w / Σw)` |
| `Allocations.ShareNearProportion` | trip_splitter/logic.py:165 | each share is within 0.5 of its exact proportional value |
| `Allocations.ExpenseSharesSumNearAmount` | trip_splitter/logic.py:164-169 | when the expense's own split rows have non-negative weights, its shares add up to its Amount_Base within n/2, where n is its number of share rows |
| `Allocations.ZeroWeightExpenseFails` | trip_splitter/logic.py:163-165 | an expense whose split rows all weigh 0 (0/0) makes the whole allocation fail |
| `Allocations.SharesNearExactFrom` | trip_splitter/logic.py:164-169 | from any row on, the shares of an expense are within half a unit per share row of the exact proportion of the weights seen |
| `Balances.ComputeBalances` | trip_splitter/logic.py:175-202 | one row per roster row, in roster order; Paid_Base sums Amount_Base where the name is the Payer, Owed_Base sums Share_Base where it is the Participant, Net_Base is their difference |
| `Balances.BalanceOf` | trip_splitter/logic.py:194-197 | the balance of one name, with Net_Base = Paid_Base − Owed_Base |
| `Balances.NoActivityMeansZero` | trip_splitter/logic.py:191-194 | a roster name that paid nothing and was allocated nothing has an all-zero row |
| `Balances.OffRosterPayerDropped` | trip_splitter/logic.py:189-191 | an expense paid by someone off the roster changes no row |
| `Balances.OffRosterShareDropped` | trip_splitter/logic.py:189-191 | an allocation to someone off the roster changes no row |
| `Balances.SumOverNamesCons` | trip_splitter/logic.py:183-186 | with distinct names, one more input row adds its amount once to the group sums if its key is listed, and not at all otherwise |
| `Balances.GroupSumsAddUp` | trip_splitter/logic.py:183-186 | with distinct names covering every key, the group sums add up to the column total |
| `Balances.NetTotalIsDifference` | trip_splitter/logic.py:189-197 | the Net_Base column adds up to the roster's paid sums minus its owed sums |
| `Balances.NetSumConservation` | trip_splitter/logic.py:183-197 | with distinct roster names and every payer and participant on the roster, the Net_Base column adds up to all Amount_Base minus all Share_Base |
| `Settlement.SelectMembers` | trip_splitter/logic.py:224-225 | keeps exactly the rows with negative (debtors) or positive (creditors) Net_Base |
| `Settlement.InsertPermutes` | trip_splitter/logic.py:227-228 | one insertion step of the sort adds exactly the inserted row, so the sort permutes its input |
| `Settlement.SortedUnchanged` | trip_splitter/logic.py:227-228 | rows already in key order come out of the sort unchanged |
| `Settlement.SortByKeySorted` | trip_splitter/logic.py:227-228 | creditors come out by descending Net_Base and debtors by ascending Net_Base, as a permutation of the selection |
| `Settlement.SortUnique` | trip_splitter/logic.py:227-228 | sorting keeps the set of names and their uniqueness |
| `Settlement.SelectUnique` | trip_splitter/logic.py:224-225 | selecting keeps names unique and adds none |
| `Settlement.SidesStartValid` | trip_splitter/logic.py:224-231 | the debtor side holds exactly the negative rows, the creditor side exactly the positive ones, and the loop starts in its invariant |
| `Settlement.NextFacts` | trip_splitter/logic.py:237-253 | one iteration keeps the invariant and advances at least one cursor, by at most one each; the two balances it touches move toward 0, not past it, and no other balance changes |
| `Settlement.Iterate` | trip_splitter/logic.py:237-253 | one iteration, done in place on the two arrays, emits exactly the reference step's row and leaves exactly its next state |
| `Settlement.LoopStep` | trip_splitter/logic.py:233-253 | one iteration keeps the loop's accounting: the rows emitted so far plus the rows still to come from the new state are the whole table |
| `Settlement.MatchSides` | trip_splitter/logic.py:230-255 | the loop over arrays updated in place builds exactly the rows of the reference matcher |
| `Settlement.ComputeSettlement` | trip_splitter/logic.py:208-255 | the settlement method returns exactly `Settle(balances, eps)` |
| `Settlement.GreedyEndpoints` | trip_splitter/logic.py:237-243 | every row pays more than eps, from a debtor and to a creditor that the cursors have not yet passed |
| `Settlement.GreedyLength` | trip_splitter/logic.py:233-253 | at most \|debtors\| + \|creditors\| iterations, so at most that many rows |
| `Settlement.GreedyPaysAtMostDebt` | trip_splitter/logic.py:237-251 | with distinct debtor names, each debtor pays in total between 0 and its running debt |
| `Settlement.GreedyReceivesAtMostCredit` | trip_splitter/logic.py:237-253 | with distinct creditor names, each creditor receives in total between 0 and its running credit |
| `Settlement.SettlementEndpoints` | trip_splitter/logic.py:224-247 | every row pays more than eps, from a row with negative Net_Base to a row with positive Net_Base; with unique names nobody pays themselves |
| `Settlement.SettlementLength` | trip_splitter/logic.py:233-253 | the table has at most as many rows as there are debtors and creditors together |
| `Settlement.SettlementRespectsBalances` | trip_splitter/logic.py:224-253 | with unique names, every participant pays at most its debt and receives at most its credit; a settled participant does neither |
| `Settlement.NonDebtorPaysNothing` | trip_splitter/logic.py:225 | with unique names, a row whose Net_Base is not negative pays nothing |
| `Settlement.NonCreditorReceivesNothing` | trip_splitter/logic.py:224 | with unique names, a row whose Net_Base is not positive receives nothing |
| `Pipeline.RosterNamesCarryOver` | trip_splitter/logic.py:189-191 | distinct roster names give balance rows with distinct names |
| `Pipeline.SettlementWithinBalances` | trip_splitter/logic.py:175-255 | with distinct roster names, the settlement of the computed balances never asks someone to pay more than their balance says they owe, nor pays them more than they are owed |
| `Scenarios.RateLookupCases` | trip_splitter/logic.py:114-120 | USD on day 15 takes the day-10 rate; on day 20, the day-20 rate; before the first row there is no rate; VND gives 1 from an empty table |
| `Scenarios.ConversionFailsBeforeFirstRate` | trip_splitter/logic.py:110-134 | a USD expense dated before the first USD rate row makes the whole conversion fail with RateNotFound for USD on that date |
| `Scenarios.DinnerForTwo` | trip_splitter/logic.py:141-169 | a 100 000 VND dinner at equal weights gives 50 000 to each of two people |
| `Scenarios.DinnerBalances` | trip_splitter/logic.py:175-202 | the payer nets +50 000 and the other person −50 000 |
| `Scenarios.DinnerSettlement` | trip_splitter/logic.py:208-255 | the debtor pays the creditor 50 000 |
| `Scenarios.OneDebtorTwoCreditors` | trip_splitter/logic.py:227-253 | a debt of 40 pays the creditor of 30 first, then the creditor of 10 |
| `Scenarios.DebtorLeftOutsideEps` | trip_splitter/logic.py:233-253 | with eps = 1, a debt of 5 against credits of 3, 1 and 1 pays only the 3, leaving the debtor at −2 |

## Left out

- Reading the CSV files and parsing dates (the `load_*` functions apart from their row checks) is file I/O. The tables are inputs as sequences, and dates are day numbers.
- The Streamlit UI, the workbook export and the loader test script are presentation and I/O. app/app_streamlit.py, app/trip_splitter/build_or_update.py and test_loaders.py are not part of this model.
- Binary floating point is not modelled. Rates, weights and the products and quotients built from them are exact reals. NaN appears only in one place: a share that is not finite makes `ComputeAllocations` fail, as the integer cast does in the source.
- `Fx.ConvertExpensesToBase` returns the empty table for an expenses table with no rows. In the source, pandas' row-wise `apply` on a frame with no rows gives back a frame rather than a column, and assigning that frame to the single `Amount_Base` column raises, so a trip with no expenses fails there; the model does not reproduce that pandas error path.
- `Fx.LatestApplicable`: among rate rows that share the latest applicable date, pandas' default sort does not fix which row comes last. The model fixes one rule: the last such row in table order.
- `Settlement.SortByKey`: pandas' default sort is not stable, so the order of balances with equal Net_Base is unspecified. The model fixes a stable sort, where ties keep table order. It proves that the result is a permutation, is sorted, and leaves already-ordered rows alone, but does not state stability for arbitrary input.
- `Settlement.ComputeSettlement` requires eps ≥ 0. With a negative eps the source loop can run forever: a side at exactly 0 is never within eps, so no cursor advances.
- `Settlement.SettlementEndpoints`, `Settlement.SettlementRespectsBalances`: the per-name guarantees assume unique participant names. With a repeated name, several balance rows share one name and the per-name totals mix them.
- The settlement amount is the integer pay directly. The source's `int(round(pay, 0))` on an integer returns that integer (`Rounding.RoundInteger`).
- `Allocations.NormalizeIncluded`, `Allocations.UpperCanonical`: upper-casing maps ASCII letters only and keeps every other character, where Python's `str.upper` also upper-cases non-ASCII letters (é to É). Python's Unicode `upper` also maps a few other characters onto ASCII letters, for example U+017F (long s) onto S.
- `Allocations.ResolveWeight` takes the WeightOverride cell as blank or a number. A column read as text is not modelled: there the text "0" counts as an override of weight 0, and text that is not a number raises.
- `Allocations.AmountBaseFrom` takes the first expense row when two expense rows share an ExpID. In the source the join then duplicates the split rows of that ExpID.
- `Allocations.ExpenseSharesSumNearAmount` is stated only when the expense's own split rows have non-negative weights. A negative weight on one of them changes the sum of the weights, but its row is dropped from the allocations.
- The `ROUNDING_RULE` constant in app/trip_splitter/schemas.py is declared but used nowhere in the pipeline, so it is not modelled.
- Whole-number columns are unbounded `int`s. The source's `astype(int)` casts (trip_splitter/logic.py:133, 165 and 200) give 64-bit integers, which would wrap or fail beyond that range; no property here depends on the bound.
- The error messages' text is not modelled; each error is a constructor with the values the message names.
