# Expense tracker core, modelled in Dafny

This is a model of the computations in the browser expense tracker `script.js`. The
page itself, the charts and the storage are not modelled; the numbers behind them are:

- the three summary figures: balance, income and expense (`updateValues`);
- the store of transactions and deletion by identifier (`removeTransaction`);
- the filter that selects the transactions of the selected month (`updateCharts`);
- the trend chart's three daily series (`updateLineChart`). These are running balance,
  running income and running expense, with one entry per day of the month;
- the category chart's `{name, value}` table (`updatePieChart`);
- registering a custom category name for the income or expense kind (`addNewCategory`);
- the months the month selector offers (`updateMonthSelector`).

Amounts are integer cents. Dates are `Date(year, month, day)` values of the Gregorian
calendar, and the selected month is a `YearMonth`. Where the source compares ISO strings,
the model works on these values. `Dates.MonthKey` models the `YYYY-MM` key, and lemmas
show that comparing keys as strings is the same as comparing months.

Each operation has a partner definition, and lemmas connect the two:

- The summary figures are tied to per-transaction contributions (`Totals.Total`).
- The daily series are tied to "the total over the month's transactions dated on or
  before that day" (`DailySeries.Cumulative`).
- The category table is tied to per-category sums (`Breakdown.CategoryTotal`).
- The month options are tied to the set of transaction months.

Modules, leaf first:

| file | module | contents |
|---|---|---|
| seqs.dfy | `Seqs` | filter, sums, duplicate-freedom, first-seen dedup |
| stable_sort.dfy | `StableSort` | stable insertion sort by an integer key |
| dates.dfy | `Dates` | month lengths, date order, the `YYYY-MM` key |
| ledger.dfy | `Ledger` | transactions, month filter, date sort, deletion |
| totals.dfy | `Totals` | `updateValues` |
| daily_series.dfy | `DailySeries` | `updateLineChart` |
| breakdown.dfy | `Breakdown` | `updatePieChart` |
| categories.dfy | `Categories` | default lists, `trim`, `addNewCategory` |
| month_selector.dfy | `MonthSelector` | `updateMonthSelector` |

Behaviour worth knowing:

- **No day of a series is left empty.** Every day before the first transaction's day is
  set to 0, and every later day is overwritten at least by the first transaction's stamp.
  A month without transactions sets `firstTransactionDay` to the month's length, so it
  is all zeros. `DailySeries.ComputeDailySeries` proves that every entry is `Filled`.
- **Ties in the category chart follow date order, not store order.** `updateLineChart`
  sorts the month's array in place (script.js:96). `updatePieChart` then receives that
  same array. So categories enter the table in date order, and equal totals keep that
  order. `Breakdown.CategoryBreakdown` aggregates `Ledger.SortByDate` of the month.
- **An all-blank name is ignored without a message.** The model reports it as
  `EmptyName`, an outcome of `Categories.AddCategory` that changes nothing.

## Model

| member | source | states |
|---|---|---|
| Totals.ComputeTotals | script.js:505-516 | Balance = income − expense, and both are nonnegative. An empty store gives three zeros. Each figure equals the sum over the store of that metric's per-transaction contribution. |
| Totals.CreditsAreIncome | script.js:509-512 | Summing the filtered positive amounts gives the total of the positive contributions. |
| Totals.DebitsAreExpense | script.js:513-516 | The negated sum of the filtered negative amounts gives the total magnitude of the non-positive amounts. |
| Totals.NetSplits | script.js:505-516 | Each amount counts either as income or as expense, so the signed total is income minus expense. |
| Totals.TotalsConcat | script.js:505-516 | The figures of two stores together are the sums of their figures. |
| Totals.TotalsPermutation | script.js:505-516 | The figures do not depend on the order of the store. |
| Ledger.MonthlyTransactions | script.js:76 | The month's transactions are exactly the stored ones whose date lies in that month. A store lying wholly in the month is returned unchanged. |
| Ledger.MonthlyKeepsOrder | script.js:76 | The filter acts on each part of a store independently, so the selected transactions keep their store order and multiplicity. |
| Ledger.MonthPrefixSelectsMonth | script.js:76 | For four-digit years, a date's `YYYY-MM` prefix equals the selected month's key exactly when the date is in that month. |
| Ledger.RemoveTransaction | script.js:529 | The result holds exactly the transactions whose id differs. If no transaction carries the id, the store is unchanged. |
| Ledger.RemoveKeepsOrder | script.js:529 | Deletion acts on each part of a store independently, so survivors keep their order. |
| Ledger.RemoveIdempotent | script.js:529 | Deleting an id twice is the same as deleting it once. |
| Dates.DaysInMonth | script.js:84-88 | The "day 0 of the next month" length of a month is always between 28 and 31. |
| Dates.YearLength | script.js:84-88 | The twelve month lengths add up to 365, or 366 in a leap year. February alone carries the leap day. |
| Dates.DateOrdinalOrder | script.js:96 | The sort key orders valid dates exactly as calendar order does, and equal keys mean equal dates. |
| Dates.MonthIndexOrder | script.js:63 | The month index orders months chronologically, and equal indexes mean equal months. |
| Dates.MonthKeyOrder | script.js:55-63 | For years 0 to 9999, `YYYY-MM` keys compare as strings exactly as their months compare in time. Equal keys mean equal months. |
| StableSort.SortBy | script.js:96 | The result is a permutation of the input, ordered by the key. For every key value, the elements with that key keep their relative order (a stable sort). |
| StableSort.SortByMembers | script.js:96 | Sorting keeps the same elements. |
| DailySeries.SortedByDay | script.js:96 | Sorting a month's transactions by date orders them by day. |
| DailySeries.FirstTransactionDay | script.js:103-107 | The value is the 0-based day of the month's earliest transaction, and no transaction is earlier. With no transactions it is the month's length. |
| DailySeries.Walk | script.js:116-133 | After the walk, each day from the first transaction's day onward holds the running total of the transactions dated on or before it. The zero prefix is left as it was. |
| DailySeries.ComputeDailySeries | script.js:83-133 | The three series have one entry per day of the month. No entry is left empty. Entry x holds the month's net, income or expense total over transactions dated on or before day x+1. |
| DailySeries.ZeroPrefix | script.js:109-114 | Every day before the first transaction's day reads 0 in all three series. |
| DailySeries.IncomeExpenseMonotone | script.js:119-125 | The income and expense series are nonnegative and never decrease from one day to the next. |
| DailySeries.BalanceIsIncomeMinusExpense | script.js:119-125 | On every day the balance series equals income minus expense. |
| DailySeries.LastDayIsMonthTotal | script.js:116-133 | The last day of each series equals the corresponding summary figure of the month's transactions. |
| DailySeries.CumulativeOrderFree | script.js:96 | The day totals do not depend on the order of the month's transactions. |
| DailySeries.TwoTransactionExample | script.js:116-133 | Worked example: +100 on the 1st and −30 on the 5th give income 100, expense 0 then 30, and balance 100 then 70. |
| Breakdown.AddTo | script.js:285-288 | Adding to a category's entry creates it at the end when the name is new. Only that entry's value changes, names stay unique, and the table's sum grows by the amount added. |
| Breakdown.Aggregate | script.js:282-289 | The names are the distinct categories in first-seen order. Each value is the category's sum of absolute amounts. The values add up to the total absolute amount. |
| Breakdown.ReorderTransactions | script.js:282-289 | Reordering the transactions changes neither the categories present, nor any category's sum, nor the total. |
| Breakdown.CategoryBreakdown | script.js:281-293 | An empty month gives an empty table. Each category of the month appears exactly once, with its sum of absolute amounts. The values add up to the month's total absolute amount. Values are in descending order. Equal values keep their order in the date-sorted aggregation. |
| Categories.DefaultsWellFormed | script.js:32-35 | The built-in lists of each kind hold no duplicates. |
| Categories.Trim | script.js:420 | The result has no white space at either end. It is empty exactly when the input is all white space. |
| Categories.TrimUnique | script.js:420 | Trimming a name surrounded by any white space gives the name back. |
| Categories.TrimIdempotent | script.js:420 | Trimming twice is trimming once. |
| Categories.AddCategory | script.js:420-434 | An all-blank input changes nothing. A trimmed name already among the kind's default or custom names is rejected and changes nothing. Any other name is appended to that kind's custom list, and the other kind's list is unchanged. |
| Categories.AddPreservesWellFormed | script.js:420-434 | Registration keeps each kind's known names duplicate-free, and every custom name nonempty and trimmed. |
| Categories.AddTwice | script.js:420-434 | Entering the same input a second time changes nothing more. |
| Categories.PaddedDefaultExists | script.js:420-434 | " Food " as an expense category is rejected, because "Food" is built in. |
| Categories.OtherKindIsNew | script.js:420-434 | "Food" as an income category is new, because each kind is checked against its own lists only. |
| Categories.BlankIsIgnored | script.js:420-421 | White space alone is ignored. |
| MonthSelector.TransactionMonths | script.js:55 | Entry i is the month of transaction i. |
| MonthSelector.CandidateMonths | script.js:55-60 | Before sorting, the months are distinct and valid. They are exactly the current month together with every transaction's month. |
| MonthSelector.NewestFirst | script.js:62-63 | Sorting newest first keeps the months distinct and the same set. The result is in strictly decreasing chronological order. |
| MonthSelector.MonthOptions | script.js:55-63 | The options are distinct and include the current month and every transaction's month, and nothing else. They are valid months, strictly newest first. |
| MonthSelector.OptionKeysDescending | script.js:55-63 | For four-digit years, the options' `YYYY-MM` keys are distinct and in strictly descending string order. This is the order the source produces on the keys. |
| MonthSelector.EmptyStoreOffersCurrent | script.js:55-60 | With no transactions, the current month is the only option. |

## Left out

- Rendering: the DOM, the transaction table, the modal and the chart options are not modelled. This covers script.js:135-278 and the pie chart's options and tooltip.
- Storage: `localStorage` and JSON (de)serialisation are not modelled. Transactions and custom categories are parameters.
- Clock: "today" (`new Date()`) is the `current` parameter of the month selector. The selected month is a parameter of the charts.
- Floating point: amounts are integer cents. `toFixed(2)` formatting and binary rounding of sums are not modelled.
- Date parsing: the model matches a browser whose clock is at UTC. The next two lines give how the source differs in other time zones.
- Date parsing east of UTC: script.js:447 stores local midnight through `toISOString()`, which is the previous UTC day. So a transaction dated the 1st is filed under the previous month by `slice(0, 7)` (line 55) and `startsWith` (line 76). `getDate()` (line 117) then reads 1, so that transaction is stamped from index 0 of the previous month's series. In UTC+5:30, 2024-03-01 is stored as "2024-02-29T18:30:00.000Z".
- Date parsing west of UTC: lines 85-88 build the month's first day at UTC midnight and read it with local getters. So `days` is the smaller of the previous month's length and this month's length: 29 for March 2024, 30 for May.
- Dates.MonthKey: covers years 0 to 9999 only. Other years have a different ISO form.
- Breakdown.CategoryBreakdown: in the source the table is a plain object. `Object.entries` lists integer-like names (such as "2024") first, in numeric order, ahead of the others. A name such as "constructor" starts from the inherited property instead of 0. The model keeps every name in first-seen order and starts every name at 0.
- Collation: `localeCompare` on `YYYY-MM` keys is modelled as code-point order. Keys of digits and a dash compare the same way under both.
- `generateID`, `addTransaction` and the `setTimeout` delay before deletion are not modelled: they involve randomness, timers and form input. Deletion itself is `Ledger.RemoveTransaction`.
- The rejection alert (`alert`) and the category dropdown refresh are not modelled beyond the `AlreadyExists` outcome.
