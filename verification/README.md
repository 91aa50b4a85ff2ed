# Monthly installment stock simulator — Dafny model

The model covers the computational core of a Streamlit dashboard, `app.py`. The dashboard simulates monthly
fixed-amount (dollar-cost-averaging) investment in up to three stock or ETF codes. The model covers:

- **Installment simulator** (`run_monthly_installment_simulation`). It walks the daily closing prices of one code.
  It buys `amount / price` shares on every day whose month number differs from the month of the last purchase
  and whose price is positive. It marks the holding to market every day. It then keeps only the entries whose
  running sum of values is nonzero.
- **Principal baseline**. It walks the merged date index and adds the monthly amount at every change of month
  number. It records the running total for each date.
- **Summary table numbers** (`display_final_summary_table`):
  - a principal row, present only when the principal is positive;
  - one row per instrument column that has a value. Each row holds the last known value, the profit or loss
    against the principal, and the return rate in percent (zero when the principal is not positive).
- **Input preparation**. The three code fields are stripped and empty codes dropped. A reversed date range is
  swapped.
- **Result collection**. Every cleaned code is simulated in order. Results that exist and are not empty are kept.

Modules:

- `Calendar`: dates, month numbers and the `-1` "no month yet" sentinel.
- `Installment`: the simulator.
- `Principal`: the principal baseline.
- `Summary`: the summary table.
- `Inputs`: the code cleaning and the date swap.
- `Dashboard`: result collection, and the link between purchases and principal steps.
- `Wrappers`: `Option`.

The loops of the source are methods: `MarkToMarket`, `AccumulatePrincipal`, `SummarizeTable` and
`CollectSimulationResults`. Each is proved equal to a specification function, and the lemmas state properties of
those functions. Prices and amounts are exact `real`s.

Behaviours of the code that the model keeps as written:

- The month comparison uses only the month number. Two consecutive trading days in the same month number of
  different years count as one month (`Installment.YearIsIgnored`). The principal baseline does the same.
- A day with a non-positive price does not buy and does not update the remembered month. The purchase is retried
  on the following days of the same month run (`Installment.RetriedWithinMonthRun`). A month missed this way
  still blocks a purchase on a later day with the same month number as the last purchase
  (`Installment.MissedMonthBlocksNextYear`).
- The trim keeps the entries whose running sum of values is nonzero. With non-negative prices and a positive
  amount, this is "drop the days before the first purchase" (`Installment.ResultStartsAtFirstPurchase`). The
  model follows the running-sum rule, not a rule about shares held being zero.
- `app.py` has no currency conversion and no forward-fill. Neither is modelled.

## Model

| member | source | states |
|---|---|---|
| Installment.RunMonthlyInstallmentSimulation | app.py:82-113 | An empty code, a failed load and an empty price series give no result; otherwise the result is the code's marked-to-market values, named after the code and trimmed. |
| Installment.MarkToMarket | app.py:94-109 | The value recorded for each day is the shares held after that day's possible purchase times that day's price. |
| Installment.Step | app.py:102-106 | One day of the loop: when the day buys (month number differs from the remembered month and the price is positive), the holding gains amount/price shares and remembers the day's month. Otherwise the holding is left exactly as it was. |
| Installment.Mask | app.py:111 | The `cumsum() != 0` mask has one flag per entry. |
| Installment.Trim | app.py:111 | The cumulative-sum filter keeps at most the entries it is given, and an empty series stays empty. With `Installment.TrimStep` this determines it on every series. |
| Installment.Select | app.py:111 | Boolean indexing never returns more elements than the input, and every element it returns is taken from the input. |
| Installment.SelectAppend | app.py:111 | Boolean indexing distributes over concatenation of elements and masks, so kept elements stay in input order. |
| Installment.SelectSingleton | app.py:111 | A single element is kept exactly when its mask entry is true. |
| Installment.MaskAppend | app.py:111 | Appending an entry leaves the earlier mask entries unchanged and adds whether the running sum up to the new entry is nonzero. |
| Installment.TrimStep | app.py:111 | For any values, the cumulative-sum filter of a series extended by one entry is the filter of the series before it. The new entry is appended exactly when the running sum up to and including it is nonzero. |
| Installment.HoldingAfterStep | app.py:98-106 | The holding before day i+1 is one loop iteration applied to the holding before day i. |
| Installment.PurchaseOnDay | app.py:102-106 | A day buys exactly when its month number differs from the remembered month and its price is positive. It then adds amount/price shares and remembers its month; otherwise the holding is unchanged. |
| Installment.NonPositivePriceKeepsHolding | app.py:103-106 | A day with a non-positive price neither buys nor changes the shares or the remembered month. |
| Installment.SharesNeverDecrease | app.py:103-105 | With a non-negative amount, the shares held never decrease from one day to a later one. |
| Installment.SharesNonNegative | app.py:95-105 | With a non-negative amount, the shares held are never negative. |
| Installment.SkippedDaysKeepHolding | app.py:102-106 | A stretch of days with non-positive prices leaves the holding (shares and remembered month) as it was. |
| Installment.RetriedWithinMonthRun | app.py:99-106 | When a purchase is due but the price is not positive, it is made on the first later day of the same month run whose price is positive, and not before. |
| Installment.RememberedMonthInRun | app.py:99-106 | After a purchase, the remembered month stays that month for the rest of the run of equal month numbers. |
| Installment.AtMostOncePerMonthRun | app.py:99-106 | Within a run of consecutive days that share a month number, at most one day buys. |
| Installment.RememberedMonthWhenPricesPositive | app.py:96-106 | With every price positive, the remembered month before day i is the previous day's month (the -1 sentinel before the first day). |
| Installment.BuysExactlyOnNewMonthWhenPricesPositive | app.py:98-106 | With every price positive, a day buys if and only if it is the first day or its month number differs from the previous day's. |
| Installment.PrefixSumSign | app.py:111 | For non-negative values that are zero before position k and positive at k, the running sum is zero up to k and positive after it. |
| Installment.SelectSuffix | app.py:111 | A mask that is false before k and true from k on selects exactly the suffix starting at k. |
| Installment.TrimDropsLeadingZeros | app.py:111 | For non-negative values, the cumulative-sum-nonzero filter removes exactly the leading zero-valued entries and keeps every entry from the first nonzero one, zeros included. |
| Installment.MarkedValuesNonNegative | app.py:104-109 | With a non-negative amount and non-negative prices, every recorded value is non-negative. |
| Installment.NoSharesBeforeFirstPurchase | app.py:94-106 | Until the first purchase, no shares are held. |
| Installment.ResultStartsAtFirstPurchase | app.py:94-111 | With a positive amount and non-negative prices, the trimmed result is the marked series from the first purchase day on; it is empty when nothing is ever bought. |
| Installment.ResultKeepsEveryDayWhenPricesPositive | app.py:82-113 | With a non-empty code, a positive amount and all prices positive, the result keeps every day of the price series. |
| Installment.ThreeDayExample | app.py:98-109 | Prices 100, 110 (January) and 120 (February) with 500000 per month give values 500000, 550000 and 1100000. |
| Installment.ThreeDaySimulation | app.py:82-113 | The full simulation of those three days returns all three dated values under the code's name. |
| Installment.YearIsIgnored | app.py:99-106 | 2022-01-31 directly followed by 2023-01-02 buys only on the first day: the year is not compared. |
| Installment.MissedMonthBlocksNextYear | app.py:99-106 | January at 100, February at 0, then January of the next year at 100: only the first day buys, because the remembered month is still 1. |
| Principal.AccumulatePrincipal | app.py:338-349 | One entry per date. Entry i is the amount times the number of month-number runs in the index up to and including date i. |
| Principal.FinalPrincipal | app.py:338-349 | The last entry is the amount times the number of month-number runs in the whole index. |
| Principal.MonthRunsStep | app.py:342-347 | Extending the index by one date adds one run exactly when that date starts a new month-number run. |
| Principal.MonthRunsBounds | app.py:342-347 | A non-empty index has at least one run and never more runs than dates. |
| Principal.PrincipalStartsAtAmount | app.py:340-349 | The first date of the index records exactly one monthly amount. |
| Principal.PrincipalStep | app.py:342-349 | From one date to the next, the principal rises by exactly the amount when the month number changes and stays flat otherwise. |
| Principal.PrincipalNonDecreasing | app.py:345-349 | With a non-negative amount, the principal series never decreases. |
| Principal.ThreeMonthExample | app.py:338-349 | Five dates over January, February and March with 500000 per month record 500000, 500000, 1000000, 1000000 and 1500000. |
| Dashboard.PurchasesMatchPrincipalSteps | app.py:98-106 | On an instrument's own date index with all prices positive and a positive amount, the first day buys. Every later day buys exactly when the principal baseline steps up on that day. |
| Summary.LastPresent | app.py:283-287 | The result is None exactly when every value of the column is missing. |
| Summary.LastPresentIsLast | app.py:283-287 | A found value is present in the column, and every later value is missing. |
| Summary.ReturnRate | app.py:290 | With a positive principal, rate × principal = profit/loss × 100, and the rate has the sign of the profit/loss. Otherwise the rate is 0. |
| Summary.InstrumentRow | app.py:287-298 | The row carries the code, the principal and the final value; value = principal + profit/loss; at break-even both profit/loss and return rate are 0. |
| Summary.InstrumentRowsShape | app.py:279-298 | At most one row per column. No instrument row carries the principal label. Every row shares the principal and satisfies value = principal + profit/loss with the return-rate relation. |
| Summary.SummaryGrows | app.py:279-298 | Appending the rows of the next column extends the summary of the columns seen so far to the summary of one more column. |
| Summary.SummarizeTable | app.py:259-298 | For columns with distinct names, the summary at the chosen row is the principal row (only for a positive principal), followed by the rows of the columns that are not the principal column and have a value, in column order. |
| Summary.InstrumentRowNamesDistinct | app.py:279-298 | With distinct column names, no two instrument rows share a name: one row per instrument code. |
| Summary.NoRowWithoutColumn | app.py:279-298 | A name that no column carries is carried by no instrument row. |
| Summary.AppendNamedRows | app.py:292-298 | Appending at most one row with a new name to rows with distinct names keeps the names distinct. |
| Summary.PrincipalRowIffPositive | app.py:268-276 | A row with the principal label appears if and only if the principal is positive; it is then the first row, with value equal to the principal and zero profit and return. |
| Summary.EveryValuedColumnHasRow | app.py:279-298 | Every non-principal column with at least one value yields a row built from its last non-missing value. |
| Summary.EveryRowHasValuedColumn | app.py:279-287 | Every instrument row comes from a non-principal column that has a value, and carries that column's last non-missing value. |
| Inputs.LeadingSpaces | app.py:69 | Counts exactly the whitespace prefix: every counted character is whitespace and the next one is not. |
| Inputs.TrailingSpaces | app.py:69 | Counts exactly the whitespace suffix: every counted character is whitespace and the one before it is not. |
| Inputs.Strip | app.py:69 | The stripped code neither starts nor ends with whitespace, and is empty if and only if the input is all whitespace. |
| Inputs.StripRemovesSurroundingSpaces | app.py:69 | The stripped code is a slice of the input, and everything outside that slice is whitespace. |
| Inputs.StripIsUnique | app.py:69 | Any slice with only whitespace outside it and no whitespace at its own ends is the stripped code, so the two properties above determine the result. |
| Inputs.StripIdempotent | app.py:69 | Stripping twice is stripping once. |
| Inputs.DropEmpty | app.py:70 | Keeps only non-empty strings, each taken from the input, never more than the input has. |
| Inputs.DropEmptyKeepsNonEmpty | app.py:70 | Every non-empty input string is kept. |
| Inputs.DropEmptyAppend | app.py:70 | Dropping empties distributes over concatenation, so kept strings stay in input order. |
| Inputs.CleanCodes | app.py:69-70 | At most three codes. Each is non-empty, has no surrounding whitespace, and is one of the three stripped fields. |
| Inputs.CleanCodesInFieldOrder | app.py:69-70 | The cleaned codes are the stripped first, second and third fields, each present exactly when non-empty, in field order. |
| Inputs.DropEmptyOfThree | app.py:70 | Filtering three strings keeps each exactly when it is non-empty, in their order. |
| Inputs.KeptIfNonEmptyIsDropEmpty | app.py:70 | Filtering a single code keeps it exactly when it is non-empty. |
| Inputs.OrderRange | app.py:39-41 | The returned start is never later than the returned end. The two dates are the inputs, possibly swapped. An already ordered range is left unchanged. |
| Dashboard.CollectedComesFromResults | app.py:324-325 | Every collected series is non-empty and comes from a result that exists; there are never more series than results. |
| Dashboard.CollectSimulationResults | app.py:314-325 | The collection loop returns exactly the existing, non-empty simulation results of the codes, in code order. |
| Dashboard.CollectedKeepsEveryUsable | app.py:324-325 | Every result that exists and is not empty is collected. |
| Dashboard.CollectedAppend | app.py:317-325 | Collecting distributes over concatenation, so results keep the order of their codes. |
| Dashboard.NothingCollectedFromAbsent | app.py:324 | A single absent result collects nothing. |
| Dashboard.CollectedSkipsAbsent | app.py:324-325 | An absent result between two stretches of results adds nothing to their collection. |
| Dashboard.AbsentResultIsSkipped | app.py:324-325 | An absent result contributes nothing: the collection equals the collection without it. |
| Dashboard.SimulationsWithout | app.py:317-323 | Leaving one code out of the list leaves out exactly its simulation result and keeps the others in order. |
| Dashboard.FailedLoadIsSkipped | app.py:115-118 | A code whose price load fails is skipped without affecting the others: the collection equals the one computed as if that code were not entered. |

## Left out

- The Streamlit UI is not modelled:
  - page layout, widgets, warnings and info messages;
  - session state, the chart mode toggle and the reference tables of codes.
- Caching (`st.cache_data` on the simulation) is modelled only through what it implies. A code's load outcome
  is a function of the code, the date range and the amount, which is the `fetch` parameter of
  `CollectSimulationResults`. So a code entered twice sees the same outcome. The warning shown on a failed
  load is not modelled, nor are the cache's lifetime and staleness.
- Price loading (`fdr.DataReader` and the `try`/`except` around it) is a parameter:
  - `RunMonthlyInstallmentSimulation` takes the load's outcome, with `None` for a failure;
  - `CollectSimulationResults` takes a `fetch` function from code to outcome. The start and end dates only select
    what the provider returns.
- The Plotly animation and the chart frames are not modelled.
- The display strings of the summary table (thousand separators, two-decimal percentages) are not modelled, nor is
  the `if investment_summary:` rendering step. The model keeps the numbers.
- Merging the results (`pd.concat(..., axis=1).dropna(how='all')`) is not modelled. The summary and the principal
  baseline take the merged table as given: a list of columns with missing values, and a date index.
- The `max_index < 0` stop is not modelled. `SummarizeTable` instead requires a row number inside the principal
  series, and the caller passes the last row.
- The unused `monthly_amount_krw` parameter of `display_final_summary_table` is dropped.
- Summary.SummarizeTable: requires distinct column names. When the same code is entered in two fields, the source
  keeps both (app.py:69-70), collects both results and merges them into two columns with one label. The label
  lookup at app.py:283 then yields a two-column table. Formatting its last row at app.py:295 raises an error, so
  the source produces no summary in that case. The model does not describe that failure.
- Inputs.Strip: its own contract states only the shape of the result (no whitespace at either end, empty exactly
  for an all-whitespace input). That the result is the input without its surrounding whitespace is stated by
  `Inputs.StripRemovesSurroundingSpaces` and `Inputs.StripIsUnique`.
- Installment.Select: its own contract states only a length bound and membership. Which elements are kept, and
  in what order, is stated by `Installment.SelectAppend` and `Installment.SelectSingleton`. For the trim it is
  stated by `Installment.TrimStep`.
- Floating-point rounding is not modelled; prices, amounts and values are exact reals. A NaN closing price is not
  modelled either.
- `MarkToMarket` and `AccumulatePrincipal` write day i's value at position i. The source writes it at label
  `date`. The two agree because a price series has one row per date; duplicate dates are not modelled.
- Currency conversion, forward-filling of the merged table and a fixed-rate savings comparison row are not part of
  `app.py`, so they are not part of this model.
