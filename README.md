# FinDash transaction analytics in Dafny

This project models the analytics core of the FinDash dashboard (`app.py`).
The core turns a list of transaction rows into chart-ready aggregates:

- expenses per category and per payment mode, labels in first-seen order;
- the net cash flow of each calendar month (income less expenses less
  transfers out), months in sorted order;
- a rolling window of monthly inflow and outflow series, labelled by month
  name;
- the `/api/analytics` dispatch, which picks one aggregator by name and
  falls back to the category breakdown.

Each aggregator is a method that walks the rows once and fills an
insertion-ordered dictionary (`defaultdict`). The dictionary is the value
type `Tallies.Tally`: its keys in insertion order and a map of sums. Each
loop is proved against a reference function over the rows. The invariant
is `Tally.Counts`: the tally equals the per-key sums of the entries of the
rows read so far. Lemmas then state what those reference functions mean in
terms of the rows.

Modules, one per file:

| file | module | contents |
|---|---|---|
| `collections.dfy` | `Collections` | `Option`, element sets, de-duplication in first-seen order, sums |
| `strings.dfy` | `Strings` | `str.strip()`, `str.lower()`, Python string order, `sorted` |
| `numerals.dfy` | `Numerals` | `int()` of digit strings, `str()` of naturals, zero padding |
| `dates.dfy` | `Dates` | `strptime("%d-%m-%Y")`, the `"YYYY-MM"` bucket key, `strptime("%Y-%m").strftime("%b")` |
| `ledger.dfy` | `Ledger` | the row, the chart payload, type and label normalisation, `_parse_date_ym` |
| `tallies.dfy` | `Tallies` | the ordered dictionary of sums and its reference meaning |
| `expenses.dfy` | `Expenses` | `_category_expenses`, `_mode_expenses` |
| `net.dfy` | `NetCashflow` | `_monthly_net_cashflow` |
| `series.dfy` | `CashflowSeries` | `_cashflow_series` |
| `dispatch.dfy` | `Dispatch` | `ANALYTICS_MAP` and the lookup in `api_analytics` |

Modelling choices:

- Amounts are integers (cents), so `round(x, 2)` is the identity.
- A row is the datatype `Ledger.Row`. Each text field is an `Option`, with
  `None` for a missing key. `__amt` is in cents and `__dt` is an optional
  `Date`.
- A raised `ValueError` becomes `None`. `_parse_date_ym` returns `None` for
  its `(None, None)`. `_cashflow_series` returns `None` when a bucket key
  cannot be read back by `%Y`.
- `str.strip()` removes exactly the characters for which Python's
  `str.isspace()` holds, listed by code point.
- `str.lower()` is modelled on ASCII letters. The doc comment on
  `Strings.Lower` explains why this gives the same answers for the words the
  core compares against.
- `strptime("%d-%m-%Y")` follows the regular expression behind CPython's
  `_strptime`, on the stripped text the core always passes it. On such text
  day and month take one or two ASCII digits and the year
  exactly four. In some positions the regular expression also takes other
  Unicode decimal digits; "## Left out" lists them. `datetime` then checks
  the ranges: month 1 to 12, year at least 1, and the day within its month,
  leap years included.
- The bucket key `f"{y}-{m:02d}"` writes the year with `str(y)`, unpadded.
  The model keeps this. `Dates.ShortYearSortsLast` and
  `CashflowSeries.ShortYearRaises` show what it does for years below 1000.
  Such a key is not `YYYY-MM`, and it makes `_cashflow_series` raise
  `ValueError` when the key reaches the window. So, unlike the other
  aggregators, the series does not always succeed. The model follows the
  code here: `CashflowSeries.CashflowSeries` returns `None` for that case.

## Model

| member | source | states |
|---|---|---|
| Strings.TrimFacts | app.py:24 | a stripped text starts and ends with a non-space character and is empty exactly when the text is all whitespace |
| Strings.Sort | app.py:62 | `sorted` of distinct keys is strictly ascending and holds exactly the same keys |
| Dates.ParseExactly | app.py:24 | on stripped text, `strptime(s, "%d-%m-%Y")` yields date `d` if and only if `s` is one of the renderings of `d` (one- or two-digit day and month, four-digit year, ASCII digits) |
| Ledger.ParseDateYM | app.py:22-27 | `_parse_date_ym` never fails; a returned year is in 1..9999 and a returned month in 1..12 |
| Ledger.ParseDateYMExactly | app.py:22-27 | `_parse_date_ym` returns `(y, m)` exactly when the stripped `Date` text renders some valid date in month `m` of year `y` |
| Ledger.BlankDateUnparsed | app.py:22-27 | a missing, empty or blank `Date` gives no year and month |
| Ledger.KindMatches | app.py:32 | the stripped, lowered type equals a lower-case word exactly when the stripped type text is that word in any ASCII letter case; a missing type matches no non-empty word; the `Strings.Lower` doc comment says why ASCII lowering gives the same comparisons as Python's `lower()` |
| Ledger.LabelFacts | app.py:33 | a missing or blank category (mode) is labelled "Other", any other is its strip; every label is non-empty and has no surrounding whitespace |
| Dates.MonthKeyShape | app.py:55 | for a four-digit year the key is `YYYY-MM` with a zero-padded month, and it reads back as its year and month |
| Dates.KeysChronological | app.py:62 | for four-digit years, string order on keys is chronological order |
| Dates.KeysDistinct | app.py:55 | for four-digit years, distinct months get distinct keys |
| Dates.ShortYearSortsLast | app.py:55 | string order on keys is not chronological below year 1000: a year of at most three digits sorts after every later four-digit year with a smaller first digit ("999-01" after "2024-12") |
| Dates.MonthLabelOfKey | app.py:86 | `strptime(key, "%Y-%m").strftime("%b")` gives the month's name for a four-digit year and raises for a shorter one |
| Tallies.CountStep | app.py:31-34 | one turn of an aggregator loop keeps the dictionary equal to the per-key sums of the rows read so far, new keys appended in first-seen order |
| Tallies.Items | app.py:35-36 | `list(totals.keys())` lists the buckets in first-seen order and the comprehension pairs each with its total |
| Tallies.SortedItems | app.py:62-63 | `sorted(totals.keys())` lists the buckets in ascending order and the comprehension pairs each with its total |
| Tallies.SumOfColumn | app.py:35-36 | the per-label totals add up to the sum of all counted amounts |
| Tallies.KeysOfEntries | app.py:31-34 | a key is in the dictionary exactly when some row's contribution counts it |
| Tallies.SkipInvisible | app.py:31-34 | a row that contributes nothing changes no key and no total, wherever it stands |
| Expenses.ExpensesBy | app.py:29-37 | the loop computes the reference chart: labels are the dictionary keys in insertion order, data the totals |
| Expenses.CategoryExpenses | app.py:29-37 | `_category_expenses` returns the reference chart keyed by category, titled "Category Expenses" |
| Expenses.ModeExpenses | app.py:39-47 | `_mode_expenses` returns the reference chart keyed by mode, titled "Payment Mode Expenses" |
| Expenses.ExpenseChartMeaning | app.py:29-37 | labels and data have equal length; labels are distinct, are exactly the expense rows' labels, and keep the order of first appearance; each datum is the sum of that label's expense amounts; the data add up to the sum of all expense amounts |
| Expenses.LabelsNormalised | app.py:33 | every label is non-empty and stripped |
| Expenses.ExpenseRowsOnly | app.py:32 | dropping every row whose stripped, lowered type is not "expense" leaves the chart unchanged |
| NetCashflow.AddNetRow | app.py:52-61 | a row whose date does not parse is skipped; otherwise an income row adds its amount to its month, an expense or transfer-out row subtracts it, and any other type changes nothing |
| NetCashflow.TallyNet | app.py:50-61 | after the loop the totals hold each month's summed net contributions, keys in first-seen order |
| NetCashflow.MonthlyNetCashflow | app.py:49-64 | the loop computes the reference chart: months sorted, each with its total |
| NetCashflow.NetChartMeaning | app.py:49-64 | labels and data have equal length; labels are strictly ascending; a month is listed exactly when a dated income, expense or transfer-out row falls in it; each value is that month's income less expenses less transfers out |
| NetCashflow.NetTotal | app.py:56-61 | a month's total is its income less its expenses less its transfers out |
| NetCashflow.NetKeys | app.py:52-61 | a month gets a bucket exactly when a dated row of one of the three types falls in it; other types create none |
| NetCashflow.NetIgnoresRow | app.py:52-54 | an undated row, or one of any other type, changes nothing wherever it stands |
| NetCashflow.NetLabelsShape | app.py:55 | when every dated row has a four-digit year, every label has the `YYYY-MM` shape |
| CashflowSeries.Window | app.py:84-85 | the kept keys are a suffix of all keys; `months` > 0 keeps `min(#keys, months)`, 0 keeps all, a negative value drops the first `-months` |
| CashflowSeries.MonthLabels | app.py:86 | the labels exist exactly when every kept key reads back, and then each is its key's month name |
| CashflowSeries.SeriesDateMeaning | app.py:70-75 | a row's date is the loader's `__dt` when present, otherwise exactly the date its stripped `Date` text renders; with neither, the row is dropped |
| CashflowSeries.AddSeriesRow | app.py:70-82 | the date is `__dt`, else the parsed `Date`, else the row is skipped; an income row adds its amount to its month's inflow, an expense or transfer-out row to its outflow, any other type changes nothing |
| CashflowSeries.TallyFlows | app.py:67-82 | after the loop, inflow and outflow hold the per-month sums of the rows' contributions, keys in first-seen order |
| CashflowSeries.CashflowSeries | app.py:66-89 | `_cashflow_series` computes the reference series or raises `ValueError` exactly when the reference does |
| CashflowSeries.SeriesMeaning | app.py:83-88 | the three lists have the window's length; the window is sorted and is the last part of all keys; each label is its key's month name; each inflow is the month's income; each outflow is its expenses plus transfers out, 0 for a month with no such rows |
| CashflowSeries.FlowTotals | app.py:79-82 | inflow per month is income; outflow is expenses plus transfers out, added as positive amounts |
| CashflowSeries.BucketKeysMeaning | app.py:83 | a month is a bucket exactly when some dated income, expense or transfer-out row falls in it |
| CashflowSeries.SeriesNonNegative | app.py:79-82 | with no negative amount, neither series has a negative value |
| CashflowSeries.SeriesSucceeds | app.py:86 | when every row's date has a four-digit year, the series is produced |
| CashflowSeries.SeriesLabel | app.py:86 | each label is the three-letter name of its bucket's month, the year dropped |
| CashflowSeries.ShortYearRaises | app.py:86 | a dated row with a year below 1000 makes the series raise once its month is in the window |
| CashflowSeries.SeriesIgnoresRow | app.py:70-75 | a row with no `__dt` and an unparsable `Date`, or of any other type, changes nothing |
| CashflowSeries.SeriesAgreesWithNet | app.py:77-82 | without `__dt`, a month's inflow less its outflow is its monthly net cash flow |
| CashflowSeries.SeriesMonthsAreNetMonths | app.py:83 | without `__dt`, the series' bucket keys are the net cash flow chart's months |
| Dispatch.Resolve | app.py:140-141 | the lowered parameter selects the mode chart exactly when it is "mode", the net chart exactly when it is "net", and the category chart otherwise; a missing parameter means "category" |
| Dispatch.Analytics | app.py:138-144 | the endpoint returns the chart of the aggregator that the lookup selects |
| Dispatch.UnknownIsCategory | app.py:141 | a parameter naming no aggregator gives the same chart as "category" |
| Dispatch.ResolveIgnoresCase | app.py:140 | the parameter is matched without regard to ASCII case |

## Left out

- Python floats and `round(x, 2)`: amounts are exact integers (cents).
- The Flask routes, templates and `jsonify`. `Dispatch.Analytics` takes the
  query parameter and the rows as arguments. `/api/cashflow` is
  `CashflowSeries.CashflowSeries` with `months` 6.
- `load_rows`, `ensure_csv`, `append_row` and `compute_summary` are not part
  of this model. The rows are an input, and the loader's `__amt` and `__dt`
  are taken as given.
- `add_transaction`, with its fallback to today's date, and the dashboard's
  recent-transactions sort.
- The currency, index and news endpoints: they are network clients.
- `Dates.ParseDMY`: accepts ASCII digits only. In Python, `%Y`'s four
  digits, and the second digit of a two-digit day starting with 1 or 2,
  match any Unicode decimal digit; `%m` and every other `%d` form take
  ASCII digits only. So `Date` text such as "01-01-٢٠٢٤" (2024 in
  Arabic-Indic digits) or "1٥-01-2024" parses in the source but is
  rejected by the model, and the row is skipped instead of bucketed.
- `strptime` formats other than `%d-%m-%Y` and `%Y-%m`.
- `Dates.ParseDMY`: does not accept the space-and-digit day form of `%d`
  (" 1-01-2024"), because the core strips the text before parsing and a
  stripped text never starts with a space.
- `Strings.Lower`: lowers ASCII letters only, because the full Unicode
  mapping is not modelled. The doc comment explains why this gives the
  same answer for the comparisons the core makes.
- `Dates.MonthAbbrev`: gives the C-locale month names. Other locales'
  `%b` names are not modelled.
- Rows whose fields are not text or not numbers: a row is typed, so the
  `AttributeError` or `TypeError` such a row would raise is not modelled.
