# Expense tracker: aggregation, export and store, in Dafny

This project models the data handling of a single-file Flask expense tracker
(`app.py`). The model covers:

- the dashboard's one pass over all expenses that builds two dictionaries:
  total amount per category, and total amount per `YYYY-MM` month key;
- sorting the month keys and building the list of values aligned with them;
- the two chart helpers' "nothing to plot" guards;
- the CSV export: a fixed header row, then one row per expense;
- the `expense` table as an in-memory store: add under a fresh id, delete by
  id or report not found, count rows, sum amounts, list newest first, and
  show the five most recent.

The modules follow the program's pieces:

| module | file | what it holds |
|---|---|---|
| `Wrappers` | `wrappers.dfy` | `Option` |
| `StringOrder` | `string_order.dfy` | Python's `str` ordering, and `sorted()` over a set of keys |
| `Dates` | `dates.dfy` | dates as `datetime` holds them; `strftime('%Y-%m')` and `strftime('%Y-%m-%d')` |
| `Expenses` | `expenses.dfy` | the `Expense` row, and the sum of amounts |
| `Aggregation` | `aggregation.dfy` | the group-by-sum loop and its reference definition |
| `Charts` | `charts.dfy` | the pie-chart and line-chart guards |
| `Dashboard` | `dashboard.dfy` | the `dashboard()` handler from aggregation to charts |
| `Export` | `export.dfy` | `export_csv()` |
| `Store` | `store.dfy` | the table and the queries the other handlers run on it |

**Amounts.** Amounts are integers, so read them as minor currency units.
Every sum is then exact, and "total conserved" is an equation rather than an
approximation.

**The loop and its reference.** The loop in `dashboard()` is imperative
(`Aggregation.Aggregate`). It updates two maps, one expense at a time. Its
result is tied to a pure reference definition:

- `KeysOf` is the set of keys;
- `SumWhere` is the sum of the amounts carrying one key;
- `GroupTotals` is the map built from those two.

The lemmas about the reference definition state what the loop means: exact
key sets, conservation of the total, and independence from the order in
which the table returns its rows.

**The month keys.** Key order is Python's code-point order on strings. The
model proves that order on `YYYY-MM` keys is chronological. This is why
`sorted()` lays the trend line out in time order.

**Two consequences of the code worth stating.**

- **Export order.** `export_csv` writes `Expense.query.all()` in table order
  (`app.py:123`). It does not sort newest first, unlike `view_expenses`
  (`app.py:110`). `Export.ExportCsv` keeps its input order.
- **Id reuse.** `id` is an SQLite `INTEGER PRIMARY KEY` declared without
  `AUTOINCREMENT` (`app.py:15`, `app.py:22`). A new row gets the largest id
  plus one, so after the newest row is deleted its id comes back.
  `Store.IdReusedAfterDeletingNewest` states this.

## Model

| member | source | states |
|---|---|---|
| `Aggregation.Aggregate` | app.py:78-93 | The category map has exactly the categories that occur, and the month map exactly the month keys that occur. Each value is the sum of the amounts carrying that key. Each map's values add up to the total of all amounts. |
| `Aggregation.AddAmount` | app.py:83-86 | One `if key in d` update: the key is present afterwards, its value is the old value (or 0) plus the amount, and every other key is unchanged. |
| `Aggregation.KeysOfMembers` | app.py:81-93 | A key ends up in a dictionary exactly when some expense produces it. |
| `Aggregation.GroupTotalsSnoc` | app.py:81-93 | Processing one more expense turns the totals of the prefix into the totals of the longer list by one dictionary update. This is the loop's step. |
| `Aggregation.GroupTotalsPrefix` | app.py:81-93 | The same step, stated on the prefixes `es[..i]` and `es[..i+1]` that the loop walks. |
| `Aggregation.SumWhereSnoc` | app.py:83-93 | Appending an expense adds its amount to the sum of its own key only. |
| `Aggregation.MapSumAccumulate` | app.py:83-93 | One dictionary update raises the sum of all values by exactly the amount added. |
| `Aggregation.TotalConserved` | app.py:81-93 | The values of either dictionary add up to the sum of all amounts, the same number the summary page's `SUM` returns. |
| `Aggregation.SumWhereAppend` | app.py:81-93 | A per-key sum over two concatenated lists is the sum of the two per-key sums. |
| `Aggregation.KeysOfAppend` | app.py:81-93 | The keys of two concatenated lists are the union of their keys. |
| `Aggregation.GroupTotalsPermutation` | app.py:75-93 | Both dictionaries depend only on which expenses there are, not on the order `query.all()` returns them in. |
| `Aggregation.KeysOfPermutation` | app.py:75-93 | Reordering the expenses does not change the key set. |
| `Aggregation.SumWherePermutation` | app.py:75-93 | Reordering the expenses does not change any key's sum. |
| `Aggregation.SumOverRemove` | app.py:81-93 | The sum of a dictionary's values over a key set is one key's value plus the sum over the rest, whichever key is taken out. |
| `Aggregation.SumOverAgree` | app.py:81-93 | Two dictionaries that agree on a key set have the same sum over it. |
| `StringOrder.SortedKeys` | app.py:96 | `sorted(monthly_data.keys())` has every key exactly once, in strictly increasing string order. |
| `StringOrder.SortedKeysUnique` | app.py:96 | Any strictly increasing list of exactly the keys is that same list, so any correct sort gives it. |
| `StringOrder.Least` | app.py:96 | A non-empty key set has a key smaller than all the others. |
| `StringOrder.LessIrreflexive` | app.py:96 | No string is below itself. |
| `StringOrder.LessAsymmetric` | app.py:96 | Two strings are never below each other. |
| `StringOrder.LessTransitive` | app.py:96 | String order is transitive. |
| `StringOrder.LessTotal` | app.py:96 | Of two distinct strings, one is below the other. |
| `StringOrder.LessConcat` | app.py:96 | For prefixes of equal length, comparing the concatenations compares the prefixes first and then the rest. |
| `Dates.MonthKey` | app.py:89 | A month key is 7 characters with a dash at position 4; `MonthKeyFormat`, `MonthKeyInjective` and `MonthKeyOrder` give its digits, injectivity and order. |
| `Dates.MonthKeyFormat` | app.py:89 | A month key has length 7: four digits reading back as the year, a dash, and two digits reading back as the month. |
| `Dates.MonthKeyInjective` | app.py:89 | Two dates have the same month key exactly when they fall in the same year and month. |
| `Dates.MonthKeyOrder` | app.py:89 | One month key is below another in string order exactly when its month comes earlier. |
| `Dates.ZeroPadDigits` | app.py:89 | Zero padding to width `w` gives `w` digits that read back as the number, whenever the number fits. |
| `Dates.ZeroPadInjective` | app.py:89 | Distinct numbers that fit the width have distinct padded forms. |
| `Dates.ZeroPadOrder` | app.py:89 | Padded forms of the same width compare as strings the way the numbers compare. |
| `Dates.IsoDate` | app.py:132 | An exported date is 10 characters: the month key, then a dash; `IsoDateFormat` and `IsoDateInjective` give the day digits and injectivity. |
| `Dates.IsoDateFormat` | app.py:132 | An exported date has length 10: the month key, a dash, and two digits reading back as the day. |
| `Dates.IsoDateInjective` | app.py:132 | Two dates are written the same exactly when they are the same date. |
| `Dates.DaysInMonth` | app.py:25 | Every month of a Gregorian year has 28 to 31 days. |
| `Expenses.Total` | app.py:44 | The sum of all amounts, non-negative when every amount is; `TotalAppend` and `Aggregation.TotalConserved` relate it to the parts and to the dashboard. |
| `Expenses.TotalAppend` | app.py:44 | The total of two concatenated lists is the sum of their totals. |
| `Dashboard.MonthlyValues` | app.py:97 | One value per sorted month, the value at position `i` being the total of month `i`; `TrendSeriesConserved` shows the values add up to the sum of the dictionary. |
| `Dashboard.TrendSeriesConserved` | app.py:96-97 | The line chart's values add up to the sum of all the month totals: every month is plotted once. |
| `Dashboard.TrendIsChronological` | app.py:89-97 | Of two months in the sorted list, the one that comes first is the earlier month. |
| `Dashboard.KeysOfEmpty` | app.py:78-93 | The dictionaries are empty exactly when there are no expenses. |
| `Dashboard.ChartsAbsentExactlyWhenEmpty` | app.py:100-101 | Both chart helpers return `None` exactly when the table is empty. |
| `Dashboard.BuildDashboard` | app.py:73-106 | The pie chart shows every category with its total. The line chart shows every month once, in chronological order, each with its total, and their sum is the total of all amounts. Each chart is absent exactly when there are no expenses. |
| `Charts.GeneratePieChart` | app.py:149-151 | No chart for an empty dictionary; otherwise a chart of exactly that dictionary. |
| `Charts.GenerateLineChart` | app.py:167-169 | No chart for an empty month list; otherwise a chart of exactly those months and values. |
| `Export.ExportCsv` | app.py:121-136 | There is one row more than there are expenses. The first row is the header `Date, Category, Description, Amount (₹)`. Row `i + 1` is expense `i`'s row, in input order. |
| `Export.CsvWriter.WriteRow` | app.py:128-136 | Each `writerow` appends exactly one row. |
| `Export.ExpenseRow` | app.py:131-136 | A data row has as many cells as the header, a text date first and the amount last; `ExpenseRowInjective` shows it keeps everything but the id. |
| `Export.ExpenseRowInjective` | app.py:131-136 | Two expenses give the same row exactly when their date, category, description and amount agree. |
| `Export.ExportDateHasMonthKey` | app.py:132 | The exported date is 10 characters long and begins with the dashboard's month key for that expense. |
| `Store.ExpenseStore.Add` | app.py:63-65 | The new row goes at the end under a fresh id, one above the largest id present. Nothing else changes, and ids stay unique and positive. |
| `Store.ExpenseStore.Delete` | app.py:115-117 | `found` holds exactly when the id is present. If so, exactly that row goes and the others keep their order. If not, nothing changes. Ids stay unique. |
| `Store.ExpenseStore.Count` | app.py:45 | The number of rows, which is also the number of distinct ids. |
| `Store.ExpenseStore.TotalExpenses` | app.py:44 | `SUM(...) or 0` equals the sum of all amounts, and 0 on an empty table. |
| `Store.ExpenseStore.AllNewestFirst` | app.py:110 | Every row exactly once (a permutation), with no row older than a row after it. |
| `Store.ExpenseStore.Recent` | app.py:48 | The summary page's list: `min(5, count)` rows, newest first, taken from the table, no row left out newer than a row shown. |
| `Store.SqlSum` | app.py:44 | SQL `SUM` is NULL exactly on an empty table and otherwise the sum of all amounts. |
| `Store.MostRecent` | app.py:48 | `min(n, count)` rows, newest first, taken from the table. No row left out is newer than a row shown. |
| `Store.NewestPrefix` | app.py:48 | Cutting a newest-first list leaves the rows cut off exactly what the prefix lacks, and none of them is newer than a kept row. |
| `Store.SortNewestFirst` | app.py:110 | The sorted rows are a permutation of the table, newest first. |
| `Store.InsertByDate` | app.py:110 | One insertion step adds exactly one row to the multiset. |
| `Store.InsertKeepsNewestFirst` | app.py:110 | Inserting into a newest-first list keeps it newest first. |
| `Store.MaxId` | app.py:22 | The largest id in the table: no id exceeds it, and it is an id of the table, or 0 when the table is empty. |
| `Store.NextId` | app.py:63-65 | The id a new row gets is positive, above every id in use, and either 1 or one above an id in use (the largest). |
| `Store.RemoveId` | app.py:115-117 | After deleting an id, the rows left are exactly the old rows with another id. |
| `Store.RemoveAbsentId` | app.py:115 | Deleting an id that is not present changes nothing. |
| `Store.RemovePresentId` | app.py:115-117 | With unique ids, deleting a present id removes exactly one row. |
| `Store.RemoveKeepsValid` | app.py:115-117 | Deleting keeps the ids unique and positive. |
| `Store.RemovedIdsDistinct` | app.py:115-117 | Ids left after a delete are still pairwise distinct. |
| `Store.RemoveIdAppend` | app.py:115-117 | Deleting from a concatenation deletes from each part, so the rows that stay keep their relative order. |
| `Store.RemoveIdSingle` | app.py:115-117 | A single row stays exactly when its id differs from the deleted one. |
| `Store.IdsOfMembers` | app.py:22 | An id is in use exactly when some row has it. |
| `Store.IdsOfCount` | app.py:45 | With unique ids, there are as many ids as rows. |
| `Store.AddThenDeleteRestores` | app.py:115-117 | Deleting the row just added restores the table. |
| `Store.IdReusedAfterDeletingNewest` | app.py:63-65 | After the newest row is deleted, the next row added gets the same id again. |

## Left out

- Amounts are `float` in the source. The model uses exact integers, so float rounding in the sums is not modelled.
- Flask routing, templates, flash messages and redirects are left out. The handlers are modelled from the point where they have their data.
- The ORM and the session are not modelled. The table is a sequence in memory, and `commit` is assumed to succeed.
- Form parsing (`float()`, `strptime`) and its errors are left out. The store receives an amount and a valid date.
- The `datetime.utcnow` default for the date column and the time of day are not modelled. A date has day granularity.
- matplotlib drawing, PNG encoding and base64 are not modelled. A chart is the data it would plot. matplotlib's refusal of negative pie wedges is not modelled either.
- Dictionary insertion order, and therefore the order of the pie slices, is not modelled. Only the sorted month list carries an order.
- CSV quoting, line endings, number formatting and the UTF-8 encoding of the response are not modelled. A row is the list of values passed to `writerow`.
- The description column is nullable in the source. The model's description is always a string.
- Dates.MonthKey and Dates.IsoDate pad the year to four digits. Python's `%Y` on glibc leaves years below 1000 unpadded, so for those years the source's keys differ. Dates.MonthKeyFormat, Dates.IsoDateFormat and Dates.MonthKeyOrder hold only for the model's keys: with an unpadded year, "999-05" sorts after "1000-01", and the source's trend line is not chronological there.
- `Dashboard.MonthlyValues` requires every listed month to be in the dictionary. The source can rely on this because it iterates the dictionary's own sorted keys.
- `Store.SortNewestFirst` fixes one order among rows of the same date. SQL leaves that order unspecified, so the contracts only state the newest-first property and the permutation.
- `Store.NextId` does not model SQLite's fallback to a random unused id after the largest possible rowid, and ignores rowids set explicitly.
