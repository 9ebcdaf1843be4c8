# Bike-sharing dashboard: the record pipeline in Dafny

The dashboard (`Dashboard/dashboard.py`) is a Streamlit script that loads a
table of daily bike-rental records. It cleans the table, keeps the days in a
chosen date range and season, and draws three things:

- the rental totals per (year, season);
- an RFM table (recency, frequency, monetary) with one row per day;
- three "top 5" selections of the RFM table.

This project models that pipeline on a sequence of day records and proves
what each step does. Charts and widgets are not modelled.

- **Records** (`records.dfy`). A date is a whole day number, `None` when the
  text could not be parsed. Season is an optional string and year an
  optional integer. `total_user` is a natural number.
- **Cleaning** (`cleaning.dfy`, lines 23-31), the imperative method
  `Normalize`:
  - it coerces every date through the parser, so a bad date becomes `None`
    rather than an error;
  - it collects the category domains of `year` and `season`;
  - it then drops the rows whose year is missing.

  The domains are collected before the drop, just as the source converts
  the columns to categories before `dropna`. So a season seen only on a
  dropped row is still a category.
- **Filters** (`filters.dfy`, lines 48-56).
  - The date filter keeps exactly the rows dated within the inclusive range,
    in order. A missing date fails both comparisons.
  - The season filter returns its input unchanged for the string
    `"All Seasons"`. Any other string keeps exactly the rows of that season,
    in order.
- **Seasonal totals** (`seasonal.dfy`, line 60). One group per (year, season)
  pair of the category domains, including empty ones (`observed=False`).
  Each group holds the sum of `total_user` of its rows. The group sums add
  up to the total of the rows.
- **RFM** (`rfm.dfy`, lines 80-87). `CalculateRfm` builds the table grouped
  by date, then adds the recency column. The predicate `IsRfmOf` states what
  the table is:
  - dates strictly increasing, since the group-by sorts its keys;
  - exactly the distinct dates of the input;
  - frequency is the count of the day's rows, and monetary is the sum of
    their `total_user`;
  - date plus recency is the input's latest date.

  The lemmas prove that these facts fix the table uniquely. They also prove
  that frequencies sum to the row count and monetary values sum to the user
  total. Recency is never negative, and it is zero exactly on the last row.
- **Top 5** (`top_five.dfy`, lines 98, 105, 112). `sort_values` followed by
  `head(5)`. Each selection has `min(5, n)` rows, all taken from the table,
  in key order. No row left out ranks before a selected one.
- **Pipeline** (`dashboard.dfy`). `RunDashboard` takes the file-existence
  check and the loaded table as parameters. It returns an error wherever the
  script stops before drawing a table: `DataNotFound` for a missing file,
  `EmptyDataset` for an empty table, and `NoDatedRecords` when no cleaned row
  has a date, so the date minimum and maximum at line 41 are missing and the
  slider at lines 42-47 has no bounds. Otherwise it returns every table,
  with the end-to-end facts proved. A three-day example is worked through
  as a lemma.

Two points about the code that shape the contracts:

- **Tie order.** `sort_values` is called with its default algorithm, which
  is not stable. So the model claims only key order, not the order among
  rows with equal keys.
- **The wildcard.** It is compared as a string. A data season literally
  named `"All Seasons"` could not be selected on its own.

## Model

| member | source | states |
|---|---|---|
| Cleaning.DropMissingYear | Dashboard/dashboard.py:31 | every surviving row is an input row with a year, and the result is no longer than the input |
| Cleaning.DropMissingYearExact | Dashboard/dashboard.py:31 | every row with a year survives as often as it occurs, and no row without a year survives |
| Cleaning.DropMissingYearKeepsOrder | Dashboard/dashboard.py:31 | the survivors are a subsequence of the input, so relative order is kept |
| Cleaning.CleanedFacts | Dashboard/dashboard.py:23-31 | the cleaned table is at most as long as the raw one, keeps the coerced rows' order, holds exactly the coerced rows having a year, and each row's year, and its season if present, lie in the category domains |
| Cleaning.Normalize | Dashboard/dashboard.py:23-31 | the loop-built frame is the cleaned table; the year and season domains are duplicate-free and hold exactly the values present before the drop |
| Filters.FilterDates | Dashboard/dashboard.py:48-51 | every kept row is an input row with a date lo <= date <= hi, and the result is no longer than the input |
| Filters.FilterDatesExact | Dashboard/dashboard.py:48-51 | a row survives, as often as it occurs, exactly when its date is present and within [lo, hi] |
| Filters.FilterDatesKeepsOrder | Dashboard/dashboard.py:48-51 | the kept rows are a subsequence of the input |
| Filters.MissingDateNeverSelected | Dashboard/dashboard.py:48-51 | a row whose date is missing is not selected by any range |
| Filters.KeepSeason | Dashboard/dashboard.py:56 | every kept row is an input row with the selected season, and the result is no longer than the input |
| Filters.KeepSeasonExact | Dashboard/dashboard.py:56 | a row survives, as often as it occurs, exactly when its season equals the selection |
| Filters.KeepSeasonKeepsOrder | Dashboard/dashboard.py:56 | the kept rows are a subsequence of the input |
| Filters.FilterSeason | Dashboard/dashboard.py:54-56 | "All Seasons" returns the input unchanged; any other choice keeps exactly the rows of that season; either way input order is kept |
| Seasonal.SeasonalTotals | Dashboard/dashboard.py:60 | there are (number of year categories) times (number of season categories) entries; each entry's year and season are categories and its total is the sum over the rows of that pair |
| Seasonal.EveryPairReported | Dashboard/dashboard.py:60 | every (year, season) category pair has an entry, including pairs no row falls into (observed=False) |
| Seasonal.NoPairTwice | Dashboard/dashboard.py:60 | with duplicate-free domains no pair appears twice |
| Seasonal.SeasonalTotalsSum | Dashboard/dashboard.py:60 | the entries add up to the total of the rows whose year and season are categories |
| Seasonal.SeasonalTotalsPreserveSum | Dashboard/dashboard.py:60 | when every row's year and season are categories, the entries add up to the total of all rows |
| Rfm.LatestDate | Dashboard/dashboard.py:81 | the maximum is absent exactly when no row has a date, and otherwise is a present date no other date exceeds |
| Rfm.SortedDates | Dashboard/dashboard.py:82 | the group keys are strictly increasing and are exactly the distinct present dates |
| Rfm.GroupByDate | Dashboard/dashboard.py:82-85 | one group per distinct date, the dates strictly increasing and all present in the input; frequency is the number of rows of that date, monetary the sum of their total_user |
| Rfm.CalculateRfm | Dashboard/dashboard.py:80-87 | the result is the RFM table of its input: sorted distinct dates, per-date count and sum, and date + recency is the latest input date |
| Rfm.AggregateSums | Dashboard/dashboard.py:82-85 | over any table with dates in increasing order and per-date aggregates, frequencies sum to the count and monetary values to the total of the rows of those dates |
| Rfm.RfmPreservesCounts | Dashboard/dashboard.py:82-85 | when every input row has a date, the frequencies sum to the number of input rows and the monetary values to their total_user |
| Rfm.RfmRecency | Dashboard/dashboard.py:81-86 | recency is never negative and is zero exactly for the latest date, which is the last row |
| Rfm.RfmDeterministic | Dashboard/dashboard.py:82-86 | two tables that are both the RFM table of the same input are equal |
| Rfm.RfmOnePerDay | Dashboard/dashboard.py:82-85 | when no two rows share a date, every frequency is 1 and every monetary value is that day's total_user |
| TopFive.SortValues | Dashboard/dashboard.py:98 | the sorted table is a permutation of the input, ordered by the key (ascending, or descending) |
| TopFive.TopBy | Dashboard/dashboard.py:98 | min(n, len) rows drawn from the table, in key order, and no row left out ranks before a selected one |
| TopFive.TopRecency | Dashboard/dashboard.py:98 | at most five rows, min(5, len) exactly, from the table, recency non-decreasing, and no omitted row is more recent |
| TopFive.TopFrequency | Dashboard/dashboard.py:105 | min(5, len) rows from the table, frequency non-increasing, and no omitted row has a higher frequency |
| TopFive.TopMonetary | Dashboard/dashboard.py:112 | min(5, len) rows from the table, monetary non-increasing, and no omitted row has a higher monetary value |
| Dashboard.SelectedFacts | Dashboard/dashboard.py:48-56 | each selected row is an input row, dated within the range and of the chosen season unless the wildcard is chosen; the selection keeps input order |
| Dashboard.UnparsedDateNeverSelected | Dashboard/dashboard.py:23-51 | a record whose date text does not parse is never among the selected rows, whatever the range and season |
| Dashboard.SelectedInCategories | Dashboard/dashboard.py:25-56 | after cleaning and filtering, each row's year and its season, if present, are category values |
| Dashboard.PipelinePreservesTotals | Dashboard/dashboard.py:48-89 | on the filtered table the seasonal entries add up to its total (when every row has a season), and the RFM frequencies and monetary values add up to its row count and total |
| Dashboard.RunDashboard | Dashboard/dashboard.py:8-112 | a missing file gives DataNotFound, an empty table EmptyDataset, and a cleaned table without any dated row NoDatedRecords, each exactly in its case; otherwise the view holds the duplicate-free year and season category domains of the coerced table, the filtered rows (each with a year, dated within the range, of the chosen season), the seasonal totals of the filtered rows over those domains (adding up to their total when every row has a season), the RFM table of the filtered rows with its count and total preserved, and the three top-5 selections of that table |
| Dashboard.ExampleSelection | Dashboard/dashboard.py:48-56 | for three days (two in spring, users 10, 20, 5), selecting spring over the full range keeps the first two days, 30 users |
| Dashboard.ExampleRfmIsTable | Dashboard/dashboard.py:80-87 | for those three days the table with recency 2, 1, 0, frequency 1, 1, 1 and monetary 10, 20, 5 is their RFM table |
| Dashboard.ExampleScenario | Dashboard/dashboard.py:80-87 | for those three days that table is the only RFM table |

## Left out

- Reading the file and checking that it exists (lines 8-20) are I/O. `RunDashboard` takes their outcome as parameters: a flag for "file exists" and the loaded records.
- Date parsing (`pd.to_datetime`, line 23) is a library call. It is the parameter `parse`, whose `None` marks text that is not a date. Dates are whole days, so time-of-day parts and the flooring of `.dt.days` on partial days are not modelled.
- The categorical conversion of `month`, `weekday`, `holiday`, `workingday` and `weather` (lines 25-28) matters only to the weather group-by at line 70, which then reports every weather category including absent ones; that group-by is left out (see below), so those columns are not part of the modelled records. For `year` and `season` the model keeps only the category domains.
- Cleaning.Normalize: the domains are kept in first-appearance order. pandas sorts the categories, so the model does not fix the order of the category lists.
- Seasonal.SeasonalTotals: the entries come year by year, in the order of the category lists. The sorted category order of pandas is not modelled (see the line above).
- Seasonal.SeasonalTotalsPreserveSum: stated for rows whose season is present. The group-by drops rows with a missing season from every group, so the total then counts only the rows with a season.
- Missing `total_user` values, which pandas skips when summing, are not modelled. `total_user` is a natural number on every row.
- Mean rentals by weather (line 70) divides in floating point and is not modelled.
- Streamlit widgets, charts and layout (lines 36-47, 58-59, 61-69, 71-76, 90-119 apart from the sort and head calls) are UI code. The date range and the season choice are parameters. Of the slider bounds (line 41) only their absence is modelled (the `NoDatedRecords` stop); the range passed need not lie within them. The option list (line 54) is not modelled, so any string can be passed as the season choice. The `rfm_result.head()` display (line 90) is not modelled.
- TopFive.SortValues: the order among rows with equal keys is not claimed. The default `sort_values` algorithm is not stable, so only the key order is stated.
