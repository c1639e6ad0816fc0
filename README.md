# Udupi crime dashboard: a verified model of the chart callback

The dashboard loads a table of crime records (crime type, location, year,
month and a time-of-day code 0..4). It offers five multi-select dropdowns
and redraws one bar chart whenever a dropdown changes. This project models
the parts of `app.py` that compute something:

- the two fixed label tables: time-of-day codes to labels, and month numbers to labels;
- the five dropdown option lists built from those tables and from the data;
- the callback `update_plot`, which does four things:
  - narrows the records dimension by dimension, skipping a dimension whose selection holds its
    "Select All: ..." sentinel;
  - translates selected time-of-day labels back into codes;
  - counts the surviving records per (month, crime type);
  - picks the chart title, the detailed one when exactly one year entry is selected.

Modules, one file each:

- `Records` (records.dfy): a crime record, a dropdown entry (`Choice`: the sentinel `All`
  or a value `Val(v)`) and the five selections.
- `Tables` (tables.dfy): the label tables and the label-to-code translation.
- `Text` (text.dfy): how an f-string renders an integer, and its inverse parser.
- `Catalog` (catalog.dfy): the option lists and pandas `unique()`.
- `Filtering` (filtering.dfy): the filter statements, and the specification they meet.
  A record survives exactly when it passes every dimension's test, in any order.
- `Aggregation` (aggregation.dfy): `groupby(['Month', 'Crime Type English']).size()`.
  The rows come in sorted group-key order, as pandas sorts group keys by default.
- `Dashboard` (dashboard.dfy): `update_plot` itself, as the method `UpdatePlot` over the
  method `FilterData`, proved against the function `Expected`.

The title test is `len(selected_year) == 1`, and the list
`['Select All: Year']` has length one. So with every dropdown on its
sentinel alone the detailed title is used, spelled with the sentinel texts
(`Dashboard.SentinelOnlySelection`). The detailed title indexes
`[0]` into the crime-type list and into the time-of-day list. That raises
`IndexError` when the crime-type list is empty. It also raises it when time
of day is filtered and none of the selected entries is one of the five
labels, because the translated code list is then empty. The model returns
`Plot.IndexError` in exactly those cases (`Dashboard.IndexErrorCases`).

## Model

| member | source | states |
|---|---|---|
| Tables.TimeOfDayLabel | app.py:13-19 | the label of a code 0..4 from `time_of_day_mapping`; no other code carries that label |
| Tables.MonthLabel | app.py:22-35 | the label of a month 1..12 from `month_labels`; no other month carries that label |
| Tables.TimeOfDayLabelsDistinct | app.py:13-19 | two time-of-day codes have the same label iff they are the same code, so the reverse lookup is unambiguous |
| Tables.MonthLabelsDistinct | app.py:22-35 | two months have the same label iff they are the same month |
| Tables.CodesOf | app.py:150 | the translated list holds exactly the codes 0..4 whose label is selected, strictly ascending (dictionary key order) |
| Tables.FirstCodeIsSmallest | app.py:150 | when the translation is non-empty, its first element is the smallest code whose label is selected |
| Tables.LabelRoundTrip | app.py:13-19 | translating the single label of code k yields exactly [k], and looking that code up gives the label back |
| Tables.NoLabelNoCode | app.py:150 | a selection holding none of the five labels, including the empty one, translates to no codes |
| Text.IntToString | app.py:160 | `str` of an int inside the f-string: an optional minus sign exactly for negative numbers, then digits without a leading zero (except for 0 itself) |
| Text.IntRoundTrip | app.py:160 | the decimal text an f-string produces for an integer year or code parses back to that integer |
| Catalog.Unique | app.py:39-41 | `unique()` keeps exactly the values of the column, each once |
| Catalog.UniqueFirstSeen | app.py:39-41 | `unique()` lists values in the order of their first appearance |
| Catalog.UniqueCardinality | app.py:39-41 | `unique()` has as many entries as the column has distinct values |
| Catalog.ValueOptions | app.py:39-41 | the list comprehension `{'label': v, 'value': v}`: one entry per value, at the same position, label equal to value |
| Catalog.DistinctOptions | app.py:39-41 | sentinel first, then one entry per distinct column value, with label equal to value, in first-seen order, each value covered |
| Catalog.CrimeTypeOptions | app.py:39 | the crime-type list is the sentinel plus one entry per distinct crime type of the data, label equal to value, every record's type offered |
| Catalog.LocationOptions | app.py:40 | the same for locations |
| Catalog.YearOptions | app.py:41 | the same for years, with the year as both label and value |
| Catalog.MonthOptions | app.py:42 | thirteen entries: month m labelled by the month table at position m-1, sentinel last |
| Catalog.MonthOptionsDistinct | app.py:42 | the twelve month entries differ pairwise in both label and value |
| Catalog.TimeOfDayOptions | app.py:43 | six entries: the sentinel, then label k of the table at position k+1 with the label (not the code) as value |
| Catalog.TimeOfDayOptionSelectsItsCode | app.py:43 | choosing only the k-th time-of-day entry filters on exactly code k-1 |
| Filtering.Narrow | app.py:138 | `isin` keeps exactly the rows whose column value is in the list, never adding rows |
| Filtering.NarrowKeepsEveryMatch | app.py:138 | boolean indexing keeps every copy of a matching row and no copy of any other row, in the input's order |
| Filtering.Step | app.py:137-151 | one `if 'Select All: ...' not in ...` statement: a dimension whose selection holds its sentinel leaves the rows as they are |
| Filtering.Sift | app.py:137-151 | the specification of the filters: a row survives iff it is in the input and passes every tested dimension |
| Filtering.SiftMultiplicity | app.py:137-151 | the specified survivors keep every copy of a row that passes the tests and no copy of any other row |
| Filtering.Filtered | app.py:137-151 | the records that the five dropdowns let through: exactly those in the data that pass every dimension's test |
| Filtering.FilteredMultiplicity | app.py:137-151 | each record survives as many times as it occurs in the data when it passes all five tests, and not at all otherwise |
| Filtering.StepExtendsSift | app.py:137-151 | running one more filter statement on the survivors of some dimensions gives the survivors of those dimensions plus that one |
| Filtering.SourceOrderFilters | app.py:137-151 | the five statements, in the source's order, leave exactly the specified survivors |
| Filtering.ApplyInOrderSifts | app.py:137-151 | applying the filter statements in any sequence gives the survivors of the dimensions listed |
| Filtering.AnyOrderFilters | app.py:137-151 | any order of the five filters that covers all dimensions gives the same rows as the source order |
| Filtering.SiftDependsOnDimsOnly | app.py:137-151 | the survivors depend only on which dimensions are tested, not on their order or repetition |
| Filtering.FilteredMembership | app.py:137-151 | a record survives iff it is in the data and, per dimension, the sentinel is selected or its value is selected (for time of day: its code is in 0..4 and its label is selected) |
| Filtering.FilteredIsSubsequence | app.py:137-151 | the survivors keep their original relative order |
| Filtering.SentinelsKeepEverything | app.py:137-151 | with every sentinel selected, nothing is filtered out |
| Filtering.ClearedSelectionFiltersAll | app.py:137-151 | an emptied dropdown in any dimension lets no record through |
| Aggregation.StrLessTransitive | app.py:155 | the ordering of crime-type strings used for sorting group keys is transitive |
| Aggregation.StrLessTotal | app.py:155 | any two different strings are ordered one way or the other |
| Aggregation.KeyLessTotal | app.py:155 | any two different group keys are ordered |
| Aggregation.Bump | app.py:155 | adding one record to the groups raises the sum of the counts by exactly one |
| Aggregation.BumpSorted | app.py:155 | adding one record to sorted positive rows keeps them sorted and positive |
| Aggregation.BumpCount | app.py:155 | adding one record raises the count of its key by one and leaves every other key's count alone |
| Aggregation.Aggregate | app.py:155 | the groupby rows are strictly sorted by (month, crime type), each counts at least one record, and the counts add up to the number of records |
| Aggregation.AggregateCounts | app.py:155 | the count for a key equals the number of records with that key |
| Aggregation.GroupCounts | app.py:155 | one row per (month, crime type) pair present, counting its records (at least one), rows in key order, counts summing to the number of records |
| Dashboard.TimeOfDayForTitle | app.py:149-150 | `selected_time_of_day` after the filters: the entries as given when the sentinel is among them, otherwise exactly the codes 0..4 of the selected labels, strictly ascending as the dictionary yields them |
| Dashboard.ShowYear | app.py:160 | a concrete year is rendered as decimal text that reads back as that year; the sentinel as its own text |
| Dashboard.ShowTimeOfDay | app.py:160 | a translated code is rendered as decimal text that reads back as that code; a selected label as itself; the sentinel as its own text |
| Dashboard.DetailedTitle | app.py:160 | the detailed title begins with the constant title and contains the crime type, year and time of day verbatim |
| Dashboard.ChartTitle | app.py:153-171 | the title of either branch, or none where the f-string raises `IndexError`; every title begins with the constant title |
| Dashboard.Expected | app.py:134-171 | the callback's specified result; a drawn figure has sorted, positive rows counting all survivors, under a title that begins with the constant title |
| Dashboard.FilterData | app.py:135-151 | the imperative filtering leaves exactly the specified survivors, and the time-of-day list afterwards is the entries as given (sentinel selected) or the translated codes |
| Dashboard.UpdatePlot | app.py:134-171 | the callback's result is the specified plot: IndexError or the aggregated survivors under the chosen title, with the same grouping in both title branches |
| Dashboard.GenericTitleUnlessOneYear | app.py:164-171 | unless exactly one year entry is selected, the figure carries the constant title |
| Dashboard.IndexErrorCases | app.py:153-160 | the callback fails iff one year entry is selected and either the crime-type list is empty or time of day is filtered by a list holding none of the five labels |
| Dashboard.FilteredTitleShowsSmallestCode | app.py:149-160 | with time of day filtered, the title shows the smallest selected code as a number, not a label |
| Dashboard.UnfilteredTitleShowsFirstEntry | app.py:153-160 | with the time-of-day sentinel selected, the title shows the first time-of-day entry as given |
| Dashboard.TitleNamesYearAndCrimeType | app.py:149-160 | for one concrete year, a concrete first crime type and a time-of-day list holding the sentinel or at least one label, a title is produced and both appear in it |
| Dashboard.SentinelOnlySelection | app.py:137-160 | every dropdown on its sentinel alone: all records are counted, and the detailed title spelled with the sentinel texts is used |
| Dashboard.SentinelsCountEverything | app.py:137-171 | whenever every dropdown contains its sentinel a figure is drawn whose counts add up to the dataset size |
| Dashboard.ClearedDropdownDrawsNothing | app.py:137-171 | an emptied dropdown gives either IndexError or a chart with no rows |
| Dashboard.DrawnRowsCountSurvivors | app.py:153-166 | the drawn rows group exactly the surviving records by (month, crime type), in key order, each count matching and all adding up to the number of survivors |

## Left out

- Loading the CSV file (app.py:10): the dataset is a parameter, as a sequence of records with integer year, month and time-of-day columns.
- The page layout, the widgets and their initial values (app.py:37, 55-123). The model assumes every dropdown value reaches the callback as a list. A bare string initial value, or `None` from a cleared single-select, is not modelled.
- The callback registration and the server start (app.py:126-133, 183-184): there is no event loop in the model.
- The colour scales, `px.bar`, and axis and layout styling (app.py:46-52, 156-159, 161-163, 167-170, 172-180). A figure is reduced to its aggregated rows and its title.
- Missing values (NaN) and mixed column types in the CSV: the model's columns are total and typed, so pandas' handling of NaN in `unique()`, `isin` and `groupby` is not captured.
- Year option labels: the source uses the year integer as the label. The model keeps it typed as an integer, not as its rendered text.
- Filtering.Narrow: its own contract states membership and the length bound only. The multiplicity and order it keeps are stated by `Filtering.NarrowKeepsEveryMatch`, which keeps the filter proofs small.
- Filtering.Step: its own contract states only the skipped case. What a step keeps otherwise is stated by `Filtering.StepExtendsSift`.
- Catalog.CrimeTypeOptions: the first-seen order of the entries is stated on `Catalog.DistinctOptions` over the column, not restated in terms of the records.
- Catalog.LocationOptions: as for crime types.
- Catalog.YearOptions: as for crime types.
- Aggregation: pandas sorts string group keys by Unicode code point. The model compares strings by character code, which is the same order. The integer-typed month sorts numerically.
- Idempotence of the callback is not stated separately: `UpdatePlot`'s result is fully determined by its inputs (`plot == Expected(data, sel)`).
