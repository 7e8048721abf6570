# Appointment dashboards: the filter-and-aggregate pipeline

Two Streamlit pages show one CSV of medical appointments. `dashboard.py` is the plain page and
`dashboard_styled.py` is the styled page. Both run the same pipeline over the appointment
table:

1. Build the sidebar option lists. These are the distinct non-null formatted dates and the
   distinct non-null units. Each list is sorted ascending as text, behind the sentinel
   `"Todas"` ("all").
2. Build the filtered view `df_filtrado`. When a day is chosen, it keeps only the rows of that
   day. Then, when a unit is chosen, it keeps only the rows of that unit.
3. Build three chart tables from the view. `g1` counts appointments per unit. `g2` counts
   appointments per specialty. `g3` sums revenue per unit. Each one groups with
   `dropna=False`, so rows with a missing key form a group of their own. Each is sorted by its
   metric, descending.
4. On the styled page only: three headline figures. These are the number of appointments, the
   number of distinct units, and the total revenue.

The two files carry the same pipeline line for line. This project models it once, as pure
functions over `seq<Record>`, in seven modules:

- `Records` (records.dfy): the row type, its columns, and per-key totals.
- `Lexicographic` (lexicographic.dfy): Python's ordering of `str`.
- `OptionLists` (option_lists.dfy): the sidebar lists.
- `Filters` (filters.dfy): the view.
- `Aggregation` (aggregation.dfy): `g1`, `g2` and `g3`.
- `Kpis` (kpis.dfy): the headline figures.
- `Dashboard` (dashboard.dfy): the pipeline end to end, plus worked examples.

A record's date is already the `dd-mm-YYYY` text or `None`. `None` stands for an unparseable
date (`NaT`). A record's value is an optional integer amount.

Behaviour of the code that the model keeps:

- The day options are sorted as text, not by calendar date: `01-02-2024` comes before
  `02-01-2024` (`Dashboard.ExampleDayOrderIsTextual`).
- The code promises no order among equal metrics: it groups with sorted keys and then calls
  `sort_values` with its default unstable sort. The contracts therefore state only that each
  chart is a permutation of the groups with non-increasing metrics. The function the model
  computes puts tied groups in the order their keys first appear in the view. That is one
  order the code could produce.
- A selection of `"Todas"` means "no filter", whichever list it comes from. A unit literally
  named `Todas` therefore cannot be filtered on. The model keeps this behaviour.

## Model

| member | source | states |
|---|---|---|
| `OptionLists.DateOptions` | dashboard_styled.py:46-47 | The day list starts with "Todas". The rest is strictly ascending as text, so it has no duplicates. A day is listed exactly when some row has that formatted date. Rows with a missing date contribute nothing. |
| `OptionLists.UnitOptions` | dashboard_styled.py:48-49 | The unit list starts with "Todas". The rest is strictly ascending, so it has no duplicates. A unit is listed exactly when some row has that unit. |
| `OptionLists.OptionList` | dashboard.py:24-28 | For any column, the list is "Todas" followed by a strictly ascending list. That list holds exactly the column's non-null values. Its length is one plus the number of distinct values. |
| `OptionLists.SortedDistinct` | dashboard.py:24 | `sorted(unique(...))`: the result is strictly ascending and holds exactly the input's values. |
| `OptionLists.InsertUnique` | dashboard.py:27 | Inserting into a strictly ascending list keeps it strictly ascending. The result holds the old values plus the new one. |
| `OptionLists.DropNa` | dashboard_styled.py:48 | `dropna()` keeps exactly the non-null values of the column. |
| `OptionLists.DistinctCount` | dashboard_styled.py:60 | `nunique()` is the number of distinct non-null values. |
| `Lexicographic.LessTotal` | dashboard.py:27 | Python's string order is total: two strings are equal, or one is below the other. |
| `Lexicographic.LessTransitive` | dashboard_styled.py:46 | Python's string order is transitive. |
| `Lexicographic.StrictlySortedCard` | dashboard_styled.py:49 | A strictly ascending list has as many entries as distinct values. |
| `Filters.Keep` | dashboard_styled.py:53 | A boolean-mask `.loc` keeps a row exactly when the row is in the table and passes every criterion. It never makes the table longer. |
| `Filters.KeepCounts` | dashboard_styled.py:53 | A mask keeps every copy of a passing row, as many times as the table holds it, and no copy of a failing row. |
| `Filters.Narrow` | dashboard.py:32-33 | One conditional narrowing is the identity when "Todas" is chosen. Otherwise it is a mask on that single criterion. |
| `Filters.Filtered` | dashboard_styled.py:51-55 | With both selections "Todas", the view is the whole table. In every case, the two successive narrowings equal one mask on both criteria. |
| `Filters.FilteredIsOrderedSelection` | dashboard.py:31-35 | The view is an order-preserving subsequence of the table. A row is in it exactly when its date is the chosen day (if a day is chosen) and its unit is the chosen unit (if a unit is chosen). Each such row appears in the view as many times as in the table, so the view is fixed exactly. |
| `Filters.NullDateRow` | dashboard_styled.py:52-53 | A row with a missing date is never in a view for a specific day. With "Todas" as the day, it is kept exactly when it passes the unit choice. |
| `Filters.FilteredIdempotent` | dashboard_styled.py:51-55 | Filtering the view again with the same selection gives the same view. |
| `Filters.NarrowingsCommute` | dashboard.py:32-35 | Narrowing by unit first and by day second gives the same view as the code's order. |
| `Filters.KeepKeep` | dashboard_styled.py:52-55 | Masking twice is masking once by the combined criteria. |
| `Filters.KeepIsSubsequence` | dashboard.py:33 | A mask keeps rows in table order: its result is a subsequence of its input. |
| `Filters.KeepAccepted` | dashboard.py:31 | When every row passes, the mask returns the table unchanged. |
| `Filters.KeepRejected` | dashboard.py:35 | When no row passes, the mask returns the empty table. |
| `Records.SumOfSizes` | dashboard_styled.py:59 | Counting rows one by one gives the length of the table. |
| `Records.SizeOfPresentKey` | dashboard_styled.py:78 | A key carried by some row has a count of at least 1. |
| `Aggregation.Bump` | dashboard.py:43-44 | Adding one row to a grouping changes only that row's key. The key's entry grows by the row's contribution, or a new entry is appended. Keys stay distinct, and the grand total grows by the contribution. |
| `Aggregation.Group` | dashboard.py:43-45 | `groupby(dropna=False)` gives one entry per key met, the null key included, with distinct keys. Each key's metric is its total over the rows. The metrics add up to the total over all rows. |
| `Aggregation.InsertByMetric` | dashboard_styled.py:80 | Insertion adds exactly the new entry: the result's multiset is the old multiset plus that entry. |
| `Aggregation.InsertKeepsOrder` | dashboard_styled.py:94 | Inserting into a non-increasing list keeps it non-increasing. |
| `Aggregation.SortByMetric` | dashboard.py:46 | `sort_values(ascending=False)` returns a permutation of its input whose metrics do not increase. |
| `Aggregation.SortKeepsKeysAndTotal` | dashboard.py:62 | Sorting keeps the set of keys and the sum of the metrics. |
| `Aggregation.SortKeepsKeysDistinct` | dashboard_styled.py:108 | Sorting keeps distinct keys distinct. |
| `Aggregation.Summary` | dashboard.py:41-47 | A chart table is a permutation of the groups with non-increasing metrics. It has one entry per distinct key, the null key included. Each entry is its key's total. The entries add up to the total over the view. The table is empty exactly when the view is empty. |
| `Aggregation.CountSummary` | dashboard.py:57-63 | In a count table, every count is at least 1 and the counts add up to the number of rows. |
| `Aggregation.CountByUnit` | dashboard_styled.py:75-81 | `g1` has one entry per distinct unit, null included. Every entry is that unit's row count, at least 1. The counts add up to the view length and do not increase. An empty view gives an empty `g1`. |
| `Aggregation.CountBySpecialty` | dashboard_styled.py:89-95 | `g2` has the same properties as `g1`, with specialty as the key. |
| `Aggregation.RevenueByUnit` | dashboard_styled.py:103-109 | `g3` has one entry per distinct unit, null included. Each entry is the sum of that unit's non-missing values. The entries add up to the view's revenue and do not increase. |
| `Kpis.ComputeKpis` | dashboard_styled.py:59-61 | `total_consultas` equals the sum of `g1` and also the sum of `g2`. `unidades_ativas` is the number of distinct non-null units. `faturamento_total` equals the sum of `g3`. |
| `Kpis.ActiveUnitsAndUnitBars` | dashboard_styled.py:60 | `g1` has one bar per active unit, plus one more exactly when some row has no unit. |
| `Kpis.KeysAreValuesAndNull` | dashboard.py:43 | The `dropna=False` group keys are the non-null values, plus the null key when some row lacks the column. |
| `Dashboard.Render` | dashboard.py:24-79 | One page: the option lists and the filtered view for the selection. `g1` is the per-unit count table of the view, `g2` the per-specialty count table and `g3` the per-unit revenue table, so each entry is its key's total over the view. Both count tables add up to the view length. The revenue table adds up to the view's revenue. All three tables are non-increasing. The tables are all empty exactly when the view is empty. |
| `Dashboard.RenderStyled` | dashboard_styled.py:45-109 | The styled page is the same page plus figures that agree with its view and its `g1` and `g3` tables. |
| `Dashboard.UnknownUnitEmptiesPage` | dashboard.py:34-35 | Choosing a unit that no row carries empties the view and all three tables, with no error. |
| `Dashboard.ExampleDayView` | dashboard.py:32-33 | In the three-row example, choosing 01-03-2024 keeps its first two rows. |
| `Dashboard.ExampleDayRevenue` | dashboard.py:73-79 | On that view, revenue per unit is A: 100 then B: 50. |
| `Dashboard.ExampleDaySpecialties` | dashboard_styled.py:89-95 | On that view, the specialty table is Cardio: 2. |
| `Dashboard.ExampleAllDays` | dashboard_styled.py:75-81 | On the whole example, the unit table is A: 2 then B: 1. |
| `Dashboard.ExampleDayOrderIsTextual` | dashboard.py:24 | Day options are ordered as text: 01-02-2024 comes before 02-01-2024. |

## Left out

- Loading the CSV (`pd.read_csv`): the table is a given `seq<Record>`. A missing or unreadable file is not modelled.
- Date parsing (`pd.to_datetime(..., errors="coerce")`) and formatting (`strftime("%d-%m-%Y")`): each record carries its date already formatted. `None` stands for a date that failed to parse.
- Floating-point revenue: values are integers, for example cents. pandas' float summation and rounding are not modelled. Neither is the `float(...)` conversion of the total.
- Column types: unit and specialty are strings. pandas columns of other types (numbers, mixed) are not modelled.
- The order in which `groupby` lists its groups (sorted keys, null last). This order is visible only through ties after the descending sort. `Aggregation.Group` lists keys in first-met order instead. The contracts promise nothing about ties.
- The selectboxes limit the choice to the listed options. The model accepts any string as a choice.
- Page configuration, CSS, markdown and HTML, the KPI text formatting (`R$ {:,.2f}`), `st.dataframe`, and the record-table subtitle: presentation only.
- Plotly charts (`px.bar`, `px.pie`, `update_traces`, `update_layout`) and the pie percentages that plotly computes at render time.
- `df.copy()` and the in-place date-column overwrite: the model works on values, so aliasing does not arise.
