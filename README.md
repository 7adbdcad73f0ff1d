# Bike rental dashboard: date filter and aggregations

This project models the computational core of the bike-rental dashboard
script `dashboard/dashboard.py`. The script loads a daily rental table with
the columns `dteday`, `weekday`, `season`, `casual`, `registered` and `cnt`.
It keeps the rows whose date lies in the selected range, both ends
included. From the kept rows it computes:

- the monthly chart table, `month_users_df`: `cnt` summed per calendar
  month, every month from the first to the last one, each labelled `%b-%y`;
- the weekday and season chart tables, `weekday_users_df` and
  `season_users_df`: `casual` and `registered` summed per category, melted
  into a long table tagged `casual_users` or `registered_users`, and
  ordered Monday…Sunday or Spring, Summer, Fall, Winter;
- the three headline metrics: the sums of `cnt`, `casual` and
  `registered`.

Everything is a pure function over `seq<DailyRecord>`, as the script's
dataframe expressions are. The modules are:

- `Records`: dates, the two category enums and the row type.
- `Sums`: column sums, whole or per group.
- `DateFilter`: the date filter.
- `MonthlyTotals`: the monthly resample.
- `Breakdowns`: the group, melt and sort pipeline for any category.
- `Categories`: that pipeline applied to weekdays and seasons.
- `Dashboard`: one refresh of the page, filter first and then every table
  and metric.

Modelling choices:

- Dates are already-parsed `(year, month, day)` values. They are ordered
  the way pandas orders midnight timestamps, year first, then month, then
  day. The script compares `dteday` with `str(start_date)`; that string
  becomes a timestamp at midnight, so the comparison is a date comparison.
- Weekday and season are enums, so every row's category lies in the
  canonical list. `ParseWeekday` and `ParseSeason` model the name lookup
  that `pd.Categorical` does; any other name becomes missing.
- The breakdown is modelled as `SortByRank(Melt(GroupBy(...)))`. The sort
  is one stable sort by canonical position. pandas' default sort is not
  stable, so the specification `IsBreakdownOf` does not fix the order of a
  category's casual and registered rows. Every other property is stated
  against that specification.
- The monthly table has one row for every month from the first month to
  the last month, as the monthly resample emits them, with 0 for a month
  without rows (`MonthsCovered`).

## Model

| member | source | states |
|---|---|---|
| `Records.MinDate` | dashboard/dashboard.py:81 | the result is the date of some row and no row is earlier |
| `Records.MaxDate` | dashboard/dashboard.py:82 | the result is the date of some row and no row is later |
| `Sums.Group` | dashboard/dashboard.py:29 | the group holds every row of the table with that key, as often as it occurs there, and no other row |
| `Sums.GroupIsSubsequence` | dashboard/dashboard.py:29 | a group keeps its rows in table order |
| `Sums.KeyedTotalIsGroupTotal` | dashboard/dashboard.py:29-33 | a per-group sum is the column total of that group's rows |
| `Sums.KeyedTotalPermutation` | dashboard/dashboard.py:29-33 | a per-group sum does not depend on the order of the rows |
| `Sums.PartitionTotal` | dashboard/dashboard.py:15-17 | summing the group sums over distinct groups that cover every row's key gives the column total |
| `Sums.ConsistentTotals` | dashboard/dashboard.py:111-117 | when every row has `cnt == casual + registered`, the totals do too |
| `DateFilter.FilterByDate` | dashboard/dashboard.py:95-98 | every kept row comes from the input and lies in the range, both ends included |
| `DateFilter.FilterMultiplicity` | dashboard/dashboard.py:95-98 | a row in the range is kept as often as it occurs; a row outside it is dropped |
| `DateFilter.FilterIsSubsequence` | dashboard/dashboard.py:95-98 | the kept rows keep their original relative order |
| `DateFilter.FilterAppend` | dashboard/dashboard.py:95-98 | filtering a concatenation is concatenating the filtered parts |
| `DateFilter.FilterKeepsAll` | dashboard/dashboard.py:95-98 | a range that holds every row returns the table unchanged |
| `DateFilter.FilterIdempotent` | dashboard/dashboard.py:95-98 | filtering twice with one range equals filtering once |
| `DateFilter.DefaultSelection` | dashboard/dashboard.py:89-93 | the initial range `[min_date, max_date]` is ordered and holds every row |
| `DateFilter.FilterDefaultKeepsAll` | dashboard/dashboard.py:81-98 | with the initial range the filter returns every row unchanged |
| `MonthlyTotals.MonthAt` | dashboard/dashboard.py:15 | the month at a given position in the calendar has that position |
| `MonthlyTotals.NextMonth` | dashboard/dashboard.py:15 | the following month is exactly one position later |
| `MonthlyTotals.MonthIndexMonotone` | dashboard/dashboard.py:15 | a later date never falls in an earlier month |
| `MonthlyTotals.MonthLabel` | dashboard/dashboard.py:19 | a `%b-%y` label has six characters: a month abbreviation, a dash and two digits |
| `MonthlyTotals.LabelRoundTrip` | dashboard/dashboard.py:19 | a label determines its month and its year modulo 100: `ParseLabel`, the inverse of the formatting, gives them back |
| `MonthlyTotals.LabelsCollideExactly` | dashboard/dashboard.py:19 | two months share a label if and only if they share the month and the year modulo 100 |
| `MonthlyTotals.MonthSpan` | dashboard/dashboard.py:15 | the span lists the months from `lo` to `hi`, each at its own position |
| `MonthlyTotals.MonthsCoveredShape` | dashboard/dashboard.py:15-17 | the bins run from the earliest row's month to the latest row's month, one month apart, without repeats; they are exactly the months in between, and every row falls in one |
| `MonthlyTotals.MonthUsers` | dashboard/dashboard.py:14-26 | the output is empty if and only if the input is empty |
| `MonthlyTotals.MonthUsersRows` | dashboard/dashboard.py:15-20 | row `i` carries the label of bin `i` and the sum of `cnt` over the rows dated in that month |
| `MonthlyTotals.MonthUsersConservesTotal` | dashboard/dashboard.py:15-17 | `total_users` adds up to the `cnt` total of the input, the `all_rides` metric |
| `Breakdowns.GroupBy` | dashboard/dashboard.py:29-33 | every group is a listed category that occurs in the input, and it carries that category's `casual`, `registered` and `cnt` sums |
| `Breakdowns.Rank` | dashboard/dashboard.py:47-48 | a listed category's rank is its position in the list; an unlisted one ranks last |
| `Breakdowns.InsertByRank` | dashboard/dashboard.py:50 | inserting into a sorted table gives a sorted table with one more row and the same rows plus the new one |
| `Breakdowns.SortByRank` | dashboard/dashboard.py:50 | the sorted table is ordered by canonical position and is a permutation of its input |
| `Breakdowns.MeltColumnMembers` | dashboard/dashboard.py:41-45 | every melted row carries its column's status and the value of some group |
| `Breakdowns.MeltColumnCount` | dashboard/dashboard.py:41-45 | a category that occurs yields exactly one row per status; any other key yields none |
| `Breakdowns.BreakdownSpec` | dashboard/dashboard.py:28-52 | the output is sorted by canonical position; each row names a category that occurs and holds its sum of the tagged column; each category that occurs has exactly one casual and one registered row |
| `Breakdowns.BreakdownConservesTotal` | dashboard/dashboard.py:29-45 | `count_users` adds up to the casual total plus the registered total of the input |
| `Breakdowns.GroupTotalsConsistent` | dashboard/dashboard.py:29-33 | when every row has `cnt == casual + registered`, every group's summed `cnt` is its casual plus registered sum |
| `Breakdowns.BreakdownIgnoresRowOrder` | dashboard/dashboard.py:28-52 | reordering the input rows leaves the output unchanged |
| `Categories.ParseWeekday` | dashboard/dashboard.py:47-48 | a name that maps to a weekday is that weekday's name |
| `Categories.ParseSeason` | dashboard/dashboard.py:73-74 | a name that maps to a season is that season's name |
| `Categories.WeekdayNameRoundTrip` | dashboard/dashboard.py:47-48 | every weekday's name maps back to it |
| `Categories.SeasonNameRoundTrip` | dashboard/dashboard.py:73-74 | every season's name maps back to it |
| `Categories.WeekdayOrderCanonical` | dashboard/dashboard.py:47-48 | the weekday list has no repeats and ranks every weekday at its place, Monday 0 to Sunday 6 |
| `Categories.SeasonOrderCanonical` | dashboard/dashboard.py:73-74 | the season list has no repeats and ranks Spring, Summer, Fall, Winter as 0 to 3 |
| `Categories.WeekdayUsersSpec` | dashboard/dashboard.py:28-52 | `weekday_users_df` meets the breakdown specification and runs Monday to Sunday |
| `Categories.SeasonUsersSpec` | dashboard/dashboard.py:54-78 | `season_users_df` meets the breakdown specification and runs Spring, Summer, Fall, Winter |
| `Categories.WeekdayUsersConservesTotal` | dashboard/dashboard.py:28-45 | the weekday table's `count_users` adds up to casual plus registered rentals |
| `Categories.SeasonUsersConservesTotal` | dashboard/dashboard.py:54-71 | the season table's `count_users` adds up to casual plus registered rentals |
| `Dashboard.HeadlineConsistent` | dashboard/dashboard.py:111-117 | when every row has `cnt == casual + registered`, `all_rides` equals `casual_rides + registered_rides` |
| `Dashboard.Refresh` | dashboard/dashboard.py:95-117 | on the filtered rows, the monthly chart adds up to `all_rides`, and each breakdown chart adds up to `casual_rides + registered_rides` |
| `Dashboard.DefaultRefreshShowsAll` | dashboard/dashboard.py:81-117 | with the initial range, every table and metric is computed over the whole dataset |
| `Dashboard.ThreeDayExample` | dashboard/dashboard.py:14-26 | three days in January and February 2021 give `Jan-21: 6`, `Feb-21: 6`, and the metrics 12, 6 and 6 |

## Left out

- Loading the CSV file and parsing `dteday` (lines 7-9): file I/O and a library date parser. Dates enter the model already parsed.
- Page setup, the sidebar, the image, the metric widgets, the title, captions and all chart building (lines 11-12, 84-93, 104-152): presentation only.
- The date widget's `min_value`/`max_value` clamp (lines 89-93): the widget enforces it, so `FilterByDate` accepts any pair of dates.
- A selection of a single date: this script unpacks exactly two dates from the widget, and the model always takes a start and an end date. A default for a missing end date is not part of this script.
- `Breakdowns.BreakdownSpec`: does not fix the order of one category's casual and registered rows, because pandas' default sort is not stable. `SortByRank` is one stable order among those allowed.
- The order in which `groupby` emits its groups (by name) before the final sort: the sort replaces it, so `GroupBy` emits in canonical order.
- Category values outside the canonical lists, which pandas turns into missing values sorted last: the enums rule them out.
- Integer widths: pandas sums in 64-bit integers, and the model uses unbounded naturals. Daily rental counts stay far below the limit.
- Calendar validity of dates: a day is any number from 1 to 31. Real dates come from the parser.
- Locale: `%b` uses a fixed English abbreviation table.
- pandas index handling, `reset_index`, `rename` and column types: only the logical rows are modelled.
