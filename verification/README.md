# F1 telemetry reconciliation — a Dafny model

The F1 telemetry dashboard polls the provider's car-data endpoint once per driver, for two
drivers. It turns each successful response into a table and smooths the `throttle`, `brake`
and `speed` channels with a trailing rolling mean of 15 samples, where at least one sample is
enough. It then concatenates the tables, orders the rows by `date` and forward-fills every
column across the whole merged table. The refresh callback reads the distinct driver numbers of
the merged table and draws one line per driver for each of four metrics.

This project models that reconciliation step and the three lookups of the chart code, as pure
functions over immutable data:

- `telemetry.dfy` (`Telemetry`): records and responses, rows and tables, and the exception that
  empties the result. JSON records keep the difference between a missing key, a `null` and a
  value, because a table's columns are the union of its records' keys.
- `rolling.dfy` (`RollingWindow`): the trailing mean. `WindowMean` is the reference definition.
  `RollingMean` computes it with a running sum and count, as the dataframe library does.
- `normalize.dfy` (`Normalize`): the processing of one response. It covers the status and
  emptiness checks, date conversion, and smoothing of the three channels.
- `ordering.dfy` (`Ordering`): ordering by date, with missing dates (NaT) last. The library's
  default sort is not stable, so the model promises only "ordered" and "a permutation".
- `fill.dfy` (`Fill`): the forward-fill across the whole table. `LastSeen` is the reference
  definition.
- `merge.dfy` (`Merge`): `fetch_car_data` from the responses to the merged table.
- `render.dfy` (`Render`): covers three lookups in the chart code:
  - `unique()` on `driver_number`;
  - the per-driver row selection `df[df["driver_number"] == driver]`;
  - the per-metric figures and the callback's blank-chart fallback.
- `dashboard.dfy` (`Dashboard`): one refresh, from responses to the four charts.

Timestamps are integers (nanoseconds since the epoch) once parsed. Channel values are exact
reals. A cell that pandas holds as NaN or NaT is `None`.

The code behaves as follows:

- A response that is not `200` or whose table is empty is skipped. Any exception raised while
  processing any response empties the whole result. The modelled exceptions are a missing `date`,
  `throttle`, `brake` or `speed` column, and an unparseable date. Neither the other driver's
  table nor a row is kept in that case.
- A missing smoothed channel is an error, not a channel that is skipped.
- Only `throttle`, `brake` and `speed` are smoothed: `rpm` is not. `n_gear` is an ordinary
  numeric column.
- Tables from at least two responses are required. One driver's data alone gives the empty
  table (`Merge.OneDriverIsNotEnough`).
- The sort by date is not stable.
- The chart code colours the `i`-th driver with the `i`-th of two colours. A third distinct
  driver number raises an index error, so the callback shows four blank charts. A record with a
  `null` driver number dated before every other record is one way this happens: after the sort
  its row comes first, so the forward-fill has nothing to fill it with
  (`Dashboard.NaNDriverBlanksDashboard`).
- Two responses that carry one driver number each and every chart column are drawn: each of
  the four charts gets a figure (`Dashboard.TwoDriversDrawDashboard`).
- The forward-fill crosses drivers: a gap in one driver's row takes the previous row's value,
  whichever driver that row belongs to (`Fill.FFillCrossesDrivers`).

## Model

| member | source | states |
|---|---|---|
| RollingWindow.RollingMean | app.py:60 | The running-sum computation gives a column of the same length. Each row's value is the mean of the present samples among that row and the 14 rows before it, or fewer at the top of the column. It is missing exactly when none of those samples is present. |
| RollingWindow.WindowMeanBounds | app.py:60 | A smoothed value is present if and only if some sample in its window is present. It is always present when the row's own sample is. It lies between the smallest and the largest present sample of its window. |
| RollingWindow.RollingWithin | app.py:60 | If every raw sample of a channel lies in a range, then every smoothed value lies in that range too. For example, throttle stays within 0..100. |
| RollingWindow.MeanBetween | app.py:60 | The mean of samples that all lie in a range lies in that range. |
| Normalize.ColumnsOf | app.py:55 | The columns of a table built from JSON records are exactly the keys that occur in some record. |
| Normalize.Tabulate | app.py:55 | The table built from a response body has one row per record. |
| Normalize.TabulateColumns | app.py:55-58 | That table's `date` and `driver_number` columns are the converted values of the records, and each numeric column holds the record's value, with a `null` or an absent key giving NaN. |
| Normalize.SmoothChannel | app.py:60 | Smoothing one channel keeps the number of rows, the dates and the driver numbers. It replaces that channel by the rolling mean of its own values and leaves every other channel unchanged. |
| Normalize.SmoothAll | app.py:59-60 | Smoothing a list of channels one after the other keeps the number of rows. What each channel then holds is on the `Normalize.SmoothAllColumns` row. |
| Normalize.Smooth | app.py:59-60 | Smoothing `throttle`, `brake` and `speed` keeps the number of rows. The smoothed contents are on the `Normalize.SmoothAllColumns` and `Normalize.PrepareNormalizes` rows. |
| Normalize.SmoothAllColumns | app.py:59-60 | After smoothing a list of distinct channels one after the other, each listed channel is the rolling mean of its raw values, whatever the order. Dates, driver numbers and every unlisted channel are unchanged. |
| Normalize.Prepare | app.py:54-61 | A response contributes nothing if and only if its status is not 200 or its table is empty. A contributing response raises if and only if it lacks a `date`, `throttle`, `brake` or `speed` column or carries an unparseable date. |
| Normalize.PrepareNormalizes | app.py:55-61 | A contributing response that raises nothing yields a non-empty table. It has the same columns and one row per record in body order. Its dates are the converted dates. The three channels are the rolling means of their raw values, and every other column is the raw values. |
| Ordering.Insert | app.py:67 | Inserting a row into a table ordered by date gives a table that is still ordered and holds exactly the old rows plus the new one. |
| Ordering.SortByDate | app.py:67 | The sorted table is a permutation of the input with dates never decreasing, and missing dates after all present ones. |
| Ordering.EarliestFirst | app.py:67 | In a table ordered by date, a row dated strictly before every other row comes first. |
| Fill.LastSeen | app.py:67 | Reference definition of a forward-filled cell. It is missing if and only if the column has no present entry. Otherwise it is a present entry after which the column holds only missing entries. |
| Fill.FFill | app.py:67 | The forward-fill keeps the number of rows. |
| Fill.FFillIsLastSeen | app.py:67 | Each filled cell, for the date, the driver number and every channel, is the last present value of its column at or above its row. |
| Fill.FFillStep | app.py:67 | Each filled row is its own row with the missing cells taken from the filled row above it. The first row takes nothing. |
| Fill.FFillPrefix | app.py:67 | The fill of a table's first `k` rows is the first `k` rows of the table's fill. Later rows never change earlier ones. |
| Fill.FFillIdempotent | app.py:67 | Forward-filling a filled table changes nothing. |
| Fill.FFillKeepsOrder | app.py:67 | Filling a table ordered by date keeps it ordered. |
| Fill.FFillKeepsPresent | app.py:67 | The fill never overwrites a present date, driver number or channel value. |
| Fill.FFillCrossesDrivers | app.py:67 | A throttle reading of driver 1 fills the missing throttle cell of a later row of driver 3. |
| Merge.Collect | app.py:52-61 | Collecting raises if and only if processing some response raises. Otherwise it yields one non-empty table per contributing response. The list is exactly the processed tables of the responses that yield one, in response order. |
| Merge.CollectKeepsOrder | app.py:52-61 | When two responses both yield a table, the earlier response's table comes before the later one's in the collected list. |
| Merge.CollectHoldsEveryTable | app.py:52-61 | Every table that a response yields is in the collected list. |
| Merge.CollectSkips | app.py:53-56 | A response that does not contribute can be removed from any position without changing the outcome. |
| Merge.AllRows | app.py:66 | The concatenated table has the rows of all tables, one table after the other. |
| Merge.AllColumns | app.py:66 | The concatenated table's columns are those that occur in any of the tables. |
| Merge.MergeFrames | app.py:66-67 | Concatenating, ordering by date and forward-filling gives as many rows as the tables together, ordered by date, with exactly the columns that occur in any of the tables. |
| Merge.MergeFramesSpec | app.py:66-67 | The merged table has as many rows as the tables together. It is ordered by date and is the forward-fill of an ordering of all their rows. |
| Merge.FetchCarData | app.py:52-71 | The result is the empty table whenever any response raises or fewer than two contribute. It is non-empty if and only if at least two tables were collected without exception. When non-empty, it has the rows of all tables and is ordered by date. It is the forward-fill of a date ordering of the concatenated rows, with the union of their columns. |
| Merge.TwoDrivers | app.py:52-67 | With two responses that both yield a table, the result holds as many rows as the two bodies have records. It is ordered by date and is the fill of an ordering of the two smoothed tables' rows. |
| Merge.TwoDriversColumns | app.py:66 | With two responses that both yield a table, the result has exactly the columns of either table. |
| Merge.FilledDriversFrom | app.py:66-67 | When every concatenated row carries one of two driver numbers, so does every merged row: the fill never replaces a present driver number. |
| Merge.OneDriverIsNotEnough | app.py:63-64 | One ready table with a failed or empty other response gives the empty table, in either order. |
| Render.Unique | app.py:135 | The driver list has no duplicates. It holds exactly the values of the column, missing included, in the order of their first appearance. |
| Render.UniqueValues | app.py:135 | The one-pass computation with a set of seen values gives that same list. |
| Render.DriverList | app.py:135 | There is no driver list if and only if the table lacks a `driver_number` column. Otherwise the list is duplicate-free, holds exactly the driver numbers of the rows, and is in the order of their first appearance (`Unique` of the column), which decides the trace and colour order. |
| Render.ForDriver | app.py:83-84 | The selection for a driver holds only rows of that table with that driver number, and every such row. A NaN driver selects nothing. |
| Render.ForDriverAppend | app.py:83-84 | Selecting from a concatenation is the concatenation of the selections, so the selection keeps table order. |
| Render.ForDriverIdempotent | app.py:83-84 | Selecting the same driver twice gives the first selection. |
| Render.ForDriverCount | app.py:83-84 | A driver's selection holds as many rows as the `driver_number` column has entries equal to it. A missing driver holds none. |
| Render.DriversPartitionRows | app.py:82-89 | Over the drivers of the driver list, the selections together hold every row with a driver number exactly once. Only rows with a NaN driver number are left out. |
| Render.TraceOf | app.py:82-84 | A driver's trace has one point per row of that driver. Its `k`-th point is the date and metric value of that driver's `k`-th row, in table order. |
| Render.Scatter | app.py:81-89 | Building the traces from colour index `i` on fails if and only if there is a driver and either a looked-up column is missing or some driver's index `i + k` reaches the two colours. Otherwise the `k`-th trace is the trace of the `k`-th driver. |
| Render.Figure | app.py:76-90 | Building a figure raises if and only if there are more drivers than the two line colours, or there is at least one driver and the `driver_number`, `date` or metric column is missing. Otherwise the `i`-th trace is the trace of the `i`-th driver. The traces together have as many points as the drivers' selections have rows. |
| Render.Charts | app.py:129-144 | All four charts are drawn if and only if the table is not empty, has every column the charts look up and has at most two distinct driver numbers. Otherwise all four are blank. Drawn charts are the figures of throttle, brake, speed and gear over the driver list. |
| Render.DrawnCovers | app.py:82-89 | When a duplicate-free driver list holds every row's driver number, the rows selected driver by driver are a permutation of the rows that carry a driver number. |
| Render.ChartsDrawEveryRow | app.py:135-141 | In drawn charts, the `j`-th trace of each chart is the trace of the `j`-th entry of the driver list. The rows drawn over all drivers are a permutation of the rows that carry a driver number. Only rows with a NaN driver number are left out. |
| Render.AtMostTwoValues | app.py:135 | A duplicate-free list whose entries are all one of two values has at most two entries. |
| Render.TwoDriversFitColours | app.py:135 | When every row carries one of two driver numbers, the driver list has at most as many entries as the two line colours. |
| Render.ThirdDriverBlanksCharts | app.py:86 | Three distinct values in the `driver_number` column, NaN included, give a driver list longer than the two colours. All four charts are then blank. |
| Dashboard.UpdateGraphs | app.py:129-144 | A refresh shows four blank charts when any response raises or fewer than two contribute. When it draws, at least two tables were collected, and each chart's points plus the NaN-driver rows number the collected rows. |
| Dashboard.DrawnRefreshCounts | app.py:129-141 | When the merged table can be drawn, at least two tables were collected, and each chart's points plus the NaN-driver rows number the collected rows. |
| Dashboard.RefreshDrawsEveryRow | app.py:129-141 | When a refresh draws, each chart's `j`-th trace is the trace of the merged table's `j`-th driver. The rows drawn over all drivers are a permutation of the merged rows that carry a driver number. |
| Dashboard.EarliestNaNDriverBlanks | app.py:66-67 | Suppose a row with a NaN driver number is dated strictly before every other row, and two rows carry distinct driver numbers. Then the merged table keeps that NaN first, and all four charts are blank. |
| Dashboard.LeadingNaNDriverBlanks | app.py:52-67 | Suppose two responses both yield tables. The first opens with a record that has no driver number and is dated before every other record. The two responses carry distinct driver numbers elsewhere. Then the refresh shows four blank charts. |
| Dashboard.TwoDriversFit | app.py:63-67 | With two responses that yield tables and carry one driver number each, the merged table's driver list fits the two line colours. |
| Dashboard.ChartKeysKept | app.py:66 | When one of two responses has the `date`, `driver_number` and four metric keys, the merged table has every column the charts look up. |
| Dashboard.TwoDriversDrawable | app.py:52-67 | Two responses that yield tables, carry one driver number each and have every chart key merge into a table the charts can draw. |
| Dashboard.TwoDriversDraw | app.py:129-141 | Such a refresh shows a figure in each of the four charts. |
| Dashboard.TwoDriversDrawDashboard | app.py:129-141 | Driver 1's and driver 3's responses of one complete record each give a refresh with a figure in each of the four charts. |
| Dashboard.NaNDriverBlanksDashboard | app.py:129-144 | Driver 1's response opens with a record that has a `null` driver number and the earliest date. Driver 3's response follows. The refresh shows four blank charts. |

## Left out

- HTTP requests, timeouts, `asyncio.gather` and the synchronous wrapper. The responses are the
  input of `Merge.FetchCarData`, in request order. A request that fails or times out raises out
  of `asyncio.gather` (app.py:45-50) into the same catch (app.py:69-71), which empties the whole
  result; a body that is not a JSON list of records does the same. The model has no such
  response.
- Logging of the caught exceptions. The catch itself is modelled as the `Err` path that gives
  the empty table.
- The Dash layout, the refresh interval, the callback wiring, chart styling (colours, titles,
  axes, hover templates) and the `__main__` entry point. Only the number of colours is kept,
  because it decides whether a figure can be built.
- Date-text parsing. A date is either a parsed integer timestamp or text the parser rejects.
  Time zones and mixed formats are not modelled.
- Floating point. Channel values and means are exact reals, so rounding in the running sum is
  not modelled.
- Non-numeric values in a smoothed channel, on which the rolling mean raises. Records carry only
  numbers, nulls and absent keys. A smoothed column of only `null`s gives all-missing means in
  the model, as the library does.
- `RollingWindow.RollingMean`: the library keeps its running sum with compensated floating-point
  addition. The model keeps one exact sum, so the rounding of that sum is not modelled.
- Record keys beyond the named channels are `Other(name)`. The model does not exclude a name
  that spells a named column, such as `Other("throttle")`. Such a key would be a second column
  for the same name, which a JSON object cannot carry.
- `Ordering.SortByDate`: the quicksort's order among rows with equal dates is not modelled. The
  sort is an insertion sort, and `Merge.IsMergeOf` lets any date ordering of the rows stand in
  for it.

