# Danish COVID-19 dashboard: verified model of the query/reshape pipeline

The dashboard (`app.py`) reads the schema of the statistics table SMIT4 once at
start-up. From then on it turns a region selection, a date range, a scaling
measure and a display mode into a data request. It then reshapes the returned
table into one chart line per region. This project models that pipeline in
Dafny, without the transport, and proves what each step guarantees.

- `results.dfy` (`Results`): `Result` with the one error the code can raise
  here, `IndexError`.
- `strings.dfy` (`Strings`): Python's `str.split` with a one-character separator,
  `str.join`, and the zero-padded decimal fields of a formatted date.
- `calendar.dfy` (`Calendar`): proleptic Gregorian dates, `NextDay` (leap years
  included), `Days` (what `pd.date_range` enumerates), day numbers, and the
  `YYYY-MM-DD` text of a timestamp (ISO 8601 extended calendar date).
- `date_codec.dfy` (`DateCodec`): `transform_date` (`YYYY-MM-DD` to the table's
  `YYYYMmmDdd` identifier) and `sub_date` (back, by rewriting `M`, `,` and `D`
  to `-`).
- `date_range.dfy` (`DateRange`): `get_dates`, the published identifiers of a
  date range.
- `request.dfy` (`Request`): `make_request`, the data query body.
- `table_schema.dfy` (`TableSchema`): `get_region_info`, `get_data_info`,
  `get_available_dates`, the code-to-label map `data_info_dict`, and the
  start-up sequence that builds them.
- `series.dfy` (`Series`): `update_graph`. It is a method whose loop builds the
  traces one region at a time. It is proved against `RegionTrace`, the
  function that says what each trace holds.

The table is a sequence of rows `(AKTP label, KOMK region, TID day, INDHOLD
value)` with integer values. A chart line is a record `(name, xs, ys)`.

Three behaviours of the code that the model keeps as they are:
- A missing variable group raises `IndexError`, which the model returns as
  `Err(IndexError)`.
- `update_graph` does not sort rows, so traces keep table order.
- The inverse of `transform_date` proved here is `sub_date`.

## Model

| member | source | states |
|---|---|---|
| Strings.Split | app.py:52 | `date.split('-')`: one more part than there are separators, no part holds the separator, and joining the parts with it gives the input back |
| Strings.SplitJoin | app.py:52 | splitting a join of separator-free parts gives exactly those parts back |
| Strings.JoinInjective | app.py:52 | separator-free parts are determined by their join |
| Strings.PadValue | app.py:64 | a zero-padded `%Y`/`%m`/`%d` field reads back as the number it was made from |
| Calendar.NextDay | app.py:63 | the next day is strictly later, is a valid date (except after 9999-12-31), and no valid date lies strictly between the two |
| Calendar.Days | app.py:63 | `pd.date_range(start, end)`: empty exactly when start is after end; every day lies in [start, end]; days strictly ascend |
| Calendar.DaysComplete | app.py:63 | every valid day in [start, end] is enumerated |
| Calendar.DaysCount | app.py:63 | the range holds day-number(end) - day-number(start) + 1 days |
| Calendar.NextDayOrdinal | app.py:63 | the next day has the next day number, across month and year ends |
| Calendar.YearLength | app.py:63 | the month lengths add up to 366 in a Gregorian leap year and to 365 otherwise |
| Calendar.WholeYear | app.py:63 | `pd.date_range` from 1 January to 31 December gives 366 days in a leap year and 365 otherwise |
| DateCodec.TransformDate | app.py:51-54 | `transform_date` fails (`part[2]` raises `IndexError`) exactly when the input has fewer than two `-` |
| DateCodec.TransformDateParts | app.py:51-54 | for `-`-free parts `p0-p1-p2[-…]` the identifier is `p0 M p1 D p2`; parts after the third are ignored |
| DateCodec.SubDate | app.py:57-58 | `sub_date` keeps the length, turns each `M`, `,` and `D` into `-` and leaves every other character as it is |
| DateCodec.SubDateInvertsTransformDate | app.py:51-58 | `sub_date(transform_date(a-b-c)) == a-b-c` when a, b, c hold none of `-`, `M`, `D`, `,` |
| DateCodec.CommaBreaksRoundTrip | app.py:58 | because `[M,D]` also matches `,`, the round trip fails when any of the three parts holds a comma |
| DateCodec.DateId | app.py:64 | the identifier of a day is its 4-digit year, `M`, 2-digit month, `D`, 2-digit day |
| DateCodec.SubDateOfDateId | app.py:155-158 | `sub_date` of a day's identifier is that day's `YYYY-MM-DD` (the date picker's bounds) |
| DateCodec.DateIdInjective | app.py:64 | two valid days have the same identifier exactly when they are the same day |
| DateRange.KeepAvailableMembers | app.py:65 | the filter keeps exactly the identifiers that are also in `available_dates` |
| DateRange.KeepCommutes | app.py:64-65 | filtering identifiers equals encoding the days whose identifiers are published |
| DateRange.KeepPublishedAscending | app.py:65 | the filter keeps the order of the days it keeps |
| DateRange.GetDatesSound | app.py:61-67 | every identifier returned is in `available_dates` and encodes a day in [start, end]; those days strictly ascend; an empty range yields nothing |
| DateRange.GetDatesDistinct | app.py:61-67 | no identifier is returned twice |
| DateRange.GetDatesComplete | app.py:63-65 | every day in [start, end] whose identifier is published is returned |
| DateRange.GetDatesSkipsGap | app.py:61-67 | with `2021M03D06`, `2021M03D07` and `2021M03D09` published, the range 2021-03-06..09 yields exactly those three identifiers and skips the 8th |
| DateRange.MarchDateId | app.py:64 | the identifier of a day of March 2021 (e.g. 2021-03-06) is `2021M03D06` |
| Request.MakeRequest | app.py:70-94 | SMIT4 in English as CSV with plain values; exactly three filters `AKTP`, `KOMK`, `Tid` in that order; scaling and region lists passed unchanged (an empty region list too); `Tid` values published and pairwise distinct |
| Request.MakeRequestTimeFilter | app.py:88-91 | the `Tid` filter is `get_dates(start, end, available)` and contains every published day of the range |
| TableSchema.RegionInfo | app.py:23-26 | one `{value, label}` option per entry of the second variable group, same order; `IndexError` when that group is missing |
| TableSchema.DataInfo | app.py:28-31 | one option per entry of the first variable group, same order; `IndexError` when the list is empty |
| TableSchema.AvailableDates | app.py:33-36 | the ids of the third variable group, same length and order; `IndexError` when that group is missing |
| TableSchema.LabelMap | app.py:46 | every option value is a key; a value's label is that of its last occurrence, so later duplicates override earlier ones |
| TableSchema.LoadSchema | app.py:40-48 | start-up fails exactly when a variable group is missing; otherwise regions, scaling options and published dates are exactly what the three extractors return, and the label map is `LabelMap` of the scaling options (keys are the scaling codes, later duplicates override) |
| Series.Filter | app.py:244 | `df.query` keeps only rows that match, never more rows than it was given |
| Series.FilterMembers | app.py:244 | `df.query` keeps exactly the matching rows |
| Series.FilterAppend | app.py:244 | filtering preserves table order (it distributes over concatenation) |
| Series.Unique | app.py:247 | `df['KOMK'].unique()`: no duplicates, exactly the regions of the whole table, in order of first appearance |
| Series.Diff | app.py:258 | `diff().iloc[1:]`: one value fewer than the input, each the difference of a value and its predecessor |
| Series.DiffPrefixSum | app.py:258 | the first value plus the running sum of the differences gives back every value |
| Series.UpdateGraph | app.py:239-269 | one trace per region of the whole table, in first-appearance order, each equal to `RegionTrace`, for modes `total` and `new`; no traces for any other mode; title `Cases for:\n` + regions joined by ` - `; y-axis titled with the selected label |
| Series.SelectedRows | app.py:244-249 | a trace's rows are exactly the table rows of that region under the selected label |
| Series.SelectedAppend | app.py:244-249 | those rows come in table order |
| Series.TotalTrace | app.py:251-254 | `total` plots each selected row's day against its value, unchanged |
| Series.NewTrace | app.py:256-259 | `new` plots, from the second row on, each day against value minus previous value; its length is max(0, n - 1) |
| Series.DiffTrace | app.py:256-259 | the same, for any rows |
| Series.NewTraceRecoversTotal | app.py:251-259 | the first `total` value plus the running sum of the `new` values gives every `total` value |
| Series.RegionWithoutRowsTrace | app.py:247-259 | a region with no rows under the selected label gets an empty trace (a region that only has rows under other labels still gets a line) |
| Series.ThreeDayExample | app.py:251-259 | region `101` with 10, 12, 15: `total` gives 10, 12, 15 and `new` gives 2, 3 on the last two days |

## Left out

- `get_tableinformation` (app.py:17-21) and the POST in `get_df` (app.py:102) are network I/O. The schema enters the model as a `TableInfo` value, and the data table as a sequence of rows.
- `get_df` (app.py:97-105) is left out as a whole. Its only logic besides I/O is calling `make_request` with the default scaling list `["50", "55"]`, and `MakeRequest` takes that list as a parameter.
- pandas parsing and serialisation are foreign library calls: `read_csv` and `to_datetime` (app.py:103-104), `to_json` (app.py:230) and `read_json` (app.py:242). So are the parsing of the `start`/`end` strings inside `pd.date_range`. The model takes the range bounds as `Date` values.
- Calendar.Days: pandas timestamps only span the years 1677 to 2262. The model accepts any year from 1 to 9999, which keeps the year field four digits wide.
- Series.Diff: values are integers. pandas' `diff()` yields floats with a leading NaN; the model drops that first element exactly as `.iloc[1:]` does.
- Series.UpdateGraph: the `data_info_dict[option1]` lookup is a precondition (the key is present); its `KeyError` is not modelled. The callback's unused `region` argument is left out. Region codes are strings, so `str(ii)` in the title is the identity.
- Dash layout, callback wiring and `run_server` (app.py:114-217, app.py:221-238, app.py:272-273) are UI and are left out. `plotly_graph`/`go.Scatter` (app.py:108-111) become the plain `Trace(name, xs, ys)` record.
- The default arguments of `get_dates` and `make_request` (app.py:61-62, app.py:70-72) are not modelled: every model function takes all its inputs explicitly.
