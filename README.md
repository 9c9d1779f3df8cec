# Weather ETL core, modelled in Dafny

The modelled program is a small extract-transform-load job. It works over a list of cities
(city, state, country) and a day or a range of days. It does four things:

- It resolves each city to coordinates through a geocoding service.
- It asks a weather service for that day's hourly observations, at the UTC-midnight POSIX timestamp.
- It reduces the observations to one summary row: mean, minimum and maximum temperature, mean humidity and a
  "dominant" weather label.
- It delivers the rows. The local range run writes them to a file as it goes. The scheduled daily run replaces
  yesterday's rows in a warehouse table: a delete for that date, then one bulk insert.

The Dafny project models that core in seven modules, one per concern of `etl_pipeline/main.py`:

| module | file | models |
|---|---|---|
| `Wrappers` | `wrappers.dfy` | `Option`, for values that may be absent |
| `Text` | `text.dfy` | decimal numerals (`str(n)`, zero-padded date fields) and comma splitting |
| `Calendar` | `calendar.dfy` | proleptic Gregorian dates, ordinals, next day, day ranges, the UTC-midnight timestamp, `date.isoformat()` and its parser |
| `Location` | `location.dfy` | the geocoding query string |
| `Aggregation` | `aggregation.dfy` | observations, the day summary, the ordered label tally and `process_weather_for_date` as a method with a loop |
| `Orchestrator` | `orchestrator.dfy` | the cities × days double loop of the local run, as two methods with loops, and the run window of each mode |
| `Warehouse` | `warehouse.dfy` | the table as a class with a `rows` field, the delete and the insert as methods, and the daily entry point as a method |

External services are parameters:

- The geocoder is a function from the query string to a pair of optional coordinates. The source's failed lookup
  is the `None, None` case.
- The weather service is a function from a fetch request (lat, lon, timestamp) to a sequence of observations. The
  source's failed fetch is the empty sequence.
- Whether the warehouse rejects the insert is a boolean parameter.
- "Yesterday" is a parameter.

What is proved:

- **Timestamp.** It is a multiple of 86400. It grows by exactly 86400 from one day to the next. It orders dates
  as the calendar does. It equals the seconds-since-the-epoch formula of section 4.16 of POSIX.1-2017 for every
  year from 1970 on. 2024-01-01 gives 1704067200.
- **Date range.** It has (end − start) + 1 days. It starts at `start` and ends at `end`. Each day is the day
  after the previous one. It is empty exactly when `end` is before `start`. The historical window has seven
  days, 2024-01-01 … 2024-01-07.
- **ISO date text.** It parses back to the date, and two dates give the same text only if they are equal.
- **Location query.** The city, the state (when non-empty) and the country sit in order, separated by commas.
  When no field itself contains a comma, splitting the query on commas gives back exactly its fields; the state
  is dropped when it is empty.
- **Day summary.** It is `None` exactly when a coordinate is missing or the service returned nothing. Otherwise
  the minimum ≤ mean ≤ maximum, and the extremes are readings. The dominant label is the first label seen, not
  the most frequent one. The method that loops over the observations returns exactly this summary. No fetch is
  issued when a coordinate is missing. The guard after the loop at `etl_pipeline/main.py:109` never fires,
  because every observation adds one temperature and one humidity.
- **Local run.** The double loop visits cities in the outer loop and days in the inner loop. It writes exactly
  the present summaries, in that order.
- **Daily warehouse run.** The table afterwards is: the old rows of other dates, untouched and in order, followed
  by the new batch when it is non-empty and not rejected. The three status strings come out in exactly their
  cases. A rejected insert leaves the date empty, because the delete is not undone. Running the job twice
  leaves the table as one run leaves it.

The code does not skip incomplete observations: `etl_pipeline/main.py:103-104` appends a missing temperature
or humidity as `None`, and `sum`/`min` then raise. The model therefore requires complete observations
(`Aggregation.FetchComplete`); see "Left out".

## Model

| member | source | states |
|---|---|---|
| Text.NatToDecimal | etl_pipeline/main.py:155 | the row count is printed as a non-empty string of decimal digits, a single digit exactly for counts below 10, with no leading zero (it starts with '0' only for 0) |
| Text.DecimalRoundTrip | etl_pipeline/main.py:155 | the printed count reads back as the count |
| Calendar.Ordinal | etl_pipeline/main.py:193-194 | the day number behind `(end - start).days` and `timedelta` addition lies within its year: after all earlier years' days, at most a year's days beyond them |
| Calendar.OrdinalOrder | etl_pipeline/main.py:193 | the day ordinal orders dates as Python's date comparison does, and equal ordinals mean equal dates |
| Calendar.NextDay | etl_pipeline/main.py:194 | the day after a date is a valid, later date whose ordinal is one more |
| Calendar.AddDays | etl_pipeline/main.py:194 | `start + timedelta(days=delta)` is the valid date whose ordinal is `delta` more |
| Calendar.DateRange | etl_pipeline/main.py:193-194 | the inner loop's dates number `(end - start).days + 1` (none when negative), and the k-th has ordinal start + k |
| Calendar.DateRangeStep | etl_pipeline/main.py:193-194 | each date of the range is the day after the previous one |
| Calendar.DateRangeEnds | etl_pipeline/main.py:193-194 | a non-empty range has (end − start) + 1 days, begins at start and ends at end, inclusive |
| Calendar.DateRangeEmpty | etl_pipeline/main.py:193 | the range is empty exactly when end is before start |
| Calendar.UnixTimestamp | etl_pipeline/main.py:62-64 | the UTC-midnight timestamp is a multiple of 86400, and it is 86400 times the number of days since 1970-01-01 |
| Calendar.TimestampOfEpoch | etl_pipeline/main.py:62-64 | 1970-01-01 maps to 0 |
| Calendar.TimestampOfNewYear2024 | etl_pipeline/main.py:62-64 | 2024-01-01 maps to 1704067200 |
| Calendar.TimestampNextDay | etl_pipeline/main.py:62-64 | the next day's timestamp is exactly 86400 later |
| Calendar.TimestampOrder | etl_pipeline/main.py:62-64 | timestamps order dates as the calendar does, and are equal only for equal dates |
| Calendar.TimestampMatchesPosix | etl_pipeline/main.py:62-64 | for years from 1970, the timestamp equals the POSIX.1-2017 section 4.16 formula at 00:00:00 |
| Calendar.IsoFormat | etl_pipeline/main.py:116 | the ISO text is 10 characters, `YYYY-MM-DD`: digits with dashes at positions 4 and 7 |
| Calendar.IsoRoundTrip | etl_pipeline/main.py:116 | parsing the ISO text of a valid date gives the date back |
| Calendar.IsoFormatInjective | etl_pipeline/main.py:135 | two dates have the same ISO text exactly when they are equal, so the delete's date match selects one day |
| Location.LocationQuery | etl_pipeline/main.py:47 | the query is the city, a comma, then (when the state is non-empty) the state and a comma, then the country |
| Location.LocationQueryFields | etl_pipeline/main.py:47 | when no field contains a comma, splitting the query on commas gives [city, state, country] when the state is non-empty, else [city, country] |
| Aggregation.Min | etl_pipeline/main.py:118 | the minimum is one of the readings and no reading is below it |
| Aggregation.Max | etl_pipeline/main.py:119 | the maximum is one of the readings and no reading is above it |
| Aggregation.Mean | etl_pipeline/main.py:117 | the mean times the number of readings is their sum, exactly (no rounding) |
| Aggregation.MeanWithinExtremes | etl_pipeline/main.py:117-119 | the mean of a non-empty list lies between its minimum and maximum |
| Aggregation.Tally.Increment | etl_pipeline/main.py:107 | incrementing counts the key once more, leaves other counts alone, and keeps the first-inserted key first, or makes the key first in an empty tally |
| Aggregation.Tally.First | etl_pipeline/main.py:121 | `next(iter(counts), "")`: "" for an empty tally, otherwise a label the tally has counted |
| Aggregation.Summarize | etl_pipeline/main.py:100-122 | the reduction of a day's observations: no summary exactly when there are none, and a summary keeps the place and carries the ISO date |
| Aggregation.SummaryIdentity | etl_pipeline/main.py:112-116 | a summary keeps city, state and country, and its date text parses back to the date |
| Aggregation.SummaryTemperatures | etl_pipeline/main.py:117-119 | min ≤ mean ≤ max; min and max are readings; every reading lies between them |
| Aggregation.SummaryDominant | etl_pipeline/main.py:102-121 | the dominant label is the first label of the first labelled observation, or "" when none has one |
| Aggregation.FirstSeenBeatsMostFrequent | etl_pipeline/main.py:121 | for labels Cloudy, Rain, Rain, the dominant label is Cloudy although Rain counts 2 |
| Aggregation.SummaryOfTestDay | test/test_openweather_etl.py:67-80 | readings (2,60,Rain), (4,65,Rain), (6,55,Cloudy) on 2024-01-01 give mean 4, min 2, max 6, humidity 60, dominant Rain |
| Aggregation.DayResult | etl_pipeline/main.py:89-122 | what `process_weather_for_date` returns: no summary when either coordinate is missing |
| Aggregation.DayResultCases | etl_pipeline/main.py:89-98 | no summary exactly when a coordinate is missing or no observation came back; a summary carries the place and ISO date |
| Aggregation.ProcessWeatherForDate | etl_pipeline/main.py:89-122 | the one-pass loop returns the day's summary, and it fetches at the UTC-midnight timestamp only when both coordinates are present |
| Orchestrator.VisitsLength | etl_pipeline/main.py:192-193 | the double loop makes cities × days visits |
| Orchestrator.VisitsLayout | etl_pipeline/main.py:192-194 | visit number i·days + k is city i on day k: cities outer, days inner |
| Orchestrator.RowsSnoc | etl_pipeline/main.py:195-197 | one loop pass writes the visit's summary if it has one, and nothing otherwise |
| Orchestrator.Visits | etl_pipeline/main.py:192-194 | the (city, date) pairs of the double loop, cities outer, days inner; its length and layout are the VisitsLength and VisitsLayout rows |
| Orchestrator.Rows | etl_pipeline/main.py:195-197 | the rows the loops keep, the present summaries in visit order, at most one per visit |
| Orchestrator.RowsAllPresent | etl_pipeline/main.py:195-197 | when every visit has a summary, the rows are those summaries in visit order |
| Orchestrator.RowsCarryVisitFields | etl_pipeline/main.py:195-197 | every row is the summary of some visit, with that visit's place and ISO date |
| Orchestrator.RowsOfOneDate | etl_pipeline/main.py:143-146 | all rows collected for one date carry that date |
| Orchestrator.RunWindow | etl_pipeline/main.py:174-180 | each mode's window is a valid, non-empty date pair: 2024-01-01 … 2024-01-07 in historical mode, yesterday alone in daily mode |
| Orchestrator.HistoricalWindowDays | etl_pipeline/main.py:32-33 | the historical window is the seven days 2024-01-01 … 2024-01-07 |
| Orchestrator.DailyWindowDays | etl_pipeline/main.py:180 | the daily window is the single day yesterday |
| Orchestrator.RunCityDays | etl_pipeline/main.py:193-197 | the inner loop visits one city on every day of the range in order and writes exactly the present summaries |
| Orchestrator.RunRange | etl_pipeline/main.py:192-201 | the nested loops visit cities outer and days inner and write exactly the present summaries, in visit order |
| Warehouse.WithoutDate | etl_pipeline/main.py:133-139 | the delete never adds rows |
| Warehouse.WithoutDateMembers | etl_pipeline/main.py:133-139 | the delete keeps exactly the rows whose date differs |
| Warehouse.OnDateMembers | etl_pipeline/main.py:135 | selecting one date keeps exactly the rows with that date |
| Warehouse.WarehouseTable.DeleteWhereDate | etl_pipeline/main.py:133-139 | after the delete, the table holds the old rows of other dates, in order |
| Warehouse.WarehouseTable.InsertRowsJson | etl_pipeline/main.py:149 | a rejected insert reports errors and changes nothing; an accepted one appends the batch |
| Warehouse.InsertedStatus | etl_pipeline/main.py:155 | the success text is "Inserted ", the count in decimal (reading back as the count), then " rows into " and the table id, and it differs from the other two statuses |
| Warehouse.DailyBatch | etl_pipeline/main.py:141-146 | yesterday's batch has at most one row per city, all dated yesterday |
| Warehouse.RunYesterdayWeatherToWarehouse | etl_pipeline/main.py:125-158 | the table ends as the other dates' rows plus the batch unless it is empty or rejected; the status is "No data to insert", "BigQuery insert failed" or the inserted text, each in exactly its case |
| Warehouse.ReplaceDate | etl_pipeline/main.py:133-158 | the table after a run holds exactly the old rows of other dates and, unless the insert was rejected, the batch |
| Warehouse.ReplaceKeepsOtherDates | etl_pipeline/main.py:133-149 | a run leaves every other date's rows exactly as they were, in order |
| Warehouse.ReplaceKeepsDate | etl_pipeline/main.py:133-149 | the same, date by date: the rows of any other date are unchanged |
| Warehouse.ReplaceTargetRows | etl_pipeline/main.py:139-152 | afterwards the target date holds exactly the batch, or nothing when the insert was rejected; the delete is not undone |
| Warehouse.ReplaceTwice | etl_pipeline/main.py:133-149 | a second run for the same date overrides whatever the first stored |
| Warehouse.DailyRunIdempotent | etl_pipeline/main.py:125-158 | rerunning the daily job with the same services leaves the table as one run does: no duplicated rows |

## Left out

- HTTP requests, status codes and JSON decoding (`etl_pipeline/main.py:53-59`, `75-86`) are outside the model.
  The geocoder and the weather service are function parameters. A geocoding miss (bad status or empty answer) is
  a `None` coordinate; a failed or unparseable weather fetch is an empty observation list.
- A geocoding answer with status 200 whose body is not JSON makes `get_coordinates` raise, because `resp.json()`
  at `etl_pipeline/main.py:54` and `57` is outside any `try`. That crash is not modelled: the geocoder function
  always returns coordinates, present or not. (The weather fetch catches its parse error at lines 80-84.)
- The geocoding request's other parameters (`limit`, the API key) and the per-observation dictionary lookups are
  not modelled. An observation is an optional temperature, an optional humidity and its labels, already
  extracted.
- The warehouse client, the SQL text of the delete and the streaming insert's wire format are outside the
  model. The table is a sequence of rows. The delete is a filter on the date text, and the insert is an append.
- A partially accepted insert is not modelled. An insert is either accepted whole or rejected whole.
- `read_cities`, the CSV files and the CSV writer (`etl_pipeline/main.py:36-43`, `183-190`, `197`) are outside
  the model. The city list is a parameter, and the written rows are the returned sequence.
- Argument parsing, logging, the API-key check (`etl_pipeline/main.py:166-172`) and `date.today()` are outside
  the model. "Yesterday" is a parameter.
- The `time.sleep` between requests (`etl_pipeline/main.py:201`) is not modelled. It affects timing only.
- Floating point and `round(x, 2)` (`etl_pipeline/main.py:117-120`) are not modelled. The statistics are exact
  reals, so the figures are the unrounded values.
- Aggregation.ProcessWeatherForDate: requires every fetched observation to carry both a temperature and a
  humidity (`FetchComplete`). The source appends a missing value as `None`, and `sum`/`min` then raise a
  `TypeError`, so the model does not cover that crash.
- Orchestrator.RunRange, Orchestrator.RunCityDays and Warehouse.RunYesterdayWeatherToWarehouse: require the same
  completeness for every visit, for the same reason.
- Orchestrator.Outcome gives `None` for an incomplete visit only so that it stays total. That branch stands for
  the crash above; it is not a behaviour of the source.
- The inner day loop of `local_main` is its own method, `Orchestrator.RunCityDays`, which `RunRange` calls once
  per city. The order of visits and rows is the source's.
- Dates are limited to Python's years 1 … 9999. Going past 9999-12-31 raises `OverflowError` in the source, and
  the model's `AddDays` requires staying within that bound.
