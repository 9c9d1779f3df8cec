/**
 * The scheduled entry point that replaces one day's rows in the warehouse
 * table: delete every row whose date is yesterday's, collect yesterday's
 * summary for each city in city order, and append that batch unless it is
 * empty. The table is the sequence of its rows; the delete is a filter and
 * the streaming insert an append.
 */
module Warehouse {
  import opened Wrappers
  import opened Text
  import opened Calendar
  import opened Aggregation
  import opened Orchestrator

  const TableId: string := "open-weather-project.weather_data.oc_weather_data_forecast"

  const NoDataStatus: string := "No data to insert"
  const InsertFailedStatus: string := "BigQuery insert failed"

  /** The rows a `DELETE ... WHERE date = '<date>'` leaves, in their order. */
  function WithoutDate(rows: seq<DailySummary>, date: string): (r: seq<DailySummary>)
    ensures |r| <= |rows|
  {
    if rows == [] then []
    else
      var last := rows[|rows| - 1];
      WithoutDate(rows[..|rows| - 1], date) + (if last.date == date then [] else [last])
  }

  /** The rows of one date, in their order. */
  function OnDate(rows: seq<DailySummary>, date: string): (r: seq<DailySummary>)
    ensures |r| <= |rows|
  {
    if rows == [] then []
    else
      var last := rows[|rows| - 1];
      OnDate(rows[..|rows| - 1], date) + (if last.date == date then [last] else [])
  }

  /** The delete keeps exactly the rows of other dates. */
  lemma {:induction false} WithoutDateMembers(rows: seq<DailySummary>, date: string)
    ensures forall x :: x in WithoutDate(rows, date) <==> x in rows && x.date != date
  {
    if rows != [] {
      WithoutDateMembers(rows[..|rows| - 1], date);
      assert rows == rows[..|rows| - 1] + [rows[|rows| - 1]];
    }
  }

  /** The selection keeps exactly the rows of its date. */
  lemma {:induction false} OnDateMembers(rows: seq<DailySummary>, date: string)
    ensures forall x :: x in OnDate(rows, date) <==> x in rows && x.date == date
  {
    if rows != [] {
      OnDateMembers(rows[..|rows| - 1], date);
      assert rows == rows[..|rows| - 1] + [rows[|rows| - 1]];
    }
  }

  predicate AllOnDate(batch: seq<DailySummary>, date: string) {
    forall x :: x in batch ==> x.date == date
  }

  /**
   * The table after one replacement run: the rows of `date` deleted, then
   * `batch` appended unless it is empty or the insert request was rejected
   * (a rejected streaming insert stores none of its rows; the delete stands).
   */
  function ReplaceDate(rows: seq<DailySummary>, date: string, batch: seq<DailySummary>, rejected: bool)
    : (r: seq<DailySummary>)
    ensures forall x :: x in r <==> (x in rows && x.date != date) || (!rejected && x in batch)
  {
    WithoutDateMembers(rows, date);
    WithoutDate(rows, date) + (if batch == [] || rejected then [] else batch)
  }

  lemma {:induction false} WithoutDateAppend(a: seq<DailySummary>, b: seq<DailySummary>, date: string)
    ensures WithoutDate(a + b, date) == WithoutDate(a, date) + WithoutDate(b, date)
    decreases |b|
  {
    if b == [] {
      assert a + b == a;
    } else {
      var front := b[..|b| - 1];
      WithoutDateAppend(a, front, date);
      assert (a + b)[..|a + b| - 1] == a + front;
      assert (a + b)[|a + b| - 1] == b[|b| - 1];
    }
  }

  lemma {:induction false} OnDateAppend(a: seq<DailySummary>, b: seq<DailySummary>, date: string)
    ensures OnDate(a + b, date) == OnDate(a, date) + OnDate(b, date)
    decreases |b|
  {
    if b == [] {
      assert a + b == a;
    } else {
      var front := b[..|b| - 1];
      OnDateAppend(a, front, date);
      assert (a + b)[..|a + b| - 1] == a + front;
      assert (a + b)[|a + b| - 1] == b[|b| - 1];
    }
  }

  /** Deleting a date twice is deleting it once. */
  lemma {:induction false} WithoutDateIdempotent(rows: seq<DailySummary>, date: string)
    ensures WithoutDate(WithoutDate(rows, date), date) == WithoutDate(rows, date)
  {
    if rows != [] {
      var front := rows[..|rows| - 1];
      var last := rows[|rows| - 1];
      WithoutDateIdempotent(front, date);
      WithoutDateAppend(WithoutDate(front, date), if last.date == date then [] else [last], date);
      assert WithoutDate([last], date) == (if last.date == date then [] else [last]) by {
        assert [last][..0] == [];
      }
    }
  }

  lemma {:induction false} OnDateKeepsAll(rows: seq<DailySummary>, date: string)
    requires AllOnDate(rows, date)
    ensures OnDate(rows, date) == rows
  {
    if rows != [] {
      assert rows[..|rows| - 1] + [rows[|rows| - 1]] == rows;
      OnDateKeepsAll(rows[..|rows| - 1], date);
    }
  }

  /** Deleting a date removes every row of a batch dated that day. */
  lemma {:induction false} WithoutDateOfDated(batch: seq<DailySummary>, date: string)
    requires AllOnDate(batch, date)
    ensures WithoutDate(batch, date) == []
  {
    if batch != [] {
      WithoutDateOfDated(batch[..|batch| - 1], date);
    }
  }

  /** A batch dated one day has no rows of any other day. */
  lemma {:induction false} OnDateOfOtherDated(batch: seq<DailySummary>, date: string, other: string)
    requires AllOnDate(batch, date) && other != date
    ensures OnDate(batch, other) == []
  {
    if batch != [] {
      OnDateOfOtherDated(batch[..|batch| - 1], date, other);
    }
  }

  /** After the delete no row of the date is left. */
  lemma {:induction false} OnDateOfWithoutSame(rows: seq<DailySummary>, date: string)
    ensures OnDate(WithoutDate(rows, date), date) == []
  {
    if rows != [] {
      var front := rows[..|rows| - 1];
      var last := rows[|rows| - 1];
      OnDateOfWithoutSame(front, date);
      OnDateAppend(WithoutDate(front, date), if last.date == date then [] else [last], date);
      assert [last][..0] == [];
    }
  }

  /** Deleting one date does not touch the rows of another. */
  lemma {:induction false} OnDateOfWithout(rows: seq<DailySummary>, date: string, other: string)
    requires other != date
    ensures OnDate(WithoutDate(rows, date), other) == OnDate(rows, other)
  {
    if rows != [] {
      var front := rows[..|rows| - 1];
      var last := rows[|rows| - 1];
      OnDateOfWithout(front, date, other);
      OnDateAppend(WithoutDate(front, date), if last.date == date then [] else [last], other);
      assert [last][..0] == [];
    }
  }

  /**
   * A run leaves the rows of every other date exactly as they were, in the
   * same order.
   */
  lemma ReplaceKeepsOtherDates(rows: seq<DailySummary>, date: string, batch: seq<DailySummary>, rejected: bool)
    requires AllOnDate(batch, date)
    ensures WithoutDate(ReplaceDate(rows, date, batch, rejected), date) == WithoutDate(rows, date)
  {
    var added := if batch == [] || rejected then [] else batch;
    WithoutDateAppend(WithoutDate(rows, date), added, date);
    WithoutDateIdempotent(rows, date);
    WithoutDateOfDated(added, date);
  }

  /** The same, one other date at a time. */
  lemma ReplaceKeepsDate(rows: seq<DailySummary>, date: string, batch: seq<DailySummary>, rejected: bool,
                         other: string)
    requires AllOnDate(batch, date) && other != date
    ensures OnDate(ReplaceDate(rows, date, batch, rejected), other) == OnDate(rows, other)
  {
    var added := if batch == [] || rejected then [] else batch;
    OnDateAppend(WithoutDate(rows, date), added, other);
    OnDateOfOtherDated(added, date, other);
    OnDateOfWithout(rows, date, other);
  }

  /**
   * After a run the table holds, for the target date, exactly the batch when
   * it was stored and nothing when it was empty or rejected.
   */
  lemma ReplaceTargetRows(rows: seq<DailySummary>, date: string, batch: seq<DailySummary>, rejected: bool)
    requires AllOnDate(batch, date)
    ensures OnDate(ReplaceDate(rows, date, batch, rejected), date) == (if rejected then [] else batch)
  {
    var added := if batch == [] || rejected then [] else batch;
    OnDateAppend(WithoutDate(rows, date), added, date);
    OnDateOfWithoutSame(rows, date);
    OnDateKeepsAll(added, date);
  }

  /**
   * A second run for the same date overrides the first: whatever the first
   * run stored for that date is deleted before the second run's batch goes in.
   */
  lemma ReplaceTwice(rows: seq<DailySummary>, date: string,
                     first: seq<DailySummary>, firstRejected: bool,
                     second: seq<DailySummary>, secondRejected: bool)
    requires AllOnDate(first, date)
    ensures ReplaceDate(ReplaceDate(rows, date, first, firstRejected), date, second, secondRejected)
         == ReplaceDate(rows, date, second, secondRejected)
  {
    ReplaceKeepsOtherDates(rows, date, first, firstRejected);
  }

  /** The status text of a stored batch of `n` rows. */
  function InsertedStatus(n: nat): (s: string)
    ensures |s| > 9 + |NatToDecimal(n)|
    ensures s[..9] == "Inserted " && s[9..9 + |NatToDecimal(n)|] == NatToDecimal(n)
    ensures DecimalValue(s[9..9 + |NatToDecimal(n)|]) == n
    ensures s[9 + |NatToDecimal(n)|..] == " rows into " + TableId
    ensures s != NoDataStatus && s != InsertFailedStatus
  {
    var digits := NatToDecimal(n);
    var prefix, suffix := "Inserted ", " rows into " + TableId;
    var s := prefix + digits + suffix;
    assert |prefix| == 9 && |suffix| > 0;
    assert s[..9] == prefix;
    assert s[9..9 + |digits|] == digits;
    assert s[9 + |digits|..] == suffix;
    assert s[0] == 'I' && NoDataStatus[0] == 'N' && InsertFailedStatus[0] == 'B';
    DecimalRoundTrip(n);
    s
  }

  /** The warehouse table, updated in place by the entry point. */
  class WarehouseTable {
    var rows: seq<DailySummary>

    constructor (initial: seq<DailySummary>)
      ensures rows == initial
    {
      rows := initial;
    }

    /** The delete query for one date. */
    method DeleteWhereDate(date: string)
      modifies this
      ensures rows == WithoutDate(old(rows), date)
    {
      rows := WithoutDate(rows, date);
    }

    /**
     * The streaming insert. Whether the service rejects the request is not
     * visible here and is a parameter; a rejected request stores nothing and
     * reports errors.
     */
    method InsertRowsJson(batch: seq<DailySummary>, rejected: bool) returns (errors: bool)
      modifies this
      ensures errors == rejected
      ensures rows == if rejected then old(rows) else old(rows) + batch
    {
      errors := rejected;
      if !rejected {
        rows := rows + batch;
      }
    }
  }

  /** The batch one run collects: yesterday's summaries of the cities that have one, in city order. */
  function DailyBatch(cities: seq<City>, yesterday: Date, geocode: Geocoder, fetch: WeatherFetcher)
    : (batch: seq<DailySummary>)
    requires ValidDate(yesterday)
    ensures AllOnDate(batch, IsoFormat(yesterday))
    ensures |batch| <= |cities|
  {
    var visits := Visits(cities, [yesterday]);
    RowsOfOneDate(cities, yesterday, geocode, fetch);
    VisitsLength(cities, [yesterday]);
    Rows(visits, geocode, fetch)
  }

  /**
   * `run_yesterday_weather_to_bigquery`: the day before the run's wall-clock
   * date is `yesterday`; whether the insert request is rejected is
   * `insertRejected`.
   */
  method RunYesterdayWeatherToWarehouse(table: WarehouseTable, yesterday: Date, cities: seq<City>,
                                        geocode: Geocoder, fetch: WeatherFetcher, insertRejected: bool)
    returns (status: string)
    requires ValidDate(yesterday)
    requires AllVisitsComplete(Visits(cities, [yesterday]), geocode, fetch)
    modifies table
    ensures var batch := DailyBatch(cities, yesterday, geocode, fetch);
      && table.rows == ReplaceDate(old(table.rows), IsoFormat(yesterday), batch, insertRejected)
      && (batch == [] ==> status == NoDataStatus)
      && (batch != [] && insertRejected ==> status == InsertFailedStatus)
      && (batch != [] && !insertRejected ==> status == InsertedStatus(|batch|))
  {
    var target := IsoFormat(yesterday);
    table.DeleteWhereDate(target);
    var rowsToInsert: seq<DailySummary> := [];
    ghost var visited: seq<Visit> := [];
    for i := 0 to |cities|
      invariant visited == Visits(cities[..i], [yesterday])
      invariant rowsToInsert == Rows(visited, geocode, fetch)
      invariant table.rows == WithoutDate(old(table.rows), target)
    {
      var city := cities[i];
      assert VisitComplete(Visit(city, yesterday), geocode, fetch) by {
        VisitsLayout(cities, [yesterday], i, 0);
        assert i * 1 + 0 == i;
      }
      var result, request := ProcessWeatherForDate(city.name, city.state, city.country, yesterday, geocode, fetch);
      RowsSnoc(visited, Visit(city, yesterday), geocode, fetch);
      if result.Some? {
        rowsToInsert := rowsToInsert + [result.value];
      }
      visited := visited + [Visit(city, yesterday)];
      assert cities[..i + 1][..i] == cities[..i];
      assert CityVisits(city, [yesterday]) == [Visit(city, yesterday)];
    }
    assert cities[..|cities|] == cities;
    if |rowsToInsert| > 0 {
      var errors := table.InsertRowsJson(rowsToInsert, insertRejected);
      if errors {
        return InsertFailedStatus;
      }
      return InsertedStatus(|rowsToInsert|);
    } else {
      return NoDataStatus;
    }
  }

  /**
   * Re-running the daily job with the same services leaves the table as one
   * run left it: the date's rows are replaced, never duplicated.
   */
  lemma DailyRunIdempotent(rows: seq<DailySummary>, cities: seq<City>, yesterday: Date,
                           geocode: Geocoder, fetch: WeatherFetcher, firstRejected: bool, secondRejected: bool)
    requires ValidDate(yesterday)
    ensures var batch := DailyBatch(cities, yesterday, geocode, fetch);
      var date := IsoFormat(yesterday);
      ReplaceDate(ReplaceDate(rows, date, batch, firstRejected), date, batch, secondRejected)
      == ReplaceDate(rows, date, batch, secondRejected)
  {
    var batch := DailyBatch(cities, yesterday, geocode, fetch);
    ReplaceTwice(rows, IsoFormat(yesterday), batch, firstRejected, batch, secondRejected);
  }
}
