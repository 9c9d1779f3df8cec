/**
 * The run over cities and dates: cities form the outer loop, the days of the
 * inclusive window the inner loop, and each (city, date) pair that yields a
 * summary contributes one row, in loop order. The range-mode entry point
 * writes those rows to the flat file as it goes; here the file is the
 * sequence of rows written after its header.
 */
module Orchestrator {
  import opened Wrappers
  import opened Calendar
  import opened Aggregation

  /** A row of the city list: name, state (possibly empty) and country code. */
  datatype City = City(name: string, state: string, country: string)

  /** One pass of the inner loop body. */
  datatype Visit = Visit(city: City, date: Date)

  /** The visits of one city, one per date, in date order. */
  function CityVisits(c: City, dates: seq<Date>): seq<Visit> {
    seq(|dates|, k requires 0 <= k < |dates| => Visit(c, dates[k]))
  }

  lemma CityVisitsSnoc(c: City, dates: seq<Date>, k: int)
    requires 0 <= k < |dates|
    ensures CityVisits(c, dates[..k + 1]) == CityVisits(c, dates[..k]) + [Visit(c, dates[k])]
  {
    var a, b := CityVisits(c, dates[..k + 1]), CityVisits(c, dates[..k]) + [Visit(c, dates[k])];
    assert |a| == |b|;
    forall j | 0 <= j < |a| ensures a[j] == b[j] {
    }
  }

  /** All visits of the nested loop: every date for the first city, then for the next. */
  function Visits(cities: seq<City>, dates: seq<Date>): seq<Visit> {
    if cities == [] then []
    else Visits(cities[..|cities| - 1], dates) + CityVisits(cities[|cities| - 1], dates)
  }

  lemma {:induction false} VisitsLength(cities: seq<City>, dates: seq<Date>)
    ensures |Visits(cities, dates)| == |cities| * |dates|
  {
    if cities != [] {
      VisitsLength(cities[..|cities| - 1], dates);
      MulStep(|cities| - 1, |dates|);
    }
  }

  lemma MulStep(a: int, b: int)
    ensures (a + 1) * b == a * b + b
  {
  }

  lemma MulMonotone(a: int, b: int, c: nat)
    requires a <= b
    ensures a * c <= b * c
  {
  }

  /** Visit number `i * |dates| + k` is city `i` on date `k`: cities outer, dates inner. */
  lemma {:induction false} VisitsLayout(cities: seq<City>, dates: seq<Date>, i: int, k: int)
    requires 0 <= i < |cities| && 0 <= k < |dates|
    ensures |Visits(cities, dates)| == |cities| * |dates|
    ensures 0 <= i * |dates| + k < |Visits(cities, dates)|
    ensures Visits(cities, dates)[i * |dates| + k] == Visit(cities[i], dates[k])
  {
    var n, m := |cities|, |dates|;
    var front := cities[..n - 1];
    VisitsLength(cities, dates);
    VisitsLength(front, dates);
    MulStep(n - 1, m);
    if i == n - 1 {
      assert Visits(cities, dates)[i * m + k] == CityVisits(cities[n - 1], dates)[k];
    } else {
      VisitsLayout(front, dates, i, k);
      MulStep(i, m);
      MulMonotone(i + 1, n - 1, m);
      assert Visits(cities, dates)[i * m + k] == Visits(front, dates)[i * m + k];
    }
  }

  /** The visits of one date are the cities in order. */
  lemma VisitsOfOneDate(cities: seq<City>, date: Date)
    ensures Visits(cities, [date]) == seq(|cities|, i requires 0 <= i < |cities| => Visit(cities[i], date))
  {
    var vs := Visits(cities, [date]);
    VisitsLength(cities, [date]);
    forall i | 0 <= i < |cities| ensures vs[i] == Visit(cities[i], date) {
      VisitsLayout(cities, [date], i, 0);
    }
  }

  // -------------------------------------------------------------- outcomes

  /**
   * The services' answers for a visit are within the model: a valid date,
   * and every observation carries a temperature and a humidity.
   */
  predicate VisitComplete(v: Visit, geocode: Geocoder, fetch: WeatherFetcher) {
    && ValidDate(v.date)
    && FetchComplete(v.city.name, v.city.state, v.city.country, v.date, geocode, fetch)
  }

  predicate AllVisitsComplete(vs: seq<Visit>, geocode: Geocoder, fetch: WeatherFetcher) {
    forall j :: 0 <= j < |vs| ==> VisitComplete(vs[j], geocode, fetch)
  }

  /**
   * What `process_weather_for_date` returns for one visit. A visit outside
   * the model (where the source raises instead of returning) yields nothing
   * here; the loops below only run over complete visits.
   */
  function Outcome(v: Visit, geocode: Geocoder, fetch: WeatherFetcher): Option<DailySummary> {
    if VisitComplete(v, geocode, fetch)
    then DayResult(v.city.name, v.city.state, v.city.country, v.date, geocode, fetch)
    else None
  }

  function OutcomeOf(geocode: Geocoder, fetch: WeatherFetcher): Visit -> Option<DailySummary> {
    v => Outcome(v, geocode, fetch)
  }

  /** `f` applied to each element, in order. */
  function MapSeq<A, B>(xs: seq<A>, f: A -> B): (ys: seq<B>)
    ensures |ys| == |xs|
  {
    seq(|xs|, j requires 0 <= j < |xs| => f(xs[j]))
  }

  lemma MapSeqAppend<A, B>(a: seq<A>, b: seq<A>, f: A -> B)
    ensures MapSeq(a + b, f) == MapSeq(a, f) + MapSeq(b, f)
  {
    var l, r := MapSeq(a + b, f), MapSeq(a, f) + MapSeq(b, f);
    forall j | 0 <= j < |l| ensures l[j] == r[j] {
      if j < |a| {
        assert (a + b)[j] == a[j];
      } else {
        assert (a + b)[j] == b[j - |a|];
      }
    }
  }

  /** The outcomes of the visits, one per visit, in visit order. */
  function Outcomes(vs: seq<Visit>, geocode: Geocoder, fetch: WeatherFetcher): (os: seq<Option<DailySummary>>)
    ensures |os| == |vs|
  {
    MapSeq(vs, OutcomeOf(geocode, fetch))
  }

  lemma OutcomesAt(vs: seq<Visit>, geocode: Geocoder, fetch: WeatherFetcher, j: int)
    requires 0 <= j < |vs|
    ensures Outcomes(vs, geocode, fetch)[j] == Outcome(vs[j], geocode, fetch)
  {
  }

  /** The values of the outcomes that are present, in order: `if result: rows.append(result)`. */
  function Present(os: seq<Option<DailySummary>>): seq<DailySummary> {
    if os == [] then []
    else Present(os[..|os| - 1]) + (if os[|os| - 1].Some? then [os[|os| - 1].value] else [])
  }

  /** The rows the loops collect: the summaries of the visits that have one, in visit order. */
  function Rows(vs: seq<Visit>, geocode: Geocoder, fetch: WeatherFetcher): (r: seq<DailySummary>)
    ensures |r| <= |vs|
  {
    PresentAtMost(Outcomes(vs, geocode, fetch));
    Present(Outcomes(vs, geocode, fetch))
  }

  lemma {:induction false} PresentAppend(a: seq<Option<DailySummary>>, b: seq<Option<DailySummary>>)
    ensures Present(a + b) == Present(a) + Present(b)
    decreases |b|
  {
    if b == [] {
      assert a + b == a;
    } else {
      PresentAppend(a, b[..|b| - 1]);
      assert (a + b)[..|a + b| - 1] == a + b[..|b| - 1];
    }
  }

  /** At most one row per outcome. */
  lemma {:induction false} PresentAtMost(os: seq<Option<DailySummary>>)
    ensures |Present(os)| <= |os|
  {
    if os != [] {
      PresentAtMost(os[..|os| - 1]);
    }
  }

  /** When every outcome is present, row j is outcome j. */
  lemma {:induction false} PresentAllSome(os: seq<Option<DailySummary>>)
    requires forall j :: 0 <= j < |os| ==> os[j].Some?
    ensures |Present(os)| == |os|
    ensures forall j :: 0 <= j < |os| ==> Present(os)[j] == os[j].value
  {
    if os != [] {
      PresentAllSome(os[..|os| - 1]);
    }
  }

  /** Every row is one of the present outcomes. */
  lemma {:induction false} PresentMember(os: seq<Option<DailySummary>>, r: DailySummary)
    requires r in Present(os)
    ensures exists j :: 0 <= j < |os| && os[j] == Some(r)
  {
    var front := os[..|os| - 1];
    if r in Present(front) {
      PresentMember(front, r);
      var j :| 0 <= j < |front| && front[j] == Some(r);
      assert os[j] == Some(r);
    } else {
      assert os[|os| - 1] == Some(r);
    }
  }

  /** Collecting over two runs of visits is collecting over each in turn. */
  lemma RowsAppend(a: seq<Visit>, b: seq<Visit>, geocode: Geocoder, fetch: WeatherFetcher)
    ensures Rows(a + b, geocode, fetch) == Rows(a, geocode, fetch) + Rows(b, geocode, fetch)
  {
    MapSeqAppend(a, b, OutcomeOf(geocode, fetch));
    PresentAppend(Outcomes(a, geocode, fetch), Outcomes(b, geocode, fetch));
  }

  /** When every visit yields a summary, the rows are those summaries, in visit order. */
  lemma RowsAllPresent(vs: seq<Visit>, geocode: Geocoder, fetch: WeatherFetcher)
    requires forall j :: 0 <= j < |vs| ==> Outcome(vs[j], geocode, fetch).Some?
    ensures |Rows(vs, geocode, fetch)| == |vs|
    ensures forall j :: 0 <= j < |vs| ==> Rows(vs, geocode, fetch)[j] == Outcome(vs[j], geocode, fetch).value
  {
    var os := Outcomes(vs, geocode, fetch);
    forall j | 0 <= j < |os| ensures os[j] == Outcome(vs[j], geocode, fetch) {
      OutcomesAt(vs, geocode, fetch, j);
    }
    PresentAllSome(os);
  }

  /** Each row carries the place and the ISO date of the visit it came from. */
  lemma RowsCarryVisitFields(vs: seq<Visit>, geocode: Geocoder, fetch: WeatherFetcher, r: DailySummary)
    requires r in Rows(vs, geocode, fetch)
    ensures exists j :: (0 <= j < |vs| && Outcome(vs[j], geocode, fetch) == Some(r)
                         && ValidDate(vs[j].date) && r.date == IsoFormat(vs[j].date)
                         && r.city == vs[j].city.name && r.state == vs[j].city.state
                         && r.country == vs[j].city.country)
  {
    var os := Outcomes(vs, geocode, fetch);
    PresentMember(os, r);
    var j :| 0 <= j < |os| && os[j] == Some(r);
    var v := vs[j];
    assert VisitComplete(v, geocode, fetch);
    DayResultCases(v.city.name, v.city.state, v.city.country, v.date, geocode, fetch);
  }

  /** Collected for a single date, every row carries that date's ISO text. */
  lemma RowsOfOneDate(cities: seq<City>, date: Date, geocode: Geocoder, fetch: WeatherFetcher)
    requires ValidDate(date)
    ensures forall r :: r in Rows(Visits(cities, [date]), geocode, fetch) ==> r.date == IsoFormat(date)
  {
    var vs := Visits(cities, [date]);
    VisitsOfOneDate(cities, date);
    forall r | r in Rows(vs, geocode, fetch) ensures r.date == IsoFormat(date) {
      RowsCarryVisitFields(vs, geocode, fetch, r);
    }
  }

  /** One pass of a loop body: the visit is appended, and its summary if it has one. */
  lemma RowsSnoc(vs: seq<Visit>, v: Visit, geocode: Geocoder, fetch: WeatherFetcher)
    ensures var o := Outcome(v, geocode, fetch);
      Rows(vs + [v], geocode, fetch) == Rows(vs, geocode, fetch) + (if o.Some? then [o.value] else [])
  {
    var o := Outcome(v, geocode, fetch);
    RowsAppend(vs, [v], geocode, fetch);
    assert Outcomes([v], geocode, fetch) == [o];
    assert [o][..0] == [];
    assert Present([o]) == if o.Some? then [o.value] else [];
  }

  // ------------------------------------------------------------ run windows

  datatype Mode = Daily | Historical

  const HistoricalStart: Date := Date(2024, 1, 1)
  const HistoricalEnd: Date := Date(2024, 1, 7)

  /** The window of each mode; `yesterday` is the day before the run's wall-clock date. */
  function RunWindow(mode: Mode, yesterday: Date): (w: (Date, Date))
    requires ValidDate(yesterday)
    ensures ValidDate(w.0) && ValidDate(w.1) && Ordinal(w.0) <= Ordinal(w.1)
    ensures mode == Daily ==> w.0 == w.1 == yesterday
    ensures mode == Historical ==> w == (HistoricalStart, HistoricalEnd)
  {
    if mode == Historical then (HistoricalStart, HistoricalEnd) else (yesterday, yesterday)
  }

  /** The historical window is the seven days 2024-01-01 .. 2024-01-07, in order. */
  lemma HistoricalWindowDays()
    ensures DateRange(HistoricalStart, HistoricalEnd)
      == seq(7, k requires 0 <= k < 7 => Date(2024, 1, k + 1))
  {
    var r := DateRange(HistoricalStart, HistoricalEnd);
    assert |r| == 7;
    forall k | 0 <= k < 7 ensures r[k] == Date(2024, 1, k + 1) {
      OrdinalInjective(r[k], Date(2024, 1, k + 1));
    }
  }

  /** The daily window is the single day. */
  lemma DailyWindowDays(yesterday: Date)
    requires ValidDate(yesterday)
    ensures DateRange(yesterday, yesterday) == [yesterday]
  {
    DateRangeEnds(yesterday, yesterday);
  }

  // ------------------------------------------------------------ the loops

  /**
   * The inner loop of the range mode for one city: for each delta in
   * `range((end - start).days + 1)`, process `start + delta days` and keep
   * the summary if there is one. `visited` lists the pairs processed.
   */
  method RunCityDays(city: City, start: Date, end: Date, geocode: Geocoder, fetch: WeatherFetcher)
    returns (written: seq<DailySummary>, ghost visited: seq<Visit>)
    requires ValidDate(start) && ValidDate(end)
    requires AllVisitsComplete(CityVisits(city, DateRange(start, end)), geocode, fetch)
    ensures visited == CityVisits(city, DateRange(start, end))
    ensures written == Rows(visited, geocode, fetch)
  {
    ghost var dates := DateRange(start, end);
    var days := RangeLength(start, end);
    OrdinalAtMostMax(end);
    written, visited := [], [];
    for delta := 0 to days
      invariant visited == CityVisits(city, dates[..delta])
      invariant written == Rows(visited, geocode, fetch)
    {
      var current := AddDays(start, delta);
      ghost var v := Visit(city, current);
      assert current == dates[delta];
      assert CityVisits(city, dates)[delta] == v;
      var result, request := ProcessWeatherForDate(city.name, city.state, city.country, current, geocode, fetch);
      RowsSnoc(visited, v, geocode, fetch);
      CityVisitsSnoc(city, dates, delta);
      if result.Some? {
        written := written + [result.value];
      }
      visited := visited + [v];
    }
    assert dates[..days] == dates;
  }

  /** The visits of city `i` are complete when all visits are. */
  lemma CityVisitsComplete(cities: seq<City>, dates: seq<Date>, i: int, geocode: Geocoder, fetch: WeatherFetcher)
    requires 0 <= i < |cities|
    requires AllVisitsComplete(Visits(cities, dates), geocode, fetch)
    ensures AllVisitsComplete(CityVisits(cities[i], dates), geocode, fetch)
  {
    forall k | 0 <= k < |dates| ensures VisitComplete(CityVisits(cities[i], dates)[k], geocode, fetch) {
      VisitsLayout(cities, dates, i, k);
    }
  }

  /** One pass of the outer loop appends one city's visits and rows. */
  lemma RangeCityStep(cities: seq<City>, dates: seq<Date>, i: int, visited: seq<Visit>, cityVisits: seq<Visit>,
                      geocode: Geocoder, fetch: WeatherFetcher)
    requires 0 <= i < |cities|
    requires visited == Visits(cities[..i], dates)
    requires cityVisits == CityVisits(cities[i], dates)
    ensures visited + cityVisits == Visits(cities[..i + 1], dates)
    ensures Rows(visited + cityVisits, geocode, fetch) == Rows(visited, geocode, fetch) + Rows(cityVisits, geocode, fetch)
  {
    RowsAppend(visited, cityVisits, geocode, fetch);
    assert cities[..i + 1][..i] == cities[..i];
  }

  /**
   * The range-mode loop of the local entry point: cities outer, the days of
   * the window inner; every summary is written, in that order.
   */
  method RunRange(cities: seq<City>, start: Date, end: Date, geocode: Geocoder, fetch: WeatherFetcher)
    returns (written: seq<DailySummary>, ghost visited: seq<Visit>)
    requires ValidDate(start) && ValidDate(end)
    requires AllVisitsComplete(Visits(cities, DateRange(start, end)), geocode, fetch)
    ensures visited == Visits(cities, DateRange(start, end))
    ensures written == Rows(visited, geocode, fetch)
  {
    ghost var dates := DateRange(start, end);
    written, visited := [], [];
    for i := 0 to |cities|
      invariant visited == Visits(cities[..i], dates)
      invariant written == Rows(visited, geocode, fetch)
    {
      CityVisitsComplete(cities, dates, i, geocode, fetch);
      var cityRows;
      ghost var cityVisits;
      cityRows, cityVisits := RunCityDays(cities[i], start, end, geocode, fetch);
      RangeCityStep(cities, dates, i, visited, cityVisits, geocode, fetch);
      written := written + cityRows;
      visited := visited + cityVisits;
    }
    assert cities[..|cities|] == cities;
  }
}
