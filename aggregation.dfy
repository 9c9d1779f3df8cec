/**
 * The per-(city, date) step of the pipeline: resolve the city's coordinates,
 * fetch the day's observations anchored at UTC midnight, and reduce them to
 * one daily summary (mean, minimum and maximum temperature, mean humidity and
 * the dominant weather label).
 *
 * The geocoding and weather services are parameters: a `Geocoder` maps the
 * location query to a possibly absent latitude and longitude, a
 * `WeatherFetcher` maps a request to the list of observations it returns
 * (empty on an HTTP error or an unreadable body).
 */
module Aggregation {
  import opened Wrappers
  import opened Calendar
  import opened Location

  /**
   * One reading from the weather service: its `temp` and `humidity` (either
   * may be missing) and the `main` label of each element of its `weather`
   * list (empty when the key is missing or the list is empty).
   */
  datatype Observation = Observation(temp: Option<real>, humidity: Option<real>, weather: seq<string>)

  /** The row written to the file or the warehouse table. */
  datatype DailySummary = DailySummary(
    city: string, state: string, country: string, date: string,
    avgTemp: real, minTemp: real, maxTemp: real, avgHumidity: real,
    dominantWeather: string)

  datatype Coordinates = Coordinates(lat: Option<real>, lon: Option<real>)

  /** The historical-weather request: where, and the POSIX second the day starts at. */
  datatype FetchRequest = FetchRequest(lat: real, lon: real, dt: int)

  type Geocoder = string -> Coordinates
  type WeatherFetcher = FetchRequest -> seq<Observation>

  /** Both numeric fields are present; summing a missing one raises a TypeError. */
  predicate Complete(o: Observation) {
    o.temp.Some? && o.humidity.Some?
  }

  predicate AllComplete(obs: seq<Observation>) {
    forall i :: 0 <= i < |obs| ==> Complete(obs[i])
  }

  function Temps(obs: seq<Observation>): seq<real>
    requires AllComplete(obs)
  {
    seq(|obs|, i requires 0 <= i < |obs| => obs[i].temp.value)
  }

  function Humidities(obs: seq<Observation>): seq<real>
    requires AllComplete(obs)
  {
    seq(|obs|, i requires 0 <= i < |obs| => obs[i].humidity.value)
  }

  lemma ReadingsSnoc(obs: seq<Observation>, o: Observation)
    requires AllComplete(obs) && Complete(o)
    ensures AllComplete(obs + [o])
    ensures Temps(obs + [o]) == Temps(obs) + [o.temp.value]
    ensures Humidities(obs + [o]) == Humidities(obs) + [o.humidity.value]
  {
    assert (obs + [o])[|obs|] == o;
  }

  // ---------------------------------------------------------------- statistics

  function Sum(xs: seq<real>): real {
    if xs == [] then 0.0 else Sum(xs[..|xs| - 1]) + xs[|xs| - 1]
  }

  /** `sum(xs) / len(xs)`, exactly. */
  function Mean(xs: seq<real>): (m: real)
    requires |xs| > 0
    ensures m * (|xs| as real) == Sum(xs)
  {
    Sum(xs) / (|xs| as real)
  }

  /** Python's `min`: scans left to right, keeping the smaller value. */
  function Min(xs: seq<real>): (m: real)
    requires |xs| > 0
    ensures m in xs
    ensures forall i :: 0 <= i < |xs| ==> m <= xs[i]
  {
    if |xs| == 1 then xs[0]
    else
      var m := Min(xs[..|xs| - 1]);
      if xs[|xs| - 1] < m then xs[|xs| - 1] else m
  }

  /** Python's `max`: scans left to right, keeping the larger value. */
  function Max(xs: seq<real>): (m: real)
    requires |xs| > 0
    ensures m in xs
    ensures forall i :: 0 <= i < |xs| ==> xs[i] <= m
  {
    if |xs| == 1 then xs[0]
    else
      var m := Max(xs[..|xs| - 1]);
      if xs[|xs| - 1] > m then xs[|xs| - 1] else m
  }

  lemma {:induction false} SumBounds(xs: seq<real>, lo: real, hi: real)
    requires forall i :: 0 <= i < |xs| ==> lo <= xs[i] <= hi
    ensures (|xs| as real) * lo <= Sum(xs) <= (|xs| as real) * hi
  {
    if xs != [] {
      SumBounds(xs[..|xs| - 1], lo, hi);
    }
  }

  /** A quotient of a total bounded by n copies of `lo` and of `hi` lies between them. */
  lemma QuotientBetween(total: real, n: real, lo: real, hi: real, quotient: real)
    requires n > 0.0 && n * lo <= total <= n * hi && quotient * n == total
    ensures lo <= quotient <= hi
  {
  }

  /** A mean of values between `lo` and `hi` is itself between them. */
  lemma MeanBetween(xs: seq<real>, lo: real, hi: real)
    requires |xs| > 0
    requires forall i :: 0 <= i < |xs| ==> lo <= xs[i] <= hi
    ensures lo <= Mean(xs) <= hi
  {
    SumBounds(xs, lo, hi);
    QuotientBetween(Sum(xs), |xs| as real, lo, hi, Mean(xs));
  }

  /** The mean lies between the extremes. */
  lemma MeanWithinExtremes(xs: seq<real>)
    requires |xs| > 0
    ensures Min(xs) <= Mean(xs) <= Max(xs)
  {
    MeanBetween(xs, Min(xs), Max(xs));
  }

  /** `Sum` of a three-element list, for the worked examples. */
  lemma SumOfThree(a: real, b: real, c: real)
    ensures Sum([a, b, c]) == a + b + c
  {
    assert [a, b, c][..2] == [a, b];
    assert [a, b][..1] == [a];
    assert [a][..0] == [];
    assert Sum([a]) == a;
    assert Sum([a, b]) == a + b;
  }

  lemma ExtremesOfSorted(a: real, b: real, c: real)
    requires a <= b <= c
    ensures Min([a, b, c]) == a && Max([a, b, c]) == c
  {
    var m, n := Min([a, b, c]), Max([a, b, c]);
    assert m <= [a, b, c][0] && n >= [a, b, c][2];
    assert m in [a, b, c] && n in [a, b, c];
  }

  lemma IsoOfNewYear2024()
    ensures IsoFormat(Date(2024, 1, 1)) == "2024-01-01"
  {
  }

  // ------------------------------------------------------------ weather labels

  /** `"weather" in entry and entry["weather"]`. */
  predicate Labelled(o: Observation) {
    |o.weather| > 0
  }

  predicate HasLabel(obs: seq<Observation>) {
    exists j :: 0 <= j < |obs| && Labelled(obs[j])
  }

  /** The reference for the dominant label: the first label of the first labelled observation. */
  function FirstLabel(obs: seq<Observation>): string {
    if obs == [] then ""
    else if Labelled(obs[0]) then obs[0].weather[0]
    else FirstLabel(obs[1..])
  }

  /** How many observations have `key` as their first `weather` label. */
  function LabelCount(obs: seq<Observation>, key: string): nat {
    if obs == [] then 0
    else
      var o := obs[|obs| - 1];
      LabelCount(obs[..|obs| - 1], key) + (if Labelled(o) && o.weather[0] == key then 1 else 0)
  }

  lemma LabelCountSnoc(obs: seq<Observation>, o: Observation, key: string)
    ensures LabelCount(obs + [o], key)
         == LabelCount(obs, key) + (if Labelled(o) && o.weather[0] == key then 1 else 0)
  {
    assert (obs + [o])[..|obs|] == obs;
  }

  lemma HasLabelSnoc(obs: seq<Observation>, o: Observation)
    ensures HasLabel(obs + [o]) <==> HasLabel(obs) || Labelled(o)
  {
    var s := obs + [o];
    assert s[|obs|] == o;
    if HasLabel(s) && !Labelled(o) {
      var j :| 0 <= j < |s| && Labelled(s[j]);
      assert j < |obs| && s[j] == obs[j];
    }
    if HasLabel(obs) {
      var j :| 0 <= j < |obs| && Labelled(obs[j]);
      assert s[j] == obs[j];
    }
  }

  /** The first label is that of the earliest labelled observation... */
  lemma {:induction false} FirstLabelAt(obs: seq<Observation>, i: int)
    requires 0 <= i < |obs| && Labelled(obs[i])
    requires forall j :: 0 <= j < i ==> !Labelled(obs[j])
    ensures FirstLabel(obs) == obs[i].weather[0]
  {
    if i > 0 {
      FirstLabelAt(obs[1..], i - 1);
    }
  }

  /** ...and empty when no observation is labelled. */
  lemma {:induction false} FirstLabelNone(obs: seq<Observation>)
    requires !HasLabel(obs)
    ensures FirstLabel(obs) == ""
  {
    if obs != [] {
      assert !Labelled(obs[0]);
      assert !HasLabel(obs[1..]) by {
        forall j | 0 <= j < |obs| - 1 ensures !Labelled(obs[1..][j]) {
          assert obs[1..][j] == obs[j + 1];
        }
      }
      FirstLabelNone(obs[1..]);
    }
  }

  /** Appending an observation changes the first label only if there was none yet. */
  lemma {:induction false} FirstLabelSnoc(obs: seq<Observation>, o: Observation)
    ensures FirstLabel(obs + [o]) ==
      if HasLabel(obs) then FirstLabel(obs)
      else if Labelled(o) then o.weather[0]
      else ""
  {
    if obs == [] {
      assert ([] + [o])[1..] == [];
    } else {
      var s := obs + [o];
      assert s[0] == obs[0];
      assert s[1..] == obs[1..] + [o];
      if !Labelled(obs[0]) {
        FirstLabelSnoc(obs[1..], o);
        assert HasLabel(obs) <==> HasLabel(obs[1..]) by {
          if HasLabel(obs) {
            var j :| 0 <= j < |obs| && Labelled(obs[j]);
            assert obs[1..][j - 1] == obs[j];
          }
          if HasLabel(obs[1..]) {
            var j :| 0 <= j < |obs[1..]| && Labelled(obs[1..][j]);
            assert obs[j + 1] == obs[1..][j];
          }
        }
      } else {
        assert Labelled(obs[0]);
      }
    }
  }

  /** Python's insertion-ordered `defaultdict(int)` of weather labels. */
  datatype Tally = Tally(order: seq<string>, counts: map<string, nat>) {
    /** `order` lists each key of `counts` once, in insertion order. */
    ghost predicate Valid() {
      && (forall k :: k in counts <==> k in order)
      && (forall i, j :: 0 <= i < j < |order| ==> order[i] != order[j])
    }

    /** `counts[key]`, 0 for a label never seen. */
    function Count(key: string): nat {
      if key in counts then counts[key] else 0
    }

    /** `counts[key] += 1`: a label seen for the first time becomes the last key. */
    function Increment(key: string): (t: Tally)
      requires Valid()
      ensures t.Valid()
      ensures t.Count(key) == Count(key) + 1
      ensures forall k :: k != key ==> t.Count(k) == Count(k)
      ensures |t.order| > 0
      ensures |order| > 0 ==> t.order[0] == order[0]
      ensures |order| == 0 ==> t.order[0] == key
    {
      if key in counts then Tally(order, counts[key := counts[key] + 1])
      else Tally(order + [key], counts[key := 1])
    }

    /** `next(iter(counts), "")`: the first key inserted, or "" when there is none. */
    function First(): (f: string)
      ensures Valid() && |order| > 0 ==> f in counts
      ensures |order| == 0 ==> f == ""
    {
      if |order| > 0 then order[0] else ""
    }
  }

  const EmptyTally: Tally := Tally([], map[])

  /** One loop step keeps the tally's counts in step with the observations seen so far... */
  lemma TallyCountsStep(t: Tally, obs: seq<Observation>, o: Observation)
    requires t.Valid()
    requires forall k :: t.Count(k) == LabelCount(obs, k)
    ensures var next := if Labelled(o) then t.Increment(o.weather[0]) else t;
      && next.Valid()
      && (forall k :: next.Count(k) == LabelCount(obs + [o], k))
  {
    var next := if Labelled(o) then t.Increment(o.weather[0]) else t;
    forall k ensures next.Count(k) == LabelCount(obs + [o], k) {
      LabelCountSnoc(obs, o, k);
    }
  }

  /** ...and its first key in step with the first label. */
  lemma TallyFirstStep(t: Tally, obs: seq<Observation>, o: Observation)
    requires t.Valid()
    requires |t.order| > 0 <==> HasLabel(obs)
    requires t.First() == FirstLabel(obs)
    ensures var next := if Labelled(o) then t.Increment(o.weather[0]) else t;
      && (|next.order| > 0 <==> HasLabel(obs + [o]))
      && next.First() == FirstLabel(obs + [o])
  {
    FirstLabelSnoc(obs, o);
    HasLabelSnoc(obs, o);
  }

  // ------------------------------------------------------------------ summary

  /** The reduction of a day's observations; absent when there are none. */
  function Summarize(city: string, state: string, country: string, date: Date, obs: seq<Observation>)
    : (r: Option<DailySummary>)
    requires ValidDate(date) && AllComplete(obs)
    ensures r.None? <==> obs == []
    ensures r.Some? ==>
      && r.value.city == city && r.value.state == state && r.value.country == country
      && r.value.date == IsoFormat(date)
  {
    if obs == [] then None
    else
      var temps, humidities := Temps(obs), Humidities(obs);
      Some(DailySummary(city, state, country, IsoFormat(date),
        Mean(temps), Min(temps), Max(temps), Mean(humidities), FirstLabel(obs)))
  }

  /** The summary keeps the place unchanged and carries the date as ISO text that reads back as the date. */
  lemma SummaryIdentity(city: string, state: string, country: string, date: Date, obs: seq<Observation>)
    requires ValidDate(date) && AllComplete(obs) && obs != []
    ensures var s := Summarize(city, state, country, date, obs).value;
      && s.city == city && s.state == state && s.country == country
      && |s.date| == 10
      && ParseIsoDate(s.date) == Some(date)
  {
    IsoRoundTrip(date);
  }

  /** The temperature figures are the extremes of the readings and a mean between them. */
  lemma SummaryTemperatures(city: string, state: string, country: string, date: Date, obs: seq<Observation>)
    requires ValidDate(date) && AllComplete(obs) && obs != []
    ensures var s := Summarize(city, state, country, date, obs).value;
      && s.minTemp <= s.avgTemp <= s.maxTemp
      && s.minTemp in Temps(obs) && s.maxTemp in Temps(obs)
      && (forall i :: 0 <= i < |obs| ==> s.minTemp <= obs[i].temp.value <= s.maxTemp)
  {
    var temps := Temps(obs);
    MeanWithinExtremes(temps);
    forall k | 0 <= k < |obs| ensures Min(temps) <= obs[k].temp.value <= Max(temps) {
      assert temps[k] == obs[k].temp.value;
    }
  }

  /**
   * The dominant label is the label of the first labelled observation, or ""
   * when none is labelled; how often a label occurs plays no part.
   */
  lemma SummaryDominant(city: string, state: string, country: string, date: Date, obs: seq<Observation>, i: int)
    requires ValidDate(date) && AllComplete(obs) && obs != []
    ensures var s := Summarize(city, state, country, date, obs).value;
      && (0 <= i < |obs| && Labelled(obs[i]) && (forall j :: 0 <= j < i ==> !Labelled(obs[j]))
          ==> s.dominantWeather == obs[i].weather[0])
      && (!HasLabel(obs) ==> s.dominantWeather == "")
  {
    if 0 <= i < |obs| && Labelled(obs[i]) && (forall j :: 0 <= j < i ==> !Labelled(obs[j])) {
      FirstLabelAt(obs, i);
    }
    if !HasLabel(obs) {
      FirstLabelNone(obs);
    }
  }

  /** The day from the project's unit test: temperatures 2, 4, 6, humidities 60, 65, 55. */
  lemma SummaryOfTestDay()
    ensures Summarize("Glasgow", "Montana", "US", Date(2024, 1, 1), [
        Observation(Some(2.0), Some(60.0), ["Rain"]),
        Observation(Some(4.0), Some(65.0), ["Rain"]),
        Observation(Some(6.0), Some(55.0), ["Cloudy"])])
      == Some(DailySummary("Glasgow", "Montana", "US", "2024-01-01", 4.0, 2.0, 6.0, 60.0, "Rain"))
  {
    var obs := [
      Observation(Some(2.0), Some(60.0), ["Rain"]),
      Observation(Some(4.0), Some(65.0), ["Rain"]),
      Observation(Some(6.0), Some(55.0), ["Cloudy"])];
    var temps, hums := Temps(obs), Humidities(obs);
    assert temps == [2.0, 4.0, 6.0];
    assert hums == [60.0, 65.0, 55.0];
    assert Mean(temps) == 4.0 by {
      SumOfThree(2.0, 4.0, 6.0);
    }
    assert Min(temps) == 2.0 && Max(temps) == 6.0 by {
      ExtremesOfSorted(2.0, 4.0, 6.0);
    }
    assert Mean(hums) == 60.0 by {
      SumOfThree(60.0, 65.0, 55.0);
    }
    assert FirstLabel(obs) == "Rain";
    IsoOfNewYear2024();
  }

  /** First seen wins even against a more frequent later label. */
  lemma FirstSeenBeatsMostFrequent()
    ensures var obs := [
        Observation(Some(1.0), Some(50.0), ["Cloudy"]),
        Observation(Some(1.0), Some(50.0), ["Rain"]),
        Observation(Some(1.0), Some(50.0), ["Rain"])];
      && LabelCount(obs, "Rain") == 2 && LabelCount(obs, "Cloudy") == 1
      && Summarize("Glasgow", "Montana", "US", Date(2024, 1, 1), obs).value.dominantWeather == "Cloudy"
  {
    var obs := [
      Observation(Some(1.0), Some(50.0), ["Cloudy"]),
      Observation(Some(1.0), Some(50.0), ["Rain"]),
      Observation(Some(1.0), Some(50.0), ["Rain"])];
    assert obs[..|obs| - 1] == obs[..2];
    assert obs[..2][..1] == obs[..1];
    assert obs[..1][..0] == [];
    assert LabelCount(obs[..1], "Rain") == 0 && LabelCount(obs[..1], "Cloudy") == 1;
    assert LabelCount(obs[..2], "Rain") == 1 && LabelCount(obs[..2], "Cloudy") == 1;
  }

  // ----------------------------------------------------- one (city, date) pair

  /** The weather service returns both numeric fields on every observation of the day it is asked for. */
  predicate FetchComplete(city: string, state: string, country: string, date: Date,
                          geocode: Geocoder, fetch: WeatherFetcher)
    requires ValidDate(date)
  {
    var c := geocode(LocationQuery(city, state, country));
    c.lat.Some? && c.lon.Some? ==>
      AllComplete(fetch(FetchRequest(c.lat.value, c.lon.value, UnixTimestamp(date))))
  }

  /** What `process_weather_for_date` returns for one city and date. */
  function DayResult(city: string, state: string, country: string, date: Date,
                     geocode: Geocoder, fetch: WeatherFetcher): (r: Option<DailySummary>)
    requires ValidDate(date) && FetchComplete(city, state, country, date, geocode, fetch)
    ensures geocode(LocationQuery(city, state, country)).lat.None? ==> r.None?
    ensures geocode(LocationQuery(city, state, country)).lon.None? ==> r.None?
  {
    var c := geocode(LocationQuery(city, state, country));
    if c.lat.None? || c.lon.None? then None
    else Summarize(city, state, country, date, fetch(FetchRequest(c.lat.value, c.lon.value, UnixTimestamp(date))))
  }

  /**
   * No summary exactly when a coordinate is missing or the service returned
   * no observations; a summary carries the place and the ISO date.
   */
  lemma DayResultCases(city: string, state: string, country: string, date: Date,
                       geocode: Geocoder, fetch: WeatherFetcher)
    requires ValidDate(date) && FetchComplete(city, state, country, date, geocode, fetch)
    ensures var c := geocode(LocationQuery(city, state, country));
      var r := DayResult(city, state, country, date, geocode, fetch);
      && (r.None? <==>
          || c.lat.None? || c.lon.None?
          || fetch(FetchRequest(c.lat.value, c.lon.value, UnixTimestamp(date))) == [])
      && (r.Some? ==>
          r.value.city == city && r.value.state == state && r.value.country == country
          && r.value.date == IsoFormat(date))
  {
  }

  /**
   * `process_weather_for_date`: looks up the coordinates, and only when both
   * are present fetches the day's observations at its UTC-midnight timestamp
   * and reduces them in one pass. `request` is the fetch it issued, if any.
   */
  method ProcessWeatherForDate(city: string, state: string, country: string, date: Date,
                               geocode: Geocoder, fetch: WeatherFetcher)
    returns (result: Option<DailySummary>, request: Option<FetchRequest>)
    requires ValidDate(date) && FetchComplete(city, state, country, date, geocode, fetch)
    ensures result == DayResult(city, state, country, date, geocode, fetch)
    ensures var c := geocode(LocationQuery(city, state, country));
      if c.lat.None? || c.lon.None? then request == None
      else request == Some(FetchRequest(c.lat.value, c.lon.value, UnixTimestamp(date)))
  {
    var coords := geocode(LocationQuery(city, state, country));
    if coords.lat.None? || coords.lon.None? {
      return None, None;
    }

    var unixTs := UnixTimestamp(date);
    request := Some(FetchRequest(coords.lat.value, coords.lon.value, unixTs));
    var weatherData := fetch(request.value);
    if |weatherData| == 0 {
      return None, request;
    }

    var temps: seq<real> := [];
    var humidities: seq<real> := [];
    var weatherCounts := EmptyTally;
    for i := 0 to |weatherData|
      invariant temps == Temps(weatherData[..i])
      invariant humidities == Humidities(weatherData[..i])
      invariant weatherCounts.Valid()
      invariant forall k :: weatherCounts.Count(k) == LabelCount(weatherData[..i], k)
      invariant |weatherCounts.order| > 0 <==> HasLabel(weatherData[..i])
      invariant weatherCounts.First() == FirstLabel(weatherData[..i])
    {
      var entry := weatherData[i];
      assert weatherData[..i + 1] == weatherData[..i] + [entry];
      assert weatherData[..i + 1][..i] == weatherData[..i];
      TallyCountsStep(weatherCounts, weatherData[..i], entry);
      TallyFirstStep(weatherCounts, weatherData[..i], entry);
      ReadingsSnoc(weatherData[..i], entry);
      temps := temps + [entry.temp.value];
      humidities := humidities + [entry.humidity.value];
      if |entry.weather| > 0 {
        weatherCounts := weatherCounts.Increment(entry.weather[0]);
      }
    }
    assert weatherData[..|weatherData|] == weatherData;
    // Every observation added one temperature and one humidity, so the
    // "no temperatures or no humidities" guard after the loop never fires.
    assert |temps| == |humidities| == |weatherData| > 0;

    result := Some(DailySummary(city, state, country, IsoFormat(date),
      Mean(temps), Min(temps), Max(temps), Mean(humidities), weatherCounts.First()));
  }
}
