/** The free-text location query sent to the geocoding service. */
module Location {
  import opened Text

  /** `f"{city},{state},{country}" if state else f"{city},{country}"`. */
  function LocationQuery(city: string, state: string, country: string): (q: string)
    ensures |q| == |city| + |country| + (if state == [] then 1 else |state| + 2)
    ensures q[..|city|] == city && q[|city|] == ','
    ensures q[|q| - |country|..] == country
    ensures state != [] ==> q[|city| + 1..|city| + 1 + |state|] == state && q[|city| + 1 + |state|] == ','
  {
    if state != [] then city + "," + state + "," + country else city + "," + country
  }

  /**
   * When no field holds a comma, the service splitting the query at commas
   * gets back exactly the fields it was built from: three with a state, two
   * without.
   */
  lemma LocationQueryFields(city: string, state: string, country: string)
    requires ',' !in city && ',' !in state && ',' !in country
    ensures Split(LocationQuery(city, state, country), ',')
      == if state != [] then [city, state, country] else [city, country]
  {
    SplitWithoutSeparator(country, ',');
    if state != [] {
      SplitAtFirstSeparator(state, ',', country);
      assert city + "," + state + "," + country == city + [','] + (state + [','] + country);
      SplitAtFirstSeparator(city, ',', state + [','] + country);
    } else {
      assert city + "," + country == city + [','] + country;
      SplitAtFirstSeparator(city, ',', country);
    }
  }
}
