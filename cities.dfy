/** The city registry: a fixed table of (city name, IANA time zone) pairs and
    the first-match lookup by name that the conversion uses. */
module CityRegistry {

  datatype Option<T> = None | Some(value: T)

  datatype City = City(name: string, timezone: string)

  /** The table as the component declares it (several cities share a zone). */
  const Cities: seq<City> := [
    City("Amsterdam", "Europe/Amsterdam"),
    City("Bangalore", "Asia/Kolkata"),
    City("Bangkok", "Asia/Bangkok"),
    City("Barcelona", "Europe/Madrid"),
    City("Beijing", "Asia/Shanghai"),
    City("Berlin", "Europe/Berlin"),
    City("Chicago", "America/Chicago"),
    City("Dubai", "Asia/Dubai"),
    City("Dublin", "Europe/Dublin"),
    City("Frankfurt", "Europe/Berlin"),
    City("Hong Kong", "Asia/Hong_Kong"),
    City("Istanbul", "Europe/Istanbul"),
    City("Jakarta", "Asia/Jakarta"),
    City("Johannesburg", "Africa/Johannesburg"),
    City("Kuala Lumpur", "Asia/Kuala_Lumpur"),
    City("London", "Europe/London"),
    City("Los Angeles", "America/Los_Angeles"),
    City("Madrid", "Europe/Madrid"),
    City("Melbourne", "Australia/Melbourne"),
    City("Mexico City", "America/Mexico_City"),
    City("Milan", "Europe/Rome"),
    City("Moscow", "Europe/Moscow"),
    City("Mumbai", "Asia/Kolkata"),
    City("New Delhi", "Asia/Kolkata"),
    City("New York", "America/New_York"),
    City("Paris", "Europe/Paris"),
    City("Rome", "Europe/Rome"),
    City("San Francisco", "America/Los_Angeles"),
    City("São Paulo", "America/Sao_Paulo"),
    City("Seoul", "Asia/Seoul"),
    City("Shanghai", "Asia/Shanghai"),
    City("Singapore", "Asia/Singapore"),
    City("Stockholm", "Europe/Stockholm"),
    City("Sydney", "Australia/Sydney"),
    City("Tokyo", "Asia/Tokyo"),
    City("Toronto", "America/Toronto"),
    City("Vancouver", "America/Vancouver"),
    City("Vienna", "Europe/Vienna"),
    City("Warsaw", "Europe/Warsaw"),
    City("Zurich", "Europe/Zurich"),
    City("San Jose", "America/Los_Angeles"),
    City("Atlanta", "America/New_York"),
    City("Tel Aviv", "Asia/Tel_Aviv")
  ]

  /** `table.find(c => c.name === name)`: the first entry with that name, if any. */
  function Find(table: seq<City>, name: string): (r: Option<City>)
    ensures r.None? <==> forall i :: 0 <= i < |table| ==> table[i].name != name
    ensures r.Some? ==> exists i :: 0 <= i < |table| && table[i] == r.value && r.value.name == name &&
                          forall j :: 0 <= j < i ==> table[j].name != name
  {
    if |table| == 0 then None
    else if table[0].name == name then Some(table[0])
    else
      var r := Find(table[1..], name);
      assert forall i :: 1 <= i < |table| ==> table[i] == table[1..][i - 1];
      r
  }

  /** Whether a name appears in a table. */
  ghost predicate Known(table: seq<City>, name: string)
  {
    exists i :: 0 <= i < |table| && table[i].name == name
  }

  /** Lookup in the component's table. */
  function Lookup(name: string): (r: Option<City>)
    ensures r.None? <==> !Known(Cities, name)
    ensures r.Some? ==> r.value in Cities && r.value.name == name
  {
    Find(Cities, name)
  }
}
