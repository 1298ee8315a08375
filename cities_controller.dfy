/**
 * The duplicate check of the cities controller, over a sequence of records
 * standing in for the cities table.
 */
module CitiesController {
  import opened Linq

  /** A stored city; latitude and longitude are exact decimals. */
  datatype City = City(Id: int, Name: string, Lat: real, Lon: real, CountryId: int)

  /** The two records describe the same place: name, coordinates and country all agree. */
  predicate SamePlace(a: City, b: City) {
    a.Name == b.Name && a.Lat == b.Lat && a.Lon == b.Lon && a.CountryId == b.CountryId
  }

  /** Another stored city (different Id) has the same name, coordinates and country. */
  function IsDupeCity(cities: seq<City>, city: City): (r: bool)
    ensures r <==> exists i :: 0 <= i < |cities| && cities[i].Id != city.Id && SamePlace(cities[i], city)
  {
    Any(cities, (existing: City) =>
      existing.Name == city.Name
      && existing.Lat == city.Lat
      && existing.Lon == city.Lon
      && existing.Id != city.Id
      && existing.CountryId == city.CountryId)
  }

  /** A city differing from every other record in at least one of the four fields is not a duplicate. */
  lemma DistinctCityIsNotDupe(cities: seq<City>, city: City)
    requires forall i :: 0 <= i < |cities| && cities[i].Id != city.Id ==>
      cities[i].Name != city.Name || cities[i].Lat != city.Lat || cities[i].Lon != city.Lon
      || cities[i].CountryId != city.CountryId
    ensures !IsDupeCity(cities, city)
  {
  }

  /** Records with the candidate's own Id never count: dropping them does not change the answer. */
  lemma {:induction false} SameIdNeverCounts(cities: seq<City>, city: City)
    ensures IsDupeCity(cities, city) == IsDupeCity(Where(cities, (c: City) => c.Id != city.Id), city)
  {
    var others := Where(cities, (c: City) => c.Id != city.Id);
    if IsDupeCity(cities, city) {
      var i :| 0 <= i < |cities| && cities[i].Id != city.Id && SamePlace(cities[i], city);
      WhereMultiplicity(cities, (c: City) => c.Id != city.Id, cities[i]);
      assert cities[i] in multiset(others);
      var k :| 0 <= k < |others| && others[k] == cities[i];
    }
  }

  /** Adding records to the table never takes a duplicate away; an empty table has none. */
  lemma DupeIsMonotone(cities: seq<City>, more: seq<City>, city: City)
    ensures IsDupeCity(cities, city) ==> IsDupeCity(cities + more, city)
    ensures !IsDupeCity([], city)
  {
    if IsDupeCity(cities, city) {
      var i :| 0 <= i < |cities| && cities[i].Id != city.Id && SamePlace(cities[i], city);
      assert (cities + more)[i] == cities[i];
    }
  }
}
