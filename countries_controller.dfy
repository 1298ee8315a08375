/**
 * The duplicate checks of the countries controller, over a sequence of
 * records standing in for the countries table.
 */
module CountriesController {
  import opened Linq

  datatype Country = Country(Id: int, Name: string, ISO2: string, ISO3: string)

  /** The two records agree on the name and both ISO codes. */
  predicate SameCountry(a: Country, b: Country) {
    a.Name == b.Name && a.ISO2 == b.ISO2 && a.ISO3 == b.ISO3
  }

  /** Another stored country (different Id) has the same name and both codes. */
  function IsDupeCountry(countries: seq<Country>, country: Country): (r: bool)
    ensures r <==> exists i :: 0 <= i < |countries| && countries[i].Id != country.Id && SameCountry(countries[i], country)
  {
    Any(countries, (existing: Country) =>
      existing.Id != country.Id
      && existing.Name == country.Name
      && existing.ISO2 == country.ISO2
      && existing.ISO3 == country.ISO3)
  }

  /**
   * Another stored country (different Id) already holds `fieldValue` in the
   * field named `fieldName`: "name", "iso2" or "iso3", spelled exactly so.
   */
  function IsDupeField(countries: seq<Country>, fieldName: string, fieldValue: string, countryId: int): (r: bool)
    ensures fieldName == "name" ==>
      (r <==> exists i :: 0 <= i < |countries| && countries[i].Name == fieldValue && countries[i].Id != countryId)
    ensures fieldName == "iso2" ==>
      (r <==> exists i :: 0 <= i < |countries| && countries[i].ISO2 == fieldValue && countries[i].Id != countryId)
    ensures fieldName == "iso3" ==>
      (r <==> exists i :: 0 <= i < |countries| && countries[i].ISO3 == fieldValue && countries[i].Id != countryId)
    ensures fieldName != "name" && fieldName != "iso2" && fieldName != "iso3" ==> !r
  {
    match fieldName
    case "name" => Any(countries, (existing: Country) => existing.Name == fieldValue && countryId != existing.Id)
    case "iso2" => Any(countries, (existing: Country) => existing.ISO2 == fieldValue && existing.Id != countryId)
    case "iso3" => Any(countries, (existing: Country) => existing.ISO3 == fieldValue && existing.Id != countryId)
    case _ => false
  }

  /** A record with the candidate's own Id never makes it a duplicate, in either check. */
  lemma SameIdNeverCounts(countries: seq<Country>, stored: Country, country: Country, fieldName: string, fieldValue: string)
    requires stored.Id == country.Id
    ensures IsDupeCountry(countries + [stored], country) == IsDupeCountry(countries, country)
    ensures IsDupeField(countries + [stored], fieldName, fieldValue, country.Id)
         == IsDupeField(countries, fieldName, fieldValue, country.Id)
  {
    var t := countries + [stored];
    assert forall i :: 0 <= i < |countries| ==> t[i] == countries[i];
  }

  /** A country is never a duplicate of itself alone, and nothing is a duplicate in an empty table. */
  lemma NoDupesWithoutOthers(country: Country, fieldName: string, fieldValue: string)
    ensures !IsDupeCountry([], country) && !IsDupeCountry([country], country)
    ensures !IsDupeField([], fieldName, fieldValue, country.Id)
    ensures !IsDupeField([country], fieldName, fieldValue, country.Id)
  {
    SameIdNeverCounts([], country, country, fieldName, fieldValue);
  }

  /** A whole-country duplicate is a duplicate in each of the three fields. */
  lemma DupeCountryHasDupeFields(countries: seq<Country>, country: Country)
    requires IsDupeCountry(countries, country)
    ensures IsDupeField(countries, "name", country.Name, country.Id)
    ensures IsDupeField(countries, "iso2", country.ISO2, country.Id)
    ensures IsDupeField(countries, "iso3", country.ISO3, country.Id)
  {
  }

  /**
   * The converse fails: each field can be taken by a different country
   * while no single country matches on all three.
   */
  lemma DupeFieldsWithoutDupeCountry(a: Country, b: Country, c: Country)
    requires a == Country(1, "X", "XX", "XXX") && b == Country(2, "Y", "YY", "YYY")
    requires c == Country(3, "X", "YY", "XXX")
    ensures IsDupeField([a, b], "name", c.Name, c.Id)
    ensures IsDupeField([a, b], "iso2", c.ISO2, c.Id)
    ensures IsDupeField([a, b], "iso3", c.ISO3, c.Id)
    ensures !IsDupeCountry([a, b], c)
  {
    assert [a, b][0] == a && [a, b][1] == b;
  }

  /** The field names are matched exactly: "Name" or "ISO2" never report a duplicate. */
  lemma FieldNameIsCaseSensitive(countries: seq<Country>, fieldValue: string, countryId: int)
    ensures !IsDupeField(countries, "Name", fieldValue, countryId)
    ensures !IsDupeField(countries, "ISO2", fieldValue, countryId)
    ensures !IsDupeField(countries, "ISO3", fieldValue, countryId)
  {
    assert "Name"[0] != "name"[0];
    assert "ISO2"[0] != "iso2"[0] && "ISO2"[0] != "iso3"[0] && "ISO2"[0] != "name"[0];
    assert "ISO3"[0] != "iso2"[0] && "ISO3"[0] != "iso3"[0] && "ISO3"[0] != "name"[0];
  }
}
