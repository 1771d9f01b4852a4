/** The `Language` class of src/lib/model/language.ts: a name, its statistics and the
    countries that speak it. */
module LanguageModel {
  import opened Wrappers
  import StatisticsModel
  import opened CountryModel

  datatype Language = Language(name: string, statistics: StatisticsModel.Statistics, countries: seq<Country>)

  /** `new Language(name, statistics, countries)`: the statistics are copied with
      `Object.assign` (all four own properties, so the copy equals the argument) and every
      country is re-created with the nine-argument constructor. */
  method NewLanguage(name: string, statistics: StatisticsModel.Statistics, countries: seq<Country>)
    returns (l: Language)
    ensures l.name == name && l.statistics == statistics
    ensures |l.countries| == |countries|
    ensures forall i :: 0 <= i < |countries| ==> fresh(l.countries[i]) && SameFields(l.countries[i], countries[i])
    ensures forall i, j :: 0 <= i < j < |countries| ==> l.countries[i] != l.countries[j]
  {
    var copies: seq<Country> := [];
    var i := 0;
    while i < |countries|
      invariant 0 <= i <= |countries| && |copies| == i
      invariant forall k :: 0 <= k < i ==> fresh(copies[k]) && SameFields(copies[k], countries[k])
      invariant forall k, m :: 0 <= k < m < i ==> copies[k] != copies[m]
    {
      var c := countries[i];
      var copy := new Country(c.countryId, c.cca2, c.commonName, c.officialName, c.flag,
                              c.independent, c.unMember, c.population, c.languages);
      copies := copies + [copy];
      i := i + 1;
    }
    l := Language(name, statistics, copies);
  }

  /** `countries.some(country => country.countryId === countryId)`. */
  function HasIdIn(countries: seq<Country>, countryId: string): (r: bool)
    ensures r <==> exists i :: 0 <= i < |countries| && countries[i].countryId == Some(countryId)
  {
    if countries == [] then false
    else countries[0].countryId == Some(countryId) || HasIdIn(countries[1..], countryId)
  }

  /** hasCountryById: some listed country carries the id; never on an empty list. */
  function HasCountryById(l: Language, countryId: string): (r: bool)
    ensures r <==> exists i :: 0 <= i < |l.countries| && l.countries[i].countryId == Some(countryId)
    ensures l.countries == [] ==> !r
  {
    HasIdIn(l.countries, countryId)
  }

  /** `statistics.numberOfCountries > statistics.numberOfUNCountries`. */
  function HasNonUNCountries(l: Language): (r: bool)
    ensures r == StatisticsModel.HasNonUNCountries(l.statistics)
  {
    var s := l.statistics;
    s.numberOfCountries.Some? && s.numberOfUNCountries.Some? &&
    s.numberOfCountries.value > s.numberOfUNCountries.value
  }

  /** A language reaches an id exactly when one of its countries carries it; an empty
      list reaches none. */
  lemma HasCountryByIdIff(l: Language, countryId: string)
    ensures HasCountryById(l, countryId) <==>
      exists i :: 0 <= i < |l.countries| && l.countries[i].countryId == Some(countryId)
    ensures l.countries == [] ==> !HasCountryById(l, countryId)
  {
  }

  /** hasNonUNCountries looks at the statistics only: it agrees with the statistics'
      own test and ignores the country list. */
  lemma HasNonUNCountriesUsesStatistics(l: Language, countries: seq<Country>)
    ensures HasNonUNCountries(l) == StatisticsModel.HasNonUNCountries(l.statistics)
    ensures HasNonUNCountries(l) == HasNonUNCountries(Language(l.name, l.statistics, countries))
  {
  }
}
