/** scripts/PreprocessCountryData.ts: the build-time script that runs the same aggregation
    as CountryDataLoader over the fetched records and writes both maps out as lists of
    `[key, value]` pairs. The maps it creates are passed to its helper functions and
    changed by them; here each helper returns the changed map. */
module PreprocessCountryData {
  import opened Wrappers
  import opened Ascii
  import opened OrderedMaps
  import opened StatisticsModel
  import opened CountryModel
  import opened LanguageModel
  import opened CountrySorting
  import opened Aggregation

  /** The two files written: `Array.from(map.entries())` of each map. */
  datatype Output = Output(countryEntries: seq<(string, Country)>, languageEntries: seq<(string, Language)>)

  /** `es` is what `Array.from(m.entries())` yields for a well-formed `m`. */
  ghost predicate Serializes<V>(es: seq<(string, V)>, m: OrderedMap<V>) {
    m.Valid() && es == m.Entries()
  }

  /** main: `response` is the fetched record list, or `None` when the request failed
      (the error is logged and nothing is written). */
  method Run(response: Option<seq<CountryData>>, leq: (string, string) -> bool)
    returns (written: Option<Output>, ghost objs: seq<Country>)
    ensures response.None? ==> written.None?
    ensures response.Some? ==>
              |objs| == |response.value| && written.Some? &&
              Serializes(written.value.countryEntries, CountryIndex(response.value, objs)) &&
              Serializes(written.value.languageEntries, SortLanguages(LanguageIndex(response.value, objs), leq))
  {
    objs := [];
    written := None;
    if response.Some? {
      var countryMap, languageMap;
      countryMap, languageMap, objs := ProcessData(response.value, leq);
      written := Some(Output(countryMap.Entries(), languageMap.Entries()));
    }
  }

  /** The "Process data" block of main: both maps start empty, each record goes into the
      country map, is looked up again and goes into the language map, then the lists are
      sorted. */
  method ProcessData(data: seq<CountryData>, leq: (string, string) -> bool)
    returns (countryMap: OrderedMap<Country>, languageMap: OrderedMap<Language>, ghost objs: seq<Country>)
    ensures AllBuiltFrom(objs, data)
    ensures countryMap.Valid() && countryMap == CountryIndex(data, objs)
    ensures languageMap.Valid() && languageMap == SortLanguages(LanguageIndex(data, objs), leq)
  {
    countryMap := Empty();
    languageMap := Empty();
    objs := [];
    var i := 0;
    while i < |data|
      invariant 0 <= i <= |data| && AllBuiltFrom(objs, data[..i])
      invariant countryMap == CountryIndex(data[..i], objs)
      invariant languageMap == LanguageIndex(data[..i], objs)
    {
      var item := data[i];
      ghost var before := objs;
      ghost var created;
      countryMap, created := PopulateCountryMap(item, countryMap);
      var country := countryMap.Get(item.name.common);
      if country.Some? {
        languageMap := PopulateLanguageMap(item, country.value, languageMap);
      }
      assert country == Some(created);
      BuiltFromStep(before, data, i, created);
      IndexStep(Empty(), Empty(), data, i, before, created);
      objs := before + [created];
      i := i + 1;
    }
    assert data[..i] == data;
    CountryIndexSpec(data, objs);
    LanguageIndexKeys(data, objs);
    languageMap := SortLanguageCountries(languageMap, leq);
  }

  /** populateCountryMap: the nine-argument Country stored under its common name. */
  method PopulateCountryMap(item: CountryData, countryMap: OrderedMap<Country>)
    returns (result: OrderedMap<Country>, ghost country: Country)
    ensures fresh(country) && BuiltFrom(country, item)
    ensures result == countryMap.Set(item.name.common, country)
  {
    var c := new Country(Some(item.ccn3), Some(item.cca2), item.name.common, Some(item.name.official),
                         Some(item.flag), Some(item.independent), Some(item.unMember),
                         item.population, item.languages);
    result := countryMap.Set(item.name.common, c);
    country := c;
  }

  /** populateLanguageMap: the entries of the record, in order. */
  method PopulateLanguageMap(item: CountryData, country: Country, languageMap: OrderedMap<Language>)
    returns (result: OrderedMap<Language>)
    ensures result == AddLanguages(languageMap, item, country, item.languages)
  {
    result := languageMap;
    var j := 0;
    while j < |item.languages|
      invariant 0 <= j <= |item.languages|
      invariant result == AddLanguages(languageMap, item, country, item.languages[..j])
    {
      var language := item.languages[j];
      result := PopulateLanguageEntry(item, country, language, result);
      assert item.languages[..j + 1] == item.languages[..j] + [language];
      AddLanguagesSnoc(languageMap, item, country, item.languages[..j], language);
      j := j + 1;
    }
    assert item.languages[..j] == item.languages;
  }

  /** The body of populateLanguageMap's callback for one entry. */
  method PopulateLanguageEntry(item: CountryData, country: Country, language: CountryLanguage,
                               languageMap: OrderedMap<Language>)
    returns (result: OrderedMap<Language>)
    ensures result == AddOccurrence(languageMap, item, country, language)
  {
    result := languageMap;
    var languageName := Lower(language.language);
    var found := result.Get(languageName);
    var languageData: Language;
    if found.None? {
      languageData := Language(languageName, Zero(), []);
      result := result.Set(languageName, languageData);
      SetTwice(languageMap, languageName, languageData,
               Occur(languageData, item.unMember, Share(item.population, language), country));
    } else {
      languageData := found.value;
    }
    var speakers := item.population * language.percentage;
    var statistics := languageData.statistics;
    if item.unMember {
      statistics := statistics.(totalUNSpeakers := Plus(statistics.totalUNSpeakers, speakers),
                                numberOfUNCountries := Increment(statistics.numberOfUNCountries));
    }
    statistics := statistics.(totalSpeakers := Plus(statistics.totalSpeakers, speakers),
                              numberOfCountries := Increment(statistics.numberOfCountries));
    assert speakers == Share(item.population, language);
    assert statistics == Bump(languageData.statistics, item.unMember, speakers);
    result := result.Set(languageName, Language(languageData.name, statistics, languageData.countries + [country]));
  }

  /** sortLanguageCountries: every language's countries sorted by common name. */
  method SortLanguageCountries(languageMap: OrderedMap<Language>, leq: (string, string) -> bool)
    returns (result: OrderedMap<Language>)
    requires languageMap.Valid()
    ensures result.Valid() && result == SortLanguages(languageMap, leq)
  {
    result := languageMap;
    var keys := languageMap.keys;
    var i := 0;
    while i < |keys|
      invariant 0 <= i <= |keys|
      invariant result.keys == keys && result.entries.Keys == languageMap.entries.Keys
      invariant forall j :: 0 <= j < i ==>
                  result.entries[keys[j]] ==
                  languageMap.entries[keys[j]].(countries := SortByName(languageMap.entries[keys[j]].countries, leq))
      invariant forall j :: i <= j < |keys| ==> result.entries[keys[j]] == languageMap.entries[keys[j]]
    {
      var k := keys[i];
      var language := result.entries[k];
      result := result.(entries := result.entries[k := language.(countries := SortByName(language.countries, leq))]);
      i := i + 1;
    }
    SortLanguagesByKeys(languageMap, result, leq);
  }
}
