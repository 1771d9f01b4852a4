/** CountryDataLoader (src/lib/server/helpers/CountryDataLoader.ts): the server-side
    object that owns the country map and the language map and fills them from the
    parsed records of countryData.json. */
module CountryDataLoaderModel {
  import opened Wrappers
  import opened Sequences
  import opened Ascii
  import opened OrderedMaps
  import opened StatisticsModel
  import opened CountryModel
  import opened LanguageModel
  import opened CountrySorting
  import opened Aggregation

  class CountryDataLoader {
    var countryMap: OrderedMap<Country>
    var languageMap: OrderedMap<Language>

    /** Both maps list each of their keys once. */
    ghost predicate Valid()
      reads this
    {
      countryMap.Valid() && languageMap.Valid()
    }

    constructor ()
      ensures Valid()
      ensures countryMap == Empty() && languageMap == Empty()
    {
      countryMap := Empty();
      languageMap := Empty();
    }

    /** loadAndParseCountryDataJson: `parsed` is the outcome of reading and parsing the
        file; on failure the error is logged and the maps stay as they were. */
    method LoadAndParse(parsed: Option<seq<CountryData>>, leq: (string, string) -> bool)
      returns (ghost objs: seq<Country>)
      requires Valid()
      modifies this
      ensures Valid()
      ensures parsed.None? ==> countryMap == old(countryMap) && languageMap == old(languageMap)
      ensures parsed.Some? ==>
                |objs| == |parsed.value| &&
                countryMap == CountryIndexFrom(old(countryMap), parsed.value, objs) &&
                languageMap == SortLanguages(LanguageIndexFrom(old(languageMap), parsed.value, objs), leq)
    {
      objs := [];
      if parsed.Some? {
        objs := PopulateMaps(parsed.value, leq);
      }
    }

    /** populateMaps: the records, then the sort. `objs[i]` is the Country created for
        `data[i]`; each is a new object. */
    method PopulateMaps(data: seq<CountryData>, leq: (string, string) -> bool)
      returns (ghost objs: seq<Country>)
      requires Valid()
      modifies this
      ensures Valid()
      ensures AllBuiltFrom(objs, data) && NoDuplicates(objs)
      ensures forall x :: x in objs ==> fresh(x)
      ensures countryMap == CountryIndexFrom(old(countryMap), data, objs)
      ensures languageMap == SortLanguages(LanguageIndexFrom(old(languageMap), data, objs), leq)
    {
      objs := PopulateRecords(data);
      SortLanguageCountries(leq);
    }

    /** The `data.forEach` of populateMaps: each record is added to the country map,
        looked up again by its common name and added to the language map. */
    method PopulateRecords(data: seq<CountryData>) returns (ghost objs: seq<Country>)
      requires Valid()
      modifies this
      ensures Valid()
      ensures AllBuiltFrom(objs, data) && NoDuplicates(objs)
      ensures forall x :: x in objs ==> fresh(x)
      ensures countryMap == CountryIndexFrom(old(countryMap), data, objs)
      ensures languageMap == LanguageIndexFrom(old(languageMap), data, objs)
    {
      objs := [];
      var i := 0;
      while i < |data|
        invariant 0 <= i <= |data|
        invariant Valid()
        invariant AllBuiltFrom(objs, data[..i]) && NoDuplicates(objs)
        invariant forall x :: x in objs ==> fresh(x)
        invariant countryMap == CountryIndexFrom(old(countryMap), data[..i], objs)
        invariant languageMap == LanguageIndexFrom(old(languageMap), data[..i], objs)
      {
        var item := data[i];
        ghost var before := objs;
        ghost var created := PopulateRecord(item);
        assert created !in before;
        NoDuplicatesSnoc(before, created);
        BuiltFromStep(before, data, i, created);
        IndexStep(old(countryMap), old(languageMap), data, i, before, created);
        objs := before + [created];
        i := i + 1;
      }
      assert data[..i] == data;
    }

    /** The body of the `forEach` in populateMaps: the record goes into the country map,
        is looked up again by its common name (always found, since it was just set) and
        goes into the language map. */
    method PopulateRecord(item: CountryData) returns (ghost created: Country)
      requires Valid()
      modifies this
      ensures Valid()
      ensures fresh(created) && BuiltFrom(created, item)
      ensures countryMap == old(countryMap).Set(item.name.common, created)
      ensures languageMap == AddLanguages(old(languageMap), item, created, item.languages)
    {
      created := PopulateCountryMap(item);
      var country := countryMap.Get(item.name.common);
      if country.Some? {
        PopulateLanguageMap(item, country.value);
      }
      assert country == Some(created);
    }

    /** populateCountryMap: the nine-argument Country stored under its common name; an
        earlier Country of the same name is replaced. */
    method PopulateCountryMap(item: CountryData) returns (ghost country: Country)
      requires Valid()
      modifies this
      ensures Valid()
      ensures fresh(country) && BuiltFrom(country, item)
      ensures countryMap == old(countryMap).Set(item.name.common, country)
      ensures languageMap == old(languageMap)
    {
      var c := new Country(Some(item.ccn3), Some(item.cca2), item.name.common, Some(item.name.official),
                           Some(item.flag), Some(item.independent), Some(item.unMember),
                           item.population, item.languages);
      countryMap := countryMap.Set(item.name.common, c);
      country := c;
    }

    /** populateLanguageMap: the entries of the record, in order. */
    method PopulateLanguageMap(item: CountryData, country: Country)
      requires Valid()
      modifies this
      ensures Valid()
      ensures languageMap == AddLanguages(old(languageMap), item, country, item.languages)
      ensures countryMap == old(countryMap)
    {
      var j := 0;
      while j < |item.languages|
        invariant 0 <= j <= |item.languages|
        invariant Valid() && countryMap == old(countryMap)
        invariant languageMap == AddLanguages(old(languageMap), item, country, item.languages[..j])
      {
        var language := item.languages[j];
        PopulateLanguageEntry(item, country, language);
        assert item.languages[..j + 1] == item.languages[..j] + [language];
        AddLanguagesSnoc(old(languageMap), item, country, item.languages[..j], language);
        j := j + 1;
      }
      assert item.languages[..j] == item.languages;
    }

    /** One entry of populateLanguageMap: the lowercased language is created on first
        sight with zero counters, its counters are bumped (the UN pair only for a UN
        member) and the country is appended. */
    method PopulateLanguageEntry(item: CountryData, country: Country, language: CountryLanguage)
      requires Valid()
      modifies this
      ensures Valid()
      ensures languageMap == AddOccurrence(old(languageMap), item, country, language)
      ensures countryMap == old(countryMap)
    {
      var languageName := Lower(language.language);
      var found := languageMap.Get(languageName);
      var languageData: Language;
      if found.None? {
        languageData := Language(languageName, Zero(), []);
        languageMap := languageMap.Set(languageName, languageData);
        SetTwice(old(languageMap), languageName, languageData,
                 Occur(languageData, item.unMember, Share(item.population, language), country));
      } else {
        languageData := found.value;
      }
      var speakers := item.population * language.percentage;
      var statistics := languageData.statistics;
      if item.unMember {
        statistics := statistics.(totalUNSpeakers := Plus(statistics.totalUNSpeakers, speakers),
                                  numberOfUNCountries := Increment(statistics.numberOfUNCountries));
      }
      statistics := statistics.(totalSpeakers := Plus(statistics.totalSpeakers, speakers),
                                numberOfCountries := Increment(statistics.numberOfCountries));
      assert speakers == Share(item.population, language);
      assert statistics == Bump(languageData.statistics, item.unMember, speakers);
      languageMap := languageMap.Set(languageName, Language(languageData.name, statistics, languageData.countries + [country]));
    }

    /** sortLanguageCountries: every language's countries sorted by common name. */
    method SortLanguageCountries(leq: (string, string) -> bool)
      requires Valid()
      modifies this
      ensures Valid()
      ensures languageMap == SortLanguages(old(languageMap), leq)
      ensures countryMap == old(countryMap)
    {
      var m := languageMap;
      var keys := m.keys;
      var i := 0;
      while i < |keys|
        invariant 0 <= i <= |keys|
        invariant m.keys == keys && m.entries.Keys == languageMap.entries.Keys
        invariant forall j :: 0 <= j < i ==>
                    m.entries[keys[j]] ==
                    languageMap.entries[keys[j]].(countries := SortByName(languageMap.entries[keys[j]].countries, leq))
        invariant forall j :: i <= j < |keys| ==> m.entries[keys[j]] == languageMap.entries[keys[j]]
      {
        var k := keys[i];
        var language := m.entries[k];
        m := m.(entries := m.entries[k := language.(countries := SortByName(language.countries, leq))]);
        i := i + 1;
      }
      SortLanguagesByKeys(languageMap, m, leq);
      languageMap := m;
    }
  }
}
