/** What one aggregation pass computes, as functions of the record list: the country
    index (`commonName → Country`) and the language index (`lowercased name → Language`)
    that CountryDataLoader.populateMaps and the preprocessing script both build.

    The Country objects are created by the pass itself, so the functions take them as
    `objs`: `objs[i]` is the Country built from `data[i]`. */
module Aggregation {
  import opened Wrappers
  import opened Sequences
  import opened Ascii
  import opened OrderedMaps
  import opened StatisticsModel
  import opened CountryModel
  import opened LanguageModel
  import opened CountrySorting

  datatype CountryName = CountryName(common: string, official: string)

  /** One record of countryData.json (src/lib/model/countryData.ts). */
  datatype CountryData = CountryData(
    ccn3: string,
    cca2: string,
    name: CountryName,
    flag: string,
    independent: bool,
    unMember: bool,
    population: real,
    languages: seq<CountryLanguage>)

  /** `c` is what populateCountryMap builds from `item` with the nine-argument constructor. */
  predicate BuiltFrom(c: Country, item: CountryData) {
    c.countryId == Some(item.ccn3) && c.cca2 == Some(item.cca2) &&
    c.commonName == item.name.common && c.officialName == Some(item.name.official) &&
    c.flag == Some(item.flag) && c.independent == Some(item.independent) &&
    c.unMember == Some(item.unMember) && c.population == item.population &&
    c.languages == item.languages
  }

  /** `objs[k]` is built from `data[k]`, position by position. */
  predicate AllBuiltFrom(objs: seq<Country>, data: seq<CountryData>) {
    |objs| == |data| && forall k :: 0 <= k < |objs| ==> BuiltFrom(objs[k], data[k])
  }

  lemma BuiltFromStep(objs: seq<Country>, data: seq<CountryData>, i: nat, c: Country)
    requires i < |data| && AllBuiltFrom(objs, data[..i]) && BuiltFrom(c, data[i])
    ensures AllBuiltFrom(objs + [c], data[..i + 1])
  {
  }

  // ----- The country index -----

  /** populateCountryMap over the records, in order: `countryMap.set(common, country)`. */
  function CountryIndexFrom(index: OrderedMap<Country>, data: seq<CountryData>, objs: seq<Country>): (r: OrderedMap<Country>)
    requires |objs| == |data|
    ensures forall k :: k in index.entries ==> k in r.entries
    ensures forall i :: 0 <= i < |data| ==> data[i].name.common in r.entries
  {
    if data == [] then index
    else CountryIndexFrom(index, data[..|data| - 1], objs[..|data| - 1])
           .Set(data[|data| - 1].name.common, objs[|data| - 1])
  }

  function CountryIndex(data: seq<CountryData>, objs: seq<Country>): OrderedMap<Country>
    requires |objs| == |data|
  {
    CountryIndexFrom(Empty(), data, objs)
  }

  /** The common names of the records, in order. */
  function CommonNames(data: seq<CountryData>): (r: seq<string>)
    ensures |r| == |data| && forall i :: 0 <= i < |data| ==> r[i] == data[i].name.common
  {
    seq(|data|, i requires 0 <= i < |data| => data[i].name.common)
  }

  function NamedCountries(data: seq<CountryData>, objs: seq<Country>): (r: seq<(string, Country)>)
    requires |objs| == |data|
    ensures |r| == |data| && forall i :: 0 <= i < |data| ==> r[i] == (data[i].name.common, objs[i])
  {
    seq(|data|, i requires 0 <= i < |data| => (data[i].name.common, objs[i]))
  }

  lemma {:induction false} CountryIndexIsFromEntries(data: seq<CountryData>, objs: seq<Country>)
    requires |objs| == |data|
    ensures CountryIndex(data, objs) == FromEntries(NamedCountries(data, objs))
  {
    if data != [] {
      var n := |data| - 1;
      CountryIndexIsFromEntries(data[..n], objs[..n]);
      assert NamedCountries(data, objs)[..n] == NamedCountries(data[..n], objs[..n]);
    }
  }

  /** The country index holds one entry per distinct common name, in order of first
      appearance, and each name maps to the Country of the LAST record carrying it. */
  lemma CountryIndexSpec(data: seq<CountryData>, objs: seq<Country>)
    requires |objs| == |data|
    ensures CountryIndex(data, objs).Valid()
    ensures CountryIndex(data, objs).keys == Distinct(CommonNames(data))
    ensures forall k :: k in CountryIndex(data, objs).entries <==> k in CommonNames(data)
    ensures forall i :: 0 <= i < |data| && (forall j :: i < j < |data| ==> data[j].name.common != data[i].name.common) ==>
              CountryIndex(data, objs).entries[data[i].name.common] == objs[i]
  {
    CountryIndexIsFromEntries(data, objs);
    FromEntriesKeys(NamedCountries(data, objs));
    FromEntriesValues(NamedCountries(data, objs));
    assert KeysOf(NamedCountries(data, objs)) == CommonNames(data);
  }

  // ----- The language index -----

  /** One occurrence's update of a language's counters (CountryDataLoader.ts:92-100). */
  function Bump(s: Statistics, unMember: bool, speakers: real): Statistics {
    var s' := if unMember
              then s.(totalUNSpeakers := Plus(s.totalUNSpeakers, speakers),
                      numberOfUNCountries := Increment(s.numberOfUNCountries))
              else s;
    s'.(totalSpeakers := Plus(s'.totalSpeakers, speakers),
        numberOfCountries := Increment(s'.numberOfCountries))
  }

  /** The speakers one entry of a record contributes: population × percentage. */
  function Share(population: real, cl: CountryLanguage): real {
    population * cl.percentage
  }

  /** The language stored under `key`, or the fresh one populateLanguageMap would create. */
  function Entry(index: OrderedMap<Language>, key: string): Language {
    if key in index.entries then index.entries[key] else Language(key, Zero(), [])
  }

  /** One `(language, percentage)` entry of a record: create the language on first sight,
      bump its counters and append the country. */
  function AddOccurrence(index: OrderedMap<Language>, item: CountryData, c: Country, cl: CountryLanguage): (r: OrderedMap<Language>)
    ensures r.entries == index.entries[Lower(cl.language) := Occur(Entry(index, Lower(cl.language)), item.unMember, Share(item.population, cl), c)]
  {
    var key := Lower(cl.language);
    index.Set(key, Occur(Entry(index, key), item.unMember, Share(item.population, cl), c))
  }

  /** The language after one more occurrence in country `c`. */
  function Occur(l: Language, unMember: bool, speakers: real, c: Country): Language {
    Language(l.name, Bump(l.statistics, unMember, speakers), l.countries + [c])
  }

  /** populateLanguageMap over the entries `ls` of one record. */
  function AddLanguages(index: OrderedMap<Language>, item: CountryData, c: Country, ls: seq<CountryLanguage>): (r: OrderedMap<Language>)
    ensures forall k :: k in index.entries ==> k in r.entries
    ensures forall k :: k in r.entries && k !in index.entries ==> IsLowerCase(k)
  {
    if ls == [] then index
    else AddOccurrence(AddLanguages(index, item, c, ls[..|ls| - 1]), item, c, ls[|ls| - 1])
  }

  /** populateLanguageMap over the records, in order. */
  function LanguageIndexFrom(index: OrderedMap<Language>, data: seq<CountryData>, objs: seq<Country>): (r: OrderedMap<Language>)
    requires |objs| == |data|
    ensures forall k :: k in index.entries ==> k in r.entries
    ensures forall k :: k in r.entries && k !in index.entries ==> IsLowerCase(k)
  {
    if data == [] then index
    else
      var n := |data| - 1;
      AddLanguages(LanguageIndexFrom(index, data[..n], objs[..n]), data[n], objs[n], data[n].languages)
  }

  /** The record at position `i` extends both indexes over `data[..i]` by one step. */
  lemma IndexStep(ci: OrderedMap<Country>, li: OrderedMap<Language>, data: seq<CountryData>, i: nat,
                  objs: seq<Country>, c: Country)
    requires i < |data| && |objs| == i
    ensures CountryIndexFrom(ci, data[..i + 1], objs + [c]) ==
            CountryIndexFrom(ci, data[..i], objs).Set(data[i].name.common, c)
    ensures LanguageIndexFrom(li, data[..i + 1], objs + [c]) ==
            AddLanguages(LanguageIndexFrom(li, data[..i], objs), data[i], c, data[i].languages)
  {
    assert data[..i + 1][..i] == data[..i];
    assert (objs + [c])[..i] == objs;
  }

  function LanguageIndex(data: seq<CountryData>, objs: seq<Country>): OrderedMap<Language>
    requires |objs| == |data|
  {
    LanguageIndexFrom(Empty(), data, objs)
  }

  /** sortLanguageCountries: every language's list sorted by common name. */
  function SortLanguages(index: OrderedMap<Language>, leq: (string, string) -> bool): (r: OrderedMap<Language>)
    ensures r.keys == index.keys && r.entries.Keys == index.entries.Keys
    ensures forall k :: k in index.entries ==>
              r.entries[k] == index.entries[k].(countries := SortByName(index.entries[k].countries, leq))
  {
    OrderedMap(map k | k in index.entries :: index.entries[k].(countries := SortByName(index.entries[k].countries, leq)),
               index.keys)
  }

  /** A map with the same keys whose every listed language is the sorted one is the
      result of sortLanguageCountries. */
  lemma SortLanguagesByKeys(index: OrderedMap<Language>, m: OrderedMap<Language>, leq: (string, string) -> bool)
    requires index.Valid()
    requires m.keys == index.keys && m.entries.Keys == index.entries.Keys
    requires forall j :: 0 <= j < |index.keys| ==>
               m.entries[index.keys[j]] ==
               index.entries[index.keys[j]].(countries := SortByName(index.entries[index.keys[j]].countries, leq))
    ensures m == SortLanguages(index, leq)
  {
    var r := SortLanguages(index, leq);
    forall k | k in index.entries ensures m.entries[k] == r.entries[k] {
      var j :| 0 <= j < |index.keys| && index.keys[j] == k;
    }
    assert m.entries == r.entries;
  }

  // ----- Closed forms of the language index -----

  /** The lowercased language names of some entries, in order. */
  function LoweredNames(ls: seq<CountryLanguage>): (r: seq<string>)
    ensures |r| == |ls| && forall j :: 0 <= j < |ls| ==> r[j] == Lower(ls[j].language)
  {
    seq(|ls|, j requires 0 <= j < |ls| => Lower(ls[j].language))
  }

  /** All lowercased language names of the records, record by record. */
  function AllLoweredNames(data: seq<CountryData>): seq<string> {
    if data == [] then [] else AllLoweredNames(data[..|data| - 1]) + LoweredNames(data[|data| - 1].languages)
  }

  /** How many entries of `ls` name `key` (ignoring case). */
  function CountIn(ls: seq<CountryLanguage>, key: string): nat {
    if ls == [] then 0
    else CountIn(ls[..|ls| - 1], key) + (if Lower(ls[|ls| - 1].language) == key then 1 else 0)
  }

  /** Σ population × percentage over the entries of `ls` that name `key`. */
  function SpeakersIn(ls: seq<CountryLanguage>, key: string, population: real): real {
    if ls == [] then 0.0
    else SpeakersIn(ls[..|ls| - 1], key, population) +
         (if Lower(ls[|ls| - 1].language) == key then Share(population, ls[|ls| - 1]) else 0.0)
  }

  /** Occurrences of `key` over all records (numberOfCountries). */
  function Occurrences(data: seq<CountryData>, key: string): nat {
    if data == [] then 0
    else Occurrences(data[..|data| - 1], key) + CountIn(data[|data| - 1].languages, key)
  }

  /** Occurrences of `key` in UN-member records (numberOfUNCountries). */
  function UNOccurrences(data: seq<CountryData>, key: string): nat {
    if data == [] then 0
    else UNOccurrences(data[..|data| - 1], key) +
         (if data[|data| - 1].unMember then CountIn(data[|data| - 1].languages, key) else 0)
  }

  /** Speakers of `key` over all records (totalSpeakers). */
  function SpeakersOfKey(data: seq<CountryData>, key: string): real {
    if data == [] then 0.0
    else SpeakersOfKey(data[..|data| - 1], key) +
         SpeakersIn(data[|data| - 1].languages, key, data[|data| - 1].population)
  }

  /** Speakers of `key` in UN-member records (totalUNSpeakers). */
  function UNSpeakersOfKey(data: seq<CountryData>, key: string): real {
    if data == [] then 0.0
    else UNSpeakersOfKey(data[..|data| - 1], key) +
         (if data[|data| - 1].unMember
          then SpeakersIn(data[|data| - 1].languages, key, data[|data| - 1].population) else 0.0)
  }

  function Repeat(c: Country, n: nat): (r: seq<Country>)
    ensures |r| == n && forall i :: 0 <= i < n ==> r[i] == c
  {
    seq(n, _ => c)
  }

  /** The country of every occurrence of `key`, in record order: a record naming the
      language twice contributes its country twice. */
  function OccurringCountries(data: seq<CountryData>, objs: seq<Country>, key: string): seq<Country>
    requires |objs| == |data|
  {
    if data == [] then []
    else
      var n := |data| - 1;
      OccurringCountries(data[..n], objs[..n], key) + Repeat(objs[n], CountIn(data[n].languages, key))
  }

  /** The language the pass stores under `key`, before sorting. */
  function ExpectedLanguage(data: seq<CountryData>, objs: seq<Country>, key: string): Language
    requires |objs| == |data|
  {
    Language(key,
             Statistics(Some(UNSpeakersOfKey(data, key)), Some(UNOccurrences(data, key)),
                        Some(SpeakersOfKey(data, key)), Some(Occurrences(data, key))),
             OccurringCountries(data, objs, key))
  }

  // ----- Proof that the pass computes the closed forms -----

  function PlusCount(x: Option<int>, n: nat): Option<int> {
    if x.Some? then Some(x.value + n) else None
  }

  /** `l` after `n` occurrences of one country `c` carrying `speakers` speakers in all. */
  function Extend(l: Language, unMember: bool, n: nat, speakers: real, c: Country): Language {
    var s := l.statistics;
    Language(l.name,
             Statistics(if unMember then Plus(s.totalUNSpeakers, speakers) else s.totalUNSpeakers,
                        if unMember then PlusCount(s.numberOfUNCountries, n) else s.numberOfUNCountries,
                        Plus(s.totalSpeakers, speakers),
                        PlusCount(s.numberOfCountries, n)),
             l.countries + Repeat(c, n))
  }

  lemma ExtendTwice(l: Language, unMember: bool, n1: nat, s1: real, n2: nat, s2: real, c: Country)
    ensures Extend(Extend(l, unMember, n1, s1, c), unMember, n2, s2, c) == Extend(l, unMember, n1 + n2, s1 + s2, c)
  {
    assert Repeat(c, n1) + Repeat(c, n2) == Repeat(c, n1 + n2);
  }

  lemma ExtendNothing(l: Language, unMember: bool, c: Country)
    ensures Extend(l, unMember, 0, 0.0, c) == l
  {
    assert l.countries + Repeat(c, 0) == l.countries;
  }

  lemma OccurIsExtend(l: Language, unMember: bool, speakers: real, c: Country)
    ensures Occur(l, unMember, speakers, c) == Extend(l, unMember, 1, speakers, c)
  {
    assert Repeat(c, 1) == [c];
  }

  /** The effect of one occurrence on the index, key by key. */
  lemma {:induction false} AddOccurrenceEntry(index: OrderedMap<Language>, item: CountryData, c: Country, cl: CountryLanguage, k: string)
    ensures k in AddOccurrence(index, item, c, cl).entries <==> k in index.entries || Lower(cl.language) == k
    ensures Entry(AddOccurrence(index, item, c, cl), k) ==
            if Lower(cl.language) == k
            then Extend(Entry(index, k), item.unMember, 1, Share(item.population, cl), c)
            else Entry(index, k)
  {
    OccurIsExtend(Entry(index, k), item.unMember, Share(item.population, cl), c);
  }

  /** The key order of the index after one occurrence. */
  lemma {:induction false} AddOccurrenceKeys(index: OrderedMap<Language>, item: CountryData, c: Country, cl: CountryLanguage, ks: seq<string>)
    requires index.Valid() && index.keys == Distinct(ks)
    ensures AddOccurrence(index, item, c, cl).Valid()
    ensures AddOccurrence(index, item, c, cl).keys == Distinct(ks + [Lower(cl.language)])
  {
    var key := Lower(cl.language);
    SetKeysDistinct(index, ks, key, Occur(Entry(index, key), item.unMember, Share(item.population, cl), c));
  }

  /** The last entry of `ls` is one more occurrence on top of the others. */
  lemma {:induction false} AddLanguagesLast(index: OrderedMap<Language>, item: CountryData, c: Country,
                                            ls: seq<CountryLanguage>, k: string)
    requires ls != []
    ensures k in AddLanguages(index, item, c, ls).entries <==>
              k in AddLanguages(index, item, c, ls[..|ls| - 1]).entries || Lower(ls[|ls| - 1].language) == k
    ensures Lower(ls[|ls| - 1].language) == k ==>
              Entry(AddLanguages(index, item, c, ls), k) ==
              Extend(Entry(AddLanguages(index, item, c, ls[..|ls| - 1]), k), item.unMember, 1,
                     Share(item.population, ls[|ls| - 1]), c)
    ensures Lower(ls[|ls| - 1].language) != k ==>
              Entry(AddLanguages(index, item, c, ls), k) == Entry(AddLanguages(index, item, c, ls[..|ls| - 1]), k)
  {
    AddLanguagesUnfold(index, item, c, ls, k);
    AddOccurrenceEntry(AddLanguages(index, item, c, ls[..|ls| - 1]), item, c, ls[|ls| - 1], k);
  }

  /** The effect of one record's entries `ls` on the index, key by key. */
  lemma {:induction false} AddLanguagesEntry(index: OrderedMap<Language>, item: CountryData, c: Country,
                                             ls: seq<CountryLanguage>, k: string)
    ensures k in AddLanguages(index, item, c, ls).entries <==> k in index.entries || CountIn(ls, k) > 0
    ensures Entry(AddLanguages(index, item, c, ls), k) ==
            Extend(Entry(index, k), item.unMember, CountIn(ls, k), SpeakersIn(ls, k, item.population), c)
  {
    if ls == [] {
      ExtendNothing(Entry(index, k), item.unMember, c);
    } else {
      var n := |ls| - 1;
      AddLanguagesEntry(index, item, c, ls[..n], k);
      AddLanguagesLast(index, item, c, ls, k);
      if Lower(ls[n].language) == k {
        assert CountIn(ls, k) == CountIn(ls[..n], k) + 1;
        assert SpeakersIn(ls, k, item.population) == SpeakersIn(ls[..n], k, item.population) + Share(item.population, ls[n]);
        ExtendTwice(Entry(index, k), item.unMember, CountIn(ls[..n], k), SpeakersIn(ls[..n], k, item.population),
                    1, Share(item.population, ls[n]), c);
      } else {
        assert CountIn(ls, k) == CountIn(ls[..n], k);
        assert SpeakersIn(ls, k, item.population) == SpeakersIn(ls[..n], k, item.population);
      }
    }
  }

  lemma LoweredNamesSnoc(ls: seq<CountryLanguage>)
    requires ls != []
    ensures LoweredNames(ls) == LoweredNames(ls[..|ls| - 1]) + [Lower(ls[|ls| - 1].language)]
  {
  }

  /** The key order of the index after one record's entries. */
  lemma {:induction false} AddLanguagesKeys(index: OrderedMap<Language>, item: CountryData, c: Country,
                                            ls: seq<CountryLanguage>, ks: seq<string>)
    requires index.Valid() && index.keys == Distinct(ks)
    ensures AddLanguages(index, item, c, ls).Valid()
    ensures AddLanguages(index, item, c, ls).keys == Distinct(ks + LoweredNames(ls))
  {
    if ls == [] {
      assert ks + LoweredNames(ls) == ks;
    } else {
      var n := |ls| - 1;
      var before := AddLanguages(index, item, c, ls[..n]);
      assert AddLanguages(index, item, c, ls) == AddOccurrence(before, item, c, ls[n]);
      AddLanguagesKeys(index, item, c, ls[..n], ks);
      AddOccurrenceKeys(before, item, c, ls[n], ks + LoweredNames(ls[..n]));
      LoweredNamesSnoc(ls);
      assert ks + LoweredNames(ls[..n]) + [Lower(ls[n].language)] == ks + LoweredNames(ls);
    }
  }

  /** Every entry of the language index is the closed form, and a key is present exactly
      when some record names that language. */
  lemma {:induction false} LanguageIndexEntry(data: seq<CountryData>, objs: seq<Country>, k: string)
    requires |objs| == |data|
    ensures k in LanguageIndex(data, objs).entries <==> Occurrences(data, k) > 0
    ensures Entry(LanguageIndex(data, objs), k) == ExpectedLanguage(data, objs, k)
  {
    if data != [] {
      var n := |data| - 1;
      LanguageIndexEntry(data[..n], objs[..n], k);
      LanguageIndexUnfold(data, objs);
      AddLanguagesEntry(LanguageIndex(data[..n], objs[..n]), data[n], objs[n], data[n].languages, k);
      ExpectedLanguageSnoc(data, objs, k);
    }
  }

  lemma AddLanguagesSnoc(index: OrderedMap<Language>, item: CountryData, c: Country, ls: seq<CountryLanguage>, cl: CountryLanguage)
    ensures AddLanguages(index, item, c, ls + [cl]) == AddOccurrence(AddLanguages(index, item, c, ls), item, c, cl)
  {
    assert (ls + [cl])[..|ls|] == ls;
  }

  lemma LanguageIndexUnfold(data: seq<CountryData>, objs: seq<Country>)
    requires |objs| == |data| && data != []
    ensures LanguageIndex(data, objs) ==
            AddLanguages(LanguageIndex(data[..|data| - 1], objs[..|data| - 1]), data[|data| - 1], objs[|data| - 1], data[|data| - 1].languages)
  {
  }

  lemma ExpectedLanguageSnoc(data: seq<CountryData>, objs: seq<Country>, k: string)
    requires |objs| == |data| && data != []
    ensures var n := |data| - 1;
            ExpectedLanguage(data, objs, k) ==
            Extend(ExpectedLanguage(data[..n], objs[..n], k), data[n].unMember, CountIn(data[n].languages, k),
                   SpeakersIn(data[n].languages, k, data[n].population), objs[n])
  {
  }

  /** The language index keeps its keys in order of first appearance of each lowercased
      name (the order the preprocessing script serialises them in). */
  lemma {:induction false} LanguageIndexKeys(data: seq<CountryData>, objs: seq<Country>)
    requires |objs| == |data|
    ensures LanguageIndex(data, objs).Valid()
    ensures LanguageIndex(data, objs).keys == Distinct(AllLoweredNames(data))
  {
    if data != [] {
      var n := |data| - 1;
      LanguageIndexKeys(data[..n], objs[..n]);
      AddLanguagesKeys(LanguageIndex(data[..n], objs[..n]), data[n], objs[n], data[n].languages, AllLoweredNames(data[..n]));
    }
  }
  lemma AddLanguagesUnfold(index: OrderedMap<Language>, item: CountryData, c: Country, ls: seq<CountryLanguage>, k: string)
    requires ls != []
    ensures Entry(AddLanguages(index, item, c, ls), k) == Entry(AddOccurrence(AddLanguages(index, item, c, ls[..|ls| - 1]), item, c, ls[|ls| - 1]), k)
  {
  }

  // ----- Properties of the closed forms -----

  lemma {:induction false} CountInPositive(ls: seq<CountryLanguage>, key: string)
    ensures CountIn(ls, key) > 0 <==> key in LoweredNames(ls)
  {
    if ls != [] {
      CountInPositive(ls[..|ls| - 1], key);
      LoweredNamesSnoc(ls);
    }
  }

  /** A language is counted exactly when some record lists it (in any letter case). */
  lemma {:induction false} OccurrencesPositive(data: seq<CountryData>, key: string)
    ensures Occurrences(data, key) > 0 <==> key in AllLoweredNames(data)
  {
    if data != [] {
      OccurrencesPositive(data[..|data| - 1], key);
      CountInPositive(data[|data| - 1].languages, key);
    }
  }

  /** Every key the pass can create is in lower case. */
  lemma {:induction false} AllLoweredNamesAreLowerCase(data: seq<CountryData>)
    ensures forall x :: x in AllLoweredNames(data) ==> IsLowerCase(x)
  {
    if data != [] {
      AllLoweredNamesAreLowerCase(data[..|data| - 1]);
      var ls := data[|data| - 1].languages;
      forall j | 0 <= j < |ls| ensures IsLowerCase(Lower(ls[j].language)) {
        LowerIsLowerCase(ls[j].language);
      }
    }
  }

  /** A language's country list has one element per counted occurrence. */
  lemma {:induction false} OccurringCountriesLength(data: seq<CountryData>, objs: seq<Country>, key: string)
    requires |objs| == |data|
    ensures |OccurringCountries(data, objs, key)| == Occurrences(data, key)
  {
    if data != [] {
      OccurringCountriesLength(data[..|data| - 1], objs[..|data| - 1], key);
    }
  }

  /** A country is listed under a language exactly when its own record names it. */
  lemma {:induction false} OccurringCountriesMembers(data: seq<CountryData>, objs: seq<Country>, key: string, c: Country)
    requires |objs| == |data|
    ensures c in OccurringCountries(data, objs, key) <==>
            exists i :: 0 <= i < |data| && objs[i] == c && CountIn(data[i].languages, key) > 0
  {
    if data != [] {
      var n := |data| - 1;
      OccurringCountriesMembers(data[..n], objs[..n], key, c);
      var tail := Repeat(objs[n], CountIn(data[n].languages, key));
      assert OccurringCountries(data, objs, key) == OccurringCountries(data[..n], objs[..n], key) + tail;
      assert CountIn(data[n].languages, key) > 0 ==> tail[0] == objs[n];
      if c in OccurringCountries(data, objs, key) {
        if c !in OccurringCountries(data[..n], objs[..n], key) {
          assert objs[n] == c && CountIn(data[n].languages, key) > 0;
        }
      } else {
        forall i | 0 <= i < |data| && objs[i] == c
          ensures CountIn(data[i].languages, key) == 0
        {
          if i < n {
            assert data[..n][i] == data[i] && objs[..n][i] == objs[i];
          }
        }
      }
    }
  }

  /** Records in a valid data set carry no negative population or percentage. */
  predicate NonNegative(data: seq<CountryData>) {
    forall i :: 0 <= i < |data| ==>
      data[i].population >= 0.0 &&
      (forall j :: 0 <= j < |data[i].languages| ==> data[i].languages[j].percentage >= 0.0)
  }

  lemma {:induction false} SpeakersInNonNegative(ls: seq<CountryLanguage>, key: string, population: real)
    requires population >= 0.0 && forall j :: 0 <= j < |ls| ==> ls[j].percentage >= 0.0
    ensures SpeakersIn(ls, key, population) >= 0.0
  {
    if ls != [] {
      SpeakersInNonNegative(ls[..|ls| - 1], key, population);
    }
  }

  /** The UN-member view never exceeds the all-countries view. */
  lemma {:induction false} UNWithinTotal(data: seq<CountryData>, key: string)
    ensures UNOccurrences(data, key) <= Occurrences(data, key)
    ensures NonNegative(data) ==> 0.0 <= UNSpeakersOfKey(data, key) <= SpeakersOfKey(data, key)
  {
    if data != [] {
      var n := |data| - 1;
      UNWithinTotal(data[..n], key);
      if NonNegative(data) {
        assert NonNegative(data[..n]);
        SpeakersInNonNegative(data[n].languages, key, data[n].population);
      }
    }
  }

  // ----- The two indexes together -----

  /** The language index: keys in first-appearance order, each key lowercase, each entry
      the closed form, its country list one entry per occurrence, UN view within total. */
  lemma LanguageIndexSpec(data: seq<CountryData>, objs: seq<Country>)
    requires |objs| == |data|
    ensures LanguageIndex(data, objs).Valid()
    ensures LanguageIndex(data, objs).keys == Distinct(AllLoweredNames(data))
    ensures forall k :: k in LanguageIndex(data, objs).entries <==> k in AllLoweredNames(data)
    ensures forall k :: k in LanguageIndex(data, objs).entries ==>
              IsLowerCase(k) &&
              LanguageIndex(data, objs).entries[k] == ExpectedLanguage(data, objs, k) &&
              |OccurringCountries(data, objs, k)| == Occurrences(data, k) > 0 &&
              UNOccurrences(data, k) <= Occurrences(data, k)
  {
    LanguageIndexKeys(data, objs);
    AllLoweredNamesAreLowerCase(data);
    forall k ensures k in LanguageIndex(data, objs).entries <==> k in AllLoweredNames(data) {
      LanguageIndexEntry(data, objs, k);
      OccurrencesPositive(data, k);
    }
    forall k | k in LanguageIndex(data, objs).entries
      ensures LanguageIndex(data, objs).entries[k] == ExpectedLanguage(data, objs, k)
      ensures |OccurringCountries(data, objs, k)| == Occurrences(data, k) > 0
      ensures UNOccurrences(data, k) <= Occurrences(data, k)
    {
      LanguageIndexEntry(data, objs, k);
      OccurringCountriesLength(data, objs, k);
      UNWithinTotal(data, k);
    }
  }

  /** Sorting the country lists leaves keys, names and counters alone, and each list
      becomes a stable sort of itself. */
  lemma SortLanguagesSpec(index: OrderedMap<Language>, leq: (string, string) -> bool)
    requires TotalPreorder(leq)
    ensures index.Valid() ==> SortLanguages(index, leq).Valid()
    ensures forall k :: k in index.entries ==>
              var before, after := index.entries[k], SortLanguages(index, leq).entries[k];
              after.name == before.name && after.statistics == before.statistics &&
              SortedByName(after.countries, leq) &&
              multiset(after.countries) == multiset(before.countries) &&
              forall r :: RankClass(after.countries, r, leq) == RankClass(before.countries, r, leq)
  {
    forall k | k in index.entries {
      SortByNameSpec(index.entries[k].countries, leq);
    }
  }

  /** A record replaced in the country index by a later record of the same common name
      still appears in the lists of the languages it names. */
  lemma ReplacedCountryStaysListed(data: seq<CountryData>, objs: seq<Country>, i: nat, j: nat, key: string)
    requires |objs| == |data| && i < j < |data|
    requires forall a, b :: 0 <= a < b < |objs| ==> objs[a] != objs[b]
    requires data[i].name.common == data[j].name.common
    requires CountIn(data[i].languages, key) > 0
    ensures data[i].name.common in CountryIndex(data, objs).entries &&
            CountryIndex(data, objs).entries[data[i].name.common] != objs[i]
    ensures key in LanguageIndex(data, objs).entries &&
            objs[i] in LanguageIndex(data, objs).entries[key].countries
  {
    CountryIndexSpec(data, objs);
    var m := LastWithName(data, data[i].name.common, j);
    assert CountryIndex(data, objs).entries[data[m].name.common] == objs[m];
    OccurringCountriesMembers(data, objs, key, objs[i]);
    LanguageIndexEntry(data, objs, key);
    UNWithinTotal(data, key);
    OccurrencesAtLeast(data, i, key);
  }

  /** The last record index carrying `name`, at or after `j`. */
  function LastWithName(data: seq<CountryData>, name: string, j: nat): (m: nat)
    requires j < |data| && data[j].name.common == name
    ensures j <= m < |data| && data[m].name.common == name
    ensures forall b :: m < b < |data| ==> data[b].name.common != name
    decreases |data| - j
  {
    if exists b :: j < b < |data| && data[b].name.common == name then
      var b :| j < b < |data| && data[b].name.common == name;
      LastWithName(data, name, b)
    else j
  }

  lemma {:induction false} OccurrencesAtLeast(data: seq<CountryData>, i: nat, key: string)
    requires i < |data|
    ensures Occurrences(data, key) >= CountIn(data[i].languages, key)
  {
    var n := |data| - 1;
    if i < n {
      OccurrencesAtLeast(data[..n], i, key);
    }
  }

  /** What one pass over `data` leaves in the language map: one entry per language named
      anywhere (in any letter case), keyed and named by its lowercase form, in order of
      first appearance; its counters are the sums over the records naming it; its
      countries are those records' Country objects, one per occurrence, sorted by name. */
  lemma AggregateSpec(data: seq<CountryData>, objs: seq<Country>, leq: (string, string) -> bool)
    requires |objs| == |data| && TotalPreorder(leq)
    ensures var languages := SortLanguages(LanguageIndex(data, objs), leq);
            && languages.Valid()
            && languages.keys == Distinct(AllLoweredNames(data))
            && (forall k :: k in languages.entries <==> k in AllLoweredNames(data))
            && forall k :: k in languages.entries ==>
                 var l := languages.entries[k];
                 && IsLowerCase(k) && l.name == k
                 && l.statistics == Statistics(Some(UNSpeakersOfKey(data, k)), Some(UNOccurrences(data, k)),
                                               Some(SpeakersOfKey(data, k)), Some(Occurrences(data, k)))
                 && SortedByName(l.countries, leq)
                 && multiset(l.countries) == multiset(OccurringCountries(data, objs, k))
                 && |l.countries| == Occurrences(data, k) > 0
  {
    LanguageIndexSpec(data, objs);
    SortLanguagesSpec(LanguageIndex(data, objs), leq);
    forall k | k in LanguageIndex(data, objs).entries {
      SortByNameSpec(LanguageIndex(data, objs).entries[k].countries, leq);
    }
  }
}
