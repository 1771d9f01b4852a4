/** The `Country` class of src/lib/model/country.ts. Its fields are only assigned by
    its constructors, so they are `const` here; object identity is kept because
    getLanguageSummary de-duplicates countries by reference. */
module CountryModel {
  import opened Wrappers
  import opened Ascii

  /** One `{ language, percentage, notes }` entry of a country (countryLanguage.ts). */
  datatype CountryLanguage = CountryLanguage(language: string, percentage: real, notes: string)

  /** The keys supplied in a `Partial<Country>` object; `None` is an absent key. */
  datatype PartialCountry = PartialCountry(
    countryId: Option<string>,
    cca2: Option<string>,
    commonName: Option<string>,
    officialName: Option<string>,
    flag: Option<string>,
    independent: Option<bool>,
    unMember: Option<bool>,
    population: Option<real>,
    languages: Option<seq<CountryLanguage>>)

  /** The index of the first entry whose language equals `name` ignoring case. */
  function FirstMatch(languages: seq<CountryLanguage>, name: string): (r: Option<nat>)
    ensures r.Some? ==> r.value < |languages| && EqualsIgnoreCase(languages[r.value].language, name)
    ensures r.Some? ==> forall j :: 0 <= j < r.value ==> !EqualsIgnoreCase(languages[j].language, name)
    ensures r.None? ==> forall j :: 0 <= j < |languages| ==> !EqualsIgnoreCase(languages[j].language, name)
  {
    if languages == [] then None
    else if EqualsIgnoreCase(languages[0].language, name) then Some(0)
    else
      var rest := FirstMatch(languages[1..], name);
      if rest.Some? then Some(rest.value + 1) else None
  }

  /** Speakers of `name` in a country: percentage × population of the first matching
      entry, or 0 when no entry matches. */
  function SpeakersOf(languages: seq<CountryLanguage>, population: real, name: string): (speakers: real)
    ensures FirstMatch(languages, name).None? ==> speakers == 0.0
    ensures FirstMatch(languages, name).Some? ==>
              speakers == languages[FirstMatch(languages, name).value].percentage * population
    ensures 0.0 <= population && (forall j :: 0 <= j < |languages| ==> 0.0 <= languages[j].percentage) ==>
              0.0 <= speakers
  {
    var m := FirstMatch(languages, name);
    if m.Some? then languages[m.value].percentage * population else 0.0
  }

  class Country {
    const countryId: Option<string>   // ISO 3166-1 numeric
    const cca2: Option<string>        // ISO 3166-1 alpha-2
    const commonName: string
    const officialName: Option<string>
    const flag: Option<string>
    const independent: Option<bool>
    const unMember: Option<bool>
    const population: real
    const languages: seq<CountryLanguage>

    /** `new Country(data)`: the supplied keys over the defaults ('' for the common
        name, 0 for the population, [] for the languages, undefined otherwise). */
    constructor FromObject(data: PartialCountry)
      ensures countryId == data.countryId && cca2 == data.cca2
      ensures commonName == if data.commonName.Some? then data.commonName.value else ""
      ensures officialName == data.officialName && flag == data.flag
      ensures independent == data.independent && unMember == data.unMember
      ensures population == if data.population.Some? then data.population.value else 0.0
      ensures languages == if data.languages.Some? then data.languages.value else []
    {
      countryId := data.countryId;
      cca2 := data.cca2;
      commonName := if data.commonName.Some? then data.commonName.value else "";
      officialName := data.officialName;
      flag := data.flag;
      independent := data.independent;
      unMember := data.unMember;
      population := if data.population.Some? then data.population.value else 0.0;
      languages := if data.languages.Some? then data.languages.value else [];
    }

    /** The nine-argument form: every field from its positional argument. */
    constructor (countryId: Option<string>, cca2: Option<string>, commonName: string,
                 officialName: Option<string>, flag: Option<string>, independent: Option<bool>,
                 unMember: Option<bool>, population: real, languages: seq<CountryLanguage>)
      ensures this.countryId == countryId && this.cca2 == cca2 && this.commonName == commonName
      ensures this.officialName == officialName && this.flag == flag
      ensures this.independent == independent && this.unMember == unMember
      ensures this.population == population && this.languages == languages
    {
      this.countryId := countryId;
      this.cca2 := cca2;
      this.commonName := commonName;
      this.officialName := officialName;
      this.flag := flag;
      this.independent := independent;
      this.unMember := unMember;
      this.population := population;
      this.languages := languages;
    }

    /** The `(countryId, unMember)` form: only those two fields are set. */
    constructor WithMembership(countryId: string, unMember: bool)
      ensures this.countryId == Some(countryId) && this.unMember == Some(unMember)
      ensures commonName == "" && population == 0.0 && languages == []
      ensures cca2.None? && officialName.None? && flag.None? && independent.None?
    {
      this.countryId := Some(countryId);
      this.cca2 := None;
      this.commonName := "";
      this.officialName := None;
      this.flag := None;
      this.independent := None;
      this.unMember := Some(unMember);
      this.population := 0.0;
      this.languages := [];
    }

    /** getSpeakers: scans the entries in order and returns on the first one whose
        language matches ignoring case. */
    method GetSpeakers(languageName: string) returns (speakers: real)
      ensures speakers == SpeakersOf(languages, population, languageName)
    {
      var i := 0;
      while i < |languages|
        invariant 0 <= i <= |languages|
        invariant forall j :: 0 <= j < i ==> !EqualsIgnoreCase(languages[j].language, languageName)
      {
        if Lower(languages[i].language) == Lower(languageName) {
          return languages[i].percentage * population;
        }
        i := i + 1;
      }
      return 0.0;
    }
  }

  /** Two countries whose nine fields agree. */
  predicate SameFields(a: Country, b: Country) {
    a.countryId == b.countryId && a.cca2 == b.cca2 && a.commonName == b.commonName &&
    a.officialName == b.officialName && a.flag == b.flag && a.independent == b.independent &&
    a.unMember == b.unMember && a.population == b.population && a.languages == b.languages
  }

  /** With no matching entry the count is 0; otherwise it is the first match's
      percentage times the population. */
  lemma SpeakersOfCases(languages: seq<CountryLanguage>, population: real, name: string, i: nat)
    ensures (forall j :: 0 <= j < |languages| ==> !EqualsIgnoreCase(languages[j].language, name)) ==>
              SpeakersOf(languages, population, name) == 0.0
    ensures i < |languages| && EqualsIgnoreCase(languages[i].language, name) &&
            (forall j :: 0 <= j < i ==> !EqualsIgnoreCase(languages[j].language, name)) ==>
              SpeakersOf(languages, population, name) == languages[i].percentage * population
  {
  }

  /** Matching ignores case on both sides: any casing of the query gives the same count. */
  lemma {:induction false} FirstMatchIgnoresCase(languages: seq<CountryLanguage>, a: string, b: string)
    requires Lower(a) == Lower(b)
    ensures FirstMatch(languages, a) == FirstMatch(languages, b)
    ensures forall p: real :: SpeakersOf(languages, p, a) == SpeakersOf(languages, p, b)
  {
    if languages != [] {
      FirstMatchIgnoresCase(languages[1..], a, b);
    }
  }

  /** The count is non-negative when the population and every percentage are. */
  lemma SpeakersNonNegative(languages: seq<CountryLanguage>, population: real, name: string)
    requires population >= 0.0
    requires forall j :: 0 <= j < |languages| ==> languages[j].percentage >= 0.0
    ensures SpeakersOf(languages, population, name) >= 0.0
  {
  }
}
