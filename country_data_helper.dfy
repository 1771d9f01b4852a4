/** CountryDataHelper.getLanguageSummary (src/lib/helpers/CountryDataHelper.ts): one
    "Totals" language that gathers the countries of the selected languages, each
    object once, and adds up their speakers. */
module CountryDataHelperModel {
  import opened Wrappers
  import opened Sequences
  import opened StatisticsModel
  import opened CountryModel
  import opened LanguageModel

  const SummaryName: string := "Totals"

  /** The country lists of `languages`, one after the other. */
  function AllCountries(languages: seq<Language>): seq<Country> {
    if languages == [] then []
    else AllCountries(languages[..|languages| - 1]) + languages[|languages| - 1].countries
  }

  /** The summary's countries: every country object once, in order of first occurrence
      (the iteration order of the `Set` they are added to). */
  function SummaryCountries(languages: seq<Language>): seq<Country> {
    Distinct(AllCountries(languages))
  }

  /** `a + b` on number fields that may hold undefined (NaN absorbs). */
  function AddSpeakers(a: Option<real>, b: Option<real>): Option<real> {
    if a.Some? && b.Some? then Some(a.value + b.value) else None
  }

  /** The sum of the selected view's speakers over `languages`, starting from 0. */
  function SpeakerSum(languages: seq<Language>, unMember: bool): Option<real> {
    if languages == [] then Some(0.0)
    else AddSpeakers(SpeakerSum(languages[..|languages| - 1], unMember),
                     GetSpeakers(languages[|languages| - 1].statistics, unMember))
  }

  /** The statistics as written: `new Statistics(totalSpeakers, countries.length)` fills
      the first two positional slots (the UN view) and leaves the other two undefined. */
  function SummaryStatisticsAsWritten(languages: seq<Language>): (s: Statistics)
    ensures s.totalSpeakers.None? && s.numberOfCountries.None?
  {
    FromPositional(SpeakerSum(languages, false), Some(|SummaryCountries(languages)|), None, None)
  }

  /** Countries of `cs` that are UN members. */
  function UNMembers(cs: seq<Country>): (r: seq<Country>)
    ensures |r| <= |cs|
  {
    if cs == [] then []
    else UNMembers(cs[..|cs| - 1]) + (if cs[|cs| - 1].unMember == Some(true) then [cs[|cs| - 1]] else [])
  }

  /** The statistics the summary is meant to carry: both views summed over the
      languages and both country counts taken over the de-duplicated countries. */
  function SummaryStatistics(languages: seq<Language>): Statistics {
    Statistics(
      SpeakerSum(languages, true), Some(|UNMembers(SummaryCountries(languages))|),
      SpeakerSum(languages, false), Some(|SummaryCountries(languages)|))
  }

  /** getLanguageSummary: the loop adds each country to a Set (kept here as its
      insertion-ordered contents) and the language's total speakers to a running sum;
      the Language constructor then copies the countries into fresh objects. The input
      is only read. */
  method GetLanguageSummary(languages: seq<Language>) returns (summary: Language)
    ensures summary.name == SummaryName
    ensures summary.statistics == SummaryStatisticsAsWritten(languages)
    ensures |summary.countries| == |SummaryCountries(languages)|
    ensures forall i :: 0 <= i < |summary.countries| ==>
              fresh(summary.countries[i]) && SameFields(summary.countries[i], SummaryCountries(languages)[i])
  {
    var countriesSet: seq<Country> := [];
    var totalSpeakers: Option<real> := Some(0.0);
    var i := 0;
    while i < |languages|
      invariant 0 <= i <= |languages|
      invariant countriesSet == Distinct(AllCountries(languages[..i]))
      invariant totalSpeakers == SpeakerSum(languages[..i], false)
    {
      var language := languages[i];
      countriesSet := AddEach(countriesSet, language.countries, AllCountries(languages[..i]));
      assert languages[..i + 1][..i] == languages[..i];
      assert AllCountries(languages[..i + 1]) == AllCountries(languages[..i]) + language.countries;
      totalSpeakers := AddSpeakers(totalSpeakers, language.statistics.totalSpeakers);
      i := i + 1;
    }
    assert languages[..i] == languages;
    var languageStatistics := FromPositional(totalSpeakers, Some(|countriesSet|), None, None);
    summary := NewLanguage(SummaryName, languageStatistics, countriesSet);
  }

  /** `countries.forEach(e => countriesSet.add(e))` on a Set holding the distinct
      elements of `before`. */
  method AddEach(countriesSet: seq<Country>, countries: seq<Country>, ghost before: seq<Country>)
    returns (result: seq<Country>)
    requires countriesSet == Distinct(before)
    ensures result == Distinct(before + countries)
  {
    result := countriesSet;
    var j := 0;
    assert before + countries[..j] == before;
    while j < |countries|
      invariant 0 <= j <= |countries|
      invariant result == Distinct(before + countries[..j])
    {
      var e := countries[j];
      DistinctSnoc(before + countries[..j], e);
      assert before + countries[..j + 1] == before + countries[..j] + [e];
      if e !in result {
        result := result + [e];
      }
      j := j + 1;
    }
    assert countries[..j] == countries;
  }

  // ----- Properties -----

  /** The summary lists every country of the input exactly once; its count is at most
      the number of entries, and equals it when no object is shared. */
  lemma SummaryCountriesSpec(languages: seq<Language>)
    ensures NoDuplicates(SummaryCountries(languages))
    ensures forall c :: c in SummaryCountries(languages) <==> c in AllCountries(languages)
    ensures |SummaryCountries(languages)| <= |AllCountries(languages)|
    ensures NoDuplicates(AllCountries(languages)) ==> SummaryCountries(languages) == AllCountries(languages)
  {
    DistinctProperties(AllCountries(languages));
    if NoDuplicates(AllCountries(languages)) {
      DistinctOfNoDuplicates(AllCountries(languages));
    }
  }

  /** A country is gathered exactly when some input language lists it. */
  lemma {:induction false} AllCountriesMembers(languages: seq<Language>, c: Country)
    ensures c in AllCountries(languages) <==> exists i :: 0 <= i < |languages| && c in languages[i].countries
  {
    if languages != [] {
      var n := |languages| - 1;
      AllCountriesMembers(languages[..n], c);
      if exists i :: 0 <= i < |languages| && c in languages[i].countries {
        var i :| 0 <= i < |languages| && c in languages[i].countries;
        if i < n {
          assert languages[..n][i] == languages[i];
        }
      }
      if exists i :: 0 <= i < n && c in languages[..n][i].countries {
        var i :| 0 <= i < n && c in languages[..n][i].countries;
        assert languages[..n][i] == languages[i];
      }
    }
  }

  /** As written, the summary fills its UN view with the all-countries totals and
      leaves the all-countries view undefined; even the empty selection, which is
      meant to give all-zero statistics, does not. */
  lemma SummaryAsWrittenMisplacesTotals(languages: seq<Language>)
    ensures SummaryStatisticsAsWritten(languages).totalUNSpeakers == SpeakerSum(languages, false)
    ensures SummaryStatisticsAsWritten(languages).numberOfUNCountries == Some(|SummaryCountries(languages)|)
    ensures SummaryStatisticsAsWritten(languages) != SummaryStatistics(languages)
    ensures SummaryStatistics([]) == Zero() && SummaryStatisticsAsWritten([]) != Zero()
  {
  }

  /** The UN members are exactly the countries flagged as members. */
  lemma {:induction false} UNMembersSpec(cs: seq<Country>, c: Country)
    ensures c in UNMembers(cs) <==> c in cs && c.unMember == Some(true)
  {
    if cs != [] {
      UNMembersSpec(cs[..|cs| - 1], c);
      assert cs == cs[..|cs| - 1] + [cs[|cs| - 1]];
    }
  }

  /** Adding up statistics whose UN view stays within the full view keeps it so. */
  lemma {:induction false} SpeakerSumBounds(languages: seq<Language>)
    requires forall i :: 0 <= i < |languages| ==> Consistent(languages[i].statistics)
    ensures SpeakerSum(languages, true).Some? && SpeakerSum(languages, false).Some?
    ensures 0.0 <= SpeakerSum(languages, true).value <= SpeakerSum(languages, false).value
  {
    if languages != [] {
      var n := |languages| - 1;
      assert Consistent(languages[n].statistics);
      SpeakerSumBounds(languages[..n]);
    }
  }

  /** The intended summary is consistent whenever the input statistics are: its UN
      view never exceeds its full view, and an empty selection gives zero statistics. */
  lemma SummaryStatisticsConsistent(languages: seq<Language>)
    requires forall i :: 0 <= i < |languages| ==> Consistent(languages[i].statistics)
    ensures Consistent(SummaryStatistics(languages))
    ensures SummaryStatistics(languages).numberOfCountries == Some(|SummaryCountries(languages)|)
    ensures SummaryStatistics(languages).totalSpeakers == SpeakerSum(languages, false)
  {
    SpeakerSumBounds(languages);
  }
}
