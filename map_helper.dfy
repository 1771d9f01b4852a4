/** MapHelper (src/lib/helpers/MapHelper.ts): the fill colour of a country on the map
    and the removal of Antarctica from the feature and geometry lists. The colour
    tables of ColoringHelper are passed in as a parameter; the topojson calls that
    produce and consume the lists are not part of this model. */
module MapHelperModel {
  import opened Wrappers
  import opened CountryModel
  import opened LanguageModel
  import opened ColoringHelperModel

  /** `languages.some(language => language.hasCountryById(countryId))`. */
  function AnyHasCountry(languages: seq<Language>, countryId: string): (r: bool)
    ensures r <==> exists i :: 0 <= i < |languages| && HasCountryById(languages[i], countryId)
  {
    if languages == [] then false
    else HasCountryById(languages[0], countryId) || AnyHasCountry(languages[1..], countryId)
  }

  /** The message of the TypeError raised by calling a static method the class does
      not declare. */
  const MissingDefaultColor: string := "ColoringHelper.getDefaultColor is not a function"

  /** getCountryFillColor as written: both default branches call
      `ColoringHelper.getDefaultColor()`, which ColoringHelper does not declare, so they
      throw instead of returning a colour. A `null` or `undefined` list, which takes the
      empty-list branch in the source, is excluded by the type `seq<Language>`. */
  function GetCountryFillColorAsWritten(countryId: string, languages: seq<Language>, countryColors: map<string, string>): (r: Result<string>)
    ensures r.Ok? <==> exists i :: 0 <= i < |languages| && HasCountryById(languages[i], countryId)
    ensures r.Ok? ==> r.value == Lookup(countryColors, countryId)
  {
    if |languages| == 0 then Err(MissingDefaultColor)
    else if AnyHasCountry(languages, countryId) then Ok(Lookup(countryColors, countryId))
    else Err(MissingDefaultColor)
  }

  /** getCountryFillColor with the default colour the lookups already use ("none").
      As above, a `null` list is excluded by the type and behaves like the empty one. */
  function GetCountryFillColor(countryId: string, languages: seq<Language>, countryColors: map<string, string>): (color: string)
    ensures (exists i :: 0 <= i < |languages| && HasCountryById(languages[i], countryId)) ==>
              color == Lookup(countryColors, countryId)
    ensures (forall i :: 0 <= i < |languages| ==> !HasCountryById(languages[i], countryId)) ==>
              color == NoColor
  {
    if |languages| == 0 then NoColor
    else if AnyHasCountry(languages, countryId) then Lookup(countryColors, countryId)
    else NoColor
  }

  /** Every input that reaches a default branch makes the code as written throw: with
      no languages, or with no language reaching the id. Where it does return, the
      corrected function returns the same colour. */
  lemma FillColorAsWrittenThrows(countryId: string, languages: seq<Language>, countryColors: map<string, string>)
    ensures languages == [] ==> GetCountryFillColorAsWritten(countryId, languages, countryColors).Err?
    ensures !AnyHasCountry(languages, countryId) ==>
              GetCountryFillColorAsWritten(countryId, languages, countryColors) == Err(MissingDefaultColor)
    ensures GetCountryFillColorAsWritten(countryId, languages, countryColors).Ok? ==>
              GetCountryFillColorAsWritten(countryId, languages, countryColors).value ==
              GetCountryFillColor(countryId, languages, countryColors)
  {
  }

  /** With the country table that assignColors built from the same languages, a
      country reached by a selected language is filled with the colour of the first
      language reaching it, which is a palette colour; any other country is "none".
      The id must be non-empty: assignColors skips a falsy `countryId`, so the empty id
      is never coloured and would get "none" even when a language reaches it. */
  lemma FillColorAfterAssign(countryId: string, languages: seq<Language>, palette: seq<string>)
    requires |palette| > 0 && forall c :: c in palette ==> c != ""
    requires countryId != ""
    ensures forall i :: 0 <= i < |languages| && HasIdIn(languages[i].countries, countryId) &&
                        !ReachedBefore(languages, i, countryId) ==>
              GetCountryFillColor(countryId, languages, CountryColorTable(languages, palette)) == PaletteColor(palette, i)
    ensures AnyHasCountry(languages, countryId) ==>
              GetCountryFillColor(countryId, languages, CountryColorTable(languages, palette)) in palette
    ensures !AnyHasCountry(languages, countryId) ==>
              GetCountryFillColor(countryId, languages, CountryColorTable(languages, palette)) == NoColor
  {
    var table := CountryColorTable(languages, palette);
    CountryColorTableSpec(languages, palette, countryId);
    TablesUsePalette(languages, palette);
    if AnyHasCountry(languages, countryId) {
      assert ReachedBefore(languages, |languages|, countryId);
      assert countryId in table;
      assert table[countryId] in palette;
    }
  }

  // ----- Antarctica filter -----

  /** The id of Antarctica in ISO 3166-1 numeric. */
  const AntarcticaId: string := "010"

  /** A feature or geometry of the world topology; only its id is inspected. */
  datatype Feature<G> = Feature(id: string, shape: G)

  /** The entries of `fs` satisfying `keep`, in order. */
  function Filter<G(!new)>(fs: seq<Feature<G>>, keep: Feature<G> -> bool): (r: seq<Feature<G>>)
    ensures |r| <= |fs|
    ensures forall f :: f in r <==> f in fs && keep(f)
  {
    if fs == [] then []
    else (if keep(fs[0]) then [fs[0]] else []) + Filter(fs[1..], keep)
  }

  /** processCountries: in condensed mode, `filter(country => country.id !== '010')`. */
  function ProcessCountries<G(!new)>(features: seq<Feature<G>>, condensed: bool): (r: seq<Feature<G>>)
    ensures !condensed ==> r == features
    ensures forall f :: f in r <==> f in features && (condensed ==> f.id != AntarcticaId)
  {
    if condensed then Filter(features, (f: Feature<G>) => f.id != AntarcticaId) else features
  }

  /** processBorders: `filter(geo => !condensed || !excludedIds.includes(geo.id))`
      with `excludedIds = ['010']`. */
  function ProcessBorders<G(!new)>(geometries: seq<Feature<G>>, condensed: bool): (r: seq<Feature<G>>)
    ensures !condensed ==> r == geometries
    ensures forall f :: f in r <==> f in geometries && (condensed ==> f.id != AntarcticaId)
  {
    var keep := (f: Feature<G>) => !condensed || f.id !in [AntarcticaId];
    if condensed then Filter(geometries, keep)
    else (FilterAll(geometries, keep); Filter(geometries, keep))
  }

  /** Filtering keeps the order: the kept entries of a concatenation are the kept
      entries of its first part followed by those of its second part. */
  lemma {:induction false} FilterAppend<G(!new)>(a: seq<Feature<G>>, b: seq<Feature<G>>, keep: Feature<G> -> bool)
    ensures Filter(a + b, keep) == Filter(a, keep) + Filter(b, keep)
  {
    if a == [] {
      assert a + b == b;
    } else {
      var ab := a + b;
      assert ab[0] == a[0] && ab[1..] == a[1..] + b;
      FilterAppend(a[1..], b, keep);
      var head := if keep(a[0]) then [a[0]] else [];
      calc {
        Filter(ab, keep);
        head + Filter(a[1..] + b, keep);
        head + (Filter(a[1..], keep) + Filter(b, keep));
        (head + Filter(a[1..], keep)) + Filter(b, keep);
      }
    }
  }

  /** A single entry is kept exactly when it passes. */
  lemma FilterOne<G(!new)>(f: Feature<G>, keep: Feature<G> -> bool)
    ensures Filter([f], keep) == (if keep(f) then [f] else [])
  {
    assert [f][1..] == [];
  }

  /** In condensed mode both filters drop exactly the '010' entries and keep the order
      of the rest: the result over a concatenation is the concatenation of the
      results. */
  lemma ProcessKeepsOrder<G(!new)>(a: seq<Feature<G>>, b: seq<Feature<G>>, condensed: bool)
    ensures ProcessCountries(a + b, condensed) == ProcessCountries(a, condensed) + ProcessCountries(b, condensed)
    ensures ProcessBorders(a + b, condensed) == ProcessBorders(a, condensed) + ProcessBorders(b, condensed)
    ensures |a| == 1 ==> ProcessCountries(a, condensed) == (if condensed && a[0].id == AntarcticaId then [] else a)
  {
    if condensed {
      FilterAppend(a, b, (f: Feature<G>) => f.id != AntarcticaId);
      if |a| == 1 {
        assert a == [a[0]];
        FilterOne(a[0], (f: Feature<G>) => f.id != AntarcticaId);
      }
    }
    FiltersAgree(a + b, condensed);
    FiltersAgree(a, condensed);
    FiltersAgree(b, condensed);
  }

  /** A filter that keeps everything changes nothing. */
  lemma {:induction false} FilterAll<G(!new)>(fs: seq<Feature<G>>, keep: Feature<G> -> bool)
    requires forall f :: f in fs ==> keep(f)
    ensures Filter(fs, keep) == fs
  {
    if fs != [] {
      FilterAll(fs[1..], keep);
    }
  }

  /** Two filters that agree on every entry give the same list. */
  lemma {:induction false} FilterExtensional<G(!new)>(fs: seq<Feature<G>>, p: Feature<G> -> bool, q: Feature<G> -> bool)
    requires forall f :: f in fs ==> p(f) == q(f)
    ensures Filter(fs, p) == Filter(fs, q)
  {
    if fs != [] {
      FilterExtensional(fs[1..], p, q);
    }
  }

  /** Both filters drop exactly the entries with id '010', keep the order of the rest,
      and leave the list unchanged outside condensed mode. */
  lemma FiltersAgree<G(!new)>(fs: seq<Feature<G>>, condensed: bool)
    ensures ProcessBorders(fs, condensed) == ProcessCountries(fs, condensed)
    ensures !condensed ==> ProcessBorders(fs, condensed) == fs
  {
    if condensed {
      FilterExtensional(fs, (f: Feature<G>) => !condensed || f.id !in [AntarcticaId],
                            (f: Feature<G>) => f.id != AntarcticaId);
    } else {
      FilterAll(fs, (f: Feature<G>) => !condensed || f.id !in [AntarcticaId]);
    }
  }

  /** Filtering twice is filtering once. */
  lemma {:induction false} ProcessCountriesIdempotent<G(!new)>(features: seq<Feature<G>>, condensed: bool)
    ensures ProcessCountries(ProcessCountries(features, condensed), condensed) == ProcessCountries(features, condensed)
  {
    if condensed {
      FilterAll(ProcessCountries(features, condensed), (f: Feature<G>) => f.id != AntarcticaId);
    }
  }
}
