/** ColoringHelper (src/lib/helpers/ColoringHelper.ts): colours for the selected
    languages and for the countries they reach. The two shared stores it writes become
    the two fields of a ColoringState object. */
module ColoringHelperModel {
  import opened Wrappers
  import opened CountryModel
  import opened LanguageModel

  /** The palette, in order. */
  const BaseColors: seq<string> := [
    "#1976D2", "#FFEB3B", "#D32F2F", "#32B600", "#A6A6ED", "#F57C00", "#00BCD4", "#E91E96",
    "#FFFB91", "#9E9E9E", "#FF5722", "#009688", "#795548", "#3F51B5", "#8BC34A", "#FBC02D"]

  /** What a lookup yields for a key with no colour. */
  const NoColor: string := "none"

  /** The entry of `palette` at `index` modulo the palette size. */
  function PaletteColor(palette: seq<string>, index: nat): (color: string)
    requires |palette| > 0
    ensures color in palette
    ensures index < |palette| ==> color == palette[index]
  {
    palette[index % |palette|]
  }

  /** getLanguageColorByIndex: the colour of the language at `index`. */
  function LanguageColorByIndex(index: nat): (color: string)
    ensures color in BaseColors
    ensures index < |BaseColors| ==> color == BaseColors[index]
  {
    PaletteColor(BaseColors, index)
  }

  /** A `#rrggbb` colour string. */
  predicate IsHexColor(color: string) {
    |color| == 7 && color[0] == '#'
  }

  /** Every palette entry is a `#rrggbb` string, hence neither empty nor "none". */
  lemma PaletteIsHex()
    ensures forall color :: color in BaseColors ==> IsHexColor(color) && color != "" && color != NoColor
  {
    forall color | color in BaseColors
      ensures IsHexColor(color)
    {
      var k :| 0 <= k < |BaseColors| && BaseColors[k] == color;
    }
  }

  /** `table.get(key) || 'none'`: a missing key or an empty colour gives "none". */
  function Lookup(table: map<string, string>, key: string): (color: string)
    ensures key in table && table[key] != "" ==> color == table[key]
    ensures key !in table || table[key] == "" ==> color == NoColor
  {
    if key in table && table[key] != "" then table[key] else NoColor
  }

  // ----- What assignColors computes -----

  /** The language table after the languages `ls`: `set(name, colour of index)` in order. */
  function LanguageColorTable(ls: seq<Language>, palette: seq<string>): (table: map<string, string>)
    requires |palette| > 0
    ensures forall i :: 0 <= i < |ls| ==> ls[i].name in table
    ensures forall name :: name in table ==> table[name] in palette
  {
    if ls == [] then map[]
    else LanguageColorTable(ls[..|ls| - 1], palette)[ls[|ls| - 1].name := PaletteColor(palette, |ls| - 1)]
  }

  /** A country's id enters the table when it is non-empty and not yet present. */
  function AddCountryColors(table: map<string, string>, countries: seq<Country>, color: string): (r: map<string, string>)
    ensures forall id :: id in table ==> id in r && r[id] == table[id]
    ensures forall id :: id in r && id !in table ==> id != "" && r[id] == color
  {
    if countries == [] then table
    else
      var t := AddCountryColors(table, countries[..|countries| - 1], color);
      var id := countries[|countries| - 1].countryId;
      if id.Some? && id.value != "" && id.value !in t then t[id.value := color] else t
  }

  /** The country table after the languages `ls`. */
  function CountryColorTable(ls: seq<Language>, palette: seq<string>): (table: map<string, string>)
    requires |palette| > 0
    ensures forall id :: id in table ==> id != "" && table[id] in palette
  {
    if ls == [] then map[]
    else AddCountryColors(CountryColorTable(ls[..|ls| - 1], palette), ls[|ls| - 1].countries, PaletteColor(palette, |ls| - 1))
  }

  class ColoringState {
    var languageColors: map<string, string>
    var countryColors: map<string, string>

    /** Both stores start as empty maps. */
    constructor ()
      ensures languageColors == map[] && countryColors == map[]
    {
      languageColors := map[];
      countryColors := map[];
    }

    /** assignColors: two fresh tables are filled, language by language and country by
        country, and then replace the stored ones. */
    method AssignColors(languages: seq<Language>)
      modifies this
      ensures languageColors == LanguageColorTable(languages, BaseColors)
      ensures countryColors == CountryColorTable(languages, BaseColors)
    {
      var countryMapping: map<string, string> := map[];
      var languageMapping: map<string, string> := map[];
      var index := 0;
      while index < |languages|
        invariant 0 <= index <= |languages|
        invariant languageMapping == LanguageColorTable(languages[..index], BaseColors)
        invariant countryMapping == CountryColorTable(languages[..index], BaseColors)
      {
        var language := languages[index];
        var color := LanguageColorByIndex(index);
        languageMapping := languageMapping[language.name := color];
        ghost var start := countryMapping;
        var j := 0;
        while j < |language.countries|
          invariant 0 <= j <= |language.countries|
          invariant countryMapping == AddCountryColors(start, language.countries[..j], color)
        {
          var country := language.countries[j];
          if country.countryId.Some? && country.countryId.value != "" && country.countryId.value !in countryMapping {
            countryMapping := countryMapping[country.countryId.value := color];
          }
          assert language.countries[..j + 1][..j] == language.countries[..j];
          j := j + 1;
        }
        assert language.countries[..j] == language.countries;
        assert languages[..index + 1][..index] == languages[..index];
        index := index + 1;
      }
      assert languages[..index] == languages;
      languageColors := languageMapping;
      countryColors := countryMapping;
    }

    /** getColorByLanguageName: the stored colour of an exact name, "none" otherwise. */
    function ColorByLanguageName(languageName: string): (color: string)
      reads this
      ensures languageName in languageColors && languageColors[languageName] != "" ==> color == languageColors[languageName]
      ensures languageName !in languageColors ==> color == NoColor
    {
      Lookup(languageColors, languageName)
    }

    /** getColorByCountryId: the stored colour of an exact id, "none" otherwise. */
    function ColorByCountryId(countryId: string): (color: string)
      reads this
      ensures countryId in countryColors && countryColors[countryId] != "" ==> color == countryColors[countryId]
      ensures countryId !in countryColors ==> color == NoColor
    {
      Lookup(countryColors, countryId)
    }
  }

  // ----- Properties of the tables -----

  /** Some language of `ls` before position `n` lists a country with this id. */
  predicate ReachedBefore(ls: seq<Language>, n: nat, id: string)
    requires n <= |ls|
  {
    exists i :: 0 <= i < n && HasIdIn(ls[i].countries, id)
  }

  lemma {:induction false} AddCountryColorsSpec(table: map<string, string>, countries: seq<Country>, color: string, id: string)
    ensures id in AddCountryColors(table, countries, color) <==> id in table || (id != "" && HasIdIn(countries, id))
    ensures id in table ==> AddCountryColors(table, countries, color)[id] == table[id]
    ensures id !in table && id in AddCountryColors(table, countries, color) ==> AddCountryColors(table, countries, color)[id] == color
  {
    if countries != [] {
      var n := |countries| - 1;
      AddCountryColorsSpec(table, countries[..n], color, id);
      assert HasIdIn(countries, id) <==> HasIdIn(countries[..n], id) || countries[n].countryId == Some(id) by {
        assert forall k :: 0 <= k < n ==> countries[..n][k] == countries[k];
      }
    }
  }

  /** The country table holds exactly the non-empty ids reached by some language, each
      with the colour of the first language reaching it. */
  lemma {:induction false} CountryColorTableSpec(ls: seq<Language>, palette: seq<string>, id: string)
    requires |palette| > 0
    ensures id in CountryColorTable(ls, palette) <==> id != "" && ReachedBefore(ls, |ls|, id)
    ensures forall i :: 0 <= i < |ls| && HasIdIn(ls[i].countries, id) && !ReachedBefore(ls, i, id) && id != "" ==>
              CountryColorTable(ls, palette)[id] == PaletteColor(palette, i)
  {
    if ls != [] {
      var n := |ls| - 1;
      CountryColorTableSpec(ls[..n], palette, id);
      AddCountryColorsSpec(CountryColorTable(ls[..n], palette), ls[n].countries, PaletteColor(palette, n), id);
      assert ReachedBefore(ls, |ls|, id) <==> ReachedBefore(ls[..n], n, id) || HasIdIn(ls[n].countries, id) by {
        if ReachedBefore(ls, |ls|, id) && !HasIdIn(ls[n].countries, id) {
          var i :| 0 <= i < |ls| && HasIdIn(ls[i].countries, id);
          assert ls[..n][i] == ls[i];
        }
        if ReachedBefore(ls[..n], n, id) {
          var i :| 0 <= i < n && HasIdIn(ls[..n][i].countries, id);
          assert ls[i] == ls[..n][i];
        }
      }
      forall i | 0 <= i < |ls| && HasIdIn(ls[i].countries, id) && !ReachedBefore(ls, i, id) && id != ""
        ensures CountryColorTable(ls, palette)[id] == PaletteColor(palette, i)
      {
        if i < n {
          assert ls[..n][i] == ls[i];
          assert forall k :: 0 <= k < i ==> ls[..n][k] == ls[k];
        } else {
          assert forall k :: 0 <= k < n ==> ls[..n][k] == ls[k];
        }
      }
    }
  }

  /** The language table holds exactly the input names. */
  lemma {:induction false} LanguageColorTableKeys(ls: seq<Language>, palette: seq<string>, name: string)
    requires |palette| > 0
    ensures name in LanguageColorTable(ls, palette) <==> exists i :: 0 <= i < |ls| && ls[i].name == name
  {
    if ls != [] {
      var n := |ls| - 1;
      LanguageColorTableKeys(ls[..n], palette, name);
      if name != ls[n].name && exists i :: 0 <= i < |ls| && ls[i].name == name {
        var i :| 0 <= i < |ls| && ls[i].name == name;
        assert ls[..n][i] == ls[i];
      }
    }
  }

  /** A repeated name keeps the colour of its last index. */
  lemma {:induction false} LanguageColorTableLast(ls: seq<Language>, palette: seq<string>, i: nat)
    requires |palette| > 0 && i < |ls|
    requires forall j :: i < j < |ls| ==> ls[j].name != ls[i].name
    ensures ls[i].name in LanguageColorTable(ls, palette)
    ensures LanguageColorTable(ls, palette)[ls[i].name] == PaletteColor(palette, i)
  {
    var n := |ls| - 1;
    if i < n {
      assert ls[..n][i] == ls[i];
      forall j | i < j < n ensures ls[..n][j].name != ls[..n][i].name {
        assert ls[..n][j] == ls[j];
      }
      LanguageColorTableLast(ls[..n], palette, i);
    }
  }

  lemma {:induction false} AddCountryColorsInPalette(table: map<string, string>, countries: seq<Country>, color: string, palette: seq<string>)
    requires color in palette && forall k :: k in table ==> table[k] in palette
    ensures forall k :: k in AddCountryColors(table, countries, color) ==> AddCountryColors(table, countries, color)[k] in palette
  {
    if countries != [] {
      AddCountryColorsInPalette(table, countries[..|countries| - 1], color, palette);
    }
  }

  /** Every colour either table holds comes from the palette. */
  lemma {:induction false} TablesUsePalette(ls: seq<Language>, palette: seq<string>)
    requires |palette| > 0
    ensures forall k :: k in LanguageColorTable(ls, palette) ==> LanguageColorTable(ls, palette)[k] in palette
    ensures forall k :: k in CountryColorTable(ls, palette) ==> CountryColorTable(ls, palette)[k] in palette
  {
    if ls != [] {
      var n := |ls| - 1;
      TablesUsePalette(ls[..n], palette);
      AddCountryColorsInPalette(CountryColorTable(ls[..n], palette), ls[n].countries, PaletteColor(palette, n), palette);
    }
  }

  /** After assignColors, a lookup yields the assigned colour for a listed key and "none"
      for any other. */
  lemma LookupAfterAssign(ls: seq<Language>, palette: seq<string>, key: string)
    requires |palette| > 0 && forall color :: color in palette ==> IsHexColor(color)
    ensures key in LanguageColorTable(ls, palette) ==> Lookup(LanguageColorTable(ls, palette), key) == LanguageColorTable(ls, palette)[key] != NoColor
    ensures key !in LanguageColorTable(ls, palette) ==> Lookup(LanguageColorTable(ls, palette), key) == NoColor
    ensures key in CountryColorTable(ls, palette) ==> Lookup(CountryColorTable(ls, palette), key) == CountryColorTable(ls, palette)[key] != NoColor
    ensures key !in CountryColorTable(ls, palette) ==> Lookup(CountryColorTable(ls, palette), key) == NoColor
  {
    TablesUsePalette(ls, palette);
  }

  /** The palette repeats every sixteen languages. */
  lemma PaletteWraps(index: nat)
    ensures LanguageColorByIndex(index + 16) == LanguageColorByIndex(index)
    ensures LanguageColorByIndex(index) == BaseColors[index % 16]
  {
  }
}
