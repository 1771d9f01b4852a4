/** CountryLookupHelper (src/lib/helpers/CountryLookupHelper.ts): an index from ISO
    numeric id to country, built once from the serialized country map and cached.

    The static fields become the fields of one object. The download of
    countryMap.json is an argument: `None` when the request or the parsing fails,
    otherwise the parsed entries. The shared loading promise, which only merges
    concurrent loads, is not part of this model. */
module CountryLookupHelperModel {
  import opened Wrappers
  import opened CountryModel

  /** One `[name, country]` pair of countryMap.json; the country may be null. */
  datatype RawEntry = RawEntry(key: string, country: Option<PartialCountry>)

  /** The id an entry is indexed under: none when the country or its id is missing or
      the id is empty (`!rawCountry?.countryId`). */
  function IdOf(e: RawEntry): (id: Option<string>)
    ensures id.Some? ==> id.value != "" && e.country.Some? && e.country.value.countryId == id
  {
    if e.country.Some? && e.country.value.countryId.Some? && e.country.value.countryId.value != ""
    then e.country.value.countryId else None
  }

  /** The data the index keeps under each id: `map.set(id, …)` in entry order. */
  function RawIndex(entries: seq<RawEntry>): (index: map<string, PartialCountry>)
    ensures forall id :: id in index ==> id != "" && index[id].countryId == Some(id)
  {
    if entries == [] then map[]
    else
      var e := entries[|entries| - 1];
      var prev := RawIndex(entries[..|entries| - 1]);
      if IdOf(e).Some? then prev[IdOf(e).value := e.country.value] else prev
  }

  /** `new Country({ ...raw })` produced `c`. */
  predicate MadeFrom(c: Country, raw: PartialCountry) {
    c.countryId == raw.countryId && c.cca2 == raw.cca2 &&
    c.commonName == (if raw.commonName.Some? then raw.commonName.value else "") &&
    c.officialName == raw.officialName && c.flag == raw.flag &&
    c.independent == raw.independent && c.unMember == raw.unMember &&
    c.population == (if raw.population.Some? then raw.population.value else 0.0) &&
    c.languages == (if raw.languages.Some? then raw.languages.value else [])
  }

  /** The built index: the ids of RawIndex, each holding a country made from the data
      RawIndex keeps for it. */
  predicate IndexOf(m: map<string, Country>, entries: seq<RawEntry>) {
    m.Keys == RawIndex(entries).Keys &&
    forall id :: id in m && id in RawIndex(entries) ==> MadeFrom(m[id], RawIndex(entries)[id])
  }

  /** The `forEach` that fills the map. */
  method BuildIndex(entries: seq<RawEntry>) returns (m: map<string, Country>)
    ensures IndexOf(m, entries)
    ensures forall id :: id in m ==> fresh(m[id])
  {
    m := map[];
    var i := 0;
    while i < |entries|
      invariant 0 <= i <= |entries|
      invariant IndexOf(m, entries[..i])
      invariant forall id :: id in m ==> fresh(m[id])
    {
      var e := entries[i];
      assert entries[..i + 1][..i] == entries[..i];
      if e.country.Some? && e.country.value.countryId.Some? && e.country.value.countryId.value != "" {
        var c := new Country.FromObject(e.country.value);
        m := m[e.country.value.countryId.value := c];
      }
      i := i + 1;
    }
    assert entries[..i] == entries;
  }

  class CountryLookupHelper {
    /** The cached index; `None` until loaded (the static `null`). */
    var countryMap: Option<map<string, Country>>

    constructor ()
      ensures countryMap.None?
    {
      countryMap := None;
    }

    /** clearCache: back to "not loaded". */
    method ClearCache()
      modifies this
      ensures countryMap.None?
    {
      countryMap := None;
    }

    /** loadCountryMap: the cached index when there is one (an empty map counts: it is
        truthy); otherwise the index built from the download, or an empty index when
        the download failed. Either way it is cached. */
    method LoadCountryMap(response: Option<seq<RawEntry>>) returns (m: map<string, Country>)
      modifies this
      ensures old(countryMap).Some? ==> countryMap == old(countryMap) && m == old(countryMap).value
      ensures old(countryMap).None? ==> countryMap == Some(m)
      ensures old(countryMap).None? && response.None? ==> m == map[]
      ensures old(countryMap).None? && response.Some? ==> IndexOf(m, response.value)
      ensures old(countryMap).None? ==> forall id :: id in m ==> fresh(m[id])
    {
      if countryMap.Some? {
        return countryMap.value;
      }
      if response.None? {
        m := map[];
      } else {
        m := BuildIndex(response.value);
      }
      countryMap := Some(m);
    }

    /** getCountryById: nothing for a missing or empty id, without loading; otherwise
        the indexed country, or nothing for an unknown id. */
    method GetCountryById(countryId: Option<string>, response: Option<seq<RawEntry>>) returns (r: Option<Country>)
      modifies this
      ensures countryId.None? || countryId.value == "" ==> r.None? && countryMap == old(countryMap)
      ensures countryId.Some? && countryId.value != "" ==>
                countryMap.Some? &&
                (old(countryMap).Some? ==> countryMap == old(countryMap)) &&
                (old(countryMap).None? && response.None? ==> countryMap == Some(map[])) &&
                (old(countryMap).None? && response.Some? ==> IndexOf(countryMap.value, response.value)) &&
                r == (if countryId.value in countryMap.value then Some(countryMap.value[countryId.value]) else None)
    {
      if countryId.None? || countryId.value == "" {
        return None;
      }
      var m := LoadCountryMap(response);
      r := if countryId.value in m then Some(m[countryId.value]) else None;
    }
  }

  // ----- Properties of the index -----

  /** An id is indexed exactly when some entry carries it, and it is never empty. */
  lemma {:induction false} RawIndexKeys(entries: seq<RawEntry>, id: string)
    ensures id in RawIndex(entries) <==> exists i :: 0 <= i < |entries| && IdOf(entries[i]) == Some(id)
    ensures id in RawIndex(entries) ==> id != ""
  {
    if entries != [] {
      var n := |entries| - 1;
      RawIndexKeys(entries[..n], id);
      if IdOf(entries[n]) != Some(id) && exists i :: 0 <= i < |entries| && IdOf(entries[i]) == Some(id) {
        var i :| 0 <= i < |entries| && IdOf(entries[i]) == Some(id);
        assert entries[..n][i] == entries[i];
      }
    }
  }

  /** An id holds the data of the last entry carrying it, whatever that entry's name
      key: a later entry with the same id overwrites an earlier one. */
  lemma {:induction false} RawIndexLast(entries: seq<RawEntry>, i: nat)
    requires i < |entries| && IdOf(entries[i]).Some?
    requires forall j :: i < j < |entries| ==> IdOf(entries[j]) != IdOf(entries[i])
    ensures IdOf(entries[i]).value in RawIndex(entries)
    ensures RawIndex(entries)[IdOf(entries[i]).value] == entries[i].country.value
  {
    var n := |entries| - 1;
    if i < n {
      assert entries[..n][i] == entries[i];
      forall j | i < j < n ensures IdOf(entries[..n][j]) != IdOf(entries[..n][i]) {
        assert entries[..n][j] == entries[j];
      }
      RawIndexLast(entries[..n], i);
    }
  }

  /** Entries without a usable id leave the index as it is. */
  lemma SkippedEntries(entries: seq<RawEntry>, e: RawEntry)
    requires IdOf(e).None?
    ensures RawIndex(entries + [e]) == RawIndex(entries)
  {
    assert (entries + [e])[..|entries|] == entries;
  }
}
