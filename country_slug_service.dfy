/** CountrySlugService (src/lib/server/helpers/CountrySlugService.ts): the server-side
    table from country slug to common name, built once from countryMap.json.

    The static fields become the fields of one object. Reading and parsing the file is
    an argument: `None` when either fails, otherwise the parsed entries. The loading
    promise, which only merges concurrent loads, is not part of this model; neither is
    Unicode decomposition, which stays the parameter `nfd` of toCountrySlug. */
module CountrySlugServiceModel {
  import opened Wrappers
  import opened Sequences
  import opened OrderedMaps
  import opened CountrySlugHelper

  /** One `[key, { commonName? }]` pair; `None` when the country or its common name is
      missing (`country?.commonName` is undefined either way). */
  datatype StaticEntry = StaticEntry(key: string, commonName: Option<string>)

  /** toCountrySlug with the decomposition fixed. The table functions and their lemmas
      take the slug function as a parameter. */
  function Slugify(nfd: string -> string): Option<string> -> string {
    (name: Option<string>) => ToCountrySlug(name, nfd)
  }

  /** The slug an entry is stored under: none for a missing or empty name, or for a
      name whose slug is empty. */
  function SlugOf(e: StaticEntry, slugify: Option<string> -> string): (slug: Option<string>)
    ensures slug.Some? ==> e.commonName.Some? && e.commonName.value != "" && slug.value != "" && slug.value == slugify(e.commonName)
  {
    if e.commonName.None? || e.commonName.value == "" then None
    else
      var slug := slugify(e.commonName);
      if slug != "" then Some(slug) else None
  }

  /** The table the loop builds: `slugToName.set(slug, commonName)` in entry order. */
  function SlugTable(entries: seq<StaticEntry>, slugify: Option<string> -> string): (table: OrderedMap<string>)
    ensures forall slug :: slug in table.entries ==> slug != "" && table.entries[slug] != ""
  {
    if entries == [] then Empty()
    else
      var e := entries[|entries| - 1];
      var prev := SlugTable(entries[..|entries| - 1], slugify);
      if SlugOf(e, slugify).Some? then prev.Set(SlugOf(e, slugify).value, e.commonName.value) else prev
  }

  class CountrySlugService {
    var slugToNameMap: Option<OrderedMap<string>>
    var slugList: Option<seq<string>>

    constructor ()
      ensures slugToNameMap.None? && slugList.None?
    {
      slugToNameMap := None;
      slugList := None;
    }

    /** clearCache: back to "not loaded". */
    method ClearCache()
      modifies this
      ensures slugToNameMap.None? && slugList.None?
    {
      slugToNameMap := None;
      slugList := None;
    }

    /** loadCountryEntries: the table of the file's entries and its keys, or an empty
        table and list when reading or parsing fails. */
    method LoadCountryEntries(file: Option<seq<StaticEntry>>, nfd: string -> string)
      modifies this
      ensures file.None? ==> slugToNameMap == Some(Empty()) && slugList == Some([])
      ensures file.Some? ==> slugToNameMap == Some(SlugTable(file.value, Slugify(nfd))) &&
                             slugList == Some(SlugTable(file.value, Slugify(nfd)).keys)
    {
      if file.None? {
        slugToNameMap := Some(Empty());
        slugList := Some([]);
        return;
      }
      var entries := file.value;
      var slugToName: OrderedMap<string> := Empty();
      var i := 0;
      while i < |entries|
        invariant 0 <= i <= |entries|
        invariant slugToName == SlugTable(entries[..i], Slugify(nfd))
      {
        var country := entries[i];
        assert entries[..i + 1][..i] == entries[..i];
        if country.commonName.Some? && country.commonName.value != "" {
          var slug := ToCountrySlug(country.commonName, nfd);
          assert slug == Slugify(nfd)(country.commonName);
          if slug != "" {
            slugToName := slugToName.Set(slug, country.commonName.value);
          }
        }
        i := i + 1;
      }
      assert entries[..i] == entries;
      slugToNameMap := Some(slugToName);
      slugList := Some(slugToName.keys);
    }

    /** ensureLoaded: loads unless both fields are set. */
    method EnsureLoaded(file: Option<seq<StaticEntry>>, nfd: string -> string)
      modifies this
      ensures old(slugToNameMap).Some? && old(slugList).Some? ==>
                slugToNameMap == old(slugToNameMap) && slugList == old(slugList)
      ensures !(old(slugToNameMap).Some? && old(slugList).Some?) && file.None? ==>
                slugToNameMap == Some(Empty()) && slugList == Some([])
      ensures !(old(slugToNameMap).Some? && old(slugList).Some?) && file.Some? ==>
                slugToNameMap == Some(SlugTable(file.value, Slugify(nfd))) && slugList == Some(SlugTable(file.value, Slugify(nfd)).keys)
    {
      if slugToNameMap.Some? && slugList.Some? {
        return;
      }
      LoadCountryEntries(file, nfd);
    }

    /** getAllCountrySlugs: the slug list once loaded. */
    method GetAllCountrySlugs(file: Option<seq<StaticEntry>>, nfd: string -> string) returns (slugs: seq<string>)
      modifies this
      ensures slugList.Some? && slugs == slugList.value
      ensures old(slugToNameMap).Some? && old(slugList).Some? ==>
                slugToNameMap == old(slugToNameMap) && slugList == old(slugList) && slugs == old(slugList).value
      ensures old(slugToNameMap).None? && file.Some? ==> slugs == SlugTable(file.value, Slugify(nfd)).keys
      ensures old(slugToNameMap).None? && file.None? ==> slugs == []
    {
      EnsureLoaded(file, nfd);
      slugs := slugList.value;
    }

    /** getCountryNameBySlug: nothing for an empty slug, without loading; otherwise
        the stored name, or nothing for an unknown slug. */
    method GetCountryNameBySlug(slug: string, file: Option<seq<StaticEntry>>, nfd: string -> string)
      returns (name: Option<string>)
      modifies this
      ensures slug == "" ==> name.None? && slugToNameMap == old(slugToNameMap) && slugList == old(slugList)
      ensures slug != "" ==> slugToNameMap.Some? && name == slugToNameMap.value.Get(slug)
      ensures old(slugToNameMap).Some? && old(slugList).Some? ==>
                slugToNameMap == old(slugToNameMap) && slugList == old(slugList) &&
                (slug != "" ==> name == old(slugToNameMap).value.Get(slug))
      ensures slug != "" && old(slugToNameMap).None? && file.Some? ==> name == SlugTable(file.value, Slugify(nfd)).Get(slug)
      ensures slug != "" && old(slugToNameMap).None? && file.None? ==> name.None?
    {
      if slug == "" {
        return None;
      }
      EnsureLoaded(file, nfd);
      name := slugToNameMap.value.Get(slug);
    }
  }

  // ----- Properties of the table -----

  /** The table is a well-formed map: its slug list has no repeats and lists exactly
      its slugs. Every stored name slugs to its key, and no key is empty. */
  lemma {:induction false} SlugTableSpec(entries: seq<StaticEntry>, slugify: Option<string> -> string)
    ensures SlugTable(entries, slugify).Valid()
    ensures forall s :: s in SlugTable(entries, slugify).entries ==>
              s != "" && slugify(Some(SlugTable(entries, slugify).entries[s])) == s
  {
    if entries != [] {
      SlugTableSpec(entries[..|entries| - 1], slugify);
    }
  }

  /** A slug is stored exactly when some entry has it, and it holds the name of the
      last such entry. */
  lemma {:induction false} SlugTableKeys(entries: seq<StaticEntry>, slugify: Option<string> -> string, slug: string)
    ensures slug in SlugTable(entries, slugify).entries <==> exists i :: 0 <= i < |entries| && SlugOf(entries[i], slugify) == Some(slug)
  {
    if entries != [] {
      var n := |entries| - 1;
      var p := entries[..n];
      var last := SlugOf(entries[n], slugify);
      SlugTableKeys(p, slugify, slug);
      assert SlugTable(entries, slugify).entries ==
        if last.Some? then SlugTable(p, slugify).entries[last.value := entries[n].commonName.value]
        else SlugTable(p, slugify).entries;
      if last != Some(slug) && exists i :: 0 <= i < |entries| && SlugOf(entries[i], slugify) == Some(slug) {
        var i :| 0 <= i < |entries| && SlugOf(entries[i], slugify) == Some(slug);
        assert p[i] == entries[i];
      }
    }
  }

  /** When two names share a slug, the later entry's name wins. */
  lemma {:induction false} SlugTableLast(entries: seq<StaticEntry>, slugify: Option<string> -> string, i: nat)
    requires i < |entries| && SlugOf(entries[i], slugify).Some?
    requires forall j :: i < j < |entries| ==> SlugOf(entries[j], slugify) != SlugOf(entries[i], slugify)
    ensures SlugOf(entries[i], slugify).value in SlugTable(entries, slugify).entries
    ensures SlugTable(entries, slugify).entries[SlugOf(entries[i], slugify).value] == entries[i].commonName.value
  {
    var n := |entries| - 1;
    if i < n {
      assert entries[..n][i] == entries[i];
      forall j | i < j < n ensures SlugOf(entries[..n][j], slugify) != SlugOf(entries[..n][i], slugify) {
        assert entries[..n][j] == entries[j];
      }
      SlugTableLast(entries[..n], slugify, i);
    }
  }

  /** The slugs of the entries that are stored, in entry order, repeats included. */
  function StoredSlugs(entries: seq<StaticEntry>, slugify: Option<string> -> string): seq<string> {
    if entries == [] then []
    else
      var e := entries[|entries| - 1];
      StoredSlugs(entries[..|entries| - 1], slugify) + (if SlugOf(e, slugify).Some? then [SlugOf(e, slugify).value] else [])
  }

  /** The slug list is the slugs in order of first insertion. */
  lemma {:induction false} SlugListOrder(entries: seq<StaticEntry>, slugify: Option<string> -> string)
    ensures SlugTable(entries, slugify).keys == Distinct(StoredSlugs(entries, slugify))
  {
    if entries != [] {
      var n := |entries| - 1;
      SlugListOrder(entries[..n], slugify);
      SlugTableSpec(entries[..n], slugify);
      var last := SlugOf(entries[n], slugify);
      assert StoredSlugs(entries, slugify) == StoredSlugs(entries[..n], slugify) + (if last.Some? then [last.value] else []);
      if last.Some? {
        assert SlugTable(entries, slugify) == SlugTable(entries[..n], slugify).Set(last.value, entries[n].commonName.value);
        SetKeysDistinct(SlugTable(entries[..n], slugify), StoredSlugs(entries[..n], slugify),
                        last.value, entries[n].commonName.value);
      } else {
        assert SlugTable(entries, slugify) == SlugTable(entries[..n], slugify);
        assert StoredSlugs(entries, slugify) == StoredSlugs(entries[..n], slugify);
      }
    }
  }
}
