/** The languages endpoint (src/routes/api/languages/+server.ts): GET lists the
    language keys; POST picks the requested languages out of the language map. The
    map is given as loaded; reading it from the static file, the request and the
    response bodies are not part of this model. */
module LanguagesApi {
  import opened Sequences
  import opened Ascii
  import opened OrderedMaps
  import opened LanguageModel
  import opened CountryModel
  import opened CountrySorting
  import opened Aggregation

  /** Every requested name, lower-cased. */
  function LowerAll(names: seq<string>): (r: seq<string>)
    ensures |r| == |names| && forall i :: 0 <= i < |names| ==> r[i] == Lower(names[i])
  {
    seq(|names|, i requires 0 <= i < |names| => Lower(names[i]))
  }

  /** The languages stored under `keys`, in key order, skipping unknown keys. */
  function Stored(keys: seq<string>, languageMap: map<string, Language>): (r: seq<Language>)
    ensures |r| <= |keys|
  {
    if keys == [] then []
    else
      var k := keys[|keys| - 1];
      Stored(keys[..|keys| - 1], languageMap) + (if k in languageMap then [languageMap[k]] else [])
  }

  /** The keys of `keys` that the map holds, in order. */
  function Known(keys: seq<string>, languageMap: map<string, Language>): (r: seq<string>)
    ensures |r| <= |keys|
  {
    if keys == [] then []
    else
      var k := keys[|keys| - 1];
      Known(keys[..|keys| - 1], languageMap) + (if k in languageMap then [k] else [])
  }

  /** What POST answers: the stored language of each lower-cased name, looked up once,
      in order of first request. */
  function Selection(names: seq<string>, languageMap: map<string, Language>): (r: seq<Language>)
    ensures |r| <= |names|
  {
    DistinctProperties(LowerAll(names));
    Stored(Distinct(LowerAll(names)), languageMap)
  }

  /** The selection loop of POST. `languageSet` holds the names already looked up. */
  method SelectLanguages(languageNames: seq<string>, languageMap: OrderedMap<Language>)
    returns (languages: seq<Language>)
    ensures languages == Selection(languageNames, languageMap.entries)
  {
    languages := [];
    var languageSet: set<string> := {};
    var i := 0;
    while i < |languageNames|
      invariant 0 <= i <= |languageNames|
      invariant languageSet == set x | x in LowerAll(languageNames[..i])
      invariant languages == Selection(languageNames[..i], languageMap.entries)
    {
      var name := Lower(languageNames[i]);
      ghost var seen := LowerAll(languageNames[..i]);
      assert LowerAll(languageNames[..i + 1]) == seen + [name];
      DistinctSnoc(seen, name);
      DistinctProperties(seen);
      if name !in languageSet {
        languageSet := languageSet + {name};
        var language := languageMap.Get(name);
        if language.Some? {
          languages := languages + [language.value];
        }
      }
      i := i + 1;
    }
    assert languageNames[..i] == languageNames;
  }

  /** The counts of the analytics log entry. The session id and the timestamp are not
      part of this model. */
  datatype LogEntry = LogEntry(
    numberOfOriginalLanguages: nat,
    originalLanguages: seq<string>,
    numberOfValidLanguages: nat,
    validLanguages: seq<string>)

  function MakeLogEntry(languageNames: seq<string>, languages: seq<Language>): (e: LogEntry)
    ensures e.numberOfOriginalLanguages == |e.originalLanguages| == |languageNames|
    ensures e.numberOfValidLanguages == |e.validLanguages| == |languages|
    ensures forall i :: 0 <= i < |languages| ==> e.validLanguages[i] == Lower(languages[i].name)
  {
    LogEntry(|languageNames|, languageNames, |languages|,
             seq(|languages|, i requires 0 <= i < |languages| => Lower(languages[i].name)))
  }

  /** GET: `Array.from(languageMap.keys())`, the keys in stored order. */
  function LanguageKeys(languageMap: OrderedMap<Language>): (keys: seq<string>)
    requires languageMap.Valid()
    ensures keys == languageMap.keys
    ensures NoDuplicates(keys)
    ensures forall k :: k in keys <==> k in languageMap.entries
  {
    languageMap.keys
  }

  /** On the map the loader builds (the language index with sorted lists), GET lists
      the lower-cased language names once each, in order of first appearance among
      the records. */
  lemma LanguageKeysOfIndex(data: seq<CountryData>, objs: seq<Country>, leq: (string, string) -> bool)
    requires |objs| == |data| && TotalPreorder(leq)
    ensures SortLanguages(LanguageIndex(data, objs), leq).Valid()
    ensures LanguageKeys(SortLanguages(LanguageIndex(data, objs), leq)) == Distinct(AllLoweredNames(data))
  {
    LanguageIndexKeys(data, objs);
    SortLanguagesSpec(LanguageIndex(data, objs), leq);
  }

  // ----- Properties -----

  /** The selection holds, in order, the stored language of each known key among the
      lower-cased names taken once each. */
  lemma {:induction false} StoredIsKnown(keys: seq<string>, languageMap: map<string, Language>)
    ensures |Stored(keys, languageMap)| == |Known(keys, languageMap)|
    ensures forall i :: 0 <= i < |Known(keys, languageMap)| ==>
              Known(keys, languageMap)[i] in languageMap &&
              Stored(keys, languageMap)[i] == languageMap[Known(keys, languageMap)[i]]
    ensures forall k :: k in Known(keys, languageMap) <==> k in keys && k in languageMap
  {
    if keys != [] {
      StoredIsKnown(keys[..|keys| - 1], languageMap);
      assert keys == keys[..|keys| - 1] + [keys[|keys| - 1]];
    }
  }

  /** Filtering keeps a sequence free of repeats. */
  lemma {:induction false} KnownNoDuplicates(keys: seq<string>, languageMap: map<string, Language>)
    requires NoDuplicates(keys)
    ensures NoDuplicates(Known(keys, languageMap))
  {
    if keys != [] {
      var p := keys[..|keys| - 1];
      assert NoDuplicates(p);
      KnownNoDuplicates(p, languageMap);
      StoredIsKnown(p, languageMap);
      assert keys[|keys| - 1] !in p;
    }
  }

  /** The answer of POST: each entry is the stored language of a requested name
      (lower-cased); no key is answered twice; every requested name the map knows is
      answered; unknown names are dropped; there are never more answers than names. */
  lemma SelectionSpec(names: seq<string>, languageMap: map<string, Language>)
    ensures |Selection(names, languageMap)| <= |names|
    ensures |Selection(names, languageMap)| == |Known(Distinct(LowerAll(names)), languageMap)|
    ensures NoDuplicates(Known(Distinct(LowerAll(names)), languageMap))
    ensures forall i :: 0 <= i < |Selection(names, languageMap)| ==>
              var k := Known(Distinct(LowerAll(names)), languageMap)[i];
              k in languageMap && Selection(names, languageMap)[i] == languageMap[k] &&
              exists j :: 0 <= j < |names| && Lower(names[j]) == k
    ensures forall j :: 0 <= j < |names| && Lower(names[j]) in languageMap ==>
              Lower(names[j]) in Known(Distinct(LowerAll(names)), languageMap)
  {
    var d := Distinct(LowerAll(names));
    DistinctProperties(LowerAll(names));
    StoredIsKnown(d, languageMap);
    KnownNoDuplicates(d, languageMap);
    forall i | 0 <= i < |Selection(names, languageMap)|
      ensures exists j :: 0 <= j < |names| && Lower(names[j]) == Known(d, languageMap)[i]
    {
      var k := Known(d, languageMap)[i];
      assert k in LowerAll(names);
      var j :| 0 <= j < |names| && LowerAll(names)[j] == k;
    }
    forall j | 0 <= j < |names| && Lower(names[j]) in languageMap
      ensures Lower(names[j]) in Known(d, languageMap)
    {
      assert LowerAll(names)[j] == Lower(names[j]);
    }
  }

  /** The casing of a request does not matter: names that agree after lower-casing
      select the same languages. */
  lemma SelectionIgnoresCase(a: seq<string>, b: seq<string>, languageMap: map<string, Language>)
    requires |a| == |b| && forall i :: 0 <= i < |a| ==> Lower(a[i]) == Lower(b[i])
    ensures Selection(a, languageMap) == Selection(b, languageMap)
  {
    assert LowerAll(a) == LowerAll(b);
  }

  /** A repeated name, in any casing, adds nothing to the answer. */
  lemma RepeatIgnored(names: seq<string>, name: string, languageMap: map<string, Language>)
    requires exists j :: 0 <= j < |names| && Lower(names[j]) == Lower(name)
    ensures Selection(names + [name], languageMap) == Selection(names, languageMap)
  {
    assert LowerAll(names + [name]) == LowerAll(names) + [Lower(name)];
    DistinctSnoc(LowerAll(names), Lower(name));
    DistinctProperties(LowerAll(names));
    var j :| 0 <= j < |names| && Lower(names[j]) == Lower(name);
    assert LowerAll(names)[j] == Lower(name);
  }
}
