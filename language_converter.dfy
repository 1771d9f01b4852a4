/** convert_languages_in_file (Python_Helpers/1.convert_languages/language_converter.py):
    every country's `languages` dict becomes a list of language records.

    The list loaded from the input file is an array whose entries the loop replaces;
    reading and writing the files is not part of this model. An exception stops the
    loop, and then nothing is written. */
module LanguageConverter {
  import opened Wrappers
  import opened OrderedMaps
  import opened Json
  import StringHelperModel

  const LanguagesKey: string := "languages"

  /** `{"language": value, "percentage": None, "notes": None}`. */
  function LanguageRecord(value: Json): (r: Json)
    ensures r.Obj? && r.fields.Valid()
    ensures r.fields.keys == ["language", "percentage", "notes"]
    ensures r.fields.entries == map["language" := value, "percentage" := Null, "notes" := Null]
  {
    Obj(OrderedMap(map["language" := value, "percentage" := Null, "notes" := Null], ["language", "percentage", "notes"]))
  }

  /** `needle` occurs in `s`. */
  predicate Contains(s: string, needle: string) {
    exists k :: 0 <= k <= |s| && StringHelperModel.OccursAt(s, needle, k)
  }

  /** What `json.load` guarantees of a country and of its `languages` value: a dict's
      key list names each of its keys once. */
  ghost predicate Loaded(country: Json) {
    country.Obj? ==>
      country.fields.Valid() &&
      (LanguagesKey in country.fields.entries && country.fields.entries[LanguagesKey].Obj? ==>
         country.fields.entries[LanguagesKey].fields.Valid())
  }

  /** One iteration of the loop on `country`: the new value, or the exception it raises.
      `'languages' in country` tests the keys of a dict, the items of a list and the
      substrings of a string, and fails on other values; `country['languages']` then
      needs a dict, and `.values()` needs its value to be a dict. */
  function ConvertCountry(country: Json): (r: Result<Json>)
    requires Loaded(country)
    ensures country.Obj? && LanguagesKey !in country.fields.entries ==> r == Ok(country)
    ensures r.Ok? && !country.Obj? ==> r.value == country
    ensures r.Ok? && country.Obj? ==> r.value.Obj? && r.value.fields.keys == country.fields.keys
  {
    match country
    case Obj(fields) =>
      if LanguagesKey !in fields.entries then Ok(country)
      else
        var languages := fields.entries[LanguagesKey];
        if languages.Obj? then
          var values := Values(languages.fields);
          var records := seq(|values|, i requires 0 <= i < |values| => LanguageRecord(values[i]));
          Ok(Obj(fields.Set(LanguagesKey, Arr(records))))
        else Err("AttributeError: 'languages' has no values()")
    case Arr(items) =>
      if Str(LanguagesKey) in items then Err("TypeError: list indices must be integers") else Ok(country)
    case Str(s) =>
      if Contains(s, LanguagesKey) then Err("TypeError: string indices must be integers") else Ok(country)
    case _ => Err("TypeError: argument is not iterable")
  }

  /** The `for country in data` loop, in place. On success every entry is converted;
      on an exception at entry `k`, the entries before it are converted and the rest
      are as they were. */
  method ConvertLanguages(data: array<Json>) returns (ok: bool, ghost failedAt: nat)
    requires forall i :: 0 <= i < data.Length ==> Loaded(data[i])
    modifies data
    ensures ok ==> forall i :: 0 <= i < data.Length ==>
              ConvertCountry(old(data[i])).Ok? && data[i] == ConvertCountry(old(data[i])).value
    ensures !ok ==> failedAt < data.Length && ConvertCountry(old(data[failedAt])).Err?
    ensures !ok ==> forall i :: 0 <= i < failedAt ==>
              ConvertCountry(old(data[i])).Ok? && data[i] == ConvertCountry(old(data[i])).value
    ensures !ok ==> forall i :: failedAt <= i < data.Length ==> data[i] == old(data[i])
  {
    failedAt := 0;
    var i := 0;
    while i < data.Length
      invariant 0 <= i <= data.Length
      invariant forall k :: 0 <= k < data.Length ==> Loaded(old(data[k]))
      invariant forall k :: 0 <= k < i ==> ConvertCountry(old(data[k])).Ok? && data[k] == ConvertCountry(old(data[k])).value
      invariant forall k :: i <= k < data.Length ==> data[k] == old(data[k])
    {
      var converted := ConvertCountry(data[i]);
      if converted.Err? {
        failedAt := i;
        return false, failedAt;
      }
      data[i] := converted.value;
      i := i + 1;
    }
    return true, failedAt;
  }

  // ----- Properties -----

  /** A dict without `languages` is left as it is. A dict with a `languages` dict gets,
      in the same place, a list with one record per language value, in dict order,
      and keeps every other key, its value and the key order. */
  lemma ConvertCountrySpec(fields: OrderedMap<Json>)
    requires fields.Valid()
    ensures LanguagesKey !in fields.entries ==> ConvertCountry(Obj(fields)) == Ok(Obj(fields))
    ensures LanguagesKey in fields.entries && fields.entries[LanguagesKey].Obj? &&
            fields.entries[LanguagesKey].fields.Valid() ==>
              var languages := fields.entries[LanguagesKey].fields;
              var r := ConvertCountry(Obj(fields));
              r.Ok? && r.value.Obj? && r.value.fields.keys == fields.keys &&
              (forall k :: k in fields.entries && k != LanguagesKey ==>
                 k in r.value.fields.entries && r.value.fields.entries[k] == fields.entries[k]) &&
              r.value.fields.entries[LanguagesKey].Arr? &&
              |r.value.fields.entries[LanguagesKey].items| == |languages.keys| &&
              forall i :: 0 <= i < |languages.keys| ==>
                r.value.fields.entries[LanguagesKey].items[i] == LanguageRecord(languages.entries[languages.keys[i]])
  {
  }

  /** Converting a converted country changes nothing more only when it has no
      `languages`: a converted `languages` is a list, and a second run fails on it. */
  lemma SecondRunFails(fields: OrderedMap<Json>)
    requires fields.Valid() && LanguagesKey in fields.entries
    requires fields.entries[LanguagesKey].Obj? && fields.entries[LanguagesKey].fields.Valid()
    ensures ConvertCountry(ConvertCountry(Obj(fields)).value).Err?
  {
  }
}
