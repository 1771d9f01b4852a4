/** merge_json_files and is_valid_flag_emoji
    (Python_Helpers/2.flag_and_codes/merge_flags_and_codes.py): copy each
    country's `cca2` code and `flag` emoji from a second list, matched by common name.

    The first list is an array whose dicts the loop updates; the second is a sequence.
    Reading and writing the files and the progress messages are not part of this model.
    An exception stops the run, and then nothing is written. */
module MergeFlagsAndCodes {
  import opened Wrappers
  import opened OrderedMaps
  import opened Json

  // ----- is_valid_flag_emoji -----

  /** A regional indicator symbol, U+1F1E6 to U+1F1FF. */
  predicate IsRegionalIndicator(c: char) {
    '\U{1F1E6}' <= c <= '\U{1F1FF}'
  }

  /** The pattern `[\U0001F1E6-\U0001F1FF]{n}` matches at the start of `s`. */
  function MatchIndicators(s: string, n: nat): bool
    decreases n
  {
    if n == 0 then true
    else |s| > 0 && IsRegionalIndicator(s[0]) && MatchIndicators(s[1..], n - 1)
  }

  /** `re.match` of two regional indicators: only the first two characters count. */
  function IsValidFlagEmoji(flag: string): (r: bool)
    ensures r <==> |flag| >= 2 && IsRegionalIndicator(flag[0]) && IsRegionalIndicator(flag[1])
  {
    assert MatchIndicators(flag, 2) == (|flag| > 0 && IsRegionalIndicator(flag[0]) && MatchIndicators(flag[1..], 1));
    assert |flag| > 0 ==> MatchIndicators(flag[1..], 1) == (|flag| > 1 && IsRegionalIndicator(flag[1]) && MatchIndicators(flag[2..], 0));
    MatchIndicators(flag, 2)
  }

  /** `re.match` is anchored at the start only: what follows a valid flag is ignored. */
  lemma FlagIgnoresTail(flag: string, rest: string)
    requires |flag| >= 2
    ensures IsValidFlagEmoji(flag + rest) == IsValidFlagEmoji(flag)
  {
    assert (flag + rest)[0] == flag[0] && (flag + rest)[1] == flag[1];
  }

  /** The placeholder stored for a missing flag never passes the check. */
  lemma PlaceholderFlagInvalid()
    ensures !IsValidFlagEmoji("N/A")
  {
  }

  // ----- Dict keys -----

  /** A value Python can use as a dict key: not a list or a dict. */
  predicate Hashable(j: Json) {
    !j.Arr? && !j.Obj?
  }

  /** The key a hashable value is found under: `True == 1` and `False == 0` in Python,
      and they hash alike, so a boolean and the equal number are the same key. */
  function DictKey(j: Json): (k: Json)
    requires Hashable(j)
    ensures !k.Bool?
    ensures !j.Bool? ==> k == j
    ensures j.Bool? ==> k == Num(if j.b then 1.0 else 0.0)
  {
    match j
    case Bool(b) => Num(if b then 1.0 else 0.0)
    case _ => j
  }

  /** `item['name']['common']`. */
  function CommonName(item: Json): (r: Result<Json>)
    ensures r.Ok? <==> item.Obj? && "name" in item.fields.entries &&
                       item.fields.entries["name"].Obj? && "common" in item.fields.entries["name"].fields.entries
    ensures r.Ok? ==> r.value == item.fields.entries["name"].fields.entries["common"]
  {
    var name := Subscript(item, "name");
    if name.Err? then Err(name.error) else Subscript(name.value, "common")
  }

  /** Every item of the index is a dict with a `name`, hence never falsy. */
  ghost predicate IndexWellFormed(index: map<Json, Json>) {
    forall k :: k in index ==> index[k].Obj? && "name" in index[k].fields.entries
  }

  /** `{item['name']['common']: item for item in data_b}`: the last item with a name
      wins; the first item without one raises. */
  function IndexByName(dataB: seq<Json>): (r: Result<map<Json, Json>>)
    ensures r.Ok? ==> IndexWellFormed(r.value)
  {
    if dataB == [] then Ok(map[])
    else
      var prev := IndexByName(dataB[..|dataB| - 1]);
      var item := dataB[|dataB| - 1];
      var name := CommonName(item);
      if prev.Err? then prev
      else if name.Err? then Err(name.error)
      else if !Hashable(name.value) then Err("TypeError: unhashable type")
      else Ok(prev.value[DictKey(name.value) := item])
  }

  // ----- One iteration of the merge loop -----

  /** The item after the loop body has run on it, and the exception raised if any.
      The exception from the flag check comes after both assignments. */
  datatype Step = Step(item: Json, error: Option<string>)

  function MergeItem(itemA: Json, index: map<Json, Json>): (r: Step)
    requires IndexWellFormed(index)
    ensures CommonName(itemA).Err? ==> r.item == itemA && r.error.Some?
    ensures r.item != itemA ==>
              itemA.Obj? && r.item.Obj? && r.item.fields.entries.Keys == itemA.fields.entries.Keys + {"cca2", "flag"}
  {
    var name := CommonName(itemA);
    if name.Err? then Step(itemA, Some(name.error))
    else if !Hashable(name.value) then Step(itemA, Some("TypeError: unhashable type"))
    else if DictKey(name.value) !in index then Step(itemA, None)
    else
      var found := index[DictKey(name.value)].fields;
      var cca2 := GetOr(found, "cca2", Str("N/A"));
      var flag := GetOr(found, "flag", Str("N/A"));
      var updated := Obj(itemA.fields.Set("cca2", cca2).Set("flag", flag));
      Step(updated, if flag.Str? then None else Some("TypeError: expected string or bytes-like object"))
  }

  /** merge_json_files without the file handling: `ok` when the merged list would be
      written. When building the index raises, the list is untouched; when the loop
      raises at `failedAt`, the items before it are merged, that one carries whatever
      the body assigned before raising, and the rest are untouched. */
  method MergeJsonFiles(dataA: array<Json>, dataB: seq<Json>) returns (ok: bool, ghost failedAt: nat)
    modifies dataA
    ensures IndexByName(dataB).Err? ==> !ok && dataA[..] == old(dataA[..])
    ensures IndexByName(dataB).Ok? && ok ==>
              forall i :: 0 <= i < dataA.Length ==>
                MergeItem(old(dataA[i]), IndexByName(dataB).value) == Step(dataA[i], None)
    ensures IndexByName(dataB).Ok? && !ok ==>
              failedAt < dataA.Length &&
              MergeItem(old(dataA[failedAt]), IndexByName(dataB).value).error.Some? &&
              dataA[failedAt] == MergeItem(old(dataA[failedAt]), IndexByName(dataB).value).item
    ensures IndexByName(dataB).Ok? && !ok ==>
              forall i :: 0 <= i < failedAt ==>
                MergeItem(old(dataA[i]), IndexByName(dataB).value) == Step(dataA[i], None)
    ensures IndexByName(dataB).Ok? && !ok ==>
              forall i :: failedAt < i < dataA.Length ==> dataA[i] == old(dataA[i])
  {
    failedAt := 0;
    var built := IndexByName(dataB);
    if built.Err? {
      return false, failedAt;
    }
    var index := built.value;
    var i := 0;
    while i < dataA.Length
      invariant 0 <= i <= dataA.Length
      invariant forall k :: 0 <= k < i ==> MergeItem(old(dataA[k]), index) == Step(dataA[k], None)
      invariant forall k :: i <= k < dataA.Length ==> dataA[k] == old(dataA[k])
    {
      var step := MergeItem(dataA[i], index);
      dataA[i] := step.item;
      if step.error.Some? {
        failedAt := i;
        return false, failedAt;
      }
      i := i + 1;
    }
    return true, failedAt;
  }

  // ----- Properties -----

  /** `item` carries a hashable common name whose dictionary key is `key`. */
  predicate NamesKey(item: Json, key: Json) {
    CommonName(item).Ok? && Hashable(CommonName(item).value) && DictKey(CommonName(item).value) == key
  }

  /** A successful index is the index of all but the last item, with the last item
      stored under its name. */
  lemma IndexByNameLast(dataB: seq<Json>)
    requires IndexByName(dataB).Ok? && dataB != []
    ensures IndexByName(dataB[..|dataB| - 1]).Ok?
    ensures NamesKey(dataB[|dataB| - 1], DictKey(CommonName(dataB[|dataB| - 1]).value))
    ensures IndexByName(dataB).value ==
              IndexByName(dataB[..|dataB| - 1]).value[DictKey(CommonName(dataB[|dataB| - 1]).value) := dataB[|dataB| - 1]]
  {
  }

  /** A name is in the index exactly when some item of the second list carries it. */
  lemma {:induction false} IndexKeys(dataB: seq<Json>, key: Json)
    requires IndexByName(dataB).Ok?
    ensures key in IndexByName(dataB).value <==> exists i :: 0 <= i < |dataB| && NamesKey(dataB[i], key)
  {
    if dataB == [] {
      assert IndexByName(dataB).value == map[];
    } else {
      var n := |dataB| - 1;
      var prefix := dataB[..n];
      IndexKeys(prefix, key);
      IndexByNameLast(dataB);
      if NamesKey(dataB[n], key) {
        assert key in IndexByName(dataB).value;
      } else {
        assert key in IndexByName(dataB).value <==> key in IndexByName(prefix).value;
        if key in IndexByName(prefix).value {
          var i :| 0 <= i < n && NamesKey(prefix[i], key);
          assert dataB[i] == prefix[i];
        }
        if exists i :: 0 <= i < |dataB| && NamesKey(dataB[i], key) {
          var i :| 0 <= i < |dataB| && NamesKey(dataB[i], key);
          assert i < n && prefix[i] == dataB[i];
        }
      }
    }
  }

  /** When several items share a name, the last one is the one found. */
  lemma {:induction false} IndexLastWins(dataB: seq<Json>, i: nat)
    requires IndexByName(dataB).Ok? && i < |dataB|
    requires CommonName(dataB[i]).Ok? && Hashable(CommonName(dataB[i]).value)
    requires forall j :: i < j < |dataB| && CommonName(dataB[j]).Ok? && Hashable(CommonName(dataB[j]).value) ==>
               DictKey(CommonName(dataB[j]).value) != DictKey(CommonName(dataB[i]).value)
    ensures DictKey(CommonName(dataB[i]).value) in IndexByName(dataB).value
    ensures IndexByName(dataB).value[DictKey(CommonName(dataB[i]).value)] == dataB[i]
  {
    var n := |dataB| - 1;
    if i < n {
      assert dataB[..n][i] == dataB[i];
      forall j | i < j < n && CommonName(dataB[..n][j]).Ok? && Hashable(CommonName(dataB[..n][j]).value)
        ensures DictKey(CommonName(dataB[..n][j]).value) != DictKey(CommonName(dataB[..n][i]).value)
      {
        assert dataB[..n][j] == dataB[j];
      }
      IndexLastWins(dataB[..n], i);
    }
  }

  /** The index raises exactly when some item of the second list has no usable name. */
  lemma {:induction false} IndexFails(dataB: seq<Json>)
    ensures IndexByName(dataB).Err? <==>
              exists i :: 0 <= i < |dataB| && (CommonName(dataB[i]).Err? || !Hashable(CommonName(dataB[i]).value))
  {
    if dataB != [] {
      var n := |dataB| - 1;
      IndexFails(dataB[..n]);
      if exists i :: 0 <= i < |dataB| && (CommonName(dataB[i]).Err? || !Hashable(CommonName(dataB[i]).value)) {
        var i :| 0 <= i < |dataB| && (CommonName(dataB[i]).Err? || !Hashable(CommonName(dataB[i]).value));
        if i < n {
          assert dataB[..n][i] == dataB[i];
        }
      } else {
        forall i | 0 <= i < n ensures !(CommonName(dataB[..n][i]).Err? || !Hashable(CommonName(dataB[..n][i]).value)) {
          assert dataB[..n][i] == dataB[i];
        }
      }
    }
  }

  /** The loop body writes only `cca2` and `flag`: an unmatched item is unchanged; a
      matched one gets the found item's values, or "N/A" for a missing key, keeps every
      other key and its value, and lists any new key after the old ones, `cca2` first. */
  lemma MergeItemSpec(fields: OrderedMap<Json>, index: map<Json, Json>)
    requires fields.Valid() && IndexWellFormed(index)
    ensures var name := CommonName(Obj(fields));
            name.Ok? && Hashable(name.value) && DictKey(name.value) !in index ==>
              MergeItem(Obj(fields), index) == Step(Obj(fields), None)
    ensures var name := CommonName(Obj(fields));
            name.Ok? && Hashable(name.value) && DictKey(name.value) in index ==>
              var found := index[DictKey(name.value)].fields;
              var r := MergeItem(Obj(fields), index).item;
              r.Obj? && r.fields.Valid() &&
              r.fields.entries == fields.entries["cca2" := GetOr(found, "cca2", Str("N/A"))]["flag" := GetOr(found, "flag", Str("N/A"))] &&
              r.fields.keys == fields.keys + (if "cca2" in fields.keys then [] else ["cca2"])
                                           + (if "flag" in fields.keys then [] else ["flag"])
  {
    var name := CommonName(Obj(fields));
    if name.Ok? && Hashable(name.value) && DictKey(name.value) in index {
      var found := index[DictKey(name.value)].fields;
      SetPair(fields, "cca2", GetOr(found, "cca2", Str("N/A")), "flag", GetOr(found, "flag", Str("N/A")));
    }
  }

  /** A matched item raises only when the found flag is not a string. */
  lemma MergeItemErrors(itemA: Json, index: map<Json, Json>)
    requires IndexWellFormed(index)
    ensures MergeItem(itemA, index).error.Some? <==>
              var name := CommonName(itemA);
              name.Err? || !Hashable(name.value) ||
              (DictKey(name.value) in index && !GetOr(index[DictKey(name.value)].fields, "flag", Str("N/A")).Str?)
  {
  }
}
