/** JSON values as Python's `json.load` returns them: objects become dicts, which keep
    their keys in insertion order and keep a key's place when it is reassigned. */
module Json {
  import opened Wrappers
  import opened OrderedMaps

  datatype Json =
    | Null
    | Bool(b: bool)
    | Num(n: real)
    | Str(s: string)
    | Arr(items: seq<Json>)
    | Obj(fields: OrderedMap<Json>)

  /** `obj[key]` on a dict: the value, or a KeyError. */
  function Field(obj: OrderedMap<Json>, key: string): (r: Result<Json>)
    ensures r.Ok? <==> key in obj.entries
    ensures r.Ok? ==> r.value == obj.entries[key]
  {
    if key in obj.entries then Ok(obj.entries[key]) else Err("KeyError: " + key)
  }

  /** `obj.get(key, default)`. */
  function GetOr(obj: OrderedMap<Json>, key: string, default: Json): (r: Json)
    ensures key in obj.entries ==> r == obj.entries[key]
    ensures key !in obj.entries ==> r == default
  {
    if key in obj.entries then obj.entries[key] else default
  }

  /** `value[key]` on any value: only a dict can be subscripted by a string here. */
  function Subscript(value: Json, key: string): (r: Result<Json>)
    ensures r.Ok? <==> value.Obj? && key in value.fields.entries
    ensures r.Ok? ==> r.value == value.fields.entries[key]
  {
    if value.Obj? then Field(value.fields, key) else Err("TypeError: not subscriptable")
  }

  /** The values of a dict in key order (`d.values()`). */
  function Values(obj: OrderedMap<Json>): (r: seq<Json>)
    requires obj.Valid()
    ensures |r| == |obj.keys|
    ensures forall i :: 0 <= i < |r| ==> r[i] == obj.entries[obj.keys[i]]
  {
    seq(|obj.keys|, i requires 0 <= i < |obj.keys| => obj.entries[obj.keys[i]])
  }
}
