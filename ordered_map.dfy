/** A JavaScript `Map` with string keys: a finite map plus the keys in insertion order,
    which `Map.keys()`, `Map.entries()` and `forEach` expose. */
module OrderedMaps {
  import opened Wrappers
  import opened Sequences

  datatype OrderedMap<V> = OrderedMap(entries: map<string, V>, keys: seq<string>) {

    /** Every key is listed once, and exactly the mapped keys are listed. */
    ghost predicate Valid() {
      NoDuplicates(keys) && forall k :: k in entries <==> k in keys
    }

    /** `map.get(k)`. */
    function Get(k: string): (r: Option<V>)
      ensures r.Some? <==> k in entries
      ensures r.Some? ==> r.value == entries[k]
    {
      if k in entries then Some(entries[k]) else None
    }

    /** `map.set(k, v)`: a new key goes to the end, an existing key keeps its place. */
    function Set(k: string, v: V): (r: OrderedMap<V>)
      ensures r.entries == entries[k := v]
      ensures Valid() ==> r.Valid()
      ensures Valid() ==> r.keys == if k in keys then keys else keys + [k]
    {
      OrderedMap(entries[k := v], if k in entries then keys else keys + [k])
    }

    /** `Array.from(map.entries())`: the pairs in insertion order. */
    function Entries(): (r: seq<(string, V)>)
      requires Valid()
      ensures |r| == |keys|
      ensures forall i :: 0 <= i < |r| ==> r[i].0 == keys[i] && r[i].0 in entries && r[i].1 == entries[keys[i]]
    {
      seq(|keys|, i requires 0 <= i < |keys| => (keys[i], entries[keys[i]]))
    }
  }

  function Empty<V>(): (r: OrderedMap<V>)
    ensures r.Valid() && r.entries == map[] && r.keys == []
  {
    OrderedMap(map[], [])
  }

  /** After inserting keys in some order, the key list is their first-occurrence order. */
  lemma SetKeysDistinct<V>(m: OrderedMap<V>, ks: seq<string>, k: string, v: V)
    requires m.Valid() && m.keys == Distinct(ks)
    ensures m.Set(k, v).keys == Distinct(ks + [k])
  {
    DistinctSnoc(ks, k);
  }

  /** Setting a key twice is setting it once, to the second value. */
  lemma SetTwice<V>(m: OrderedMap<V>, k: string, a: V, b: V)
    ensures m.Set(k, a).Set(k, b) == m.Set(k, b)
  {
    assert m.entries[k := a][k := b] == m.entries[k := b];
  }

  /** Setting two different keys: new keys are appended in the order they were set. */
  lemma SetPair<V>(m: OrderedMap<V>, k1: string, v1: V, k2: string, v2: V)
    requires m.Valid() && k1 != k2
    ensures m.Set(k1, v1).Set(k2, v2).Valid()
    ensures m.Set(k1, v1).Set(k2, v2).entries == m.entries[k1 := v1][k2 := v2]
    ensures m.Set(k1, v1).Set(k2, v2).keys ==
              m.keys + (if k1 in m.keys then [] else [k1]) + (if k2 in m.keys then [] else [k2])
  {
    var once := m.Set(k1, v1);
    assert k2 in once.keys <==> k2 in m.keys;
  }

  /** The keys of a list of entries, in list order. */
  function KeysOf<V>(es: seq<(string, V)>): (r: seq<string>)
    ensures |r| == |es| && forall i :: 0 <= i < |es| ==> r[i] == es[i].0
  {
    seq(|es|, i requires 0 <= i < |es| => es[i].0)
  }

  /** `new Map(entries)`: every pair is `set` in list order. */
  function FromEntries<V>(es: seq<(string, V)>): OrderedMap<V> {
    if es == [] then Empty()
    else FromEntries(es[..|es| - 1]).Set(es[|es| - 1].0, es[|es| - 1].1)
  }

  /** `new Map(entries)` keeps each key once, at its first position. */
  lemma {:induction false} FromEntriesKeys<V>(es: seq<(string, V)>)
    ensures FromEntries(es).Valid()
    ensures FromEntries(es).keys == Distinct(KeysOf(es))
  {
    if es != [] {
      var p := es[..|es| - 1];
      FromEntriesKeys(p);
      assert KeysOf(es) == KeysOf(p) + [es[|es| - 1].0];
      SetKeysDistinct(FromEntries(p), KeysOf(p), es[|es| - 1].0, es[|es| - 1].1);
    }
  }

  /** A key is mapped exactly when some pair carries it, and it holds the value of its
      last pair. */
  lemma {:induction false} FromEntriesValues<V>(es: seq<(string, V)>)
    ensures forall k :: k in FromEntries(es).entries <==> k in KeysOf(es)
    ensures forall i :: 0 <= i < |es| && (forall j :: i < j < |es| ==> es[j].0 != es[i].0) ==>
              FromEntries(es).entries[es[i].0] == es[i].1
  {
    if es != [] {
      var p := es[..|es| - 1];
      FromEntriesValues(p);
      assert KeysOf(es) == KeysOf(p) + [es[|es| - 1].0];
      forall i | 0 <= i < |es| && (forall j :: i < j < |es| ==> es[j].0 != es[i].0)
        ensures FromEntries(es).entries[es[i].0] == es[i].1
      {
        if i < |p| {
          assert forall j :: i < j < |p| ==> p[j].0 != p[i].0;
        }
      }
    }
  }

  /** `new Map(Array.from(m.entries()))` rebuilds `m`: serialising a map and reading it
      back gives the same keys, in the same order, with the same values. */
  lemma EntriesRoundTrip<V>(m: OrderedMap<V>)
    requires m.Valid()
    ensures FromEntries(m.Entries()) == m
  {
    var es := m.Entries();
    FromEntriesKeys(es);
    assert KeysOf(es) == m.keys;
    DistinctOfNoDuplicates(m.keys);
    EntriesValuesKept(m);
  }

  /** The values half of EntriesRoundTrip. */
  lemma EntriesValuesKept<V>(m: OrderedMap<V>)
    requires m.Valid()
    ensures FromEntries(m.Entries()).entries == m.entries
  {
    var es := m.Entries();
    FromEntriesValues(es);
    assert KeysOf(es) == m.keys;
    forall k | k in m.entries
      ensures FromEntries(es).entries[k] == m.entries[k]
    {
      var i :| 0 <= i < |m.keys| && m.keys[i] == k;
      assert forall j :: i < j < |es| ==> es[j].0 != es[i].0;
    }
  }
}
