/** A JavaScript `Map`: a finite map that remembers the order in which its keys
    were first inserted. `set` on a present key replaces the value in place. */
module OrderedMaps {
  import opened Wrappers

  datatype OMap<K(==,!new), V> = OMap(keys: seq<K>, entries: map<K, V>) {

    /** Keys are listed once each, and exactly the keys of `entries` are listed. */
    ghost predicate Valid() {
      && (forall i, j :: 0 <= i < j < |keys| ==> keys[i] != keys[j])
      && (forall k :: k in entries <==> k in keys)
    }

    predicate Has(k: K) {
      k in entries
    }

    function Get(k: K): (r: Option<V>)
      ensures r.Some? <==> k in entries
      ensures r.Some? ==> r.value == entries[k]
    {
      if k in entries then Some(entries[k]) else None
    }

    function Size(): nat {
      |keys|
    }

    /** `Map.prototype.set`: a new key goes to the end, a present key keeps its place. */
    function Set(k: K, v: V): (m: OMap<K, V>)
      ensures Valid() ==> m.Valid()
      ensures m.entries == entries[k := v]
      ensures k in entries ==> m.keys == keys
      ensures k !in entries ==> m.keys == keys + [k]
    {
      if k in entries then OMap(keys, entries[k := v]) else OMap(keys + [k], entries[k := v])
    }

    /** The values in insertion order (`[...m.values()]`). */
    function Values(): (vs: seq<V>)
      requires Valid()
      ensures |vs| == |keys|
      ensures forall i :: 0 <= i < |keys| ==> vs[i] == entries[keys[i]]
    {
      seq(|keys|, i requires 0 <= i < |keys| => entries[keys[i]])
    }

    /** The value stored under the i-th key in insertion order. */
    function ValueAt(i: nat): V
      requires Valid() && i < |keys|
    {
      entries[keys[i]]
    }
  }

  function Empty<K(==,!new), V>(): (m: OMap<K, V>)
    ensures m.Valid() && m.keys == [] && m.entries == map[]
  {
    OMap([], map[])
  }
}
