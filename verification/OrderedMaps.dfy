/** A map that remembers insertion order, as `tsl::ordered_map` does. */
module OrderedMaps {

  datatype OrderedMap<K, V> = OrderedMap(keys: seq<K>, at: map<K, V>) {

    /** The key order lists exactly the keys of the map. */
    ghost predicate Valid() {
      && (forall i | 0 <= i < |keys| :: keys[i] in at)
      && (forall k | k in at :: k in keys)
    }

    /** `m[k] = v`: overwrites in place, or appends a new key. */
    function Put(k: K, v: V): (r: OrderedMap<K, V>)
      ensures Valid() ==> r.Valid()
    {
      OrderedMap(if k in at then keys else keys + [k], at[k := v])
    }

    /** `m.insert({k, v})`: keeps an entry that is already there. */
    function Insert(k: K, v: V): (r: OrderedMap<K, V>)
      ensures Valid() ==> r.Valid()
    {
      if k in at then this else OrderedMap(keys + [k], at[k := v])
    }
  }

  function Empty<K, V>(): (r: OrderedMap<K, V>)
    ensures r.Valid()
  {
    OrderedMap([], map[])
  }
}
