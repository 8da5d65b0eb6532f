/**
 * A JavaScript `Map` (or a plain object with string keys): a finite map that remembers
 * the order in which keys were first inserted. Overwriting a key keeps its position.
 */
module OrderedMaps {
  import opened Wrappers
  import opened Seqs

  datatype OrderedMap<K(==,!new), V> = OrderedMap(keys: seq<K>, values: map<K, V>) {

    /** Every key is listed exactly once, and the list names exactly the stored keys. */
    ghost predicate Valid() {
      Distinct(keys) && forall k :: k in values <==> k in keys
    }

    /** `map.get(k)`. */
    function Get(k: K): (r: Option<V>)
      ensures r.Some? <==> k in values
      ensures r.Some? ==> r.value == values[k]
    {
      if k in values then Some(values[k]) else None
    }

    /** `map.set(k, v)`: a new key goes to the end, an existing one keeps its place. */
    function Set(k: K, v: V): (r: OrderedMap<K, V>)
      ensures r.values == values[k := v]
      ensures r.keys == if k in values then keys else keys + [k]
      ensures Valid() ==> r.Valid()
    {
      if k in values then OrderedMap(keys, values[k := v])
      else
        var r := OrderedMap(keys + [k], values[k := v]);
        assert Valid() ==> Distinct(r.keys) by {
          if Valid() {
            forall i, j | 0 <= i < j < |r.keys| ensures r.keys[i] != r.keys[j] {
              if j == |keys| {
                assert keys[i] in values;
              }
            }
          }
        }
        r
    }
  }

  function Empty<K(==,!new), V>(): (r: OrderedMap<K, V>)
    ensures r.Valid() && r.keys == [] && r.values == map[]
  {
    OrderedMap([], map[])
  }
}
