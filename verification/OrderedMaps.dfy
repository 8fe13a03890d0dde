/** A map that remembers in which order its keys were first set. */
module OrderedMaps {
  import opened Prelude

  datatype OrderedMap<K(==), V> = OrderedMap(keys: seq<K>, values: map<K, V>) {
    ghost predicate Valid() {
      && (forall i, j :: 0 <= i < j < |keys| ==> keys[i] != keys[j])
      && (forall i :: 0 <= i < |keys| ==> keys[i] in values)
      && forall k :: k in values ==> k in keys
    }

    function Get(k: K): Option<V> {
      if k in values then Some(values[k]) else None
    }

    /** A key that is already there keeps its place. */
    function Set(k: K, v: V): (m: OrderedMap<K, V>)
      ensures Valid() ==> m.Valid()
      ensures m.values == values[k := v]
      ensures keys <= m.keys
    {
      OrderedMap(if k in values then keys else keys + [k], values[k := v])
    }

    function Len(): nat {
      |keys|
    }
  }

  function EmptyMap<K(==), V>(): (m: OrderedMap<K, V>)
    ensures m.Valid()
  {
    OrderedMap([], map[])
  }
}
