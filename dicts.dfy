/** Python dictionaries with string keys.

    A Python `dict` remembers the order in which its keys were first inserted,
    and that order is observable wherever the source iterates over one
    (`roles()`, `player_ids`, the roster loop). Assigning to a key that is
    already present keeps the key's original position. */
module Dicts {

  datatype Dict<V> = Dict(keys: seq<string>, values: map<string, V>) {

    /** The keys are listed once each, and exactly the keys of the map are listed. */
    ghost predicate Valid() {
      && (forall i, j :: 0 <= i < j < |keys| ==> keys[i] != keys[j])
      && (forall k :: k in values <==> k in keys)
    }

    /** `d[k] = v` */
    function Put(k: string, v: V): (d: Dict<V>)
      requires Valid()
      ensures d.Valid()
      ensures d.values == values[k := v]
      ensures d.keys == if k in values then keys else keys + [k]
    {
      Dict(if k in values then keys else keys + [k], values[k := v])
    }

    /** Assigning a key twice leaves what assigning it the second time alone would. */
    lemma PutTwice(k: string, a: V, b: V)
      requires Valid()
      ensures Put(k, a).Put(k, b) == Put(k, b)
    {
      assert values[k := a][k := b] == values[k := b];
    }

    /** `d.get(k, default)` */
    function Get(k: string, default: V): V {
      if k in values then values[k] else default
    }
  }

  function Empty<V>(): (d: Dict<V>)
    ensures d.Valid() && d.keys == [] && d.values == map[]
  {
    Dict([], map[])
  }
}
