/**
 * A string-keyed dictionary that remembers the order its keys were first
 * inserted in, as the dictionaries map composition keeps its feature groups in.
 */
module OrderedDicts {
  import opened Ordering

  datatype OrderedDict<V> = OrderedDict(keys: seq<string>, entries: map<string, V>)
  {
    /** The keys, in insertion order, are exactly the keys of the entries, once each. */
    ghost predicate Valid()
    {
      Distinct(keys) && forall k :: k in entries <==> k in keys
    }

    /** `d[k] = v`: a new key goes to the end; an existing key keeps its place. */
    function Put(k: string, v: V): (d: OrderedDict<V>)
      requires Valid()
      ensures d.Valid()
      ensures d.entries == entries[k := v]
      ensures d.keys == if k in entries then keys else keys + [k]
    {
      if k in entries then OrderedDict(keys, entries[k := v])
      else OrderedDict(keys + [k], entries[k := v])
    }
  }

  function EmptyDict<V>(): (d: OrderedDict<V>)
    ensures d.Valid() && d.keys == []
  {
    OrderedDict([], map[])
  }
}
