/** A Python `dict` with string keys: a key-value map together with the order in which
    the keys were first inserted, which is the order `keys()`, `items()` and iteration use. */
module OrderedDict {
  import opened Util
  import opened Ordering

  datatype Dict<V> = Dict(keys: seq<string>, values: map<string, V>) {

    /** Each key is listed once, and exactly the mapped keys are listed. */
    ghost predicate Valid() {
      Distinct(keys) && (forall k :: k in values <==> k in keys)
    }

    /** `d.get(k)`. */
    function Get(k: string): (r: Option<V>)
      ensures r.Some? <==> k in values
      ensures r.Some? ==> r.value == values[k]
    {
      if k in values then Some(values[k]) else None
    }

    /** `d[k] = v`: a new key goes to the end of the order, an existing key keeps its place. */
    function Put(k: string, v: V): (r: Dict<V>)
      requires Valid()
      ensures r.Valid()
      ensures r.values == values[k := v]
      ensures k in values ==> r.keys == keys
      ensures k !in values ==> r.keys == keys + [k]
    {
      if k in values then Dict(keys, values[k := v]) else Dict(keys + [k], values[k := v])
    }

    /** `d.pop(k, None)`: removes the key if present, keeping the order of the others. */
    function Pop(k: string): (r: Dict<V>)
      requires Valid()
      ensures r.Valid()
      ensures r.values == values - {k}
      ensures r.keys == Without(keys, k)
    {
      Dict(Without(keys, k), values - {k})
    }
  }

  function Empty<V>(): (r: Dict<V>)
    ensures r.Valid() && r.keys == [] && r.values == map[]
  {
    Dict([], map[])
  }

  /** The sequence with every occurrence of `x` removed, the rest in order. */
  function Without(s: seq<string>, x: string): (r: seq<string>)
    ensures forall y :: y in r <==> y in s && y != x
    ensures Distinct(s) ==> Distinct(r)
    ensures x !in s ==> r == s
  {
    if s == [] then []
    else
      var t := Without(s[1..], x);
      assert s == [s[0]] + s[1..];
      assert Distinct(s) ==> s[0] !in s[1..] && Distinct(s[1..]);
      if s[0] == x then t else [s[0]] + t
  }

  /** Writing a key twice keeps only the second value and the first position. */
  lemma PutPut<V>(d: Dict<V>, k: string, v1: V, v2: V)
    requires d.Valid()
    ensures d.Put(k, v1).Put(k, v2) == d.Put(k, v2)
  {
  }

  /** Removing a key that is not there changes nothing. */
  lemma PopAbsent<V>(d: Dict<V>, k: string)
    requires d.Valid() && k !in d.values
    ensures d.Pop(k) == d
  {
    assert d.values - {k} == d.values;
  }
}
