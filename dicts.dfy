/** Python dictionaries with string keys, as the scripts build them: the keys
    in insertion order together with the key-to-value map. */
module Dicts {

  predicate Distinct<T(==)>(s: seq<T>)
  {
    forall i, j :: 0 <= i < j < |s| ==> s[i] != s[j]
  }

  /** In a sequence without repetition an element is not in the prefix
      before it. */
  lemma DistinctNotBefore<T>(s: seq<T>, n: nat)
    requires Distinct(s) && n < |s|
    ensures s[n] !in s[..n]
  {
  }

  datatype Entries<V> = Entries(keys: seq<string>, at: map<string, V>)
  {
    /** Every key occurs once, and the order lists exactly the mapped keys. */
    predicate Valid()
    {
      Distinct(keys) && at.Keys == set k | k in keys
    }
  }

  type Dict<V> = d: Entries<V> | d.Valid() witness Entries([], map[])

  /** `{}` */
  function EmptyDict<V>(): (d: Dict<V>)
    ensures d.keys == [] && d.at == map[]
  {
    Entries([], map[])
  }

  /** `d[k] = v`: a new key goes to the end, an existing key keeps its place. */
  function Put<V>(d: Dict<V>, k: string, v: V): (r: Dict<V>)
    ensures r.at == d.at[k := v]
    ensures k in d.at ==> r.keys == d.keys
    ensures k !in d.at ==> r.keys == d.keys + [k]
  {
    if k in d.at then
      Entries(d.keys, d.at[k := v])
    else
      var keys := d.keys + [k];
      assert Distinct(keys) by {
        forall i, j | 0 <= i < j < |keys| ensures keys[i] != keys[j] {
          if j == |d.keys| { assert keys[i] in d.at; }
        }
      }
      Entries(keys, d.at[k := v])
  }

  /** `{key: v for key in keys}` over distinct keys. */
  function FromKeys<V>(keys: seq<string>, v: V): (d: Dict<V>)
    requires Distinct(keys)
    ensures d.keys == keys
    ensures forall k :: k in d.at ==> d.at[k] == v
  {
    Entries(keys, map k | k in keys :: v)
  }
}
