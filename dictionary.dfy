/** A JavaScript plain object used as a dictionary from keys to numbers.
    Besides the key-value mapping it remembers the order in which keys were
    first inserted, which is the order `Object.entries` and `Object.values`
    enumerate them in for keys that are not array indices (no string that
    `toFixed` returns is an array-index key). */
module Dictionary {

  datatype Dict<K> = Dict(keys: seq<K>, values: map<K, real>)

  /** No key is listed twice. */
  predicate Distinct<K(==)>(ks: seq<K>) {
    forall i, j :: 0 <= i < j < |ks| ==> ks[i] != ks[j]
  }

  /** The insertion order lists exactly the keys present, each once. */
  ghost predicate Valid<K(!new)>(d: Dict<K>) {
    && Distinct(d.keys)
    && (forall k :: k in d.values <==> k in d.keys)
  }

  /** `{}` */
  function Empty<K(==,!new)>(): (d: Dict<K>)
    ensures Valid(d) && d.keys == [] && d.values == map[]
  {
    Dict([], map[])
  }

  /** `d[k] = v`: an existing key keeps its position, a new key goes last. */
  function Put<K(==,!new)>(d: Dict<K>, k: K, v: real): (r: Dict<K>)
    requires Valid(d)
    ensures Valid(r)
    ensures r.values == d.values[k := v]
    ensures r.keys == if k in d.values then d.keys else d.keys + [k]
  {
    Dict(if k in d.values then d.keys else d.keys + [k], d.values[k := v])
  }

  /** The sum of the values of the listed keys, added in list order. */
  function SumValues<K>(ks: seq<K>, m: map<K, real>): (r: real)
    requires forall k :: k in ks ==> k in m
    decreases |ks|
  {
    if ks == [] then 0.0
    else SumValues(ks[..|ks| - 1], m) + m[ks[|ks| - 1]]
  }

  /** `Object.values(d).reduce((a, b) => a + b, 0)` */
  function Total<K(==,!new)>(d: Dict<K>): (r: real)
    requires Valid(d)
  {
    SumValues(d.keys, d.values)
  }

  /** Changing one value by `delta` changes the sum over a list of distinct
      keys by `delta` exactly when that key is listed. */
  lemma {:induction false} SumValuesPointUpdate<K>(ks: seq<K>, m: map<K, real>, m': map<K, real>, k0: K, delta: real)
    requires Distinct(ks)
    requires forall k :: k in ks ==> k in m && k in m'
    requires forall k :: k in ks && k != k0 ==> m'[k] == m[k]
    requires k0 in ks ==> m'[k0] == m[k0] + delta
    ensures SumValues(ks, m') == SumValues(ks, m) + (if k0 in ks then delta else 0.0)
    decreases |ks|
  {
    if ks != [] {
      var init := ks[..|ks| - 1];
      var last := ks[|ks| - 1];
      assert Distinct(init);
      assert ks == init + [last];
      assert last !in init;
      SumValuesPointUpdate(init, m, m', k0, delta);
      assert SumValues(ks, m) == SumValues(init, m) + m[last];
      assert SumValues(ks, m') == SumValues(init, m') + m'[last];
      assert k0 in ks <==> k0 in init || k0 == last;
    }
  }

  /** A second assignment to the same key overwrites the first. */
  lemma PutTwice<K(!new)>(d: Dict<K>, k: K, a: real, b: real)
    requires Valid(d)
    ensures Put(Put(d, k, a), k, b) == Put(d, k, b)
  {
  }
}
