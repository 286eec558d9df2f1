/**
 * A plain JavaScript object used as a dictionary: string keys, values, and
 * `Object.keys` order, which is insertion order for keys that are not
 * array indices.
 */
module JsObject {
  import opened Seqs

  datatype Dict<V> = Dict(keys: seq<string>, entries: map<string, V>)

  /** The keys are listed once each, and exactly the present keys are listed. */
  ghost predicate Valid<V>(d: Dict<V>)
  {
    Distinct(d.keys) && forall k :: k in d.entries <==> k in d.keys
  }

  /** `{}` */
  function Empty<V>(): Dict<V>
  {
    Dict([], map[])
  }

  /** `d[k] = v` */
  function Put<V>(d: Dict<V>, k: string, v: V): Dict<V>
  {
    if k in d.entries then Dict(d.keys, d.entries[k := v]) else Dict(d.keys + [k], d.entries[k := v])
  }

  /** Assigning a key keeps the object valid. */
  lemma PutValid<V>(d: Dict<V>, k: string, v: V)
    requires Valid(d)
    ensures Valid(Put(d, k, v))
  {
  }

  /**
   * After `d[k] = v`, `k` reads `v` and every other key reads what it read
   * before, present or absent.
   */
  lemma PutLookup<V>(d: Dict<V>, k: string, v: V, j: string)
    ensures j in Put(d, k, v).entries <==> j == k || j in d.entries
    ensures j in Put(d, k, v).entries ==> Put(d, k, v).entries[j] == if j == k then v else d.entries[j]
  {
  }

  /**
   * In a valid object, a new key goes to the end of the key order and an
   * existing key keeps its place.
   */
  lemma PutOrder<V>(d: Dict<V>, k: string, v: V)
    requires Valid(d)
    ensures k in d.keys ==> Put(d, k, v).keys == d.keys
    ensures k !in d.keys ==> Put(d, k, v).keys == d.keys + [k]
  {
  }
}
