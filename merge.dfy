/** `-[NSDictionary dictionaryByMergingWithDictionary:]`. */
module DictionaryConvenience {

  /**
   * A new dictionary holding the receiver's entries and `other`'s; where both
   * hold a key, `other`'s value is the one kept. Maps are values, so neither
   * input can change.
   */
  function MergingWithDictionary<K, V>(receiver: map<K, V>, other: map<K, V>): (r: map<K, V>)
    ensures r.Keys == receiver.Keys + other.Keys
    ensures forall k :: k in other ==> r[k] == other[k]
    ensures forall k :: k in receiver && k !in other ==> r[k] == receiver[k]
  {
    receiver + other
  }

  /** Merging with an empty dictionary, on either side, gives the other input. */
  lemma MergeWithEmpty<K, V>(m: map<K, V>)
    ensures MergingWithDictionary(m, map[]) == m
    ensures MergingWithDictionary(map[], m) == m
  {
  }

  /** Merging is an upsert: merging twice with the same dictionary changes nothing more. */
  lemma MergeIdempotent<K, V>(m: map<K, V>, other: map<K, V>)
    ensures MergingWithDictionary(MergingWithDictionary(m, other), other) == MergingWithDictionary(m, other)
  {
  }
}
