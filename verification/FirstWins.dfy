/** "INSERT OR IGNORE" read at value level: a key keeps the first value it was given. */
module FirstWins {

  function Put<K, V>(m: map<K, V>, k: K, v: V): map<K, V> {
    if k in m then m else m[k := v]
  }

  function PutAll<K, V>(m: map<K, V>, entries: seq<(K, V)>): map<K, V>
    decreases |entries|
  {
    if entries == [] then m
    else PutAll(Put(m, entries[0].0, entries[0].1), entries[1..])
  }

  /** The position of the first entry for k, or |entries| when there is none. */
  function FirstIndex<K(==), V>(entries: seq<(K, V)>, k: K): (i: nat)
    ensures i <= |entries|
    ensures i < |entries| ==> entries[i].0 == k
    ensures forall j :: 0 <= j < i ==> entries[j].0 != k
  {
    if entries == [] || entries[0].0 == k then 0 else 1 + FirstIndex(entries[1..], k)
  }

  /** What PutAll means: old keys keep their value, a new key gets the value of its first entry. */
  lemma {:induction false} PutAllMeaning<K, V>(m: map<K, V>, entries: seq<(K, V)>, k: K)
    ensures k in PutAll(m, entries) <==> k in m || FirstIndex(entries, k) < |entries|
    ensures k in m ==> PutAll(m, entries)[k] == m[k]
    ensures k !in m && FirstIndex(entries, k) < |entries| ==>
              PutAll(m, entries)[k] == entries[FirstIndex(entries, k)].1
    decreases |entries|
  {
    if entries != [] {
      PutAllMeaning(Put(m, entries[0].0, entries[0].1), entries[1..], k);
    }
  }
}
