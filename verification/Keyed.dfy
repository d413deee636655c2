/** Reading a table of keyed rows by key: row id -> (key, value) becomes key -> value. */
module Keyed {

  ghost predicate Injective<K, V>(rows: map<int, (K, V)>) {
    forall i, j | i in rows && j in rows :: rows[i].0 == rows[j].0 ==> i == j
  }

  ghost predicate IsIndex<K, V>(rows: map<int, (K, V)>, m: map<K, V>) {
    && (forall i :: i in rows ==> rows[i].0 in m && m[rows[i].0] == rows[i].1)
    && (forall k :: k in m ==> exists i :: i in rows && rows[i].0 == k)
  }

  ghost function Index<K, V>(rows: map<int, (K, V)>): (m: map<K, V>)
    requires Injective(rows)
    ensures IsIndex(rows, m)
  {
    assert IsIndex(rows, map i | i in rows :: rows[i].0 := rows[i].1);
    var m :| IsIndex(rows, m);
    m
  }

  lemma IndexUnique<K, V>(rows: map<int, (K, V)>, m: map<K, V>)
    requires Injective(rows) && IsIndex(rows, m)
    ensures m == Index(rows)
  {
    var m' := Index(rows);
    assert forall k :: k in m ==> k in m';
    assert forall k :: k in m' ==> k in m;
    assert m.Keys == m'.Keys;
  }

  lemma IndexInsert<K, V>(rows: map<int, (K, V)>, id: int, k: K, v: V)
    requires Injective(rows) && id !in rows && forall i :: i in rows ==> rows[i].0 != k
    ensures Injective(rows[id := (k, v)])
    ensures Index(rows[id := (k, v)]) == Index(rows)[k := v]
  {
    var rows' := rows[id := (k, v)];
    var m' := Index(rows)[k := v];
    forall x | x in m'
      ensures exists i :: i in rows' && rows'[i].0 == x
    {
      if x == k {
        assert rows'[id].0 == x;
      } else {
        var i :| i in rows && rows[i].0 == x;
        assert rows'[i].0 == x;
      }
    }
    IndexUnique(rows', m');
  }

  lemma IndexRestrict<K, V>(rows: map<int, (K, V)>, rows': map<int, (K, V)>, gone: set<K>)
    requires Injective(rows)
    requires forall i :: i in rows' <==> i in rows && rows[i].0 !in gone
    requires forall i :: i in rows' ==> rows'[i] == rows[i]
    ensures Injective(rows')
    ensures Index(rows') == Index(rows) - gone
  {
    var m' := Index(rows) - gone;
    forall x | x in m'
      ensures exists i :: i in rows' && rows'[i].0 == x
    {
      var i :| i in rows && rows[i].0 == x;
      assert rows'[i].0 == x;
    }
    IndexUnique(rows', m');
  }
}
