/** Insertion-ordered maps: the LinkedHashMap of the server and the Map of the browser. */
module LinkedMaps {
  import opened Common

  /** Entries from the newest key back to the oldest. */
  datatype LinkedMap<K(==), V> = Empty | Entry(older: LinkedMap<K, V>, key: K, value: V) {

    function Get(k: K): Option<V> {
      match this
      case Empty => None
      case Entry(older, key, value) => if key == k then Some(value) else older.Get(k)
    }

    predicate Has(k: K) {
      Get(k).Some?
    }

    function Replace(k: K, v: V): LinkedMap<K, V> {
      match this
      case Empty => this
      case Entry(older, key, value) =>
        if key == k then Entry(older, k, v) else Entry(older.Replace(k, v), key, value)
    }

    /** A key that is already present keeps its place and takes the new value. */
    function Put(k: K, v: V): LinkedMap<K, V> {
      if Has(k) then Replace(k, v) else Entry(this, k, v)
    }

    function PutIfAbsent(k: K, v: V): LinkedMap<K, V> {
      if Has(k) then this else Entry(this, k, v)
    }

    function Remove(k: K): LinkedMap<K, V> {
      match this
      case Empty => this
      case Entry(older, key, value) =>
        if key == k then older.Remove(k) else Entry(older.Remove(k), key, value)
    }

    function KeySet(): set<K> {
      match this
      case Empty => {}
      case Entry(older, key, _) => older.KeySet() + {key}
    }

    /** Keys and values in the order the keys were first inserted. */
    function Keys(): seq<K> {
      match this
      case Empty => []
      case Entry(older, key, _) => older.Keys() + [key]
    }

    function Values(): seq<V> {
      match this
      case Empty => []
      case Entry(older, _, value) => older.Values() + [value]
    }

    /** No key occurs twice. */
    ghost predicate Unique() {
      Entry? ==> older.Unique() && key !in older.KeySet()
    }
  }

  lemma {:induction false} HasIsMember<K, V>(m: LinkedMap<K, V>, k: K)
    ensures m.Has(k) <==> k in m.KeySet()
  {
    if m.Entry? {
      HasIsMember(m.older, k);
    }
  }

  lemma {:induction false} GetPut<K, V>(m: LinkedMap<K, V>, k: K, v: V, j: K)
    ensures m.Put(k, v).Get(j) == if j == k then Some(v) else m.Get(j)
  {
    if m.Entry? && m.key != k {
      GetPut(m.older, k, v, j);
    }
  }

  lemma {:induction false} GetRemove<K, V>(m: LinkedMap<K, V>, k: K, j: K)
    ensures m.Remove(k).Get(j) == if j == k then None else m.Get(j)
  {
    if m.Entry? {
      GetRemove(m.older, k, j);
    }
  }

  lemma {:induction false} PutKeys<K, V>(m: LinkedMap<K, V>, k: K, v: V)
    ensures m.Put(k, v).KeySet() == m.KeySet() + {k}
    ensures m.Put(k, v).Keys() == if m.Has(k) then m.Keys() else m.Keys() + [k]
    ensures m.Unique() ==> m.Put(k, v).Unique()
  {
    HasIsMember(m, k);
    if m.Entry? && m.key != k && m.Has(k) {
      PutKeys(m.older, k, v);
    }
  }

  lemma {:induction false} RemoveKeys<K, V>(m: LinkedMap<K, V>, k: K)
    ensures m.Remove(k).KeySet() == m.KeySet() - {k}
    ensures m.Unique() ==> m.Remove(k).Unique()
    ensures !m.Has(k) ==> m.Remove(k) == m
  {
    if m.Entry? {
      RemoveKeys(m.older, k);
    }
  }

  /** A map without repeated keys has as many values as keys, and each value is found at its key. */
  lemma {:induction false} ValuesAtKeys<K, V>(m: LinkedMap<K, V>)
    ensures |m.Values()| == |m.Keys()|
    ensures forall k :: k in m.Keys() <==> k in m.KeySet()
    ensures m.Unique() ==> forall i :: 0 <= i < |m.Keys()| ==> m.Get(m.Keys()[i]) == Some(m.Values()[i])
  {
    if m.Entry? {
      ValuesAtKeys(m.older);
    }
  }

  /** Every value is stored under its own key, and no key is stored twice. */
  ghost predicate KeyedBy<K, V>(m: LinkedMap<K, V>, keyOf: V -> K) {
    m.Entry? ==> KeyedBy(m.older, keyOf) && keyOf(m.value) == m.key && m.key !in m.older.KeySet()
  }

  lemma {:induction false} ReplaceKeyed<K, V>(m: LinkedMap<K, V>, keyOf: V -> K, v: V)
    requires KeyedBy(m, keyOf)
    ensures KeyedBy(m.Replace(keyOf(v), v), keyOf) && m.Replace(keyOf(v), v).KeySet() == m.KeySet()
  {
    if m.Entry? && m.key != keyOf(v) {
      ReplaceKeyed(m.older, keyOf, v);
    }
  }

  lemma PutKeyed<K, V>(m: LinkedMap<K, V>, keyOf: V -> K, v: V)
    requires KeyedBy(m, keyOf)
    ensures KeyedBy(m.Put(keyOf(v), v), keyOf)
    ensures KeyedBy(m.PutIfAbsent(keyOf(v), v), keyOf)
  {
    HasIsMember(m, keyOf(v));
    ReplaceKeyed(m, keyOf, v);
  }
}
