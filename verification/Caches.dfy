/** A bounded least-recently-used cache, most recent item first. */
module Caches {
  import opened Options

  datatype Lru<K, V> = Lru(capacity: nat, items: seq<(K, V)>)

  ghost predicate HasKey<K, V>(items: seq<(K, V)>, k: K) {
    exists i :: 0 <= i < |items| && items[i].0 == k
  }

  ghost predicate WellKept<K, V>(c: Lru<K, V>) {
    && c.capacity > 0 && |c.items| <= c.capacity
    && forall i, j :: 0 <= i < j < |c.items| ==> c.items[i].0 != c.items[j].0
  }

  function Position<K(==), V>(items: seq<(K, V)>, k: K): (i: nat)
    ensures i <= |items|
    ensures i < |items| ==> items[i].0 == k
    ensures forall j :: 0 <= j < i ==> items[j].0 != k
  {
    if items == [] || items[0].0 == k then 0 else 1 + Position(items[1..], k)
  }

  function Without<K, V>(items: seq<(K, V)>, i: nat): seq<(K, V)> {
    if i < |items| then items[..i] + items[i + 1..] else items
  }

  /** Looks `k` up, making it the most recent item when present. */
  function Get<K(==,!new), V(!new)>(c: Lru<K, V>, k: K): (r: (Lru<K, V>, Option<V>))
    requires WellKept(c)
    ensures WellKept(r.0) && r.0.capacity == c.capacity
    ensures forall kv :: kv in r.0.items <==> kv in c.items
    ensures r.1.None? <==> !HasKey(c.items, k)
    ensures r.1.Some? ==> (k, r.1.value) in c.items && |r.0.items| == |c.items| && r.0.items[0] == (k, r.1.value)
  {
    var i := Position(c.items, k);
    if i == |c.items| then (c, None)
    else
      assert c.items == c.items[..i] + [c.items[i]] + c.items[i + 1..];
      (Lru(c.capacity, [c.items[i]] + Without(c.items, i)), Some(c.items[i].1))
  }

  /** Stores `v` under `k` as the most recent item, dropping the oldest when full. */
  function Put<K(==,!new), V(!new)>(c: Lru<K, V>, k: K, v: V): (r: Lru<K, V>)
    requires WellKept(c)
    ensures WellKept(r) && r.capacity == c.capacity && r.items != [] && r.items[0] == (k, v)
    ensures forall kv :: kv in r.items ==> kv == (k, v) || kv in c.items
  {
    var others := Without(c.items, Position(c.items, k));
    Lru(c.capacity, [(k, v)] + if |others| == c.capacity then others[..|others| - 1] else others)
  }

  /** When the cache is full and `k` is new, exactly the least recent item goes. */
  lemma PutEvictsOldest<K(!new), V(!new)>(c: Lru<K, V>, k: K, v: V)
    requires WellKept(c) && |c.items| == c.capacity && !HasKey(c.items, k)
    ensures Put(c, k, v).items == [(k, v)] + c.items[..|c.items| - 1]
  {
  }
}
