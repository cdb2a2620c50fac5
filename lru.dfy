/**
 * The `lru` crate's `LruCache` as a value: the entries and their recency
 * order, most recently used first. `put` and `get` move a key to the front;
 * `put` of a new key into a full cache first drops the least recently used
 * entry; `contains` leaves the order alone.
 */
module Lru {
  import opened Wrappers

  datatype Cache<K, V> = Cache(capacity: nat, entries: map<K, V>, order: seq<K>)

  ghost predicate Distinct<K>(s: seq<K>)
  {
    forall i, j :: 0 <= i < j < |s| ==> s[i] != s[j]
  }

  /** The cache holds at most `capacity` entries and orders each key exactly once. */
  ghost predicate Valid<K(!new), V>(c: Cache<K, V>)
  {
    && 0 < c.capacity
    && |c.entries| <= c.capacity
    && Distinct(c.order)
    && (forall k :: k in c.order <==> k in c.entries)
  }

  /** `LruCache::new(capacity)`. */
  function New<K(==, !new), V>(capacity: nat): (c: Cache<K, V>)
    requires 0 < capacity
    ensures Valid(c) && c.entries == map[] && c.capacity == capacity
  {
    Cache(capacity, map[], [])
  }

  /** s without k, order otherwise kept. */
  function Without<K(==, !new)>(s: seq<K>, k: K): (r: seq<K>)
    ensures forall x :: x in r <==> x in s && x != k
    ensures Distinct(s) ==> Distinct(r)
    ensures k !in s ==> r == s
  {
    if s == [] then []
    else if s[0] == k then Without(s[1..], k)
    else
      var w := Without(s[1..], k);
      DistinctCons(s[0], w);
      [s[0]] + w
  }

  lemma DistinctCons<K>(a: K, w: seq<K>)
    ensures a !in w && Distinct(w) ==> Distinct([a] + w)
  {
  }

  /** Dropping the last key of a distinct order removes exactly that key. */
  lemma DropLast<K>(s: seq<K>)
    requires Distinct(s) && |s| > 0
    ensures Distinct(s[..|s| - 1])
    ensures forall x :: x in s[..|s| - 1] <==> x in s && x != s[|s| - 1]
  {
  }

  /** k moved to the front of the recency order. */
  function Promote<K(==, !new)>(s: seq<K>, k: K): (r: seq<K>)
    ensures |r| > 0 && r[0] == k
    ensures forall x :: x in r <==> x in s || x == k
    ensures Distinct(s) ==> Distinct(r)
  {
    DistinctCons(k, Without(s, k));
    [k] + Without(s, k)
  }

  /** The least recently used key. */
  function Oldest<K(==, !new), V>(c: Cache<K, V>): (k: K)
    requires Valid(c) && c.entries != map[]
    ensures k in c.entries
  {
    c.order[|c.order| - 1]
  }

  /** The cache without its least recently used entry. */
  function Evict<K(==, !new), V>(c: Cache<K, V>): (r: Cache<K, V>)
    requires Valid(c) && c.entries != map[]
    ensures r.capacity == c.capacity && |r.entries| == |c.entries| - 1
    ensures r.entries.Keys == c.entries.Keys - {Oldest(c)}
    ensures forall x :: x in r.entries ==> r.entries[x] == c.entries[x]
    ensures Distinct(r.order) && forall x :: x in r.order <==> x in r.entries
  {
    var lru := Oldest(c);
    var kept := c.entries - {lru};
    assert kept.Keys == c.entries.Keys - {lru};
    DropLast(c.order);
    Cache(c.capacity, kept, c.order[..|c.order| - 1])
  }

  /** `LruCache::put(k, v)`. */
  function Put<K(==, !new), V>(c: Cache<K, V>, k: K, v: V): (r: Cache<K, V>)
    requires Valid(c)
    ensures Valid(r) && r.capacity == c.capacity
    ensures k in r.entries && r.entries[k] == v && r.order[0] == k
    ensures forall x :: x in r.entries ==> x == k || x in c.entries
    ensures forall x :: x in c.entries && x != k ==>
      if x in r.entries then r.entries[x] == c.entries[x]
      else k !in c.entries && |c.entries| == c.capacity && x == Oldest(c)
  {
    if k in c.entries then
      Cache(c.capacity, c.entries[k := v], Promote(c.order, k))
    else if |c.entries| == c.capacity then
      var e := Evict(c);
      Cache(c.capacity, e.entries[k := v], [k] + e.order)
    else
      Cache(c.capacity, c.entries[k := v], [k] + c.order)
  }

  /** `LruCache::get(k)`: the value under k, with k made the most recently used. */
  function Get<K(==, !new), V>(c: Cache<K, V>, k: K): (r: (Option<V>, Cache<K, V>))
    requires Valid(c)
    ensures Valid(r.1) && r.1.capacity == c.capacity && r.1.entries == c.entries
    ensures k in c.entries ==> r.0 == Some(c.entries[k]) && r.1.order[0] == k
    ensures k !in c.entries ==> r == (None, c)
  {
    if k in c.entries then (Some(c.entries[k]), Cache(c.capacity, c.entries, Promote(c.order, k)))
    else (None, c)
  }

  /** A get right after a put of the same key changes nothing further. */
  lemma GetAfterPut<K(!new), V>(c: Cache<K, V>, k: K, v: V)
    requires Valid(c)
    ensures Get(Put(c, k, v), k) == (Some(v), Put(c, k, v))
  {
  }
}
