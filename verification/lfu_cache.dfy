/**
 * The `songsCache` bean of the older tree's `CacheConfig`: a map with a
 * side map of usage counts, which evicts a least-used key when a put finds
 * the map already holding more than `MAX_CACHE_SIZE` entries.
 *
 * The key `removeLFUEntry` picks is the first minimum of a stream over a
 * `HashMap`, so among keys with equal counts the choice depends on hash
 * codes. The model takes that choice as the parameter `pick` and requires
 * only what the stream guarantees: it is a least-used counted key.
 */
module LfuCache {
  import opened Common

  /** `MAX_CACHE_SIZE`. */
  const MAX_CACHE_SIZE: nat := 10

  /** The stored entries and the usage counter. */
  datatype Lfu<K, V> = Lfu(store: map<K, V>, counts: map<K, nat>)

  function EmptyLfu<K(!new), V>(): Lfu<K, V> {
    Lfu(map[], map[])
  }

  /** `usageCounter.getOrDefault(key, 0)`. */
  function CountOf<K(!new)>(counts: map<K, nat>, k: K): nat {
    if k in counts then counts[k] else 0
  }

  /** What `stream().min(comparingByValue())` may return: a counted key with the smallest count. */
  predicate IsLeastUsed<K(!new)>(counts: map<K, nat>, x: K) {
    x in counts && forall y :: y in counts ==> counts[x] <= counts[y]
  }

  /** The counter after `put` has counted a use of `k`. */
  function Counted<K(!new)>(counts: map<K, nat>, k: K): (r: map<K, nat>)
    ensures k in r && r[k] == CountOf(counts, k) + 1
    ensures forall j :: j != k ==> (j in r <==> j in counts)
    ensures forall j :: j != k && j in counts ==> r[j] == counts[j]
  {
    counts[k := CountOf(counts, k) + 1]
  }

  /** Whether a put on a cache of this size calls `removeLFUEntry` (`size() > MAX_CACHE_SIZE`). */
  predicate Evicts<K(!new), V>(c: Lfu<K, V>) {
    |c.store| > MAX_CACHE_SIZE
  }

  /**
   * `put` as written: count the use, evict the least-used key if the map
   * already holds more than MAX_CACHE_SIZE entries, then store the value.
   * Returns the value the final `super.put` replaced.
   */
  function Put<K(!new), V>(c: Lfu<K, V>, k: K, v: V, pick: K): (out: (Option<V>, Lfu<K, V>))
    requires Evicts(c) ==> IsLeastUsed(Counted(c.counts, k), pick)
    ensures k in out.1.store && out.1.store[k] == v
    ensures !Evicts(c) ==> out.1.store == c.store[k := v] && out.1.counts == Counted(c.counts, k)
    ensures Evicts(c) ==> pick !in out.1.counts && (pick != k ==> pick !in out.1.store)
    ensures Evicts(c) && pick == k ==> out.1.store == c.store[k := v]
    ensures !Evicts(c) || pick != k ==> k in out.1.counts && out.1.counts[k] == CountOf(c.counts, k) + 1
    ensures forall j :: j != k && !(Evicts(c) && j == pick) ==>
              && (j in out.1.store <==> j in c.store)
              && (j in c.store ==> out.1.store[j] == c.store[j])
              && (j in out.1.counts <==> j in c.counts)
              && (j in c.counts ==> out.1.counts[j] == c.counts[j])
    ensures out.0 == if k in c.store && !(Evicts(c) && pick == k) then Some(c.store[k]) else None
    ensures c.counts.Keys <= c.store.Keys ==> out.1.counts.Keys <= out.1.store.Keys
  {
    var counts := Counted(c.counts, k);
    var (store, counts) := if Evicts(c) then (c.store - {pick}, counts - {pick}) else (c.store, counts);
    (if k in store then Some(store[k]) else None, Lfu(store[k := v], counts))
  }

  /** `get`: a present key is counted and its value returned; an absent key changes nothing. */
  function Get<K(!new), V>(c: Lfu<K, V>, k: K): (out: (Option<V>, Lfu<K, V>))
    ensures out.0 == if k in c.store then Some(c.store[k]) else None
    ensures out.1.store == c.store
    ensures k in c.store ==> out.1.counts == Counted(c.counts, k)
    ensures k !in c.store ==> out.1.counts == c.counts
    ensures c.counts.Keys <= c.store.Keys ==> out.1.counts.Keys <= out.1.store.Keys
  {
    if k in c.store then (Some(c.store[k]), c.(counts := Counted(c.counts, k)))
    else (None, c)
  }

  /** `remove`: forgets the entry and its count. */
  function Remove<K(!new), V>(c: Lfu<K, V>, k: K): (out: (Option<V>, Lfu<K, V>))
    ensures out.0 == if k in c.store then Some(c.store[k]) else None
    ensures k !in out.1.store && k !in out.1.counts
    ensures forall j :: j != k ==> (j in out.1.store <==> j in c.store) && (j in out.1.counts <==> j in c.counts)
    ensures forall j :: j != k && j in c.store ==> out.1.store[j] == c.store[j]
    ensures forall j :: j != k && j in c.counts ==> out.1.counts[j] == c.counts[j]
    ensures c.counts.Keys <= c.store.Keys ==> out.1.counts.Keys <= out.1.store.Keys
  {
    (if k in c.store then Some(c.store[k]) else None, Lfu(c.store - {k}, c.counts - {k}))
  }

  /** A put followed by a get of the same key returns the value put, whatever was evicted. */
  lemma GetAfterPut<K(!new), V>(c: Lfu<K, V>, k: K, v: V, pick: K)
    requires Evicts(c) ==> IsLeastUsed(Counted(c.counts, k), pick)
    ensures Get(Put(c, k, v, pick).1, k).0 == Some(v)
  {
  }

  /**
   * The bound the eviction check gives when the victim is another key:
   * from at most MAX_CACHE_SIZE + 1 entries, a put leaves at most
   * MAX_CACHE_SIZE + 1.
   */
  lemma PutBoundWhenAnotherKeyIsEvicted<K(!new), V>(c: Lfu<K, V>, k: K, v: V, pick: K)
    requires c.counts.Keys <= c.store.Keys
    requires |c.store| <= MAX_CACHE_SIZE + 1
    requires Evicts(c) ==> IsLeastUsed(Counted(c.counts, k), pick) && pick != k
    ensures |Put(c, k, v, pick).1.store| <= MAX_CACHE_SIZE + 1
  {
    var r := Put(c, k, v, pick).1;
    if Evicts(c) {
      assert pick in c.store;
      var smaller := c.store - {pick};
      assert smaller.Keys == c.store.Keys - {pick};
      assert |smaller| == |c.store| - 1;
      assert r.store == smaller[k := v];
    }
  }

  // ---------------------------------------------------------------------
  // Finding: the new key can be its own victim.
  // ---------------------------------------------------------------------

  /**
   * Keys 0 .. n-1 put once each, with value 0, into a fresh cache. No put
   * evicts while n <= MAX_CACHE_SIZE + 1.
   */
  function Fill(n: nat): (c: Lfu<int, int>)
    requires n <= MAX_CACHE_SIZE + 1
    ensures forall i :: i in c.store <==> 0 <= i < n
    ensures c.counts.Keys == c.store.Keys
    ensures |c.store| == n
    ensures forall i :: i in c.counts ==> c.counts[i] == 1
  {
    if n == 0 then EmptyLfu()
    else
      var prev := Fill(n - 1);
      assert n - 1 !in prev.store;
      Put(prev, n - 1, 0, 0).1
  }

  /**
   * With eleven entries each used once, a twelfth key is as little used as
   * any other; when `removeLFUEntry` picks it, the count is dropped, the
   * key is stored anyway, and the cache holds twelve entries.
   */
  lemma SelfEvictionExceedsBound(n: nat)
    requires n == MAX_CACHE_SIZE + 1
    ensures IsLeastUsed(Counted(Fill(n).counts, n), n)
    ensures |Put(Fill(n), n, 0, n).1.store| == MAX_CACHE_SIZE + 2
    ensures n !in Put(Fill(n), n, 0, n).1.counts
  {
    NewKeyMayEvictItself(Fill(n), n, 0);
  }

  /**
   * In a cache past the bound whose counted keys were each used at least
   * once, a new key is among the least used once its own use is counted,
   * and a put that evicts it grows the cache.
   */
  lemma NewKeyMayEvictItself<K(!new), V>(c: Lfu<K, V>, k: K, v: V)
    requires |c.store| == MAX_CACHE_SIZE + 1
    requires k !in c.store && k !in c.counts
    requires forall j :: j in c.counts ==> c.counts[j] >= 1
    ensures IsLeastUsed(Counted(c.counts, k), k)
    ensures |Put(c, k, v, k).1.store| == MAX_CACHE_SIZE + 2
    ensures k !in Put(c, k, v, k).1.counts
  {
  }

  // ---------------------------------------------------------------------
  // The evidently intended cache: evict before inserting a new key into a
  // full cache, and choose the victim among the keys already stored.
  // ---------------------------------------------------------------------

  /** Every stored key is counted, every counted key stored, and at most MAX_CACHE_SIZE of them. */
  predicate Bounded<K(!new), V>(c: Lfu<K, V>) {
    c.counts.Keys == c.store.Keys && |c.store| <= MAX_CACHE_SIZE
  }

  /**
   * The corrected put: a present key is counted and updated; a new key
   * entering a full cache first evicts a least-used stored key.
   */
  function PutBounded<K(!new), V>(c: Lfu<K, V>, k: K, v: V, pick: K): (out: (Option<V>, Lfu<K, V>))
    requires Bounded(c)
    requires k !in c.store && |c.store| >= MAX_CACHE_SIZE ==> IsLeastUsed(c.counts, pick)
    ensures Bounded(out.1)
    ensures k in out.1.store && out.1.store[k] == v
    ensures out.1.counts[k] == CountOf(c.counts, k) + 1
    ensures out.0 == if k in c.store then Some(c.store[k]) else None
    ensures k in c.store || |c.store| < MAX_CACHE_SIZE ==> out.1.store == c.store[k := v]
    ensures k !in c.store && |c.store| >= MAX_CACHE_SIZE ==>
              && pick !in out.1.store
              && out.1.store == (c.store - {pick})[k := v]
  {
    if k in c.store then
      (Some(c.store[k]), Lfu(c.store[k := v], Counted(c.counts, k)))
    else if |c.store| >= MAX_CACHE_SIZE then
      var store := c.store - {pick};
      assert store.Keys == c.store.Keys - {pick};
      assert |store| == |c.store| - 1;
      (None, Lfu(store[k := v], (c.counts - {pick})[k := 1]))
    else
      (None, Lfu(c.store[k := v], Counted(c.counts, k)))
  }

  /** `get` and `remove` on the corrected cache keep it bounded. */
  lemma GetAndRemoveKeepBound<K(!new), V>(c: Lfu<K, V>, k: K)
    requires Bounded(c)
    ensures Bounded(Get(c, k).1)
    ensures Bounded(Remove(c, k).1)
  {
    var r := Remove(c, k).1;
    assert r.store.Keys == c.store.Keys - {k};
    assert r.store.Keys <= c.store.Keys;
  }
}
