/**
 * The generic cache `CacheConfig<K, V>` of the backend: a `LinkedHashMap`
 * in access order whose `removeEldestEntry` drops the eldest entry as
 * soon as the map holds more than `MAXSIZE` entries. A linked hash map is
 * a map plus a doubly linked list of its keys; the model keeps the same
 * two parts, the list eldest first.
 */
module LruCache {
  import opened Common
  import opened Seqs

  /** `CacheConfig.MAXSIZE`. */
  const MAXSIZE: nat := 3

  /** The keys from least to most recently used, and the mappings. */
  datatype Lru<K, V> = Lru(order: seq<K>, values: map<K, V>)

  function EmptyLru<K, V>(): Lru<K, V> {
    Lru([], map[])
  }

  /** The linked list and the map hold the same keys, each once, at most MAXSIZE of them. */
  predicate Valid<K(==,!new), V>(c: Lru<K, V>) {
    && NoDup(c.order)
    && (forall k :: k in c.values ==> k in c.order)
    && (forall i :: 0 <= i < |c.order| ==> c.order[i] in c.values)
    && |c.order| <= MAXSIZE
  }

  /** The caches a program can hold: every operation keeps them valid. */
  type Cache<K(==,!new), V> = c: Lru<K, V> | Valid(c) witness EmptyLru()

  /** `size()`. */
  function Size<K, V>(c: Lru<K, V>): nat {
    |c.order|
  }

  /** `containsKey`: does not count as an access. */
  predicate ContainsKey<K, V>(c: Lru<K, V>, k: K) {
    k in c.values
  }

  /** `k` moved to the most recently used end of the list. */
  function Touch<K(==,!new)>(order: seq<K>, k: K): (r: seq<K>)
    ensures |r| > 0 && r[|r| - 1] == k
    ensures forall y :: y in r <==> y in order || y == k
    ensures NoDup(order) ==> NoDup(r)
    ensures NoDup(order) && k in order ==> |r| == |order|
    ensures k !in order ==> r == order + [k]
  {
    var e := Erase(order, k);
    assert k !in e;
    e + [k]
  }

  /** A list and a map with the same keys, the list without repetitions and short enough, form a valid cache. */
  lemma ValidFrom<K(!new), V>(order: seq<K>, values: map<K, V>)
    requires NoDup(order) && |order| <= MAXSIZE
    requires forall y :: y in order <==> y in values
    ensures Valid(Lru(order, values))
  {
  }

  /** `get`: a hit returns the value and makes the key the most recently used. */
  function Get<K(==,!new), V>(c: Cache<K, V>, k: K): (out: (Option<V>, Cache<K, V>))
    ensures out.0 == if k in c.values then Some(c.values[k]) else None
    ensures out.1.values == c.values
    ensures Size(out.1) == Size(c)
    ensures out.1.order == if k in c.values then Touch(c.order, k) else c.order
  {
    if k in c.values then
      var order := Touch(c.order, k);
      ValidFrom(order, c.values);
      (Some(c.values[k]), Lru(order, c.values))
    else (None, c)
  }

  /** A put on a present key: the new value, and the key becomes the most recently used. */
  function Refresh<K(==,!new), V>(c: Cache<K, V>, k: K, v: V): (r: Cache<K, V>)
    requires k in c.values
    ensures r.order == Touch(c.order, k)
    ensures r.values == c.values[k := v]
  {
    var order := Touch(c.order, k);
    ValidFrom(order, c.values[k := v]);
    Lru(order, c.values[k := v])
  }

  /**
   * A put on an absent key: the key is appended as the most recently used,
   * and when that makes the map exceed MAXSIZE the eldest key goes.
   */
  function Insert<K(==,!new), V>(c: Cache<K, V>, k: K, v: V): (r: Cache<K, V>)
    requires k !in c.values
    ensures r.order == Last(c.order + [k], MAXSIZE)
    ensures Size(c) < MAXSIZE ==> r.values == c.values[k := v]
    ensures Size(c) == MAXSIZE ==> r.values == (c.values - {c.order[0]})[k := v]
  {
    var order := c.order + [k];
    if |order| > MAXSIZE then
      EvictEldest(c, k, v);
      Lru(order[1..], c.values[k := v] - {order[0]})
    else
      NoDupAppend(c.order, k);
      ValidFrom(order, c.values[k := v]);
      Lru(order, c.values[k := v])
  }

  /**
   * `put`: returns the previous value. An existing key gets the new value
   * and becomes the most recently used; a new key is appended, and if the
   * map then holds more than MAXSIZE entries the eldest one is removed.
   */
  function Put<K(==,!new), V>(c: Cache<K, V>, k: K, v: V): (out: (Option<V>, Cache<K, V>))
    ensures out.0 == if k in c.values then Some(c.values[k]) else None
    ensures k in out.1.values && out.1.values[k] == v
    ensures out.1.order == Last(Touch(c.order, k), MAXSIZE)
    ensures k in c.values || Size(c) < MAXSIZE ==> out.1.values == c.values[k := v]
    ensures k !in c.values && Size(c) == MAXSIZE ==>
              out.1.values == (c.values - {c.order[0]})[k := v]
  {
    if k in c.values then (Some(c.values[k]), Refresh(c, k, v))
    else
      assert Touch(c.order, k) == c.order + [k];
      (None, Insert(c, k, v))
  }

  /** A put brings in no mapping but its own: every other entry it leaves was there before. */
  lemma PutAddsOnlyItsKey<K(!new), V>(c: Cache<K, V>, k: K, v: V)
    ensures var r := Put(c, k, v).1.values;
            forall a :: a in r && a != k ==> a in c.values && r[a] == c.values[a]
  {
  }

  /**
   * `removeEldestEntry` after a new key made a full cache overflow: the
   * eldest key is an old one, and dropping it leaves a valid cache.
   */
  lemma EvictEldest<K(!new), V>(c: Cache<K, V>, k: K, v: V)
    requires k !in c.values && Size(c) == MAXSIZE
    ensures var order := c.order + [k];
            && order[0] == c.order[0] != k
            && Valid(Lru(order[1..], c.values[k := v] - {order[0]}))
            && c.values[k := v] - {order[0]} == (c.values - {c.order[0]})[k := v]
  {
    var order := c.order + [k];
    var eldest := order[0];
    assert order == [eldest] + order[1..];
    assert eldest in c.values;
    assert order[1..] == c.order[1..] + [k];
    assert NoDup(order[1..]) by {
      assert forall i :: 0 <= i < |c.order| - 1 ==> c.order[1..][i] == c.order[i + 1];
    }
    forall y ensures y in order[1..] <==> y in c.values[k := v] - {eldest} {
      assert y in order[1..] <==> y in c.order[1..] || y == k;
      if y in c.order[1..] {
        var j :| 0 <= j < |c.order| - 1 && c.order[1..][j] == y;
        assert c.order[j + 1] == y;
        assert y in c.values;
      }
      if y in c.values && y != eldest {
        var j :| 0 <= j < |c.order| && c.order[j] == y;
        assert c.order[1..][j - 1] == y;
      }
    }
    ValidFrom(order[1..], c.values[k := v] - {eldest});
  }

  /** `remove`: returns the previous value and forgets the key; the others keep their recency. */
  function Remove<K(==,!new), V>(c: Cache<K, V>, k: K): (out: (Option<V>, Cache<K, V>))
    ensures out.0 == if k in c.values then Some(c.values[k]) else None
    ensures out.1.values == c.values - {k}
    ensures out.1.order == Erase(c.order, k)
  {
    var order := Erase(c.order, k);
    ValidFrom(order, c.values - {k});
    (if k in c.values then Some(c.values[k]) else None, Lru(order, c.values - {k}))
  }

  /**
   * Removing a present key makes room: the next put of a new key evicts
   * nothing, and a get of the removed key misses.
   */
  lemma RemoveMakesRoom<K(!new), V>(c: Cache<K, V>, k: K, k2: K, v: V)
    requires k in c.values && k2 !in c.values
    ensures var r := Remove(c, k).1;
            && Get(r, k).0 == None
            && Put(r, k2, v).1.values == (c.values - {k})[k2 := v]
  {
    assert k in c.order;
  }

  // ---------------------------------------------------------------------
  // The recency discipline, against a reference definition over histories.
  // ---------------------------------------------------------------------

  /** The cache operations that affect recency. */
  datatype Op<K, V> = PutOp(key: K, value: V) | GetOp(key: K)

  /**
   * The distinct keys of a history of uses, ordered by their last use,
   * least recent first.
   */
  function RecencyOrder<K(==,!new)>(h: seq<K>): (r: seq<K>)
    ensures NoDup(r)
    ensures forall k :: k in r <==> k in h
  {
    if |h| == 0 then [] else Touch(RecencyOrder(h[..|h| - 1]), h[|h| - 1])
  }

  /** The reference cache: the MAXSIZE most recently used keys. */
  function Recent<K(==,!new)>(h: seq<K>): seq<K> {
    Last(RecencyOrder(h), MAXSIZE)
  }

  /**
   * The uses an operation sequence makes: every put uses its key, a get
   * uses its key only when the key is among the most recently used.
   */
  function History<K(==,!new), V>(ops: seq<Op<K, V>>): seq<K> {
    if |ops| == 0 then []
    else
      var h := History(ops[..|ops| - 1]);
      match ops[|ops| - 1]
      case PutOp(k, _) => h + [k]
      case GetOp(k) => if k in Recent(h) then h + [k] else h
  }

  function Apply<K(==,!new), V>(c: Cache<K, V>, op: Op<K, V>): Cache<K, V> {
    match op
    case PutOp(k, v) => Put(c, k, v).1
    case GetOp(k) => Get(c, k).1
  }

  /** The cache after running `ops` on a fresh instance. */
  function Replay<K(==,!new), V>(ops: seq<Op<K, V>>): Cache<K, V> {
    if |ops| == 0 then EmptyLru() else Apply(Replay(ops[..|ops| - 1]), ops[|ops| - 1])
  }

  lemma LastAppend<K>(s: seq<K>, x: K, n: nat)
    ensures Last(s + [x], n + 1) == Last(s, n) + [x]
  {
  }

  /** Using a key among the last `n` removes it from them and leaves the others. */
  lemma LastEraseInside<K(!new)>(r: seq<K>, k: K, n: nat)
    requires NoDup(r) && k in Last(r, n)
    ensures Last(Erase(r, k), n - 1) == Erase(Last(r, n), k)
  {
    if |r| > n {
      var p, l := SplitAtSuffix(r, n);
      EraseAppend(p, l, k);
      assert Erase(r, k) == p + Erase(l, k);
      LastOfTail(p, Erase(l, k), n - 1);
    }
  }

  /** Splitting a list without repetitions before its last `n` keys: the suffix keeps that, and shares no key with the prefix. */
  lemma SplitAtSuffix<K(!new)>(r: seq<K>, n: nat) returns (p: seq<K>, l: seq<K>)
    requires NoDup(r) && |r| > n
    ensures p == r[..|r| - n] && l == r[|r| - n..] && r == p + l
    ensures NoDup(l)
    ensures forall x :: x in l ==> x !in p
  {
    p, l := r[..|r| - n], r[|r| - n..];
    assert r == p + l;
    assert forall i :: 0 <= i < |l| ==> l[i] == r[|p| + i];
    forall x | x in l ensures x !in p {
      var j :| 0 <= j < |l| && l[j] == x;
      assert r[|p| + j] == x;
    }
  }

  lemma LastOfTail<K>(p: seq<K>, e: seq<K>, m: nat)
    requires |e| == m
    ensures Last(p + e, m) == e
  {
    assert (p + e)[|p|..] == e;
  }

  /** Using a key outside the last `n` leaves them unchanged. */
  lemma LastEraseOutside<K(!new)>(r: seq<K>, k: K, n: nat)
    requires k !in Last(r, n)
    ensures Last(Erase(r, k), n) == Last(r, n)
  {
    var l := Last(r, n);
    var p := r[..|r| - |l|];
    assert r == p + l;
    EraseAppend(p, l, k);
  }

  /** One use of `k` moves the reference cache as a put or a get hit moves the real one. */
  lemma {:induction false} RecentAfterUse<K(!new)>(h: seq<K>, k: K)
    ensures k in Recent(h) ==> Recent(h + [k]) == Touch(Recent(h), k)
    ensures k !in Recent(h) && |Recent(h)| < MAXSIZE ==> Recent(h + [k]) == Recent(h) + [k]
    ensures k !in Recent(h) && |Recent(h)| >= MAXSIZE ==> Recent(h + [k]) == Recent(h)[1..] + [k]
  {
    var r := RecencyOrder(h);
    assert (h + [k])[..|h + [k]| - 1] == h;
    assert RecencyOrder(h + [k]) == Erase(r, k) + [k];
    LastAppend(Erase(r, k), k, MAXSIZE - 1);
    if k in Recent(h) {
      LastEraseInside(r, k, MAXSIZE);
    } else {
      LastEraseOutside(r, k, MAXSIZE);
      var x := Erase(r, k);
      assert Last(x, MAXSIZE - 1) == Last(Last(x, MAXSIZE), MAXSIZE - 1);
    }
  }

  /**
   * The cache holds exactly the MAXSIZE most recently used keys, least
   * recent first: the eldest entry is the least recently used, and only
   * it is evicted.
   */
  lemma {:induction false} CacheHoldsMostRecentKeys<K(!new), V>(ops: seq<Op<K, V>>)
    ensures Replay(ops).order == Recent(History(ops))
  {
    if |ops| > 0 {
      var init := ops[..|ops| - 1];
      CacheHoldsMostRecentKeys(init);
      var c := Replay(init);
      var h := History(init);
      assert c.order == Recent(h);
      match ops[|ops| - 1] {
        case PutOp(k, v) =>
          assert History(ops) == h + [k];
          assert Replay(ops) == Put(c, k, v).1;
          RecentAfterUse(h, k);
          PutOrder(c, k, v);
        case GetOp(k) =>
          assert Replay(ops) == Get(c, k).1;
          if k in Recent(h) {
            assert History(ops) == h + [k];
            RecentAfterUse(h, k);
          } else {
            assert History(ops) == h;
          }
      }
    }
  }

  /** How a put moves the list: a present key to the end, a new key appended, evicting the eldest of a full cache. */
  lemma PutOrder<K(!new), V>(c: Cache<K, V>, k: K, v: V)
    ensures Put(c, k, v).1.order ==
              if k in c.order then Touch(c.order, k)
              else if Size(c) < MAXSIZE then c.order + [k]
              else c.order[1..] + [k]
  {
    if k !in c.order {
      PutNewKeyOrder(c, k, v);
    }
  }

  // ---------------------------------------------------------------------
  // The scenarios the cache's own tests exercise.
  // ---------------------------------------------------------------------

  /** The cache both eviction tests start from: three distinct keys put in turn into a fresh cache. */
  function ThreePuts<K(==,!new), V>(k1: K, v1: V, k2: K, v2: V, k3: K, v3: V): Cache<K, V> {
    Put(TwoPuts(k1, v1, k2, v2), k3, v3).1
  }

  function TwoPuts<K(==,!new), V>(k1: K, v1: V, k2: K, v2: V): Cache<K, V> {
    Put(Put(EmptyLru(), k1, v1).1, k2, v2).1
  }

  /** A put of a new key appends it; the eldest key goes only if the cache was full. */
  lemma PutNewKeyOrder<K(!new), V>(c: Cache<K, V>, k: K, v: V)
    requires k !in c.order
    ensures Put(c, k, v).1.order == if Size(c) < MAXSIZE then c.order + [k] else c.order[1..] + [k]
  {
    assert Touch(c.order, k) == c.order + [k];
    LastOfAppended(c.order, k);
  }

  lemma LastOfAppended<K>(s: seq<K>, k: K)
    requires |s| <= MAXSIZE
    ensures Last(s + [k], MAXSIZE) == if |s| < MAXSIZE then s + [k] else s[1..] + [k]
  {
  }

  /** A put of a new key into a cache with room appends it. */
  lemma PutOnto<K(!new), V>(c: Cache<K, V>, k: K, v: V, o: seq<K>)
    requires c.order == o && k !in o && |o| < MAXSIZE
    ensures Put(c, k, v).1.order == o + [k]
  {
    PutNewKeyOrder(c, k, v);
  }

  /** A put of a new key into a full cache with keys `a, b, d` leaves `b, d, k`. */
  lemma PutIntoFull<K(!new), V>(c: Cache<K, V>, a: K, b: K, d: K, k: K, v: V)
    requires c.order == [a, b, d] && k != a && k != b && k != d
    ensures var r := Put(c, k, v).1;
            && r.order == [b, d, k]
            && a !in r.values && b in r.values && d in r.values && k in r.values
  {
    PutNewKeyOrder(c, k, v);
    var r := Put(c, k, v).1;
    assert c.order[1..] == [b, d];
    assert r.order == [b, d, k];
    assert a != b && a != d by {
      assert c.order[0] != c.order[1] && c.order[0] != c.order[2];
    }
    assert a !in r.order;
    assert r.order[0] in r.values && r.order[1] in r.values;
  }

  /** Using the eldest of three keys moves it to the most recently used end. */
  lemma TouchEldest<K(!new)>(a: K, b: K, d: K)
    requires a != b && a != d
    ensures Touch([a, b, d], a) == [b, d, a]
  {
    assert [a, b, d][1..] == [b, d];
    assert [b, d][1..] == [d];
    assert Erase([d], a) == [d];
    assert Erase([b, d], a) == [b, d];
  }

  lemma TwoPutsOrder<K(!new), V>(k1: K, v1: V, k2: K, v2: V)
    requires k1 != k2
    ensures TwoPuts(k1, v1, k2, v2).order == [k1, k2]
  {
    var c0: Cache<K, V> := EmptyLru();
    PutOnto(c0, k1, v1, []);
    PutOnto(Put(c0, k1, v1).1, k2, v2, [k1]);
  }

  lemma ThreePutsOrder<K(!new), V>(k1: K, v1: V, k2: K, v2: V, k3: K, v3: V)
    requires k1 != k2 && k1 != k3 && k2 != k3
    ensures ThreePuts(k1, v1, k2, v2, k3, v3).order == [k1, k2, k3]
  {
    TwoPutsOrder(k1, v1, k2, v2);
    PutOnto(TwoPuts(k1, v1, k2, v2), k3, v3, [k1, k2]);
  }

  /** A fourth distinct put into a fresh cache evicts the first key and keeps the other three. */
  lemma FourthPutEvictsFirst<K(!new), V>(k1: K, v1: V, k2: K, v2: V, k3: K, v3: V, k4: K, v4: V)
    requires k1 != k2 && k1 != k3 && k2 != k3
    requires k4 != k1 && k4 != k2 && k4 != k3
    ensures var c := Put(ThreePuts(k1, v1, k2, v2, k3, v3), k4, v4).1;
            && Size(c) == 3
            && !ContainsKey(c, k1) && ContainsKey(c, k2) && ContainsKey(c, k3) && ContainsKey(c, k4)
  {
    ThreePutsOrder(k1, v1, k2, v2, k3, v3);
    PutIntoFull(ThreePuts(k1, v1, k2, v2, k3, v3), k1, k2, k3, k4, v4);
  }

  /**
   * Reading the eldest of three keys before a fourth put makes the second
   * key the one evicted; `ThreePutsOrder` gives the starting cache for keys
   * put in turn into a fresh cache.
   */
  lemma GetRefreshesRecency<K(!new), V>(c: Cache<K, V>, k1: K, k2: K, k3: K, k4: K, v4: V)
    requires c.order == [k1, k2, k3]
    requires k4 != k1 && k4 != k2 && k4 != k3
    ensures var after := Put(Get(c, k1).1, k4, v4).1;
            Size(after) == 3 && !ContainsKey(after, k2) && ContainsKey(after, k1)
  {
    assert c.order[0] != c.order[1] && c.order[0] != c.order[2];
    assert c.order[0] in c.values;
    TouchEldest(k1, k2, k3);
    PutIntoFull(Get(c, k1).1, k2, k3, k1, k4, v4);
  }

  /** A put of a new key into a full cache drops its eldest key and keeps the others. */
  lemma PutEvictsEldest<K(!new), V>(c: Cache<K, V>, k: K, v: V)
    requires k !in c.values && Size(c) == MAXSIZE
    ensures var after := Put(c, k, v).1.values;
            c.order[0] !in after && forall i :: 1 <= i < |c.order| ==> c.order[i] in after
  {
    assert c.order[0] != k;
    assert forall i :: 1 <= i < |c.order| ==> c.order[i] != c.order[0];
  }

  /**
   * In a full valid cache, a get hit protects its key from the next
   * eviction: a put of a new key then evicts the eldest of the others.
   */
  lemma GetProtectsFromNextEviction<K(!new), V>(c: Cache<K, V>, k: K, k2: K, v: V)
    requires Size(c) == MAXSIZE
    requires k in c.values && k2 !in c.values
    ensures var after := Put(Get(c, k).1, k2, v).1;
            k in after.values && Erase(c.order, k)[0] !in after.values
  {
    var g := Get(c, k).1;
    assert g.order == Erase(c.order, k) + [k];
    assert g.order[0] == Erase(c.order, k)[0];
    assert g.order[0] != k by {
      assert k !in Erase(c.order, k);
    }
  }
}
