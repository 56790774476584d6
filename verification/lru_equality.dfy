/**
 * `equals` and `hashCode` of the backend's `CacheConfig<K, V>`: the
 * class check it adds, and what it inherits from `AbstractMap`, including
 * the recency change a comparison makes to an access-ordered argument.
 */
module LruEquality {
  import opened Common
  import opened Seqs
  import opened LruCache

  /** The argument of `equals`: null, another cache, or an object of another class. */
  datatype Obj<K, V> = NullRef | CacheRef(cache: Lru<K, V>) | OtherObject

  /**
   * `equals`: false for null and for other classes; for another cache,
   * `AbstractMap.equals`: the same size and every entry of this cache found
   * in the other. (`this == o` is subsumed: a cache equals itself this way.)
   */
  predicate Equals<K(==,!new), V(==)>(c: Lru<K, V>, o: Obj<K, V>): (eq: bool)
    ensures !o.CacheRef? ==> !eq
    ensures eq ==> Size(o.cache) == Size(c)
    ensures eq ==> forall k :: k in c.values ==> k in o.cache.values && o.cache.values[k] == c.values[k]
  {
    match o
    case NullRef => false
    case OtherObject => false
    case CacheRef(d) =>
      Size(c) == Size(d) && forall k | k in c.values :: k in d.values && d.values[k] == c.values[k]
  }

  /** `ks` used in turn, starting from the list `order`. */
  function TouchAll<K(==,!new)>(order: seq<K>, ks: seq<K>): (r: seq<K>)
    ensures forall y :: y in r <==> y in order || y in ks
    ensures NoDup(order) ==> NoDup(r)
  {
    if |ks| == 0 then order
    else
      assert ks == ks[..|ks| - 1] + [ks[|ks| - 1]];
      Touch(TouchAll(order, ks[..|ks| - 1]), ks[|ks| - 1])
  }

  /** `order` without the keys of `ks`, the rest in order. */
  function EraseAll<K(==,!new)>(order: seq<K>, ks: seq<K>): (r: seq<K>)
    ensures forall y :: y in r <==> y in order && y !in ks
  {
    if |ks| == 0 then order
    else
      assert ks == ks[..|ks| - 1] + [ks[|ks| - 1]];
      Erase(EraseAll(order, ks[..|ks| - 1]), ks[|ks| - 1])
  }

  /**
   * After distinct keys are used in turn, they are the most recently used
   * ones, in that order, behind the keys not used.
   */
  lemma {:induction false} TouchAllSplits<K(!new)>(order: seq<K>, ks: seq<K>)
    requires NoDup(ks)
    ensures TouchAll(order, ks) == EraseAll(order, ks) + ks
  {
    if |ks| > 0 {
      var init, k := LastSplit(ks);
      TouchAllSplits(order, init);
      TouchBehind(EraseAll(order, init), init, k);
    }
  }

  /** The keys before the last one, and the last one, which is not among them. */
  lemma LastSplit<K(!new)>(ks: seq<K>) returns (init: seq<K>, k: K)
    requires NoDup(ks) && |ks| > 0
    ensures init == ks[..|ks| - 1] && k == ks[|ks| - 1] && ks == init + [k]
    ensures NoDup(init) && k !in init
  {
    init, k := ks[..|ks| - 1], ks[|ks| - 1];
    assert ks == init + [k];
  }

  /** Using a key that is not among the last ones moves it behind them. */
  lemma TouchBehind<K(!new)>(p: seq<K>, tail: seq<K>, k: K)
    requires k !in tail
    ensures Touch(p + tail, k) == Erase(p, k) + (tail + [k])
  {
    EraseAppend(p, tail, k);
  }

  /** Using every key of a list, each once, leaves them in the order of use. */
  lemma TouchEveryKey<K(!new)>(order: seq<K>, ks: seq<K>)
    requires NoDup(ks)
    requires forall y :: y in order ==> y in ks
    ensures TouchAll(order, ks) == ks
  {
    TouchAllSplits(order, ks);
    var p := EraseAll(order, ks);
    if |p| > 0 {
      HeadIsMember(p);
      assert false;
    }
  }

  /** The first `n` entries of `c` are found in `m` with the same values. */
  predicate EntriesFound<K(==,!new), V(==)>(c: Cache<K, V>, m: map<K, V>, n: nat)
    requires n <= |c.order|
  {
    forall i :: 0 <= i < n ==> c.order[i] in m && m[c.order[i]] == c.values[c.order[i]]
  }

  lemma EntriesFoundStep<K(!new), V(!new)>(c: Cache<K, V>, m: map<K, V>, n: nat)
    requires 0 < n <= |c.order|
    ensures EntriesFound(c, m, n) <==>
              EntriesFound(c, m, n - 1) && c.order[n - 1] in m && m[c.order[n - 1]] == c.values[c.order[n - 1]]
    ensures c.order[..n] == c.order[..n - 1] + [c.order[n - 1]]
  {
  }

  /**
   * The `m.get(key)` calls `AbstractMap.equals` makes on the argument `d`
   * for the first `n` entries of `c`, stopping at the first mismatch. A
   * `get` on an access-ordered map is a use: each hit moves its key to the
   * most recently used end of `d`. Whether they all matched, and `d` after.
   */
  function EntriesMatch<K(==,!new), V(==,!new)>(c: Cache<K, V>, d: Cache<K, V>, n: nat): (out: (bool, Cache<K, V>))
    requires n <= |c.order|
    ensures out.1.values == d.values
    ensures out.0 == EntriesFound(c, d.values, n)
    ensures out.0 ==> out.1.order == TouchAll(d.order, c.order[..n])
    decreases n
  {
    if n == 0 then (true, d)
    else
      var prev := EntriesMatch(c, d, n - 1);
      if !prev.0 then
        EntriesFoundStep(c, d.values, n);
        prev
      else
        var key := c.order[n - 1];
        var got := Get(prev.1, key);
        EntriesFoundStep(c, d.values, n);
        (got.0 == Some(c.values[key]), got.1)
  }

  /**
   * `equals` with a cache argument, and what it does to that argument.
   * `identical` is `this == o`, which answers true at once; otherwise the
   * sizes are compared and then every entry of `c`, eldest first, is looked
   * up in `d` with `get`. The answer is `Equals`; `d` keeps its mappings,
   * but after a true answer its recency order is that of `c`.
   */
  function EqualsCall<K(==,!new), V(==,!new)>(c: Cache<K, V>, d: Cache<K, V>, identical: bool): (out: (bool, Cache<K, V>))
    requires identical ==> d == c
    ensures out.0 == Equals(c, CacheRef(d))
    ensures out.1.values == d.values
    ensures out.0 ==> out.1.order == c.order
    ensures identical ==> out.1 == d
  {
    if identical then (true, d)
    else if Size(c) != Size(d) then (false, d)
    else
      var out := EntriesMatch(c, d, |c.order|);
      assert c.order[..|c.order|] == c.order;
      EntriesMatchIsEquals(c, d);
      if out.0 then
        EqualsIffSameMappings(c, d);
        TouchEveryKey(d.order, c.order);
        out
      else out
  }

  /** Matching every entry of `c`, on equal sizes, is `Equals`. */
  lemma EntriesMatchIsEquals<K(!new), V(!new)>(c: Cache<K, V>, d: Cache<K, V>)
    requires Size(c) == Size(d)
    ensures Equals(c, CacheRef(d)) <==> EntriesFound(c, d.values, |c.order|)
  {
    if EntriesFound(c, d.values, |c.order|) {
      forall k | k in c.values ensures k in d.values && d.values[k] == c.values[k] {
        var i :| 0 <= i < |c.order| && c.order[i] == k;
      }
    }
  }

  /** A valid cache has as many mappings as its list has keys. */
  lemma KeyCount<K(!new), V>(c: Cache<K, V>)
    ensures |c.values.Keys| == Size(c)
  {
    NoDupCard(c.order);
    assert (set x | x in c.order) == c.values.Keys;
  }

  /** Two valid caches are equal exactly when they hold the same mappings; recency does not matter. */
  lemma EqualsIffSameMappings<K(!new), V(!new)>(c: Cache<K, V>, d: Cache<K, V>)
    ensures Equals(c, CacheRef(d)) <==> c.values == d.values
  {
    KeyCount(c);
    KeyCount(d);
    if Equals(c, CacheRef(d)) {
      var ck, dk := c.values.Keys, d.values.Keys;
      assert ck <= dk;
      assert |dk - ck| == |dk| - |ck| == 0;
      assert ck == dk;
    }
  }

  /** The hash of one entry, `Objects.hashCode(key) ^ Objects.hashCode(value)`, as an unsigned 32-bit pattern. */
  function EntryHash<K, V>(k: K, v: V, hk: K -> bv32, hv: V -> bv32): nat {
    (hk(k) ^ hv(v)) as nat
  }

  /** The exact sum of the hashes of the entries for the keys of `ks`. */
  function HashSum<K(==), V>(ks: seq<K>, m: map<K, V>, hk: K -> bv32, hv: V -> bv32): nat {
    if |ks| == 0 then 0
    else (if ks[0] in m then EntryHash(ks[0], m[ks[0]], hk, hv) else 0) + HashSum(ks[1..], m, hk, hv)
  }

  /**
   * `hashCode`, inherited from `AbstractMap`: the `int` sum of the entry
   * hashes. Adding with wrap-around at every step gives the exact sum
   * reduced modulo 2^32, as an unsigned bit pattern.
   */
  function HashCode<K(==), V>(c: Lru<K, V>, hk: K -> bv32, hv: V -> bv32): (h: bv32)
    ensures (forall k :: k in c.order ==> k !in c.values) ==> h == 0
  {
    HashSumOfUnmapped(c.order, c.values, hk, hv);
    (HashSum(c.order, c.values, hk, hv) % 0x1_0000_0000) as bv32
  }

  /** Keys without an entry add nothing to the sum. */
  lemma {:induction false} HashSumOfUnmapped<K, V>(ks: seq<K>, m: map<K, V>, hk: K -> bv32, hv: V -> bv32)
    ensures (forall k :: k in ks ==> k !in m) ==> HashSum(ks, m, hk, hv) == 0
  {
    if |ks| > 0 && forall k :: k in ks ==> k !in m {
      assert forall k :: k in ks[1..] ==> k in ks;
      HashSumOfUnmapped(ks[1..], m, hk, hv);
    }
  }

  lemma {:induction false} HashSumErase<K(!new), V>(ks: seq<K>, x: K, m: map<K, V>, hk: K -> bv32, hv: V -> bv32)
    requires NoDup(ks) && x in ks && x in m
    ensures HashSum(ks, m, hk, hv) == EntryHash(x, m[x], hk, hv) + HashSum(Erase(ks, x), m, hk, hv)
  {
    if ks[0] != x {
      HashSumErase(ks[1..], x, m, hk, hv);
      assert Erase(ks, x) == [ks[0]] + Erase(ks[1..], x);
      assert ([ks[0]] + Erase(ks[1..], x))[1..] == Erase(ks[1..], x);
    } else {
      assert x !in ks[1..];
      assert Erase(ks, x) == ks[1..];
    }
  }

  /** The sum does not depend on the order of the keys. */
  lemma {:induction false} HashSumPermutation<K(!new), V>(a: seq<K>, b: seq<K>, m: map<K, V>, hk: K -> bv32, hv: V -> bv32)
    requires NoDup(a) && NoDup(b)
    requires forall x :: x in a <==> x in b
    requires forall x :: x in a ==> x in m
    ensures HashSum(a, m, hk, hv) == HashSum(b, m, hk, hv)
    decreases |a|
  {
    if |a| > 0 {
      var x := a[0];
      HashSumErase(b, x, m, hk, hv);
      assert x !in a[1..];
      HashSumPermutation(a[1..], Erase(b, x), m, hk, hv);
    } else {
      assert forall i :: 0 <= i < |b| ==> b[i] !in a;
    }
  }

  /** Caches that are equal have equal hash codes. */
  lemma EqualCachesHaveEqualHashCodes<K(!new), V(!new)>(c: Cache<K, V>, d: Cache<K, V>, hk: K -> bv32, hv: V -> bv32)
    requires Equals(c, CacheRef(d))
    ensures HashCode(c, hk, hv) == HashCode(d, hk, hv)
  {
    EqualsIffSameMappings(c, d);
    HashSumPermutation(c.order, d.order, c.values, hk, hv);
  }

  /** A cache is never equal to null nor to an object of another class. */
  lemma NotEqualToNullOrOtherClass<K(!new), V(!new)>(c: Lru<K, V>)
    ensures !Equals(c, NullRef) && !Equals(c, OtherObject)
    ensures Equals(c, CacheRef(c))
  {
  }

  /** Equal contents make equal caches, different contents do not. */
  lemma EqualsScenario()
    ensures var c1 := Put(EmptyLru(), 1, "One").1;
            var c2 := Put(EmptyLru(), 1, "One").1;
            var c3 := Put(EmptyLru(), 2, "Two").1;
            Equals(c1, CacheRef(c2)) && !Equals(c1, CacheRef(c3)) && !Equals(c1, NullRef) && !Equals(c1, OtherObject)
  {
    var c1 := Put(EmptyLru(), 1, "One").1;
    var c3 := Put(EmptyLru(), 2, "Two").1;
    assert c1.values == map[1 := "One"];
    assert c3.values == map[2 := "Two"];
    assert 1 !in c3.values;
  }

  /**
   * After a true `equals`, the argument evicts what the receiver would: its
   * next put of a new key into a full cache drops the receiver's eldest key.
   */
  lemma EqualsHandsOverEviction<K(!new), V(!new)>(c: Cache<K, V>, d: Cache<K, V>, k: K, v: V)
    requires c.values == d.values && Size(c) == MAXSIZE && k !in c.values
    ensures var out := EqualsCall(c, d, false);
            var after := Put(out.1, k, v).1.values;
            && out.0 && out.1.order == c.order
            && c.order[0] !in after && forall i :: 1 <= i < |c.order| ==> c.order[i] in after
  {
    EqualsIffSameMappings(c, d);
    var out := EqualsCall(c, d, false);
    PutEvictsEldest(out.1, k, v);
  }

  /**
   * Comparing two caches with the same mappings reorders the argument:
   * with keys used 3, 2, 1 in the receiver and 1, 2, 3 in the argument,
   * the argument afterwards has 3 as its eldest key, so its next put of a
   * new key evicts 3 where it would have evicted 1.
   */
  lemma EqualsReordersArgument(c: Cache<int, string>, d: Cache<int, string>)
    requires c.order == [3, 2, 1] && d.order == [1, 2, 3] && c.values == d.values
    ensures var out := EqualsCall(c, d, false);
            var before := Put(d, 4, "Four").1.values;
            var after := Put(out.1, 4, "Four").1.values;
            && out.0 && out.1.order == [3, 2, 1]
            && 1 !in before && 3 in before
            && 3 !in after && 1 in after
  {
    EqualsIffSameMappings(c, d);
    var out := EqualsCall(c, d, false);
    PutIntoFull(d, 1, 2, 3, 4, "Four");
    PutIntoFull(out.1, 3, 2, 1, 4, "Four");
  }
}
