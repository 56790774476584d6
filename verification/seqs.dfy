/**
 * Sequence operations that several components share: Java stream filters,
 * JavaScript `Array.filter`, `Array.from(new Set(...))` and `flatMap`.
 */
module Seqs {

  /** `a` can be obtained from `b` by deleting elements (order is kept). */
  predicate IsSubsequence<T(==,!new)>(a: seq<T>, b: seq<T>)
    decreases |b|
  {
    if |a| == 0 then true
    else if |b| == 0 then false
    else if a[0] == b[0] then IsSubsequence(a[1..], b[1..])
    else IsSubsequence(a, b[1..])
  }

  /** No element occurs twice. */
  predicate NoDup<T(==,!new)>(s: seq<T>) {
    forall i, j :: 0 <= i < j < |s| ==> s[i] != s[j]
  }

  /**
   * The elements of `s` satisfying `p`, in their original order: the loop
   * `for (x : s) if (p(x)) result.add(x)` of the Java sources, and
   * JavaScript's `Array.filter`.
   */
  function Filter<T(==,!new)>(s: seq<T>, p: T -> bool): (r: seq<T>)
    ensures |r| <= |s|
    ensures forall x :: x in r <==> x in s && p(x)
    ensures forall x :: multiset(r)[x] == if p(x) then multiset(s)[x] else 0
    ensures IsSubsequence(r, s)
  {
    if |s| == 0 then []
    else
      var rest := Filter(s[1..], p);
      assert s == [s[0]] + s[1..];
      if p(s[0]) then [s[0]] + rest else rest
  }

  /** Filtering by a weaker predicate first does not change a filter by a stronger one. */
  lemma {:induction false} FilterOfFilter<T(!new)>(s: seq<T>, p: T -> bool, q: T -> bool)
    requires forall x :: p(x) ==> q(x)
    ensures Filter(Filter(s, q), p) == Filter(s, p)
  {
    if |s| > 0 {
      FilterOfFilter(s[1..], p, q);
    }
  }

  /** Filtering keeps the order in which kept elements first occur. */
  lemma {:induction false} FilterKeepsFirstOrder<T(!new)>(s: seq<T>, p: T -> bool, x: T, y: T)
    requires x in Filter(s, p) && y in Filter(s, p)
    requires FirstIndex(Filter(s, p), x) < FirstIndex(Filter(s, p), y)
    ensures FirstIndex(s, x) < FirstIndex(s, y)
  {
    var f := Filter(s, p);
    if s[0] != x && s[0] != y {
      var rest := Filter(s[1..], p);
      if p(s[0]) {
        assert f == [s[0]] + rest;
        assert FirstIndex(f, x) == 1 + FirstIndex(rest, x);
        assert FirstIndex(f, y) == 1 + FirstIndex(rest, y);
      } else {
        assert f == rest;
      }
      FilterKeepsFirstOrder(s[1..], p, x, y);
    }
  }

  /** Filtering distributes over concatenation. */
  lemma {:induction false} FilterAppend<T(!new)>(a: seq<T>, b: seq<T>, p: T -> bool)
    ensures Filter(a + b, p) == Filter(a, p) + Filter(b, p)
  {
    if |a| > 0 {
      assert (a + b)[1..] == a[1..] + b;
      FilterAppend(a[1..], b, p);
    } else {
      assert a + b == b;
    }
  }

  /** Index of the first occurrence of `x` in `s`. */
  function FirstIndex<T(==,!new)>(s: seq<T>, x: T): (k: nat)
    requires x in s
    ensures k < |s| && s[k] == x
    ensures forall j :: 0 <= j < k ==> s[j] != x
  {
    if s[0] == x then 0 else 1 + FirstIndex(s[1..], x)
  }

  lemma FirstIndexOfPrefix<T(!new)>(s: seq<T>, t: seq<T>, x: T)
    requires x in s
    ensures FirstIndex(s + t, x) == FirstIndex(s, x)
  {
    assert (s + t)[FirstIndex(s, x)] == x;
  }

  /**
   * `Array.from(new Set(s))`: every distinct element once, in the order of
   * its first occurrence.
   */
  function Dedupe<T(==,!new)>(s: seq<T>): (r: seq<T>)
    ensures NoDup(r)
    ensures forall x :: x in r <==> x in s
    ensures forall i, j :: 0 <= i < j < |r| ==> FirstIndex(s, r[i]) < FirstIndex(s, r[j])
  {
    if |s| == 0 then []
    else
      var init := s[..|s| - 1];
      var last := s[|s| - 1];
      var d := Dedupe(init);
      assert s == init + [last];
      DedupeOrderExtends(init, last, d);
      if last in d then d else d + [last]
  }

  lemma DedupeOrderExtends<T(!new)>(init: seq<T>, last: T, d: seq<T>)
    requires forall x :: x in d <==> x in init
    requires forall i, j :: 0 <= i < j < |d| ==> FirstIndex(init, d[i]) < FirstIndex(init, d[j])
    ensures forall i, j :: 0 <= i < j < |d| ==> FirstIndex(init + [last], d[i]) < FirstIndex(init + [last], d[j])
    ensures last !in init ==> forall i :: 0 <= i < |d| ==> FirstIndex(init + [last], d[i]) < FirstIndex(init + [last], last)
  {
    forall i | 0 <= i < |d|
      ensures FirstIndex(init + [last], d[i]) == FirstIndex(init, d[i])
    {
      FirstIndexOfPrefix(init, [last], d[i]);
    }
    if last !in init {
      assert FirstIndex(init + [last], last) == |init|;
    }
  }

  /** `flatMap` with the identity: the concatenation of the inner sequences. */
  function Flatten<T(==,!new)>(ss: seq<seq<T>>): (r: seq<T>)
    ensures forall x :: x in r <==> exists i :: 0 <= i < |ss| && x in ss[i]
  {
    if |ss| == 0 then []
    else
      var rest := Flatten(ss[1..]);
      assert forall i :: 1 <= i < |ss| ==> ss[i] == ss[1..][i - 1];
      ss[0] + rest
  }

  /** `s` with every occurrence of `x` removed, the rest in order. */
  function Erase<T(==,!new)>(s: seq<T>, x: T): (r: seq<T>)
    ensures |r| <= |s|
    ensures forall y :: y in r <==> y in s && y != x
    ensures NoDup(s) ==> NoDup(r)
    ensures x !in s ==> r == s
    ensures NoDup(s) && x in s ==> |r| == |s| - 1
  {
    if |s| == 0 then []
    else
      var rest := Erase(s[1..], x);
      assert x !in s ==> rest == s[1..];
      assert s == [s[0]] + s[1..];
      assert NoDup(s) ==> s[0] !in s[1..];
      if s[0] == x then rest else [s[0]] + rest
  }

  lemma {:induction false} EraseAppend<T(!new)>(a: seq<T>, b: seq<T>, x: T)
    ensures Erase(a + b, x) == Erase(a, x) + Erase(b, x)
  {
    if |a| > 0 {
      assert (a + b)[1..] == a[1..] + b;
      EraseAppend(a[1..], b, x);
    } else {
      assert a + b == b;
    }
  }

  /** The last `n` elements of `s`, or all of `s` when it is shorter. */
  function Last<T>(s: seq<T>, n: nat): (r: seq<T>)
    ensures |r| == if |s| <= n then |s| else n
  {
    if |s| <= n then s else s[|s| - n..]
  }

  /** A sequence without duplicates has as many distinct elements as it is long. */
  lemma {:induction false} NoDupCard<T(!new)>(s: seq<T>)
    requires NoDup(s)
    ensures |set x | x in s| == |s|
  {
    if |s| > 0 {
      NoDupCard(s[1..]);
      assert (set x | x in s) == {s[0]} + (set x | x in s[1..]);
      assert s[0] !in (set x | x in s[1..]);
    }
  }

  /** A non-empty sequence holds its first element. */
  lemma HeadIsMember<T>(s: seq<T>)
    requires |s| > 0
    ensures s[0] in s
  {
  }

  lemma NoDupAppend<T(!new)>(s: seq<T>, x: T)
    requires NoDup(s) && x !in s
    ensures NoDup(s + [x])
  {
    var t := s + [x];
    forall i, j | 0 <= i < j < |t| ensures t[i] != t[j] {
      if j == |s| {
        assert t[i] == s[i];
      } else {
        assert t[i] == s[i] && t[j] == s[j];
      }
    }
  }
}
