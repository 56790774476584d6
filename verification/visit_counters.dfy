/**
 * The two per-URL visit counters: `VisitCounterService` (64-bit
 * `AtomicLong` values) and `VisitCounter` (32-bit `Integer` values).
 * Increments are sequential steps; both wrap around on overflow as the
 * Java arithmetic does.
 */
module VisitCounters {

  const INT_MIN: int := -0x8000_0000
  const INT_MAX: int := 0x7FFF_FFFF
  const LONG_MIN: int := -0x8000_0000_0000_0000
  const LONG_MAX: int := 0x7FFF_FFFF_FFFF_FFFF

  /** Values of Java `int`. */
  type Int32 = x: int | INT_MIN <= x <= INT_MAX

  /** Values of Java `long`. */
  type Int64 = x: int | LONG_MIN <= x <= LONG_MAX

  /** `x + 1` in 32-bit two's complement. */
  function Inc32(x: Int32): (r: Int32)
    ensures x < INT_MAX ==> r == x + 1
    ensures x == INT_MAX ==> r == INT_MIN
  {
    if x == INT_MAX then INT_MIN else x + 1
  }

  /** `incrementAndGet` in 64-bit two's complement. */
  function Inc64(x: Int64): (r: Int64)
    ensures x < LONG_MAX ==> r == x + 1
    ensures x == LONG_MAX ==> r == LONG_MIN
  {
    if x == LONG_MAX then LONG_MIN else x + 1
  }

  // ---------------------------------------------------------------------
  // VisitCounterService
  // ---------------------------------------------------------------------

  type LongCounters = map<string, Int64>

  /**
   * `incrementCounter`: an absent url starts at 0 (`computeIfAbsent`) and
   * is then incremented; only that url's entry changes.
   */
  function IncrementCounter(m: LongCounters, url: string): (r: LongCounters)
    ensures r.Keys == m.Keys + {url}
    ensures url !in m ==> r[url] == 1
    ensures url in m && m[url] < LONG_MAX ==> r[url] == m[url] + 1
    ensures url in m && m[url] == LONG_MAX ==> r[url] == LONG_MIN
    ensures forall u :: u in m && u != url ==> r[u] == m[u]
  {
    var current: Int64 := if url in m then m[url] else 0;
    m[url := Inc64(current)]
  }

  /** `incrementCounter` applied to each url of `urls` in turn. */
  function IncrementAll(m: LongCounters, urls: seq<string>): LongCounters
    decreases |urls|
  {
    if |urls| == 0 then m
    else IncrementAll(IncrementCounter(m, urls[0]), urls[1..])
  }

  /** The number of times `u` occurs in `urls`. */
  function Occurrences(urls: seq<string>, u: string): nat {
    multiset(urls)[u]
  }

  /**
   * After a run of increments, a url's count is its count before plus the
   * number of times the run names it (while that stays within the 64-bit
   * range), and a url has a count exactly when it had one or was named.
   */
  lemma {:induction false} CountsAreOccurrences(m: LongCounters, urls: seq<string>, u: string)
    requires u in m ==> m[u] >= 0
    requires (if u in m then m[u] else 0) + Occurrences(urls, u) <= LONG_MAX
    ensures u in IncrementAll(m, urls) <==> u in m || u in urls
    ensures u in IncrementAll(m, urls) ==>
              IncrementAll(m, urls)[u] == (if u in m then m[u] else 0) + Occurrences(urls, u)
    decreases |urls|
  {
    if |urls| > 0 {
      assert urls == [urls[0]] + urls[1..];
      assert Occurrences(urls, u) == (if urls[0] == u then 1 else 0) + Occurrences(urls[1..], u);
      CountsAreOccurrences(IncrementCounter(m, urls[0]), urls[1..], u);
    }
  }

  /** `getAllCounts`: a new map with the current value of every counter. */
  function GetAllCounts(m: LongCounters): (r: map<string, int>)
    ensures r.Keys == m.Keys
    ensures forall u :: u in m ==> r[u] == m[u]
  {
    map u | u in m :: m[u] as int
  }

  // ---------------------------------------------------------------------
  // VisitCounter
  // ---------------------------------------------------------------------

  type IntCounters = map<string, Int32>

  /** `increment`: an absent url becomes 1, a present one goes up by one. */
  function Increment(m: IntCounters, url: string): (r: IntCounters)
    ensures r.Keys == m.Keys + {url}
    ensures url !in m ==> r[url] == 1
    ensures url in m && m[url] < INT_MAX ==> r[url] == m[url] + 1
    ensures url in m && m[url] == INT_MAX ==> r[url] == INT_MIN
    ensures forall u :: u in m && u != url ==> r[u] == m[u]
  {
    m[url := if url in m then Inc32(m[url]) else 1]
  }

  /** `getCount`: the count, 0 for a url never incremented. */
  function GetCount(m: IntCounters, url: string): (r: Int32)
    ensures url !in m ==> r == 0
    ensures url in m ==> r == m[url]
  {
    if url in m then m[url] else 0
  }

  /** `n` increments of one url. */
  function IncrementTimes(m: IntCounters, url: string, n: nat): IntCounters
  {
    if n == 0 then m else Increment(IncrementTimes(m, url, n - 1), url)
  }

  /**
   * `n` increments raise `getCount` by `n` as long as the result fits in
   * an `int`, and leave every other url alone.
   */
  lemma {:induction false} IncrementTimesAddsN(m: IntCounters, url: string, n: nat)
    requires 0 <= GetCount(m, url) && GetCount(m, url) + n <= INT_MAX
    ensures GetCount(IncrementTimes(m, url, n), url) == GetCount(m, url) + n
    ensures forall u :: u != url ==> GetCount(IncrementTimes(m, url, n), u) == GetCount(m, u)
  {
    if n > 0 {
      IncrementTimesAddsN(m, url, n - 1);
    }
  }

  /** One increment past `Integer.MAX_VALUE` wraps to `Integer.MIN_VALUE`. */
  lemma IncrementPastMaxWraps(m: IntCounters, url: string)
    requires GetCount(m, url) == INT_MAX
    ensures GetCount(Increment(m, url), url) == INT_MIN
  {
  }

  /**
   * `getAllCounts`: a copy of the counts. Maps are values here, so later
   * increments cannot reach a copy already handed out.
   */
  function CopyCounts(m: IntCounters): (r: map<string, int>)
    ensures r.Keys == m.Keys
    ensures forall u :: u in m ==> r[u] == GetCount(m, u)
  {
    map u | u in m :: m[u] as int
  }
}
