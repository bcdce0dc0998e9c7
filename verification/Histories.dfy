/** What has held since some event of a history, with no later event to end it. */
module Histories {

  /** Started at i, and not stopped from then to n. */
  predicate SinceAt(start: seq<bool>, stop: seq<bool>, i: nat, n: nat)
    requires n <= |start| && n <= |stop|
  {
    i < n && start[i] && forall j | i < j < n :: !stop[j]
  }

  ghost predicate Since(start: seq<bool>, stop: seq<bool>, n: nat)
    requires n <= |start| && n <= |stop|
  {
    exists i: nat :: SinceAt(start, stop, i, n)
  }

  lemma SinceStep(start: seq<bool>, stop: seq<bool>, n: nat)
    requires n < |start| && n < |stop|
    ensures Since(start, stop, n + 1) <==> start[n] || (Since(start, stop, n) && !stop[n])
  {
    if Since(start, stop, n) {
      var i: nat :| SinceAt(start, stop, i, n);
      assert SinceAt(start, stop, i, n + 1) <==> !stop[n];
    }
    if Since(start, stop, n + 1) {
      var i: nat :| SinceAt(start, stop, i, n + 1);
      assert i < n ==> SinceAt(start, stop, i, n) && !stop[n];
    }
    assert SinceAt(start, stop, n, n + 1) <==> start[n];
  }

  /** The last flagged index below n, or -1. */
  function Last(flags: seq<bool>, n: nat): (k: int)
    requires n <= |flags|
    ensures -1 <= k < n
    ensures k >= 0 ==> flags[k]
    ensures forall j | k < j < n :: !flags[j]
  {
    if n == 0 then -1
    else if flags[n - 1] then n - 1
    else Last(flags, n - 1)
  }

  lemma LastStable(flags: seq<bool>, k: nat, n: nat)
    requires k <= n <= |flags| && Last(flags, n) < k
    ensures Last(flags, k) == Last(flags, n)
  {
  }

  /** Only the last start matters. */
  lemma SinceLast(start: seq<bool>, stop: seq<bool>, n: nat)
    requires n <= |start| && n <= |stop|
    ensures Since(start, stop, n)
            <==> Last(start, n) >= 0 && forall j | Last(start, n) < j < n :: !stop[j]
  {
    var k := Last(start, n);
    if i: nat :| SinceAt(start, stop, i, n) {
      assert i <= k;
    }
    if k >= 0 && forall j | k < j < n :: !stop[j] {
      assert SinceAt(start, stop, k, n);
    }
  }

  /** Flagged one after the other. */
  predicate Consecutive(flags: seq<bool>, k: nat, l: nat) {
    k < l < |flags| && flags[k] && flags[l] && forall m | k < m < l :: !flags[m]
  }

  /** The last flagged index before j is the last before n too, or has a next one from j on. */
  lemma NextAfter(flags: seq<bool>, j: nat, n: nat) returns (l: nat)
    requires j <= n <= |flags| && Last(flags, j) >= 0
    ensures l == n ==> Last(flags, n) == Last(flags, j)
    ensures l != n ==> j <= l < n && Consecutive(flags, Last(flags, j), l)
  {
    l := j;
    while l < n && !flags[l]
      invariant j <= l <= n && forall m | Last(flags, j) < m < l :: !flags[m]
    {
      l := l + 1;
    }
  }
}
