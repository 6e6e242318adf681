/**
 The rate limiter: at most `maxCount` calls while a counter's window lasts. The window is fixed,
 not sliding, so the bound over an arbitrary interval of the window's length is larger; both
 bounds are exact here.
 */
module RateLimiting {
  import opened Common
  import opened TimedCache

  class RateLimiter {
    const store: MemoryCache

    constructor (store: MemoryCache)
      ensures this.store == store
    {
      this.store := store;
    }

    method Check(key: string, maxCount: nat, windowSecs: nat, now: nat) returns (allowed: bool)
      modifies store
      ensures var (m, answer) := CacheStep(old(store.entries), Step(now, Incr("ratelimit:" + key, 1, windowSecs)));
              store.entries == m && answer.Count? && allowed == (answer.n <= maxCount)
    {
      var fullKey := "ratelimit:" + key;
      var count := store.IncrWithExpire(fullKey, 1, windowSecs, now);
      allowed := count <= maxCount;
    }
  }

  /** All calls on one limiter key: each adds one, under one window length. */
  ghost predicate LimiterCalls(calls: seq<Call>, window: nat) {
    |calls| <= I64_MAX && forall i :: 0 <= i < |calls| ==> calls[i].delta == 1 && calls[i].window == window
  }

  ghost predicate InTimeOrder(calls: seq<Call>) {
    forall i, j :: 0 <= i <= j < |calls| ==> calls[i].now <= calls[j].now
  }

  /** Whether call `n` is allowed: the count it is answered with is within the limit. */
  predicate Allowed(calls: seq<Call>, maxCount: nat, n: nat)
    requires n < |calls|
  {
    WindowSum(calls[..n + 1]) <= maxCount
  }

  /**
   In any run of the cache in which only checks touch a limiter key, the next check on that key is
   answered by `Allowed`.
   */
  lemma CheckIsAllowed(steps: seq<Step>, key: string, windowSecs: nat, maxCount: nat, now: nat)
    requires OnlyCounts(steps + [Step(now, Incr(key, 1, windowSecs))], key)
    ensures var all := steps + [Step(now, Incr(key, 1, windowSecs))];
            var calls, answers := CallsOn(all, key), CacheRun(all).1;
            && calls != [] && |answers| > 0 && answers[|answers| - 1].Count?
            && (answers[|answers| - 1].n <= maxCount <==> Allowed(calls, maxCount, |calls| - 1))
  {
    var s := Step(now, Incr(key, 1, windowSecs));
    IncrAnswersWindowSum(steps, key, s);
    var calls := CallsOn(steps + [s], key);
    assert calls[..|calls|] == calls;
  }

  /** How many of the calls from `lo` up to `hi` are allowed. */
  function CountAllowed(calls: seq<Call>, maxCount: nat, lo: nat, hi: nat): nat
    requires lo <= hi <= |calls|
  {
    if lo == hi then 0
    else CountAllowed(calls, maxCount, lo, hi - 1) + (if Allowed(calls, maxCount, hi - 1) then 1 else 0)
  }

  lemma {:induction false} SumOfOnes(calls: seq<Call>, window: nat, from: nat, to: nat)
    requires from <= to <= |calls| && LimiterCalls(calls, window)
    ensures SumOfDeltas(calls, from, to) == to - from
  {
    if from < to {
      SumOfOnes(calls, window, from, to - 1);
    }
  }

  lemma {:induction false} StartOfPrefix(calls: seq<Call>, m: nat, n: nat)
    requires n < m <= |calls|
    ensures WindowStart(calls[..m], n) == WindowStart(calls, n)
  {
    if n > 0 {
      StartOfPrefix(calls, m, n - 1);
    }
  }

  /** A call is allowed exactly when fewer than `maxCount` calls precede it in its window. */
  lemma AllowedIff(calls: seq<Call>, window: nat, maxCount: nat, n: nat)
    requires n < |calls| && LimiterCalls(calls, window)
    ensures Allowed(calls, maxCount, n) <==> n - WindowStart(calls, n) < maxCount
  {
    var upTo, s := calls[..n + 1], WindowStart(calls, n);
    StartOfPrefix(calls, n + 1, n);
    assert LimiterCalls(upTo, window) by {
      assert forall i :: 0 <= i <= n ==> upTo[i] == calls[i];
    }
    SumOfOnes(upTo, window, s, n + 1);
    assert SumOfDeltas(upTo, WindowStart(upTo, n), n + 1) == n + 1 - s;
  }

  lemma {:induction false} WindowIsContiguous(calls: seq<Call>, n: nat, k: nat)
    requires n < |calls| && WindowStart(calls, n) <= k <= n
    ensures WindowStart(calls, k) == WindowStart(calls, n)
  {
    if k < n {
      WindowIsContiguous(calls, n - 1, k);
    }
  }

  /** The calls from `lo` up to `hi` all fall into the window that call `s` opened. */
  ghost predicate InWindow(calls: seq<Call>, s: nat, lo: nat, hi: nat) {
    s <= lo <= hi <= |calls| && forall n :: lo <= n < hi ==> WindowStart(calls, n) == s
  }

  /**
   Each window allows its first `maxCount` calls and no more: of those from `lo` up to `hi`, the
   ones among its first `maxCount`. For a whole window of `k` calls that is `min(k, maxCount)`.
   */
  lemma {:induction false} WindowAllowsExactly(calls: seq<Call>, window: nat, maxCount: nat, s: nat, lo: nat, hi: nat)
    requires LimiterCalls(calls, window) && InWindow(calls, s, lo, hi)
    ensures CountAllowed(calls, maxCount, lo, hi) == Max(Min(hi, s + maxCount) - lo, 0)
    ensures lo == s ==> CountAllowed(calls, maxCount, lo, hi) == Min(hi - lo, maxCount)
  {
    if lo < hi {
      WindowAllowsExactly(calls, window, maxCount, s, lo, hi - 1);
      AllowedIff(calls, window, maxCount, hi - 1);
      assert WindowStart(calls, hi - 1) == s;
    }
  }

  lemma {:induction false} CountSplit(calls: seq<Call>, maxCount: nat, lo: nat, mid: nat, hi: nat)
    requires lo <= mid <= hi <= |calls|
    ensures CountAllowed(calls, maxCount, lo, hi)
         == CountAllowed(calls, maxCount, lo, mid) + CountAllowed(calls, maxCount, mid, hi)
  {
    if mid < hi {
      CountSplit(calls, maxCount, lo, mid, hi - 1);
    }
  }

  /** A window that follows another starts at least one window length after the other's start. */
  lemma WindowsAreApart(calls: seq<Call>, window: nat, s: nat)
    requires 0 < s < |calls| && LimiterCalls(calls, window) && WindowStart(calls, s) == s
    ensures calls[WindowStart(calls, s - 1)].now + window <= calls[s].now
  {
  }

  lemma RestOfWindow(calls: seq<Call>, lo: nat, hi: nat)
    requires lo < hi <= |calls| && WindowStart(calls, hi - 1) <= lo
    ensures InWindow(calls, WindowStart(calls, hi - 1), lo, hi)
  {
    forall n | lo <= n < hi
      ensures WindowStart(calls, n) == WindowStart(calls, hi - 1)
    {
      WindowIsContiguous(calls, hi - 1, n);
    }
  }

  /** The calls from `lo` up to `hi` fall into the half-open interval of one window length from `start`. */
  ghost predicate WithinInterval(calls: seq<Call>, window: nat, start: nat, lo: nat, hi: nat) {
    lo <= hi <= |calls| && forall n :: lo <= n < hi ==> start <= calls[n].now < start + window
  }

  /** The call that opened the window before the one that call `s` opened. */
  function WindowBefore(calls: seq<Call>, s: nat): nat
    requires 0 < s < |calls|
  {
    WindowStart(calls, s - 1)
  }

  /** When two windows share the interval, the first one's opening call lies before it, so there is no third. */
  lemma TwoWindows(calls: seq<Call>, window: nat, start: nat, lo: nat, hi: nat)
    requires LimiterCalls(calls, window) && InTimeOrder(calls)
    requires lo < hi && WithinInterval(calls, window, start, lo, hi) && lo < WindowStart(calls, hi - 1)
    ensures var s := WindowStart(calls, hi - 1);
            && WindowBefore(calls, s) < lo
            && InWindow(calls, WindowBefore(calls, s), lo, s) && InWindow(calls, s, s, hi)
  {
    var s := WindowStart(calls, hi - 1);
    WindowIsContiguous(calls, hi - 1, s);
    WindowsAreApart(calls, window, s);
    assert start <= calls[lo].now && calls[s].now <= calls[hi - 1].now < start + window;
    RestOfWindow(calls, lo, s);
    RestOfWindow(calls, s, hi);
  }

  /** Two windows in a row, the first from `lo` on. */
  lemma TwoWindowCount(calls: seq<Call>, window: nat, maxCount: nat, r: nat, s: nat, lo: nat, hi: nat)
    requires LimiterCalls(calls, window) && InWindow(calls, r, lo, s) && InWindow(calls, s, s, hi)
    ensures CountAllowed(calls, maxCount, lo, hi) == Max(Min(s, r + maxCount) - lo, 0) + Min(hi - s, maxCount)
  {
    WindowAllowsExactly(calls, window, maxCount, r, lo, s);
    WindowAllowsExactly(calls, window, maxCount, s, s, hi);
    CountSplit(calls, maxCount, lo, s, hi);
  }

  /** The number of calls from `lo` to `hi` among the first `maxCount` of the windows opened by `r` and by `s`. */
  function FirstOfWindows(maxCount: nat, r: nat, s: nat, lo: nat, hi: nat): int {
    if s <= lo then Max(Min(hi, s + maxCount) - lo, 0)
    else Max(Min(s, r + maxCount) - lo, 0) + Min(hi - s, maxCount)
  }

  /**
   How many calls of an interval are allowed, exactly: of each of the one or two windows in it, those
   among the window's first `maxCount`. The earlier window began before the interval's first call.
   */
  lemma IntervalCount(calls: seq<Call>, window: nat, maxCount: nat, start: nat, lo: nat, hi: nat) returns (r: nat, s: nat)
    requires LimiterCalls(calls, window) && InTimeOrder(calls)
    requires lo < hi && WithinInterval(calls, window, start, lo, hi)
    ensures s == WindowStart(calls, hi - 1) && (s <= lo ==> r == s)
    ensures lo < s ==> r == WindowBefore(calls, s) && r < lo
    ensures CountAllowed(calls, maxCount, lo, hi) == FirstOfWindows(maxCount, r, s, lo, hi)
  {
    s := WindowStart(calls, hi - 1);
    if s <= lo {
      r := s;
      RestOfWindow(calls, lo, hi);
      WindowAllowsExactly(calls, window, maxCount, s, lo, hi);
    } else {
      r := WindowBefore(calls, s);
      TwoWindows(calls, window, start, lo, hi);
      TwoWindowCount(calls, window, maxCount, r, s, lo, hi);
    }
  }

  /**
   The bound over any stretch of time: in any half-open interval as long as the window, fewer than
   twice `maxCount` calls are allowed.
   */
  lemma IntervalBound(calls: seq<Call>, window: nat, maxCount: nat, start: nat, lo: nat, hi: nat)
    requires LimiterCalls(calls, window) && InTimeOrder(calls) && WithinInterval(calls, window, start, lo, hi)
    ensures CountAllowed(calls, maxCount, lo, hi) <= Max(2 * maxCount - 1, 0)
  {
    if lo < hi {
      var r, s := IntervalCount(calls, window, maxCount, start, lo, hi);
    }
  }

  // ----- the bound is reached -----

  /** One call opens a window; the limit is used up at its end, and again as the next one begins. */
  function Burst(window: nat, maxCount: nat): seq<Call>
    requires 1 <= maxCount && 2 <= window
  {
    seq(2 * maxCount, i => Call(if i == 0 then 0 else if i < maxCount then window - 1 else window, 1, window))
  }

  lemma {:induction false} BurstWindows(window: nat, maxCount: nat, n: nat)
    requires 1 <= maxCount && 2 <= window && n < 2 * maxCount
    ensures WindowStart(Burst(window, maxCount), n) == if n < maxCount then 0 else maxCount
  {
    if n > 0 {
      BurstWindows(window, maxCount, n - 1);
    }
  }

  lemma {:induction false} BurstAllowed(window: nat, maxCount: nat, hi: nat)
    requires 1 <= maxCount <= I64_MAX / 2 && 2 <= window && 1 <= hi <= 2 * maxCount
    ensures CountAllowed(Burst(window, maxCount), maxCount, 1, hi) == hi - 1
  {
    if hi > 1 {
      BurstAllowed(window, maxCount, hi - 1);
      BurstWindows(window, maxCount, hi - 1);
      AllowedIff(Burst(window, maxCount), window, maxCount, hi - 1);
    }
  }

  /** These calls all fall within one window length, and `2 * maxCount - 1` of them are allowed. */
  lemma IntervalBoundIsReached(window: nat, maxCount: nat)
    requires 1 <= maxCount <= I64_MAX / 2 && 2 <= window
    ensures var calls := Burst(window, maxCount);
            && LimiterCalls(calls, window) && InTimeOrder(calls)
            && WithinInterval(calls, window, 1, 1, |calls|)
            && CountAllowed(calls, maxCount, 1, |calls|) == 2 * maxCount - 1
  {
    BurstAllowed(window, maxCount, 2 * maxCount);
  }

  // ----- the documented promise -----

  const U32_MAX: nat := 0xFFFF_FFFF

  /** A sliding window: at most `maxCount` allowed calls in any interval of one window length. */
  ghost predicate Promise(window: nat, maxCount: nat) {
    forall calls, start: nat, lo: nat, hi: nat ::
      LimiterCalls(calls, window) && InTimeOrder(calls) && WithinInterval(calls, window, start, lo, hi)
      ==> CountAllowed(calls, maxCount, lo, hi) <= maxCount
  }

  /** A call lies within the window that its opening call began. */
  lemma CallInItsWindow(calls: seq<Call>, window: nat, n: nat)
    requires n < |calls| && LimiterCalls(calls, window) && 0 < window
    ensures calls[n].now < calls[WindowStart(calls, n)].now + window
  {
  }

  /** An interval of a single instant lies in one window. */
  lemma OneInstant(calls: seq<Call>, maxCount: nat, start: nat, lo: nat, hi: nat)
    requires LimiterCalls(calls, 1) && InTimeOrder(calls) && WithinInterval(calls, 1, start, lo, hi)
    ensures CountAllowed(calls, maxCount, lo, hi) <= maxCount
  {
    if lo < hi {
      var r, s := IntervalCount(calls, 1, maxCount, start, lo, hi);
      if lo < s {
        TwoWindows(calls, 1, start, lo, hi);
        CallInItsWindow(calls, 1, lo);
        assert WindowStart(calls, lo) == WindowBefore(calls, s);
        WindowIsContiguous(calls, hi - 1, s);
        WindowsAreApart(calls, 1, s);
        assert false;
      }
    }
  }

  /**
   When the documented promise holds: exactly for limits of at most one, or windows too short to hold
   two instants. For every other setting a burst across two windows breaks it.
   */
  lemma PromiseIff(window: nat, maxCount: nat)
    requires maxCount <= U32_MAX
    ensures Promise(window, maxCount) <==> maxCount <= 1 || window <= 1
  {
    if maxCount <= 1 || window <= 1 {
      forall calls, start: nat, lo: nat, hi: nat
        | LimiterCalls(calls, window) && InTimeOrder(calls) && WithinInterval(calls, window, start, lo, hi)
        ensures CountAllowed(calls, maxCount, lo, hi) <= maxCount
      {
        if window == 1 {
          OneInstant(calls, maxCount, start, lo, hi);
        } else {
          IntervalBound(calls, window, maxCount, start, lo, hi);
          assert window == 0 ==> lo == hi;
        }
      }
    } else {
      IntervalBoundIsReached(window, maxCount);
      var calls := Burst(window, maxCount);
      assert CountAllowed(calls, maxCount, 1, |calls|) > maxCount;
    }
  }
}
