/**
 The fixed-window rate limiter. A check reads the clock before it takes the mutex, so readings in the order of
 the log need not be monotone. What a check answers is stated for any readings, and that windows keep to the limit
 exactly for those that do not return to a used-up window.
 */
module RateLimiter {
  import opened Basics

  type Seconds = n: int | n > 0 witness 1

  datatype Bucket = Bucket(windowStart: int, count: int)

  datatype Call = Call(key: string, limit: int, window: Seconds, now: int)

  datatype Verdict = Verdict(allowed: bool, limit: int, remaining: int, resetAt: int)

  /** Integer division of C++, which truncates towards zero. */
  function TruncDiv(a: int, b: Seconds): int {
    if a >= 0 then a / b else -((-a) / b)
  }

  function WindowStart(now: int, window: Seconds): int {
    TruncDiv(now, window) * window
  }

  /** `buckets_[key]`, which creates an empty bucket for a new key. */
  function BucketOf(buckets: map<string, Bucket>, key: string): Bucket {
    if key in buckets then buckets[key] else Bucket(0, 0)
  }

  function Rolled(bucket: Bucket, windowStart: int): Bucket {
    if bucket.windowStart != windowStart then Bucket(windowStart, 0) else bucket
  }

  function Judge(buckets: map<string, Bucket>, c: Call): Verdict {
    var start := WindowStart(c.now, c.window);
    var bucket := Rolled(BucketOf(buckets, c.key), start);
    if bucket.count >= c.limit then Verdict(false, c.limit, 0, start + c.window)
    else Verdict(true, c.limit, c.limit - (bucket.count + 1), start + c.window)
  }

  function Record(buckets: map<string, Bucket>, c: Call): map<string, Bucket> {
    var bucket := Rolled(BucketOf(buckets, c.key), WindowStart(c.now, c.window));
    buckets[c.key := if bucket.count >= c.limit then bucket else bucket.(count := bucket.count + 1)]
  }

  class FixedWindowRateLimiter {
    var buckets: map<string, Bucket>

    constructor ()
      ensures buckets == map[]
    {
      buckets := map[];
    }

    method Check(key: string, limit: int, window: Seconds, now: int) returns (verdict: Verdict)
      modifies this
      ensures verdict == Judge(old(buckets), Call(key, limit, window, now))
      ensures buckets == Record(old(buckets), Call(key, limit, window, now))
    {
      var windowStart := TruncDiv(now, window) * window;
      var resetAt := windowStart + window;
      if key !in buckets {
        buckets := buckets[key := Bucket(0, 0)];
      }
      if buckets[key].windowStart != windowStart {
        buckets := buckets[key := Bucket(windowStart, 0)];
      }
      if buckets[key].count >= limit {
        return Verdict(false, limit, 0, resetAt);
      }
      buckets := buckets[key := buckets[key].(count := buckets[key].count + 1)];
      return Verdict(true, limit, limit - buckets[key].count, resetAt);
    }
  }

  // ---------- arithmetic of windows ----------

  lemma DivideBounds(a: int, b: Seconds)
    requires a >= 0
    ensures (a / b) * b <= a < (a / b) * b + b
  {
  }

  lemma LessMultiple(p: int, q: int, b: Seconds)
    requires p < q
    ensures p * b + b <= q * b
  {
    var gap: nat := q - p - 1;
    assert q * b == (p + 1 + gap) * b == p * b + b + gap * b;
    assert gap * b >= 0;
  }

  lemma MultipleOrder(p: int, q: int, b: Seconds)
    ensures p <= q <==> p * b <= q * b
    ensures p < q ==> p * b + b <= q * b
  {
    if p < q {
      LessMultiple(p, q, b);
    } else if q < p {
      LessMultiple(q, p, b);
    }
  }

  lemma TruncDivBounds(a: int, b: Seconds)
    ensures a >= 0 ==> WindowStart(a, b) <= a < WindowStart(a, b) + b
    ensures a < 0 ==> a <= WindowStart(a, b) < a + b
  {
    DivideBounds(if a >= 0 then a else -a, b);
    var q := (-a) / b;
    assert (-q) * b == -(q * b);
  }

  /** Truncated quotients p of a and q of b are in the order of a and b. */
  lemma QuotientsInOrder(a: int, p: int, b: int, q: int, w: Seconds)
    requires a <= b
    requires a >= 0 ==> p * w <= a < p * w + w
    requires a < 0 ==> a <= p * w < a + w
    requires b >= 0 ==> q * w <= b < q * w + w
    requires b < 0 ==> b <= q * w < b + w
    ensures p <= q
  {
    if q < p {
      LessMultiple(q, p, w);
    }
  }

  lemma TruncDivMonotone(a: int, b: int, w: Seconds)
    requires a <= b
    ensures TruncDiv(a, w) <= TruncDiv(b, w)
  {
    TruncDivBounds(a, w);
    TruncDivBounds(b, w);
    QuotientsInOrder(a, TruncDiv(a, w), b, TruncDiv(b, w), w);
  }

  lemma WindowStartMonotone(a: int, b: int, w: Seconds)
    requires a <= b
    ensures WindowStart(a, w) <= WindowStart(b, w)
  {
    TruncDivMonotone(a, b, w);
    MultipleOrder(TruncDiv(a, w), TruncDiv(b, w), w);
  }

  lemma MultipleHasNoRemainder(x: int, q: int, b: Seconds)
    requires x == q * b
    ensures x % b == 0
  {
    var p, r := x / b, x % b;
    assert x == p * b + r;
    if p < q {
      LessMultiple(p, q, b);
    } else if q < p {
      LessMultiple(q, p, b);
    }
  }

  /**
   The announced reset is the first multiple of the window that lies ahead. Before the epoch, where truncation rounds
   the other way, it is the second one unless the clock stands on a multiple. So it is at most one window away exactly
   when the clock is not before the epoch or stands on a multiple.
   */
  lemma ResetIsAhead(buckets: map<string, Bucket>, c: Call)
    ensures (Judge(buckets, c).resetAt - c.window) % c.window == 0
    ensures c.now >= 0 ==> Judge(buckets, c).resetAt - c.window <= c.now < Judge(buckets, c).resetAt
    ensures c.now < 0 ==> Judge(buckets, c).resetAt - 2 * c.window < c.now <= Judge(buckets, c).resetAt - c.window
    ensures c.now < Judge(buckets, c).resetAt && Judge(buckets, c).limit == c.limit
    ensures Judge(buckets, c).resetAt <= c.now + c.window <==> c.now >= 0 || WindowStart(c.now, c.window) == c.now
  {
    TruncDivBounds(c.now, c.window);
    MultipleHasNoRemainder(WindowStart(c.now, c.window), TruncDiv(c.now, c.window), c.window);
  }

  // ---------- the log of checks ----------

  function After(log: seq<Call>): map<string, Bucket> {
    if log == [] then map[] else Record(After(log[..|log| - 1]), log[|log| - 1])
  }

  function VerdictAt(log: seq<Call>, i: nat): Verdict
    requires i < |log|
  {
    Judge(After(log[..i]), log[i])
  }

  predicate InWindow(c: Call, key: string, start: int) {
    c.key == key && WindowStart(c.now, c.window) == start
  }

  predicate Elsewhere(c: Call, key: string, start: int) {
    c.key == key && WindowStart(c.now, c.window) != start
  }

  /** The checks of `key` in the log whose window starts at `start`, and how many of them were allowed. */
  function CallsIn(log: seq<Call>, key: string, start: int): nat {
    if log == [] then 0
    else CallsIn(log[..|log| - 1], key, start) + if InWindow(log[|log| - 1], key, start) then 1 else 0
  }

  function AllowedIn(log: seq<Call>, key: string, start: int): nat {
    if log == [] then 0
    else
      var n := |log| - 1;
      AllowedIn(log[..n], key, start) + if InWindow(log[n], key, start) && VerdictAt(log, n).allowed then 1 else 0
  }

  /** The checks of `key` among `log[from..]`, and how many of them were allowed. */
  function Calls(log: seq<Call>, key: string, from: nat): nat {
    if |log| <= from then 0
    else Calls(log[..|log| - 1], key, from) + if log[|log| - 1].key == key then 1 else 0
  }

  function Allowed(log: seq<Call>, key: string, from: nat): nat {
    if |log| <= from then 0
    else
      Allowed(log[..|log| - 1], key, from)
      + if log[|log| - 1].key == key && VerdictAt(log, |log| - 1).allowed then 1 else 0
  }

  ghost predicate SameLimit(log: seq<Call>, key: string, limit: int) {
    forall i | 0 <= i < |log| && log[i].key == key :: log[i].limit == limit
  }

  ghost predicate Uniform(log: seq<Call>, key: string, limit: int, window: Seconds) {
    SameLimit(log, key, limit) && forall i | 0 <= i < |log| && log[i].key == key :: log[i].window == window
  }

  function AtLeastZero(n: int): nat {
    if n < 0 then 0 else n
  }

  function Min(a: int, b: int): int {
    if a < b then a else b
  }

  // ---------- any clock: blocks of checks in one window ----------

  /** Window of the last check of `key` in the log. */
  function LastWindow(log: seq<Call>, key: string): Option<int> {
    if log == [] then None
    else if log[|log| - 1].key == key then Some(WindowStart(log[|log| - 1].now, log[|log| - 1].window))
    else LastWindow(log[..|log| - 1], key)
  }

  lemma {:induction false} BucketIsInLastWindow(log: seq<Call>, key: string)
    ensures LastWindow(log, key) == if key in After(log) then Some(After(log)[key].windowStart) else None
  {
    if log != [] {
      BucketIsInLastWindow(log[..|log| - 1], key);
    }
  }

  /**
   Whatever the clock does, a block of consecutive checks of a key that fall in one window, not preceded by a check
   of the key in that window, allows the smaller of the limit and its length.
   */
  lemma {:induction false} BlockAllowsUpToLimit(log: seq<Call>, key: string, from: nat, limit: int, start: int)
    requires from <= |log| && LastWindow(log[..from], key) != Some(start)
    requires forall i | from <= i < |log| && log[i].key == key :: log[i].limit == limit && InWindow(log[i], key, start)
    ensures Allowed(log, key, from) == AtLeastZero(Min(limit, Calls(log, key, from)))
    ensures Calls(log, key, from) > 0 ==>
              key in After(log) && After(log)[key] == Bucket(start, Allowed(log, key, from))
    ensures Calls(log, key, from) == 0 ==> BucketOf(After(log), key) == BucketOf(After(log[..from]), key)
  {
    if from < |log| {
      var before := log[..|log| - 1];
      assert before[..from] == log[..from];
      BlockAllowsUpToLimit(before, key, from, limit, start);
      BucketIsInLastWindow(log[..from], key);
    } else {
      assert log[..from] == log;
    }
  }

  /** Where the checks of `key` at the end of the log begin that all fall in the window at `start`. */
  function BlockStart(log: seq<Call>, key: string, start: int): (from: nat)
    ensures from <= |log|
  {
    if log == [] then 0
    else if Elsewhere(log[|log| - 1], key, start) then |log|
    else BlockStart(log[..|log| - 1], key, start)
  }

  lemma {:induction false} BlockStartBounds(log: seq<Call>, key: string, start: int)
    ensures var from := BlockStart(log, key, start);
            && LastWindow(log[..from], key) != Some(start)
            && (from > 0 ==> Elsewhere(log[from - 1], key, start))
            && forall i | from <= i < |log| && log[i].key == key :: InWindow(log[i], key, start)
  {
    if log != [] {
      var before, from := log[..|log| - 1], BlockStart(log, key, start);
      if Elsewhere(log[|log| - 1], key, start) {
        assert log[..from] == log;
      } else {
        BlockStartBounds(before, key, start);
        assert before[..from] == log[..from];
      }
    }
  }

  /** How many checks of the key came before check i without leaving its window. */
  function BlockBefore(log: seq<Call>, i: nat): nat
    requires i < |log|
  {
    var key, start := log[i].key, WindowStart(log[i].now, log[i].window);
    Calls(log[..i], key, BlockStart(log[..i], key, start))
  }

  /**
   Whatever the clock does, a check is allowed exactly when fewer than `limit` checks of its key came before it
   without leaving its window, and what remains is the limit less those and itself.
   */
  lemma VerdictByBlock(log: seq<Call>, i: nat, limit: int)
    requires i < |log| && SameLimit(log[..i + 1], log[i].key, limit)
    ensures VerdictAt(log, i).allowed <==> BlockBefore(log, i) < limit
    ensures VerdictAt(log, i).remaining == AtLeastZero(limit - BlockBefore(log, i) - 1)
  {
    var c, before, start := log[i], log[..i], WindowStart(log[i].now, log[i].window);
    var from := BlockStart(before, c.key, start);
    assert log[..i + 1][i] == c && forall j | 0 <= j < i :: before[j] == log[..i + 1][j];
    BlockStartBounds(before, c.key, start);
    BlockAllowsUpToLimit(before, c.key, from, limit, start);
    BucketIsInLastWindow(before[..from], c.key);
  }

  // ---------- when the limit holds for whole windows ----------

  /** Check j comes back to a window that checks of its key had left. */
  ghost predicate Returns(log: seq<Call>, j: nat)
    requires j < |log|
  {
    var key, start := log[j].key, WindowStart(log[j].now, log[j].window);
    exists i, k :: 0 <= i < k < j && InWindow(log[i], key, start) && Elsewhere(log[k], key, start)
  }

  /** No check of `key` comes back to a window that already had `limit` checks, if the limit is one at all. */
  ghost predicate NoLateReturn(log: seq<Call>, key: string, limit: int) {
    limit > 0 ==> forall j | 0 <= j < |log| && log[j].key == key && Returns(log, j) ::
                    CallsIn(log[..j], key, WindowStart(log[j].now, log[j].window)) < limit
  }

  /** Check j is allowed exactly when fewer than `limit` earlier checks of its key were allowed in its window. */
  ghost predicate MeetsHistoryAt(log: seq<Call>, j: nat, limit: int)
    requires j < |log|
  {
    VerdictAt(log, j).allowed
    <==> AllowedIn(log[..j], log[j].key, WindowStart(log[j].now, log[j].window)) < limit
  }

  ghost predicate MeetsHistory(log: seq<Call>, key: string, limit: int) {
    forall j | 0 <= j < |log| && log[j].key == key :: MeetsHistoryAt(log, j, limit)
  }

  lemma {:induction false} WindowSplits(log: seq<Call>, key: string, from: nat, start: int)
    requires from <= |log|
    requires forall i | from <= i < |log| && log[i].key == key :: InWindow(log[i], key, start)
    ensures CallsIn(log, key, start) == CallsIn(log[..from], key, start) + Calls(log, key, from)
    ensures AllowedIn(log, key, start) == AllowedIn(log[..from], key, start) + Allowed(log, key, from)
  {
    if from < |log| {
      var before := log[..|log| - 1];
      assert before[..from] == log[..from];
      WindowSplits(before, key, from, start);
    } else {
      assert log[..from] == log;
    }
  }

  lemma {:induction false} CallsInCounts(log: seq<Call>, key: string, start: int)
    ensures AllowedIn(log, key, start) <= CallsIn(log, key, start)
    ensures CallsIn(log, key, start) > 0 <==> exists i :: 0 <= i < |log| && InWindow(log[i], key, start)
  {
    if log != [] {
      var before := log[..|log| - 1];
      CallsInCounts(before, key, start);
      if CallsIn(log, key, start) > 0 && CallsIn(before, key, start) == 0 {
        assert InWindow(log[|log| - 1], key, start);
      }
    }
  }

  /** What the log before a check says about its window: the block it extends, and what came before that block. */
  lemma WindowBefore(log: seq<Call>, j: nat, limit: int)
    requires j < |log| && SameLimit(log[..j], log[j].key, limit)
    ensures var key, start, before := log[j].key, WindowStart(log[j].now, log[j].window), log[..j];
            var from := BlockStart(before, key, start);
            && CallsIn(before, key, start) == CallsIn(before[..from], key, start) + BlockBefore(log, j)
            && AllowedIn(before, key, start)
               == AllowedIn(before[..from], key, start) + AtLeastZero(Min(limit, BlockBefore(log, j)))
            && AllowedIn(before[..from], key, start) <= CallsIn(before[..from], key, start)
            && (Returns(log, j) <==> CallsIn(before[..from], key, start) > 0)
  {
    var key, start, before := log[j].key, WindowStart(log[j].now, log[j].window), log[..j];
    var from := BlockStart(before, key, start);
    BlockStartBounds(before, key, start);
    BlockAllowsUpToLimit(before, key, from, limit, start);
    WindowSplits(before, key, from, start);
    CallsInCounts(before[..from], key, start);
    if CallsIn(before[..from], key, start) > 0 {
      var i :| 0 <= i < |before[..from]| && InWindow(before[..from][i], key, start);
      assert InWindow(log[i], key, start) && Elsewhere(log[from - 1], key, start);
    }
    if Returns(log, j) {
      var i, k :| 0 <= i < k < j && InWindow(log[i], key, start) && Elsewhere(log[k], key, start);
      assert before[k] == log[k];
      assert InWindow(before[..from][i], key, start);
    }
  }

  /**
   A check that does not return to its window is allowed exactly when fewer than `limit` earlier checks were allowed
   in the window, and what remains is the limit less the checks allowed so far in it.
   */
  lemma LimiterMeetsHistory(log: seq<Call>, j: nat, limit: int)
    requires j < |log| && SameLimit(log[..j + 1], log[j].key, limit) && !Returns(log, j)
    ensures MeetsHistoryAt(log, j, limit)
    ensures VerdictAt(log, j).remaining
            == AtLeastZero(limit - AllowedIn(log[..j + 1], log[j].key, WindowStart(log[j].now, log[j].window)))
  {
    PrefixKeepsLimit(log, j, limit);
    VerdictByBlock(log, j, limit);
    WindowBefore(log, j, limit);
    NextAllowed(log, j);
  }

  lemma PrefixKeepsLimit(log: seq<Call>, j: nat, limit: int)
    requires j < |log| && SameLimit(log[..j + 1], log[j].key, limit)
    ensures SameLimit(log[..j], log[j].key, limit)
  {
    assert forall i | 0 <= i < j :: log[..j][i] == log[..j + 1][i];
  }

  lemma NextAllowed(log: seq<Call>, j: nat)
    requires j < |log|
    ensures var key, start := log[j].key, WindowStart(log[j].now, log[j].window);
            AllowedIn(log[..j + 1], key, start)
            == AllowedIn(log[..j], key, start) + if VerdictAt(log, j).allowed then 1 else 0
  {
    assert log[..j + 1][..j] == log[..j];
    assert VerdictAt(log[..j + 1], j) == VerdictAt(log, j);
  }

  lemma {:induction false} VisitedWindowAllowedOne(log: seq<Call>, key: string, limit: int, start: int)
    requires SameLimit(log, key, limit) && limit > 0 && CallsIn(log, key, start) > 0
    ensures AllowedIn(log, key, start) > 0
  {
    var n := |log| - 1;
    if CallsIn(log[..n], key, start) > 0 {
      VisitedWindowAllowedOne(log[..n], key, limit, start);
    } else {
      assert log[..n + 1] == log;
      PrefixKeepsLimit(log, n, limit);
      VerdictByBlock(log, n, limit);
      WindowBefore(log, n, limit);
    }
  }

  /** What is announced as remaining is right exactly when the check does not return or its block is used up. */
  lemma RemainingMetExactly(log: seq<Call>, j: nat, limit: int)
    requires j < |log| && SameLimit(log[..j + 1], log[j].key, limit)
    ensures VerdictAt(log, j).remaining
            == AtLeastZero(limit - AllowedIn(log[..j + 1], log[j].key, WindowStart(log[j].now, log[j].window)))
            <==> !Returns(log, j) || BlockBefore(log, j) + 1 >= limit
  {
    var key, start := log[j].key, WindowStart(log[j].now, log[j].window);
    var early := log[..j][..BlockStart(log[..j], key, start)];
    PrefixKeepsLimit(log, j, limit);
    VerdictByBlock(log, j, limit);
    WindowBefore(log, j, limit);
    NextAllowed(log, j);
    if Returns(log, j) && limit > 0 {
      VisitedWindowAllowedOne(early, key, limit, start);
    }
  }

  /** While the history is met, a window allows the smaller of the limit and its checks. */
  lemma {:induction false} MetWindowsFillUp(log: seq<Call>, key: string, limit: int, start: int)
    requires MeetsHistory(log, key, limit)
    ensures AllowedIn(log, key, start) == AtLeastZero(Min(limit, CallsIn(log, key, start)))
  {
    if log != [] {
      var n := |log| - 1;
      PrefixMeetsHistory(log, key, limit, n);
      MetWindowsFillUp(log[..n], key, limit, start);
      if InWindow(log[n], key, start) {
        assert MeetsHistoryAt(log, n, limit);
      }
    }
  }

  lemma PrefixMeetsHistory(log: seq<Call>, key: string, limit: int, n: nat)
    requires n <= |log| && MeetsHistory(log, key, limit)
    ensures MeetsHistory(log[..n], key, limit)
  {
    forall j | 0 <= j < n && log[j].key == key ensures MeetsHistoryAt(log[..n], j, limit) {
      assert log[..n][..j] == log[..j];
      assert MeetsHistoryAt(log, j, limit);
    }
  }

  /** The last check of `key` from `from` on. */
  lemma {:induction false} LastCall(log: seq<Call>, key: string, from: nat, start: int) returns (q: nat)
    requires Calls(log, key, from) > 0
    requires forall i | from <= i < |log| && log[i].key == key :: InWindow(log[i], key, start)
    ensures from <= q < |log| && InWindow(log[q], key, start)
    ensures CallsIn(log, key, start) == CallsIn(log[..q], key, start) + 1
  {
    var n := |log| - 1;
    if log[n].key == key {
      q := n;
    } else {
      q := LastCall(log[..n], key, from, start);
      assert log[..n][..q] == log[..q];
    }
  }

  /** The first check to come back to a used-up window is allowed although the window has no room. */
  lemma LateReturnBreaksHistory(log: seq<Call>, key: string, limit: int, j: nat)
    requires SameLimit(log, key, limit) && limit > 0
    requires j < |log| && log[j].key == key && Returns(log, j)
    requires CallsIn(log[..j], key, WindowStart(log[j].now, log[j].window)) >= limit
    ensures !MeetsHistory(log, key, limit)
    decreases j, 1
  {
    var start, before := WindowStart(log[j].now, log[j].window), log[..j];
    assert SameLimit(before, key, limit) && SameLimit(log[..j + 1], key, limit);
    WindowBefore(log, j, limit);
    VerdictByBlock(log, j, limit);
    if MeetsHistory(log, key, limit) {
      PrefixMeetsHistory(log, key, limit, j);
      MetWindowsFillUp(before, key, limit, start);
      assert MeetsHistoryAt(log, j, limit);
      EarlierReturn(log, key, limit, j);
    }
  }

  lemma EarlierReturn(log: seq<Call>, key: string, limit: int, j: nat)
    requires SameLimit(log, key, limit) && limit > 0
    requires j < |log| && log[j].key == key && Returns(log, j)
    requires CallsIn(log[..j], key, WindowStart(log[j].now, log[j].window)) > BlockBefore(log, j) >= limit
    ensures !MeetsHistory(log, key, limit)
    decreases j, 0
  {
    var start, before := WindowStart(log[j].now, log[j].window), log[..j];
    var from := BlockStart(before, key, start);
    BlockStartBounds(before, key, start);
    var i, k :| 0 <= i < k < j && InWindow(log[i], key, start) && Elsewhere(log[k], key, start);
    assert before[k] == log[k];
    var q := LastCall(before, key, from, start);
    assert before[..q] == log[..q] && before[q] == log[q];
    assert k < from;
    LateReturnBreaksHistory(log, key, limit, q);
  }

  lemma PrefixSameLimit(log: seq<Call>, key: string, limit: int, n: nat)
    requires n <= |log| && SameLimit(log, key, limit)
    ensures SameLimit(log[..n], key, limit)
  {
  }

  lemma {:induction false} AllowedInGrows(log: seq<Call>, key: string, start: int, n: nat)
    requires n <= |log|
    ensures AllowedIn(log[..n], key, start) <= AllowedIn(log, key, start)
  {
    if n < |log| {
      assert log[..|log| - 1][..n] == log[..n];
      AllowedInGrows(log[..|log| - 1], key, start, n);
    } else {
      assert log[..n] == log;
    }
  }

  /** A check that breaks the history lets one too many into its window. */
  lemma BreakOverfills(log: seq<Call>, key: string, limit: int, j: nat)
    requires SameLimit(log, key, limit) && j < |log| && log[j].key == key && !MeetsHistoryAt(log, j, limit)
    ensures AllowedIn(log, key, WindowStart(log[j].now, log[j].window)) > AtLeastZero(limit)
  {
    PrefixSameLimit(log, key, limit, j);
    PrefixSameLimit(log, key, limit, j + 1);
    VerdictByBlock(log, j, limit);
    WindowBefore(log, j, limit);
    NextAllowed(log, j);
    AllowedInGrows(log, key, WindowStart(log[j].now, log[j].window), j + 1);
  }

  lemma NoLateReturnMeets(log: seq<Call>, key: string, limit: int, j: nat)
    requires SameLimit(log, key, limit) && NoLateReturn(log, key, limit) && j < |log| && log[j].key == key
    ensures MeetsHistoryAt(log, j, limit)
  {
    PrefixSameLimit(log, key, limit, j);
    PrefixSameLimit(log, key, limit, j + 1);
    VerdictByBlock(log, j, limit);
    WindowBefore(log, j, limit);
  }

  /** The limiter meets its history exactly when no check returns to a window that already had `limit` checks. */
  lemma HistoryMetExactly(log: seq<Call>, key: string, limit: int)
    requires SameLimit(log, key, limit)
    ensures MeetsHistory(log, key, limit) <==> NoLateReturn(log, key, limit)
  {
    if NoLateReturn(log, key, limit) {
      forall j | 0 <= j < |log| && log[j].key == key ensures MeetsHistoryAt(log, j, limit) {
        NoLateReturnMeets(log, key, limit, j);
      }
    } else {
      var j :| 0 <= j < |log| && log[j].key == key && Returns(log, j)
               && CallsIn(log[..j], key, WindowStart(log[j].now, log[j].window)) >= limit;
      LateReturnBreaksHistory(log, key, limit, j);
    }
  }

  /** It then and only then keeps every window within the limit. */
  lemma LimitHoldsExactly(log: seq<Call>, key: string, limit: int)
    requires SameLimit(log, key, limit)
    ensures (forall start :: AllowedIn(log, key, start) <= AtLeastZero(limit)) <==> NoLateReturn(log, key, limit)
  {
    HistoryMetExactly(log, key, limit);
    if MeetsHistory(log, key, limit) {
      forall start ensures AllowedIn(log, key, start) <= AtLeastZero(limit) {
        MetWindowsFillUp(log, key, limit, start);
      }
    } else {
      var j :| 0 <= j < |log| && log[j].key == key && !MeetsHistoryAt(log, j, limit);
      BreakOverfills(log, key, limit, j);
    }
  }

  ghost predicate WindowsInOrder(log: seq<Call>, key: string) {
    forall i, j | 0 <= i <= j < |log| && log[i].key == key && log[j].key == key ::
      WindowStart(log[i].now, log[i].window) <= WindowStart(log[j].now, log[j].window)
  }

  /** Readings may step back inside a window: as long as the windows come in order, no check returns to one. */
  lemma OrderedWindowsNeverReturn(log: seq<Call>, key: string, j: nat)
    requires WindowsInOrder(log, key) && j < |log| && log[j].key == key
    ensures !Returns(log, j)
  {
  }

  lemma MonotoneIsInOrder(log: seq<Call>, key: string, limit: int, window: Seconds)
    requires Uniform(log, key, limit, window)
    requires forall i, j | 0 <= i <= j < |log| && log[i].key == key && log[j].key == key :: log[i].now <= log[j].now
    ensures WindowsInOrder(log, key)
  {
    forall i, j | 0 <= i <= j < |log| && log[i].key == key && log[j].key == key
      ensures WindowStart(log[i].now, log[i].window) <= WindowStart(log[j].now, log[j].window)
    {
      WindowStartMonotone(log[i].now, log[j].now, window);
    }
  }

  // ---------- any stretch of time ----------

  function AllowedDuring(log: seq<Call>, key: string, from: int, to: int): nat {
    if log == [] then 0
    else
      var n := |log| - 1;
      AllowedDuring(log[..n], key, from, to)
      + if log[n].key == key && from <= log[n].now < to && VerdictAt(log, n).allowed then 1 else 0
  }

  /** Allowed checks of the windows numbered `lo` to `lo + count - 1`. */
  function AllowedInWindows(log: seq<Call>, key: string, window: Seconds, lo: int, count: nat): nat {
    if count == 0 then 0
    else AllowedInWindows(log, key, window, lo, count - 1) + AllowedIn(log, key, (lo + count - 1) * window)
  }

  lemma {:induction false} WindowsGrowWithLog(log: seq<Call>, key: string, window: Seconds, lo: int, count: nat)
    requires log != [] && log[|log| - 1].window == window
    ensures var c := log[|log| - 1];
            AllowedInWindows(log, key, window, lo, count)
            == AllowedInWindows(log[..|log| - 1], key, window, lo, count)
               + if c.key == key && lo <= TruncDiv(c.now, window) < lo + count && VerdictAt(log, |log| - 1).allowed
                 then 1 else 0
  {
    if count > 0 {
      WindowsGrowWithLog(log, key, window, lo, count - 1);
      var c, newest := log[|log| - 1], lo + count - 1;
      MultipleOrder(newest, TruncDiv(c.now, window), window);
      MultipleOrder(TruncDiv(c.now, window), newest, window);
    }
  }

  lemma {:induction false} OtherKeysDoNotCount(log: seq<Call>, key: string, window: Seconds, lo: int, count: nat)
    requires log != [] && log[|log| - 1].key != key
    ensures AllowedInWindows(log, key, window, lo, count)
            == AllowedInWindows(log[..|log| - 1], key, window, lo, count)
  {
    if count > 0 {
      OtherKeysDoNotCount(log, key, window, lo, count - 1);
    }
  }

  lemma {:induction false} TimeIsCoveredByWindows(log: seq<Call>, key: string, limit: int, window: Seconds,
                                                  from: int, to: int)
    requires from < to && Uniform(log, key, limit, window)
    ensures TruncDiv(from, window) <= TruncDiv(to - 1, window)
    ensures AllowedDuring(log, key, from, to)
            <= AllowedInWindows(log, key, window, TruncDiv(from, window),
                                TruncDiv(to - 1, window) - TruncDiv(from, window) + 1)
  {
    TruncDivMonotone(from, to - 1, window);
    if log != [] {
      var c, lo, hi := log[|log| - 1], TruncDiv(from, window), TruncDiv(to - 1, window);
      TimeIsCoveredByWindows(log[..|log| - 1], key, limit, window, from, to);
      if c.key == key {
        WindowsGrowWithLog(log, key, window, lo, hi - lo + 1);
        if from <= c.now < to {
          TruncDivMonotone(from, c.now, window);
          TruncDivMonotone(c.now, to - 1, window);
        }
      } else {
        OtherKeysDoNotCount(log, key, window, lo, hi - lo + 1);
      }
    }
  }

  lemma {:induction false} WindowsAreBounded(log: seq<Call>, key: string, limit: int, window: Seconds,
                                             lo: int, count: nat)
    requires SameLimit(log, key, limit) && NoLateReturn(log, key, limit)
    ensures AllowedInWindows(log, key, window, lo, count) <= count * AtLeastZero(limit)
  {
    if count > 0 {
      WindowsAreBounded(log, key, limit, window, lo, count - 1);
      LimitHoldsExactly(log, key, limit);
      assert AllowedIn(log, key, (lo + count - 1) * window) <= AtLeastZero(limit);
      assert count * AtLeastZero(limit) == (count - 1) * AtLeastZero(limit) + AtLeastZero(limit);
    }
  }

  function CeilDiv(a: nat, b: Seconds): nat {
    (a + b - 1) / b
  }

  lemma CeilDivCovers(a: nat, b: Seconds)
    ensures a <= CeilDiv(a, b) * b
  {
    DivideBounds(a + b - 1, b);
  }

  lemma WindowsSpanned(from: int, span: nat, window: Seconds)
    ensures TruncDiv(from + span, window) - TruncDiv(from, window) <= CeilDiv(span, window)
  {
    var p, q, k := TruncDiv(from, window), TruncDiv(from + span, window), CeilDiv(span, window);
    TruncDivBounds(from, window);
    TruncDivBounds(from + span, window);
    CeilDivCovers(span, window);
    assert (p + k) * window == p * window + k * window;
    if p + k < q {
      LessMultiple(p + k, q, window);
      SpansAtBoundary(from, span, window);
    }
  }

  /** Two readings `span` apart, one before and one after the epoch. */
  lemma SpansAtBoundary(from: int, span: nat, window: Seconds)
    requires from < 0 <= from + span
    ensures TruncDiv(from + span, window) - TruncDiv(from, window) <= CeilDiv(span, window)
  {
    var a, b := -from, from + span;
    DivideBounds(a, window);
    DivideBounds(b, window);
    CeilDivCovers(span, window);
    var p, q, k := a / window, b / window, CeilDiv(span, window);
    assert (p + q) * window == p * window + q * window <= span;
    MultipleOrder(p + q, k, window);
  }

  /**
   Unless a check returns to a window that already had `limit` checks, `length` seconds contain at most `limit`
   allowed checks for each window they can touch.
   */
  lemma SlidingBound(log: seq<Call>, key: string, limit: int, window: Seconds, from: int, length: Seconds)
    requires Uniform(log, key, limit, window) && NoLateReturn(log, key, limit)
    ensures AllowedDuring(log, key, from, from + length)
            <= (CeilDiv(length - 1, window) + 1) * AtLeastZero(limit)
  {
    var lo, hi := TruncDiv(from, window), TruncDiv(from + length - 1, window);
    TimeIsCoveredByWindows(log, key, limit, window, from, from + length);
    WindowsAreBounded(log, key, limit, window, lo, hi - lo + 1);
    WindowsSpanned(from, length - 1, window);
    ScaleOrder(hi - lo + 1, CeilDiv(length - 1, window) + 1, AtLeastZero(limit));
  }

  lemma ScaleOrder(a: nat, b: nat, scale: nat)
    requires a <= b
    ensures a * scale <= b * scale
  {
    var spare: nat := b - a;
    assert b * scale == a * scale + spare * scale;
  }

  function CallsDuring(log: seq<Call>, key: string, from: int, to: int): nat {
    if log == [] then 0
    else
      CallsDuring(log[..|log| - 1], key, from, to)
      + if log[|log| - 1].key == key && from <= log[|log| - 1].now < to then 1 else 0
  }

  /** After the first window of the epoch, the window numbered k is the seconds from its start to the next. */
  lemma WindowIsItsSeconds(now: int, window: Seconds, k: int)
    requires k >= 1
    ensures WindowStart(now, window) == k * window <==> k * window <= now < k * window + window
  {
    TruncDivBounds(now, window);
    var q := TruncDiv(now, window);
    if q < k {
      LessMultiple(q, k, window);
    } else if k < q {
      LessMultiple(k, q, window);
    }
    assert k * window >= window by {
      MultipleOrder(1, k, window);
    }
  }

  lemma {:induction false} DuringIsIn(log: seq<Call>, key: string, limit: int, window: Seconds, k: int, start: int)
    requires Uniform(log, key, limit, window) && k >= 1 && start == k * window
    ensures AllowedDuring(log, key, start, start + window) == AllowedIn(log, key, start)
    ensures CallsDuring(log, key, start, start + window) == CallsIn(log, key, start)
  {
    if log != [] {
      var c := log[|log| - 1];
      DuringIsIn(log[..|log| - 1], key, limit, window, k, start);
      if c.key == key {
        WindowIsItsSeconds(c.now, window, k);
      }
    }
  }

  /** Unless a check returns to a used-up window, a whole window allows the smaller of the limit and its checks. */
  lemma WholeWindowAllows(log: seq<Call>, key: string, limit: int, window: Seconds, k: int, start: int)
    requires Uniform(log, key, limit, window) && NoLateReturn(log, key, limit) && k >= 1 && start == k * window
    ensures AllowedDuring(log, key, start, start + window)
            == AtLeastZero(Min(limit, CallsDuring(log, key, start, start + window)))
  {
    DuringIsIn(log, key, limit, window, k, start);
    HistoryMetExactly(log, key, limit);
    MetWindowsFillUp(log, key, limit, start);
  }

  // ---------- the bound is met, and needs its condition ----------

  function Repeat(c: Call, n: nat): seq<Call> {
    seq(n, i => c)
  }

  lemma BoundaryWindows(window: Seconds)
    ensures WindowStart(window - 1, window) == 0 && WindowStart(window, window) == window
  {
    TruncDivBounds(window - 1, window);
    TruncDivBounds(window, window);
    if TruncDiv(window - 1, window) > 0 {
      LessMultiple(0, TruncDiv(window - 1, window), window);
    }
    assert TruncDiv(window, window) == 1;
  }

  /** `limit` checks in the last second of the first window, then `limit` in the first second of the next. */
  function Burst(key: string, limit: nat, window: Seconds): seq<Call> {
    Repeat(Call(key, limit, window, window - 1), limit) + Repeat(Call(key, limit, window, window), limit)
  }

  /** The bound is met, by a monotone clock: over a window boundary two seconds can hold twice the limit. */
  lemma BoundaryBurst(key: string, limit: nat, window: Seconds)
    ensures Uniform(Burst(key, limit, window), key, limit, window)
    ensures forall i, j | 0 <= i <= j < |Burst(key, limit, window)| ::
              Burst(key, limit, window)[i].now <= Burst(key, limit, window)[j].now
    ensures AllowedDuring(Burst(key, limit, window), key, window - 1, window + 1) == 2 * limit
  {
    var log := Burst(key, limit, window);
    BoundaryWindows(window);
    BurstStarts(key, limit, window);
    assert forall i | limit <= i < |log| :: log[i] == Call(key, limit, window, window);
    RepeatedBlock(log, Call(key, limit, window, window), limit);
    BlockAllowsUpToLimit(log, key, limit, limit, window);
    AllowedSplits(log, key, limit);
    AllWithin(log, key, window - 1, window + 1);
  }

  lemma BurstStarts(key: string, limit: nat, window: Seconds)
    ensures var first := Burst(key, limit, window)[..limit];
            Allowed(first, key, 0) == limit && (first != [] ==> LastWindow(first, key) == Some(0))
    ensures LastWindow(Burst(key, limit, window)[..limit], key) != Some(window)
  {
    var c := Call(key, limit, window, window - 1);
    var first := Burst(key, limit, window)[..limit];
    assert first == Repeat(c, limit) && first[..0] == [];
    BoundaryWindows(window);
    RepeatedBlock(first, c, 0);
    BlockAllowsUpToLimit(first, key, 0, limit, 0);
    LastOfRepeat(first, c);
  }

  lemma {:induction false} AllWithin(log: seq<Call>, key: string, from: int, to: int)
    requires forall i | 0 <= i < |log| :: from <= log[i].now < to
    ensures AllowedDuring(log, key, from, to) == Allowed(log, key, 0)
  {
    if log != [] {
      AllWithin(log[..|log| - 1], key, from, to);
    }
  }

  lemma RepeatedBlock(log: seq<Call>, c: Call, from: nat)
    requires from <= |log| && forall i | from <= i < |log| :: log[i] == c
    ensures Calls(log, c.key, from) == |log| - from
  {
    CountRepeated(log, c.key, from);
  }

  lemma LastOfRepeat(log: seq<Call>, c: Call)
    requires forall i | 0 <= i < |log| :: log[i] == c
    ensures LastWindow(log, c.key) == if log == [] then None else Some(WindowStart(c.now, c.window))
  {
  }

  lemma {:induction false} CountRepeated(log: seq<Call>, key: string, from: nat)
    requires from <= |log| && forall i | from <= i < |log| :: log[i].key == key
    ensures Calls(log, key, from) == |log| - from
  {
    if from < |log| {
      CountRepeated(log[..|log| - 1], key, from);
    }
  }

  lemma {:induction false} AllowedSplits(log: seq<Call>, key: string, at: nat)
    requires at <= |log|
    ensures Allowed(log, key, 0) == Allowed(log[..at], key, 0) + Allowed(log, key, at)
  {
    if at < |log| {
      var before := log[..|log| - 1];
      assert before[..at] == log[..at];
      AllowedSplits(before, key, at);
    } else {
      assert log[..at] == log;
    }
  }

  function Alternating(key: string, limit: int, window: Seconds, n: nat): seq<Call> {
    seq(n, i => Call(key, limit, window, if i % 2 == 0 then window - 1 else window))
  }

  /** When readings step back and forth over a window boundary every check is allowed: no bound holds for any clock. */
  lemma {:induction false} RegressingClockAdmitsAll(key: string, limit: int, window: Seconds, n: nat)
    requires limit > 0
    ensures Allowed(Alternating(key, limit, window, n), key, 0) == n
    ensures n > 0 ==> LastWindow(Alternating(key, limit, window, n), key) == Some(if n % 2 == 1 then 0 else window)
  {
    if n > 0 {
      var log, before := Alternating(key, limit, window, n), Alternating(key, limit, window, n - 1);
      assert log[..n - 1] == before;
      RegressingClockAdmitsAll(key, limit, window, n - 1);
      BucketIsInLastWindow(before, key);
      BoundaryWindows(window);
      FreshWindowAdmits(After(before), log[n - 1]);
    }
  }

  lemma FreshWindowAdmits(buckets: map<string, Bucket>, c: Call)
    requires c.limit > 0
    requires c.key in buckets ==> buckets[c.key].windowStart != WindowStart(c.now, c.window)
    ensures Judge(buckets, c).allowed
  {
  }
}
