/**
  What the answers mean for calls in order of time, in terms of the admissions of
  a key alone: who is admitted, what is left, and how long to wait.
 */
module RateLimitAnswers {
  import opened RateLimiting
  import opened RateLimitTheorems

  /** How many of the times are younger than the window at `now`. */
  function Young(times: seq<int>, now: int, window: nat): nat {
    if times == [] then 0
    else Young(times[..|times| - 1], now, window) + if now - times[|times| - 1] < window then 1 else 0
  }

  /** `times[j]` is the oldest of the times younger than the window. */
  ghost predicate OldestYoung(times: seq<int>, now: int, window: nat, j: nat) {
    && j < |times| && now - times[j] < window
    && (forall k | 0 <= k < |times| && now - times[k] < window :: times[j] <= times[k])
  }

  lemma {:induction false} YoungIsFresh(times: seq<int>, now: int, window: nat)
    requires forall i | 0 <= i < |times| :: times[i] <= now
    ensures Young(times, now, window) == |Fresh(times, now, window)|
    decreases |times|
  {
    if times != [] {
      var n := |times| - 1;
      YoungIsFresh(times[..n], now, window);
      FreshAppend(times[..n], times[n], now, window);
      assert times == times[..n] + [times[n]];
    }
  }

  /** The first of the live entries is the oldest young one. */
  lemma {:induction false} FirstLive(times: seq<int>, now: int, window: nat) returns (j: nat)
    requires Ordered(times, now) && Fresh(times, now, window) != []
    ensures OldestYoung(times, now, window, j) && times[j] == Fresh(times, now, window)[0]
    decreases |times|
  {
    if Stale(now, window, times[0]) {
      var k := FirstLive(times[1..], now, window);
      j := k + 1;
      forall i | 0 <= i < |times| && now - times[i] < window ensures times[j] <= times[i] {
        assert i > 0 && times[1..][i - 1] == times[i];
      }
    } else {
      j := 0;
    }
  }

  lemma AdmittedInOrder(c: Config, calls: seq<Call>, i: nat)
    requires c.Valid() && NonDecreasing(calls) && i < |calls|
    ensures Ordered(Admitted(c, calls[..i], calls[i].key), calls[i].now)
  {
    RunRefines(c, calls[..i], calls[i].key, calls[i].now);
  }

  /**
    For calls in order of time: a call is admitted iff fewer admissions of its key
    than the limit are younger than the window; the budget left is the limit less
    those and this one; a denial leaves none; and the reset is the time until the
    oldest of them, this one included, is as old as the window.
   */
  lemma AnswersMean(c: Config, calls: seq<Call>, i: nat)
    requires c.Valid() && NonDecreasing(calls) && i < |calls|
    ensures var info, now := InfoAt(c, calls, i), calls[i].now;
      var past := Admitted(c, calls[..i], calls[i].key);
      var young := Young(past, now, c.window);
      && info.limit == c.max
      && (info.allowed <==> young < c.max)
      && info.remaining == (if info.allowed then c.max - (young + 1) else 0)
      && (young == 0 ==> info.resetAfter == c.window)
      && (young > 0 ==> exists j: nat ::
            OldestYoung(past, now, c.window, j) && now + info.resetAfter == past[j] + c.window)
  {
    var now := calls[i].now;
    var past := Admitted(c, calls[..i], calls[i].key);
    AdmittedInOrder(c, calls, i);
    LimiterRefinesReference(c, calls, i);
    YoungIsFresh(past, now, c.window);
    if Young(past, now, c.window) > 0 {
      var j := FirstLive(past, now, c.window);
    }
  }

  // ----- the budget -----

  /** Calls on the key among calls[lo..hi]. */
  function CallsOn(calls: seq<Call>, key: RateKey, lo: nat, hi: nat): nat
    requires lo <= hi <= |calls|
    decreases hi
  {
    if lo == hi then 0
    else CallsOn(calls, key, lo, hi - 1) + if calls[hi - 1].key == key then 1 else 0
  }

  lemma OneMoreCall(calls: seq<Call>, key: RateKey, lo: nat, n: nat, hi: nat)
    requires lo <= n < |calls| && hi == n + 1
    ensures CallsOn(calls, key, lo, hi) == CallsOn(calls, key, lo, n) + if calls[n].key == key then 1 else 0
  {
  }

  function Least(a: nat, b: nat): nat {
    if a < b then a else b
  }

  lemma {:induction false} YoungConcat(a: seq<int>, b: seq<int>, now: int, window: nat)
    ensures Young(a + b, now, window) == Young(a, now, window) + Young(b, now, window)
    decreases |b|
  {
    if b == [] {
      assert a + b == a;
    } else {
      YoungConcat(a, b[..|b| - 1], now, window);
      assert (a + b)[..|a + b| - 1] == a + b[..|b| - 1];
    }
  }

  /** While the oldest young entry stays young, all of them do. */
  lemma {:induction false} YoungStays(times: seq<int>, now: int, later: int, window: nat, oldest: int)
    requires now <= later < oldest + window
    requires forall k | 0 <= k < |times| && now - times[k] < window :: oldest <= times[k]
    ensures Young(times, later, window) == Young(times, now, window)
    decreases |times|
  {
    if times != [] {
      YoungStays(times[..|times| - 1], now, later, window, oldest);
    }
  }

  lemma {:induction false} AllYoung(times: seq<int>, now: int, window: nat)
    requires forall k | 0 <= k < |times| :: now - times[k] < window
    ensures Young(times, now, window) == |times|
    decreases |times|
  {
    if times != [] {
      AllYoung(times[..|times| - 1], now, window);
    }
  }

  /** The calls on the key of call `i` in calls[i + 1..j] come before its reset. */
  ghost predicate BeforeReset(c: Config, calls: seq<Call>, i: nat, j: nat)
    requires c.Valid() && i < j <= |calls|
  {
    forall k | i < k < j && calls[k].key == calls[i].key ::
      calls[k].now < calls[i].now + InfoAt(c, calls, i).resetAfter
  }

  /** A later moment at which the oldest young entry is still young. */
  lemma YoungLater(past: seq<int>, now: int, since: seq<int>, later: int, window: nat, oldest: int)
    requires now <= later < oldest + window && oldest <= now
    requires forall k | 0 <= k < |past| && now - past[k] < window :: oldest <= past[k]
    requires forall k | 0 <= k < |since| :: now <= since[k]
    ensures Young(past + [now] + since, later, window) == Young(past, now, window) + 1 + |since|
  {
    var tail := [now] + since;
    YoungStays(past, now, later, window, oldest);
    AllYoung(tail, later, window);
    YoungConcat(past, tail, later, window);
    assert past + [now] + since == past + tail;
  }

  /** The time from which the reset of an admission counts: the oldest entry it sees, or its own. */
  lemma ResetCountsFrom(c: Config, calls: seq<Call>, i: nat) returns (oldest: int)
    requires c.Valid() && NonDecreasing(calls) && i < |calls|
    ensures oldest <= calls[i].now && calls[i].now + InfoAt(c, calls, i).resetAfter == oldest + c.window
    ensures var past := Admitted(c, calls[..i], calls[i].key);
      forall k | 0 <= k < |past| && calls[i].now - past[k] < c.window :: oldest <= past[k]
  {
    var past, now := Admitted(c, calls[..i], calls[i].key), calls[i].now;
    AnswersMean(c, calls, i);
    if Young(past, now, c.window) == 0 {
      NoneYoung(past, now, c.window);
      oldest := now;
    } else {
      AdmittedInOrder(c, calls, i);
      var o: nat :| OldestYoung(past, now, c.window, o) && now + InfoAt(c, calls, i).resetAfter == past[o] + c.window;
      oldest := past[o];
    }
  }

  /** A later call before the reset still sees what call `i` saw, call `i` itself, and what was admitted since. */
  lemma YoungBeforeReset(c: Config, calls: seq<Call>, i: nat, j: nat, since: seq<int>)
    requires c.Valid() && NonDecreasing(calls) && i < j < |calls| && calls[j].key == calls[i].key
    requires calls[j].now < calls[i].now + InfoAt(c, calls, i).resetAfter
    requires Admitted(c, calls[..j], calls[i].key) == Admitted(c, calls[..i], calls[i].key) + [calls[i].now] + since
    requires forall k | 0 <= k < |since| :: calls[i].now <= since[k]
    ensures Young(Admitted(c, calls[..j], calls[i].key), calls[j].now, c.window)
         == Young(Admitted(c, calls[..i], calls[i].key), calls[i].now, c.window) + 1 + |since|
  {
    var oldest := ResetCountsFrom(c, calls, i);
    YoungLater(Admitted(c, calls[..i], calls[i].key), calls[i].now, since, calls[j].now, c.window, oldest);
  }

  lemma {:induction false} NoneYoung(times: seq<int>, now: int, window: nat)
    requires Young(times, now, window) == 0
    ensures forall k | 0 <= k < |times| :: now - times[k] >= window
    decreases |times|
  {
    if times != [] {
      NoneYoung(times[..|times| - 1], now, window);
    }
  }

  /** Whether one more call before the reset is admitted, and what is admitted then. */
  lemma SpendOne(c: Config, calls: seq<Call>, i: nat, n: nat, before: seq<int>)
    requires c.Valid() && NonDecreasing(calls) && i < n < |calls| && calls[n].key == calls[i].key
    requires InfoAt(c, calls, i).allowed && calls[n].now < calls[i].now + InfoAt(c, calls, i).resetAfter
    requires AdmittedSince(c, calls, i, n, before)
    ensures InfoAt(c, calls, n).allowed <==> |before| < InfoAt(c, calls, i).remaining
  {
    YoungBeforeReset(c, calls, i, n, before);
    AnswersMean(c, calls, i);
    AnswersMean(c, calls, n);
  }

  /** The admissions on the key of call `i` after it and before call `j`. */
  ghost predicate AdmittedSince(c: Config, calls: seq<Call>, i: nat, j: nat, since: seq<int>)
    requires c.Valid() && i < j <= |calls|
  {
    && Admitted(c, calls[..j], calls[i].key) == Admitted(c, calls[..i], calls[i].key) + [calls[i].now] + since
    && (forall k | 0 <= k < |since| :: calls[i].now <= since[k])
  }

  lemma SinceAppend(past: seq<int>, now: int, since: seq<int>, more: seq<int>)
    ensures past + [now] + since + more == past + [now] + (since + more)
  {
  }

  lemma SinceStep(c: Config, calls: seq<Call>, i: nat, n: nat, j: nat, since: seq<int>) returns (longer: seq<int>)
    requires c.Valid() && NonDecreasing(calls) && i < n < |calls| && AdmittedSince(c, calls, i, n, since) && j == n + 1
    ensures AdmittedSince(c, calls, i, j, longer)
    ensures |longer| == |since| + if calls[n].key == calls[i].key && InfoAt(c, calls, n).allowed then 1 else 0
  {
    AdmittedStep(c, calls, calls[i].key, n, j);
    var more := if calls[n].key == calls[i].key && InfoAt(c, calls, n).allowed then [calls[n].now] else [];
    longer := since + more;
    SinceAppend(Admitted(c, calls[..i], calls[i].key), calls[i].now, since, more);
  }

  /** Of the calls after call `i`, those admitted: as many as there are, up to the budget. */
  ghost predicate Spent(c: Config, calls: seq<Call>, i: nat, j: nat, since: seq<int>)
    requires c.Valid() && i < j <= |calls|
  {
    && AdmittedSince(c, calls, i, j, since)
    && |since| == Least(CallsOn(calls, calls[i].key, i + 1, j), InfoAt(c, calls, i).remaining)
  }

  lemma SpentStep(c: Config, calls: seq<Call>, i: nat, n: nat, j: nat, before: seq<int>) returns (since: seq<int>)
    requires c.Valid() && NonDecreasing(calls) && i < n < |calls| && InfoAt(c, calls, i).allowed && j == n + 1
    requires calls[n].key == calls[i].key ==> calls[n].now < calls[i].now + InfoAt(c, calls, i).resetAfter
    requires Spent(c, calls, i, n, before)
    ensures Spent(c, calls, i, j, since)
  {
    since := SinceStep(c, calls, i, n, j, before);
    OneMoreCall(calls, calls[i].key, i + 1, n, j);
    if calls[n].key == calls[i].key {
      SpendOne(c, calls, i, n, before);
    }
  }

  lemma SpentFirst(c: Config, calls: seq<Call>, i: nat, j: nat)
    requires c.Valid() && i < |calls| && InfoAt(c, calls, i).allowed && j == i + 1
    ensures Spent(c, calls, i, j, [])
  {
    AdmittedStep(c, calls, calls[i].key, i, j);
  }

  /** Until the reset, the calls after an admission are admitted one by one until its budget is used up. */
  lemma {:induction false} BudgetIsSpent(c: Config, calls: seq<Call>, i: nat, j: nat) returns (since: seq<int>)
    requires c.Valid() && NonDecreasing(calls) && i < j <= |calls|
    requires InfoAt(c, calls, i).allowed && BeforeReset(c, calls, i, j)
    ensures Spent(c, calls, i, j, since)
    decreases j
  {
    if j == i + 1 {
      SpentFirst(c, calls, i, j);
      since := [];
    } else {
      since := BudgetIsSpent(c, calls, i, j - 1);
      since := SpentStep(c, calls, i, j - 1, j, since);
    }
  }

  lemma AdmittedStep(c: Config, calls: seq<Call>, key: RateKey, n: nat, j: nat)
    requires c.Valid() && n < |calls| && j == n + 1
    ensures Admitted(c, calls[..j], key) == Admitted(c, calls[..n], key)
      + if calls[n].key == key && InfoAt(c, calls, n).allowed then [calls[n].now] else []
  {
    assert calls[..j][..n] == calls[..n];
  }

  /**
    After an admission that leaves a budget of `remaining`, exactly the next
    `remaining` calls on the key before its reset are admitted, whatever other
    keys and sweeps do.
   */
  lemma BudgetIsExact(c: Config, calls: seq<Call>, i: nat, j: nat)
    requires c.Valid() && NonDecreasing(calls) && i < j < |calls| && calls[j].key == calls[i].key
    requires InfoAt(c, calls, i).allowed && BeforeReset(c, calls, i, j + 1)
    ensures InfoAt(c, calls, j).allowed <==>
      CallsOn(calls, calls[i].key, i + 1, j) < InfoAt(c, calls, i).remaining
  {
    var since := BudgetIsSpent(c, calls, i, j);
    SpendOne(c, calls, i, j, since);
  }
}
