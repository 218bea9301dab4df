/**
  How far the sliding-window bound reaches: exactly the windows shortened by the
  clock skew, also for the sweeps the limiter itself decides on.
 */
module RateLimitTightness {
  import opened RateLimiting
  import opened RateLimitTheorems

  /** `last_sweep` after the calls, for a limiter built at `start`. */
  function LastSweep(calls: seq<Call>, start: int): int {
    if calls == [] then start
    else
      var last := calls[|calls| - 1];
      if last.sweep then last.now else LastSweep(calls[..|calls| - 1], start)
  }

  /** Every flag is what the first section of its call decides. */
  ghost predicate Decided(c: Config, calls: seq<Call>, start: int) {
    forall i | 0 <= i < |calls| ::
      calls[i].sweep == (Elapsed(calls[i].now, LastSweep(calls[..i], start)) >= c.window)
  }

  /** No interval of the given length ever holds more admissions of a key than the limit. */
  ghost predicate Bounded(c: Config, d: nat, length: int)
    requires c.Valid()
  {
    forall calls, key, from | Skewed(calls, d) :: Count(Admitted(c, calls, key), from, length) <= c.max
  }

  /** The same for the runs in which calls do not overlap, so that the limiter decides on the sweeps in turn. */
  ghost predicate BoundedInTurn(c: Config, d: nat, length: int)
    requires c.Valid()
  {
    forall calls, start, key, from | Skewed(calls, d) && Decided(c, calls, start) ::
      Count(Admitted(c, calls, key), from, length) <= c.max
  }

  lemma {:induction false} CountGrows(times: seq<int>, from: int, length: int, longer: int)
    requires length <= longer
    ensures Count(times, from, length) <= Count(times, from, longer)
    ensures length <= 0 ==> Count(times, from, length) == 0
  {
    if times != [] {
      CountGrows(times[..|times| - 1], from, length, longer);
    }
  }

  function Zeros(n: nat): seq<int> {
    if n == 0 then [] else Zeros(n - 1) + [0]
  }

  lemma {:induction false} CountZeros(n: nat, length: int)
    requires length > 0
    ensures |Zeros(n)| == n && (forall t <- Zeros(n) :: t == 0)
    ensures Count(Zeros(n), 0, length) == n
  {
    if n > 0 {
      CountZeros(n - 1, length);
      assert Zeros(n)[..n - 1] == Zeros(n - 1);
    }
  }

  const FIRST: RateKey := Ip(0)
  const OTHER: RateKey := Ip(1)

  /** `n` calls on one key at time zero. */
  function Burst(n: nat, sweep: bool): (calls: seq<Call>)
    ensures |calls| == n && forall i | 0 <= i < n :: calls[i] == Call(FIRST, 0, sweep)
  {
    if n == 0 then [] else Burst(n - 1, sweep) + [Call(FIRST, 0, sweep)]
  }

  /** One more call, appended. */
  lemma Append(c: Config, calls: seq<Call>, call: Call, key: RateKey)
    requires c.Valid()
    ensures var answer := Update(Process(c, calls), call.key, call.now, call.sweep, c.max, c.window);
      && Process(c, calls + [call]) == answer.0
      && Admitted(c, calls + [call], key)
         == Admitted(c, calls, key) + if call.key == key && answer.1.allowed then [call.now] else []
  {
    var all := calls + [call];
    assert all[..|calls|] == calls;
  }

  /** A call at time zero on a key with room adds its time. */
  lemma ZeroIsAdded(b: Buckets, c: Config, n: nat)
    requires c.Valid() && c.window > 0 && n < c.max && Bucket(b, FIRST) == Zeros(n)
    ensures var answer := Update(b, FIRST, 0, false, c.max, c.window);
      answer.1.allowed && answer.0 == b[FIRST := Zeros(n + 1)]
  {
    CountZeros(n, 1);
    if n > 0 {
      assert Zeros(n)[0] in Zeros(n);
    }
  }

  /** Up to the limit the burst is admitted and stored. */
  lemma {:induction false} BurstIsStored(c: Config, n: nat)
    requires c.Valid() && c.window > 0 && n <= c.max
    ensures Bucket(Process(c, Burst(n, false)), FIRST) == Zeros(n)
    ensures Admitted(c, Burst(n, false), FIRST) == Zeros(n)
  {
    if n > 0 {
      BurstIsStored(c, n - 1);
      Append(c, Burst(n - 1, false), Call(FIRST, 0, false), FIRST);
      ZeroIsAdded(Process(c, Burst(n - 1, false)), c, n - 1);
    }
  }

  /** With an empty window nothing is ever live, and every call is admitted. */
  lemma {:induction false} EmptyWindowAdmits(c: Config, n: nat)
    requires c.Valid() && c.window == 0
    ensures Admitted(c, Burst(n, true), FIRST) == Zeros(n)
  {
    if n > 0 {
      EmptyWindowAdmits(c, n - 1);
      Append(c, Burst(n - 1, true), Call(FIRST, 0, true), FIRST);
      NothingIsLive(Bucket(Swept(Process(c, Burst(n - 1, true)), 0, 0), FIRST), 0);
    }
  }

  lemma {:induction false} NothingIsLive(entries: seq<int>, now: int)
    ensures Popped(entries, now, 0) == []
  {
    if entries != [] {
      NothingIsLive(entries[1..], now);
    }
  }

  lemma {:induction false} AllStale(entries: seq<int>, now: int, window: nat)
    requires forall t <- entries :: Stale(now, window, t)
    ensures Fresh(entries, now, window) == []
  {
    if entries != [] {
      AllStale(entries[1..], now, window);
    }
  }

  /** The time of a call that comes in as late as the skew allows. */
  function Late(c: Config, d: nat): int {
    if d >= c.window then 0 else c.window - d
  }

  /** A full burst, a sweep by another key one window later, and a late call on the first key. */
  function Overrun(c: Config, d: nat): seq<Call> {
    Burst(c.max, false) + [Call(OTHER, c.window, true)] + [Call(FIRST, Late(c, d), false)]
  }

  /** The sweep of the other key drops the burst. */
  lemma SweepForgetsBurst(c: Config)
    requires c.Valid() && c.window > 0
    ensures var swept := Burst(c.max, false) + [Call(OTHER, c.window, true)];
      && Bucket(Process(c, swept), FIRST) == []
      && Admitted(c, swept, FIRST) == Zeros(c.max)
  {
    var burst := Burst(c.max, false);
    BurstIsStored(c, c.max);
    Append(c, burst, Call(OTHER, c.window, true), FIRST);
    CountZeros(c.max, 1);
    AllStale(Zeros(c.max), c.window, c.window);
    assert FIRST !in Swept(Process(c, burst), c.window, c.window);
  }

  lemma OverrunAdmits(c: Config, d: nat)
    requires c.Valid() && c.window > 0
    ensures Admitted(c, Overrun(c, d), FIRST) == Zeros(c.max) + [Late(c, d)]
  {
    var swept := Burst(c.max, false) + [Call(OTHER, c.window, true)];
    SweepForgetsBurst(c);
    Append(c, swept, Call(FIRST, Late(c, d), false), FIRST);
    EmptyBucketAdmits(Process(c, swept), Call(FIRST, Late(c, d), false), c);
  }

  lemma EmptyBucketAdmits(b: Buckets, call: Call, c: Config)
    requires c.Valid() && Bucket(b, call.key) == [] && !call.sweep
    ensures Update(b, call.key, call.now, call.sweep, c.max, c.window).1.allowed
  {
  }

  lemma {:induction false} NoSweepYet(n: nat)
    ensures LastSweep(Burst(n, false), 0) == 0
  {
    if n > 0 {
      assert Burst(n, false)[..n - 1] == Burst(n - 1, false);
      NoSweepYet(n - 1);
    }
  }

  lemma {:induction false} BurstPrefix(n: nat, i: nat, sweep: bool)
    requires i <= n
    ensures Burst(n, sweep)[..i] == Burst(i, sweep)
  {
    assert forall k | 0 <= k < i :: Burst(n, sweep)[k] == Burst(i, sweep)[k];
  }

  /** The flags of the run are those of a limiter built at time zero. */
  lemma OverrunIsDecided(c: Config, d: nat)
    requires c.window > 0
    ensures Decided(c, Overrun(c, d), 0) && Skewed(Overrun(c, d), d)
  {
    var calls := Overrun(c, d);
    forall i | 0 <= i < |calls|
      ensures calls[i].sweep == (Elapsed(calls[i].now, LastSweep(calls[..i], 0)) >= c.window)
    {
      if i <= c.max {
        assert calls[..i] == Burst(c.max, false)[..i];
        BurstPrefix(c.max, i, false);
        NoSweepYet(i);
      } else {
        assert calls[..i] == Burst(c.max, false) + [Call(OTHER, c.window, true)];
      }
    }
  }

  lemma EmptyWindowIsDecided(c: Config, n: nat, d: nat)
    requires c.window == 0
    ensures Decided(c, Burst(n, true), 0) && Skewed(Burst(n, true), d)
  {
  }

  /** Whenever the length exceeds the window less the skew, some run in turn admits one call too many. */
  lemma SomeRunExceeds(c: Config, d: nat, length: int) returns (calls: seq<Call>)
    requires c.Valid() && length > 0 && length > c.window - d
    ensures Skewed(calls, d) && Decided(c, calls, 0)
    ensures Count(Admitted(c, calls, FIRST), 0, length) == c.max + 1
  {
    if c.window == 0 {
      calls := Burst(c.max + 1, true);
      EmptyWindowAdmits(c, c.max + 1);
      EmptyWindowIsDecided(c, c.max + 1, d);
      CountZeros(c.max + 1, length);
    } else {
      calls := Overrun(c, d);
      OverrunAdmits(c, d);
      OverrunIsDecided(c, d);
      CountZeros(c.max, length);
      CountConcat(Zeros(c.max), [Late(c, d)], 0, length);
      assert [Late(c, d)][..0] == [];
      assert Count([Late(c, d)], 0, length) == 1;
    }
  }

  lemma ShortIntervalFits(c: Config, d: nat, length: int, calls: seq<Call>, key: RateKey, from: int)
    requires c.Valid() && Skewed(calls, d) && (length <= 0 || length <= c.window - d)
    ensures Count(Admitted(c, calls, key), from, length) <= c.max
  {
    var times := Admitted(c, calls, key);
    if length <= 0 {
      CountGrows(times, from, length, length);
    } else {
      AdmissionsAreBounded(c, calls, d, key, from);
      CountGrows(times, from, length, c.window - d);
    }
  }

  lemma BoundedWithinSkew(c: Config, d: nat, length: int)
    requires c.Valid() && (length <= 0 || length <= c.window - d)
    ensures Bounded(c, d, length)
  {
    forall calls, key, from | Skewed(calls, d) ensures Count(Admitted(c, calls, key), from, length) <= c.max {
      ShortIntervalFits(c, d, length, calls, key, from);
    }
  }

  /**
    The limit holds over every interval of a given length exactly when that
    length is at most the window less the skew, whatever decides on the sweeps
    and also when the limiter decides on them in turn. The full window is
    covered exactly when no call is late.
   */
  lemma BoundReachesWindowLessSkew(c: Config, d: nat, length: int)
    requires c.Valid()
    ensures Bounded(c, d, length) <==> length <= 0 || length <= c.window - d
    ensures BoundedInTurn(c, d, length) <==> length <= 0 || length <= c.window - d
    ensures c.window > 0 ==> (BoundedInTurn(c, d, c.window) <==> d == 0)
  {
    BoundAtLength(c, d, length);
    BoundAtLength(c, d, c.window);
  }

  lemma BoundAtLength(c: Config, d: nat, length: int)
    requires c.Valid()
    ensures Bounded(c, d, length) <==> length <= 0 || length <= c.window - d
    ensures BoundedInTurn(c, d, length) <==> length <= 0 || length <= c.window - d
  {
    if length <= 0 || length <= c.window - d {
      BoundedWithinSkew(c, d, length);
    } else {
      var calls := SomeRunExceeds(c, d, length);
      assert Skewed(calls, d) && Decided(c, calls, 0);
      assert Count(Admitted(c, calls, FIRST), 0, length) > c.max;
    }
  }

  /**
    A concrete run of a limiter built at time 0: a late call that arrives after a
    sweep by another key is admitted within one window of an earlier admission.
   */
  lemma LateCallExceedsWindow()
    ensures var c := Config(1, 10);
      var calls := [Call(Ip(0), 0, false), Call(Ip(1), 10, true), Call(Ip(0), 1, false)];
      Skewed(calls, 9) && Decided(c, calls, 0) && Count(Admitted(c, calls, Ip(0)), 0, c.window) == 2
  {
    var c := Config(1, 10);
    OverrunAdmits(c, 9);
    OverrunIsDecided(c, 9);
    assert Burst(1, false) == [Call(Ip(0), 0, false)];
    assert Overrun(c, 9) == [Call(Ip(0), 0, false), Call(Ip(1), 10, true), Call(Ip(0), 1, false)];
    CountZeros(1, 10);
    assert (Zeros(1) + [1])[..1] == Zeros(1);
  }
}
