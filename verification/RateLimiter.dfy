/**
  The sliding-window rate limiter: lazily pruned deques per key, an occasional
  sweep of all keys, and a reference that never forgets an admission.

  Times are instants in nanoseconds. `check_at` decides whether to sweep under
  one mutex and updates the deques under another, so between the two sections
  other calls may run: the deque step is therefore specified for either answer.
 */
module RateLimiting {

  datatype RateKey = Ip(address: nat) | User(id: nat)

  datatype RateLimitInfo = RateLimitInfo(allowed: bool, limit: nat, remaining: nat, resetAfter: nat)

  type Buckets = map<RateKey, seq<int>>

  /** Saturating: an instant in the future is zero old. */
  function Elapsed(now: int, t: int): nat {
    if now > t then now - t else 0
  }

  predicate Stale(now: int, window: nat, t: int) {
    Elapsed(now, t) >= window
  }

  /** All entries that are not stale, as the sweep keeps them. */
  function Fresh(entries: seq<int>, now: int, window: nat): seq<int> {
    if entries == [] then []
    else if Stale(now, window, entries[0]) then Fresh(entries[1..], now, window)
    else [entries[0]] + Fresh(entries[1..], now, window)
  }

  /** The entries after the stale front has been popped. */
  function Popped(entries: seq<int>, now: int, window: nat): seq<int> {
    if entries != [] && Stale(now, window, entries[0]) then Popped(entries[1..], now, window) else entries
  }

  function Swept(b: Buckets, now: int, window: nat): Buckets {
    map k | k in b && Fresh(b[k], now, window) != [] :: Fresh(b[k], now, window)
  }

  function Bucket(b: Buckets, key: RateKey): seq<int> {
    if key in b then b[key] else []
  }

  /** Saturating subtraction. */
  function Minus(a: nat, b: nat): nat {
    if a > b then a - b else 0
  }

  /** The answer for a key whose live entries, oldest first, are `live`. */
  function Answer(live: seq<int>, now: int, max: nat, window: nat): RateLimitInfo
    requires max > 0
  {
    if |live| >= max then RateLimitInfo(false, max, 0, Minus(window, Elapsed(now, live[0])))
    else
      var entries := live + [now];
      RateLimitInfo(true, max, Minus(max, |entries|), Minus(window, Elapsed(now, entries[0])))
  }

  /** The deque section of one call. */
  function Update(b: Buckets, key: RateKey, now: int, sweep: bool, max: nat, window: nat): (Buckets, RateLimitInfo)
    requires max > 0
  {
    var kept := if sweep then Swept(b, now, window) else b;
    var live := Popped(Bucket(kept, key), now, window);
    var info := Answer(live, now, max, window);
    (kept[key := if info.allowed then live + [now] else live], info)
  }

  lemma {:induction false} FreshAppend(a: seq<int>, t: int, now: int, window: nat)
    ensures Fresh(a + [t], now, window) == Fresh(a, now, window) + if Stale(now, window, t) then [] else [t]
  {
    if a == [] {
      assert Fresh([t], now, window) == if Stale(now, window, t) then [] else [t];
    } else {
      FreshAppend(a[1..], t, now, window);
      assert (a + [t])[1..] == a[1..] + [t];
    }
  }

  class RateLimiter {
    var requests: Buckets
    var lastSweep: int
    const maxRequests: nat
    const window: nat

    constructor (maxRequests: nat, window: nat, now: int)
      ensures this.maxRequests == (if maxRequests > 1 then maxRequests else 1) && this.window == window
      ensures requests == map[] && lastSweep == now
    {
      this.maxRequests := if maxRequests > 1 then maxRequests else 1;
      this.window := window;
      requests, lastSweep := map[], now;
    }

    /** `VecDeque::retain` with the entries younger than the window. */
    method RetainFresh(entries: seq<int>, now: int) returns (kept: seq<int>)
      ensures kept == Fresh(entries, now, window)
    {
      kept := [];
      for i := 0 to |entries|
        invariant kept == Fresh(entries[..i], now, window)
      {
        FreshAppend(entries[..i], entries[i], now, window);
        assert entries[..i + 1] == entries[..i] + [entries[i]];
        if Elapsed(now, entries[i]) < window {
          kept := kept + [entries[i]];
        }
      }
      assert entries[..|entries|] == entries;
    }

    /** The sweep: every key once, in any order; keys without entries leave the map. */
    method Sweep(now: int)
      modifies this`requests
      ensures requests == Swept(old(requests), now, window)
    {
      var todo := requests.Keys;
      while todo != {}
        invariant todo <= requests.Keys <= old(requests).Keys
        invariant forall k <- todo :: requests[k] == old(requests)[k]
        invariant forall k <- old(requests).Keys - todo ::
          if k in requests then requests[k] == Fresh(old(requests)[k], now, window) && requests[k] != []
          else Fresh(old(requests)[k], now, window) == []
        decreases |todo|
      {
        var k :| k in todo;
        var kept := RetainFresh(requests[k], now);
        if kept == [] {
          requests := requests - {k};
        } else {
          requests := requests[k := kept];
        }
        todo := todo - {k};
      }
      assert forall k <- old(requests) :: k in old(requests).Keys - todo;
    }

    method CheckAt(key: RateKey, now: int) returns (info: RateLimitInfo)
      requires maxRequests > 0
      modifies this`requests, this`lastSweep
      ensures var sweep := Elapsed(now, old(lastSweep)) >= window;
        && lastSweep == (if sweep then now else old(lastSweep))
        && (requests, info) == Update(old(requests), key, now, sweep, maxRequests, window)
    {
      var shouldSweep := Elapsed(now, lastSweep) >= window;
      if shouldSweep {
        lastSweep := now;
      }
      if shouldSweep {
        Sweep(now);
      }
      var entries := if key in requests then requests[key] else [];
      ghost var before := entries;
      while |entries| > 0 && Elapsed(now, entries[0]) >= window
        invariant Popped(entries, now, window) == Popped(before, now, window)
      {
        entries := entries[1..];
      }
      if |entries| >= maxRequests {
        requests := requests[key := entries];
        var reset := Minus(window, Elapsed(now, entries[0]));
        return RateLimitInfo(false, maxRequests, 0, reset);
      }
      entries := entries + [now];
      requests := requests[key := entries];
      var reset := Minus(window, Elapsed(now, entries[0]));
      info := RateLimitInfo(true, maxRequests, Minus(maxRequests, |entries|), reset);
    }
  }

  const NANOS: nat := 1_000_000_000
  const MAX_U64: nat := 0xFFFF_FFFF_FFFF_FFFF

  /** Whole seconds to advertise, rounded up, at least one. */
  function RetryAfterSeconds(duration: nat): nat {
    var seconds := duration / NANOS;
    var up := if duration % NANOS > 0 && seconds < MAX_U64 then seconds + 1 else seconds;
    if up > 1 then up else 1
  }
}
