/** The limiter over whole runs: any mix of keys, sweeps and, where stated, any bounded clock skew. */
module RateLimitTheorems {
  import opened RateLimiting

  /** A processed call; `sweep` is what its first section decided. */
  datatype Call = Call(key: RateKey, now: int, sweep: bool)

  datatype Config = Config(max: nat, window: nat) {
    ghost predicate Valid() {
      max > 0
    }
  }

  function Process(c: Config, calls: seq<Call>): Buckets
    requires c.Valid()
  {
    if calls == [] then map[]
    else
      var last := calls[|calls| - 1];
      Update(Process(c, calls[..|calls| - 1]), last.key, last.now, last.sweep, c.max, c.window).0
  }

  /** The answer to the i-th call. */
  function InfoAt(c: Config, calls: seq<Call>, i: nat): RateLimitInfo
    requires c.Valid() && i < |calls|
  {
    Update(Process(c, calls[..i]), calls[i].key, calls[i].now, calls[i].sweep, c.max, c.window).1
  }

  /** The times at which calls on the key were admitted, in processing order. */
  function Admitted(c: Config, calls: seq<Call>, key: RateKey): seq<int>
    requires c.Valid()
  {
    if calls == [] then []
    else
      var n := |calls| - 1;
      Admitted(c, calls[..n], key)
      + if calls[n].key == key && InfoAt(c, calls, n).allowed then [calls[n].now] else []
  }

  /** How many of the times lie in the interval [from, from + length). */
  function Count(times: seq<int>, from: int, length: int): nat {
    if times == [] then 0
    else Count(times[..|times| - 1], from, length)
         + if from <= times[|times| - 1] < from + length then 1 else 0
  }

  /** No call is more than `d` behind any call processed before it. */
  ghost predicate Skewed(calls: seq<Call>, d: nat) {
    forall i, j | 0 <= i < j < |calls| :: calls[j].now >= calls[i].now - d
  }

  ghost predicate NonDecreasing(calls: seq<Call>) {
    forall i, j | 0 <= i < j < |calls| :: calls[i].now <= calls[j].now
  }

  lemma {:induction false} CountAtMostLength(times: seq<int>, from: int, length: int)
    ensures Count(times, from, length) <= |times|
  {
    if times != [] {
      CountAtMostLength(times[..|times| - 1], from, length);
    }
  }

  lemma {:induction false} CountConcat(a: seq<int>, b: seq<int>, from: int, length: int)
    ensures Count(a + b, from, length) == Count(a, from, length) + Count(b, from, length)
  {
    if b == [] {
      assert a + b == a;
    } else {
      CountConcat(a, b[..|b| - 1], from, length);
      assert (a + b)[..|a + b| - 1] == a + b[..|b| - 1];
    }
  }

  lemma CountSplit(times: seq<int>, from: int, length: int)
    requires times != []
    ensures Count(times, from, length)
      == (if from <= times[0] < from + length then 1 else 0) + Count(times[1..], from, length)
  {
    CountConcat([times[0]], times[1..], from, length);
    assert [times[0]] + times[1..] == times;
    assert Count([times[0]], from, length) == if from <= times[0] < from + length then 1 else 0;
  }

  /** Pruning at `now` does not touch what is younger than the window. */
  lemma {:induction false} PruningKeepsCount(entries: seq<int>, now: int, window: nat, from: int, length: int)
    requires from + window > now
    requires window > 0
    ensures Count(Popped(entries, now, window), from, length) == Count(entries, from, length)
    ensures Count(Fresh(entries, now, window), from, length) == Count(entries, from, length)
  {
    if entries != [] {
      PruningKeepsCount(entries[1..], now, window, from, length);
      CountSplit(entries, from, length);
      if !Stale(now, window, entries[0]) {
        CountConcat([entries[0]], Fresh(entries[1..], now, window), from, length);
        assert Count([entries[0]], from, length) == if from <= entries[0] < from + length then 1 else 0;
      }
    }
  }

  /** The map after the sweep, if there was one. */
  function Kept(b: Buckets, call: Call, window: nat): Buckets {
    if call.sweep then Swept(b, call.now, window) else b
  }

  lemma SweptBucket(b: Buckets, now: int, window: nat, key: RateKey)
    ensures Bucket(Swept(b, now, window), key) == Fresh(Bucket(b, key), now, window)
  {
  }

  lemma KeptCount(b: Buckets, call: Call, window: nat, key: RateKey, from: int, length: int)
    requires window > 0 && from + window > call.now
    ensures Count(Bucket(Kept(b, call, window), key), from, length) == Count(Bucket(b, key), from, length)
  {
    SweptBucket(b, call.now, window, key);
    PruningKeepsCount(Bucket(b, key), call.now, window, from, length);
  }

  lemma CountAppend(times: seq<int>, t: int, from: int, length: int)
    ensures Count(times + [t], from, length) == Count(times, from, length) + if from <= t < from + length then 1 else 0
  {
    assert (times + [t])[..|times|] == times;
  }

  /** What a call does to its own deque, and to the others. */
  lemma UpdatedBucket(b: Buckets, call: Call, c: Config, key: RateKey)
    requires c.Valid()
    ensures var u := Update(b, call.key, call.now, call.sweep, c.max, c.window);
      var entries := Bucket(Kept(b, call, c.window), key);
      var live := Popped(entries, call.now, c.window);
      Bucket(u.0, key) == if key != call.key then entries else if u.1.allowed then live + [call.now] else live
  {
  }

  /** One call leaves every key's recent entries, plus its own admission. */
  lemma UpdateKeepsCount(b: Buckets, call: Call, c: Config, key: RateKey, from: int, length: int)
    requires c.Valid() && c.window > 0 && from + c.window > call.now
    ensures var u := Update(b, call.key, call.now, call.sweep, c.max, c.window);
      Count(Bucket(u.0, key), from, length)
      == Count(Bucket(b, key), from, length)
         + (if key == call.key && u.1.allowed && from <= call.now < from + length then 1 else 0)
  {
    var entries := Bucket(Kept(b, call, c.window), key);
    KeptCount(b, call, c.window, key, from, length);
    UpdatedBucket(b, call, c, key);
    PruningKeepsCount(entries, call.now, c.window, from, length);
    CountAppend(Popped(entries, call.now, c.window), call.now, from, length);
  }

  lemma CountAdmitted(c: Config, calls: seq<Call>, key: RateKey, from: int, length: int)
    requires c.Valid() && calls != []
    ensures var n := |calls| - 1;
      Count(Admitted(c, calls, key), from, length)
      == Count(Admitted(c, calls[..n], key), from, length)
         + (if key == calls[n].key && InfoAt(c, calls, n).allowed && from <= calls[n].now < from + length then 1 else 0)
  {
    var n := |calls| - 1;
    var before := Admitted(c, calls[..n], key);
    if calls[n].key == key && InfoAt(c, calls, n).allowed {
      assert (before + [calls[n].now])[..|before|] == before;
    } else {
      assert before + [] == before;
    }
  }

  /** The deques still hold every admission younger than the window at all processed calls. */
  lemma {:induction false} RecentAdmissionsAreStored(c: Config, calls: seq<Call>, key: RateKey, from: int, length: int)
    requires c.Valid() && c.window > 0
    requires forall call <- calls :: call.now < from + c.window
    ensures Count(Bucket(Process(c, calls), key), from, length) == Count(Admitted(c, calls, key), from, length)
  {
    if calls != [] {
      var n := |calls| - 1;
      assert calls[n] in calls;
      RecentAdmissionsAreStored(c, calls[..n], key, from, length);
      UpdateKeepsCount(Process(c, calls[..n]), calls[n], c, key, from, length);
      CountAdmitted(c, calls, key, from, length);
    }
  }

  /**
    With clocks at most `d` behind, no interval shorter than the window less `d`
    holds more admissions of a key than the limit. With `d == 0` this is the
    exact sliding-window bound.
   */
  lemma {:induction false} AdmissionsAreBounded(c: Config, calls: seq<Call>, d: nat, key: RateKey, from: int)
    requires c.Valid() && Skewed(calls, d)
    ensures Count(Admitted(c, calls, key), from, c.window - d) <= c.max
  {
    if calls != [] {
      var n := |calls| - 1;
      var length := c.window - d;
      var call := calls[n];
      AdmissionsAreBounded(c, calls[..n], d, key, from);
      CountAdmitted(c, calls, key, from, length);
      if call.key == key && InfoAt(c, calls, n).allowed && from <= call.now < from + length {
        assert forall i | 0 <= i < n :: calls[i].now < from + c.window;
        RecentAdmissionsAreStored(c, calls[..n], key, from, length);
        AdmittedFitsBucket(Process(c, calls[..n]), call, c, from, length);
      }
    }
  }

  /** A call is admitted only while the recent entries of its key are fewer than the limit. */
  lemma AdmittedFitsBucket(b: Buckets, call: Call, c: Config, from: int, length: int)
    requires c.Valid() && c.window > 0 && from + c.window > call.now
    requires Update(b, call.key, call.now, call.sweep, c.max, c.window).1.allowed
    ensures Count(Bucket(b, call.key), from, length) < c.max
  {
    var entries := Bucket(Kept(b, call, c.window), call.key);
    KeptCount(b, call, c.window, call.key, from, length);
    PruningKeepsCount(entries, call.now, c.window, from, length);
    CountAtMostLength(Popped(entries, call.now, c.window), from, length);
  }

  ghost predicate Sorted(times: seq<int>) {
    forall i, j | 0 <= i < j < |times| :: times[i] <= times[j]
  }

  /** On sorted entries popping the front and filtering are the same. */
  lemma {:induction false} SortedFreshIsPopped(entries: seq<int>, now: int, window: nat)
    requires Sorted(entries)
    ensures Fresh(entries, now, window) == Popped(entries, now, window)
    ensures Sorted(Popped(entries, now, window))
  {
    if entries != [] {
      SortedFreshIsPopped(entries[1..], now, window);
      if !Stale(now, window, entries[0]) {
        AllFresh(entries, now, window);
      }
    }
  }

  lemma {:induction false} AllFresh(entries: seq<int>, now: int, window: nat)
    requires forall t <- entries :: !Stale(now, window, t)
    ensures Fresh(entries, now, window) == entries
  {
    if entries != [] {
      AllFresh(entries[1..], now, window);
      assert [entries[0]] + entries[1..] == entries;
    }
  }

  /** Popping earlier and then later is popping later. */
  lemma {:induction false} PoppedTwice(entries: seq<int>, now: int, later: int, window: nat)
    requires now <= later
    ensures Popped(Popped(entries, now, window), later, window) == Popped(entries, later, window)
  {
    if entries != [] && Stale(now, window, entries[0]) {
      PoppedTwice(entries[1..], now, later, window);
    }
  }

  lemma {:induction false} PoppedAppend(entries: seq<int>, t: int, now: int, window: nat)
    ensures Popped(entries + [t], now, window)
      == if Popped(entries, now, window) != [] then Popped(entries, now, window) + [t] else Popped([t], now, window)
  {
    if entries == [] {
      assert entries + [t] == [t];
    } else if Stale(now, window, entries[0]) {
      PoppedAppend(entries[1..], t, now, window);
      assert (entries + [t])[1..] == entries[1..] + [t];
    }
  }

  /**
    The reference: it keeps every admission forever and looks at those younger
    than the window.
   */
  function Reference(c: Config, admitted: seq<int>, now: int): RateLimitInfo
    requires c.Valid()
  {
    Answer(Fresh(admitted, now, c.window), now, c.max, c.window)
  }

  /** For calls at or after `hi`, the stored deque and the full record show the same live entries. */
  ghost predicate Agrees(stored: seq<int>, admitted: seq<int>, window: nat, hi: int) {
    Ordered(stored, hi) && Ordered(admitted, hi) && SameLive(stored, admitted, window, hi)
  }

  ghost predicate SameLive(stored: seq<int>, admitted: seq<int>, window: nat, hi: int) {
    forall later | later >= hi :: Popped(stored, later, window) == Popped(admitted, later, window)
  }

  ghost predicate Ordered(times: seq<int>, hi: int) {
    Sorted(times) && forall i | 0 <= i < |times| :: times[i] <= hi
  }

  /** Every stored deque is sorted, non-empty and no longer than the limit. */
  ghost predicate BucketsValid(b: Buckets, max: nat, hi: int) {
    forall k <- b :: b[k] != [] && |b[k]| <= max && Ordered(b[k], hi)
  }

  lemma OrderedAppend(times: seq<int>, now: int)
    requires Ordered(times, now)
    ensures Ordered(times + [now], now)
  {
  }

  lemma PoppedIsOrdered(times: seq<int>, hi: int, now: int, window: nat)
    requires Ordered(times, hi)
    ensures Ordered(Popped(times, now, window), hi)
    ensures Fresh(times, now, window) == Popped(times, now, window)
    ensures |Popped(times, now, window)| <= |times|
  {
    SortedFreshIsPopped(times, now, window);
    PoppedIsSuffix(times, now, window);
  }

  lemma AgreesAfterPop(stored: seq<int>, admitted: seq<int>, window: nat, hi: int, now: int)
    requires Agrees(stored, admitted, window, hi) && hi <= now
    ensures Agrees(Popped(stored, now, window), admitted, window, now)
  {
    PoppedIsOrdered(stored, hi, now, window);
    forall later | later >= now
      ensures Popped(Popped(stored, now, window), later, window) == Popped(admitted, later, window)
    {
      PoppedTwice(stored, now, later, window);
    }
  }

  lemma {:induction false} PoppedIsSuffix(entries: seq<int>, now: int, window: nat)
    ensures |Popped(entries, now, window)| <= |entries|
    ensures Popped(entries, now, window) == entries[|entries| - |Popped(entries, now, window)|..]
  {
    if entries != [] && Stale(now, window, entries[0]) {
      PoppedIsSuffix(entries[1..], now, window);
    }
  }

  lemma AgreesAfterAdmission(live: seq<int>, admitted: seq<int>, window: nat, now: int)
    requires Agrees(live, admitted, window, now)
    ensures Agrees(live + [now], admitted + [now], window, now)
  {
    OrderedAppend(live, now);
    OrderedAppend(admitted, now);
    forall later | later >= now
      ensures Popped(live + [now], later, window) == Popped(admitted + [now], later, window)
    {
      PoppedAppend(live, now, later, window);
      PoppedAppend(admitted, now, later, window);
    }
  }

  lemma AgreesLater(stored: seq<int>, admitted: seq<int>, window: nat, hi: int, now: int)
    requires Agrees(stored, admitted, window, hi) && hi <= now
    ensures Agrees(stored, admitted, window, now)
  {
  }

  /** One call at a time no earlier than all before it answers as the reference does, and keeps the agreement. */
  lemma UpdateRefines(c: Config, b: Buckets, call: Call, key: RateKey, admitted: seq<int>, hi: int)
    requires c.Valid() && hi <= call.now
    requires Agrees(Bucket(b, key), admitted, c.window, hi)
    ensures var u := Update(b, call.key, call.now, call.sweep, c.max, c.window);
      && (key == call.key ==> u.1 == Reference(c, admitted, call.now))
      && Agrees(Bucket(u.0, key), admitted + (if key == call.key && u.1.allowed then [call.now] else []),
                c.window, call.now)
  {
    var u := Update(b, call.key, call.now, call.sweep, c.max, c.window);
    var kept := if call.sweep then Swept(b, call.now, c.window) else b;
    var stored := Bucket(b, key);
    SortedFreshIsPopped(stored, call.now, c.window);
    SortedFreshIsPopped(admitted, call.now, c.window);
    assert Bucket(kept, key) == if call.sweep then Popped(stored, call.now, c.window) else stored;
    AgreesAfterPop(stored, admitted, c.window, hi, call.now);
    AgreesLater(stored, admitted, c.window, hi, call.now);
    PoppedTwice(stored, call.now, call.now, c.window);
    if key == call.key {
      var live := Popped(stored, call.now, c.window);
      assert Popped(Bucket(kept, key), call.now, c.window) == live == Fresh(admitted, call.now, c.window);
      if u.1.allowed {
        AgreesAfterAdmission(live, admitted, c.window, call.now);
      }
    }
    assert admitted + [] == admitted;
  }

  lemma UpdateKeepsBuckets(c: Config, b: Buckets, call: Call, hi: int)
    requires c.Valid() && BucketsValid(b, c.max, hi) && hi <= call.now
    ensures BucketsValid(Update(b, call.key, call.now, call.sweep, c.max, c.window).0, c.max, call.now)
  {
    var kept := if call.sweep then Swept(b, call.now, c.window) else b;
    forall k | k in kept ensures kept[k] != [] && |kept[k]| <= c.max && Ordered(kept[k], call.now) {
      PoppedIsOrdered(b[k], hi, call.now, c.window);
    }
    var entries := Bucket(kept, call.key);
    PoppedIsOrdered(entries, call.now, call.now, c.window);
    OrderedAppend(Popped(entries, call.now, c.window), call.now);
  }

  /** The time of the last processed call. */
  function Latest(calls: seq<Call>): int
    requires calls != []
  {
    calls[|calls| - 1].now
  }

  lemma {:induction false} RunRefines(c: Config, calls: seq<Call>, key: RateKey, hi: int)
    requires c.Valid() && NonDecreasing(calls) && forall call <- calls :: call.now <= hi
    ensures Agrees(Bucket(Process(c, calls), key), Admitted(c, calls, key), c.window, hi)
    ensures BucketsValid(Process(c, calls), c.max, hi)
  {
    if calls != [] {
      var n := |calls| - 1;
      var call := calls[n];
      assert call in calls;
      assert forall i | 0 <= i < n :: calls[i].now <= call.now;
      RunRefines(c, calls[..n], key, call.now);
      UpdateRefines(c, Process(c, calls[..n]), call, key, Admitted(c, calls[..n], key), call.now);
      AgreesLater(Bucket(Process(c, calls), key), Admitted(c, calls, key), c.window, call.now, hi);
      UpdateKeepsBuckets(c, Process(c, calls[..n]), call, call.now);
    }
  }

  /**
    For non-decreasing call times every answer, with its remaining budget and
    its reset, is the one of the reference that forgets nothing.
   */
  lemma LimiterRefinesReference(c: Config, calls: seq<Call>, i: nat)
    requires c.Valid() && NonDecreasing(calls) && i < |calls|
    ensures InfoAt(c, calls, i) == Reference(c, Admitted(c, calls[..i], calls[i].key), calls[i].now)
  {
    var key := calls[i].key;
    RunRefines(c, calls[..i], key, calls[i].now);
    UpdateRefines(c, Process(c, calls[..i]), calls[i], key, Admitted(c, calls[..i], key), calls[i].now);
  }

  /** Every stored deque is sorted, non-empty and no longer than the limit. */
  lemma DequesStayValid(c: Config, calls: seq<Call>)
    requires c.Valid() && NonDecreasing(calls) && calls != []
    ensures BucketsValid(Process(c, calls), c.max, Latest(calls))
  {
    RunRefines(c, calls, calls[0].key, Latest(calls));
  }

  /** Nothing is admitted on the key between two points of the run. */
  lemma {:induction false} AdmittedUnchanged(c: Config, calls: seq<Call>, key: RateKey, i: nat, j: nat)
    requires c.Valid() && i <= j <= |calls|
    requires forall k | i <= k < j && calls[k].key == key :: !InfoAt(c, calls, k).allowed
    ensures Admitted(c, calls[..j], key) == Admitted(c, calls[..i], key)
  {
    if i < j {
      AdmittedUnchanged(c, calls, key, i, j - 1);
      assert calls[..j][..j - 1] == calls[..j - 1];
      assert InfoAt(c, calls[..j], j - 1) == InfoAt(c, calls, j - 1);
    }
  }

  /** A denial leaves the limit of live entries, the oldest of which expires at the advertised reset. */
  lemma DenialShowsFullWindow(c: Config, admitted: seq<int>, now: int)
    requires c.Valid() && Ordered(admitted, now)
    requires !Reference(c, admitted, now).allowed
    ensures var live := Popped(admitted, now, c.window);
      && |live| >= c.max && !Stale(now, c.window, live[0])
      && now + Reference(c, admitted, now).resetAfter == live[0] + c.window
  {
    PoppedIsOrdered(admitted, now, now, c.window);
    FrontIsFresh(admitted, now, c.window);
  }

  lemma {:induction false} FrontIsFresh(entries: seq<int>, now: int, window: nat)
    ensures var live := Popped(entries, now, window); live != [] ==> !Stale(now, window, live[0])
  {
    if entries != [] && Stale(now, window, entries[0]) {
      FrontIsFresh(entries[1..], now, window);
    }
  }

  /** Until the oldest live entry expires the live entries stay as they are; from then on one fewer at least. */
  lemma LiveUntilReset(c: Config, admitted: seq<int>, now: int, later: int)
    requires c.Valid() && Ordered(admitted, now) && now <= later
    requires !Reference(c, admitted, now).allowed
    requires |Popped(admitted, now, c.window)| == c.max
    ensures Reference(c, admitted, later).allowed <==> later >= now + Reference(c, admitted, now).resetAfter
  {
    var live := Popped(admitted, now, c.window);
    DenialShowsFullWindow(c, admitted, now);
    PoppedIsOrdered(admitted, now, later, c.window);
    PoppedTwice(admitted, now, later, c.window);
    if later >= live[0] + c.window {
      PoppedIsSuffix(live[1..], later, c.window);
    }
  }

  /**
    After a denial that advertises `r`, every later call on the key before
    `r` has passed is denied, and the first one from then on is admitted,
    whatever other keys and sweeps do in between.
   */
  lemma {:induction false} ResetIsExact(c: Config, calls: seq<Call>, i: nat, j: nat)
    requires c.Valid() && NonDecreasing(calls) && i < j < |calls|
    requires calls[j].key == calls[i].key && !InfoAt(c, calls, i).allowed
    requires forall k | i < k < j && calls[k].key == calls[i].key ::
      calls[k].now < calls[i].now + InfoAt(c, calls, i).resetAfter
    ensures InfoAt(c, calls, j).allowed <==> calls[j].now >= calls[i].now + InfoAt(c, calls, i).resetAfter
    decreases j
  {
    var key := calls[i].key;
    forall k | i <= k < j && calls[k].key == key ensures !InfoAt(c, calls, k).allowed {
      if i < k {
        ResetIsExact(c, calls, i, k);
      }
    }
    AdmittedUnchanged(c, calls, key, i, j);
    LimiterRefinesReference(c, calls, i);
    LimiterRefinesReference(c, calls, j);
    var admitted := Admitted(c, calls[..i], key);
    FullAtDenial(c, calls, i);
    LiveUntilReset(c, admitted, calls[i].now, calls[j].now);
  }

  lemma FullAtDenial(c: Config, calls: seq<Call>, i: nat)
    requires c.Valid() && NonDecreasing(calls) && i < |calls| && !InfoAt(c, calls, i).allowed
    ensures var admitted := Admitted(c, calls[..i], calls[i].key);
      Ordered(admitted, calls[i].now) && |Popped(admitted, calls[i].now, c.window)| == c.max
  {
    var key, now := calls[i].key, calls[i].now;
    var stored := Bucket(Process(c, calls[..i]), key);
    RunRefines(c, calls[..i], key, now);
    PoppedIsSuffix(stored, now, c.window);
    LimiterRefinesReference(c, calls, i);
    PoppedIsOrdered(Admitted(c, calls[..i], key), now, now, c.window);
  }

  /** A denial always advertises a positive wait, and the whole seconds cover it with less than a second to spare. */
  lemma AdvertisedSecondsCoverReset(b: Buckets, call: Call, c: Config)
    requires c.Valid() && !Update(b, call.key, call.now, call.sweep, c.max, c.window).1.allowed
    ensures var r := Update(b, call.key, call.now, call.sweep, c.max, c.window).1.resetAfter;
      && 0 < r <= c.window
      && (r / NANOS < MAX_U64 ==> r <= RetryAfterSeconds(r) * NANOS < r + NANOS)
  {
    var kept := if call.sweep then Swept(b, call.now, c.window) else b;
    FrontIsFresh(Bucket(kept, call.key), call.now, c.window);
  }
}
