/** The in-memory sliding-window limiter, with its lazy popping and its periodic clean-up of stale callers,
    against a limiter that remembers every admission. */
module SlidingWindow {

  ghost predicate Ascending(times: seq<real>) {
    forall i, j :: 0 <= i < j < |times| ==> times[i] <= times[j]
  }

  /** Admissions later than `cutoff`. */
  ghost function CountAfter(times: seq<real>, cutoff: real): nat {
    if times == [] then 0
    else
      var n := |times| - 1;
      CountAfter(times[..n], cutoff) + if times[n] > cutoff then 1 else 0
  }

  /** Half-open intervals of either orientation: (lo, hi], or [lo, hi) when `leftClosed`. */
  predicate Between(t: real, lo: real, hi: real, leftClosed: bool) {
    if leftClosed then lo <= t < hi else lo < t <= hi
  }

  ghost function CountIn(times: seq<real>, lo: real, hi: real, leftClosed: bool): nat {
    if times == [] then 0
    else
      var n := |times| - 1;
      CountIn(times[..n], lo, hi, leftClosed) + if Between(times[n], lo, hi, leftClosed) then 1 else 0
  }

  lemma {:induction false} CountSuffix(times: seq<real>, p: nat, cutoff: real)
    requires p <= |times|
    requires forall i :: 0 <= i < p ==> times[i] <= cutoff
    requires forall i :: p <= i < |times| ==> times[i] > cutoff
    ensures CountAfter(times, cutoff) == |times| - p
  {
    if times != [] {
      var n := |times| - 1;
      CountSuffix(times[..n], if p <= n then p else n, cutoff);
    }
  }

  /** Each admission found room in the window that ends at it. */
  ghost predicate WithinLimit(times: seq<real>, limit: int, window: real) {
    times != [] ==>
      var n := |times| - 1;
      WithinLimit(times[..n], limit, window) && CountAfter(times, times[n] - window) <= limit
  }

  lemma {:induction false} CountInBelow(times: seq<real>, lo: real, hi: real, leftClosed: bool, cutoff: real)
    requires cutoff < lo || (cutoff == lo && !leftClosed)
    ensures CountIn(times, lo, hi, leftClosed) <= CountAfter(times, cutoff)
  {
    if times != [] { CountInBelow(times[..|times| - 1], lo, hi, leftClosed, cutoff); }
  }

  lemma {:induction false} CountInNone(times: seq<real>, lo: real, hi: real, leftClosed: bool)
    requires forall i :: 0 <= i < |times| ==> !Between(times[i], lo, hi, leftClosed)
    ensures CountIn(times, lo, hi, leftClosed) == 0
  {
    if times != [] { CountInNone(times[..|times| - 1], lo, hi, leftClosed); }
  }

  /** No half-open interval of window length, wherever it starts, holds more than `limit` admissions. */
  lemma {:induction false} EveryWindowBounded(times: seq<real>, limit: int, window: real, lo: real, leftClosed: bool)
    requires Ascending(times) && WithinLimit(times, limit, window) && window > 0.0
    ensures CountIn(times, lo, lo + window, leftClosed) <= if limit > 0 then limit else 0
  {
    if times != [] {
      var last := times[|times| - 1];
      if Between(last, lo, lo + window, leftClosed) {
        CountInBelow(times, lo, lo + window, leftClosed, last - window);
      } else {
        EveryWindowBounded(times[..|times| - 1], limit, window, lo, leftClosed);
      }
    }
  }

  function At(m: map<string, seq<real>>, key: string): seq<real> {
    if key in m then m[key] else []
  }

  /** A bucket is the end of its caller's admission history; what it misses has left the window that ends at the
      latest call, and so every later one. */
  ghost predicate Tracked(all: seq<real>, bucket: seq<real>, limit: int, window: real, latest: real) {
    && |bucket| <= |all| && all[|all| - |bucket|..] == bucket
    && Ascending(all) && WithinLimit(all, limit, window)
    && (forall i :: 0 <= i < |all| ==> all[i] <= latest)
    && (forall i :: 0 <= i < |all| - |bucket| ==> all[i] <= latest - window)
  }

  predicate IsStale(bucket: seq<real>, cutoff: real) {
    bucket == [] || bucket[|bucket| - 1] <= cutoff
  }

  lemma DroppedTracked(all: seq<real>, bucket: seq<real>, limit: int, window: real, latest: real)
    requires Tracked(all, bucket, limit, window, latest) && IsStale(bucket, latest - window)
    ensures Tracked(all, [], limit, window, latest)
  {
    if bucket != [] { assert bucket[|bucket| - 1] == all[|all| - 1]; }
  }

  lemma {:induction false} AdmittedWithinLimit(all: seq<real>, size: nat, limit: int, window: real, now: real)
    requires Ascending(all) && WithinLimit(all, limit, window) && size <= |all| && size < limit
    requires forall i :: 0 <= i < |all| ==> all[i] <= now
    requires forall i :: 0 <= i < |all| - size ==> all[i] <= now - window
    requires forall i :: |all| - size <= i < |all| ==> all[i] > now - window
    ensures WithinLimit(all + [now], limit, window)
  {
    var after := all + [now];
    assert after[..|all|] == all;
    CountSuffix(after, if window > 0.0 then |all| - size else |after|, now - window);
  }

  lemma {:induction false} AdmittedTracked(all: seq<real>, bucket: seq<real>, limit: int, window: real, now: real)
    requires Tracked(all, bucket, limit, window, now) && |bucket| < limit && AllLaterThan(bucket, now - window)
    ensures Tracked(all + [now], bucket + [now], limit, window, now)
  {
    var p := |all| - |bucket|;
    assert forall i :: p <= i < |all| ==> all[i] == bucket[i - p];
    AdmittedWithinLimit(all, |bucket|, limit, window, now);
    assert (all + [now])[p..] == all[p..] + [now];
  }

  lemma LaterTracked(all: seq<real>, bucket: seq<real>, limit: int, window: real, latest: real, now: real)
    requires Tracked(all, bucket, limit, window, latest) && latest <= now
    ensures Tracked(all, bucket, limit, window, now)
  {
  }

  ghost predicate AllTracked(admitted: map<string, seq<real>>, events: map<string, seq<real>>, limit: int, window: real,
                             latest: real) {
    forall key {:trigger Tracked(At(admitted, key), At(events, key), limit, window, latest)} ::
      Tracked(At(admitted, key), At(events, key), limit, window, latest)
  }

  lemma AllLater(admitted: map<string, seq<real>>, events: map<string, seq<real>>, limit: int, window: real,
                 latest: real, now: real)
    requires AllTracked(admitted, events, limit, window, latest) && latest <= now
    ensures AllTracked(admitted, events, limit, window, now)
  {
    forall k ensures Tracked(At(admitted, k), At(events, k), limit, window, now) {
      LaterTracked(At(admitted, k), At(events, k), limit, window, latest, now);
    }
  }

  lemma ReplacedAt(admitted: map<string, seq<real>>, events: map<string, seq<real>>, limit: int, window: real,
                   latest: real,
                   key: string, bucket: seq<real>, k: string)
    requires Tracked(At(admitted, k), if k == key then bucket else At(events, k), limit, window, latest)
    ensures Tracked(At(admitted, k), At(events[key := bucket], k), limit, window, latest)
  {
    assert At(events[key := bucket], k) == if k == key then bucket else At(events, k);
  }

  lemma BucketReplaced(admitted: map<string, seq<real>>, events: map<string, seq<real>>, limit: int, window: real,
                       latest: real, key: string, bucket: seq<real>)
    requires AllTracked(admitted, events, limit, window, latest)
    requires Tracked(At(admitted, key), bucket, limit, window, latest)
    ensures AllTracked(admitted, events[key := bucket], limit, window, latest)
  {
    forall k ensures Tracked(At(admitted, k), At(events[key := bucket], k), limit, window, latest) {
      assert k != key ==> Tracked(At(admitted, k), At(events, k), limit, window, latest);
      ReplacedAt(admitted, events, limit, window, latest, key, bucket, k);
    }
  }

  lemma {:induction false} AdmissionRecorded(admitted: map<string, seq<real>>, events: map<string, seq<real>>,
                                             limit: int, window: real, now: real, key: string, bucket: seq<real>)
    requires AllTracked(admitted, events, limit, window, now) && bucket == At(events, key) && |bucket| < limit
    requires AllLaterThan(bucket, now - window)
    ensures AllTracked(admitted[key := At(admitted, key) + [now]], events[key := bucket + [now]], limit, window, now)
  {
    AdmittedTracked(At(admitted, key), bucket, limit, window, now);
    var (a, e) := (admitted[key := At(admitted, key) + [now]], events[key := bucket + [now]]);
    forall k ensures Tracked(At(a, k), At(e, k), limit, window, now) {
      if k != key { assert At(a, k) == At(admitted, k) && At(e, k) == At(events, k); }
    }
  }

  lemma StaleDroppedAt(all: seq<real>, events: map<string, seq<real>>, limit: int, window: real, latest: real,
                       key: string,
                       k: string)
    requires Tracked(all, At(events, k), limit, window, latest)
    ensures Tracked(all, At(events - StaleKeys(events, key, latest - window), k), limit, window, latest)
  {
    if k in StaleKeys(events, key, latest - window) {
      DroppedTracked(all, At(events, k), limit, window, latest);
    } else {
      assert At(events - StaleKeys(events, key, latest - window), k) == At(events, k);
    }
  }

  lemma {:induction false} StaleDropped(admitted: map<string, seq<real>>, events: map<string, seq<real>>, limit: int,
                                        window: real, latest: real, key: string)
    requires AllTracked(admitted, events, limit, window, latest)
    ensures AllTracked(admitted, events - StaleKeys(events, key, latest - window), limit, window, latest)
  {
    var left := events - StaleKeys(events, key, latest - window);
    forall k ensures Tracked(At(admitted, k), At(left, k), limit, window, latest) {
      StaleDroppedAt(At(admitted, k), events, limit, window, latest, key, k);
    }
  }

  /** The callers other than `key` whose buckets hold nothing recent. */
  function StaleKeys(events: map<string, seq<real>>, key: string, cutoff: real): set<string> {
    set k | k in events && k != key && IsStale(events[k], cutoff)
  }

  /** Every other caller with a bucket has been admitted after the cutoff. */
  ghost predicate NoStale(events: map<string, seq<real>>, admitted: map<string, seq<real>>, key: string, cutoff: real) {
    forall k :: k in events && k != key ==> CountAfter(At(admitted, k), cutoff) > 0
  }

  lemma NoStaleBut(events: map<string, seq<real>>, admitted: map<string, seq<real>>, key: string, bucket: seq<real>,
                   all: seq<real>, cutoff: real)
    requires NoStale(events, admitted, key, cutoff)
    ensures NoStale(events[key := bucket], admitted[key := all], key, cutoff)
  {
    forall k | k in events && k != key ensures At(admitted[key := all], k) == At(admitted, k) {}
  }

  /** A bucket is stale exactly when its caller has not been admitted within the window. */
  lemma {:induction false} StaleIff(all: seq<real>, bucket: seq<real>, limit: int, window: real, latest: real)
    requires Tracked(all, bucket, limit, window, latest)
    ensures IsStale(bucket, latest - window) <==> CountAfter(all, latest - window) == 0
  {
    var (p, n) := (|all| - |bucket|, |all| - 1);
    if bucket != [] { assert bucket[|bucket| - 1] == all[n]; }
    if IsStale(bucket, latest - window) {
      CountSuffix(all, |all|, latest - window);
    }
  }

  ghost predicate AllLaterThan(bucket: seq<real>, cutoff: real) {
    forall i :: 0 <= i < |bucket| ==> bucket[i] > cutoff
  }

  /** Once the expired admissions are gone, the size of the bucket is the count over the full history. */
  lemma FullHistoryCount(all: seq<real>, bucket: seq<real>, limit: int, window: real, now: real)
    requires Tracked(all, bucket, limit, window, now) && AllLaterThan(bucket, now - window)
    ensures CountAfter(all, now - window) == |bucket|
  {
    var p := |all| - |bucket|;
    assert forall i :: p <= i < |all| ==> all[i] == bucket[i - p];
    CountSuffix(all, p, now - window);
  }

  class SlidingWindowRateLimiter {
    const limit: int
    const window: real
    const cleanupInterval: int
    var events: map<string, seq<real>>
    var opsSinceCleanup: int
    ghost var admitted: map<string, seq<real>>  // every admission ever made, per caller
    ghost var latest: real  // the time of the latest call

    ghost predicate Valid()
      reads this
    {
      AllTracked(admitted, events, limit, window, latest)
    }

    /** `start` is any time before the first call. */
    constructor (limit: int, window: real, cleanupInterval: int, ghost start: real)
      ensures Valid() && this.limit == limit && this.window == window
      ensures this.cleanupInterval == cleanupInterval && events == map[] && opsSinceCleanup == 0
      ensures admitted == map[] && latest == start
    {
      this.limit, this.window, this.cleanupInterval := limit, window, cleanupInterval;
      events, opsSinceCleanup := map[], 0;
      admitted, latest := map[], start;
    }

    /** The decision is that of a limiter that counts the full history. */
    method Allow(key: string, now: real) returns (allowed: bool)
      requires Valid() && latest <= now
      modifies this
      ensures Valid() && latest == now
      ensures allowed == (CountAfter(At(old(admitted), key), now - window) < limit)
      ensures admitted == if allowed then old(admitted)[key := At(old(admitted), key) + [now]] else old(admitted)
      ensures opsSinceCleanup == if old(opsSinceCleanup) + 1 >= cleanupInterval then 0 else old(opsSinceCleanup) + 1
      ensures if old(opsSinceCleanup) + 1 >= cleanupInterval then NoStale(events, admitted, key, now - window)
              else key in events && events == old(events)[key := events[key]]
    {
      Prepare(key, now);
      allowed := Decide(key, now);
    }

    /** Everything but the decision. */
    method Prepare(key: string, now: real)
      requires Valid() && latest <= now
      modifies this`events, this`latest, this`opsSinceCleanup
      ensures Valid() && latest == now
      ensures key in events && AllLaterThan(events[key], now - window)
      ensures opsSinceCleanup == if old(opsSinceCleanup) + 1 >= cleanupInterval then 0 else old(opsSinceCleanup) + 1
      ensures if old(opsSinceCleanup) + 1 >= cleanupInterval then NoStale(events, admitted, key, now - window)
              else events == old(events)[key := events[key]]
    {
      Refresh(key, now);
      Maintain(key, now - window);
    }

    /** Drops from the caller's bucket the admissions that have left the window. */
    method Refresh(key: string, now: real)
      requires Valid() && latest <= now
      modifies this`events, this`latest
      ensures Valid() && latest == now && opsSinceCleanup == old(opsSinceCleanup)
      ensures key in events && AllLaterThan(events[key], now - window) && events == old(events)[key := events[key]]
    {
      AllLater(admitted, events, limit, window, latest, now);
      latest := now;
      var bucket := PopExpired(At(events, key), now - window, At(admitted, key));
      BucketReplaced(admitted, events, limit, window, now, key, bucket);
      events := events[key := bucket];
    }

    method PopExpired(start: seq<real>, cutoff: real, ghost all: seq<real>) returns (bucket: seq<real>)
      requires Tracked(all, start, limit, window, latest) && cutoff == latest - window
      ensures Tracked(all, bucket, limit, window, latest)
      ensures AllLaterThan(bucket, cutoff)
    {
      bucket := start;
      while bucket != [] && bucket[0] <= cutoff
        invariant Tracked(all, bucket, limit, window, latest)
      {
        assert bucket[0] == all[|all| - |bucket|];
        bucket := bucket[1..];
      }
      assert bucket != [] ==> forall i :: 0 <= i < |bucket| ==> bucket[0] <= bucket[i] == all[|all| - |bucket| + i];
    }

    /** Counts the call, and cleans up at every `cleanupInterval`-th one. */
    method Maintain(key: string, cutoff: real)
      requires Valid() && cutoff == latest - window && key in events
      modifies this`events, this`opsSinceCleanup
      ensures Valid() && key in events && events[key] == old(events)[key]
      ensures opsSinceCleanup == if old(opsSinceCleanup) + 1 >= cleanupInterval then 0 else old(opsSinceCleanup) + 1
      ensures if old(opsSinceCleanup) + 1 >= cleanupInterval then NoStale(events, admitted, key, cutoff)
              else events == old(events)
    {
      opsSinceCleanup := opsSinceCleanup + 1;
      if opsSinceCleanup >= cleanupInterval {
        opsSinceCleanup := 0;
        DropStale(key, cutoff);
      }
    }

    /** Admits the call if the window has room. */
    method Decide(key: string, now: real) returns (allowed: bool)
      requires Valid() && latest == now && key in events && AllLaterThan(events[key], now - window)
      modifies this`events, this`admitted
      ensures Valid()
      ensures allowed == (CountAfter(At(old(admitted), key), now - window) < limit)
      ensures admitted == if allowed then old(admitted)[key := At(old(admitted), key) + [now]] else old(admitted)
      ensures opsSinceCleanup == old(opsSinceCleanup)
      ensures key in events && events == old(events)[key := events[key]]
      ensures NoStale(old(events), old(admitted), key, now - window) ==> NoStale(events, admitted, key, now - window)
    {
      var bucket := events[key];
      ghost var all := At(admitted, key);
      assert Tracked(all, At(events, key), limit, window, now);
      FullHistoryCount(all, bucket, limit, window, now);
      if |bucket| >= limit { return false; }
      AdmissionRecorded(admitted, events, limit, window, now, key, bucket);
      if NoStale(events, admitted, key, now - window) {
        NoStaleBut(events, admitted, key, bucket + [now], all + [now], now - window);
      }
      events := events[key := bucket + [now]];
      admitted := admitted[key := all + [now]];
      return true;
    }

    /** Periodic maintenance: forgets every other caller whose bucket has gone stale. */
    method DropStale(key: string, cutoff: real)
      requires Valid() && cutoff == latest - window
      modifies this`events
      ensures Valid()
      ensures forall k :: k in events <==>
                k in old(events) && (k == key || CountAfter(At(admitted, k), cutoff) > 0)
      ensures forall k :: k in events ==> events[k] == old(events)[k]
    {
      var stale := StaleKeys(events, key, cutoff);
      var left := stale;
      while left != {}
        invariant left <= stale && events == old(events) - (stale - left)
        decreases left
      {
        var k :| k in left;
        events := events - {k};
        left := left - {k};
      }
      StaleDropped(admitted, old(events), limit, window, latest, key);
      assert events == old(events) - stale;
      forall k | k in old(events)
        ensures k in stale <==> k != key && CountAfter(At(admitted, k), cutoff) == 0
      {
        assert Tracked(At(admitted, k), At(old(events), k), limit, window, latest);
        StaleIff(At(admitted, k), old(events)[k], limit, window, latest);
      }
    }
  }

  /** Whatever calls a limiter has answered, no caller was admitted more than `limit` times in any half-open interval
      of window length. */
  lemma EveryCallerBounded(limiter: SlidingWindowRateLimiter, key: string, lo: real, leftClosed: bool)
    requires limiter.Valid() && limiter.window > 0.0
    ensures CountIn(At(limiter.admitted, key), lo, lo + limiter.window, leftClosed)
         <= if limiter.limit > 0 then limiter.limit else 0
  {
    assert Tracked(At(limiter.admitted, key), At(limiter.events, key), limiter.limit, limiter.window, limiter.latest);
    EveryWindowBounded(At(limiter.admitted, key), limiter.limit, limiter.window, lo, leftClosed);
  }
}
