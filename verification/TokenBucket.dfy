/** The Redis token bucket: one atomic script per request, on a key that expires. */
module TokenBucket {
  import opened Wrappers
  import opened Reals

  datatype Bucket = Bucket(tokens: real, updatedAt: real)

  /** Tokens available at `now`; a missing bucket is full. */
  function Available(capacity: real, rate: real, b: Option<Bucket>, now: real): real {
    var (tokens, updatedAt) := if b.Some? then (b.value.tokens, b.value.updatedAt) else (capacity, now);
    Min(capacity, tokens + Times(Max(0.0, now - updatedAt), rate))
  }

  /** One request for one token: the bucket it leaves and whether it was allowed. */
  function Request(capacity: real, rate: real, b: Option<Bucket>, now: real): (Bucket, bool) {
    var tokens := Available(capacity, rate, b, now);
    if tokens >= 1.0 then (Bucket(tokens - 1.0, now), true) else (Bucket(tokens, now), false)
  }

  // ---------------------------------------------------------------------------------------------
  // Runs of requests on one key, without expiry

  function After(capacity: real, rate: real, times: seq<real>): Option<Bucket> {
    if times == [] then None
    else
      var n := |times| - 1;
      Some(Request(capacity, rate, After(capacity, rate, times[..n]), times[n]).0)
  }

  /** Whether the k-th request was allowed. */
  function Allowed(capacity: real, rate: real, times: seq<real>, k: nat): bool
    requires k < |times|
  {
    Request(capacity, rate, After(capacity, rate, times[..k]), times[k]).1
  }

  /** How many of the requests i..j were allowed. */
  function Admitted(capacity: real, rate: real, times: seq<real>, i: nat, j: nat): nat
    requires i <= j <= |times|
    decreases j
  {
    if i == j then 0
    else Admitted(capacity, rate, times, i, j - 1) + if Allowed(capacity, rate, times, j - 1) then 1 else 0
  }

  lemma RefillStaysInside(capacity: real, rate: real, tokens: real, elapsed: real)
    requires 0.0 <= tokens <= capacity && 0.0 <= rate
    ensures 0.0 <= Min(capacity, tokens + Times(Max(0.0, elapsed), rate)) <= capacity
  {
    TimesMono(0.0, Max(0.0, elapsed), rate, rate);
  }

  /** Tokens stay between zero and the capacity. */
  lemma {:induction false} TokensBounded(capacity: real, rate: real, times: seq<real>)
    requires 0.0 <= capacity && 0.0 <= rate && times != []
    ensures 0.0 <= After(capacity, rate, times).value.tokens <= capacity
  {
    var n := |times| - 1;
    if n > 0 {
      TokensBounded(capacity, rate, times[..n]);
      var b := After(capacity, rate, times[..n]).value;
      RefillStaysInside(capacity, rate, b.tokens, times[n] - b.updatedAt);
    }
  }

  ghost predicate Ascending(times: seq<real>) {
    forall i, j :: 0 <= i < j < |times| ==> times[i] <= times[j]
  }

  /** What has been admitted plus what is left never exceeds the capacity plus what has been refilled. */
  lemma {:induction false} Potential(capacity: real, rate: real, times: seq<real>, i: nat, j: nat)
    requires 0.0 <= capacity && 0.0 <= rate && Ascending(times) && i < j <= |times|
    ensures Admitted(capacity, rate, times, i, j) as real + After(capacity, rate, times[..j]).value.tokens
         <= capacity + Times(times[j - 1] - times[i], rate)
    decreases j
  {
    assert times[..j][..j - 1] == times[..j - 1];
    var now := times[j - 1];
    if i < j - 1 {
      Potential(capacity, rate, times, i, j - 1);
      assert times[..j - 1][..j - 2] == times[..j - 2];
      var b := After(capacity, rate, times[..j - 1]).value;
      RequestGains(capacity, rate, b, now);
      TimesSplit(now - times[j - 2], times[j - 2] - times[i], rate);
      assert times[j - 2] <= now;
    } else {
      assert Admitted(capacity, rate, times, i, i) == 0;
      assert now - times[i] == 0.0;
      TimesZero(rate);
    }
  }

  /** One request admits at most what leaves the bucket after the refill. */
  lemma RequestGains(capacity: real, rate: real, b: Bucket, now: real)
    requires b.updatedAt <= now
    ensures var (next, allowed) := Request(capacity, rate, Some(b), now);
            next.updatedAt == now
                && next.tokens + (if allowed then 1.0 else 0.0) <= b.tokens + Times(now - b.updatedAt, rate)
  {
  }

  /** Any interval of length T admits at most the capacity plus T times the refill rate. */
  lemma RateBound(capacity: real, rate: real, times: seq<real>, i: nat, j: nat, length: real)
    requires 0.0 <= capacity && 0.0 <= rate && Ascending(times) && i < j <= |times|
    requires times[j - 1] - times[i] <= length
    ensures Admitted(capacity, rate, times, i, j) as real <= capacity + Times(length, rate)
  {
    Potential(capacity, rate, times, i, j);
    TokensBounded(capacity, rate, times[..j]);
    TimesMono(times[j - 1] - times[i], length, rate, rate);
  }

  // ---------------------------------------------------------------------------------------------
  // Which requests are allowed

  /** The time that passes from request i to request k; steps of the clock backwards count for nothing. */
  function Elapsed(times: seq<real>, i: nat, k: nat): real
    requires i <= k < |times|
    decreases k
  {
    if i == k then 0.0 else Elapsed(times, i, k - 1) + Max(0.0, times[k] - times[k - 1])
  }

  /** What request k could still have if the bucket had been full at request i. */
  function Room(capacity: real, rate: real, times: seq<real>, i: nat, k: nat): real
    requires i <= k < |times|
  {
    capacity + Times(Elapsed(times, i, k), rate) - Admitted(capacity, rate, times, i, k) as real
  }

  lemma RoomLater(capacity: real, rate: real, times: seq<real>, i: nat, k: nat)
    requires i < k < |times|
    ensures Room(capacity, rate, times, i, k)
         == Room(capacity, rate, times, i, k - 1) - (if Allowed(capacity, rate, times, k - 1) then 1.0 else 0.0)
            + Times(Max(0.0, times[k] - times[k - 1]), rate)
  {
    TimesSplit(Elapsed(times, i, k - 1), Max(0.0, times[k] - times[k - 1]), rate);
  }

  lemma AvailableLater(capacity: real, rate: real, times: seq<real>, k: nat)
    requires 0 < k < |times|
    ensures Available(capacity, rate, After(capacity, rate, times[..k]), times[k])
         == Min(capacity, Available(capacity, rate, After(capacity, rate, times[..k - 1]), times[k - 1])
                          - (if Allowed(capacity, rate, times, k - 1) then 1.0 else 0.0)
                          + Times(Max(0.0, times[k] - times[k - 1]), rate))
  {
    assert times[..k][..k - 1] == times[..k - 1];
  }

  /** The level a request finds, before it takes its token. */
  function Level(capacity: real, rate: real, times: seq<real>, k: nat): real
    requires k < |times|
  {
    Available(capacity, rate, After(capacity, rate, times[..k]), times[k])
  }

  /** It is the least of these, whatever the clock does. */
  lemma {:induction false} LevelIsLeast(capacity: real, rate: real, times: seq<real>, k: nat) returns (least: nat)
    requires k < |times|
    ensures forall i :: 0 <= i <= k ==> Level(capacity, rate, times, k) <= Room(capacity, rate, times, i, k)
    ensures least <= k && Level(capacity, rate, times, k) == Room(capacity, rate, times, least, k)
    decreases k
  {
    TimesZero(rate);
    least := k;
    assert Room(capacity, rate, times, k, k) == capacity;
    if k > 0 {
      var before := LevelIsLeast(capacity, rate, times, k - 1);
      AvailableLater(capacity, rate, times, k);
      forall i | 0 <= i < k
        ensures Room(capacity, rate, times, i, k) - Room(capacity, rate, times, i, k - 1)
             == Room(capacity, rate, times, before, k) - Room(capacity, rate, times, before, k - 1)
      {
        RoomLater(capacity, rate, times, i, k);
        RoomLater(capacity, rate, times, before, k);
      }
      RoomLater(capacity, rate, times, before, k);
      if Room(capacity, rate, times, before, k) <= capacity { least := before; }
    }
  }

  /** With one more, the requests allowed since request i are no more than a full bucket and the refill since cover. */
  ghost predicate Fits(capacity: real, rate: real, times: seq<real>, i: nat, k: nat)
    requires i <= k < |times|
  {
    Admitted(capacity, rate, times, i, k) as real + 1.0 <= capacity + Times(Elapsed(times, i, k), rate)
  }

  /** A request is allowed exactly when it fits, counted from every earlier request and from itself. */
  lemma AllowedIffFits(capacity: real, rate: real, times: seq<real>, k: nat)
    requires k < |times|
    ensures Allowed(capacity, rate, times, k) <==> forall i :: 0 <= i <= k ==> Fits(capacity, rate, times, i, k)
  {
    var least := LevelIsLeast(capacity, rate, times, k);
    assert Allowed(capacity, rate, times, k) <==> Level(capacity, rate, times, k) >= 1.0;
    forall i | 0 <= i <= k ensures Fits(capacity, rate, times, i, k) <==> Room(capacity, rate, times, i, k) >= 1.0 {}
    assert Fits(capacity, rate, times, least, k) <==> Level(capacity, rate, times, k) >= 1.0;
  }

  lemma {:induction false} ElapsedAscending(times: seq<real>, i: nat, k: nat)
    requires Ascending(times) && i <= k < |times|
    ensures Elapsed(times, i, k) == times[k] - times[i]
    decreases k
  {
    if i < k {
      ElapsedAscending(times, i, k - 1);
      assert times[k - 1] <= times[k];
    }
  }

  /** While time does not run backwards, a request is allowed exactly when no interval that ends with it would then
      admit more than the capacity and the refill of its length. */
  lemma AllowedIff(capacity: real, rate: real, times: seq<real>, k: nat)
    requires Ascending(times) && k < |times|
    ensures Allowed(capacity, rate, times, k) <==>
      forall i :: 0 <= i <= k ==>
        Admitted(capacity, rate, times, i, k) as real + 1.0 <= capacity + Times(times[k] - times[i], rate)
  {
    AllowedIffFits(capacity, rate, times, k);
    forall i | 0 <= i <= k
      ensures Fits(capacity, rate, times, i, k) <==>
        Admitted(capacity, rate, times, i, k) as real + 1.0 <= capacity + Times(times[k] - times[i], rate)
    {
      ElapsedAscending(times, i, k);
    }
  }

  // ---------------------------------------------------------------------------------------------
  // Expiry

  /** Seconds until an untouched key expires. */
  function Ttl(window: real): int {
    var whole := (window * 2.0).Floor;
    if whole < 1 then 1 else whole
  }

  /** The time to live covers a full window, in which an empty bucket refills completely, and is less than a second
      short of two, unless that second is all there is. */
  lemma TtlCoversWindow(window: real)
    requires window > 0.0
    ensures window <= Ttl(window) as real
    ensures (window < 1.0 && Ttl(window) == 1) || 2.0 * window - 1.0 < Ttl(window) as real <= 2.0 * window
  {
  }

  lemma WindowRefills(limit: real, window: real, tokens: real, elapsed: real)
    requires 0.0 <= limit && window > 0.0 && 0.0 <= tokens && window <= elapsed
    ensures tokens + Times(elapsed, limit / window) >= limit
  {
    var rate := limit / window;
    assert window * rate == limit;
    assert rate >= 0.0;
    TimesMono(window, elapsed, rate, rate);
  }

  /** A bucket that has been left alone for the time to live is full again, so forgetting it changes nothing. */
  lemma ExpiryInvisible(limit: real, window: real, b: Bucket, now: real)
    requires 0.0 <= limit && window > 0.0 && 0.0 <= b.tokens <= limit
    requires now >= b.updatedAt + Ttl(window) as real
    ensures Request(limit, limit / window, None, now) == Request(limit, limit / window, Some(b), now)
  {
    TtlCoversWindow(window);
    WindowRefills(limit, window, b.tokens, now - b.updatedAt);
  }

  datatype Stored = Stored(bucket: Bucket, expiresAt: real)

  function HistoryOf(requests: map<string, seq<real>>, key: string): seq<real> {
    if key in requests then requests[key] else []
  }

  /** A stored bucket is what the requests on its key leave, and expires the time to live after the last of them. */
  ghost predicate Kept(capacity: real, rate: real, ttl: int, s: Stored, times: seq<real>) {
    && times != []
    && s.expiresAt == s.bucket.updatedAt + ttl as real
    && After(capacity, rate, times) == Some(s.bucket)
  }

  ghost predicate AllKept(capacity: real, rate: real, ttl: int, stored: map<string, Stored>,
                          requests: map<string, seq<real>>) {
    stored.Keys == requests.Keys && forall key :: key in stored ==>
        Kept(capacity, rate, ttl, stored[key], requests[key])
  }

  lemma KeyUpdated(capacity: real, rate: real, ttl: int, stored: map<string, Stored>, requests: map<string, seq<real>>,
                   key: string, s: Stored, times: seq<real>)
    requires AllKept(capacity, rate, ttl, stored, requests) && Kept(capacity, rate, ttl, s, times)
    ensures AllKept(capacity, rate, ttl, stored[key := s], requests[key := times])
  {
  }

  /** The bucket that a request finds: nothing once the key has expired. */
  function Found(stored: map<string, Stored>, key: string, now: real): Option<Bucket> {
    if key in stored && now < stored[key].expiresAt then Some(stored[key].bucket) else None
  }

  /** A request finds a bucket exactly when the latest request on its key lies less than the time to live back. */
  lemma FoundIff(capacity: real, rate: real, ttl: int, stored: map<string, Stored>, requests: map<string, seq<real>>,
                 key: string, now: real)
    requires AllKept(capacity, rate, ttl, stored, requests)
    ensures var times := HistoryOf(requests, key);
      && (Found(stored, key, now).Some? <==> times != [] && now < times[|times| - 1] + ttl as real)
      && (Found(stored, key, now).Some? ==> Found(stored, key, now) == After(capacity, rate, times))
  {
    if key in stored { assert Kept(capacity, rate, ttl, stored[key], requests[key]); }
  }

  lemma RequestKept(limit: real, window: real, stored: map<string, Stored>, requests: map<string, seq<real>>,
                    key: string, now: real)
    requires 0.0 <= limit && window > 0.0 && AllKept(limit, limit / window, Ttl(window), stored, requests)
    ensures var (rate, before) := (limit / window, HistoryOf(requests, key));
            var (b, allowed) := Request(limit, rate, Found(stored, key, now), now);
      && allowed == Allowed(limit, rate, before + [now], |before|)
      && Kept(limit, rate, Ttl(window), Stored(b, now + Ttl(window) as real), before + [now])
  {
    var (rate, before) := (limit / window, HistoryOf(requests, key));
    assert (before + [now])[..|before|] == before;
    assert rate >= 0.0;
    if key in stored {
      assert Kept(limit, rate, Ttl(window), stored[key], before);
      TokensBounded(limit, rate, before);
      if now >= stored[key].expiresAt { ExpiryInvisible(limit, window, stored[key].bucket, now); }
    }
  }

  class RedisTokenBucketRateLimiter {
    const capacity: real
    const window: real
    const refillRatePerSecond: real
    const ttlSeconds: int
    var stored: map<string, Stored>
    ghost var requests: map<string, seq<real>>  // the times of all requests, per caller

    ghost predicate Valid()
      reads this
    {
      && 0.0 <= capacity && window > 0.0
      && refillRatePerSecond == capacity / window && ttlSeconds == Ttl(window)
      && AllKept(capacity, refillRatePerSecond, ttlSeconds, stored, requests)
    }

    constructor (limit: nat, window: real)
      requires window > 0.0
      ensures Valid() && capacity == limit as real && this.window == window && requests == map[]
    {
      capacity, this.window := limit as real, window;
      refillRatePerSecond := limit as real / window;
      ttlSeconds := Ttl(window);
      stored, requests := map[], map[];
    }

    /** The decision is that of a bucket that never expires. */
    method Allow(key: string, now: real) returns (allowed: bool)
      requires Valid()
      modifies this
      ensures Valid()
      ensures requests == old(requests)[key := HistoryOf(old(requests), key) + [now]]
      ensures allowed == Allowed(capacity, refillRatePerSecond, requests[key], |requests[key]| - 1)
    {
      RequestKept(capacity, window, stored, requests, key, now);
      ghost var before := HistoryOf(requests, key);
      var bucket := Found(stored, key, now);
      var next;
      next, allowed := Evaluate(bucket, now);
      KeyUpdated(capacity, refillRatePerSecond, ttlSeconds, stored, requests, key,
          Stored(next, now + ttlSeconds as real), before + [now]);
      stored := stored[key := Stored(next, now + ttlSeconds as real)];
      requests := requests[key := before + [now]];
    }

    /** The body of the script. */
    method Evaluate(bucket: Option<Bucket>, now: real) returns (next: Bucket, allowed: bool)
      ensures (next, allowed) == Request(capacity, refillRatePerSecond, bucket, now)
    {
      var tokens := if bucket.Some? then bucket.value.tokens else capacity;
      var updatedAt := if bucket.Some? then bucket.value.updatedAt else now;
      var elapsed := Max(0.0, now - updatedAt);
      tokens := Min(capacity, tokens + Times(elapsed, refillRatePerSecond));
      allowed := false;
      if tokens >= 1.0 {
        tokens := tokens - 1.0;
        allowed := true;
      }
      next := Bucket(tokens, now);
    }
  }
}
