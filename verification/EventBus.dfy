/** The in-memory event bus: a bounded log and a bounded memory of deduplication keys. */
module EventBus {
  import opened Sequences
  import opened Keys

  /** The fields of a domain event that the bus looks at. */
  datatype DomainEvent = DomainEvent(eventId: string, tenantId: string, source: string, idempotencyKey: string)

  function DedupKey(e: DomainEvent): string { Join(e.tenantId, e.source, e.idempotencyKey) }

  /** While tenants and sources contain no colon, only deliveries of the same keyed event share a key. */
  lemma DedupKeyIdentifies(d: DomainEvent, e: DomainEvent)
    requires ':' !in d.tenantId && ':' !in d.source && ':' !in e.tenantId && ':' !in e.source
    ensures DedupKey(d) == DedupKey(e) <==>
              d.tenantId == e.tenantId && d.source == e.source && d.idempotencyKey == e.idempotencyKey
  {
    JoinInjective(d.tenantId, d.source, d.idempotencyKey, e.tenantId, e.source, e.idempotencyKey);
  }

  ghost predicate SameDelivery(d: DomainEvent, e: DomainEvent) {
    d.tenantId == e.tenantId && d.source == e.source && d.idempotencyKey == e.idempotencyKey
  }

  /** An event can be taken for a repeat of a different one exactly when its tenant, its source or its idempotency key
      contains a colon; and for a repeat of one whose tenant and source contain none, exactly when its own do. */
  lemma DedupKeyConfusedIff(e: DomainEvent)
    ensures (exists d :: DedupKey(d) == DedupKey(e) && !SameDelivery(d, e))
       <==> ':' in e.tenantId || ':' in e.source || ':' in e.idempotencyKey
    ensures (exists d :: DedupKey(d) == DedupKey(e) && !SameDelivery(d, e) && ':' !in d.tenantId && ':' !in d.source)
       <==> ':' in e.tenantId || ':' in e.source
  {
    SharedIff(e.tenantId, e.source, e.idempotencyKey);
    if Shared(e.tenantId, e.source, e.idempotencyKey) {
      var a, b, c :| (a, b, c) != (e.tenantId, e.source, e.idempotencyKey) && Join(a, b, c) == DedupKey(e);
      assert DedupKey(DomainEvent(e.eventId, a, b, c)) == DedupKey(e);
    }
    if SharedPlainly(e.tenantId, e.source, e.idempotencyKey) {
      var a, b, c :| ':' !in a && ':' !in b && (a, b, c) != (e.tenantId, e.source, e.idempotencyKey)
          && Join(a, b, c) == DedupKey(e);
      assert DedupKey(DomainEvent(e.eventId, a, b, c)) == DedupKey(e);
    }
  }

  /** So an event of one tenant can be dropped as a repeat of another tenant's. */
  lemma DedupKeyCollides(id: string)
    ensures DedupKey(DomainEvent(id, "a:b", "c", "d")) == DedupKey(DomainEvent(id, "a", "b:c", "d"))
  {
    JoinCollides();
  }

  datatype Outcome = Accepted | Deduplicated | Rejected

  // ---------------------------------------------------------------------------------------------
  // The memory of keys

  /** Equal keys have at least `window` others between them. */
  ghost predicate Spaced<K>(keys: seq<K>, window: nat) {
    forall i, j :: 0 <= i < j < |keys| && j - i <= window ==> keys[i] != keys[j]
  }

  lemma RecentUnique<K>(keys: seq<K>, window: nat)
    requires Spaced(keys, window)
    ensures Unique(LastN(keys, window))
  {
    var recent := LastN(keys, window);
    assert forall i :: 0 <= i < |recent| ==> recent[i] == keys[|keys| - |recent| + i];
    DistinctUnique(recent);
  }

  lemma SpacedAppend<K>(keys: seq<K>, key: K, window: nat)
    requires Spaced(keys, window) && key !in LastN(keys, window)
    ensures Spaced(keys + [key], window)
  {
    var recent := LastN(keys, window);
    assert forall i :: |keys| - |recent| <= i < |keys| ==> keys[i] == recent[i - (|keys| - |recent|)];
  }

  /** Remembering one more key, and forgetting the oldest on overflow, keeps the set in step with the queue. */
  lemma KeyAdded<K>(keys: seq<K>, key: K, window: nat)
    requires Spaced(keys, window) && key !in LastN(keys, window)
    ensures Spaced(keys + [key], window)
    ensures var queue := LastN(keys, window) + [key];
      && (if |queue| > window then
            LastN(keys + [key], window) == queue[1..] && Members(queue) - {queue[0]} == Members(queue[1..])
          else LastN(keys + [key], window) == queue)
      && Members(queue) == Members(LastN(keys, window)) + {key}
  {
    SpacedAppend(keys, key, window);
    var queue := LastN(keys, window) + [key];
    RecentUnique(keys, window);
    UniqueAppend(LastN(keys, window), key);
    LastNAppend(keys, key, window);
    assert queue == [queue[0]] + queue[1..];
    assert Members(queue) == {queue[0]} + Members(queue[1..]);
  }

  /** The bounded idempotency store. */
  class InMemoryIdempotencyStore<K(==)> {
    const maxKeys: nat
    var seenKeys: set<K>
    var order: seq<K>
    var evictions: nat
    ghost var added: seq<K>

    ghost predicate Valid()
      reads this
    {
      && Spaced(added, maxKeys)
      && order == LastN(added, maxKeys) && seenKeys == Members(order)
      && evictions == |added| - |order|
    }

    constructor (maxKeys: nat)
      ensures Valid() && this.maxKeys == maxKeys && added == []
    {
      this.maxKeys := maxKeys;
      seenKeys, order, evictions, added := {}, [], 0, [];
    }

    method SeenOrAdd(key: K) returns (seen: bool)
      requires Valid()
      modifies this
      ensures Valid()
      ensures seen <==> key in LastN(old(added), maxKeys)
      ensures added == if seen then old(added) else old(added) + [key]
    {
      if key in seenKeys { return true; }
      KeyAdded(added, key, maxKeys);
      seenKeys := seenKeys + {key};
      order := order + [key];
      added := added + [key];
      if |order| > maxKeys {
        var evicted := order[0];
        order := order[1..];
        seenKeys := seenKeys - {evicted};
        evictions := evictions + 1;
      }
      return false;
    }
  }

  // ---------------------------------------------------------------------------------------------
  // The bus

  /** The deduplication keys of the events, in order. */
  ghost predicate KeysOf<E, K>(keys: seq<K>, events: seq<E>, key: E -> K) {
    |keys| == |events| && forall i :: 0 <= i < |events| ==> keys[i] == key(events[i])
  }

  /** The retained log never holds two events with the same key. */
  lemma LogHasNoDuplicates<E, K>(accepted: seq<E>, keys: seq<K>, key: E -> K, maxEvents: nat, i: nat, j: nat)
    requires KeysOf(keys, accepted, key) && Spaced(keys, 2 * maxEvents)
    requires i < j < |LastN(accepted, maxEvents)|
    ensures key(LastN(accepted, maxEvents)[i]) != key(LastN(accepted, maxEvents)[j])
  {
    var d := |accepted| - |LastN(accepted, maxEvents)|;
    LastNAt(accepted, maxEvents, i);
    LastNAt(accepted, maxEvents, j);
    assert keys[d + i] != keys[d + j];
  }

  // ---------------------------------------------------------------------------------------------
  // What a list of events adds

  ghost predicate AllHold<E>(events: seq<E>, n: nat, ok: E -> bool) {
    n <= |events| && forall i :: 0 <= i < n ==> ok(events[i])
  }

  /** Some event among the last `window` accepted ones has the same key. */
  ghost predicate Remembered<E, K>(accepted: seq<E>, e: E, key: E -> K, window: nat) {
    exists i :: 0 <= i < |accepted| && |accepted| - window <= i && key(accepted[i]) == key(e)
  }

  lemma RememberedIff<E, K>(accepted: seq<E>, keys: seq<K>, e: E, key: E -> K, window: nat)
    requires KeysOf(keys, accepted, key)
    ensures Remembered(accepted, e, key, window) <==> key(e) in LastN(keys, window)
  {
    var (recent, d) := (LastN(keys, window), |keys| - |LastN(keys, window)|);
    forall i | d <= i < |accepted| ensures recent[i - d] == key(accepted[i]) {
      LastNAt(keys, window, i - d);
    }
    if key(e) in recent {
      var i :| 0 <= i < |recent| && recent[i] == key(e);
      assert key(accepted[d + i]) == key(e);
    }
  }

  /** Everything accepted, once the first n events have been published one after another. */
  ghost function Published<E, K>(accepted: seq<E>, events: seq<E>, n: nat, key: E -> K, window: nat): seq<E>
    requires n <= |events|
  {
    if n == 0 then accepted
    else
      var before := Published(accepted, events, n - 1, key, window);
      if Remembered(before, events[n - 1], key, window) then before else before + [events[n - 1]]
  }

  /** The events whose flag is set, in their order. */
  function Selected<E>(events: seq<E>, flags: seq<bool>): seq<E>
    requires |flags| <= |events|
  {
    if flags == [] then []
    else
      var n := |flags| - 1;
      Selected(events, flags[..n]) + if flags[n] then [events[n]] else []
  }

  /** The flag of event i says that it is no repeat of what was accepted before its turn. */
  ghost predicate FlagsNew<E, K>(accepted: seq<E>, events: seq<E>, key: E -> K, window: nat, flags: seq<bool>, i: nat)
    requires i < |flags| <= |events|
  {
    flags[i] <==> !Remembered(accepted + Selected(events, flags[..i]), events[i], key, window)
  }

  /** The events are added in order, without exactly those that are repeats when their turn comes. */
  lemma {:induction false} PublishedExact<E, K>(accepted: seq<E>, events: seq<E>, n: nat, key: E -> K, window: nat)
    returns (flags: seq<bool>)
    requires n <= |events|
    ensures |flags| == n && Published(accepted, events, n, key, window) == accepted + Selected(events, flags)
    ensures forall i :: 0 <= i < n ==> FlagsNew(accepted, events, key, window, flags, i)
  {
    if n == 0 {
      flags := [];
    } else {
      var before := PublishedExact(accepted, events, n - 1, key, window);
      flags := before + [!Remembered(Published(accepted, events, n - 1, key, window), events[n - 1], key, window)];
      assert flags[..n - 1] == before;
      forall i | 0 <= i < n - 1 ensures FlagsNew(accepted, events, key, window, flags, i) {
        assert flags[..i] == before[..i] && FlagsNew(accepted, events, key, window, before, i);
      }
    }
  }

  /** One event more: well-formed, and accepted unless it is a repeat. */
  lemma OneMorePublished<E, K>(start: seq<E>, events: seq<E>, i: nat, key: E -> K, window: nat, ok: E -> bool,
                               now: seq<E>)
    requires i < |events| && AllHold(events, i, ok) && ok(events[i])
    requires var before := Published(start, events, i, key, window);
             now == if Remembered(before, events[i], key, window) then before else before + [events[i]]
    ensures AllHold(events, i + 1, ok) && now == Published(start, events, i + 1, key, window)
  {
  }

  /** Right after its turn, every event is remembered, whether it was accepted or not. */
  lemma RememberedAfterTurn<E, K>(accepted: seq<E>, events: seq<E>, i: nat, key: E -> K, window: nat)
    requires i < |events| && window > 0
    ensures Remembered(Published(accepted, events, i + 1, key, window), events[i], key, window)
  {
    var before := Published(accepted, events, i, key, window);
    if !Remembered(before, events[i], key, window) {
      assert (before + [events[i]])[|before|] == events[i];
    }
  }

  /** Some event accepted since has the same key. */
  ghost predicate AcceptedSince<E, K>(accepted: seq<E>, now: seq<E>, e: E, key: E -> K) {
    exists j :: |accepted| <= j < |now| && key(now[j]) == key(e)
  }

  lemma {:induction false} NewOnesAccepted<E, K>(accepted: seq<E>, events: seq<E>, n: nat, key: E -> K, window: nat)
    requires n <= |events| && forall i :: 0 <= i < n ==> !Remembered(accepted, events[i], key, window)
    ensures var now := Published(accepted, events, n, key, window);
      && accepted <= now && |now| <= |accepted| + n
      && forall i :: 0 <= i < n ==> AcceptedSince(accepted, now, events[i], key)
  {
    if n > 0 {
      var (before, e) := (Published(accepted, events, n - 1, key, window), events[n - 1]);
      NewOnesAccepted(accepted, events, n - 1, key, window);
      if Remembered(before, e, key, window) {
        var j :| 0 <= j < |before| && |before| - window <= j && key(before[j]) == key(e);
        assert j < |accepted| ==> key(accepted[j]) == key(e);
      } else {
        var now := before + [e];
        assert now[|before|] == e;
        forall i | 0 <= i < n - 1 ensures AcceptedSince(accepted, now, events[i], key) {
          var j :| |accepted| <= j < |before| && key(before[j]) == key(events[i]);
          assert now[j] == before[j];
        }
      }
    }
  }

  lemma {:induction false} RememberedAddNothing<E, K>(accepted: seq<E>, events: seq<E>, n: nat, key: E -> K,
                                                      window: nat)
    requires n <= |events| && forall i :: 0 <= i < n ==> Remembered(accepted, events[i], key, window)
    ensures Published(accepted, events, n, key, window) == accepted
  {
    if n > 0 { RememberedAddNothing(accepted, events, n - 1, key, window); }
  }

  /** New events that all fit into the memory of keys, delivered a second time, add nothing. */
  lemma RedeliveryAddsNothing<E, K>(accepted: seq<E>, events: seq<E>, key: E -> K, window: nat)
    requires |events| <= window && forall i :: 0 <= i < |events| ==> !Remembered(accepted, events[i], key, window)
    ensures var now := Published(accepted, events, |events|, key, window);
            Published(now, events, |events|, key, window) == now
  {
    var now := Published(accepted, events, |events|, key, window);
    NewOnesAccepted(accepted, events, |events|, key, window);
    forall i | 0 <= i < |events| ensures Remembered(now, events[i], key, window) {
      assert AcceptedSince(accepted, now, events[i], key);
    }
    RememberedAddNothing(now, events, |events|, key, window);
  }

  /** The bus, over any events with a deduplication key and a validation verdict. */
  class InMemoryEventBus<E, K(==)> {
    const key: E -> K
    const wellFormed: E -> bool
    const maxEvents: nat
    const maxIdempotencyKeys: nat
    var log: seq<E>
    var seenKeys: set<K>
    var idempotencyOrder: seq<K>
    var publishedCount: nat
    var deduplicatedCount: nat
    var idempotencyEvictions: nat
    ghost var accepted: seq<E>  // every event ever accepted
    ghost var keys: seq<K>  // their deduplication keys
    ghost var validCalls: nat  // publish calls with a well-formed event

    ghost predicate Valid()
      reads this
    {
      && maxIdempotencyKeys == 2 * maxEvents
      && log == LastN(accepted, maxEvents)
      && KeysOf(keys, accepted, key) && KeysValid()
      && publishedCount == |accepted| && publishedCount + deduplicatedCount == validCalls
    }

    ghost predicate KeysValid()
      reads this
    {
      && Spaced(keys, maxIdempotencyKeys)
      && idempotencyOrder == LastN(keys, maxIdempotencyKeys)
      && seenKeys == Members(idempotencyOrder)
      && idempotencyEvictions == |keys| - |idempotencyOrder|
    }

    constructor (maxEvents: nat, key: E -> K, wellFormed: E -> bool)
      ensures Valid() && this.maxEvents == maxEvents && maxIdempotencyKeys == 2 * maxEvents
      ensures accepted == [] && validCalls == 0
      ensures this.key == key && this.wellFormed == wellFormed
    {
      this.key, this.wellFormed := key, wellFormed;
      this.maxEvents, maxIdempotencyKeys := maxEvents, maxEvents * 2;
      log, seenKeys, idempotencyOrder := [], {}, [];
      publishedCount, deduplicatedCount, idempotencyEvictions := 0, 0, 0;
      accepted, keys, validCalls := [], [], 0;
    }

    /** Accepts an event exactly when its key is not among those of the last 2 * maxEvents accepted ones. */
    method Publish(event: E) returns (outcome: Outcome)
      requires Valid()
      modifies this
      ensures Valid()
      ensures outcome ==
        if !wellFormed(event) then Rejected
        else if Remembered(old(accepted), event, key, maxIdempotencyKeys) then Deduplicated
        else Accepted
      ensures accepted == if outcome.Accepted? then old(accepted) + [event] else old(accepted)
      ensures validCalls == old(validCalls) + if outcome.Rejected? then 0 else 1
    {
      if !wellFormed(event) { return Rejected; }
      validCalls := validCalls + 1;
      RememberedIff(accepted, keys, event, key, maxIdempotencyKeys);
      if key(event) in seenKeys {
        deduplicatedCount := deduplicatedCount + 1;
        return Deduplicated;
      }
      Append(event);
      Remember(key(event));
      return Accepted;
    }

    method Remember(dedupKey: K)
      requires KeysValid() && dedupKey !in seenKeys
      modifies this`seenKeys, this`idempotencyOrder, this`idempotencyEvictions, this`keys
      ensures KeysValid() && keys == old(keys) + [dedupKey]
    {
      KeyAdded(keys, dedupKey, maxIdempotencyKeys);
      keys := keys + [dedupKey];
      seenKeys := seenKeys + {dedupKey};
      idempotencyOrder := idempotencyOrder + [dedupKey];
      if |idempotencyOrder| > maxIdempotencyKeys {
        var evictedKey := idempotencyOrder[0];
        idempotencyOrder := idempotencyOrder[1..];
        seenKeys := seenKeys - {evictedKey};
        idempotencyEvictions := idempotencyEvictions + 1;
      }
    }

    /** The log drops its oldest event on overflow. */
    method Append(event: E)
      requires log == LastN(accepted, maxEvents)
      modifies this`log, this`publishedCount, this`accepted
      ensures accepted == old(accepted) + [event] && log == LastN(accepted, maxEvents)
      ensures publishedCount == old(publishedCount) + 1
    {
      LastNAppend(accepted, event, maxEvents);
      accepted := accepted + [event];
      log := log + [event];
      if |log| > maxEvents { log := log[1..]; }
      publishedCount := publishedCount + 1;
    }

    /** Publishes until the end or the first malformed event; `completed` tells which. */
    method PublishBatch(events: seq<E>) returns (published: nat, deduplicated: nat, completed: bool)
      requires Valid()
      modifies this
      ensures Valid()
      ensures completed <==> AllHold(events, |events|, wellFormed)
      ensures published == |accepted| - |old(accepted)| && published + deduplicated == validCalls - old(validCalls)
      ensures var n := published + deduplicated;
        && AllHold(events, n, wellFormed)
        && (if completed then n == |events| else n < |events| && !wellFormed(events[n]))
        && accepted == Published(old(accepted), events, n, key, maxIdempotencyKeys)
    {
      hide KeysValid;
      ghost var (start, valid) := (accepted, validCalls);
      published, deduplicated := 0, 0;
      for i := 0 to |events|
        invariant Valid()
        invariant AllHold(events, i, wellFormed)
        invariant published == |accepted| - |start| && validCalls == valid + i && published + deduplicated == i
        invariant accepted == Published(start, events, i, key, maxIdempotencyKeys)
      {
        var outcome := Publish(events[i]);
        if outcome.Rejected? { return published, deduplicated, false; }
        OneMorePublished(start, events, i, key, maxIdempotencyKeys, wellFormed, accepted);
        if outcome.Accepted? { published := published + 1; } else { deduplicated := deduplicated + 1; }
      }
      completed := true;
    }
  }

  /** Whatever a bus has been asked to publish, no two events of its log share a deduplication key. */
  lemma BusLogHasNoDuplicates<E, K>(bus: InMemoryEventBus<E, K>, i: nat, j: nat)
    requires bus.Valid() && i < j < |bus.log|
    ensures bus.key(bus.log[i]) != bus.key(bus.log[j])
  {
    LogHasNoDuplicates(bus.accepted, bus.keys, bus.key, bus.maxEvents, i, j);
  }
}
