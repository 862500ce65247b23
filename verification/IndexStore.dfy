/** The in-process attribution index: an ordered dictionary kept to a size limit by evicting its oldest entry,
    with a version per workload. */
module IndexStore {
  import opened Wrappers
  import opened Sequences

  /** `K` is the type of workload identifiers; `payload` stands for the attribution fields. The index looks into
      neither. */
  datatype Entry<K, V> = Entry(workloadId: K, payload: V, version: nat)

  // ---------------------------------------------------------------------------------------------
  // The reference: recency of touches

  function Without<K(==)>(s: seq<K>, x: K): (r: seq<K>)
    ensures |r| <= |s|
  {
    if s == [] then [] else (if s[0] == x then [] else [s[0]]) + Without(s[1..], x)
  }

  /** The distinct workloads touched, in the order of their latest touch. */
  function Recency<K(==)>(touches: seq<K>): seq<K> {
    if touches == [] then []
    else
      var last := touches[|touches| - 1];
      Without(Recency(touches[..|touches| - 1]), last) + [last]
  }

  lemma {:induction false} WithoutConcat<K>(s: seq<K>, t: seq<K>, x: K)
    ensures Without(s + t, x) == Without(s, x) + Without(t, x)
  {
    if s == [] {
      assert s + t == t;
    } else {
      assert (s + t)[1..] == s[1..] + t;
      WithoutConcat(s[1..], t, x);
    }
  }

  lemma {:induction false} WithoutMembers<K>(s: seq<K>, x: K)
    ensures Members(Without(s, x)) == Members(s) - {x}
    ensures x !in s ==> Without(s, x) == s
  {
    if s != [] {
      WithoutMembers(s[1..], x);
      assert s == [s[0]] + s[1..];
      assert Members(s) == {s[0]} + Members(s[1..]);
      var w := Without(s[1..], x);
      assert Members([s[0]] + w) == {s[0]} + Members(w);
    }
  }

  /** Moving an element to the end. */
  lemma {:induction false} WithoutUnique<K>(s: seq<K>, x: K)
    requires Unique(s)
    ensures Unique(Without(s, x))
    ensures |Without(s, x)| == if x in s then |s| - 1 else |s|
  {
    if s != [] {
      var w := Without(s[1..], x);
      WithoutUnique(s[1..], x);
      WithoutMembers(s[1..], x);
      assert x in s <==> x == s[0] || x in s[1..];
      if s[0] == x {
        assert Without(s, x) == w;
      } else {
        assert Without(s, x) == [s[0]] + w;
        assert s[0] !in Members(w);
      }
    }
  }

  lemma MovedToEnd<K>(s: seq<K>, x: K)
    requires Unique(s)
    ensures var t := Without(s, x) + [x];
      && Unique(t) && Members(t) == Members(s) + {x} && |t| == |s| + if x in Members(s) then 0 else 1
  {
    WithoutUnique(s, x);
    WithoutMembers(s, x);
    assert x !in Members(Without(s, x));
    UniqueAppend(Without(s, x), x);
  }

  lemma {:induction false} RecencyUnique<K>(touches: seq<K>)
    ensures Unique(Recency(touches))
    ensures Members(Recency(touches)) == Members(touches)
  {
    if touches != [] {
      var (n, last) := (|touches| - 1, touches[|touches| - 1]);
      RecencyUnique(touches[..n]);
      MovedToEnd(Recency(touches[..n]), last);
      assert touches == touches[..n] + [last];
      assert Members(touches) == Members(touches[..n]) + {last};
    }
  }

  /** The position of the latest touch. */
  function LastTouch<K(==)>(touches: seq<K>, w: K): (k: nat)
    requires w in touches
    ensures k < |touches| && touches[k] == w && forall j :: k < j < |touches| ==> touches[j] != w
  {
    var n := |touches| - 1;
    if touches[n] == w then n
    else
      assert touches == touches[..n] + [touches[n]];
      LastTouch(touches[..n], w)
  }

  /** Recency lists the touched workloads by their latest touch, oldest first. */
  lemma {:induction false} RecencyOrdered<K>(touches: seq<K>, i: nat, j: nat)
    requires i < j < |Recency(touches)|
    ensures Recency(touches)[i] in touches && Recency(touches)[j] in touches
    ensures LastTouch(touches, Recency(touches)[i]) < LastTouch(touches, Recency(touches)[j])
  {
    RecencyUnique(touches);
    var (n, r) := (|touches| - 1, Recency(touches));
    var (last, before) := (touches[n], Recency(touches[..n]));
    var others := Without(before, last);
    assert r[i] in Members(r) && r[j] in Members(r);
    WithoutMembers(before, last);
    assert r[i] == others[i] && others[i] in Members(others);
    if j < |others| {
      assert r[j] == others[j] && others[j] in Members(others);
      WithoutKeepsOrder(before, last, i, j);
      var p, q :| 0 <= p < q < |before| && before[p] == r[i] && before[q] == r[j];
      RecencyOrdered(touches[..n], p, q);
    }
  }

  lemma {:induction false} WithoutKeepsOrder<K>(s: seq<K>, x: K, i: nat, j: nat)
    requires i < j < |Without(s, x)|
    ensures exists p, q :: 0 <= p < q < |s| && s[p] == Without(s, x)[i] && s[q] == Without(s, x)[j]
  {
    var d := if s[0] == x then 0 else 1;
    if d <= i {
      WithoutKeepsOrder(s[1..], x, i - d, j - d);
      var p, q :| 0 <= p < q < |s[1..]| && s[1..][p] == Without(s, x)[i] && s[1..][q] == Without(s, x)[j];
      assert s[p + 1] == Without(s, x)[i] && s[q + 1] == Without(s, x)[j];
    } else {
      assert Without(s, x)[j] == Without(s[1..], x)[j - 1];
      WithoutMembers(s[1..], x);
      assert Without(s[1..], x)[j - 1] in Members(Without(s[1..], x));
      var q :| 0 <= q < |s[1..]| && s[1..][q] == Without(s, x)[j];
      assert s[0] == Without(s, x)[i] && s[q + 1] == Without(s, x)[j];
    }
  }

  /** Moving a workload to the end and dropping the oldest on overflow keeps the most recent `n`. */
  lemma TouchKeepsMostRecent<K>(touches: seq<K>, w: K, n: nat)
    requires n >= 1
    ensures var t := Without(LastN(Recency(touches), n), w) + [w];
            LastN(Recency(touches + [w]), n) == if |t| > n then t[1..] else t
  {
    var (d, kept) := (Recency(touches), LastN(Recency(touches), n));
    var (evicted, t) := (d[..|d| - |kept|], Without(kept, w) + [w]);
    assert (touches + [w])[..|touches|] == touches;
    assert d == evicted + kept;
    WithoutConcat(evicted, kept, w);
    assert Without(evicted, w) + Without(kept, w) + [w] == Without(evicted, w) + t;
    RecencyUnique(touches);
    KeptOrFull(evicted, kept, w, n);
    TailOfConcat(Without(evicted, w), t, n);
  }

  lemma KeptOrFull<K>(evicted: seq<K>, kept: seq<K>, w: K, n: nat)
    requires n >= 1 && Unique(evicted + kept) && |kept| <= n && (evicted == [] || |kept| == n)
    ensures var (e, t) := (Without(evicted, w), Without(kept, w) + [w]);
            |t| <= n + 1 && (|t| == n || |t| == n + 1 || e == [])
  {
    UniqueSuffix(evicted, kept);
    WithoutUnique(kept, w);
  }

  lemma TailOfConcat<K>(s: seq<K>, t: seq<K>, n: nat)
    requires n >= 1 && (|t| == n || |t| == n + 1 || s == []) && |t| <= n + 1
    ensures LastN(s + t, n) == if |t| > n then t[1..] else t
  {
    assert |LastN(s + t, n)| == |if |t| > n then t[1..] else t|;
  }

  // ---------------------------------------------------------------------------------------------
  // The store

  /** The three structures hold the same workloads, each with its last materialised value and version. */
  ghost predicate Agree<K, V>(order: seq<K>, index: map<K, Entry<K, V>>, versions: map<K, nat>,
                              latest: map<K, Entry<K, V>>) {
    && Unique(order) && Members(order) == index.Keys
    && versions.Keys == index.Keys
    && (forall w :: w in index ==>
        w in latest && index[w] == latest[w] && index[w].workloadId == w && versions[w] == index[w].version)
  }

  lemma BumpAgrees<K, V>(order: seq<K>, index: map<K, Entry<K, V>>, versions: map<K, nat>, latest: map<K, Entry<K, V>>,
                         w: K)
    requires Agree(order, index, versions, latest) && w in index
    ensures Agree(Without(order, w) + [w], index, versions, latest)
  {
    MovedToEnd(order, w);
  }

  lemma InsertAgrees<K, V>(order: seq<K>, index: map<K, Entry<K, V>>, versions: map<K, nat>,
                           latest: map<K, Entry<K, V>>, e: Entry<K, V>)
    requires Agree(order, index, versions, latest)
    ensures var w := e.workloadId;
            Agree(Without(order, w) + [w], index[w := e], versions[w := e.version], latest[w := e])
  {
    var w := e.workloadId;
    MovedToEnd(order, w);
  }

  lemma EvictAgrees<K, V>(order: seq<K>, index: map<K, Entry<K, V>>, versions: map<K, nat>, latest: map<K, Entry<K, V>>)
    requires Agree(order, index, versions, latest) && order != []
    ensures Agree(order[1..], index - {order[0]}, versions - {order[0]}, latest)
  {
    assert order == [order[0]] + order[1..];
    assert Members(order) == {order[0]} + Members(order[1..]);
  }

  /** The workloads an index of size n keeps after some touches: each touch moves its workload to the end and drops
      the oldest on overflow. */
  function Kept<K(==)>(touches: seq<K>, n: nat): seq<K> {
    if touches == [] then []
    else
      var last := touches[|touches| - 1];
      var t := Without(Kept(touches[..|touches| - 1], n), last) + [last];
      if |t| > n then t[1..] else t
  }

  /** These are the n most recently touched ones. */
  lemma {:induction false} KeptIsMostRecent<K>(touches: seq<K>, n: nat)
    requires n >= 1
    ensures Kept(touches, n) == LastN(Recency(touches), n)
  {
    if touches != [] {
      var (before, last) := (touches[..|touches| - 1], touches[|touches| - 1]);
      KeptIsMostRecent(before, n);
      TouchKeepsMostRecent(before, last, n);
      assert touches == before + [last];
    }
  }

  /** What is kept, without reference to the algorithm: distinct touched workloads, and one that was touched but is
      not kept was last touched before every one that is, with no room left for it. */
  lemma MostRecentlyTouched<K>(touches: seq<K>, n: nat, w: K, v: K)
    requires n >= 1 && w in Members(Kept(touches, n)) && v in Members(touches) && v !in Members(Kept(touches, n))
    ensures |Kept(touches, n)| == n && Distinct(Kept(touches, n))
    ensures w in touches && LastTouch(touches, v) < LastTouch(touches, w)
  {
    var r := Recency(touches);
    KeptIsMostRecent(touches, n);
    RecencyUnique(touches);
    var i, j := DroppedBeforeKept(r, n, w, v);
    RecencyOrdered(touches, i, j);
    UniqueSuffix(r[..|r| - n], r[|r| - n..]);
    UniqueDistinct(r[|r| - n..]);
  }

  lemma DroppedBeforeKept<K>(r: seq<K>, n: nat, w: K, v: K) returns (i: nat, j: nat)
    requires w in Members(LastN(r, n)) && v in Members(r) && v !in Members(LastN(r, n))
    ensures i < j < |r| && r[i] == v && r[j] == w
    ensures |r| > n && LastN(r, n) == r[|r| - n..] && r == r[..|r| - n] + r[|r| - n..]
  {
    var kept := LastN(r, n);
    assert kept != r;
    assert kept == r[|r| - n..];
    i :| 0 <= i < |r| && r[i] == v;
    var k :| 0 <= k < |kept| && kept[k] == w;
    j := |r| - n + k;
    forall p | |r| - n <= p < |r| ensures r[p] in Members(kept) {
      assert r[p] == kept[p - (|r| - n)];
    }
  }

  /** One more touch. */
  lemma {:induction false} KeptAfter<K>(touches: seq<K>, w: K, n: nat)
    requires n >= 1 && Unique(Kept(touches, n)) && |Kept(touches, n)| <= n
    ensures var t := Without(Kept(touches, n), w) + [w];
      && Kept(touches + [w], n) == (if |t| > n then t[1..] else t)
      && |t| == |Kept(touches, n)| + (if w in Members(Kept(touches, n)) then 0 else 1)
  {
    assert (touches + [w])[..|touches|] == touches;
    MovedToEnd(Kept(touches, n), w);
  }

  /** A hit moves its workload to the fresh end. */
  lemma {:induction false} HitKeeps<K, V>(touches: seq<K>, n: nat, order: seq<K>, index: map<K, Entry<K, V>>,
                                          versions: map<K, nat>, latest: map<K, Entry<K, V>>, w: K)
    requires n >= 1 && order == Kept(touches, n) && |order| <= n && Agree(order, index, versions, latest) && w in index
    ensures var t := Without(order, w) + [w];
            t == Kept(touches + [w], n) && |t| <= n && Agree(t, index, versions, latest)
  {
    KeptAfter(touches, w, n);
    BumpAgrees(order, index, versions, latest, w);
  }

  /** A materialisation puts its workload there, one too many at most. */
  lemma {:induction false} InsertKeeps<K, V>(touches: seq<K>, n: nat, order: seq<K>, index: map<K, Entry<K, V>>,
                                             versions: map<K, nat>, latest: map<K, Entry<K, V>>, e: Entry<K, V>)
    requires n >= 1 && order == Kept(touches, n) && |order| <= n && Agree(order, index, versions, latest)
    ensures var (w, t) := (e.workloadId, Without(order, e.workloadId) + [e.workloadId]);
      && Kept(touches + [w], n) == (if |t| > n then t[1..] else t)
      && |t| == |order| + (if w in order then 0 else 1)
      && Agree(t, index[w := e], versions[w := e.version], latest[w := e])
  {
    KeptAfter(touches, e.workloadId, n);
    InsertAgrees(order, index, versions, latest, e);
    assert e.workloadId in order <==> e.workloadId in Members(order);
  }

  lemma FreshEndResident<K, V>(order: seq<K>, index: map<K, Entry<K, V>>, versions: map<K, nat>,
                               latest: map<K, Entry<K, V>>, w: K)
    requires Agree(order, index, versions, latest) && order != [] && order[|order| - 1] == w
    ensures w in index && w in latest && index[w] == latest[w]
  {
    assert w in Members(order);
  }

  class AttributionIndexStore<K(==), V> {
    const maxEntries: int
    var order: seq<K>  // the keys of the ordered dictionary, oldest first
    var index: map<K, Entry<K, V>>
    var versions: map<K, nat>
    var hitCount: nat
    var missCount: nat
    var materializationCount: nat
    var evictionCount: nat
    ghost var touches: seq<K>  // every materialisation and every hit
    ghost var latest: map<K, Entry<K, V>>  // the last materialised value of every workload

    ghost predicate Valid()
      reads this
    {
      && maxEntries >= 1
      && order == Kept(touches, maxEntries) && |order| <= maxEntries
      && Agree(order, index, versions, latest)
    }

    constructor (maxEntries: int)
      requires maxEntries >= 1
      ensures Valid() && this.maxEntries == maxEntries
      ensures touches == [] && latest == map[] && order == []
      ensures hitCount == missCount == materializationCount == evictionCount == 0
    {
      this.maxEntries := maxEntries;
      order, index, versions, touches, latest := [], map[], map[], [], map[];
      hitCount, missCount, materializationCount, evictionCount := 0, 0, 0, 0;
    }

    /** Answers with the last materialised value of any of the most recently touched workloads. */
    method Lookup(workloadId: K) returns (found: Option<Entry<K, V>>)
      requires Valid()
      modifies this`order, this`hitCount, this`missCount, this`touches
      ensures Valid()
      ensures found.Some? <==> workloadId in Members(Kept(old(touches), maxEntries))
      ensures found.Some? ==> workloadId in latest && found.value == latest[workloadId]
      ensures touches == if found.Some? then old(touches) + [workloadId] else old(touches)
      ensures hitCount == old(hitCount) + (if found.Some? then 1 else 0)
      ensures missCount == old(missCount) + (if found.Some? then 0 else 1)
    {
      if workloadId in index {
        hitCount := hitCount + 1;
        HitKeeps(touches, maxEntries, order, index, versions, latest, workloadId);
        order := Without(order, workloadId) + [workloadId];
        touches := touches + [workloadId];
        return Some(index[workloadId]);
      }
      missCount := missCount + 1;
      return None;
    }

    method Materialize(workloadId: K, payload: V) returns (stored: Entry<K, V>)
      requires Valid()
      modifies this`order, this`index, this`versions, this`evictionCount, this`materializationCount, this`touches,
      this`latest
      ensures Valid()
      ensures stored
           == Entry(workloadId, payload, (if workloadId in old(versions) then old(versions)[workloadId] else 0) + 1)
      ensures touches == old(touches) + [workloadId] && latest == old(latest)[workloadId := stored]
      ensures workloadId in index && index[workloadId] == stored
      ensures materializationCount == old(materializationCount) + 1
      ensures evictionCount == old(evictionCount) + |old(order)| + (if workloadId in old(order) then 0 else 1) - |order|
    {
      var currentVersion := if workloadId in versions then versions[workloadId] else 0;
      var newVersion := currentVersion + 1;
      stored := Entry(workloadId, payload, newVersion);
      InsertLocal(stored);
      materializationCount := materializationCount + 1;
      versions := versions[workloadId := newVersion];
    }

    /** Puts the entry at the fresh end, then evicts from the other end while there are too many. */
    method InsertLocal(entry: Entry<K, V>)
      requires Valid()
      modifies this`order, this`index, this`versions, this`evictionCount, this`touches, this`latest
      ensures Valid()
      ensures touches == old(touches) + [entry.workloadId] && latest == old(latest)[entry.workloadId := entry]
      ensures entry.workloadId in index && index[entry.workloadId] == entry
      ensures evictionCount
           == old(evictionCount) + |old(order)| + (if entry.workloadId in old(order) then 0 else 1) - |order|
    {
      var w := entry.workloadId;
      InsertKeeps(touches, maxEntries, order, index, versions, latest, entry);
      touches, latest := touches + [w], latest[w := entry];
      index := index[w := entry];
      order := Without(order, w) + [w];
      versions := versions[w := entry.version];
      EvictOverflow();
      FreshEndResident(order, index, versions, latest, w);
    }

    method EvictOverflow()
      requires Agree(order, index, versions, latest) && 1 <= maxEntries && |order| <= maxEntries + 1
      modifies this`order, this`index, this`versions, this`evictionCount
      ensures Agree(order, index, versions, latest)
      ensures order == if |old(order)| > maxEntries then old(order)[1..] else old(order)
      ensures evictionCount == old(evictionCount) + |old(order)| - |order|
    {
      while |order| > maxEntries
        invariant order == old(order) || (|old(order)| == maxEntries + 1 && order == old(order)[1..])
        invariant Agree(order, index, versions, latest)
        invariant evictionCount == old(evictionCount) + |old(order)| - |order|
        decreases |order|
      {
        EvictAgrees(order, index, versions, latest);
        var oldest := order[0];
        order := order[1..];
        index := index - {oldest};
        versions := versions - {oldest};
        evictionCount := evictionCount + 1;
      }
    }
  }
}
