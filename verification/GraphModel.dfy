/** The time-versioned edge list of the attribution graph, without any index: what a store holds,
    which edges are live at an instant, and what adding and closing an edge does to the list. */
module GraphModel {
  import opened Wrappers

  type Time = int  // an instant, in microseconds

  datatype NodeType =
    | Model | CloudResource | Deployment | Repository | Person | Team | CostCenter
    | ServiceAccount | ApiKey | InferenceEndpoint | EquivalenceClass | Budget

  datatype EdgeType =
    | Invokes | DeployedOn | DeployedBy | OwnsCode | MemberOf | ReportsTo
    | Authenticates | ResolvedTo | AttributedTo | BudgetedUnder | ClassifiedAs | Triggers

  datatype Node = Node(nodeId: string, nodeType: NodeType, displayLabel: string, updatedAt: Time)

  datatype EdgeKey = EdgeKey(fromId: string, toId: string, edgeType: EdgeType)

  datatype Edge = Edge(edgeType: EdgeType, fromId: string, toId: string, confidence: real, weight: real,
                       validFrom: Time, validTo: Option<Time>)
  {
    function Key(): EdgeKey { EdgeKey(fromId, toId, edgeType) }

    predicate Open() { validTo.None? }

    /** Validity is half-open: from `validFrom` inclusive to `validTo` exclusive. */
    predicate LiveAt(at: Time) { validFrom <= at && (validTo.None? || validTo.value > at) }
  }

  /** Which endpoint of an edge a query matches. */
  datatype End = Source | Target

  function EndOf(e: Edge, end: End): string {
    match end
    case Source => e.fromId
    case Target => e.toId
  }

  /** Reference query: one scan of the whole edge list, in insertion order. */
  function Scan(edges: seq<Edge>, end: End, id: string, at: Time): (r: seq<nat>)
    ensures forall i :: 0 <= i < |r| ==> r[i] < |edges| && EndOf(edges[r[i]], end) == id && edges[r[i]].LiveAt(at)
    ensures forall p: nat :: p < |edges| && EndOf(edges[p], end) == id && edges[p].LiveAt(at) ==> p in r
    ensures forall i, j :: 0 <= i < j < |r| ==> r[i] < r[j]
  {
    if edges == [] then []
    else
      var n := |edges| - 1;
      Scan(edges[..n], end, id, at)
      + if EndOf(edges[n], end) == id && edges[n].LiveAt(at) then [n] else []
  }

  /** An edge live at an instant is found from the one end it runs from and from the one end it runs to. */
  lemma FoundFromBothEnds(edges: seq<Edge>, id: string, at: Time, p: nat)
    requires p < |edges| && edges[p].LiveAt(at)
    ensures p in Scan(edges, Source, id, at) <==> id == edges[p].fromId
    ensures p in Scan(edges, Target, id, at) <==> id == edges[p].toId
  {
  }

  ghost predicate InRange(edges: seq<Edge>, positions: seq<nat>) {
    forall i :: 0 <= i < |positions| ==> positions[i] < |edges|
  }

  function Pick(edges: seq<Edge>, positions: seq<nat>): (r: seq<Edge>)
    requires InRange(edges, positions)
  {
    seq(|positions|, i requires 0 <= i < |positions| => edges[positions[i]])
  }

  /** The edges themselves, filtered from the whole list. */
  function EdgesAt(edges: seq<Edge>, end: End, id: string, at: Time): seq<Edge> {
    if edges == [] then []
    else
      var last := edges[|edges| - 1];
      EdgesAt(edges[..|edges| - 1], end, id, at) + if EndOf(last, end) == id && last.LiveAt(at) then [last] else []
  }

  lemma {:induction false} EdgesAtScanned(edges: seq<Edge>, end: End, id: string, at: Time)
    ensures EdgesAt(edges, end, id, at) == Pick(edges, Scan(edges, end, id, at))
  {
    if edges != [] {
      var n := |edges| - 1;
      EdgesAtScanned(edges[..n], end, id, at);
      ScanPicksLast(edges, end, id, at);
    }
  }

  lemma ScanPicksLast(edges: seq<Edge>, end: End, id: string, at: Time)
    requires edges != []
    ensures var n := |edges| - 1;
            Pick(edges, Scan(edges, end, id, at))
              == Pick(edges[..n], Scan(edges[..n], end, id, at))
                 + if EndOf(edges[n], end) == id && edges[n].LiveAt(at) then [edges[n]] else []
  {
    var n := |edges| - 1;
    var ps := Scan(edges[..n], end, id, at);
    PickPrefix(edges, n, ps);
    if EndOf(edges[n], end) == id && edges[n].LiveAt(at) {
      assert Scan(edges, end, id, at) == ps + [n];
    } else {
      assert Scan(edges, end, id, at) == ps;
    }
  }

  lemma PickPrefix(edges: seq<Edge>, n: nat, ps: seq<nat>)
    requires n < |edges| && InRange(edges[..n], ps)
    ensures InRange(edges, ps) && Pick(edges, ps) == Pick(edges[..n], ps)
    ensures Pick(edges, ps + [n]) == Pick(edges[..n], ps) + [edges[n]]
  {
  }

  /** Ends at `at` the validity of whichever edge under `key` is open. */
  function CloseOpen(edges: seq<Edge>, key: EdgeKey, at: Time): (r: seq<Edge>)
    ensures |r| == |edges|
  {
    seq(|edges|, i requires 0 <= i < |edges| =>
      if edges[i].Open() && edges[i].Key() == key then edges[i].(validTo := Some(at)) else edges[i])
  }

  ghost predicate HasOpen(edges: seq<Edge>, key: EdgeKey) {
    exists i :: 0 <= i < |edges| && edges[i].Open() && edges[i].Key() == key
  }

  predicate SameEnds(d: Edge, e: Edge) {
    d.fromId == e.fromId && d.toId == e.toId && d.edgeType == e.edgeType
  }

  /** At most one open edge per (from, to, type). */
  ghost predicate UniqueOpen(edges: seq<Edge>) {
    forall i, j :: 0 <= i < j < |edges| && edges[i].validTo.None? && edges[j].validTo.None? ==>
      !SameEnds(edges[i], edges[j])
  }

  /** Adding closes the open edge under the same key at the wall-clock `now`, then appends. */
  function Added(edges: seq<Edge>, e: Edge, now: Time): (r: seq<Edge>) {
    CloseOpen(edges, e.Key(), now) + [e]
  }

  lemma AddedKeepsUniqueOpen(edges: seq<Edge>, e: Edge, now: Time)
    requires UniqueOpen(edges)
    ensures UniqueOpen(Added(edges, e, now))
  {
    var r := Added(edges, e, now);
    forall i, j | 0 <= i < j < |r| && r[i].validTo.None? && r[j].validTo.None? ensures !SameEnds(r[i], r[j]) {
      assert r[i] == edges[i] && edges[i].Key() != e.Key();
    }
  }

  /** Scans look at endpoints and liveness only. */
  lemma {:induction false} ScanDepends(a: seq<Edge>, b: seq<Edge>, end: End, id: string, at: Time)
    requires |a| == |b|
    requires forall i :: 0 <= i < |a| ==> EndOf(a[i], end) == EndOf(b[i], end)
    requires forall i :: 0 <= i < |a| ==> a[i].LiveAt(at) == b[i].LiveAt(at)
    ensures Scan(a, end, id, at) == Scan(b, end, id, at)
  {
    if a != [] {
      ScanDepends(a[..|a| - 1], b[..|a| - 1], end, id, at);
    }
  }

  /** Closing removes precisely the open edge under the key, and only from instants at or after the closing time. */
  lemma ScanAfterClose(edges: seq<Edge>, key: EdgeKey, c: Time, end: End, id: string, at: Time)
    ensures forall p: nat :: p in Scan(CloseOpen(edges, key, c), end, id, at) <==>
              && p in Scan(edges, end, id, at)
              && !(c <= at && edges[p].validTo.None?
                   && (edges[p].fromId, edges[p].toId, edges[p].edgeType) == (key.fromId, key.toId, key.edgeType))
    ensures at < c ==> Scan(CloseOpen(edges, key, c), end, id, at) == Scan(edges, end, id, at)
  {
    if at < c {
      ScanDepends(CloseOpen(edges, key, c), edges, end, id, at);
    }
  }

  /** Adding behaves as closing at `now` and then showing the new edge for as long as it is valid. */
  lemma ScanAfterAdd(edges: seq<Edge>, e: Edge, now: Time, end: End, id: string, at: Time)
    ensures Scan(Added(edges, e, now), end, id, at)
         == Scan(CloseOpen(edges, e.Key(), now), end, id, at)
            + (if EndOf(e, end) == id && e.LiveAt(at) then [|edges|] else [])
    ensures at < now && at < e.validFrom ==> Scan(Added(edges, e, now), end, id, at) == Scan(edges, end, id, at)
  {
    var r := Added(edges, e, now);
    assert r[..|r| - 1] == CloseOpen(edges, e.Key(), now);
    ScanAfterClose(edges, e.Key(), now, end, id, at);
  }

  /** A query answers with the new edge as it was given, after what it answers once the key is closed. */
  lemma AnswerAfterAdd(edges: seq<Edge>, e: Edge, now: Time, end: End, id: string, at: Time)
    ensures EdgesAt(Added(edges, e, now), end, id, at)
         == EdgesAt(CloseOpen(edges, e.Key(), now), end, id, at)
            + (if EndOf(e, end) == id && e.LiveAt(at) then [e] else [])
  {
    var r := Added(edges, e, now);
    assert r[..|r| - 1] == CloseOpen(edges, e.Key(), now);
  }

  /** Closing changes nothing about an edge that a query answers with but its end. */
  lemma {:induction false} AnswerAfterClose(edges: seq<Edge>, key: EdgeKey, c: Time, end: End, id: string, at: Time)
    ensures at < c ==>
              var (before, after) := (EdgesAt(edges, end, id, at), EdgesAt(CloseOpen(edges, key, c), end, id, at));
              |before| == |after| && forall i :: 0 <= i < |before| ==>
                after[i] == before[i] || (before[i].validTo.None? && after[i] == before[i].(validTo := Some(c)))
  {
    if edges != [] {
      var n := |edges| - 1;
      AnswerAfterClose(edges[..n], key, c, end, id, at);
      assert CloseOpen(edges, key, c)[..n] == CloseOpen(edges[..n], key, c);
    }
  }
}
