/** The in-memory store: the edge list behind two adjacency indexes and an index of open edges,
    and the backtracking search over it. */
module GraphStore {
  import opened Wrappers
  import opened Sequences
  import opened GraphModel
  import opened Traversal

  function IndexAt(index: map<string, seq<nat>>, id: string): seq<nat> {
    if id in index then index[id] else []
  }

  /** What an adjacency index should hold for `id`: the positions of its edges, oldest first. */
  ghost function Positions(edges: seq<Edge>, end: End, id: string): (r: seq<nat>)
    ensures InRange(edges, r)
  {
    if edges == [] then []
    else
      var n := |edges| - 1;
      Positions(edges[..n], end, id) + if EndOf(edges[n], end) == id then [n] else []
  }

  lemma {:induction false} PositionsDepend(a: seq<Edge>, b: seq<Edge>, end: End, id: string)
    requires |a| == |b| && forall i :: 0 <= i < |a| ==> EndOf(a[i], end) == EndOf(b[i], end)
    ensures Positions(a, end, id) == Positions(b, end, id)
  {
    if a != [] { PositionsDepend(a[..|a| - 1], b[..|a| - 1], end, id); }
  }

  /** Appending an edge extends the index of its own endpoint and no other. */
  lemma PositionsAfterAppend(edges: seq<Edge>, e: Edge, end: End, id: string)
    ensures Positions(edges + [e], end, id) == Positions(edges, end, id) + if EndOf(e, end) == id then [|edges|] else []
  {
    assert (edges + [e])[..|edges|] == edges;
  }

  ghost function Filter(edges: seq<Edge>, ps: seq<nat>, at: Time): (r: seq<nat>)
    requires InRange(edges, ps)
    ensures InRange(edges, r)
  {
    if ps == [] then []
    else
      var n := |ps| - 1;
      Filter(edges, ps[..n], at) + if edges[ps[n]].LiveAt(at) then [ps[n]] else []
  }

  lemma {:induction false} FilterDepends(a: seq<Edge>, b: seq<Edge>, ps: seq<nat>, at: Time)
    requires a <= b && InRange(a, ps)
    ensures Filter(a, ps, at) == Filter(b, ps, at)
  {
    if ps != [] { FilterDepends(a, b, ps[..|ps| - 1], at); }
  }

  lemma FilterAppend(edges: seq<Edge>, ps: seq<nat>, at: Time)
    requires edges != [] && InRange(edges, ps)
    ensures var n := |edges| - 1;
            Filter(edges, ps + [n], at) == Filter(edges, ps, at) + if edges[n].LiveAt(at) then [n] else []
  {
    assert (ps + [|edges| - 1])[..|ps|] == ps;
  }

  /** Filtering an index entry by liveness is the scan of the whole edge list. */
  lemma {:induction false} IndexIsScan(edges: seq<Edge>, end: End, id: string, at: Time)
    ensures Filter(edges, Positions(edges, end, id), at) == Scan(edges, end, id, at)
  {
    if edges != [] {
      var n := |edges| - 1;
      var ps := Positions(edges[..n], end, id);
      IndexIsScan(edges[..n], end, id, at);
      FilterDepends(edges[..n], edges, ps, at);
      FilterAppend(edges, ps, at);
      assert Positions(edges, end, id) == if EndOf(edges[n], end) == id then ps + [n] else ps;
    }
  }

  // ---------------------------------------------------------------------------------------------
  // What the indexes say about the data they index

  ghost predicate TypesOk(nodesByType: map<NodeType, set<string>>, nodes: map<string, Node>) {
    && (forall id :: id in nodes ==> nodes[id].nodeId == id && nodes[id].nodeType in nodesByType)
    && (forall t :: t in nodesByType ==> nodesByType[t] == set id | id in nodes && nodes[id].nodeType == t)
  }

  ghost predicate IndexOk(index: map<string, seq<nat>>, edges: seq<Edge>, end: End) {
    forall id :: IndexAt(index, id) == Positions(edges, end, id)
  }

  /** Every open edge is the one its key points at. The converse fails: an edge added already closed
      leaves its key pointing at a closed edge. */
  ghost predicate ActiveOk(active: map<EdgeKey, nat>, edges: seq<Edge>) {
    && (forall k :: k in active ==> active[k] < |edges| && edges[active[k]].Key() == k)
    && (forall i :: 0 <= i < |edges| && edges[i].Open() ==> edges[i].Key() in active && active[edges[i].Key()] == i)
  }

  lemma OpenEdgesUnique(active: map<EdgeKey, nat>, edges: seq<Edge>)
    requires ActiveOk(active, edges)
    ensures UniqueOpen(edges)
  {
  }

  lemma IndexOkAfterAppend(index: map<string, seq<nat>>, edges: seq<Edge>, end: End, e: Edge)
    requires IndexOk(index, edges, end)
    ensures IndexOk(index[EndOf(e, end) := IndexAt(index, EndOf(e, end)) + [|edges|]], edges + [e], end)
  {
    var after := index[EndOf(e, end) := IndexAt(index, EndOf(e, end)) + [|edges|]];
    forall id ensures IndexAt(after, id) == Positions(edges + [e], end, id) {
      PositionsAfterAppend(edges, e, end, id);
      assert IndexAt(index, id) == Positions(edges, end, id);
    }
  }

  lemma IndexOkAfterClose(index: map<string, seq<nat>>, edges: seq<Edge>, end: End, key: EdgeKey, at: Time)
    requires IndexOk(index, edges, end)
    ensures IndexOk(index, CloseOpen(edges, key, at), end)
  {
    forall id ensures IndexAt(index, id) == Positions(CloseOpen(edges, key, at), end, id) {
      PositionsDepend(CloseOpen(edges, key, at), edges, end, id);
    }
  }

  /** Closing through the index of open edges is closing by scan. */
  lemma CloseThroughIndex(active: map<EdgeKey, nat>, edges: seq<Edge>, key: EdgeKey, at: Time)
    requires ActiveOk(active, edges)
    ensures HasOpen(edges, key) <==> key in active && edges[active[key]].Open()
    ensures CloseOpen(edges, key, at)
         == if key in active && edges[active[key]].Open()
            then edges[active[key] := edges[active[key]].(validTo := Some(at))]
            else edges
    ensures ActiveOk(active - {key}, CloseOpen(edges, key, at))
    ensures ActiveOk(active, CloseOpen(edges, key, at))
  {
  }

  lemma ActiveOkAfterAppend(active: map<EdgeKey, nat>, edges: seq<Edge>, e: Edge)
    requires ActiveOk(active, edges) && !HasOpen(edges, e.Key())
    ensures ActiveOk(active[e.Key() := |edges|], edges + [e])
  {
  }

  /** The lists and the set that the search pushes to and pops from. The ghost fields name the same paths
      by edge position, which tells apart two edges that carry the same data. */
  class Search {
    var currentPath: seq<Edge>
    var allPaths: seq<seq<Edge>>
    var visited: set<string>
    ghost var pathPositions: seq<nat>
    ghost var allPositions: seq<seq<nat>>

    ghost predicate Valid(edges: seq<Edge>)
      reads this
    {
      && InRange(edges, pathPositions) && currentPath == Pick(edges, pathPositions)
      && |allPaths| == |allPositions|
      && forall i :: 0 <= i < |allPaths| ==>
          InRange(edges, allPositions[i]) && allPaths[i] == Pick(edges, allPositions[i])
    }

    constructor ()
      ensures currentPath == [] && allPaths == [] && visited == {} && pathPositions == [] && allPositions == []
    {
      currentPath, allPaths, visited := [], [], {};
      pathPositions, allPositions := [], [];
    }

    method Push(ghost edges: seq<Edge>, edge: Edge, ghost position: nat)
      requires Valid(edges) && position < |edges| && edges[position] == edge
      modifies this`currentPath, this`pathPositions
      ensures Valid(edges) && pathPositions == old(pathPositions) + [position]
    {
      currentPath, pathPositions := currentPath + [edge], pathPositions + [position];
    }

    method Pop(ghost edges: seq<Edge>)
      requires Valid(edges) && currentPath != []
      modifies this`currentPath, this`pathPositions
      ensures Valid(edges) && pathPositions == old(pathPositions)[..|old(pathPositions)| - 1]
    {
      currentPath, pathPositions := currentPath[..|currentPath| - 1], pathPositions[..|pathPositions| - 1];
    }

    method Record(ghost edges: seq<Edge>)
      requires Valid(edges)
      modifies this`allPaths, this`allPositions
      ensures Valid(edges)
      ensures allPositions == old(allPositions) + [pathPositions]
    {
      allPaths := allPaths + [currentPath];
      allPositions := allPositions + [pathPositions];
    }
  }

  /** One turn of the search loop: what it recorded and what is left add up to what there was before. */
  lemma StepAbsorbed(g: Graph, at: Time, live: seq<nat>, i: nat, path: seq<nat>, visited: set<string>, maxDepth: int,
                     maxPaths: int,
                     before: seq<seq<nat>>, after: seq<seq<nat>>)
    requires i < |live| && InRange(g.edges, live) && InRange(g.edges, path) && |path| < maxDepth
    requires after == Cut(before + EnumerateEdge(g, at, live[i], path, visited, maxDepth), maxPaths)
    ensures Cut(after + EnumerateEdges(g, at, live[i + 1..], path, visited, maxDepth), maxPaths)
         == Cut(before + EnumerateEdges(g, at, live[i..], path, visited, maxDepth), maxPaths)
  {
    var here := EnumerateEdge(g, at, live[i], path, visited, maxDepth);
    var rest := EnumerateEdges(g, at, live[i + 1..], path, visited, maxDepth);
    assert live[i..][1..] == live[i + 1..] && live[i..][0] == live[i];
    assert EnumerateEdges(g, at, live[i..], path, visited, maxDepth) == here + rest;
    CutStep(before, here, rest, maxPaths);
  }

  lemma CutStep<T>(before: seq<T>, here: seq<T>, rest: seq<T>, limit: int)
    ensures Cut(Cut(before + here, limit) + rest, limit) == Cut(before + (here + rest), limit)
  {
    CutAbsorbs(before + here, rest, limit);
    assert before + (here + rest) == before + here + rest;
  }

  class InMemoryGraphStore {
    var nodes: map<string, Node>
    var nodesByType: map<NodeType, set<string>>
    var edges: seq<Edge>
    var fromIndex: map<string, seq<nat>>
    var toIndex: map<string, seq<nat>>
    var activeEdgeIndex: map<EdgeKey, nat>

    ghost function AsGraph(): Graph
      reads this
    {
      Graph(nodes, edges)
    }

    ghost predicate Valid()
      reads this
    {
      && TypesOk(nodesByType, nodes)
      && IndexOk(fromIndex, edges, Source) && IndexOk(toIndex, edges, Target)
      && ActiveOk(activeEdgeIndex, edges)
    }

    constructor ()
      ensures Valid() && nodes == map[] && edges == []
    {
      nodes, nodesByType, edges, fromIndex, toIndex, activeEdgeIndex := map[], map[], [], map[], map[], map[];
    }

    method Clear()
      modifies this
      ensures Valid() && nodes == map[] && edges == []
    {
      nodes, nodesByType, edges, fromIndex, toIndex, activeEdgeIndex := map[], map[], [], map[], map[], map[];
    }

    method UpsertNode(node: Node, now: Time)
      requires Valid()
      modifies this`nodes, this`nodesByType
      ensures Valid()
      ensures var stored := if node.nodeId in old(nodes) then node.(updatedAt := now) else node;
              nodes == old(nodes)[node.nodeId := stored] && AsGraph() == Apply(old(AsGraph()), Write.UpsertNode(stored))
    {
      var stored := node;
      if node.nodeId in nodes {
        var t := nodes[node.nodeId].nodeType;
        nodesByType := nodesByType[t := nodesByType[t] - {node.nodeId}];
        stored := node.(updatedAt := now);
      }
      nodes := nodes[stored.nodeId := stored];
      var peers := if stored.nodeType in nodesByType then nodesByType[stored.nodeType] else {};
      nodesByType := nodesByType[stored.nodeType := peers + {stored.nodeId}];
    }

    method AddEdge(edge: Edge, now: Time)
      requires Valid()
      modifies this`edges, this`fromIndex, this`toIndex, this`activeEdgeIndex
      ensures Valid()
      ensures edges == Added(old(edges), edge, now) && AsGraph() == Apply(old(AsGraph()), Write.AddEdge(edge, now))
      ensures activeEdgeIndex == old(activeEdgeIndex)[edge.Key() := |old(edges)|]
    {
      CloseExisting(edge.Key(), now);
      AppendEdge(edge);
    }

    /** Ends the open edge under the key, which stays in the index of open edges until it is overwritten. */
    method CloseExisting(key: EdgeKey, now: Time)
      requires Valid()
      modifies this`edges
      ensures Valid() && !HasOpen(edges, key)
      ensures edges == CloseOpen(old(edges), key, now)
    {
      CloseThroughIndex(activeEdgeIndex, edges, key, now);
      IndexOkAfterClose(fromIndex, edges, Source, key, now);
      IndexOkAfterClose(toIndex, edges, Target, key, now);
      if key in activeEdgeIndex {
        var existing := edges[activeEdgeIndex[key]];
        if existing.Open() {
          edges := edges[activeEdgeIndex[key] := existing.(validTo := Some(now))];
        }
      }
    }

    method AppendEdge(edge: Edge)
      requires Valid() && !HasOpen(edges, edge.Key())
      modifies this`edges, this`fromIndex, this`toIndex, this`activeEdgeIndex
      ensures Valid() && edges == old(edges) + [edge]
      ensures activeEdgeIndex == old(activeEdgeIndex)[edge.Key() := |old(edges)|]
    {
      IndexOkAfterAppend(fromIndex, edges, Source, edge);
      IndexOkAfterAppend(toIndex, edges, Target, edge);
      ActiveOkAfterAppend(activeEdgeIndex, edges, edge);
      var newIdx := |edges|;
      edges := edges + [edge];
      fromIndex := fromIndex[edge.fromId := IndexAt(fromIndex, edge.fromId) + [newIdx]];
      toIndex := toIndex[edge.toId := IndexAt(toIndex, edge.toId) + [newIdx]];
      activeEdgeIndex := activeEdgeIndex[edge.Key() := newIdx];
    }

    method CloseEdge(edgeType: EdgeType, fromId: string, toId: string, validTo: Option<Time>,
                     now: Time) returns (closed: bool)
      requires Valid()
      modifies this`edges, this`activeEdgeIndex
      ensures Valid()
      ensures var (key, closedAt) := (EdgeKey(fromId, toId, edgeType), if validTo.Some? then validTo.value else now);
              && closed == HasOpen(old(edges), key)
              && edges == CloseOpen(old(edges), key, closedAt)
              && AsGraph() == Apply(old(AsGraph()), Write.CloseEdge(key, closedAt))
              && activeEdgeIndex == old(activeEdgeIndex) - {key}
    {
      var key := EdgeKey(fromId, toId, edgeType);
      var closedAt := if validTo.Some? then validTo.value else now;
      CloseThroughIndex(activeEdgeIndex, edges, key, closedAt);
      if key !in activeEdgeIndex {
        assert activeEdgeIndex - {key} == activeEdgeIndex;
        return false;
      }
      closed := edges[activeEdgeIndex[key]].validTo.None?;
      if closed { CloseExisting(key, closedAt); }
      DropActive(key);
    }

    method DropActive(key: EdgeKey)
      requires Valid() && !HasOpen(edges, key)
      modifies this`activeEdgeIndex
      ensures Valid() && activeEdgeIndex == old(activeEdgeIndex) - {key}
    {
      activeEdgeIndex := activeEdgeIndex - {key};
    }

    method GetNodesByType(nodeType: NodeType) returns (found: set<Node>)
      requires Valid()
      ensures forall n :: n in found <==> n.nodeId in nodes && nodes[n.nodeId] == n && n.nodeType == nodeType
    {
      var ids := if nodeType in nodesByType then nodesByType[nodeType] else {};
      found := set id | id in ids :: nodes[id];
    }

    method GetEdgesFrom(nodeId: string, at: Time) returns (results: seq<Edge>)
      requires Valid()
      ensures results == EdgesAt(edges, Source, nodeId, at)
    {
      IndexIsScan(edges, Source, nodeId, at);
      EdgesAtScanned(edges, Source, nodeId, at);
      assert IndexAt(fromIndex, nodeId) == Positions(edges, Source, nodeId);
      results := Collect(IndexAt(fromIndex, nodeId), at);
    }

    method GetEdgesTo(nodeId: string, at: Time) returns (results: seq<Edge>)
      requires Valid()
      ensures results == EdgesAt(edges, Target, nodeId, at)
    {
      IndexIsScan(edges, Target, nodeId, at);
      EdgesAtScanned(edges, Target, nodeId, at);
      assert IndexAt(toIndex, nodeId) == Positions(edges, Target, nodeId);
      results := Collect(IndexAt(toIndex, nodeId), at);
    }

    /** The loop shared by both queries. */
    method Collect(index: seq<nat>, at: Time) returns (results: seq<Edge>)
      requires InRange(edges, index)
      ensures results == Pick(edges, Filter(edges, index, at))
    {
      results := [];
      for i := 0 to |index|
        invariant results == Pick(edges, Filter(edges, index[..i], at))
      {
        assert index[..i + 1][..i] == index[..i];
        var edge := edges[index[i]];
        if edge.validFrom <= at && (edge.validTo.None? || edge.validTo.value > at) {
          results := results + [edge];
        }
      }
      assert index[..|index|] == index;
    }

    method TraverseAttribution(startNodeId: string, at: Time, maxDepth: int,
                               maxPaths: int) returns (paths: seq<seq<Edge>>)
      requires Valid()
      ensures var all := Cut(Enumerate(AsGraph(), at, startNodeId, [], {}, maxDepth), maxPaths);
              |paths| == |all| && forall i :: 0 <= i < |all| ==> paths[i] == Pick(edges, all[i])
    {
      var search := new Search();
      Dfs(startNodeId, at, search, maxDepth, maxPaths);
      paths := search.allPaths;
      var all := Enumerate(AsGraph(), at, startNodeId, [], {}, maxDepth);
      assert [] + all == all;
    }

    /** Appends what remains of the enumeration below `nodeId`, up to the limit, and backtracks completely. */
    method Dfs(nodeId: string, at: Time, search: Search, maxDepth: int, maxPaths: int)
      requires Valid() && search.Valid(edges)
      requires |search.allPaths| <= if maxPaths > 0 then maxPaths else 0
      modifies search
      ensures search.Valid(edges)
      ensures search.currentPath == old(search.currentPath) && search.pathPositions == old(search.pathPositions)
      ensures search.visited == old(search.visited)
      ensures var below :=
                Enumerate(AsGraph(), at, nodeId, old(search.pathPositions), old(search.visited), maxDepth);
              search.allPositions == Cut(old(search.allPositions) + below, maxPaths)
      decreases maxDepth - |search.currentPath|, 3
    {
      if |search.allPaths| >= maxPaths { return; }
      if |search.currentPath| >= maxDepth { return; }
      if nodeId in search.visited { return; }

      search.visited := search.visited + {nodeId};
      Expand(nodeId, at, search, maxDepth, maxPaths);
      search.visited := search.visited - {nodeId};
    }

    /** Records the path at a dead end, or searches on along the live edges. */
    method Expand(nodeId: string, at: Time, search: Search, maxDepth: int, maxPaths: int)
      requires Valid() && search.Valid(edges)
      requires |search.allPaths| < maxPaths && |search.currentPath| < maxDepth
      modifies search
      ensures search.Valid(edges)
      ensures search.currentPath == old(search.currentPath) && search.pathPositions == old(search.pathPositions)
      ensures search.visited == old(search.visited)
      ensures var (live, path) := (AsGraph().LiveFrom(nodeId, at), old(search.pathPositions));
              search.allPositions == Cut(old(search.allPositions) +
                (if live == [] then (if path == [] then [] else [path])
                 else EnumerateEdges(AsGraph(), at, live, path, old(search.visited), maxDepth)), maxPaths)
      decreases maxDepth - |search.currentPath|, 2
    {
      EdgesAtScanned(edges, Source, nodeId, at);
      var found := GetEdgesFrom(nodeId, at);
      if found == [] {
        if search.currentPath != [] { search.Record(edges); }
        return;
      }
      FollowEdges(found, AsGraph().LiveFrom(nodeId, at), at, search, maxDepth, maxPaths);
    }

    /** The search loop over the live edges of one node. */
    method FollowEdges(found: seq<Edge>, ghost live: seq<nat>, at: Time, search: Search, maxDepth: int, maxPaths: int)
      requires Valid() && search.Valid(edges)
      requires InRange(edges, live) && found == Pick(edges, live)
      requires |search.allPaths| < maxPaths && |search.currentPath| < maxDepth
      modifies search
      ensures search.Valid(edges)
      ensures search.currentPath == old(search.currentPath) && search.pathPositions == old(search.pathPositions)
      ensures search.visited == old(search.visited)
      ensures var below :=
                EnumerateEdges(AsGraph(), at, live, old(search.pathPositions), old(search.visited), maxDepth);
              search.allPositions == Cut(old(search.allPositions) + below, maxPaths)
      decreases maxDepth - |search.currentPath|, 1
    {
      ghost var g, path, visited := AsGraph(), search.pathPositions, search.visited;
      ghost var goal := Cut(search.allPositions + EnumerateEdges(g, at, live, path, visited, maxDepth), maxPaths);
      var i := 0;
      while i < |found| && |search.allPaths| < maxPaths
        invariant 0 <= i <= |found|
        invariant search.Valid(edges) && search.visited == visited
        invariant search.currentPath == old(search.currentPath) && search.pathPositions == path
        invariant |search.allPaths| <= maxPaths
        invariant Cut(search.allPositions + EnumerateEdges(g, at, live[i..], path, visited, maxDepth), maxPaths) == goal
      {
        ghost var sofar := search.allPositions;
        FollowEdge(found[i], live[i], at, search, maxDepth, maxPaths);
        StepAbsorbed(g, at, live, i, path, visited, maxDepth, maxPaths, sofar, search.allPositions);
        i := i + 1;
      }
    }

    /** The body of the search loop: one live edge, followed until it stops, dies out or hits a limit. */
    method FollowEdge(edge: Edge, ghost position: nat, at: Time, search: Search, maxDepth: int, maxPaths: int)
      requires Valid() && search.Valid(edges)
      requires position < |edges| && edges[position] == edge
      requires |search.allPaths| < maxPaths && |search.currentPath| < maxDepth
      modifies search
      ensures search.Valid(edges)
      ensures search.currentPath == old(search.currentPath) && search.pathPositions == old(search.pathPositions)
      ensures search.visited == old(search.visited)
      ensures var below :=
                EnumerateEdge(AsGraph(), at, position, old(search.pathPositions), old(search.visited), maxDepth);
              search.allPositions == Cut(old(search.allPositions) + below, maxPaths)
      decreases maxDepth - |search.currentPath|, 0
    {
      search.Push(edges, edge, position);
      if edge.toId in nodes && nodes[edge.toId].nodeType in {CostCenter, Budget} {
        search.Record(edges);
      } else {
        Dfs(edge.toId, at, search, maxDepth, maxPaths);
      }
      search.Pop(edges);
    }
  }

  /** Whatever has been written to a store, at most one edge per (from, to, type) is open. */
  lemma StoreOpenEdgesUnique(store: InMemoryGraphStore)
    requires store.Valid()
    ensures UniqueOpen(store.edges)
  {
    OpenEdgesUnique(store.activeEdgeIndex, store.edges);
  }
}
