/** Depth-first path enumeration at one instant, and what it enumerates. */
module Traversal {
  import opened GraphModel
  import opened Sequences

  datatype Graph = Graph(nodes: map<string, Node>, edges: seq<Edge>)
  {
    function LiveFrom(id: string, at: Time): (r: seq<nat>)
      ensures InRange(edges, r)
    {
      Scan(edges, Source, id, at)
    }

    /** Paths stop at cost centres and budgets. An id without a node never stops a path. */
    predicate Stops(id: string) { id in nodes && nodes[id].nodeType in {CostCenter, Budget} }
  }

  /** Every path the search records below `node`, in order, when no limit on their number cuts it short.
      `path` leads to `node`; `visited` holds the sources already on it. */
  ghost function Enumerate(g: Graph, at: Time, node: string, path: seq<nat>, visited: set<string>,
                           maxDepth: int): (r: seq<seq<nat>>)
    requires InRange(g.edges, path)
    ensures forall q :: q in r ==> InRange(g.edges, q)
    decreases maxDepth - |path|, 1, 0
  {
    if |path| >= maxDepth || node in visited then []
    else
      var live := g.LiveFrom(node, at);
      if live == [] then (if path == [] then [] else [path])
      else EnumerateEdges(g, at, live, path, visited + {node}, maxDepth)
  }

  ghost function EnumerateEdges(g: Graph, at: Time, live: seq<nat>, path: seq<nat>, visited: set<string>,
                                maxDepth: int): (r: seq<seq<nat>>)
    requires InRange(g.edges, path) && InRange(g.edges, live)
    requires |path| < maxDepth
    ensures forall q :: q in r ==> InRange(g.edges, q)
    decreases maxDepth - |path|, 0, |live|
  {
    if live == [] then []
    else
      EnumerateEdge(g, at, live[0], path, visited, maxDepth)
      + EnumerateEdges(g, at, live[1..], path, visited, maxDepth)
  }

  ghost function EnumerateEdge(g: Graph, at: Time, p: nat, path: seq<nat>, visited: set<string>,
                               maxDepth: int): (r: seq<seq<nat>>)
    requires InRange(g.edges, path) && p < |g.edges|
    requires |path| < maxDepth
    ensures forall q :: q in r ==> InRange(g.edges, q)
    decreases maxDepth - |path|, 0, 0
  {
    var target := g.edges[p].toId;
    if g.Stops(target) then [path + [p]]
    else Enumerate(g, at, target, path + [p], visited, maxDepth)
  }

  // ---------------------------------------------------------------------------------------------
  // What the enumeration contains

  /** The id names a stored cost centre or budget. */
  ghost predicate EndsPaths(nodes: map<string, Node>, id: string) {
    id in nodes && (nodes[id].nodeType == CostCenter || nodes[id].nodeType == Budget)
  }

  /** An attribution path at `at`: a nonempty chain of live edges from `start` that never leaves the same
      node twice, stops at the first cost centre or budget it meets, and otherwise ends at a dead end. */
  ghost predicate IsAttributionPath(g: Graph, at: Time, start: string, p: seq<nat>, maxDepth: int) {
    && IsLiveChain(g, at, start, p)
    && (forall i :: 0 <= i < |p| - 1 ==> !EndsPaths(g.nodes, g.edges[p[i]].toId))
    && var last := g.edges[p[|p| - 1]].toId;
       if EndsPaths(g.nodes, last) then |p| <= maxDepth else g.LiveFrom(last, at) == [] && |p| < maxDepth
  }

  ghost predicate IsLiveChain(g: Graph, at: Time, start: string, p: seq<nat>) {
    && p != [] && InRange(g.edges, p)
    && (forall i :: 0 <= i < |p| ==> g.edges[p[i]].LiveAt(at))
    && g.edges[p[0]].fromId == start
    && (forall i, j :: 0 <= i < j < |p| && j == i + 1 ==> g.edges[p[i]].toId == g.edges[p[j]].fromId)
    && (forall i, j :: 0 <= i < j < |p| ==> g.edges[p[i]].fromId != g.edges[p[j]].fromId)
  }

  /** The same, one edge at a time: `q` continues a path of `depth` edges that has reached `node`. */
  ghost predicate Continues(g: Graph, at: Time, node: string, q: seq<nat>, visited: set<string>, budget: int)
    decreases |q|
  {
    && budget > 0 && node !in visited
    && if q == [] then g.LiveFrom(node, at) == []
       else
         && q[0] in g.LiveFrom(node, at)
         && var target := g.edges[q[0]].toId;
            if g.Stops(target) then |q| == 1
            else Continues(g, at, target, q[1..], visited + {node}, budget - 1)
  }

  lemma EnumerateContinues(g: Graph, at: Time, node: string, path: seq<nat>, visited: set<string>, maxDepth: int,
                           p: seq<nat>)
    requires InRange(g.edges, path)
    ensures p in Enumerate(g, at, node, path, visited, maxDepth) <==>
              p != [] && path <= p && Continues(g, at, node, p[|path|..], visited, maxDepth - |path|)
    decreases maxDepth - |path|, 1, 0
  {
    if |path| < maxDepth && node !in visited {
      var live := g.LiveFrom(node, at);
      if live == [] {
        if path <= p && p[|path|..] == [] { assert p == path; }
      } else {
        EdgesContinue(g, at, live, node, path, visited, maxDepth, p);
      }
    }
  }

  lemma EdgesContinue(g: Graph, at: Time, live: seq<nat>, node: string, path: seq<nat>, visited: set<string>,
                      maxDepth: int, p: seq<nat>)
    requires InRange(g.edges, path) && InRange(g.edges, live)
    requires |path| < maxDepth && node !in visited
    requires forall x: nat :: x in live ==> x in g.LiveFrom(node, at)
    ensures p in EnumerateEdges(g, at, live, path, visited + {node}, maxDepth) <==>
              path < p && p[|path|] in live && Continues(g, at, node, p[|path|..], visited, maxDepth - |path|)
    decreases maxDepth - |path|, 0, |live|
  {
    if live != [] {
      assert live == [live[0]] + live[1..];
      EdgeContinues(g, at, live[0], node, path, visited, maxDepth, p);
      EdgesContinue(g, at, live[1..], node, path, visited, maxDepth, p);
    }
  }

  lemma EdgeContinues(g: Graph, at: Time, x: nat, node: string, path: seq<nat>, visited: set<string>, maxDepth: int,
                      p: seq<nat>)
    requires InRange(g.edges, path) && x < |g.edges| && x in g.LiveFrom(node, at)
    requires |path| < maxDepth && node !in visited
    ensures p in EnumerateEdge(g, at, x, path, visited + {node}, maxDepth) <==>
              path < p && p[|path|] == x && Continues(g, at, node, p[|path|..], visited, maxDepth - |path|)
    decreases maxDepth - |path|, 0, 0
  {
    var target := g.edges[x].toId;
    OneFurther(path, x, p);
    if !g.Stops(target) {
      EnumerateContinues(g, at, target, path + [x], visited + {node}, maxDepth, p);
      if path < p && p[|path|] == x {
        assert Continues(g, at, node, p[|path|..], visited, maxDepth - |path|)
          <==> Continues(g, at, target, p[|path| + 1..], visited + {node}, maxDepth - |path| - 1);
      }
    }
  }

  lemma OneFurther(path: seq<nat>, x: nat, p: seq<nat>)
    ensures path + [x] <= p <==> path < p && p[|path|] == x
    ensures p == path + [x] <==> path < p && p[|path|] == x && |p[|path|..]| == 1
    ensures path < p ==> p[|path|..][0] == p[|path|] && p[|path|..][1..] == p[|path| + 1..]
  {
    if path < p && p[|path|] == x {
      assert p[..|path| + 1] == path + [x];
    }
  }

  ghost predicate AvoidingPath(g: Graph, at: Time, start: string, p: seq<nat>, visited: set<string>, maxDepth: int) {
    IsAttributionPath(g, at, start, p, maxDepth) && forall i :: 0 <= i < |p| ==> g.edges[p[i]].fromId !in visited
  }

  /** Dropping the first edge of a path leaves a path from its target that avoids its source. */
  lemma PathTail(g: Graph, at: Time, node: string, q: seq<nat>, visited: set<string>, budget: int)
    requires |q| > 1 && AvoidingPath(g, at, node, q, visited, budget)
    ensures AvoidingPath(g, at, g.edges[q[0]].toId, q[1..], visited + {node}, budget - 1)
  {
    var rest := q[1..];
    assert forall i :: 0 <= i < |rest| ==> rest[i] == q[i + 1];
    assert rest[|rest| - 1] == q[|q| - 1];
  }

  lemma ChainExtends(g: Graph, at: Time, x: nat, rest: seq<nat>)
    requires x < |g.edges| && g.edges[x].LiveAt(at) && IsLiveChain(g, at, g.edges[x].toId, rest)
    requires forall i :: 0 <= i < |rest| ==> g.edges[rest[i]].fromId != g.edges[x].fromId
    ensures IsLiveChain(g, at, g.edges[x].fromId, [x] + rest)
  {
    var q := [x] + rest;
    assert forall i :: 0 < i < |q| ==> q[i] == rest[i - 1];
  }

  lemma PathExtends(g: Graph, at: Time, node: string, x: nat, rest: seq<nat>, visited: set<string>, budget: int)
    requires x < |g.edges| && g.edges[x].fromId == node && g.edges[x].LiveAt(at)
    requires node !in visited && !g.Stops(g.edges[x].toId)
    requires AvoidingPath(g, at, g.edges[x].toId, rest, visited + {node}, budget - 1)
    ensures AvoidingPath(g, at, node, [x] + rest, visited, budget)
  {
    var q := [x] + rest;
    ChainExtends(g, at, x, rest);
    assert forall i :: 0 < i < |q| ==> q[i] == rest[i - 1];
    assert q[|q| - 1] == rest[|rest| - 1];
  }

  /** Reading a path edge by edge agrees with the definition over positions. */
  lemma {:induction false} ContinuesIsPath(g: Graph, at: Time, node: string, q: seq<nat>, visited: set<string>,
                                           budget: int)
    requires q != []
    requires forall v :: v in visited ==> g.LiveFrom(v, at) != []  // so a dead end is never a visited source
    ensures Continues(g, at, node, q, visited, budget) <==> AvoidingPath(g, at, node, q, visited, budget)
    decreases |q|
  {
    if |q| == 1 {
      SingleEdge(g, at, node, q, visited, budget);
    } else {
      if node !in visited && q[0] in g.LiveFrom(node, at) {
        ContinuesIsPath(g, at, g.edges[q[0]].toId, q[1..], visited + {node}, budget - 1);
      }
      LongerPath(g, at, node, q, visited, budget);
    }
  }

  lemma SingleEdge(g: Graph, at: Time, node: string, q: seq<nat>, visited: set<string>, budget: int)
    requires |q| == 1
    requires forall v :: v in visited ==> g.LiveFrom(v, at) != []
    ensures Continues(g, at, node, q, visited, budget) <==> AvoidingPath(g, at, node, q, visited, budget)
  {
    assert q[1..] == [];
    if q[0] < |g.edges| && g.edges[q[0]].fromId == node && g.edges[q[0]].LiveAt(at) {
      assert q[0] in g.LiveFrom(node, at);
    }
  }

  /** A path of two or more edges, taken apart at its first edge. */
  lemma LongerPath(g: Graph, at: Time, node: string, q: seq<nat>, visited: set<string>, budget: int)
    requires |q| > 1
    ensures AvoidingPath(g, at, node, q, visited, budget) <==>
              && node !in visited && q[0] in g.LiveFrom(node, at) && !g.Stops(g.edges[q[0]].toId)
              && AvoidingPath(g, at, g.edges[q[0]].toId, q[1..], visited + {node}, budget - 1)
  {
    assert q == [q[0]] + q[1..];
    if AvoidingPath(g, at, node, q, visited, budget) {
      assert q[0] in g.LiveFrom(node, at);
      PathTail(g, at, node, q, visited, budget);
    }
    if node !in visited && q[0] in g.LiveFrom(node, at) && !g.Stops(g.edges[q[0]].toId)
       && AvoidingPath(g, at, g.edges[q[0]].toId, q[1..], visited + {node}, budget - 1) {
      PathExtends(g, at, node, q[0], q[1..], visited, budget);
    }
  }

  /** Soundness and completeness of the search. */
  lemma TraversalExact(g: Graph, at: Time, start: string, maxDepth: int, p: seq<nat>)
    ensures p in Enumerate(g, at, start, [], {}, maxDepth) <==> IsAttributionPath(g, at, start, p, maxDepth)
  {
    EnumerateContinues(g, at, start, [], {}, maxDepth, p);
    if p != [] {
      assert p[0..] == p;
      ContinuesIsPath(g, at, start, p, {}, maxDepth);
    }
  }

  // ---------------------------------------------------------------------------------------------
  // Its order

  /** `a` comes strictly before `b`: they part at some position, where `a` takes the earlier edge. */
  ghost predicate Precedes(a: seq<nat>, b: seq<nat>) {
    exists i :: PartAt(a, b, i)
  }

  ghost predicate PartAt(a: seq<nat>, b: seq<nat>, i: int) {
    0 <= i < |a| && i < |b| && a[..i] == b[..i] && a[i] < b[i]
  }

  ghost predicate Ordered(s: seq<seq<nat>>) {
    forall i, j :: 0 <= i < j < |s| ==> Precedes(s[i], s[j])
  }

  lemma OrderedConcat(s: seq<seq<nat>>, t: seq<seq<nat>>)
    requires Ordered(s) && Ordered(t)
    requires forall a, b :: a in s && b in t ==> Precedes(a, b)
    ensures Ordered(s + t)
  {
    forall i, j | 0 <= i < j < |s + t| ensures Precedes((s + t)[i], (s + t)[j]) {
      if i < |s| <= j { assert s[i] in s && t[j - |s|] in t; }
    }
  }

  lemma EnumerateOrdered(g: Graph, at: Time, node: string, path: seq<nat>, visited: set<string>, maxDepth: int)
    requires InRange(g.edges, path)
    ensures Ordered(Enumerate(g, at, node, path, visited, maxDepth))
    decreases maxDepth - |path|, 1, 0
  {
    if |path| < maxDepth && node !in visited {
      var live := g.LiveFrom(node, at);
      if live != [] { EdgesOrdered(g, at, live, node, path, visited, maxDepth); }
    }
  }

  /** Paths along the first live edge come before those along any other. */
  lemma {:induction false} EdgeBeforeEdges(g: Graph, at: Time, live: seq<nat>, node: string, path: seq<nat>,
                                           visited: set<string>, maxDepth: int, a: seq<nat>, b: seq<nat>)
    requires InRange(g.edges, path) && InRange(g.edges, live) && live != []
    requires |path| < maxDepth && node !in visited
    requires forall x: nat :: x in live ==> x in g.LiveFrom(node, at)
    requires forall i, j :: 0 <= i < j < |live| ==> live[i] < live[j]
    requires a in EnumerateEdge(g, at, live[0], path, visited + {node}, maxDepth)
    requires b in EnumerateEdges(g, at, live[1..], path, visited + {node}, maxDepth)
    ensures Precedes(a, b)
  {
    EdgeContinues(g, at, live[0], node, path, visited, maxDepth, a);
    EdgesContinue(g, at, live[1..], node, path, visited, maxDepth, b);
    assert PartAt(a, b, |path|);
  }

  lemma {:induction false} EdgesOrdered(g: Graph, at: Time, live: seq<nat>, node: string, path: seq<nat>,
                                        visited: set<string>, maxDepth: int)
    requires InRange(g.edges, path) && InRange(g.edges, live)
    requires |path| < maxDepth && node !in visited
    requires forall x: nat :: x in live ==> x in g.LiveFrom(node, at)
    requires forall i, j :: 0 <= i < j < |live| ==> live[i] < live[j]
    ensures Ordered(EnumerateEdges(g, at, live, path, visited + {node}, maxDepth))
    decreases maxDepth - |path|, 0, |live|
  {
    if live != [] {
      var v := visited + {node};
      var here := EnumerateEdge(g, at, live[0], path, v, maxDepth);
      var there := EnumerateEdges(g, at, live[1..], path, v, maxDepth);
      EdgesOrdered(g, at, live[1..], node, path, visited, maxDepth);
      var target := g.edges[live[0]].toId;
      if !g.Stops(target) { EnumerateOrdered(g, at, target, path + [live[0]], v, maxDepth); }
      forall a, b | a in here && b in there ensures Precedes(a, b) {
        EdgeBeforeEdges(g, at, live, node, path, visited, maxDepth, a, b);
      }
      OrderedConcat(here, there);
    }
  }

  /** Each path is produced once, and the limit keeps the first ones in edge order. */
  lemma TraversalOrdered(g: Graph, at: Time, start: string, maxDepth: int)
    ensures Ordered(Enumerate(g, at, start, [], {}, maxDepth))
    ensures Distinct(Enumerate(g, at, start, [], {}, maxDepth))
  {
    EnumerateOrdered(g, at, start, [], {}, maxDepth);
    var r := Enumerate(g, at, start, [], {}, maxDepth);
    forall i, j | 0 <= i < j < |r| ensures r[i] != r[j] {
      assert Precedes(r[i], r[j]);
    }
  }

  /** What a limited traversal answers: attribution paths only, each once and in edge order, and a path is
      missing only when the limit is used up by paths that come before it. */
  lemma TraversalWithLimit(g: Graph, at: Time, start: string, maxDepth: int, maxPaths: int, p: seq<nat>)
    ensures var kept := Cut(Enumerate(g, at, start, [], {}, maxDepth), maxPaths);
            && Ordered(kept) && Distinct(kept)
            && (p in kept ==> IsAttributionPath(g, at, start, p, maxDepth))
            && (IsAttributionPath(g, at, start, p, maxDepth) && p !in kept ==>
                  |kept| == (if maxPaths > 0 then maxPaths else 0) && forall q :: q in kept ==> Precedes(q, p))
  {
    var all := Enumerate(g, at, start, [], {}, maxDepth);
    var kept := Cut(all, maxPaths);
    TraversalExact(g, at, start, maxDepth, p);
    TraversalOrdered(g, at, start, maxDepth);
    if p in all && p !in kept {
      var j :| 0 <= j < |all| && all[j] == p;
      assert forall i :: 0 <= i < |kept| ==> kept[i] == all[i] && all[i] in kept;
    }
  }

  // ---------------------------------------------------------------------------------------------
  // Its stability: what happens later leaves the past as it was

  /** Some edge live at `at` leads to the node. */
  ghost predicate Entered(g: Graph, id: string, at: Time) {
    exists p :: 0 <= p < |g.edges| && g.edges[p].LiveAt(at) && g.edges[p].toId == id
  }

  /** Both graphs show the same live edges at `at`, to nodes that stop paths in both or in neither. */
  ghost predicate AgreeAt(g: Graph, h: Graph, at: Time) {
    && (forall id :: g.LiveFrom(id, at) == h.LiveFrom(id, at))
    && (forall id :: Entered(g, id, at) ==> g.Stops(id) == h.Stops(id))
    && |g.edges| <= |h.edges|
    && (forall p :: 0 <= p < |g.edges| ==> g.edges[p].toId == h.edges[p].toId)
  }

  lemma EnumerateAgrees(g: Graph, h: Graph, at: Time, node: string, path: seq<nat>, visited: set<string>, maxDepth: int)
    requires AgreeAt(g, h, at) && InRange(g.edges, path)
    ensures Enumerate(g, at, node, path, visited, maxDepth) == Enumerate(h, at, node, path, visited, maxDepth)
    decreases maxDepth - |path|, 1, 0
  {
    if |path| < maxDepth && node !in visited {
      var live := g.LiveFrom(node, at);
      assert live == h.LiveFrom(node, at);
      if live != [] { EdgesAgree(g, h, at, live, path, visited + {node}, maxDepth); }
    }
  }

  lemma EdgesAgree(g: Graph, h: Graph, at: Time, live: seq<nat>, path: seq<nat>, visited: set<string>, maxDepth: int)
    requires AgreeAt(g, h, at) && InRange(g.edges, path) && InRange(g.edges, live)
    requires |path| < maxDepth && forall i :: 0 <= i < |live| ==> g.edges[live[i]].LiveAt(at)
    ensures EnumerateEdges(g, at, live, path, visited, maxDepth) == EnumerateEdges(h, at, live, path, visited, maxDepth)
    decreases maxDepth - |path|, 0, |live|
  {
    if live != [] {
      EdgesAgree(g, h, at, live[1..], path, visited, maxDepth);
      var target := g.edges[live[0]].toId;
      assert Entered(g, target, at);
      if !g.Stops(target) { EnumerateAgrees(g, h, at, target, path + [live[0]], visited, maxDepth); }
    }
  }

  /** The writes of the store, with the clock readings they take. */
  datatype Write =
    | AddEdge(edge: Edge, now: Time)
    | CloseEdge(key: EdgeKey, closedAt: Time)
    | UpsertNode(node: Node)

  function Apply(g: Graph, w: Write): Graph {
    match w
    case AddEdge(e, now) => g.(edges := Added(g.edges, e, now))
    case CloseEdge(key, c) => g.(edges := CloseOpen(g.edges, key, c))
    case UpsertNode(n) => g.(nodes := g.nodes[n.nodeId := n])
  }

  function ApplyAll(g: Graph, ws: seq<Write>): Graph
    decreases |ws|
  {
    if ws == [] then g else ApplyAll(Apply(g, ws[0]), ws[1..])
  }

  /** The write carries only instants after `at`, and does not turn a node that is entered at `at` from a stopping into
      a passing one or back. */
  ghost predicate After(g: Graph, w: Write, at: Time) {
    match w
    case AddEdge(e, now) => at < now && at < e.validFrom
    case CloseEdge(_, c) => at < c
    case UpsertNode(n) => g.Stops(n.nodeId) == (n.nodeType in {CostCenter, Budget}) || !Entered(g, n.nodeId, at)
  }

  ghost predicate AllAfter(g: Graph, ws: seq<Write>, at: Time)
    decreases |ws|
  {
    ws == [] || (After(g, ws[0], at) && AllAfter(Apply(g, ws[0]), ws[1..], at))
  }

  lemma WriteAgrees(g: Graph, w: Write, at: Time)
    requires After(g, w, at)
    ensures AgreeAt(g, Apply(g, w), at)
  {
    var h := Apply(g, w);
    forall id ensures g.LiveFrom(id, at) == h.LiveFrom(id, at) {
      match w
      case AddEdge(e, now) => ScanAfterAdd(g.edges, e, now, Source, id, at);
      case CloseEdge(key, c) => ScanAfterClose(g.edges, key, c, Source, id, at);
      case UpsertNode(n) =>
    }
  }

  /** The past is immutable: whatever is written afterwards, a traversal as of `at` keeps its answer. */
  lemma {:induction false} PastTraversalUnchanged(g: Graph, ws: seq<Write>, at: Time, start: string, maxDepth: int)
    requires AllAfter(g, ws, at)
    ensures Enumerate(ApplyAll(g, ws), at, start, [], {}, maxDepth) == Enumerate(g, at, start, [], {}, maxDepth)
    decreases |ws|
  {
    if ws != [] {
      WriteAgrees(g, ws[0], at);
      EnumerateAgrees(g, Apply(g, ws[0]), at, start, [], {}, maxDepth);
      PastTraversalUnchanged(Apply(g, ws[0]), ws[1..], at, start, maxDepth);
    }
  }

  /** The traversals as of `at` answer alike in both graphs, from every node and to every depth. */
  ghost predicate SameTraversals(g: Graph, h: Graph, at: Time) {
    forall start, maxDepth :: Enumerate(g, at, start, [], {}, maxDepth) == Enumerate(h, at, start, [], {}, maxDepth)
  }

  /** At depth one, a live edge is a path exactly when it ends at a cost centre or budget. */
  lemma OneEdgeToDepthOne(g: Graph, at: Time, p: nat)
    requires p < |g.edges| && g.edges[p].LiveAt(at)
    ensures IsAttributionPath(g, at, g.edges[p].fromId, [p], 1) <==> EndsPaths(g.nodes, g.edges[p].toId)
  {
  }

  /** Nodes are not versioned: an upsert is invisible in the past exactly when it leaves the node stopping, or passing,
      as it was, or no edge live then leads to it. */
  lemma UpsertInvisibleIff(g: Graph, n: Node, at: Time)
    ensures SameTraversals(Apply(g, UpsertNode(n)), g, at) <==> After(g, UpsertNode(n), at)
  {
    var h := Apply(g, UpsertNode(n));
    if After(g, UpsertNode(n), at) {
      WriteAgrees(g, UpsertNode(n), at);
      forall start, maxDepth
          ensures Enumerate(h, at, start, [], {}, maxDepth) == Enumerate(g, at, start, [], {}, maxDepth) {
        EnumerateAgrees(g, h, at, start, [], {}, maxDepth);
      }
    } else {
      var p: nat :| p < |g.edges| && g.edges[p].LiveAt(at) && g.edges[p].toId == n.nodeId;
      var start := g.edges[p].fromId;
      TraversalExact(g, at, start, 1, [p]);
      TraversalExact(h, at, start, 1, [p]);
      OneEdgeToDepthOne(g, at, p);
      OneEdgeToDepthOne(h, at, p);
      assert Enumerate(h, at, start, [], {}, 1) != Enumerate(g, at, start, [], {}, 1);
    }
  }
}
