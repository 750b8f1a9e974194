/**
 * Breadth-first search over an implicit graph (src/utils/bfs.rs).
 *
 * The graph is the successor function the search asks for the neighbours
 * of a node. It is modelled as a finite map from a node to its successor
 * list, in the order the graph yields them; a node without an entry has no
 * successors. The search keeps a FIFO frontier, a visited set and a
 * precursor table, and rebuilds the path by walking precursors back from
 * the goal.
 */
module Bfs {
  import opened Wrappers

  type Graph<T> = map<T, seq<T>>

  function Neighbors<T>(g: Graph<T>, n: T): seq<T>
  {
    if n in g then g[n] else []
  }

  /** There is an edge from u to w. */
  predicate Edge<T(==)>(g: Graph<T>, u: T, w: T)
  {
    w in Neighbors(g, u)
  }

  /**
   * A finite set of nodes that holds start and every successor of every
   * node: all the search can ever visit. It bounds the search's loop.
   */
  lemma FiniteUniverse<T>(g: Graph<T>, start: T) returns (U: set<T>)
    ensures start in U
    ensures forall u, w :: Edge(g, u, w) ==> w in U
  {
    U := {start} + set n, w | n in g && w in g[n] :: w;
    forall u, w | Edge(g, u, w)
      ensures w in U
    {
      assert u in g && w in g[u];
    }
  }

  /** p is a walk along edges of g: each node is a successor of the one before. */
  ghost predicate IsPath<T>(g: Graph<T>, p: seq<T>)
  {
    |p| >= 1 && forall i, j :: 0 <= i < |p| - 1 && j == i + 1 ==> Edge(g, p[i], p[j])
  }

  ghost predicate PathFromTo<T>(g: Graph<T>, p: seq<T>, s: T, t: T)
  {
    IsPath(g, p) && p[0] == s && p[|p| - 1] == t
  }

  ghost predicate Reachable<T(!new)>(g: Graph<T>, s: T, t: T)
  {
    exists p :: PathFromTo(g, p, s, t)
  }

  predicate NoRepeats<T(==)>(p: seq<T>)
  {
    forall i, j :: 0 <= i < j < |p| ==> p[i] != p[j]
  }

  function Reversed<T>(s: seq<T>): (r: seq<T>)
    ensures |r| == |s|
    ensures forall i :: 0 <= i < |s| ==> r[i] == s[|s| - 1 - i]
  {
    if s == [] then [] else Reversed(s[1..]) + [s[0]]
  }

  /**
   * The precursor table the search builds: every visited node but the start
   * has a precursor, the precursor is a visited node it is a successor of,
   * and (ghost) dist, the hop count at which a node was discovered, grows by
   * one from precursor to node.
   */
  ghost predicate PrecursorsOk<T>(g: Graph<T>, start: T, prec: map<T, T>, dist: map<T, nat>)
  {
    && start in dist && dist[start] == 0 && start !in prec
    && (forall v :: v in dist.Keys - {start} ==> v in prec)
    && (forall v {:trigger prec[v]} :: v in prec ==>
          v in dist && prec[v] in dist && Edge(g, prec[v], v) && dist[v] == dist[prec[v]] + 1)
  }

  /**
   * build_path_from_precursors: collects goal, its precursor, that node's
   * precursor and so on until a node without one, and returns them in
   * reverse. On a table the search built, this is a path of edges from
   * start to goal with dist[goal] hops and no repeated node.
   */
  method BuildPathFromPrecursors<T(==)>(goal: T, prec: map<T, T>, ghost g: Graph<T>, ghost start: T, ghost dist: map<T, nat>)
    returns (path: seq<T>)
    requires PrecursorsOk(g, start, prec, dist)
    requires goal in dist
    ensures PathFromTo(g, path, start, goal)
    ensures |path| == dist[goal] + 1
    ensures NoRepeats(path)
  {
    var walk := [goal];
    var current := goal;
    while current in prec
      invariant current in dist
      invariant |walk| >= 1 && walk[0] == goal && walk[|walk| - 1] == current
      invariant forall i :: 0 <= i < |walk| ==> walk[i] in dist && dist[walk[i]] + i == dist[goal]
      invariant forall i, j :: 0 <= i < |walk| - 1 && j == i + 1 ==> Edge(g, walk[j], walk[i])
      decreases dist[current]
    {
      var node := prec[current];
      assert Edge(g, node, current);
      ghost var before := walk;
      walk := walk + [node];
      forall i, j | 0 <= i < |walk| - 1 && j == i + 1
        ensures Edge(g, walk[j], walk[i])
      {
        if j < |before| {
          assert walk[i] == before[i] && walk[j] == before[j];
        }
      }
      current := node;
    }
    assert current !in dist.Keys - {start};
    assert current == start;
    path := Reversed(walk);
    ReversedWalkIsPath(g, walk);
    ReversedWalkNoRepeats(walk, dist, goal);
  }

  /** A walk backwards along edges, reversed, is a path. */
  lemma ReversedWalkIsPath<T>(g: Graph<T>, walk: seq<T>)
    requires |walk| >= 1
    requires forall i, j :: 0 <= i < |walk| - 1 && j == i + 1 ==> Edge(g, walk[j], walk[i])
    ensures IsPath(g, Reversed(walk))
  {
    var path := Reversed(walk);
    var n := |path|;
    forall i, j | 0 <= i < n - 1 && j == i + 1
      ensures Edge(g, path[i], path[j])
    {
      var i', j' := n - 1 - j, n - 1 - i;
      assert 0 <= i' < |walk| - 1 && j' == i' + 1;
      assert Edge(g, walk[j'], walk[i']);
      assert path[i] == walk[j'] && path[j] == walk[i'];
    }
    assert |path| >= 1;
  }

  /** A walk that loses one hop of dist per step, reversed, repeats no node. */
  lemma ReversedWalkNoRepeats<T>(walk: seq<T>, dist: map<T, nat>, goal: T)
    requires goal in dist
    requires forall i :: 0 <= i < |walk| ==> walk[i] in dist && dist[walk[i]] + i == dist[goal]
    ensures NoRepeats(Reversed(walk))
  {
    var path := Reversed(walk);
    var n := |path|;
    forall i, j | 0 <= i < j < n
      ensures path[i] != path[j]
    {
      assert dist[path[i]] + (n - 1 - i) == dist[goal];
      assert dist[path[j]] + (n - 1 - j) == dist[goal];
    }
  }

  /** If start lies in a set closed under successors, every path from start stays in it. */
  lemma {:induction false} ClosedSetHoldsPaths<T>(g: Graph<T>, start: T, closed: set<T>, p: seq<T>)
    requires start in closed
    requires forall v, w :: v in closed && Edge(g, v, w) ==> w in closed
    requires IsPath(g, p) && p[0] == start
    ensures p[|p| - 1] in closed
    decreases |p|
  {
    if |p| > 1 {
      var q := p[..|p| - 1];
      assert IsPath(g, q);
      ClosedSetHoldsPaths(g, start, closed, q);
      assert Edge(g, p[|p| - 2], p[|p| - 1]);
    }
  }

  /**
   * The heart of breadth-first optimality. While the frontier q is not empty,
   * every node within dist[q[0]] hops of start has been visited, at a
   * distance no larger than its hop count: every visited node that is not
   * yet expanded sits at distance dist[q[0]] or more, so a closer node has
   * been expanded, and expanding a node visits all of its successors at
   * most one hop further.
   */
  lemma {:induction false} CloseNodesVisited<T>(g: Graph<T>, start: T, visited: set<T>, expanded: set<T>,
                                                dist: map<T, nat>, level: nat, p: seq<T>)
    requires dist.Keys == visited && expanded <= visited
    requires start in visited && dist[start] == 0
    requires forall v :: v in visited && v !in expanded ==> level <= dist[v]
    requires forall v, w :: v in expanded && Edge(g, v, w) ==> w in visited && dist[w] <= dist[v] + 1
    requires IsPath(g, p) && p[0] == start && |p| - 1 <= level
    ensures p[|p| - 1] in visited && dist[p[|p| - 1]] <= |p| - 1
    decreases |p|
  {
    if |p| > 1 {
      var pre := p[..|p| - 1];
      assert IsPath(g, pre);
      CloseNodesVisited(g, start, visited, expanded, dist, level, pre);
      var u := pre[|pre| - 1];
      assert Edge(g, u, p[|p| - 1]);
    }
  }

  /** When the goal leaves the frontier, no path reaches it in fewer than dist[goal] hops. */
  lemma NoShorterPath<T>(g: Graph<T>, start: T, goal: T, visited: set<T>, expanded: set<T>, dist: map<T, nat>)
    requires dist.Keys == visited && expanded <= visited && goal in visited
    requires start in visited && dist[start] == 0
    requires forall v :: v in visited && v !in expanded ==> dist[goal] <= dist[v]
    requires forall v, w :: v in expanded && Edge(g, v, w) ==> w in visited && dist[w] <= dist[v] + 1
    ensures forall p :: PathFromTo(g, p, start, goal) ==> dist[goal] + 1 <= |p|
  {
    forall p | PathFromTo(g, p, start, goal)
      ensures dist[goal] + 1 <= |p|
    {
      if |p| - 1 < dist[goal] {
        CloseNodesVisited(g, start, visited, expanded, dist, dist[goal], p);
      }
    }
  }

  /** If goal is outside a visited set that holds start and is closed under successors, no path reaches it. */
  lemma Unreachable<T(!new)>(g: Graph<T>, start: T, goal: T, closed: set<T>)
    requires start in closed && goal !in closed
    requires forall v, w :: v in closed && Edge(g, v, w) ==> w in closed
    ensures !Reachable(g, start, goal)
  {
    forall p | PathFromTo(g, p, start, goal)
      ensures false
    {
      ClosedSetHoldsPaths(g, start, closed, p);
    }
  }

  /**
   * The state of the search between two turns of its outer loop: the
   * frontier holds exactly the visited nodes not yet expanded, without
   * repeats, sorted by discovery distance and spanning at most one hop;
   * every successor of an expanded node is visited at most one hop
   * further; the goal has not been expanded.
   */
  ghost predicate SearchInv<T(!new)>(g: Graph<T>, start: T, goal: T, U: set<T>, queue: seq<T>, visited: set<T>,
                               prec: map<T, T>, dist: map<T, nat>, expanded: set<T>)
  {
    && visited <= U && dist.Keys == visited && expanded <= visited
    && PrecursorsOk(g, start, prec, dist)
    && NoRepeats(queue)
    && (forall i :: 0 <= i < |queue| ==> queue[i] in visited && queue[i] !in expanded)
    && (forall v :: v in visited && v !in expanded ==> v in queue)
    && (forall i, j :: 0 <= i <= j < |queue| ==> dist[queue[i]] <= dist[queue[j]] <= dist[queue[i]] + 1)
    && (forall v, w :: v in expanded && Edge(g, v, w) ==> w in visited && dist[w] <= dist[v] + 1)
    && (queue != [] ==> forall v :: v in expanded ==> dist[v] <= dist[queue[0]])
    && (queue != [] ==> forall v :: v in visited ==> dist[v] <= dist[queue[0]] + 1)
    && goal !in expanded
  }

  /**
   * The state of the search while the successors of node, discovered at
   * distance d, are being visited: node has left the frontier but is not
   * yet counted as expanded, and the frontier spans distances d and d + 1.
   */
  ghost predicate VisitInv<T(!new)>(g: Graph<T>, start: T, goal: T, U: set<T>, node: T, d: nat, queue: seq<T>,
                              visited: set<T>, prec: map<T, T>, dist: map<T, nat>, expanded: set<T>)
  {
    && visited <= U && dist.Keys == visited && expanded <= visited
    && node in visited && node !in expanded && dist[node] == d
    && PrecursorsOk(g, start, prec, dist)
    && NoRepeats(queue)
    && (forall i :: 0 <= i < |queue| ==> queue[i] in visited && queue[i] !in expanded && queue[i] != node)
    && (forall v :: v in visited && v !in expanded && v != node ==> v in queue)
    && (forall i :: 0 <= i < |queue| ==> d <= dist[queue[i]] <= d + 1)
    && (forall i, k :: 0 <= i <= k < |queue| ==> dist[queue[i]] <= dist[queue[k]])
    && (forall v, w :: v in expanded && Edge(g, v, w) ==> w in visited && dist[w] <= dist[v] + 1)
    && (forall v :: v in expanded ==> dist[v] <= d)
    && (forall v :: v in visited ==> dist[v] <= d + 1)
    && goal !in expanded
  }

  /** Taking the head off a non-empty frontier starts the visit of its successors. */
  lemma StartVisit<T(!new)>(g: Graph<T>, start: T, goal: T, U: set<T>, queue: seq<T>, visited: set<T>,
                      prec: map<T, T>, dist: map<T, nat>, expanded: set<T>)
    requires SearchInv(g, start, goal, U, queue, visited, prec, dist, expanded)
    requires queue != []
    ensures VisitInv(g, start, goal, U, queue[0], dist[queue[0]], queue[1..], visited, prec, dist, expanded)
  {
    var q := queue[1..];
    forall i | 0 <= i < |q|
      ensures q[i] != queue[0] && dist[queue[0]] <= dist[q[i]] <= dist[queue[0]] + 1
    {
      assert q[i] == queue[i + 1];
    }
    forall i, k | 0 <= i <= k < |q|
      ensures dist[q[i]] <= dist[q[k]]
    {
      assert q[i] == queue[i + 1] && q[k] == queue[k + 1];
    }
    forall v | v in visited && v !in expanded && v != queue[0]
      ensures v in q
    {
      var i :| 0 <= i < |queue| && queue[i] == v;
      assert q[i - 1] == v;
    }
  }

  /** Recording node as the precursor of a newly found successor w, one hop further, keeps the table sound. */
  lemma PrecursorsExtend<T>(g: Graph<T>, start: T, prec: map<T, T>, dist: map<T, nat>, node: T, w: T)
    requires PrecursorsOk(g, start, prec, dist)
    requires node in dist && w !in dist && Edge(g, node, w)
    ensures PrecursorsOk(g, start, prec[w := node], dist[w := dist[node] + 1])
  {
    var prec', dist' := prec[w := node], dist[w := dist[node] + 1];
    forall v | v in prec'
      ensures v in dist' && prec'[v] in dist' && Edge(g, prec'[v], v) && dist'[v] == dist'[prec'[v]] + 1
    {
      if v != w {
        assert prec'[v] == prec[v] && prec[v] in dist;
        assert dist'[v] == dist[v] && dist'[prec[v]] == dist[prec[v]];
      }
    }
  }

  /** Appending a node not yet visited to the frontier keeps it free of repeats and covering the unexpanded nodes. */
  lemma AppendToFrontier<T>(node: T, queue: seq<T>, visited: set<T>, expanded: set<T>, w: T)
    requires NoRepeats(queue)
    requires forall i :: 0 <= i < |queue| ==> queue[i] in visited && queue[i] !in expanded && queue[i] != node
    requires forall v :: v in visited && v !in expanded && v != node ==> v in queue
    requires w !in visited && w !in expanded && w != node
    ensures NoRepeats(queue + [w])
    ensures forall i :: 0 <= i < |queue + [w]| ==>
              (queue + [w])[i] in visited + {w} && (queue + [w])[i] !in expanded && (queue + [w])[i] != node
    ensures forall v :: v in visited + {w} && v !in expanded && v != node ==> v in queue + [w]
  {
    var q := queue + [w];
    forall i | 0 <= i < |q|
      ensures q[i] in visited + {w} && q[i] !in expanded && q[i] != node
    {
      if i < |queue| { assert q[i] == queue[i]; }
    }
    forall i, k | 0 <= i < k < |q|
      ensures q[i] != q[k]
    {
      if k < |queue| { assert q[i] == queue[i] && q[k] == queue[k]; }
      else { assert q[i] == queue[i]; }
    }
    forall v | v in visited + {w} && v !in expanded && v != node
      ensures v in q
    {
      if v != w {
        var i :| 0 <= i < |queue| && queue[i] == v;
        assert q[i] == v;
      } else {
        assert q[|queue|] == w;
      }
    }
  }

  /** Appending a node one hop beyond node keeps the frontier sorted by distance and within one hop of node. */
  lemma AppendKeepsLayers<T>(queue: seq<T>, dist: map<T, nat>, d: nat, w: T)
    requires forall i :: 0 <= i < |queue| ==> queue[i] in dist && d <= dist[queue[i]] <= d + 1
    requires forall i, k :: 0 <= i <= k < |queue| ==> dist[queue[i]] <= dist[queue[k]]
    requires w !in dist
    ensures forall i :: 0 <= i < |queue + [w]| ==>
              d <= dist[w := d + 1][(queue + [w])[i]] <= d + 1
    ensures forall i, k :: 0 <= i <= k < |queue + [w]| ==>
              dist[w := d + 1][(queue + [w])[i]] <= dist[w := d + 1][(queue + [w])[k]]
  {
    var q, dist' := queue + [w], dist[w := d + 1];
    forall i | 0 <= i < |q|
      ensures d <= dist'[q[i]] <= d + 1
    {
      if i < |queue| { assert q[i] == queue[i]; }
    }
    forall i, k | 0 <= i <= k < |q|
      ensures dist'[q[i]] <= dist'[q[k]]
    {
      if k < |queue| { assert q[i] == queue[i] && q[k] == queue[k]; }
      else if i < |queue| { assert q[i] == queue[i]; }
    }
  }

  /** Giving a new node distance d + 1 keeps every visited distance within d + 1 and the expanded closure intact. */
  lemma NewDistanceKeepsBounds<T>(g: Graph<T>, visited: set<T>, dist: map<T, nat>, expanded: set<T>, d: nat, w: T)
    requires dist.Keys == visited && expanded <= visited && w !in visited
    requires forall v, w :: v in expanded && Edge(g, v, w) ==> w in visited && dist[w] <= dist[v] + 1
    requires forall v :: v in expanded ==> dist[v] <= d
    requires forall v :: v in visited ==> dist[v] <= d + 1
    ensures dist[w := d + 1].Keys == visited + {w}
    ensures forall v, x :: v in expanded && Edge(g, v, x) ==>
              x in visited + {w} && dist[w := d + 1][x] <= dist[w := d + 1][v] + 1
    ensures forall v :: v in expanded ==> dist[w := d + 1][v] <= d
    ensures forall v :: v in visited + {w} ==> dist[w := d + 1][v] <= d + 1
  {
    var dist' := dist[w := d + 1];
    forall v | v in visited + {w}
      ensures dist'[v] <= d + 1
    {
      if v != w { assert dist'[v] == dist[v]; }
    }
    forall v | v in expanded
      ensures dist'[v] <= d
    {
      assert dist'[v] == dist[v];
    }
    forall v, x | v in expanded && Edge(g, v, x)
      ensures x in visited + {w} && dist'[x] <= dist'[v] + 1
    {
      assert dist'[x] == dist[x] && dist'[v] == dist[v];
    }
  }

  /** Discovering a new successor w of node keeps the visit state and uses up one node of U. */
  lemma VisitOne<T(!new)>(g: Graph<T>, start: T, goal: T, U: set<T>, node: T, d: nat, queue: seq<T>,
                    visited: set<T>, prec: map<T, T>, dist: map<T, nat>, expanded: set<T>, w: T)
    requires VisitInv(g, start, goal, U, node, d, queue, visited, prec, dist, expanded)
    requires forall u, w :: Edge(g, u, w) ==> w in U
    requires Edge(g, node, w) && w !in visited
    ensures VisitInv(g, start, goal, U, node, d, queue + [w], visited + {w}, prec[w := node],
                     dist[w := d + 1], expanded)
  {
    PrecursorsExtend(g, start, prec, dist, node, w);
    AppendToFrontier(node, queue, visited, expanded, w);
    AppendKeepsLayers(queue, dist, d, w);
    NewDistanceKeepsBounds(g, visited, dist, expanded, d, w);
  }

  /** Once every successor of node is visited, node joins the expanded set and the search state holds again. */
  lemma FinishVisit<T(!new)>(g: Graph<T>, start: T, goal: T, U: set<T>, node: T, d: nat, queue: seq<T>,
                       visited: set<T>, prec: map<T, T>, dist: map<T, nat>, expanded: set<T>)
    requires VisitInv(g, start, goal, U, node, d, queue, visited, prec, dist, expanded)
    requires forall w :: w in Neighbors(g, node) ==> w in visited
    requires node != goal
    ensures SearchInv(g, start, goal, U, queue, visited, prec, dist, expanded + {node})
  {
  }

  /**
   * The loop over the successors of a node just taken from the frontier:
   * each successor not yet visited is appended to the frontier, marked
   * visited and given node as its precursor, one hop further than node.
   * Afterwards every successor of node is visited at most one hop further.
   */
  method VisitNeighbors<T(==,!new)>(g: Graph<T>, ghost start: T, ghost goal: T, ghost U: set<T>, node: T, ghost d: nat,
                               queue0: seq<T>, visited0: set<T>, precursors0: map<T, T>,
                               ghost dist0: map<T, nat>, ghost expanded: set<T>)
    returns (queue: seq<T>, visited: set<T>, precursors: map<T, T>, ghost dist: map<T, nat>)
    requires forall u, w :: Edge(g, u, w) ==> w in U
    requires VisitInv(g, start, goal, U, node, d, queue0, visited0, precursors0, dist0, expanded)
    ensures VisitInv(g, start, goal, U, node, d, queue, visited, precursors, dist, expanded)
    ensures forall w :: w in Neighbors(g, node) ==> w in visited
    ensures visited0 <= visited && (visited == visited0 ==> queue == queue0)
  {
    queue, visited, precursors, dist := queue0, visited0, precursors0, dist0;
    var ns := Neighbors(g, node);
    for j := 0 to |ns|
      invariant VisitInv(g, start, goal, U, node, d, queue, visited, precursors, dist, expanded)
      invariant forall k :: 0 <= k < j ==> ns[k] in visited
      invariant visited0 <= visited && (visited == visited0 ==> queue == queue0)
    {
      var neighbor := ns[j];
      if neighbor !in visited {
        VisitOne(g, start, goal, U, node, d, queue, visited, precursors, dist, expanded, neighbor);
        queue := queue + [neighbor];
        precursors := precursors[neighbor := node];
        visited := visited + {neighbor};
        dist := dist[neighbor := d + 1];
      }
    }
  }

  /** Visiting more nodes of U leaves strictly fewer of them unseen. */
  lemma UnseenShrinks<T>(U: set<T>, before: set<T>, after: set<T>)
    requires before <= after <= U && before != after
    ensures U - after < U - before
  {
    var w :| w in after && w !in before;
    assert w in U - before;
  }

  /** When the goal heads the frontier, no path reaches it in fewer than dist[goal] hops. */
  lemma GoalAtHead<T(!new)>(g: Graph<T>, start: T, goal: T, U: set<T>, queue: seq<T>, visited: set<T>,
                      prec: map<T, T>, dist: map<T, nat>, expanded: set<T>)
    requires SearchInv(g, start, goal, U, queue, visited, prec, dist, expanded)
    requires queue != [] && queue[0] == goal
    ensures goal in dist
    ensures forall p :: PathFromTo(g, p, start, goal) ==> dist[goal] + 1 <= |p|
  {
    forall v | v in visited && v !in expanded
      ensures dist[goal] <= dist[v]
    {
      var i :| 0 <= i < |queue| && queue[i] == v;
    }
    NoShorterPath(g, start, goal, visited, expanded, dist);
  }

  /**
   * bfs: the search. A returned path leads from start to goal along edges,
   * repeats no node and is no longer than any other path from start to
   * goal; None is returned exactly when goal is unreachable from start.
   */
  method Search<T(==,!new)>(g: Graph<T>, start: T, goal: T) returns (r: Option<seq<T>>)
    ensures r.Some? ==> PathFromTo(g, r.value, start, goal) && NoRepeats(r.value)
    ensures r.Some? ==> forall p :: PathFromTo(g, p, start, goal) ==> |r.value| <= |p|
    ensures r.None? <==> !Reachable(g, start, goal)
    ensures start == goal ==> r == Some([start])
  {
    ghost var U := FiniteUniverse(g, start);
    var queue := [start];
    var visited := {start};
    var precursors: map<T, T> := map[];
    // ghost bookkeeping: the hop count at which each node was discovered,
    // and the visited nodes that have left the frontier
    ghost var dist: map<T, nat> := map[start := 0];
    ghost var expanded: set<T> := {};
    while queue != []
      invariant SearchInv(g, start, goal, U, queue, visited, precursors, dist, expanded)
      decreases U - visited, |queue|
    {
      var node := queue[0];
      if node == goal {
        GoalAtHead(g, start, goal, U, queue, visited, precursors, dist, expanded);
        var path := BuildPathFromPrecursors(goal, precursors, g, start, dist);
        assert start == goal ==> path == [start];
        return Some(path);
      }
      StartVisit(g, start, goal, U, queue, visited, precursors, dist, expanded);
      ghost var d := dist[node];
      ghost var visitedBefore := visited;
      queue, visited, precursors, dist :=
        VisitNeighbors(g, start, goal, U, node, d, queue[1..], visited, precursors, dist, expanded);
      FinishVisit(g, start, goal, U, node, d, queue, visited, precursors, dist, expanded);
      expanded := expanded + {node};
      if visited != visitedBefore {
        UnseenShrinks(U, visitedBefore, visited);
      }
    }
    Unreachable(g, start, goal, visited);
    return None;
  }
}
