/**
 * Model of Graph.java: the list of nodes, name-based lookup, edge creation,
 * Dijkstra's algorithm with a lazy-deletion frontier, and the recursive
 * path reconstruction that follows parent links.
 */
module Graphs {
  import opened Nodes
  import opened ShortestPaths
  import opened Search

  datatype Option<T> = None | Some(value: T)

  // ---------------------------------------------------------------------
  // Ordering by name (Collections.sort and Collections.binarySearch)
  // ---------------------------------------------------------------------

  /** The list is in compareTo order. */
  ghost predicate SortedByName(s: seq<Node>)
  {
    forall i, j :: 0 <= i < j < |s| ==> CompareNames(s[i].name, s[j].name) <= 0
  }

  /** Some node in the list carries the name. */
  ghost predicate HasName(s: seq<Node>, name: string)
  {
    exists i :: 0 <= i < |s| && s[i].name == name
  }

  /** Chaining two comparisons of which one is strict gives a strict one. */
  lemma CompareNamesStrict(a: string, b: string, c: string)
    requires CompareNames(a, b) <= 0 && CompareNames(b, c) <= 0
    requires CompareNames(a, b) < 0 || CompareNames(b, c) < 0
    ensures CompareNames(a, c) < 0
  {
    CompareNamesTransitive(a, b, c);
    CompareNamesZeroIff(a, c);
    CompareNamesAntisymmetric(b, c);
    CompareNamesAntisymmetric(a, b);
  }

  /** A node placed before a sorted list it does not exceed keeps it sorted. */
  lemma PrependSorted(n: Node, s: seq<Node>)
    requires SortedByName(s) && (s == [] || CompareNames(n.name, s[0].name) <= 0)
    ensures SortedByName([n] + s)
  {
    forall j | 0 < j < |s| ensures CompareNames(n.name, s[j].name) <= 0 {
      CompareNamesTransitive(n.name, s[0].name, s[j].name);
    }
  }

  /** The head of a sorted list stays in front of the rest with n inserted. */
  lemma ConsSorted(n: Node, s: seq<Node>, tail: seq<Node>)
    requires SortedByName(s) && s != [] && CompareNames(n.name, s[0].name) > 0
    requires SortedByName(tail) && multiset(tail) == multiset(s[1..]) + multiset{n}
    ensures SortedByName([s[0]] + tail)
  {
    CompareNamesAntisymmetric(n.name, s[0].name);
    forall j | 0 <= j < |tail| ensures CompareNames(s[0].name, tail[j].name) <= 0 {
      var x := tail[j];
      assert x in multiset(tail);
      if x != n {
        assert x in multiset(s[1..]);
        var k :| 0 <= k < |s[1..]| && s[1..][k] == x;
        assert s[k + 1] == x;
      }
    }
    var r := [s[0]] + tail;
    forall i, j | 0 <= i < j < |r| ensures CompareNames(r[i].name, r[j].name) <= 0 {
      if i > 0 {
        assert r[i] == tail[i - 1] && r[j] == tail[j - 1];
      } else {
        assert r[j] == tail[j - 1];
      }
    }
  }

  /** One step of an insertion sort by name. */
  function InsertByName(n: Node, s: seq<Node>): (r: seq<Node>)
    requires SortedByName(s)
    ensures multiset(r) == multiset(s) + multiset{n}
    ensures SortedByName(r)
  {
    if s == [] || CompareNames(n.name, s[0].name) <= 0 then
      PrependSorted(n, s);
      [n] + s
    else
      var tail := InsertByName(n, s[1..]);
      assert s == [s[0]] + s[1..];
      ConsSorted(n, s, tail);
      [s[0]] + tail
  }

  /** Collections.sort by compareTo: a permutation of the list, ordered by name. */
  function SortByName(s: seq<Node>): (r: seq<Node>)
    ensures multiset(r) == multiset(s)
    ensures SortedByName(r)
  {
    if s == [] then []
    else
      assert s == [s[0]] + s[1..];
      InsertByName(s[0], SortByName(s[1..]))
  }

  /**
   * Collections.binarySearch on a list sorted by name: the index of a node
   * with the key's name, or -(insertion point) - 1 when there is none.
   */
  method BinarySearch(s: seq<Node>, key: string) returns (i: int)
    ensures 0 <= i ==> i < |s| && s[i].name == key
    ensures i < 0 ==> -(i + 1) <= |s|
    ensures i < 0 && SortedByName(s) ==> forall j :: 0 <= j < -(i + 1) ==> CompareNames(s[j].name, key) < 0
    ensures i < 0 && SortedByName(s) ==> forall j :: -(i + 1) <= j < |s| ==> CompareNames(s[j].name, key) > 0
    ensures SortedByName(s) ==> (i < 0 <==> !HasName(s, key))
  {
    var low, high := 0, |s| - 1;
    while low <= high
      invariant 0 <= low <= high + 1 <= |s|
      invariant SortedByName(s) ==> forall j :: 0 <= j < low ==> CompareNames(s[j].name, key) < 0
      invariant SortedByName(s) ==> forall j :: high < j < |s| ==> CompareNames(s[j].name, key) > 0
    {
      var mid := (low + high) / 2;
      var cmp := CompareNames(s[mid].name, key);
      if cmp < 0 {
        if SortedByName(s) {
          forall j | low <= j <= mid ensures CompareNames(s[j].name, key) < 0 {
            if j < mid { CompareNamesStrict(s[j].name, s[mid].name, key); }
          }
        }
        low := mid + 1;
      } else if cmp > 0 {
        if SortedByName(s) {
          forall j | mid <= j <= high ensures CompareNames(s[j].name, key) > 0 {
            CompareNamesAntisymmetric(s[mid].name, key);
            CompareNamesAntisymmetric(s[j].name, key);
            if mid < j {
              CompareNamesStrict(key, s[mid].name, s[j].name);
            }
          }
        }
        high := mid - 1;
      } else {
        CompareNamesZeroIff(s[mid].name, key);
        assert s[mid].name == key;
        return mid;
      }
    }
    if SortedByName(s) {
      forall j | 0 <= j < |s| ensures s[j].name != key {
        CompareNamesZeroIff(s[j].name, key);
      }
    }
    i := -(low + 1);
  }

  // ---------------------------------------------------------------------
  // The frontier (java.util.PriorityQueue ordered by dist)
  // ---------------------------------------------------------------------

  /** The position of an entry of least current dist. */
  function ArgMin(q: seq<Node>): (k: nat)
    reads q
    requires q != []
    ensures k < |q| && forall j :: 0 <= j < |q| ==> AtMost(q[k].dist, q[j].dist)
  {
    if |q| == 1 then 0
    else
      var k := ArgMin(q[1..]) + 1;
      if AtMost(q[0].dist, q[k].dist) then 0 else k
  }

  /** PriorityQueue.poll: removes and returns an entry whose current dist is least. */
  method Poll(q: seq<Node>) returns (u: Node, rest: seq<Node>)
    requires q != []
    ensures u in q && forall x :: x in q ==> AtMost(u.dist, x.dist)
    ensures |rest| == |q| - 1 && multiset(rest) + multiset{u} == multiset(q)
  {
    var k := ArgMin(q);
    u := q[k];
    rest := q[..k] + q[k + 1..];
    assert q == q[..k] + [u] + q[k + 1..];
  }

  // ---------------------------------------------------------------------
  // The route list (the caller's java.util.LinkedList)
  // ---------------------------------------------------------------------

  class PathList {
    var items: seq<Node>

    constructor ()
      ensures items == []
    {
      items := [];
    }

    method AddFirst(n: Node)
      modifies this
      ensures items == [n] + old(items)
    {
      items := [n] + items;
    }
  }

  // ---------------------------------------------------------------------
  // The graph
  // ---------------------------------------------------------------------

  class Graph {
    var nodes: seq<Node>

    ghost function NodeSet(): set<Node>
      reads this
    {
      set n | n in nodes
    }

    /** Adjacency stays among the graph's own nodes. */
    ghost predicate Valid()
      reads this, NodeSet()`adj
    {
      forall n, m :: n in NodeSet() && m in n.adj ==> m in NodeSet()
    }

    ghost function Adjacency(): Adjacency
      reads this, NodeSet()`adj
    {
      map n | n in NodeSet() :: n.adj
    }

    ghost function Dists(): map<Node, Dist>
      reads this, NodeSet()`dist
    {
      map n | n in NodeSet() :: n.dist
    }

    ghost function Parents(): map<Node, Node?>
      reads this, NodeSet()`parent
    {
      map n | n in NodeSet() :: n.parent
    }

    ghost function VisitedNodes(): set<Node>
      reads this, NodeSet()`visited
    {
      set n | n in NodeSet() && n.visited
    }

    constructor ()
      ensures nodes == [] && Valid()
    {
      nodes := [];
    }

    method AddNode(n: Node)
      modifies this`nodes
      ensures nodes == old(nodes) + [n]
      ensures old(Valid()) && (forall m :: m in n.adj ==> m in nodes) ==> Valid()
    {
      nodes := nodes + [n];
      assert NodeSet() == old(NodeSet()) + {n};
    }

    method SortNodes()
      modifies this`nodes
      ensures multiset(nodes) == multiset(old(nodes)) && SortedByName(nodes)
      ensures NodeSet() == old(NodeSet())
      ensures old(Valid()) ==> Valid()
    {
      nodes := SortByName(nodes);
      assert forall n :: n in nodes <==> n in multiset(nodes);
      assert forall n :: n in old(nodes) <==> n in multiset(old(nodes));
    }

    /** findNode: the node with that name; absent names fail the lookup. */
    method FindNode(name: string) returns (r: Option<Node>)
      ensures r.Some? ==> r.value in nodes && r.value.name == name
      ensures SortedByName(nodes) && HasName(nodes, name) ==> r.Some?
    {
      var i := BinarySearch(nodes, name);
      if i < 0 {
        r := None;
      } else {
        r := Some(nodes[i]);
      }
    }

    /**
     * addEdge: both names are looked up first, then each node gets the other
     * as a neighbour. A failed lookup leaves every node as it was.
     */
    method AddEdge(name1: string, name2: string, computeDist: (Node, Node) -> Miles)
      returns (ok: bool, ghost n1: Node?, ghost n2: Node?)
      modifies NodeSet()`adj
      ensures ok ==> HasName(nodes, name1) && HasName(nodes, name2)
      ensures SortedByName(nodes) && HasName(nodes, name1) && HasName(nodes, name2) ==> ok
      ensures ok ==> n1 != null && n2 != null && n1 in nodes && n2 in nodes
      ensures ok ==> n1.name == name1 && n2.name == name2
      ensures ok ==> n1.adj == old(n1.adj)[n2 := computeDist(n1, n2)]
      ensures ok ==> n2.adj == old(n2.adj)[n1 := computeDist(n2, n1)]
      ensures forall n :: n in nodes && (!ok || (n != n1 && n != n2)) ==> n.adj == old(n.adj)
      ensures old(Valid()) ==> Valid()
    {
      n1, n2 := null, null;
      var r1 := FindNode(name1);
      var r2 := FindNode(name2);
      if r1.None? || r2.None? {
        return false, n1, n2;
      }
      var a, b := r1.value, r2.value;
      a.AddAdj(b, computeDist);
      b.AddAdj(a, computeDist);
      ok, n1, n2 := true, a, b;
    }

    /** Edge u -> n, with d the dist n had before the round, lowers n's dist; n is unvisited. */
    ghost function Lowers(u: Node, n: Node, d: Dist): (r: bool)
      reads u, n
      ensures r ==> n in u.adj && !n.visited && u.dist.Fin? && Below(u.dist, d)
      ensures d.Inf? && n in u.adj && !n.visited ==> (r <==> u.dist.Fin?)
    {
      n in u.adj && !n.visited && Below(Plus(u.dist, u.adj[n]), d)
    }

    /**
     * The inner loop of dijkstra: every neighbour v of the just visited u
     * that is unvisited and gets strictly closer through u takes
     * dist(u) + weight as its dist, u as its parent, and is pushed.
     */
    method RelaxEdges(u: Node, frontier: seq<Node>) returns (result: seq<Node>)
      requires u in NodeSet() && u.visited && Valid()
      modifies NodeSet()`dist, NodeSet()`parent
      ensures u.dist == old(u.dist)
      ensures forall n :: n in NodeSet() ==>
        if Lowers(u, n, old(n.dist))
        then n.dist == Plus(u.dist, u.adj[n]) && n.parent == u
        else n.dist == old(n.dist) && n.parent == old(n.parent)
      ensures |frontier| <= |result| && result[..|frontier|] == frontier
      ensures forall n :: n in NodeSet() && Lowers(u, n, old(n.dist)) ==> n in result
      ensures forall i :: |frontier| <= i < |result| ==>
        result[i] in NodeSet() && Lowers(u, result[i], old(result[i].dist))
    {
      result := frontier;
      var keys := u.adj.Keys;
      while keys != {}
        invariant keys <= u.adj.Keys
        invariant u.dist == old(u.dist)
        invariant forall n :: n in NodeSet() ==>
          if n !in keys && Lowers(u, n, old(n.dist))
          then n.dist == Plus(u.dist, u.adj[n]) && n.parent == u
          else n.dist == old(n.dist) && n.parent == old(n.parent)
        invariant |frontier| <= |result| && result[..|frontier|] == frontier
        invariant forall n :: n in NodeSet() && n !in keys && Lowers(u, n, old(n.dist)) ==> n in result
        invariant forall i :: |frontier| <= i < |result| ==>
          result[i] in NodeSet() && Lowers(u, result[i], old(result[i].dist))
        decreases keys
      {
        var v :| v in keys;
        keys := keys - {v};
        var newDist := Plus(u.dist, u.adj[v]);
        if Below(newDist, v.dist) && !v.visited {
          v.SetDist(newDist);
          v.SetParent(u);
          result := result + [v];
        }
      }
    }

    /** The inner loop of dijkstra, stated over the search state as maps. */
    method RelaxNeighbors(u: Node, frontier: seq<Node>, ghost A: Adjacency, ghost D: map<Node, Dist>,
                          ghost P: map<Node, Node?>, ghost V: set<Node>) returns (result: seq<Node>)
      requires u in NodeSet() && u.visited && Valid()
      requires A == Adjacency() && D == Dists() && P == Parents() && V == VisitedNodes()
      modifies NodeSet()`dist, NodeSet()`parent
      ensures Adjacency() == A && VisitedNodes() == V && Valid()
      ensures Dists() == RelaxAll(A, D, V, u)
      ensures Parents() == ReparentAll(A, D, P, V, u)
      ensures |frontier| <= |result| && result[..|frontier|] == frontier
      ensures forall x :: x in A && Improves(A, D, V, u, x) ==> x in result
      ensures forall i :: |frontier| <= i < |result| ==> result[i] in A && Improves(A, D, V, u, result[i])
    {
      result := RelaxEdges(u, frontier);
      assert forall n :: n in NodeSet() ==> (Improves(A, D, V, u, n) <==> Lowers(u, n, old(n.dist)));
    }

    /**
     * The visit of an unvisited node u: it is marked visited and its edges
     * are relaxed, so that `rest` and the improved nodes form the frontier.
     */
    method Visit(u: Node, rest: seq<Node>, ghost A: Adjacency, ghost D: map<Node, Dist>,
                 ghost P: map<Node, Node?>, ghost V: set<Node>)
      returns (frontier': seq<Node>, ghost D': map<Node, Dist>, ghost P': map<Node, Node?>, ghost V': set<Node>)
      requires u in NodeSet() && !u.visited && Valid()
      requires A == Adjacency() && D == Dists() && P == Parents() && V == VisitedNodes()
      modifies NodeSet()`dist, NodeSet()`parent, NodeSet()`visited
      ensures A == Adjacency() && D' == Dists() && P' == Parents() && V' == VisitedNodes() && Valid()
      ensures Visited(A, D, P, V, u, rest, frontier', D', P', V')
    {
      u.SetVisited(true);
      V' := V + {u};
      assert VisitedNodes() == V';
      frontier' := RelaxNeighbors(u, rest, A, D, P, V');
      assert forall x :: x in rest ==> x in frontier';
      D', P' := RelaxAll(A, D, V', u), ReparentAll(A, D, P, V', u);
    }

    /**
     * One round of dijkstra's outer loop: poll the frontier, giving u and
     * `rest`; skip u if it is visited, or else visit it and relax its edges.
     * The ghost parameters are the search state before the round (as maps),
     * the ghost results the state after it.
     */
    method Round(frontier: seq<Node>, ghost A: Adjacency, ghost D: map<Node, Dist>,
                 ghost P: map<Node, Node?>, ghost V: set<Node>)
      returns (frontier': seq<Node>, ghost D': map<Node, Dist>, ghost P': map<Node, Node?>, ghost V': set<Node>,
               ghost u: Node, ghost rest: seq<Node>)
      requires frontier != [] && Valid()
      requires A == Adjacency() && D == Dists() && P == Parents() && V == VisitedNodes()
      requires forall i :: 0 <= i < |frontier| ==> frontier[i] in NodeSet()
      modifies NodeSet()`dist, NodeSet()`parent, NodeSet()`visited
      ensures A == Adjacency() && D' == Dists() && P' == Parents() && V' == VisitedNodes() && Valid()
      ensures Polled(D, frontier, u, rest)
      ensures Skipped(D, P, V, u, rest, frontier', D', P', V') || Visited(A, D, P, V, u, rest, frontier', D', P', V')
    {
      var v, r := Poll(frontier);
      u, rest := v, r;
      if v.visited {
        return r, D, P, V, u, rest;
      }
      frontier', D', P', V' := Visit(v, r, A, D, P, V);
    }

    /**
     * The start of dijkstra: the source gets dist 0 and is the only entry
     * of the frontier. The ghost results are the search state as maps.
     */
    method Start(source: Node)
      returns (frontier: seq<Node>, ghost A: Adjacency, ghost D: map<Node, Dist>, ghost P: map<Node, Node?>,
               ghost V: set<Node>, ghost rank: map<Node, nat>, ghost count: nat)
      requires source in nodes && Valid()
      requires forall n :: n in nodes ==> n.dist == Inf && n.parent == null && !n.visited
      modifies NodeSet()`dist
      ensures A == Adjacency() && D == Dists() && P == Parents() && V == VisitedNodes() && Valid()
      ensures SearchInv(A, D, P, V, frontier, source, rank, count)
      ensures frontier == [source] && V == {} && source.dist == Fin(0.0)
      ensures forall n :: n in nodes && n != source ==> n.dist == Inf
    {
      A, rank, count := Adjacency(), map[], 0;
      source.SetDist(Fin(0.0));
      frontier := [source];
      D, P, V := Dists(), Parents(), VisitedNodes();
      assert Closed(A);
      assert V == {};
      InitialSearch(A, D, P, V, frontier, source, rank, count);
    }

    /**
     * One round together with the proof that it keeps the invariant and
     * makes progress: one more node visited, or a shorter frontier.
     */
    method Step(source: Node, frontier: seq<Node>, ghost A: Adjacency, ghost D: map<Node, Dist>,
                ghost P: map<Node, Node?>, ghost V: set<Node>, ghost rank: map<Node, nat>, ghost count: nat)
      returns (frontier': seq<Node>, ghost D': map<Node, Dist>, ghost P': map<Node, Node?>, ghost V': set<Node>,
               ghost rank': map<Node, nat>, ghost count': nat)
      requires frontier != []
      requires A == Adjacency() && D == Dists() && P == Parents() && V == VisitedNodes() && Valid()
      requires SearchInv(A, D, P, V, frontier, source, rank, count)
      modifies NodeSet()`dist, NodeSet()`parent, NodeSet()`visited
      ensures A == Adjacency() && D' == Dists() && P' == Parents() && V' == VisitedNodes() && Valid()
      ensures SearchInv(A, D', P', V', frontier', source, rank', count')
      ensures |NodeSet() - rank'.Keys| < |NodeSet() - rank.Keys|
        || (|NodeSet() - rank'.Keys| == |NodeSet() - rank.Keys| && |frontier'| < |frontier|)
    {
      ghost var u, rest;
      frontier', D', P', V', u, rest := Round(frontier, A, D, P, V);
      rank', count' := RoundStep(A, D, P, V, frontier, source, rank, count, u, rest, frontier', D', P', V');
      if rank' != rank {
        VisitShrinks(NodeSet(), rank.Keys, u);
      }
    }

    /**
     * The outer loop of dijkstra, `while (!unvisited.isEmpty())`, one call
     * per iteration: stop on an empty frontier, or else run one round and
     * go on with the frontier it leaves. Terminates because each round
     * either visits one more node or shrinks the frontier.
     */
    method Drain(source: Node, frontier: seq<Node>, ghost A: Adjacency, ghost D: map<Node, Dist>,
                 ghost P: map<Node, Node?>, ghost V: set<Node>, ghost rank: map<Node, nat>, ghost count: nat)
      returns (ghost D': map<Node, Dist>, ghost P': map<Node, Node?>, ghost V': set<Node>,
               ghost rank': map<Node, nat>, ghost count': nat)
      requires A == Adjacency() && D == Dists() && P == Parents() && V == VisitedNodes() && Valid()
      requires SearchInv(A, D, P, V, frontier, source, rank, count)
      modifies NodeSet()`dist, NodeSet()`parent, NodeSet()`visited
      ensures A == Adjacency() && D' == Dists() && P' == Parents() && V' == VisitedNodes()
      ensures SearchInv(A, D', P', V', [], source, rank', count')
      decreases |NodeSet() - rank.Keys|, |frontier|
    {
      if frontier == [] {
        return D, P, V, rank, count;
      }
      var next;
      ghost var D1, P1, V1, rank1, count1;
      next, D1, P1, V1, rank1, count1 := Step(source, frontier, A, D, P, V, rank, count);
      D', P', V', rank', count' := Drain(source, next, A, D1, P1, V1, rank1, count1);
    }

    /**
     * dijkstra(source) on a graph whose nodes are all in their initial
     * state: afterwards exactly the nodes reachable from source are
     * visited, and dists and parents describe shortest walks (see Settled).
     * Returns, as a ghost, the order in which nodes were visited.
     */
    method Dijkstra(source: Node) returns (ghost rank: map<Node, nat>)
      requires source in nodes && Valid()
      requires forall n :: n in nodes ==> n.dist == Inf && n.parent == null && !n.visited
      modifies NodeSet()`dist, NodeSet()`parent, NodeSet()`visited
      ensures Settled(Adjacency(), Dists(), Parents(), VisitedNodes(), source, rank)
    {
      var frontier, A, D, P, V, rank0, count0 := Start(source);
      ghost var D', P', V', count;
      D', P', V', rank, count := Drain(source, frontier, A, D, P, V, rank0, count0);
      FinishedIsSettled(A, D', P', V', [], source, rank, count);
    }

    /**
     * getShortestPath(fromNode, toNode, path): prepends to `path` the parent
     * chain that ends at toNode (see Chain). `rank` witnesses that parent
     * links are acyclic, as a dijkstra run leaves them.
     */
    method GetShortestPath(fromNode: Node, toNode: Node, path: PathList, ghost rank: map<Node, nat>)
      requires toNode in NodeSet() && Ranked(Parents(), rank)
      modifies path
      ensures path.items == Chain(Parents(), rank, fromNode, toNode) + old(path.items)
      decreases if toNode in rank then rank[toNode] else 0
    {
      if toNode.parent != null {
        assert toNode.parent == Parents()[toNode];
        path.AddFirst(toNode);
        GetShortestPath(fromNode, toNode.parent, path, rank);
      } else if toNode.CompareTo(fromNode) == 0 {
        path.AddFirst(toNode);
      }
    }
  }
}
