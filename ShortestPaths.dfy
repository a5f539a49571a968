/**
 * The meaning of one run of Graph.dijkstra followed by getShortestPath,
 * stated over values: walks along adjacency entries, their weights,
 * reachability, the parent chain that getShortestPath follows, and the
 * state a finished run leaves behind.
 */
module ShortestPaths {
  import opened Nodes

  /** Each node's adjacency map, as held in its `adj` field. */
  type Adjacency = map<Node, map<Node, Miles>>

  /** A non-empty walk over map keys whose consecutive nodes are adjacency entries. */
  ghost predicate IsPath(A: Adjacency, p: seq<Node>)
  {
    && |p| > 0
    && (forall i :: 0 <= i < |p| ==> p[i] in A)
    && (forall i :: 0 <= i < |p| - 1 ==> p[i + 1] in A[p[i]])
  }

  lemma PrefixIsPath(A: Adjacency, p: seq<Node>, k: nat)
    requires IsPath(A, p) && 0 < k <= |p|
    ensures IsPath(A, p[..k])
  {
    var q := p[..k];
    forall i | 0 <= i < |q| - 1 ensures q[i + 1] in A[q[i]] {
      assert q[i] == p[i] && q[i + 1] == p[i + 1];
    }
  }

  lemma AppendIsPath(A: Adjacency, p: seq<Node>, v: Node)
    requires IsPath(A, p) && v in A && v in A[p[|p| - 1]]
    ensures IsPath(A, p + [v])
  {
    var q := p + [v];
    forall i | 0 <= i < |q| - 1 ensures q[i + 1] in A[q[i]] {
      if i < |p| - 1 {
        assert q[i] == p[i] && q[i + 1] == p[i + 1];
      }
    }
  }

  /** The sum of the edge weights along a walk. */
  ghost function PathWeight(A: Adjacency, p: seq<Node>): real
    requires IsPath(A, p)
    decreases |p|
  {
    if |p| == 1 then 0.0
    else
      PrefixIsPath(A, p, |p| - 1);
      PathWeight(A, p[..|p| - 1]) + A[p[|p| - 2]][p[|p| - 1]]
  }

  /** p is a walk from s to t. */
  ghost predicate WalkFromTo(A: Adjacency, older p: seq<Node>, s: Node, t: Node)
  {
    IsPath(A, p) && p[0] == s && p[|p| - 1] == t
  }

  ghost predicate Reachable(A: Adjacency, s: Node, t: Node)
  {
    exists p :: WalkFromTo(A, p, s, t)
  }

  /** Every map key's neighbours are map keys. */
  ghost predicate Closed(A: Adjacency)
  {
    forall u, v :: u in A && v in A[u] ==> v in A
  }

  lemma ReachableFromItself(A: Adjacency, s: Node)
    requires s in A
    ensures Reachable(A, s, s)
  {
    assert WalkFromTo(A, [s], s, s);
  }

  lemma ReachableStep(A: Adjacency, s: Node, u: Node, v: Node)
    requires Reachable(A, s, u) && v in A && v in A[u]
    ensures Reachable(A, s, v)
  {
    var p :| WalkFromTo(A, p, s, u);
    AppendIsPath(A, p, v);
    assert WalkFromTo(A, p + [v], s, v);
  }

  /** A set that is closed under adjacency and holds a walk's start holds its end. */
  lemma {:induction false} PathStaysInside(A: Adjacency, K: set<Node>, p: seq<Node>)
    requires IsPath(A, p) && p[0] in K
    requires forall x, y :: x in K && x in A && y in A[x] ==> y in K
    ensures p[|p| - 1] in K
  {
    if |p| > 1 {
      var q := p[..|p| - 1];
      PrefixIsPath(A, p, |p| - 1);
      PathStaysInside(A, K, q);
      assert p[|p| - 2] == q[|q| - 1];
    }
  }

  // ---------------------------------------------------------------------
  // Parent links and the chain getShortestPath prepends
  // ---------------------------------------------------------------------

  /**
   * Parent links point backwards in a ranking: every node with a parent,
   * and its parent, have a rank, and the parent's is smaller. This is what
   * makes parent chains acyclic and finite.
   */
  ghost predicate Ranked(P: map<Node, Node?>, rank: map<Node, nat>)
  {
    forall n {:trigger P[n]} :: n in P && P[n] != null ==>
      P[n] in P && n in rank && P[n] in rank && rank[P[n]] < rank[n]
  }

  /**
   * The nodes Graph.getShortestPath(from, to, path) adds to the front of
   * `path`, in order: the parent chain that ends at `to`, whose first node,
   * the one without a parent, is kept only if its name equals from's.
   */
  ghost function Chain(P: map<Node, Node?>, rank: map<Node, nat>, from: Node, to: Node): (c: seq<Node>)
    requires Ranked(P, rank) && to in P
    ensures forall i :: 0 <= i < |c| ==> c[i] in P
    ensures |c| > 0 ==> c[|c| - 1] == to
    ensures P[to] == null && to.name == from.name ==> c == [to]
    ensures P[to] == null && to.name != from.name ==> c == []
    ensures |c| > 0 && P[c[0]] == null ==> c[0].name == from.name
    ensures |c| > 0 && P[c[0]] != null ==>
              P[c[0]] in P && P[P[c[0]]] == null && P[c[0]].name != from.name
    ensures forall i :: 0 <= i < |c| - 1 ==> P[c[i + 1]] == c[i]
    ensures forall i :: 0 <= i < |c| && to in rank ==> c[i] in rank && rank[c[i]] <= rank[to]
    ensures forall i, j :: 0 <= i < j < |c| ==> c[i] in rank && c[j] in rank && rank[c[i]] < rank[c[j]]
    decreases if to in rank then rank[to] else 0
  {
    if P[to] != null then
      var p: Node := P[to];
      Chain(P, rank, from, p) + [to]
    else if to.CompareTo(from) == 0 then [to]
    else []
  }

  /** The nodes of a chain are pairwise distinct: a route never revisits a node. */
  lemma ChainIsSimple(P: map<Node, Node?>, rank: map<Node, nat>, from: Node, to: Node)
    requires Ranked(P, rank) && to in P
    ensures var c := Chain(P, rank, from, to);
      forall i, j :: 0 <= i < j < |c| ==> c[i] != c[j]
  {
    var c := Chain(P, rank, from, to);
    forall i, j | 0 <= i < j < |c| ensures c[i] != c[j] {
      assert rank[c[i]] < rank[c[j]];
    }
  }

  // ---------------------------------------------------------------------
  // The state a finished Dijkstra run leaves
  // ---------------------------------------------------------------------

  /**
   * The search state of every node once the frontier is empty, as maps
   * from node to field value: A (adj), D (dist), P (parent), V (the
   * visited nodes), with `rank` the order in which nodes were visited.
   */
  ghost predicate Settled(A: Adjacency, D: map<Node, Dist>, P: map<Node, Node?>, V: set<Node>,
                          source: Node, rank: map<Node, nat>)
  {
    && D.Keys == A.Keys && P.Keys == A.Keys && V <= A.Keys && Closed(A)
    && source in V && D[source] == Fin(0.0) && P[source] == null
    // every reachable node, and no other, is visited
    && (forall n {:trigger Reachable(A, source, n)} :: n in A ==> (n in V <==> Reachable(A, source, n)))
    // unvisited nodes keep their initial state
    && (forall n :: n in A && n !in V ==> D[n] == Inf)
    && (forall n {:trigger P[n]} :: n in A && n !in V ==> P[n] == null)
    // visited nodes have a finite distance; only the source has no parent
    && (forall n :: n in V ==> D[n].Fin?)
    && (forall n {:trigger P[n]} :: n in V && P[n] == null ==> n == source)
    // no edge out of a visited node can be relaxed any further
    && (forall u, v :: u in V && v in A[u] ==> AtMost(D[v], Plus(D[u], A[u][v])))
    // every parent link is an edge that accounts for the whole distance
    && (forall n {:trigger P[n]} :: n in P && P[n] != null ==>
          P[n] in V && n in A[P[n]] && D[n] == Plus(D[P[n]], A[P[n]][n]))
    && Ranked(P, rank) && rank.Keys == V
  }

  /** After a run, no walk from the source is shorter than the distance of its end. */
  lemma {:induction false} DistIsLowerBound(A: Adjacency, D: map<Node, Dist>, P: map<Node, Node?>,
                                            V: set<Node>, source: Node, rank: map<Node, nat>, p: seq<Node>)
    requires Settled(A, D, P, V, source, rank)
    requires IsPath(A, p) && p[0] == source
    ensures AtMost(D[p[|p| - 1]], Fin(PathWeight(A, p)))
  {
    if |p| > 1 {
      var q := p[..|p| - 1];
      PrefixIsPath(A, p, |p| - 1);
      DistIsLowerBound(A, D, P, V, source, rank, q);
      var x, y := p[|p| - 2], p[|p| - 1];
      assert x == q[|q| - 1];
      assert x in A && y in A[x];
      assert PathWeight(A, p) == PathWeight(A, q) + A[x][y];
      assert x in V;
      assert AtMost(D[y], Plus(D[x], A[x][y]));
    }
  }

  /** After a run, the chain to a visited node is a walk from the source of weight dist. */
  lemma {:induction false} ChainFromSource(A: Adjacency, D: map<Node, Dist>, P: map<Node, Node?>,
                                           V: set<Node>, source: Node, rank: map<Node, nat>, t: Node)
    requires Settled(A, D, P, V, source, rank) && t in V
    ensures var c := Chain(P, rank, source, t);
      && IsPath(A, c) && c[0] == source && c[|c| - 1] == t
      && D[t] == Fin(PathWeight(A, c))
    decreases rank[t]
  {
    var c := Chain(P, rank, source, t);
    if P[t] == null {
      assert t == source;
      assert c == [t];
    } else {
      var p: Node := P[t];
      ChainFromSource(A, D, P, V, source, rank, p);
      var cp := Chain(P, rank, source, p);
      assert c == cp + [t];
      assert c[..|c| - 1] == cp;
      AppendIsPath(A, cp, t);
      assert PathWeight(A, c) == PathWeight(A, cp) + A[p][t];
    }
  }

  /**
   * The route of getShortestPath after a run from `source`: for a visited
   * node, a walk from the source whose weight is the node's dist and is no
   * more than that of any other walk to it; for an unvisited one, no walk
   * exists, its dist is infinite, and (names being distinct) the route is empty.
   */
  lemma RouteIsShortest(A: Adjacency, D: map<Node, Dist>, P: map<Node, Node?>,
                        V: set<Node>, source: Node, rank: map<Node, nat>, t: Node)
    requires Settled(A, D, P, V, source, rank) && t in A
    ensures t in V ==>
      var c := Chain(P, rank, source, t);
      && IsPath(A, c) && c[0] == source && c[|c| - 1] == t
      && D[t] == Fin(PathWeight(A, c))
      && forall p :: IsPath(A, p) && p[0] == source && p[|p| - 1] == t ==>
           PathWeight(A, c) <= PathWeight(A, p)
    ensures t !in V ==> D[t] == Inf && !Reachable(A, source, t)
    ensures t !in V && t.name != source.name ==> Chain(P, rank, source, t) == []
  {
    if t in V {
      ChainFromSource(A, D, P, V, source, rank, t);
      forall p | IsPath(A, p) && p[0] == source && p[|p| - 1] == t
        ensures PathWeight(A, Chain(P, rank, source, t)) <= PathWeight(A, p)
      {
        DistIsLowerBound(A, D, P, V, source, rank, p);
      }
    }
  }

  /** The route from the source to itself is the source alone. */
  lemma RouteToSource(A: Adjacency, D: map<Node, Dist>, P: map<Node, Node?>,
                      V: set<Node>, source: Node, rank: map<Node, nat>)
    requires Settled(A, D, P, V, source, rank)
    ensures Chain(P, rank, source, source) == [source] && D[source] == Fin(0.0)
  {
  }
}
