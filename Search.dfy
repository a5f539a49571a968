/**
 * The loop of Graph.dijkstra over values: one relaxation round, the
 * invariant that holds each time the frontier is polled, and the proofs
 * that a skipped entry and a visit each keep it.
 */
module Search {
  import opened Nodes
  import opened ShortestPaths

  // ---------------------------------------------------------------------
  // One relaxation round: the inner loop of dijkstra
  // ---------------------------------------------------------------------

  /** Edge u -> n lowers n's distance, and n is not yet visited. */
  ghost function Improves(A: Adjacency, D: map<Node, Dist>, V: set<Node>, u: Node, n: Node): (r: bool)
    requires u in A && u in D && n in D
    ensures r ==> n in A[u] && n !in V && n != u && D[u].Fin? && Below(D[u], D[n])
    ensures D[n].Inf? && n in A[u] && n !in V ==> (r <==> D[u].Fin?)
  {
    n in A[u] && n !in V && Below(Plus(D[u], A[u][n]), D[n])
  }

  /** Every dist after relaxing all edges out of u. */
  ghost function RelaxAll(A: Adjacency, D: map<Node, Dist>, V: set<Node>, u: Node): map<Node, Dist>
    requires u in A && u in D
  {
    map n | n in D :: if Improves(A, D, V, u, n) then Plus(D[u], A[u][n]) else D[n]
  }

  /** Every parent after relaxing all edges out of u. */
  ghost function ReparentAll(A: Adjacency, D: map<Node, Dist>, P: map<Node, Node?>, V: set<Node>, u: Node)
    : map<Node, Node?>
    requires u in A && u in D
  {
    map n | n in P :: if n in D && Improves(A, D, V, u, n) then u else P[n]
  }

  /**
   * A relaxation round only ever lowers a distance, and leaves the dist and
   * parent of every visited node as they were.
   */
  lemma RelaxOnlyLowers(A: Adjacency, D: map<Node, Dist>, P: map<Node, Node?>, V: set<Node>, u: Node)
    requires u in A && u in D && P.Keys == D.Keys
    ensures var D', P' := RelaxAll(A, D, V, u), ReparentAll(A, D, P, V, u);
      && (forall n :: n in D ==> n in D' && AtMost(D'[n], D[n]))
      && (forall n :: n in V && n in D ==> D'[n] == D[n] && P'[n] == P[n])
  {
    var D' := RelaxAll(A, D, V, u);
    forall n | n in D ensures AtMost(D'[n], D[n]) {
      if Improves(A, D, V, u, n) {
        assert D'[n] == Plus(D[u], A[u][n]);
      }
    }
  }

  // ---------------------------------------------------------------------
  // The invariant of the outer loop, part by part
  // ---------------------------------------------------------------------

  /** Which maps are defined where; the source keeps dist 0 and no parent. */
  ghost predicate Shape(A: Adjacency, D: map<Node, Dist>, P: map<Node, Node?>, V: set<Node>, source: Node)
  {
    && D.Keys == A.Keys && P.Keys == A.Keys && V <= A.Keys && Closed(A)
    && source in A && D[source] == Fin(0.0) && P[source] == null
    && (forall n :: n in A && D[n].Fin? ==> 0.0 <= D[n].value)
  }

  /** Frontier entries have finite dist; an unvisited finite node is waiting in it. */
  ghost predicate FrontierOk(A: Adjacency, D: map<Node, Dist>, V: set<Node>, F: seq<Node>)
    requires D.Keys == A.Keys
  {
    && (forall i :: 0 <= i < |F| ==> F[i] in A && D[F[i]].Fin?)
    && (forall n :: n in A && n !in V && D[n].Fin? ==> n in F)
  }

  /** rank numbers the visited nodes below count. */
  ghost predicate RankOk(V: set<Node>, rank: map<Node, nat>, count: nat)
  {
    rank.Keys == V && forall n :: n in rank ==> rank[n] < count
  }

  /**
   * Parents were visited earlier and account for the whole distance; a node
   * without a parent other than the source is at +infinity.
   */
  ghost predicate ParentsOk(A: Adjacency, D: map<Node, Dist>, P: map<Node, Node?>, V: set<Node>,
                            source: Node, rank: map<Node, nat>)
    requires D.Keys == A.Keys && P.Keys == A.Keys && V <= A.Keys && rank.Keys == V
  {
    // the triggers keep a parent's facts from being applied on up the chain
    && (forall n :: n in V ==> D[n].Fin?)
    && (forall n {:trigger P[n]} :: n in V && P[n] == null ==> n == source)
    && (forall n {:trigger P[n]} :: n in A && n != source && P[n] == null ==> D[n] == Inf)
    && (forall n {:trigger P[n]} :: n in A && P[n] != null ==>
          P[n] in V && n in A[P[n]] && D[n] == Plus(D[P[n]], A[P[n]][n])
          && (n in V ==> rank[P[n]] < rank[n]))
  }

  /** Nodes are visited in order of distance, and visited nodes' edges are relaxed. */
  ghost predicate OrderOk(A: Adjacency, D: map<Node, Dist>, V: set<Node>)
    requires D.Keys == A.Keys && V <= A.Keys && Closed(A)
  {
    && (forall a, b :: a in V && b in A && b !in V ==> AtMost(D[a], D[b]))
    && (forall x, y :: x in V && y in A[x] ==> AtMost(D[y], Plus(D[x], A[x][y])))
  }

  /** Only nodes reachable from the source have a finite distance. */
  ghost predicate ReachOk(A: Adjacency, D: map<Node, Dist>, source: Node)
    requires D.Keys == A.Keys
  {
    forall n {:trigger Reachable(A, source, n)} :: n in A && D[n].Fin? ==> Reachable(A, source, n)
  }

  /**
   * What holds of the search state each time dijkstra is about to poll:
   * F is the frontier, V the visited nodes, rank the visiting order and
   * count the number of visits so far.
   */
  ghost predicate SearchInv(A: Adjacency, D: map<Node, Dist>, P: map<Node, Node?>, V: set<Node>,
                            F: seq<Node>, source: Node, rank: map<Node, nat>, count: nat)
  {
    && Shape(A, D, P, V, source)
    && FrontierOk(A, D, V, F)
    && RankOk(V, rank, count)
    && ParentsOk(A, D, P, V, source, rank)
    && OrderOk(A, D, V)
    && ReachOk(A, D, source)
  }

  /** The state right after `source.setDist(0.0); unvisited.add(source)`. */
  lemma InitialSearch(A: Adjacency, D: map<Node, Dist>, P: map<Node, Node?>, V: set<Node>, F: seq<Node>,
                      source: Node, rank: map<Node, nat>, count: nat)
    requires Closed(A) && source in A
    requires V == {} && F == [source] && rank == map[] && count == 0
    requires D.Keys == A.Keys && P.Keys == A.Keys
    requires D[source] == Fin(0.0) && forall n :: n in A && n != source ==> D[n] == Inf
    requires forall n :: n in P ==> P[n] == null
    ensures SearchInv(A, D, P, V, F, source, rank, count)
  {
    ReachableFromItself(A, source);
    forall n | n in A && D[n].Fin? ensures Reachable(A, source, n) {
      assert n == source;
    }
  }

  /** Polling an entry that is already visited only shrinks the frontier. */
  lemma SkipStep(A: Adjacency, D: map<Node, Dist>, P: map<Node, Node?>, V: set<Node>,
                 F: seq<Node>, source: Node, rank: map<Node, nat>, count: nat,
                 u: Node, rest: seq<Node>)
    requires SearchInv(A, D, P, V, F, source, rank, count)
    requires u in V && multiset(rest) + multiset{u} == multiset(F)
    ensures SearchInv(A, D, P, V, rest, source, rank, count)
  {
    forall i | 0 <= i < |rest| ensures rest[i] in A && D[rest[i]].Fin? {
      assert rest[i] in multiset(F);
    }
    forall n | n in A && n !in V && D[n].Fin? ensures n in rest {
      assert n in multiset(F);
    }
  }

  // ---------------------------------------------------------------------
  // One visit
  // ---------------------------------------------------------------------

  /**
   * The situation of one visit: u, an unvisited entry of least dist, has
   * been polled (leaving `rest`), marked visited, and its edges relaxed;
   * F' is the frontier afterwards: `rest` and the improved nodes.
   */
  ghost predicate VisitPre(A: Adjacency, D: map<Node, Dist>, P: map<Node, Node?>, V: set<Node>,
                           F: seq<Node>, source: Node, rank: map<Node, nat>, count: nat,
                           u: Node, rest: seq<Node>, F': seq<Node>)
  {
    && SearchInv(A, D, P, V, F, source, rank, count)
    && u in F && u !in V && (forall x :: x in F ==> AtMost(D[u], D[x]))
    && multiset(rest) + multiset{u} == multiset(F)
    && (forall x :: x in rest ==> x in F')
    && (forall x :: x in A && Improves(A, D, V + {u}, u, x) ==> x in F')
    && (forall i :: 0 <= i < |F'| ==> F'[i] in rest || (F'[i] in A && Improves(A, D, V + {u}, u, F'[i])))
  }

  lemma VisitKeepsShape(A: Adjacency, D: map<Node, Dist>, P: map<Node, Node?>, V: set<Node>,
                        F: seq<Node>, source: Node, rank: map<Node, nat>, count: nat,
                        u: Node, rest: seq<Node>, F': seq<Node>)
    requires VisitPre(A, D, P, V, F, source, rank, count, u, rest, F')
    ensures Shape(A, RelaxAll(A, D, V + {u}, u), ReparentAll(A, D, P, V + {u}, u), V + {u}, source)
  {
    var V' := V + {u};
    var D', P' := RelaxAll(A, D, V', u), ReparentAll(A, D, P, V', u);
    assert u in A;
    assert D[u].Fin? && 0.0 <= D[u].value;
    assert !Improves(A, D, V', u, source);
    assert D'[source] == D[source] && P'[source] == P[source];
    forall n | n in A && D'[n].Fin? ensures 0.0 <= D'[n].value {
      if Improves(A, D, V', u, n) {
        assert D'[n] == Plus(D[u], A[u][n]);
      } else {
        assert D'[n] == D[n];
      }
    }
  }

  lemma VisitKeepsRank(A: Adjacency, D: map<Node, Dist>, P: map<Node, Node?>, V: set<Node>,
                       F: seq<Node>, source: Node, rank: map<Node, nat>, count: nat,
                       u: Node, rest: seq<Node>, F': seq<Node>)
    requires VisitPre(A, D, P, V, F, source, rank, count, u, rest, F')
    ensures RankOk(V + {u}, rank[u := count], count + 1)
  {
  }

  lemma VisitKeepsFrontier(A: Adjacency, D: map<Node, Dist>, P: map<Node, Node?>, V: set<Node>,
                           F: seq<Node>, source: Node, rank: map<Node, nat>, count: nat,
                           u: Node, rest: seq<Node>, F': seq<Node>)
    requires VisitPre(A, D, P, V, F, source, rank, count, u, rest, F')
    ensures FrontierOk(A, RelaxAll(A, D, V + {u}, u), V + {u}, F')
  {
    var V' := V + {u};
    var D' := RelaxAll(A, D, V', u);
    RelaxOnlyLowers(A, D, P, V', u);
    forall i | 0 <= i < |F'| ensures F'[i] in A && D'[F'[i]].Fin? {
      if F'[i] in rest {
        assert F'[i] in multiset(F);
      }
    }
    forall n | n in A && n !in V' && D'[n].Fin? ensures n in F' {
      if !Improves(A, D, V', u, n) {
        assert n in multiset(F);
        assert n in multiset(rest);
      }
    }
  }

  /** The polled u is no farther than any node still unvisited. */
  lemma PolledIsNearest(A: Adjacency, D: map<Node, Dist>, P: map<Node, Node?>, V: set<Node>,
                        F: seq<Node>, source: Node, rank: map<Node, nat>, count: nat,
                        u: Node, rest: seq<Node>, F': seq<Node>)
    requires VisitPre(A, D, P, V, F, source, rank, count, u, rest, F')
    ensures forall b :: b in A && b !in V ==> AtMost(D[u], D[b])
  {
    forall b | b in A && b !in V ensures AtMost(D[u], D[b]) {
      if D[b].Fin? {
        assert b in F;
      }
    }
  }

  /** u, about to be visited, is an unvisited node of finite dist no farther than any other. */
  ghost predicate Nearest(A: Adjacency, D: map<Node, Dist>, V: set<Node>, u: Node)
    requires D.Keys == A.Keys
  {
    && u in A && u !in V && D[u].Fin?
    && forall b :: b in A && b !in V ==> AtMost(D[u], D[b])
  }

  /** Visiting the nearest node keeps every visited node no farther than any unvisited one. */
  lemma VisitKeepsSettlingOrder(A: Adjacency, D: map<Node, Dist>, P: map<Node, Node?>, V: set<Node>,
                                source: Node, u: Node)
    requires Shape(A, D, P, V, source) && OrderOk(A, D, V) && Nearest(A, D, V, u)
    ensures var D' := RelaxAll(A, D, V + {u}, u);
      forall a, b :: a in V + {u} && b in A && b !in V + {u} ==> AtMost(D'[a], D'[b])
  {
    var V' := V + {u};
    var D' := RelaxAll(A, D, V', u);
    RelaxOnlyLowers(A, D, P, V', u);
    forall b | b in A && b !in V' ensures AtMost(D[u], D'[b]) {
      if !Improves(A, D, V', u, b) {
        assert D'[b] == D[b];
      }
    }
    forall a, b | a in V' && b in A && b !in V' ensures AtMost(D'[a], D'[b]) {
      if a != u {
        assert AtMost(D[a], D[u]);
      }
    }
  }

  /** Visiting the nearest node and relaxing its edges leaves no visited node's edge relaxable. */
  lemma VisitKeepsEdgesRelaxed(A: Adjacency, D: map<Node, Dist>, P: map<Node, Node?>, V: set<Node>,
                               source: Node, u: Node)
    requires Shape(A, D, P, V, source) && OrderOk(A, D, V) && Nearest(A, D, V, u)
    ensures var D' := RelaxAll(A, D, V + {u}, u);
      forall x, y :: x in V + {u} && y in A[x] ==> AtMost(D'[y], Plus(D'[x], A[x][y]))
  {
    var V' := V + {u};
    var D' := RelaxAll(A, D, V', u);
    RelaxOnlyLowers(A, D, P, V', u);
    forall y | y in A[u] ensures AtMost(D'[y], Plus(D'[u], A[u][y])) {
      if Improves(A, D, V', u, y) {
        assert D'[y] == Plus(D[u], A[u][y]);
      } else if y in V {
        assert AtMost(D[y], D[u]) && D'[y] == D[y];
      } else {
        assert D'[y] == D[y];
      }
    }
    forall x, y | x in V && y in A[x] ensures AtMost(D'[y], Plus(D'[x], A[x][y])) {
      assert D'[x] == D[x] && AtMost(D'[y], D[y]);
    }
  }

  lemma VisitKeepsOrder(A: Adjacency, D: map<Node, Dist>, P: map<Node, Node?>, V: set<Node>,
                        source: Node, u: Node)
    requires Shape(A, D, P, V, source) && OrderOk(A, D, V) && Nearest(A, D, V, u)
    ensures OrderOk(A, RelaxAll(A, D, V + {u}, u), V + {u})
  {
    VisitKeepsSettlingOrder(A, D, P, V, source, u);
    VisitKeepsEdgesRelaxed(A, D, P, V, source, u);
  }

  lemma VisitKeepsParents(A: Adjacency, D: map<Node, Dist>, P: map<Node, Node?>, V: set<Node>,
                          source: Node, rank: map<Node, nat>, count: nat, u: Node)
    requires Shape(A, D, P, V, source) && RankOk(V, rank, count) && ParentsOk(A, D, P, V, source, rank)
    requires u in A && u !in V && D[u].Fin?
    ensures ParentsOk(A, RelaxAll(A, D, V + {u}, u), ReparentAll(A, D, P, V + {u}, u), V + {u},
                      source, rank[u := count])
  {
    var V' := V + {u};
    var D', P' := RelaxAll(A, D, V', u), ReparentAll(A, D, P, V', u);
    var rank' := rank[u := count];
    RelaxOnlyLowers(A, D, P, V', u);
    forall n | n in V' ensures D'[n].Fin? && (P'[n] == null ==> n == source) {
      assert D'[n] == D[n] && P'[n] == P[n];
    }
    forall n | n in A && n != source && P'[n] == null ensures D'[n] == Inf {
      assert !Improves(A, D, V', u, n);
    }
    forall n | n in A && P'[n] != null
      ensures P'[n] in V' && n in A[P'[n]] && D'[n] == Plus(D'[P'[n]], A[P'[n]][n])
    {
      if Improves(A, D, V', u, n) {
        assert P'[n] == u && D'[u] == D[u];
      } else {
        assert P'[n] == P[n] && D'[n] == D[n] && D'[P[n]] == D[P[n]];
      }
    }
    forall n | n in V' && P'[n] != null ensures rank'[P'[n]] < rank'[n] {
      if n == u {
        assert P'[n] == P[n] && P[n] in V;
      } else {
        assert P'[n] == P[n] && P[n] != u;
      }
    }
  }

  lemma VisitKeepsReach(A: Adjacency, D: map<Node, Dist>, P: map<Node, Node?>, V: set<Node>,
                        F: seq<Node>, source: Node, rank: map<Node, nat>, count: nat,
                        u: Node, rest: seq<Node>, F': seq<Node>)
    requires VisitPre(A, D, P, V, F, source, rank, count, u, rest, F')
    ensures ReachOk(A, RelaxAll(A, D, V + {u}, u), source)
  {
    var V' := V + {u};
    var D' := RelaxAll(A, D, V', u);
    forall n | n in A && D'[n].Fin? ensures Reachable(A, source, n) {
      if Improves(A, D, V', u, n) {
        ReachableStep(A, source, u, n);
      }
    }
  }

  /** One visit keeps the invariant. */
  lemma VisitStep(A: Adjacency, D: map<Node, Dist>, P: map<Node, Node?>, V: set<Node>,
                  F: seq<Node>, source: Node, rank: map<Node, nat>, count: nat,
                  u: Node, rest: seq<Node>, F': seq<Node>)
    requires VisitPre(A, D, P, V, F, source, rank, count, u, rest, F')
    ensures SearchInv(A, RelaxAll(A, D, V + {u}, u), ReparentAll(A, D, P, V + {u}, u), V + {u},
                      F', source, rank[u := count], count + 1)
  {
    VisitKeepsShape(A, D, P, V, F, source, rank, count, u, rest, F');
    VisitKeepsRank(A, D, P, V, F, source, rank, count, u, rest, F');
    VisitKeepsFrontier(A, D, P, V, F, source, rank, count, u, rest, F');
    assert u in A && D[u].Fin?;
    VisitKeepsParents(A, D, P, V, source, rank, count, u);
    PolledIsNearest(A, D, P, V, F, source, rank, count, u, rest, F');
    VisitKeepsOrder(A, D, P, V, source, u);
    VisitKeepsReach(A, D, P, V, F, source, rank, count, u, rest, F');
  }

  // ---------------------------------------------------------------------
  // One round of the outer loop
  // ---------------------------------------------------------------------

  /** u, an entry of least dist, was polled from F, leaving rest. */
  ghost predicate Polled(D: map<Node, Dist>, F: seq<Node>, u: Node, rest: seq<Node>)
  {
    && u in F && multiset(rest) + multiset{u} == multiset(F) && |rest| == |F| - 1
    && forall x :: x in F ==> x in D && u in D && AtMost(D[u], D[x])
  }

  /** The polled u was already visited: only the frontier changes. */
  ghost predicate Skipped(D: map<Node, Dist>, P: map<Node, Node?>, V: set<Node>, u: Node, rest: seq<Node>,
                          F': seq<Node>, D': map<Node, Dist>, P': map<Node, Node?>, V': set<Node>)
  {
    u in V && F' == rest && D' == D && P' == P && V' == V
  }

  /**
   * The polled u was unvisited: it is marked visited, its edges are
   * relaxed, and F' is rest plus the improved nodes.
   */
  ghost predicate Visited(A: Adjacency, D: map<Node, Dist>, P: map<Node, Node?>, V: set<Node>, u: Node,
                          rest: seq<Node>, F': seq<Node>, D': map<Node, Dist>, P': map<Node, Node?>, V': set<Node>)
  {
    && u !in V && u in A && u in D && D.Keys == A.Keys
    && V' == V + {u} && D' == RelaxAll(A, D, V', u) && P' == ReparentAll(A, D, P, V', u)
    && (forall x :: x in rest ==> x in F')
    && (forall x :: x in A && Improves(A, D, V', u, x) ==> x in F')
    && (forall i :: 0 <= i < |F'| ==> F'[i] in rest || (F'[i] in A && Improves(A, D, V', u, F'[i])))
  }

  /**
   * A whole round keeps the invariant; it either visits one more node
   * (rank grows by u) or leaves rank alone and shrinks the frontier.
   */
  lemma RoundStep(A: Adjacency, D: map<Node, Dist>, P: map<Node, Node?>, V: set<Node>,
                  F: seq<Node>, source: Node, rank: map<Node, nat>, count: nat, u: Node, rest: seq<Node>,
                  F': seq<Node>, D': map<Node, Dist>, P': map<Node, Node?>, V': set<Node>)
    returns (rank': map<Node, nat>, count': nat)
    requires SearchInv(A, D, P, V, F, source, rank, count) && Polled(D, F, u, rest)
    requires Skipped(D, P, V, u, rest, F', D', P', V') || Visited(A, D, P, V, u, rest, F', D', P', V')
    ensures SearchInv(A, D', P', V', F', source, rank', count')
    ensures (rank' == rank && |F'| < |F|) || (rank'.Keys == rank.Keys + {u} && u !in rank && u in A)
  {
    if Skipped(D, P, V, u, rest, F', D', P', V') {
      SkipStep(A, D, P, V, F, source, rank, count, u, rest);
      rank', count' := rank, count;
    } else {
      VisitStep(A, D, P, V, F, source, rank, count, u, rest, F');
      rank', count' := rank[u := count], count + 1;
    }
  }

  /** A visit of an unvisited node leaves one node fewer to visit. */
  lemma VisitShrinks(K: set<Node>, R: set<Node>, u: Node)
    requires u in K && u !in R
    ensures |K - (R + {u})| < |K - R|
  {
    assert K - R == (K - (R + {u})) + {u};
  }

  /** With an empty frontier the invariant is the settled state of a finished run. */
  lemma FinishedIsSettled(A: Adjacency, D: map<Node, Dist>, P: map<Node, Node?>, V: set<Node>,
                          F: seq<Node>, source: Node, rank: map<Node, nat>, count: nat)
    requires SearchInv(A, D, P, V, F, source, rank, count) && F == []
    ensures Settled(A, D, P, V, source, rank)
  {
    assert source in V by {
      assert D[source].Fin?;
    }
    forall n | n in A ensures n in V <==> Reachable(A, source, n) {
      if Reachable(A, source, n) {
        var p :| WalkFromTo(A, p, source, n);
        PathStaysInside(A, V, p);
      }
    }
  }
}
