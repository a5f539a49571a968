# Street-map routing core in Dafny

This project models the routing engine of a small street-map program:
- `Graph.java`: the list of intersections; lookup by name; edge creation; Dijkstra's algorithm with a lazy-deletion priority queue; and the recursive reconstruction of a route from parent links.
- `Node.java`: the vertex it runs on, with its adjacency map, its per-run search state (`dist`, `parent`, `visited`), the running bounding box of all coordinates, and the `map` rescaling.

The model is stated and proved in four modules:

- `Nodes` (Nodes.dfy): the vertex as a class.
  - Name ordering is Java's `String.compareTo`.
  - The four static extrema are the fields of a `Bounds` object, which every node construction widens.
  - Distances are `Inf | Fin(real)`, modelling the Java double comparisons against `+Infinity`.
  - `map` is real-valued, including its division-by-zero outcomes.
- `ShortestPaths` (ShortestPaths.dfy): what a finished run means, over values.
  - It defines walks, their weights, reachability, and the parent chain that `getShortestPath` prepends.
  - `Settled` is the state a run leaves.
  - `RouteIsShortest`: the route to a visited node is a walk from the source whose weight is its `dist` and is no more than any other walk's. An unvisited node is unreachable and at infinity.
- `Search` (Search.dfy): the loop of `dijkstra` over values.
  - It defines one relaxation round and the invariant that holds each time the frontier is polled.
  - Lemmas prove that a skipped entry and a visit each keep the invariant, and that an empty frontier leaves the settled state.
- `Graphs` (Graph.dfy): the graph as a class over the node objects.
  - `SortNodes`, `FindNode` (a binary search) and `AddEdge` operate on it.
  - The outer loop of `dijkstra` is `Drain`. It runs one `Round` per call: poll, then skip or visit. `RelaxEdges` is the inner `for` loop over the adjacency map.
  - The ghost parameters and results of these methods are the search state as maps (`Adjacency`, `Dists`, `Parents`, `VisitedNodes`). This ties the heap to the lemmas of `Search`.
  - `Dijkstra` ends in `Settled`. `GetShortestPath` prepends exactly `Chain` to the caller's list.

About `Drain`: the outer `while` loop of `dijkstra` is written as a method that runs one round and then calls itself on the frontier that round leaves. Each call is one iteration of the loop. It terminates because each round either visits one more node or shrinks the frontier.

About edge weights: the haversine `computeDist` is a parameter of `AddAdj`/`AddEdge` of type `(Node, Node) -> Miles`, where `Miles` is the non-negative reals. That is the only property of it the algorithm relies on.

## Model

| member | source | states |
|---|---|---|
| Nodes.Plus | Graph.java:92 | `dist + weight` is finite exactly when dist is, and never below dist, since weights are non-negative |
| Nodes.Below | Graph.java:94 | the double comparison `newDist < v.dist()`: +infinity is below nothing, not even itself; a finite value is below +infinity; nothing is below itself |
| Nodes.AtMost | Graph.java:76-79 | `Double.compare(n1.dist(), n2.dist()) <= 0`: equal or strictly below, and total, so either a is at most b or b is below a |
| Nodes.CompareNames | Node.java:76-78 | `String.compareTo`: when one name is a prefix of the other, the result is the difference of their lengths |
| Nodes.CompareNamesFirstDifference | Node.java:76-78 | `String.compareTo`: at the first index where the names differ, the result is the difference of the two characters there |
| Nodes.CompareNamesZeroIff | Node.java:76-78 | `String.compareTo` is zero exactly for equal names |
| Nodes.CompareNamesAntisymmetric | Node.java:76-78 | `a.compareTo(b) == -b.compareTo(a)` |
| Nodes.CompareNamesTransitive | Node.java:76-78 | the name order is transitive, which sorting and binary search rely on |
| Nodes.Less | Node.java:47-49 | `lon < minLon` / `lat < minLat` on a coordinate that may be NaN: false for NaN, and never true together with `Greater` |
| Nodes.Greater | Node.java:48-50 | `lon > maxLon` / `lat > maxLat` on a coordinate that may be NaN: false for NaN |
| Nodes.Widen | Node.java:46-51 | the extent never shrinks. A non-NaN longitude/latitude ends up within the new `[min, max]`, and each bound either stays or becomes that coordinate. A NaN one changes nothing, because every comparison with NaN is false |
| Nodes.Bounds.constructor | Node.java:18-21 | the extrema start at 180, 0, 180, 0 |
| Nodes.Bounds.Observe | Node.java:46-51 | the four guarded updates yield exactly `Widen` of the old extent |
| Nodes.MapRange | Node.java:137-139 | finite exactly when `inMin != inMax`; maps `inMin` to `outMin` and `inMax` to `outMax`; an input inside `[inMin, inMax]` lands between `outMin` and `outMax`, both for an increasing output range and for a reversed one (`outMax <= outMin`, as in the screen mappings `computeX`/`computeY` of Node.java:96,106); otherwise NaN or a signed infinity |
| Nodes.MapRangeBetween | Node.java:138 | the arithmetic behind `MapRange`: both endpoint identities, and the bound of the rescaling expression for an increasing and for a reversed output range |
| Nodes.Node.constructor | Node.java:25-52 | a new node keeps its name and coordinates; it has an empty `adj`, `dist` +infinity, no parent and is unvisited; the shared extent becomes `Widen` of the old one |
| Nodes.Node.CompareTo | Node.java:76-78 | zero exactly for equal names, and the negation of the reverse comparison |
| Nodes.Node.AddAdj | Node.java:85-87 | `newNode` becomes a key with weight `computeDist(this, newNode)`, overwriting an earlier entry; every other key keeps its weight; the key set grows by `newNode` only |
| Nodes.Node.SetDist | Node.java:66 | sets `dist`, and only `dist` |
| Nodes.Node.SetParent | Node.java:67 | sets `parent`, and only `parent` |
| Nodes.Node.SetVisited | Node.java:68 | sets `visited`, and only `visited` |
| Nodes.AddAdjIdempotent | Node.java:85-87 | adding the same neighbour twice leaves the same map as adding it once |
| ShortestPaths.Chain | Graph.java:112-119 | the nodes `getShortestPath` prepends. The chain ends at `to`, and each node is the parent of the next. A parentless first node has from's name. A chain with a parentless root of another name drops that root. Ranks strictly increase along the chain |
| ShortestPaths.ChainIsSimple | Graph.java:112-119 | a route never repeats a node |
| ShortestPaths.DistIsLowerBound | Graph.java:74-102 | after a run, no walk from the source to a node weighs less than that node's dist |
| ShortestPaths.ChainFromSource | Graph.java:112-119 | after a run, the chain to a visited node is a walk that starts at the source and ends at the node, with weight equal to its dist |
| ShortestPaths.RouteIsShortest | Graph.java:67-119 | after a run, the route to a visited node is a shortest walk from the source and its weight is the node's dist. An unvisited node is unreachable, keeps dist +infinity, and (if its name differs from the source's) gets an empty route |
| ShortestPaths.RouteToSource | Graph.java:83-119 | the route from the source to itself is the source alone, at distance 0 |
| Search.Improves | Graph.java:94 | the same guard over the state maps: an improving edge leads to an unvisited neighbour other than u, u is finite and strictly closer; against an infinite dist it holds exactly when u is finite |
| Search.RelaxOnlyLowers | Graph.java:91-99 | a relaxation round never raises a dist, and leaves the dist and parent of every visited node unchanged |
| Search.InitialSearch | Graph.java:82-84 | after `source.setDist(0.0); unvisited.add(source)` on fresh nodes, the loop invariant holds |
| Search.SkipStep | Graph.java:87-88 | polling an already visited entry keeps the invariant over the smaller frontier |
| Search.PolledIsNearest | Graph.java:87 | the polled entry (least dist in the queue) is no farther than any unvisited node |
| Search.VisitKeepsShape | Graph.java:89-99 | after a visit: the maps keep their domains; the source keeps dist 0 and no parent; dists stay non-negative |
| Search.VisitKeepsRank | Graph.java:89 | the newly visited node gets the next rank |
| Search.VisitKeepsFrontier | Graph.java:91-99 | after a visit, every frontier entry has a finite dist, and every unvisited finite node is in the frontier |
| Search.VisitKeepsSettlingOrder | Graph.java:87-99 | after a visit, every visited node is still no farther than any unvisited one |
| Search.VisitKeepsEdgesRelaxed | Graph.java:91-99 | after a visit, no edge out of a visited node can lower its target's dist |
| Search.VisitKeepsOrder | Graph.java:87-99 | both order facts together |
| Search.VisitKeepsParents | Graph.java:94-96 | after a visit, each parent link is an edge from an earlier visited node, and it accounts for the whole dist. Only the source lacks a parent among finite nodes |
| Search.VisitKeepsReach | Graph.java:94-96 | after a visit, only nodes reachable from the source have a finite dist |
| Search.VisitStep | Graph.java:89-99 | a visit keeps the whole invariant |
| Search.RoundStep | Graph.java:87-99 | one round (skip or visit) keeps the invariant. It either leaves rank alone and shrinks the frontier, or ranks one more node |
| Search.FinishedIsSettled | Graph.java:87-100 | with an empty frontier, the invariant is the settled state. Exactly the reachable nodes are visited; unvisited nodes keep +infinity and no parent; no edge out of a visited node can be relaxed; parent links are edges that account for the dist |
| Graphs.InsertByName | Graph.java:40 | inserting into a name-sorted list gives a sorted permutation of the list plus the node |
| Graphs.SortByName | Graph.java:40 | `Collections.sort` by name gives a permutation of the list that is sorted by name |
| Graphs.BinarySearch | Graph.java:62 | `Collections.binarySearch` on any list: a non-negative result is an index holding the name, and a negative one is at least `-(|list|) - 1`. On a list sorted by name, it is non-negative exactly when the name occurs; otherwise it is `-(insertion point) - 1`, with smaller names before the insertion point and larger ones from it |
| Graphs.ArgMin | Graph.java:87 | the position of a queue entry of least current dist |
| Graphs.Poll | Graph.java:87 | `poll` removes one entry of least current dist and keeps the rest as a multiset |
| Graphs.PathList.AddFirst | Graph.java:114 | `addFirst` puts the node in front of the list |
| Graphs.Graph.constructor | Graph.java:19 | a new graph has no nodes |
| Graphs.Graph.AddNode | Graph.java:33 | the node is appended and every earlier entry stays in place; adjacency stays inside the graph if the new node's does |
| Graphs.Graph.SortNodes | Graph.java:40 | the list becomes a permutation of itself that is sorted by name; the node set is unchanged |
| Graphs.Graph.FindNode | Graph.java:61-65 | on any list, a node it returns is in the graph and has exactly that name. On a list sorted by name it finds every name present, so it fails exactly when no node has the name |
| Graphs.Graph.AddEdge | Graph.java:49-54 | succeeds only when both names are present, and on a list sorted by name always does then. Each found node then gets the other as a neighbour at the computed distance, and no other node's adjacency changes. A failed lookup changes nothing |
| Graphs.Graph.Lowers | Graph.java:94 | the guard `newDist < v.dist() && !v.visited()` over the heap: when it holds, v is an unvisited neighbour and u is finite and strictly closer than v was; against an infinite old dist it holds exactly when u is finite |
| Graphs.Graph.RelaxEdges | Graph.java:91-99 | the inner loop: each unvisited neighbour that gets strictly closer through u takes `dist(u) + weight` as its dist and u as its parent, and is pushed. Every other node keeps its dist and parent |
| Graphs.Graph.RelaxNeighbors | Graph.java:91-99 | the inner loop, stated over the state maps. The new dists and parents are `RelaxAll`/`ReparentAll`, and the pushed nodes are exactly the improved ones |
| Graphs.Graph.Visit | Graph.java:89-99 | marking the polled node visited and relaxing its edges is the `Visited` transition |
| Graphs.Graph.Round | Graph.java:87-99 | one poll: the entry of least dist is taken, and the round is either the `Skipped` or the `Visited` transition |
| Graphs.Graph.Start | Graph.java:82-84 | the source gets dist 0 and the frontier is exactly `[source]`; nothing is visited, every other node stays at +infinity, and the loop invariant holds |
| Graphs.Graph.Step | Graph.java:87-99 | one round keeps the invariant, and either visits one more node or shrinks the frontier |
| Graphs.Graph.Drain | Graph.java:86-100 | running rounds until the frontier is empty keeps the invariant |
| Graphs.Graph.Dijkstra | Graph.java:74-102 | after `dijkstra(source)`, dists, parents and visited marks are `Settled`. The source is at 0; exactly the reachable nodes are visited; unreachable ones keep +infinity and no parent; every parent link is an edge accounting for the dist; no edge can be relaxed further |
| Graphs.Graph.GetShortestPath | Graph.java:112-119 | prepends to the caller's list exactly the parent chain of `toNode` (see `Chain`) |

## Left out

- `StreetMap.java` is not part of this model: it is command-line parsing, file input, the Swing window, painting and console output.
- The haversine `computeDist` (Node.java:116-125) is trigonometric floating point. It is a parameter whose results are non-negative reals. Symmetry and zero self-distance are not assumed.
- `computeX`/`computeY` (Node.java:95-107) round a double to integer pixels for drawing, so the `x`/`y` fields are not modelled. Only the real-valued `map` is.
- The getters of Node.java:55-63 and `Graph.nodes()` (Graph.java:26) are plain field reads. The model reads the fields directly.
- Doubles are modelled as reals. Rounding is not modelled, and neither is overflow to infinity in a sum of distances. The infinities modelled are the initial +infinity of `dist` and the outcomes of `map` over an empty input range. NaN is modelled for coordinates.
- Graphs.Poll: `java.util.PriorityQueue` is idealised as removing an entry whose current `dist` is least. In Java, a `setDist` on a node already in the heap (Graph.java:95-97) is not followed by a re-heapify. So the real heap can poll in a different order; the model does not capture that.
- Graphs.Graph.RelaxEdges: the `HashMap` iteration order is left unspecified. The loop picks any remaining key, which covers every order.
- Graphs.SortByName and Graphs.Graph.SortNodes: the sort is stated as sorted plus permutation. The stability that `Collections.sort` promises among equal names is not stated.
- Graphs.Graph.FindNode: with assertions disabled, a missing name makes `nodes.get(i)` throw an `IndexOutOfBoundsException` at a negative index. The model returns `None` instead, and `AddEdge` returns `ok == false` with every node unchanged; in Java the exception propagates from the same state.
- Graphs.Graph.FindNode: finding a present name is promised only on a list sorted by name. `StreetMap.java` sorts the list only when it reads the first road record (StreetMap.java:131), yet calls `findNode` for `--directions` (StreetMap.java:69-70) whether or not a road was read. For an input holding only the intersections `C` then `A`, `findNode("A")` probes index 0, sees `"C".compareTo("A") > 0`, and returns -1. `nodes.get(-1)` then throws, although `A` is in the graph. The model computes the same search on an unsorted list (its found node is still correct), but the caller's missing sort is not modelled.
- Graphs.Graph.FindNode: the probe `new Node(name, NaN, NaN)` is not constructed. By `Nodes.Widen`, such a construction leaves the extent unchanged.
- Nodes.CompareNames: Java compares UTF-16 code units. The model compares Dafny characters, which differ only outside the Basic Multilingual Plane.
- Graphs.Graph.Dijkstra: requires `source` to be a node of the graph, every node's adjacency to stay among the graph's nodes (`Valid`), and every node to be in its initial state (`dist` +infinity, no parent, unvisited). Java checks none of these. A second run on used nodes, or a foreign source, is not modelled.
- Graphs.Graph.GetShortestPath: requires parent links ranked acyclically (`Ranked`), as a Dijkstra run leaves them. On a parent cycle the Java recursion would not terminate, and that case is not modelled.
- ShortestPaths.RouteIsShortest: the empty route for an unreachable node is stated only when its name differs from the source's. The parentless root is kept whenever the names are equal, as `compareTo` decides.
- Node identity: Java's `HashMap<Node, Double>` uses identity hashing, because `Node` does not override `equals`/`hashCode`. Dafny map keys on class references behave the same way, and no further modelling is done.
