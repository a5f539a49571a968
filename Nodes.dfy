/**
 * Model of Node.java: a named geographic vertex with an adjacency map and
 * the per-run search state (dist, parent, visited) used by Dijkstra's
 * algorithm in Graph.java.
 */
module Nodes {

  /** A non-negative distance in miles: the range of the haversine computeDist. */
  type Miles = r: real | r >= 0.0

  /** A coordinate in degrees as a Java double: NaN or a finite value. */
  datatype Coord = NaN | Deg(deg: real)

  /** A tentative distance: Double.POSITIVE_INFINITY or a finite value. */
  datatype Dist = Inf | Fin(value: real)

  /** The Java sum `d + w` of a distance and an edge weight. */
  function Plus(d: Dist, w: Miles): (r: Dist)
    ensures r.Fin? <==> d.Fin?
    ensures r.Fin? ==> d.value <= r.value
  {
    match d
    case Inf => Inf
    case Fin(x) => Fin(x + w)
  }

  /** The Java comparison `a < b` on doubles; +Infinity is not below itself. */
  function Below(a: Dist, b: Dist): (r: bool)
    ensures a.Inf? ==> !r
    ensures r ==> a != b
    ensures b.Inf? ==> (r <==> a.Fin?)
  {
    a.Fin? && (b.Inf? || a.value < b.value)
  }

  /** The Java comparison `a <= b` on doubles. */
  function AtMost(a: Dist, b: Dist): (r: bool)
    ensures r <==> a == b || Below(a, b)
    ensures r || Below(b, a)
  {
    b.Inf? || (a.Fin? && a.value <= b.value)
  }

  // ---------------------------------------------------------------------
  // Names: the ordering behind compareTo, sortNodes and findNode
  // ---------------------------------------------------------------------

  /**
   * Java's String.compareTo: the difference of the first pair of differing
   * characters, or else the difference of the lengths.
   */
  function CompareNames(a: string, b: string): (r: int)
    ensures (a <= b || b <= a) ==> r == |a| - |b|
  {
    if a == [] || b == [] then |a| - |b|
    else if a[0] != b[0] then a[0] as int - b[0] as int
    else CompareNames(a[1..], b[1..])
  }

  /** At the first index k where the names differ, compareTo is the difference of their characters. */
  lemma {:induction false} CompareNamesFirstDifference(a: string, b: string, k: nat)
    requires k < |a| && k < |b| && a[..k] == b[..k] && a[k] != b[k]
    ensures CompareNames(a, b) == a[k] as int - b[k] as int
  {
    if k > 0 {
      assert a[0] == a[..k][0] == b[..k][0] == b[0];
      assert a[1..][..k - 1] == a[..k][1..] == b[..k][1..] == b[1..][..k - 1];
      CompareNamesFirstDifference(a[1..], b[1..], k - 1);
    }
  }

  lemma {:induction false} CompareNamesZeroIff(a: string, b: string)
    ensures CompareNames(a, b) == 0 <==> a == b
  {
    if a != [] && b != [] && a[0] == b[0] {
      CompareNamesZeroIff(a[1..], b[1..]);
      assert a == [a[0]] + a[1..] && b == [b[0]] + b[1..];
    }
  }

  lemma {:induction false} CompareNamesAntisymmetric(a: string, b: string)
    ensures CompareNames(a, b) == -CompareNames(b, a)
  {
    if a != [] && b != [] && a[0] == b[0] {
      CompareNamesAntisymmetric(a[1..], b[1..]);
    }
  }

  lemma {:induction false} CompareNamesTransitive(a: string, b: string, c: string)
    requires CompareNames(a, b) <= 0 && CompareNames(b, c) <= 0
    ensures CompareNames(a, c) <= 0
  {
    if a != [] && b != [] && c != [] && a[0] == b[0] && b[0] == c[0] {
      CompareNamesTransitive(a[1..], b[1..], c[1..]);
    }
  }

  // ---------------------------------------------------------------------
  // The running bounding box (the static minLon/maxLon/minLat/maxLat)
  // ---------------------------------------------------------------------

  /** The four running extrema as one value. */
  datatype Extent = Extent(minLon: real, maxLon: real, minLat: real, maxLat: real)

  /** The Java comparison `c < x` for a coordinate that may be NaN. */
  function Less(c: Coord, x: real): (r: bool)
    ensures c.NaN? ==> !r
    ensures r ==> !Greater(c, x)
  {
    c.Deg? && c.deg < x
  }

  /** The Java comparison `c > x` for a coordinate that may be NaN. */
  function Greater(c: Coord, x: real): (r: bool)
    ensures c.NaN? ==> !r
  {
    c.Deg? && c.deg > x
  }

  /**
   * The extent after one node construction. The guard `lon != Double.NaN`
   * of the constructor is always true in Java (NaN is unequal to every
   * double, itself included), so the four comparisons alone decide; each of
   * them is false for a NaN coordinate.
   */
  function Widen(e: Extent, lat: Coord, lon: Coord): (r: Extent)
    ensures r.minLon <= e.minLon && r.maxLon >= e.maxLon
    ensures r.minLat <= e.minLat && r.maxLat >= e.maxLat
    ensures lon.Deg? ==> r.minLon <= lon.deg <= r.maxLon
    ensures lat.Deg? ==> r.minLat <= lat.deg <= r.maxLat
    ensures lon.Deg? ==> (r.minLon == e.minLon || r.minLon == lon.deg) && (r.maxLon == e.maxLon || r.maxLon == lon.deg)
    ensures lat.Deg? ==> (r.minLat == e.minLat || r.minLat == lat.deg) && (r.maxLat == e.maxLat || r.maxLat == lat.deg)
    ensures lon.NaN? ==> r.minLon == e.minLon && r.maxLon == e.maxLon
    ensures lat.NaN? ==> r.minLat == e.minLat && r.maxLat == e.maxLat
  {
    var minLon := if Less(lon, e.minLon) then lon.deg else e.minLon;
    var maxLon := if Greater(lon, e.maxLon) then lon.deg else e.maxLon;
    var minLat := if Less(lat, e.minLat) then lat.deg else e.minLat;
    var maxLat := if Greater(lat, e.maxLat) then lat.deg else e.maxLat;
    Extent(minLon, maxLon, minLat, maxLat)
  }

  /** The process-wide extrema of Node.java, held as the fields of an object. */
  class Bounds {
    var minLon: real
    var maxLon: real
    var minLat: real
    var maxLat: real

    ghost function Current(): Extent
      reads this
    {
      Extent(minLon, maxLon, minLat, maxLat)
    }

    /** The static initialisers: 180, 0, 180, 0. */
    constructor ()
      ensures Current() == Extent(180.0, 0.0, 180.0, 0.0)
    {
      minLon, maxLon, minLat, maxLat := 180.0, 0.0, 180.0, 0.0;
    }

    /** The extremum updates that every Node construction performs. */
    method Observe(lat: Coord, lon: Coord)
      modifies this
      ensures Current() == Widen(old(Current()), lat, lon)
    {
      if Less(lon, minLon) { minLon := lon.deg; }
      if Greater(lon, maxLon) { maxLon := lon.deg; }
      if Less(lat, minLat) { minLat := lat.deg; }
      if Greater(lat, maxLat) { maxLat := lat.deg; }
    }
  }

  // ---------------------------------------------------------------------
  // Screen mapping
  // ---------------------------------------------------------------------

  /** A double produced by the screen mapping: finite, infinite or NaN. */
  datatype Scaled = NotANumber | Infinity(positive: bool) | Finite(value: real)

  /**
   * Node.map: the linear rescaling of n from [inMin, inMax] onto
   * [outMin, outMax]. A degenerate input range divides by zero, which in
   * Java yields NaN (zero numerator) or an infinity of the numerator's sign.
   */
  function MapRange(n: real, inMin: real, inMax: real, outMin: real, outMax: real): (r: Scaled)
    ensures r.Finite? <==> inMin != inMax
    ensures inMin != inMax && n == inMin ==> r == Finite(outMin)
    ensures inMin != inMax && n == inMax ==> r == Finite(outMax)
    ensures inMin < inMax && outMin <= outMax && inMin <= n <= inMax ==>
              outMin <= r.value <= outMax
    ensures inMin < inMax && outMax <= outMin && inMin <= n <= inMax ==>
              outMax <= r.value <= outMin
  {
    var num := (n - inMin) * (outMax - outMin);
    if inMax != inMin then
      MapRangeBetween(n, inMin, inMax, outMin, outMax);
      Finite(num / (inMax - inMin) + outMin)
    else if num == 0.0 then NotANumber
    else Infinity(num > 0.0)
  }

  lemma MapRangeBetween(n: real, inMin: real, inMax: real, outMin: real, outMax: real)
    requires inMin != inMax
    ensures n == inMin ==> (n - inMin) * (outMax - outMin) / (inMax - inMin) + outMin == outMin
    ensures n == inMax ==> (n - inMin) * (outMax - outMin) / (inMax - inMin) + outMin == outMax
    ensures inMin < inMax && outMin <= outMax && inMin <= n <= inMax ==>
              outMin <= (n - inMin) * (outMax - outMin) / (inMax - inMin) + outMin <= outMax
    ensures inMin < inMax && outMax <= outMin && inMin <= n <= inMax ==>
              outMax <= (n - inMin) * (outMax - outMin) / (inMax - inMin) + outMin <= outMin
  {
    var d, a, k := inMax - inMin, n - inMin, outMax - outMin;
    if n == inMax {
      DivCancel(k, d);
      assert a * k == k * d;
    }
    if inMin < inMax && outMin <= outMax && inMin <= n <= inMax {
      ScaleForward(a, d, k);
    }
    if inMin < inMax && outMax <= outMin && inMin <= n <= inMax {
      ScaleReversed(a, d, k);
    }
  }

  /** With an increasing output range, the scaled offset lies between 0 and the span. */
  lemma ScaleForward(a: real, d: real, k: real)
    requires 0.0 <= a <= d && 0.0 < d && 0.0 <= k
    ensures 0.0 <= a * k / d <= k
  {
    MulNonNegative(a, k);
    MulNonNegative(d - a, k);
    DivMonotone(0.0, a * k, d);
    DivMonotone(a * k, k * d, d);
    DivCancel(k, d);
  }

  /** With a reversed output range, the scaled offset lies between the (negative) span and 0. */
  lemma ScaleReversed(a: real, d: real, k: real)
    requires 0.0 <= a <= d && 0.0 < d && k <= 0.0
    ensures k <= a * k / d <= 0.0
  {
    MulNonNegative(a, -k);
    MulNonNegative(d - a, -k);
    DivMonotone(a * k, 0.0, d);
    DivMonotone(k * d, a * k, d);
    DivCancel(k, d);
  }

  lemma DivCancel(x: real, d: real)
    requires d != 0.0
    ensures x * d / d == x
  {
    var q := x * d / d;
    assert q * d == x * d;
    assert (q - x) * d == 0.0;
  }

  lemma DivMonotone(x: real, y: real, d: real)
    requires x <= y && 0.0 < d
    ensures x / d <= y / d
  {
    assert (y - x) / d == y / d - x / d;
  }

  lemma MulNonNegative(x: real, y: real)
    requires 0.0 <= x && 0.0 <= y
    ensures 0.0 <= x * y
  {
  }

  // ---------------------------------------------------------------------
  // The vertex
  // ---------------------------------------------------------------------

  class Node {
    const name: string
    const lat: Coord
    const lon: Coord
    /** Neighbour to edge weight; keys are node identities, as in Java's HashMap. */
    var adj: map<Node, Miles>
    var dist: Dist
    var parent: Node?
    var visited: bool

    /** A fresh vertex; also widens the shared extent by its coordinates. */
    constructor (name: string, lat: Coord, lon: Coord, bounds: Bounds)
      modifies bounds
      ensures this.name == name && this.lat == lat && this.lon == lon
      ensures adj == map[] && dist == Inf && parent == null && !visited
      ensures bounds.Current() == Widen(old(bounds.Current()), lat, lon)
    {
      this.name := name;
      this.lat := lat;
      this.lon := lon;
      adj := map[];
      dist := Inf;
      parent := null;
      visited := false;
      new;
      bounds.Observe(lat, lon);
    }

    /** Ordering by name: zero exactly for equal names, and antisymmetric. */
    function CompareTo(n2: Node): (r: int)
      ensures r == 0 <==> name == n2.name
      ensures r == -CompareNames(n2.name, name)
    {
      CompareNamesZeroIff(name, n2.name);
      CompareNamesAntisymmetric(name, n2.name);
      CompareNames(name, n2.name)
    }

    /**
     * Records newNode as a neighbour at the distance computeDist gives;
     * an earlier entry for newNode is overwritten.
     */
    method AddAdj(newNode: Node, computeDist: (Node, Node) -> Miles)
      modifies this`adj
      ensures adj == old(adj)[newNode := computeDist(this, newNode)]
      ensures newNode in adj && adj[newNode] == computeDist(this, newNode)
      ensures forall k :: k in old(adj) && k != newNode ==> k in adj && adj[k] == old(adj)[k]
      ensures adj.Keys == old(adj).Keys + {newNode}
    {
      adj := adj[newNode := computeDist(this, newNode)];
    }

    method SetDist(d: Dist)
      modifies this`dist
      ensures dist == d
    {
      dist := d;
    }

    method SetParent(n: Node?)
      modifies this`parent
      ensures parent == n
    {
      parent := n;
    }

    method SetVisited(v: bool)
      modifies this`visited
      ensures visited == v
    {
      visited := v;
    }
  }

  /** Adding the same neighbour twice leaves the same map as adding it once. */
  lemma AddAdjIdempotent(adj: map<Node, Miles>, m: Node, w: Miles)
    ensures adj[m := w][m := w] == adj[m := w]
  {
  }
}
