/** The segmenter's configuration and the first step of the algorithm: every
    centroid gets random components, then the line, table and edge classes are
    pinned to known colours. */
module Centroids {
  import opened Pixels

  /** Number of clusters. */
  const K: nat := 4

  /** Class numbers of the pinned centroids. */
  const LineClass: nat := 0
  const TableClass: nat := 1
  const EdgeClass: nat := 2

  /** Pinned colours, each written {R, G, B}. */
  const CentroidLine: seq<int> := [192, 188, 158]
  const CentroidTable: seq<int> := [35, 43, 46]
  const CentroidEdge: seq<int> := [0, 0, 0]

  /** A centroid drawn by `initialize_centroid_with_rand`: three values of
      `rand() % 255` and the flag cleared. */
  predicate IsRandomPoint(p: Point)
  {
    0 <= p.r <= 254 && 0 <= p.g <= 254 && 0 <= p.b <= 254 && !p.fixed
  }

  /** The pinned centroid built from a {R, G, B} table. */
  function Pinned(values: seq<int>): (p: Point)
    requires |values| == 3
    ensures p.fixed
    ensures p.r == values[0] && p.g == values[1] && p.b == values[2]
  {
    Point(values[0], values[1], values[2], true)
  }

  /** `rand() % 255`. The pseudo-random generator, reseeded from the
      processor's time-stamp counter before every draw, is an oracle here:
      any value it can yield may come out. */
  method RandomComponent() returns (v: int)
    ensures 0 <= v <= 254
  {
    v :| 0 <= v <= 254;
  }

  /** `initialize_centroid_with_rand(&c[i])`. */
  method InitializeCentroidWithRand(c: array<Point>, i: nat)
    requires i < c.Length
    modifies c
    ensures IsRandomPoint(c[i])
    ensures forall n :: 0 <= n < c.Length && n != i ==> c[n] == old(c[n])
  {
    var r := RandomComponent();
    var g := RandomComponent();
    var b := RandomComponent();
    c[i] := Point(r, g, b, false);
  }

  /** `initialize_fixed_centroid_with_tab(&c[i], &cOld[i], values)`: the
      centroid takes the table's colour and is marked fixed; the previous
      centroid takes the same colour and keeps its own flag. */
  method InitializeFixedCentroidWithTab(c: array<Point>, cOld: array<Point>, i: nat, values: seq<int>)
    requires c != cOld
    requires i < c.Length && i < cOld.Length && |values| == 3
    modifies c, cOld
    ensures c[i] == Pinned(values)
    ensures cOld[i] == old(cOld[i]).(r := values[0], g := values[1], b := values[2])
    ensures SameColour(c[i], cOld[i])
    ensures forall n :: 0 <= n < c.Length && n != i ==> c[n] == old(c[n])
    ensures forall n :: 0 <= n < cOld.Length && n != i ==> cOld[n] == old(cOld[n])
  {
    c[i] := c[i].(r := values[0]);
    cOld[i] := cOld[i].(r := values[0]);
    c[i] := c[i].(g := values[1]);
    cOld[i] := cOld[i].(g := values[1]);
    c[i] := c[i].(b := values[2]);
    cOld[i] := cOld[i].(b := values[2]);
    c[i] := c[i].(fixed := true);
  }

  /** The state the algorithm keeps between passes: the three pinned
      centroids hold their configured colours in both arrays, the fourth is
      free, and every centroid is a colour. */
  predicate CentroidsValid(cs: seq<Point>, olds: seq<Point>)
  {
    |cs| == K && |olds| == K &&
    cs[LineClass] == Pinned(CentroidLine) &&
    cs[TableClass] == Pinned(CentroidTable) &&
    cs[EdgeClass] == Pinned(CentroidEdge) &&
    !cs[3].fixed &&
    (forall i :: 0 <= i < K && cs[i].fixed ==> SameColour(cs[i], olds[i])) &&
    (forall i :: 0 <= i < K ==> InRange(cs[i]))
  }

  /** The pinned centroids are the only fixed ones. */
  lemma {:induction false} FixedExactlyPinned(cs: seq<Point>, olds: seq<Point>, i: nat)
    requires CentroidsValid(cs, olds) && i < K
    ensures cs[i].fixed <==> i == LineClass || i == TableClass || i == EdgeClass
  {
    if i == 3 {
      assert !cs[3].fixed;
    }
  }

  /** Lines 86-106: the first step of k-means. Arrays the program leaves
      uninitialised start here as black, non-fixed points. */
  method InitializeCentroids() returns (centroids: array<Point>, centroidsOld: array<Point>)
    ensures fresh(centroids) && fresh(centroidsOld) && centroids != centroidsOld
    ensures centroids.Length == K && centroidsOld.Length == K
    ensures CentroidsValid(centroids[..], centroidsOld[..])
    ensures IsRandomPoint(centroids[3])
  {
    centroids := new Point[K](_ => Point(0, 0, 0, false));
    centroidsOld := new Point[K](_ => Point(0, 0, 0, false));
    for i := 0 to K
      invariant forall n :: 0 <= n < i ==> IsRandomPoint(centroids[n])
    {
      InitializeCentroidWithRand(centroids, i);
    }
    InitializeFixedCentroidWithTab(centroids, centroidsOld, LineClass, CentroidLine);
    InitializeFixedCentroidWithTab(centroids, centroidsOld, TableClass, CentroidTable);
    InitializeFixedCentroidWithTab(centroids, centroidsOld, EdgeClass, CentroidEdge);
  }
}
