/** The fourth step of k-means: how far the free centroids moved during the
    pass, and the termination test built on it. */
module Convergence {
  import opened Pixels
  import opened Centroids

  /** Sum of the truncated distances between each of the first n centroids
      that is not fixed and its previous position. */
  function Movement(cs: seq<Point>, olds: seq<Point>, n: nat): nat
    requires n <= |cs| && n <= |olds|
  {
    if n == 0 then 0
    else Movement(cs, olds, n - 1) + (if cs[n - 1].fixed then 0 else Distance(cs[n - 1], olds[n - 1]))
  }

  /** Sum of the truncated distances of all the first n centroids, fixed or
      not. */
  function Displacement(cs: seq<Point>, olds: seq<Point>, n: nat): nat
    requires n <= |cs| && n <= |olds|
  {
    if n == 0 then 0
    else Displacement(cs, olds, n - 1) + Distance(cs[n - 1], olds[n - 1])
  }

  /** Lines 210-211: skipping the fixed centroids changes nothing, because a
      fixed centroid sits where its previous position was recorded. */
  lemma {:induction false} FixedCentroidsDoNotMove(cs: seq<Point>, olds: seq<Point>, n: nat)
    requires n <= |cs| && n <= |olds|
    requires forall i :: 0 <= i < n && cs[i].fixed ==> SameColour(cs[i], olds[i])
    ensures Movement(cs, olds, n) == Displacement(cs, olds, n)
  {
    if n > 0 {
      FixedCentroidsDoNotMove(cs, olds, n - 1);
      DistanceZeroIff(cs[n - 1], olds[n - 1]);
    }
  }

  /** No movement at all exactly when every free centroid is back where it
      was. */
  lemma {:induction false} MovementZeroIff(cs: seq<Point>, olds: seq<Point>, n: nat)
    requires n <= |cs| && n <= |olds|
    ensures Movement(cs, olds, n) == 0 <==> forall i :: 0 <= i < n && !cs[i].fixed ==> SameColour(cs[i], olds[i])
  {
    if n > 0 {
      MovementZeroIff(cs, olds, n - 1);
      DistanceZeroIff(cs[n - 1], olds[n - 1]);
    }
  }

  /** Lines 208-215: the gap is the movement of the free centroids divided by
      K with C's integer division; the loop of lines 110-219 goes on exactly
      when it exceeds 1, that is when the movement reaches 2 K. */
  method ComputeGap(centroids: array<Point>, centroidsOld: array<Point>) returns (gap: int)
    requires centroids.Length == K && centroidsOld.Length == K
    ensures gap == TruncDiv(Movement(centroids[..], centroidsOld[..], K), K)
    ensures gap >= 0
    ensures gap > 1 <==> Movement(centroids[..], centroidsOld[..], K) >= 2 * K
  {
    gap := 0;
    for i := 0 to K
      invariant gap == Movement(centroids[..], centroidsOld[..], i)
    {
      if centroids[i].fixed == false {
        gap := gap + Distance(centroids[i], centroidsOld[i]);
      }
    }
    TruncDivNonNegative(gap, K);
    gap := gap / K;
  }
}
