/** The second step of k-means: every pixel is labelled with its nearest
    centroid, and the label grid is scaled for display. */
module Assignment {
  import opened Pixels
  import opened Centroids

  /** c is the label the assignment loop gives to p: no centroid is at a
      smaller truncated distance, and every centroid before c is strictly
      farther (on a tie the lowest index wins). */
  predicate IsNearest(p: Point, cs: seq<Point>, c: int)
  {
    0 <= c < |cs| &&
    (forall n {:trigger Distance(p, cs[n])} :: 0 <= n < |cs| ==> Distance(p, cs[c]) <= Distance(p, cs[n])) &&
    (forall n {:trigger Distance(p, cs[n])} :: 0 <= n < c ==> Distance(p, cs[c]) < Distance(p, cs[n]))
  }

  /** The label is determined by the pixel and the centroids. */
  lemma NearestUnique(p: Point, cs: seq<Point>, c1: int, c2: int)
    requires IsNearest(p, cs, c1) && IsNearest(p, cs, c2)
    ensures c1 == c2
  {
    assert Distance(p, cs[c1]) == Distance(p, cs[c2]);
  }

  /** A pixel at the same distance from two centroids goes to the lower one. */
  lemma TieGoesToLowerIndex(p: Point, cs: seq<Point>, c: int, m: int)
    requires IsNearest(p, cs, c) && 0 <= m < |cs|
    requires Distance(p, cs[m]) == Distance(p, cs[c])
    ensures c <= m
  {
  }

  /** Because distances are truncated before they are compared, a centroid
      strictly closer in colour space can lose to a lower-numbered one: from
      black, (2, 1, 0) and (2, 0, 0) are both at truncated distance 2, and
      the pixel takes label 0. */
  lemma TruncationHidesCloserCentroid()
    ensures var p, cs := Point(0, 0, 0, false), [Point(2, 1, 0, false), Point(2, 0, 0, false)];
      SqDist(p, cs[1]) < SqDist(p, cs[0]) && IsNearest(p, cs, 0)
  {
    var p, cs := Point(0, 0, 0, false), [Point(2, 1, 0, false), Point(2, 0, 0, false)];
    ISqrtUnique(SqDist(p, cs[0]), 2);
    ISqrtUnique(SqDist(p, cs[1]), 2);
  }

  /** Lines 127-137: the search for the closest centroid; the running best
      is replaced only by a strictly smaller distance. */
  method NearestCentroid(p: Point, centroids: array<Point>) returns (candidate: nat)
    requires centroids.Length == K
    ensures candidate < K
    ensures IsNearest(p, centroids[..], candidate)
  {
    var distMin := Distance(p, centroids[0]);
    candidate := 0;
    var n := 1;
    while n < K
      invariant 1 <= n <= K
      invariant candidate < n && distMin == Distance(p, centroids[candidate])
      invariant forall m :: 0 <= m < n ==> distMin <= Distance(p, centroids[m])
      invariant forall m :: 0 <= m < candidate ==> distMin < Distance(p, centroids[m])
    {
      var distCurrent := Distance(p, centroids[n]);
      if distCurrent < distMin {
        distMin := distCurrent;
        candidate := n;
      }
      n := n + 1;
    }
  }

  /** Every cell of the label grid holds the nearest centroid's index for
      the pixel of the image at the same place. */
  ghost predicate Assigned(src: array2<Vec3b>, cs: seq<Point>, labels: array2<byte>)
    reads src, labels
  {
    labels.Length0 == src.Length0 && labels.Length1 == src.Length1 &&
    forall i, j :: 0 <= i < labels.Length0 && 0 <= j < labels.Length1 ==>
      IsNearest(PixelPoint(src[i, j]), cs, labels[i, j] as int)
  }

  /** Lines 118-143: the assignment pass over the whole image. */
  method Assign(src: array2<Vec3b>, centroids: array<Point>, labels: array2<byte>)
    requires centroids.Length == K
    requires labels.Length0 == src.Length0 && labels.Length1 == src.Length1
    modifies labels
    ensures Assigned(src, centroids[..], labels)
    ensures forall i, j :: 0 <= i < labels.Length0 && 0 <= j < labels.Length1 ==> labels[i, j] as int < K
  {
    var i := 0;
    while i < src.Length0
      invariant 0 <= i <= src.Length0
      invariant forall i', j' :: 0 <= i' < i && 0 <= j' < src.Length1 ==>
        IsNearest(PixelPoint(src[i', j']), centroids[..], labels[i', j'] as int)
    {
      var j := 0;
      while j < src.Length1
        invariant 0 <= j <= src.Length1
        invariant forall i', j' :: 0 <= i' < i && 0 <= j' < src.Length1 ==>
          IsNearest(PixelPoint(src[i', j']), centroids[..], labels[i', j'] as int)
        invariant forall j' :: 0 <= j' < j ==>
          IsNearest(PixelPoint(src[i, j']), centroids[..], labels[i, j'] as int)
      {
        var candidate := NearestCentroid(PixelPoint(src[i, j]), centroids);
        labels[i, j] := candidate as byte;
        j := j + 1;
      }
      i := i + 1;
    }
  }

  /** Line 149: the label times 50, stored in an unsigned char. */
  function DisplayLevel(c: byte): (level: byte)
    ensures c as int * 50 < 256 ==> level as int == c as int * 50
  {
    ((c as int * 50) % 256) as byte
  }

  /** With K labels the scaling does not wrap, so different labels show as
      different grey levels. */
  lemma DisplayLevelsDistinct(l1: byte, l2: byte)
    requires l1 as int < K && l2 as int < K
    ensures DisplayLevel(l1) == DisplayLevel(l2) <==> l1 == l2
  {
  }

  /** Lines 147-151: the grid shown to the user after each assignment pass. */
  method DisplayScale(labels: array2<byte>, display: array2<byte>)
    requires labels != display
    requires display.Length0 == labels.Length0 && display.Length1 == labels.Length1
    modifies display
    ensures forall i, j :: 0 <= i < display.Length0 && 0 <= j < display.Length1 ==>
      display[i, j] == DisplayLevel(labels[i, j])
  {
    var i := 0;
    while i < labels.Length0
      invariant 0 <= i <= labels.Length0
      invariant forall i', j' :: 0 <= i' < i && 0 <= j' < labels.Length1 ==>
        display[i', j'] == DisplayLevel(labels[i', j'])
    {
      var j := 0;
      while j < labels.Length1
        invariant 0 <= j <= labels.Length1
        invariant forall i', j' :: 0 <= i' < i && 0 <= j' < labels.Length1 ==>
          display[i', j'] == DisplayLevel(labels[i', j'])
        invariant forall j' :: 0 <= j' < j ==> display[i, j'] == DisplayLevel(labels[i, j'])
      {
        display[i, j] := DisplayLevel(labels[i, j]);
        j := j + 1;
      }
      i := i + 1;
    }
  }
}
