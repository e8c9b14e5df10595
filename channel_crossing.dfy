/** Lines 177-179 add channel 0 of a pixel (blue) to the G sum, channel 1
    (green) to the B sum and channel 2 (red) to the R sum, while the
    assignment loop (lines 121-123) reads B from channel 0 and G from
    channel 1. The mean of a class therefore lands with its G and B
    components exchanged. This module shows the consequence on the program
    as written and proves the intended property of the corrected sums. */
module ChannelCrossing {
  import opened Pixels
  import opened Centroids
  import opened Accumulation

  /** n copies of p, componentwise. */
  function Scale(p: Point, n: nat): Point
  {
    Point(n * p.r, n * p.g, n * p.b, false)
  }

  /** Every pixel labelled c among the first j of the row has colour v. */
  predicate UniformInRow(srcRow: seq<Vec3b>, row: seq<byte>, c: int, j: nat, v: Vec3b)
    requires |srcRow| == |row| && j <= |row|
  {
    forall k :: 0 <= k < j && row[k] as int == c ==> srcRow[k] == v
  }

  /** Every pixel labelled c in the image has colour v. */
  predicate UniformClass(image: seq<seq<Vec3b>>, grid: seq<seq<byte>>, c: int, v: Vec3b)
    requires SameShape(image, grid)
  {
    forall i :: 0 <= i < |grid| ==> UniformInRow(image[i], grid[i], c, |grid[i]|, v)
  }

  lemma ScaleStep(p: Point, n: nat)
    ensures SameColour(Scale(p, n + 1), Plus(Scale(p, n), p))
  {
    assert (n + 1) * p.r == n * p.r + p.r;
    assert (n + 1) * p.g == n * p.g + p.g;
    assert (n + 1) * p.b == n * p.b + p.b;
  }

  lemma ScaleAdd(p: Point, m: nat, n: nat)
    ensures SameColour(Scale(p, m + n), Plus(Scale(p, m), Scale(p, n)))
  {
    assert (m + n) * p.r == m * p.r + n * p.r;
    assert (m + n) * p.g == m * p.g + n * p.g;
    assert (m + n) * p.b == m * p.b + n * p.b;
  }

  /** The pixels of one row labelled c, all of colour v, add up to their
      number times the contribution of v. */
  lemma {:induction false} UniformRowSum(srcRow: seq<Vec3b>, row: seq<byte>, c: int, j: nat, v: Vec3b)
    requires |srcRow| == |row| && j <= |row|
    requires UniformInRow(srcRow, row, c, j, v)
    ensures SameColour(SumInRow(srcRow, row, c, j), Scale(Contribution(v), CountInRow(row, c, j)))
  {
    if j > 0 {
      UniformRowSum(srcRow, row, c, j - 1, v);
      ScaleStep(Contribution(v), CountInRow(row, c, j - 1));
    }
  }

  /** The same over the first i rows. */
  lemma {:induction false} UniformSum(image: seq<seq<Vec3b>>, grid: seq<seq<byte>>, c: int, i: nat, v: Vec3b)
    requires SameShape(image, grid) && i <= |grid|
    requires UniformClass(image, grid, c, v)
    ensures SameColour(SumInRows(image, grid, c, i), Scale(Contribution(v), CountInRows(grid, c, i)))
  {
    if i > 0 {
      UniformSum(image, grid, c, i - 1, v);
      UniformRowSum(image[i - 1], grid[i - 1], c, |grid[i - 1]|, v);
      ScaleAdd(Contribution(v), CountInRows(grid, c, i - 1), CountInRow(grid[i - 1], c, |grid[i - 1]|));
    }
  }

  lemma MulDivCancel(x: nat, n: nat)
    requires n > 0
    ensures TruncDiv(n * x, n) == x
  {
    var q, k := (n * x) / n, (n * x) % n;
    assert n * x == q * n + k && 0 <= k < n;
    assert (x - q) * n == k;
    SmallMultiple(x - q, n);
  }

  /** The truncated mean of n copies of a point with non-negative components
      is that point. */
  lemma MeanOfScaled(p: Point, n: nat)
    requires n > 0 && InRange(p)
    ensures SameColour(ClassMean(Scale(p, n), n), p)
  {
    MulDivCancel(p.r, n);
    MulDivCancel(p.g, n);
    MulDivCancel(p.b, n);
  }

  /** As written: a non-empty class whose pixels all have colour v gets the
      centroid (R, G, B) = (red, blue, green) of v, not the colour of v. */
  lemma SwappedMeanOfUniformClass(image: seq<seq<Vec3b>>, grid: seq<seq<byte>>, c: int, v: Vec3b)
    requires SameShape(image, grid) && UniformClass(image, grid, c, v)
    requires CountInRows(grid, c, |grid|) > 0
    ensures SameColour(ClassMean(SumInRows(image, grid, c, |grid|), CountInRows(grid, c, |grid|)), Contribution(v))
  {
    var n := CountInRows(grid, c, |grid|);
    UniformSum(image, grid, c, |grid|, v);
    MeanOfScaled(Contribution(v), n);
  }

  /** As written, on a one-pixel image of colour (blue 10, green 20, red 30)
      labelled with the free class 3: the new centroid is not that colour,
      although the class holds nothing else. */
  lemma SwapMovesCentroidAway()
    ensures var v := Vec3b(10, 20, 30);
      var image, grid := [[v]], [[3 as byte]];
      CountInRows(grid, 3, 1) == 1 &&
      ClassMean(SumInRows(image, grid, 3, 1), 1) == Point(30, 10, 20, false) &&
      !SameColour(ClassMean(SumInRows(image, grid, 3, 1), 1), PixelPoint(v))
  {
    var v := Vec3b(10, 20, 30);
    var image, grid := [[v]], [[3 as byte]];
    assert CountInRow(grid[0], 3, 1) == 1;
    assert SumInRow(image[0], grid[0], 3, 1) == Point(30, 10, 20, false);
  }

  /** What a pixel should add to its class's sums: each channel to the
      component the assignment loop reads it into. */
  function CorrectedContribution(v: Vec3b): (p: Point)
    ensures SameColour(p, PixelPoint(v))
  {
    Point(v.red as int, v.green as int, v.blue as int, false)
  }

  /** The corrected sums of the pixels labelled c among the first j of a row. */
  function CorrectedSumInRow(srcRow: seq<Vec3b>, row: seq<byte>, c: int, j: nat): Point
    requires |srcRow| == |row| && j <= |row|
  {
    if j == 0 then Black
    else
      Plus(CorrectedSumInRow(srcRow, row, c, j - 1),
           if row[j - 1] as int == c then CorrectedContribution(srcRow[j - 1]) else Black)
  }

  /** The corrected sums of the pixels labelled c in the first i rows. */
  function CorrectedSumInRows(src: seq<seq<Vec3b>>, labels: seq<seq<byte>>, c: int, i: nat): Point
    requires SameShape(src, labels) && i <= |labels|
  {
    if i == 0 then Black
    else Plus(CorrectedSumInRows(src, labels, c, i - 1), CorrectedSumInRow(src[i - 1], labels[i - 1], c, |labels[i - 1]|))
  }

  /** The as-written sums with G and B exchanged back. */
  function Unswap(p: Point): Point
  {
    Point(p.r, p.b, p.g, false)
  }

  lemma {:induction false} CorrectedRowIsUnswapped(srcRow: seq<Vec3b>, row: seq<byte>, c: int, j: nat)
    requires |srcRow| == |row| && j <= |row|
    ensures SameColour(CorrectedSumInRow(srcRow, row, c, j), Unswap(SumInRow(srcRow, row, c, j)))
  {
    if j > 0 {
      CorrectedRowIsUnswapped(srcRow, row, c, j - 1);
    }
  }

  /** Corrected and as-written sums hold the same totals, with G and B
      exchanged. */
  lemma {:induction false} CorrectedIsUnswapped(image: seq<seq<Vec3b>>, grid: seq<seq<byte>>, c: int, i: nat)
    requires SameShape(image, grid) && i <= |grid|
    ensures SameColour(CorrectedSumInRows(image, grid, c, i), Unswap(SumInRows(image, grid, c, i)))
  {
    if i > 0 {
      CorrectedIsUnswapped(image, grid, c, i - 1);
      CorrectedRowIsUnswapped(image[i - 1], grid[i - 1], c, |grid[i - 1]|);
    }
  }

  /** Corrected: a non-empty class whose pixels all have colour v gets the
      centroid of colour v, the fixed point k-means is meant to reach. */
  lemma CorrectedMeanOfUniformClass(image: seq<seq<Vec3b>>, grid: seq<seq<byte>>, c: int, v: Vec3b)
    requires SameShape(image, grid) && UniformClass(image, grid, c, v)
    requires CountInRows(grid, c, |grid|) > 0
    ensures SameColour(ClassMean(CorrectedSumInRows(image, grid, c, |grid|), CountInRows(grid, c, |grid|)), PixelPoint(v))
  {
    var n := CountInRows(grid, c, |grid|);
    UniformSum(image, grid, c, |grid|, v);
    CorrectedIsUnswapped(image, grid, c, |grid|);
    assert SameColour(CorrectedSumInRows(image, grid, c, |grid|), Scale(CorrectedContribution(v), n));
    MeanOfScaled(CorrectedContribution(v), n);
  }
}
