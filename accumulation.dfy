/** The third step of k-means: per-class pixel counts and channel sums are
    gathered over the label grid, then every free centroid moves to the
    truncated mean of its class or, if the class is empty, is drawn again. */
module Accumulation {
  import opened Pixels
  import opened Centroids

  /** What one pixel adds to its class's sums, as lines 177-179 are written:
      G receives channel 0 (blue), B receives channel 1 (green), R receives
      channel 2 (red). */
  function Contribution(v: Vec3b): Point
  {
    Point(v.red as int, v.blue as int, v.green as int, false)
  }

  /** Componentwise sum; the flag of a sum is never read. */
  function Plus(p: Point, q: Point): Point
  {
    Point(p.r + q.r, p.g + q.g, p.b + q.b, false)
  }

  /** A pixel's contribution added to a running sum, one channel at a time
      as lines 177-179 do; the sum keeps its flag. */
  function AddContribution(s: Point, v: Vec3b): (t: Point)
    ensures SameColour(t, Plus(s, Contribution(v))) && t.fixed == s.fixed
  {
    s.(g := s.g + v.blue as int, b := s.b + v.green as int, r := s.r + v.red as int)
  }

  const Black: Point := Point(0, 0, 0, false)

  /** Every component lies between 0 and 255 times n. */
  predicate SumBounded(s: Point, n: int)
  {
    0 <= s.r <= 255 * n && 0 <= s.g <= 255 * n && 0 <= s.b <= 255 * n
  }

  /** The image and the label grid have the same rows and columns. */
  predicate SameShape(src: seq<seq<Vec3b>>, labels: seq<seq<byte>>)
  {
    |src| == |labels| && forall i :: 0 <= i < |labels| ==> |src[i]| == |labels[i]|
  }

  /** Number of pixels labelled c among the first j of a row. */
  function CountInRow(row: seq<byte>, c: int, j: nat): (n: nat)
    requires j <= |row|
    ensures n <= j
  {
    if j == 0 then 0
    else CountInRow(row, c, j - 1) + (if row[j - 1] as int == c then 1 else 0)
  }

  /** Number of pixels labelled c in the first i rows. */
  function CountInRows(labels: seq<seq<byte>>, c: int, i: nat): nat
    requires i <= |labels|
  {
    if i == 0 then 0
    else CountInRows(labels, c, i - 1) + CountInRow(labels[i - 1], c, |labels[i - 1]|)
  }

  /** Sum of the contributions of the pixels labelled c among the first j of
      a row; each component stays within 255 per counted pixel. */
  function SumInRow(srcRow: seq<Vec3b>, row: seq<byte>, c: int, j: nat): (s: Point)
    requires |srcRow| == |row| && j <= |row|
    ensures SumBounded(s, CountInRow(row, c, j))
  {
    if j == 0 then Black
    else
      Plus(SumInRow(srcRow, row, c, j - 1),
           if row[j - 1] as int == c then Contribution(srcRow[j - 1]) else Black)
  }

  /** Sum of the contributions of the pixels labelled c in the first i rows. */
  function SumInRows(src: seq<seq<Vec3b>>, labels: seq<seq<byte>>, c: int, i: nat): (s: Point)
    requires SameShape(src, labels) && i <= |labels|
    ensures SumBounded(s, CountInRows(labels, c, i))
  {
    if i == 0 then Black
    else Plus(SumInRows(src, labels, c, i - 1), SumInRow(src[i - 1], labels[i - 1], c, |labels[i - 1]|))
  }

  /** The first j labels of a row are class numbers. */
  predicate LabelsBelowK(row: seq<byte>, j: nat)
    requires j <= |row|
  {
    j == 0 || (LabelsBelowK(row, j - 1) && row[j - 1] as int < K)
  }

  lemma {:induction false} LabelsBelowKIff(row: seq<byte>, j: nat)
    requires j <= |row|
    ensures LabelsBelowK(row, j) <==> forall j' :: 0 <= j' < j ==> row[j'] as int < K
  {
    if j > 0 {
      LabelsBelowKIff(row, j - 1);
    }
  }

  /** The labels of the first i rows are class numbers. */
  predicate RowsBelowK(grid: seq<seq<byte>>, i: nat)
    requires i <= |grid|
  {
    i == 0 || (RowsBelowK(grid, i - 1) && LabelsBelowK(grid[i - 1], |grid[i - 1]|))
  }

  lemma {:induction false} RowsBelowKIff(grid: seq<seq<byte>>, i: nat)
    requires i <= |grid|
    ensures RowsBelowK(grid, i) <==> forall i', j' :: 0 <= i' < i && 0 <= j' < |grid[i']| ==> grid[i'][j'] as int < K
  {
    if i > 0 {
      RowsBelowKIff(grid, i - 1);
      LabelsBelowKIff(grid[i - 1], |grid[i - 1]|);
    }
  }

  /** The counters after the first j pixels of a row have been counted,
      starting from `start`, one pixel at a time as line 176 does. */
  function CountsAfter(row: seq<byte>, j: nat, start: seq<int>): (counts: seq<int>)
    requires j <= |row| && |start| == K && LabelsBelowK(row, j)
    ensures |counts| == K
  {
    if j == 0 then start
    else
      var prev := CountsAfter(row, j - 1, start);
      var l := row[j - 1] as int;
      prev[l := prev[l] + 1]
  }

  /** The channel sums after the first j pixels of a row have been added,
      starting from `start`, as lines 177-179 do. */
  function SumsAfter(srcRow: seq<Vec3b>, row: seq<byte>, j: nat, start: seq<Point>): (sums: seq<Point>)
    requires |srcRow| == |row| && j <= |row| && |start| == K && LabelsBelowK(row, j)
    ensures |sums| == K
  {
    if j == 0 then start
    else
      var prev := SumsAfter(srcRow, row, j - 1, start);
      var l := row[j - 1] as int;
      prev[l := AddContribution(prev[l], srcRow[j - 1])]
  }

  /** The counters after the first i rows. */
  function CountsAfterRows(grid: seq<seq<byte>>, i: nat, start: seq<int>): (counts: seq<int>)
    requires i <= |grid| && |start| == K && RowsBelowK(grid, i)
    ensures |counts| == K
  {
    if i == 0 then start
    else CountsAfter(grid[i - 1], |grid[i - 1]|, CountsAfterRows(grid, i - 1, start))
  }

  /** The channel sums after the first i rows. */
  function SumsAfterRows(image: seq<seq<Vec3b>>, grid: seq<seq<byte>>, i: nat, start: seq<Point>): (sums: seq<Point>)
    requires SameShape(image, grid) && i <= |grid| && |start| == K && RowsBelowK(grid, i)
    ensures |sums| == K
  {
    if i == 0 then start
    else SumsAfter(image[i - 1], grid[i - 1], |grid[i - 1]|, SumsAfterRows(image, grid, i - 1, start))
  }

  /** Counting a row pixel by pixel adds, to every class, the number of its
      pixels in the row. */
  lemma {:induction false} CountsAfterMeaning(row: seq<byte>, j: nat, start: seq<int>, c: nat)
    requires j <= |row| && |start| == K && LabelsBelowK(row, j) && c < K
    ensures CountsAfter(row, j, start)[c] == start[c] + CountInRow(row, c, j)
  {
    if j > 0 {
      CountsAfterMeaning(row, j - 1, start, c);
    }
  }

  /** Summing a row pixel by pixel adds, to every class, the contributions of
      its pixels in the row, and leaves every flag as it was. */
  lemma {:induction false} SumsAfterMeaning(srcRow: seq<Vec3b>, row: seq<byte>, j: nat, start: seq<Point>, c: nat)
    requires |srcRow| == |row| && j <= |row| && |start| == K && LabelsBelowK(row, j) && c < K
    ensures SameColour(SumsAfter(srcRow, row, j, start)[c], Plus(start[c], SumInRow(srcRow, row, c, j)))
    ensures SumsAfter(srcRow, row, j, start)[c].fixed == start[c].fixed
  {
    if j > 0 {
      SumsAfterMeaning(srcRow, row, j - 1, start, c);
    }
  }

  lemma {:induction false} CountsAfterRowsMeaning(grid: seq<seq<byte>>, i: nat, start: seq<int>, c: nat)
    requires i <= |grid| && |start| == K && RowsBelowK(grid, i) && c < K
    ensures CountsAfterRows(grid, i, start)[c] == start[c] + CountInRows(grid, c, i)
  {
    if i > 0 {
      CountsAfterRowsMeaning(grid, i - 1, start, c);
      CountsAfterMeaning(grid[i - 1], |grid[i - 1]|, CountsAfterRows(grid, i - 1, start), c);
    }
  }

  lemma {:induction false} SumsAfterRowsMeaning(image: seq<seq<Vec3b>>, grid: seq<seq<byte>>, i: nat, start: seq<Point>, c: nat)
    requires SameShape(image, grid) && i <= |grid| && |start| == K && RowsBelowK(grid, i) && c < K
    ensures SameColour(SumsAfterRows(image, grid, i, start)[c], Plus(start[c], SumInRows(image, grid, c, i)))
    ensures SumsAfterRows(image, grid, i, start)[c].fixed == start[c].fixed
  {
    if i > 0 {
      SumsAfterRowsMeaning(image, grid, i - 1, start, c);
      SumsAfterMeaning(image[i - 1], grid[i - 1], |grid[i - 1]|, SumsAfterRows(image, grid, i - 1, start), c);
    }
  }

  /** Sum of a sequence of counters. */
  function Total(s: seq<int>): int
  {
    if s == [] then 0 else Total(s[..|s| - 1]) + s[|s| - 1]
  }

  /** Changing one counter changes the total by the same amount. */
  lemma {:induction false} TotalUpdate(s: seq<int>, k: nat, v: int)
    requires k < |s|
    ensures Total(s[k := v]) == Total(s) - s[k] + v
  {
    var t := s[k := v];
    if k == |s| - 1 {
      assert t[..|t| - 1] == s[..|s| - 1];
    } else {
      TotalUpdate(s[..|s| - 1], k, v);
      assert t[..|t| - 1] == s[..|s| - 1][k := v];
    }
  }

  lemma {:induction false} TotalZero(s: seq<int>)
    requires forall k :: 0 <= k < |s| ==> s[k] == 0
    ensures Total(s) == 0
  {
    if s != [] {
      TotalZero(s[..|s| - 1]);
    }
  }

  /** Every pixel of a row is counted once. */
  lemma {:induction false} TotalAfter(row: seq<byte>, j: nat, start: seq<int>)
    requires j <= |row| && |start| == K && LabelsBelowK(row, j)
    ensures Total(CountsAfter(row, j, start)) == Total(start) + j
  {
    if j > 0 {
      TotalAfter(row, j - 1, start);
      var prev := CountsAfter(row, j - 1, start);
      TotalUpdate(prev, row[j - 1] as int, prev[row[j - 1]] + 1);
    }
  }

  /** Every pixel of a grid with `cols` columns is counted once. */
  lemma {:induction false} TotalAfterRows(grid: seq<seq<byte>>, i: nat, start: seq<int>, cols: nat)
    requires i <= |grid| && |start| == K && RowsBelowK(grid, i)
    requires forall i' :: 0 <= i' < |grid| ==> |grid[i']| == cols
    ensures Total(CountsAfterRows(grid, i, start)) == Total(start) + i * cols
  {
    if i > 0 {
      TotalAfterRows(grid, i - 1, start, cols);
      TotalAfter(grid[i - 1], |grid[i - 1]|, CountsAfterRows(grid, i - 1, start));
      assert (i - 1) * cols + cols == i * cols;
    }
  }

  /** Lines 160-165: zero every counter and every channel sum. */
  method ResetCounters(counts: array<int>, sums: array<Point>)
    requires counts.Length == K && sums.Length == K
    modifies counts, sums
    ensures forall c :: 0 <= c < K ==> counts[c] == 0 && SameColour(sums[c], Black)
    ensures forall c :: 0 <= c < K ==> sums[c].fixed == old(sums[c].fixed)
  {
    for c := 0 to K
      invariant forall c' :: 0 <= c' < c ==> counts[c'] == 0 && SameColour(sums[c'], Black)
      invariant forall c' :: 0 <= c' < K ==> sums[c'].fixed == old(sums[c'].fixed)
    {
      counts[c] := 0;
      sums[c] := sums[c].(b := 0, g := 0, r := 0);
    }
  }

  /** Lines 176-179: count pixel v in class l and add its contribution to
      the class's sums. */
  method AddPixel(counts: array<int>, sums: array<Point>, l: nat, v: Vec3b)
    requires counts.Length == K && sums.Length == K && l < K
    modifies counts, sums
    ensures counts[..] == old(counts[..])[l := old(counts[l]) + 1]
    ensures sums[..] == old(sums[..])[l := AddContribution(old(sums[l]), v)]
  {
    counts[l] := counts[l] + 1;
    sums[l] := sums[l].(g := sums[l].g + v.blue as int);
    sums[l] := sums[l].(b := sums[l].b + v.green as int);
    sums[l] := sums[l].(r := sums[l].r + v.red as int);
  }

  /** Lines 170-180 for one row i, whose labels and pixels are `row` and
      `srcRow`: add its pixels to their classes. A label outside [0, K)
      aborts the program. */
  method AccumulateRow(src: array2<Vec3b>, labels: array2<byte>, counts: array<int>, sums: array<Point>, i: nat,
                       ghost srcRow: seq<Vec3b>, ghost row: seq<byte>)
    returns (aborted: bool)
    requires labels.Length0 == src.Length0 && labels.Length1 == src.Length1 && i < labels.Length0
    requires counts.Length == K && sums.Length == K
    requires |row| == labels.Length1 && |srcRow| == labels.Length1
    requires forall j :: 0 <= j < labels.Length1 ==> row[j] == labels[i, j] && srcRow[j] == src[i, j]
    modifies counts, sums
    ensures aborted <==> exists j :: 0 <= j < labels.Length1 && labels[i, j] as int >= K
    ensures forall c :: 0 <= c < K ==> sums[c].fixed == old(sums[c].fixed)
    ensures !aborted ==> LabelsBelowK(row, |row|)
    ensures !aborted ==> counts[..] == CountsAfter(row, |row|, old(counts[..]))
    ensures !aborted ==> sums[..] == SumsAfter(srcRow, row, |row|, old(sums[..]))
  {
    var j := 0;
    while j < labels.Length1
      invariant 0 <= j <= labels.Length1
      invariant LabelsBelowK(row, j)
      invariant counts[..] == CountsAfter(row, j, old(counts[..]))
      invariant sums[..] == SumsAfter(srcRow, row, j, old(sums[..]))
      invariant forall c :: 0 <= c < K ==> sums[c].fixed == old(sums[c].fixed)
    {
      var classNumber := labels[i, j] as int;
      if classNumber < 0 || classNumber >= K {
        return true;
      }
      assert LabelsBelowK(row, j + 1);
      AddPixel(counts, sums, classNumber, src[i, j]);
      j := j + 1;
    }
    LabelsBelowKIff(row, |row|);
    return false;
  }

  /** What the accumulation loop leaves behind, from zeroed counters, on a
      grid whose labels are all class numbers: every class's count and sums
      are those of its pixels, each sum stays within 255 per pixel, and the
      counts add up to the number of pixels. */
  lemma Accumulated(image: seq<seq<Vec3b>>, grid: seq<seq<byte>>, counts0: seq<int>, sums0: seq<Point>, cols: nat)
    requires SameShape(image, grid) && |counts0| == K && |sums0| == K
    requires forall i :: 0 <= i < |grid| ==> |grid[i]| == cols
    requires RowsBelowK(grid, |grid|)
    requires forall c :: 0 <= c < K ==> counts0[c] == 0 && SameColour(sums0[c], Black)
    ensures forall i, j :: 0 <= i < |grid| && 0 <= j < cols ==> grid[i][j] as int < K
    ensures forall c :: 0 <= c < K ==>
      CountsAfterRows(grid, |grid|, counts0)[c] == CountInRows(grid, c, |grid|) &&
      SameColour(SumsAfterRows(image, grid, |grid|, sums0)[c], SumInRows(image, grid, c, |grid|)) &&
      SumBounded(SumsAfterRows(image, grid, |grid|, sums0)[c], CountsAfterRows(grid, |grid|, counts0)[c])
    ensures Total(CountsAfterRows(grid, |grid|, counts0)) == |grid| * cols
  {
    RowsBelowKIff(grid, |grid|);
    TotalZero(counts0);
    TotalAfterRows(grid, |grid|, counts0, cols);
    forall c | 0 <= c < K
      ensures CountsAfterRows(grid, |grid|, counts0)[c] == CountInRows(grid, c, |grid|)
      ensures SameColour(SumsAfterRows(image, grid, |grid|, sums0)[c], SumInRows(image, grid, c, |grid|))
    {
      CountsAfterRowsMeaning(grid, |grid|, counts0, c);
      SumsAfterRowsMeaning(image, grid, |grid|, sums0, c);
    }
  }

  /** Lines 169-181: add every pixel to its class, row by row, starting
      from the counters as they are. The grid's labels and pixels are
      `grid` and `image`. */
  method AccumulateRows(src: array2<Vec3b>, labels: array2<byte>, counts: array<int>, sums: array<Point>,
                        ghost image: seq<seq<Vec3b>>, ghost grid: seq<seq<byte>>)
    returns (aborted: bool)
    requires labels.Length0 == src.Length0 && labels.Length1 == src.Length1
    requires counts.Length == K && sums.Length == K
    requires |grid| == labels.Length0 && |image| == labels.Length0
    requires forall i :: 0 <= i < labels.Length0 ==> |grid[i]| == labels.Length1 && |image[i]| == labels.Length1
    requires forall i, j :: 0 <= i < labels.Length0 && 0 <= j < labels.Length1 ==>
      grid[i][j] == labels[i, j] && image[i][j] == src[i, j]
    modifies counts, sums
    ensures aborted <==> exists i, j :: 0 <= i < labels.Length0 && 0 <= j < labels.Length1 && labels[i, j] as int >= K
    ensures forall c :: 0 <= c < K ==> sums[c].fixed == old(sums[c].fixed)
    ensures SameShape(image, grid)
    ensures !aborted ==> RowsBelowK(grid, |grid|)
    ensures !aborted ==> counts[..] == CountsAfterRows(grid, |grid|, old(counts[..]))
    ensures !aborted ==> sums[..] == SumsAfterRows(image, grid, |grid|, old(sums[..]))
  {
    var i := 0;
    while i < labels.Length0
      invariant 0 <= i <= labels.Length0
      invariant RowsBelowK(grid, i)
      invariant counts[..] == CountsAfterRows(grid, i, old(counts[..]))
      invariant sums[..] == SumsAfterRows(image, grid, i, old(sums[..]))
      invariant forall c :: 0 <= c < K ==> sums[c].fixed == old(sums[c].fixed)
    {
      aborted := AccumulateRow(src, labels, counts, sums, i, image[i], grid[i]);
      if aborted {
        return;
      }
      i := i + 1;
    }
    RowsBelowKIff(grid, |grid|);
    return false;
  }

  /** Lines 160-181: the counters cover the whole grid, whose labels and
      pixels are `grid` and `image`; the class counts add up to the number
      of pixels, and the abort guard fires exactly when some label is
      outside [0, K). */
  method Accumulate(src: array2<Vec3b>, labels: array2<byte>, counts: array<int>, sums: array<Point>,
                    ghost image: seq<seq<Vec3b>>, ghost grid: seq<seq<byte>>)
    returns (aborted: bool)
    requires labels.Length0 == src.Length0 && labels.Length1 == src.Length1
    requires counts.Length == K && sums.Length == K
    requires |grid| == labels.Length0 && |image| == labels.Length0
    requires forall i :: 0 <= i < labels.Length0 ==> |grid[i]| == labels.Length1 && |image[i]| == labels.Length1
    requires forall i, j :: 0 <= i < labels.Length0 && 0 <= j < labels.Length1 ==>
      grid[i][j] == labels[i, j] && image[i][j] == src[i, j]
    modifies counts, sums
    ensures aborted <==> exists i, j :: 0 <= i < labels.Length0 && 0 <= j < labels.Length1 && labels[i, j] as int >= K
    ensures SameShape(image, grid)
    ensures forall c :: 0 <= c < K ==> sums[c].fixed == old(sums[c].fixed)
    ensures !aborted ==> forall c :: 0 <= c < K ==>
      counts[c] == CountInRows(grid, c, |grid|) && SameColour(sums[c], SumInRows(image, grid, c, |grid|))
    ensures !aborted ==> forall c :: 0 <= c < K ==> counts[c] >= 0 && SumBounded(sums[c], counts[c])
    ensures !aborted ==> Total(counts[..]) == labels.Length0 * labels.Length1
  {
    ResetCounters(counts, sums);
    ghost var counts0, sums0 := counts[..], sums[..];
    aborted := AccumulateRows(src, labels, counts, sums, image, grid);
    if !aborted {
      Accumulated(image, grid, counts0, sums0, labels.Length1);
    }
  }

  /** The truncated mean of a class, from its sums and its pixel count. */
  function ClassMean(s: Point, n: int): Point
    requires n != 0
  {
    Point(TruncDiv(s.r, n), TruncDiv(s.g, n), TruncDiv(s.b, n), false)
  }

  /** The mean of a non-empty class whose sums stay within 255 per pixel is
      a colour. */
  lemma ClassMeanInRange(s: Point, n: int)
    requires n > 0 && SumBounded(s, n)
    ensures InRange(ClassMean(s, n))
  {
    TruncDivBounded(s.r, n);
    TruncDivBounded(s.g, n);
    TruncDivBounded(s.b, n);
  }

  /** Lines 185-203: every centroid that is not fixed records its colour in
      the previous-centroid array, then moves to the mean of its class or is
      drawn again when its class is empty. Fixed centroids are untouched. */
  method Update(centroids: array<Point>, centroidsOld: array<Point>, counts: array<int>, sums: array<Point>)
    requires centroids.Length == K && centroidsOld.Length == K
    requires counts.Length == K && sums.Length == K
    requires centroids != centroidsOld && sums != centroids && sums != centroidsOld
    modifies centroids, centroidsOld
    ensures forall i :: 0 <= i < K && old(centroids[i]).fixed ==>
      centroids[i] == old(centroids[i]) && centroidsOld[i] == old(centroidsOld[i])
    ensures forall i :: 0 <= i < K && !old(centroids[i]).fixed ==>
      centroidsOld[i] == old(centroidsOld[i]).(r := old(centroids[i]).r, g := old(centroids[i]).g, b := old(centroids[i]).b)
    ensures forall i :: 0 <= i < K && !old(centroids[i]).fixed && counts[i] != 0 ==>
      centroids[i] == ClassMean(sums[i], counts[i])
    ensures forall i :: 0 <= i < K && !old(centroids[i]).fixed && counts[i] == 0 ==>
      IsRandomPoint(centroids[i])
  {
    for i := 0 to K
      invariant forall n :: i <= n < K ==> centroids[n] == old(centroids[n]) && centroidsOld[n] == old(centroidsOld[n])
      invariant forall n :: 0 <= n < i && old(centroids[n]).fixed ==>
        centroids[n] == old(centroids[n]) && centroidsOld[n] == old(centroidsOld[n])
      invariant forall n :: 0 <= n < i && !old(centroids[n]).fixed ==>
        centroidsOld[n] == old(centroidsOld[n]).(r := old(centroids[n]).r, g := old(centroids[n]).g, b := old(centroids[n]).b)
      invariant forall n :: 0 <= n < i && !old(centroids[n]).fixed && counts[n] != 0 ==>
        centroids[n] == ClassMean(sums[n], counts[n])
      invariant forall n :: 0 <= n < i && !old(centroids[n]).fixed && counts[n] == 0 ==>
        IsRandomPoint(centroids[n])
    {
      if centroids[i].fixed == false {
        centroidsOld[i] := centroidsOld[i].(b := centroids[i].b, g := centroids[i].g, r := centroids[i].r);
        if counts[i] != 0 {
          centroids[i] := centroids[i].(b := TruncDiv(sums[i].b, counts[i]));
          centroids[i] := centroids[i].(g := TruncDiv(sums[i].g, counts[i]));
          centroids[i] := centroids[i].(r := TruncDiv(sums[i].r, counts[i]));
        } else {
          InitializeCentroidWithRand(centroids, i);
        }
      }
    }
  }
}
