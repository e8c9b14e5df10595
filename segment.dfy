/** The whole segmenter: the k-means loop of lines 110-219 over a blurred
    colour image, then the extraction of the line pixels (lines 221-251). */
module KMeanCustom {
  import opened Pixels
  import opened Centroids
  import opened Assignment
  import opened Accumulation
  import opened Convergence
  import opened PostProcess

  /** The tally of one pass: every count and every channel sum is that of
      its class over the labelled grid. */
  predicate TallyOf(image: seq<seq<Vec3b>>, grid: seq<seq<byte>>, counts: seq<int>, sums: seq<Point>)
  {
    SameShape(image, grid) && |counts| == K && |sums| == K &&
    forall c {:trigger CountInRows(grid, c, |grid|)} :: 0 <= c < K ==>
      counts[c] == CountInRows(grid, c, |grid|) && SameColour(sums[c], SumInRows(image, grid, c, |grid|))
  }

  /** The centroids `after` lines 185-203, from the centroids `before` that
      labelled the grid: a fixed centroid stays; a free one leaves its colour
      in the previous-centroid table and moves to the truncated mean of its
      class, or to a random point when its class is empty. */
  predicate MovedFrom(before: seq<Point>, after: seq<Point>, olds: seq<Point>, counts: seq<int>, sums: seq<Point>)
  {
    |before| == K && |after| == K && |olds| == K && |counts| == K && |sums| == K &&
    forall c :: 0 <= c < K ==>
      (before[c].fixed ==> after[c] == before[c]) &&
      (!before[c].fixed ==> SameColour(olds[c], before[c])) &&
      (!before[c].fixed && counts[c] != 0 ==> after[c] == ClassMean(sums[c], counts[c])) &&
      (!before[c].fixed && counts[c] == 0 ==> IsRandomPoint(after[c]))
  }

  /** The first j pixels of a row are labelled with their nearest centroid
      of `cs`, the rule of lines 125-141. */
  predicate LabelledRow(row: seq<Vec3b>, cs: seq<Point>, labels: seq<byte>, j: nat)
    requires j <= |row| && j <= |labels|
  {
    j == 0 || (LabelledRow(row, cs, labels, j - 1) && IsNearest(PixelPoint(row[j - 1]), cs, labels[j - 1] as int))
  }

  lemma {:induction false} LabelledRowIff(row: seq<Vec3b>, cs: seq<Point>, labels: seq<byte>, j: nat)
    requires j <= |row| && j <= |labels|
    ensures LabelledRow(row, cs, labels, j) <==>
      forall j' :: 0 <= j' < j ==> IsNearest(PixelPoint(row[j']), cs, labels[j'] as int)
  {
    if j > 0 {
      LabelledRowIff(row, cs, labels, j - 1);
    }
  }

  /** The pixels of the first i rows are labelled with their nearest centroid. */
  predicate LabelledRows(image: seq<seq<Vec3b>>, cs: seq<Point>, grid: seq<seq<byte>>, i: nat)
    requires SameShape(image, grid) && i <= |grid|
  {
    i == 0 || (LabelledRows(image, cs, grid, i - 1) && LabelledRow(image[i - 1], cs, grid[i - 1], |grid[i - 1]|))
  }

  lemma {:induction false} LabelledRowsIff(image: seq<seq<Vec3b>>, cs: seq<Point>, grid: seq<seq<byte>>, i: nat)
    requires SameShape(image, grid) && i <= |grid|
    ensures LabelledRows(image, cs, grid, i) <==>
      forall i', j' :: 0 <= i' < i && 0 <= j' < |grid[i']| ==> IsNearest(PixelPoint(image[i'][j']), cs, grid[i'][j'] as int)
  {
    if i > 0 {
      LabelledRowsIff(image, cs, grid, i - 1);
      LabelledRowIff(image[i - 1], cs, grid[i - 1], |grid[i - 1]|);
    }
  }

  /** Every pixel of `image` is labelled in `grid` with its nearest
      centroid of `cs`, the rule of lines 118-143. */
  predicate Labelled(image: seq<seq<Vec3b>>, cs: seq<Point>, grid: seq<seq<byte>>)
  {
    SameShape(image, grid) && LabelledRows(image, cs, grid, |grid|)
  }

  /** The record of one pass of the loop: the centroids it started from,
      the labels it wrote, its tally, and the two centroid tables it left. */
  datatype Pass = Pass(start: seq<Point>, grid: seq<seq<byte>>, counts: seq<int>, sums: seq<Point>,
                       centroids: seq<Point>, olds: seq<Point>)

  /** A pass over `image` that does what lines 111-203 do. */
  predicate PassOver(image: seq<seq<Vec3b>>, p: Pass)
  {
    Labelled(image, p.start, p.grid) && TallyOf(image, p.grid, p.counts, p.sums) &&
    MovedFrom(p.start, p.centroids, p.olds, p.counts, p.sums)
  }

  /** The gap of lines 208-215 that a pass leaves, when its tables have K entries. */
  predicate GapAbove(p: Pass, bound: int)
  {
    |p.centroids| == K && |p.olds| == K && TruncDiv(Movement(p.centroids, p.olds, K), K) > bound
  }

  /** Pass q follows pass p in the do-while loop: p's gap failed the
      termination test of line 219, and q starts from p's new centroids. */
  predicate Follows(p: Pass, q: Pass)
  {
    GapAbove(p, 1) && q.start == p.centroids
  }

  /** The centroids of the first k-means step (lines 68-101): the pinned
      classes at their colours, the free one at a random point. */
  predicate Initial(cs: seq<Point>)
  {
    PinnedClasses(cs) && IsRandomPoint(cs[3])
  }

  /** The classes 0, 1 and 2 hold their configured colours, fixed. */
  predicate PinnedClasses(cs: seq<Point>)
  {
    |cs| == K && cs[LineClass] == Pinned(CentroidLine) && cs[TableClass] == Pinned(CentroidTable) &&
    cs[EdgeClass] == Pinned(CentroidEdge)
  }

  /** The passes of the loop over `image`, in order: the first starts from
      the initial centroids, and each later one follows the one before. */
  predicate Trace(image: seq<seq<Vec3b>>, trace: seq<Pass>)
    decreases |trace|
  {
    if |trace| <= 1 then
      |trace| == 1 && Initial(trace[0].start) && PassOver(image, trace[0])
    else
      Trace(image, trace[..|trace| - 1]) && PassOver(image, trace[|trace| - 1]) &&
      Follows(trace[|trace| - 2], trace[|trace| - 1])
  }

  /** Every pass of a trace is a pass over the image. */
  lemma {:induction false} PassInTrace(image: seq<seq<Vec3b>>, trace: seq<Pass>, k: nat)
    requires Trace(image, trace) && k < |trace|
    ensures PassOver(image, trace[k])
    decreases |trace|
  {
    if k < |trace| - 1 {
      var init := trace[..|trace| - 1];
      PassInTrace(image, init, k);
      assert init[k] == trace[k];
    }
  }

  /** Every pass of a trace but the last is followed by the next one. */
  lemma {:induction false} FollowsInTrace(image: seq<seq<Vec3b>>, trace: seq<Pass>, k: nat)
    requires Trace(image, trace) && k + 1 < |trace|
    ensures Follows(trace[k], trace[k + 1])
    decreases |trace|
  {
    if k + 2 < |trace| {
      var init := trace[..|trace| - 1];
      FollowsInTrace(image, init, k);
      assert init[k] == trace[k] && init[k + 1] == trace[k + 1];
    }
  }

  /** The first pass of a trace starts from the initial centroids. */
  lemma {:induction false} TraceStartsInitial(image: seq<seq<Vec3b>>, trace: seq<Pass>)
    requires Trace(image, trace)
    ensures Initial(trace[0].start)
    decreases |trace|
  {
    if |trace| > 1 {
      var init := trace[..|trace| - 1];
      TraceStartsInitial(image, init);
      assert init[0] == trace[0];
    }
  }

  /** A trace is a run of passes over the image, each before the last
      failing the termination test and handing its centroids to the next. */
  lemma TraceMeaning(image: seq<seq<Vec3b>>, trace: seq<Pass>)
    requires Trace(image, trace)
    ensures |trace| >= 1 && Initial(trace[0].start)
    ensures forall k :: 0 <= k < |trace| ==> PassOver(image, trace[k])
    ensures forall k :: 0 <= k < |trace| - 1 ==> Follows(trace[k], trace[k + 1])
  {
    TraceStartsInitial(image, trace);
    forall k | 0 <= k < |trace|
      ensures PassOver(image, trace[k])
    {
      PassInTrace(image, trace, k);
    }
    forall k | 0 <= k < |trace| - 1
      ensures Follows(trace[k], trace[k + 1])
    {
      FollowsInTrace(image, trace, k);
    }
  }

  /** Conversely, such a run of passes is a trace. */
  lemma {:induction false} TraceFromPasses(image: seq<seq<Vec3b>>, trace: seq<Pass>)
    requires |trace| >= 1 && Initial(trace[0].start)
    requires forall k :: 0 <= k < |trace| ==> PassOver(image, trace[k])
    requires forall k :: 0 <= k < |trace| - 1 ==> Follows(trace[k], trace[k + 1])
    ensures Trace(image, trace)
    decreases |trace|
  {
    if |trace| > 1 {
      var init := trace[..|trace| - 1];
      forall k | 0 <= k < |init|
        ensures PassOver(image, init[k])
      {
        assert init[k] == trace[k];
      }
      forall k | 0 <= k < |init| - 1
        ensures Follows(init[k], init[k + 1])
      {
        assert init[k] == trace[k] && init[k + 1] == trace[k + 1];
      }
      TraceFromPasses(image, init);
    }
  }

  /** Lines 155-203, the third step: tally the classes of the labelled
      grid, whose labels and pixels are `grid` and `image`, and move the
      free centroids. The abort of line 174 cannot happen, because every
      label is a class number. */
  method MoveCentroids(src: array2<Vec3b>, labels: array2<byte>, centroids: array<Point>, centroidsOld: array<Point>,
                       counts: array<int>, sums: array<Point>, ghost image: seq<seq<Vec3b>>, ghost grid: seq<seq<byte>>)
    requires centroids.Length == K && centroidsOld.Length == K && counts.Length == K && sums.Length == K
    requires centroids != centroidsOld && sums != centroids && sums != centroidsOld
    requires labels.Length0 == src.Length0 && labels.Length1 == src.Length1
    requires |grid| == labels.Length0 && |image| == labels.Length0
    requires forall i :: 0 <= i < labels.Length0 ==> |grid[i]| == labels.Length1 && |image[i]| == labels.Length1
    requires forall i, j :: 0 <= i < labels.Length0 && 0 <= j < labels.Length1 ==>
      grid[i][j] == labels[i, j] && image[i][j] == src[i, j]
    requires forall i, j :: 0 <= i < labels.Length0 && 0 <= j < labels.Length1 ==> labels[i, j] as int < K
    requires CentroidsValid(centroids[..], centroidsOld[..])
    modifies centroids, centroidsOld, counts, sums
    ensures CentroidsValid(centroids[..], centroidsOld[..])
    ensures TallyOf(image, grid, counts[..], sums[..])
    ensures Total(counts[..]) == labels.Length0 * labels.Length1
    ensures MovedFrom(old(centroids[..]), centroids[..], centroidsOld[..], counts[..], sums[..])
  {
    var aborted := Accumulate(src, labels, counts, sums, image, grid);
    if aborted {
      assert false;
    }
    ghost var before := centroids[..];
    Update(centroids, centroidsOld, counts, sums);
    forall c | 0 <= c < K && !before[c].fixed && counts[c] != 0
      ensures InRange(centroids[c])
    {
      ClassMeanInRange(sums[c], counts[c]);
    }
  }

  /** One pass of the loop body, lines 111-217: assign, show, accumulate,
      move the free centroids, measure the gap. `image` holds the pixels of
      `src`; `pass` records what the pass did. */
  method Iterate(src: array2<Vec3b>, centroids: array<Point>, centroidsOld: array<Point>,
                 labels: array2<byte>, display: array2<byte>, counts: array<int>, sums: array<Point>,
                 ghost image: seq<seq<Vec3b>>)
    returns (gap: int, ghost pass: Pass)
    requires centroids.Length == K && centroidsOld.Length == K && counts.Length == K && sums.Length == K
    requires centroids != centroidsOld && sums != centroids && sums != centroidsOld
    requires labels != display
    requires labels.Length0 == src.Length0 && labels.Length1 == src.Length1
    requires display.Length0 == src.Length0 && display.Length1 == src.Length1
    requires Holds(src, image)
    requires CentroidsValid(centroids[..], centroidsOld[..])
    modifies centroids, centroidsOld, labels, display, counts, sums
    ensures CentroidsValid(centroids[..], centroidsOld[..])
    ensures Assigned(src, old(centroids[..]), labels)
    ensures forall i, j :: 0 <= i < labels.Length0 && 0 <= j < labels.Length1 ==> labels[i, j] as int < K
    ensures forall i, j :: 0 <= i < display.Length0 && 0 <= j < display.Length1 ==>
      display[i, j] == DisplayLevel(labels[i, j])
    ensures pass.start == old(centroids[..]) && Holds(labels, pass.grid)
    ensures pass.counts == counts[..] && pass.sums == sums[..]
    ensures pass.centroids == centroids[..] && pass.olds == centroidsOld[..]
    ensures PassOver(image, pass)
    ensures MovedFrom(old(centroids[..]), centroids[..], centroidsOld[..], counts[..], sums[..])
    ensures gap == TruncDiv(Movement(centroids[..], centroidsOld[..], K), K) && gap >= 0
    ensures gap > 1 <==> Movement(centroids[..], centroidsOld[..], K) >= 2 * K
  {
    Assign(src, centroids, labels);
    DisplayScale(labels, display);
    ghost var grid := Contents(labels);
    LabelledRowsIff(image, old(centroids[..]), grid, |grid|);
    MoveCentroids(src, labels, centroids, centroidsOld, counts, sums, image, grid);
    gap := ComputeGap(centroids, centroidsOld);
    pass := Pass(old(centroids[..]), grid, counts[..], sums[..], centroids[..], centroidsOld[..]);
  }

  /** A pass that follows the last one of a trace extends it. */
  lemma TraceExtend(image: seq<seq<Vec3b>>, trace: seq<Pass>, p: Pass)
    requires Trace(image, trace) && PassOver(image, p) && Follows(trace[|trace| - 1], p)
    ensures Trace(image, trace + [p])
  {
    assert (trace + [p])[..|trace|] == trace;
  }

  /** A grid of nearest-centroid labels, read back from the matrices that
      hold it. */
  lemma LabelledMatrix(src: array2<Vec3b>, image: seq<seq<Vec3b>>, cs: seq<Point>,
                       labels: array2<byte>, grid: seq<seq<byte>>)
    requires labels.Length0 == src.Length0 && labels.Length1 == src.Length1
    requires Holds(src, image) && Holds(labels, grid) && Labelled(image, cs, grid)
    ensures Assigned(src, cs, labels)
    ensures forall i, j :: 0 <= i < labels.Length0 && 0 <= j < labels.Length1 ==> labels[i, j] as int < |cs|
  {
    LabelledRowsIff(image, cs, grid, |grid|);
    forall i, j | 0 <= i < labels.Length0 && 0 <= j < labels.Length1
      ensures IsNearest(PixelPoint(src[i, j]), cs, labels[i, j] as int)
    {
      assert image[i][j] == src[i, j] && grid[i][j] == labels[i, j];
    }
  }

  /** Every pass of a trace starts from the configured colours of the
      pinned classes: the update of lines 185-203 never moves them. */
  lemma {:induction false} PinnedThroughout(image: seq<seq<Vec3b>>, trace: seq<Pass>)
    requires Trace(image, trace)
    ensures PinnedClasses(trace[|trace| - 1].start)
    decreases |trace|
  {
    if |trace| > 1 {
      var init := trace[..|trace| - 1];
      PinnedThroughout(image, init);
      var p := init[|init| - 1];
      assert p == trace[|trace| - 2];
      assert MovedFrom(p.start, p.centroids, p.olds, p.counts, p.sums);
      assert p.start[LineClass].fixed && p.start[TableClass].fixed && p.start[EdgeClass].fixed;
    }
  }

  /** The rest of the do-while loop of lines 110-219, after its first pass:
      further passes while the gap stays above 1, at most `fuel` passes in
      all. */
  method Loop(src: array2<Vec3b>, centroids: array<Point>, centroidsOld: array<Point>,
              labels: array2<byte>, display: array2<byte>, counts: array<int>, sums: array<Point>,
              firstGap: int, fuel: nat, ghost image: seq<seq<Vec3b>>, ghost first: seq<Pass>)
    returns (gap: int, iterations: nat, ghost trace: seq<Pass>)
    requires centroids.Length == K && centroidsOld.Length == K && counts.Length == K && sums.Length == K
    requires centroids != centroidsOld && sums != centroids && sums != centroidsOld
    requires labels != display
    requires labels.Length0 == src.Length0 && labels.Length1 == src.Length1
    requires display.Length0 == src.Length0 && display.Length1 == src.Length1
    requires Holds(src, image) && CentroidsValid(centroids[..], centroidsOld[..])
    requires Trace(image, first) && |first| == 1
    requires Holds(labels, first[0].grid) && first[0].counts == counts[..] && first[0].sums == sums[..]
    requires first[0].centroids == centroids[..] && first[0].olds == centroidsOld[..]
    requires firstGap == TruncDiv(Movement(centroids[..], centroidsOld[..], K), K)
    modifies centroids, centroidsOld, labels, display, counts, sums
    ensures CentroidsValid(centroids[..], centroidsOld[..])
    ensures Trace(image, trace) && |trace| == iterations
    ensures Holds(labels, trace[|trace| - 1].grid)
    ensures trace[|trace| - 1].counts == counts[..] && trace[|trace| - 1].sums == sums[..]
    ensures trace[|trace| - 1].centroids == centroids[..] && trace[|trace| - 1].olds == centroidsOld[..]
    ensures gap == TruncDiv(Movement(centroids[..], centroidsOld[..], K), K)
    ensures 1 <= iterations && (iterations <= fuel || iterations == 1)
    ensures gap > 1 ==> iterations >= fuel
  {
    gap, iterations, trace := firstGap, 1, first;
    while gap > 1 && iterations < fuel
      invariant 1 <= iterations && (iterations <= fuel || iterations == 1)
      invariant CentroidsValid(centroids[..], centroidsOld[..])
      invariant gap == TruncDiv(Movement(centroids[..], centroidsOld[..], K), K)
      invariant Trace(image, trace) && |trace| == iterations
      invariant Holds(labels, trace[|trace| - 1].grid)
      invariant trace[|trace| - 1].counts == counts[..] && trace[|trace| - 1].sums == sums[..]
      invariant trace[|trace| - 1].centroids == centroids[..] && trace[|trace| - 1].olds == centroidsOld[..]
      decreases fuel - iterations
    {
      ghost var pass;
      gap, pass := Iterate(src, centroids, centroidsOld, labels, display, counts, sums, image);
      TraceExtend(image, trace, pass);
      trace := trace + [pass];
      iterations := iterations + 1;
    }
  }

  /** What the last pass of a trace leaves in the matrices that hold its
      labels: nearest-centroid class numbers, and the centroid update of
      that pass. */
  lemma LastPass(src: array2<Vec3b>, image: seq<seq<Vec3b>>, trace: seq<Pass>, labels: array2<byte>)
    requires labels.Length0 == src.Length0 && labels.Length1 == src.Length1
    requires Holds(src, image) && Trace(image, trace) && Holds(labels, trace[|trace| - 1].grid)
    ensures Assigned(src, trace[|trace| - 1].start, labels)
    ensures forall i, j :: 0 <= i < labels.Length0 && 0 <= j < labels.Length1 ==>
      labels[i, j] as int < |trace[|trace| - 1].start|
    ensures MovedFrom(trace[|trace| - 1].start, trace[|trace| - 1].centroids, trace[|trace| - 1].olds,
                      trace[|trace| - 1].counts, trace[|trace| - 1].sums)
  {
    var last := trace[|trace| - 1];
    assert PassOver(image, last);
    LabelledMatrix(src, image, last.start, labels, last.grid);
  }

  /** The k-means loop of lines 68-219 from the initial centroids. The
      do-while loop has no bound of its own: `fuel` caps the number of
      passes (at least one is always made), and `converged` says whether the
      termination test of line 219 was met. `image` holds the pixels of
      `src`, and `trace` records every pass in order: each pass before the
      last failed that test, and the next one started from its centroids.
      The labels and the tally are those of the last pass, made with the
      centroids `used`; the returned centroid tables are that pass's update. */
  method Segment(src: array2<Vec3b>, fuel: nat)
    returns (labels: array2<byte>, centroids: array<Point>, centroidsOld: array<Point>,
             counts: array<int>, sums: array<Point>, iterations: nat, converged: bool,
             ghost used: seq<Point>, ghost image: seq<seq<Vec3b>>, ghost trace: seq<Pass>)
    ensures fresh(labels) && fresh(centroids) && fresh(centroidsOld) && fresh(counts) && fresh(sums)
    ensures labels.Length0 == src.Length0 && labels.Length1 == src.Length1
    ensures centroids.Length == K && centroidsOld.Length == K && counts.Length == K && sums.Length == K
    ensures forall i, j :: 0 <= i < labels.Length0 && 0 <= j < labels.Length1 ==> labels[i, j] as int < K
    ensures |used| == K && Assigned(src, used, labels)
    ensures used[LineClass] == Pinned(CentroidLine) && used[TableClass] == Pinned(CentroidTable) &&
            used[EdgeClass] == Pinned(CentroidEdge)
    ensures Holds(src, image) && Trace(image, trace) && |trace| == iterations
    ensures trace[|trace| - 1].start == used && Holds(labels, trace[|trace| - 1].grid)
    ensures trace[|trace| - 1].counts == counts[..] && trace[|trace| - 1].sums == sums[..]
    ensures trace[|trace| - 1].centroids == centroids[..] && trace[|trace| - 1].olds == centroidsOld[..]
    ensures MovedFrom(used, centroids[..], centroidsOld[..], counts[..], sums[..])
    ensures CentroidsValid(centroids[..], centroidsOld[..])
    ensures converged <==> TruncDiv(Movement(centroids[..], centroidsOld[..], K), K) <= 1
    ensures 1 <= iterations && (iterations <= fuel || iterations == 1)
    ensures !converged ==> iterations >= fuel
  {
    image := Contents(src);
    var display, gap;
    ghost var first;
    labels, display, centroids, centroidsOld, counts, sums, gap, first := Start(src, image);
    gap, iterations, trace := Loop(src, centroids, centroidsOld, labels, display, counts, sums, gap, fuel, image, first);
    converged := gap <= 1;
    used := trace[|trace| - 1].start;
    LastPass(src, image, trace, labels);
    PinnedThroughout(image, trace);
  }

  /** Lines 68-101 and the first pass of the do-while loop: the initial
      centroids, and one pass from them over `image`, the pixels of `src`. */
  method Start(src: array2<Vec3b>, ghost image: seq<seq<Vec3b>>)
    returns (labels: array2<byte>, display: array2<byte>, centroids: array<Point>, centroidsOld: array<Point>,
             counts: array<int>, sums: array<Point>, gap: int, ghost first: seq<Pass>)
    requires Holds(src, image)
    ensures fresh(labels) && fresh(display) && fresh(centroids) && fresh(centroidsOld) && fresh(counts) && fresh(sums)
    ensures labels.Length0 == src.Length0 && labels.Length1 == src.Length1
    ensures display.Length0 == src.Length0 && display.Length1 == src.Length1
    ensures centroids.Length == K && centroidsOld.Length == K && counts.Length == K && sums.Length == K
    ensures centroids != centroidsOld && sums != centroids && sums != centroidsOld && labels != display
    ensures CentroidsValid(centroids[..], centroidsOld[..])
    ensures Trace(image, first) && |first| == 1
    ensures Holds(labels, first[0].grid) && first[0].counts == counts[..] && first[0].sums == sums[..]
    ensures first[0].centroids == centroids[..] && first[0].olds == centroidsOld[..]
    ensures gap == TruncDiv(Movement(centroids[..], centroidsOld[..], K), K)
  {
    centroids, centroidsOld := InitializeCentroids();
    labels := new byte[src.Length0, src.Length1];
    display := new byte[src.Length0, src.Length1];
    counts := new int[K];
    sums := new Point[K](_ => Black);
    ghost var pass;
    gap, pass := Iterate(src, centroids, centroidsOld, labels, display, counts, sums, image);
    first := [pass];
  }

  /** Lines 51-56 and 110-251: an image with no pixels stops the program;
      otherwise the image is segmented, the line class binarised, and the
      blobs of `opening` (the morphological opening of the binarised image,
      computed by OpenCV) removed from it. `image` and `trace` are those of
      `Segment`: the passes of the loop over the pixels, the last made with
      centroids `used` and ending on `labels`. A pixel of the result is white
      exactly when it has the line class and is not white in the opening. */
  method Run(src: array2<Vec3b>, opening: array2<byte>, fuel: nat)
    returns (loaded: bool, labels: array2<byte>, bin: array2<byte>, iterations: nat, converged: bool,
             ghost used: seq<Point>, ghost image: seq<seq<Vec3b>>, ghost trace: seq<Pass>)
    requires opening.Length0 == src.Length0 && opening.Length1 == src.Length1
    ensures fresh(labels) && fresh(bin)
    ensures loaded <==> src.Length0 != 0 && src.Length1 != 0
    ensures loaded ==> labels.Length0 == src.Length0 && labels.Length1 == src.Length1
    ensures loaded ==> bin.Length0 == src.Length0 && bin.Length1 == src.Length1
    ensures loaded ==> (|used| == K && Assigned(src, used, labels) &&
      used[LineClass] == Pinned(CentroidLine) && used[TableClass] == Pinned(CentroidTable) &&
      used[EdgeClass] == Pinned(CentroidEdge))
    ensures loaded ==> (Holds(src, image) && Trace(image, trace) && |trace| == iterations &&
      trace[|trace| - 1].start == used && Holds(labels, trace[|trace| - 1].grid) &&
      (converged <==> !GapAbove(trace[|trace| - 1], 1)))
    ensures loaded ==> 1 <= iterations && (iterations <= fuel || iterations == 1)
    ensures loaded && !converged ==> iterations >= fuel
    ensures loaded ==> forall i, j :: 0 <= i < src.Length0 && 0 <= j < src.Length1 ==>
      labels[i, j] as int < K && (bin[i, j] == 0 || bin[i, j] == 255) &&
      (bin[i, j] == 255 <==> labels[i, j] as int == LineClass && opening[i, j] != 255)
  {
    if src.Length0 == 0 || src.Length1 == 0 {
      labels := new byte[0, 0];
      bin := new byte[0, 0];
      return false, labels, bin, 0, false, [], [], [];
    }
    var centroids, centroidsOld, counts, sums;
    labels, centroids, centroidsOld, counts, sums, iterations, converged, used, image, trace := Segment(src, fuel);
    bin := LineMask(labels, opening);
    loaded := true;
  }

  /** Lines 221-251: the line class binarised, less the blobs of `opening`. */
  method LineMask(labels: array2<byte>, opening: array2<byte>) returns (bin: array2<byte>)
    requires opening.Length0 == labels.Length0 && opening.Length1 == labels.Length1
    ensures fresh(bin) && bin.Length0 == labels.Length0 && bin.Length1 == labels.Length1
    ensures forall i, j :: 0 <= i < labels.Length0 && 0 <= j < labels.Length1 ==>
      (bin[i, j] == 0 || bin[i, j] == 255) &&
      (bin[i, j] == 255 <==> labels[i, j] as int == LineClass && opening[i, j] != 255)
  {
    bin := new byte[labels.Length0, labels.Length1];
    Binarize(labels, bin);
    SubtractBlobs(bin, opening);
    forall i, j | 0 <= i < labels.Length0 && 0 <= j < labels.Length1
      ensures bin[i, j] == 0 || bin[i, j] == 255
      ensures bin[i, j] == 255 <==> labels[i, j] as int == LineClass && opening[i, j] != 255
    {
      LinePixelsKept(labels[i, j], opening[i, j]);
    }
  }
}
