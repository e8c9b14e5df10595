# k-means table segmentation, modelled in Dafny

This project models the custom k-means colour segmenter of
`table_lines_detection/k-mean-custom.cpp` and proves properties of the model.
The segmenter finds the white lines of a table-tennis table in a blurred photograph.
Every pixel is a point in a three-dimensional colour space. The program runs
k-means with K = 4 clusters. Three centroids are pinned to known colours:
the lines (0), the table surface (1) and the black edges left by undistortion (2).
The fourth centroid is free.

Once the loop stops, the program keeps only the pixels of the line class. It
then removes the big blobs that a morphological opening of that image still
contains.

The model is imperative, like the program:

- the centroid, previous-centroid, count and sum tables are `array`s;
- the image, the label grid, the display grid and the binarised image are
  `array2`s, updated cell by cell in the original loop order.

Each method is proved against specification functions on sequences. Lemmas
state what the source promises about those functions.

The loop is described by a ghost trace, a sequence of `Pass` records, one per
pass of the `do … while` loop. Each record holds the centroids the pass started
from, the labels it wrote, its tally and the two centroid tables it left.
`Trace` says how the records relate: the first pass starts from the initial
centroids, every pass is a labelling, tally and move over the image, and every
pass before the last left a gap above 1 and handed its centroids to the next.

Modules, one file each:

- `Pixels` (pixels.dfy): the `point` struct and the pixel type. Also the
  distance truncated to `int`, written as the integer square root of the
  squared distance, and C's truncating division.
- `Centroids` (centroids.dfy): the constants, `initialize_centroid_with_rand`,
  `initialize_fixed_centroid_with_tab`, the first k-means step, and the
  invariant kept between passes.
- `Assignment` (assignment.dfy): the nearest-centroid labelling and the
  display scaling.
- `Accumulation` (accumulation.dfy): the per-class counts and channel sums,
  and the move of the free centroids.
- `Convergence` (convergence.dfy): the gap and the termination test.
- `PostProcess` (postprocess.dfy): binarisation and blob subtraction.
- `KMeanCustom` (segment.dfy): one pass, the whole loop, and the program from
  the loaded image to the cleaned binarised image.
- `ChannelCrossing` (channel_crossing.dfy): the channel crossing of lines 177-179.

In these points the code departs from textbook k-means, and the model follows the code:

- Distances are truncated to `int` before they are compared (lines 127 and
  132). A centroid that is strictly closer can therefore lose a tie to a
  lower-numbered one (`Assignment.TruncationHidesCloserCentroid`). Comparing
  squared distances would never give that result.
- Random components are `rand() % 255`, so they lie in [0, 254], not
  [0, 255].
- Every centroid is drawn at random first, and the pinned ones are overwritten
  afterwards.
- The stop threshold is the constant 1.
- The sums do cross colour channels (see ChannelCrossing and "Findings" below). The main loop keeps that
  crossing as written.

## Model

| member | source | states |
|---|---|---|
| Pixels.PixelPoint | table_lines_detection/k-mean-custom.cpp:121-123 | a pixel is read with B from channel 0, G from channel 1 and R from channel 2; every component is in [0, 255] and the flag is clear |
| Pixels.ISqrt | table_lines_detection/k-mean-custom.cpp:297 | the result r is the largest number whose square does not exceed n: r*r <= n < (r+1)*(r+1) |
| Pixels.SqrtFrom | table_lines_detection/k-mean-custom.cpp:297 | searching upward from a lower bound whose square fits yields the integer square root, not below that bound |
| Pixels.ISqrtUnique | table_lines_detection/k-mean-custom.cpp:297 | any r with r*r <= n < (r+1)*(r+1) is the integer square root, so the truncated float square root agrees with it |
| Pixels.Distance | table_lines_detection/k-mean-custom.cpp:292-298 | the distance truncated to int is the d with d*d <= squared Euclidean distance < (d+1)*(d+1) |
| Pixels.DistanceSymmetric | table_lines_detection/k-mean-custom.cpp:292-298 | distance(p, q) == distance(q, p) |
| Pixels.DistanceZeroIff | table_lines_detection/k-mean-custom.cpp:292-298 | the distance is 0 exactly when the two points have the same R, G and B |
| Pixels.TruncDiv | table_lines_detection/k-mean-custom.cpp:195-197 | C's integer division: the magnitude of the quotient is the quotient of the magnitudes, and the quotient is negative only when the operands have opposite signs |
| Pixels.TruncDivBracket | table_lines_detection/k-mean-custom.cpp:195-197 | the quotient times the divisor is at most the dividend, which stays below one divisor more, in magnitude |
| Pixels.TruncDivNonNegative | table_lines_detection/k-mean-custom.cpp:215 | on a non-negative dividend and a positive divisor, C's division is floor division |
| Pixels.TruncDivBounded | table_lines_detection/k-mean-custom.cpp:195-197 | a sum of at most n channel values divided by n is in [0, 255] |
| Centroids.Pinned | table_lines_detection/k-mean-custom.cpp:284-289 | the pinned centroid takes the table's R, G and B in that order and is fixed |
| Centroids.RandomComponent | table_lines_detection/k-mean-custom.cpp:277-279 | rand() % 255 yields a value in [0, 254] |
| Centroids.InitializeCentroidWithRand | table_lines_detection/k-mean-custom.cpp:275-281 | the centroid gets three components in [0, 254] and is not fixed; no other centroid changes |
| Centroids.InitializeFixedCentroidWithTab | table_lines_detection/k-mean-custom.cpp:284-289 | the centroid is the pinned colour, its previous value takes the same colour and keeps its flag, and nothing else changes |
| Centroids.FixedExactlyPinned | table_lines_detection/k-mean-custom.cpp:90-106 | in a valid centroid table, a centroid is fixed exactly when it is the line, table or edge class |
| Centroids.InitializeCentroids | table_lines_detection/k-mean-custom.cpp:86-106 | after the first step, classes 0, 1 and 2 hold the line, table and edge colours, equal to their previous values; class 3 is a random point |
| Assignment.NearestUnique | table_lines_detection/k-mean-custom.cpp:127-137 | at most one label satisfies the nearest-centroid rule, so the label of a pixel is determined |
| Assignment.TieGoesToLowerIndex | table_lines_detection/k-mean-custom.cpp:132 | a centroid at the same truncated distance as the chosen one never has a lower index |
| Assignment.TruncationHidesCloserCentroid | table_lines_detection/k-mean-custom.cpp:127-137 | there is a pixel given label 0 although centroid 1 is strictly closer to it in squared distance |
| Assignment.NearestCentroid | table_lines_detection/k-mean-custom.cpp:127-137 | the candidate is below K, no centroid is at a smaller truncated distance, and every lower-numbered centroid is strictly farther |
| Assignment.Assign | table_lines_detection/k-mean-custom.cpp:118-143 | every cell of the label grid holds the nearest centroid of its pixel, so every label is in [0, K) |
| Assignment.DisplayLevel | table_lines_detection/k-mean-custom.cpp:149 | the grey level is the label times 50 whenever that fits in an unsigned char |
| Assignment.DisplayLevelsDistinct | table_lines_detection/k-mean-custom.cpp:147-151 | labels in [0, K) get distinct grey levels |
| Assignment.DisplayScale | table_lines_detection/k-mean-custom.cpp:147-151 | every cell of the display grid is the grey level of its label |
| Accumulation.AddContribution | table_lines_detection/k-mean-custom.cpp:177-179 | adds R += red, G += blue, B += green (channels crossed as written) and keeps the flag |
| Accumulation.CountInRow | table_lines_detection/k-mean-custom.cpp:176 | the number of pixels of a class among the first j of a row is at most j |
| Accumulation.SumInRow | table_lines_detection/k-mean-custom.cpp:177-179 | every component of a class's row sum is between 0 and 255 times the class's pixels in that row |
| Accumulation.SumInRows | table_lines_detection/k-mean-custom.cpp:169-181 | every component of a class's sum over the image is between 0 and 255 times its pixel count |
| Accumulation.LabelsBelowKIff | table_lines_detection/k-mean-custom.cpp:171-175 | the recursive label check of a row holds exactly when every label of the row is below K |
| Accumulation.RowsBelowKIff | table_lines_detection/k-mean-custom.cpp:169-175 | the recursive label check of the first i rows holds exactly when all their labels are below K |
| Accumulation.CountsAfterMeaning | table_lines_detection/k-mean-custom.cpp:176 | counting a row pixel by pixel adds to each class the number of that class's pixels in the row |
| Accumulation.SumsAfterMeaning | table_lines_detection/k-mean-custom.cpp:177-179 | summing a row pixel by pixel adds to each class the contributions of its pixels, and leaves the flags as they were |
| Accumulation.CountsAfterRowsMeaning | table_lines_detection/k-mean-custom.cpp:169-181 | after the first i rows each counter has grown by its class's pixel count in those rows |
| Accumulation.SumsAfterRowsMeaning | table_lines_detection/k-mean-custom.cpp:169-181 | after the first i rows each class's sums have grown by its pixels' contributions in those rows |
| Accumulation.TotalUpdate | table_lines_detection/k-mean-custom.cpp:176 | changing one counter changes the sum of the counters by the same amount |
| Accumulation.TotalZero | table_lines_detection/k-mean-custom.cpp:160-165 | reset counters add up to 0 |
| Accumulation.TotalAfter | table_lines_detection/k-mean-custom.cpp:170-180 | counting a row adds its length to the sum of the counters |
| Accumulation.TotalAfterRows | table_lines_detection/k-mean-custom.cpp:169-181 | counting i rows of `cols` pixels adds i*cols to the sum of the counters |
| Accumulation.ResetCounters | table_lines_detection/k-mean-custom.cpp:160-165 | every counter and every channel sum is 0 |
| Accumulation.AddPixel | table_lines_detection/k-mean-custom.cpp:176-179 | the pixel's class counter grows by one and its sums by the pixel's contribution; nothing else changes |
| Accumulation.AccumulateRow | table_lines_detection/k-mean-custom.cpp:170-180 | aborts exactly when the row holds a label outside [0, K); otherwise the counters and sums have advanced by the whole row |
| Accumulation.AccumulateRows | table_lines_detection/k-mean-custom.cpp:169-181 | aborts exactly when some label is outside [0, K); otherwise the counters and sums have advanced by every row |
| Accumulation.Accumulated | table_lines_detection/k-mean-custom.cpp:160-181 | from zeroed counters, on a grid of class numbers, each class's count and sums are those of its own pixels, each sum stays within 255 per pixel, and the counts add up to rows*cols |
| Accumulation.Accumulate | table_lines_detection/k-mean-custom.cpp:160-181 | the abort guard fires exactly when some label is outside [0, K); otherwise each counter is its class's pixel count, each sum is the sum over its pixels with channels crossed, and the counts add up to rows*cols |
| Accumulation.ClassMeanInRange | table_lines_detection/k-mean-custom.cpp:194-197 | the truncated mean of a non-empty class is a colour: every component in [0, 255] |
| Accumulation.Update | table_lines_detection/k-mean-custom.cpp:185-203 | fixed centroids and their previous values are untouched; a free centroid's previous value takes its colour, then it becomes the truncated mean of its class, or a random point when the class is empty |
| Convergence.FixedCentroidsDoNotMove | table_lines_detection/k-mean-custom.cpp:210-214 | when every fixed centroid equals its previous value, skipping the fixed ones gives the same total as summing over all centroids |
| Convergence.MovementZeroIff | table_lines_detection/k-mean-custom.cpp:208-214 | the movement is 0 exactly when every free centroid is back at its previous colour |
| Convergence.ComputeGap | table_lines_detection/k-mean-custom.cpp:208-219 | the gap is the free centroids' movement divided by K in C; it is non-negative, and the loop goes on (gap > 1) exactly when the movement is at least 2K |
| PostProcess.BinarizedLevel | table_lines_detection/k-mean-custom.cpp:226-229 | the value is 0 or 255, and it is 255 exactly when the label is the line class |
| PostProcess.Binarize | table_lines_detection/k-mean-custom.cpp:224-231 | every pixel of the binarised image is the binarised level of its label |
| PostProcess.Subtracted | table_lines_detection/k-mean-custom.cpp:248-249 | the value is 0 or unchanged, and it changes exactly when the pixel is 255 in both images |
| PostProcess.SubtractedIdempotent | table_lines_detection/k-mean-custom.cpp:246-251 | subtracting the same opening twice removes nothing more |
| PostProcess.LinePixelsKept | table_lines_detection/k-mean-custom.cpp:224-251 | after both steps a pixel is 255 exactly when its label is the line class and the opening is not 255 there; every pixel is 0 or 255 |
| PostProcess.SubtractBlobs | table_lines_detection/k-mean-custom.cpp:246-251 | every pixel white in both images is cleared and every other pixel keeps its value |
| KMeanCustom.MoveCentroids | table_lines_detection/k-mean-custom.cpp:155-203 | on a grid of class numbers the abort is unreachable; the counts and sums are each class's own pixel count and channel sums over the grid (`TallyOf`), and they add up to the pixel count; each fixed centroid is unchanged; each free one leaves its colour in the previous-centroid table and moves to the truncated mean of its class, or to a random point when its class is empty (`MovedFrom`); the centroid table stays valid |
| KMeanCustom.LabelledRowIff | table_lines_detection/k-mean-custom.cpp:125-141 | the recursive labelling check of a row holds exactly when every one of its first j pixels carries its nearest centroid |
| KMeanCustom.LabelledRowsIff | table_lines_detection/k-mean-custom.cpp:118-143 | the recursive labelling check of the first i rows holds exactly when every pixel of those rows carries its nearest centroid |
| KMeanCustom.Iterate | table_lines_detection/k-mean-custom.cpp:110-219 | one pass labels every pixel with its nearest centroid among those the pass started with; every display cell is the grey level of its label; the counts and sums are the tally of the new labels over the image; the centroid tables are the update of the starting centroids by that tally; the table invariant is kept; the gap is the truncated mean movement of the free centroids, above 1 exactly when that movement sums to at least 2K; and the returned pass record holds exactly these starting centroids, labels, tally and tables, and satisfies `PassOver` |
| KMeanCustom.PassInTrace | table_lines_detection/k-mean-custom.cpp:110-219 | every pass of a trace labels the image from its starting centroids, tallies the labels and moves the free centroids by that tally |
| KMeanCustom.FollowsInTrace | table_lines_detection/k-mean-custom.cpp:208-219 | every pass of a trace but the last left a gap above 1, so the loop went on, and the next pass started from its new centroids |
| KMeanCustom.TraceStartsInitial | table_lines_detection/k-mean-custom.cpp:68-106 | the first pass of a trace starts from the initial centroids: the pinned colours, with a random point for class 3 |
| KMeanCustom.TraceMeaning | table_lines_detection/k-mean-custom.cpp:68-219 | a trace is a non-empty run of passes, the first from the initial centroids, each a pass over the image, and each but the last with a gap above 1 and followed by a pass from its new centroids |
| KMeanCustom.TraceFromPasses | table_lines_detection/k-mean-custom.cpp:68-219 | conversely, any such run of passes is a trace |
| KMeanCustom.TraceExtend | table_lines_detection/k-mean-custom.cpp:110-219 | a pass over the image that follows the last pass of a trace extends the trace |
| KMeanCustom.LabelledMatrix | table_lines_detection/k-mean-custom.cpp:118-143 | a labelled grid held in the label matrix makes every cell the nearest centroid of its pixel, so every label is below the number of centroids |
| KMeanCustom.PinnedThroughout | table_lines_detection/k-mean-custom.cpp:185-203 | every pass of a trace, the last included, starts with classes 0, 1 and 2 at their configured colours and fixed: the update never moves them |
| KMeanCustom.Loop | table_lines_detection/k-mean-custom.cpp:110-219 | from a one-pass trace, the trace grows by one pass per iteration of the do-while loop, each new pass following the last; at the end the matrices and tables hold the last pass, the gap is that pass's, at most `fuel` passes are made (one at least), and a gap above 1 is left only when the fuel runs out |
| KMeanCustom.LastPass | table_lines_detection/k-mean-custom.cpp:110-203 | the label matrix of the last pass of a trace holds nearest-centroid labels from that pass's starting centroids, and that pass's tables are their update by its tally |
| KMeanCustom.Start | table_lines_detection/k-mean-custom.cpp:68-217 | the initial centroids and one pass from them: fresh matrices and tables sized to the image, a one-pass trace from the initial centroids whose tables the arrays hold, and the gap of that pass |
| KMeanCustom.Segment | table_lines_detection/k-mean-custom.cpp:68-219 | the records of the passes form a trace: the first starts from the initial centroids, each labels the image, tallies it and moves the free centroids, and each before the last left a gap above 1, failing the test of line 219, and handed its centroids to the next; there are `iterations` of them; the final grid and the returned counts, sums, centroid and previous-centroid tables are those of the last pass, whose starting centroids `used` assigned the labels and keep the pinned colours; `converged` holds exactly when the last gap is at most 1; at least one pass is made and no more than the fuel allows (one pass even with no fuel); the loop stops without convergence only when the fuel runs out |
| KMeanCustom.Run | table_lines_detection/k-mean-custom.cpp:51-251 | an image with no pixel is refused; otherwise the passes of the loop form a trace as in `Segment`, `iterations` of them, the last with starting centroids `used` and ending on the returned labels; `converged` holds exactly when the last pass's gap is at most 1; the pass count is bounded by the fuel and falls short of convergence only when the fuel runs out; the labels are nearest-centroid labels from `used`, whose pinned classes hold their configured colours; every result pixel is 0 or 255, and white exactly where the label is the line class and the opening is not white |
| KMeanCustom.LineMask | table_lines_detection/k-mean-custom.cpp:222-250 | every pixel of the result is 0 or 255, and 255 exactly where the label is the line class and the opening is not white |
| ChannelCrossing.UniformSum | table_lines_detection/k-mean-custom.cpp:169-181 | as written, the sums of a class whose pixels all have colour v are its pixel count times v's crossed contribution |
| ChannelCrossing.SwappedMeanOfUniformClass | table_lines_detection/k-mean-custom.cpp:177-179 | as written, a class whose pixels all have colour v moves its centroid to (red, blue, green) of v |
| ChannelCrossing.SwapMovesCentroidAway | table_lines_detection/k-mean-custom.cpp:177-179 | as written, a one-pixel image (blue 10, green 20, red 30) in class 3 gets the centroid (R, G, B) = (30, 10, 20), which is not the pixel's colour |
| ChannelCrossing.CorrectedContribution | table_lines_detection/k-mean-custom.cpp:177-179 | the corrected contribution of a pixel has the colour the assignment loop reads from it |
| ChannelCrossing.CorrectedIsUnswapped | table_lines_detection/k-mean-custom.cpp:177-179 | the corrected sums are the as-written sums with G and B exchanged back |
| ChannelCrossing.CorrectedMeanOfUniformClass | table_lines_detection/k-mean-custom.cpp:194-197 | with the corrected sums, a class whose pixels all have colour v gets its centroid at v |

## Left out

- OpenCV calls: `imread`, `GaussianBlur`, `split`, `imshow`, `waitKey`, `morphologyEx` and `getStructuringElement` are foreign code.
  - The blurred image is the input `src`.
  - `split` is replaced by reading the three channels of each pixel directly.
  - The opening of the binarised image is the input `opening` of `Run`.
  - The display grid is computed but not shown.
- The closing of lines 256-262 is an OpenCV call whose result is only displayed, so it is not modelled.
- Console output (`cout`, `cerr`, `printf`), the window title and the iteration counter are not modelled.
- `Run`: a failing `imread` is modelled as an image with no pixels, since `Mat::empty` holds exactly then. `exit(1)` becomes the `loaded` result being false.
- `abort()` at line 174 becomes the `aborted` result of `Accumulate`. `MoveCentroids` proves that this result is never true.
- `rdtsc`, `srand` and `rand` (lines 268-281) are an oracle. `RandomComponent` may return any value in [0, 254]. The generator's actual sequence is not modelled.
- `distance` returns a float. Every caller truncates it to `int`, and the model uses the integer square root. For squared distances up to 3·255², the truncated float square root equals the integer square root. `ISqrtUnique` states the characterisation this relies on. Floating-point rounding itself is not modelled.
- `Accumulate`: the sums are unbounded integers. The program's `int` sums can overflow once a class holds more than 8,421,504 pixels, because 255 times that exceeds 2^31 − 1. That overflow is not modelled.
- `Segment`: the unbounded `do … while` loop is bounded by `fuel`, the largest number of passes. When the fuel runs out before the test `gap > 1` fails, `converged` is false. Termination of the loop itself is not claimed, since the program gives no bound.
- The program leaves several things uninitialised: `centroids_old` for the free centroid, the label grid, the display grid and the flag of the sum table. The model starts them at zero or at a black, non-fixed point. None is read before it is written: the free centroid's previous value is written by `Update` before `ComputeGap` reads it.
- `Segment`: the labels it exposes are those of the last pass, with the centroids used for that pass. The centroids it returns are those after that pass's update, as in the program.

## Findings

| source | as written | input that shows it | evidently intended | confidence | as-written member | corrected member |
|---|---|---|---|---|---|---|
| table_lines_detection/k-mean-custom.cpp:177-179 | `pixel_value_sum.G += [0]` (blue) and `.B += [1]` (green), while lines 121-123 read B from channel 0 and G from channel 1 | a one-pixel image of blue 10, green 20, red 30 labelled 3: the new centroid is (R, G, B) = (30, 10, 20), and its G and B are exchanged | each sum takes the channel that the assignment loop reads into the same component, so a class of one colour gets that colour as centroid | not executed | ChannelCrossing.SwappedMeanOfUniformClass | ChannelCrossing.CorrectedMeanOfUniformClass |

The crossing only affects the free centroid 3, because the pinned centroids
never move. The main loop (`Accumulation.AddContribution`,
`Accumulation.Accumulate`, `KMeanCustom.Segment`) follows the program as
written. `ChannelCrossing.CorrectedContribution` and
`ChannelCrossing.CorrectedSumInRows` give the corrected accumulation.
`ChannelCrossing.CorrectedIsUnswapped` ties the corrected accumulation to the
as-written one: it is the same with G and B exchanged back.
