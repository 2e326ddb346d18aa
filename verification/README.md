# A verified model of the ship-wake detector's algorithmic cores

Around its networks the wake detector does a lot of exact bookkeeping: it walks scan lines pixel by
pixel and measures wavelengths on them, scores detections against ground truth, pairs rows of
anchors with rows of network output, pads and un-pads images, flips rotated boxes, and decides which
checkpoint to keep. This project models that bookkeeping and proves what it is for.

Where the program changes state (arrays filled in place, `used` flags carried from one detection to
the next, the code-object cache, counters in a loop), the model does too, in methods with loops; each of them is
proved against a function or predicate that says what the result means, and the lemmas are about those.
Where the program is a pipeline of expressions, the model is a function.

Scores, coordinates and angles are exact reals, pixels and indices are integers, C integers have
their width as a parameter and wrap explicitly. Parameters stand for what comes from libraries or
from outside: the rotated-box overlap `skewiou`, the IoU matrix and the choice among equal maxima,
OpenCV's `resize`, the Euclidean norm, the square root, pi with cosine and sine, the DCT basis,
whether the allocator grants a request, the metrics `evaluate` returns, and the length of a scan line
in metres. Every result holds for all of their values that satisfy the stated law (a sine law, `v * v == x`
for the root, and so on).

| file | part of the program |
|---|---|
| Bresenham, Stripes, WaveGaps, ReversedLines, Outliers | wavelength measurement: `utils/lbr.py`, `utils/utils.py` |
| Matching, AveragePrecision | mAP evaluation: `utils/map.py` |
| CodeCache, IntConversion | generated runtime in `utils/overlaps_cuda/rbbox_overlaps.cpp` |
| FeatureGrid, AnchorRows, BaseAnchors, DctFilter | shapes and row order: `models/` |
| Sppf | `utils/SPPF.py` |
| Flip | rotated boxes and flips: `datasets/wake_dataset.py` |
| Heading | the 180 degree ambiguity: `utils/wavelength.py`, `utils/utils.py` |
| Targets | anchor targets: `models/losses.py` |
| Collate, RotatedRows, Letterbox | resizing and padding: `utils/utils.py`, `datasets/collater.py`, `utils/letterbox.py` |
| BestCheckpoint | the epoch loop: `train.py` |
| IntegerMath, Rounding, Ordering, Options, Images | shared vocabulary |

## What turned out false, and when it is true

- The MAD filter keeps half of its input exactly when the threshold exceeds 1/1.4826 (`Outliers.MadThresholdIsExact`).
- The narrowing macro misses overflows at the very top of an unsigned intermediate type, and only there
  (`IntConversion.VerifyUnsigned`); its callers never get there, so the conversions are exact (`AsIntIsExact`).
- Anchors and features stay aligned only with the default strides: any stride replaced by dilation breaks
  the alignment for some image (`AnchorRows.OnlyWithoutDilation`).
- Even pooling windows break the SPPF block (`Sppf.SizeKeptIffOdd`).
- Flipping twice restores a rotated box exactly when its angle was normalised (`Flip.FlipTwice`).
- Each of the three heading rules can give different answers for the two directions of the same box edge. The vote
  (with a positive tolerance) does so exactly when it is tied (`Heading.VoteIgnoresEdgeDirection`). The two others count what is level with
  the ship or the centre as ahead in either direction; that alone can make the direction decide
  (`Heading.LevelComponentDecides`, `Heading.LevelPixelDecides`). Their exact conditions cover all inputs
  (`Heading.FirstLastIgnoresEdgeDirection`, `Heading.MidlineIgnoresEdgeDirection`).
- The majority heading points from the fuller to the emptier side except when level pixels alone made one side the
  fuller (`Heading.MidlinePointsAway`).
- The two stripe scanners agree exactly if every run of positive samples that is long enough to be a crest starts
  with a sample of exactly 1 (`Stripes.AgreeEverywhere`, `Stripes.ScannersAgree`), for instance on 0/1 masks. On a mask
  of 0 and 255 only the nested scanner finds anything (`Stripes.ScannersDiffer`, `Stripes.NoOnesNoCrests`).
- A scan line drawn from its other end passes the same pixels exactly if its longer side is not divisible by a higher
  power of two than its shorter side; otherwise some step is an exact tie (`ReversedLines.LineReverses`,
  `ReversedLines.TieExists`). Precisely then some mask shows different numbers of stripes in the two directions
  (`ReversedLines.DirectionMatters`).
- The row of a rotated box still stands for the scaled box exactly if the resized sides keep their ratio, or the sine
  of its angle is 0, or the box is a point (`RotatedRows.ScaledRotatedBox`). Other boxes can leave the resized image
  (`RotatedRows.RotatedBoxSticksOut`).
- A box's best anchor learns the box's class, whatever the choice among equal maxima, exactly if all boxes this anchor
  overlaps most have that class (`Targets.BestAnchorLearnsClass`).
- Rows padded into a batch come back exactly when no box carries class -1 (`Collate.LossSeesBoxes`).
- An image cannot be resized, and its batch not collated, exactly when its shorter side would come out below 32
  pixels (`Collate.RescaleFails`).
- Letterboxing fails exactly on images too elongated for the target (`Letterbox.FailsOnlyWhenElongated`).
- A resumed training run starts from an empty record. It leaves in best.pth what the uninterrupted run would have
  left exactly when one of the two parts sets no record or the later part beats the earlier
  (`BestCheckpoint.ResumedFile`, `BestCheckpoint.TrainInTwoParts`); `BestCheckpoint.LosingRun` is a run that loses its best.
- On exact reals Dice can never decide between two epochs (`BestCheckpoint.DiceNeverDecides`). On floats it can, when two
  different sums round to the same score.

Code and comments disagree in places; the model follows the code. The comment above the best-checkpoint
bookkeeping (train.py line 161) announces a weighted mix of mAP, mIoU and Dice, the code compares mIoU + Dice. The flag
scanner's length test is in pixels of half a sample each.

## Model

| member | source | states |
|---|---|---|
| Bresenham.BresenhamLine | utils/lbr.py:64-96 | the loop ends for every pair of endpoints, in all octants, with exactly the reference line: at step n of the longer axis, the pixel nearest to the ideal segment |
| Bresenham.NearestDownIsNearest | utils/lbr.py:72-94 | the reference offset is within half a pixel of the ideal one, ties towards the start |
| Rounding.RoundUnique | utils/lbr.py:69-70 | the nearest integer, ties to even, is the only one that meets the specification of Python's rounding |
| Bresenham.NextPixel | utils/lbr.py:87-94 | the error term is (j+1)dx - (i+1)dy for i and j steps taken, and the two tests on the doubled term move exactly the axes that the ideal line asks for |
| Bresenham.WalkIsLine | utils/lbr.py:72-96 | any sequence of points that starts, steps and stops as the loop does is the reference line |
| Bresenham.Accuracy | utils/lbr.py:72-94 | every pixel satisfies 2 abs(j dx - i dy) <= max(dx, dy), with signs, in all octants |
| Bresenham.Endpoints | utils/lbr.py:83-96 | the line starts and ends at the given pixels, stays in the box they span, and meets the end point only in its last pixel |
| Bresenham.Connected | utils/lbr.py:88-94 | neighbours are 8-connected, both axes are monotone, the longer one moves every time |
| Bresenham.NoPixelTwice | utils/lbr.py:83-96 | no pixel is emitted twice |
| Stripes.RunsAreTheMaximalRuns | utils/lbr.py:924-934 | the specification's list is exactly the set of maximal runs of ones, left to right, separated by zeros |
| Stripes.OnlyOneOrder | utils/lbr.py:924-934 | that determines the list |
| Stripes.ScanRuns | utils/lbr.py:1090-1101 | the nested-while scanner returns the maximal runs of the minimum length, in order |
| Stripes.ScanCrests | utils/lbr.py:187-204 | the flag scanner with its trailing zero returns, in rising order, exactly the midpoints of the maximal runs with two samples or more whose length, at half a pixel per sample, is the required one or more; a sample other than 0 and 1 counts as the one before it |
| Stripes.NoOnesNoCrests | utils/lbr.py:187-204 | without a sample equal to 1 there is nothing to find |
| Stripes.AgreeEverywhere | utils/lbr.py:187-204 | on any non-negative samples and for any minimum length, the crests are the midpoints of the long runs of positive samples if and only if each of those starts with a sample of 1 |
| Stripes.ScannersAgree | utils/lbr.py:1090-1101 | the same of the two loops, the nested one reading every positive sample as foreground; on 0/1 samples they always agree |
| Stripes.ScannersDiffer | utils/lbr.py:187-204 | on 0, 255, 255, 0 the nested scanner finds a stripe and the flag scanner none |
| Stripes.CrestSampleIsOne | utils/lbr.py:206-213 | the sample a crest is mapped back to lies in its own run, so the guards after it drop nothing |
| WaveGaps.SampleAt | utils/lbr.py:913-922 | a sample is 1 exactly if the mask is positive at the pixel's row and column, or at the nearest pixel of the mask for one outside |
| WaveGaps.GapSteps | utils/lbr.py:940-947 | every gap between neighbouring stripes is at least two steps, so the filter for positive gaps drops none |
| WaveGaps.GapsConserveSpan | utils/lbr.py:940-947 | gaps and stripes add up to the distance from the first start to the last end |
| WaveGaps.GapsFitLine | utils/lbr.py:924-947 | the gaps on L samples add up to at most L - 1 steps |
| WaveGaps.MetresFitLine | utils/lbr.py:985-993 | the gaps in metres add up to at most the length of the line |
| WaveGaps.TrimmedMeanIsRobust | utils/lbr.py:994-1000 | with three gaps or more the trimmed mean lies between the second smallest and the second largest |
| WaveGaps.TrimmedMeanIsMean | utils/lbr.py:992-1000 | with n >= 3 gaps (n - 2) times the mean plus the smallest and the largest gap is the sum of all; with one or two, n times the mean is |
| WaveGaps.CalcWaveGaps | utils/lbr.py:881-1019 | the whole measurement on the mask's samples along the line: stripes are its maximal runs, one gap per neighbouring pair, in metres the part of the line's length that it is of the line's steps; a mean exactly when there are two stripes, which is the mean of the gaps without the smallest and the largest; and the bounds above |
| ReversedLines.TieExists | utils/lbr.py:72-94 | a line has a step that ends exactly half-way between two pixels if and only if its longer side is divisible by a higher power of two than its shorter |
| ReversedLines.LineReverses | utils/lbr.py:64-96 | drawn from the other end a line is its own reverse if and only if it has no such step |
| ReversedLines.RunsReversed | utils/lbr.py:924-934 | samples read backwards have the mirrored stripes in reverse order |
| ReversedLines.MeasureBothWays | utils/lbr.py:881-1019 | two measurements of such a line in opposite directions have mirrored stripes, reversed gaps and the same mean |
| ReversedLines.DirectionMatters | utils/lbr.py:839-878 | the number of stripes is independent of the direction on every mask if and only if the line has no such step |
| Outliers.MedianSplits | utils/lbr.py:1031-1033 | at least half of the values do not exceed the median |
| Outliers.MedianIsMiddle | utils/lbr.py:1031-1033 | the median is the mean of the two values in the middle of the sorted ones, which are the same if their number is odd |
| Outliers.MadKeeps | utils/lbr.py:1021-1041 | MAD rejection keeps exactly the values nearer to the median than the threshold times 1.4826 median deviations, as often as they occur |
| Outliers.DeviationAt | utils/lbr.py:1031-1033 | deviations are the absolute differences from the median, one per value |
| Outliers.MadKeepsHalf | utils/lbr.py:1021-1041 | above the threshold 1/1.4826, MAD rejection keeps at least half of any input |
| Outliers.MadThresholdIsExact | utils/lbr.py:1021-1041 | it does so for all inputs if and only if the threshold is above that |
| Outliers.IqrKeepsMiddle | utils/utils.py:368-378 | the IQR filter keeps the middle order statistic |
| Outliers.IqrKeeps | utils/utils.py:368-373 | the IQR filter keeps exactly the spacings that are not negative and at most one and a half times the quartiles' distance outside the quartiles, which are interpolated between the sorted spacings |
| Outliers.ProjectionsMean | utils/utils.py:355-366 | crests are the projections of exactly the components of the minimum area |
| Outliers.WavelengthMeans | utils/utils.py:343-379 | the wavelength is the median of those gaps between neighbouring projections that the filter keeps |
| Outliers.WavelengthOfFew | utils/utils.py:343-379 | with two or three crests it is their extent divided by the number of gaps |
| Outliers.WavelengthExists | utils/utils.py:343-379 | a wavelength comes out if and only if two components survive the area filter, and it is between 0 and the extent of their projections |
| Ordering.SortBySorts | utils/map.py:510 | sorting gives an ascending permutation |
| Ordering.SortByUnique | utils/map.py:510 | any ascending arrangement that keeps equal keys in order is the model's, so the model does not depend on the algorithm |
| Matching.BestOverlap | utils/map.py:568-582 | the loop finds the first box of the class with the largest overlap among those that intersect, or none if none does |
| Matching.Store.AssignDetections | utils/map.py:535-625 | a detection is a true positive exactly if it is the first in ranked order to claim a box that is not difficult, is ignored exactly if its box is difficult, and is a false positive otherwise; afterwards exactly the claimed boxes that count are marked used |
| Matching.HitMeans | utils/map.py:568-616 | a detection is a true positive exactly if, of the boxes of its class and image it intersects, the first it overlaps most is overlapped enough, is not difficult, and is no earlier detection's |
| Matching.HitOrMiss | utils/map.py:604-623 | tp + fp is 1 for every detection, 0 for those whose box is difficult |
| Matching.OneHitPerBox | utils/map.py:604-623 | of all detections that claim a box only the highest ranked can be a hit |
| Matching.TotalIsBoxesHit | utils/map.py:604-616 | the number of hits is the number of different boxes hit |
| Matching.HitsAreUsedBoxes | utils/map.py:412-434 | the number of hits is the number of boxes marked used and at most the class's ground-truth count |
| Matching.OtherClassesUntouched | utils/map.py:535-625 | evaluating a class leaves the flag of every box of another class as it was |
| AveragePrecision.CumulativeSum | utils/map.py:684-691 | the in-place loop leaves prefix sums of the old contents |
| AveragePrecision.Envelope | utils/map.py:127-129 | the backward in-place loop leaves at every position the largest old value from there on |
| AveragePrecision.SuffixMaxIsMax | utils/map.py:127-129 | that value is an upper bound and is attained |
| AveragePrecision.VocAp | utils/map.py:103-136 | sentinels and the sum over recall changes give the interpolated area of any recall/precision curve |
| AveragePrecision.StepSumIsArea | utils/map.py:130-136 | skipping equal recalls and adding sentinels changes nothing |
| AveragePrecision.AreaIsPeaksAtHits | utils/map.py:121-136 | on curves built from flags the area is 1/npos times the sum, over the true positives, of the best precision from there on |
| AveragePrecision.AtMostFinalRecall | utils/map.py:693-703 | average precision is between 0 and the final recall |
| AveragePrecision.RecallsRise | utils/map.py:693-695 | recall never falls along the ranking and never exceeds 1 |
| AveragePrecision.TrailingMissIsFree | utils/map.py:684-703 | a false positive ranked below everything else does not change average precision |
| AveragePrecision.PrecisionRecall | utils/map.py:684-703 | from flags to average precision in the reference sense; precision times the detections so far plus 0.000001 is the number of hits so far, recall times the ground-truth count is too |
| AveragePrecision.PrecisionIsNearShare | utils/map.py:697-699 | precision is at most the share of hits and less than 0.000001 below it |
| AveragePrecision.HitsAfterMisses | utils/map.py:684-703 | t hits ranked behind f misses have average precision t / npos * t / (t + f + 0.000001) |
| AveragePrecision.PerfectRanking | utils/map.py:684-703 | finding all npos boxes without a miss gives npos / (npos + 0.000001) |
| AveragePrecision.EvaluateClass | utils/map.py:510-703 | one class from detections to result: ranked by falling confidence, flags as declared, precision and recall the shares of hits, recall in [0, 1] and rising, average precision by the reference definition and at most the final recall |
| AveragePrecision.EvaluateAll | utils/map.py:515-762 | in the loop over classes every class gets the average precision it would get alone on untouched files, and mAP is their mean, in [0, 1] |
| AveragePrecision.SameBoxesSameAp | utils/map.py:535-625 | what other classes have marked as used does not change a class's average precision |
| AveragePrecision.OrderDoesNotMatter | utils/map.py:762 | any order of the classes gives the same mean |
| CodeCache.Bisect | utils/overlaps_cuda/rbbox_overlaps.cpp:5837-5857 | the search returns the lower bound of the line, although it decides by its last probe |
| CodeCache.Cache.Find | utils/overlaps_cuda/rbbox_overlaps.cpp:5858-5871 | a lookup answers as the finite map does |
| CodeCache.Cache.Insert | utils/overlaps_cuda/rbbox_overlaps.cpp:5872-5914 | an insertion updates the finite map, keeps the array sorted, grows it when it is full, and does nothing when memory is refused |
| CodeCache.Cache.Grow | utils/overlaps_cuda/rbbox_overlaps.cpp:5897-5906 | growing by 64 keeps the contents |
| CodeCache.InsertEntry | utils/overlaps_cuda/rbbox_overlaps.cpp:5907-5912 | the backward shift makes room for the new entry and loses none |
| CodeCache.Added | utils/overlaps_cuda/rbbox_overlaps.cpp:5907-5913 | inserting at the lower bound keeps strict order and adds one binding to the map |
| CodeCache.NeverStale | utils/overlaps_cuda/rbbox_overlaps.cpp:5858-5914 | after any history, whatever the allocator refuses, a lookup yields nothing or the last object inserted at the line |
| CodeCache.FindsLastInserted | utils/overlaps_cuda/rbbox_overlaps.cpp:5858-5914 | with no refusals it yields exactly that, across growth and shifting |
| CodeCache.Replay | utils/overlaps_cuda/rbbox_overlaps.cpp:5837-5914 | the array-based cache, driven through any history, answers every lookup as the map does |
| IntConversion.ReassemblyIsExact | utils/overlaps_cuda/rbbox_overlaps.cpp:6494-6531 | under the width guard the shift/or expression drops no bit and is the sum of the digits times powers of 2^SHIFT |
| IntConversion.VerifySigned | utils/overlaps_cuda/rbbox_overlaps.cpp:6018-6038 | for signed intermediates the narrowing check returns the value if it fits and an overflow otherwise |
| IntConversion.VerifyUnsigned | utils/overlaps_cuda/rbbox_overlaps.cpp:6018-6038 | for unsigned intermediates it is right if and only if the value is below the top of the range |
| IntConversion.AsIntIsExact | utils/overlaps_cuda/rbbox_overlaps.cpp:6486-6554 | for any digit width and type widths the conversion gives sign times digits exactly if the target has it, an overflow otherwise |
| IntConversion.AsSsizeIsExact | utils/overlaps_cuda/rbbox_overlaps.cpp:7272-7315 | the same for the index conversion, which has no narrowing check |
| IntConversion.DigitsRoundTrip | utils/overlaps_cuda/rbbox_overlaps.cpp:7272-7315 | a number's digits stand for the number |
| IntConversion.RoundTrip | utils/overlaps_cuda/rbbox_overlaps.cpp:6486-6554 | an integer written as digits and converted back is itself exactly when the target has it |
| FeatureGrid.ConvOutIsCeil | models/FcaNet.py:6-11 | a convolution with an odd window and half-window padding divides a side by its stride, rounding up |
| FeatureGrid.NestedCeil | models/anchors.py:38-39 | rounding up twice is rounding up once by the product |
| FeatureGrid.Block.PathsAgree | models/FcaNet.py:109-182 | main and residual path of a block have the same shape, for both kinds of block |
| FeatureGrid.ResNet.MakeLayer | models/FcaNet.py:231-251 | the blocks of a stage fit each other, and the downsampling is there exactly where a residual needs it |
| FeatureGrid.ResNet.constructor | models/FcaNet.py:187-217 | the four stages fit each other, for any depth, kind and choice of dilation |
| FeatureGrid.Features | models/FcaNet.py:253-268 | C3, C4 and C5 have the image's sides divided by their total strides, rounded up, for every image size |
| FeatureGrid.Attention | models/MultiScaleAttMod.py:19-36 | for maps of any two sizes all views and products of the attention module fit, and the result has the shape of the low map |
| FeatureGrid.Pyramid | models/FPAN.py:31-76 | every sum of maps in the pyramid, including those with the attention outputs, is of equal shapes, and P3 to P7 have these shapes |
| AnchorRows.ShiftAt | models/anchors.py:78-91 | row (y w + x) A + a of a level is anchor a at the centre of cell (y, x) |
| AnchorRows.AnchorLiesInCell | models/anchors.py:79-93 | on the coordinates of any row: the base anchor is moved by (x + 1/2) strides in x and (y + 1/2) strides in y, size and angle unchanged, strides being 8 to 128; one centred on the origin comes to lie in the middle of its own cell's patch of pixels, which begins inside the image |
| AnchorRows.HeadRowAt | models/heads.py:38-45 | after permute and reshape, row (y w + x) A + a holds channels a K to a K + K - 1 of cell (y, x) |
| AnchorRows.IndexInjective | models/anchors.py:41-50 | different (level, y, x, anchor) have different rows |
| AnchorRows.IndexSurjective | models/anchors.py:41-50 | every row belongs to one |
| AnchorRows.AnchorsForward | models/anchors.py:37-56 | the loop concatenates the levels in order |
| AnchorRows.PyramidMeetsGrids | models/model.py:166-174 | for every image size the network's levels have exactly the generator's grid sizes |
| AnchorRows.RowsAligned | models/model.py:241-242 | row i of the anchors and row i of a head belong to the same level, cell and anchor, the anchor lying in the middle of the cell's pixels, and there are equally many |
| AnchorRows.OnlyWithoutDilation | models/FcaNet.py:203-214 | this holds for all images if and only if no stride is replaced by dilation |
| BaseAnchors.GenerateAnchors | models/anchors.py:59-75 | there is one anchor per ratio, rotation and scale, at row (r O + o) S + s |
| BaseAnchors.BaseAnchorIsBase | models/anchors.py:59-75 | an anchor is centred on the origin, has the area of its scale's square, its height-to-width ratio and its rotation |
| DctFilter.GetDctFilter | models/FcaNet.py:69-78 | channel c of the filter holds the basis of frequency c / (channels per frequency), and channels beyond the last frequency stay zero |
| DctFilter.NoChannelLeft | models/FcaNet.py:49-52 | no channel is left over if and only if the asserted divisibility holds |
| Sppf.SizeKeptIffOdd | utils/SPPF.py:9 | pooling keeps the map size, as the concatenation needs, if and only if the window is odd |
| Sppf.PoolIsMax | utils/SPPF.py:9 | pooling yields the largest value of the map within reach, padding never counted |
| Sppf.PoolTwice | utils/SPPF.py:12-17 | two poolings are one with the sum of the radii, borders included |
| Sppf.ChainIsLargePools | utils/SPPF.py:12-17 | the chain is the same as single poolings with windows k, 2k-1 and 3k-2 |
| Flip.NormalizeAngle | datasets/wake_dataset.py:77-92 | the loops end between -180 exclusive and 180 inclusive, or the same in radians, at an angle a whole number of turns away |
| Flip.NormalizedUnique | datasets/wake_dataset.py:77-92 | there is only one such angle |
| Flip.HflipRboxes | datasets/wake_dataset.py:247-282 | every rotated box becomes its mirror image with a normalised angle |
| Flip.HflipPolys | datasets/wake_dataset.py:247-282 | every polygon becomes its mirror image, in place |
| Flip.HflipAabbs | datasets/wake_dataset.py:247-282 | every upright box becomes its mirror image, left and right exchanged |
| Flip.FlipTwice | datasets/wake_dataset.py:247-282 | flipping twice restores a rotated box if and only if its angle was normalised |
| Flip.FlipTwicePoly | datasets/wake_dataset.py:247-282 | polygons and upright boxes are always restored |
| Flip.FlipFollowsImage | datasets/wake_dataset.py:247-282 | boxes and points lie over the same pixels of the flipped image as of the image |
| Flip.FlipMirrors | datasets/wake_dataset.py:247-282 | in every format, the x coordinates of a point and its image add up to W - 1, and y stays |
| Flip.PolyIsRectangle | datasets/wake_dataset.py:47-67 | the four corners form a rectangle around the centre with the box's sides, the first along its angle, the second a quarter turn further |
| Flip.AabbIsTight | datasets/wake_dataset.py:70-74 | the upright box contains all corners and each of its sides touches one |
| Flip.FlipCommutesWithPoly | datasets/wake_dataset.py:47-67 | the polygon of the flipped box is the flipped polygon, corners in reverse order |
| Flip.FlipCommutesWithAabb | datasets/wake_dataset.py:70-74 | the upright box of the flipped box is the flipped upright box |
| Heading.CorrectHeading | utils/wavelength.py:374-490 | the votes for and against are the numbers of voters that lie from the largest component along the edge and against it; the heading is turned by 180 degrees, into the range from 0 up to 360, exactly when those against win; votes and skips add up to all voters but the base |
| Heading.VoteMeans | utils/wavelength.py:446-466 | a vote is for exactly if the component is at least 0.000001 off and the dot product with the edge is at least dotEps times the two lengthened norms, against if it is at most the negative of that |
| Heading.UnanimousVote | utils/wavelength.py:446-475 | if all voters lie along the edge the heading stays, if all lie against it it is turned |
| Heading.VotersAreLargest | utils/wavelength.py:419-424 | voters are in falling order of size, as many as asked for, and no other component that passes the filter is larger |
| Heading.LargeMeans | utils/wavelength.py:409-415 | the filter keeps exactly the components of the minimum area, each as often as it occurs |
| Heading.BaseIsLargest | utils/wavelength.py:423-428 | the component all others are compared with is the largest one |
| Heading.TallySwaps | utils/wavelength.py:446-475 | the opposite edge swaps the votes |
| Heading.VoteIgnoresEdgeDirection | utils/wavelength.py:423-475 | the corrected heading is the same, mod 360, for both directions of the edge if and only if the vote is not tied |
| Heading.ResolveByFirstLast | utils/utils.py:571-660 | the loops over components resolve the heading as promised: on the side with more pixels, from the larger of its first nearest and last farthest component towards the smaller |
| Heading.NearestAgainstFarthest | utils/utils.py:636-651 | what the stable sort by distance compares is the first nearest with the last farthest component of the side |
| Heading.OneSidedWake | utils/utils.py:606-651 | with all components on one side of the ship the heading points to that side if the first nearest is at least as large as the last farthest, else the other way |
| Heading.FirstLastIgnoresEdgeDirection | utils/utils.py:606-651 | exactly when the answer is the same for both directions of the edge, for any components |
| Heading.FirstLastWithoutLevel | utils/utils.py:606-651 | without a level component only sides of equal area whose near and far components agree make the direction decide |
| Heading.LevelComponentDecides | utils/utils.py:606-651 | a single component at the ship's place makes the answer depend on the direction, even though the sides differ |
| Heading.MidlinePointsAway | utils/utils.py:563-566 | counted on the pixels of the corridor: what lies strictly ahead of the heading never outnumbers the rest, and strictly ahead never outnumbers strictly behind exactly unless level pixels alone made the front the fuller side |
| Heading.MidlineIsSilent | utils/utils.py:521-561 | there is no heading exactly with too few pixels, none in the corridor, or sides that differ by less than the share tau of their sum |
| Heading.MidlineIgnoresEdgeDirection | utils/utils.py:540-566 | exactly when the majority rule gives the same answer for both directions of the edge, for any pixels |
| Heading.LevelPixelDecides | utils/utils.py:549-566 | a single pixel level with the centre makes the direction decide |
| Targets.AssignTargets | models/losses.py:74-88 | after all masked writes every anchor's row is one-hot for its box's class, all 0 or all -1, according to its overlaps: positive if one reaches the threshold or it is the best for a box none reaches it for, 0 if all are more than 0.1 below |
| Targets.RowsAreDistinct | models/losses.py:74-88 | the three kinds of row exclude each other and show the anchor's standing |
| Targets.BestAnchorIsPositive | models/losses.py:76-80 | every ground-truth box has a positive anchor, however small the overlap |
| Targets.BestAnchorLearnsItsBox | models/losses.py:74-88 | and that anchor learns the box's class if it overlaps no other box as much |
| Targets.BestAnchorLearnsClass | models/losses.py:74-88 | it learns that class for every choice among its row's maxima if and only if all boxes in whose column the maximum lies have it |
| Collate.KeptRatioFits | utils/utils.py:137-161 | with the aspect ratio kept no side exceeds the limit, in spite of the rounding in the test |
| Collate.RescaleIsResized | utils/utils.py:137-161 | with the ratio kept, each new side is the largest multiple of 32 up to the old one times target / shorter side, or times limit / longer side if the rounded longer side would exceed the limit, as inequalities on the inputs; without, both are the largest multiple up to the target |
| Collate.ResizedKeepsOrder | utils/utils.py:137-161 | the longer side stays the longer |
| Collate.RescaleFails | utils/utils.py:137-161 | the resize is refused if and only if the shorter side, at the scale chosen, is below 32 pixels, as an inequality on the inputs |
| Collate.ResizedIsLarge | utils/utils.py:137-161 | an image that is resized has sides of at least 32, multiples of 32 |
| Collate.NewSideShape | utils/utils.py:137-161 | new sides are multiples of 32, and without aspect ratio the largest within the target |
| Collate.ScaleFactorsExact | utils/utils.py:137-161 | boxes scaled by the returned factors fit the resized image exactly |
| Collate.ScaledBoxFits | datasets/collater.py:105-118 | an upright box or a polygon inside its image is, after scaling, inside the resized image, x with the width and y with the height; further columns are untouched |
| RotatedRows.ScaledRotatedBox | datasets/collater.py:105-118 | in the resized image the row of a rotated box has the corners of the box, scaled, if and only if the sides keep their ratio exactly, the sine of the angle is 0, or the box is a point |
| RotatedRows.RotatedBoxSticksOut | datasets/collater.py:105-118 | a rotated box from top to bottom of 100 rows comes to lie from row -25 to 75 when the height is halved |
| Collate.CanvasSize | datasets/collater.py:76-84 | the canvas holds every image and is no larger than the largest sides; there is none if and only if an image cannot be resized |
| Collate.Collate | datasets/collater.py:64-139 | there is a batch if and only if every image can be resized; then every image is resized as it should be, image and mask lie in the corner of their canvas with zeros around them, x coordinates of boxes are scaled by the ratio of widths, y by that of heights, rows are padded with -1 to one length, masks exist exactly if every sample has one |
| Collate.CanvasRoundTrip | datasets/collater.py:100-134 | cutting the image out of its canvas gives it back, and there is nothing but zeros around it |
| Collate.LossSeesBoxes | models/losses.py:53 | the filter on the last column gives back exactly the scaled boxes in order if and only if none has class -1 |
| Letterbox.RatioIsLargest | utils/letterbox.py:12 | the ratio is the largest at which both sides fit |
| Letterbox.InnerFits | utils/letterbox.py:13 | rounded sides still fit the target, and one of them fills it |
| Letterbox.PadsAreFair | utils/letterbox.py:15-20 | pads are non-negative, restore the target size exactly, and differ by at most one |
| Letterbox.FailsOnlyWhenElongated | utils/letterbox.py:12-22 | letterboxing asks for an empty side, which OpenCV refuses, if and only if 2 w newH <= h or 2 h newW <= w |
| Letterbox.LetterboxRoundTrip | utils/letterbox.py:35-48 | the result has the target size, its content keeps the aspect ratio to within half a pixel, at least one axis has no border, and un-letterboxing crops exactly the resized image |
| BestCheckpoint.BetterIsLexicographic | train.py:309-317 | the chain of tests is the lexicographic order on mIoU + Dice, mIoU, Dice, mAP |
| BestCheckpoint.DiceNeverDecides | train.py:314-315 | on exact reals the test on Dice alone never decides between two epochs |
| BestCheckpoint.EligibleMeans | train.py:162-170 | which metrics beat the initial values; all non-negative ones do |
| BestCheckpoint.Train | train.py:269-362 | after any run the record is the first evaluated epoch with the largest key, that is, of the multiples of the interval above 5 the first with the largest mIoU + Dice, then mIoU, then mAP; best.pth holds its weights, and was written at exactly the epochs that were the best so far |
| BestCheckpoint.BestIsUnique | train.py:300-331 | there is only one such epoch |
| BestCheckpoint.RecordExists | train.py:300-331 | with non-negative metrics there is a record as soon as one epoch has been evaluated |
| BestCheckpoint.ResumedRecord | train.py:131-164 | the records of two parts of a run determine the record of the whole: the later one if there is no earlier one or it beats it, else the earlier |
| BestCheckpoint.ResumedFile | train.py:131-164 | best.pth after a resume is that of the uninterrupted run if and only if one of the parts sets no record or the later beats the earlier |
| BestCheckpoint.TrainInTwoParts | train.py:131-164 | the same of three actual runs of the loop: two parts, the second from the epoch after the last one saved, and the whole |
| BestCheckpoint.LosingRun | train.py:131-164 | a run that is interrupted after its best epoch and overwrites it with a worse one |

## Left out

- Float rounding: all scores and coordinates are exact reals, so effects of float32 and float64 rounding are not modelled.
- Bresenham.BresenhamLine: the narrowing of the coordinates to int32 at the end is not modelled; Endpoints keeps every point in the box of the endpoints, so it loses nothing when those fit.
- Scan lines: where a line comes from (ridge points, minAreaRect, GeoTIFF geometry) and `find_centerline_edge_point` are inputs or omitted; the second copy of `bresenham_line` at utils/lbr.py:576-608 is the same code.
- mAP evaluation: reading and writing files, malformed input lines, the 11-point variant, the log-average miss rate and plots. The per-image JSON files are a map from file name to boxes.
- Matching.Store.AssignDetections: overlap thresholds of -1 or less are excluded; without a candidate the code's `gt_match` is then the integer -1, and the `in` test at utils/map.py:604 raises a TypeError.
- CodeCache.Cache.Insert: does not model reference counts, which the replacement path does not conserve, nor the overflow of the C `int` that holds the capacity.
- IntConversion.AsIntIsExact: covers signed target types; the generated branch for unsigned ones is not modelled, nor are the branches for PyPy and for objects that are not integers.
- FeatureGrid.Pyramid: tensor values are not modelled; `F.interpolate` yields the size it is asked for.
- DctFilter.GetDctFilter: values of the basis and the table of frequency indices are not modelled.
- AnchorRows.RowsAligned: speaks of one image; the batch dimension is in front of all reshapes and is untouched by them.
- BaseAnchors.GenerateAnchors: the columns of the table are filled row by row instead of column by column.
- Flip.FlipCommutesWithPoly: is about angles in radians; `rbox_to_poly` takes cosine and sine of the angle as it is, so boxes in degrees have to be converted first.
- Sppf.ChainIsLargePools: the two 1x1 convolutions around the pooling act on single positions and are not modelled.
- Heading.CorrectHeading: labelling the mask and measuring the components is OpenCV's; components come as areas and centroids. A `topK` below 1 is excluded: 0 makes the code fail, and a negative one drops the smallest components.
- Targets.AssignTargets: images without ground-truth boxes skip this code; the losses computed from the targets are not modelled.
- Collate.Collate: the random choice of the scale is the parameter `targetSize`; the boxes of the samples are scaled in a copy, where the code scales them in place; images have one channel and are not normalised.
- Letterbox.LetterboxRoundTrip: images have one channel, and the mask goes through the same function with border 0.
- BestCheckpoint.Train: what an epoch computes is a parameter; the test interval 0, on which the code divides by zero, is excluded; the periodic deploy files and the result log are not modelled.
- BoxCoder, NMS, GDAL contouring, the Cython wrappers, the augmentation pipeline, optimisers and losses are not modelled.
