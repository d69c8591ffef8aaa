# covalic core, modelled in Dafny

This project models the validation and perturbation core of covalic, a toolkit for scoring
image-segmentation challenges: the programs that perturb ground-truth label images, the
surface-to-surface metrics and the metric aggregators, the surface file reader, the report that
validateLabelImages prints, and the two Python scripts that turn that report into scores and
rank-aggregation weights. Each module follows one source file or one family of headers:

| module | file | what it models |
|---|---|---|
| `Wrappers` | wrappers.dfy | `Option` and `Result` for error paths and exceptions |
| `Text` | text.dfy | Python's `str.split`, `in`/`find`, `int()` on decimal text (blanks and sign as Python 2 reads them), `str()` on naturals, `os.path.basename`/`join` |
| `PerturbMorphology` | perturb_morphology.dfy | PerturbImageLabelsMorphology: per iteration a random label is thinned, dilated or eroded and refilled from the nearest other label; imperative over a voxel `array` |
| `SliceVolume` | slice_volume.dfy | the 2D-as-3D tools' slicing axis, slice extraction and write-back into an `array3` |
| `PerturbMorphologySlice` | perturb_morphology_slice.dfy | PerturbImageLabelsMorphology2Das3D: the morphology engine on the slice |
| `PerturbBSplineSlice` | perturb_bspline_slice.dfy | PerturbImageLabelsBSpline2Das3D: random B-spline parameters and nearest-neighbour resampling of the slice |
| `RandomizeLabel` | randomize_label.dfy | randomizeLabel: each label randomly dilated and merged into a fresh volume, ties broken by a coin |
| `Surfaces` | surfaces.dfy | surfaces as point and cell lists, squared distances, the closest-point locator |
| `SurfaceMetrics` | surface_metrics.dfy | SurfaceToSurfaceMetric and its ClosestDistance, Hausdorff (percentile) and Haussdorff (max-max) subclasses, as classes |
| `Aggregators` | aggregators.dfy | the Image and Surface metric aggregators with their Linear, Max and Min scores |
| `SurfaceIO` | surfio.dfy | surfio: the reader and writer choice by extension, and the OFF and ASC readers over a token stream |
| `ValidationReport` | validation_report.dfy | the lines validateLabelImages prints and the exit codes of its main |
| `RankWeights` | rank_weights.dfy | computeRankWeights.py: getMetricValues, getSubjectKey and the submission search, metric order and names, Jaccard removal, the competition weights |
| `ScoreSubmission` | score_submission.dfy | scoreSubmission.py: matchInputFile, runScoring and scoreAll |

Operations that loop or update state are methods proved against specification functions (for
example `GetMetricValues` against `Fold`, `ScoreAll` against `ScoresOf`, the surface readers
against `Repeat` of a one-item reader); the properties the code and its design promise are lemmas
about those functions: round trips (a written OFF or ASC surface reads back, the report
validateLabelImages prints parses back into its values), last-write-wins and NaN-for-missing in
the metric reader, the bounds of the aggregate scores, the bijection of the slice write-back.

## Model

| member | source | states |
|---|---|---|
| PerturbMorphology.MaxLabel | Code/Applications/PerturbImageLabelsMorphology/PerturbImageLabelsMorphology.cxx:47-55 | the maximum label is the largest voxel value, starting from 0 (MaxValue) |
| PerturbMorphology.MaxValueBounds | Code/Applications/PerturbImageLabelsMorphology/PerturbImageLabelsMorphology.cxx:47-55 | that maximum bounds every voxel, is never negative, and is 0 or the value of some voxel |
| PerturbMorphology.MaxZeroIsAllBackground | Code/Applications/PerturbImageLabelsMorphology/PerturbImageLabelsMorphology.cxx:47-60 | for the unsigned pixel type, the maximum label is 0 exactly when every voxel is background: the early return leaves only all-background volumes unperturbed |
| PerturbMorphology.CountLabels | Code/Applications/PerturbImageLabelsMorphology/PerturbImageLabelsMorphology.cxx:78-92 | labelCounts[k] is the number of voxels holding k for every k in 0..maxLabel, and totalCount the number of non-background voxels |
| PerturbMorphology.NoForegroundIffAllBackground | Code/Applications/PerturbImageLabelsMorphology/PerturbImageLabelsMorphology.cxx:90-100 | totalCount is 0 exactly when every voxel is background, the condition that ends the iterations |
| PerturbMorphology.TotalIsNonBackground | Code/Applications/PerturbImageLabelsMorphology/PerturbImageLabelsMorphology.cxx:79-92 | totalCount plus the count of label 0 is the number of voxels |
| PerturbMorphology.PickLabel | Code/Applications/PerturbImageLabelsMorphology/PerturbImageLabelsMorphology.cxx:102-111 | the rejection loop returns the first drawn label whose count is non-zero (FirstPresent) |
| PerturbMorphology.FirstPresentIsPresent | Code/Applications/PerturbImageLabelsMorphology/PerturbImageLabelsMorphology.cxx:105-111 | a label is picked exactly when some draw hits a present label; the picked label is present and every earlier draw missed |
| PerturbMorphology.BackgroundCanBePicked | Code/Applications/PerturbImageLabelsMorphology/PerturbImageLabelsMorphology.cxx:107-110 | draws range over 0..maxLabel, so the background label is picked when it is present and drawn first |
| PerturbMorphology.ThinKernel | Code/Applications/PerturbImageLabelsMorphology/PerturbImageLabelsMorphology.cxx:134-140 | the structuring element after thinning: a cell stays on only if it was on and its coin was at most 0.5 |
| PerturbMorphology.ThinnedWithinBall | Code/Applications/PerturbImageLabelsMorphology/PerturbImageLabelsMorphology.cxx:134-140 | thinning only switches cells off: the thinned element is within the ball |
| PerturbMorphology.OverwriteMasked | Code/Applications/PerturbImageLabelsMorphology/PerturbImageLabelsMorphology.cxx:162-183 | after the dilate branch each voxel under the dilated mask holds the picked label and every other voxel is unchanged |
| PerturbMorphology.OverwrittenInRange | Code/Applications/PerturbImageLabelsMorphology/PerturbImageLabelsMorphology.cxx:176-183 | the dilate branch keeps every voxel in 0..maxLabel |
| PerturbMorphology.LabelDistanceMaps | Code/Applications/PerturbImageLabelsMorphology/PerturbImageLabelsMorphology.cxx:191-212 | one distance map per label 0..maxLabel, each computed from the threshold mask of that label in the current volume |
| PerturbMorphology.ClosestLabel | Code/Applications/PerturbImageLabelsMorphology/PerturbImageLabelsMorphology.cxx:235-249 | the scan at one voxel returns NearestOtherLabel of the labels' distance-map values |
| PerturbMorphology.ClosestAmongSpec | Code/Applications/PerturbImageLabelsMorphology/PerturbImageLabelsMorphology.cxx:235-249 | the scan keeps the picked label at distance 1e+20 when no other label is closer than that; otherwise it returns the lowest non-picked label of least absolute distance |
| PerturbMorphology.NearestOtherLabelSpec | Code/Applications/PerturbImageLabelsMorphology/PerturbImageLabelsMorphology.cxx:223-251 | a removed voxel receives a label other than the picked one with the smallest absolute distance (lowest label on ties), or keeps the picked label when no distance is below 1e+20 |
| PerturbMorphology.FillEroded | Code/Applications/PerturbImageLabelsMorphology/PerturbImageLabelsMorphology.cxx:223-252 | after the erode branch, voxels where the mask and the eroded mask agree are unchanged and the others hold the nearest other label |
| PerturbMorphology.RefilledInRange | Code/Applications/PerturbImageLabelsMorphology/PerturbImageLabelsMorphology.cxx:225-252 | the erode branch keeps every voxel in 0..maxLabel |
| PerturbMorphology.IterationKeepsRange | Code/Applications/PerturbImageLabelsMorphology/PerturbImageLabelsMorphology.cxx:76-255 | an iteration never introduces a label: the volume keeps its size and every voxel stays in 0..maxLabel |
| PerturbMorphology.PerturbIteration | Code/Applications/PerturbImageLabelsMorphology/PerturbImageLabelsMorphology.cxx:76-255 | one iteration on the volume in place equals IterationResult of the old volume; it stops exactly when there is no foreground or no label is drawn, and keeps the labels in range |
| PerturbMorphology.Iterate | Code/Applications/PerturbImageLabelsMorphology/PerturbImageLabelsMorphology.cxx:76-255 | the iteration loop as a fold over IterationResult: the volume keeps its size and every voxel stays in 0..maxLabel; a pass with no foreground leaves the volume as it is (the break), a pass whose draws hit no present label gives up |
| PerturbMorphology.Settled | Code/Applications/PerturbImageLabelsMorphology/PerturbImageLabelsMorphology.cxx:97-111 | once the loop has broken off (no foreground) or given up (no label drawn), further passes change neither the volume nor the outcome |
| PerturbMorphology.EngineResult | Code/Applications/PerturbImageLabelsMorphology/PerturbImageLabelsMorphology.cxx:47-263 | nothing is perturbed exactly when the maximum label is 0, and then the volume is kept; otherwise the volume after the iterations keeps its size and every voxel stays within 0..the original maximum |
| PerturbMorphology.PerturbImageLabels | Code/Applications/PerturbImageLabelsMorphology/PerturbImageLabelsMorphology.cxx:27-267 | the volume in place afterwards, and the outcome, are EngineResult of the volume read: untouched without writing when the maximum label is 0, otherwise the fold of the iterations |
| PerturbMorphology.PerturbMain | Code/Applications/PerturbImageLabelsMorphology/PerturbImageLabelsMorphology.cxx:269-315 | iterations < 1 or radius < 1 exits with -1 before the volume is read, and so does a reader that throws; otherwise the volume is EngineResult of the one read, and main exits with -1 when the writer is reached and throws, 0 otherwise |
| SliceVolume.SliceAxis | Code/Applications/PerturbImageLabelsMorphology2Das3D/PerturbImageLabelsMorphology2Das3D.cxx:100-108 | the corrected axis detection: the first axis of size 1 (0, 1 or 2), none exactly when no axis has size 1 |
| SliceVolume.VolumeSliceAxis | Code/Applications/PerturbImageLabelsBSpline2Das3D/PerturbImageLabelsBSpline2Das3D.cxx:93-101 | (corrected axis) the detected axis is at most 2 and the volume has size 1 along it |
| SliceVolume.SliceAxisAsWrittenIsZero | Code/Applications/PerturbImageLabelsBSpline2Das3D/PerturbImageLabelsBSpline2Das3D.cxx:98-101 | as written, an axis is detected exactly when the corrected detection finds one, and it is always axis 0 |
| SliceVolume.SliceAxisAsWrittenMissesSecondAxis | Code/Applications/PerturbImageLabelsMorphology2Das3D/PerturbImageLabelsMorphology2Das3D.cxx:105-106 | as written, a 3 x 1 x 4 volume is sliced along axis 0 where axis 1 is the one of size 1 |
| SliceVolume.ExtractSlicePixel | Code/Applications/PerturbImageLabelsMorphology2Das3D/PerturbImageLabelsMorphology2Das3D.cxx:49-77 | pixel (k, l) of the extracted slice sits at k + s0 * l in its buffer and is the voxel VoxelOf(axis, k, l), which lies inside the volume |
| SliceVolume.SliceCoversVolume | Code/Applications/PerturbImageLabelsBSpline2Das3D/PerturbImageLabelsBSpline2Das3D.cxx:44-71 | along an axis of size 1 the slice has exactly as many pixels as the volume has voxels |
| SliceVolume.VoxelOfIsPlaneBijection | Code/Applications/PerturbImageLabelsMorphology2Das3D/PerturbImageLabelsMorphology2Das3D.cxx:329-333 | the corrected write-back target is a bijection between slice pixels and the voxels of the plane |
| SliceVolume.VoxelOfAsWrittenCollides | Code/Applications/PerturbImageLabelsMorphology2Das3D/PerturbImageLabelsMorphology2Das3D.cxx:333 | as written, with the third axis sliced, pixels (0, 0) and (0, 1) go to the same voxel |
| SliceVolume.WriteBack | Code/Applications/PerturbImageLabelsMorphology2Das3D/PerturbImageLabelsMorphology2Das3D.cxx:315-337 | (corrected (k, l, 0) target) after the write-back loop each voxel on the plane holds its slice pixel and every voxel off the plane is unchanged |
| SliceVolume.WriteRow | Code/Applications/PerturbImageLabelsMorphology2Das3D/PerturbImageLabelsMorphology2Das3D.cxx:321-336 | one pass of the inner loop writes the pixels (k, l) of one k and leaves every other voxel unchanged |
| PerturbMorphologySlice.PerturbSliceLabels | Code/Applications/PerturbImageLabelsMorphology2Das3D/PerturbImageLabelsMorphology2Das3D.cxx:79-346 | (corrected axis) -1 and no change for a volume with no axis of size 1; otherwise 0, the volume unchanged when the slice's maximum label is 0, else every voxel holding the engine's result (EngineResult of the slice) for its pixel, all within 0..that maximum; the writer is reached exactly when the engine completes |
| PerturbMorphologySlice.SliceWithinMax | Code/Applications/PerturbImageLabelsMorphology2Das3D/PerturbImageLabelsMorphology2Das3D.cxx:113-127 | along an axis of size 1 every voxel is a slice pixel, so none exceeds the slice's maximum label |
| PerturbMorphologySlice.PerturbSliceMain | Code/Applications/PerturbImageLabelsMorphology2Das3D/PerturbImageLabelsMorphology2Das3D.cxx:348-394 | (corrected axis) iterations < 1 or radius < 1, or a reader that throws, exits with -1 and no change; a volume the tool rejects as 3D exits with 0 and no change; otherwise every voxel holds the engine's result for its pixel, and main exits with -1 when the writer is reached and throws, 0 otherwise |
| PerturbBSplineSlice.DrawParameters | Code/Applications/PerturbImageLabelsBSpline2Das3D/PerturbImageLabelsBSpline2Das3D.cxx:128-136 | the parameter buffer holds the first NumberOfParameters normal draws, in order |
| PerturbBSplineSlice.PerturbSliceBSpline | Code/Applications/PerturbImageLabelsBSpline2Das3D/PerturbImageLabelsBSpline2Das3D.cxx:73-187 | (corrected axis) -1 and no change for a volume with no axis of size 1; otherwise 0, and every voxel holds its pixel of the slice resampled with the first NumberOfParameters(gridNodes) normal draws as parameters, hence background or a value of the slice before |
| PerturbBSplineSlice.PerturbBSplineMain | Code/Applications/PerturbImageLabelsBSpline2Das3D/PerturbImageLabelsBSpline2Das3D.cxx:189-237 | (corrected axis) a variance that is not positive, fewer than 4 grid nodes or a reader that throws exits with -1 and no change; a volume the tool rejects as 3D exits with 0 and no change; otherwise every voxel holds its resampled pixel and main exits with -1 when the writer throws, 0 otherwise |
| RandomizeLabel.MaxOf | Code/Testing/randomizeLabel.cxx:53-60 | the maximum bounds every voxel of the input and is the value of some voxel |
| RandomizeLabel.MergedVoxel | Code/Testing/randomizeLabel.cxx:88-98 | a voxel outside the dilated mask keeps its value; a background voxel inside it takes the label; a labelled voxel inside it keeps its value or takes the label |
| RandomizeLabel.MergeVoxel | Code/Testing/randomizeLabel.cxx:88-97 | the loop body at one voxel yields MergedVoxel with the next coin, and draws a coin exactly when the voxel is covered and already labelled |
| RandomizeLabel.MergeLabel | Code/Testing/randomizeLabel.cxx:81-99 | the merge loop for one label leaves the output equal to Merged of the old output, and advances the coin cursor by one draw per covered voxel that already held a label |
| RandomizeLabel.MergeNextLabel | Code/Testing/randomizeLabel.cxx:62-101 | one pass of the label loop (threshold, random dilation, merge) takes the output of labels 1..lbl-1 to that of labels 1..lbl |
| RandomizeLabel.MergeLabels | Code/Testing/randomizeLabel.cxx:62-101 | the label loop over 1..maxL leaves the output equal to MergedUpTo of all the dilated masks |
| RandomizeLabel.RandomizeLabels | Code/Testing/randomizeLabel.cxx:47-101 | the output volume is new, starts as background, and ends equal to Randomized of the input |
| RandomizeLabel.MergedUpToNext | Code/Testing/randomizeLabel.cxx:62-101 | merging label n applies its mask to the output of labels 1..n-1 and draws coins from where that merge stopped |
| RandomizeLabel.RandomizedIsMergedUpTo | Code/Testing/randomizeLabel.cxx:60-62 | the whole merge runs over labels 1..maxL, none when maxL is negative |
| RandomizeLabel.MergedUpToInMask | Code/Testing/randomizeLabel.cxx:88-97 | after labels 1..n a voxel holds a label of 0..n, and a label x other than 0 only inside x's dilated mask |
| RandomizeLabel.MergedUpToBackground | Code/Testing/randomizeLabel.cxx:88-97 | after labels 1..n a voxel is background exactly when none of the masks of 1..n covers it |
| RandomizeLabel.MergedUpToSoleCover | Code/Testing/randomizeLabel.cxx:88-97 | a voxel covered by exactly one mask ends with that label: the coins only decide between overlapping labels |
| RandomizeLabel.RandomizedCover | Code/Testing/randomizeLabel.cxx:53-101 | an output voxel is background exactly when no label's dilated mask covers it, and a voxel covered by one label's mask only ends with that label |
| RandomizeLabel.RandomizedKeepsForeground | Code/Testing/randomizeLabel.cxx:53-101 | when every dilation contains its input mask, each foreground voxel of the input is labelled in the output |
| RandomizeLabel.RandomizeMain | Code/Testing/randomizeLabel.cxx:24-147 | without exactly two arguments main exits with 0 and writes nothing (randomizeLabels' -1 is discarded); with two, a reader or writer that throws makes main exit with -1 and write nothing, otherwise it exits with 0 having written Randomized of the input |
| Surfaces.SquaredDistanceLoop | Code/Metrics/ClosestDistanceSurfaceToSurfaceMetric.cxx:39-44 | the per-coordinate loop computes the squared Euclidean distance of the two points |
| Surfaces.SquaredDistanceProperties | Code/Metrics/ClosestDistanceSurfaceToSurfaceMetric.cxx:39-45 | the squared distance is symmetric, non-negative, and zero exactly between equal points |
| Surfaces.SqrtOfSquare | Code/Metrics/ClosestDistanceSurfaceToSurfaceMetric.cxx:45 | the root taken of a squared non-negative distance is that distance |
| Surfaces.KdTreePointLocator.FindClosestPoint | Code/Metrics/ClosestDistanceSurfaceToSurfaceMetric.cxx:34 | the locator query returns the index of a closest point, the lowest on ties, -1 for no points |
| Surfaces.ClosestScanSpec | Code/Metrics/ClosestDistanceSurfaceToSurfaceMetric.cxx:34 | the scan returns -1 only for no points, and otherwise a point no farther from the query than any other, the lowest such index |
| Surfaces.ClosestPointIdIsNearest | Code/Metrics/HausdorffDistanceSurfaceToSurfaceMetric.cxx:64-67 | on a non-empty surface the point returned is in range and no point of the surface is closer to the query |
| Surfaces.ClosestPointOfMember | Code/Metrics/HaussdorffDistanceSurfaceToSurfaceMetric.cxx:45-56 | a point of the surface finds a closest point at squared distance 0 |
| SurfaceMetrics.SurfaceToSurfaceMetric.SetFixedSurface | Code/Metrics/SurfaceToSurfaceMetric.cxx:4-9 | the fixed surface is stored and the moving one kept |
| SurfaceMetrics.SurfaceToSurfaceMetric.GetFixedSurface | Code/Metrics/SurfaceToSurfaceMetric.cxx:11-16 | returns the stored fixed surface |
| SurfaceMetrics.SurfaceToSurfaceMetric.SetMovingSurface | Code/Metrics/SurfaceToSurfaceMetric.cxx:18-23 | the moving surface is stored and the fixed one kept |
| SurfaceMetrics.SurfaceToSurfaceMetric.GetMovingSurface | Code/Metrics/SurfaceToSurfaceMetric.cxx:25-30 | returns the stored moving surface |
| SurfaceMetrics.DirectedDistancesNonNegative | Code/Metrics/HausdorffDistanceSurfaceToSurfaceMetric.cxx:58-78 | every distance from a point of one surface to its closest point on the other is non-negative |
| SurfaceMetrics.NearestDistanceOfMember | Code/Metrics/ClosestDistanceSurfaceToSurfaceMetric.cxx:29-45 | a point that lies on the other surface is at distance 0 from it |
| SurfaceMetrics.ClosestDistanceSurfaceToSurfaceMetric.SetFixedSurface | Code/Metrics/ClosestDistanceSurfaceToSurfaceMetric.cxx:6-15 | the fixed surface is stored and a locator is built over exactly its points |
| SurfaceMetrics.ClosestDistanceSurfaceToSurfaceMetric.GetValue | Code/Metrics/ClosestDistanceSurfaceToSurfaceMetric.cxx:17-49 | 0 without moving points; otherwise the mean over the moving points of the distance to their closest fixed point |
| SurfaceMetrics.SumNonNegative | Code/Metrics/ClosestDistanceSurfaceToSurfaceMetric.cxx:28-45 | a sum of non-negative distances is non-negative, and zero exactly when every distance is |
| SurfaceMetrics.MeanClosestDistanceZeroIffOnSurface | Code/Metrics/ClosestDistanceSurfaceToSurfaceMetric.cxx:17-49 | the closest distance is non-negative, and zero exactly when every moving point lies on the fixed surface |
| SurfaceMetrics.MeanClosestDistanceNotSymmetric | Code/Metrics/ClosestDistanceSurfaceToSurfaceMetric.cxx:17-49 | the measure is one-sided: swapping a one-point and a two-point surface changes it from 0.5 to 0 |
| SurfaceMetrics.HausdorffDistanceSurfaceToSurfaceMetric.SetFixedSurface | Code/Metrics/HausdorffDistanceSurfaceToSurfaceMetric.cxx:10-19 | the fixed surface is stored, its locator rebuilt, the rest kept |
| SurfaceMetrics.HausdorffDistanceSurfaceToSurfaceMetric.SetMovingSurface | Code/Metrics/HausdorffDistanceSurfaceToSurfaceMetric.cxx:21-30 | the moving surface is stored, its locator rebuilt, the rest kept |
| SurfaceMetrics.HausdorffDistanceSurfaceToSurfaceMetric.SetPercentile | Code/Metrics/HausdorffDistanceSurfaceToSurfaceMetric.cxx:32-40 | a percentile outside [0, 1] is refused with an error and changes nothing; any other is stored |
| SurfaceMetrics.HausdorffDistanceSurfaceToSurfaceMetric.Distances | Code/Metrics/HausdorffDistanceSurfaceToSurfaceMetric.cxx:58-78 | the list of distances from each point, in point order, to its closest point on the other surface |
| SurfaceMetrics.HausdorffDistanceSurfaceToSurfaceMetric.GetValue | Code/Metrics/HausdorffDistanceSurfaceToSurfaceMetric.cxx:42-106 | 0 when both surfaces are empty, huge when exactly one is, otherwise the larger of the two directed p-percentile distances of the sorted lists (the corrected Hausdorff) |
| SurfaceMetrics.Sort | Code/Metrics/HausdorffDistanceSurfaceToSurfaceMetric.cxx:102-103 | the distances sorted: the same values (as a multiset) in ascending order |
| SurfaceMetrics.SortFirst | Code/Metrics/HausdorffDistanceSurfaceToSurfaceMetric.cxx:102-103 | the first n distances sorted: ascending and a permutation of them |
| SurfaceMetrics.Insert | Code/Metrics/HausdorffDistanceSurfaceToSurfaceMetric.cxx:102-103 | inserting into a sorted list keeps it sorted and adds exactly that value |
| SurfaceMetrics.PercentileIndex | Code/Metrics/HausdorffDistanceSurfaceToSurfaceMetric.cxx:102-103 | (int)(p * (size - 1)) for p in [0, 1] is a valid index, 0 for p = 0 and the last for p = 1 |
| SurfaceMetrics.HausdorffSymmetric | Code/Metrics/HausdorffDistanceSurfaceToSurfaceMetric.cxx:42-106 | swapping the surfaces leaves the corrected percentile distance unchanged |
| SurfaceMetrics.SortedLastIsMax | Code/Metrics/HausdorffDistanceSurfaceToSurfaceMetric.cxx:102-103 | the last sorted distance is the largest distance and is one of them |
| SurfaceMetrics.PermutationLastIsMax | Code/Metrics/HausdorffDistanceSurfaceToSurfaceMetric.cxx:102-103 | the last element of any sorted permutation is the maximum and belongs to the list |
| SurfaceMetrics.HausdorffFullPercentileIsMax | Code/Metrics/HausdorffDistanceSurfaceToSurfaceMetric.cxx:102-105 | with p = 1 the corrected distance bounds every directed distance and is one of them |
| SurfaceMetrics.LargerOfLasts | Code/Metrics/HausdorffDistanceSurfaceToSurfaceMetric.cxx:105 | the larger of the two last sorted elements bounds both lists and belongs to one of them |
| SurfaceMetrics.HausdorffSelfIsZero | Code/Metrics/HausdorffDistanceSurfaceToSurfaceMetric.cxx:42-106 | a surface is at corrected percentile distance 0 from itself, for every percentile |
| SurfaceMetrics.HausdorffAsWrittenIgnoresOrder | Code/Metrics/HausdorffDistanceSurfaceToSurfaceMetric.cxx:102-103 | as written (unsorted), with p = 1 a moving surface (1,0,0), (0,0,0) against the fixed point (0,0,0) gives 0 where the corrected distance gives 1 |
| SurfaceMetrics.MaxFoldSpec | Code/Metrics/HaussdorffDistanceSurfaceToSurfaceMetric.cxx:39-60 | the running maximum from 0 bounds every distance, is non-negative, and is 0 or one of the distances |
| SurfaceMetrics.HaussdorffDistanceSurfaceToSurfaceMetric.SetFixedSurface | Code/Metrics/HaussdorffDistanceSurfaceToSurfaceMetric.cxx:6-15 | the fixed surface is stored and its locator rebuilt |
| SurfaceMetrics.HaussdorffDistanceSurfaceToSurfaceMetric.SetMovingSurface | Code/Metrics/HaussdorffDistanceSurfaceToSurfaceMetric.cxx:17-26 | the moving surface is stored and its locator rebuilt |
| SurfaceMetrics.HaussdorffDistanceSurfaceToSurfaceMetric.MaxDistance | Code/Metrics/HaussdorffDistanceSurfaceToSurfaceMetric.cxx:39-60 | the loop's running maximum is MaxFold of the directed distances |
| SurfaceMetrics.HaussdorffDistanceSurfaceToSurfaceMetric.GetValue | Code/Metrics/HaussdorffDistanceSurfaceToSurfaceMetric.cxx:28-88 | 0 without moving points; otherwise the larger of the two directed maxima (the corrected comparison) |
| SurfaceMetrics.MaxFoldIsSortedLast | Code/Metrics/HaussdorffDistanceSurfaceToSurfaceMetric.cxx:58-59 | on non-negative distances the running maximum is the last sorted distance |
| SurfaceMetrics.MaxFoldIsLastOf | Code/Metrics/HaussdorffDistanceSurfaceToSurfaceMetric.cxx:58-59 | the running maximum equals the last element of any sorted permutation of non-negative distances |
| SurfaceMetrics.UpperBoundsMeet | Code/Metrics/HaussdorffDistanceSurfaceToSurfaceMetric.cxx:58-59 | two upper bounds of non-negative distances that are each 0 or a member coincide |
| SurfaceMetrics.HaussdorffIsFullPercentile | Code/Metrics/HaussdorffDistanceSurfaceToSurfaceMetric.cxx:28-88 | on two non-empty surfaces the corrected max-max distance equals the corrected percentile distance at p = 1 |
| SurfaceMetrics.HaussdorffSelfIsZero | Code/Metrics/HaussdorffDistanceSurfaceToSurfaceMetric.cxx:28-88 | a surface is at max-max distance 0 from itself |
| SurfaceMetrics.HaussdorffAsWrittenTakesLastAbove | Code/Metrics/HaussdorffDistanceSurfaceToSurfaceMetric.cxx:81-82 | as written, a moving point (0,0,0) against fixed points (3,0,0), (2,0,0), (0,0,0) gives 2 where the corrected distance gives 3 |
| SurfaceMetrics.ClosestDistanceSurfaceToSurfaceMetric.SetMovingSurface | Code/Metrics/SurfaceToSurfaceMetric.cxx:18-23 | the inherited setter stores the moving surface and keeps the fixed one and its locator |
| Aggregators.SeededMaxSpec | Code/Metrics/MaxImageMetricAggregator.h:24-43 | the seeded running maximum of a non-empty score list is one of the scores and at least every score |
| Aggregators.SeededMinSpec | Code/Metrics/MinImageMetricAggregator.h:24-43 | the seeded running minimum of a non-empty score list is one of the scores and at most every score |
| Aggregators.WeightedSumAtMost | Code/Metrics/LinearImageMetricAggregator.h:31-43 | with non-negative weights and every score at most a bound, the weighted sum is at most the total weight times the bound |
| Aggregators.WeightedSumAtLeast | Code/Metrics/LinearImageMetricAggregator.h:31-43 | with non-negative weights and every score at least a bound, the weighted sum is at least the total weight times the bound |
| Aggregators.LinearBetweenMinAndMax | Code/Metrics/LinearSurfaceMetricAggregator.h:30-42 | with non-negative weights summing to one, the linear score lies between the Min and the Max aggregators' scores |
| Aggregators.MetricObject.SetFixed | Code/Metrics/SurfaceToSurfaceMetric.h:20 | the fixed input is set and the moving one kept |
| Aggregators.MetricObject.SetMoving | Code/Metrics/SurfaceToSurfaceMetric.h:23 | the moving input is set and the fixed one kept |
| Aggregators.MetricObject.GetValue | Code/Metrics/SurfaceToSurfaceMetric.h:29 | the value is the metric evaluated on the two inputs currently set |
| Aggregators.MetricAggregator.SetFixed | Code/Metrics/ImageMetricAggregator.h:21-22 | the fixed input is set; the moving input, objects and weights are kept |
| Aggregators.MetricAggregator.SetMoving | Code/Metrics/SurfaceMetricAggregator.h:26-27 | the moving input is set; the fixed input, objects and weights are kept |
| Aggregators.MetricAggregator.AddMetricObject | Code/Metrics/ImageMetricAggregator.h:26-27 | the object is appended to the object list and nothing else changes |
| Aggregators.MetricAggregator.AddMetricWeight | Code/Metrics/LinearImageMetricAggregator.h:20-21 | the weight is appended to the weight list and nothing else changes |
| Aggregators.MetricAggregator.Scores | Code/Metrics/LinearImageMetricAggregator.h:34-40 | one score per metric object, each the object's metric on the aggregator's two inputs |
| Aggregators.MetricAggregator.ScoreOf | Code/Metrics/MaxSurfaceMetricAggregator.h:26-30 | object i receives both inputs and its value is score i; objects before it keep the inputs they were handed |
| Aggregators.MetricAggregator.GetLinearAggregateScore | Code/Metrics/LinearImageMetricAggregator.h:23-44 | differing numbers of objects and weights raise "Number of objects and weights not the same" before any object is touched; otherwise the result is the weighted sum of the scores and every object holds both inputs |
| Aggregators.MetricAggregator.GetMaxAggregateScore | Code/Metrics/MaxImageMetricAggregator.h:20-44 | the result is the running maximum seeded with the first score (0 with no objects) and every object holds both inputs |
| Aggregators.MetricAggregator.GetMinAggregateScore | Code/Metrics/MinSurfaceMetricAggregator.h:19-43 | the result is the running minimum seeded with the first score (0 with no objects) and every object holds both inputs |
| SurfaceIO.FirstContained | Code/Applications/Common/surfio.cxx:139-179 | reference definition of the extension choice: the first format of an order whose extension occurs in the name, none exactly when no extension of the order occurs |
| SurfaceIO.ReaderForIsFirstHit | Code/Applications/Common/surfio.cxx:143-176 | readSurface's if-chain picks the first of .asc, .byu, .off, .vtk, .ply found anywhere in the name |
| SurfaceIO.WriterForIsFirstHit | Code/Applications/Common/surfio.cxx:181-214 | writeSurface's if-chain picks the first of .vtk, .byu, .ply found in the name, and throws "Bad ext" when there is none |
| SurfaceIO.NoReaderIffNoExtension | Code/Applications/Common/surfio.cxx:172-176 | readSurface returns NULL exactly when the name contains none of the five extensions |
| SurfaceIO.OffReadable | Code/Applications/Common/surfio.cxx:154-157 | a name with a single dot before "off" is read by readOFF |
| SurfaceIO.OffNotWritable | Code/Applications/Common/surfio.cxx:210-214 | writing a name with a single dot before "off" throws: there is no OFF writer |
| SurfaceIO.SubstringNotSuffix | Code/Applications/Common/surfio.cxx:143-146 | the tests are for substrings, not suffixes: a name ending in ".asc.vtk" is read as ASC but written as VTK |
| SurfaceIO.NextTokenSkipsLineBreaks | Code/Applications/Common/surfio.cxx:38-39 | `>>` passes over line breaks only, and fails only where nothing but line breaks is left |
| SurfaceIO.SkipLineDropsOneLine | Code/Applications/Common/surfio.cxx:31-33 | getline drops tokens only, up to and including the first line break or to the end of the file |
| SurfaceIO.InputFile.GetLine | Code/Applications/Common/surfio.cxx:33 | the position moves to SkipLine of the old one |
| SurfaceIO.InputFile.Next | Code/Applications/Common/surfio.cxx:38 | the stream yields NextToken at the old position and moves past it |
| SurfaceIO.InputFile.ExtractReal | Code/Applications/Common/surfio.cxx:51-53 | `>>` into a double reads ReadReal at the old position |
| SurfaceIO.InputFile.ExtractInt | Code/Applications/Common/surfio.cxx:38-39 | `>>` into an int reads ReadInt at the old position |
| SurfaceIO.ReadPointFrom | Code/Applications/Common/surfio.cxx:51-54 | three coordinates are read as one point, ReadPoint at the old position |
| SurfaceIO.ReadIds | Code/Applications/Common/surfio.cxx:63-67 | the id loop reads n ids one after the other, failing as soon as one read fails |
| SurfaceIO.ReadTriangleFrom | Code/Applications/Common/surfio.cxx:121-125 | three ids are read as one triangle |
| SurfaceIO.ReadPoints | Code/Applications/Common/surfio.cxx:47-55 | the point loop of readOFF reads n points in a row (Repeat of ReadPoint) |
| SurfaceIO.ReadOffCellFrom | Code/Applications/Common/surfio.cxx:59-67 | one OFF face: its vertex count, then that many ids |
| SurfaceIO.ReadOffCells | Code/Applications/Common/surfio.cxx:57-68 | the face loop of readOFF reads n faces in a row |
| SurfaceIO.ReadAscPointFrom | Code/Applications/Common/surfio.cxx:104-110 | one ASC point line: three coordinates, then the rest of the line is dropped |
| SurfaceIO.ReadAscCellFrom | Code/Applications/Common/surfio.cxx:118-128 | one ASC face line: three ids, then the rest of the line is dropped |
| SurfaceIO.ReadAscPoints | Code/Applications/Common/surfio.cxx:100-111 | the point loop of readASC reads n point lines in a row |
| SurfaceIO.ReadAscCells | Code/Applications/Common/surfio.cxx:113-129 | the face loop of readASC reads n triangle lines in a row |
| SurfaceIO.ReadOff | Code/Applications/Common/surfio.cxx:22-76 | readOFF returns ParseOff of the file |
| SurfaceIO.ReadAsc | Code/Applications/Common/surfio.cxx:78-137 | readASC returns ParseAsc of the file |
| SurfaceIO.ReadSurface | Code/Applications/Common/surfio.cxx:139-179 | NULL exactly when no extension occurs; otherwise the OFF or ASC parse, or the VTK reader's result, for the format the name selects |
| SurfaceIO.ParseOffCounts | Code/Applications/Common/surfio.cxx:35-68 | a successful OFF read has exactly as many points and faces as its counts line announces |
| SurfaceIO.ParseAscCounts | Code/Applications/Common/surfio.cxx:91-129 | a successful ASC read has the announced numbers of points and faces, and every face is a triangle |
| SurfaceIO.RepeatAscCellsTriangles | Code/Applications/Common/surfio.cxx:118-125 | every face the ASC face loop reads has three ids |
| SurfaceIO.RepeatReadsLines | Code/Applications/Common/surfio.cxx:49-55 | reading items one by one reads back a sequence of items written one after the other |
| SurfaceIO.ReadsBackIds | Code/Applications/Common/surfio.cxx:63-67 | reading k ids reads back k ids written in a row |
| SurfaceIO.ReadsBackPoint | Code/Applications/Common/surfio.cxx:51-53 | a written point line reads back as that point |
| SurfaceIO.ReadsBackOffCell | Code/Applications/Common/surfio.cxx:59-67 | a written OFF face line reads back as that face |
| SurfaceIO.OffHeaderReads | Code/Applications/Common/surfio.cxx:31-42 | on a written OFF file the first line is skipped, the two counts are read, and the rest of their line is skipped |
| SurfaceIO.OffRoundTrip | Code/Applications/Common/surfio.cxx:22-76 | readOFF reads back every surface written in the OFF layout |
| SurfaceIO.ParseOffReads | Code/Applications/Common/surfio.cxx:22-76 | once the header is read, readOFF returns the points and faces read after it |
| SurfaceIO.ReadsBackAscPoint | Code/Applications/Common/surfio.cxx:104-110 | a written ASC point line with its trailing 0 reads back as that point |
| SurfaceIO.TriangleIsThreeIds | Code/Applications/Common/surfio.cxx:121-125 | reading a triangle is reading three ids in a row |
| SurfaceIO.ReadsBackAscCell | Code/Applications/Common/surfio.cxx:118-128 | a written ASC triangle line with its trailing 0 reads back as that triangle |
| SurfaceIO.AscHeader | Code/Applications/Common/surfio.cxx:87-95 | on a written ASC file the comment line is skipped and the two counts are read |
| SurfaceIO.AscBody | Code/Applications/Common/surfio.cxx:100-129 | the point and face loops of readASC read back the written point and triangle lines |
| SurfaceIO.AscRoundTrip | Code/Applications/Common/surfio.cxx:78-137 | readASC reads back every triangulated surface written in the ASC layout |
| SurfaceIO.ReadsBackPoints | Code/Applications/Common/surfio.cxx:49-55 | every written point line reads back as its point, wherever it sits in the file |
| SurfaceIO.ReadsBackOffCells | Code/Applications/Common/surfio.cxx:57-68 | every written OFF face line reads back as its face |
| SurfaceIO.ReadsBackAscPoints | Code/Applications/Common/surfio.cxx:100-111 | every written ASC point line reads back as its point |
| SurfaceIO.ReadsBackAscCells | Code/Applications/Common/surfio.cxx:113-129 | every written ASC triangle line reads back as its triangle |
| ValidationReport.ValidateLabelImages | Code/Testing/validateLabelImages.cxx:63-151 | the printed lines are Report of the values: per binary metric in order an empty line, "===", and one `Name(A_k, B_k) = v` line per label k from 1, then the kappa section |
| ValidationReport.RunMain | Code/Testing/validateLabelImages.cxx:157-194 | exit code 0 exactly with two arguments and images that read; then the report is printed; otherwise -1 with nothing on standard output |
| ValidationReport.SectionsLengthIs | Code/Testing/validateLabelImages.cxx:63-145 | the binary sections take two lines each plus one line per value |
| ValidationReport.SectionsPrefix | Code/Testing/validateLabelImages.cxx:63-145 | the sections of the first s metrics are a prefix of the output |
| ValidationReport.ReportLength | Code/Testing/validateLabelImages.cxx:147-151 | the report has two lines per section, one per binary value and three for the kappa section, whose value line comes last |
| ValidationReport.ReportStartsWithHeader | Code/Testing/validateLabelImages.cxx:63 | the report opens with an empty line and "===" |
| ValidationReport.ReportLineAt | Code/Testing/validateLabelImages.cxx:63-145 | section s starts with "" and "===" at line SectionsLength(values[..s]), and label i + 1's value of metric s is printed two lines further on |
| ValidationReport.SectionsLineAt | Code/Testing/validateLabelImages.cxx:71-72 | the same position holds for any list of metric names |
| RankWeights.GetMetricValues | Python/RankAggregation/computeRankWeights.py:33-63 | the result is reading the lines in order into numLabels NaNs: a malformed line raises, a line for all labels ends the reading with its value alone, an out-of-range index raises IndexError |
| RankWeights.FoldStep | Python/RankAggregation/computeRankWeights.py:43-60 | one line either raises, ends the reading with its value alone, stores its value at its Python index (negative from the end) or raises IndexError |
| RankWeights.IndexedLinesFill | Python/RankAggregation/computeRankWeights.py:41-63 | when every line names an existing position the reading succeeds, keeps the length, and a position no line names stays NaN |
| RankWeights.IndexedLinesLastWins | Python/RankAggregation/computeRankWeights.py:60 | a position named by several lines holds the value of the last of them |
| RankWeights.LastWinsAt | Python/RankAggregation/computeRankWeights.py:43-60 | line i's value survives at position j when no later line names j |
| RankWeights.FoldFirst | Python/RankAggregation/computeRankWeights.py:58-60 | the first line stores its value and the rest read into the updated list |
| RankWeights.WholeLineEndsReading | Python/RankAggregation/computeRankWeights.py:54-56 | a line whose item has no "_" (kappa) makes the result that value alone, whatever follows it |
| RankWeights.ResultLineParses | Python/RankAggregation/computeRankWeights.py:44-58 | a printed line `Name(A_k, B_k) = v` stands for position k - 1, its value with infinity replaced by NaN |
| RankWeights.BlankIndexParses | Python/RankAggregation/computeRankWeights.py:44-58 | int() drops the blanks around an index: a line `name(a_<blanks><digits><blanks>,rest=v` (such as `Dice(A_1 , B_1) = v`) stands for position digits - 1 |
| RankWeights.IndexedLineParses | Python/RankAggregation/computeRankWeights.py:44-58 | a line `name(a_idx,rest=v` whose pieces hold no separator, with int(idx) == k, stands for position k - 1 holding v |
| RankWeights.SingleValueLineParses | Python/RankAggregation/computeRankWeights.py:46-56 | a line `Name(A,B) = v` stands for all labels at once |
| RankWeights.ResultLineLandsAt | Python/RankAggregation/computeRankWeights.py:41-60 | reading a printed line for label k into n NaNs sets position k - 1 alone |
| RankWeights.SubjectKeyOf | Python/RankAggregation/computeRankWeights.py:65-71 | the key of "<dir>/<subject>_<rest>" is the subject, whatever the directory and the extensions |
| RankWeights.StripKeepsSubject | Python/RankAggregation/computeRankWeights.py:67 | splitting off the extension of "<subject>_<rest>" keeps the subject and the "_" |
| RankWeights.LastMatchSpec | Python/RankAggregation/computeRankWeights.py:340-345 | the search without a break finds a file exactly when some file matches, and then one no later file matches |
| RankWeights.FindSubmissionAsWritten | Python/RankAggregation/computeRankWeights.py:340-345 | the submission chosen is the last file whose key occurs anywhere in the ground truth's basename |
| RankWeights.FindSubmission | Python/RankAggregation/computeRankWeights.py:510-516 | with the key compared whole: the last file whose key is the ground truth's subject; none exactly when no file has it |
| RankWeights.GroundTruthKeyOf | Python/RankAggregation/computeRankWeights.py:65-71 | the subject of "<dir>/<subject>.<ext>" is the subject |
| RankWeights.AsWrittenEndsOnPrefix | Python/RankAggregation/computeRankWeights.py:344-345 | the substring search ends on subject a's file for ground truth "a0.nii.gz" |
| RankWeights.WholeKeyEndsOnSubject | Python/RankAggregation/computeRankWeights.py:510-516 | the whole-key search ends on subject a0's file |
| RankWeights.FindSubmissionAsWrittenPicksPrefixSubject | Python/RankAggregation/computeRankWeights.py:340-345 | for ground truth "a0.nii.gz" and submissions "a0_r" and "a_r", the search as written picks a's file, whose subject differs; the whole-key search picks a0's |
| RankWeights.SelectedSpec | Python/RankAggregation/computeRankWeights.py:240-254 | a listed entry is selected exactly when it is a file whose key occurs in some complete ground truth's basename |
| RankWeights.KeyInGroundTruth | Python/RankAggregation/computeRankWeights.py:247-251 | the inner search answers whether some ground truth's basename contains the key |
| RankWeights.SelectSubmissions | Python/RankAggregation/computeRankWeights.py:239-260 | the selected files in listing order, or the exception "Zero submissions found in <p>" when none is selected |
| RankWeights.BuildMetricOrder | Python/RankAggregation/computeRankWeights.py:201-210 | (corrected: the directions test the metric's name, not the whole path) one +1 for a kappa binary, numObjects times -1 for a distance, numObjects times +1 otherwise, binary by binary |
| RankWeights.BuildMetricNames | Python/RankAggregation/computeRankWeights.py:217-226 | "<m>_all" for kappa, otherwise "<m>_object1" to "<m>_object<numObjects>", binary by binary, m the basename after "ValidateImage" |
| RankWeights.AppendObjectNames | Python/RankAggregation/computeRankWeights.py:225-226 | appends the numObjects object names of metric m |
| RankWeights.OrderMatchesNames | Python/RankAggregation/computeRankWeights.py:201-226 | with the directions tested on the metric's name there is one direction per entry name |
| RankWeights.MetricOrderAsWrittenMisaligned | Python/RankAggregation/computeRankWeights.py:204-210 | testing the whole path gives a Dice binary in a directory named "Kappa" one direction for its numObjects names |
| RankWeights.ObjectNamesAt | Python/RankAggregation/computeRankWeights.py:225-226 | object j + 1 of metric m is named "<m>_object<j+1>" |
| RankWeights.DropJaccardSpec | Python/RankAggregation/computeRankWeights.py:126-130 | with both Dice and Jaccard present, exactly the first Jaccard entry is removed, Dice stays and the order is kept; otherwise the list is unchanged |
| RankWeights.DiceKept | Python/RankAggregation/computeRankWeights.py:127-128 | the Dice and Jaccard binaries of one directory are different entries |
| RankWeights.CompetitionWeights | Python/RankAggregation/computeRankWeights.py:472-493 | the weights table is built entry by entry; a name without "_" or a missing direction raises, and a later entry with the same ID replaces an earlier one |
| RankWeights.CompetitionFailureSticks | Python/RankAggregation/computeRankWeights.py:473-476 | an exception for an earlier name is the outcome of the whole table |
| RankWeights.ObjectEntry | Python/RankAggregation/computeRankWeights.py:473-492 | object j + 1 of a metric with a short ID gets that ID followed by j + 1, title "<m> (label j+1)" and weight average times direction |
| RankWeights.AllObjectsEntry | Python/RankAggregation/computeRankWeights.py:472-493 | a "<m>_all" entry gets the short ID alone and the label "all" |
| RankWeights.KappaEntry | Python/RankAggregation/computeRankWeights.py:146 | kappa's entry has ID "Kap", label "all" and the average weight itself |
| RankWeights.KappaId | Python/RankAggregation/computeRankWeights.py:146 | the kappa binary's short ID is "Kap" |
| RankWeights.ParseLine | Python/RankAggregation/computeRankWeights.py:44-58 | a parsed line never carries an infinite value: infinity is tagged as NaN |
| RankWeights.Store | Python/RankAggregation/computeRankWeights.py:60 | the store succeeds exactly for indices from -n to n - 1, sets the element the index denotes (negative from the end) and keeps every other |
| RankWeights.SubjectKey | Python/RankAggregation/computeRankWeights.py:65-71 | the key is a prefix of the file's basename and holds no "_" |
| ScoreSubmission.MatchInputFile | Python/scoreSubmission.py:20-32 | the result is the first listed entry whose text before the first dot equals the ground truth's, joined to the submission directory; it exists exactly when some entry has that prefix, and otherwise the error names the prefix |
| ScoreSubmission.MatchedInputHasPrefix | Python/scoreSubmission.py:26-30 | a matched path's base name is a listed entry with the ground truth's prefix |
| ScoreSubmission.PairSpec | Python/scoreSubmission.py:61 | a line unpacks into (name, value) exactly when it holds one "=", and then name + "=" + value is the line |
| ScoreSubmission.PairOfJoined | Python/scoreSubmission.py:61 | splitting name + "=" + value gives (name, value) back when neither holds "=" |
| ScoreSubmission.ParseAsWrittenSpec | Python/scoreSubmission.py:59-67 | the as-written parse succeeds exactly when every line unpacks, keeping each line's pair in order; otherwise it raises for the first line that does not |
| ScoreSubmission.RunScoringAsWritten | Python/scoreSubmission.py:35-67 | a non-zero exit status raises with that code; otherwise the result is the as-written parse of the output lines |
| ScoreSubmission.ParseStep | Python/scoreSubmission.py:60-65 | one loop step either raises for a line that does not unpack or appends that line's pair |
| ScoreSubmission.RunScoring | Python/scoreSubmission.py:50-67 | a non-zero exit status raises with that code; otherwise the pairs of the lines with one "=", in order, the separator lines skipped |
| ScoreSubmission.ScoreFile | Python/scoreSubmission.py:74-80 | (built on the corrected runScoring) one ground-truth file: a missing input or a failed run raises, otherwise the entry named after the file with the parsed metrics |
| ScoreSubmission.ScoreAll | Python/scoreSubmission.py:70-82 | (built on the corrected runScoring) the entries for the ground-truth files in listing order, or the first exception raised |
| ScoreSubmission.ScoresStep | Python/scoreSubmission.py:73-80 | each further ground-truth file either appends its entry or ends the scoring with its exception |
| ScoreSubmission.PrefixFailureSticks | Python/scoreSubmission.py:73-80 | an exception for an earlier ground-truth file is the outcome of the whole scoring |
| ScoreSubmission.ScoresFollowListing | Python/scoreSubmission.py:73-80 | a successful scoring has one entry per ground-truth file, named after it and in listing order, and every file had a matching input |
| ScoreSubmission.MissingInputFails | Python/scoreSubmission.py:74 | a ground-truth file without a matching input makes the whole scoring raise |
| ScoreSubmission.SplitLinesOfStdout | Python/scoreSubmission.py:60 | splitlines gives back the lines the scoring program printed, each ended by a line break |
| ScoreSubmission.RunScoringAsWrittenRejectsReport | Python/scoreSubmission.py:59-65 | on any report validateLabelImages prints, the as-written parse raises: the first line is empty and splits into one part |
| ScoreSubmission.SeparatorsSkipped | Python/scoreSubmission.py:61 | the separator lines "" and "===" split into one and four parts, so neither unpacks |
| ScoreSubmission.ScoringReadsReport | Python/scoreSubmission.py:59-67 | with the separators skipped, a report parses into one (name, value) pair per printed value, section by section and label by label, then the kappa pair |
| ScoreSubmission.ReportParsesBack | Python/scoreSubmission.py:59-67 | the same round trip for binary sections under any metric names free of "=" and line breaks |
| ScoreSubmission.KappaTail | Python/scoreSubmission.py:61 | the kappa section yields exactly the pair ("Kappa(A,B) ", " " + value) |
| Text.SplitCount | Python/scoreSubmission.py:61 | str.split on one character gives one part more than the character's occurrences |
| Text.SplitPartsFree | Python/scoreSubmission.py:61 | no part of a split holds the separator |
| Text.JoinSplit | Python/scoreSubmission.py:61 | joining the parts with the separator gives the string back |
| Text.SplitJoin | Python/RankAggregation/computeRankWeights.py:474 | splitting parts free of the separator, once joined, gives the parts back |
| Text.ParsePrinted | Python/RankAggregation/computeRankWeights.py:58 | int() of a printed natural number is that number |
| Text.ParseIntPadded | Python/RankAggregation/computeRankWeights.py:58 | int() reads a run of digits with any blanks before and after it |
| Text.ParseIntSigned | Python/RankAggregation/computeRankWeights.py:58 | int() reads a '+' or '-' sign, blanks allowed around it, before the digits as the signed value |
| Text.BasenameOfJoin | Python/scoreSubmission.py:75 | os.path.basename of os.path.join(dir, name) is name for a name without "/" |

## Left out

- ITK and VTK filters, readers and writers (binary thinning, dilation and erosion, signed distance maps, the B-spline transform and resampler, RandomDilateImageFilter, image and polydata I/O) are parameters of the methods that call them, constrained only by what the code relies on (sizes kept, values produced).
- Random numbers (the Mersenne Twister draws, `rand()`, numpy's generator) are input sequences indexed by draw number; the distributions are not modelled.
- Square roots are a parameter `sqrt` of the metric methods; the lemmas that need its meaning require it to be a square root on the values involved.
- Python's `float()` is a parameter `toFloat` whose results are a number, an infinity or NaN; floating point arithmetic is modelled with `real`, so rounding is not.
- Pixel types: unsigned char and unsigned short widths are not modelled; volumes hold non-negative `int`s.
- The KdTree point locator is a linear scan returning the lowest index among the nearest points; which of several equally near points VTK returns is not modelled.
- Exceptions thrown by ITK or VTK after a report has started printing are not modelled: validateLabelImages either prints its whole report or, when the images do not read, nothing.
- PerturbMorphology.PerturbImageLabels: the source draws labels until one is present, without bound; the model is given finitely many draws per iteration and stops with `NoLabelDrawn` when none of them hits a present label.
- PerturbMorphology.PerturbImageLabels, PerturbMorphology.PerturbMain, PerturbMorphologySlice.PerturbSliceLabels and PerturbMorphologySlice.PerturbSliceMain require at least as many iterations' draws as iterations, since the draws are inputs.
- SurfaceMetrics.ClosestDistanceSurfaceToSurfaceMetric.GetValue and SurfaceMetrics.HaussdorffDistanceSurfaceToSurfaceMetric.GetValue require fixed points whenever there are moving points: against an empty fixed surface the source looks up point id -1.
- Aggregators.LinearBetweenMinAndMax is stated for weights summing to one; the general bound is WeightedSumAtMost and WeightedSumAtLeast.
- The Image and Surface aggregator families (three subclasses each) are one generic class whose Linear, Max and Min scores are three methods; their headers differ only in the input type.
- SurfaceIO: the `std::getline` buffer limit of 256 characters is not modelled; a failed `>>` makes the read `None`, where the C++ stream would go on with its fail bit set; the VTK, BYU and PLY readers and every writer are only chosen by extension, not modelled.
- SurfaceIO.OffReadable and SurfaceIO.OffNotWritable are stated for names with a single dot before the extension.
- RankWeights: the perturbation runs, the multiprocessing pool, the rank aggregator itself (UnsupervisedLearningRankAggregator), the averaging of weights, the printed summaries and the JSON output are not part of this model; reading the image labels to find the number of objects is an input.
- ScoreSubmission: the subprocess call is a function from the two paths to an exit status and standard output; the messages written to standard error and the final JSON dump are not modelled.
- The argument parsing of every `main` is reduced to the values it yields and the argument-count checks.
- SurfaceMetrics.HausdorffDistanceSurfaceToSurfaceMetric.GetValue computes the corrected percentile distance, over the sorted distance lists; as written the lists are read unsorted (SurfaceMetrics.HausdorffAsWritten).
- SurfaceMetrics.HaussdorffDistanceSurfaceToSurfaceMetric.GetValue computes the corrected maximum of the second directed distances; as written that loop compares with the first maximum (SurfaceMetrics.HaussdorffAsWritten).
- PerturbMorphology.PerturbMain, PerturbMorphologySlice.PerturbSliceMain, PerturbBSplineSlice.PerturbBSplineMain and RandomizeLabel.RandomizeMain: of the exceptions main catches and turns into -1, only a reader or a writer that throws is modelled (an absent input volume or the flags `inputReads` and `outputWrites`); exceptions from the ITK filters in between are not.
- SliceVolume.VolumeSliceAxis is the corrected axis detection: as written the axis is always 0 (SliceVolume.SliceAxisAsWritten), so on an X x Y x 1 volume only the line x = 0 would be sliced and perturbed.
- PerturbMorphologySlice.PerturbSliceLabels runs on the corrected axis (SliceVolume.VolumeSliceAxis) and the corrected write-back target (SliceVolume.VoxelOf); the as-written axis and target are stated only by the lemmas about SliceVolume.SliceAxisAsWritten and SliceVolume.VoxelOfAsWritten.
- PerturbMorphologySlice.PerturbSliceMain is built on PerturbMorphologySlice.PerturbSliceLabels and so on the corrected axis and write-back target.
- PerturbBSplineSlice.PerturbSliceBSpline runs on the corrected axis and write-back target, like PerturbMorphologySlice.PerturbSliceLabels.
- PerturbBSplineSlice.PerturbBSplineMain is built on PerturbBSplineSlice.PerturbSliceBSpline and so on the corrected axis and write-back target.
- SliceVolume.WriteBack writes pixel (k, l) of a third-axis slice to voxel (k, l, 0), the corrected target; as written it is (k, k, 0) (SliceVolume.VoxelOfAsWritten).
- SurfaceIO.InputFile.ExtractInt reads whole tokens: a token that is a number but not an integer makes the read `None`, where `>>` into an int would take its integer prefix and leave the rest in the stream ("0 1 2.5 0" gives 2 and then fails on ".5"; "3.0" gives None here but 3 followed by ".0" in C++).
- RankWeights.BuildMetricOrder is the corrected metricOrder loop: it tests the metric's name where the source tests the binary's whole path (RankWeights.MetricOrderAsWritten).
- ScoreSubmission.ScoreFile is built on the corrected runScoring (ScoreSubmission.RunScoring, which skips the separator lines); as written every successful run raises (ScoreSubmission.RunScoringAsWrittenRejectsReport).
- ScoreSubmission.ScoreAll is built on ScoreSubmission.ScoreFile and so on the corrected runScoring; as written it raises at the first ground-truth file whose input matches and whose run succeeds.

## Findings

| source | as written | input that shows it | evidently intended | confidence | as-written member | corrected member |
|---|---|---|---|---|---|---|
| Code/Applications/PerturbImageLabelsMorphology2Das3D/PerturbImageLabelsMorphology2Das3D.cxx:106-107 (and PerturbImageLabelsBSpline2Das3D.cxx:99-100) | `dimToSlice == 1;` compares instead of assigning, so the slicing axis stays 0 | a 3 x 1 x 4 volume: axis 1 has size 1, axis 0 is sliced | slice along the first axis of size 1 | not executed | SliceVolume.SliceAxisAsWritten, SliceVolume.SliceAxisAsWrittenMissesSecondAxis | SliceVolume.SliceAxis, SliceVolume.VolumeSliceAxis, PerturbMorphologySlice.PerturbSliceLabels, PerturbMorphologySlice.PerturbSliceMain, PerturbBSplineSlice.PerturbSliceBSpline, PerturbBSplineSlice.PerturbBSplineMain |
| Code/Applications/PerturbImageLabelsMorphology2Das3D/PerturbImageLabelsMorphology2Das3D.cxx:333 (and PerturbImageLabelsBSpline2Das3D.cxx:175) | the write-back for the third axis targets voxel (k, k, 0) | axis 2 sliced: pixels (0, 0) and (0, 1) both go to voxel (0, 0, 0) | voxel (k, l, 0) | not executed | SliceVolume.VoxelOfAsWritten, SliceVolume.VoxelOfAsWrittenCollides | SliceVolume.VoxelOf, SliceVolume.VoxelOfIsPlaneBijection, SliceVolume.WriteBack |
| Code/Metrics/HausdorffDistanceSurfaceToSurfaceMetric.cxx:102-103 | the percentile is read from the distance lists unsorted | fixed point (0,0,0), moving points (1,0,0), (0,0,0), percentile 1: result 0 | the percentile of the sorted distances (1 here) | not executed | SurfaceMetrics.HausdorffAsWritten, SurfaceMetrics.HausdorffAsWrittenIgnoresOrder | SurfaceMetrics.Hausdorff, SurfaceMetrics.HausdorffFullPercentileIsMax, SurfaceMetrics.HausdorffDistanceSurfaceToSurfaceMetric.GetValue |
| Code/Metrics/HaussdorffDistanceSurfaceToSurfaceMetric.cxx:81-82 | the second loop compares with `maxDist1` but stores into `maxDist2`, keeping the last distance above the first maximum | moving point (0,0,0), fixed points (3,0,0), (2,0,0), (0,0,0): result 2 | the largest distance (3 here) | not executed | SurfaceMetrics.HaussdorffAsWritten, SurfaceMetrics.HaussdorffAsWrittenTakesLastAbove | SurfaceMetrics.Haussdorff, SurfaceMetrics.HaussdorffIsFullPercentile, SurfaceMetrics.HaussdorffDistanceSurfaceToSurfaceMetric.GetValue |
| Python/scoreSubmission.py:60-61 | every output line is unpacked as `name, value = line.split('=')` | any report of validateLabelImages: its first line is empty and splits into one part, so runScoring raises | skip the separator lines "" and "===" | not executed | ScoreSubmission.RunScoringAsWritten, ScoreSubmission.RunScoringAsWrittenRejectsReport | ScoreSubmission.RunScoring, ScoreSubmission.ScoringReadsReport, ScoreSubmission.ScoreFile, ScoreSubmission.ScoreAll |
| Python/RankAggregation/computeRankWeights.py:341-345 (and 512-516) | the submission is the last file whose subject key occurs anywhere in the ground truth's name | ground truth "case10.nii.gz", submissions "case10_r" and "case1_r": "case1_r" is chosen | the file whose key is the ground truth's subject | not executed | RankWeights.FindSubmissionAsWritten, RankWeights.FindSubmissionAsWrittenPicksPrefixSubject | RankWeights.FindSubmission |
| Python/RankAggregation/computeRankWeights.py:205-207 | the directions test "Kappa" and "Dist" on the binary's whole path, the names on its basename | binaries in a directory "/Kappa": a Dice binary gets one direction for its numObjects names | test the metric's name, one direction per name | not executed | RankWeights.MetricOrderAsWritten, RankWeights.MetricOrderAsWrittenMisaligned | RankWeights.BuildMetricOrder, RankWeights.OrderMatchesNames |
