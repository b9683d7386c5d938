# Shape matching for village parcels, modelled in Dafny

The system takes one parcel polygon from a shapefile and turns it into a
reference raster: the vertices are min-max normalised into the unit square,
shrunk toward the centre by a padding ratio, scaled onto an
`image_size x image_size` grid and filled. It then ranks the stored candidate
rasters (`.dat` files) of every sub-village against that reference. There are
two ranking paths:

- the **standard** path scores four flipped variants of each candidate by IoU
  and by symmetric Hausdorff distance. It prefers "Flipped Vertically" within
  a tolerance, and stably sorts the rows by IoU (descending), then by
  distance (ascending);
- the **advanced** path scores vertically flipped candidate images by the
  cosine similarity of image embeddings, and stably sorts them by score
  (descending).

This project models that core over exact values and proves its contracts:

| file | module | models |
|---|---|---|
| `common.dfy` | `Common` | shared types: `Option`, the extended distance `Ext = Finite(r) \| Inf`, rasters, and the image-library calls as the fields of `Vision` |
| `geometry.dfy` | `GeometryUtils` | `normalize_coordinates`, `pad_normalized_coordinates` |
| `mask.dfy` | `MaskUtils` | `create_mask_from_coords`, `load_dat_as_mask`, `find_contours_from_mask` |
| `selection.dfy` | `Selection` | the "first strict maximum / minimum" a strict-compare scan finds |
| `stable_sort.dfy` | `StableSort` | Python's stable `list.sort(key=..., reverse=True)` |
| `comparison.dfy` | `ComparisonUtils` | `calculate_iou`, `calculate_hausdorff`, `compare_masks` |
| `advanced.dfy` | `AdvancedComparison` | `ImageComparator.compare_features`, `run_vgg16_comparison` |
| `ranking.dfy` | `Ranking` | `generate_references` (mask part), both branches of `run_comparison` |

Modelling choices:

- Arithmetic is over `real`. A Hausdorff distance is `Ext`, and `ExtLess` is
  Python's `<` on finite floats and `inf`.
- The library calls are total function fields of a datatype; `None` stands
  for the library raising. This covers `cv2.fillPoly`, `cv2.resize`,
  `cv2.findContours` with `imutils.grab_contours`, `cv2.contourArea` and
  scipy's `directed_hausdorff`. The embedder (`Embedder`) is modelled the
  same way: library presence, model loading, feature extraction, the
  flipped-image pipeline and scipy's cosine distance.
- Two facts about the libraries are stated as predicates that a lemma or
  contract takes as a hypothesis. `Common.ResizesToTarget` says that
  `cv2.resize` returns the requested size. `AdvancedComparison.CosineInRange`
  says that scipy's cosine distance lies in [0, 2].
- A `Pixel` pair is a raster cell (row, column) in `Paint` and the
  rasters, and an OpenCV point (x, y) = (column, row) in the polygon given
  to `cv2.fillPoly` and in the traced contours.
- `list.sort` is specified by `StableSort.Sort`, a functional stable
  insertion sort. `StableSort.StableSortIsUnique` proves that any sorted list
  keeping the input order of equal keys equals it. So the model fixes the
  same list as any stable sort, Timsort included.
- `compare_masks`, both branches of `run_comparison` and
  `run_vgg16_comparison` are methods with the source's loops, proved equal to
  specification functions (`Compare`, `Sort(CollectRows(...))`,
  `VggResult`). The properties are proved about those functions.
- `compare_masks` returns a dictionary with a single `best_transform` key
  when a mask is missing, and four per-metric keys otherwise. These are the
  two constructors `Neutral` and `Scored` of `Comparison`.

## Model

| member | source | states |
|---|---|---|
| `Common.ExtLessIsStrictTotal` | comparison_utils.py:93-95 | the distance comparison `<` on finite values and infinity is irreflexive, transitive and total |
| `Common.Zeros` | mask_utils.py:9-12 | `np.zeros((size, size))` is a size x size, all-zero, 0/1 raster |
| `GeometryUtils.MinOf` | geometry_utils.py:35 | the column minimum is an element and is at most every element |
| `GeometryUtils.MaxOf` | geometry_utils.py:36 | the column maximum is an element and is at least every element |
| `GeometryUtils.NormalizeAxisInUnit` | geometry_utils.py:37-47 | a value between the axis minimum and maximum normalises into [0, 1]; with a nonzero range the minimum goes to 0 and the maximum to 1 |
| `GeometryUtils.Normalize` | geometry_utils.py:30-49 | None exactly for a missing or empty vertex list; otherwise as many vertices as the input, all in the unit square; one vertex gives exactly [(0.5, 0.5)] |
| `GeometryUtils.NormalizeAxisExtremes` | geometry_utils.py:35-47 | on one axis: if not all values are equal, a least value maps to 0 and a greatest to 1; if all are equal, every value maps to 0.5 |
| `GeometryUtils.NormalizeExtremes` | geometry_utils.py:35-47 | for two or more vertices, the extreme and zero-range facts hold for both the x and the y axis of the normalised list |
| `GeometryUtils.ScaleFactor` | geometry_utils.py:57-58 | the factor is never negative: 1 - 2 ratio up to ratio 0.5, and 0 from there on |
| `GeometryUtils.Clip` | geometry_utils.py:62 | the clamp lands in [0, 1] and leaves values already in [0, 1] alone |
| `GeometryUtils.Pad` | geometry_utils.py:52-63 | None exactly for a missing or empty list; otherwise the same number of points, all in the unit square |
| `GeometryUtils.PadZeroIsIdentity` | geometry_utils.py:57-62 | ratio 0 leaves every point of the unit square unchanged |
| `GeometryUtils.PadCollapses` | geometry_utils.py:57-62 | a ratio of at least 0.5 sends every point to (0.5, 0.5) |
| `GeometryUtils.PadFixesCentre` | geometry_utils.py:57-62 | the centre (0.5, 0.5) is fixed for every ratio |
| `GeometryUtils.ShrinkStaysInUnit` | geometry_utils.py:61 | shrinking a unit-interval value toward 0.5 by a factor in [0, 1] stays in [0, 1] |
| `GeometryUtils.PadIsHomothety` | geometry_utils.py:57-62 | for a non-negative ratio the clip never acts on unit-square input: padding is exactly the homothety about the centre |
| `GeometryUtils.ShrinkLeavesBorder` | geometry_utils.py:57-61 | for a ratio in [0, 0.5], the shift, scale and shift back keeps a unit value within [ratio, 1 - ratio] |
| `GeometryUtils.PadLeavesBorder` | geometry_utils.py:52-63 | padding adds a border: for a ratio in [0, 0.5] every padded point of the unit square lies in [ratio, 1 - ratio] on both axes |
| `Selection.FirstMaxIndex` | comparison_utils.py:79-84 | the index a `>` scan keeps is the first position of a maximum |
| `Selection.FirstMaxStep` | comparison_utils.py:82-84 | one step of the `>` scan: the new element replaces the kept one exactly when strictly larger |
| `Selection.FirstMinIndex` | comparison_utils.py:91-95 | the index a `<` scan keeps is the first position of a minimum |
| `Selection.FirstMinStep` | comparison_utils.py:93-95 | one step of the `<` scan: the new element replaces the kept one exactly when strictly smaller |
| `StableSort.SortPermutes` | main.py:294 | the sort returns a permutation (same multiset) of its input |
| `StableSort.SortSorted` | main.py:294 | for a strict total order, no later element's key comes before an earlier one's |
| `StableSort.SortKeepsOrderPerKey` | main.py:294 | elements with equal keys keep their input order (stability) |
| `StableSort.StableSortIsUnique` | advanced_comparison.py:160 | any list that is sorted and keeps the per-key input order is the sort's result |
| `StableSort.SortHead` | mask_utils.py:62-63 | the head of a non-empty sort is the first input element with a key no other key beats |
| `MaskUtils.Trunc` | mask_utils.py:18 | `astype(np.int32)` truncates toward zero: below for non-negative values, above for negative ones, within 1 |
| `MaskUtils.ScaleToGrid` | mask_utils.py:15-20 | one grid vertex per input vertex, each the truncation of `c * (size - 1)` per axis |
| `MaskUtils.TruncScaledInRange` | mask_utils.py:15-18 | truncating `c * m` for `c` in [0, 1] gives an integer in 0..m, rounded down |
| `MaskUtils.ScaledIndicesInRange` | mask_utils.py:15-20 | for unit-square input every grid index lies in 0..size-1 and is the scaled value rounded down |
| `MaskUtils.Paint` | mask_utils.py:22-26 | the filled raster is size x size, 0/1, and 1 exactly at the filled pixels |
| `MaskUtils.CreateMaskFromCoords` | mask_utils.py:7-30 | always a size x size 0/1 raster; all-zero for a missing list, fewer than three vertices or a failed fill; otherwise 1 exactly at the pixels the fill sets |
| `MaskUtils.Binarize` | mask_utils.py:43 | same dimensions, 0/1, and a cell is 1 exactly when the loaded cell is positive |
| `MaskUtils.LoadDatAsMask` | mask_utils.py:32-47 | None on a read failure; no resize when the shape is already size x size; otherwise None exactly when the resize fails; a result is always 0/1; when `cv2.resize` returns the requested shape (`ResizesToTarget`), every result is size x size |
| `MaskUtils.LargestContourIsFirstMax` | mask_utils.py:60-63 | after the stable descending sort by area, the head is the first traced contour of maximal area |
| `MaskUtils.FindContoursFromMask` | mask_utils.py:49-68 | at most one contour; none for a missing or all-zero mask, a tracing failure or no contours; otherwise the first traced contour of largest area |
| `ComparisonUtils.Position` | comparison_utils.py:60-65 | each transform has its position in the dictionary's visiting order |
| `ComparisonUtils.Label` | comparison_utils.py:60-70 | the label is "N/A" exactly when no transform was chosen |
| `ComparisonUtils.LabelInjective` | comparison_utils.py:60-70 | different transforms, and "none", have different labels |
| `ComparisonUtils.Reverse` | comparison_utils.py:62 | a reversed row holds the mirrored cell at every index |
| `ComparisonUtils.FlipRows` | comparison_utils.py:63 | `cv2.flip(m, 0)` mirrors the row order |
| `ComparisonUtils.FlipCols` | comparison_utils.py:62 | `cv2.flip(m, 1)` reverses each row |
| `ComparisonUtils.ApplyCells` | comparison_utils.py:60-65 | each variant of an h x w raster is h x w, and its cell (i, j) is the cell of the original at the mirrored row and/or column |
| `ComparisonUtils.ApplyInvolution` | comparison_utils.py:60-65 | applying any of the four flips twice restores the raster |
| `ComparisonUtils.RowCounts` | comparison_utils.py:13-14 | per row: the AND count is at most the OR count, both are symmetric, and they are equal exactly when the two rows are nonzero at the same cells |
| `ComparisonUtils.GridCounts` | comparison_utils.py:13-14 | over a raster: the intersection count is at most the union count, and both are symmetric |
| `ComparisonUtils.GridAndEqualsOr` | comparison_utils.py:13-14 | for equal-shape rasters, intersection equals union exactly when both have the same nonzero cells |
| `ComparisonUtils.CalculateIou` | comparison_utils.py:8-20 | the IoU lies in [0, 1]; it is 0.0 for a missing mask or a shape mismatch, and 1.0 when the shapes agree and the union is empty |
| `ComparisonUtils.IouIsRatio` | comparison_utils.py:13-17 | with a non-empty union, the IoU is intersection / union |
| `ComparisonUtils.IouSymmetric` | comparison_utils.py:8-20 | the IoU does not depend on argument order |
| `ComparisonUtils.IouOneIffSameSupport` | comparison_utils.py:13-17 | two equal-shape rasters have IoU 1 exactly when they are nonzero at the same cells (so iou(A, A) = 1) |
| `ComparisonUtils.CalculateHausdorff` | comparison_utils.py:22-49 | Inf for an empty list; finite exactly when both first contours have points and both directed distances are computed; then it is the larger directed distance |
| `ComparisonUtils.HausdorffSymmetric` | comparison_utils.py:44-46 | the distance does not depend on argument order |
| `ComparisonUtils.IouScores` | comparison_utils.py:79-81 | four IoUs, one per variant in visiting order, each in [0, 1] |
| `ComparisonUtils.HausScores` | comparison_utils.py:77-92 | four distances, one per variant in visiting order, against the reference contours traced once |
| `ComparisonUtils.PickIou` | comparison_utils.py:101-110 | a transform is always reported with its own IoU; "Flipped Vertically" exactly when no IoU exceeds the vertical one by more than the tolerance, or the vertical one is the first maximum; otherwise the first maximal variant; no variant beats the result by more than the tolerance |
| `ComparisonUtils.PickHausdorff` | comparison_utils.py:103-117 | "N/A" with Inf exactly when every distance is Inf; otherwise a finite distance of the reported variant; "Flipped Vertically" exactly when its distance is finite and within the tolerance of the least, or is the first least; otherwise the first least |
| `ComparisonUtils.TiesReportVertical` | comparison_utils.py:106-117 | when all four scores tie, a non-negative tolerance reports "Flipped Vertically" for IoU, and for a finite distance; all-Inf reports Inf and "N/A" |
| `ComparisonUtils.Compare` | comparison_utils.py:52-124 | `Neutral(0, Inf, N/A)` exactly when a mask is missing; otherwise an IoU in [0, 1] with a transform, and a distance whose transform is "N/A" exactly when it is Inf |
| `ComparisonUtils.SymmetricCandidateReportsVertical` | comparison_utils.py:60-117 | a candidate symmetric under both flips reports "Flipped Vertically" for IoU, and for Hausdorff whenever the distance is finite |
| `ComparisonUtils.IouScanStep` | comparison_utils.py:81-84 | the running best IoU (from -1, "N/A") stays the first maximum of the scores seen |
| `ComparisonUtils.HausdorffScanStep` | comparison_utils.py:92-95 | the running best distance (from Inf, "N/A") stays the first minimum of the distances seen, "N/A" while all are Inf |
| `ComparisonUtils.IouPromotionAsWritten` | comparison_utils.py:107-110 | the promotion guard as written, including `abs_best_iou >= 0` and the inner `or`, decides exactly as `PickIou` |
| `ComparisonUtils.HausdorffPromotionAsWritten` | comparison_utils.py:113-117 | the nested Hausdorff guards as written decide exactly as `PickHausdorff` |
| `ComparisonUtils.CompareFromScans` | comparison_utils.py:100-124 | after both scans, the final variables set by the guards are exactly `Compare`'s result |
| `ComparisonUtils.CompareMasks` | comparison_utils.py:52-124 | the loop over the four variants and the promotions return exactly `Compare` |
| `AdvancedComparison.CompareFeatures` | advanced_comparison.py:83-99 | 0.0 for a missing or all-zero vector and for a NaN or raising cosine; otherwise exactly 1 - the cosine distance; any non-zero result r means the cosine distance was exactly 1 - r |
| `AdvancedComparison.SimilarityInRange` | advanced_comparison.py:83-99 | when the cosine distance lies in [0, 2] whenever it is a number, every result of `compare_features`, the 0.0 of the guards included, lies in [-1, 1] |
| `AdvancedComparison.ScoreFor` | advanced_comparison.py:138-157 | 0.0 when the image cannot be opened or embedded; otherwise `compare_features` of the reference and the flipped image |
| `AdvancedComparison.Pairs` | advanced_comparison.py:134-157 | one (path, score) pair per input path, in input order |
| `AdvancedComparison.RunVgg16Comparison` | advanced_comparison.py:101-162 | the guards, the loop and the sort return exactly `VggResult` |
| `AdvancedComparison.Firsts` | main.py:341 | `[item[0] for item in ...]` has one entry per pair |
| `AdvancedComparison.PermutedPairsScored` | advanced_comparison.py:134-160 | after reordering, every path still carries its own score |
| `AdvancedComparison.FirstsOfPairs` | advanced_comparison.py:134-157 | the paths of the pairs are the input paths, in order |
| `AdvancedComparison.VggResultProperties` | advanced_comparison.py:114-162 | [] exactly on a setup failure or no paths; otherwise every path appears exactly once with its own score, scores never increase, and equal scores keep input order |
| `AdvancedComparison.VggScoresInRange` | advanced_comparison.py:134-160 | when the cosine distance stays in [0, 2], every score in the returned list lies in [-1, 1] |
| `Ranking.ReferenceMask` | main.py:202-216 | a mask is produced exactly when vertices were extracted, there is at least one, and the rasterised padded normalisation is not all-zero; it is then that raster, size x size and 0/1; fewer than three vertices give none |
| `Ranking.DefaultPaddingLeavesBorder` | main.py:146 | with the configured padding ratio 0.05, every padded vertex lies in [0.05, 0.95] on both axes |
| `Ranking.RowFor` | main.py:265-287 | a file gives no row exactly when its raster does not load; a row carries the file's name and sub-village |
| `Ranking.RowForCopiesScores` | main.py:272-287 | a loaded file's row copies the four best-score keys of `compare_masks`: an IoU in [0, 1] with a transform, a distance with "N/A" exactly when Inf |
| `Ranking.Loaded` | main.py:265-270 | a file is kept exactly when it is listed and its raster loads |
| `Ranking.RowsOfMatchesLoads` | main.py:265-287 | a sub-village gives one row per file that loads, in listing order, each the row of that file |
| `Ranking.RowCountIsLoadCount` | main.py:250-287 | the number of rows equals the number of files, over all sub-villages, whose raster loads |
| `Ranking.RankBeforeIsStrictTotal` | main.py:294 | the key `(iou, -hausdorff)` under `reverse=True` is a strict total order |
| `Ranking.RankingOrder` | main.py:294 | the ranking is a permutation of the rows; IoU never increases; within equal IoU the distance never decreases, so Inf comes last; rows equal on both keys keep encounter order; the head has the largest IoU and, among those, the least distance |
| `Ranking.RankingExample` | main.py:294 | IoUs 0.9, 0.9, 0.7 with distances 5, 3, 1 rank as second, first, third |
| `Ranking.Basename` | main.py:364 | `os.path.basename` is the suffix after the last '/': it has no '/', and it is either the whole path or preceded by a '/' |
| `Ranking.SplitExtRoot` | main.py:299 | `os.path.splitext(p)[0]` is a prefix of p |
| `Ranking.SplitExtRootStripsExtension` | main.py:299 | the root is p cut at the dot that starts p's extension, and p itself when p has no extension (".dat" stays ".dat") |
| `Ranking.CompareSubVillage` | main.py:265-287 | the inner loop over one sub-village's files builds exactly its rows |
| `Ranking.RunStandardComparison` | main.py:238-302 | the results are the stable ranking of all rows; found exactly when there is a row; then the best match is row 0, its filename without extension and its IoU and sub-village; otherwise None and no info |
| `Ranking.Tagged` | main.py:327-328 | each collected path is paired with its folder's sub-village |
| `Ranking.FirstGroup` | main.py:348-352 | the lookup finds nothing exactly when no collected pair has the path |
| `Ranking.FirstGroupIsFirstMatch` | main.py:348-352 | the lookup returns the sub-village of the first collected pair with the path |
| `Ranking.GroupOrUnknown` | main.py:357 | a missing or empty sub-village becomes "unknown"; any other name is kept |
| `Ranking.AttachSubVillages` | main.py:346-358 | one result per ranked pair, in ranked order, with its path, similarity and looked-up sub-village |
| `Ranking.RunAdvancedComparison` | main.py:304-367 | a missing reference image gives no results, no best match and no info; otherwise the results are the embedding ranking of all collected paths, each with its first collected sub-village; the best match is row 0 with its base name without extension |
| `Ranking.AdvancedRowsHaveGroups` | main.py:341-358 | every ranked path was collected, so the lookup always finds a sub-village |

## Left out

- Directory listing is not modelled: `os.listdir`, the extension filters and the path joins. Each sub-village arrives with its listed `.dat` files, and each image folder with its listed image paths. A missing folder is the same as an empty listing.
- `os.path.exists` for the reference image is not modelled. It is folded into the optional reference path.
- `np.loadtxt` is not modelled. A file arrives as the grid it parses to, or `None` when parsing raises (including values outside uint8).
- Printing is not modelled: the progress counters `processed_files_in_subvillage` and `total_processed_files`, and all messages.
- `Ranking.RunStandardComparison`: the best-match text `"IoU: {:.3f} (Sub-village: ...)"` is returned as its values (`IouInfo`), not as formatted text; the same holds for the "VGG Sim" text of `Ranking.RunAdvancedComparison`.
- Floating point is not modelled. All arithmetic is exact over `real`, and NaN only appears in the cosine guard of `compare_features`.
- The library internals are abstract: the scanline fill, nearest-neighbour resize, contour tracing and contour area, `directed_hausdorff`, VGG16 preprocessing and features, and the cosine formula.
- `MaskUtils.CreateMaskFromCoords`: the zero buffer that `cv2.fillPoly` fills in place is modelled as the value it ends up holding.
- The in-place `list.sort` is modelled by the value it leaves, `StableSort.Sort`. Timsort's internal steps are not modelled.
- `get_coordinates_from_geometry` is not part of this model. It dispatches on shapely objects, so `Ranking.ReferenceMask` takes the extracted vertices, or none.
- The `squeeze`/`reshape` shape checks of `calculate_hausdorff` are not modelled. A contour is a sequence of points, so the `ValueError` paths cannot arise.
- The reference image file that `generate_references` saves is not modelled, and neither is `run_main_workflow`, `report_and_visualize`, the interactive prompts, `pdf_generator.py` or `backend/app.py`. These are I/O and UI. The backend repeats the same ranking.
- `ImageComparator` is modelled by the `Embedder` value. It has no updates after construction.
