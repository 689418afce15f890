# sensum co-registration and raster geometry, modelled in Dafny

This project models the deterministic core of the sensum satellite-imagery
toolbox. The core sits in `sensum/preprocess.py` and `sensum/conversion.py`,
under the GDAL, OGR and OpenCV calls. It covers:

- **Co-registration.**
  - `gcp_extraction` turns feature matches into a comparison stack of candidate rows `[distance, shift magnitude, slope, x_ref, y_ref, x_tg, y_tg]`.
  - `select_best_matching` sorts those rows by slope and cuts them into runs of nearly equal slope. It scores each run by the variance of its shift magnitudes and returns the closest match of the best run, or a fixed sentinel row.
  - `gcp_extraction_old` keeps only the closest matches, optionally converted to world coordinates.
  - `linear_offset_comp` computes the rounded mean offset.
  - `affine_correction` builds the translation matrix.
- **Raster geometry.**
  - `world2pixel` and `pixel2world`.
  - The corner box of `get_coordinate_limit` and the intersection of two boxes in `fix_tiling_raster`.
  - The pixel window and new geotransform of `clip_rectangular`.
  - The grid sizing of `shp2rast` and `polygon2array`.
- **Image I/O rules.** The numpy-to-GDAL type table, and the default data type and band selection of `read_image` and `write_image`.

Modules:

| file | module | contents |
|---|---|---|
| `py_core.dfy` | PyCore | Python/numpy semantics: exceptions as `Result`, `int()` truncation, Python 2 `round`, negative indexing, mean and population variance |
| `sorting.dfy` | Sorting | one insertion sort by a real key; it stands in for `argsort`, `sorted` and `list.sort` |
| `conversion.dfy` | Conversion | `sensum/conversion.py` |
| `best_match.dfy` | BestMatch | `select_best_matching` |
| `gcp.dfy` | Gcp | `gcp_extraction`, `gcp_extraction_old`, `linear_offset_comp`, `affine_correction` |
| `extent.dfy` | Extent | `get_coordinate_limit`, `fix_tiling_raster`, `clip_rectangular` |

How Python maps onto Dafny:

- **Numbers.** Floats are `real`. `int()` is truncation toward zero (`Trunc`). Python 2 `round` rounds halves away from zero (`RoundHalfAway`). `np.var` is the population variance.
- **Errors.** A Python exception is a `Failure` carrying the exception's name.
- **Loops.** Code that builds lists or arrays in a loop is a `method`, proved equal to a specification function. The properties are lemmas about that function.
- **Foreign calls.**
  - `np.arctan` is a function parameter; `np.pi` is the double 3.141592653589793.
  - A raster on disk is the sequence of its bands; a created dataset is a record value.
  - The driver's `Create` outcome is a boolean parameter.
  - A shapefile layer is the sequence of its features' exterior rings.
  - A feature match is its distance, its two keypoints and its shift magnitude.
- **Sorting.** numpy's default sort is not stable, so every property of the selection holds for any order sorted by the key, not just one tie order.

## Model

| member | source | states |
|---|---|---|
| PyCore.Trunc | sensum/conversion.py:357-358 | `int()` truncates toward zero: a non-negative x gives the n >= 0 with n <= x < n + 1, a negative x the n <= 0 with n - 1 < x <= n |
| PyCore.RoundHalfAway | sensum/preprocess.py:292-293 | Python 2 `round` is within one half of x and settles halves away from zero (upwards for x >= 0, downwards for x < 0) |
| PyCore.RoundOfInteger | sensum/preprocess.py:292-293 | `round` and `int()` leave a whole number unchanged |
| PyCore.NegativeIndexWraps | sensum/conversion.py:177 | `lst[i - len]` names the same element as `lst[i]` for 0 <= i < len, and every element an index finds belongs to the list |
| PyCore.Variance | sensum/preprocess.py:561 | `np.var` (population variance) is never negative |
| PyCore.MeanOfConstant | sensum/preprocess.py:292-293 | the mean of an array whose entries are all c is c |
| PyCore.VarianceOfConstant | sensum/preprocess.py:561 | an array of identical values has variance 0 |
| Sorting.InsertBy | sensum/preprocess.py:550 | inserting into a key-sorted sequence keeps it sorted, adds exactly that element to the multiset, and the head is the new element or the old head |
| Sorting.SortBy | sensum/preprocess.py:550 | the sort returns a permutation (same multiset, same length) of its input, sorted by the key |
| Sorting.SortByMembers | sensum/preprocess.py:523 | an element is in the sorted sequence iff it is in the input |
| Sorting.SortByHead | sensum/preprocess.py:242 | the head of a sorted non-empty sequence is an input element whose key is the least |
| Conversion.DataTypeToGdal | sensum/conversion.py:45-66 | a GDAL type returned by data_type2gdal_data_type always stands for the numpy type passed in (GdalToNumpy maps it back), and None is returned exactly for 0 and for any type outside the five it lists |
| Conversion.DataTypeTable | sensum/conversion.py:57-66 | uint16, uint8, int32, float32, float64 map to UInt16, Byte, Int32, Float32, Float64; each GDAL type comes only from its numpy type; the result is None exactly for 0 and any other type |
| Conversion.DataTypeToGdalInjective | sensum/conversion.py:57-66 | two arguments with the same GDAL type are the same type |
| Conversion.ReadType | sensum/conversion.py:88-89 | the type read_image casts to (0 becomes uint16); its properties are stated by Conversion.DefaultTypesAgree, Conversion.ReadSelection and Conversion.ReadAllThenWriteAll |
| Conversion.GdalTypeOrDefault | sensum/conversion.py:154-157 | the GDAL type write_image creates (0 becomes GDT_UInt16, otherwise the table); Conversion.DefaultTypesAgree states that it is the table's image of the read type, and Conversion.WriteSelection that None raises TypeError |
| Conversion.DefaultTypesAgree | sensum/conversion.py:88-89 | data type 0 reads as uint16 and writes as GDT_UInt16; for any data type the written GDAL type is the table's image of the read numpy type (lines 154-157) |
| Conversion.ReadImage | sensum/conversion.py:88-106 | the loop returns every band 1..nbands in order for selection 0, a one-element list with band k for 1 <= k <= nbands, all cast to the read type; any other k raises AttributeError |
| Conversion.ReadSpec | sensum/conversion.py:88-106 | the bands read_image returns, or AttributeError; Conversion.ReadImage is proved equal to it, and Conversion.ReadSelection states which bands it yields for each selection |
| Conversion.ReadSelection | sensum/conversion.py:96-106 | read_image succeeds iff 0 <= k <= nbands; selection 0 yields band i + 1 at position i; selection k yields exactly band k; every band has the read type |
| Conversion.WriteImage | sensum/conversion.py:154-177 | the loop writes `band_list[i]` to output band i + 1 for selection 0, else one band holding `band_list[k-1]`; an unknown type raises TypeError, a failed Create exits, an out-of-range k raises IndexError |
| Conversion.WriteSpec | sensum/conversion.py:154-177 | the dataset write_image creates, or TypeError, SystemExit or IndexError; Conversion.WriteImage is proved equal to it, and Conversion.WriteSelection and Conversion.ReadAllThenWriteAll state what it writes |
| Conversion.WriteSelection | sensum/conversion.py:154-177 | with a created dataset, a type with no GDAL counterpart raises TypeError; with a known type write_image succeeds iff k == 0 or -len < k <= len, every created band is written, selection 0 writes all bands in order, 1 <= k <= len writes `[band_list[k-1]]` and -len < k < 0 writes `[band_list[len+k-1]]` |
| Conversion.ReadAllThenWriteAll | sensum/conversion.py:96-177 | writing back all bands read with the same data type succeeds iff the read type has a GDAL counterpart, and creates every band of the source, in order and cast |
| Conversion.World2Pixel | sensum/conversion.py:351-358 | world2pixel fails with ZeroDivisionError exactly when gt[1] == 0 |
| Conversion.Pixel2World | sensum/conversion.py:361-379 | the (maxx, miny) corner reached from the origin by cols pixel widths and rows pixel heights; Conversion.Origin, Conversion.PixelRoundTrip, Conversion.NonSquareRowScale and Extent.CoordinateLimitCorners state its properties |
| Conversion.Origin | sensum/conversion.py:351-379 | pixel2world(gt, 0, 0) is (gt[0], gt[3]), and world2pixel maps (gt[0], gt[3]) to (0, 0) when gt[1] != 0 |
| Conversion.World2PixelIgnoresPixelHeight | sensum/conversion.py:354-358 | changing gt[5] never changes world2pixel's result: the row is divided by gt[1] |
| Conversion.PixelRoundTrip | sensum/conversion.py:351-379 | for a north-up geotransform with square pixels, world2pixel inverts pixel2world at every integer pixel |
| Conversion.NonSquareRowScale | sensum/conversion.py:351-379 | on an unrotated grid whose pixels are twice as tall as wide, world2pixel of pixel2world(c, r) is (c, 2 r): rows are measured in pixel widths, so the round trip fails for every r != 0 |
| Conversion.CellOfOffset | sensum/conversion.py:357-358 | for a positive cell size and non-negative offset, `int(offset / size)` is the n >= 0 with n * size <= offset < (n + 1) * size |
| Conversion.World2PixelCell | sensum/conversion.py:351-358 | for gt[1] > 0 and a point right of and below the origin, world2pixel returns the column and row of the cell (measured in pixel widths) holding the point |
| Conversion.Abs | sensum/conversion.py:212 | `abs` is non-negative and is x or -x |
| Conversion.Shp2RastSizing | sensum/conversion.py:207-225 | the extent is the given one unless a bound is 0, then the layer's. All six values non-zero: pixel size (px_W, abs(px_H)). Only rows and cols non-zero: the grid spans the extent exactly. Otherwise cols and rows are the truncated extent over pixel size. A zero pixel size there raises ZeroDivisionError. A raster with geotransform (x_min, psx, 0, y_max, 0, -psy) is created iff the final rows and cols are non-zero |
| Conversion.Shp2RastCoverage | sensum/conversion.py:221-222 | computed sizes cover a well-formed extent to within less than one pixel in each direction |
| Conversion.Polygon2ArrayGrid | sensum/conversion.py:286-289 | the grid fails exactly when gt[1] or gt[5] is 0; otherwise its geotransform is (x_min, gt[1], 0, y_max, 0, gt[5]) |
| Conversion.Polygon2ArrayCoverage | sensum/conversion.py:286-287 | for gt[1] > 0 and a well-formed extent, x_res and y_res are the largest whole numbers of pixels that fit in the extent |
| BestMatch.CutsFrom | sensum/preprocess.py:551 | the split points from j on are strictly increasing, end with the row count, and contain i (j <= i < n) iff slope[i] - slope[i-1] > 0.1 |
| BestMatch.SplitPoints | sensum/preprocess.py:551 | spl_slope ends with len(compstack), is strictly increasing, holds only indices >= 1 for a non-empty stack (an empty one gives [0]), and contains i iff the slope rises by more than 0.1 from row i-1 to row i |
| BestMatch.RunsCoverRows | sensum/preprocess.py:558-578 | concatenating the runs gives back all rows, in sorted order |
| BestMatch.RunsNonEmpty | sensum/preprocess.py:558-578 | for a non-empty stack no run is empty |
| BestMatch.RunsWithinTolerance | sensum/preprocess.py:551 | inside a run, consecutive slopes rise by at most 0.1 |
| BestMatch.RunsBreakApart | sensum/preprocess.py:551 | between consecutive runs the slope rises by more than 0.1 |
| BestMatch.Step | sensum/preprocess.py:563-577 | one run's update of (best_variability, len_bestvariab, best_row); BestMatch.ScoreRun is proved equal to it, and BestMatch.ChallengerWins and BestMatch.HolderWins state who wins |
| BestMatch.FoldPrefix | sensum/preprocess.py:553-578 | the state after the loop has visited a prefix of the runs; BestMatch.FoldPrefixWinner and BestMatch.FoldPrefixRow state what it records |
| BestMatch.Selection | sensum/preprocess.py:538-579 | the row select_best_matching returns; BestMatch.SelectBestMatching is proved equal to it, and BestMatch.SelectionSpec, BestMatch.SelectionIsARow, BestMatch.FewRowsGiveSentinel and BestMatch.StrictlyBestRunWins state its properties |
| BestMatch.MinDistanceRow | sensum/preprocess.py:570 | the first row after sorting a run by column 0 is a row of the run with the least distance |
| BestMatch.SelectBestMatching | sensum/preprocess.py:538-579 | sorting the stack by slope and then scanning its runs returns the selection of the slope-sorted stack |
| BestMatch.ScanRuns | sensum/preprocess.py:553-579 | the loop over split points, updating step, best_variability, len_bestvariab and best_row, returns the selection of its slope-ordered input |
| BestMatch.ScoreRun | sensum/preprocess.py:563-577 | one pass of the loop body: a run of more than 3 rows with variance at most the best either lowers the variance (replace) or ties it with more rows (replace); otherwise the state stays |
| BestMatch.ChallengerWins | sensum/preprocess.py:563-571 | a qualifying run with lower variance than the holder, or equal variance and more rows, becomes the winner |
| BestMatch.HolderWins | sensum/preprocess.py:572-577 | a run that is neither better nor equal-and-larger leaves the holder as winner |
| BestMatch.FoldPrefixWinner | sensum/preprocess.py:553-578 | after any number of runs, best_variability <= 5; the state is the initial one iff no run so far qualifies (more than 3 rows, variance <= 5); otherwise it records variance, length and closest row of the first qualifying run that no other beats on variance or on length at equal variance |
| BestMatch.SelectionSpec | sensum/preprocess.py:553-579 | if no run qualifies the result is the sentinel `[100,1.5,0,1,1,2,2]`; otherwise it is the closest row of a winning run |
| BestMatch.FoldPrefixRow | sensum/preprocess.py:556-577 | best_row is always the sentinel or a row of one of the runs visited |
| BestMatch.SelectionIsARow | sensum/preprocess.py:556-579 | the result is the sentinel or one of the input rows |
| BestMatch.FewRowsGiveSentinel | sensum/preprocess.py:563 | with fewer than 4 rows the sentinel is returned |
| BestMatch.StrictlyBestRunWins | sensum/preprocess.py:563-577 | a qualifying run whose variance is strictly below every other qualifying run's supplies the result: its lowest-distance row |
| Gcp.KeepWithin | sensum/preprocess.py:486 | a match is kept iff it is an input match with distance <= threshold |
| Gcp.Slope | sensum/preprocess.py:503-511 | the slope in degrees of a shift (90 for a vertical shift, 0 for none); Gcp.SlopeOfScaledShift and Gcp.SlopeRange state its properties |
| Gcp.SlopeOfScaledShift | sensum/preprocess.py:506-511 | the slope of a shift does not change when the shift is scaled by any non-zero factor (including reversal) |
| Gcp.SlopeRange | sensum/preprocess.py:506-511 | with `np.arctan`'s range (-pi/2, pi/2), every slope in degrees lies in (-90, 90] |
| Gcp.GcpExtraction | sensum/preprocess.py:485-535 | the loop builds the sentinel plus one row per kept match; the stack is sorted by distance and cut to 90 rows; the result is columns 3..6 of the selected row; with no kept match, IndexError |
| Gcp.CandidateRow | sensum/preprocess.py:497-517 | the row `[distance, shift magnitude, slope, x_ref, y_ref, x_tg, y_tg]` of one kept match; Gcp.StackRowOrigin and Gcp.GcpExtractionResult state what reaches the result |
| Gcp.ComparisonStack | sensum/preprocess.py:486-523 | the sentinel plus one candidate row per kept match, in match order, before the distance sort at line 523 (Gcp.SelectorInput is the sorted and cut form); Gcp.GcpExtraction is proved to build it, and Gcp.StackRowOrigin states where its rows come from |
| Gcp.SelectorInput | sensum/preprocess.py:523-526 | the first 90 rows of the distance-sorted stack; Gcp.SelectorInputLength, Gcp.SelectorInputClosest and Gcp.SelectorInputRows state its length, order and origin |
| Gcp.StackRowOrigin | sensum/preprocess.py:493-517 | each stack row is the sentinel or the row of an input match with distance <= 100; every row has distance <= 100 |
| Gcp.SelectorInputLength | sensum/preprocess.py:523-526 | the selector gets min(kept + 1, 90) rows |
| Gcp.SelectorInputClosest | sensum/preprocess.py:523-526 | the selector's rows are in distance order and none is farther than a row that was cut off |
| Gcp.SelectorInputRows | sensum/preprocess.py:493-526 | each row reaching the selector is the sentinel or the row of a match with distance <= 100 |
| Gcp.GcpExtractionResult | sensum/preprocess.py:485-535 | gcp_extraction fails iff every match has distance > 100; otherwise it returns one point pair, which is (1,1,2,2) or the int-truncated keypoints of a match with distance <= 100 |
| Gcp.GcpExtractionOld | sensum/preprocess.py:241-268 | the loops return the truncated keypoints of the matches within the threshold `sorted(dist)[0]`, as indices for output_option None or 0, else as world coordinates; no matches raise IndexError |
| Gcp.FillPoints | sensum/preprocess.py:252-257 | the points array holds the truncated keypoints of each selected match, row by row |
| Gcp.FillCoordinates | sensum/preprocess.py:263-267 | each row of points_coordinates is both points of the row passed through pixel2world |
| Gcp.OldThresholdIsMinimum | sensum/preprocess.py:242-247 | the threshold is the least match distance, and some match has it |
| Gcp.OldKeepsClosest | sensum/preprocess.py:241-268 | for at least one match the old extraction succeeds, keeps at least one match, keeps only matches no other match is closer than, and gives a row for every such closest match |
| Gcp.LinearOffset | sensum/preprocess.py:283-295 | the rounded mean offset, undefined (None) exactly for no points; Gcp.LinearOffsetComp is proved equal to it, and Gcp.UniformShiftOffset and Gcp.SingleRowOffset state its values |
| Gcp.LinearOffsetComp | sensum/preprocess.py:283-295 | the loop fills the x and y offsets (target minus reference) and returns their rounded means; no points gives NaN means, modelled as None |
| Gcp.UniformShiftOffset | sensum/preprocess.py:283-295 | if every pair is shifted by the same whole (dx, dy), the offset is (dx, dy) |
| Gcp.SingleRowOffset | sensum/preprocess.py:283-295 | for one integer point pair the offset is exactly that pair's shift |
| Gcp.CorrectionMatrix | sensum/preprocess.py:595-597 | building M fails with IndexError exactly when best_match is empty |
| Gcp.CorrectionMapsReferenceToTarget | sensum/preprocess.py:595-597 | M is the translation by (delta_x, delta_y), carrying the reference point of best_match[0] onto its target point |
| Gcp.CorrectionAgreesWithLinearOffset | sensum/preprocess.py:595-597 | for one integer point pair, M's translation equals linear_offset_comp's offset |
| Extent.CoordinateLimit | sensum/preprocess.py:438-443 | the box get_coordinate_limit returns; Extent.CoordinateLimitCorners and Extent.NorthUpLimitsOrdered state its corners and order |
| Extent.CoordinateLimitCorners | sensum/preprocess.py:438-441 | (minx, maxy) is pixel2world at pixel (0, 0), and (maxx, miny) is pixel2world at (width, height) |
| Extent.NorthUpLimitsOrdered | sensum/preprocess.py:438-441 | for a north-up geotransform the limits are ordered: minx <= maxx and miny <= maxy |
| Extent.Intersect | sensum/preprocess.py:393-408 | the box fix_tiling_raster computes from two boxes; Extent.IntersectBounds, Extent.IntersectContains, Extent.IntersectCommutes and Extent.IntersectIdempotent state its properties |
| Extent.IntersectBounds | sensum/preprocess.py:393-408 | new_minx/new_miny are the larger and new_maxx/new_maxy the smaller of the two boxes' bounds |
| Extent.IntersectContains | sensum/preprocess.py:393-408 | a point lies in the intersection iff it lies in both boxes |
| Extent.IntersectCommutes | sensum/preprocess.py:393-408 | the intersection does not depend on the order of the rasters |
| Extent.IntersectIdempotent | sensum/preprocess.py:393-408 | a box intersected with itself is unchanged |
| Extent.MinOf | sensum/preprocess.py:122-125 | the least element is a list element and no element is smaller |
| Extent.MaxOf | sensum/preprocess.py:126-129 | the greatest element is a list element and no element is larger |
| Extent.AscendingHead | sensum/preprocess.py:122-125 | after `x_list.sort()`, `x_list[0]` is the list's minimum |
| Extent.DescendingHead | sensum/preprocess.py:126-129 | after `sort(None, None, True)`, element 0 is the list's maximum |
| Extent.SortedKeepsExtremes | sensum/preprocess.py:122-129 | sorting the already ascending list in reverse still puts the maximum first |
| Extent.Extremes | sensum/preprocess.py:122-129 | the two sorts return the minimum and the maximum of the list |
| Extent.CollectVertexPixels | sensum/preprocess.py:107-120 | the loop over features appends world2pixel of every vertex but the last of each ring; a zero gt[1] with a vertex raises ZeroDivisionError |
| Extent.ClipRectangular | sensum/preprocess.py:107-140 | with the documented default type honoured (see Left out), clip_rectangular returns the window from the least to the greatest vertex pixel, the new geotransform and the band count, or the error the code raises |
| Extent.ClipOutcome | sensum/preprocess.py:107-140 | with the documented default type honoured (see Left out), the clip fails exactly in three cases: no vertex raises IndexError, a zero gt[1] raises ZeroDivisionError, and a type with no GDAL counterpart raises TypeError. Otherwise it succeeds with that GDAL type and the window over all the vertex pixels |
| Extent.ClipWindow | sensum/preprocess.py:122-137 | cols_out and rows_out are >= 0, every vertex pixel lies in the window, and both window edges are vertex pixels |
| Extent.ClippedGeoTransform | sensum/preprocess.py:131-135 | the geotransform of the clipped raster; Extent.ClipOrigin states what it places where |
| Extent.ClipSpec | sensum/preprocess.py:107-144 | the outcome of clip_rectangular with the documented default type honoured; Extent.ClipRectangular is proved equal to it, and Extent.ClipOutcome and Extent.ClipWindow state its error cases and window |
| Extent.ClipOrigin | sensum/preprocess.py:132-135 | the new geotransform keeps the pixel sizes, and for an unrotated input (gt[2] = gt[4] = 0) its origin is the world position of the window's first pixel in the input raster |
| Extent.DefaultTypeBreaksClip | sensum/preprocess.py:139-140 | as written, data type 0 yields no GDAL type and the clip raises TypeError |
| Extent.ClipGdalTypeCorrected | sensum/preprocess.py:139-140 | the corrected lookup is write_image's rule `GdalTypeOrDefault`: 0 creates a GDT_UInt16 raster, the uint16 the docstring documents, and every explicit numpy type gets the same GDAL type as written, or the same TypeError |

## Left out

These are not modelled, each for the reason given:

- **Feature detection and matching** with SURF, BRIEF and BruteForce-Hamming: these are OpenCV calls. Matches are inputs (distance, keypoints, shift magnitude).
- **`cv2.warpAffine` resampling:** only the matrix M is modelled.
- **`np.arctan` and `np.sqrt`:** arctan is a parameter. The shift magnitude is an input, because line 500 of `gcp_extraction` adds an undefined `cols`, and lines 475-476 use undefined `img2`/`img2_m`. As written those lines raise NameError.
- **The `points` and `points_shift` arrays** of `gcp_extraction`: they are filled but never read. `points_shift_abs` is read as column 1 of each stack row (line 513); it is an input because line 500, which fills it, raises NameError.
- **`fix_tiling_raster` line 412:** it uses the undefined `minx`/`maxy` and then shells out to `gdal_translate` and `mv`. Only the intersection box is modelled.
- **GDAL/OGR I/O:** opening files, reading features, copying pixel windows, `RasterizeLayer`, `SetProjection`, and the `Create` of each output. Results are values, and `write_image`'s `Create` outcome is a parameter. Whether GDAL accepts a zero-sized raster is not modelled.
- **Floating point:** numbers are reals, with no IEEE rounding and no NaN. The `float32` casts of `points_coordinates` and of M are ignored. The empty mean in `linear_offset_comp` gives `None`; the empty variance in `select_best_matching` is excluded by the length test that guards it, which is equivalent.
- **Sort order among ties:** numpy's `argsort` is not stable, so tie order is not modelled. Every lemma about the selection holds for any slope-sorted input.
- **Angle range:** the code yields slopes in (-90, 90] (Gcp.SlopeRange), and the model follows the code.
- Extent.ClipSpec: the corrected type lookup lives here. It honours the documented default, so data type 0 creates a GDT_UInt16 raster; the code as written raises TypeError at lines 139-140 (Extent.DefaultTypeBreaksClip). The band cast at line 144, `.astype(data_type)`, would need the same mapping and is not modelled.
- Extent.ClipRectangular: is proved equal to Extent.ClipSpec, so data type 0 creates a GDT_UInt16 raster here too, where the code as written raises TypeError.
- Extent.ClipOutcome: states the outcome with the documented default honoured, so its TypeError case covers only the types outside the table, and its success case includes 0.
- **Other functions:** `read_image_parameters`, `layer_stack`, `layer_split`, `rast2shp`, `utm2wgs84`, `reproject_shapefile`, `pansharp`, `resampling`, `F_B` and output-name suffixing are I/O or external tools, and not part of this model.

## Findings

| source | as written | input that shows it | evidently intended | confidence | as-written member | corrected member |
|---|---|---|---|---|---|---|
| sensum/preprocess.py:139-140 | `clip_rectangular` passes `data_type` straight to `data_type2gdal_data_type`, which returns None for 0 | `data_type = 0`, which the docstring (line 69) documents as the default np.uint16; `Create` then gets None as its type and raises TypeError | 0 means uint16 / GDT_UInt16, as in `read_image` and `write_image`; the `.astype(data_type)` cast at line 144, which fails for 0 too, needs the same mapping to uint16 | not executed; medium (it depends on the GDAL binding rejecting None) | Extent.DefaultTypeBreaksClip | Extent.ClipGdalTypeCorrected |
