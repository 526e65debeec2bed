# pyphe core in Dafny

This project models the sequential, self-contained logic of pyphe, a toolkit
for phenotyping microbial colonies on agar plates, and proves properties of it.
The modelled parts are:

- **Plate analysis** (`pyphe/analysis.py`):
  - the reference-grid position lists of the analysis command;
  - the input-type and normalisation dispatch;
  - reference-grid normalisation of one plate: grid placement, the mask of
    positions near a missing control, interior-outlier removal, the reference
    surface and the corrected values;
  - the repair of infinite and negative values (`check_values`);
  - the reading of growth-curve results keyed by `"row-column"` labels;
  - the file paths of the gitter batch step.
- **Growth-curve analysis** (`pyphe/growthcurves.py`):
  - lag detection as a first-exceedance scan;
  - the choice of the steepest (or shallowest) regression window;
  - area under the curve and maximum;
  - the negative-slope and bad-fit quality flags.
- **Scanning** (`pyphe/scan.py`):
  - the scanner-listing parse;
  - the scaling of `"WxH+X+Y"` crop geometries;
  - the plate-to-bay schedule of a batch;
  - the raw, cropped and timecourse file names, as plans of what each scan
    would produce.
- **Replicate numbering** (`count_reps` in `pyphe/interpret.py`).
- **Grid geometry and mask thresholds** (`pyphe/quantify.py`):
  - `make_grid`;
  - the threshold precedence of `make_mask`.

## How the model is built

Python and library semantics are modelled explicitly:

- numpy floats are `Floats.Value`: a finite value (an exact real), NaN or
  ±infinity. Division by zero gives an infinity or NaN, as numpy does.
- A pandas plate table is `Frames.Frame`, a map from (row, column) to a value. Its
  `Frames.Shape` is the list of row labels and the list of column labels in table
  order, so tables that lack some rows or columns are covered.
- Exceptions are `Results.Error` values inside a `Result`, one constructor per
  Python exception class the code can raise.
- `int(s)`, `str.split`, `str.strip`, `str.replace` and `str(n)` are defined
  in `Text`.

Where the code and its documented intent differ, the code is followed:

- An unknown lag method raises NameError, because the message formats an
  undefined name; it does not raise ValueError.
- The window search never considers the last full window.
- `make_grid`'s evenness test divides numpy floats, so a zero mean spacing
  does not raise.
- `make_mask` as written cannot compute a default threshold (see Findings).
- `make_grid` as written returns the paired x/y positions, not all vertices
  (see Findings).

Numerical routines from scipy, skimage and sklearn are parameters of the
model:

- the per-window least-squares fit (the checks `linregress` makes before
  fitting, and the NaN slope of a one-point window, are modelled);
- the z-score mean and standard deviation;
- the cubic interpolation of the reference surface, including whether it fails;
- Otsu's threshold.

Everything that touches the outside world is left out: the shell, the
scanner, files, and the interactive prompt. In its place, each operation
returns the plan of file names and crops it would act on.

## Model

| member | source | states |
|---|---|---|
| Layout.ReferenceGridPositions | pyphe/analysis.py:531-539 | ValueError exactly for names other than the five accepted layout names |
| Layout.Standard384Layout | pyphe/analysis.py:531-532 | 'standard384' lists 96 distinct positions, exactly the odd rows 1..15 × odd columns 1..23 |
| Layout.Standard1536Layout | pyphe/analysis.py:533-535 | 'standard1536' lists 192 distinct positions: first the 96 with row and column ≡ 1 (mod 4), then the 96 with both ≡ 0 (mod 4) |
| Layout.With384GridLayout | pyphe/analysis.py:536-537 | '1536with384grid' lists 384 distinct positions, exactly the odd rows 1..31 × odd columns 1..47 |
| Layout.LatticeLayout | pyphe/analysis.py:532 | a nested range comprehension lists each step-spaced position exactly once, with count equal to the product of the range lengths |
| Layout.RangeMembers | pyphe/analysis.py:532 | x is in range(start, stop, step) iff start ≤ x < stop and x − start is a multiple of step |
| Layout.InputReader | pyphe/analysis.py:502-515 | the four input types select their readers; any other type is a ValueError |
| Layout.PipelinePlan | pyphe/analysis.py:502-582 | the plan succeeds iff the input type is known and grid normalisation is requested only for non-redness input with a known layout; median normalisation reads the grid-corrected key after grid normalisation; the value check reads the key the last normalisation wrote |
| Frames.FullPlateCells | pyphe/analysis.py:277-281 | on a full plate 1..R × 1..C the table positions are exactly those pairs, and the first and last rows and columns by position are rows 1 and R and columns 1 and C |
| GridNorm.PlaceGrid | pyphe/analysis.py:230-232 | the grid table holds the data value at listed positions and NaN elsewhere; a listed position whose row or column label is not in the table is a KeyError |
| GridNorm.ScanMissing | pyphe/analysis.py:235-254 | missing (NaN or 0) listed controls become NaN; a position is marked iff it is within Chebyshev distance 1 of such a control; the count equals the number of missing list entries |
| GridNorm.NearMissing | pyphe/analysis.py:256 | marks outside the plate are dropped, all others are kept |
| GridNorm.RemoveGridOutliers | pyphe/analysis.py:268-283 | a grid value with \|z\| > k that is not in the table's first or last row or column (by position) becomes NaN, every other value is kept; a table without rows or columns is an IndexError |
| GridNorm.OutliersKeepEdges | pyphe/analysis.py:277-283 | for any row and column labels, outlier removal never changes a value in the table's first or last row or column and only ever clears values |
| GridNorm.ReferenceSurface | pyphe/analysis.py:297-317 | the reference surface equals the grid wherever the grid is not NaN, and the interpolated value elsewhere |
| GridNorm.Correct | pyphe/analysis.py:320-323 | with set_missing_nan, flagged positions are NaN; all others are value / reference |
| GridNorm.PrepareGrid | pyphe/analysis.py:229-292 | success iff every listed position is in the table and outlier removal, if asked, has rows and columns; the flags are the table positions next to a missing control, the count is the number of missing list entries, and the grid is the retained-controls grid |
| GridNorm.GridNormalisation | pyphe/analysis.py:210-323 | success iff the grid can be built and griddata succeeds on it; KeyError, then IndexError, then griddata's error, in source order; on success the flags, count and grid as above |
| GridNorm.NormalisedAt | pyphe/analysis.py:292-323 | at each position the grid is the control or NaN, the reference is the grid value where present and the interpolation elsewhere, and the corrected value is NaN where flagged or data / reference |
| GridNorm.RetainedControlCorrectsToOne | pyphe/analysis.py:313-320 | a retained finite non-zero control that is not flagged corrects to exactly 1 |
| GridNorm.MissingControlIsFlagged | pyphe/analysis.py:238-245 | a missing control flags its own position, so with set_missing_nan its corrected value is NaN |
| Checks.ApplyInfAction | pyphe/analysis.py:398-404 | a finite inf_action a turns +inf into a and −inf into −a; a NaN action turns both into NaN; no action leaves the table; finite and NaN cells never change |
| Checks.CheckValues | pyphe/analysis.py:373-409 | an empty table gives an empty output; otherwise the output exists iff negative_action is given, and replaces exactly the finite negative values, copying NaN, infinities and non-negative values |
| Checks.NegInfSurvivesWithoutInfAction | pyphe/analysis.py:406-409 | without inf_action a −inf is not replaced by the negative step |
| Checks.RepairedIsValid | pyphe/analysis.py:398-409 | with non-negative finite actions (the defaults 10 and 0) every output value is NaN or non-negative |
| Checks.ValidUnchanged | pyphe/analysis.py:406-409 | a table of NaN and non-negative values passes through unchanged |
| Checks.CheckValuesIdempotent | pyphe/analysis.py:398-409 | repairing the repaired output again changes nothing |
| PgcInput.LabelRow | pyphe/analysis.py:165 | int of the text before the first '-' (the whole label without one); never an IndexError |
| PgcInput.LabelColumn | pyphe/analysis.py:166 | a label without '-' is an IndexError; otherwise the column is int of the second '-'-segment |
| PgcInput.LabelRoundTrip | pyphe/analysis.py:165-166 | a label `str(r)-str(c)`, with or without further '-'-segments, reads back as row r and column c |
| PgcInput.LabelPositions | pyphe/analysis.py:165-166 | all labels parse iff each row and column parses; then position i is (row, column) of label i |
| PgcInput.Present | pyphe/analysis.py:168-169 | the kept variables are exactly those listed and present, in the listed order |
| PgcInput.PosDataKey | pyphe/analysis.py:177-180 | a variable is stored under its own name unless it is max_slope |
| PgcInput.PosDataKeysDistinct | pyphe/analysis.py:168-180 | no two result variables share a pos_data key |
| PgcInput.PivotFrame | pyphe/analysis.py:172-175 | the pivot has a cell for every occurring row × occurring column, each curve's value at its own position and NaN where no curve sits |
| PgcInput.Pivot | pyphe/analysis.py:172 | the pivot raises ValueError iff a position occurs twice |
| PgcInput.ReadPgc | pyphe/analysis.py:160-180 | the reader succeeds iff every label parses and, when some result variable is present, the positions are distinct |
| PgcInput.RawKeyNotResultVar | pyphe/analysis.py:168-178 | 'Colony_size' is not one of the result variables, so the max_slope table cannot collide with another |
| PgcInput.PivotAll | pyphe/analysis.py:171-180 | the loop over present variables succeeds iff there is none or the positions are distinct; its error is the first pivot's |
| PgcInput.PivotAllStores | pyphe/analysis.py:171-180 | after the loop exactly the present variables' keys are stored, each holding that variable's pivot |
| PgcInput.ReadPgcKeys | pyphe/analysis.py:168-180 | exactly the present variables are stored, max_slope under 'Colony_size' |
| PgcInput.ReadPgcValues | pyphe/analysis.py:171-180 | each stored table is the pivot of that variable over the labelled positions |
| GitterPaths.DataPath | pyphe/analysis.py:84 | the data file's last path segment is the image's last segment plus '.dat' |
| GitterPaths.GridImagePath | pyphe/analysis.py:85 | the gridded image's last path segment is 'gridded_' plus the image's last segment |
| GitterPaths.DataPathOfImage | pyphe/analysis.py:84 | an image dir/name maps to folder/name.dat, whatever its directory |
| GitterPaths.DataPathCollides | pyphe/analysis.py:84 | two images share a data file iff their file names agree |
| GitterPaths.GridImagePathCollides | pyphe/analysis.py:85 | two images share a gridded image iff their file names agree |
| GrowthCurves.SliceStop | pyphe/growthcurves.py:32 | the stop of numpy's `[0:k]` on n elements, negative k counting from the end |
| GrowthCurves.InitialBiomass | pyphe/growthcurves.py:32 | t0 is the mean of the first t0_fitrange values, NaN when that slice is empty |
| GrowthCurves.FirstAbove | pyphe/growthcurves.py:35-42 | the first index whose value exceeds the bound, with every earlier value not exceeding it; none iff no value exceeds it |
| GrowthCurves.FindLag | pyphe/growthcurves.py:21-45 | 'abs' returns t[i] for the least i with x[i] > threshold, 'rel' the same against threshold·t0, nothing when no value exceeds; any other method is a NameError |
| GrowthCurves.RelativeLagNeedsBaseline | pyphe/growthcurves.py:32-37 | with an empty baseline slice t0 is NaN and the relative lag is never found |
| GrowthCurves.RelativeIsScaledAbsolute | pyphe/growthcurves.py:34-42 | the relative lag equals the absolute lag at threshold·t0 |
| GrowthCurves.LinRegress | pyphe/growthcurves.py:68 | `linregress` raises ValueError iff the window is empty or has two or more timepoints, all equal; a one-point window gives NaN slope and intercept and r = 0 |
| GrowthCurves.FirstBest | pyphe/growthcurves.py:71-74 | the chosen index holds the maximal (or minimal) slope and no earlier index ties it |
| GrowthCurves.MaxByOfNumbers | pyphe/growthcurves.py:71-74 | on numeric slopes Python's `max`/`min` with a key picks the first optimal window |
| GrowthCurves.MaxByOfNaNs | pyphe/growthcurves.py:71-74 | when every slope is NaN no comparison succeeds and `max`/`min` keep the first window |
| GrowthCurves.MakeWindow | pyphe/growthcurves.py:68-76 | t_max is the mean of the window's timepoints; for one point the slope, intercepts are NaN and r² = 0; otherwise the slope and y-intercept are the regression's, r² = r_value², and x-intercept · slope = −intercept for a non-zero slope, ∓inf or NaN for a zero one |
| GrowthCurves.CandidateSlopes | pyphe/growthcurves.py:67-68 | one candidate per start 0 .. len(x)−fitrange−1, each window lying inside the curve |
| GrowthCurves.FindMaxSlope | pyphe/growthcurves.py:50-77 | succeeds iff there is a candidate window and `linregress` accepts every one (fitrange ≥ 1, no window of two or more equal timepoints); errors are ValueError; with one-point windows the first is kept, otherwise the first window of maximal (minimal) slope, ending before the last point |
| GrowthCurves.SingleFullWindowIsRejected | pyphe/growthcurves.py:67-74 | a curve exactly fitrange long has no candidate window, so the search raises |
| GrowthCurves.OnePointWindows | pyphe/growthcurves.py:67-76 | with fitrange 1 any curve of two or more points gives the first window, its NaN slope and a bad-fit warning |
| GrowthCurves.NanMax | pyphe/growthcurves.py:96 | pandas' `max` skips NaN: NaN iff every entry is NaN, otherwise an entry no numeric entry exceeds |
| GrowthCurves.NegativeSlopeFlag | pyphe/growthcurves.py:96-103 | 'WARNING' iff the curve's minimal slope is a number below −0.075 × every numeric max_slope of all curves and there is one, else '' |
| GrowthCurves.BadFitFlag | pyphe/growthcurves.py:106-111 | 'WARNING' iff r² < 0.95, else '' |
| GrowthCurves.AnalyseCurve | pyphe/growthcurves.py:48-111 | one curve's results: the lag, the max and min windows, the sum as AUC, the maximum and both flags |
| GrowthCurves.AnalyseGrowthCurves | pyphe/growthcurves.py:48-111 | a bad lag method raises NameError; a series without a candidate window, or with a window `linregress` rejects, raises ValueError; otherwise each curve's results, the negative-slope flag comparing with all curves' max slopes |
| Scan.NonBlank | pyphe/scan.py:23 | exactly the listing lines that are not blank are kept |
| Scan.NonBlankAppend | pyphe/scan.py:23 | the filter keeps the listing's order: the filter of a concatenation is the concatenation of the filters |
| Scan.NonBlankTrailing | pyphe/scan.py:20-23 | the empty last part of a listing ending in a newline is dropped |
| Scan.ScannerName | pyphe/scan.py:24 | a line with fewer than two words is an IndexError; otherwise the name is the second word without its first and last character |
| Scan.ScannerNames | pyphe/scan.py:24 | one name per line, in order, or IndexError iff some line has fewer than two words |
| Scan.FindScanner | pyphe/scan.py:10-29 | no convert tool is an ImportError, the no-scanners marker a RuntimeError; otherwise the non-blank lines' scanner names are picked at scanner_index − 1, or their IndexError passed on |
| Scan.PickScanner | pyphe/scan.py:26 | the pick succeeds iff the names were read and scanner_index − 1 is a valid Python index; a positive index gives name scanner_index − 1, a non-positive one counts from the end |
| Scan.ListIndex | pyphe/scan.py:26 | Python list indexing: valid iff −len ≤ i < len, negative indices count from the end, others are an IndexError |
| Scan.ScannerNameOfDeviceLine | pyphe/scan.py:24 | a device line "device \`name' is a …" yields name |
| Scan.FindScannerRoundTrip | pyphe/scan.py:20-26 | for a listing of device lines, index k selects the k-th device's name |
| Scan.FindScannerTrailingNewline | pyphe/scan.py:20-26 | the same when the listing ends in a newline, as `scanimage -L` prints it: the blank last part is filtered out |
| Scan.Truncate | pyphe/scan.py:44 | Python's `int()` of a float: the integer between zero and x that is within 1 of x |
| Scan.ParseInts | pyphe/scan.py:44 | every part parsed in order, or ValueError iff some part is not an integer literal |
| Scan.ScaleGeometries | pyphe/scan.py:42-45 | succeeds iff every geometry of the fixture scales; then each scaled geometry, in order |
| Scan.ScaleCoordinate | pyphe/scan.py:44 | a coordinate is unchanged at 600 dpi; otherwise it is v·resolution/600 truncated towards zero |
| Scan.ScaleGeometry | pyphe/scan.py:43-45 | a geometry with a non-integer part is a ValueError, one with fewer than four parts an IndexError; otherwise the first four scaled parts in the "AxB+C+D" shape |
| Scan.GeometryPartsOfFormat | pyphe/scan.py:44-45 | a formatted geometry splits back into its four numbers |
| Scan.ScaleFormattedGeometry | pyphe/scan.py:43-45 | scaling a formatted geometry scales its four numbers |
| Scan.ScaleGeometryAt600Idempotent | pyphe/scan.py:43-45 | re-scaling a scaled geometry at 600 dpi changes nothing |
| Scan.ScanCount | pyphe/scan.py:56 | the scan count is ⌈n/ppscan⌉; a fixture without bays is a ZeroDivisionError |
| Scan.Source | pyphe/scan.py:76 | the source is 'TPU8x10' iff the mode is 'Gray', otherwise 'Flatbed' |
| Scan.BayLabels | pyphe/scan.py:57-58 | the labels are the plate numbers followed by ppscan − 1 'empty' entries |
| Scan.BayIndexInRange | pyphe/scan.py:59-63 | every index the bay loop reads is inside the label list |
| Scan.PlateSlot | pyphe/scan.py:59-63 | every plate k < n is shown in scan k div ppscan + 1, bay k mod ppscan + 1 |
| Scan.PlateSlotUnique | pyphe/scan.py:59-63 | that slot is the only one showing plate k |
| Scan.BatchPlateFilesDistinct | pyphe/scan.py:84 | two batch crops share a file name iff their plate numbers agree |
| Scan.PlanScan | pyphe/scan.py:59-85 | scan i shows the plate labels or 'empty' in its bays and crops exactly the bays whose plate number is below n, each to prefix_{plate}_postfix.format |
| Scan.PlanBatch | pyphe/scan.py:50-85 | the batch runs ⌈n/ppscan⌉ scans in the working directory, scan j as above |
| Scan.ScanBatch | pyphe/scan.py:31-85 | an unknown fixture is a KeyError, a bad geometry its error, a fixture without bays a ZeroDivisionError; otherwise the batch plan over the scaled geometries |
| Scan.BatchCropsEveryPlate | pyphe/scan.py:57-85 | every plate is shown in its slot and cropped to its own file |
| Scan.TimecourseFile | pyphe/scan.py:135 | the image of plate q at scan i lies in the directory plate_q |
| Scan.PlateDirsDistinct | pyphe/scan.py:113-114 | the plate directories are pairwise distinct |
| Scan.TimecourseFilesDistinct | pyphe/scan.py:134-135 | two timecourse images share a path iff scan and plate agree |
| Scan.TimecourseScanAt | pyphe/scan.py:129-136 | scan i crops every bay p to plate_{p+1}/prefix_i_postfix_plate{p+1}.format |
| Scan.PlanTimecourse | pyphe/scan.py:110-136 | the timecourse makes one directory per bay and runs nscans scans as above |
| Scan.ScanTimecourse | pyphe/scan.py:91-136 | an unknown fixture is a KeyError, a bad geometry its error; otherwise the timecourse plan over the scaled geometries |
| Replicates.CountReps | pyphe/interpret.py:37-44 | the output has the input's length and position i holds the number of earlier equal elements, so the placeholder never survives |
| Replicates.RepZeroIffFirst | pyphe/interpret.py:39-42 | a position is numbered 0 iff its value has not occurred before |
| Replicates.RepNumberGrows | pyphe/interpret.py:41-43 | later occurrences of a value get strictly larger numbers |
| Replicates.RepPairsDistinct | pyphe/interpret.py:37-44 | the pairs (value, number) are pairwise distinct |
| Replicates.RepNumbersConsecutive | pyphe/interpret.py:41-43 | every number below an occurrence's number belongs to an earlier occurrence, so the numbers of a value are 0..k−1 |
| Quantify.Linspace | pyphe/quantify.py:17-18 | num values from a to b with equal gaps (b−a)/(num−1); a negative count is a ValueError |
| Quantify.MakeGrid | pyphe/quantify.py:11-26 | success iff rows ≥ 2 and cols ≥ 2; otherwise a negative count is a ValueError and a count of 0 or 1 an IndexError |
| Quantify.MakeGridPoints | pyphe/quantify.py:16-26 | the grid has min(rows, cols) points starting at (x1, y1); griddist is the mean of the column and row spacings; the warning is the evenness test on them |
| Quantify.MakeGridMissesVertices | pyphe/quantify.py:11-26 | as written a 2 × 2 grid yields only its two diagonal corners, not the vertex (10, 0) |
| Quantify.GridVertices | pyphe/quantify.py:11-26 | corrected: rows × cols vertices, the one in row r and column c at (xpos[c], ypos[r]), with the code's spacing, warning and errors |
| Quantify.ZipIsDiagonal | pyphe/quantify.py:16-26 | the code's i-th point is the corrected grid's vertex in row i and column i |
| Quantify.MakeGridSteps | pyphe/quantify.py:17-26 | consecutive grid points differ by the column spacing in x and the row spacing in y |
| Quantify.UnevenSpacingMeaning | pyphe/quantify.py:22-24 | for a positive mean spacing the warning fires iff the spacings differ by more than a tenth of their mean; a zero mean warns iff they differ; a negative mean never warns |
| Quantify.SquareGrid | pyphe/quantify.py:20-26 | equal spacings give that spacing as griddist and no warning |
| Quantify.GridEndsAtCorner | pyphe/quantify.py:17-26 | with as many rows as columns the last point is (x2, y2) |
| Quantify.SizeThreshold | pyphe/quantify.py:43-48 | a truthy hard size threshold wins; otherwise s·H·W/100000 |
| Quantify.ZeroSizeOverrideFallsBack | pyphe/quantify.py:44-48 | a hard size threshold of 0 gives the computed default |
| Quantify.ImageThresholdAsWritten | pyphe/quantify.py:37-40 | without a truthy hard threshold the code raises TypeError |
| Quantify.DefaultImageThresholdFails | pyphe/quantify.py:37-40 | no hard threshold, or a zero one, fails as written, while the corrected threshold is t × Otsu |
| Quantify.ImageThreshold | pyphe/quantify.py:37-40 | corrected: a truthy hard threshold wins, otherwise t × Otsu's threshold |
| Quantify.ImageThresholdExtendsAsWritten | pyphe/quantify.py:37-40 | the corrected threshold agrees with the code wherever the code succeeds |
| Quantify.Threshold | pyphe/quantify.py:42 | the mask has the image's shape and is true exactly where the pixel exceeds the threshold |
| Quantify.ThresholdMonotone | pyphe/quantify.py:42 | a higher threshold selects a subset of the pixels |
| Quantify.MakeMask | pyphe/quantify.py:32-48 | the foreground mask uses the corrected image threshold and the size threshold uses the image's height and width |
| Text.ParseInt | pyphe/scan.py:44 | Python's int(s) succeeds iff the text stripped of Python whitespace is a signed ASCII decimal literal, else ValueError |
| Text.ParseLiteral | pyphe/scan.py:44 | on stripped text int succeeds iff it is an optional sign followed by one or more digits; anything else is a ValueError |
| Text.ParseIntOfIntToString | pyphe/scan.py:44 | int(str(n)) == n |
| Text.SplitJoin | pyphe/scan.py:44 | splitting the join of separator-free parts gives the parts back |
| Text.LastSegmentAfter | pyphe/analysis.py:84 | the last '/'-segment of a + '/' + b is b when b has no '/' |
| Text.StripEmptyIffBlank | pyphe/scan.py:23 | `s.strip() == ''` iff every character is Python whitespace, non-ASCII spaces included |
| Results.MapAll | pyphe/scan.py:43-45 | a list comprehension over a raising function gives all results in order, or the first element's exception |

## Left out

- Floating-point rounding: finite floats are exact reals. `int(int(x)*(resolution/600.0))` is modelled as exact truncation, and the growth-curve sums and means are exact.
- Scan.ScaleCoordinate: exact truncation of x·resolution/600, which can differ from the float product by one near integer boundaries.
- The linear regression per window, the z-score mean and standard deviation, the cubic `griddata` interpolation and Otsu's threshold are parameters, not computed.
- Corner extrapolation in grid normalisation and its sklearn regression (pyphe/analysis.py:286-289, 542-559): floating-point arithmetic on fitted coefficients.
- `remove_small_objects`, `clear_border` and `invert`: skimage image operations. Quantify.MakeMask stops at the thresholded mask and the size threshold.
- `match_to_grid`, `quantify_batch`, `quantify_timecourse`, `quantify_redness` and `single_image_batchMode`: stubs or unfinished, partly not Python. The module itself does not import (`from warning import warn`), so make_grid and make_mask are modelled as functions on their own.
- Running scanimage and convert, the interactive "enter y" loop, `sleep`, `mkdir`, the scan log and the timepoint file: I/O. The scan operations return the file names and crops instead. The full command strings are not modelled, only their file-name parts.
- The "convert" tool check becomes a boolean input and the scanner listing a string input of Scan.FindScanner.
- CSV reading and writing, plotting and PDF output, `rcmedian_normalisation` and the experiment table checks.
- The `interpret` function body: incomplete and not valid Python. Only `count_reps` is modelled.
- build/lib/pyphe/growthcurves.py: a stale build copy whose `find_lag` is line-identical and whose `find_max_slope` is the max-only case, so the model covers it.
- GrowthCurves.AnalyseGrowthCurves: with no curves at all it returns no results. pandas' behaviour of `apply` on an empty frame is not modelled.
- NaN sizes inside growth curves: curve values are finite reals.
- GrowthCurves.FindMaxSlope: fitrange is a number of timepoints, so it is a natural number. A negative fitrange, for which Python's `range(len(x)-fitrange)` reaches an empty slice and `linregress` raises ValueError, cannot be expressed.
- Checks.CheckValues: the console report of infinite and negative positions is not modelled.
- GridNorm.GridNormalisation: the console messages are not modelled. Neither are the tables an error leaves behind in pos_data: 'Near_missing_grid' is stored before the IndexError of outlier removal, and 'Grid' before a griddata failure.
- GridNorm.GridNormalisation: when griddata fails is an input of the model; scipy raises when the retained controls cannot be triangulated (fewer than three, or all on one line), which depends on Qhull and is not computed.
- Layout.PipelinePlan: layouts loading and QC plots are not part of the plan.
- PgcInput.ReadPgc: labels are taken as given strings. A position table that pandas would sort is kept as a map, so row and column order play no part.
- Text.ParseInt: Python's int() also accepts single underscores between digits and non-ASCII decimal digits; the model rejects both. Whitespace is Python's full set.

## Findings

| source | as written | input that shows it | evidently intended | confidence | as-written member | corrected member |
|---|---|---|---|---|---|---|
| pyphe/quantify.py:11-26 | `zip(xpos, ypos)` pairs the i-th x position with the i-th y position, while the docstring promises all vertices | `make_grid((2, 2, 0, 0, 10, 10))`: yields (0, 0) and (10, 10) only, not (10, 0) or (0, 10) | every x position with every y position | medium; not executed | Quantify.MakeGrid (with Quantify.MakeGridMissesVertices) | Quantify.GridVertices (with Quantify.ZipIsDiagonal) |
| pyphe/quantify.py:40 | `thresh = t*threshold_otsu` multiplies the number t with the function object `threshold_otsu` | `make_mask(image)` with no hard threshold (or with 0): raises TypeError | `thresh = t*threshold_otsu(image)` | high; not executed | Quantify.ImageThresholdAsWritten (with Quantify.DefaultImageThresholdFails) | Quantify.ImageThreshold (with Quantify.ImageThresholdExtendsAsWritten, used by Quantify.MakeMask) |
